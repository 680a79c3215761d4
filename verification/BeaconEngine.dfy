/**
 consensus/engine_beacon.py: the latest-message table in front of Beacon finality, and the
 bound it puts on the weight counted in an epoch.
 */
module BeaconEngine {
  import opened Wrappers
  import opened Sums
  import opened Lmd
  import FinalityVotes
  import Ghost
  import GhostHead
  import BlockTree

  // ----- ConsensusEngineBeacon -----

  datatype Engine = Engine(latest: map<string, Vote>, stakes: map<string, int>, finality: FinalityVotes.State)

  predicate LmdAccepts(latest: map<string, Vote>, stakes: map<string, int>, v: string, slot: int) {
    v in stakes && (v !in latest || slot > latest[v].slot)
  }

  function AddFinalityVote(s: FinalityVotes.State, epoch: int, block: string, weight: int): FinalityVotes.State {
    FinalityVotes.BeaconStep(s, FinalityVotes.Vote(epoch, block, weight))
  }

  /** The latest-message table decides whether the attestation counts at all. */
  function Attest(e: Engine, size: int, v: string, block: string, slot: int): Engine
    requires size > 0
  {
    if LmdAccepts(e.latest, e.stakes, v, slot) then
      e.(latest := e.latest[v := Vote(block, slot)],
         finality := AddFinalityVote(e.finality, slot / size, block, e.stakes[v]))
    else e
  }

  class ConsensusEngineBeacon {
    const epochSize: int
    const lmd: LMDTable
    const finality: FinalityVotes.BeaconFinality
    var tree: Ghost.Tree

    ghost predicate Valid()
      reads this, finality
    {
      finality.Valid() && finality.epochSize == epochSize && epochSize > 0
    }

    ghost function Value(): Engine
      reads this, lmd, finality
    {
      Engine(lmd.latestVote, lmd.validatorStake, finality.Value())
    }

    constructor (epochSize: int)
      requires epochSize > 0
      ensures Valid() && this.epochSize == epochSize
      ensures Value() == Engine(map[], map[], FinalityVotes.EMPTY) && tree == map[]
      ensures fresh(lmd) && fresh(finality)
    {
      this.epochSize := epochSize;
      lmd := new LMDTable();
      finality := new FinalityVotes.BeaconFinality(epochSize);
      tree := map[];
    }

    method AddValidator(v: string, stake: int)
      requires Valid()
      modifies lmd, finality
      ensures Valid()
      ensures var stakes := old(lmd.validatorStake)[v := stake];
              Value() == Engine(old(lmd.latestVote), stakes, old(finality.Value()).(totalStake := TotalStake(stakes)))
    {
      lmd.AddValidator(v, stake);
      var total := lmd.TotalStake();
      finality.SetTotalStake(total);
    }

    method AddBlock(block: string, parent: Option<string>, number: int)
      modifies this`tree
      ensures tree == BlockTree.AddBlock(old(tree), block, parent, number)
    {
      if block !in tree {
        tree := tree[block := Ghost.Node(parent, [], number)];
      }
      if parent.Some? {
        if parent.value !in tree {
          tree := tree[parent.value := Ghost.Node(None, [], 0)];
        }
        if block !in tree[parent.value].children {
          tree := tree[parent.value := tree[parent.value].(children := tree[parent.value].children + [block])];
        }
      }
    }

    method OnAttestation(v: string, block: string, slot: int) returns (ok: bool)
      requires Valid()
      modifies lmd, finality
      ensures Valid()
      ensures ok == LmdAccepts(old(lmd.latestVote), old(lmd.validatorStake), v, slot)
      ensures Value() == Attest(old(Value()), epochSize, v, block, slot)
    {
      hide FinalityVotes.BeaconEvaluate, FinalityVotes.Counted;
      ok := lmd.Update(v, block, slot);
      if ok {
        var stake := if v in lmd.validatorStake then lmd.validatorStake[v] else 0;
        finality.AddVote(block, slot, stake);
      }
    }
  }

  /**
   What an attestation changes: from a registered validator with a newer slot it becomes the latest
   vote and adds the validator's stake to its block in the epoch of the slot, and nowhere else; any
   other attestation changes nothing.
   */
  lemma AttestationCounts(e: Engine, size: int, v: string, block: string, slot: int, epoch: int, other: string)
    requires size > 0
    ensures var t := Attest(e, size, v, block, slot);
            var before := FinalityVotes.WeightIn(FinalityVotes.TallyAt(e.finality, epoch), other);
            var after := FinalityVotes.WeightIn(FinalityVotes.TallyAt(t.finality, epoch), other);
            if v in e.stakes && (v in e.latest ==> slot > e.latest[v].slot) then
              && t.latest == e.latest[v := Vote(block, slot)] && t.stakes == e.stakes
              && after == before + (if epoch == slot / size && other == block then e.stakes[v] else 0)
            else t == e
  {
    hide FinalityVotes.Best, FinalityVotes.Threshold, FinalityVotes.AddTo, FinalityVotes.WeightIn;
    FinalityVotes.AddToMeaning(FinalityVotes.TallyAt(e.finality, slot / size), block,
                               if v in e.stakes then e.stakes[v] else 0, other);
  }

  /**
   `get_head` of an engine, from its tree and its votes: a leaf of the tree, below every block
   whose subtree holds more than half of the stake voting in the tree.
   */
  method GetHead(tree: Ghost.Tree, order: seq<string>, lmd: LMDTable, ghost rank: string -> nat, ghost root: string)
    returns (head: Option<string>)
    requires BlockTree.Rooted(tree, rank, root) && forall h :: h in order <==> h in tree
    ensures head.Some? && GhostHead.Descends(tree, rank, root, head.value)
    ensures (forall v :: v in lmd.validatorStake ==> lmd.validatorStake[v] >= 0) ==>
              Ghost.Children(tree, head.value) == []
    ensures (forall v :: v in lmd.validatorStake ==> lmd.validatorStake[v] >= 0) ==>
              forall b :: b in tree && HasMajority(tree, rank, b, lmd.latestVote, lmd.validatorStake) ==>
                GhostHead.Descends(tree, rank, b, head.value)
  {
    hide BlockTree.Rooted, HasMajority, GhostHead.Descends, GhostHead.Head;
    var weights := lmd.GetWeights();
    RootIsFirst(tree, order, rank, root);
    head := GhostHead.SelectHead(tree, order, weights, rank);
    GhostHead.HeadDescends(tree, Ghost.Get(weights), rank, root);
    if forall v :: v in lmd.validatorStake ==> lmd.validatorStake[v] >= 0 {
      HeadIsLeafOfVotes(tree, rank, root, lmd.latestVote, lmd.validatorStake, weights);
      forall b | b in tree && HasMajority(tree, rank, b, lmd.latestVote, lmd.validatorStake)
        ensures GhostHead.Descends(tree, rank, b, head.value)
      {
        HeadIsBelowMajority(tree, rank, root, b, lmd.latestVote, lmd.validatorStake, weights);
      }
    }
  }

  /** The latest votes below `b` carry more than half of the stake of all votes in the tree. */
  ghost predicate HasMajority(tree: Ghost.Tree, rank: string -> nat, b: string, latest: map<string, Vote>, stakes: map<string, int>)
    requires Ghost.Ranked(tree, rank)
  {
    2 * StakeBehind(latest, stakes, BlockTree.Subtree(tree, rank, b)) > StakeBehind(latest, stakes, tree.Keys)
  }

  lemma RootIsFirst(tree: Ghost.Tree, order: seq<string>, rank: string -> nat, root: string)
    requires BlockTree.Rooted(tree, rank, root) && forall h :: h in order <==> h in tree
    ensures Ghost.Ranked(tree, rank) && GhostHead.FirstRoot(tree, order) == Some(root)
  {
    GhostHead.SingleRootIsFirst(tree, order, root);
  }

  lemma HeadIsLeafOfVotes(tree: Ghost.Tree, rank: string -> nat, root: string, latest: map<string, Vote>,
                          stakes: map<string, int>, weights: map<string, int>)
    requires Ghost.Ranked(tree, rank) && forall v :: v in stakes ==> stakes[v] >= 0
    requires forall x :: Ghost.Get(weights)(x) == BlockWeight(latest, stakes)(x)
    ensures Ghost.Children(tree, GhostHead.Head(tree, Ghost.Get(weights), rank, root)) == []
  {
    hide BlockWeight, GhostHead.Head;
    BlockTree.BlockWeightsAreNonNegative(latest, stakes);
    forall x ensures Ghost.Get(weights)(x) >= 0 { assert Ghost.Get(weights)(x) == BlockWeight(latest, stakes)(x); }
    GhostHead.HeadIsLeaf(tree, Ghost.Get(weights), rank, root);
  }

  lemma HeadIsBelowMajority(tree: Ghost.Tree, rank: string -> nat, root: string, b: string, latest: map<string, Vote>,
                            stakes: map<string, int>, weights: map<string, int>)
    requires BlockTree.Rooted(tree, rank, root) && b in tree && forall v :: v in stakes ==> stakes[v] >= 0
    requires forall x :: Ghost.Get(weights)(x) == BlockWeight(latest, stakes)(x)
    requires HasMajority(tree, rank, b, latest, stakes)
    ensures GhostHead.Descends(tree, rank, b, GhostHead.Head(tree, Ghost.Get(weights), rank, root))
  {
    hide GhostHead.Head, GhostHead.Descends, StakeBehind, BlockWeight;
    BlockTree.StakeMajorityWins(tree, rank, root, b, latest, stakes, weights);
  }

  // ----- the epoch counting bound -----

  /** How many slots of the epoch lie at or before the validator's latest vote. */
  function SlotsUsed(latest: map<string, Vote>, size: int, epoch: int, v: string): int
    requires size > 0
  {
    if v !in latest then 0
    else
      var n := latest[v].slot + 1 - epoch * size;
      if n < 0 then 0 else if n > size then size else n
  }

  /** The most that `v` can have contributed to the epoch's tally so far. */
  function Allowed(e: Engine, size: int, epoch: int, v: string): int
    requires size > 0
  {
    StakeOf(e.stakes)(v) * SlotsUsed(e.latest, size, epoch, v)
  }

  ghost function Allowance(e: Engine, size: int, epoch: int): string -> int
    requires size > 0
  {
    (v: string) => Allowed(e, size, epoch, v)
  }

  /** The weight counted in an epoch is covered by stake times slots already passed. */
  ghost predicate Covered(e: Engine, size: int)
    requires size > 0
  {
    forall epoch :: FinalityVotes.TallyTotal(FinalityVotes.TallyAt(e.finality, epoch))
                    <= Sum(e.stakes.Keys, Allowance(e, size, epoch))
  }

  lemma SlotInEpoch(slot: int, size: int)
    requires size > 0
    ensures (slot / size) * size <= slot < (slot / size) * size + size
  {
  }

  lemma SlotsUsedGrows(latest: map<string, Vote>, size: int, epoch: int, v: string, block: string, slot: int)
    requires size > 0 && (v !in latest || slot > latest[v].slot)
    ensures var after := latest[v := Vote(block, slot)];
            && SlotsUsed(after, size, epoch, v) >= SlotsUsed(latest, size, epoch, v)
            && (epoch == slot / size ==> SlotsUsed(after, size, epoch, v) >= SlotsUsed(latest, size, epoch, v) + 1)
  {
    SlotInEpoch(slot, size);
  }

  lemma VoteAddsToOneTally(s: FinalityVotes.State, epoch: int, block: string, weight: int, other: int)
    ensures var t := AddFinalityVote(s, epoch, block, weight);
            FinalityVotes.TallyTotal(FinalityVotes.TallyAt(t, other))
            == FinalityVotes.TallyTotal(FinalityVotes.TallyAt(s, other)) + (if other == epoch then weight else 0)
  {
    hide FinalityVotes.Best, FinalityVotes.Threshold, FinalityVotes.AddTo;
    FinalityVotes.AddToTotal(FinalityVotes.TallyAt(s, epoch), block, weight);
  }

  lemma AttestKeepsCovered(e: Engine, size: int, v: string, block: string, slot: int)
    requires size > 0 && Covered(e, size) && forall x :: x in e.stakes ==> e.stakes[x] >= 0
    ensures Covered(Attest(e, size, v, block, slot), size)
  {
    hide FinalityVotes.BeaconStep, FinalityVotes.TallyTotal, FinalityVotes.TallyAt, Sum;
    var e' := Attest(e, size, v, block, slot);
    if LmdAccepts(e.latest, e.stakes, v, slot) {
      forall epoch ensures FinalityVotes.TallyTotal(FinalityVotes.TallyAt(e'.finality, epoch))
                           <= Sum(e'.stakes.Keys, Allowance(e', size, epoch)) {
        VoteAddsToOneTally(e.finality, slot / size, block, e.stakes[v], epoch);
        AllowanceGrows(e, size, v, block, slot, epoch);
      }
    }
  }

  lemma AllowanceGrows(e: Engine, size: int, v: string, block: string, slot: int, epoch: int)
    requires size > 0 && LmdAccepts(e.latest, e.stakes, v, slot) && forall x :: x in e.stakes ==> e.stakes[x] >= 0
    ensures var e' := Attest(e, size, v, block, slot);
            Sum(e'.stakes.Keys, Allowance(e', size, epoch))
            >= Sum(e.stakes.Keys, Allowance(e, size, epoch)) + (if epoch == slot / size then e.stakes[v] else 0)
  {
    hide FinalityVotes.BeaconStep, Sum, Allowed;
    var e' := Attest(e, size, v, block, slot);
    var f, g := Allowance(e, size, epoch), Allowance(e', size, epoch);
    SumRemove(e.stakes.Keys, f, v);
    SumRemove(e.stakes.Keys, g, v);
    forall x | x in e.stakes.Keys - {v} ensures f(x) == g(x) {
      AllowedOfOthers(e, size, v, block, slot, epoch, x);
    }
    SumCongruent(e.stakes.Keys - {v}, f, g);
    AllowedOfVoter(e, size, v, block, slot, epoch);
  }

  lemma AllowedOfOthers(e: Engine, size: int, v: string, block: string, slot: int, epoch: int, x: string)
    requires size > 0 && x != v
    ensures Allowed(Attest(e, size, v, block, slot), size, epoch, x) == Allowed(e, size, epoch, x)
  {
    hide FinalityVotes.BeaconStep;
  }

  lemma AllowedOfVoter(e: Engine, size: int, v: string, block: string, slot: int, epoch: int)
    requires size > 0 && LmdAccepts(e.latest, e.stakes, v, slot) && e.stakes[v] >= 0
    ensures Allowed(Attest(e, size, v, block, slot), size, epoch, v)
            >= Allowed(e, size, epoch, v) + (if epoch == slot / size then e.stakes[v] else 0)
  {
    hide FinalityVotes.BeaconStep, SlotsUsed;
    var e' := Attest(e, size, v, block, slot);
    SlotsUsedGrows(e.latest, size, epoch, v, block, slot);
    var d := if epoch == slot / size then 1 else 0;
    ProductGrows(e.stakes[v], SlotsUsed(e.latest, size, epoch, v), SlotsUsed(e'.latest, size, epoch, v), d);
  }

  lemma ProductGrows(stake: int, a: int, b: int, d: int)
    requires stake >= 0 && a + d <= b
    ensures stake * b >= stake * a + stake * d
  {
    var r := b - a - d;
    assert stake * r >= 0;
    assert stake * b == stake * (a + d + r) == stake * a + stake * d + stake * r;
  }

  datatype Attestation = Attestation(v: string, block: string, slot: int)

  function Run(e: Engine, size: int, xs: seq<Attestation>): Engine
    requires size > 0
  {
    if xs == [] then e
    else
      var last := |xs| - 1;
      Attest(Run(e, size, xs[..last]), size, xs[last].v, xs[last].block, xs[last].slot)
  }

  ghost function TotalStake(stakes: map<string, int>): int {
    Sum(stakes.Keys, StakeOf(stakes))
  }

  lemma {:induction false} RunKeepsCovered(e: Engine, size: int, xs: seq<Attestation>)
    requires size > 0 && Covered(e, size) && forall x :: x in e.stakes ==> e.stakes[x] >= 0
    ensures Covered(Run(e, size, xs), size) && Run(e, size, xs).stakes == e.stakes
  {
    hide Covered, FinalityVotes.BeaconStep;
    if xs != [] {
      var last := |xs| - 1;
      RunKeepsCovered(e, size, xs[..last]);
      AttestKeepsCovered(Run(e, size, xs[..last]), size, xs[last].v, xs[last].block, xs[last].slot);
    }
  }

  /** An engine with registered validators and no votes. */
  ghost function Registered(stakes: map<string, int>): Engine {
    Engine(map[], stakes, FinalityVotes.EMPTY.(totalStake := TotalStake(stakes)))
  }

  /**
   Epoch counting bound: from an engine with registered validators and no votes, after any
   attestations in any order, the weight over all blocks of an epoch is at most
   epoch_size times the total stake.
   */
  lemma EpochWeightIsBounded(stakes: map<string, int>, size: int, xs: seq<Attestation>, epoch: int)
    requires size > 0 && forall x :: x in stakes ==> stakes[x] >= 0
    ensures var e := Run(Registered(stakes), size, xs);
            FinalityVotes.TallyTotal(FinalityVotes.TallyAt(e.finality, epoch)) <= size * TotalStake(stakes)
  {
    var start := Registered(stakes);
    forall k ensures FinalityVotes.TallyTotal(FinalityVotes.TallyAt(start.finality, k)) <= Sum(stakes.Keys, Allowance(start, size, k)) {
      forall v | v in stakes.Keys ensures Allowance(start, size, k)(v) == 0 {
        assert SlotsUsed(start.latest, size, k, v) == 0;
      }
      SumZero(stakes.Keys, Allowance(start, size, k));
    }
    RunKeepsCovered(start, size, xs);
    var e := Run(start, size, xs);
    AllowanceIsBounded(e, size, epoch);
  }

  lemma AllowanceIsBounded(e: Engine, size: int, epoch: int)
    requires size > 0 && forall x :: x in e.stakes ==> e.stakes[x] >= 0
    ensures Sum(e.stakes.Keys, Allowance(e, size, epoch)) <= size * TotalStake(e.stakes)
  {
    hide Sum, Allowed;
    var full := (v: string) => size * StakeOf(e.stakes)(v);
    forall v | v in e.stakes ensures Allowance(e, size, epoch)(v) <= full(v) {
      AllowedIsBounded(e, size, epoch, v);
    }
    SumMonotone(e.stakes.Keys, Allowance(e, size, epoch), full);
    SumScaled(e.stakes.Keys, StakeOf(e.stakes), full, size);
  }

  lemma AllowedIsBounded(e: Engine, size: int, epoch: int, v: string)
    requires size > 0 && v in e.stakes && e.stakes[v] >= 0
    ensures Allowed(e, size, epoch, v) <= size * StakeOf(e.stakes)(v)
  {
    var n := SlotsUsed(e.latest, size, epoch, v);
    assert 0 <= n <= size;
    ProductGrows(e.stakes[v], n, size, 0);
  }
}
