/**
 consensus/engine_slashing.py: the slashing engine in front of fork choice and Beacon
 finality, and what it does not bound.
 */
module SlashingGate {
  import opened Wrappers
  import opened Lmd
  import opened Sums
  import opened BeaconEngine
  import FinalityVotes
  import Slashing
  import Ghost
  import GhostHead
  import BlockTree

  datatype Guarded = Guarded(
    slashing: Slashing.State, latest: map<string, Vote>, stakes: map<string, int>,
    blocks: set<string>, finality: FinalityVotes.State)

  datatype Reply = Reply(e: Guarded, ok: bool)

  /** Here the answer of the latest-message table is ignored: an accepted vote always counts. */
  ghost function AttestSlashing(e: Guarded, size: int, v: string, block: string, slot: int): Reply
    requires size > 0
  {
    var r := Slashing.RecordVote(e.slashing, v, slot, block);
    if !r.ok then Reply(e.(slashing := r.s), false)
    else
      var stake := Slashing.Stake(r.s, v);
      var latest := if stake > 0 && LmdAccepts(e.latest, e.stakes, v, slot)
                    then e.latest[v := Vote(block, slot)] else e.latest;
      var finality := if stake > 0 && block in e.blocks
                      then AddFinalityVote(e.finality, slot / size, block, stake) else e.finality;
      Reply(Guarded(r.s, latest, e.stakes, e.blocks,
                           finality.(totalStake := Slashing.ActiveStake(r.s))), true)
  }

  const START: Guarded := Guarded(Slashing.EMPTY, map[], map[], {}, FinalityVotes.EMPTY)

  /** `add_validator`: registered everywhere, and the finality threshold follows the active stake. */
  ghost function Enrol(e: Guarded, v: string, stake: int): Guarded {
    var slashing := e.slashing.(stakes := e.slashing.stakes[v := stake]);
    Guarded(slashing, e.latest, e.stakes[v := stake], e.blocks, e.finality.(totalStake := Slashing.ActiveStake(slashing)))
  }

  class ConsensusEngineSlashing {
    const epochSize: int
    const lmd: LMDTable
    const finality: FinalityVotes.BeaconFinality
    const slashing: Slashing.SlashingEngine
    var blocks: set<string>
    var tree: Ghost.Tree

    ghost predicate Valid()
      reads this, finality
    {
      finality.Valid() && finality.epochSize == epochSize && epochSize > 0
    }

    ghost function Value(): Guarded
      reads this, lmd, finality, slashing
    {
      Guarded(slashing.Value(), lmd.latestVote, lmd.validatorStake, blocks, finality.Value())
    }

    constructor (epochSize: int)
      requires epochSize > 0
      ensures Valid() && this.epochSize == epochSize && fresh(lmd) && fresh(finality) && fresh(slashing)
      ensures Value() == START && tree == map[]
    {
      this.epochSize := epochSize;
      lmd := new LMDTable();
      finality := new FinalityVotes.BeaconFinality(epochSize);
      slashing := new Slashing.SlashingEngine();
      blocks, tree := {}, map[];
    }

    method AddValidator(v: string, stake: int)
      requires Valid()
      modifies lmd, finality, slashing
      ensures Valid()
      ensures Value() == Enrol(old(Value()), v, stake)
    {
      lmd.AddValidator(v, stake);
      slashing.RegisterValidator(v, stake);
      var active := slashing.GetTotalActiveStake();
      finality.SetTotalStake(active);
    }

    method AddBlock(block: string, parent: Option<string>, number: int)
      modifies this`blocks, this`tree
      ensures tree == BlockTree.AddBlock(old(tree), block, parent, number)
      ensures Value() == old(Value()).(blocks := old(blocks) + {block})
    {
      blocks := blocks + {block};
      if block !in tree {
        tree := tree[block := Ghost.Node(parent, [], number)];
      }
      if parent.Some? {
        if parent.value !in tree {
          tree := tree[parent.value := Ghost.Node(None, [], 0)];
        }
        if block !in tree[parent.value].children {
          tree := tree[parent.value := tree[parent.value].(children := tree[parent.value].children + [block])];
        }
      }
    }

    method OnAttestation(v: string, block: string, slot: int) returns (ok: bool)
      requires Valid()
      modifies lmd, finality, slashing
      ensures Valid()
      ensures Reply(Value(), ok) == AttestSlashing(old(Value()), epochSize, v, block, slot)
    {
      hide FinalityVotes.BeaconEvaluate, FinalityVotes.Counted, Slashing.RecordVote, Slashing.ActiveStake;
      ok := slashing.AddVote(v, slot, block);
      if !ok { return false; }
      var stake := slashing.GetStake(v);
      if stake > 0 {
        var _ := lmd.Update(v, block, slot);
        if block in blocks {
          finality.AddVote(block, slot, stake);
        }
      }
      var active := slashing.GetTotalActiveStake();
      finality.SetTotalStake(active);
      return true;
    }
  }

  /**
   What an attestation changes. Of a slashed validator, or against a recorded vote, it reaches neither
   fork choice nor finality. Otherwise it is recorded; with positive stake it enters the
   latest-message table if its slot is newer and, for a known block, adds that stake to the block in
   the epoch of the slot; and the total stake is refreshed.
   */
  lemma AttestationEffects(e: Guarded, size: int, v: string, block: string, slot: int)
    requires size > 0
    ensures var r := AttestSlashing(e, size, v, block, slot);
            var stake := if v in e.slashing.stakes then e.slashing.stakes[v] else 0;
            && (r.ok <==> v !in e.slashing.slashed
                          && (v in e.slashing.votes && slot in e.slashing.votes[v] ==> e.slashing.votes[v][slot] == block))
            && r.e.stakes == e.stakes && r.e.blocks == e.blocks
            && r.e.latest == (if r.ok && stake > 0 && v in e.stakes && (v in e.latest ==> slot > e.latest[v].slot)
                              then e.latest[v := Vote(block, slot)] else e.latest)
            && (!(r.ok && stake > 0 && block in e.blocks) ==>
                  r.e.finality == if r.ok then e.finality.(totalStake := r.e.finality.totalStake) else e.finality)
            && (r.ok ==> r.e.finality.totalStake == Slashing.ActiveStake(r.e.slashing))
  {
    hide FinalityVotes.BeaconStep, Slashing.ActiveStake;
  }

  /** With stake and a known block, the stake is added to that block in the epoch of the slot, and nowhere else. */
  lemma AttestationWeight(e: Guarded, size: int, v: string, block: string, slot: int, epoch: int, other: string)
    requires size > 0 && AttestSlashing(e, size, v, block, slot).ok && block in e.blocks
    requires v in e.slashing.stakes && e.slashing.stakes[v] > 0
    ensures var r := AttestSlashing(e, size, v, block, slot).e;
            FinalityVotes.WeightIn(FinalityVotes.TallyAt(r.finality, epoch), other)
            == FinalityVotes.WeightIn(FinalityVotes.TallyAt(e.finality, epoch), other)
               + (if epoch == slot / size && other == block then e.slashing.stakes[v] else 0)
  {
    hide FinalityVotes.BeaconEvaluate, FinalityVotes.AddTo, FinalityVotes.WeightIn, Slashing.ActiveStake, Slashing.RecordVote;
    var counted := FinalityVotes.Counted(e.finality, slot / size, block, e.slashing.stakes[v]);
    FinalityVotes.AddToMeaning(FinalityVotes.TallyAt(e.finality, slot / size), block, e.slashing.stakes[v], other);
    FinalityVotes.StepCounts(e.finality, FinalityVotes.Vote(slot / size, block, e.slashing.stakes[v]));
    assert Slashing.Stake(Slashing.RecordVote(e.slashing, v, slot, block).s, v) == e.slashing.stakes[v] by {
      StakeAfterVote(e.slashing, v, slot, block);
    }
  }

  lemma StakeAfterVote(s: Slashing.State, v: string, slot: int, block: string)
    requires Slashing.RecordVote(s, v, slot, block).ok && v in s.stakes
    ensures Slashing.Stake(Slashing.RecordVote(s, v, slot, block).s, v) == s.stakes[v]
  {
  }

  ghost function Repeat(e: Guarded, size: int, v: string, block: string, slot: int, n: nat): Guarded
    requires size > 0
  {
    if n == 0 then e else AttestSlashing(Repeat(e, size, v, block, slot, n - 1), size, v, block, slot).e
  }

  /** One vote of a validator in good standing enters the tally with its stake, repeated or not. */
  lemma RepeatedVoteCounts(e: Guarded, size: int, v: string, block: string, slot: int)
    requires size > 0 && v !in e.slashing.slashed && v in e.slashing.stakes && e.slashing.stakes[v] > 0
    requires block in e.blocks && (slot in Slashing.VotesOf(e.slashing, v) ==> Slashing.VotesOf(e.slashing, v)[slot] == block)
    ensures var r := AttestSlashing(e, size, v, block, slot);
            && r.ok
            && v !in r.e.slashing.slashed && r.e.slashing.stakes == e.slashing.stakes && r.e.blocks == e.blocks
            && slot in Slashing.VotesOf(r.e.slashing, v) && Slashing.VotesOf(r.e.slashing, v)[slot] == block
            && FinalityVotes.TallyTotal(FinalityVotes.TallyAt(r.e.finality, slot / size))
               == FinalityVotes.TallyTotal(FinalityVotes.TallyAt(e.finality, slot / size)) + e.slashing.stakes[v]
  {
    hide FinalityVotes.BeaconStep, Slashing.ActiveStake;
    VoteAddsToOneTally(e.finality, slot / size, block, e.slashing.stakes[v], slot / size);
  }

  /**
   The counting bound does not hold for the slashing engine: repeating one identical
   attestation n times is accepted every time and adds the validator's stake n times.
   */
  lemma {:induction false} RepeatsAreUnbounded(e: Guarded, size: int, v: string, block: string, slot: int, n: nat)
    requires size > 0 && v !in e.slashing.slashed && v in e.slashing.stakes && e.slashing.stakes[v] > 0
    requires block in e.blocks && slot !in Slashing.VotesOf(e.slashing, v)
    ensures var t := Repeat(e, size, v, block, slot, n);
            && v !in t.slashing.slashed && t.slashing.stakes == e.slashing.stakes && t.blocks == e.blocks
            && (slot in Slashing.VotesOf(t.slashing, v) ==> Slashing.VotesOf(t.slashing, v)[slot] == block)
            && FinalityVotes.TallyTotal(FinalityVotes.TallyAt(t.finality, slot / size))
               == FinalityVotes.TallyTotal(FinalityVotes.TallyAt(e.finality, slot / size)) + n * e.slashing.stakes[v]
  {
    hide AttestSlashing, FinalityVotes.TallyTotal, Slashing.VotesOf;
    if n > 0 {
      RepeatsAreUnbounded(e, size, v, block, slot, n - 1);
      RepeatedVoteCounts(Repeat(e, size, v, block, slot, n - 1), size, v, block, slot);
      assert (n - 1) * e.slashing.stakes[v] + e.slashing.stakes[v] == n * e.slashing.stakes[v];
    }
  }

  lemma SlashedIsIgnored(e: Guarded, size: int, v: string, block: string, slot: int)
    requires size > 0 && v in e.slashing.slashed
    ensures AttestSlashing(e, size, v, block, slot) == Reply(e, false)
  {
  }

  // ----- whole runs -----

  datatype Event = Validator(v: string, stake: int) | NewBlock(block: string) | Attestation(v: string, block: string, slot: int)

  ghost function Step(e: Guarded, size: int, x: Event): Reply
    requires size > 0
  {
    match x
    case Validator(v, stake) => Reply(Enrol(e, v, stake), true)
    case NewBlock(block) => Reply(e.(blocks := e.blocks + {block}), true)
    case Attestation(v, block, slot) => AttestSlashing(e, size, v, block, slot)
  }

  ghost function Run(start: Guarded, size: int, xs: seq<Event>): Guarded
    requires size > 0
  {
    if xs == [] then start else Step(Run(start, size, xs[..|xs| - 1]), size, xs[|xs| - 1]).e
  }

  ghost predicate Accepted(start: Guarded, size: int, xs: seq<Event>, i: nat)
    requires size > 0 && i < |xs|
  {
    Step(Run(start, size, xs[..i]), size, xs[i]).ok
  }

  /** The slashing engine inside the gate sees registrations and votes, and nothing else. */
  lemma StepIsSlashingStep(e: Guarded, size: int, x: Event)
    requires size > 0
    ensures Step(e, size, x).e.slashing ==
              match x
              case Validator(v, stake) => Slashing.Step(e.slashing, Slashing.Register(v, stake)).s
              case NewBlock(_) => e.slashing
              case Attestation(v, block, slot) => Slashing.Step(e.slashing, Slashing.Vote(v, slot, block)).s
    ensures x.Attestation? ==> Step(e, size, x).ok == Slashing.Step(e.slashing, Slashing.Vote(x.v, x.slot, x.block)).ok
  {
    hide FinalityVotes.BeaconStep, Slashing.ActiveStake, Slashing.RecordVote;
  }

  lemma {:induction false} AttestationStaysRecorded(start: Guarded, size: int, xs: seq<Event>, i: nat, j: nat)
    requires size > 0 && i < j <= |xs| && xs[i].Attestation? && Accepted(start, size, xs, i)
    ensures Slashing.Recorded(Run(start, size, xs[..j]).slashing, xs[i].v, xs[i].slot, xs[i].block)
    decreases j
  {
    hide Step, Slashing.Step, Slashing.Recorded;
    var e, x := Run(start, size, xs[..j - 1]), xs[j - 1];
    assert xs[..j][..j - 1] == xs[..j - 1];
    StepIsSlashingStep(e, size, x);
    if i + 1 < j {
      AttestationStaysRecorded(start, size, xs, i, j - 1);
      if x.Validator? {
        Slashing.StepKeepsVote(e.slashing, Slashing.Register(x.v, x.stake), xs[i].v, xs[i].slot, xs[i].block);
      } else if x.Attestation? {
        Slashing.StepKeepsVote(e.slashing, Slashing.Vote(x.v, x.slot, x.block), xs[i].v, xs[i].slot, xs[i].block);
      }
    } else {
      AcceptedIsRecorded(e.slashing, x.v, x.slot, x.block);
    }
  }

  lemma AcceptedIsRecorded(s: Slashing.State, v: string, slot: int, block: string)
    requires Slashing.Step(s, Slashing.Vote(v, slot, block)).ok
    ensures Slashing.Recorded(Slashing.Step(s, Slashing.Vote(v, slot, block)).s, v, slot, block)
  {
    Slashing.AcceptedVoteIsRecorded(s, v, slot, block);
  }

  /**
   In every run of the engine (which never calls `clear_epoch`) a validator has at most one
   accepted block per slot, and attesting to a second one gets it slashed.
   */
  lemma OneBlockPerSlot(start: Guarded, size: int, xs: seq<Event>, i: nat, j: nat)
    requires size > 0 && i < j < |xs| && xs[i].Attestation? && xs[j].Attestation?
    requires xs[i].v == xs[j].v && xs[i].slot == xs[j].slot && Accepted(start, size, xs, i)
    ensures Accepted(start, size, xs, j) ==> xs[i].block == xs[j].block
    ensures xs[i].block != xs[j].block ==> xs[j].v in Run(start, size, xs[..j + 1]).slashing.slashed
  {
    hide Step;
    AttestationStaysRecorded(start, size, xs, i, j);
    assert xs[..j + 1][..j] == xs[..j];
    StepIsSlashingStep(Run(start, size, xs[..j]), size, xs[j]);
  }

  /** The run without one validator's attestations. */
  function Without(xs: seq<Event>, v: string): seq<Event> {
    if xs == [] then []
    else
      var rest, x := Without(xs[..|xs| - 1], v), xs[|xs| - 1];
      if x.Attestation? && x.v == v then rest else rest + [x]
  }

  lemma StepKeepsSlashed(e: Guarded, size: int, x: Event)
    requires size > 0
    ensures e.slashing.slashed <= Step(e, size, x).e.slashing.slashed
  {
    hide FinalityVotes.BeaconStep, Slashing.ActiveStake;
  }

  /** Nothing a slashed validator attests makes any difference to the rest of the run. */
  lemma {:induction false} SlashedIsSilenced(start: Guarded, size: int, xs: seq<Event>, v: string)
    requires size > 0 && v in start.slashing.slashed
    ensures Run(start, size, xs) == Run(start, size, Without(xs, v))
    ensures v in Run(start, size, xs).slashing.slashed
  {
    hide Step, AttestSlashing;
    if xs != [] {
      var last := |xs| - 1;
      var x := xs[last];
      SlashedIsSilenced(start, size, xs[..last], v);
      var e := Run(start, size, xs[..last]);
      StepKeepsSlashed(e, size, x);
      if x.Attestation? && x.v == v {
        SlashedIsIgnored(e, size, v, x.block, x.slot);
        assert Step(e, size, x).e == e by { StepOfAttestation(e, size, x); }
      } else {
        assert (Without(xs[..last], v) + [x])[..|Without(xs[..last], v)|] == Without(xs[..last], v);
      }
    }
  }

  lemma StepOfAttestation(e: Guarded, size: int, x: Event)
    requires size > 0 && x.Attestation?
    ensures Step(e, size, x) == AttestSlashing(e, size, x.v, x.block, x.slot)
  {
    hide AttestSlashing;
  }

  // ----- the finality threshold -----

  /** The vote repeats what is recorded for the slot, or the slot is open. */
  predicate Agrees(e: Guarded, v: string, block: string, slot: int) {
    slot in Slashing.VotesOf(e.slashing, v) ==> Slashing.VotesOf(e.slashing, v)[slot] == block
  }

  /**
   The finality threshold follows the active stake, except right after a slashing: the refused
   attestation returns before the total is refreshed, so the slashed stake still counts.
   */
  lemma ThresholdIsFreshIff(e: Guarded, size: int, v: string, block: string, slot: int)
    requires size > 0 && e.finality.totalStake == Slashing.ActiveStake(e.slashing)
    ensures var r := AttestSlashing(e, size, v, block, slot).e;
            r.finality.totalStake == Slashing.ActiveStake(r.slashing) <==>
              (Agrees(e, v, block, slot) || v in e.slashing.slashed || Slashing.Stake(e.slashing, v) == 0)
  {
    hide FinalityVotes.BeaconStep;
    var r := AttestSlashing(e, size, v, block, slot);
    if !r.ok && v !in e.slashing.slashed {
      assert r.e.slashing.stakes == e.slashing.stakes && r.e.slashing.slashed == e.slashing.slashed + {v};
      Slashing.SlashingLowersActiveStake(e.slashing, r.e.slashing, v);
    }
  }

  /** One validator with stake 3 that votes twice in slot 0: slashed, yet the threshold is still computed from 3. */
  lemma StaleThreshold(size: int)
    requires size > 0
    ensures var e := Enrol(START, "v", 3);
            var first := AttestSlashing(e, size, "v", "a", 0).e;
            var second := AttestSlashing(first, size, "v", "b", 0).e;
            && "v" in second.slashing.slashed
            && second.finality.totalStake == 3 && Slashing.ActiveStake(second.slashing) == 0
  {
    hide FinalityVotes.BeaconStep, Slashing.ActiveStake;
    var e := Enrol(START, "v", 3);
    var first := AttestSlashing(e, size, "v", "a", 0).e;
    var second := AttestSlashing(first, size, "v", "b", 0).e;
    assert first.slashing.stakes == map["v" := 3] && first.slashing.slashed == {};
    assert second.slashing.stakes == map["v" := 3] && second.slashing.slashed == {"v"};
    ActiveStakeOfOne(first.slashing);
    Slashing.SlashingLowersActiveStake(first.slashing, second.slashing, "v");
  }

  lemma ActiveStakeOfOne(s: Slashing.State)
    requires s.stakes == map["v" := 3] && s.slashed == {}
    ensures Slashing.ActiveStake(s) == 3
  {
    assert s.stakes.Keys - s.slashed == {} + {"v"};
    SumAdd({}, Slashing.RegisteredStake(s), "v");
    assert Sum({}, Slashing.RegisteredStake(s)) == 0;
  }

  // ----- the epoch bound, where it holds -----

  /** The slots of an epoch for which the validator has a recorded vote. */
  ghost function SlotsIn(s: Slashing.State, size: int, epoch: int, v: string): set<int>
    requires size > 0
  {
    set k | k in Slashing.VotesOf(s, v) && k / size == epoch
  }

  ghost function Share(s: Slashing.State, size: int, epoch: int, v: string): int
    requires size > 0
  {
    Slashing.RegisteredStake(s)(v) * |SlotsIn(s, size, epoch, v)|
  }

  ghost function Used(s: Slashing.State, size: int, epoch: int): string -> int
    requires size > 0
  {
    (v: string) => Share(s, size, epoch, v)
  }

  /** By how much the weight counted in the epoch exceeds stake times recorded slots. */
  ghost function Excess(e: Guarded, size: int, epoch: int): int
    requires size > 0
  {
    FinalityVotes.TallyTotal(FinalityVotes.TallyAt(e.finality, epoch))
    - Sum(e.slashing.stakes.Keys, Used(e.slashing, size, epoch))
  }

  ghost predicate NonNegativeStakes(s: Slashing.State) {
    forall v :: v in s.stakes ==> s.stakes[v] >= 0
  }

  /** What an attestation adds to the tally of an epoch. */
  ghost function Counts(e: Guarded, size: int, v: string, block: string, slot: int, epoch: int): int
    requires size > 0
  {
    if epoch == slot / size && Agrees(e, v, block, slot) && block in e.blocks && Slashing.Stake(e.slashing, v) > 0
    then Slashing.Stake(e.slashing, v) else 0
  }

  lemma TallyGrowsBy(e: Guarded, size: int, v: string, block: string, slot: int, epoch: int)
    requires size > 0
    ensures var r := AttestSlashing(e, size, v, block, slot).e;
            FinalityVotes.TallyTotal(FinalityVotes.TallyAt(r.finality, epoch))
            == FinalityVotes.TallyTotal(FinalityVotes.TallyAt(e.finality, epoch)) + Counts(e, size, v, block, slot, epoch)
  {
    hide FinalityVotes.BeaconStep, Slashing.ActiveStake, FinalityVotes.TallyTotal;
    VoteAddsToOneTally(e.finality, slot / size, block, Slashing.Stake(e.slashing, v), epoch);
    SameTally(AddFinalityVote(e.finality, slot / size, block, Slashing.Stake(e.slashing, v)), epoch);
    SameTally(e.finality, epoch);
  }

  lemma SameTally(s: FinalityVotes.State, epoch: int)
    ensures forall total: int :: FinalityVotes.TallyAt(s.(totalStake := total), epoch) == FinalityVotes.TallyAt(s, epoch)
  {
  }

  /** The vote opens a slot of a validator that may still vote. */
  predicate Opens(s: Slashing.State, v: string, slot: int) {
    v !in s.slashed && slot !in Slashing.VotesOf(s, v)
  }

  /** What recording a vote changes: the one slot it opens. */
  lemma VotesAfter(s: Slashing.State, v: string, slot: int, block: string, x: string)
    ensures var t := Slashing.RecordVote(s, v, slot, block).s;
            && t.stakes == s.stakes
            && Slashing.VotesOf(t, x) == if x == v && Opens(s, v, slot) then Slashing.VotesOf(s, x)[slot := block]
                                         else Slashing.VotesOf(s, x)
  {
  }

  lemma SlotsGrowBy(s: Slashing.State, size: int, v: string, block: string, slot: int, epoch: int, x: string)
    requires size > 0
    ensures var t := Slashing.RecordVote(s, v, slot, block).s;
            |SlotsIn(t, size, epoch, x)| == |SlotsIn(s, size, epoch, x)|
              + (if x == v && epoch == slot / size && Opens(s, v, slot) then 1 else 0)
  {
    hide Slashing.RecordVote, Slashing.VotesOf;
    var t := Slashing.RecordVote(s, v, slot, block).s;
    VotesAfter(s, v, slot, block, x);
    if x == v && epoch == slot / size && Opens(s, v, slot) {
      assert SlotsIn(t, size, epoch, x) == SlotsIn(s, size, epoch, x) + {slot};
    } else {
      assert SlotsIn(t, size, epoch, x) == SlotsIn(s, size, epoch, x);
    }
  }

  lemma ShareGrowsBy(s: Slashing.State, size: int, v: string, block: string, slot: int, epoch: int, x: string)
    requires size > 0
    ensures var t := Slashing.RecordVote(s, v, slot, block).s;
            Share(t, size, epoch, x) == Share(s, size, epoch, x)
              + (if x == v && epoch == slot / size && Opens(s, v, slot) then Slashing.RegisteredStake(s)(x) else 0)
  {
    hide Slashing.RecordVote, SlotsIn, Opens;
    SlotsGrowBy(s, size, v, block, slot, epoch, x);
    VotesAfter(s, v, slot, block, x);
    var stake, n := Slashing.RegisteredStake(s)(x), |SlotsIn(s, size, epoch, x)|;
    assert stake * (n + 1) == stake * n + stake;
  }

  /** A vote that opens a slot raises its validator's used share, and no other's. */
  lemma UsedGrowsBy(s: Slashing.State, size: int, v: string, block: string, slot: int, epoch: int)
    requires size > 0
    ensures var t := Slashing.RecordVote(s, v, slot, block).s;
            && t.stakes == s.stakes
            && Sum(t.stakes.Keys, Used(t, size, epoch))
               == Sum(s.stakes.Keys, Used(s, size, epoch))
                  + (if epoch == slot / size && Opens(s, v, slot) then Slashing.Stake(s, v) else 0)
  {
    hide Sum, Slashing.RecordVote, Share;
    var t := Slashing.RecordVote(s, v, slot, block).s;
    var f, g := Used(s, size, epoch), Used(t, size, epoch);
    VotesAfter(s, v, slot, block, v);
    forall x | x in s.stakes.Keys && x != v ensures f(x) == g(x) {
      ShareGrowsBy(s, size, v, block, slot, epoch, x);
    }
    if v in s.stakes.Keys {
      SumRemove(s.stakes.Keys, f, v);
      SumRemove(s.stakes.Keys, g, v);
      SumCongruent(s.stakes.Keys - {v}, f, g);
      ShareGrowsBy(s, size, v, block, slot, epoch, v);
    } else {
      SumCongruent(s.stakes.Keys, f, g);
    }
  }

  /**
   Which calls keep the bound: an attestation leaves the excess of every epoch where it was or
   lower, unless it repeats a recorded vote for a known block with stake behind it; then, and
   only then, the excess of its epoch rises.
   */
  lemma ExcessKeptIff(e: Guarded, size: int, v: string, block: string, slot: int)
    requires size > 0 && NonNegativeStakes(e.slashing)
    ensures var r := AttestSlashing(e, size, v, block, slot).e;
            && r.slashing.stakes == e.slashing.stakes
            && (Excess(r, size, slot / size) <= Excess(e, size, slot / size) <==>
                  !(Slashing.Recorded(e.slashing, v, slot, block) && block in e.blocks && Slashing.Stake(e.slashing, v) > 0))
            && forall epoch :: epoch != slot / size ==> Excess(r, size, epoch) == Excess(e, size, epoch)
  {
    hide Sum, Used, FinalityVotes.TallyTotal, FinalityVotes.TallyAt, Slashing.ActiveStake, FinalityVotes.BeaconStep;
    var r := AttestSlashing(e, size, v, block, slot).e;
    assert r.slashing == Slashing.RecordVote(e.slashing, v, slot, block).s;
    hide AttestSlashing;
    forall epoch ensures Excess(r, size, epoch) == Excess(e, size, epoch) + Counts(e, size, v, block, slot, epoch)
        - (if epoch == slot / size && Opens(e.slashing, v, slot) then Slashing.Stake(e.slashing, v) else 0) {
      TallyGrowsBy(e, size, v, block, slot, epoch);
      UsedGrowsBy(e.slashing, size, v, block, slot, epoch);
    }
  }

  /** An engine whose validators are registered and which has seen no vote. */
  ghost function Registered(stakes: map<string, int>): Guarded {
    var slashing := Slashing.EMPTY.(stakes := stakes);
    Guarded(slashing, map[], stakes, {}, FinalityVotes.EMPTY.(totalStake := Slashing.ActiveStake(slashing)))
  }

  /** Blocks and attestations only, and nobody attests twice in one slot. */
  ghost predicate OncePerSlot(xs: seq<Event>) {
    && (forall i :: 0 <= i < |xs| ==> !xs[i].Validator?)
    && forall i, j :: 0 <= i < j < |xs| && xs[i].Attestation? && xs[j].Attestation? ==>
         xs[i].v != xs[j].v || xs[i].slot != xs[j].slot
  }

  ghost predicate AttestedIn(xs: seq<Event>, v: string, slot: int) {
    exists i :: 0 <= i < |xs| && xs[i].Attestation? && xs[i].v == v && xs[i].slot == slot
  }

  ghost predicate WithinBound(e: Guarded, size: int, xs: seq<Event>)
    requires size > 0
  {
    && (forall epoch :: Excess(e, size, epoch) <= 0)
    && forall v, slot :: slot in Slashing.VotesOf(e.slashing, v) ==> AttestedIn(xs, v, slot)
  }

  lemma AttestedGrows(xs: seq<Event>, x: Event)
    ensures forall v, slot :: AttestedIn(xs, v, slot) ==> AttestedIn(xs + [x], v, slot)
    ensures x.Attestation? ==> AttestedIn(xs + [x], x.v, x.slot)
  {
    var longer := xs + [x];
    assert longer[|xs|] == x;
    forall v, slot | AttestedIn(xs, v, slot) ensures AttestedIn(longer, v, slot) {
      var i :| 0 <= i < |xs| && xs[i].Attestation? && xs[i].v == v && xs[i].slot == slot;
      assert longer[i] == xs[i];
    }
  }

  lemma StepStaysWithin(e: Guarded, size: int, xs: seq<Event>, x: Event)
    requires size > 0 && NonNegativeStakes(e.slashing) && WithinBound(e, size, xs) && !x.Validator?
    requires x.Attestation? ==> !AttestedIn(xs, x.v, x.slot)
    ensures WithinBound(Step(e, size, x).e, size, xs + [x]) && Step(e, size, x).e.slashing.stakes == e.slashing.stakes
  {
    hide Excess, AttestedIn, FinalityVotes.BeaconStep, Slashing.ActiveStake;
    AttestedGrows(xs, x);
    if x.Attestation? {
      ExcessKeptIff(e, size, x.v, x.block, x.slot);
      assert x.slot !in Slashing.VotesOf(e.slashing, x.v);
    } else {
      forall epoch ensures Excess(Step(e, size, x).e, size, epoch) == Excess(e, size, epoch) {
        SameExcess(e, size, x.block, epoch);
      }
    }
  }

  lemma SameExcess(e: Guarded, size: int, block: string, epoch: int)
    requires size > 0
    ensures Excess(e.(blocks := e.blocks + {block}), size, epoch) == Excess(e, size, epoch)
  {
    hide Sum, FinalityVotes.TallyTotal;
  }

  lemma {:induction false} RunStaysWithin(stakes: map<string, int>, size: int, xs: seq<Event>)
    requires size > 0 && (forall v :: v in stakes ==> stakes[v] >= 0) && OncePerSlot(xs)
    ensures var e := Run(Registered(stakes), size, xs);
            WithinBound(e, size, xs) && e.slashing.stakes == stakes
  {
    hide Step, WithinBound;
    if xs == [] {
      NoVotesWithinBound(stakes, size);
    } else {
      var last := |xs| - 1;
      RunStaysWithin(stakes, size, xs[..last]);
      var e := Run(Registered(stakes), size, xs[..last]);
      assert xs == xs[..last] + [xs[last]];
      StepStaysWithin(e, size, xs[..last], xs[last]);
    }
  }

  lemma NoVotesWithinBound(stakes: map<string, int>, size: int)
    requires size > 0
    ensures WithinBound(Registered(stakes), size, [])
  {
    var e := Registered(stakes);
    forall epoch ensures Excess(e, size, epoch) <= 0 {
      forall v | v in stakes.Keys ensures Used(e.slashing, size, epoch)(v) == 0 {
        assert SlotsIn(e.slashing, size, epoch, v) == {};
        assert Share(e.slashing, size, epoch, v) == 0;
      }
      SumZero(stakes.Keys, Used(e.slashing, size, epoch));
    }
  }

  /** At most `n` integers lie in an interval of length n. */
  lemma {:induction false} IntervalBound(s: set<int>, lo: int, n: nat)
    requires forall k :: k in s ==> lo <= k < lo + n
    ensures |s| <= n
  {
    if n == 0 {
      SomeKey(s);
    } else {
      var top := lo + n - 1;
      IntervalBound(s - {top}, lo, n - 1);
      if top in s { assert s == (s - {top}) + {top}; } else { assert s - {top} == s; }
    }
  }

  /**
   The epoch bound does hold for the slashing engine when nobody attests twice in one slot: with
   fixed stakes, in every such run, the weight over all blocks of an epoch is at most epoch_size
   times the total stake.
   */
  lemma EpochBoundOncePerSlot(stakes: map<string, int>, size: int, xs: seq<Event>, epoch: int)
    requires size > 0 && (forall v :: v in stakes ==> stakes[v] >= 0) && OncePerSlot(xs)
    ensures var e := Run(Registered(stakes), size, xs);
            FinalityVotes.TallyTotal(FinalityVotes.TallyAt(e.finality, epoch)) <= size * TotalStake(stakes)
  {
    hide Run, Sum, FinalityVotes.TallyTotal, SlotsIn;
    var e := Run(Registered(stakes), size, xs);
    RunStaysWithin(stakes, size, xs);
    assert Excess(e, size, epoch) <= 0;
    var full := (v: string) => size * StakeOf(stakes)(v);
    forall v | v in stakes.Keys ensures Used(e.slashing, size, epoch)(v) <= full(v) {
      SlotsFit(e.slashing, size, epoch, v);
      var n := |SlotsIn(e.slashing, size, epoch, v)|;
      ProductGrows(stakes[v], n, size, 0);
      assert StakeOf(stakes)(v) == stakes[v];
      assert Share(e.slashing, size, epoch, v) == stakes[v] * n;
      assert full(v) == size * StakeOf(stakes)(v);
      assert size * stakes[v] == stakes[v] * size;
    }
    SumMonotone(stakes.Keys, Used(e.slashing, size, epoch), full);
    SumScaled(stakes.Keys, StakeOf(stakes), full, size);
  }

  lemma SlotsFit(s: Slashing.State, size: int, epoch: int, v: string)
    requires size > 0
    ensures |SlotsIn(s, size, epoch, v)| <= size
  {
    forall k | k in SlotsIn(s, size, epoch, v) ensures epoch * size <= k < epoch * size + size {
      SlotInEpoch(k, size);
    }
    IntervalBound(SlotsIn(s, size, epoch, v), epoch * size, size);
  }

  // ----- what a slashed validator still weighs -----

  /** A refused attestation leaves fork choice as it was: no vote is taken out of the table. */
  lemma RefusedKeepsWeights(e: Guarded, size: int, v: string, block: string, slot: int)
    requires size > 0 && (v in e.slashing.slashed || !Agrees(e, v, block, slot))
    ensures var r := AttestSlashing(e, size, v, block, slot);
            && !r.ok && v in r.e.slashing.slashed && r.e.latest == e.latest && r.e.stakes == e.stakes
            && forall h :: BlockWeight(r.e.latest, r.e.stakes)(h) == BlockWeight(e.latest, e.stakes)(h)
  {
    hide FinalityVotes.BeaconStep, Slashing.ActiveStake, BlockWeight;
  }

  /** From the slashing on, the validator's entry in the table never changes. */
  lemma {:induction false} SlashedVoteIsFrozen(start: Guarded, size: int, xs: seq<Event>, v: string)
    requires size > 0 && v in start.slashing.slashed
    ensures var e := Run(start, size, xs);
            && v in e.slashing.slashed
            && (v in e.latest <==> v in start.latest)
            && (v in start.latest ==> e.latest[v] == start.latest[v])
  {
    hide Step;
    if xs != [] {
      var last := |xs| - 1;
      SlashedVoteIsFrozen(start, size, xs[..last], v);
      var e := Run(start, size, xs[..last]);
      StepKeepsSlashed(e, size, xs[last]);
      FrozenStep(e, size, xs[last], v);
    }
  }

  lemma FrozenStep(e: Guarded, size: int, x: Event, v: string)
    requires size > 0 && v in e.slashing.slashed
    ensures var r := Step(e, size, x).e;
            (v in r.latest <==> v in e.latest) && (v in e.latest ==> r.latest[v] == e.latest[v])
  {
    hide FinalityVotes.BeaconStep, Slashing.ActiveStake;
  }

  /**
   A slashed validator still weighs on the fork choice, at every later point of the run, if and
   only if it had a vote in the table when it was slashed and has stake there: exactly then some
   block's weight would be another without its vote.
   */
  lemma SlashedStillWeighsIff(start: Guarded, size: int, xs: seq<Event>, v: string)
    requires size > 0 && v in start.slashing.slashed
    ensures var e := Run(start, size, xs);
            (exists h :: BlockWeight(e.latest, e.stakes)(h) != BlockWeight(e.latest - {v}, e.stakes)(h))
            <==> v in start.latest && v in e.stakes && e.stakes[v] != 0
  {
    hide Run, BlockWeight;
    SlashedVoteIsFrozen(start, size, xs, v);
    VoteWeighsIff(Run(start, size, xs).latest, Run(start, size, xs).stakes, v);
  }

  /** Two children of one root, and the two validators of the example. */
  const FORK: Ghost.Tree := map[
    "g" := Ghost.Node(None, ["a", "b"], 0),
    "a" := Ghost.Node(Some("g"), [], 1),
    "b" := Ghost.Node(Some("g"), [], 1)]
  const FORK_RANK: string -> nat := (h: string) => if h == "g" then 1 else 0
  const FORK_STAKES: map<string, int> := map["v" := 3, "w" := 2]

  /** "v" attests to "a", "w" to "b", and then "v" to "b" in the same slot. */
  ghost function SlashedMajority(size: int): Guarded
    requires size > 0
  {
    Run(Registered(FORK_STAKES), size,
        [Event.Attestation("v", "a", 1), Event.Attestation("w", "b", 1), Event.Attestation("v", "b", 1)])
  }

  lemma SlashedMajorityIs(size: int)
    requires size > 0
    ensures var e := SlashedMajority(size);
            && e.slashing.slashed == {"v"} && e.slashing.stakes == FORK_STAKES && e.stakes == FORK_STAKES
            && e.latest == map["v" := Vote("a", 1), "w" := Vote("b", 1)]
  {
    hide FinalityVotes.BeaconStep, Slashing.ActiveStake;
    var xs := [Event.Attestation("v", "a", 1), Event.Attestation("w", "b", 1), Event.Attestation("v", "b", 1)];
    assert xs[..2][..1] == xs[..1] && xs[..1][..0] == [];
    var e0 := Registered(FORK_STAKES);
    assert Run(e0, size, []) == e0;
    var e1 := AttestSlashing(e0, size, "v", "a", 1).e;
    assert Run(e0, size, xs[..1]) == e1;
    assert e1.latest == map["v" := Vote("a", 1)] && e1.slashing.votes == map["v" := map[1 := "a"]];
    var e2 := AttestSlashing(e1, size, "w", "b", 1).e;
    assert Run(e0, size, xs[..2]) == e2;
    assert e2.latest == map["v" := Vote("a", 1), "w" := Vote("b", 1)];
    assert Run(e0, size, xs) == AttestSlashing(e2, size, "v", "b", 1).e;
  }

  /** The children lists of the fork, row by row. */
  lemma ForkRows(h: string)
    requires h in FORK
    ensures h == "g" || h == "a" || h == "b"
    ensures FORK[h].children == if h == "g" then ["a", "b"] else []
    ensures FORK[h].parent == if h == "g" then None else Some("g")
  {
  }

  lemma ForkIsRanked()
    ensures Ghost.Ranked(FORK, FORK_RANK) && BlockTree.DistinctChildren(FORK)
  {
    forall h, i | h in FORK && 0 <= i < |FORK[h].children| ensures FORK_RANK(FORK[h].children[i]) < FORK_RANK(h) {
      ForkRows(h);
    }
    forall h, i, j | h in FORK && 0 <= i < j < |FORK[h].children| ensures FORK[h].children[i] != FORK[h].children[j] {
      ForkRows(h);
    }
  }

  lemma ForkIsLinked()
    ensures BlockTree.ParentsList(FORK, "g") && BlockTree.ChildrenName(FORK)
  {
    assert "a" in FORK && "b" in FORK && "g" in FORK;
    ForkRows("g");
    assert FORK["g"].children[0] == "a" && FORK["g"].children[1] == "b";
    forall h | h in FORK && h != "g"
      ensures FORK[h].parent.Some? && FORK[h].parent.value in FORK && h in FORK[FORK[h].parent.value].children
    {
      ForkRows(h);
    }
    forall h, i | h in FORK && 0 <= i < |FORK[h].children|
      ensures FORK[h].children[i] in FORK && FORK[FORK[h].children[i]].parent == Some(h)
    {
      ForkRows(h);
      ForkRows(FORK[h].children[i]);
    }
  }

  lemma ForkIsRooted()
    ensures BlockTree.Rooted(FORK, FORK_RANK, "g")
  {
    hide Ghost.Ranked, BlockTree.DistinctChildren, BlockTree.ParentsList, BlockTree.ChildrenName;
    ForkIsRanked();
    ForkIsLinked();
  }

  lemma ForkStake(latest: map<string, Vote>)
    requires latest == map["v" := Vote("a", 1), "w" := Vote("b", 1)]
    ensures StakeBehind(latest, FORK_STAKES, {"a"}) == 3 && StakeBehind(latest, FORK_STAKES, FORK.Keys) == 5
  {
    var f := StakeOf(FORK_STAKES);
    assert VotersFor(latest, {"a"}) == {} + {"v"} && VotersFor(latest, FORK.Keys) == {"v"} + {"w"};
    SumAdd({}, f, "v");
    assert {} + {"v"} == {"v"};
    SumAdd({"v"}, f, "w");
    assert Sum({}, f) == 0;
  }

  /**
   The input: the slashed "v" has no stake left, all active stake is behind "b", and the head is
   "a", because the vote of "v" is still in the table with the stake it had.
   */
  lemma SlashedMajorityDecides(size: int, weights: map<string, int>)
    requires size > 0
    requires var e := SlashedMajority(size);
             forall h :: Ghost.Get(weights)(h) == BlockWeight(e.latest, e.stakes)(h)
    ensures Ghost.Ranked(FORK, FORK_RANK)
    ensures var e := SlashedMajority(size);
            && Slashing.Stake(e.slashing, "v") == 0 && Slashing.Stake(e.slashing, "w") == 2
            && "w" in e.latest && e.latest["w"].block == "b"
            && GhostHead.Head(FORK, Ghost.Get(weights), FORK_RANK, "g") == "a"
  {
    hide SlashedMajority, GhostHead.Head, BlockWeight, StakeBehind;
    SlashedMajorityIs(size);
    ForkIsRooted();
    var e := SlashedMajority(size);
    ForkStake(e.latest);
    assert BlockTree.Subtree(FORK, FORK_RANK, "a") == {"a"} by { OnlyItself(); }
    BlockTree.StakeMajorityWins(FORK, FORK_RANK, "g", "a", e.latest, e.stakes, weights);
    DescendsToItself(GhostHead.Head(FORK, Ghost.Get(weights), FORK_RANK, "g"));
  }

  lemma DescendsToItself(h: string)
    requires Ghost.Ranked(FORK, FORK_RANK) && GhostHead.Descends(FORK, FORK_RANK, "a", h)
    ensures h == "a"
  {
    assert Ghost.Children(FORK, "a") == [];
  }

  lemma OnlyItself()
    requires Ghost.Ranked(FORK, FORK_RANK)
    ensures BlockTree.Subtree(FORK, FORK_RANK, "a") == {"a"}
  {
    assert Ghost.Children(FORK, "a") == [];
    forall x | x in BlockTree.Subtree(FORK, FORK_RANK, "a") ensures x == "a" { DescendsToItself(x); }
  }
}
