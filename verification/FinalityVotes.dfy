/**
 The two vote-counting finality gadgets, consensus/finality_beacon.py and
 consensus/finality_casper.py: both objects, and the relation between them over every run.
 */
module FinalityVotes {
  import opened Wrappers

  // ----- vote tallies: dictionaries in insertion order -----

  type Tally = seq<(string, int)>

  function WeightIn(t: Tally, block: string): int {
    if t == [] then 0 else if t[0].0 == block then t[0].1 else WeightIn(t[1..], block)
  }

  predicate Has(t: Tally, block: string) {
    t != [] && (t[0].0 == block || Has(t[1..], block))
  }

  /** A dictionary holds every key once. */
  predicate Dictionary(t: Tally) {
    t == [] || (!Has(t[1..], t[0].0) && Dictionary(t[1..]))
  }

  /** `d[block] = d.get(block, 0) + weight`: an existing key keeps its place. */
  function AddTo(t: Tally, block: string, weight: int): Tally {
    if t == [] then [(block, weight)]
    else if t[0].0 == block then [(block, t[0].1 + weight)] + t[1..]
    else [t[0]] + AddTo(t[1..], block, weight)
  }

  /** The update adds the weight to its own block's entry, changes no other, and keeps keys unique. */
  lemma {:induction false} AddToMeaning(t: Tally, block: string, weight: int, other: string)
    ensures WeightIn(AddTo(t, block, weight), other) == WeightIn(t, other) + (if other == block then weight else 0)
    ensures Has(AddTo(t, block, weight), other) <==> Has(t, other) || other == block
    ensures Dictionary(t) ==> Dictionary(AddTo(t, block, weight))
  {
    if t != [] {
      var rest := AddTo(t[1..], block, weight);
      AddToMeaning(t[1..], block, weight, other);
      AddToMeaning(t[1..], block, weight, t[0].0);
      assert ([t[0]] + rest)[1..] == rest && ([(block, t[0].1 + weight)] + t[1..])[1..] == t[1..];
    } else {
      assert [(block, weight)][1..] == [];
    }
  }

  lemma {:induction false} EntryWeight(t: Tally, i: nat)
    requires Dictionary(t) && i < |t|
    ensures Has(t, t[i].0) && WeightIn(t, t[i].0) == t[i].1
  {
    if i > 0 { EntryWeight(t[1..], i - 1); }
  }

  lemma {:induction false} EntryOf(t: Tally, block: string) returns (i: nat)
    requires Has(t, block)
    ensures i < |t| && t[i] == (block, WeightIn(t, block))
  {
    if t[0].0 == block { i := 0; } else { i := EntryOf(t[1..], block); i := i + 1; }
  }

  /** `max(items, key=weight)`: the first entry of maximal weight. */
  function Best(t: Tally): (string, int)
    requires t != []
  {
    if |t| == 1 then t[0]
    else
      var b := Best(t[..|t| - 1]);
      if t[|t| - 1].1 > b.1 then t[|t| - 1] else b
  }

  lemma {:induction false} BestIsFirstMaximum(t: Tally) returns (i: nat)
    requires t != []
    ensures i < |t| && t[i] == Best(t)
    ensures forall j :: 0 <= j < |t| ==> t[j].1 <= t[i].1
    ensures forall j :: 0 <= j < i ==> t[j].1 < t[i].1
  {
    if |t| == 1 {
      i := 0;
    } else {
      var last := |t| - 1;
      i := BestIsFirstMaximum(t[..last]);
      if t[last].1 > t[i].1 { i := last; }
    }
  }

  ghost function TallyTotal(t: Tally): int {
    if t == [] then 0 else t[0].1 + TallyTotal(t[1..])
  }

  lemma {:induction false} AddToTotal(t: Tally, block: string, weight: int)
    ensures AddTo(t, block, weight) != []
    ensures TallyTotal(AddTo(t, block, weight)) == TallyTotal(t) + weight
  {
    if t != [] {
      if t[0].0 == block {
        assert ([(block, t[0].1 + weight)] + t[1..])[1..] == t[1..];
      } else {
        AddToTotal(t[1..], block, weight);
        assert ([t[0]] + AddTo(t[1..], block, weight))[1..] == AddTo(t[1..], block, weight);
      }
    } else {
      assert [(block, weight)][1..] == [];
    }
  }

  // ----- the shared state -----

  datatype State = State(
    votes: map<int, Tally>, totalStake: int,
    justified: set<int>, finalized: set<int>, justifiedBlocks: map<int, string>)

  const EMPTY: State := State(map[], 0, {}, {}, map[])

  /** `int(total_stake * 2/3)`, truncated towards zero. */
  function Threshold(totalStake: int): int {
    if totalStake >= 0 then 2 * totalStake / 3 else -(2 * -totalStake / 3)
  }

  /** The weight is at least two thirds of the total, rounded towards zero. */
  ghost predicate TwoThirds(weight: int, total: int) {
    if total >= 0 then 3 * weight + 2 >= 2 * total else 3 * weight >= 2 * total
  }

  lemma ThresholdMeaning(total: int, weight: int)
    ensures weight >= Threshold(total) <==> TwoThirds(weight, total)
    ensures total < 0 ==> 3 * Threshold(total) >= 2 * total > 3 * Threshold(total) - 3
    ensures total >= 0 ==> 3 * Threshold(total) <= 2 * total < 3 * Threshold(total) + 3
  {
  }

  function TallyAt(s: State, epoch: int): Tally {
    if epoch in s.votes then s.votes[epoch] else []
  }

  function Counted(s: State, epoch: int, block: string, weight: int): State {
    s.(votes := s.votes[epoch := AddTo(TallyAt(s, epoch), block, weight)])
  }

  /** The best block of the epoch reaches the threshold. */
  predicate Reached(s: State, epoch: int) {
    TallyAt(s, epoch) != [] && Best(TallyAt(s, epoch)).1 >= Threshold(s.totalStake)
  }

  function Justify(s: State, epoch: int): State {
    if epoch in s.justified || TallyAt(s, epoch) == [] then s
    else s.(justified := s.justified + {epoch},
            justifiedBlocks := s.justifiedBlocks[epoch := Best(TallyAt(s, epoch)).0])
  }

  function FinalizePrevious(s: State, epoch: int): State {
    if epoch - 1 in s.justified then s.(finalized := s.finalized + {epoch - 1}) else s
  }

  /** Beacon looks at the previous epoch only when the epoch becomes justified. */
  function BeaconEvaluate(s: State, epoch: int): State {
    if Reached(s, epoch) && epoch !in s.justified then FinalizePrevious(Justify(s, epoch), epoch) else s
  }

  /** Casper looks at the previous epoch whenever the threshold is reached. */
  function CasperEvaluate(s: State, epoch: int): State {
    if Reached(s, epoch) then FinalizePrevious(Justify(s, epoch), epoch) else s
  }

  // ----- the objects -----

  class BeaconFinality {
    const epochSize: int
    var totalStake: int
    var votes: map<int, Tally>
    var justifiedCheckpoint: Option<int>
    var justifiedBlock: Option<string>
    var finalizedCheckpoint: Option<int>
    var finalizedBlock: Option<string>
    var justifiedEpochs: set<int>
    var finalizedEpochs: set<int>
    var justifiedBlocks: map<int, string>

    ghost function Value(): State
      reads this
    {
      State(votes, totalStake, justifiedEpochs, finalizedEpochs, justifiedBlocks)
    }

    /** The current checkpoints name justified and finalized epochs and their blocks. */
    ghost predicate Valid()
      reads this
    {
      && epochSize > 0
      && justifiedEpochs == justifiedBlocks.Keys
      && finalizedEpochs <= justifiedEpochs
      && (justifiedCheckpoint.Some? <==> justifiedEpochs != {})
      && (justifiedCheckpoint.Some? ==> justifiedCheckpoint.value in justifiedBlocks)
      && (justifiedCheckpoint.Some? ==> justifiedBlock == Some(justifiedBlocks[justifiedCheckpoint.value]))
      && (finalizedCheckpoint.Some? <==> finalizedEpochs != {})
      && (finalizedCheckpoint.Some? ==> finalizedCheckpoint.value in finalizedEpochs)
      && (finalizedCheckpoint.Some? ==> finalizedBlock == Some(justifiedBlocks[finalizedCheckpoint.value]))
    }

    constructor (epochSize: int)
      requires epochSize > 0
      ensures Valid() && this.epochSize == epochSize && Value() == EMPTY
    {
      this.epochSize := epochSize;
      totalStake, votes := 0, map[];
      justifiedCheckpoint, justifiedBlock, finalizedCheckpoint, finalizedBlock := None, None, None, None;
      justifiedEpochs, finalizedEpochs, justifiedBlocks := {}, {}, map[];
    }

    method SetTotalStake(stake: int)
      requires Valid()
      modifies this`totalStake
      ensures Valid() && Value() == old(Value()).(totalStake := stake)
    {
      totalStake := stake;
    }

    method AddVote(block: string, slot: int, weight: int)
      requires Valid()
      modifies this
      ensures Valid()
      ensures Value() == BeaconEvaluate(Counted(old(Value()), slot / epochSize, block, weight), slot / epochSize)
    {
      var epoch := slot / epochSize;
      if epoch !in votes { votes := votes[epoch := []]; }
      votes := votes[epoch := AddTo(votes[epoch], block, weight)];
      assert Value() == Counted(old(Value()), epoch, block, weight);
      AddToTotal(TallyAt(old(Value()), epoch), block, weight);
      Evaluate(epoch);
    }

    method MarkJustified(epoch: int, block: string)
      requires Valid() && epoch !in justifiedEpochs
      modifies this`justifiedEpochs, this`justifiedBlocks, this`justifiedCheckpoint, this`justifiedBlock
      ensures Valid()
      ensures Value() == old(Value()).(justified := old(justifiedEpochs) + {epoch},
                                       justifiedBlocks := old(justifiedBlocks)[epoch := block])
    {
      justifiedEpochs := justifiedEpochs + {epoch};
      justifiedBlocks := justifiedBlocks[epoch := block];
      justifiedCheckpoint := Some(epoch);
      justifiedBlock := Some(block);
      assert epoch in justifiedEpochs;
    }

    method MarkFinalized(previous: int)
      requires Valid()
      modifies this`finalizedEpochs, this`finalizedCheckpoint, this`finalizedBlock
      ensures Valid()
      ensures Value() == FinalizePrevious(old(Value()), previous + 1)
    {
      if previous in justifiedEpochs && previous !in finalizedEpochs {
        finalizedEpochs := finalizedEpochs + {previous};
        finalizedCheckpoint := Some(previous);
        finalizedBlock := Some(justifiedBlocks[previous]);
        assert previous in finalizedEpochs;
      } else if previous in justifiedEpochs {
        assert finalizedEpochs + {previous} == finalizedEpochs;
      }
    }

    method Evaluate(epoch: int)
      requires Valid()
      modifies this
      ensures Valid()
      ensures Value() == BeaconEvaluate(old(Value()), epoch)
    {
      hide Best, Threshold;
      if epoch !in votes || votes[epoch] == [] { return; }
      var (block, weight) := Best(votes[epoch]);
      if weight >= Threshold(totalStake) {
        if epoch !in justifiedEpochs {
          MarkJustified(epoch, block);
          MarkFinalized(epoch - 1);
        }
      }
    }
  }

  class CasperFinality {
    var epochVotes: map<int, Tally>
    var totalStake: int
    var justifiedEpochs: set<int>
    var finalizedEpochs: set<int>
    var justifiedBlocks: map<int, string>

    ghost function Value(): State
      reads this
    {
      State(epochVotes, totalStake, justifiedEpochs, finalizedEpochs, justifiedBlocks)
    }

    constructor ()
      ensures Value() == EMPTY
    {
      epochVotes, totalStake, justifiedEpochs, finalizedEpochs, justifiedBlocks := map[], 0, {}, {}, map[];
    }

    method SetTotalStake(stake: int)
      modifies this`totalStake
      ensures Value() == old(Value()).(totalStake := stake)
    {
      totalStake := stake;
    }

    method AddVote(epoch: int, block: string, weight: int)
      modifies this
      ensures Value() == CasperEvaluate(Counted(old(Value()), epoch, block, weight), epoch)
    {
      if epoch !in epochVotes { epochVotes := epochVotes[epoch := []]; }
      epochVotes := epochVotes[epoch := AddTo(epochVotes[epoch], block, weight)];
      assert Value() == Counted(old(Value()), epoch, block, weight);
      Evaluate(epoch);
    }

    method JustifyEpoch(epoch: int, block: string)
      modifies this`justifiedEpochs, this`justifiedBlocks
      ensures epoch in old(justifiedEpochs) ==> Value() == old(Value())
      ensures epoch !in old(justifiedEpochs) ==>
                Value() == old(Value()).(justified := old(justifiedEpochs) + {epoch},
                                         justifiedBlocks := old(justifiedBlocks)[epoch := block])
    {
      if epoch !in justifiedEpochs {
        justifiedEpochs := justifiedEpochs + {epoch};
        justifiedBlocks := justifiedBlocks[epoch := block];
      }
    }

    method TryFinalize(epoch: int)
      modifies this`finalizedEpochs
      ensures Value() == FinalizePrevious(old(Value()), epoch)
    {
      var previous := epoch - 1;
      if previous in justifiedEpochs && previous !in finalizedEpochs {
        finalizedEpochs := finalizedEpochs + {previous};
      } else if previous in justifiedEpochs {
        assert finalizedEpochs + {previous} == finalizedEpochs;
      }
    }

    method Evaluate(epoch: int)
      modifies this
      ensures Value() == CasperEvaluate(old(Value()), epoch)
    {
      hide Best, Threshold;
      if epoch !in epochVotes || epochVotes[epoch] == [] { return; }
      var (block, weight) := Best(epochVotes[epoch]);
      if weight >= Threshold(totalStake) {
        JustifyEpoch(epoch, block);
        TryFinalize(epoch);
      }
    }
  }

  // ----- runs -----

  datatype Input = Vote(epoch: int, block: string, weight: int) | TotalStake(stake: int)

  function BeaconStep(s: State, x: Input): State {
    match x
    case Vote(epoch, block, weight) => BeaconEvaluate(Counted(s, epoch, block, weight), epoch)
    case TotalStake(stake) => s.(totalStake := stake)
  }

  function CasperStep(s: State, x: Input): State {
    match x
    case Vote(epoch, block, weight) => CasperEvaluate(Counted(s, epoch, block, weight), epoch)
    case TotalStake(stake) => s.(totalStake := stake)
  }

  function Beacon(inputs: seq<Input>): State {
    if inputs == [] then EMPTY else BeaconStep(Beacon(inputs[..|inputs| - 1]), inputs[|inputs| - 1])
  }

  function Casper(inputs: seq<Input>): State {
    if inputs == [] then EMPTY else CasperStep(Casper(inputs[..|inputs| - 1]), inputs[|inputs| - 1])
  }

  /** Epochs whose successor is justified too. */
  ghost predicate Paired(s: State, e: int) {
    e in s.justified && e + 1 in s.justified
  }

  /** The same counting and justification; Beacon finalized no more than Casper. */
  ghost predicate Agree(b: State, c: State) {
    && b.votes == c.votes && b.totalStake == c.totalStake
    && b.justified == c.justified && b.justifiedBlocks == c.justifiedBlocks
    && b.finalized <= c.finalized
    && forall e :: e in c.finalized ==> Paired(c, e)
  }

  lemma StepKeepsAgreement(b: State, c: State, x: Input)
    requires Agree(b, c)
    ensures Agree(BeaconStep(b, x), CasperStep(c, x))
  {
    hide Best, AddTo, Threshold;
  }

  /**
   Fed the same votes and stake updates, the two gadgets justify the same epochs with the
   same blocks; Beacon's finalized epochs are among Casper's, and Casper finalizes an epoch
   only if it and its successor are justified.
   */
  lemma {:induction false} GadgetsAgree(inputs: seq<Input>)
    ensures Agree(Beacon(inputs), Casper(inputs))
  {
    hide BeaconStep, CasperStep;
    if inputs != [] {
      var last := |inputs| - 1;
      GadgetsAgree(inputs[..last]);
      StepKeepsAgreement(Beacon(inputs[..last]), Casper(inputs[..last]), inputs[last]);
    }
  }

  // ----- what the tallies and justifications mean, in terms of the inputs alone -----

  /** The stake announced last. */
  function StakeAt(inputs: seq<Input>): int {
    if inputs == [] then 0
    else if inputs[|inputs| - 1].TotalStake? then inputs[|inputs| - 1].stake
    else StakeAt(inputs[..|inputs| - 1])
  }

  predicate IsVote(x: Input, epoch: int, block: string) {
    x.Vote? && x.epoch == epoch && x.block == block
  }

  /** The summed weight of the votes for a block in an epoch. */
  function WeightOf(inputs: seq<Input>, epoch: int, block: string): int {
    if inputs == [] then 0
    else
      var x := inputs[|inputs| - 1];
      WeightOf(inputs[..|inputs| - 1], epoch, block) + (if IsVote(x, epoch, block) then x.weight else 0)
  }

  predicate VotedFor(inputs: seq<Input>, epoch: int, block: string) {
    inputs != [] && (IsVote(inputs[|inputs| - 1], epoch, block) || VotedFor(inputs[..|inputs| - 1], epoch, block))
  }

  lemma StepCounts(s: State, x: Input)
    ensures BeaconStep(s, x).votes
            == if x.Vote? then Counted(s, x.epoch, x.block, x.weight).votes else s.votes
    ensures BeaconStep(s, x).totalStake == if x.TotalStake? then x.stake else s.totalStake
  {
    hide Best, AddTo, Threshold;
  }

  /** Every tally entry is the sum of the votes cast for it, and every voted block has an entry. */
  lemma {:induction false} TallyIsSum(inputs: seq<Input>, epoch: int, block: string)
    ensures var s := Beacon(inputs);
            && Dictionary(TallyAt(s, epoch))
            && WeightIn(TallyAt(s, epoch), block) == WeightOf(inputs, epoch, block)
            && (Has(TallyAt(s, epoch), block) <==> VotedFor(inputs, epoch, block))
            && s.totalStake == StakeAt(inputs)
  {
    hide BeaconStep, WeightIn, Has, Dictionary, AddTo;
    if inputs != [] {
      var last := |inputs| - 1;
      TallyIsSum(inputs[..last], epoch, block);
      var s, x := Beacon(inputs[..last]), inputs[last];
      StepCounts(s, x);
      if x.Vote? { AddToMeaning(TallyAt(s, x.epoch), x.block, x.weight, block); }
    } else {
      EmptyTally(block);
    }
  }

  lemma EmptyTally(block: string)
    ensures Dictionary([]) && WeightIn([], block) == 0 && !Has([], block)
  {
  }

  /** After these inputs some block of the epoch has collected two thirds of the stake announced last. */
  ghost predicate Supermajority(inputs: seq<Input>, epoch: int) {
    exists block :: VotedFor(inputs, epoch, block) && TwoThirds(WeightOf(inputs, epoch, block), StakeAt(inputs))
  }

  lemma ReachedIff(inputs: seq<Input>, epoch: int)
    ensures Reached(Beacon(inputs), epoch) <==> Supermajority(inputs, epoch)
  {
    hide Beacon, Threshold, Best, WeightOf, VotedFor, StakeAt, Has, TwoThirds;
    var t := TallyAt(Beacon(inputs), epoch);
    TallyIsSum(inputs, epoch, "");
    if Reached(Beacon(inputs), epoch) {
      var i := BestIsFirstMaximum(t);
      EntryWeight(t, i);
      TallyIsSum(inputs, epoch, t[i].0);
      ThresholdMeaning(StakeAt(inputs), t[i].1);
      assert VotedFor(inputs, epoch, t[i].0) && TwoThirds(WeightOf(inputs, epoch, t[i].0), StakeAt(inputs));
    }
    if Supermajority(inputs, epoch) {
      var block :| VotedFor(inputs, epoch, block) && TwoThirds(WeightOf(inputs, epoch, block), StakeAt(inputs));
      ThresholdMeaning(StakeAt(inputs), WeightOf(inputs, epoch, block));
      TallyIsSum(inputs, epoch, block);
      var j := EntryOf(t, block);
      var i := BestIsFirstMaximum(t);
    }
  }

  /** At input `k` a vote in the epoch arrived and the supermajority stood. */
  ghost predicate ReachedAt(inputs: seq<Input>, k: nat, epoch: int)
    requires k < |inputs|
  {
    inputs[k].Vote? && inputs[k].epoch == epoch && Supermajority(inputs[..k + 1], epoch)
  }

  /**
   Justification in terms of the inputs alone: an epoch is justified if and only if at some
   vote of that epoch one block had two thirds of the stake announced by then.
   */
  lemma {:induction false} JustifiedIff(inputs: seq<Input>, epoch: int)
    ensures epoch in Beacon(inputs).justified <==> exists k :: 0 <= k < |inputs| && ReachedAt(inputs, k, epoch)
  {
    hide Supermajority, Best, AddTo, Threshold;
    if inputs != [] {
      var last := |inputs| - 1;
      JustifiedIff(inputs[..last], epoch);
      ReachedIff(inputs, epoch);
      assert inputs[..last + 1] == inputs;
      forall k | 0 <= k < last ensures ReachedAt(inputs[..last], k, epoch) <==> ReachedAt(inputs, k, epoch) {
        assert inputs[..last][..k + 1] == inputs[..k + 1];
      }
      JustifiedByStep(Beacon(inputs[..last]), inputs[last], epoch);
      assert ReachedAt(inputs, last, epoch) <==>
               inputs[last].Vote? && inputs[last].epoch == epoch && Reached(Beacon(inputs), epoch);
      assert (exists k :: 0 <= k < last && ReachedAt(inputs[..last], k, epoch)) <==>
             (exists k :: 0 <= k < last && ReachedAt(inputs, k, epoch));
    }
  }

  lemma JustifiedByStep(s: State, x: Input, epoch: int)
    ensures epoch in BeaconStep(s, x).justified <==>
              epoch in s.justified || (x.Vote? && x.epoch == epoch && Reached(BeaconStep(s, x), epoch))
  {
    hide Best, AddTo, Threshold;
  }

  /** The order in which epochs became justified. */
  function Order(inputs: seq<Input>): seq<int> {
    if inputs == [] then []
    else
      var last := |inputs| - 1;
      var x := inputs[last];
      var before, after := Beacon(inputs[..last]), Beacon(inputs);
      if x.Vote? && x.epoch !in before.justified && x.epoch in after.justified
      then Order(inputs[..last]) + [x.epoch] else Order(inputs[..last])
  }

  ghost predicate Before(order: seq<int>, a: int, b: int) {
    exists i, j :: 0 <= i < j < |order| && order[i] == a && order[j] == b
  }

  lemma BeforeAppend(order: seq<int>, x: int)
    requires x !in order
    ensures forall a, b :: Before(order + [x], a, b) <==> Before(order, a, b) || (b == x && a in order)
  {
    var longer := order + [x];
    forall a, b ensures Before(longer, a, b) <==> Before(order, a, b) || (b == x && a in order) {
      if Before(order, a, b) {
        var i, j :| 0 <= i < j < |order| && order[i] == a && order[j] == b;
        assert longer[i] == a && longer[j] == b;
      }
      if b == x && a in order {
        var i :| 0 <= i < |order| && order[i] == a;
        assert longer[i] == a && longer[|order|] == b;
      }
    }
  }

  /** Beacon finalizes an epoch exactly when it was justified before its successor. */
  ghost predicate FinalizedInOrder(s: State, order: seq<int>) {
    && (forall e :: e in order <==> e in s.justified)
    && (forall e :: e in s.finalized <==> Before(order, e, e + 1))
  }

  lemma {:induction false} BeaconFinalizesInOrder(inputs: seq<Input>)
    ensures FinalizedInOrder(Beacon(inputs), Order(inputs))
  {
    hide Best, AddTo, Threshold;
    if inputs != [] {
      var last := |inputs| - 1;
      BeaconFinalizesInOrder(inputs[..last]);
      var x := inputs[last];
      var before, order := Beacon(inputs[..last]), Order(inputs[..last]);
      if x.Vote? && Reached(Counted(before, x.epoch, x.block, x.weight), x.epoch) && x.epoch !in before.justified {
        BeforeAppend(order, x.epoch);
      }
    }
  }

  ghost predicate EpochsNeverDecrease(inputs: seq<Input>) {
    forall i, j :: 0 <= i < j < |inputs| && inputs[i].Vote? && inputs[j].Vote? ==> inputs[i].epoch <= inputs[j].epoch
  }

  lemma {:induction false} OrderIsSorted(inputs: seq<Input>)
    requires EpochsNeverDecrease(inputs)
    ensures forall i, j :: 0 <= i < j < |Order(inputs)| ==> Order(inputs)[i] < Order(inputs)[j]
    ensures forall e :: e in Order(inputs) ==> exists k :: 0 <= k < |inputs| && inputs[k].Vote? && inputs[k].epoch == e
  {
    hide Best, AddTo, Threshold, BeaconStep;
    if inputs != [] {
      var last := |inputs| - 1;
      OrderIsSorted(inputs[..last]);
      BeaconFinalizesInOrder(inputs[..last]);
      var order := Order(inputs[..last]);
      forall e | e in order ensures exists k :: 0 <= k < |inputs| && inputs[k].Vote? && inputs[k].epoch == e {
        var k :| 0 <= k < last && inputs[..last][k].Vote? && inputs[..last][k].epoch == e;
        assert inputs[k].epoch == e;
      }
      if Order(inputs) != order {
        assert Order(inputs) == order + [inputs[last].epoch];
        forall i | 0 <= i < |order| ensures order[i] < inputs[last].epoch {
          assert order[i] in order;
          var k :| 0 <= k < last && inputs[..last][k].Vote? && inputs[..last][k].epoch == order[i];
          assert inputs[k] == inputs[..last][k];
        }
      }
    }
  }

  /** When vote epochs never decrease, both gadgets finalize exactly the justified epochs with a justified successor. */
  lemma GadgetsFinalizePairs(inputs: seq<Input>)
    requires EpochsNeverDecrease(inputs)
    ensures forall e :: e in Beacon(inputs).finalized <==> Paired(Beacon(inputs), e)
    ensures Beacon(inputs) == Casper(inputs)
  {
    hide Beacon, Casper, Order;
    GadgetsAgree(inputs);
    BeaconFinalizesInOrder(inputs);
    OrderIsSorted(inputs);
    var order := Order(inputs);
    forall e | Paired(Beacon(inputs), e) ensures Before(order, e, e + 1) {
      var i :| 0 <= i < |order| && order[i] == e;
      var j :| 0 <= j < |order| && order[j] == e + 1;
      assert i < j;
    }
    forall e | e in Casper(inputs).finalized ensures e in Beacon(inputs).finalized {
      assert Paired(Casper(inputs), e) && Paired(Beacon(inputs), e);
    }
  }

  /** Vote `k` meets the supermajority of epoch `e + 1` while `e` is already justified. */
  ghost predicate DueAt(inputs: seq<Input>, k: nat, e: int)
    requires k < |inputs|
  {
    ReachedAt(inputs, k, e + 1) && e in Beacon(inputs[..k]).justified
  }

  /**
   Casper finalizes an epoch if and only if it was justified when some vote of the next epoch
   met the supermajority.
   */
  lemma {:induction false} CasperFinalizesIff(inputs: seq<Input>, e: int)
    ensures e in Casper(inputs).finalized <==> exists k :: 0 <= k < |inputs| && DueAt(inputs, k, e)
  {
    hide Supermajority, Best, AddTo, Threshold;
    if inputs != [] {
      var last := |inputs| - 1;
      CasperFinalizesIff(inputs[..last], e);
      ReachedIff(inputs, e + 1);
      GadgetsAgree(inputs[..last]);
      GadgetsAgree(inputs);
      assert inputs[..last + 1] == inputs;
      forall k | 0 <= k < last ensures DueAt(inputs[..last], k, e) <==> DueAt(inputs, k, e) {
        assert inputs[..last][..k + 1] == inputs[..k + 1] && inputs[..last][..k] == inputs[..k];
      }
      FinalizedByStep(Casper(inputs[..last]), inputs[last], e);
      assert DueAt(inputs, last, e) <==>
               inputs[last].Vote? && inputs[last].epoch == e + 1 && Reached(Beacon(inputs), e + 1)
               && e in Beacon(inputs[..last]).justified;
      assert (exists k :: 0 <= k < last && DueAt(inputs[..last], k, e)) <==>
             (exists k :: 0 <= k < last && DueAt(inputs, k, e));
    }
  }

  lemma FinalizedByStep(s: State, x: Input, e: int)
    ensures e in CasperStep(s, x).finalized <==>
              e in s.finalized ||
              (x.Vote? && x.epoch == e + 1 && Reached(CasperStep(s, x), e + 1) && e in s.justified)
  {
    hide Best, AddTo, Threshold;
  }

  /**
   Exactly when the two gadgets agree on finality: whenever a vote meets the supermajority of
   an epoch whose predecessor is already justified, the predecessor was justified first.
   */
  lemma GadgetsEqualIff(inputs: seq<Input>)
    ensures Beacon(inputs) == Casper(inputs) <==>
              forall k, e :: 0 <= k < |inputs| && DueAt(inputs, k, e) ==> Before(Order(inputs), e, e + 1)
  {
    hide Beacon, Casper, Order, DueAt, Before;
    GadgetsAgree(inputs);
    BeaconFinalizesInOrder(inputs);
    if Beacon(inputs) == Casper(inputs) {
      forall k, e | 0 <= k < |inputs| && DueAt(inputs, k, e) ensures Before(Order(inputs), e, e + 1) {
        CasperFinalizesIff(inputs, e);
      }
    }
    if forall k, e :: 0 <= k < |inputs| && DueAt(inputs, k, e) ==> Before(Order(inputs), e, e + 1) {
      forall e | e in Casper(inputs).finalized ensures e in Beacon(inputs).finalized {
        CasperFinalizesIff(inputs, e);
      }
    }
  }

  /**
   Out of order they differ: epoch 1 is justified before epoch 0, and another vote in epoch 1
   makes Casper, but not Beacon, finalize epoch 0.
   */
  lemma OutOfOrderVotesSeparate()
    ensures var inputs := [TotalStake(3), Vote(1, "a", 2), Vote(0, "b", 2), Vote(1, "a", 1)];
            Beacon(inputs).finalized == {} && Casper(inputs).finalized == {0}
  {
    var inputs := [TotalStake(3), Vote(1, "a", 2), Vote(0, "b", 2), Vote(1, "a", 1)];
    assert inputs[..3][..2] == inputs[..2] && inputs[..2][..1] == inputs[..1] && inputs[..1][..0] == [];
    SeparatingStates();
    var s1 := EMPTY.(totalStake := 3);
    assert Beacon([]) == EMPTY;
    assert Casper([]) == EMPTY;
    assert Beacon(inputs[..1]) == s1;
    assert Casper(inputs[..1]) == s1;
    var s2 := State(map[1 := [("a", 2)]], 3, {1}, {}, map[1 := "a"]);
    assert Beacon(inputs[..2]) == s2 && Casper(inputs[..2]) == s2;
  }

  lemma SeparatingStates()
    ensures var s1 := EMPTY.(totalStake := 3);
            var s2 := State(map[1 := [("a", 2)]], 3, {1}, {}, map[1 := "a"]);
            var s3 := State(map[1 := [("a", 2)], 0 := [("b", 2)]], 3, {0, 1}, {}, map[1 := "a", 0 := "b"]);
            && BeaconStep(s1, Vote(1, "a", 2)) == s2 && CasperStep(s1, Vote(1, "a", 2)) == s2
            && BeaconStep(s2, Vote(0, "b", 2)) == s3 && CasperStep(s2, Vote(0, "b", 2)) == s3
            && BeaconStep(s3, Vote(1, "a", 1)).finalized == {} && CasperStep(s3, Vote(1, "a", 1)).finalized == {0}
  {
    var s1 := EMPTY.(totalStake := 3);
    var s2 := State(map[1 := [("a", 2)]], 3, {1}, {}, map[1 := "a"]);
    var s3 := State(map[1 := [("a", 2)], 0 := [("b", 2)]], 3, {0, 1}, {}, map[1 := "a", 0 := "b"]);
    assert AddTo([], "a", 2) == [("a", 2)] && AddTo([], "b", 2) == [("b", 2)];
    assert Best([("a", 2)]) == ("a", 2) && Best([("b", 2)]) == ("b", 2);
    assert [("a", 2)][1..] == [];
    assert AddTo([("a", 2)], "a", 1) == [("a", 3)];
    assert Best([("a", 3)]) == ("a", 3);
    hide Best, AddTo;
    assert Counted(s1, 1, "a", 2).votes == s2.votes && Counted(s2, 0, "b", 2).votes == s3.votes;
    assert {1} + {0} == {0, 1} && {0, 1} + {1} == {0, 1};
  }

  /** Justification and finalization are never withdrawn, and a justified block never changes. */
  lemma StepIsMonotone(s: State, x: Input)
    requires s.justifiedBlocks.Keys == s.justified
    ensures var t := BeaconStep(s, x);
            && s.justified <= t.justified && s.finalized <= t.finalized
            && t.justifiedBlocks.Keys == t.justified
            && forall e :: e in s.justified ==> t.justifiedBlocks[e] == s.justifiedBlocks[e]
  {
    hide Best, AddTo, Threshold;
  }
}
