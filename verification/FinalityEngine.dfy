/**
 The checkpoint engine of finality_engine.py: attestations, two-thirds justification,
 finalization of two consecutive checkpoints, the reorg floor read by
 consensus/adapter.py, and accountable quorum intersection between two engines.
 */
module FinalityEngine {

  const EPOCH_LENGTH := 32

  datatype Checkpoint = Checkpoint(blockHash: string, blockNumber: int, votes: int, isJustified: bool, isFinalized: bool)

  datatype State = State(
    checkpoints: map<int, Checkpoint>, votes: map<int, seq<string>>,
    justified: seq<int>, finalized: seq<int>, currentEpoch: int, validators: int)

  function Start(validators: int): State {
    State(map[], map[], [], [], 0, validators)
  }

  function VotesAt(s: State, e: int): seq<string> {
    if e in s.votes then s.votes[e] else []
  }

  function CreateCheckpoint(s: State, number: int, hash: string): State {
    var e := number / EPOCH_LENGTH;
    if e in s.checkpoints then s
    else s.(checkpoints := s.checkpoints[e := Checkpoint(hash, number, 0, false, false)])
  }

  /** `votes >= max(1, n) * 2 / 3`, without rounding. */
  predicate Quorum(votes: int, validators: int) {
    3 * votes >= 2 * (if validators < 1 then 1 else validators)
  }

  predicate Matches(s: State, e: int, hash: string) {
    e in s.checkpoints && s.checkpoints[e].blockHash == hash
  }

  function CountVote(s: State, v: string, e: int): State
    requires e in s.checkpoints
  {
    if v in VotesAt(s, e) then s
    else
      var cp := s.checkpoints[e];
      s.(votes := s.votes[e := VotesAt(s, e) + [v]], checkpoints := s.checkpoints[e := cp.(votes := cp.votes + 1)])
  }

  function TryJustify(s: State, e: int): State
    requires e in s.checkpoints
  {
    var cp := s.checkpoints[e];
    if Quorum(cp.votes, s.validators) && !cp.isJustified then
      s.(checkpoints := s.checkpoints[e := cp.(isJustified := true)], justified := s.justified + [e])
    else s
  }

  function AddAttestation(s: State, v: string, e: int, hash: string): State {
    if !Matches(s, e, hash) then s else TryJustify(CountVote(s, v, e), e)
  }

  predicate Finalizable(s: State, e: int) {
    && e in s.justified && e - 1 in s.justified
    && e in s.checkpoints && !s.checkpoints[e].isFinalized
  }

  function Finalize(s: State, e: int): State {
    if Finalizable(s, e) then
      s.(checkpoints := s.checkpoints[e := s.checkpoints[e].(isFinalized := true)], finalized := s.finalized + [e])
    else s
  }

  function FinalizeRange(s: State, lo: int, hi: int): State
    decreases hi - lo
  {
    if lo >= hi then s else Finalize(FinalizeRange(s, lo, hi - 1), hi - 1)
  }

  function ProcessBlock(s: State, number: int, hash: string, v: string): State {
    var e := number / EPOCH_LENGTH;
    var s1 := AddAttestation(CreateCheckpoint(s, number, hash), v, e, hash);
    FinalizeRange(s1, s1.currentEpoch, e + 1).(currentEpoch := e)
  }

  /** The highest block number of a finalized checkpoint, 0 if there is none. */
  function FloorOf(s: State, finalized: seq<int>): int {
    if finalized == [] then 0
    else
      var rest, e := FloorOf(s, finalized[..|finalized| - 1]), finalized[|finalized| - 1];
      if e in s.checkpoints && s.checkpoints[e].blockNumber > rest then s.checkpoints[e].blockNumber else rest
  }

  function Floor(s: State): int {
    FloorOf(s, s.finalized)
  }

  // ----- the object -----

  class Engine {
    var checkpoints: map<int, Checkpoint>
    var votes: map<int, seq<string>>
    var justifiedCheckpoints: seq<int>
    var finalizedCheckpoints: seq<int>
    var currentEpoch: int
    var activeValidatorCount: int

    ghost function Value(): State
      reads this
    {
      State(checkpoints, votes, justifiedCheckpoints, finalizedCheckpoints, currentEpoch, activeValidatorCount)
    }

    /** A justified epoch has a checkpoint, so finalization never misses one. */
    ghost predicate Valid()
      reads this
    {
      forall e :: e in justifiedCheckpoints ==> e in checkpoints
    }

    constructor ()
      ensures Valid() && Value() == State(map[], map[], [], [], 0, 1)
    {
      checkpoints, votes, justifiedCheckpoints, finalizedCheckpoints := map[], map[], [], [];
      currentEpoch, activeValidatorCount := 0, 1;
    }

    method SetActiveValidatorCount(count: int)
      requires Valid()
      modifies this`activeValidatorCount
      ensures Valid() && Value() == SetValidators(old(Value()), count)
    {
      activeValidatorCount := if count < 1 then 1 else count;
    }

    method AddCheckpoint(number: int, hash: string)
      requires Valid()
      modifies this`checkpoints
      ensures Valid() && Value() == CreateCheckpoint(old(Value()), number, hash)
    {
      var e := number / EPOCH_LENGTH;
      if e !in checkpoints {
        checkpoints := checkpoints[e := Checkpoint(hash, number, 0, false, false)];
      }
    }

    method Attest(v: string, e: int, hash: string) returns (ok: bool)
      requires Valid()
      modifies this`checkpoints, this`votes, this`justifiedCheckpoints
      ensures Valid() && Value() == AddAttestation(old(Value()), v, e, hash)
      ensures ok == Matches(old(Value()), e, hash)
    {
      if e !in checkpoints { return false; }
      if checkpoints[e].blockHash != hash { return false; }
      var voters := if e in votes then votes[e] else [];
      if v !in voters {
        votes := votes[e := voters + [v]];
        checkpoints := checkpoints[e := checkpoints[e].(votes := checkpoints[e].votes + 1)];
      }
      assert Value() == CountVote(old(Value()), v, e);
      var total := if activeValidatorCount < 1 then 1 else activeValidatorCount;
      if 3 * checkpoints[e].votes >= 2 * total {
        if !checkpoints[e].isJustified {
          checkpoints := checkpoints[e := checkpoints[e].(isJustified := true)];
          justifiedCheckpoints := justifiedCheckpoints + [e];
        }
      }
      return true;
    }

    method FinalizeCheckpoint(e: int) returns (ok: bool)
      requires Valid()
      modifies this`checkpoints, this`finalizedCheckpoints
      ensures Valid() && Value() == Finalize(old(Value()), e)
      ensures ok == Finalizable(old(Value()), e)
    {
      if e !in justifiedCheckpoints { return false; }
      if e - 1 !in justifiedCheckpoints { return false; }
      if !checkpoints[e].isFinalized {
        checkpoints := checkpoints[e := checkpoints[e].(isFinalized := true)];
        finalizedCheckpoints := finalizedCheckpoints + [e];
        return true;
      }
      return false;
    }

    method Process(number: int, hash: string, v: string)
      requires Valid()
      modifies this
      ensures Valid() && Value() == ProcessBlock(old(Value()), number, hash, v)
    {
      hide AddAttestation, CreateCheckpoint, Finalize;
      var epoch := number / EPOCH_LENGTH;
      AddCheckpoint(number, hash);
      var _ := Attest(v, epoch, hash);
      ghost var start := Value();
      var e := currentEpoch;
      while e < epoch + 1
        invariant Valid()
        invariant start.currentEpoch <= e && (e <= epoch + 1 || e == start.currentEpoch)
        invariant Value() == FinalizeRange(start, start.currentEpoch, e)
      {
        var _ := FinalizeCheckpoint(e);
        e := e + 1;
      }
      assert FinalizeRange(start, start.currentEpoch, epoch + 1) == Value();
      currentEpoch := epoch;
    }

    method FinalizedFloorHeight() returns (floor: int)
      ensures floor == Floor(Value())
    {
      floor := 0;
      for i := 0 to |finalizedCheckpoints|
        invariant floor == FloorOf(Value(), finalizedCheckpoints[..i])
      {
        var e := finalizedCheckpoints[i];
        assert finalizedCheckpoints[..i + 1][..i] == finalizedCheckpoints[..i];
        if e in checkpoints && checkpoints[e].blockNumber > floor {
          floor := checkpoints[e].blockNumber;
        }
      }
      assert finalizedCheckpoints[..|finalizedCheckpoints|] == finalizedCheckpoints;
    }
  }

  // ----- reachable states -----

  ghost predicate Distinct<T>(s: seq<T>) {
    forall i, j :: 0 <= i < j < |s| ==> s[i] != s[j]
  }

  /** The bookkeeping of one epoch, whatever happens to the number of validators. */
  ghost predicate EpochOk(s: State, e: int) {
    && Distinct(VotesAt(s, e))
    && (VotesAt(s, e) != [] ==> e in s.checkpoints)
    && (e in s.checkpoints ==> s.checkpoints[e].votes == |VotesAt(s, e)|)
    && (e in s.justified <==> e in s.checkpoints && s.checkpoints[e].isJustified)
    && (e in s.finalized <==> e in s.checkpoints && s.checkpoints[e].isFinalized)
    && (e in s.finalized ==> e in s.justified && e - 1 in s.justified)
  }

  ghost predicate Sound(s: State) {
    (forall e :: EpochOk(s, e)) && Distinct(s.justified) && Distinct(s.finalized)
  }

  /** With a fixed number of validators: an epoch is justified exactly when its votes are a quorum. */
  ghost predicate QuorumsHold(s: State) {
    forall e :: e in s.justified <==> 3 * |VotesAt(s, e)| >= 2 * (if s.validators > 1 then s.validators else 1)
  }

  /** Later states keep checkpoints, votes, justification and finalization. */
  ghost predicate Extends(s: State, t: State) {
    && s.checkpoints.Keys <= t.checkpoints.Keys
    && (forall e :: e in s.checkpoints ==> t.checkpoints[e].blockHash == s.checkpoints[e].blockHash)
    && (forall e :: e in s.checkpoints ==> t.checkpoints[e].blockNumber == s.checkpoints[e].blockNumber)
    && s.justified <= t.justified && s.finalized <= t.finalized
  }

  lemma CreateKeeps(s: State, number: int, hash: string)
    requires Sound(s)
    ensures Sound(CreateCheckpoint(s, number, hash)) && Extends(s, CreateCheckpoint(s, number, hash))
  {
    var t := CreateCheckpoint(s, number, hash);
    forall e ensures EpochOk(t, e) {
      assert EpochOk(s, e);
      assert EpochOk(s, e + 1);
    }
  }

  lemma AttestKeeps(s: State, v: string, e: int, hash: string)
    requires Sound(s)
    ensures Sound(AddAttestation(s, v, e, hash)) && Extends(s, AddAttestation(s, v, e, hash))
  {
    if Matches(s, e, hash) {
      var u := CountVote(s, v, e);
      assert EpochOk(s, e);
      forall x ensures EpochOk(u, x) {
        assert EpochOk(s, x);
      }
      JustifyKeeps(u, e);
    }
  }

  lemma JustifyKeeps(s: State, e: int)
    requires Sound(s) && e in s.checkpoints
    ensures Sound(TryJustify(s, e)) && Extends(s, TryJustify(s, e))
  {
    var t := TryJustify(s, e);
    assert EpochOk(s, e);
    forall x ensures EpochOk(t, x) {
      assert EpochOk(s, x);
    }
  }

  lemma FinalizeKeeps(s: State, e: int)
    requires Sound(s)
    ensures Sound(Finalize(s, e)) && Extends(s, Finalize(s, e))
  {
    var t := Finalize(s, e);
    assert EpochOk(s, e);
    forall x ensures EpochOk(t, x) {
      assert EpochOk(s, x);
    }
  }

  lemma {:induction false} FinalizeRangeKeeps(s: State, lo: int, hi: int)
    requires Sound(s)
    ensures Sound(FinalizeRange(s, lo, hi)) && Extends(s, FinalizeRange(s, lo, hi))
    ensures FinalizeRange(s, lo, hi).votes == s.votes
    decreases hi - lo
  {
    hide Sound, Finalize;
    if lo < hi {
      FinalizeRangeKeeps(s, lo, hi - 1);
      FinalizeKeeps(FinalizeRange(s, lo, hi - 1), hi - 1);
      FinalizeKeepsVotes(FinalizeRange(s, lo, hi - 1), hi - 1);
    }
  }

  /** Finalization creates no checkpoint. */
  lemma {:induction false} FinalizeRangeKeepsKeys(s: State, lo: int, hi: int)
    ensures FinalizeRange(s, lo, hi).checkpoints.Keys == s.checkpoints.Keys
    decreases hi - lo
  {
    if lo < hi { FinalizeRangeKeepsKeys(s, lo, hi - 1); }
  }

  lemma FinalizeKeepsVotes(s: State, e: int)
    ensures Finalize(s, e).votes == s.votes
  {
  }

  // ----- what the calls do -----

  /** The first block of 32 fixes the checkpoint of its epoch; later ones change nothing. */
  lemma CheckpointOfBlock(s: State, number: int, hash: string)
    ensures var t, e := CreateCheckpoint(s, number, hash), number / 32;
            && t == s.(checkpoints := t.checkpoints) && t.checkpoints.Keys == s.checkpoints.Keys + {e}
            && (forall k :: k in s.checkpoints ==> t.checkpoints[k] == s.checkpoints[k])
            && (e !in s.checkpoints ==> t.checkpoints[e] == Checkpoint(hash, number, 0, false, false))
  {
  }

  /** An attestation is recorded exactly if it names the checkpoint's hash; nothing else is. */
  lemma AttestationIsRecorded(s: State, v: string, e: int, hash: string, w: string, k: int)
    ensures w in VotesAt(AddAttestation(s, v, e, hash), k) <==>
              w in VotesAt(s, k) || (w == v && k == e && e in s.checkpoints && s.checkpoints[e].blockHash == hash)
  {
  }

  /** Exactly which checkpoints a range of finalizations adds. */
  lemma {:induction false} FinalizedInRange(s: State, lo: int, hi: int, e: int)
    requires Sound(s)
    ensures e in FinalizeRange(s, lo, hi).finalized <==>
              e in s.finalized || (lo <= e < hi && e in s.justified && e - 1 in s.justified)
    ensures FinalizeRange(s, lo, hi).justified == s.justified
    decreases hi - lo
  {
    if lo < hi {
      var t := FinalizeRange(s, lo, hi - 1);
      FinalizedInRange(s, lo, hi - 1, e);
      FinalizeRangeKeeps(s, lo, hi - 1);
      hide FinalizeRange;
      assert EpochOk(t, e);
      assert EpochOk(t, hi - 1);
    }
  }

  /**
   A block finalizes exactly the epochs, from the current one to its own, that are justified together
   with the epoch before them.
   */
  lemma BlockFinalizes(s: State, number: int, hash: string, v: string, e: int)
    requires Sound(s)
    ensures var t := ProcessBlock(s, number, hash, v);
            && t.currentEpoch == number / 32
            && (e in t.finalized <==>
                  e in s.finalized || (s.currentEpoch <= e <= number / 32 && e in t.justified && e - 1 in t.justified))
  {
    hide Sound, EpochOk, FinalizeRange;
    var s0 := CreateCheckpoint(s, number, hash);
    CreateKeeps(s, number, hash);
    AttestKeeps(s0, v, number / 32, hash);
    var s1 := AddAttestation(s0, v, number / 32, hash);
    FinalizedInRange(s1, s1.currentEpoch, number / 32 + 1, e);
  }

  // ----- runs -----

  datatype Input = Block(number: int, hash: string, v: string) | Attestation(v: string, epoch: int, hash: string)

  function Step(s: State, x: Input): State {
    match x
    case Block(number, hash, v) => ProcessBlock(s, number, hash, v)
    case Attestation(v, epoch, hash) => AddAttestation(s, v, epoch, hash)
  }

  function Run(validators: int, inputs: seq<Input>): State {
    if inputs == [] then Start(validators)
    else Step(Run(validators, inputs[..|inputs| - 1]), inputs[|inputs| - 1])
  }

  lemma ProcessKeeps(s: State, number: int, hash: string, v: string)
    requires Sound(s)
    ensures Sound(ProcessBlock(s, number, hash, v)) && Extends(s, ProcessBlock(s, number, hash, v))
  {
    hide CreateCheckpoint, AddAttestation, FinalizeRange;
    var e := number / EPOCH_LENGTH;
    CreateKeeps(s, number, hash);
    var s0 := CreateCheckpoint(s, number, hash);
    AttestKeeps(s0, v, e, hash);
    var s1 := AddAttestation(s0, v, e, hash);
    FinalizeRangeKeeps(s1, s1.currentEpoch, e + 1);
    var s2 := FinalizeRange(s1, s1.currentEpoch, e + 1);
    forall x ensures EpochOk(s2.(currentEpoch := e), x) { assert EpochOk(s2, x); }
  }

  lemma StepKeeps(s: State, x: Input)
    requires Sound(s)
    ensures Sound(Step(s, x)) && Extends(s, Step(s, x))
  {
    hide Sound, ProcessBlock, AddAttestation;
    match x
    case Block(number, hash, v) => ProcessKeeps(s, number, hash, v);
    case Attestation(v, epoch, hash) => AttestKeeps(s, v, epoch, hash);
  }

  lemma AttestKeepsQuorums(s: State, v: string, e: int, hash: string)
    requires Sound(s) && QuorumsHold(s)
    ensures QuorumsHold(AddAttestation(s, v, e, hash)) && AddAttestation(s, v, e, hash).validators == s.validators
  {
    var t := AddAttestation(s, v, e, hash);
    assert EpochOk(s, e);
    if Matches(s, e, hash) {
      assert VotesAt(s, e) <= VotesAt(t, e);
      assert e in s.justified <==> 3 * |VotesAt(s, e)| >= 2 * (if s.validators > 1 then s.validators else 1);
      forall x ensures x in t.justified <==> 3 * |VotesAt(t, x)| >= 2 * (if t.validators > 1 then t.validators else 1) {
        if x != e { assert VotesAt(t, x) == VotesAt(s, x); }
      }
    }
  }

  lemma {:induction false} FinalizeRangeKeepsQuorums(s: State, lo: int, hi: int)
    ensures FinalizeRange(s, lo, hi).justified == s.justified && FinalizeRange(s, lo, hi).validators == s.validators
    ensures FinalizeRange(s, lo, hi).votes == s.votes
    decreases hi - lo
  {
    if lo < hi { FinalizeRangeKeepsQuorums(s, lo, hi - 1); }
  }

  lemma StepKeepsQuorums(s: State, x: Input)
    requires Sound(s) && QuorumsHold(s)
    ensures QuorumsHold(Step(s, x)) && Step(s, x).validators == s.validators
  {
    hide AddAttestation, FinalizeRange, Sound, EpochOk;
    match x
    case Attestation(v, epoch, hash) => AttestKeepsQuorums(s, v, epoch, hash);
    case Block(number, hash, v) =>
      var e := number / EPOCH_LENGTH;
      var s0 := CreateCheckpoint(s, number, hash);
      CreateKeeps(s, number, hash);
      AttestKeepsQuorums(s0, v, e, hash);
      var s1 := AddAttestation(s0, v, e, hash);
      FinalizeRangeKeepsQuorums(s1, s1.currentEpoch, e + 1);
      var t := ProcessBlock(s, number, hash, v);
      assert forall k :: VotesAt(t, k) == VotesAt(s1, k);
  }

  /**
   Every reachable state: per epoch the votes are distinct and equal to the checkpoint's
   counter, a checkpoint is justified exactly when they are a two-thirds quorum, and a
   finalized one has a justified predecessor (the engine finalizes the later of two
   consecutive checkpoints).
   */
  lemma {:induction false} ReachableIsSound(validators: int, inputs: seq<Input>)
    ensures Sound(Run(validators, inputs)) && QuorumsHold(Run(validators, inputs))
    ensures Run(validators, inputs).validators == validators
  {
    if inputs != [] {
      ReachableIsSound(validators, inputs[..|inputs| - 1]);
      StepKeeps(Run(validators, inputs[..|inputs| - 1]), inputs[|inputs| - 1]);
      StepKeepsQuorums(Run(validators, inputs[..|inputs| - 1]), inputs[|inputs| - 1]);
    }
  }

  // ----- what a run finalizes -----

  /** The epoch of the last block of the run, 0 before the first. */
  ghost function LastEpoch(inputs: seq<Input>): int {
    if inputs == [] then 0
    else if inputs[|inputs| - 1].Block? then inputs[|inputs| - 1].number / 32
    else LastEpoch(inputs[..|inputs| - 1])
  }

  /** Input k is a block that moves the engine over epoch e, after which e and e - 1 are justified. */
  ghost predicate FinalizedAt(validators: int, inputs: seq<Input>, k: int, e: int)
    requires 0 <= k < |inputs|
  {
    && inputs[k].Block? && LastEpoch(inputs[..k]) <= e <= inputs[k].number / 32
    && e in Run(validators, inputs[..k + 1]).justified && e - 1 in Run(validators, inputs[..k + 1]).justified
  }

  lemma {:induction false} LastEpochIsCurrent(validators: int, inputs: seq<Input>)
    ensures Run(validators, inputs).currentEpoch == LastEpoch(inputs)
  {
    hide Sound;
    if inputs != [] {
      var before, x := inputs[..|inputs| - 1], inputs[|inputs| - 1];
      LastEpochIsCurrent(validators, before);
      ReachableIsSound(validators, before);
      if x.Block? { BlockFinalizes(Run(validators, before), x.number, x.hash, x.v, 0); }
    }
  }

  /**
   An epoch is finalized exactly if some block passed over it while it and its predecessor were
   justified: a quorum that completes after the next epoch's first block comes too late.
   */
  lemma {:induction false} FinalizedIff(validators: int, inputs: seq<Input>, e: int)
    ensures e in Run(validators, inputs).finalized <==>
              exists k :: 0 <= k < |inputs| && FinalizedAt(validators, inputs, k, e)
  {
    hide Sound, ProcessBlock;
    if inputs != [] {
      var last := |inputs| - 1;
      var before, x := inputs[..last], inputs[last];
      FinalizedIff(validators, before, e);
      ReachableIsSound(validators, before);
      LastEpochIsCurrent(validators, before);
      assert inputs[..last + 1] == inputs;
      forall k | 0 <= k < last ensures FinalizedAt(validators, before, k, e) <==> FinalizedAt(validators, inputs, k, e) {
        assert before[..k] == inputs[..k] && before[..k + 1] == inputs[..k + 1];
      }
      if x.Block? { BlockFinalizes(Run(validators, before), x.number, x.hash, x.v, e); }
      assert e in Run(validators, inputs).finalized <==>
               e in Run(validators, before).finalized || FinalizedAt(validators, inputs, last, e);
    }
  }

  function SetValidators(s: State, count: int): State {
    s.(validators := if count < 1 then 1 else count)
  }

  /** The active set may change at any time; nothing already recorded is lost. */
  lemma SetValidatorsKeeps(s: State, count: int)
    requires Sound(s)
    ensures Sound(SetValidators(s, count)) && Extends(s, SetValidators(s, count))
  {
    forall e ensures EpochOk(SetValidators(s, count), e) { assert EpochOk(s, e); }
  }

  // ----- the floor only rises -----

  lemma {:induction false} FloorOfExtends(s: State, t: State, finalized: seq<int>)
    requires Extends(s, t) && forall i :: 0 <= i < |finalized| ==> finalized[i] in s.checkpoints
    ensures FloorOf(s, finalized) == FloorOf(t, finalized)
  {
    if finalized != [] {
      FloorOfExtends(s, t, finalized[..|finalized| - 1]);
    }
  }

  lemma {:induction false} FloorOfLonger(s: State, a: seq<int>, b: seq<int>)
    requires a <= b
    ensures FloorOf(s, a) <= FloorOf(s, b)
    decreases |b|
  {
    if a != b {
      FloorOfLonger(s, a, b[..|b| - 1]);
    }
  }

  /** The floor is the maximum over the finalized checkpoints and never sinks. */
  lemma FloorRises(s: State, t: State)
    requires Sound(s) && Extends(s, t)
    ensures 0 <= Floor(s) <= Floor(t)
  {
    forall i | 0 <= i < |s.finalized| ensures s.finalized[i] in s.checkpoints {
      assert EpochOk(s, s.finalized[i]);
    }
    FloorOfExtends(s, t, s.finalized);
    FloorOfLonger(t, s.finalized, t.finalized);
    FloorOfLonger(s, [], s.finalized);
  }

  lemma {:induction false} FloorIsMaximum(s: State, finalized: seq<int>)
    ensures forall i :: 0 <= i < |finalized| && finalized[i] in s.checkpoints ==>
              s.checkpoints[finalized[i]].blockNumber <= FloorOf(s, finalized)
    ensures FloorOf(s, finalized) == 0 ||
              exists i :: 0 <= i < |finalized| && finalized[i] in s.checkpoints &&
                s.checkpoints[finalized[i]].blockNumber == FloorOf(s, finalized)
  {
    if finalized != [] {
      var last := |finalized| - 1;
      FloorIsMaximum(s, finalized[..last]);
      if FloorOf(s, finalized) != 0 && FloorOf(s, finalized) == FloorOf(s, finalized[..last]) {
        var i :| 0 <= i < last && finalized[..last][i] in s.checkpoints &&
          s.checkpoints[finalized[..last][i]].blockNumber == FloorOf(s, finalized[..last]);
        assert finalized[i] == finalized[..last][i];
      }
    }
  }

  // ----- accountable quorum intersection -----

  /** The run contains an attestation of `v` for epoch `e` with this hash (proposing a block is one). */
  predicate Attested(inputs: seq<Input>, v: string, e: int, hash: string) {
    exists i :: 0 <= i < |inputs| &&
      (inputs[i] == Attestation(v, e, hash) ||
       (inputs[i].Block? && inputs[i].v == v && inputs[i].hash == hash && inputs[i].number / EPOCH_LENGTH == e))
  }

  lemma AttestedLater(inputs: seq<Input>, v: string, e: int, hash: string)
    requires inputs != [] && Attested(inputs[..|inputs| - 1], v, e, hash)
    ensures Attested(inputs, v, e, hash)
  {
    var i :| 0 <= i < |inputs| - 1 &&
      (inputs[..|inputs| - 1][i] == Attestation(v, e, hash) ||
       (inputs[..|inputs| - 1][i].Block? && inputs[..|inputs| - 1][i].v == v && inputs[..|inputs| - 1][i].hash == hash
        && inputs[..|inputs| - 1][i].number / EPOCH_LENGTH == e));
    assert inputs[i] == inputs[..|inputs| - 1][i];
  }

  lemma VotersHaveCheckpoint(s: State, e: int)
    requires Sound(s)
    ensures VotesAt(s, e) != [] ==> e in s.checkpoints
  {
    assert EpochOk(s, e);
  }

  lemma TryJustifyKeepsVotes()
    ensures forall s: State, e: int :: e in s.checkpoints ==> TryJustify(s, e).votes == s.votes
  {
  }

  lemma NewVoteCameFromStep(s: State, x: Input, v: string, e: int)
    requires Sound(s) && v in VotesAt(Step(s, x), e) && v !in VotesAt(s, e)
    ensures e in Step(s, x).checkpoints
    ensures var hash := Step(s, x).checkpoints[e].blockHash;
            x == Attestation(v, e, hash) ||
            (x.Block? && x.v == v && x.hash == hash && x.number / EPOCH_LENGTH == e)
  {
    hide FinalizeRange, Sound, TryJustify;
    StepKeeps(s, x);
    VotersHaveCheckpoint(Step(s, x), e);
    TryJustifyKeepsVotes();
    if x.Block? {
      var s0 := CreateCheckpoint(s, x.number, x.hash);
      var s1 := AddAttestation(s0, x.v, x.number / EPOCH_LENGTH, x.hash);
      CreateKeeps(s, x.number, x.hash);
      AttestKeeps(s0, x.v, x.number / EPOCH_LENGTH, x.hash);
      FinalizeRangeKeeps(s1, s1.currentEpoch, x.number / EPOCH_LENGTH + 1);
      assert v in VotesAt(s1, e);
    }
  }

  /** Every recorded vote was cast in the run, for the hash that the checkpoint carries. */
  lemma {:induction false} VotesAreAttested(validators: int, inputs: seq<Input>, v: string, e: int)
    requires v in VotesAt(Run(validators, inputs), e)
    ensures e in Run(validators, inputs).checkpoints
    ensures Attested(inputs, v, e, Run(validators, inputs).checkpoints[e].blockHash)
  {
    hide Step;
    ReachableIsSound(validators, inputs);
    assert EpochOk(Run(validators, inputs), e);
    var last := |inputs| - 1;
    var s, x := Run(validators, inputs[..last]), inputs[last];
    ReachableIsSound(validators, inputs[..last]);
    StepKeeps(s, x);
    if v in VotesAt(s, e) {
      VotesAreAttested(validators, inputs[..last], v, e);
      AttestedLater(inputs, v, e, s.checkpoints[e].blockHash);
    } else {
      NewVoteCameFromStep(s, x, v, e);
      assert inputs[last] == x;
    }
  }

  /** Everybody who attests or proposes in the run; the engine counts any name. */
  ghost function Voters(inputs: seq<Input>): set<string> {
    set i | 0 <= i < |inputs| :: inputs[i].v
  }

  lemma {:induction false} DistinctCount(s: seq<string>)
    requires Distinct(s)
    ensures |set v | v in s| == |s|
  {
    if s != [] {
      var last := |s| - 1;
      DistinctCount(s[..last]);
      assert (set v | v in s) == (set v | v in s[..last]) + {s[last]};
      assert s[last] !in s[..last];
    }
  }

  lemma AttestedIsVoter(inputs: seq<Input>, v: string, e: int, hash: string)
    requires Attested(inputs, v, e, hash)
    ensures v in Voters(inputs)
  {
  }

  lemma JustifiedQuorum(n: int, inputs: seq<Input>, e: int) returns (quorum: set<string>)
    requires e in Run(n, inputs).justified
    ensures e in Run(n, inputs).checkpoints
    ensures quorum <= Voters(inputs) && 3 * |quorum| >= 2 * n
    ensures forall v :: v in quorum ==> Attested(inputs, v, e, Run(n, inputs).checkpoints[e].blockHash)
  {
    hide Run, Voters;
    var s := Run(n, inputs);
    ReachableIsSound(n, inputs);
    assert EpochOk(s, e);
    assert 3 * |VotesAt(s, e)| >= 2 * n;
    quorum := set v | v in VotesAt(s, e);
    DistinctCount(VotesAt(s, e));
    forall v | v in quorum
      ensures v in Voters(inputs) && Attested(inputs, v, e, s.checkpoints[e].blockHash)
    {
      VotesAreAttested(n, inputs, v, e);
      AttestedIsVoter(inputs, v, e, s.checkpoints[e].blockHash);
    }
  }

  /**
   Quorum intersection: if two engines that count n validators both justify epoch e, and m names
   attested in the two runs together, then at least (4n - 3m) / 3 of them attested in both, each
   for that engine's checkpoint. If nobody outside the n validators attests, that is a third of
   them. If the checkpoints differ, all of these attested to two blocks for one epoch.
   */
  lemma QuorumsIntersect(n: int, a: seq<Input>, b: seq<Input>, e: int) returns (both: set<string>)
    requires e in Run(n, a).justified && e in Run(n, b).justified
    ensures e in Run(n, a).checkpoints && e in Run(n, b).checkpoints
    ensures both <= Voters(a) * Voters(b) && 3 * |both| >= 4 * n - 3 * |Voters(a) + Voters(b)|
    ensures |Voters(a) + Voters(b)| <= n ==> 3 * |both| >= n
    ensures forall v :: v in both ==>
              && Attested(a, v, e, Run(n, a).checkpoints[e].blockHash)
              && Attested(b, v, e, Run(n, b).checkpoints[e].blockHash)
  {
    hide Run, Voters;
    var va := JustifiedQuorum(n, a, e);
    var vb := JustifiedQuorum(n, b, e);
    both := va * vb;
    InclusionExclusion(va, vb, Voters(a) + Voters(b));
  }

  /**
   Outsiders count: with one validator on the books, two strangers justify two different blocks for
   one epoch in two engines, and nobody attested in both.
   */
  lemma OutsidersSplit()
    ensures var a, b := [Block(0, "x", "eve")], [Block(0, "y", "mallory")];
            && 0 in Run(1, a).justified && 0 in Run(1, b).justified
            && 0 in Run(1, a).checkpoints && 0 in Run(1, b).checkpoints
            && Run(1, a).checkpoints[0].blockHash != Run(1, b).checkpoints[0].blockHash
            && Voters(a) * Voters(b) == {}
  {
    FirstBlockJustifies("x", "eve");
    FirstBlockJustifies("y", "mallory");
  }

  lemma FirstBlockJustifies(hash: string, v: string)
    ensures var s := Run(1, [Block(0, hash, v)]);
            0 in s.justified && 0 in s.checkpoints && s.checkpoints[0].blockHash == hash
  {
    hide FinalizeRange;
    var x := Block(0, hash, v);
    assert [x][..0] == [] && Run(1, []) == Start(1);
    assert 0 / EPOCH_LENGTH == 0;
    var s0 := CreateCheckpoint(Start(1), 0, hash);
    var s1 := AddAttestation(s0, v, 0, hash);
    assert VotesAt(s0, 0) == [] && 0 in s1.justified;
    ReachableIsSound(1, []);
    CreateKeeps(Start(1), 0, hash);
    AttestKeeps(s0, v, 0, hash);
    FinalizeRangeKeeps(s1, s1.currentEpoch, 1);
  }

  lemma InclusionExclusion(a: set<string>, b: set<string>, whole: set<string>)
    requires a <= whole && b <= whole
    ensures |a| + |b| - |a * b| <= |whole|
  {
    assert |a + b| == |a| + |b| - |a * b|;
    assert a + b <= whole;
    SubsetIsSmaller(a + b, whole);
  }

  lemma SubsetIsSmaller(a: set<string>, b: set<string>)
    requires a <= b
    ensures |a| <= |b|
  {
    assert b == a + (b - a);
  }
}
