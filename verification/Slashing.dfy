/**
 The slashing engine of consensus/slashing.py: the state and its transitions as
 functions, the object whose methods implement them, and what holds over whole runs.
 */
module Slashing {
  import opened Sums

  datatype Reason = DoubleVote | DoubleProposal | Offline | InvalidProposal

  function Penalty(reason: Reason): nat {
    match reason
    case DoubleVote => 100
    case DoubleProposal => 200
    case Offline => 10
    case InvalidProposal => 50
  }

  datatype SlashEvent = SlashEvent(validator: string, reason: Reason, epoch: int, penalty: nat)

  datatype State = State(
    votes: map<string, map<int, string>>,
    proposals: map<int, set<string>>,
    slashed: set<string>,
    events: seq<SlashEvent>,
    missed: map<string, int>,
    stakes: map<string, int>)

  const EMPTY: State := State(map[], map[], {}, [], map[], map[])

  const MISSED_LIMIT := 50

  // ----- transitions -----

  function VotesOf(s: State, v: string): map<int, string> {
    if v in s.votes then s.votes[v] else map[]
  }

  function ProposersAt(s: State, height: int): set<string> {
    if height in s.proposals then s.proposals[height] else {}
  }

  function Slash(s: State, v: string, reason: Reason, epoch: int): State {
    if v in s.slashed then s
    else s.(slashed := s.slashed + {v},
            events := s.events + [SlashEvent(v, reason, epoch, Penalty(reason))])
  }

  /** The new state, and whether the call returned True. */
  datatype Reply = Reply(s: State, ok: bool)

  function RecordVote(s: State, v: string, slot: int, block: string): (r: Reply) {
    if v in s.slashed then Reply(s, false)
    else
      var s1 := s.(votes := s.votes[v := VotesOf(s, v)]);
      if slot !in VotesOf(s, v) then Reply(s.(votes := s.votes[v := VotesOf(s, v)[slot := block]]), true)
      else if VotesOf(s, v)[slot] == block then Reply(s1, true)
      else Reply(Slash(s1, v, DoubleVote, slot), false)
  }

  function RecordProposal(s: State, v: string, height: int): (r: Reply) {
    if v in s.slashed then Reply(s, false)
    else if v in ProposersAt(s, height) then Reply(Slash(s, v, DoubleProposal, height / 32), false)
    else Reply(s.(proposals := s.proposals[height := ProposersAt(s, height) + {v}]), true)
  }

  function RecordMissed(s: State, v: string): State {
    if v in s.slashed then s
    else
      var n := (if v in s.missed then s.missed[v] else 0) + 1;
      var s1 := s.(missed := s.missed[v := n]);
      if n > MISSED_LIMIT then Slash(s1, v, Offline, 0) else s1
  }

  function ClearEpoch(s: State, epoch: int): State {
    s.(votes := map v | v in s.votes :: s.votes[v] - {epoch})
  }

  function Stake(s: State, v: string): int {
    if v in s.slashed then 0 else if v in s.stakes then s.stakes[v] else 0
  }

  function RegisteredStake(s: State): string -> int {
    (v: string) => if v in s.stakes then s.stakes[v] else 0
  }

  ghost function ActiveStake(s: State): int {
    Sum(s.stakes.Keys - s.slashed, RegisteredStake(s))
  }

  ghost function SlashedStake(s: State): int {
    Sum(s.slashed, RegisteredStake(s))
  }

  // ----- the object -----

  class SlashingEngine {
    var votes: map<string, map<int, string>>
    var proposals: map<int, set<string>>
    var slashed: set<string>
    var events: seq<SlashEvent>
    var missed: map<string, int>
    var stakes: map<string, int>

    ghost function Value(): State
      reads this
    {
      State(votes, proposals, slashed, events, missed, stakes)
    }

    constructor ()
      ensures Value() == EMPTY
    {
      votes, proposals, slashed, events, missed, stakes := map[], map[], {}, [], map[], map[];
    }

    method RegisterValidator(v: string, stake: int)
      modifies this`stakes
      ensures Value() == old(Value()).(stakes := old(stakes)[v := stake])
    {
      stakes := stakes[v := stake];
    }

    method SlashValidator(v: string, reason: Reason, epoch: int)
      modifies this`slashed, this`events
      ensures Value() == Slash(old(Value()), v, reason, epoch)
    {
      if v in slashed { return; }
      slashed := slashed + {v};
      events := events + [SlashEvent(v, reason, epoch, Penalty(reason))];
    }

    /** `add_vote` and `record_vote`: accepted, repeated, or slashed for a conflicting vote. */
    method AddVote(v: string, slot: int, block: string) returns (ok: bool)
      modifies this`votes, this`slashed, this`events
      ensures Reply(Value(), ok) == RecordVote(old(Value()), v, slot, block)
    {
      if v in slashed { return false; }
      if v !in votes { votes := votes[v := map[]]; }
      if slot in votes[v] {
        if votes[v][slot] != block {
          SlashValidator(v, DoubleVote, slot);
          assert votes == old(votes)[v := VotesOf(old(Value()), v)];
          return false;
        }
        assert votes == old(votes)[v := VotesOf(old(Value()), v)];
        return true;
      }
      votes := votes[v := votes[v][slot := block]];
      return true;
    }

    method AddProposal(v: string, height: int) returns (ok: bool)
      modifies this`proposals, this`slashed, this`events
      ensures Reply(Value(), ok) == RecordProposal(old(Value()), v, height)
    {
      if v in slashed { return false; }
      if height in proposals && v in proposals[height] {
        SlashValidator(v, DoubleProposal, height / 32);
        return false;
      }
      var at := if height in proposals then proposals[height] else {};
      proposals := proposals[height := at + {v}];
      return true;
    }

    method RecordMissedAttestation(v: string)
      modifies this`missed, this`slashed, this`events
      ensures Value() == RecordMissed(old(Value()), v)
    {
      if v !in slashed {
        missed := missed[v := (if v in missed then missed[v] else 0) + 1];
        if missed[v] > MISSED_LIMIT {
          SlashValidator(v, Offline, 0);
        }
      }
    }

    method ReportInvalidProposal(v: string, height: int)
      modifies this`slashed, this`events
      ensures Value() == Slash(old(Value()), v, InvalidProposal, height / 32)
    {
      SlashValidator(v, InvalidProposal, height / 32);
    }

    method Clear(epoch: int)
      modifies this`votes
      ensures Value() == ClearEpoch(old(Value()), epoch)
    {
      var keys := votes.Keys;
      while keys != {}
        invariant keys <= votes.Keys == old(votes).Keys
        invariant forall v :: v in old(votes) ==>
                    votes[v] == if v in keys then old(votes)[v] else old(votes)[v] - {epoch}
        decreases |keys|
      {
        var v :| v in keys;
        if epoch in votes[v] {
          votes := votes[v := votes[v] - {epoch}];
        }
        keys := keys - {v};
      }
      assert votes == map v | v in old(votes) :: old(votes)[v] - {epoch};
    }

    method GetStake(v: string) returns (stake: int)
      ensures stake == Stake(Value(), v)
    {
      if v in slashed { return 0; }
      return if v in stakes then stakes[v] else 0;
    }

    method GetTotalActiveStake() returns (total: int)
      ensures total == ActiveStake(Value())
    {
      total := 0;
      var left := stakes.Keys;
      ghost var f := RegisteredStake(Value());
      while left != {}
        invariant left <= stakes.Keys
        invariant total + Sum(left - slashed, f) == Sum(stakes.Keys - slashed, f)
        decreases |left|
      {
        var v :| v in left;
        SumSkipping(left, slashed, f, v);
        if v !in slashed {
          total := total + stakes[v];
        }
        left := left - {v};
      }
      assert left - slashed == {};
    }
  }

  // ----- stake accounting -----

  lemma SumSkipping(names: set<string>, excluded: set<string>, f: string -> int, v: string)
    requires v in names
    ensures Sum(names - excluded, f) == (if v in excluded then 0 else f(v)) + Sum(names - {v} - excluded, f)
  {
    if v in excluded {
      assert names - {v} - excluded == names - excluded;
    } else {
      SumRemove(names - excluded, f, v);
      assert names - {v} - excluded == names - excluded - {v};
    }
  }

  /** Slashed plus active stake is the whole registered stake, in every state. */
  lemma StakeIsPartitioned(s: State)
    ensures ActiveStake(s) + SlashedStake(s) == Sum(s.stakes.Keys, RegisteredStake(s))
  {
    var f := RegisteredStake(s);
    var known := s.stakes.Keys * s.slashed;
    assert s.stakes.Keys == (s.stakes.Keys - s.slashed) + known;
    assert s.slashed == known + (s.slashed - s.stakes.Keys);
    SumUnion(s.stakes.Keys - s.slashed, known, f);
    SumUnion(known, s.slashed - s.stakes.Keys, f);
    SumZero(s.slashed - s.stakes.Keys, f);
  }

  lemma SlashingLowersActiveStake(s: State, t: State, v: string)
    requires v !in s.slashed && t.slashed == s.slashed + {v} && t.stakes == s.stakes
    ensures ActiveStake(t) == ActiveStake(s) - Stake(s, v)
  {
    var f, g := RegisteredStake(s), RegisteredStake(t);
    SumCongruent(t.stakes.Keys - t.slashed, f, g);
    if v in s.stakes {
      SumRemove(s.stakes.Keys - s.slashed, f, v);
      assert t.stakes.Keys - t.slashed == s.stakes.Keys - s.slashed - {v};
    } else {
      assert t.stakes.Keys - t.slashed == s.stakes.Keys - s.slashed;
    }
  }

  function RepeatMissed(s: State, v: string, n: nat): State {
    if n == 0 then s else RecordMissed(RepeatMissed(s, v, n - 1), v)
  }

  /** Missing attestations is tolerated up to the limit: the validator is slashed at the next one. */
  lemma {:induction false} OfflineAfterLimit(s: State, v: string, n: nat)
    requires v !in s.slashed && v !in s.missed
    ensures var t := RepeatMissed(s, v, n);
            && (v in t.slashed <==> n > 50)
            && (n > 0 ==> v in t.missed && t.missed[v] == if n > 50 then 51 else n)
            && t.events == s.events + (if n > 50 then [SlashEvent(v, Offline, 0, 10)] else [])
            && t.slashed - {v} == s.slashed
  {
    if n > 0 { OfflineAfterLimit(s, v, n - 1); }
  }

  /** Which event each offence leaves behind: who, why, for which epoch (32 heights each) and with what penalty. */
  lemma Events(s: State, v: string, slot: int, block: string, height: int)
    requires v !in s.slashed
    ensures slot in VotesOf(s, v) && VotesOf(s, v)[slot] != block ==>
              RecordVote(s, v, slot, block).s.events == s.events + [SlashEvent(v, DoubleVote, slot, 100)]
    ensures v in ProposersAt(s, height) ==>
              RecordProposal(s, v, height).s.events == s.events + [SlashEvent(v, DoubleProposal, height / 32, 200)]
    ensures Step(s, Invalid(v, height)).s.events == s.events + [SlashEvent(v, InvalidProposal, height / 32, 50)]
  {
  }

  // ----- whole runs -----

  datatype Call =
    | Register(v: string, stake: int)
    | Vote(v: string, slot: int, block: string)
    | Proposal(v: string, height: int)
    | Missed(v: string)
    | Invalid(v: string, height: int)
    | Clear(epoch: int)

  function Step(s: State, c: Call): (r: Reply) {
    match c
    case Register(v, stake) => Reply(s.(stakes := s.stakes[v := stake]), true)
    case Vote(v, slot, block) => RecordVote(s, v, slot, block)
    case Proposal(v, height) => RecordProposal(s, v, height)
    case Missed(v) => Reply(RecordMissed(s, v), true)
    case Invalid(v, height) => Reply(Slash(s, v, InvalidProposal, height / 32), true)
    case Clear(epoch) => Reply(ClearEpoch(s, epoch), true)
  }

  function Run(calls: seq<Call>): State {
    if calls == [] then EMPTY else Step(Run(calls[..|calls| - 1]), calls[|calls| - 1]).s
  }

  /** What call `i` of the run returned. */
  predicate Accepted(calls: seq<Call>, i: nat)
    requires i < |calls|
  {
    Step(Run(calls[..i]), calls[i]).ok
  }

  lemma RunOneMore(calls: seq<Call>, i: nat)
    requires i < |calls|
    ensures Run(calls[..i + 1]) == Step(Run(calls[..i]), calls[i]).s
  {
    assert calls[..i + 1][..i] == calls[..i];
  }

  predicate Recorded(s: State, v: string, slot: int, block: string) {
    v in s.votes && slot in s.votes[v] && s.votes[v][slot] == block
  }

  lemma StepIsMonotone(s: State, c: Call)
    ensures s.slashed <= Step(s, c).s.slashed
    ensures forall v, height :: v in ProposersAt(s, height) ==> v in ProposersAt(Step(s, c).s, height)
  {
  }

  lemma StepKeepsVote(s: State, c: Call, v: string, slot: int, block: string)
    requires Recorded(s, v, slot, block) && c != Clear(slot)
    ensures Recorded(Step(s, c).s, v, slot, block)
  {
  }

  /** Slashing is permanent. */
  lemma {:induction false} SlashedForever(calls: seq<Call>, i: nat, j: nat, v: string)
    requires i <= j <= |calls| && v in Run(calls[..i]).slashed
    ensures v in Run(calls[..j]).slashed
    decreases j
  {
    if i < j {
      SlashedForever(calls, i, j - 1, v);
      RunOneMore(calls, j - 1);
      StepIsMonotone(Run(calls[..j - 1]), calls[j - 1]);
    }
  }

  /** Nothing from a slashed validator is ever accepted again. */
  lemma SlashedIsSilent(calls: seq<Call>, i: nat, j: nat, v: string)
    requires i <= j < |calls| && v in Run(calls[..i]).slashed
    requires calls[j].Vote? || calls[j].Proposal?
    requires calls[j].v == v
    ensures !Accepted(calls, j)
  {
    SlashedForever(calls, i, j, v);
  }

  lemma AcceptedVoteIsRecorded(s: State, v: string, slot: int, block: string)
    requires RecordVote(s, v, slot, block).ok
    ensures Recorded(RecordVote(s, v, slot, block).s, v, slot, block)
  {
  }

  /** A recorded vote stays recorded until `clear_epoch` is called with its slot. */
  lemma {:induction false} VoteStaysRecorded(
      calls: seq<Call>, i: nat, j: nat, v: string, slot: int, block: string)
    requires i < j <= |calls| && calls[i] == Vote(v, slot, block) && Accepted(calls, i)
    requires forall k :: i < k < j ==> calls[k] != Clear(slot)
    ensures Recorded(Run(calls[..j]), v, slot, block)
    decreases j
  {
    hide RecordVote;
    RunOneMore(calls, j - 1);
    var s := Run(calls[..j - 1]);
    if i + 1 < j {
      VoteStaysRecorded(calls, i, j - 1, v, slot, block);
      StepKeepsVote(s, calls[j - 1], v, slot, block);
    } else {
      AcceptedVoteIsRecorded(s, v, slot, block);
    }
  }

  /**
   No double vote goes unpunished: two accepted votes of one validator for different blocks
   in one slot are possible only with a `clear_epoch` of that slot in between. Otherwise the
   second vote is refused and the validator is slashed from then on.
   */
  lemma NoDoubleVote(calls: seq<Call>, i: nat, j: nat, v: string, slot: int, a: string, b: string)
    requires i < j < |calls| && a != b
    requires calls[i] == Vote(v, slot, a) && calls[j] == Vote(v, slot, b) && Accepted(calls, i)
    ensures Accepted(calls, j) ==> exists k :: i < k < j && calls[k] == Clear(slot)
    ensures (forall k :: i < k < j ==> calls[k] != Clear(slot)) ==>
              !Accepted(calls, j) && v in Run(calls[..j + 1]).slashed
  {
    if forall k :: i < k < j ==> calls[k] != Clear(slot) {
      VoteStaysRecorded(calls, i, j, v, slot, a);
      RunOneMore(calls, j);
    }
  }

  /** The exception is real: after `clear_epoch` any vote in the slot is accepted again. */
  lemma ClearReopensSlot(s: State, v: string, slot: int, block: string)
    requires v !in s.slashed
    ensures RecordVote(ClearEpoch(s, slot), v, slot, block).ok
    ensures RecordVote(s, v, slot, block).ok <==> (slot in VotesOf(s, v) ==> Recorded(s, v, slot, block))
  {
  }

  /** Exactly one event per slashed validator. */
  ghost predicate OneEventEach(slashed: set<string>, events: seq<SlashEvent>) {
    && (forall i :: 0 <= i < |events| ==> events[i].validator in slashed)
    && (forall v :: v in slashed ==> exists i :: 0 <= i < |events| && events[i].validator == v)
    && (forall i, j :: 0 <= i < j < |events| ==> events[i].validator != events[j].validator)
  }

  lemma SlashKeepsEvents(slashed: set<string>, events: seq<SlashEvent>, e: SlashEvent)
    requires OneEventEach(slashed, events) && e.validator !in slashed
    ensures OneEventEach(slashed + {e.validator}, events + [e])
  {
    var slashed', events' := slashed + {e.validator}, events + [e];
    assert events'[|events|] == e;
    forall w | w in slashed' ensures exists i :: 0 <= i < |events'| && events'[i].validator == w {
      if w != e.validator {
        var i :| 0 <= i < |events| && events[i].validator == w;
        assert events'[i].validator == w;
      }
    }
  }

  /** A call slashes nobody, or one validator who was not slashed yet. */
  lemma StepSlashesAtMostOne(s: State, c: Call)
    ensures var t := Step(s, c).s;
            (t.slashed == s.slashed && t.events == s.events) ||
            exists e: SlashEvent :: e.validator !in s.slashed && t.slashed == s.slashed + {e.validator} && t.events == s.events + [e]
  {
    var t := Step(s, c).s;
    if t.events != s.events {
      var e := t.events[|s.events|];
      assert e.validator !in s.slashed && t.slashed == s.slashed + {e.validator} && t.events == s.events + [e];
    }
  }

  /** In every reachable state there is exactly one event per slashed validator. */
  lemma {:induction false} EventsMatchSlashed(calls: seq<Call>)
    ensures OneEventEach(Run(calls).slashed, Run(calls).events)
  {
    if calls != [] {
      var n := |calls| - 1;
      EventsMatchSlashed(calls[..n]);
      var s := Run(calls[..n]);
      var t := Step(s, calls[n]).s;
      StepSlashesAtMostOne(s, calls[n]);
      if t.events != s.events {
        var e: SlashEvent :| e.validator !in s.slashed && t.slashed == s.slashed + {e.validator} && t.events == s.events + [e];
        SlashKeepsEvents(s.slashed, s.events, e);
      }
    }
  }

  /** A validator proposes at most once per height without being slashed. */
  lemma NoDoubleProposal(calls: seq<Call>, i: nat, j: nat, v: string, height: int)
    requires i < j < |calls|
    requires calls[i] == Proposal(v, height) && calls[j] == Proposal(v, height) && Accepted(calls, i)
    ensures !Accepted(calls, j) && v in Run(calls[..j + 1]).slashed
  {
    ProposalStaysRecorded(calls, i, j, v, height);
    RunOneMore(calls, j);
  }

  lemma {:induction false} ProposalStaysRecorded(calls: seq<Call>, i: nat, j: nat, v: string, height: int)
    requires i < j <= |calls| && calls[i] == Proposal(v, height) && Accepted(calls, i)
    ensures v in ProposersAt(Run(calls[..j]), height)
    decreases j
  {
    RunOneMore(calls, j - 1);
    if i + 1 < j {
      ProposalStaysRecorded(calls, i, j - 1, v, height);
      StepIsMonotone(Run(calls[..j - 1]), calls[j - 1]);
    }
  }

  // ----- who is slashed, read off the calls alone -----

  /** A vote that no `clear_epoch` of its slot has followed yet. */
  ghost predicate StandingVote(calls: seq<Call>, v: string, slot: int, block: string) {
    exists i :: 0 <= i < |calls| && calls[i] == Vote(v, slot, block) && Uncleared(calls, i, slot)
  }

  ghost predicate Uncleared(calls: seq<Call>, i: int, slot: int) {
    forall k :: i < k < |calls| && 0 <= k ==> calls[k] != Clear(slot)
  }

  ghost function MissedCalls(calls: seq<Call>, v: string): nat {
    if calls == [] then 0
    else MissedCalls(calls[..|calls| - 1], v) + if calls[|calls| - 1] == Missed(v) then 1 else 0
  }

  /**
   Call k is an offence of v: a vote against one of its standing votes, a repeated proposal, a missed
   attestation past the fiftieth, or a proposal reported as invalid.
   */
  ghost predicate Offence(calls: seq<Call>, k: nat, v: string)
    requires k < |calls|
  {
    match calls[k]
    case Vote(w, slot, block) => w == v && exists a :: a != block && StandingVote(calls[..k], v, slot, a)
    case Proposal(w, height) => w == v && calls[k] in calls[..k]
    case Missed(w) => w == v && MissedCalls(calls[..k + 1], v) > 50
    case Invalid(w, height) => w == v
    case Register(_, _) => false
    case Clear(_) => false
  }

  lemma StandingVoteStep(calls: seq<Call>, v: string, slot: int, block: string)
    requires calls != []
    ensures var last := |calls| - 1;
            StandingVote(calls, v, slot, block) <==>
              calls[last] == Vote(v, slot, block) || (StandingVote(calls[..last], v, slot, block) && calls[last] != Clear(slot))
  {
    var last := |calls| - 1;
    var before := calls[..last];
    if StandingVote(calls, v, slot, block) && calls[last] != Vote(v, slot, block) {
      var i :| 0 <= i < |calls| && calls[i] == Vote(v, slot, block) && Uncleared(calls, i, slot);
      assert before[i] == Vote(v, slot, block) && Uncleared(before, i, slot);
    }
    if StandingVote(before, v, slot, block) && calls[last] != Clear(slot) {
      var i :| 0 <= i < |before| && before[i] == Vote(v, slot, block) && Uncleared(before, i, slot);
      assert forall k :: i < k < last ==> calls[k] == before[k];
      assert calls[i] == Vote(v, slot, block) && Uncleared(calls, i, slot);
    }
    if calls[last] == Vote(v, slot, block) { assert Uncleared(calls, last, slot); }
  }

  lemma VotesAfterVote(s: State, w: string, k: int, b: string, v: string)
    requires v !in RecordVote(s, w, k, b).s.slashed
    ensures var t := RecordVote(s, w, k, b).s;
            && v !in s.slashed && t.proposals == s.proposals && t.missed == s.missed
            && VotesOf(t, v) == if w == v then VotesOf(s, v)[k := b] else VotesOf(s, v)
  {
  }

  lemma VoteRemembers(s: State, w: string, k: int, b: string, v: string, slot: int, block: string)
    requires v !in RecordVote(s, w, k, b).s.slashed
    ensures v !in s.slashed
    ensures Recorded(RecordVote(s, w, k, b).s, v, slot, block) <==>
              (w == v && k == slot && b == block) || Recorded(s, v, slot, block)
    ensures RecordVote(s, w, k, b).s.proposals == s.proposals && RecordVote(s, w, k, b).s.missed == s.missed
  {
    VotesAfterVote(s, w, k, b, v);
    hide RecordVote;
  }

  lemma ProposalRemembers(s: State, w: string, h: int, v: string, height: int)
    requires v !in RecordProposal(s, w, h).s.slashed
    ensures v !in s.slashed
    ensures v in ProposersAt(RecordProposal(s, w, h).s, height) <==> (w == v && h == height) || v in ProposersAt(s, height)
    ensures RecordProposal(s, w, h).s.votes == s.votes && RecordProposal(s, w, h).s.missed == s.missed
  {
  }

  lemma MissedRemembers(s: State, w: string, v: string)
    requires v !in RecordMissed(s, w).slashed
    ensures v !in s.slashed
    ensures var t := RecordMissed(s, w);
            && t.votes == s.votes && t.proposals == s.proposals
            && (if v in t.missed then t.missed[v] else 0) == (if v in s.missed then s.missed[v] else 0) + (if w == v then 1 else 0)
  {
  }

  /** A call that leaves v unpunished adds what it says to the records of v; only a clear takes anything away. */
  lemma StepRemembers(s: State, c: Call, v: string, slot: int, block: string, height: int)
    requires v !in Step(s, c).s.slashed
    ensures v !in s.slashed
    ensures var t := Step(s, c).s;
            && (Recorded(t, v, slot, block) <==> c == Vote(v, slot, block) || (Recorded(s, v, slot, block) && c != Clear(slot)))
            && (v in ProposersAt(t, height) <==> c == Proposal(v, height) || v in ProposersAt(s, height))
            && (if v in t.missed then t.missed[v] else 0) == (if v in s.missed then s.missed[v] else 0) + (if c == Missed(v) then 1 else 0)
  {
    hide RecordVote, RecordProposal, RecordMissed;
    match c
    case Vote(w, k, b) => VoteRemembers(s, w, k, b, v, slot, block);
    case Proposal(w, h) => ProposalRemembers(s, w, h, v, height);
    case Missed(w) => MissedRemembers(s, w, v);
    case _ =>
  }

  /** As long as v is not slashed, the engine's records of it are exactly its standing votes, its proposals and its misses. */
  lemma {:induction false} RecordsAreCalls(calls: seq<Call>, v: string, slot: int, block: string, height: int)
    requires v !in Run(calls).slashed
    ensures var s := Run(calls);
            && (Recorded(s, v, slot, block) <==> StandingVote(calls, v, slot, block))
            && (v in ProposersAt(s, height) <==> Proposal(v, height) in calls)
            && (if v in s.missed then s.missed[v] else 0) == MissedCalls(calls, v)
  {
    if calls != [] {
      var last := |calls| - 1;
      StepRemembers(Run(calls[..last]), calls[last], v, slot, block, height);
      RecordsAreCalls(calls[..last], v, slot, block, height);
      StandingVoteStep(calls, v, slot, block);
      assert calls == calls[..last] + [calls[last]];
    }
  }

  /** Of a validator who is not slashed yet, the next call is punished exactly if it is an offence. */
  lemma OffenceIsPunished(calls: seq<Call>, k: nat, v: string)
    requires k < |calls| && v !in Run(calls[..k]).slashed
    ensures v in Run(calls[..k + 1]).slashed <==> Offence(calls, k, v)
    ensures (calls[k].Vote? || calls[k].Proposal?) && calls[k].v == v ==> (Accepted(calls, k) <==> !Offence(calls, k, v))
  {
    hide StandingVote, Run;
    RunOneMore(calls, k);
    var before, c := calls[..k], calls[k];
    var s := Run(before);
    var height := if c.Proposal? then c.height else 0;
    if c.Vote? && c.v == v {
      forall a ensures Recorded(s, v, c.slot, a) <==> StandingVote(before, v, c.slot, a) {
        RecordsAreCalls(before, v, c.slot, a, 0);
      }
      if c.slot in VotesOf(s, v) { assert Recorded(s, v, c.slot, VotesOf(s, v)[c.slot]); }
    } else {
      RecordsAreCalls(before, v, 0, "", height);
      assert calls[..k + 1][..k] == before;
    }
  }

  /** Exactly the offenders are slashed: an honest validator never is, and no offence goes unpunished. */
  lemma {:induction false} SlashedIff(calls: seq<Call>, n: nat, v: string)
    requires n <= |calls|
    ensures v in Run(calls[..n]).slashed <==> exists k :: 0 <= k < n && Offence(calls, k, v)
  {
    hide Offence;
    if n > 0 {
      SlashedIff(calls, n - 1, v);
      if v in Run(calls[..n - 1]).slashed { SlashedForever(calls, n - 1, n, v); } else { OffenceIsPunished(calls, n - 1, v); }
    }
  }

  /** A vote or proposal is accepted exactly if its sender has committed no offence up to and including it. */
  lemma AcceptedIff(calls: seq<Call>, k: nat)
    requires k < |calls| && (calls[k].Vote? || calls[k].Proposal?)
    ensures Accepted(calls, k) <==> forall i :: 0 <= i <= k ==> !Offence(calls, i, calls[k].v)
  {
    hide Offence;
    SlashedIff(calls, k, calls[k].v);
    if calls[k].v !in Run(calls[..k]).slashed { OffenceIsPunished(calls, k, calls[k].v); }
  }
}
