/**
 The static scan of execution/evm_bytecode_validator.py and its soundness for every
 dynamic run of the interpreter.
 */
module EvmValidator {
  import opened EvmWords
  import opened EvmMachine
  import opened EvmBounds

  predicate IsSupported(op: Byte) {
    || IsPush(op) || IsDup(op) || IsSwap(op)
    || op == 0x00 || op == 0x01 || op == 0x02 || op == 0x03 || op == 0x04 || op == 0x06 || op == 0x10
    || op == 0x11 || op == 0x12 || op == 0x14 || op == 0x15 || op == 0x16 || op == 0x17 || op == 0x19
    || op == 0x1A || op == 0x1B || op == 0x1C || op == 0x20 || op == 0x30 || op == 0x31 || op == 0x32
    || op == 0x33 || op == 0x34 || op == 0x35 || op == 0x36 || op == 0x37 || op == 0x38 || op == 0x39
    || op == 0x3B || op == 0x3C || op == 0x3D || op == 0x3E || op == 0x40 || op == 0xA0 || op == 0xA1
    || op == 0xA2 || op == 0xA3 || op == 0xA4 || op == 0x50 || op == 0x51 || op == 0x52 || op == 0x53
    || op == 0x54 || op == 0x55 || op == 0x56 || op == 0x57 || op == 0x5A || op == 0x5B || op == 0x5F
    || op == 0xF0 || op == 0xF1 || op == 0xF2 || op == 0xF3 || op == 0xF4 || op == 0xF5 || op == 0xFA
    || op == 0xFD || op == 0xFE || op == 0xFF
  }

  /**
   The validator claims to match the interpreter. It does so in the safe direction only:
   the interpreter also implements TIMESTAMP, NUMBER, GASLIMIT and CHAINID, which the
   validator rejects.
   */
  lemma SupportedVersusImplemented(op: Byte)
    ensures Implemented(op) <==> IsSupported(op) || (op == 0x42 || op == 0x43 || op == 0x45 || op == 0x46)
    ensures IsSupported(op) ==> op !in {0x42, 0x43, 0x45, 0x46}
  {
  }

  // ----- the scan -----

  datatype Issue = Issue(pc: nat, opcode: Byte)

  function Width(op: Byte): (w: nat)
    ensures w >= 1
  {
    if IsPush(op) then 1 + (op - 0x5F) else 1
  }

  /** `pc` is where an instruction starts when the code is read linearly from `start`. */
  predicate BoundaryFrom(code: seq<Byte>, start: nat, pc: nat)
    decreases if start <= pc then pc - start else 0
  {
    start == pc || (start < |code| && start < pc && BoundaryFrom(code, start + Width(code[start]), pc))
  }

  predicate Boundary(code: seq<Byte>, pc: nat) {
    BoundaryFrom(code, 0, pc)
  }

  function IssuesFrom(code: seq<Byte>, pc: nat): (issues: seq<Issue>)
    decreases |code| - pc
  {
    if pc >= |code| then []
    else (if IsSupported(code[pc]) then [] else [Issue(pc, code[pc])])
         + IssuesFrom(code, pc + Width(code[pc]))
  }

  /** The scan loop: linear in the code, PUSH immediates are skipped. */
  method ScanBytecode(code: seq<Byte>) returns (valid: bool, issues: seq<Issue>)
    ensures issues == IssuesFrom(code, 0)
    ensures valid <==> forall pc :: 0 <= pc < |code| && Boundary(code, pc) ==> IsSupported(code[pc])
  {
    hide IsSupported, Boundary;
    issues := [];
    var pc := 0;
    while pc < |code|
      invariant issues + IssuesFrom(code, pc) == IssuesFrom(code, 0)
    {
      var op := code[pc];
      if !IsSupported(op) {
        issues := issues + [Issue(pc, op)];
      }
      if IsPush(op) {
        var pushSize := op - 0x5F;
        pc := pc + 1 + pushSize;
      } else {
        pc := pc + 1;
      }
    }
    valid := |issues| == 0;
    NoIssuesMeaning(code);
  }

  ghost predicate Accepted(code: seq<Byte>) {
    IssuesFrom(code, 0) == []
  }

  /** The issue list is exactly the unsupported opcodes at instruction starts, in code order. */
  lemma {:induction false} IssuesMeaning(code: seq<Byte>, start: nat)
    ensures forall x: Issue :: x in IssuesFrom(code, start) <==>
              x.pc < |code| && BoundaryFrom(code, start, x.pc) && x.opcode == code[x.pc] && !IsSupported(x.opcode)
    ensures forall i, j :: 0 <= i < j < |IssuesFrom(code, start)| ==>
              IssuesFrom(code, start)[i].pc < IssuesFrom(code, start)[j].pc
    ensures forall pc: nat :: pc < |code| && BoundaryFrom(code, start, pc) && !IsSupported(code[pc]) ==>
              Issue(pc, code[pc]) in IssuesFrom(code, start)
    decreases |code| - start
  {
    if start < |code| {
      var next := start + Width(code[start]);
      IssuesMeaning(code, next);
      var rest := IssuesFrom(code, next);
      forall i | 0 <= i < |rest| ensures rest[i].pc > start {
        assert rest[i] in rest;
        BoundaryIsLater(code, next, rest[i].pc);
      }
    }
  }

  lemma NoIssuesMeaning(code: seq<Byte>)
    ensures IssuesFrom(code, 0) == [] <==>
              forall pc :: 0 <= pc < |code| && Boundary(code, pc) ==> IsSupported(code[pc])
  {
    hide IsSupported;
    IssuesMeaning(code, 0);
    if IssuesFrom(code, 0) != [] {
      var first := IssuesFrom(code, 0)[0];
      assert first in IssuesFrom(code, 0);
      assert Boundary(code, first.pc);
    }
  }

  lemma BoundaryIsLater(code: seq<Byte>, start: nat, pc: nat)
    requires BoundaryFrom(code, start, pc)
    ensures start <= pc
  {
  }

  // ----- dynamic runs stay on the scan's boundaries -----

  lemma {:induction false} BoundaryAdvances(code: seq<Byte>, start: nat, pc: nat)
    requires BoundaryFrom(code, start, pc) && pc < |code|
    ensures BoundaryFrom(code, start, pc + Width(code[pc]))
    decreases if start <= pc then pc - start else 0
  {
    if start == pc {
      assert BoundaryFrom(code, pc + Width(code[pc]), pc + Width(code[pc]));
    } else {
      BoundaryAdvances(code, start + Width(code[start]), pc);
    }
  }

  /**
   No byte that a jump could take for a JUMPDEST is hidden inside a PUSH immediate
   (`_is_jumpdest` looks at the byte only).
   */
  predicate NoHiddenJumpdest(code: seq<Byte>) {
    forall d :: 0 <= d < |code| && code[d] == 0x5B ==> Boundary(code, d)
  }

  lemma ExecMovesByWidthOrJumps(ctx: Context, limit: int, code: seq<Byte>, s: Machine, op: Byte)
    requires s.running && s.pc < |code| && code[s.pc] == op
    ensures var r := Exec(ctx, limit, code, s, op);
            r.Next? ==> r.st.pc == s.pc + Width(op) ||
                        (IsJump(op) && IsJumpdest(code, r.st.pc))
    ensures Exec(ctx, limit, code, s, op).Raise? && Exec(ctx, limit, code, s, op).fault.Unsupported?
            ==> !Implemented(op)
  {
    hide ExecWord, ExecCopy, ExecExtCodeCopy, ExecLog, ExecStore, ExecDupSwap, ExecCreate, ExecCall;
    if IsCall(op) {
      CallKeepsPc(ctx, limit, s, op);
    } else if IsCreate(op) {
      CreateKeepsPc(ctx, limit, s, op);
    } else if IsWordOp(op) {
      WordMovesByWidth(ctx, limit, code, s, op);
    } else if IsCopy(op) || op == 0x3C || IsLog(op) || IsStore(op) || IsDup(op) || IsSwap(op) {
      PlainMovesByOne(ctx, limit, code, s, op);
    }
  }

  lemma PlainMovesByOne(ctx: Context, limit: int, code: seq<Byte>, s: Machine, op: Byte)
    requires !IsWordOp(op)
    requires IsCopy(op) || op == 0x3C || IsLog(op) || IsStore(op) || IsDup(op) || IsSwap(op)
    ensures var r := Exec(ctx, limit, code, s, op);
            (r.Next? && r.st.pc == s.pc + 1) || (r.Raise? && !r.fault.Unsupported?)
  {
    hide Extend, Slice, Mask, WriteWord, ExecWord, ExecJump, ExecCreate, ExecCall, ExecStop;
  }

  lemma WordMovesByWidth(ctx: Context, limit: int, code: seq<Byte>, s: Machine, op: Byte)
    requires IsWordOp(op)
    ensures var r := ExecWord(ctx, limit, code, s, op);
            (r.Next? && r.st.pc == s.pc + Width(op)) || r == Raise(StackUnderflow)
  {
    hide Mask, Extend, Slice, Alu1, Alu2, Answer, ReadEnvironment, PushedImmediate;
  }

  lemma CallKeepsPc(ctx: Context, limit: int, s: Machine, op: Byte)
    requires IsCall(op)
    ensures var r := ExecCall(ctx, limit, s, op);
            (r.Next? && r.st.pc == s.pc + 1) || (r.Raise? && !r.fault.Unsupported?)
  {
    hide Mask, Extend, Slice, Splice, CallGas;
  }

  lemma CreateKeepsPc(ctx: Context, limit: int, s: Machine, op: Byte)
    requires IsCreate(op)
    ensures var r := ExecCreate(ctx, limit, s, op);
            (r.Next? && r.st.pc == s.pc + 1) || (r.Raise? && !r.fault.Unsupported?)
  {
    hide Mask, Extend, Slice;
  }

  lemma StepStaysOnBoundaries(ctx: Context, limit: int, code: seq<Byte>, st: Machine)
    requires st.running && st.pc < |code| && Boundary(code, st.pc)
    requires !IsJump(code[st.pc]) || NoHiddenJumpdest(code)
    ensures var r := Step(ctx, limit, code, st);
            && (r.Next? ==> Boundary(code, r.st.pc))
            && (r.Raise? && r.fault.Unsupported? ==> !Implemented(code[st.pc]))
  {
    hide Exec;
    var op := code[st.pc];
    BoundaryAdvances(code, 0, st.pc);
    var fetched := Fetch(limit, st, op);
    if fetched.Next? {
      ExecMovesByWidthOrJumps(ctx, limit, code, fetched.st, op);
    }
  }

  lemma AcceptedIsImplemented(code: seq<Byte>, pc: nat)
    requires Accepted(code) && pc < |code| && Boundary(code, pc)
    ensures Implemented(code[pc])
  {
    IssuesMeaning(code, 0);
    SupportedVersusImplemented(code[pc]);
  }

  /**
   Soundness of the scan. If the scan accepts the code and no PUSH immediate hides a 0x5B
   byte, then after any number of turns of any run, in any environment and with any gas
   limit, the program counter is an instruction start of the scan, and the run never ends
   in the "unsupported opcode" branch.
   */
  lemma {:induction false} ScanIsSound(ctx: Context, limit: int, code: seq<Byte>, memory: seq<Byte>,
                                       storage: map<int, int>, n: nat)
    requires Accepted(code) && NoHiddenJumpdest(code)
    ensures var r := After(ctx, limit, code, Initial(memory, storage), n);
            && (r.Next? ==> r.st.running && Boundary(code, r.st.pc))
            && !(r.Raise? && r.fault.Unsupported?)
  {
    hide Step;
    if n > 0 {
      ScanIsSound(ctx, limit, code, memory, storage, n - 1);
      var r := After(ctx, limit, code, Initial(memory, storage), n - 1);
      if r.Next? && r.st.pc < |code| {
        StepIsBounded(ctx, limit, code, r.st);
        StepStaysOnBoundaries(ctx, limit, code, r.st);
        AcceptedIsImplemented(code, r.st.pc);
      }
    }
  }

  ghost predicate OnBoundaries(code: seq<Byte>, trace: seq<TraceEntry>) {
    forall i :: 0 <= i < |trace| ==> Boundary(code, trace[i].pc)
  }

  lemma AcceptedStep(ctx: Context, limit: int, code: seq<Byte>, st: Machine, r: Outcome)
    requires Accepted(code) && NoHiddenJumpdest(code)
    requires st.running && st.pc < |code| && Boundary(code, st.pc) && OnBoundaries(code, st.trace)
    requires r == Step(ctx, limit, code, st)
    ensures r.Raise? ==> !r.fault.Unsupported?
    ensures !r.Raise? ==> OnBoundaries(code, r.st.trace)
    ensures r.Next? ==> r.st.running && Boundary(code, r.st.pc) && st.gasUsed < r.st.gasUsed <= limit
  {
    hide Step;
    StepIsBounded(ctx, limit, code, st);
    StepStaysOnBoundaries(ctx, limit, code, st);
    AcceptedIsImplemented(code, st.pc);
    if !r.Raise? {
      assert r.st.trace == st.trace + [r.st.trace[|st.trace|]];
    }
  }

  /**
   The same for completed executions: accepted code never raises "unsupported opcode",
   and every pc in the returned trace is an instruction start.
   */
  lemma {:induction false} AcceptedCodeIsNeverUnsupported(
      ctx: Context, limit: int, code: seq<Byte>, st: Machine)
    requires Accepted(code) && NoHiddenJumpdest(code)
    requires st.running && Boundary(code, st.pc) && OnBoundaries(code, st.trace)
    ensures var r := Run(ctx, limit, code, st);
            && (r.Raise? ==> !r.fault.Unsupported?)
            && (!r.Raise? ==> OnBoundaries(code, r.st.trace))
    decreases limit - st.gasUsed
  {
    hide Step;
    if st.pc < |code| {
      var r := Step(ctx, limit, code, st);
      AcceptedStep(ctx, limit, code, st, r);
      if r.Next? {
        AcceptedCodeIsNeverUnsupported(ctx, limit, code, r.st);
      }
    }
  }

  /** Every step from an instruction start leads to an instruction start. */
  ghost predicate BoundaryClosed(ctx: Context, code: seq<Byte>) {
    forall limit: int, st: Machine ::
      st.running && st.pc < |code| && Boundary(code, st.pc) && Step(ctx, limit, code, st).Next? ==>
        Boundary(code, Step(ctx, limit, code, st).st.pc)
  }

  ghost predicate HasJump(code: seq<Byte>) {
    exists pc: nat :: pc < |code| && Boundary(code, pc) && IsJump(code[pc])
  }

  /**
   The side condition is exact: instruction starts are closed under execution if and only if
   the code has no jump at all or hides no 0x5B byte in an immediate.
   */
  lemma BoundaryClosedIff(ctx: Context, code: seq<Byte>)
    ensures BoundaryClosed(ctx, code) <==> (!HasJump(code) || NoHiddenJumpdest(code))
  {
    hide Step;
    if !HasJump(code) || NoHiddenJumpdest(code) {
      forall limit: int, st: Machine |
        st.running && st.pc < |code| && Boundary(code, st.pc) && Step(ctx, limit, code, st).Next?
        ensures Boundary(code, Step(ctx, limit, code, st).st.pc)
      {
        StepStaysOnBoundaries(ctx, limit, code, st);
      }
    } else {
      var pc: nat :| pc < |code| && Boundary(code, pc) && IsJump(code[pc]);
      var d :| 0 <= d < |code| && code[d] == 0x5B && !Boundary(code, d);
      var st := Initial([], map[]).(pc := pc, stack := [1, d]);
      JumpLands(ctx, code, st, d);
      assert Step(ctx, 10, code, st).Next? && Step(ctx, 10, code, st).st.pc == d;
    }
  }

  // ----- all readings of the code -----

  /** Where execution can be: on the linear reading from 0 or, once there is a jump, on that from any 0x5B byte. */
  ghost predicate OnReading(code: seq<Byte>, pc: nat) {
    || Boundary(code, pc)
    || (HasJump(code) && exists d: nat :: d < |code| && code[d] == 0x5B && BoundaryFrom(code, d, pc))
  }

  ghost predicate ReadingsImplemented(code: seq<Byte>) {
    forall pc: nat :: pc < |code| && OnReading(code, pc) ==> Implemented(code[pc])
  }

  lemma StepStaysOnReadings(ctx: Context, limit: int, code: seq<Byte>, st: Machine)
    requires st.running && st.pc < |code| && OnReading(code, st.pc)
    ensures var r := Step(ctx, limit, code, st);
            && (r.Next? ==> OnReading(code, r.st.pc))
            && (r.Raise? && r.fault.Unsupported? ==> !Implemented(code[st.pc]))
  {
    hide Exec;
    var op := code[st.pc];
    var next := st.pc + Width(op);
    assert OnReading(code, next) by {
      if Boundary(code, st.pc) {
        BoundaryAdvances(code, 0, st.pc);
      } else {
        var d: nat :| d < |code| && code[d] == 0x5B && BoundaryFrom(code, d, st.pc);
        BoundaryAdvances(code, d, st.pc);
      }
    }
    var fetched := Fetch(limit, st, op);
    if fetched.Next? {
      ExecMovesByWidthOrJumps(ctx, limit, code, fetched.st, op);
      var r := Exec(ctx, limit, code, fetched.st, op);
      if r.Next? && r.st.pc != next {
        var d := r.st.pc;
        assert BoundaryFrom(code, d, d);
      }
    }
  }

  lemma {:induction false} RunStaysOnReadings(ctx: Context, limit: int, code: seq<Byte>, st: Machine, n: nat)
    requires ReadingsImplemented(code) && st.running && OnReading(code, st.pc)
    ensures var r := After(ctx, limit, code, st, n);
            && (r.Next? ==> r.st.running && OnReading(code, r.st.pc))
            && !(r.Raise? && r.fault.Unsupported?)
  {
    hide Step, OnReading, Implemented;
    if n > 0 {
      RunStaysOnReadings(ctx, limit, code, st, n - 1);
      var r := After(ctx, limit, code, st, n - 1);
      if r.Next? && r.st.pc < |code| {
        StepIsBounded(ctx, limit, code, r.st);
        StepStaysOnReadings(ctx, limit, code, r.st);
      }
    }
  }

  lemma UnimplementedRaises(ctx: Context, code: seq<Byte>, st: Machine)
    requires st.pc < |code| && !Implemented(code[st.pc]) && st.gasUsed == 0
    ensures Step(ctx, 3, code, st) == Raise(Unsupported(code[st.pc]))
  {
    var op := code[st.pc];
    assert GasCost(op) == 3 && !IsLog(op);
  }

  /** Some run from a state at `pc` raises "unsupported opcode". */
  ghost predicate CanRaiseUnsupported(ctx: Context, code: seq<Byte>, pc: nat) {
    exists limit: int, st: Machine, n: nat ::
      st.running && st.pc == pc && After(ctx, limit, code, st, n).Raise? && After(ctx, limit, code, st, n).fault.Unsupported?
  }

  /**
   Exactly when "unsupported opcode" is out of reach: no run from any state on a reading of the
   code raises it if and only if every opcode on those readings is implemented. No condition on
   hidden 0x5B bytes is needed; instruction starts are among the readings.
   */
  lemma NeverUnsupportedIff(ctx: Context, code: seq<Byte>)
    ensures (forall pc: nat :: OnReading(code, pc) ==> !CanRaiseUnsupported(ctx, code, pc)) <==> ReadingsImplemented(code)
  {
    hide OnReading, Step, Implemented;
    if ReadingsImplemented(code) {
      forall pc: nat | OnReading(code, pc) ensures !CanRaiseUnsupported(ctx, code, pc) {
        forall limit: int, st: Machine, n: nat | st.running && st.pc == pc
          ensures !(After(ctx, limit, code, st, n).Raise? && After(ctx, limit, code, st, n).fault.Unsupported?)
        {
          RunStaysOnReadings(ctx, limit, code, st, n);
        }
      }
    } else {
      var pc: nat :| pc < |code| && OnReading(code, pc) && !Implemented(code[pc]);
      var st := Initial([], map[]).(pc := pc);
      UnimplementedRaises(ctx, code, st);
      assert After(ctx, 3, code, st, 0) == Next(st);
      assert After(ctx, 3, code, st, 1) == Raise(Unsupported(code[pc]));
      assert CanRaiseUnsupported(ctx, code, pc);
    }
  }

  lemma JumpLands(ctx: Context, code: seq<Byte>, st: Machine, d: int)
    requires st.pc < |code| && IsJump(code[st.pc]) && st.gasUsed == 0
    requires 0 <= d < |code| && code[d] == 0x5B && st.stack == [1, d]
    ensures Step(ctx, 10, code, st).Next? && Step(ctx, 10, code, st).st.pc == d
  {
    hide ExecWord, ExecCopy, ExecExtCodeCopy, ExecLog, ExecStore, ExecDupSwap, ExecCreate, ExecCall, ExecStop;
    var op := code[st.pc];
    var s := Fetch(10, st, op).st;
    assert GasCost(op) <= 10;
    assert Exec(ctx, 10, code, s, op) == ExecJump(code, s, op);
    assert Top(s, 0) == d && Top(s, 1) == 1;
  }

  /**
   Without the side condition the scan is not sound: this code is accepted, yet its run
   jumps to the 0x5B inside the PUSH2 immediate and then meets the unsupported byte 0x0C.
   */
  lemma HiddenJumpdestDefeatsScan(ctx: Context)
    ensures var code: seq<Byte> := [0x60, 0x04, 0x56, 0x61, 0x5B, 0x0C];
            && Accepted(code) && !NoHiddenJumpdest(code)
            && After(ctx, 100, code, Initial([], map[]), 4) == Raise(Unsupported(0x0C))
  {
    var code: seq<Byte> := [0x60, 0x04, 0x56, 0x61, 0x5B, 0x0C];
    HiddenJumpdestIsAccepted();
    var s0 := Initial([], map[]);
    PushFour(ctx, code, s0);
    AfterOneMore(ctx, 100, code, s0, 0, s0);
    var s1 := Step(ctx, 100, code, s0).st;
    JumpIntoImmediate(ctx, code, s1);
    AfterOneMore(ctx, 100, code, s0, 1, s1);
    var s2 := Step(ctx, 100, code, s1).st;
    LandOnImmediate(ctx, code, s2);
    AfterOneMore(ctx, 100, code, s0, 2, s2);
    AfterOneMore(ctx, 100, code, s0, 3, Step(ctx, 100, code, s2).st);
  }

  lemma AfterOneMore(ctx: Context, limit: int, code: seq<Byte>, st: Machine, n: nat, s: Machine)
    requires After(ctx, limit, code, st, n) == Next(s) && s.pc < |code|
    ensures After(ctx, limit, code, st, n + 1) == Step(ctx, limit, code, s)
  {
  }

  lemma HiddenJumpdestIsAccepted()
    ensures var code: seq<Byte> := [0x60, 0x04, 0x56, 0x61, 0x5B, 0x0C];
            Accepted(code) && !NoHiddenJumpdest(code)
  {
    var code: seq<Byte> := [0x60, 0x04, 0x56, 0x61, 0x5B, 0x0C];
    assert IssuesFrom(code, 6) == [];
    assert IssuesFrom(code, 3) == [];
    assert IssuesFrom(code, 2) == [];
    assert !BoundaryFrom(code, 6, 4) && !BoundaryFrom(code, 3, 4) && !BoundaryFrom(code, 2, 4);
    assert code[4] == 0x5B && !Boundary(code, 4);
  }

  lemma StepOfPush1(ctx: Context, limit: int, code: seq<Byte>, st: Machine)
    requires st.pc < |code| && code[st.pc] == 0x60 && st.gasUsed + 3 <= limit
    ensures var s := st.(gasUsed := st.gasUsed + 3, trace := st.trace + [TraceEntry(st.pc, 0x60, |st.stack|)]);
            Step(ctx, limit, code, st) == ExecPush(code, s, 0x60)
  {
    hide ExecPush;
    assert GasCost(0x60) == 3;
    assert IsWordOp(0x60) && IsPush(0x60);
  }

  lemma PushFour(ctx: Context, code: seq<Byte>, st: Machine)
    requires |code| == 6 && code[0] == 0x60 && code[1] == 4
    requires st.pc == 0 && st.stack == [] && st.gasUsed == 0
    ensures var r := Step(ctx, 100, code, st);
            r.Next? && r.st.pc == 2 && r.st.stack == [4] && r.st.gasUsed == 3
  {
    hide Step;
    StepOfPush1(ctx, 100, code, st);
    assert Slice(code, 1, 1) == [4];
    assert FromBytes([4]) == 4 by { assert [4][..0] == []; assert FromBytes([]) == 0; }
    assert PushedImmediate(code, 0, 0x60) == 4;
  }

  lemma JumpIntoImmediate(ctx: Context, code: seq<Byte>, st: Machine)
    requires |code| == 6 && code[2] == 0x56 && code[4] == 0x5B
    requires st.pc == 2 && st.stack == [4] && st.gasUsed == 3
    ensures var r := Step(ctx, 100, code, st);
            r.Next? && r.st.pc == 4 && r.st.gasUsed == 11
  {
    var s := Fetch(100, st, 0x56).st;
    assert Exec(ctx, 100, code, s, 0x56) == ExecJump(code, s, 0x56);
    assert Top(s, 0) == 4;
  }

  lemma LandOnImmediate(ctx: Context, code: seq<Byte>, st: Machine)
    requires |code| == 6 && code[4] == 0x5B && code[5] == 0x0C
    requires st.pc == 4 && st.gasUsed == 11
    ensures var r := Step(ctx, 100, code, st);
            r.Next? && r.st.pc == 5 && Step(ctx, 100, code, r.st) == Raise(Unsupported(0x0C))
  {
    var s := Fetch(100, st, 0x5B).st;
    assert Exec(ctx, 100, code, s, 0x5B) == ExecWord(ctx, 100, code, s, 0x5B);
  }
}
