/**
 Gas bounds everything: each turn of the loop that goes on costs at least one unit, so the
 interpreter terminates, and trace length, stack depth and charged gas are bounded by the
 gas accounted for, in every reachable state of every run.
 */
module EvmBounds {
  import opened EvmWords
  import opened EvmMachine

  // ----- gas of one step -----

  ghost predicate AllWords(stack: seq<Word>) {
    forall i :: 0 <= i < |stack| ==> stack[i] < WORD
  }

  /** What a branch of the loop may do to the counters after the opcode's price was paid. */
  ghost predicate Frugal(limit: int, s: Machine, op: Byte, r: Outcome) {
    r.Raise? ||
    (&& r.st.trace == s.trace
     && (s.gasUsed <= limit ==> r.st.gasUsed <= limit)
     && s.gasUsed <= r.st.gasUsed
     && (IsLog(op) ==> s.gasUsed + 375 <= r.st.gasUsed <= limit)
     && |r.st.stack| <= |s.stack| + (if IsPush(op) || IsReader(op) || IsDup(op) then 1 else 0)
     && (r.Halt? <==> IsStop(op))
     && (AllWords(s.stack) ==> AllWords(r.st.stack))
     && r.st.running == r.Next?)
  }

  lemma CreateIsFrugal(ctx: Context, limit: int, s: Machine, op: Byte)
    requires s.running && IsCreate(op)
    ensures Frugal(limit, s, op, ExecCreate(ctx, limit, s, op))
  {
    hide Mask, Extend, Slice;
  }

  /** Settling a call on a machine that only dropped operands keeps the counters frugal. */
  lemma FinishCallIsFrugal(limit: int, s: Machine, st: Machine, op: Byte, mode: CallMode, callGas: nat,
                           retOffset: nat, retSize: nat, reply: CallReply)
    requires IsCall(op) && st.running && st.trace == s.trace && st.gasUsed == s.gasUsed
    requires st.stack < s.stack
    ensures Frugal(limit, s, op, FinishCall(limit, st, mode, callGas, retOffset, retSize, reply))
  {
    hide Mask, Extend, Slice, Splice;
  }

  lemma CallIsFrugal(ctx: Context, limit: int, s: Machine, op: Byte)
    requires s.running && IsCall(op)
    ensures Frugal(limit, s, op, ExecCall(ctx, limit, s, op))
  {
    hide Mask, Extend, Slice, CallGas, FinishCall;
    var mode := ModeOf(op);
    var v := if mode == Plain || mode == Code then 1 else 0;
    if |s.stack| >= 6 + v && ctx.contractCall.Some? {
      var value := if v == 1 then Top(s, 2) else 0;
      var memory := Extend(s.memory, Top(s, 2 + v), Top(s, 3 + v));
      var callGas := CallGas(limit, s.gasUsed, Top(s, 0), value, mode);
      var request := CallRequest(Top(s, 1) % ADDRESS_SPACE, Slice(memory, Top(s, 2 + v), Top(s, 3 + v)),
                                 value, callGas, mode);
      FinishCallIsFrugal(limit, s, Popped(s, 6 + v).(memory := memory), op, mode, callGas, Top(s, 4 + v), Top(s, 5 + v),
                         ctx.contractCall.value(|s.trace|, request));
    }
  }

  lemma AluIsFrugal(limit: int, s: Machine, op: Byte)
    requires s.running && (IsBinary(op) || IsUnary(op))
    ensures Frugal(limit, s, op, ExecAlu(s, op))
  {
    hide Mask, Alu1, Alu2;
  }

  lemma QueryIsFrugal(ctx: Context, limit: int, s: Machine, op: Byte)
    requires s.running
    ensures IsQuery(op) ==> Frugal(limit, s, op, ExecQuery(ctx, s, op))
    ensures op == 0x20 ==> Frugal(limit, s, op, ExecSha3(ctx, s))
  {
    hide Mask, Extend, Slice, Answer;
  }

  lemma WordsAreFrugal(ctx: Context, limit: int, code: seq<Byte>, s: Machine, op: Byte)
    requires s.running && IsWordOp(op)
    ensures Frugal(limit, s, op, ExecWord(ctx, limit, code, s, op))
  {
    hide Mask, ExecAlu, ExecQuery, ExecSha3, ReadEnvironment, PushedImmediate;
    if IsBinary(op) || IsUnary(op) {
      AluIsFrugal(limit, s, op);
    } else if IsQuery(op) || op == 0x20 {
      QueryIsFrugal(ctx, limit, s, op);
    }
  }

  lemma DupSwapIsFrugal(limit: int, s: Machine, op: Byte)
    requires s.running && (IsDup(op) || IsSwap(op))
    ensures Frugal(limit, s, op, ExecDupSwap(s, op))
  {
    hide Mask;
  }

  lemma StackBranchesAreFrugal(limit: int, s: Machine, op: Byte)
    requires s.running
    ensures IsStore(op) ==> Frugal(limit, s, op, ExecStore(s, op))
    ensures IsStop(op) ==> Frugal(limit, s, op, ExecStop(s, op))
  {
    hide Extend, Slice, WriteWord;
  }

  lemma LogIsFrugal(limit: int, s: Machine, op: Byte)
    requires s.running && IsLog(op)
    ensures Frugal(limit, s, op, ExecLog(limit, s, op))
  {
    hide Extend, Slice;
  }

  lemma CodeBranchesAreFrugal(ctx: Context, limit: int, code: seq<Byte>, s: Machine, op: Byte)
    requires s.running
    ensures IsCopy(op) ==> Frugal(limit, s, op, ExecCopy(ctx, code, s, op))
    ensures IsJump(op) ==> Frugal(limit, s, op, ExecJump(code, s, op))
    ensures op == 0x3C ==> Frugal(limit, s, op, ExecExtCodeCopy(ctx, s))
  {
  }

  lemma ExecIsFrugal(ctx: Context, limit: int, code: seq<Byte>, s: Machine, op: Byte)
    requires s.running
    ensures Frugal(limit, s, op, Exec(ctx, limit, code, s, op))
  {
    hide ExecWord, ExecCopy, ExecExtCodeCopy, ExecLog, ExecStore, ExecJump, ExecDupSwap, ExecCreate, ExecCall, ExecStop;
    if IsWordOp(op) {
      WordsAreFrugal(ctx, limit, code, s, op);
    } else if IsCreate(op) {
      CreateIsFrugal(ctx, limit, s, op);
    } else if IsCall(op) {
      CallIsFrugal(ctx, limit, s, op);
    } else if IsDup(op) || IsSwap(op) {
      DupSwapIsFrugal(limit, s, op);
    } else if IsLog(op) {
      LogIsFrugal(limit, s, op);
    } else if IsStore(op) || IsStop(op) {
      StackBranchesAreFrugal(limit, s, op);
    } else if IsCopy(op) || IsJump(op) || op == 0x3C {
      CodeBranchesAreFrugal(ctx, limit, code, s, op);
    }
  }

  /** One step: at least one unit of gas to go on, one trace entry, two units per stack slot gained. */
  ghost predicate Bounded(limit: int, st: Machine, r: Outcome) {
    r.Raise? ||
    (&& |r.st.trace| == |st.trace| + 1
     && r.st.trace[..|st.trace|] == st.trace
     && r.st.trace[|st.trace|].pc == st.pc
     && r.st.running == r.Next?
     && st.gasUsed <= r.st.gasUsed <= limit
     && (r.Next? ==> st.gasUsed < r.st.gasUsed)
     && (AllWords(st.stack) ==> AllWords(r.st.stack))
     && 2 * |r.st.stack| - 2 * |st.stack| <= r.st.gasUsed - st.gasUsed)
  }

  lemma StepIsBounded(ctx: Context, limit: int, code: seq<Byte>, st: Machine)
    requires st.pc < |code| && st.running
    ensures Bounded(limit, st, Step(ctx, limit, code, st))
  {
    hide Exec;
    var op := code[st.pc];
    var fetched := Fetch(limit, st, op);
    if fetched.Next? {
      ExecIsFrugal(ctx, limit, code, fetched.st, op);
      assert GasCost(op) >= 2 || op == 0x5B || IsStop(op);
    }
  }

  // ----- whole runs -----

  /** The loop of `execute_bytecode` from `st`; the recursion is well founded by gas alone. */
  function Run(ctx: Context, limit: int, code: seq<Byte>, st: Machine): (r: Outcome)
    requires st.running
    decreases limit - st.gasUsed
  {
    if st.pc >= |code| then Halt(st)
    else
      StepIsBounded(ctx, limit, code, st);
      match Step(ctx, limit, code, st)
      case Next(s) => Run(ctx, limit, code, s)
      case Halt(s) => Halt(s)
      case Raise(f) => Raise(f)
  }

  function Initial(memory: seq<Byte>, storage: map<int, int>): Machine {
    Machine(0, [], memory, storage, 0, true, false, [], [], [])
  }

  /** What is true of the counters between two turns of the loop. */
  ghost predicate Accounted(limit: int, st: Machine) {
    && |st.trace| <= st.gasUsed
    && 2 * |st.stack| <= st.gasUsed
    && AllWords(st.stack)
    && (st.trace != [] ==> st.gasUsed <= limit)
  }

  /**
   Resource bounds of every completed execution: `gas_used` never exceeds the limit, the
   trace is no longer than `gas_used + 1`, two units of gas back every stack slot and every
   word is below 2^256. An execution that never starts has used no gas.
   */
  lemma {:induction false} RunIsBounded(ctx: Context, limit: int, code: seq<Byte>, st: Machine)
    requires st.running && Accounted(limit, st)
    ensures var r := Run(ctx, limit, code, st);
            r.Halt? ==>
              && |r.st.trace| <= r.st.gasUsed + 1
              && 2 * |r.st.stack| <= r.st.gasUsed
              && (r.st.gasUsed <= limit || r.st == st)
              && st.trace <= r.st.trace
              && AllWords(r.st.stack)
    ensures !Run(ctx, limit, code, st).Next?
    decreases limit - st.gasUsed
  {
    hide Step;
    if st.pc < |code| {
      StepIsBounded(ctx, limit, code, st);
      var r := Step(ctx, limit, code, st);
      if r.Next? {
        RunIsBounded(ctx, limit, code, r.st);
      }
    }
  }

  /** The state after exactly `n` turns of the loop, if the run gets that far. */
  ghost function After(ctx: Context, limit: int, code: seq<Byte>, st: Machine, n: nat): (r: Outcome) {
    if n == 0 then Next(st)
    else
      match After(ctx, limit, code, st, n - 1)
      case Next(s) => if s.pc < |code| then Step(ctx, limit, code, s) else Halt(s)
      case other => other
  }

  /** In every reachable state the number of turns taken is the trace length and is paid for in gas. */
  lemma {:induction false} ReachableIsAccounted(
      ctx: Context, limit: int, code: seq<Byte>, st: Machine, n: nat)
    requires st.running && Accounted(limit, st) && st.trace == []
    ensures var r := After(ctx, limit, code, st, n);
            r.Next? ==>
              && r.st.running && Accounted(limit, r.st)
              && |r.st.trace| == n
              && n <= r.st.gasUsed
  {
    hide Step;
    if n > 0 {
      ReachableIsAccounted(ctx, limit, code, st, n - 1);
      var r := After(ctx, limit, code, st, n - 1);
      if r.Next? && r.st.pc < |code| {
        StepIsBounded(ctx, limit, code, r.st);
      }
    }
  }

  /** Termination stated on the step relation: no run takes more than `limit` turns. */
  lemma EveryRunStops(ctx: Context, limit: int, code: seq<Byte>, memory: seq<Byte>,
                      storage: map<int, int>, n: nat)
    requires n > limit && n > 0
    ensures !After(ctx, limit, code, Initial(memory, storage), n).Next?
  {
    ReachableIsAccounted(ctx, limit, code, Initial(memory, storage), n);
  }

  // ----- the call-gas rule -----

  /**
   A call can always be paid for: the gas handed to the callee never exceeds what remains,
   so charging what the callee used never runs out. Without a stipend at least one 64th of
   the remaining gas stays with the caller, as EIP-150 asks.
   */
  lemma CallGasIsCovered(limit: int, gasUsed: int, requested: int, value: int, mode: CallMode)
    requires gasUsed <= limit
    ensures var gas := CallGas(limit, gasUsed, requested, value, mode);
            && gasUsed + gas <= limit
            && (requested > 0 && (value <= 0 || mode == Delegate || mode == Static) ==> gas <= requested)
            && (value <= 0 || mode == Delegate || mode == Static ==> 64 * (limit - gasUsed - gas) >= limit - gasUsed)
  {
    var r := Remaining(limit, gasUsed);
    assert 64 * (r * 63 / 64) <= r * 63;
  }

  lemma SettleCallGoesOn()
    ensures forall st, mode, retOffset: nat, retSize: nat, reply :: SettleCall(st, mode, retOffset, retSize, reply).Next?
  {
  }

  /** A CALL-family opcode whose price was paid never fails for gas. */
  lemma CallNeverRunsOut(ctx: Context, limit: int, s: Machine, op: Byte)
    requires IsCall(op) && s.gasUsed <= limit && s.running
    ensures ExecCall(ctx, limit, s, op) != Raise(OutOfGas)
    ensures ExecCall(ctx, limit, s, op).Raise? <==> |s.stack| < (if (op == 0xF1 || op == 0xF2) then 7 else 6)
  {
    hide Mask, Extend, Slice, SettleCall, CallGas;
    var mode := ModeOf(op);
    var v := if mode == Plain || mode == Code then 1 else 0;
    SettleCallGoesOn();
    if |s.stack| >= 6 + v {
      CallGasIsCovered(limit, s.gasUsed, Top(s, 0), if v == 1 then Top(s, 2) else 0, mode);
    }
  }
}
