/**
 The `EVM` object of evm_interpreter.py: fields updated in place, exceptions as
 failure values. `ExecuteBytecode` is proved to compute `Run` of the transition function.
 */
module EvmInterpreter {
  import opened Wrappers
  import opened EvmWords
  import opened EvmMachine
  import opened EvmBounds

  /** A Python call that may raise. */
  datatype Attempt<+T> = Ok(value: T) | Raised(fault: Fault) {
    predicate IsFailure() { Raised? }
    function PropagateFailure<U>(): Attempt<U>
      requires Raised?
    {
      Raised(fault)
    }
    function Extract(): T
      requires Ok?
    {
      value
    }
  }

  datatype ExecutionResult = ExecutionResult(
    success: bool, reverted: bool, stack: seq<Word>, memory: seq<Byte>, storage: map<int, int>,
    gasUsed: int, returnData: seq<Byte>, trace: seq<TraceEntry>, logs: seq<LogEntry>)

  function ResultOf(st: Machine): ExecutionResult {
    ExecutionResult(st.running || (!st.reverted && (st.returnData != [] || st.stack != [])), st.reverted,
                    st.stack, st.memory, st.storage, st.gasUsed, st.returnData, st.trace, st.logs)
  }

  /** The object did what the specification says: same next state, or the same exception. */
  ghost predicate Agrees(spec: Outcome, r: Attempt<()>, now: Machine) {
    match spec
    case Next(s) => r.Ok? && now == s
    case Halt(s) => r.Ok? && now == s
    case Raise(f) => r == Raised(f)
  }

  class EVM {
    var pc: nat
    var stack: seq<Word>
    var memory: seq<Byte>
    var storage: map<int, int>
    var gasUsed: int
    var running: bool
    var reverted: bool
    var returnData: seq<Byte>
    var trace: seq<TraceEntry>
    var logs: seq<LogEntry>
    const gasLimit: int
    const ctx: Context

    ghost function Snapshot(): Machine
      reads this
    {
      Machine(pc, stack, memory, storage, gasUsed, running, reverted, returnData, trace, logs)
    }

    /** The state once the loop's last statement, `pc += 1`, has run. */
    ghost function Advanced(): Machine
      reads this
    {
      Snapshot().(pc := pc + 1)
    }

    constructor (gasLimit: int, ctx: Context)
      ensures this.gasLimit == gasLimit && Snapshot() == Initial([], map[])
    {
      this.gasLimit, this.ctx := gasLimit, ctx;
      pc, stack, memory, storage, gasUsed := 0, [], [], map[], 0;
      running, reverted, returnData, trace, logs := true, false, [], [], [];
    }

    // ----- helpers -----

    method ConsumeGas(cost: nat) returns (r: Attempt<()>)
      modifies this`gasUsed
      ensures old(gasUsed) + cost > gasLimit ==> r == Raised(OutOfGas) && gasUsed == old(gasUsed)
      ensures old(gasUsed) + cost <= gasLimit ==> r.Ok? && gasUsed == old(gasUsed) + cost
    {
      if gasUsed + cost > gasLimit { return Raised(OutOfGas); }
      gasUsed := gasUsed + cost;
      return Ok(());
    }

    method Push(value: int)
      modifies this`stack
      ensures stack == old(stack) + [Mask(value)]
    {
      stack := stack + [Mask(value)];
    }

    method Pop() returns (r: Attempt<Word>)
      modifies this`stack
      ensures old(stack) == [] ==> r == Raised(StackUnderflow) && stack == []
      ensures old(stack) != [] ==> r.Ok? && old(stack) == stack + [r.value]
    {
      if |stack| == 0 { return Raised(StackUnderflow); }
      r := Ok(stack[|stack| - 1]);
      stack := stack[..|stack| - 1];
    }

    /** `n` pops in a row, top of the stack first. */
    method PopMany(n: nat) returns (r: Attempt<seq<Word>>)
      modifies this`stack
      ensures |old(stack)| < n ==> r == Raised(StackUnderflow)
      ensures |old(stack)| >= n ==> r.Ok? && |r.value| == n && stack == Dropped(old(Snapshot()), n)
      ensures r.Ok? ==> forall i :: 0 <= i < n ==> r.value[i] == Top(old(Snapshot()), i)
    {
      var popped: seq<Word> := [];
      for k := 0 to n
        invariant k <= |old(stack)| && stack == old(stack)[..|old(stack)| - k]
        invariant |popped| == k
        invariant forall i :: 0 <= i < k ==> popped[i] == old(stack)[|old(stack)| - 1 - i]
      {
        var w :- Pop();
        popped := popped + [w];
      }
      return Ok(popped);
    }

    method MemExtend(offset: nat, size: nat)
      modifies this`memory
      ensures memory == Extend(old(memory), offset, size)
    {
      var need := offset + size;
      if need > |memory| { memory := memory + Zeros(need - |memory|); }
    }

    method WriteReturnToMemory(offset: nat, size: nat, data: seq<Byte>)
      modifies this`memory
      ensures var chunk := Slice(data, 0, size);
              memory == Splice(Extend(old(memory), offset, size), offset, |chunk|, chunk)
    {
      MemExtend(offset, size);
      var chunk := Slice(data, 0, size);
      memory := Splice(memory, offset, |chunk|, chunk);
    }

    method ChargeSubcallGas(gas: int) returns (r: Attempt<()>)
      modifies this`gasUsed
      ensures gas <= 0 ==> r.Ok? && gasUsed == old(gasUsed)
      ensures gas > 0 && old(gasUsed) + gas > gasLimit ==> r == Raised(OutOfGas)
      ensures gas > 0 && old(gasUsed) + gas <= gasLimit ==> r.Ok? && gasUsed == old(gasUsed) + gas
    {
      if gas > 0 {
        gasUsed := gasUsed + gas;
        if gasUsed > gasLimit { return Raised(OutOfGas); }
      }
      return Ok(());
    }

    // ----- opcode classes -----

    method DoAlu(op: Byte) returns (r: Attempt<()>)
      requires IsBinary(op) || IsUnary(op)
      modifies this`stack
      ensures Agrees(ExecAlu(old(Snapshot()), op), r, Advanced())
    {
      hide Mask, Alu1, Alu2;
      var a :- Pop();
      var v := 0;
      if IsBinary(op) {
        var b :- Pop();
        v := Alu2(op, a, b);
      } else {
        v := Alu1(op, a);
      }
      Push(v);
      return Ok(());
    }

    /** The fields as one value. */
    method Here() returns (st: Machine)
      ensures st == Snapshot()
    {
      return Machine(pc, stack, memory, storage, gasUsed, running, reverted, returnData, trace, logs);
    }

    method DoMload() returns (r: Attempt<()>)
      modifies this`stack, this`memory
      ensures Agrees(ExecQuery(ctx, old(Snapshot()), 0x51), r, Advanced())
    {
      hide FromBytes, Mask, Extend;
      var x :- Pop();
      MemExtend(x, 32);
      Push(FromBytes(memory[x..x + 32]));
      return Ok(());
    }

    method DoQuery(op: Byte) returns (r: Attempt<()>)
      requires IsQuery(op)
      modifies this`stack, this`memory
      ensures Agrees(ExecQuery(ctx, old(Snapshot()), op), r, Advanced())
    {
      if op == 0x51 {
        r := DoMload();
        return;
      }
      hide Answer, Mask;
      var here := Here();
      var x :- Pop();
      Push(Answer(ctx, here, op, x));
      return Ok(());
    }

    method DoSha3() returns (r: Attempt<()>)
      modifies this`stack, this`memory
      ensures Agrees(ExecSha3(ctx, old(Snapshot())), r, Advanced())
    {
      hide Mask, Extend, Slice;
      var args :- PopMany(2);
      var offset, size := args[0], args[1];
      MemExtend(offset, size);
      Push(ctx.sha3(Slice(memory, offset, size)));
      return Ok(());
    }

    method DoWord(code: seq<Byte>, op: Byte) returns (r: Attempt<()>)
      requires IsWordOp(op)
      modifies this`pc, this`stack, this`memory
      ensures Agrees(ExecWord(ctx, gasLimit, code, old(Snapshot()), op), r, Advanced())
    {
      hide ExecAlu, ExecQuery, ExecSha3, ReadEnvironment, PushedImmediate, Mask;
      r := Ok(());
      if IsPush(op) {
        Push(PushedImmediate(code, pc, op));
        pc := pc + (op - 0x5F);
      } else if IsBinary(op) || IsUnary(op) {
        r := DoAlu(op);
      } else if IsReader(op) {
        var here := Here();
        Push(ReadEnvironment(ctx, gasLimit, code, here, op));
      } else if IsQuery(op) {
        r := DoQuery(op);
      } else if op == 0x20 {
        r := DoSha3();
      } else if op == 0x50 {
        var _ :- Pop();
      }
    }

    method DoCopy(code: seq<Byte>, op: Byte) returns (r: Attempt<()>)
      requires IsCopy(op)
      modifies this`stack, this`memory
      ensures Agrees(ExecCopy(ctx, code, old(Snapshot()), op), r, Advanced())
    {
      var args :- PopMany(3);
      var dest, offset, size := args[0], args[1], args[2];
      MemExtend(dest, size);
      var data := if op == 0x37 then ctx.calldata else if op == 0x39 then code else returnData;
      memory := Splice(memory, dest, size, Slice(data, offset, size));
      return Ok(());
    }

    method DoExtCodeCopy() returns (r: Attempt<()>)
      modifies this`stack, this`memory
      ensures Agrees(ExecExtCodeCopy(ctx, old(Snapshot())), r, Advanced())
    {
      var args :- PopMany(4);
      var codeOffset, memOffset, size, who := args[0], args[1], args[2], args[3];
      var chunk := [];
      if ctx.codeCopyOf.Some? {
        chunk := ctx.codeCopyOf.value(|trace|, who % ADDRESS_SPACE, codeOffset, size);
      }
      MemExtend(memOffset, |chunk|);
      memory := Splice(memory, memOffset, |chunk|, chunk);
      return Ok(());
    }

    /** The topics are popped top first and then reversed. */
    method PopTopics(n: nat) returns (r: Attempt<seq<Word>>)
      modifies this`stack
      ensures |old(stack)| < n ==> r == Raised(StackUnderflow)
      ensures |old(stack)| >= n ==> r == Ok(old(stack)[|old(stack)| - n..]) && stack == Dropped(old(Snapshot()), n)
    {
      var topics: seq<Word> := [];
      for k := 0 to n
        invariant k <= |old(stack)| && stack == old(stack)[..|old(stack)| - k]
        invariant topics == old(stack)[|old(stack)| - k..]
      {
        var w :- Pop();
        topics := [w] + topics;
      }
      return Ok(topics);
    }

    /** The operands of LOGn: n topics, then size and offset. */
    method PopLog(n: nat) returns (r: Attempt<(seq<Word>, Word, Word)>)
      modifies this`stack
      ensures |old(stack)| < n + 2 ==> r == Raised(StackUnderflow)
      ensures |old(stack)| >= n + 2 ==>
                var before := old(Snapshot());
                && r == Ok((old(stack)[|old(stack)| - n..], Top(before, n), Top(before, n + 1)))
                && stack == Dropped(before, n + 2)
    {
      var topics :- PopTopics(n);
      var args :- PopMany(2);
      return Ok((topics, args[0], args[1]));
    }

    method DoLog(op: Byte) returns (r: Attempt<()>)
      requires IsLog(op)
      modifies this`stack, this`memory, this`gasUsed, this`logs
      ensures Agrees(ExecLog(gasLimit, old(Snapshot()), op), r, Advanced())
    {
      hide Extend, Slice, Dropped, Top;
      var n := op - 0xA0;
      var args :- PopLog(n);
      var (topics, size, offset) := args;
      var _ :- ConsumeGas(375 + n * 375 + size);
      MemExtend(offset, size);
      logs := logs + [LogEntry(topics, Slice(memory, offset, size))];
      return Ok(());
    }

    method DoStore(op: Byte) returns (r: Attempt<()>)
      requires IsStore(op)
      modifies this`stack, this`memory, this`storage
      ensures Agrees(ExecStore(old(Snapshot()), op), r, Advanced())
    {
      var args :- PopMany(2);
      var key, value := args[0], args[1];
      if op == 0x52 {
        MemExtend(key, 32);
        memory := Splice(memory, key, 32, ToBytes(32, Mask(value)));
      } else if op == 0x53 {
        MemExtend(key, 1);
        memory := memory[key := value % 256];
      } else if value == 0 && key in storage {
        storage := storage - {key};
      } else {
        storage := storage[key := value];
      }
      return Ok(());
    }

    /** `jumped` tells the loop to continue without `pc += 1`. */
    method DoJump(code: seq<Byte>, op: Byte) returns (r: Attempt<()>, jumped: bool)
      requires IsJump(op)
      modifies this`stack, this`pc
      ensures Agrees(ExecJump(code, old(Snapshot()), op), r, if jumped then Snapshot() else Advanced())
    {
      jumped := false;
      var args := PopMany(if op == 0x56 then 1 else 2);
      if args.Raised? { return Raised(args.fault), false; }
      var dest := args.value[0];
      if op == 0x56 || args.value[1] != 0 {
        if !IsJumpdest(code, dest) { return Raised(BadJump(dest)), false; }
        pc := dest;
        jumped := true;
      }
      return Ok(()), jumped;
    }

    method DoDupSwap(op: Byte) returns (r: Attempt<()>)
      requires IsDup(op) || IsSwap(op)
      modifies this`stack
      ensures Agrees(ExecDupSwap(old(Snapshot()), op), r, Advanced())
    {
      if IsDup(op) {
        var n := op - 0x7F;
        if |stack| < n { return Raised(StackUnderflow); }
        Push(stack[|stack| - n]);
      } else {
        var n := op - 0x8F;
        if |stack| < n + 1 { return Raised(StackUnderflow); }
        var a, b := stack[|stack| - 1], stack[|stack| - 1 - n];
        stack := stack[|stack| - 1 := b];
        stack := stack[|stack| - 1 - n := a];
      }
      return Ok(());
    }

    method EndCreate(reply: CreateReply) returns (r: Attempt<()>)
      modifies this`stack, this`gasUsed
      ensures Agrees(FinishCreate(gasLimit, old(Snapshot()), reply), r, Advanced())
    {
      var _ :- ChargeSubcallGas(reply.gasUsed);
      Push(if !reply.success || reply.reverted then 0 else reply.address);
      return Ok(());
    }

    method DoCreate(op: Byte) returns (r: Attempt<()>)
      requires IsCreate(op)
      modifies this`stack, this`memory, this`gasUsed
      ensures Agrees(ExecCreate(ctx, gasLimit, old(Snapshot()), op), r, Advanced())
    {
      hide Mask, Extend, Slice;
      var s := if op == 0xF5 then 1 else 0;
      var args :- PopMany(3 + s);
      if ctx.contractCreate.None? {
        Push(0);
        return Ok(());
      }
      var salt := if s == 1 then Some(args[0] as int) else None;
      var size, offset, value := args[s], args[s + 1], args[s + 2];
      MemExtend(offset, size);
      var request := CreateRequest(Slice(memory, offset, size), value, salt);
      r := EndCreate(ctx.contractCreate.value(|trace|, request));
    }

    method SettleReply(mode: CallMode, retOffset: nat, retSize: nat, reply: CallReply)
      modifies this`stack, this`memory, this`storage, this`returnData
      ensures SettleCall(old(Snapshot()), mode, retOffset, retSize, reply) == Next(Advanced())
    {
      hide Mask, Extend, Slice, Splice;
      returnData := reply.returnData;
      if (mode == Delegate || mode == Code) && reply.storage.Some? {
        storage := reply.storage.value;
      }
      WriteReturnToMemory(retOffset, retSize, returnData);
      Push(if reply.success && !reply.reverted then 1 else 0);
    }

    method EndCall(mode: CallMode, callGas: nat, retOffset: nat, retSize: nat, reply: CallReply)
      returns (r: Attempt<()>)
      modifies this`stack, this`memory, this`gasUsed, this`storage, this`returnData
      ensures Agrees(FinishCall(gasLimit, old(Snapshot()), mode, callGas, retOffset, retSize, reply), r, Advanced())
    {
      hide SettleCall;
      var _ :- ChargeSubcallGas(if reply.gasUsed < callGas then reply.gasUsed else callGas);
      SettleReply(mode, retOffset, retSize, reply);
      return Ok(());
    }

    method DoCall(op: Byte) returns (r: Attempt<()>)
      requires IsCall(op)
      modifies this`stack, this`memory, this`gasUsed, this`storage, this`returnData
      ensures Agrees(ExecCall(ctx, gasLimit, old(Snapshot()), op), r, Advanced())
    {
      hide Mask, Extend, Slice;
      var mode := ModeOf(op);
      var v := if mode == Plain || mode == Code then 1 else 0;
      var args :- PopMany(6 + v);
      if ctx.contractCall.None? {
        returnData := [];
        Push(0);
        return Ok(());
      }
      var value := if v == 1 then args[2] else 0;
      MemExtend(args[2 + v], args[3 + v]);
      var callGas := CallGas(gasLimit, gasUsed, args[0], value, mode);
      var request := CallRequest(args[1] % ADDRESS_SPACE, Slice(memory, args[2 + v], args[3 + v]),
                                 value, callGas, mode);
      r := EndCall(mode, callGas, args[4 + v], args[5 + v], ctx.contractCall.value(|trace|, request));
    }

    method DoStop(op: Byte) returns (r: Attempt<()>)
      requires IsStop(op)
      modifies this`stack, this`memory, this`returnData, this`reverted, this`running
      ensures Agrees(ExecStop(old(Snapshot()), op), r, Snapshot())
    {
      hide Mask, Extend, Slice;
      if op == 0x00 {
      } else if op == 0xFF {
        var _ :- Pop();
      } else {
        var args :- PopMany(2);
        var offset, size := args[0], args[1];
        MemExtend(offset, size);
        returnData := Slice(memory, offset, size);
        reverted := op == 0xFD;
      }
      running := false;
      return Ok(());
    }

    // ----- the loop -----

    /** The branches of the loop body after gas and trace, with the final `pc += 1`. */
    method Dispatch(code: seq<Byte>, op: Byte) returns (r: Attempt<()>)
      modifies this
      ensures Agrees(Exec(ctx, gasLimit, code, old(Snapshot()), op), r, Snapshot())
    {
      hide ExecWord, ExecCopy, ExecExtCodeCopy, ExecLog, ExecStore, ExecJump, ExecDupSwap, ExecCreate, ExecCall, ExecStop;
      var jumped := false;
      if IsWordOp(op) {
        r := DoWord(code, op);
      } else if IsCopy(op) {
        r := DoCopy(code, op);
      } else if op == 0x3C {
        r := DoExtCodeCopy();
      } else if IsLog(op) {
        r := DoLog(op);
      } else if IsStore(op) {
        r := DoStore(op);
      } else if IsJump(op) {
        r, jumped := DoJump(code, op);
      } else if IsDup(op) || IsSwap(op) {
        r := DoDupSwap(op);
      } else if IsCreate(op) {
        r := DoCreate(op);
      } else if IsCall(op) {
        r := DoCall(op);
      } else if IsStop(op) {
        r := DoStop(op);
        return;
      } else if op == 0xFE {
        r := Raised(InvalidOpcode);
      } else {
        r := Raised(Unsupported(op));
      }
      if r.Ok? && !jumped {
        pc := pc + 1;
      }
    }

    method Turn(code: seq<Byte>) returns (r: Attempt<()>)
      requires pc < |code|
      modifies this
      ensures Agrees(Step(ctx, gasLimit, code, old(Snapshot())), r, Snapshot())
    {
      hide Exec;
      var op := code[pc];
      if !IsLog(op) {
        var _ :- ConsumeGas(GasCost(op));
      }
      trace := trace + [TraceEntry(pc, op, |stack|)];
      assert Fetch(gasLimit, old(Snapshot()), op) == Next(Snapshot());
      r := Dispatch(code, op);
    }

    /** Memory and storage survive from an earlier execution; everything else is reset. */
    method ExecuteBytecode(code: seq<Byte>) returns (r: Attempt<ExecutionResult>)
      modifies this
      ensures match Run(ctx, gasLimit, code, Initial(old(memory), old(storage)))
              case Next(_) => false
              case Halt(s) => r.Ok? && Snapshot() == s
              case Raise(f) => r == Raised(f)
      ensures r.Ok? ==>
                && r.value.success == (running || (!reverted && (returnData != [] || stack != [])))
                && r.value == ExecutionResult(r.value.success, reverted, stack, memory, storage, gasUsed, returnData, trace, logs)
      ensures code == [] ==>
                r == Ok(ExecutionResult(true, false, [], old(memory), old(storage), 0, [], [], []))
    {
      hide Step;
      pc, stack, gasUsed, running, reverted, returnData, trace, logs := 0, [], 0, true, false, [], [], [];
      ghost var start := Snapshot();
      assert start == Initial(old(memory), old(storage));
      while pc < |code| && running
        invariant running ==> Run(ctx, gasLimit, code, start) == Run(ctx, gasLimit, code, Snapshot())
        invariant !running ==> Run(ctx, gasLimit, code, start) == Halt(Snapshot())
        decreases gasLimit - gasUsed, running
      {
        StepIsBounded(ctx, gasLimit, code, Snapshot());
        var _ :- Turn(code);
      }
      var st := Here();
      return Ok(ResultOf(st));
    }
  }
}
