/**
 The interpreter of evm_interpreter.py as a transition function. `Step` executes the
 opcode at the program counter; iterating it is the loop of `execute_bytecode`.
 Opcode numbers and gas prices are the interpreter's own table.

 Callbacks of the execution context are arbitrary functions that also receive the number
 of opcodes executed so far, so a callback may answer the same question differently at
 different moments: everything proved holds for every environment.
 */
module EvmMachine {
  import opened Wrappers
  import opened EvmWords

  /** A stack entry; that entries stay below 2^256 is proved, not built into the type. */
  type Word = nat

  datatype CallMode = Plain | Code | Delegate | Static

  datatype CallRequest = CallRequest(to: int, data: seq<Byte>, value: int, gas: int, mode: CallMode)
  datatype CallReply = CallReply(success: bool, reverted: bool, gasUsed: int, returnData: seq<Byte>,
                                 storage: Option<map<int, int>>)
  datatype CreateRequest = CreateRequest(initCode: seq<Byte>, value: int, salt: Option<int>)
  datatype CreateReply = CreateReply(success: bool, reverted: bool, gasUsed: int, address: int)

  /** Execution context; account names are already turned into integers. */
  datatype Context = Context(
    caller: int, origin: int, address: int, calldata: seq<Byte>, value: int,
    blockNumber: int, timestamp: int, chainId: int,
    sha3: seq<Byte> -> int,
    balanceOf: Option<(nat, int) -> int>,
    codeSizeOf: Option<(nat, int) -> int>,
    codeCopyOf: Option<(nat, int, int, int) -> seq<Byte>>,
    blockHashOf: Option<(nat, int) -> int>,
    contractCall: Option<(nat, CallRequest) -> CallReply>,
    contractCreate: Option<(nat, CreateRequest) -> CreateReply>)

  datatype TraceEntry = TraceEntry(pc: nat, op: Byte, stackDepth: nat)
  datatype LogEntry = LogEntry(topics: seq<Word>, data: seq<Byte>)

  datatype Machine = Machine(
    pc: nat, stack: seq<Word>, memory: seq<Byte>, storage: map<int, int>, gasUsed: int,
    running: bool, reverted: bool, returnData: seq<Byte>,
    trace: seq<TraceEntry>, logs: seq<LogEntry>)

  datatype Fault = OutOfGas | StackUnderflow | BadJump(dest: int) | InvalidOpcode | Unsupported(op: Byte)

  /** One turn of the loop: go on, leave the loop normally, or raise. */
  datatype Outcome = Next(st: Machine) | Halt(st: Machine) | Raise(fault: Fault)

  // ----- opcode classes -----

  predicate IsPush(op: Byte) { 0x60 <= op <= 0x7F }
  predicate IsDup(op: Byte) { 0x80 <= op <= 0x8F }
  predicate IsSwap(op: Byte) { 0x90 <= op <= 0x9F }
  predicate IsLog(op: Byte) { 0xA0 <= op <= 0xA4 }

  /** Pops a, then b, and pushes one word. */
  predicate IsBinary(op: Byte) {
    || op == 0x01 || op == 0x02 || op == 0x03 || op == 0x04 || op == 0x06 || op == 0x10 || op == 0x11
    || op == 0x12 || op == 0x14 || op == 0x16 || op == 0x17 || op == 0x1A || op == 0x1B || op == 0x1C
  }

  predicate IsUnary(op: Byte) { (op == 0x15 || op == 0x19) }

  /** Pushes a word that depends on the environment or on the machine, pops nothing. */
  predicate IsReader(op: Byte) {
    || op == 0x30 || op == 0x32 || op == 0x33 || op == 0x34 || op == 0x36 || op == 0x38 || op == 0x3D
    || op == 0x42 || op == 0x43 || op == 0x45 || op == 0x46 || op == 0x5A || op == 0x5F
  }

  /** Replaces the top word by the answer to a question about it. */
  predicate IsQuery(op: Byte) { (op == 0x31 || op == 0x35 || op == 0x3B || op == 0x40 || op == 0x51 || op == 0x54) }

  predicate IsCopy(op: Byte) { (op == 0x37 || op == 0x39 || op == 0x3E) }

  predicate IsStore(op: Byte) { (op == 0x52 || op == 0x53 || op == 0x55) }

  predicate IsJump(op: Byte) { (op == 0x56 || op == 0x57) }

  predicate IsCreate(op: Byte) { (op == 0xF0 || op == 0xF5) }

  predicate IsCall(op: Byte) { (op == 0xF1 || op == 0xF2 || op == 0xF4 || op == 0xFA) }

  predicate IsStop(op: Byte) { (op == 0x00 || op == 0xF3 || op == 0xFD || op == 0xFF) }

  /** The opcodes that only compute words: they change stack, memory length and pc. */
  predicate IsWordOp(op: Byte) {
    IsPush(op) || IsBinary(op) || IsUnary(op) || IsReader(op) || IsQuery(op) || (op == 0x20 || op == 0x50 || op == 0x5B)
  }

  /** The opcodes with a branch of their own in the interpreter loop. */
  predicate Implemented(op: Byte) {
    || IsWordOp(op) || IsDup(op) || IsSwap(op) || IsLog(op) || IsCopy(op) || IsStore(op) || IsJump(op)
    || IsCreate(op) || IsCall(op) || IsStop(op) || (op == 0x3C || op == 0xFE)
  }

  /** GAS_COSTS looked up under the opcode's name; an unlisted name costs 3. */
  function GasCost(op: Byte): (cost: nat) {
    if (op == 0x00 || op == 0xF3 || op == 0xFD) then 0
    else if op == 0x5B then 1
    else if IsReader(op) || op == 0x50 then 2
    else if (op == 0x02 || op == 0x04 || op == 0x06) then 5
    else if op == 0x56 then 8
    else if op == 0x57 then 10
    else if op == 0x40 then 20
    else if op == 0x20 then 30
    else if op == 0x54 then 200
    else if op == 0x31 then 400
    else if IsCall(op) || (op == 0x3B || op == 0x3C) then 700
    else if (op == 0x55 || op == 0xFF) then 5000
    else if IsCreate(op) then 32000
    else 3
  }

  // ----- words computed by the opcodes -----

  function Alu2(op: Byte, a: Word, b: Word): (v: int) {
    if op == 0x01 then a + b
    else if op == 0x02 then a * b
    else if op == 0x03 then a - b
    else if op == 0x04 then (if b == 0 then 0 else a / b)
    else if op == 0x06 then (if b == 0 then 0 else a % b)
    else if op == 0x10 then Bitwise(And, a, b)
    else if op == 0x11 then Bitwise(Or, a, b)
    else if op == 0x12 then Bitwise(Xor, a, b)
    else if op == 0x14 then (if a == b then 1 else 0)
    else if op == 0x16 then (if a < b then 1 else 0)
    else if op == 0x17 then (if a > b then 1 else 0)
    else if op == 0x1A then (if a >= 32 then 0 else (b / Pow2(8 * (31 - a))) % 256)
    else if op == 0x1B then b * Pow2(a)
    else b / Pow2(a)
  }

  function Alu1(op: Byte, a: Word): (v: int) {
    if op == 0x15 then (if a == 0 then 1 else 0) else -1 - a
  }

  /** Subtraction undoes addition, complement is an involution, exactly one comparison holds. */
  lemma AluLaws(a: Word, b: Word)
    requires a < WORD && b < WORD
    ensures Mask(Alu2(0x03, Mask(Alu2(0x01, a, b)), b)) == a
    ensures Alu2(0x14, a, b) + Alu2(0x16, a, b) + Alu2(0x17, a, b) == 1
    ensures Alu2(0x16, a, b) == 1 <==> a < b
    ensures Mask(Alu1(0x19, Mask(Alu1(0x19, a)))) == a && Mask(Alu1(0x19, a)) + a == WORD - 1
  {
    assert Mask(a + b) == if a + b < WORD then a + b else a + b - WORD;
    assert Mask(-1 - a) == WORD - 1 - a;
  }

  /** Quotient and remainder recompose the dividend; shifting right undoes shifting left. */
  lemma DivisionLaws(a: Word, b: Word)
    ensures b != 0 ==> a == b * Alu2(0x04, a, b) + Alu2(0x06, a, b) && 0 <= Alu2(0x06, a, b) < b
    ensures b == 0 ==> Alu2(0x04, a, b) == 0 && Alu2(0x06, a, b) == 0
    ensures Alu2(0x1B, a, b) >= 0 && Alu2(0x1C, a, Alu2(0x1B, a, b)) == b
  {
    assert b * Pow2(a) >= 0;
    QuotientIs(b * Pow2(a), Pow2(a), b, 0);
  }

  /** BYTE selects byte `i` of the word's big-endian encoding. */
  lemma ByteOpcodeMeaning(i: Word, x: Word)
    ensures Alu2(0x1A, i, x) == if i < 32 then ToBytes(32, x)[i] else 0
  {
    if i < 32 {
      ByteByDivision(32, x, i);
      Pow2OfBytes(31 - i);
    }
  }

  function Remaining(limit: int, gasUsed: int): (r: nat) {
    if limit > gasUsed then limit - gasUsed else 0
  }

  function ReadEnvironment(ctx: Context, limit: int, code: seq<Byte>, st: Machine, op: Byte): (v: int) {
    if op == 0x30 then ctx.address
    else if op == 0x32 then ctx.origin
    else if op == 0x33 then ctx.caller
    else if op == 0x34 then ctx.value
    else if op == 0x36 then |ctx.calldata|
    else if op == 0x38 then |code|
    else if op == 0x3D then |st.returnData|
    else if op == 0x42 then ctx.timestamp
    else if op == 0x43 then ctx.blockNumber
    else if op == 0x45 then limit
    else if op == 0x46 then ctx.chainId
    else if op == 0x5A then Remaining(limit, st.gasUsed)
    else 0
  }

  function Answer(ctx: Context, st: Machine, op: Byte, x: Word): (v: int) {
    var now := |st.trace|;
    if op == 0x31 then (if ctx.balanceOf.Some? then ctx.balanceOf.value(now, x % ADDRESS_SPACE) else 0)
    else if op == 0x35 then FromBytes(PadRight(Slice(ctx.calldata, x, 32), 32))
    else if op == 0x3B then (if ctx.codeSizeOf.Some? then ctx.codeSizeOf.value(now, x % ADDRESS_SPACE) else 0)
    else if op == 0x40 then (if ctx.blockHashOf.Some? then ctx.blockHashOf.value(now, x) else 0)
    else if op == 0x51 then ReadWord(st.memory, x)
    else if x in st.storage then st.storage[x] else 0
  }

  function PushedImmediate(code: seq<Byte>, pc: nat, op: Byte): (v: int)
    requires IsPush(op)
  {
    FromBytes(PadRight(Slice(code, pc + 1, op - 0x5F), op - 0x5F))
  }

  predicate IsJumpdest(code: seq<Byte>, dest: int) {
    0 <= dest < |code| && code[dest] == 0x5B
  }

  // ----- calls -----

  const CALL_STIPEND: nat := 2300

  /** `_call_gas_cap`: at most 63/64 of the remaining gas, all of that share when 0 is requested. */
  function CallGasCap(limit: int, gasUsed: int, requested: int): (cap: nat) {
    var share := Remaining(limit, gasUsed) * 63 / 64;
    if requested <= 0 || requested > share then share else requested
  }

  function CallGas(limit: int, gasUsed: int, requested: int, value: int, mode: CallMode): (gas: nat) {
    var cap := CallGasCap(limit, gasUsed, requested);
    if value > 0 && (mode == Plain || mode == Code) then
      var remaining := Remaining(limit, gasUsed);
      if cap + CALL_STIPEND < remaining then cap + CALL_STIPEND else remaining
    else cap
  }

  function ModeOf(op: Byte): CallMode {
    if op == 0xF2 then Code else if op == 0xF4 then Delegate else if op == 0xFA then Static else Plain
  }

  // ----- stack access: index 0 is the top -----

  function Top(st: Machine, i: nat): Word
    requires i < |st.stack|
  {
    st.stack[|st.stack| - 1 - i]
  }

  function Dropped(st: Machine, n: nat): seq<Word>
    requires n <= |st.stack|
  {
    st.stack[..|st.stack| - n]
  }

  function Popped(st: Machine, n: nat): (r: Machine)
    requires n <= |st.stack|
  {
    st.(stack := Dropped(st, n))
  }

  /** Pushes `v` and moves to the next opcode. */
  function Pushed(st: Machine, v: int): (r: Outcome) {
    Next(st.(stack := st.stack + [Mask(v)], pc := st.pc + 1))
  }

  function Advance(st: Machine): (r: Outcome) {
    Next(st.(pc := st.pc + 1))
  }

  /** `_charge_subcall_gas`. */
  function Charge(limit: int, st: Machine, gas: int): (r: Outcome) {
    if gas <= 0 then Next(st)
    else if st.gasUsed + gas > limit then Raise(OutOfGas)
    else Next(st.(gasUsed := st.gasUsed + gas))
  }

  // ----- the opcode classes, after gas and trace -----

  function ExecAlu(st: Machine, op: Byte): (r: Outcome)
    requires IsBinary(op) || IsUnary(op)
  {
    var n := if IsBinary(op) then 2 else 1;
    if |st.stack| < n then Raise(StackUnderflow)
    else Pushed(Popped(st, n), if n == 2 then Alu2(op, Top(st, 0), Top(st, 1)) else Alu1(op, Top(st, 0)))
  }

  function ExecQuery(ctx: Context, st: Machine, op: Byte): (r: Outcome)
    requires IsQuery(op)
  {
    if |st.stack| < 1 then Raise(StackUnderflow)
    else
      var x := Top(st, 0);
      var memory := if op == 0x51 then Extend(st.memory, x, 32) else st.memory;
      Pushed(Popped(st, 1).(memory := memory), Answer(ctx, st, op, x))
  }

  function ExecSha3(ctx: Context, st: Machine): (r: Outcome) {
    if |st.stack| < 2 then Raise(StackUnderflow)
    else
      var offset, size := Top(st, 0), Top(st, 1);
      var memory := Extend(st.memory, offset, size);
      Pushed(Popped(st, 2).(memory := memory), ctx.sha3(Slice(memory, offset, size)))
  }

  function ExecPush(code: seq<Byte>, st: Machine, op: Byte): (r: Outcome)
    requires IsPush(op)
  {
    Pushed(st.(pc := st.pc + (op - 0x5F)), PushedImmediate(code, st.pc, op))
  }

  function ExecDupSwap(st: Machine, op: Byte): (r: Outcome)
    requires IsDup(op) || IsSwap(op)
  {
    if IsDup(op) then
      var n := op - 0x7F;
      if |st.stack| < n then Raise(StackUnderflow) else Pushed(st, Top(st, n - 1))
    else
      var n := op - 0x8F;
      var top := |st.stack| - 1;
      if |st.stack| < n + 1 then Raise(StackUnderflow)
      else Advance(st.(stack := st.stack[top := st.stack[top - n]][top - n := st.stack[top]]))
  }

  function ExecLog(limit: int, st: Machine, op: Byte): (r: Outcome)
    requires IsLog(op)
  {
    var n := op - 0xA0;
    if |st.stack| < n + 2 then Raise(StackUnderflow)
    else
      var size, offset := Top(st, n), Top(st, n + 1);
      var cost := 375 + n * 375 + size;
      if st.gasUsed + cost > limit then Raise(OutOfGas)
      else
        var memory := Extend(st.memory, offset, size);
        var entry := LogEntry(st.stack[|st.stack| - n..], Slice(memory, offset, size));
        Advance(Popped(st, n + 2).(gasUsed := st.gasUsed + cost, memory := memory, logs := st.logs + [entry]))
  }

  function ExecCopy(ctx: Context, code: seq<Byte>, st: Machine, op: Byte): (r: Outcome)
    requires IsCopy(op)
  {
    if |st.stack| < 3 then Raise(StackUnderflow)
    else
      var data := if op == 0x37 then ctx.calldata else if op == 0x39 then code else st.returnData;
      Advance(Popped(st, 3).(memory := CopyIn(st.memory, Top(st, 0), Top(st, 2), data, Top(st, 1))))
  }

  function ExecExtCodeCopy(ctx: Context, st: Machine): (r: Outcome) {
    if |st.stack| < 4 then Raise(StackUnderflow)
    else
      var chunk := if ctx.codeCopyOf.None? then []
                   else ctx.codeCopyOf.value(|st.trace|, Top(st, 3) % ADDRESS_SPACE, Top(st, 0), Top(st, 2));
      var dest := Top(st, 1);
      Advance(Popped(st, 4).(memory := Splice(Extend(st.memory, dest, |chunk|), dest, |chunk|, chunk)))
  }

  function ExecStore(st: Machine, op: Byte): (r: Outcome)
    requires IsStore(op)
  {
    if |st.stack| < 2 then Raise(StackUnderflow)
    else
      var a, v := Top(st, 0), Top(st, 1);
      if op == 0x52 then Advance(Popped(st, 2).(memory := WriteWord(st.memory, a, v)))
      else if op == 0x53 then Advance(Popped(st, 2).(memory := Extend(st.memory, a, 1)[a := v % 256]))
      else if v == 0 && a in st.storage then Advance(Popped(st, 2).(storage := st.storage - {a}))
      else Advance(Popped(st, 2).(storage := st.storage[a := v]))
  }

  function ExecJump(code: seq<Byte>, st: Machine, op: Byte): (r: Outcome)
    requires IsJump(op)
  {
    var n := if op == 0x56 then 1 else 2;
    if |st.stack| < n then Raise(StackUnderflow)
    else
      var dest := Top(st, 0);
      if op == 0x57 && Top(st, 1) == 0 then Advance(Popped(st, 2))
      else if !IsJumpdest(code, dest) then Raise(BadJump(dest))
      else Next(Popped(st, n).(pc := dest))
  }

  /** The part of `_execute_create` after the callback: charge, then push an address or 0. */
  function FinishCreate(limit: int, st: Machine, reply: CreateReply): (r: Outcome) {
    var charged := Charge(limit, st, reply.gasUsed);
    if !charged.Next? then charged
    else Pushed(charged.st, if !reply.success || reply.reverted then 0 else reply.address)
  }

  function ExecCreate(ctx: Context, limit: int, st: Machine, op: Byte): (r: Outcome)
    requires IsCreate(op)
  {
    var s := if op == 0xF5 then 1 else 0;
    if |st.stack| < 3 + s then Raise(StackUnderflow)
    else if ctx.contractCreate.None? then Pushed(Popped(st, 3 + s), 0)
    else
      var size, offset, value := Top(st, s), Top(st, s + 1), Top(st, s + 2);
      var salt := if s == 1 then Some(Top(st, 0) as int) else None;
      var memory := Extend(st.memory, offset, size);
      var request := CreateRequest(Slice(memory, offset, size), value, salt);
      FinishCreate(limit, Popped(st, 3 + s).(memory := memory), ctx.contractCreate.value(|st.trace|, request))
  }

  /** The part of `_execute_call` after the callee's gas was charged. */
  function SettleCall(st: Machine, mode: CallMode, retOffset: nat, retSize: nat, reply: CallReply): (r: Outcome)
  {
    var storage := if (mode == Delegate || mode == Code) && reply.storage.Some?
                   then reply.storage.value else st.storage;
    var chunk := Slice(reply.returnData, 0, retSize);
    var memory := Splice(Extend(st.memory, retOffset, retSize), retOffset, |chunk|, chunk);
    Pushed(st.(returnData := reply.returnData, storage := storage, memory := memory),
           if reply.success && !reply.reverted then 1 else 0)
  }

  function FinishCall(limit: int, st: Machine, mode: CallMode, callGas: nat, retOffset: nat, retSize: nat,
                      reply: CallReply): (r: Outcome)
  {
    var charged := Charge(limit, st, if reply.gasUsed < callGas then reply.gasUsed else callGas);
    if !charged.Next? then charged else SettleCall(charged.st, mode, retOffset, retSize, reply)
  }

  function ExecCall(ctx: Context, limit: int, st: Machine, op: Byte): (r: Outcome)
    requires IsCall(op)
  {
    var mode := ModeOf(op);
    var v := if mode == Plain || mode == Code then 1 else 0;  // CALL and CALLCODE also pop a value
    if |st.stack| < 6 + v then Raise(StackUnderflow)
    else if ctx.contractCall.None? then Pushed(Popped(st, 6 + v).(returnData := []), 0)
    else
      var value := if v == 1 then Top(st, 2) else 0;
      var memory := Extend(st.memory, Top(st, 2 + v), Top(st, 3 + v));
      var callGas := CallGas(limit, st.gasUsed, Top(st, 0), value, mode);
      var request := CallRequest(Top(st, 1) % ADDRESS_SPACE, Slice(memory, Top(st, 2 + v), Top(st, 3 + v)),
                                 value, callGas, mode);
      FinishCall(limit, Popped(st, 6 + v).(memory := memory), mode, callGas, Top(st, 4 + v), Top(st, 5 + v),
                 ctx.contractCall.value(|st.trace|, request))
  }

  function ExecStop(st: Machine, op: Byte): (r: Outcome)
    requires IsStop(op)
  {
    if op == 0x00 then Halt(st.(running := false))
    else if op == 0xFF then
      if |st.stack| < 1 then Raise(StackUnderflow) else Halt(Popped(st, 1).(running := false))
    else if |st.stack| < 2 then Raise(StackUnderflow)
    else
      var offset, size := Top(st, 0), Top(st, 1);
      var memory := Extend(st.memory, offset, size);
      Halt(Popped(st, 2).(memory := memory, returnData := Slice(memory, offset, size),
                          reverted := op == 0xFD, running := false))
  }

  function ExecWord(ctx: Context, limit: int, code: seq<Byte>, st: Machine, op: Byte): (r: Outcome)
    requires IsWordOp(op)
  {
    if IsPush(op) then ExecPush(code, st, op)
    else if IsBinary(op) || IsUnary(op) then ExecAlu(st, op)
    else if IsReader(op) then Pushed(st, ReadEnvironment(ctx, limit, code, st, op))
    else if IsQuery(op) then ExecQuery(ctx, st, op)
    else if op == 0x20 then ExecSha3(ctx, st)
    else if op == 0x50 then (if |st.stack| < 1 then Raise(StackUnderflow) else Advance(Popped(st, 1)))
    else Advance(st)
  }

  function Exec(ctx: Context, limit: int, code: seq<Byte>, st: Machine, op: Byte): (r: Outcome) {
    if IsWordOp(op) then ExecWord(ctx, limit, code, st, op)
    else if IsCopy(op) then ExecCopy(ctx, code, st, op)
    else if op == 0x3C then ExecExtCodeCopy(ctx, st)
    else if IsLog(op) then ExecLog(limit, st, op)
    else if IsStore(op) then ExecStore(st, op)
    else if IsJump(op) then ExecJump(code, st, op)
    else if IsDup(op) || IsSwap(op) then ExecDupSwap(st, op)
    else if IsCreate(op) then ExecCreate(ctx, limit, st, op)
    else if IsCall(op) then ExecCall(ctx, limit, st, op)
    else if IsStop(op) then ExecStop(st, op)
    else if op == 0xFE then Raise(InvalidOpcode)
    else Raise(Unsupported(op))
  }

  /** Gas for the opcode (the LOG family pays inside its branch) and a trace entry. */
  function Fetch(limit: int, st: Machine, op: Byte): (r: Outcome) {
    var cost := if IsLog(op) then 0 else GasCost(op);
    if !IsLog(op) && st.gasUsed + cost > limit then Raise(OutOfGas)
    else Next(st.(gasUsed := st.gasUsed + cost,
                  trace := st.trace + [TraceEntry(st.pc, op, |st.stack|)]))
  }

  function Step(ctx: Context, limit: int, code: seq<Byte>, st: Machine): (r: Outcome)
    requires st.pc < |code|
  {
    var op := code[st.pc];
    match Fetch(limit, st, op)
    case Raise(f) => Raise(f)
    case Halt(s) => Halt(s)
    case Next(s) => Exec(ctx, limit, code, s, op)
  }
}
