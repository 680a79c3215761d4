/**
 What one turn of the loop does, opcode by opcode, in plain arithmetic on the stack, the memory
 and the environment. Nothing here is stated through the functions that compute the branches.
 */
module EvmSteps {
  import opened Wrappers
  import opened EvmWords
  import opened EvmMachine
  import opened EvmPrices

  // ----- reading states -----

  /** The machine is at opcode `op` and can pay for it. */
  ghost predicate Ready(limit: int, code: seq<Byte>, st: Machine, op: Byte) {
    st.pc < |code| && code[st.pc] == op && st.gasUsed + Price(NameOf(op)) <= limit
  }

  /** After the price was paid and the trace entry written. */
  function Charged(st: Machine, op: Byte): Machine {
    st.(gasUsed := st.gasUsed + Price(NameOf(op)), trace := st.trace + [TraceEntry(st.pc, op, |st.stack|)])
  }

  /** The byte at an address; memory is zero beyond its end. */
  function ByteAt(memory: seq<Byte>, i: nat): Byte {
    if i < |memory| then memory[i] else 0
  }

  function BytesAt(memory: seq<Byte>, offset: nat, size: nat): (s: seq<Byte>)
    ensures |s| == size
  {
    seq<Byte>(size, i requires 0 <= i < size => ByteAt(memory, offset + i))
  }

  lemma SliceIsBytes(memory: seq<Byte>, offset: nat, size: nat)
    ensures Slice(Extend(memory, offset, size), offset, size) == BytesAt(memory, offset, size)
    ensures Extend(memory, offset, size)[offset..offset + size] == BytesAt(memory, offset, size)
  {
    var grown := Extend(memory, offset, size);
    var a, b := grown[offset..offset + size], BytesAt(memory, offset, size);
    forall i | 0 <= i < size ensures a[i] == b[i] {
      assert a[i] == grown[offset + i] && b[i] == ByteAt(memory, offset + i);
    }
    assert a == b;
    assert Slice(grown, offset, size) == a;
  }

  lemma PaddedBytes(data: seq<Byte>, at: nat, n: nat)
    ensures PadRight(Slice(data, at, n), n) == BytesAt(data, at, n)
  {
    var s, p := Slice(data, at, n), PadRight(Slice(data, at, n), n);
    forall i | 0 <= i < n ensures p[i] == ByteAt(data, at + i) {
      if i < |s| { assert p[i] == s[i]; }
    }
  }

  /** Memory grown with zeros to hold the range. */
  ghost predicate Grown(before: seq<Byte>, after: seq<Byte>, offset: nat, size: nat) {
    && |after| == (if offset + size > |before| then offset + size else |before|)
    && forall i :: 0 <= i < |after| ==> after[i] == ByteAt(before, i)
  }

  lemma ExtendGrows(memory: seq<Byte>, offset: nat, size: nat)
    ensures Grown(memory, Extend(memory, offset, size), offset, size)
  {
  }

  /** A stack of the form rest + args: the operands, top first, and what is left below. */
  lemma Operands(st: Machine, rest: seq<Word>, args: seq<Word>)
    requires st.stack == rest + args
    ensures |st.stack| == |rest| + |args| && Dropped(st, |args|) == rest
    ensures forall i :: 0 <= i < |args| ==> Top(st, i) == args[|args| - 1 - i]
  {
  }

  /** A turn pays the opcode's price, traces pc, opcode and stack depth, and then runs the branch. */
  lemma StepRunsBranch(ctx: Context, limit: int, code: seq<Byte>, st: Machine, op: Byte)
    requires Ready(limit, code, st, op) && !IsLog(op)
    ensures Step(ctx, limit, code, st) == Exec(ctx, limit, code, Charged(st, op), op)
  {
    hide Exec, GasCost, Price, NameOf;
    GasCostIsLookup(op);
  }

  /** Which branch an opcode of the word family takes. */
  lemma WordBranch(ctx: Context, limit: int, code: seq<Byte>, s: Machine, op: Byte)
    requires IsWordOp(op)
    ensures Exec(ctx, limit, code, s, op) == ExecWord(ctx, limit, code, s, op)
    ensures IsBinary(op) || IsUnary(op) ==> ExecWord(ctx, limit, code, s, op) == ExecAlu(s, op)
    ensures IsReader(op) ==> ExecWord(ctx, limit, code, s, op) == Pushed(s, ReadEnvironment(ctx, limit, code, s, op))
    ensures IsQuery(op) ==> ExecWord(ctx, limit, code, s, op) == ExecQuery(ctx, s, op)
  {
    hide ExecAlu, ExecQuery, ExecSha3, ExecPush, Pushed, ReadEnvironment, ExecCopy, ExecExtCodeCopy, ExecLog, ExecStore,
      ExecJump, ExecDupSwap, ExecCreate, ExecCall, ExecStop, Advance;
  }

  /** Which branch the other opcodes take. */
  lemma OtherBranch(ctx: Context, limit: int, code: seq<Byte>, s: Machine, op: Byte)
    requires !IsWordOp(op)
    ensures IsCopy(op) ==> Exec(ctx, limit, code, s, op) == ExecCopy(ctx, code, s, op)
    ensures op == 0x3C ==> Exec(ctx, limit, code, s, op) == ExecExtCodeCopy(ctx, s)
    ensures IsLog(op) ==> Exec(ctx, limit, code, s, op) == ExecLog(limit, s, op)
    ensures IsStore(op) ==> Exec(ctx, limit, code, s, op) == ExecStore(s, op)
    ensures IsJump(op) ==> Exec(ctx, limit, code, s, op) == ExecJump(code, s, op)
    ensures IsDup(op) || IsSwap(op) ==> Exec(ctx, limit, code, s, op) == ExecDupSwap(s, op)
    ensures IsCreate(op) ==> Exec(ctx, limit, code, s, op) == ExecCreate(ctx, limit, s, op)
    ensures IsCall(op) ==> Exec(ctx, limit, code, s, op) == ExecCall(ctx, limit, s, op)
    ensures IsStop(op) ==> Exec(ctx, limit, code, s, op) == ExecStop(s, op)
  {
    hide IsWordOp, ExecWord, ExecCopy, ExecExtCodeCopy, ExecLog, ExecStore, ExecJump, ExecDupSwap, ExecCreate, ExecCall, ExecStop;
  }

  /** Without the price, nothing happens but the exception. */
  lemma StepOutOfGas(ctx: Context, limit: int, code: seq<Byte>, st: Machine)
    requires st.pc < |code| && !(0xA0 <= code[st.pc] <= 0xA4)
    requires st.gasUsed + Price(NameOf(code[st.pc])) > limit
    ensures Step(ctx, limit, code, st) == Raise(OutOfGas)
  {
    hide Exec, GasCost, Price, NameOf;
    GasCostIsLookup(code[st.pc]);
  }

  /** The result of an opcode that replaces its operands by one word. */
  function Pushes(st: Machine, op: Byte, rest: seq<Word>, w: int): Outcome {
    Next(Charged(st, op).(pc := st.pc + 1, stack := rest + [w % WORD]))
  }

  lemma WordIs()
    ensures WORD == Pow256(32) && ADDRESS_SPACE == Pow256(20)
  {
    WordFitsInBytes();
    assert Pow256(4) == 0x1_0000_0000;
    Pow256Sum(4, 4);
    Pow256Sum(8, 8);
    Pow256Sum(16, 4);
  }

  // ----- arithmetic -----

  lemma BinaryIsWord(op: Byte)
    requires IsBinary(op)
    ensures IsWordOp(op) && !IsLog(op)
  {
  }

  lemma StepAlu2(ctx: Context, limit: int, code: seq<Byte>, st: Machine, op: Byte, rest: seq<Word>, a: Word, b: Word)
    requires Ready(limit, code, st, op) && IsBinary(op) && st.stack == rest + [b, a]
    ensures Step(ctx, limit, code, st) == Pushes(st, op, rest, Alu2(op, a, b))
  {
    hide Price, NameOf, Alu2, Exec, ExecWord, IsBinary, Step;
    var s := Charged(st, op);
    assert IsWordOp(op) && !IsLog(op) by { BinaryIsWord(op); }
    StepRunsBranch(ctx, limit, code, st, op);
    WordBranch(ctx, limit, code, s, op);
    Operands(s, rest, [b, a]);
    hide Top, Dropped;
  }

  /** ADD, MUL, SUB, DIV, MOD: the first operand is on top; division by zero gives zero. */
  lemma StepArithmetic(ctx: Context, limit: int, code: seq<Byte>, st: Machine, op: Byte, rest: seq<Word>, a: Word, b: Word)
    requires Ready(limit, code, st, op) && st.stack == rest + [b, a]
    ensures op == 0x01 ==> Step(ctx, limit, code, st) == Pushes(st, op, rest, a + b)
    ensures op == 0x02 ==> Step(ctx, limit, code, st) == Pushes(st, op, rest, a * b)
    ensures op == 0x03 ==> Step(ctx, limit, code, st) == Pushes(st, op, rest, a - b)
    ensures op == 0x04 ==> Step(ctx, limit, code, st) == Pushes(st, op, rest, if b == 0 then 0 else a / b)
    ensures op == 0x06 ==> Step(ctx, limit, code, st) == Pushes(st, op, rest, if b == 0 then 0 else a % b)
  {
    hide Price, NameOf, Step;
    if IsBinary(op) { StepAlu2(ctx, limit, code, st, op, rest, a, b); }
  }

  /** EQ, LT and GT compare the top with the entry below it. */
  lemma StepCompare(ctx: Context, limit: int, code: seq<Byte>, st: Machine, op: Byte, rest: seq<Word>, a: Word, b: Word)
    requires Ready(limit, code, st, op) && st.stack == rest + [b, a]
    ensures op == 0x14 ==> Step(ctx, limit, code, st) == Pushes(st, op, rest, if a == b then 1 else 0)
    ensures op == 0x16 ==> Step(ctx, limit, code, st) == Pushes(st, op, rest, if a < b then 1 else 0)
    ensures op == 0x17 ==> Step(ctx, limit, code, st) == Pushes(st, op, rest, if a > b then 1 else 0)
  {
    hide Price, NameOf, Step;
    if IsBinary(op) { StepAlu2(ctx, limit, code, st, op, rest, a, b); }
  }

  /** BYTE takes the index from the top; SHL and SHR take the shift from the top. */
  lemma StepShift(ctx: Context, limit: int, code: seq<Byte>, st: Machine, op: Byte, rest: seq<Word>, a: Word, b: Word)
    requires Ready(limit, code, st, op) && st.stack == rest + [b, a]
    ensures op == 0x1A ==> Step(ctx, limit, code, st) == Pushes(st, op, rest, if a < 32 then ToBytes(32, b)[a] else 0)
    ensures op == 0x1B ==> Step(ctx, limit, code, st) == Pushes(st, op, rest, b * Pow2(a))
    ensures op == 0x1C ==> Step(ctx, limit, code, st) == Pushes(st, op, rest, b / Pow2(a))
  {
    if op == 0x1A { ByteOpcodeMeaning(a, b); }
    hide Price, NameOf, Step, Pow2, ToBytes;
    if IsBinary(op) { StepAlu2(ctx, limit, code, st, op, rest, a, b); }
  }

  /** Reducing modulo 2^n keeps the n lowest bits. */
  lemma {:induction false} LowBits(x: nat, n: nat, i: nat)
    requires i < n
    ensures x % Pow2(n) >= 0 && Bit(x % Pow2(n), i) == Bit(x, i)
    decreases i
  {
    var p, r := Pow2(n - 1), x % Pow2(n);
    HalfOfRemainder(x, p);
    if i > 0 { LowBits(x / 2, n - 1, i - 1); }
  }

  lemma HalfOfRemainder(x: nat, p: int)
    requires p >= 1
    ensures x % (2 * p) >= 0 && (x % (2 * p)) % 2 == x % 2 && (x % (2 * p)) / 2 == (x / 2) % p
  {
    var q, r := x / (2 * p), x % (2 * p);
    assert x == 2 * (p * q) + r && 0 <= r < 2 * p;
    assert x / 2 == p * q + r / 2 && 0 <= r / 2 < p;
    QuotientIs(x / 2, p, q, r / 2);
    assert (x / 2) % p == x / 2 - p * ((x / 2) / p);
  }

  lemma WordBits(x: nat, i: nat)
    requires i < 256
    ensures Bit(x % WORD, i) == Bit(x, i)
  {
    Pow2OfBytes(32);
    WordFitsInBytes();
    LowBits(x, 256, i);
  }

  /** AND, OR and XOR act on each of the 256 bits. */
  lemma StepBitwise(ctx: Context, limit: int, code: seq<Byte>, st: Machine, op: Byte, rest: seq<Word>, a: Word, b: Word, i: nat)
    requires Ready(limit, code, st, op) && st.stack == rest + [b, a] && i < 256 && (op == 0x10 || op == 0x11 || op == 0x12)
    ensures var r := Step(ctx, limit, code, st);
            && r.Next? && |r.st.stack| == |rest| + 1 && r.st.stack[..|rest|] == rest && r.st.pc == st.pc + 1
            && (op == 0x10 ==> (Bit(r.st.stack[|rest|], i) <==> Bit(a, i) && Bit(b, i)))
            && (op == 0x11 ==> (Bit(r.st.stack[|rest|], i) <==> Bit(a, i) || Bit(b, i)))
            && (op == 0x12 ==> (Bit(r.st.stack[|rest|], i) <==> Bit(a, i) != Bit(b, i)))
  {
    hide Price, NameOf, Step, Bit, Bitwise;
    StepAlu2(ctx, limit, code, st, op, rest, a, b);
    var gate := if op == 0x10 then And else if op == 0x11 then Or else Xor;
    BitwiseMeaning(gate, a, b, i);
    WordBits(Bitwise(gate, a, b), i);
  }

  /** ISZERO and NOT. */
  lemma StepUnary(ctx: Context, limit: int, code: seq<Byte>, st: Machine, op: Byte, rest: seq<Word>, a: Word)
    requires Ready(limit, code, st, op) && st.stack == rest + [a]
    ensures op == 0x15 ==> Step(ctx, limit, code, st) == Pushes(st, op, rest, if a == 0 then 1 else 0)
    ensures op == 0x19 ==> Step(ctx, limit, code, st) == Pushes(st, op, rest, WORD - 1 - a)
  {
    hide Price, NameOf, Exec, ExecWord, Step;
    if op == 0x15 || op == 0x19 {
      StepRunsBranch(ctx, limit, code, st, op);
      WordBranch(ctx, limit, code, Charged(st, op), op);
      Operands(Charged(st, op), rest, [a]);
      hide Top, Dropped;
      assert (-1 - a) % WORD == (WORD - 1 - a) % WORD by { SameRemainder(-1 - a); }
    }
  }

  lemma SameRemainder(x: int)
    ensures x % WORD == (x + WORD) % WORD
  {
  }

  // ----- reading the environment -----

  lemma StepReaderIs(ctx: Context, limit: int, code: seq<Byte>, st: Machine, op: Byte)
    requires Ready(limit, code, st, op) && IsReader(op)
    ensures Step(ctx, limit, code, st) == Pushes(st, op, st.stack, ReadEnvironment(ctx, limit, code, Charged(st, op), op))
  {
    hide Price, NameOf, ReadEnvironment, Exec, ExecWord, Step;
    assert IsWordOp(op) && !IsLog(op);
    hide IsReader;
    StepRunsBranch(ctx, limit, code, st, op);
    WordBranch(ctx, limit, code, Charged(st, op), op);
  }

  /** The opcodes without operands push what the context, the code or the machine says. */
  lemma StepReader(ctx: Context, limit: int, code: seq<Byte>, st: Machine, op: Byte)
    requires Ready(limit, code, st, op)
    ensures op == 0x30 ==> Step(ctx, limit, code, st) == Pushes(st, op, st.stack, ctx.address)
    ensures op == 0x32 ==> Step(ctx, limit, code, st) == Pushes(st, op, st.stack, ctx.origin)
    ensures op == 0x33 ==> Step(ctx, limit, code, st) == Pushes(st, op, st.stack, ctx.caller)
    ensures op == 0x34 ==> Step(ctx, limit, code, st) == Pushes(st, op, st.stack, ctx.value)
    ensures op == 0x36 ==> Step(ctx, limit, code, st) == Pushes(st, op, st.stack, |ctx.calldata|)
    ensures op == 0x38 ==> Step(ctx, limit, code, st) == Pushes(st, op, st.stack, |code|)
    ensures op == 0x3D ==> Step(ctx, limit, code, st) == Pushes(st, op, st.stack, |st.returnData|)
    ensures op == 0x42 ==> Step(ctx, limit, code, st) == Pushes(st, op, st.stack, ctx.timestamp)
    ensures op == 0x43 ==> Step(ctx, limit, code, st) == Pushes(st, op, st.stack, ctx.blockNumber)
    ensures op == 0x45 ==> Step(ctx, limit, code, st) == Pushes(st, op, st.stack, limit)
    ensures op == 0x46 ==> Step(ctx, limit, code, st) == Pushes(st, op, st.stack, ctx.chainId)
    ensures op == 0x5A ==> Step(ctx, limit, code, st) == Pushes(st, op, st.stack, limit - st.gasUsed - 2)
    ensures op == 0x5F ==> Step(ctx, limit, code, st) == Pushes(st, op, st.stack, 0)
  {
    hide Step, Pushes;
    if IsReader(op) { StepReaderIs(ctx, limit, code, st, op); }
  }

  lemma StepQueryIs(ctx: Context, limit: int, code: seq<Byte>, st: Machine, op: Byte, rest: seq<Word>, x: Word)
    requires Ready(limit, code, st, op) && IsQuery(op) && st.stack == rest + [x]
    ensures Step(ctx, limit, code, st) ==
              Next(Charged(st, op).(pc := st.pc + 1, stack := rest + [Answer(ctx, Charged(st, op), op, x) % WORD],
                                    memory := if op == 0x51 then Extend(st.memory, x, 32) else st.memory))
  {
    hide Price, NameOf, Answer, Extend, Exec, ExecWord, Step;
    assert IsWordOp(op) && !IsLog(op);
    hide IsQuery;
    StepRunsBranch(ctx, limit, code, st, op);
    WordBranch(ctx, limit, code, Charged(st, op), op);
    Operands(Charged(st, op), rest, [x]);
    hide Top, Dropped;
  }

  /** The word asked about is on top; callbacks see how many opcodes have been started. */
  lemma StepQuery(ctx: Context, limit: int, code: seq<Byte>, st: Machine, op: Byte, rest: seq<Word>, x: Word)
    requires Ready(limit, code, st, op) && st.stack == rest + [x]
    ensures var now, step := |st.trace| + 1, Step(ctx, limit, code, st);
            && (op == 0x31 ==> step == Pushes(st, op, rest,
                  if ctx.balanceOf.Some? then ctx.balanceOf.value(now, x % ADDRESS_SPACE) else 0))
            && (op == 0x35 ==> step == Pushes(st, op, rest, FromBytes(BytesAt(ctx.calldata, x, 32))))
            && (op == 0x3B ==> step == Pushes(st, op, rest,
                  if ctx.codeSizeOf.Some? then ctx.codeSizeOf.value(now, x % ADDRESS_SPACE) else 0))
            && (op == 0x40 ==> step == Pushes(st, op, rest,
                  if ctx.blockHashOf.Some? then ctx.blockHashOf.value(now, x) else 0))
            && (op == 0x54 ==> step == Pushes(st, op, rest, if x in st.storage then st.storage[x] else 0))
  {
    hide Step, Price, NameOf, FromBytes, Slice, Extend;
    if op == 0x31 || op == 0x35 || op == 0x3B || op == 0x40 || op == 0x54 {
      StepQueryIs(ctx, limit, code, st, op, rest, x);
      PaddedBytes(ctx.calldata, x, 32);
    }
  }

  /** MLOAD pushes the 32 bytes at the offset and grows memory to hold them. */
  lemma StepMload(ctx: Context, limit: int, code: seq<Byte>, st: Machine, rest: seq<Word>, x: Word)
    requires Ready(limit, code, st, 0x51) && st.stack == rest + [x]
    ensures var r := Step(ctx, limit, code, st);
            && r.Next? && r.st.stack == rest + [FromBytes(BytesAt(st.memory, x, 32)) % WORD] && r.st.pc == st.pc + 1
            && Grown(st.memory, r.st.memory, x, 32)
            && r == Next(Charged(st, 0x51).(pc := r.st.pc, stack := r.st.stack, memory := r.st.memory))
  {
    hide Step, Price, NameOf, FromBytes, Slice, Extend, Grown;
    StepQueryIs(ctx, limit, code, st, 0x51, rest, x);
    SliceIsBytes(st.memory, x, 32);
    ExtendGrows(st.memory, x, 32);
  }

  /** SHA3 hashes size bytes from the offset on top. */
  lemma StepSha3(ctx: Context, limit: int, code: seq<Byte>, st: Machine, rest: seq<Word>, offset: Word, size: Word)
    requires Ready(limit, code, st, 0x20) && st.stack == rest + [size, offset]
    ensures var r := Step(ctx, limit, code, st);
            && r.Next? && r.st.stack == rest + [ctx.sha3(BytesAt(st.memory, offset, size)) % WORD]
            && r.st.pc == st.pc + 1 && Grown(st.memory, r.st.memory, offset, size)
            && r == Next(Charged(st, 0x20).(pc := r.st.pc, stack := r.st.stack, memory := r.st.memory))
  {
    hide Price, NameOf, Slice, Extend, Grown, Exec, Step;
    StepRunsBranch(ctx, limit, code, st, 0x20);
    WordBranch(ctx, limit, code, Charged(st, 0x20), 0x20);
    Operands(Charged(st, 0x20), rest, [size, offset]);
    SliceIsBytes(st.memory, offset, size);
    ExtendGrows(st.memory, offset, size);
  }

  // ----- stack and jumps -----

  /** POP drops the top, JUMPDEST does nothing, PUSHn pushes its immediate and skips it. */
  lemma StepStack(ctx: Context, limit: int, code: seq<Byte>, st: Machine, op: Byte)
    requires Ready(limit, code, st, op)
    ensures op == 0x50 && st.stack != [] ==>
              Step(ctx, limit, code, st) == Next(Charged(st, op).(pc := st.pc + 1, stack := st.stack[..|st.stack| - 1]))
    ensures op == 0x5B ==> Step(ctx, limit, code, st) == Next(Charged(st, op).(pc := st.pc + 1))
    ensures 0x60 <= op <= 0x7F ==>
              var n := op - 0x5F;
              Step(ctx, limit, code, st) ==
                Next(Charged(st, op).(pc := st.pc + 1 + n, stack := st.stack + [FromBytes(BytesAt(code, st.pc + 1, n)) % WORD]))
  {
    hide Price, NameOf, FromBytes, Slice, Exec, Step, PadRight;
    if op == 0x50 || op == 0x5B || IsPush(op) {
      StepRunsBranch(ctx, limit, code, st, op);
      WordBranch(ctx, limit, code, Charged(st, op), op);
      if IsPush(op) { PaddedBytes(code, st.pc + 1, op - 0x5F); }
    }
  }

  /** DUPn copies the n-th entry from the top; SWAPn exchanges the top with the n-th below it. */
  lemma StepDupSwap(ctx: Context, limit: int, code: seq<Byte>, st: Machine, op: Byte)
    requires Ready(limit, code, st, op)
    ensures 0x80 <= op <= 0x8F && |st.stack| >= op - 0x7F ==>
              Step(ctx, limit, code, st) == Pushes(st, op, st.stack, st.stack[|st.stack| - (op - 0x7F)])
    ensures 0x90 <= op <= 0x9F && |st.stack| >= op - 0x8E ==>
              var top, n := |st.stack| - 1, op - 0x8F;
              Step(ctx, limit, code, st) ==
                Next(Charged(st, op).(pc := st.pc + 1, stack := st.stack[top := st.stack[top - n]][top - n := st.stack[top]]))
  {
    hide Price, NameOf, Exec, Step;
    if IsDup(op) || IsSwap(op) {
      StepRunsBranch(ctx, limit, code, st, op);
      OtherBranch(ctx, limit, code, Charged(st, op), op);
    }
  }

  /** JUMP goes to the destination on top exactly if it holds a 0x5B byte, and raises otherwise. */
  lemma StepJump(ctx: Context, limit: int, code: seq<Byte>, st: Machine, rest: seq<Word>, dest: Word)
    requires Ready(limit, code, st, 0x56) && st.stack == rest + [dest]
    ensures Step(ctx, limit, code, st) ==
              if dest < |code| && code[dest] == 0x5B then Next(Charged(st, 0x56).(pc := dest, stack := rest))
              else Raise(BadJump(dest))
  {
    hide Price, NameOf, Exec, Step;
    StepRunsBranch(ctx, limit, code, st, 0x56);
    OtherBranch(ctx, limit, code, Charged(st, 0x56), 0x56);
    Operands(Charged(st, 0x56), rest, [dest]);
  }

  /**
   JUMPI with condition 0 falls through, whatever the destination; otherwise it jumps exactly if
   the destination holds a 0x5B byte, and raises if not.
   */
  lemma StepJumpi(ctx: Context, limit: int, code: seq<Byte>, st: Machine, rest: seq<Word>, dest: Word, condition: Word)
    requires Ready(limit, code, st, 0x57) && st.stack == rest + [condition, dest]
    ensures Step(ctx, limit, code, st) ==
              if condition == 0 then Next(Charged(st, 0x57).(pc := st.pc + 1, stack := rest))
              else if dest < |code| && code[dest] == 0x5B then Next(Charged(st, 0x57).(pc := dest, stack := rest))
              else Raise(BadJump(dest))
  {
    hide Price, NameOf, Exec, Step;
    StepRunsBranch(ctx, limit, code, st, 0x57);
    OtherBranch(ctx, limit, code, Charged(st, 0x57), 0x57);
    Operands(Charged(st, 0x57), rest, [condition, dest]);
  }

  // ----- memory and storage -----

  /** `after` is `before`, grown, with the chunk written at the offset. */
  ghost predicate Written(before: seq<Byte>, after: seq<Byte>, offset: nat, chunk: seq<Byte>) {
    && |after| == (if offset + |chunk| > |before| then offset + |chunk| else |before|)
    && forall i :: 0 <= i < |after| ==>
         after[i] == if offset <= i < offset + |chunk| then chunk[i - offset] else ByteAt(before, i)
  }

  lemma WordIsWritten(memory: seq<Byte>, offset: nat, value: int)
    ensures Written(memory, WriteWord(memory, offset, value), offset, ToBytes(32, value % WORD))
    ensures Written(memory, Extend(memory, offset, 1)[offset := value % 256], offset, [value % 256])
  {
    hide ToBytes;
  }

  /** MSTORE writes the word's 32 bytes at the offset on top; MSTORE8 its lowest byte. */
  lemma StepMstore(ctx: Context, limit: int, code: seq<Byte>, st: Machine, op: Byte, rest: seq<Word>, offset: Word, value: Word)
    requires Ready(limit, code, st, op) && (op == 0x52 || op == 0x53) && st.stack == rest + [value, offset]
    ensures var r := Step(ctx, limit, code, st);
            && r.Next? && r == Next(Charged(st, op).(pc := st.pc + 1, stack := rest, memory := r.st.memory))
            && Written(st.memory, r.st.memory, offset, if op == 0x52 then ToBytes(32, value % WORD) else [value % 256])
  {
    hide Price, NameOf, Exec, Step, ToBytes, WriteWord, Extend, Written;
    StepRunsBranch(ctx, limit, code, st, op);
    OtherBranch(ctx, limit, code, Charged(st, op), op);
    Operands(Charged(st, op), rest, [value, offset]);
    hide Top, Dropped;
    WordIsWritten(st.memory, offset, value);
  }

  /** SSTORE sets the slot named on top; a zero removes an existing entry. */
  lemma StepSstore(ctx: Context, limit: int, code: seq<Byte>, st: Machine, rest: seq<Word>, key: Word, value: Word)
    requires Ready(limit, code, st, 0x55) && st.stack == rest + [value, key]
    ensures var r := Step(ctx, limit, code, st);
            && r.Next? && r == Next(Charged(st, 0x55).(pc := st.pc + 1, stack := rest, storage := r.st.storage))
            && (key in r.st.storage <==> !(value == 0 && key in st.storage))
            && (key in r.st.storage ==> r.st.storage[key] == value)
            && r.st.storage - {key} == st.storage - {key}
  {
    hide Price, NameOf, Exec, Step;
    StepRunsBranch(ctx, limit, code, st, 0x55);
    OtherBranch(ctx, limit, code, Charged(st, 0x55), 0x55);
    Operands(Charged(st, 0x55), rest, [value, key]);
  }

  /** Python's slice of the data: what there is of the range. */
  function Clamped(data: seq<Byte>, offset: nat, size: nat): seq<Byte> {
    if offset >= |data| then [] else if offset + size > |data| then data[offset..] else data[offset..offset + size]
  }

  /** `after` is `before`, grown to the range, with the whole range replaced by the chunk. */
  ghost predicate Replaced(before: seq<Byte>, after: seq<Byte>, dest: nat, size: nat, chunk: seq<Byte>) {
    exists grown :: Grown(before, grown, dest, size) && after == grown[..dest] + chunk + grown[dest + size..]
  }

  lemma CopyReplaces(memory: seq<Byte>, dest: nat, size: nat, data: seq<Byte>, offset: nat)
    ensures Replaced(memory, CopyIn(memory, dest, size, data, offset), dest, size, Clamped(data, offset, size))
  {
    hide Grown;
    var grown := Extend(memory, dest, size);
    ExtendGrows(memory, dest, size);
    assert Slice(data, offset, size) == Clamped(data, offset, size);
    assert CopyIn(memory, dest, size, data, offset) == grown[..dest] + Clamped(data, offset, size) + grown[dest + size..];
  }

  /**
   The copy opcodes take destination, offset and size from the top and replace the size bytes at
   the destination by what there is of the range in call data, code or return data.
   */
  lemma StepCopy(ctx: Context, limit: int, code: seq<Byte>, st: Machine, op: Byte, rest: seq<Word>,
                 dest: Word, offset: Word, size: Word, data: seq<Byte>)
    requires Ready(limit, code, st, op) && st.stack == rest + [size, offset, dest]
    requires (op == 0x37 && data == ctx.calldata) || (op == 0x39 && data == code) || (op == 0x3E && data == st.returnData)
    ensures var r := Step(ctx, limit, code, st);
            && r.Next? && r == Next(Charged(st, op).(pc := st.pc + 1, stack := rest, memory := r.st.memory))
            && Replaced(st.memory, r.st.memory, dest, size, Clamped(data, offset, size))
  {
    hide Price, NameOf, Exec, Step, CopyIn, Replaced;
    var s := Charged(st, op);
    StepRunsBranch(ctx, limit, code, st, op);
    OtherBranch(ctx, limit, code, s, op);
    Operands(s, rest, [size, offset, dest]);
    assert Top(s, 0) == dest && Top(s, 1) == offset && Top(s, 2) == size;
    hide Top, Dropped;
    CopyReplaces(st.memory, dest, size, data, offset);
  }

  /** EXTCODECOPY takes code offset, memory offset, size and address from the top, and writes the whole answer. */
  lemma StepExtCodeCopy(ctx: Context, limit: int, code: seq<Byte>, st: Machine, rest: seq<Word>,
                        codeOffset: Word, dest: Word, size: Word, who: Word)
    requires Ready(limit, code, st, 0x3C) && st.stack == rest + [who, size, dest, codeOffset]
    ensures var r := Step(ctx, limit, code, st);
            var chunk := if ctx.codeCopyOf.None? then []
                         else ctx.codeCopyOf.value(|st.trace| + 1, who % ADDRESS_SPACE, codeOffset, size);
            && r.Next? && r == Next(Charged(st, 0x3C).(pc := st.pc + 1, stack := rest, memory := r.st.memory))
            && Written(st.memory, r.st.memory, dest, chunk)
  {
    hide Price, NameOf, Exec, Step, Extend, Splice, Written;
    var s := Charged(st, 0x3C);
    StepRunsBranch(ctx, limit, code, st, 0x3C);
    OtherBranch(ctx, limit, code, s, 0x3C);
    Operands(s, rest, [who, size, dest, codeOffset]);
    assert Top(s, 0) == codeOffset && Top(s, 1) == dest && Top(s, 2) == size && Top(s, 3) == who && Dropped(s, 4) == rest;
    hide Top, Dropped;
    ChunkIsWritten(st.memory, dest, if ctx.codeCopyOf.None? then []
                                    else ctx.codeCopyOf.value(|st.trace| + 1, who % ADDRESS_SPACE, codeOffset, size));
  }

  lemma ChunkIsWritten(memory: seq<Byte>, offset: nat, chunk: seq<Byte>)
    ensures Written(memory, Splice(Extend(memory, offset, |chunk|), offset, |chunk|, chunk), offset, chunk)
  {
  }

  /**
   LOGn pays 375 for the entry and for each topic and 1 per byte inside its branch, and records
   the topics in the order they were pushed with the bytes of the range.
   */
  lemma StepLog(ctx: Context, limit: int, code: seq<Byte>, st: Machine, n: nat, rest: seq<Word>,
                topics: seq<Word>, offset: Word, size: Word)
    requires n <= 4 && st.pc < |code| && code[st.pc] == 0xA0 + n && |topics| == n
    requires st.stack == rest + [offset, size] + topics
    ensures var r, cost := Step(ctx, limit, code, st), 375 * (n + 1) + size;
            if st.gasUsed + cost > limit then r == Raise(OutOfGas)
            else
              && r.Next? && Grown(st.memory, r.st.memory, offset, size)
              && r == Next(st.(pc := st.pc + 1, stack := rest, gasUsed := st.gasUsed + cost, memory := r.st.memory,
                               trace := st.trace + [TraceEntry(st.pc, 0xA0 + n, |st.stack|)],
                               logs := st.logs + [LogEntry(topics, BytesAt(st.memory, offset, size))]))
  {
    hide Exec, Extend, Slice, Grown;
    var op := 0xA0 + n;
    var s := st.(trace := st.trace + [TraceEntry(st.pc, op, |st.stack|)]);
    assert Fetch(limit, st, op) == Next(s);
    OtherBranch(ctx, limit, code, s, op);
    Operands(s, rest, [offset, size] + topics);
    assert st.stack == rest + ([offset, size] + topics);
    assert st.stack[|st.stack| - n..] == topics;
    SliceIsBytes(st.memory, offset, size);
    ExtendGrows(st.memory, offset, size);
  }

  // ----- ends -----

  /** STOP, RETURN, REVERT and SELFDESTRUCT end the run; INVALID and unknown opcodes raise. */
  lemma StepEnds(ctx: Context, limit: int, code: seq<Byte>, st: Machine, op: Byte)
    requires Ready(limit, code, st, op)
    ensures op == 0x00 ==> Step(ctx, limit, code, st) == Halt(Charged(st, op).(running := false))
    ensures op == 0xFF && st.stack != [] ==>
              Step(ctx, limit, code, st) == Halt(Charged(st, op).(running := false, stack := st.stack[..|st.stack| - 1]))
    ensures op == 0xFE ==> Step(ctx, limit, code, st) == Raise(InvalidOpcode)
    ensures NameOf(op).UNKNOWN? && !(0xA1 <= op <= 0xA4) ==> Step(ctx, limit, code, st) == Raise(Unsupported(op))
  {
    hide Price, Step, ExecWord, ExecCopy, ExecExtCodeCopy, ExecLog, ExecStore, ExecJump, ExecDupSwap, ExecCreate, ExecCall;
    if op == 0x00 || op == 0xFF || op == 0xFE {
      StepRunsBranch(ctx, limit, code, st, op);
    } else if NameOf(op).UNKNOWN? && !(0xA1 <= op <= 0xA4) {
      UnknownIsUnimplemented(op);
      hide NameOf;
      StepRunsBranch(ctx, limit, code, st, op);
    }
  }

  lemma UnknownIsUnimplemented(op: Byte)
    requires NameOf(op).UNKNOWN?
    ensures !Implemented(op) || 0xA1 <= op <= 0xA4
  {
  }

  /** RETURN and REVERT hand over the bytes of the range given by the two top entries. */
  lemma StepReturn(ctx: Context, limit: int, code: seq<Byte>, st: Machine, op: Byte, rest: seq<Word>, offset: Word, size: Word)
    requires Ready(limit, code, st, op) && (op == 0xF3 || op == 0xFD) && st.stack == rest + [size, offset]
    ensures var r := Step(ctx, limit, code, st);
            && r.Halt? && Grown(st.memory, r.st.memory, offset, size)
            && r == Halt(Charged(st, op).(running := false, reverted := op == 0xFD, stack := rest, memory := r.st.memory,
                                          returnData := BytesAt(st.memory, offset, size)))
  {
    hide Price, NameOf, Exec, Step, Extend, Slice, Grown;
    StepRunsBranch(ctx, limit, code, st, op);
    OtherBranch(ctx, limit, code, Charged(st, op), op);
    Operands(Charged(st, op), rest, [size, offset]);
    hide Top, Dropped;
    SliceIsBytes(st.memory, offset, size);
    ExtendGrows(st.memory, offset, size);
  }

  // ----- calls and creations -----

  /** Everything but a 64th of the remaining gas, rounded down in favour of the caller. */
  ghost predicate IsShare(remaining: int, share: int) {
    64 * share <= 63 * remaining < 64 * share + 64
  }

  /** The gas handed to a callee: what was asked for up to the share, all of it for 0, and 2300 more with a value. */
  ghost predicate IsCallGas(remaining: int, requested: int, value: int, mode: CallMode, gas: int) {
    exists share :: IsShare(remaining, share) &&
      var base := if 0 < requested <= share then requested else share;
      gas == if value > 0 && (mode == Plain || mode == Code)
             then (if base + 2300 < remaining then base + 2300 else remaining) else base
  }

  lemma CallGasIs(limit: int, gasUsed: int, requested: int, value: int, mode: CallMode)
    requires gasUsed <= limit
    ensures IsCallGas(limit - gasUsed, requested, value, mode, CallGas(limit, gasUsed, requested, value, mode))
  {
    var remaining := limit - gasUsed;
    assert IsShare(remaining, remaining * 63 / 64);
  }

  lemma CallGasIsUnique(remaining: int, requested: int, value: int, mode: CallMode, a: int, b: int)
    requires IsCallGas(remaining, requested, value, mode, a) && IsCallGas(remaining, requested, value, mode, b)
    ensures a == b
  {
  }

  /** The operands of the call opcodes from the top: gas, address, value (for two of them), input and output range. */
  function CallOperands(op: Byte, gas: Word, to: Word, value: Word, inAt: Word, inSize: Word, outAt: Word, outSize: Word): seq<Word> {
    if op == 0xF1 || op == 0xF2 then [outSize, outAt, inSize, inAt, value, to, gas]
    else [outSize, outAt, inSize, inAt, to, gas]
  }

  lemma CallTops(s: Machine, op: Byte, rest: seq<Word>,
                 gas: Word, to: Word, value: Word, inAt: Word, inSize: Word, outAt: Word, outSize: Word)
    requires s.stack == rest + CallOperands(op, gas, to, value, inAt, inSize, outAt, outSize)
    ensures op == 0xF1 || op == 0xF2 ==>
              |s.stack| >= 7 && Top(s, 0) == gas && Top(s, 1) == to && Top(s, 2) == value && Top(s, 3) == inAt
              && Top(s, 4) == inSize && Top(s, 5) == outAt && Top(s, 6) == outSize && Dropped(s, 7) == rest
    ensures op != 0xF1 && op != 0xF2 ==>
              |s.stack| >= 6 && Top(s, 0) == gas && Top(s, 1) == to && Top(s, 2) == inAt
              && Top(s, 3) == inSize && Top(s, 4) == outAt && Top(s, 5) == outSize && Dropped(s, 6) == rest
  {
    hide Top, Dropped;
    if op == 0xF1 || op == 0xF2 {
      var args := [outSize, outAt, inSize, inAt, value, to, gas];
      Operands(s, rest, args);
      assert Top(s, 0) == args[6] && Top(s, 1) == args[5] && Top(s, 2) == args[4] && Top(s, 3) == args[3];
      assert Top(s, 4) == args[2] && Top(s, 5) == args[1] && Top(s, 6) == args[0];
    } else {
      var args := [outSize, outAt, inSize, inAt, to, gas];
      Operands(s, rest, args);
      assert Top(s, 0) == args[5] && Top(s, 1) == args[4] && Top(s, 2) == args[3];
      assert Top(s, 3) == args[2] && Top(s, 4) == args[1] && Top(s, 5) == args[0];
    }
  }

  lemma CallGasValue(limit: int, gasUsed: int, requested: int, value: int, mode: CallMode, gas: int)
    requires gasUsed <= limit && IsCallGas(limit - gasUsed, requested, value, mode, gas)
    ensures CallGas(limit, gasUsed, requested, value, mode) == gas
  {
    hide CallGas, IsCallGas;
    CallGasIs(limit, gasUsed, requested, value, mode);
    CallGasIsUnique(limit - gasUsed, requested, value, mode, CallGas(limit, gasUsed, requested, value, mode), gas);
  }

  /** The call branch on a machine whose operands are known. */
  lemma CallBranch(ctx: Context, limit: int, s: Machine, op: Byte, rest: seq<Word>, mode: CallMode, callGas: nat,
                   gas: Word, to: Word, value: Word, inAt: Word, inSize: Word, outAt: Word, outSize: Word)
    requires IsCall(op) && mode == ModeOf(op) && s.gasUsed <= limit && (mode == Delegate || mode == Static ==> value == 0)
    requires s.stack == rest + CallOperands(op, gas, to, value, inAt, inSize, outAt, outSize)
    requires IsCallGas(limit - s.gasUsed, gas, value, mode, callGas)
    ensures ctx.contractCall.None? ==>
              ExecCall(ctx, limit, s, op) == Next(s.(pc := s.pc + 1, stack := rest + [0], returnData := []))
    ensures ctx.contractCall.Some? ==>
              var request := CallRequest(to % ADDRESS_SPACE, BytesAt(s.memory, inAt, inSize), value, callGas, mode);
              ExecCall(ctx, limit, s, op) ==
                FinishCall(limit, s.(stack := rest, memory := Extend(s.memory, inAt, inSize)), mode, callGas, outAt, outSize,
                           ctx.contractCall.value(|s.trace|, request))
  {
    hide Extend, Slice, FinishCall, IsCallGas, CallGas, Top, Dropped, CallOperands, BytesAt;
    CallTops(s, op, rest, gas, to, value, inAt, inSize, outAt, outSize);
    CallGasValue(limit, s.gasUsed, gas, value, mode, callGas);
    SliceIsBytes(s.memory, inAt, inSize);
  }

  lemma PriceOfCall(op: Byte)
    requires IsCall(op)
    ensures Price(NameOf(op)) == 700
  {
  }

  /**
   A call asks the callback with exactly these operands and settles its reply; without a callback
   it pushes 0 and forgets the return data.
   */
  lemma StepCall(ctx: Context, limit: int, code: seq<Byte>, st: Machine, op: Byte, rest: seq<Word>, mode: CallMode, callGas: nat,
                 gas: Word, to: Word, value: Word, inAt: Word, inSize: Word, outAt: Word, outSize: Word)
    requires Ready(limit, code, st, op)
    requires (op == 0xF1 && mode == Plain) || (op == 0xF2 && mode == Code)
             || (op == 0xF4 && mode == Delegate && value == 0) || (op == 0xFA && mode == Static && value == 0)
    requires st.stack == rest + CallOperands(op, gas, to, value, inAt, inSize, outAt, outSize)
    requires IsCallGas(limit - st.gasUsed - 700, gas, value, mode, callGas)
    ensures ctx.contractCall.None? ==>
              Step(ctx, limit, code, st) == Next(Charged(st, op).(pc := st.pc + 1, stack := rest + [0], returnData := []))
    ensures ctx.contractCall.Some? ==>
              var request := CallRequest(to % ADDRESS_SPACE, BytesAt(st.memory, inAt, inSize), value, callGas, mode);
              var reply := ctx.contractCall.value(|st.trace| + 1, request);
              exists grown :: Grown(st.memory, grown, inAt, inSize) &&
                Step(ctx, limit, code, st) ==
                  FinishCall(limit, Charged(st, op).(stack := rest, memory := grown), mode, callGas, outAt, outSize, reply)
  {
    hide Price, NameOf, Exec, Step, Extend, Grown, FinishCall, IsCallGas, CallOperands, ExecCall, BytesAt;
    PriceOfCall(op);
    var s := Charged(st, op);
    StepRunsBranch(ctx, limit, code, st, op);
    OtherBranch(ctx, limit, code, s, op);
    CallBranch(ctx, limit, s, op, rest, mode, callGas, gas, to, value, inAt, inSize, outAt, outSize);
    ExtendGrows(st.memory, inAt, inSize);
  }

  /** CREATE takes size, offset and value from the top, CREATE2 a salt before them. */
  function CreateOperands(op: Byte, salt: Word, size: Word, offset: Word, value: Word): seq<Word> {
    if op == 0xF5 then [value, offset, size, salt] else [value, offset, size]
  }

  lemma CreateTops(s: Machine, op: Byte, rest: seq<Word>, salt: Word, size: Word, offset: Word, value: Word)
    requires s.stack == rest + CreateOperands(op, salt, size, offset, value)
    ensures op == 0xF5 ==>
              |s.stack| >= 4 && Top(s, 0) == salt && Top(s, 1) == size && Top(s, 2) == offset && Top(s, 3) == value
              && Dropped(s, 4) == rest
    ensures op != 0xF5 ==>
              |s.stack| >= 3 && Top(s, 0) == size && Top(s, 1) == offset && Top(s, 2) == value && Dropped(s, 3) == rest
  {
    hide Top, Dropped;
    var args := CreateOperands(op, salt, size, offset, value);
    Operands(s, rest, args);
    assert Top(s, 0) == args[|args| - 1] && Top(s, 1) == args[|args| - 2] && Top(s, 2) == args[|args| - 3];
  }

  lemma CreateBranch(ctx: Context, limit: int, s: Machine, op: Byte, rest: seq<Word>,
                     salt: Word, size: Word, offset: Word, value: Word)
    requires IsCreate(op) && s.stack == rest + CreateOperands(op, salt, size, offset, value)
    ensures ctx.contractCreate.None? ==>
              ExecCreate(ctx, limit, s, op) == Next(s.(pc := s.pc + 1, stack := rest + [0]))
    ensures ctx.contractCreate.Some? ==>
              var request := CreateRequest(BytesAt(s.memory, offset, size), value, if op == 0xF5 then Some(salt as int) else None);
              ExecCreate(ctx, limit, s, op) ==
                FinishCreate(limit, s.(stack := rest, memory := Extend(s.memory, offset, size)),
                             ctx.contractCreate.value(|s.trace|, request))
  {
    hide Extend, Slice, FinishCreate, Top, Dropped, CreateOperands, BytesAt;
    CreateTops(s, op, rest, salt, size, offset, value);
    SliceIsBytes(s.memory, offset, size);
  }

  /** The creation is paid for if the limit allows; the address, or 0 after a failure, is pushed. */
  lemma CreateEffects(limit: int, st: Machine, reply: CreateReply)
    requires st.gasUsed <= limit
    ensures var paid := st.gasUsed + (if reply.gasUsed > 0 then reply.gasUsed else 0);
            var word := if reply.success && !reply.reverted then reply.address else 0;
            FinishCreate(limit, st, reply) ==
              if paid > limit then Raise(OutOfGas)
              else Next(st.(pc := st.pc + 1, stack := st.stack + [word % WORD], gasUsed := paid))
  {
  }

  /** A creation asks the callback with these operands and settles its reply; without a callback it pushes 0. */
  lemma StepCreate(ctx: Context, limit: int, code: seq<Byte>, st: Machine, op: Byte, rest: seq<Word>,
                   salt: Word, size: Word, offset: Word, value: Word)
    requires Ready(limit, code, st, op) && (op == 0xF0 || op == 0xF5)
    requires st.stack == rest + CreateOperands(op, salt, size, offset, value)
    ensures ctx.contractCreate.None? ==>
              Step(ctx, limit, code, st) == Next(Charged(st, op).(pc := st.pc + 1, stack := rest + [0]))
    ensures ctx.contractCreate.Some? ==>
              var request := CreateRequest(BytesAt(st.memory, offset, size), value, if op == 0xF5 then Some(salt as int) else None);
              exists grown :: Grown(st.memory, grown, offset, size) &&
                Step(ctx, limit, code, st) ==
                  FinishCreate(limit, Charged(st, op).(stack := rest, memory := grown),
                               ctx.contractCreate.value(|st.trace| + 1, request))
  {
    hide Price, NameOf, Exec, Step, Extend, Grown, FinishCreate, ExecCreate, CreateOperands, BytesAt;
    var s := Charged(st, op);
    StepRunsBranch(ctx, limit, code, st, op);
    OtherBranch(ctx, limit, code, s, op);
    CreateBranch(ctx, limit, s, op, rest, salt, size, offset, value);
    ExtendGrows(st.memory, offset, size);
  }

  // ----- too few operands -----

  /** How many entries an opcode takes from the stack (or looks at). */
  function Arity(op: Byte): nat {
    if op == 0x15 || op == 0x19 || op == 0x31 || op == 0x35 || op == 0x3B || op == 0x40 || op == 0x50 || op == 0x51
       || op == 0x54 || op == 0x56 || op == 0xFF then 1
    else if op == 0x01 || op == 0x02 || op == 0x03 || op == 0x04 || op == 0x06 || op == 0x10 || op == 0x11 || op == 0x12
            || op == 0x14 || op == 0x16 || op == 0x17 || op == 0x1A || op == 0x1B || op == 0x1C || op == 0x20
            || op == 0x52 || op == 0x53 || op == 0x55 || op == 0x57 || op == 0xF3 || op == 0xFD then 2
    else if op == 0x37 || op == 0x39 || op == 0x3E || op == 0xF0 then 3
    else if op == 0x3C || op == 0xF5 then 4
    else if op == 0xF4 || op == 0xFA then 6
    else if op == 0xF1 || op == 0xF2 then 7
    else if 0x80 <= op <= 0x8F then op - 0x7F
    else if 0x90 <= op <= 0x9F then op - 0x8E
    else 0
  }

  /** The operand counts by opcode class. */
  lemma ArityOfWords(op: Byte)
    requires IsWordOp(op)
    ensures IsBinary(op) || op == 0x20 ==> Arity(op) == 2
    ensures IsUnary(op) || IsQuery(op) || op == 0x50 ==> Arity(op) == 1
    ensures IsPush(op) || IsReader(op) || op == 0x5B ==> Arity(op) == 0
  {
  }

  lemma ArityOfOthers(op: Byte)
    requires !IsWordOp(op) && !IsLog(op)
    ensures IsCopy(op) ==> Arity(op) == 3
    ensures op == 0x3C ==> Arity(op) == 4
    ensures IsStore(op) ==> Arity(op) == 2
    ensures IsJump(op) ==> Arity(op) == if op == 0x56 then 1 else 2
    ensures IsDup(op) ==> Arity(op) == op - 0x7F
    ensures IsSwap(op) ==> Arity(op) == op - 0x8E
    ensures IsCreate(op) ==> Arity(op) == if op == 0xF5 then 4 else 3
    ensures IsCall(op) ==> Arity(op) == if op == 0xF1 || op == 0xF2 then 7 else 6
    ensures IsStop(op) ==> Arity(op) == if op == 0x00 then 0 else if op == 0xFF then 1 else 2
    ensures Arity(op) > 0 ==> Implemented(op)
  {
  }

  lemma WordUnderflow(ctx: Context, limit: int, code: seq<Byte>, s: Machine, op: Byte)
    requires IsWordOp(op) && |s.stack| < Arity(op)
    ensures ExecWord(ctx, limit, code, s, op) == Raise(StackUnderflow)
  {
    hide Arity, Pushed, Extend, Alu1, Alu2, Answer, ReadEnvironment, PushedImmediate, Slice;
    ArityOfWords(op);
  }

  lemma OtherUnderflow(ctx: Context, limit: int, code: seq<Byte>, s: Machine, op: Byte)
    requires !IsWordOp(op) && !IsLog(op) && |s.stack| < Arity(op)
    ensures Exec(ctx, limit, code, s, op) == Raise(StackUnderflow)
  {
    ArityOfOthers(op);
    hide Arity, IsWordOp, ExecWord, ExecLog, CopyIn, Extend, Splice, Slice, FinishCreate, FinishCall, Pushed, WriteWord, CallGas;
  }

  /** With fewer entries the turn raises "stack underflow"; LOGn takes n + 2. */
  lemma StepUnderflow(ctx: Context, limit: int, code: seq<Byte>, st: Machine, op: Byte)
    requires Ready(limit, code, st, op) && !(0xA0 <= op <= 0xA4) && |st.stack| < Arity(op)
    ensures Step(ctx, limit, code, st) == Raise(StackUnderflow)
  {
    hide Price, NameOf, Arity, Exec, ExecWord, Step, IsWordOp;
    StepRunsBranch(ctx, limit, code, st, op);
    if IsWordOp(op) {
      WordBranch(ctx, limit, code, Charged(st, op), op);
      WordUnderflow(ctx, limit, code, Charged(st, op), op);
    } else {
      OtherUnderflow(ctx, limit, code, Charged(st, op), op);
    }
  }

  lemma LogUnderflow(ctx: Context, limit: int, code: seq<Byte>, st: Machine, n: nat)
    requires n <= 4 && st.pc < |code| && code[st.pc] == 0xA0 + n && |st.stack| < n + 2
    ensures Step(ctx, limit, code, st) == Raise(StackUnderflow)
  {
    hide Exec;
    var s := st.(trace := st.trace + [TraceEntry(st.pc, 0xA0 + n, |st.stack|)]);
    assert Fetch(limit, st, 0xA0 + n) == Next(s);
    OtherBranch(ctx, limit, code, s, 0xA0 + n);
  }
}
