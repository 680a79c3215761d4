/**
 What the opcodes mean to a contract: words stored are words loaded, stack shuffles undo each
 other, returned data is what memory held, and a settled call touches nothing but its window.
 */
module EvmLaws {
  import opened EvmWords
  import opened EvmMachine

  /** SSTORE sets one slot and no other, whether or not a zero removed the entry. */
  lemma StorageRoundTrip(ctx: Context, st: Machine, key: Word)
    requires |st.stack| >= 2
    ensures var r := ExecStore(st, 0x55);
            && r.Next?
            && Answer(ctx, r.st, 0x54, key) == if key == Top(st, 0) then Top(st, 1) else Answer(ctx, st, 0x54, key)
  {
    assert IsStore(0x55);
  }

  /** MSTORE then MLOAD at the same offset gives the word back; every other byte stays. */
  lemma MstoreThenMload(ctx: Context, st: Machine)
    requires |st.stack| >= 2
    ensures var r := ExecStore(st, 0x52);
            var at := Top(st, 0);
            && r.Next?
            && Answer(ctx, r.st, 0x51, at) == Mask(Top(st, 1))
            && forall i :: 0 <= i < |st.memory| && !(at <= i < at + 32) ==> i < |r.st.memory| && r.st.memory[i] == st.memory[i]
  {
    MemoryRoundTrip(st.memory, Top(st, 0), Top(st, 1));
  }

  /** SWAPn is its own inverse on the stack and exchanges exactly two entries. */
  lemma SwapTwice(st: Machine, op: Byte)
    requires IsSwap(op) && |st.stack| >= op - 0x8F + 1
    ensures var r := ExecDupSwap(st, op);
            && r.Next?
            && Top(r.st, 0) == Top(st, op - 0x8F) && Top(r.st, op - 0x8F) == Top(st, 0)
            && ExecDupSwap(r.st, op).Next? && ExecDupSwap(r.st, op).st.stack == st.stack
  {
  }

  /** DUPn followed by POP changes only the program counter, and the copy is entry n. */
  lemma DupThenPop(ctx: Context, limit: int, code: seq<Byte>, st: Machine, op: Byte)
    requires IsDup(op) && |st.stack| >= op - 0x7F && Top(st, op - 0x80) < WORD
    ensures var r := ExecDupSwap(st, op);
            && r.Next?
            && Top(r.st, 0) == Top(st, op - 0x80)
            && ExecWord(ctx, limit, code, r.st, 0x50) == Next(st.(pc := st.pc + 2))
  {
    var r := ExecDupSwap(st, op);
    assert Dropped(r.st, 1) == st.stack;
    assert IsWordOp(0x50) && !IsPush(0x50) && !IsBinary(0x50) && !IsUnary(0x50) && !IsReader(0x50) && !IsQuery(0x50);
  }

  /** The bytes after the opcode, zeros past the end of the code. */
  lemma ImmediateBytes(code: seq<Byte>, at: nat, bytes: seq<Byte>)
    requires forall i :: 0 <= i < |bytes| ==> bytes[i] == if at + i < |code| then code[at + i] else 0
    ensures PadRight(Slice(code, at, |bytes|), |bytes|) == bytes
  {
    var s := Slice(code, at, |bytes|);
    forall i | 0 <= i < |s| ensures s[i] == bytes[i] {}
    assert forall i :: |s| <= i < |bytes| ==> bytes[i] == 0;
    assert PadRight(s, |bytes|) == s + Zeros(|bytes| - |s|);
  }

  /** PUSHn pushes the n bytes after it, zeros past the end of the code, and skips them. */
  lemma PushReadsImmediate(code: seq<Byte>, st: Machine, op: Byte, bytes: seq<Byte>)
    requires IsPush(op) && |bytes| == op - 0x5F
    requires forall i :: 0 <= i < |bytes| ==> bytes[i] == if st.pc + 1 + i < |code| then code[st.pc + 1 + i] else 0
    ensures ExecPush(code, st, op) ==
              Next(st.(pc := st.pc + 1 + |bytes|, stack := st.stack + [Mask(FromBytes(bytes))]))
  {
    hide FromBytes, Mask, Slice, PadRight;
    ImmediateBytes(code, st.pc + 1, bytes);
  }

  /** RETURN and REVERT hand over exactly the requested bytes, zeros where memory was never written. */
  lemma ReturnedBytes(st: Machine, op: Byte, i: nat)
    requires (op == 0xF3 || op == 0xFD) && |st.stack| >= 2 && i < Top(st, 1)
    ensures var r := ExecStop(st, op);
            && r.Halt? && r.st.reverted == (op == 0xFD) && |r.st.returnData| == Top(st, 1)
            && r.st.returnData[i] == if Top(st, 0) + i < |st.memory| then st.memory[Top(st, 0) + i] else 0
  {
  }

  /**
   Settling a call that is covered: the caller pays what the callee used, at most what was
   handed over; the return window holds the returned bytes; all other memory, and the storage
   unless the callee ran in this contract's storage, stay as they were.
   */
  lemma CallEffects(limit: int, st: Machine, mode: CallMode, callGas: nat, retOffset: nat, retSize: nat, reply: CallReply)
    requires st.gasUsed + callGas <= limit
    ensures var r := FinishCall(limit, st, mode, callGas, retOffset, retSize, reply);
            var n := if retSize < |reply.returnData| then retSize else |reply.returnData|;
            && r.Next?
            && r.st.gasUsed == st.gasUsed
                 + (if reply.gasUsed <= 0 then 0 else if reply.gasUsed < callGas then reply.gasUsed else callGas)
            && r.st.pc == st.pc + 1 && r.st.trace == st.trace && r.st.logs == st.logs && r.st.running == st.running
            && r.st.stack == st.stack + [if reply.success && !reply.reverted then 1 else 0]
            && r.st.storage == (if (mode == Delegate || mode == Code) && reply.storage.Some? then reply.storage.value
                                else st.storage)
            && r.st.returnData == reply.returnData
            && |r.st.memory| == (if retOffset + retSize > |st.memory| then retOffset + retSize else |st.memory|)
            && retOffset + n <= |r.st.memory| && r.st.memory[retOffset..retOffset + n] == reply.returnData[..n]
            && forall i :: 0 <= i < |st.memory| && !(retOffset <= i < retOffset + n) ==>
                 i < |r.st.memory| && r.st.memory[i] == st.memory[i]
  {
    hide Extend, Splice, Slice, Mask;
    MaskOfFlag();
    WindowIsWritten(st.memory, retOffset, retSize, reply.returnData);
  }

  lemma MaskOfFlag()
    ensures Mask(0) == 0 && Mask(1) == 1
  {
  }

  lemma WindowIsWritten(memory: seq<Byte>, offset: nat, size: nat, data: seq<Byte>)
    ensures var n := if size < |data| then size else |data|;
            var chunk := Slice(data, 0, size);
            && |chunk| == n <= size
            && var m := Splice(Extend(memory, offset, size), offset, |chunk|, chunk);
               && |m| == (if offset + size > |memory| then offset + size else |memory|)
               && offset + n <= |m| && m[offset..offset + n] == data[..n]
               && forall i :: 0 <= i < |memory| && !(offset <= i < offset + n) ==> i < |m| && m[i] == memory[i]
  {
  }
}
