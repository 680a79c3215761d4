/**
 The arithmetic under the interpreter's opcodes: 256-bit words, bytes, bitwise
 operators on unbounded integers, and the byte-addressed memory with Python's
 slice semantics (reads clamp, slice assignment may change the length).
 */
module EvmWords {

  const WORD: int := 0x1_0000000000000000_0000000000000000_0000000000000000_0000000000000000
  const ADDRESS_SPACE: int := 0x1_0000000000_0000000000_0000000000_0000000000

  type Byte = x: int | 0 <= x < 256

  /** `value & (2^256 - 1)`: for negative values too, this is the Euclidean remainder. */
  function Mask(value: int): (w: int)
    ensures 0 <= w < WORD
  {
    value % WORD
  }

  function Pow2(n: nat): (p: int)
    ensures p >= 1
  {
    if n == 0 then 1 else 2 * Pow2(n - 1)
  }

  // ----- bitwise operators on natural numbers -----

  predicate Bit(x: nat, i: nat) {
    if i == 0 then x % 2 == 1 else Bit(x / 2, i - 1)
  }

  datatype Gate = And | Or | Xor {
    predicate Of(a: bool, b: bool) {
      match this
      case And => a && b
      case Or => a || b
      case Xor => a != b
    }
  }

  function Bitwise(g: Gate, a: nat, b: nat): nat
    decreases a + b
  {
    if a == 0 && b == 0 then 0
    else 2 * Bitwise(g, a / 2, b / 2) + (if g.Of(a % 2 == 1, b % 2 == 1) then 1 else 0)
  }

  /** Every bit of the result is the gate applied to the operands' bits. */
  lemma {:induction false} BitwiseMeaning(g: Gate, a: nat, b: nat, i: nat)
    ensures Bit(Bitwise(g, a, b), i) == g.Of(Bit(a, i), Bit(b, i))
    decreases i
  {
    var r := Bitwise(g, a, b);
    if a == 0 && b == 0 {
      ZeroHasNoBits(i);
    } else {
      assert r / 2 == Bitwise(g, a / 2, b / 2);
      if i > 0 {
        BitwiseMeaning(g, a / 2, b / 2, i - 1);
      }
    }
  }

  lemma {:induction false} ZeroHasNoBits(i: nat)
    ensures !Bit(0, i)
  {
    if i > 0 { ZeroHasNoBits(i - 1); }
  }

  /** The bits are those of the binary numeral: 2^i has bit i, and the bits determine the number. */
  lemma {:induction false} BitOfPower(i: nat, j: nat)
    ensures Bit(Pow2(i), j) <==> i == j
    decreases i
  {
    if i > 0 && j > 0 {
      assert Pow2(i) / 2 == Pow2(i - 1);
      BitOfPower(i - 1, j - 1);
    } else if i == 0 && j > 0 {
      ZeroHasNoBits(j - 1);
    }
  }

  lemma {:induction false} BitsDetermine(x: nat, y: nat)
    requires forall i: nat :: Bit(x, i) == Bit(y, i)
    ensures x == y
    decreases x + y
  {
    if x != 0 || y != 0 {
      assert Bit(x, 0) == Bit(y, 0);
      forall i: nat ensures Bit(x / 2, i) == Bit(y / 2, i) {
        assert Bit(x, i + 1) == Bit(y, i + 1);
      }
      BitsDetermine(x / 2, y / 2);
    }
  }

  // ----- big-endian bytes -----

  function FromBytes(s: seq<Byte>): (v: int)
    ensures v >= 0
  {
    if s == [] then 0 else 256 * FromBytes(s[..|s| - 1]) + s[|s| - 1]
  }

  function ToBytes(n: nat, v: nat): (s: seq<Byte>)
    ensures |s| == n
  {
    if n == 0 then [] else ToBytes(n - 1, v / 256) + [v % 256]
  }

  function Pow256(n: nat): (p: int)
    ensures p >= 1
  {
    if n == 0 then 1 else 256 * Pow256(n - 1)
  }

  /** Reading back `n` big-endian bytes gives the value modulo 256^n. */
  lemma {:induction false} BytesRoundTrip(n: nat, v: nat)
    requires v < Pow256(n)
    ensures FromBytes(ToBytes(n, v)) == v
  {
    if n > 0 {
      BytesRoundTrip(n - 1, v / 256);
      var s := ToBytes(n, v);
      assert s[..n - 1] == ToBytes(n - 1, v / 256);
    }
  }

  lemma WordFitsInBytes()
    ensures Pow256(32) == WORD
  {
    assert Pow256(8) == 0x1_0000000000000000;
    Pow256Sum(8, 8);
    Pow256Sum(16, 16);
  }

  lemma {:induction false} Pow256Sum(m: nat, n: nat)
    ensures Pow256(m + n) == Pow256(m) * Pow256(n)
  {
    if m > 0 {
      Pow256Sum(m - 1, n);
      assert Pow256(m + n) == 256 * Pow256(m - 1 + n);
    }
  }

  /** Byte `i` of the big-endian encoding, by division. */
  lemma {:induction false} ByteByDivision(n: nat, v: nat, i: nat)
    requires i < n
    ensures ToBytes(n, v)[i] == (v / Pow256(n - 1 - i)) % 256
  {
    if i < n - 1 {
      ByteByDivision(n - 1, v / 256, i);
      DivideTwice(v, Pow256(n - 2 - i));
    }
  }

  lemma DivideTwice(v: nat, p: int)
    requires p >= 1
    ensures v / 256 / p == v / (256 * p)
  {
    var q := v / (256 * p);
    var r := v % (256 * p);
    assert v == 256 * (p * q) + r;
    assert v / 256 == p * q + r / 256;
    assert 0 <= r / 256 < p;
    QuotientIs(v / 256, p, q, r / 256);
  }

  lemma QuotientIs(x: int, p: int, q: int, r: int)
    requires p >= 1 && x == p * q + r && 0 <= r < p
    ensures x / p == q
  {
    var d := x / p - q;
    assert x == p * (x / p) + x % p;
    assert p * d == r - x % p;
    if d >= 1 {
      MultipleIsLarge(p, d);
      assert false;
    } else if d <= -1 {
      MultipleIsLarge(p, -d);
      assert false;
    }
  }

  lemma MultipleIsLarge(p: int, d: int)
    requires p >= 1 && d >= 1
    ensures p * d >= p && p * (-d) == -(p * d)
  {
  }

  lemma {:induction false} Pow2OfBytes(n: nat)
    ensures Pow2(8 * n) == Pow256(n)
  {
    if n > 0 {
      Pow2OfBytes(n - 1);
      var m := 8 * n;
      assert Pow2(m) == 2 * Pow2(m - 1) && Pow2(m - 1) == 2 * Pow2(m - 2) && Pow2(m - 2) == 2 * Pow2(m - 3)
          && Pow2(m - 3) == 2 * Pow2(m - 4) && Pow2(m - 4) == 2 * Pow2(m - 5) && Pow2(m - 5) == 2 * Pow2(m - 6)
          && Pow2(m - 6) == 2 * Pow2(m - 7) && Pow2(m - 7) == 2 * Pow2(m - 8);
    }
  }

  // ----- memory -----

  function Zeros(n: nat): (s: seq<Byte>)
    ensures |s| == n
  {
    seq(n, _ => 0)
  }

  /** `_mem_extend`: zero-pads up to offset + size, never shrinks. */
  function Extend(memory: seq<Byte>, offset: nat, size: nat): (m: seq<Byte>)
    ensures |m| == if offset + size > |memory| then offset + size else |memory|
  {
    if offset + size > |memory| then memory + Zeros(offset + size - |memory|) else memory
  }

  /** Python's `data[offset:offset + size]`: clamped at the end of the data. */
  function Slice(data: seq<Byte>, offset: nat, size: nat): (s: seq<Byte>)
    ensures |s| <= size
  {
    var lo := if offset < |data| then offset else |data|;
    var hi := if offset + size < |data| then offset + size else |data|;
    data[lo..hi]
  }

  function PadRight(s: seq<Byte>, n: nat): (r: seq<Byte>)
    ensures |r| == if |s| < n then n else |s|
  {
    if |s| < n then s + Zeros(n - |s|) else s
  }

  /** Python's `memory[offset:offset + size] = chunk`, after the memory was extended. */
  function Splice(memory: seq<Byte>, offset: nat, size: nat, chunk: seq<Byte>): (m: seq<Byte>)
    requires offset + size <= |memory|
    ensures |m| == |memory| - size + |chunk|
  {
    memory[..offset] + chunk + memory[offset + size..]
  }

  function ReadWord(memory: seq<Byte>, offset: nat): int {
    FromBytes(Extend(memory, offset, 32)[offset..offset + 32])
  }

  function WriteWord(memory: seq<Byte>, offset: nat, value: int): (m: seq<Byte>) {
    Splice(Extend(memory, offset, 32), offset, 32, ToBytes(32, Mask(value)))
  }

  /** A word written to memory is read back, masked, and no other byte changes. */
  lemma MemoryRoundTrip(memory: seq<Byte>, offset: nat, value: int)
    ensures ReadWord(WriteWord(memory, offset, value), offset) == Mask(value)
    ensures var m, grown := WriteWord(memory, offset, value), Extend(memory, offset, 32);
            |m| == |grown| &&
            forall i :: 0 <= i < |m| && !(offset <= i < offset + 32) ==> m[i] == grown[i]
  {
    WordFitsInBytes();
    BytesRoundTrip(32, Mask(value));
    var m := WriteWord(memory, offset, value);
    assert Extend(m, offset, 32) == m;
    assert m[offset..offset + 32] == ToBytes(32, Mask(value));
  }

  /** The copy opcodes: extend the memory, then assign a clamped slice of the source data. */
  function CopyIn(memory: seq<Byte>, dest: nat, size: nat, data: seq<Byte>, offset: nat): seq<Byte> {
    Splice(Extend(memory, dest, size), dest, size, Slice(data, offset, size))
  }

  /**
   A copy opcode keeps the extended memory's length exactly when the source range is
   inside the data (or empty): slice assignment does not pad a short source, so a copy
   past the end of the data shortens the memory.
   */
  lemma CopyKeepsLengthIff(memory: seq<Byte>, dest: nat, size: nat, data: seq<Byte>, offset: nat)
    ensures |CopyIn(memory, dest, size, data, offset)| == |Extend(memory, dest, size)|
            <==> (size == 0 || offset + size <= |data|)
  {
    assert |Slice(data, offset, size)| == size <==> (size == 0 || offset + size <= |data|);
  }
}
