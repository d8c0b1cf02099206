/** Words and dibits as strings of bits, in transmission order. */
module Bits {

  type byte = bv8
  type dibit = bv2

  /** One of the two components of a transmitted sample, an int8_t. */
  type sample = x: int | -128 <= x < 128

  /** Bit i of a word, bit 0 being the least significant. */
  predicate Bit16(w: bv16, i: nat)
    requires i < 16
  {
    (w >> i) & 1 == 1
  }

  predicate Bit64(w: bv64, i: nat)
    requires i < 64
  {
    (w >> i) & 1 == 1
  }

  /** The bits of a word, most significant first. */
  function Bits16(w: bv16): (s: seq<bool>)
    ensures |s| == 16
  {
    seq(16, k requires 0 <= k < 16 => Bit16(w, 15 - k))
  }

  function Bits64(w: bv64): (s: seq<bool>)
    ensures |s| == 64
  {
    seq(64, k requires 0 <= k < 64 => Bit64(w, 63 - k))
  }

  function Xor(a: seq<bool>, b: seq<bool>): (c: seq<bool>)
    requires |a| == |b|
    ensures |c| == |a| && forall i :: 0 <= i < |a| ==> c[i] == (a[i] != b[i])
  {
    seq(|a|, i requires 0 <= i < |a| => a[i] != b[i])
  }

  function Zeros(n: nat): (s: seq<bool>)
    ensures |s| == n && forall i :: 0 <= i < n ==> !s[i]
  {
    seq(n, i => false)
  }

  // ----- single-bit facts about words

  lemma XorOfBits(p: bv16, q: bv16)
    requires p == 0 || p == 1
    requires q == 0 || q == 1
    ensures (p ^ q == 1) == ((p == 1) != (q == 1))
  {
  }

  lemma LowBit(x: bv16)
    ensures x & 1 == 0 || x & 1 == 1
  {
  }

  lemma ShiftedXor(x: bv16, y: bv16, i: nat)
    requires i < 16
    ensures ((x ^ y) >> i) & 1 == ((x >> i) & 1) ^ ((y >> i) & 1)
  {
  }

  lemma BitXor(x: bv16, y: bv16, i: nat)
    requires i < 16
    ensures Bit16(x ^ y, i) == (Bit16(x, i) != Bit16(y, i))
  {
    ShiftedXor(x, y, i);
    LowBit(x >> i);
    LowBit(y >> i);
    XorOfBits((x >> i) & 1, (y >> i) & 1);
  }

  lemma ShiftLeft(x: bv16)
    ensures (x << 1) & 1 == 0
    ensures ((x << 1) >> 1) & 1 == x & 1
    ensures ((x << 1) >> 2) & 1 == (x >> 1) & 1
    ensures ((x << 1) >> 3) & 1 == (x >> 2) & 1
    ensures ((x << 1) >> 4) & 1 == (x >> 3) & 1
    ensures ((x << 1) >> 5) & 1 == (x >> 4) & 1
    ensures ((x << 1) >> 6) & 1 == (x >> 5) & 1
    ensures ((x << 1) >> 7) & 1 == (x >> 6) & 1
    ensures ((x << 1) >> 8) & 1 == (x >> 7) & 1
    ensures ((x << 1) >> 9) & 1 == (x >> 8) & 1
    ensures ((x << 1) >> 10) & 1 == (x >> 9) & 1
    ensures ((x << 1) >> 11) & 1 == (x >> 10) & 1
    ensures ((x << 1) >> 12) & 1 == (x >> 11) & 1
    ensures ((x << 1) >> 13) & 1 == (x >> 12) & 1
    ensures ((x << 1) >> 14) & 1 == (x >> 13) & 1
    ensures ((x << 1) >> 15) & 1 == (x >> 14) & 1
  {
  }

  lemma BitShiftLeft(x: bv16, i: nat)
    requires i < 16
    ensures Bit16(x << 1, i) == (i > 0 && Bit16(x, i - 1))
  {
    ShiftLeft(x);
    if i == 0 {} else if i == 1 {} else if i == 2 {} else if i == 3 {}
    else if i == 4 {} else if i == 5 {} else if i == 6 {} else if i == 7 {}
    else if i == 8 {} else if i == 9 {} else if i == 10 {} else if i == 11 {}
    else if i == 12 {} else if i == 13 {} else if i == 14 {} else {}
  }

  lemma ZeroWord(w: bv16)
    requires Bits16(w) == Zeros(16)
    ensures w == 0
  {
    forall i | 0 <= i < 16
      ensures !Bit16(w, i)
    {
      hide Bit16;
      assert !Bits16(w)[15 - i];
    }
    NoBits(w);
  }

  lemma NoBits(w: bv16)
    requires forall i :: 0 <= i < 16 ==> !Bit16(w, i)
    ensures w == 0
  {
    assert !Bit16(w, 0) && !Bit16(w, 1) && !Bit16(w, 2) && !Bit16(w, 3);
    assert !Bit16(w, 4) && !Bit16(w, 5) && !Bit16(w, 6) && !Bit16(w, 7);
    assert !Bit16(w, 8) && !Bit16(w, 9) && !Bit16(w, 10) && !Bit16(w, 11);
    assert !Bit16(w, 12) && !Bit16(w, 13) && !Bit16(w, 14) && !Bit16(w, 15);
  }

  lemma SameWord(a: bv16, b: bv16)
    requires forall i :: 0 <= i < 16 ==> Bit16(a, i) == Bit16(b, i)
    ensures a == b
  {
    hide Bit16;
    var x := a ^ b;
    forall i | 0 <= i < 16
      ensures !Bit16(x, i)
    {
      BitXor(a, b, i);
    }
    NoBits(x);
    ZeroXor(a, b);
  }

  lemma ZeroXor(a: bv16, b: bv16)
    requires a ^ b == 0
    ensures a == b
  {
  }

  lemma Associates<T>(a: seq<T>, b: seq<T>, c: seq<T>)
    ensures (a + b) + c == a + (b + c)
  {
  }
}
