/** The bits a block's CRC covers are the bits of its dibits, in the order in which they are sent. */
module BitOrder {
  import opened Bits
  import opened CrcBytes
  import opened Frame
  import opened Trellis
  import opened Tsbk

  // ----- the dibits' bits

  lemma DibitsOfByte(b: byte)
    ensures TwoBits(ByteDibit(b, 0)) == [TopBit(Left(b, 0)), TopBit(Left(b, 1))]
    ensures TwoBits(ByteDibit(b, 1)) == [TopBit(Left(b, 2)), TopBit(Left(b, 3))]
    ensures TwoBits(ByteDibit(b, 2)) == [TopBit(Left(b, 4)), TopBit(Left(b, 5))]
    ensures TwoBits(ByteDibit(b, 3)) == [TopBit(Left(b, 6)), TopBit(Left(b, 7))]
  {
  }

  lemma FourDibits(p: dibit, q: dibit, r: dibit, s: dibit)
    ensures DibitBits([p, q, r, s]) == TwoBits(p) + TwoBits(q) + TwoBits(r) + TwoBits(s)
  {
    hide TwoBits;
    assert [p, q, r, s][1..] == [q, r, s] && [q, r, s][1..] == [r, s];
    BitsOfTwo(r, s);
  }

  lemma BitsOfByte(b: byte)
    ensures DibitBits(ByteDibits(b)) == ByteBits(b)
  {
    hide ByteDibit, TwoBits, DibitBits, TopBit, Left;
    DibitsOfByte(b);
    FourDibits(ByteDibit(b, 0), ByteDibit(b, 1), ByteDibit(b, 2), ByteDibit(b, 3));
  }

  lemma {:induction false} DibitOrder(data: seq<byte>)
    ensures DibitBits(Dibits(data)) == AllBits(data)
  {
    hide ByteDibits, ByteBits;
    if data != [] {
      DibitOrder(data[1..]);
      BitsOfByte(data[0]);
      DibitBitsAppend(ByteDibits(data[0]), Dibits(data[1..]));
    }
  }

  // ----- the words' bits

  /** Eight bits of a word, from bit high down, are the bits of b. */
  predicate SameOctet(w: bv64, high: nat, b: byte)
    requires 7 <= high < 64
  {
    && Bit64(w, high) == TopBit(Left(b, 0)) && Bit64(w, high - 1) == TopBit(Left(b, 1))
    && Bit64(w, high - 2) == TopBit(Left(b, 2)) && Bit64(w, high - 3) == TopBit(Left(b, 3))
    && Bit64(w, high - 4) == TopBit(Left(b, 4)) && Bit64(w, high - 5) == TopBit(Left(b, 5))
    && Bit64(w, high - 6) == TopBit(Left(b, 6)) && Bit64(w, high - 7) == TopBit(Left(b, 7))
  }

  predicate SameHalf(w: bv16, high: nat, b: byte)
    requires 7 <= high < 16
  {
    && Bit16(w, high) == TopBit(Left(b, 0)) && Bit16(w, high - 1) == TopBit(Left(b, 1))
    && Bit16(w, high - 2) == TopBit(Left(b, 2)) && Bit16(w, high - 3) == TopBit(Left(b, 3))
    && Bit16(w, high - 4) == TopBit(Left(b, 4)) && Bit16(w, high - 5) == TopBit(Left(b, 5))
    && Bit16(w, high - 6) == TopBit(Left(b, 6)) && Bit16(w, high - 7) == TopBit(Left(b, 7))
  }

  lemma OctetSlice(w: bv64, high: nat, b: byte)
    requires 7 <= high < 64 && SameOctet(w, high, b)
    ensures Bits64(w)[63 - high..71 - high] == ByteBits(b)
  {
    hide Bit64, TopBit, Left;
    forall i | 0 <= i < 8
      ensures Bits64(w)[63 - high + i] == ByteBits(b)[i]
    {
      assert Bits64(w)[63 - high + i] == Bit64(w, high - i);
    }
  }

  lemma HalfSlice(w: bv16, high: nat, b: byte)
    requires 7 <= high < 16 && SameHalf(w, high, b)
    ensures Bits16(w)[15 - high..23 - high] == ByteBits(b)
  {
    hide Bit16, TopBit, Left;
    forall i | 0 <= i < 8
      ensures Bits16(w)[15 - high + i] == ByteBits(b)[i]
    {
      assert Bits16(w)[15 - high + i] == Bit16(w, high - i);
    }
  }

  lemma Octet7(w: bv64)
    ensures SameOctet(w, 63, ((w >> 56) & 0xff) as byte)
  {
  }

  lemma Octet6(w: bv64)
    ensures SameOctet(w, 55, ((w >> 48) & 0xff) as byte)
  {
  }

  lemma Octet5(w: bv64)
    ensures SameOctet(w, 47, ((w >> 40) & 0xff) as byte)
  {
  }

  lemma Octet4(w: bv64)
    ensures SameOctet(w, 39, ((w >> 32) & 0xff) as byte)
  {
  }

  lemma Octet3(w: bv64)
    ensures SameOctet(w, 31, ((w >> 24) & 0xff) as byte)
  {
  }

  lemma Octet2(w: bv64)
    ensures SameOctet(w, 23, ((w >> 16) & 0xff) as byte)
  {
  }

  lemma Octet1(w: bv64)
    ensures SameOctet(w, 15, ((w >> 8) & 0xff) as byte)
  {
  }

  lemma Octet0(w: bv64)
    ensures SameOctet(w, 7, (w & 0xff) as byte)
  {
  }

  lemma OctetsOfWord(a: byte, b: byte, c: byte, d: byte, e: byte, f: byte, g: byte, h: byte)
    ensures ((ArgWord(a, b, c, d, e, f, g, h) >> 56) & 0xff) as byte == a
    ensures ((ArgWord(a, b, c, d, e, f, g, h) >> 48) & 0xff) as byte == b
    ensures ((ArgWord(a, b, c, d, e, f, g, h) >> 40) & 0xff) as byte == c
    ensures ((ArgWord(a, b, c, d, e, f, g, h) >> 32) & 0xff) as byte == d
    ensures ((ArgWord(a, b, c, d, e, f, g, h) >> 24) & 0xff) as byte == e
    ensures ((ArgWord(a, b, c, d, e, f, g, h) >> 16) & 0xff) as byte == f
    ensures ((ArgWord(a, b, c, d, e, f, g, h) >> 8) & 0xff) as byte == g
    ensures (ArgWord(a, b, c, d, e, f, g, h) & 0xff) as byte == h
  {
  }

  lemma UpperHalf(a: byte, b: byte)
    ensures SameHalf(((a as bv16) << 8) | (b as bv16), 15, a)
  {
  }

  lemma LowerHalf(a: byte, b: byte)
    ensures SameHalf(((a as bv16) << 8) | (b as bv16), 7, b)
  {
  }

  lemma HalvesOfWord(a: byte, b: byte)
    ensures SameHalf(Word(a, b), 15, a) && SameHalf(Word(a, b), 7, b)
  {
    hide SameHalf;
    UpperHalf(a, b);
    LowerHalf(a, b);
  }

  /** The octets of an argument word are its bytes, from the top. */
  lemma ArgOctets(a: byte, b: byte, c: byte, d: byte, e: byte, f: byte, g: byte, h: byte)
    ensures
      var w := ArgWord(a, b, c, d, e, f, g, h);
      && SameOctet(w, 63, a) && SameOctet(w, 55, b) && SameOctet(w, 47, c) && SameOctet(w, 39, d)
      && SameOctet(w, 31, e) && SameOctet(w, 23, f) && SameOctet(w, 15, g) && SameOctet(w, 7, h)
  {
    hide ArgWord, SameOctet;
    var w := ArgWord(a, b, c, d, e, f, g, h);
    OctetsOfWord(a, b, c, d, e, f, g, h);
    Octet7(w);
    Octet6(w);
    Octet5(w);
    Octet4(w);
    Octet3(w);
    Octet2(w);
    Octet1(w);
    Octet0(w);
  }

  // ----- a block's bits

  lemma HeadOctet(t: Pdu, i: nat)
    requires i < 2
    ensures PduBits(t)[8 * i..8 * i + 8] == ByteBits(t[i])
  {
    hide Word, Args, Check, ByteBits, Bits16, Bits64, SameHalf;
    HalvesOfWord(t[0], t[1]);
    HalfSlice(Head(t), 15 - 8 * i, t[i]);
    assert PduBits(t)[8 * i..8 * i + 8] == Bits16(Head(t))[8 * i..8 * i + 8];
  }

  lemma ArgOctet(t: Pdu, i: nat)
    requires 2 <= i < 10
    ensures SameOctet(Args(t), 79 - 8 * i, t[i])
  {
    hide ArgWord, SameOctet;
    ArgOctets(t[2], t[3], t[4], t[5], t[6], t[7], t[8], t[9]);
  }

  lemma ArgsOctet(t: Pdu, i: nat)
    requires 2 <= i < 10
    ensures PduBits(t)[8 * i..8 * i + 8] == ByteBits(t[i])
  {
    hide Args, Head, Check, ByteBits, Bits16, Bits64, SameOctet;
    ArgOctet(t, i);
    OctetSlice(Args(t), 79 - 8 * i, t[i]);
    var j := i - 2;
    assert PduBits(t)[8 * i..8 * i + 8] == Bits64(Args(t))[8 * j..8 * j + 8];
  }

  lemma CheckOctet(t: Pdu, i: nat)
    requires 10 <= i < 12
    ensures PduBits(t)[8 * i..8 * i + 8] == ByteBits(t[i])
  {
    hide Word, Head, Args, ByteBits, Bits16, Bits64, SameHalf;
    HalvesOfWord(t[10], t[11]);
    var j := i - 10;
    HalfSlice(Check(t), 15 - 8 * j, t[i]);
    assert PduBits(t)[8 * i..8 * i + 8] == Bits16(Check(t))[8 * j..8 * j + 8];
  }

  lemma {:induction false} OctetOfAll(data: seq<byte>, i: nat)
    requires i < |data|
    ensures AllBits(data)[8 * i..8 * i + 8] == ByteBits(data[i])
  {
    hide ByteBits;
    if i > 0 {
      OctetOfAll(data[1..], i - 1);
      assert AllBits(data)[8..] == AllBits(data[1..]);
      assert AllBits(data)[8 * i..8 * i + 8] == AllBits(data)[8..][8 * (i - 1)..8 * (i - 1) + 8];
    }
  }

  lemma SameOctets(x: seq<bool>, y: seq<bool>, n: nat)
    requires |x| == |y| == 8 * n
    requires forall i :: 0 <= i < n ==> x[8 * i..8 * i + 8] == y[8 * i..8 * i + 8]
    ensures x == y
  {
    forall k | 0 <= k < 8 * n
      ensures x[k] == y[k]
    {
      var i := k / 8;
      assert x[k] == x[8 * i..8 * i + 8][k - 8 * i] && y[k] == y[8 * i..8 * i + 8][k - 8 * i];
    }
  }

  lemma PduIsAllBits(t: Pdu)
    ensures PduBits(t) == AllBits(t)
  {
    hide PduBits, AllBits, ByteBits;
    forall i | 0 <= i < 12
      ensures PduBits(t)[8 * i..8 * i + 8] == AllBits(t)[8 * i..8 * i + 8]
    {
      OctetOfAll(t, i);
      if i < 2 {
        HeadOctet(t, i);
      } else if i < 10 {
        ArgsOctet(t, i);
      } else {
        CheckOctet(t, i);
      }
    }
    SameOctets(PduBits(t), AllBits(t), 12);
  }

  /** What the CRC covers, bit by bit, is what the trellis code is given. */
  lemma SameOrder(t: Pdu)
    ensures PduBits(t) == DibitBits(Dibits(t))
  {
    hide PduBits, DibitBits, Dibits, AllBits;
    PduIsAllBits(t);
    DibitOrder(t);
  }
}
