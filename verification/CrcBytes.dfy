/** The CRC register a byte at a time, in closed form. */
module CrcBytes {
  import opened Bits
  import opened Crc

  function Plus(a: bv16, b: bv16): bv16 { a ^ b }

  /** A byte in the upper half of a word. */
  function High(b: byte): bv16 { (b as bv16) << 8 }

  // ----- turns of the register on zero bits

  /** One, two, four and eight turns. */
  function Turn(s: bv16): bv16 { (s << 1) ^ ((s >> 15) << 12) ^ ((s >> 15) << 5) ^ (s >> 15) }

  function Turn2(s: bv16): bv16 { (s << 2) ^ ((s >> 14) << 12) ^ ((s >> 14) << 5) ^ (s >> 14) }

  function Turn4(s: bv16): bv16 { (s << 4) ^ ((s >> 12) << 12) ^ ((s >> 12) << 5) ^ (s >> 12) }

  function Turn8(s: bv16): bv16 {
    (s << 8) ^ (((s >> 8) ^ (s >> 12)) << 12) ^ (((s >> 8) ^ (s >> 12)) << 5) ^ ((s >> 8) ^ (s >> 12))
  }

  function Turns(s: bv16, n: nat): bv16 {
    if n == 0 then s else Turn(Turns(s, n - 1))
  }

  lemma TopOfWord(s: bv16)
    ensures Bit16(s, 15) ==> s >> 15 == 1
    ensures !Bit16(s, 15) ==> s >> 15 == 0
  {
  }

  lemma TurnOnOne(s: bv16)
    requires s >> 15 == 1
    ensures Turn(s) == (s << 1) ^ 0x1021
  {
  }

  lemma TurnOnZero(s: bv16)
    requires s >> 15 == 0
    ensures Turn(s) == s << 1
  {
  }

  lemma TurnIsStep(s: bv16)
    ensures Turn(s) == Step(s, false)
  {
    hide Turn, Bit16;
    TopOfWord(s);
    if Bit16(s, 15) {
      TurnOnOne(s);
    } else {
      TurnOnZero(s);
    }
  }

  lemma TurnOf(s: bv16)
    ensures Turn(s) == (s << 1) ^ ((s >> 15) << 12) ^ ((s >> 15) << 5) ^ (s >> 15)
  {
  }

  lemma Turn2Of(s: bv16)
    ensures Turn2(s) == (s << 2) ^ ((s >> 14) << 12) ^ ((s >> 14) << 5) ^ (s >> 14)
  {
  }

  lemma Turn4Of(s: bv16)
    ensures Turn4(s) == (s << 4) ^ ((s >> 12) << 12) ^ ((s >> 12) << 5) ^ (s >> 12)
  {
  }

  lemma TwiceOne(s: bv16)
    ensures Turn((s << 1) ^ ((s >> 15) << 12) ^ ((s >> 15) << 5) ^ (s >> 15)) == Turn2(s)
  {
  }

  lemma TwiceTwo(s: bv16)
    ensures Turn2((s << 2) ^ ((s >> 14) << 12) ^ ((s >> 14) << 5) ^ (s >> 14)) == Turn4(s)
  {
  }

  lemma TwiceFour(s: bv16)
    ensures Turn4((s << 4) ^ ((s >> 12) << 12) ^ ((s >> 12) << 5) ^ (s >> 12)) == Turn8(s)
  {
  }

  lemma Doubled(s: bv16)
    ensures Turn(Turn(s)) == Turn2(s) && Turn2(Turn2(s)) == Turn4(s) && Turn4(Turn4(s)) == Turn8(s)
  {
    hide Turn, Turn2, Turn4, Turn8;
    TurnOf(s);
    Turn2Of(s);
    Turn4Of(s);
    TwiceOne(s);
    TwiceTwo(s);
    TwiceFour(s);
  }

  lemma {:induction false} TurnsJoin(s: bv16, m: nat, n: nat)
    ensures Turns(s, m + n) == Turns(Turns(s, m), n)
  {
    hide Turn;
    if n > 0 {
      TurnsJoin(s, m, n - 1);
    }
  }

  lemma TwoTurns(s: bv16)
    ensures Turns(s, 2) == Turn2(s)
  {
    hide Turn, Turn2;
    assert Turns(s, 1) == Turn(s);
    Doubled(s);
  }

  lemma FourTurns(s: bv16)
    ensures Turns(s, 4) == Turn4(s)
  {
    hide Turns, Turn2, Turn4;
    TwoTurns(s);
    TwoTurns(Turn2(s));
    TurnsJoin(s, 2, 2);
    Doubled(s);
  }

  lemma EightTurns(s: bv16)
    ensures Turns(s, 8) == Turn8(s)
  {
    hide Turns, Turn4, Turn8;
    FourTurns(s);
    FourTurns(Turn4(s));
    TurnsJoin(s, 4, 4);
    Doubled(s);
  }

  // ----- the bits of a byte

  /** A byte shifted up by n places. */
  function Left(b: byte, n: nat): byte
    requires n <= 8
  {
    if n == 0 then b else if n == 1 then b << 1 else if n == 2 then b << 2 else if n == 3 then b << 3
    else if n == 4 then b << 4 else if n == 5 then b << 5 else if n == 6 then b << 6
    else if n == 7 then b << 7 else 0
  }

  predicate TopBit(b: byte) { b & 0x80 != 0 }

  /** The bits of a byte, most significant first. */
  function ByteBits(b: byte): (s: seq<bool>)
    ensures |s| == 8
  {
    seq(8, i requires 0 <= i < 8 => TopBit(Left(b, i)))
  }

  function AllBits(data: seq<byte>): (s: seq<bool>)
    ensures |s| == 8 * |data|
  {
    if data == [] then [] else ByteBits(data[0]) + AllBits(data[1..])
  }

  lemma LeftOne(b: byte, n: nat)
    requires n < 8
    ensures Left(b, n + 1) == Left(b, n) << 1
  {
  }

  // ----- the register on a byte

  /** The register after a byte. */
  function Feed(s: bv16, b: byte): bv16 { Turn8(Plus(s, High(b))) }

  function Digest(s: bv16, data: seq<byte>): bv16
    decreases |data|
  {
    if data == [] then s else Digest(Feed(s, data[0]), data[1..])
  }

  lemma PlusAssociates(a: bv16, b: bv16, c: bv16)
    ensures Plus(Plus(a, b), c) == Plus(a, Plus(b, c))
  {
    hide Plus;
    PlusOf(a, b);
    PlusOf(b, c);
    PlusThree(a, b, c);
  }

  lemma PlusOf(a: bv16, b: bv16)
    ensures Plus(a, b) == a ^ b
  {
  }

  lemma PlusThree(a: bv16, b: bv16, c: bv16)
    ensures Plus(a ^ b, c) == Plus(a, b ^ c)
  {
  }

  lemma PlusCommutes(a: bv16, b: bv16)
    ensures Plus(a, b) == Plus(b, a) && Plus(a, 0) == a
  {
  }

  lemma ShiftedSum(s: bv16, b: byte)
    ensures Plus(s << 1, High(b << 1)) == (s ^ ((b as bv16) << 8)) << 1
  {
  }

  lemma SumOf(s: bv16, b: byte)
    ensures Plus(s, High(b)) == s ^ ((b as bv16) << 8)
  {
  }

  lemma TopOfByte(b: byte)
    ensures Bit16(High(b), 15) == TopBit(b)
  {
  }

  lemma TopOfSum(s: bv16, b: byte)
    ensures Bit16(Plus(s, High(b)), 15) == (Bit16(s, 15) != TopBit(b))
  {
    hide Bit16, High, TopBit, Plus;
    PlusOf(s, High(b));
    BitXor(s, High(b), 15);
    TopOfByte(b);
  }

  lemma StepOf(s: bv16, bit: bool)
    ensures Step(s, bit) == if Bit16(s, 15) != bit then Plus(s << 1, 0x1021) else s << 1
  {
    hide Bit16;
  }

  /** A step on the top bit of a byte is a turn on the sum. */
  lemma OneBit(s: bv16, b: byte)
    ensures Plus(Step(s, TopBit(b)), High(b << 1)) == Turn(Plus(s, High(b)))
  {
    hide Bit16, High, TopBit, Plus, Step, Turn;
    var sum := Plus(s, High(b));
    TopOfSum(s, b);
    StepOf(s, TopBit(b));
    StepOf(sum, false);
    TurnIsStep(sum);
    SumOf(s, b);
    ShiftedSum(s, b);
    PlusAssociates(s << 1, 0x1021, High(b << 1));
    PlusCommutes(0x1021, High(b << 1));
    PlusAssociates(s << 1, High(b << 1), 0x1021);
  }

  lemma {:induction false} SomeBits(s: bv16, b: byte, n: nat)
    requires n <= 8
    ensures Plus(Run(s, ByteBits(b)[..n]), High(Left(b, n))) == Turns(Plus(s, High(b)), n)
  {
    hide Step, Run, Turn, Plus, High, TopBit, Left;
    if n == 0 {
      NoBitsYet(s, b);
    } else {
      SomeBits(s, b, n - 1);
      RunOne(s, ByteBits(b), n - 1);
      LeftOne(b, n - 1);
      OneBit(Run(s, ByteBits(b)[..n - 1]), Left(b, n - 1));
    }
  }

  lemma NoBitsYet(s: bv16, b: byte)
    ensures Run(s, ByteBits(b)[..0]) == s && Left(b, 0) == b
  {
  }

  lemma NothingLeft(s: bv16, b: byte)
    ensures Plus(s, High(Left(b, 8))) == s
  {
  }

  lemma RunByte(s: bv16, b: byte)
    ensures Run(s, ByteBits(b)) == Feed(s, b)
  {
    hide Run, Plus, High, Left, Turns, Turn8, ByteBits;
    SomeBits(s, b, 8);
    NothingLeft(Run(s, ByteBits(b)), b);
    EightTurns(Plus(s, High(b)));
    assert ByteBits(b)[..8] == ByteBits(b);
  }

  /** Over whole bytes the register may be run a byte at a time. */
  lemma {:induction false} RunIsDigest(s: bv16, data: seq<byte>)
    ensures Run(s, AllBits(data)) == Digest(s, data)
    decreases |data|
  {
    hide Feed, ByteBits, Run;
    if data == [] {
      NothingRun(s);
    } else {
      RunByte(s, data[0]);
      RunAppend(s, ByteBits(data[0]), AllBits(data[1..]));
      RunIsDigest(Feed(s, data[0]), data[1..]);
    }
  }

  lemma NothingRun(s: bv16)
    ensures Run(s, []) == s
  {
  }

  lemma DigestOne(s: bv16, data: seq<byte>, n: nat)
    requires n < |data|
    ensures Digest(s, data[..n + 1]) == Feed(Digest(s, data[..n]), data[n])
    decreases n
  {
    hide Feed;
    if n > 0 {
      assert data[1..][..n - 1] == data[..n][1..] && data[1..][..n] == data[..n + 1][1..];
      DigestOne(Feed(s, data[0]), data[1..], n - 1);
    } else {
      assert data[..1][1..] == [];
    }
  }

  // ----- linearity

  function Difference(x: byte, y: byte): byte { x ^ y }

  function Differences(x: seq<byte>, y: seq<byte>): (d: seq<byte>)
    requires |x| == |y|
    ensures |d| == |x|
  {
    seq(|x|, i requires 0 <= i < |x| => Difference(x[i], y[i]))
  }

  lemma Turn8Of(s: bv16)
    ensures Turn8(s)
         == (s << 8) ^ (((s >> 8) ^ (s >> 12)) << 12) ^ (((s >> 8) ^ (s >> 12)) << 5) ^ ((s >> 8) ^ (s >> 12))
  {
  }

  lemma TurnOfSum(s: bv16, r: bv16)
    ensures Turn(s ^ r) == Plus(Turn(s), Turn(r))
  {
  }

  lemma TurnLinear(s: bv16, r: bv16)
    ensures Turn(Plus(s, r)) == Plus(Turn(s), Turn(r))
  {
    hide Turn, Plus;
    TurnOfSum(s, r);
    PlusOf(s, r);
  }

  lemma {:induction false} TurnsLinear(s: bv16, r: bv16, n: nat)
    ensures Turns(Plus(s, r), n) == Plus(Turns(s, n), Turns(r, n))
  {
    hide Turn, Plus;
    if n > 0 {
      TurnsLinear(s, r, n - 1);
      TurnLinear(Turns(s, n - 1), Turns(r, n - 1));
    }
  }

  lemma Turn8Linear(s: bv16, r: bv16)
    ensures Turn8(Plus(s, r)) == Plus(Turn8(s), Turn8(r))
  {
    hide Turn8, Turns, Plus;
    TurnsLinear(s, r, 8);
    EightTurns(s);
    EightTurns(r);
    EightTurns(Plus(s, r));
  }

  lemma HighOfDifference(x: byte, y: byte)
    ensures High(Difference(x, y)) == Plus(High(x), High(y))
  {
  }

  lemma PlusExchange(a: bv16, b: bv16, c: bv16, d: bv16)
    ensures Plus(Plus(a, b), Plus(c, d)) == Plus(Plus(a, c), Plus(b, d))
  {
    hide Plus;
    PlusAssociates(a, b, Plus(c, d));
    PlusAssociates(b, c, d);
    PlusCommutes(b, c);
    PlusAssociates(c, b, d);
    PlusAssociates(a, c, Plus(b, d));
  }

  lemma FeedLinear(s: bv16, x: byte, r: bv16, y: byte)
    ensures Feed(Plus(s, r), Difference(x, y)) == Plus(Feed(s, x), Feed(r, y))
  {
    hide Turn8, Plus, High, Difference;
    HighOfDifference(x, y);
    PlusExchange(s, r, High(x), High(y));
    Turn8Linear(Plus(s, High(x)), Plus(r, High(y)));
  }

  /** The register of a difference is the difference of the registers. */
  lemma {:induction false} DigestLinear(s: bv16, x: seq<byte>, r: bv16, y: seq<byte>)
    requires |x| == |y|
    ensures Digest(Plus(s, r), Differences(x, y)) == Plus(Digest(s, x), Digest(r, y))
    decreases |x|
  {
    hide Feed, Plus, Difference;
    if x != [] {
      FeedLinear(s, x[0], r, y[0]);
      DigestLinear(Feed(s, x[0]), x[1..], Feed(r, y[0]), y[1..]);
      assert Differences(x, y)[1..] == Differences(x[1..], y[1..]);
    }
  }

  // ----- backwards

  /** The inverse of eight turns. */
  function Back8(s: bv16): bv16 {
    (s >> 8) ^ ((((s & 0xff) ^ ((s << 5) & 0xff)) << 8) >> 11) ^ ((((s & 0xff) ^ ((s << 5) & 0xff)) << 8) >> 4)
      ^ (((s & 0xff) ^ ((s << 5) & 0xff)) << 8)
  }

  lemma BackOf(s: bv16)
    ensures
      Back8((s << 8) ^ (((s >> 8) ^ (s >> 12)) << 12) ^ (((s >> 8) ^ (s >> 12)) << 5) ^ ((s >> 8) ^ (s >> 12))) == s
  {
  }

  lemma BackTurns(s: bv16)
    ensures Back8(Turn8(s)) == s
  {
    hide Back8, Turn8;
    Turn8Of(s);
    BackOf(s);
  }
}
