/** The NID code as a BCH code: its words are the multiples of the generator of section 8.5.2 of TIA-102.BAAA-A, and
    any two differ in 23 bits at least. */
module NidCode {
  import opened Bch
  import opened Bits
  import opened Distance
  import opened Nid

  // ----- words as strings of bits, highest first

  predicate HighBit(w: bv64) { w & 0x8000000000000000 != 0 }

  function Left(w: bv64): bv64 { w << 1 }

  /** The first n bits of a word. */
  function WordBits(w: bv64, n: nat): (b: seq<bool>)
    ensures |b| == n
    decreases n
  {
    if n == 0 then [] else [HighBit(w)] + WordBits(Left(w), n - 1)
  }

  lemma LeftOf(w: bv64)
    ensures Left(w) == w << 1
  {
  }

  lemma LeftSum(w: bv64, x: bv64)
    ensures Left(w ^ x) == Add(w << 1, x << 1)
  {
  }

  lemma TopSum(w: bv64, x: bv64)
    ensures HighBit(w ^ x) == (HighBit(w) != HighBit(x))
  {
  }

  lemma LeftAdd(w: bv64, x: bv64)
    ensures Left(Add(w, x)) == Add(Left(w), Left(x))
    ensures HighBit(Add(w, x)) == (HighBit(w) != HighBit(x))
  {
    hide Left, Add, HighBit;
    AddOf(w, x);
    LeftOf(w);
    LeftOf(x);
    LeftSum(w, x);
    TopSum(w, x);
  }

  lemma XorCons(p: bool, a: seq<bool>, q: bool, b: seq<bool>)
    requires |a| == |b|
    ensures Xor([p] + a, [q] + b) == [p != q] + Xor(a, b)
  {
  }

  lemma {:induction false} WordBitsAdd(w: bv64, x: bv64, n: nat)
    ensures WordBits(Add(w, x), n) == Xor(WordBits(w, n), WordBits(x, n))
    decreases n
  {
    hide Add, Left, HighBit, Xor;
    if n > 0 {
      LeftAdd(w, x);
      WordBitsAdd(Left(w), Left(x), n - 1);
      XorCons(HighBit(w), WordBits(Left(w), n - 1), HighBit(x), WordBits(Left(x), n - 1));
    } else {
      NoBits();
    }
  }

  lemma {:induction false} SyndromeLinear(j: nat, a: seq<bool>, b: seq<bool>, s: elem, t: elem)
    requires |a| == |b|
    ensures Syndrome(j, Xor(a, b), Plus(s, t)) == Plus(Syndrome(j, a, s), Syndrome(j, b, t))
    decreases |a|
  {
    hide Plus, Power, Element, Xor;
    if a == [] {
      NoBits();
    } else {
      assert a == [a[0]] + a[1..] && b == [b[0]] + b[1..];
      XorCons(a[0], a[1..], b[0], b[1..]);
      ElementXor(a[0], b[0]);
      PowerLinear(j, s, t);
      PlusExchange(Power(j, s), Element(a[0]), Power(j, t), Element(b[0]));
      SyndromeLinear(j, a[1..], b[1..], Plus(Power(j, s), Element(a[0])), Plus(Power(j, t), Element(b[0])));
    }
  }

  lemma NoBits()
    ensures Xor([], []) == []
  {
  }

  lemma ElementXor(a: bool, b: bool)
    ensures Element(a != b) == Plus(Element(a), Element(b))
  {
  }

  // ----- eight bits at a time

  /** Multiplication of two elements. */
  function Mul(c: elem, v: elem): elem {
    ((0 - (c & 1)) & v)
    ^ ((0 - ((c >> 1) & 1)) & ((v << 1) ^ ((v >> 5) << 1) ^ (v >> 5)))
    ^ ((0 - ((c >> 2) & 1)) & ((v << 2) ^ ((v >> 4) << 1) ^ (v >> 4)))
    ^ ((0 - ((c >> 3) & 1)) & ((v << 3) ^ ((v >> 3) << 1) ^ (v >> 3)))
    ^ ((0 - ((c >> 4) & 1)) & ((v << 4) ^ ((v >> 2) << 1) ^ (v >> 2)))
    ^ ((0 - ((c >> 5) & 1)) & ((v << 5) ^ ((v >> 1) << 1) ^ (v >> 1)))
  }

  /** The powers of the primitive element. */
  function Alpha(j: nat): elem
    requires j <= 22
  {
    if j == 0 then 1 else if j == 1 then 2 else if j == 2 then 4 else if j == 3 then 8 else if j == 4 then 16
    else if j == 5 then 32 else if j == 6 then 3 else if j == 7 then 6 else if j == 8 then 12 else if j == 9
    then 24 else if j == 10 then 48 else if j == 11 then 35 else if j == 12 then 5 else if j == 13 then 10 else
    if j == 14 then 20 else if j == 15 then 40 else if j == 16 then 19 else if j == 17 then 38 else if j == 18
    then 15 else if j == 19 then 30 else if j == 20 then 60 else if j == 21 then 59 else if j == 22 then 53 else
    53
  }

  lemma LowAlphas(v: elem)
    ensures Mul(2, v) == Times(Mul(1, v))
    ensures Mul(4, v) == Times(Mul(2, v))
    ensures Mul(8, v) == Times(Mul(4, v))
    ensures Mul(16, v) == Times(Mul(8, v))
    ensures Mul(32, v) == Times(Mul(16, v))
    ensures Mul(3, v) == Times(Mul(32, v))
    ensures Mul(6, v) == Times(Mul(3, v))
    ensures Mul(12, v) == Times(Mul(6, v))
  {
  }

  lemma MiddleAlphas(v: elem)
    ensures Mul(24, v) == Times(Mul(12, v))
    ensures Mul(48, v) == Times(Mul(24, v))
    ensures Mul(35, v) == Times(Mul(48, v))
    ensures Mul(5, v) == Times(Mul(35, v))
    ensures Mul(10, v) == Times(Mul(5, v))
    ensures Mul(20, v) == Times(Mul(10, v))
    ensures Mul(40, v) == Times(Mul(20, v))
  {
  }

  lemma HighAlphas(v: elem)
    ensures Mul(19, v) == Times(Mul(40, v))
    ensures Mul(38, v) == Times(Mul(19, v))
    ensures Mul(15, v) == Times(Mul(38, v))
    ensures Mul(30, v) == Times(Mul(15, v))
    ensures Mul(60, v) == Times(Mul(30, v))
    ensures Mul(59, v) == Times(Mul(60, v))
    ensures Mul(53, v) == Times(Mul(59, v))
  {
  }

  lemma OneTimes(v: elem)
    ensures Mul(1, v) == v
  {
  }

  lemma AlphaStep(j: nat, v: elem)
    requires j < 22
    ensures Mul(Alpha(j + 1), v) == Times(Mul(Alpha(j), v))
  {
    hide Mul, Times;
    LowAlphas(v);
    MiddleAlphas(v);
    HighAlphas(v);
    match j
    case 0 => case 1 => case 2 => case 3 => case 4 => case 5 => case 6 => case 7 => case 8 => case 9 =>
    case 10 => case 11 => case 12 => case 13 => case 14 => case 15 => case 16 => case 17 => case 18 =>
    case 19 => case 20 => case _ =>
  }

  lemma {:induction false} PowerIsMul(j: nat, v: elem)
    requires j <= 22
    ensures Power(j, v) == Mul(Alpha(j), v)
  {
    hide Times, Mul;
    OneTimes(v);
    if j > 0 {
      PowerIsMul(j - 1, v);
      AlphaStep(j - 1, v);
    }
  }

  function Next(c: elem, s: elem, bit: bool): elem { Mul(c, s) ^ if bit then 1 else 0 }

  lemma NextAdds(c: elem, s: elem, bit: bool)
    ensures Next(c, s, bit) == Plus(Mul(c, s), Element(bit))
  {
    hide Mul;
  }

  /** The syndrome over a byte, at the element c. */
  function Octet(c: elem, s: elem, b: byte): elem {
    Next(c, Next(c, Next(c, Next(c, Next(c, Next(c, Next(c, Next(c, s,
      b & 0x80 != 0), b & 0x40 != 0), b & 0x20 != 0), b & 0x10 != 0),
      b & 0x08 != 0), b & 0x04 != 0), b & 0x02 != 0), b & 0x01 != 0)
  }

  lemma TopBits(w: bv64)
    ensures (w & 0x8000000000000000 != 0) == (((w >> 56) as byte) & 0x80 != 0)
    ensures ((w << 1) & 0x8000000000000000 != 0) == (((w >> 56) as byte) & 0x40 != 0)
    ensures ((w << 2) & 0x8000000000000000 != 0) == (((w >> 56) as byte) & 0x20 != 0)
    ensures ((w << 3) & 0x8000000000000000 != 0) == (((w >> 56) as byte) & 0x10 != 0)
    ensures ((w << 4) & 0x8000000000000000 != 0) == (((w >> 56) as byte) & 0x08 != 0)
    ensures ((w << 5) & 0x8000000000000000 != 0) == (((w >> 56) as byte) & 0x04 != 0)
    ensures ((w << 6) & 0x8000000000000000 != 0) == (((w >> 56) as byte) & 0x02 != 0)
    ensures ((w << 7) & 0x8000000000000000 != 0) == (((w >> 56) as byte) & 0x01 != 0)
  {
  }

  lemma Lefts(w: bv64)
    ensures Left(w) == w << 1 && Left(w << 1) == w << 2 && Left(w << 2) == w << 3 && Left(w << 3) == w << 4
    ensures Left(w << 4) == w << 5 && Left(w << 5) == w << 6 && Left(w << 6) == w << 7 && Left(w << 7) == w << 8
  {
  }

  lemma TopIs(w: bv64)
    ensures HighBit(w) <==> w & 0x8000000000000000 != 0
  {
  }

  lemma OneBit(j: nat, w: bv64, n: nat, s: elem)
    requires n > 0 && j <= 22
    ensures Syndrome(j, WordBits(w, n), s) == Syndrome(j, WordBits(Left(w), n - 1), Next(Alpha(j), s, HighBit(w)))
  {
    hide Power, Plus, Mul, Element, Left, HighBit, Alpha, Next;
    PowerIsMul(j, s);
    NextAdds(Alpha(j), s, HighBit(w));
    assert WordBits(w, n)[1..] == WordBits(Left(w), n - 1);
  }

  lemma EightBits(j: nat, w: bv64, n: nat, s: elem)
    requires j <= 22
    ensures Syndrome(j, WordBits(w, n + 8), s)
         == Syndrome(j, WordBits(w << 8, n), Octet(Alpha(j), s, (w >> 56) as byte))
  {
    hide Next, Left, HighBit, WordBits, Syndrome, Alpha;
    var c, b := Alpha(j), (w >> 56) as byte;
    TopBits(w);
    Lefts(w);
    TopIs(w);
    TopIs(w << 1);
    TopIs(w << 2);
    TopIs(w << 3);
    TopIs(w << 4);
    TopIs(w << 5);
    TopIs(w << 6);
    TopIs(w << 7);
    var s1 := Next(c, s, b & 0x80 != 0);
    var s2 := Next(c, s1, b & 0x40 != 0);
    var s3 := Next(c, s2, b & 0x20 != 0);
    var s4 := Next(c, s3, b & 0x10 != 0);
    var s5 := Next(c, s4, b & 0x08 != 0);
    var s6 := Next(c, s5, b & 0x04 != 0);
    OneBit(j, w, n + 8, s);
    OneBit(j, w << 1, n + 7, s1);
    OneBit(j, w << 2, n + 6, s2);
    OneBit(j, w << 3, n + 5, s3);
    OneBit(j, w << 4, n + 4, s4);
    OneBit(j, w << 5, n + 3, s5);
    OneBit(j, w << 6, n + 2, s6);
    OneBit(j, w << 7, n + 1, Next(c, s6, b & 0x02 != 0));
  }

  // ----- the generator

  /** 6331 1413 6723 5453 in octal: 48 coefficients, from that of x^47 down. */
  const GENERATOR: bv64 := 0xCD930BDD3B2B

  /** The generator at the element c. */
  function GeneratorAt(c: elem): elem {
    Octet(c, Octet(c, Octet(c, Octet(c, Octet(c, Octet(c, 0, 0xCD), 0x93), 0x0B), 0xDD), 0x3B), 0x2B)
  }

  lemma RootsA()
    ensures GeneratorAt(2) == 0
    ensures GeneratorAt(4) == 0
    ensures GeneratorAt(8) == 0
  {
  }

  lemma RootsB()
    ensures GeneratorAt(16) == 0
    ensures GeneratorAt(32) == 0
    ensures GeneratorAt(3) == 0
  {
  }

  lemma RootsC()
    ensures GeneratorAt(6) == 0
    ensures GeneratorAt(12) == 0
    ensures GeneratorAt(24) == 0
  {
  }

  lemma RootsD()
    ensures GeneratorAt(48) == 0
    ensures GeneratorAt(35) == 0
    ensures GeneratorAt(5) == 0
  {
  }

  lemma RootsE()
    ensures GeneratorAt(10) == 0
    ensures GeneratorAt(20) == 0
    ensures GeneratorAt(40) == 0
  {
  }

  lemma RootsF()
    ensures GeneratorAt(19) == 0
    ensures GeneratorAt(38) == 0
    ensures GeneratorAt(15) == 0
  {
  }

  lemma RootsG()
    ensures GeneratorAt(30) == 0
    ensures GeneratorAt(60) == 0
    ensures GeneratorAt(59) == 0
  {
  }

  lemma RootsH()
    ensures GeneratorAt(53) == 0
  {
  }

  /** The first 22 powers of the primitive element are roots of the generator. */
  lemma Roots(j: nat)
    requires 1 <= j <= 22
    ensures GeneratorAt(Alpha(j)) == 0
  {
    hide GeneratorAt;
    RootsA();
    RootsB();
    RootsC();
    RootsD();
    RootsE();
    RootsF();
    RootsG();
    RootsH();
    match j
    case 1 => case 2 => case 3 => case 4 => case 5 => case 6 => case 7 => case 8 => case 9 => case 10 =>
    case 11 => case 12 => case 13 => case 14 => case 15 => case 16 => case 17 => case 18 => case 19 =>
    case 20 => case 21 => case _ =>
  }

  // ----- multiples of the generator

  /** The generator times a power of x below 16; the last of the 64 bits is not part of the code. */
  function Shifted(k: nat): bv64
    requires k < 16
  {
    if k == 0 then GENERATOR << 1 else if k == 1 then GENERATOR << 2 else if k == 2 then GENERATOR << 3
    else if k == 3 then GENERATOR << 4 else if k == 4 then GENERATOR << 5 else if k == 5 then GENERATOR << 6
    else if k == 6 then GENERATOR << 7 else if k == 7 then GENERATOR << 8 else if k == 8 then GENERATOR << 9
    else if k == 9 then GENERATOR << 10 else if k == 10 then GENERATOR << 11 else if k == 11 then GENERATOR << 12
    else if k == 12 then GENERATOR << 13 else if k == 13 then GENERATOR << 14 else if k == 14 then GENERATOR << 15
    else GENERATOR << 16
  }

  /** The part that bit k of q makes, the highest being bit 0. */
  function Part(q: bv16, k: nat): bv64
    requires k < 16
  {
    if Masked(q, Mask(k)) != 0 then Shifted(15 - k) else 0
  }

  /** The part of the product of q and the generator that the first n bits of q make. */
  function Product16(q: bv16, n: nat): bv64
    requires n <= 16
  {
    if n == 0 then 0
    else Add(Product16(q, n - 1), Part(q, n - 1))
  }

  /** The product of q and the generator. */
  function Multiple(q: bv16): bv64 { Product16(q, 16) }

  lemma ShiftedStep(k: nat)
    requires k < 15
    ensures Left(Shifted(k)) == Shifted(k + 1) && !HighBit(Shifted(k))
    ensures Shifted(15) == 0xCD930BDD3B2B0000
  {
    match k
    case 0 => case 1 => case 2 => case 3 => case 4 => case 5 => case 6 => case 7 => case 8 => case 9 =>
    case 10 => case 11 => case 12 => case 13 => case _ =>
  }

  lemma FirstZero(j: nat, w: bv64, n: nat)
    requires n > 0 && !HighBit(w)
    ensures Syndrome(j, WordBits(w, n), 0) == Syndrome(j, WordBits(Left(w), n - 1), 0)
  {
    hide Power, Plus, Left, HighBit;
    PowerZero(j, 0);
    PlusLaws(0, 0);
    assert WordBits(w, n)[1..] == WordBits(Left(w), n - 1);
  }

  lemma {:induction false} ZeroWord(j: nat, n: nat)
    ensures Syndrome(j, WordBits(0, n), 0) == 0
  {
    hide Syndrome, WordBits;
    if n == 0 {
      NothingLeft(j);
    } else {
      ZeroTop();
      FirstZero(j, 0, n);
      ZeroWord(j, n - 1);
    }
  }

  lemma ZeroTop()
    ensures !HighBit(0) && Left(0) == 0
  {
  }

  lemma NothingLeft(j: nat)
    ensures Syndrome(j, WordBits(0, 0), 0) == 0
  {
  }

  lemma {:induction false} ShiftedDown(j: nat, k: nat, n: nat)
    requires k < 16 && n >= 15 - k
    ensures Syndrome(j, WordBits(Shifted(k), n), 0) == Syndrome(j, WordBits(Shifted(15), n - (15 - k)), 0)
    decreases 15 - k
  {
    hide Syndrome, WordBits, Shifted, Left, HighBit;
    if k < 15 {
      ShiftedStep(k);
      FirstZero(j, Shifted(k), n);
      ShiftedDown(j, k + 1, n - 1);
    }
  }

  /** The syndrome of the generator, however many zeros follow it. */
  lemma GeneratorVanishes(j: nat, k: nat)
    requires 1 <= j <= 22
    ensures Syndrome(j, WordBits(0xCD930BDD3B2B0000, 48 + k), 0) == 0
  {
    hide Syndrome, WordBits, Octet, Alpha;
    var c := Alpha(j);
    var s1 := Octet(c, 0, 0xCD);
    var s2 := Octet(c, s1, 0x93);
    var s3 := Octet(c, s2, 0x0B);
    var s4 := Octet(c, s3, 0xDD);
    var s5 := Octet(c, s4, 0x3B);
    EightBits(j, 0xCD930BDD3B2B0000, 40 + k, 0);
    EightBits(j, 0x930BDD3B2B000000, 32 + k, s1);
    EightBits(j, 0x0BDD3B2B00000000, 24 + k, s2);
    EightBits(j, 0xDD3B2B0000000000, 16 + k, s3);
    EightBits(j, 0x3B2B000000000000, 8 + k, s4);
    EightBits(j, 0x2B00000000000000, k, s5);
    Roots(j);
    ZeroWord(j, k);
  }

  lemma ShiftedVanishes(j: nat, k: nat)
    requires k < 16 && 1 <= j <= 22
    ensures Syndrome(j, WordBits(Shifted(k), 63), 0) == 0
  {
    hide Syndrome, WordBits;
    ShiftedDown(j, k, 63);
    ShiftedStep(0);
    GeneratorVanishes(j, k);
  }

  lemma SumVanishes(j: nat, w: bv64, x: bv64)
    requires Syndrome(j, WordBits(w, 63), 0) == 0 && Syndrome(j, WordBits(x, 63), 0) == 0
    ensures Syndrome(j, WordBits(Add(w, x), 63), 0) == 0
  {
    hide Syndrome, WordBits, Add, Plus;
    WordBitsAdd(w, x, 63);
    SyndromeLinear(j, WordBits(w, 63), WordBits(x, 63), 0, 0);
    PlusLaws(0, 0);
  }

  lemma {:induction false} ProductVanishes16(q: bv16, n: nat, j: nat)
    requires n <= 16 && 1 <= j <= 22
    ensures Syndrome(j, WordBits(Product16(q, n), 63), 0) == 0
  {
    hide Syndrome, WordBits, Add, Masked, Mask, Shifted;
    ZeroWord(j, 63);
    if n > 0 {
      ProductVanishes16(q, n - 1, j);
      ShiftedVanishes(j, 16 - n);
      SumVanishes(j, Product16(q, n - 1), Part(q, n - 1));
    }
  }

  // ----- codewords are multiples

  lemma {:induction false} ProductLinear(p: bv16, q: bv16, n: nat)
    requires n <= 16
    ensures Product16(Add16(p, q), n) == Add(Product16(p, n), Product16(q, n))
  {
    hide Add, Add16, Mask, Masked, Shifted;
    AddSelf(0);
    if n > 0 {
      var s := Shifted(16 - n);
      ProductLinear(p, q, n - 1);
      MaskedLinear(p, q, n - 1);
      AddSelf(s);
      AddNothing(s);
      AddExchange(Product16(p, n - 1), Part(p, n - 1), Product16(q, n - 1), Part(q, n - 1));
    }
  }

  /** What the check bits of matrix row i are a multiple of the generator by. */
  function RowQuotient(i: nat): bv16
    requires i < 16
  {
    0xF11B >> i
  }

  /** The last bit of row i. */
  function RowLast(i: nat): bv64 { if i < 14 then 0 else 1 }

  lemma ProductInFull(q: bv16)
    ensures Multiple(q)
         == Add(Add(Add(Add(Add(Add(Add(Add(Product16(q, 8), Part(q, 8)), Part(q, 9)), Part(q, 10)), Part(q, 11)),
              Part(q, 12)), Part(q, 13)), Part(q, 14)), Part(q, 15))
    ensures Product16(q, 8)
         == Add(Add(Add(Add(Add(Add(Add(Add(0, Part(q, 0)),
              Part(q, 1)), Part(q, 2)), Part(q, 3)), Part(q, 4)), Part(q, 5)), Part(q, 6)), Part(q, 7))
  {
    hide Add, Part, Product16;
    ProductStep(q, 0);
    ProductStep(q, 1);
    ProductStep(q, 2);
    ProductStep(q, 3);
    ProductStep(q, 4);
    ProductStep(q, 5);
    ProductStep(q, 6);
    ProductStep(q, 7);
    ProductStep(q, 8);
    ProductStep(q, 9);
    ProductStep(q, 10);
    ProductStep(q, 11);
    ProductStep(q, 12);
    ProductStep(q, 13);
    ProductStep(q, 14);
    ProductStep(q, 15);
  }

  lemma ProductStep(q: bv16, n: nat)
    requires n < 16
    ensures Product16(q, n + 1) == Add(Product16(q, n), Part(q, n)) && Product16(q, 0) == 0
  {
    hide Add, Part;
  }

  lemma HighRows(i: nat)
    requires i < 8
    ensures Row(i) == Add(Multiple(RowQuotient(i)), RowLast(i))
  {
    hide Multiple, Product16;
    ProductInFull(RowQuotient(i));
    match i
    case 0 => case 1 => case 2 => case 3 => case 4 => case 5 => case 6 => case _ =>
  }

  lemma LowRows(i: nat)
    requires 8 <= i < 16
    ensures Row(i) == Add(Multiple(RowQuotient(i)), RowLast(i))
  {
    hide Multiple, Product16;
    ProductInFull(RowQuotient(i));
    match i
    case 8 => case 9 => case 10 => case 11 => case 12 => case 13 => case 14 => case _ =>
  }

  /** What q of the product makes a codeword's check bits, from the first n bits of the data. */
  function Quotient(data: bv16, n: nat): bv16
    requires n <= 16
  {
    if n == 0 then 0
    else Add16(Quotient(data, n - 1), if Masked(data, Mask(n - 1)) != 0 then RowQuotient(n - 1) else 0)
  }

  function Last(data: bv16, n: nat): bv64
    requires n <= 16
  {
    if n == 0 then 0 else Add(Last(data, n - 1), if Masked(data, Mask(n - 1)) != 0 then RowLast(n - 1) else 0)
  }

  lemma ZeroMultiple()
    ensures Multiple(0) == 0
  {
    hide Add, Mask, Product16, Shifted;
    ProductInFull(0);
    NoParts();
    AddNothing(0);
  }

  lemma NoParts()
    ensures forall k: nat :: k < 16 ==> Part(0, k) == 0
  {
    hide Mask;
  }

  lemma MultipleLinear(p: bv16, q: bv16)
    ensures Multiple(Add16(p, q)) == Add(Multiple(p), Multiple(q))
  {
    hide Product16, Add, Add16;
    ProductLinear(p, q, 16);
  }

  lemma {:induction false} SumIsMultiple(data: bv16, n: nat)
    requires n <= 16
    ensures Nid.Sum(data, n) == Add(Multiple(Quotient(data, n)), Last(data, n))
  {
    hide Multiple, Row, Add, Add16, Mask, Masked, RowQuotient, RowLast;
    ZeroMultiple();
    AddNothing(0);
    if n > 0 {
      SumIsMultiple(data, n - 1);
      var q, l := Quotient(data, n - 1), Last(data, n - 1);
      if n - 1 < 8 {
        HighRows(n - 1);
      } else {
        LowRows(n - 1);
      }
      var p, r := if Masked(data, Mask(n - 1)) != 0 then RowQuotient(n - 1) else 0,
                  if Masked(data, Mask(n - 1)) != 0 then RowLast(n - 1) else 0;
      MultipleLinear(q, p);
      AddExchange(Multiple(q), l, Multiple(p), r);
    }
  }

  // ----- the last bit

  /** The last of the 64 bits is no part of the BCH code: the sum of the two lowest data bits. */
  function LastBit(data: bv16): bv64 { if (data & 1 != 0) != (data & 2 != 0) then 1 else 0 }

  lemma {:induction false} NoLastYet(data: bv16, n: nat)
    requires n <= 14
    ensures Last(data, n) == 0
  {
    hide Add, Mask, Masked;
    AddNothing(0);
    if n > 0 {
      NoLastYet(data, n - 1);
    }
  }

  lemma LowBits(data: bv16)
    ensures Masked(data, Mask(14)) != 0 <==> data & 2 != 0
    ensures Masked(data, Mask(15)) != 0 <==> data & 1 != 0
  {
  }

  lemma LastIs(data: bv16)
    ensures Last(data, 16) == LastBit(data)
  {
    hide Add, Mask, Masked;
    NoLastYet(data, 14);
    LowBits(data);
    AddNothing(0);
    AddNothing(1);
    AddSelf(1);
    assert Last(data, 15) == Add(Last(data, 14), if Masked(data, Mask(14)) != 0 then 1 else 0);
  }

  lemma ShiftedEven(k: nat)
    requires k < 16
    ensures Shifted(k) & 1 == 0
  {
  }

  lemma EvenAdd(w: bv64, x: bv64)
    requires w & 1 == 0 && x & 1 == 0
    ensures Add(w, x) & 1 == 0
  {
  }

  lemma {:induction false} ProductEven(q: bv16, n: nat)
    requires n <= 16
    ensures Product16(q, n) & 1 == 0
  {
    hide Add, Mask, Masked, Shifted;
    if n > 0 {
      ProductEven(q, n - 1);
      ShiftedEven(16 - n);
      EvenAdd(Product16(q, n - 1), Part(q, n - 1));
    }
  }

  /** Every codeword is, without its last bit, a multiple of the generator; the last bit is the sum of the two
      lowest bits of the data. */
  lemma CodewordIsMultiple(data: bv16)
    ensures Encoded(data) == Add(Multiple(Quotient(data, 16)), LastBit(data))
    ensures Multiple(Quotient(data, 16)) & 1 == 0
  {
    hide Nid.Sum, Multiple, Quotient, Last, LastBit, Add;
    SumIsMultiple(data, 16);
    LastIs(data);
    EvenMultiple(Quotient(data, 16));
  }

  lemma EvenMultiple(q: bv16)
    ensures Multiple(q) & 1 == 0
  {
    hide Product16;
    ProductEven(q, 16);
  }

  // ----- syndromes of codewords

  lemma NothingAdded(c: elem)
    ensures Octet(c, 0, 0) == 0
  {
  }

  /** The last bit alone shows in no syndrome. */
  lemma OneVanishes(j: nat)
    requires 1 <= j <= 22
    ensures Syndrome(j, WordBits(1, 63), 0) == 0
  {
    hide Syndrome, WordBits, Octet, Alpha;
    NothingAdded(Alpha(j));
    EightBits(j, 1, 55, 0);
    EightBits(j, 1 << 8, 47, 0);
    EightBits(j, 1 << 16, 39, 0);
    EightBits(j, 1 << 24, 31, 0);
    EightBits(j, 1 << 32, 23, 0);
    EightBits(j, 1 << 40, 15, 0);
    EightBits(j, 1 << 48, 7, 0);
    FirstZero(j, 1 << 56, 7);
    FirstZero(j, 1 << 57, 6);
    FirstZero(j, 1 << 58, 5);
    FirstZero(j, 1 << 59, 4);
    FirstZero(j, 1 << 60, 3);
    FirstZero(j, 1 << 61, 2);
    FirstZero(j, 1 << 62, 1);
    NoBitsLeft(j, 1 << 63);
  }

  lemma NoBitsLeft(j: nat, w: bv64)
    ensures Syndrome(j, WordBits(w, 0), 0) == 0
  {
  }

  /** The receiver's test of the first 63 bits of a NID: the syndromes at 1 to 22 vanish. */
  predicate Clean(w: bv64) { Vanish(WordBits(w, 63)) }

  lemma MultipleClean(q: bv16, last: bv64)
    requires last == 0 || last == 1
    ensures Clean(Add(Multiple(q), last))
  {
    hide Syndrome, WordBits, Add, Product16;
    forall j: nat | 1 <= j <= 22
      ensures Syndrome(j, WordBits(Add(Multiple(q), last), 63), 0) == 0
    {
      ProductVanishes16(q, 16, j);
      OneVanishes(j);
      ZeroWord(j, 63);
      SumVanishes(j, Multiple(q), last);
    }
  }

  /** Every codeword passes it. */
  lemma CodewordClean(data: bv16)
    ensures Clean(Encoded(data))
  {
    hide Clean, Multiple, Quotient, Encoded, Add;
    CodewordIsMultiple(data);
    MultipleClean(Quotient(data, 16), LastBit(data));
  }

  // ----- distance

  predicate AllClear(b: seq<bool>) { forall i :: 0 <= i < |b| ==> !b[i] }

  lemma ClearTail(p: bool, b: seq<bool>)
    requires AllClear([p] + b)
    ensures !p && AllClear(b)
  {
    assert ([p] + b)[0] == p && forall i :: 0 <= i < |b| ==> ([p] + b)[i + 1] == b[i];
  }

  lemma ClearBit(w: bv64, n: nat)
    requires n > 0 && AllClear(WordBits(w, n))
    ensures !HighBit(w) && AllClear(WordBits(Left(w), n - 1))
  {
    hide AllClear, HighBit, Left;
    ClearTail(HighBit(w), WordBits(Left(w), n - 1));
  }

  lemma ByteFromBits(b: byte)
    requires b & 0x80 == 0 && b & 0x40 == 0 && b & 0x20 == 0 && b & 0x10 == 0
    requires b & 0x08 == 0 && b & 0x04 == 0 && b & 0x02 == 0 && b & 0x01 == 0
    ensures b == 0
  {
  }

  lemma ClearByte(w: bv64, n: nat)
    requires AllClear(WordBits(w, n + 8))
    ensures (w >> 56) as byte == 0 && AllClear(WordBits(w << 8, n))
  {
    hide AllClear, WordBits, Left, HighBit;
    TopBits(w);
    Lefts(w);
    TopIs(w);
    TopIs(w << 1);
    TopIs(w << 2);
    TopIs(w << 3);
    TopIs(w << 4);
    TopIs(w << 5);
    TopIs(w << 6);
    TopIs(w << 7);
    ClearBit(w, n + 8);
    ClearBit(w << 1, n + 7);
    ClearBit(w << 2, n + 6);
    ClearBit(w << 3, n + 5);
    ClearBit(w << 4, n + 4);
    ClearBit(w << 5, n + 3);
    ClearBit(w << 6, n + 2);
    ClearBit(w << 7, n + 1);
    ByteFromBits((w >> 56) as byte);
  }

  lemma HighFromBytes(w: bv64)
    requires (w >> 56) as byte == 0 && ((w << 8) >> 56) as byte == 0
    ensures High(w) == 0
  {
  }

  lemma ZeroSum16(a: bv16, b: bv16)
    requires a ^ b == 0
    ensures a == b
  {
  }

  lemma SumWeight(a: bv16, b: bv16)
    ensures Hamming(WordBits(Encoded(a), 63), WordBits(Encoded(b), 63)) == |Exponents(WordBits(Encoded(a ^ b), 63))|
  {
    hide WordBits, Encoded, Add;
    Linear(a, b);
    WordBitsAdd(Encoded(a), Encoded(b), 63);
    HammingIsWeight(WordBits(Encoded(a), 63), WordBits(Encoded(b), 63));
  }

  lemma {:induction false} NoExponents(b: seq<bool>)
    requires Exponents(b) == []
    ensures AllClear(b)
  {
    if b != [] {
      NoExponents(b[1..]);
      assert b == [b[0]] + b[1..];
    }
  }

  /** Different data words are coded at least 23 bits apart, the last bit not counted. */
  lemma NidDistance(a: bv16, b: bv16)
    requires a != b
    ensures Hamming(WordBits(Encoded(a), 63), WordBits(Encoded(b), 63)) >= 23
  {
    hide WordBits, Encoded, Exponents, AllClear, Vanish, High;
    SumWeight(a, b);
    var w := Encoded(a ^ b);
    CodewordClean(a ^ b);
    BchBound(WordBits(w, 63));
    if Exponents(WordBits(w, 63)) == [] {
      NoExponents(WordBits(w, 63));
      ClearByte(w, 55);
      ClearByte(w << 8, 47);
      HighFromBytes(w);
      Systematic(a ^ b);
      ZeroSum16(a, b);
    }
  }

  // ----- twenty-three is the least

  lemma SumStep16(data: bv16, n: nat)
    requires n < 16
    ensures Nid.Sum(data, n + 1) == Add(Nid.Sum(data, n), Nid.Term(data, n)) && Nid.Sum(data, 0) == 0
  {
    hide Add, Nid.Term;
  }

  lemma {:induction false} NoTerms(data: bv16, m: nat, n: nat)
    requires m <= n <= 16 && forall i :: m <= i < n ==> Nid.Term(data, i) == 0
    ensures Nid.Sum(data, n) == Nid.Sum(data, m)
    decreases n - m
  {
    hide Add, Nid.Term;
    if m < n {
      NoTerms(data, m, n - 1);
      SumStep16(data, n - 1);
      AddNothing(Nid.Sum(data, m));
    }
  }

  lemma OneTerm(i: nat)
    requires i < 16
    ensures Nid.Term(0x1000, i) == if i == 3 then 0x10004C1F2662743A else 0
    ensures Nid.Term(0, i) == 0
  {
  }

  lemma TwoWords()
    ensures Encoded(0x1000) == 0x10004C1F2662743A && Encoded(0) == 0
  {
    hide Add, Nid.Term, Nid.Sum;
    forall i | 0 <= i < 16
      ensures Nid.Term(0x1000, i) == (if i == 3 then 0x10004C1F2662743A else 0) && Nid.Term(0, i) == 0
    {
      OneTerm(i);
    }
    NoTerms(0x1000, 0, 3);
    NoTerms(0x1000, 4, 16);
    NoTerms(0, 0, 16);
    SumStep16(0x1000, 3);
    SumStep16(0, 0);
    SumStep16(0x1000, 0);
    AddNothing(0x10004C1F2662743A);
  }

  function One(b: bool): nat { if b then 1 else 0 }

  function CountOf(p: bool, q: bool, r: bool, s: bool, t: bool, u: bool, v: bool, w: bool): nat {
    One(p) + One(q) + One(r) + One(s) + One(t) + One(u) + One(v) + One(w)
  }

  function OnesOf(b: byte): nat {
    CountOf(b & 0x80 != 0, b & 0x40 != 0, b & 0x20 != 0, b & 0x10 != 0,
      b & 0x08 != 0, b & 0x04 != 0, b & 0x02 != 0, b & 0x01 != 0)
  }

  lemma TopCount(w: bv64)
    ensures OnesOf((w >> 56) as byte)
         == CountOf(HighBit(w), HighBit(w << 1), HighBit(w << 2), HighBit(w << 3),
              HighBit(w << 4), HighBit(w << 5), HighBit(w << 6), HighBit(w << 7))
  {
    hide HighBit, CountOf;
    TopBits(w);
    TopIs(w);
    TopIs(w << 1);
    TopIs(w << 2);
    TopIs(w << 3);
    TopIs(w << 4);
    TopIs(w << 5);
    TopIs(w << 6);
    TopIs(w << 7);
  }

  lemma OneOne(w: bv64, n: nat)
    requires n > 0
    ensures |Exponents(WordBits(w, n))| == One(HighBit(w)) + |Exponents(WordBits(Left(w), n - 1))|
    ensures |Exponents(WordBits(w, 0))| == 0
  {
    hide HighBit, Left;
    assert WordBits(w, n)[1..] == WordBits(Left(w), n - 1);
  }

  lemma EightOnes(w: bv64, n: nat)
    ensures |Exponents(WordBits(w, n + 8))| == OnesOf((w >> 56) as byte) + |Exponents(WordBits(w << 8, n))|
  {
    hide WordBits, Exponents, Left, HighBit, One, OnesOf;
    TopCount(w);
    Lefts(w);
    OneOne(w, n + 8);
    OneOne(w << 1, n + 7);
    OneOne(w << 2, n + 6);
    OneOne(w << 3, n + 5);
    OneOne(w << 4, n + 4);
    OneOne(w << 5, n + 3);
    OneOne(w << 6, n + 2);
    OneOne(w << 7, n + 1);
  }

  lemma WordOfWeight23()
    ensures |Exponents(WordBits(0x10004C1F2662743A, 63))| == 23
  {
    hide WordBits, Exponents;
    EightOnes(0x10004C1F2662743A, 55);
    EightOnes(0x004C1F2662743A00, 47);
    EightOnes(0x4C1F2662743A0000, 39);
    EightOnes(0x1F2662743A000000, 31);
    EightOnes(0x2662743A00000000, 23);
    EightOnes(0x62743A0000000000, 15);
    EightOnes(0x743A000000000000, 7);
    LastSeven();
  }

  lemma LastSeven()
    ensures |Exponents(WordBits(0x3A00000000000000, 7))| == 4
  {
    hide WordBits, Exponents;
    OneOne(0x3A00000000000000, 7);
    OneOne(0x7400000000000000, 6);
    OneOne(0xE800000000000000, 5);
    OneOne(0xD000000000000000, 4);
    OneOne(0xA000000000000000, 3);
    OneOne(0x4000000000000000, 2);
    OneOne(0x8000000000000000, 1);
    OneOne(0x0000000000000000, 1);
  }

  /** Two NIDs just 23 bits apart. */
  lemma NidLimit()
    ensures Hamming(WordBits(Encoded(0x1000), 63), WordBits(Encoded(0), 63)) == 23
  {
    hide WordBits, Encoded, Exponents;
    SumWeight(0x1000, 0);
    TwoWords();
    WordOfWeight23();
    assert 0x1000 ^ 0 == (0x1000 as bv16);
  }

  /** A NID with at most eleven errors in its first 63 bits is nearest to the one that was sent. */
  lemma NearestNid(a: bv16, b: bv16, heard: seq<bool>)
    requires a != b && |heard| == 63 && Hamming(heard, WordBits(Encoded(a), 63)) <= 11
    ensures Hamming(heard, WordBits(Encoded(b), 63)) > Hamming(heard, WordBits(Encoded(a), 63))
  {
    hide WordBits, Encoded;
    NidDistance(a, b);
    HammingTriangle(WordBits(Encoded(a), 63), heard, WordBits(Encoded(b), 63));
  }
}
