/** What the CRC guarantees: a damaged codeword passes the check exactly when the damage is a multiple
    of the generator, which rules out short bursts, odd weights and double errors. */
module CrcDetection {
  import opened Bits
  import opened Crc
  import opened CrcBytes
  import opened Distance

  // ----- linearity, from the uniqueness of remainders

  lemma CoefXor(a: seq<bool>, b: seq<bool>, e: int)
    requires |a| == |b|
    ensures Coef(Xor(a, b), e) == (Coef(a, e) != Coef(b, e))
  {
  }

  lemma TimesXor(a: seq<bool>, b: seq<bool>, e: int)
    requires |a| == |b|
    ensures TimesGenerator(Xor(a, b), e) == (TimesGenerator(a, e) != TimesGenerator(b, e))
  {
    hide Coef;
    CoefXor(a, b, e - 16);
    CoefXor(a, b, e - 12);
    CoefXor(a, b, e - 5);
    CoefXor(a, b, e);
  }

  lemma DivisionXor(a: seq<bool>, qa: seq<bool>, ra: seq<bool>, b: seq<bool>, qb: seq<bool>, rb: seq<bool>)
    requires |a| == |b| && |qa| == |qb| && |ra| == |rb|
    requires Division(a, qa, ra) && Division(b, qb, rb)
    ensures Division(Xor(a, b), Xor(qa, qb), Xor(ra, rb))
  {
    hide TimesGenerator, Coef;
    forall e: int
      ensures Coef(Xor(ra, rb), e) == (Coef(Xor(a, b), e - 16) != TimesGenerator(Xor(qa, qb), e))
    {
      CoefXor(ra, rb, e);
      CoefXor(a, b, e - 16);
      TimesXor(qa, qb, e);
    }
  }

  /** The register is linear: the remainder of a sum is the sum of the remainders. */
  lemma RunLinear(a: seq<bool>, b: seq<bool>)
    requires |a| == |b|
    ensures Bits16(Run(0, Xor(a, b))) == Xor(Bits16(Run(0, a)), Bits16(Run(0, b)))
  {
    hide Division, Bits16;
    var ra, rb := Bits16(Run(0, a)), Bits16(Run(0, b));
    RunDivides(a);
    RunDivides(b);
    DivisionXor(a, Quotient(a), ra, b, Quotient(b), rb);
    assert IsRemainder(Xor(a, b), Xor(ra, rb));
    RunIsRemainder(Xor(a, b), Xor(ra, rb));
  }

  // ----- a zero remainder means a multiple of the generator

  lemma ZeroBits(w: bv16)
    ensures w == 0 <==> Bits16(w) == Zeros(16)
  {
    if w == 0 {
      forall k | 0 <= k < 16
        ensures !Bits16(0)[k]
      {
        ZeroBit(15 - k);
      }
    } else if Bits16(w) == Zeros(16) {
      ZeroWord(w);
    }
  }

  lemma CoefZeros(n: nat, e: int)
    ensures !Coef(Zeros(n), e)
  {
  }

  lemma CoefShifted(q: seq<bool>, n: nat, e: int)
    ensures Coef(q + Zeros(n), e) == Coef(q, e - n)
  {
  }

  lemma TimesShifted(q: seq<bool>, n: nat, e: int)
    ensures TimesGenerator(q + Zeros(n), e) == TimesGenerator(q, e - n)
  {
    hide Coef;
    CoefShifted(q, n, e - 16);
    CoefShifted(q, n, e - 12);
    CoefShifted(q, n, e - 5);
    CoefShifted(q, n, e);
  }

  /** If x^16 divides q(x) * generator then x^16 divides q(x): the generator ends in 1. */
  lemma {:induction false} LowTermsVanish(m: seq<bool>, q: seq<bool>, e: nat)
    requires Division(m, q, Zeros(16)) && e < 16
    ensures forall j :: 0 <= j <= e ==> !Coef(q, j)
  {
    if e > 0 {
      LowTermsVanish(m, q, e - 1);
    }
    CoefZeros(16, e);
    assert !TimesGenerator(q, e);
  }

  /** The register ends at zero exactly on the multiples of the generator. */
  lemma ZeroRunIsMultiple(m: seq<bool>)
    ensures Run(0, m) == 0 <==> IsMultiple(m)
  {
    hide Bits16, TimesGenerator;
    ZeroBits(Run(0, m));
    if Run(0, m) == 0 {
      RunDivides(m);
      var q := Quotient(m);
      LowTermsVanish(m, q, 15);
      var k := if |q| < 16 then 0 else |q| - 16;
      var high := q[..k];
      assert forall j :: Coef(q, j) == Coef(high + Zeros(16), j);
      forall e: int
        ensures Coef(m, e) == TimesGenerator(high, e)
      {
        CoefZeros(16, e + 16);
        assert Coef(Zeros(16), e + 16) == (Coef(m, e + 16 - 16) != TimesGenerator(q, e + 16));
        SameProduct(q, high + Zeros(16), e + 16);
        TimesShifted(high, 16, e + 16);
      }
      assert QuotientOf(m, high);
    }
    if IsMultiple(m) {
      var q :| QuotientOf(m, q);
      forall e: int
        ensures Coef(Zeros(16), e) == (Coef(m, e - 16) != TimesGenerator(q + Zeros(16), e))
      {
        CoefZeros(16, e);
        TimesShifted(q, 16, e);
      }
      assert Division(m, q + Zeros(16), Zeros(16));
      RunIsRemainder(m, Zeros(16));
    }
  }

  // ----- bursts

  lemma {:induction false} LowestTerm(q: seq<bool>, h: nat) returns (l: nat)
    requires Coef(q, h)
    ensures l <= h && Coef(q, l) && forall j :: 0 <= j < l ==> !Coef(q, j)
  {
    l := h;
    if j :| 0 <= j < h && Coef(q, j) {
      l := LowestTerm(q, j);
    }
  }

  /** A nonzero multiple of the generator has two terms at least sixteen powers apart. */
  lemma MultipleIsWide(m: seq<bool>, i: nat)
    requires IsMultiple(m) && i < |m| && m[i]
    ensures exists j, k :: 0 <= j && j + 16 <= k < |m| && m[j] && m[k]
  {
    var q :| QuotientOf(m, q);
    assert Coef(m, |m| - 1 - i);
    NonzeroFactor(q, |m| - 1 - i);
    assert forall j :: !Coef([], j);
    var e :| Coef(q, e) != Coef([], e);
    var h := HighestDifference(q, [], |q|);
    var l := LowestTerm(q, h);
    assert forall j :: h < j ==> !Coef(q, j);
    assert Coef(m, h + 16) == TimesGenerator(q, h + 16);
    assert Coef(m, l) == TimesGenerator(q, l);
    assert m[|m| - 1 - (h + 16)] && m[|m| - 1 - l];
  }

  lemma NonzeroFactor(q: seq<bool>, e: int)
    requires TimesGenerator(q, e)
    ensures exists j :: Coef(q, j)
  {
  }

  /** A nonzero pattern confined to sixteen neighbouring bits leaves a remainder. */
  lemma BurstDetected(m: seq<bool>, i: nat, start: int)
    requires i < |m| && m[i]
    requires forall k :: 0 <= k < |m| && m[k] ==> start <= k < start + 16
    ensures Run(0, m) != 0
  {
    ZeroRunIsMultiple(m);
    if IsMultiple(m) {
      MultipleIsWide(m, i);
    }
  }

  // ----- odd weights

  predicate Odd(x: seq<bool>) {
    if x == [] then false else x[0] != Odd(x[1..])
  }

  lemma {:induction false} OddAppend(x: seq<bool>, y: seq<bool>)
    ensures Odd(x + y) == (Odd(x) != Odd(y))
  {
    if x == [] {
      assert x + y == y;
    } else {
      OddAppend(x[1..], y);
      assert (x + y)[1..] == x[1..] + y;
    }
  }

  lemma {:induction false} OddXor(x: seq<bool>, y: seq<bool>)
    requires |x| == |y|
    ensures Odd(Xor(x, y)) == (Odd(x) != Odd(y))
  {
    if x != [] {
      OddXor(x[1..], y[1..]);
      assert Xor(x, y)[1..] == Xor(x[1..], y[1..]);
    }
  }

  lemma {:induction false} OddZeros(n: nat)
    ensures !Odd(Zeros(n))
  {
    if n > 0 {
      OddZeros(n - 1);
      assert Zeros(n)[1..] == Zeros(n - 1);
    }
  }

  /** x^12 + x^5 + 1, the part of the generator that is folded into the register. */
  function Folded(): (g: seq<bool>)
    ensures |g| == 16
  {
    Zeros(3) + ([true] + (Zeros(6) + ([true] + (Zeros(4) + [true]))))
  }

  lemma OddFolded()
    ensures Odd(Folded())
  {
    OddZeros(3); OddZeros(6); OddZeros(4);
    OddAppend(Zeros(4), [true]);
    OddAppend([true], Zeros(4) + [true]);
    OddAppend(Zeros(6), [true] + (Zeros(4) + [true]));
    OddAppend([true], Zeros(6) + ([true] + (Zeros(4) + [true])));
    OddAppend(Zeros(3), [true] + (Zeros(6) + ([true] + (Zeros(4) + [true]))));
  }

  lemma StepBits(s: bv16, b: bool)
    ensures
      var shifted := Bits16(s)[1..] + [false];
      Bits16(Step(s, b)) == if Bits16(s)[0] != b then Xor(shifted, Folded()) else shifted
  {
    hide Step, Bit16;
    forall k | 0 <= k < 16
      ensures Bits16(Step(s, b))[k]
           == ((k < 15 && Bits16(s)[k + 1]) != ((Bits16(s)[0] != b) && (k == 3 || k == 10 || k == 15)))
    {
      StepBit(s, b, 15 - k);
    }
  }

  lemma {:induction false} RunKeepsParity(s: bv16, m: seq<bool>)
    ensures Odd(Bits16(Run(s, m))) == (Odd(Bits16(s)) != Odd(m))
    decreases |m|
  {
    hide Step, Bits16;
    if m != [] {
      StepBits(s, m[0]);
      RunKeepsParity(Step(s, m[0]), m[1..]);
      OddAppend(Bits16(s)[1..], [false]);
      OddXor(Bits16(s)[1..] + [false], Folded());
      OddFolded();
    }
  }

  /** So does a pattern of odd weight, */
  lemma OddDetected(m: seq<bool>)
    requires Odd(m)
    ensures Run(0, m) != 0
  {
    hide Bits16;
    RunKeepsParity(0, m);
    ZeroBits(0);
    OddZeros(16);
  }

  lemma {:induction false} OddDifference(x: seq<bool>, y: seq<bool>)
    requires |x| == |y|
    ensures Odd(Xor(x, y)) <==> Hamming(x, y) % 2 == 1
  {
    if x != [] {
      OddDifference(x[1..], y[1..]);
      assert Xor(x, y)[1..] == Xor(x[1..], y[1..]);
    }
  }

  // ----- double errors

  lemma StepFromZero()
    ensures Step(0, false) == 0
    ensures Step(0, true) == 0x1021
  {
  }

  lemma StepToZero(s: bv16)
    ensures Step(s, false) == 0 ==> s == 0
    ensures Step(s, true) == 0 ==> s == 0x8000
  {
  }

  lemma TurnToZero(s: bv16)
    ensures Turn(s) == 0 <==> s == 0
  {
    hide Step, Turn;
    TurnIsStep(s);
    StepFromZero();
    StepToZero(s);
  }

  lemma RunBit(s: bv16, b: bool)
    ensures Run(s, [b]) == Step(s, b)
  {
    hide Step;
    assert [b][1..] == [];
    assert Run(s, [b]) == Run(Step(s, b), []);
  }

  lemma {:induction false} RunZeros(s: bv16, n: nat)
    ensures Run(s, Zeros(n)) == Turns(s, n)
    ensures Run(s, Zeros(n)) == 0 <==> s == 0
  {
    hide Step, Turn, Run;
    if n == 0 {
      NothingRun(s);
      assert Zeros(0) == [];
    } else {
      RunZeros(s, n - 1);
      RunAppend(s, Zeros(n - 1), [false]);
      assert Zeros(n) == Zeros(n - 1) + [false];
      RunBit(Turns(s, n - 1), false);
      TurnIsStep(Turns(s, n - 1));
      TurnToZero(Turns(s, n - 1));
    }
  }

  /** The word that r turns carry into 0x8000. */
  function TopPower(r: nat): bv16
    requires r < 8
  {
    if r == 0 then 0x8000 else if r == 1 then 0x4000 else if r == 2 then 0x2000 else if r == 3 then 0x1000
    else if r == 4 then 0x0800 else if r == 5 then 0x0400 else if r == 6 then 0x0200 else 0x0100
  }

  lemma OneBack(s: bv16, k: nat)
    requires k < 7 && Turn(s) == TopPower(k)
    ensures s == TopPower(k + 1)
  {
  }

  lemma {:induction false} CarriedBack(s: bv16, n: nat, k: nat)
    requires n + k < 8 && Turns(s, n) == TopPower(k)
    ensures s == TopPower(n + k)
    decreases n
  {
    hide Turn, TopPower;
    if n > 0 {
      OneBack(Turns(s, n - 1), k);
      CarriedBack(s, n - 1, k + 1);
    }
  }

  /** x^16 modulo the generator, after every eighth turn. */
  function Rung(a: nat): bv16
    requires a < 12
  {
    if a == 0 then 0x1021 else if a == 1 then 0x3331 else if a == 2 then 0x3730 else if a == 3 then 0x76b4
    else if a == 4 then 0xaa51 else if a == 5 then 0x45a0 else if a == 6 then 0xb861 else if a == 7 then 0x47d3
    else if a == 8 then 0xeb23 else if a == 9 then 0x6f45 else if a == 10 then 0xd849 else 0x0375
  }

  lemma NextRung(a: nat)
    requires a < 11
    ensures Turn8(Rung(a)) == Rung(a + 1)
  {
  }

  lemma RungIsNoPower(a: nat, r: nat)
    requires a < 12 && r < 8
    ensures Rung(a) != TopPower(r)
  {
  }

  lemma {:induction false} RungIsTurns(a: nat)
    requires a < 12
    ensures Turns(0x1021, 8 * a) == Rung(a)
  {
    hide Turn8, Turns;
    if a == 0 {
      FirstRung();
    } else {
      RungIsTurns(a - 1);
      NextRung(a - 1);
      TurnsJoin(0x1021, 8 * (a - 1), 8);
      EightTurns(Rung(a - 1));
    }
  }

  lemma FirstRung()
    ensures Turns(0x1021, 0) == Rung(0)
    ensures TopPower(0) == 0x8000
  {
  }

  /** In fewer than ninety-six turns x^16 does not come to 0x8000. */
  lemma NeverAtTop(d: nat)
    requires d < 96
    ensures Turns(0x1021, d) != 0x8000
  {
    hide Rung, TopPower, Turns;
    var a, r := d / 8, d % 8;
    RungIsTurns(a);
    TurnsJoin(0x1021, 8 * a, r);
    FirstRung();
    RungIsNoPower(a, r);
    if Turns(Rung(a), r) == TopPower(0) {
      CarriedBack(Rung(a), r, 0);
    }
  }

  /** and, in up to ninety-six bits, a pattern of two. */
  lemma DoubleDetected(m: seq<bool>, i: nat, j: nat)
    requires i < j < |m| <= 96
    requires forall k :: 0 <= k < |m| ==> (m[k] <==> k == i || k == j)
    ensures Run(0, m) != 0
  {
    hide Step, Turns, Run;
    var d := j - i - 1;
    var tail := Zeros(d) + [true];
    assert m == (Zeros(i) + [true]) + (tail + Zeros(|m| - j - 1));
    RunAppend(0, Zeros(i) + [true], tail + Zeros(|m| - j - 1));
    RunAppend(0, Zeros(i), [true]);
    RunZeros(0, i);
    RunBit(0, true);
    StepFromZero();
    assert Run(0, Zeros(i) + [true]) == 0x1021;
    RunAppend(0x1021, tail, Zeros(|m| - j - 1));
    RunAppend(0x1021, Zeros(d), [true]);
    RunZeros(0x1021, d);
    RunBit(Turns(0x1021, d), true);
    NeverAtTop(d);
    StepToZero(Turns(0x1021, d));
    RunZeros(Run(0x1021, tail), |m| - j - 1);
  }

  // ----- the check a receiver makes

  /** The transmitted bits: the message, then its inverted remainder. */
  function Codeword(m: seq<bool>, c: bv16): (s: seq<bool>)
    ensures |s| == |m| + 16
  {
    m + Bits16(c)
  }

  predicate Complement(w: bv16, c: bv16) {
    c == !w
  }

  predicate Passes(m: seq<bool>, c: bv16) {
    Complement(Run(0, m), c)
  }

  /** Appending c to m leaves the remainder that (remainder of m + c) leaves on its own. */
  lemma RunAbsorbs(m: seq<bool>, c: seq<bool>)
    requires |c| == 16
    ensures Run(0, m + c) == Run(0, Xor(Bits16(Run(0, m)), c))
  {
    hide Bits16, TimesGenerator, Coef;
    var r := Bits16(Run(0, m));
    var x := Xor(r, c);
    var q, q2 := Quotient(m), Quotient(x);
    var r2 := Bits16(Run(0, x));
    RunDivides(m);
    RunDivides(x);
    var p := Zeros(|m|) + q2;
    forall e: int
      ensures Coef(r2, e) == (Coef(m + c, e - 16) != TimesGenerator(Xor(q + Zeros(16), p), e))
    {
      assert Coef(r, e - 16) == (Coef(m, e - 16 - 16) != TimesGenerator(q, e - 16));
      assert Coef(r2, e) == (Coef(x, e - 16) != TimesGenerator(q2, e));
      CoefXor(r, c, e - 16);
      CoefJoin(m, c, e - 16);
      TimesXor(q + Zeros(16), p, e);
      TimesShifted(q, 16, e);
      TimesPadded(q2, |m|, e);
    }
    assert Division(m + c, Xor(q + Zeros(16), p), r2);
    RunIsRemainder(m + c, r2);
    SameBits(Run(0, m + c), Run(0, x));
  }

  lemma CoefJoin(m: seq<bool>, c: seq<bool>, e: int)
    requires |c| == 16
    ensures Coef(m + c, e) == (Coef(m, e - 16) != Coef(c, e))
  {
  }

  lemma TimesPadded(q: seq<bool>, n: nat, e: int)
    ensures TimesGenerator(Zeros(n) + q, e) == TimesGenerator(q, e)
  {
    assert forall j :: Coef(Zeros(n) + q, j) == Coef(q, j);
    SameProduct(Zeros(n) + q, q, e);
  }

  lemma SameBits(a: bv16, b: bv16)
    requires Bits16(a) == Bits16(b)
    ensures a == b
  {
    forall i | 0 <= i < 16
      ensures Bit16(a, i) == Bit16(b, i)
    {
      hide Bit16;
      assert Bits16(a)[15 - i] == Bits16(b)[15 - i];
    }
    SameWord(a, b);
  }

  lemma NotIsXor(w: bv16)
    ensures !w == w ^ 0xffff
  {
  }

  lemma AllOnes(i: nat)
    requires i < 16
    ensures Bit16(0xffff, i)
  {
  }

  function Ones(n: nat): (s: seq<bool>)
    ensures |s| == n && forall i :: 0 <= i < n ==> s[i]
  {
    seq(n, i => true)
  }

  lemma ComplementBits(w: bv16, c: bv16)
    ensures Complement(w, c) <==> Xor(Bits16(w), Bits16(c)) == Ones(16)
  {
    hide Bit16;
    NotIsXor(w);
    forall i | 0 <= i < 16
      ensures Bits16(w ^ 0xffff)[i] != Bits16(w)[i]
    {
      BitXor(w, 0xffff, 15 - i);
      AllOnes(15 - i);
    }
    if Xor(Bits16(w), Bits16(c)) == Ones(16) {
      forall i | 0 <= i < 16
        ensures Bits16(c)[i] == Bits16(w ^ 0xffff)[i]
      {
        assert Xor(Bits16(w), Bits16(c))[i];
      }
      SameBits(c, w ^ 0xffff);
    }
  }

  lemma OnesOfByte()
    ensures ByteBits(0xff) == Ones(8)
  {
  }

  lemma SixteenOnes()
    ensures Feed(0, 0xff) == 0x1ef0 && Feed(0x1ef0, 0xff) == 0x1d0f
  {
  }

  lemma RunOfOnes()
    ensures Run(0, Ones(16)) == 0x1d0f
  {
    hide Feed, Run, ByteBits;
    OnesOfByte();
    RunByte(0, 0xff);
    RunByte(0x1ef0, 0xff);
    SixteenOnes();
    RunAppend(0, Ones(8), Ones(8));
    assert Ones(8) + Ones(8) == Ones(16);
  }

  lemma EqualRuns(x: seq<bool>, y: seq<bool>)
    requires |x| == |y|
    ensures Run(0, x) == Run(0, y) <==> Run(0, Xor(x, y)) == 0
  {
    hide Bits16;
    RunLinear(x, y);
    ZeroBits(Run(0, Xor(x, y)));
    var a, b := Bits16(Run(0, x)), Bits16(Run(0, y));
    if Xor(a, b) == Zeros(16) {
      forall i | 0 <= i < 16
        ensures a[i] == b[i]
      {
        assert !Xor(a, b)[i];
      }
      SameBits(Run(0, x), Run(0, y));
    }
  }

  // ----- main results

  /** The register, run over a whole codeword, ends in one constant exactly when the check passes. */
  lemma Residue(m: seq<bool>, c: bv16)
    ensures Passes(m, c) <==> Run(0, Codeword(m, c)) == 0x1d0f
  {
    hide Run, Bits16, Codeword, Passes;
    var x := Xor(Bits16(Run(0, m)), Bits16(c));
    CodewordRun(m, c);
    PassesComplement(m, c);
    RunOfOnes();
    SixteenInjective(x, Ones(16));
  }

  lemma PassesComplement(m: seq<bool>, c: bv16)
    ensures Passes(m, c) <==> Xor(Bits16(Run(0, m)), Bits16(c)) == Ones(16)
  {
    hide Run, Bits16, Complement;
    ComplementBits(Run(0, m), c);
  }

  lemma CodewordRun(m: seq<bool>, c: bv16)
    ensures Run(0, Codeword(m, c)) == Run(0, Xor(Bits16(Run(0, m)), Bits16(c)))
  {
    hide Run, Bits16;
    RunAbsorbs(m, Bits16(c));
  }

  lemma SixteenInjective(x: seq<bool>, y: seq<bool>)
    requires |x| == |y| == 16
    ensures Run(0, x) == Run(0, y) <==> x == y
  {
    hide Run;
    EqualRuns(x, y);
    if Run(0, x) == Run(0, y) && x != y {
      var i :| 0 <= i < 16 && x[i] != y[i];
      BurstDetected(Xor(x, y), i, 0);
    }
  }

  /** Damage to a good codeword goes unnoticed exactly when it is a multiple of the generator. */
  lemma UndetectedIffMultiple(m: seq<bool>, c: bv16, m': seq<bool>, c': bv16)
    requires |m| == |m'| && Passes(m, c)
    ensures Passes(m', c') <==> IsMultiple(Xor(Codeword(m, c), Codeword(m', c')))
  {
    hide Run, Codeword, Passes;
    Residue(m, c);
    Residue(m', c');
    EqualRuns(Codeword(m, c), Codeword(m', c'));
    ZeroRunIsMultiple(Xor(Codeword(m, c), Codeword(m', c')));
  }

  /** Two good codewords of at most 96 bits differ in an even number of places, at least four,
      two of which are at least sixteen apart. */
  lemma GoodCodewordsFarApart(m: seq<bool>, c: bv16, m': seq<bool>, c': bv16)
    requires |m| == |m'| <= 80 && Passes(m, c) && Passes(m', c')
    requires Codeword(m, c) != Codeword(m', c')
    ensures Hamming(Codeword(m, c), Codeword(m', c')) % 2 == 0
    ensures Hamming(Codeword(m, c), Codeword(m', c')) >= 4
    ensures exists i, j :: 0 <= i && i + 16 <= j < |m| + 16
              && Codeword(m, c)[i] != Codeword(m', c')[i] && Codeword(m, c)[j] != Codeword(m', c')[j]
  {
    hide Run, Codeword, Passes;
    var x, y := Codeword(m, c), Codeword(m', c');
    var e := Xor(x, y);
    UndetectedIffMultiple(m, c, m', c');
    ZeroRunIsMultiple(e);
    var k :| 0 <= k < |x| && x[k] != y[k];
    MultipleIsWide(e, k);
    OddDifference(x, y);
    if Odd(e) {
      OddDetected(e);
    }
    HammingZero(x, y);
    if Hamming(x, y) == 2 {
      var i, j := TwoDifferences(x, y);
      DoubleDetected(e, i, j);
    }
  }
}
