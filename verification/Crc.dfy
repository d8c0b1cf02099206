/** The CRC register of src/p25/TSBK.cpp: what it computes and what it detects. */
module Crc {
  import opened Bits

  /** One turn of the register, on the sixteen bits that matter. */
  function Step(s: bv16, bit: bool): bv16 {
    if Bit16(s, 15) != bit then (s << 1) ^ 0x1021 else s << 1
  }

  function Run(s: bv16, bits: seq<bool>): bv16
    decreases |bits|
  {
    if bits == [] then s else Run(Step(s, bits[0]), bits[1..])
  }

  lemma {:induction false} RunAppend(s: bv16, a: seq<bool>, b: seq<bool>)
    ensures Run(s, a + b) == Run(Run(s, a), b)
    decreases |a|
  {
    hide Step;
    if a == [] {
      assert a + b == b;
    } else {
      RunAppend(Step(s, a[0]), a[1..], b);
      assert (a + b)[1..] == a[1..] + b;
    }
  }

  lemma RunOne(s: bv16, bits: seq<bool>, n: nat)
    requires n < |bits|
    ensures Run(s, bits[..n + 1]) == Step(Run(s, bits[..n]), bits[n])
  {
    hide Step;
    assert bits[..n + 1] == bits[..n] + [bits[n]];
    RunAppend(s, bits[..n], [bits[n]]);
    assert [bits[n]][1..] == [];
    assert Run(Run(s, bits[..n]), [bits[n]]) == Run(Step(Run(s, bits[..n]), bits[n]), []);
  }

  // ----- the loop of the source

  function Low16(c: bv32): bv16 { (c & 0xffff) as bv16 }

  /** One iteration of the source's loop; the register is 32 bits wide and never masked. */
  function WideStep(c: bv32, bit: bv32): bv32 {
    var d := c << 1;
    if ((d >> 16) ^ bit) & 1 != 0 then d ^ 0x1021 else d
  }

  lemma WideFeedback(c: bv32)
    ensures (((c << 1) >> 16) ^ 1) & 1 != 0 <==> !Bit16(Low16(c), 15)
    ensures (((c << 1) >> 16) ^ 0) & 1 != 0 <==> Bit16(Low16(c), 15)
  {
  }

  lemma LowOfShift(c: bv32)
    ensures Low16(c << 1) == Low16(c) << 1
  {
  }

  lemma LowOfXor(d: bv32)
    ensures Low16(d ^ 0x1021) == Low16(d) ^ 0x1021
    ensures Low16(0) == 0
  {
  }

  lemma WideStepOne(c: bv32)
    ensures Low16(WideStep(c, 1)) == Step(Low16(c), true)
  {
    hide Low16, Bit16;
    WideFeedback(c);
    LowOfShift(c);
    LowOfXor(c << 1);
  }

  lemma WideStepZero(c: bv32)
    ensures Low16(WideStep(c, 0)) == Step(Low16(c), false)
  {
    hide Low16, Bit16;
    WideFeedback(c);
    LowOfShift(c);
    LowOfXor(c << 1);
  }

  lemma WideStepLow(c: bv32, bit: bool)
    ensures Low16(WideStep(c, if bit then 1 else 0)) == Step(Low16(c), bit)
  {
    hide Low16, WideStep, Step;
    WideStepOne(c);
    WideStepZero(c);
  }

  lemma HighBit(w: bv16, i: nat)
    requires i < 16
    ensures ((w >> i) & 1) as bv32 == if Bit16(w, i) then 1 else 0
  {
  }

  lemma LowArgBit(w: bv64, i: nat)
    requires i < 64
    ensures ((w >> i) & 1) as bv32 == if Bit64(w, i) then 1 else 0
  {
  }

  lemma RunNothing(s: bv16, bits: seq<bool>)
    ensures Run(s, bits[..0]) == s
  {
  }

  method CrcCcitt(high: bv16, low: bv64) returns (crc: bv16)
    ensures crc == !Run(0, Bits16(high) + Bits64(low))
  {
    hide Low16, WideStep, Step, Run, Bit16, Bit64;
    var reg: bv32 := 0;
    LowOfXor(0);
    RunNothing(0, Bits16(high));
    RunNothing(Run(0, Bits16(high)), Bits64(low));
    for i := 16 downto 0
      invariant Low16(reg) == Run(0, Bits16(high)[..16 - i])
    {
      RunOne(0, Bits16(high), 15 - i);
      WideStepLow(reg, Bit16(high, i));
      HighBit(high, i);
      var bit := ((high >> i) & 1) as bv32;
      reg := WideStep(reg, bit);
    }
    assert Bits16(high)[..16] == Bits16(high);
    for i := 64 downto 0
      invariant Low16(reg) == Run(Run(0, Bits16(high)), Bits64(low)[..64 - i])
    {
      RunOne(Run(0, Bits16(high)), Bits64(low), 63 - i);
      WideStepLow(reg, Bit64(low, i));
      LowArgBit(low, i);
      var bit := ((low >> i) & 1) as bv32;
      reg := WideStep(reg, bit);
    }
    assert Bits64(low)[..64] == Bits64(low);
    RunAppend(0, Bits16(high), Bits64(low));
    FinalInversion(reg);
    crc := ((reg & 0xffff) ^ 0xffff) as bv16;
  }

  lemma FinalInversion(reg: bv32)
    ensures ((reg & 0xffff) ^ 0xffff) as bv16 == !Low16(reg)
  {
  }

  // ----- the register as a bit string

  lemma GeneratorBits(i: nat)
    requires i < 16
    ensures Bit16(0x1021, i) == (i == 0 || i == 5 || i == 12)
  {
  }

  lemma StepOnBit(s: bv16, i: nat)
    requires i < 16
    ensures Bit16((s << 1) ^ 0x1021, i) == ((i > 0 && Bit16(s, i - 1)) != (i == 0 || i == 5 || i == 12))
  {
    hide Bit16;
    BitXor(s << 1, 0x1021, i);
    BitShiftLeft(s, i);
    GeneratorBits(i);
  }

  lemma StepBit(s: bv16, bit: bool, i: nat)
    requires i < 16
    ensures
      var feedback := Bit16(s, 15) != bit;
      Bit16(Step(s, bit), i) == ((i > 0 && Bit16(s, i - 1)) != (feedback && (i == 0 || i == 5 || i == 12)))
  {
    hide Bit16;
    BitShiftLeft(s, i);
    StepOnBit(s, i);
  }

  // ----- polynomials over GF(2), as bit strings with the highest power first

  function Coef(p: seq<bool>, e: int): bool {
    0 <= e < |p| && p[|p| - 1 - e]
  }

  /** The coefficient of x^e in q(x) * (x^16 + x^12 + x^5 + 1). */
  function TimesGenerator(q: seq<bool>, e: int): bool {
    ((Coef(q, e - 16) != Coef(q, e - 12)) != Coef(q, e - 5)) != Coef(q, e)
  }

  ghost predicate IsMultiple(m: seq<bool>) {
    exists q: seq<bool> :: QuotientOf(m, q)
  }

  ghost predicate QuotientOf(m: seq<bool>, q: seq<bool>) {
    forall e: int :: Coef(m, e) == TimesGenerator(q, e)
  }

  /** m(x) * x^16 == q(x) * generator + r(x) */
  ghost predicate Division(m: seq<bool>, q: seq<bool>, r: seq<bool>) {
    forall e: int :: Coef(r, e) == (Coef(m, e - 16) != TimesGenerator(q, e))
  }

  /** r is the remainder of m(x) * x^16 on division by x^16 + x^12 + x^5 + 1. */
  ghost predicate IsRemainder(m: seq<bool>, r: seq<bool>) {
    |r| == 16 && exists q: seq<bool> :: Division(m, q, r)
  }

  lemma CoefSnoc(p: seq<bool>, c: bool, e: int)
    ensures Coef(p + [c], e) == if e == 0 then c else Coef(p, e - 1)
  {
  }

  lemma CoefBits16(w: bv16, e: int)
    ensures Coef(Bits16(w), e) == (0 <= e < 16 && Bit16(w, e))
  {
    hide Bit16;
  }

  /** The feedback bits of a run from zero are the quotient. */
  function Quotient(m: seq<bool>): (q: seq<bool>)
    ensures |q| == |m|
  {
    if m == [] then []
    else
      var p := m[..|m| - 1];
      Quotient(p) + [Bit16(Run(0, p), 15) != m[|m| - 1]]
  }

  lemma DivisionStep(p: seq<bool>, b: bool, q: seq<bool>, s: bv16, e: int)
    requires Coef(Bits16(s), e - 1) == (Coef(p, e - 17) != TimesGenerator(q, e - 1))
    ensures Coef(Bits16(Step(s, b)), e)
         == (Coef(p + [b], e - 16) != TimesGenerator(q + [Bit16(s, 15) != b], e))
  {
    hide Bit16, Step, Bits16;
    var feedback := Bit16(s, 15) != b;
    CoefBits16(Step(s, b), e);
    CoefBits16(s, e - 1);
    CoefSnoc(p, b, e - 16);
    CoefSnoc(q, feedback, e - 16);
    CoefSnoc(q, feedback, e - 12);
    CoefSnoc(q, feedback, e - 5);
    CoefSnoc(q, feedback, e);
    if 0 <= e < 16 {
      StepBit(s, b, e);
    }
  }

  lemma {:induction false} RunDivides(m: seq<bool>)
    ensures Division(m, Quotient(m), Bits16(Run(0, m)))
  {
    hide Bit16, Step, Bits16, TimesGenerator;
    if m == [] {
      forall e: int
        ensures Coef(Bits16(0), e) == (Coef(m, e - 16) != TimesGenerator([], e))
      {
        CoefBits16(0, e);
        NoTerms(e);
        if 0 <= e < 16 { ZeroBit(e); }
      }
    } else {
      var n := |m| - 1;
      var p, b := m[..n], m[n];
      RunDivides(p);
      RunOne(0, m, n);
      assert m[..n + 1] == m == p + [b];
      forall e: int
        ensures Coef(Bits16(Run(0, m)), e) == (Coef(m, e - 16) != TimesGenerator(Quotient(m), e))
      {
        DivisionStep(p, b, Quotient(p), Run(0, p), e);
      }
    }
  }

  lemma NoTerms(e: int)
    ensures !TimesGenerator([], e)
  {
  }

  lemma ZeroBit(i: nat)
    requires i < 16
    ensures !Bit16(0, i)
  {
  }

  // ----- remainders are unique, so the register computes the remainder

  /** The largest e below n at which two polynomials differ. */
  lemma {:induction false} HighestDifference(p: seq<bool>, q: seq<bool>, n: nat) returns (h: int)
    requires exists e :: 0 <= e < n && Coef(p, e) != Coef(q, e)
    ensures 0 <= h < n && Coef(p, h) != Coef(q, h)
    ensures forall e :: h < e < n ==> Coef(p, e) == Coef(q, e)
  {
    h := n - 1;
    if Coef(p, h) == Coef(q, h) {
      h := HighestDifference(p, q, n - 1);
    }
  }

  /** The product with the generator of two different polynomials differs at or above x^16. */
  lemma DifferenceShows(q: seq<bool>, q': seq<bool>, e: int) returns (h: int)
    requires Coef(q, e) != Coef(q', e)
    ensures h >= 0 && Coef(q, h) != Coef(q', h)
    ensures TimesGenerator(q, h + 16) != TimesGenerator(q', h + 16)
  {
    h := HighestDifference(q, q', |q| + |q'|);
    assert forall j :: j >= |q| + |q'| ==> Coef(q, j) == Coef(q', j);
    assert forall j :: h < j ==> Coef(q, j) == Coef(q', j);
  }

  lemma RemainderUnique(m: seq<bool>, q: seq<bool>, r: seq<bool>, q': seq<bool>, r': seq<bool>)
    requires |r| == |r'| == 16
    requires Division(m, q, r) && Division(m, q', r')
    ensures r == r'
    ensures forall e :: Coef(q, e) == Coef(q', e)
  {
    hide TimesGenerator;
    if e :| Coef(q, e) != Coef(q', e) {
      var h := DifferenceShows(q, q', e);
      HighTerms(m, q, r, h);
      HighTerms(m, q', r', h);
      assert false;
    }
    forall i | 0 <= i < 16
      ensures r[i] == r'[i]
    {
      var e := 15 - i;
      SameProduct(q, q', e);
      assert Coef(r, e) == (Coef(m, e - 16) != TimesGenerator(q, e));
      assert Coef(r', e) == (Coef(m, e - 16) != TimesGenerator(q', e));
      assert Coef(r, e) == r[i] && Coef(r', e) == r'[i];
    }
  }

  lemma HighTerms(m: seq<bool>, q: seq<bool>, r: seq<bool>, h: int)
    requires |r| == 16 && Division(m, q, r) && h >= 0
    ensures Coef(m, h) == TimesGenerator(q, h + 16)
  {
    assert !Coef(r, h + 16);
  }

  lemma SameProduct(q: seq<bool>, q': seq<bool>, e: int)
    requires forall e :: Coef(q, e) == Coef(q', e)
    ensures TimesGenerator(q, e) == TimesGenerator(q', e)
  {
  }

  /** The register, run from zero over any bit string, holds the remainder of division by the generator. */
  lemma RunIsRemainder(m: seq<bool>, r: seq<bool>)
    ensures IsRemainder(m, r) <==> r == Bits16(Run(0, m))
  {
    hide TimesGenerator, Bits16, Division;
    RunDivides(m);
    assert IsRemainder(m, Bits16(Run(0, m)));
    if IsRemainder(m, r) {
      var q :| Division(m, q, r);
      RemainderUnique(m, q, r, Quotient(m), Bits16(Run(0, m)));
    }
  }
}
