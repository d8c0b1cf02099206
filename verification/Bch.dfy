/** The BCH bound: a string of 63 bits whose syndromes at 1 to 22 vanish has no set bit, or at least 23. Syndromes are
    taken in the field of 64 elements of third_party/dsd-neo/include/dsd-neo/fec/BCH_63_16.hpp. */
module Bch {
  import opened Bits
  import opened Distance

  type elem = bv6

  function Plus(v: elem, w: elem): elem { v ^ w }

  /** Multiplication by the primitive element, a root of x^6 + x + 1. */
  function Times(v: elem): elem { (v << 1) ^ ((v >> 5) << 1) ^ (v >> 5) }

  /** Multiplication by the n-th power of the primitive element. */
  function Power(n: nat, v: elem): elem {
    if n == 0 then v else Times(Power(n - 1, v))
  }

  // ----- addition

  lemma PlusLaws(v: elem, w: elem)
    ensures Plus(v, w) == Plus(w, v) && Plus(v, 0) == v && Plus(0, v) == v && Plus(v, v) == 0
    ensures Plus(v, w) == 0 <==> v == w
  {
  }

  lemma PlusOf(v: elem, w: elem)
    ensures Plus(v, w) == v ^ w
  {
  }

  lemma PlusThree(u: elem, v: elem, w: elem)
    ensures Plus(u ^ v, w) == Plus(u, v ^ w)
  {
  }

  lemma PlusAssociates(u: elem, v: elem, w: elem)
    ensures Plus(Plus(u, v), w) == Plus(u, Plus(v, w))
  {
    hide Plus;
    PlusOf(u, v);
    PlusOf(v, w);
    PlusThree(u, v, w);
  }

  lemma PlusExchange(a: elem, b: elem, c: elem, d: elem)
    ensures Plus(Plus(a, b), Plus(c, d)) == Plus(Plus(a, c), Plus(b, d))
  {
    hide Plus;
    PlusAssociates(a, b, Plus(c, d));
    PlusAssociates(b, c, d);
    PlusLaws(b, c);
    PlusAssociates(c, b, d);
    PlusAssociates(a, c, Plus(b, d));
  }

  // ----- powers

  lemma TimesOfSum(v: elem, w: elem)
    ensures Times(v ^ w) == Plus(Times(v), Times(w))
  {
  }

  lemma TimesLinear(v: elem, w: elem)
    ensures Times(Plus(v, w)) == Plus(Times(v), Times(w))
  {
    hide Times, Plus;
    PlusOf(v, w);
    TimesOfSum(v, w);
  }

  lemma TimesZero(v: elem)
    ensures Times(v) == 0 <==> v == 0
  {
  }

  lemma {:induction false} PowerLinear(n: nat, v: elem, w: elem)
    ensures Power(n, Plus(v, w)) == Plus(Power(n, v), Power(n, w))
  {
    hide Times, Plus;
    if n > 0 {
      PowerLinear(n - 1, v, w);
      TimesLinear(Power(n - 1, v), Power(n - 1, w));
    }
  }

  lemma {:induction false} PowerZero(n: nat, v: elem)
    ensures Power(n, v) == 0 <==> v == 0
  {
    hide Times;
    if n > 0 {
      PowerZero(n - 1, v);
      TimesZero(Power(n - 1, v));
    }
  }

  lemma {:induction false} PowerJoin(m: nat, n: nat, v: elem)
    ensures Power(m + n, v) == Power(m, Power(n, v))
    decreases m
  {
    hide Times;
    if m > 0 {
      PowerJoin(m - 1, n, v);
    }
  }

  lemma PowersCommute(m: nat, n: nat, v: elem)
    ensures Power(m, Power(n, v)) == Power(n, Power(m, v))
  {
    hide Power;
    PowerJoin(m, n, v);
    PowerJoin(n, m, v);
    assert m + n == n + m;
  }

  // ----- the primitive element has order 63

  function Times8(v: elem): elem { Times(Times(Times(Times(Times(Times(Times(Times(v)))))))) }

  lemma FewPowers(v: elem)
    ensures Power(1, v) == Times(v) && Power(3, v) == Times(Times(Times(v))) && Power(8, v) == Times8(v)
  {
    hide Times;
    assert Power(1, v) == Times(v);
    assert Power(3, v) == Times(Times(Power(1, v)));
    assert Power(5, v) == Times(Times(Power(3, v)));
    assert Power(7, v) == Times(Times(Power(5, v)));
  }

  lemma NinthMoves(v: elem)
    ensures Times8(Times(v)) == v ==> v == 0
  {
  }

  lemma TwentyFirstMoves(v: elem)
    ensures Times8(Times8(Times8(v))) == Times(Times(Times(v))) ==> v == 0
  {
  }

  lemma FullTurn(v: elem)
    ensures Times8(Times8(Times8(Times8(Times8(Times8(Times8(Times8(v)))))))) == Times(v)
  {
  }

  lemma {:induction false} Eights(m: nat, v: elem)
    ensures Power(8 * m + 8, v) == Times8(Power(8 * m, v))
  {
    hide Times, Times8, Power;
    PowerJoin(8, 8 * m, v);
    FewPowers(Power(8 * m, v));
  }

  lemma NothingTimes(v: elem)
    ensures Power(0, v) == v
  {
  }

  lemma MovesAtNine(v: elem)
    ensures Power(9, v) == v ==> v == 0
  {
    hide Times, Times8, Power;
    PowerJoin(8, 1, v);
    FewPowers(v);
    FewPowers(Power(1, v));
    NinthMoves(v);
  }

  lemma MovesAtTwentyOne(v: elem)
    ensures Power(21, v) == v ==> v == 0
  {
    hide Times, Times8, Power;
    PowerJoin(3, 21, v);
    NothingTimes(v);
    Eights(0, v);
    Eights(1, v);
    Eights(2, v);
    FewPowers(v);
    TwentyFirstMoves(v);
  }

  lemma OnceAround(v: elem)
    ensures Power(63, v) == v
  {
    hide Times, Times8, Power, Plus;
    NothingTimes(v);
    Eights(0, v);
    Eights(1, v);
    Eights(2, v);
    Eights(3, v);
    Eights(4, v);
    Eights(5, v);
    Eights(6, v);
    Eights(7, v);
    FullTurn(v);
    PowerJoin(1, 63, v);
    FewPowers(v);
    SamePower(1, Power(63, v), v);
  }

  lemma SamePower(n: nat, v: elem, w: elem)
    requires Power(n, v) == Power(n, w)
    ensures v == w
  {
    hide Plus, Power;
    PowerLinear(n, v, w);
    PlusLaws(Power(n, v), Power(n, w));
    PowerZero(n, Plus(v, w));
    PlusLaws(v, w);
  }

  lemma {:induction false} Around(m: nat, n: nat, v: elem)
    requires Power(n, v) == v
    ensures Power(m * n, v) == v
  {
    hide Power;
    if m == 0 {
      NothingTimes(v);
    } else {
      Around(m - 1, n, v);
      PowerJoin(n, (m - 1) * n, v);
      assert m * n == n + (m - 1) * n;
    }
  }

  /** A power that leaves v alone d at a time, and 63 at a time, leaves it alone r at a time. */
  lemma Remaining(d: nat, k: nat, m: nat, r: nat, v: elem)
    requires Power(d, v) == v && k * d == r + m * 63
    ensures Power(r, v) == v
  {
    hide Power;
    Around(k, d, v);
    OnceAround(v);
    Around(m, 63, v);
    PowerJoin(r, m * 63, v);
  }

  /** Some multiple of d is 9, or 21, beyond a multiple of 63. */
  lemma NineOrTwentyOne(d: nat) returns (k: nat, m: nat)
    requires 0 < d < 63
    ensures k * d == 9 + m * 63 || k * d == 21 + m * 63
  {
    var q, r := d / 7, d % 7;
    if r == 1 {
      k, m := 9, q;
    } else if r == 2 {
      k, m := 36, 4 * q + 1;
    } else if r == 3 {
      k, m := 45, 5 * q + 2;
    } else if r == 4 {
      k, m := 18, 2 * q + 1;
    } else if r == 5 {
      k, m := 27, 3 * q + 2;
    } else if r == 6 {
      k, m := 54, 6 * q + 5;
    } else if q % 3 == 1 {
      k, m := 3, q / 3;
    } else if q % 3 == 2 {
      k, m := 6, 2 * (q / 3) + 1;
    } else {
      k, m := if q == 3 then 1 else 2, if q == 3 then 0 else 1;
    }
  }

  lemma NothingFixed(d: nat, v: elem)
    requires 0 < d < 63 && Power(d, v) == v
    ensures v == 0
  {
    hide Power;
    var k, m := NineOrTwentyOne(d);
    if k * d == 9 + m * 63 {
      Remaining(d, k, m, 9, v);
      MovesAtNine(v);
    } else {
      Remaining(d, k, m, 21, v);
      MovesAtTwentyOne(v);
    }
  }

  /** Different powers below 63 differ on everything but zero. */
  lemma PowersDiffer(m: nat, n: nat, v: elem)
    requires m < n < 63 && Power(m, v) == Power(n, v)
    ensures v == 0
  {
    hide Power;
    PowerJoin(m, n - m, v);
    SamePower(m, v, Power(n - m, v));
    NothingFixed(n - m, v);
  }

  // ----- syndromes

  function Element(b: bool): elem { if b then 1 else 0 }

  /** The string as a polynomial, highest power first, at the j-th power of the primitive element; s is what came
      before. */
  function Syndrome(j: nat, b: seq<bool>, s: elem): elem
    decreases |b|
  {
    if b == [] then s else Syndrome(j, b[1..], Plus(Power(j, s), Element(b[0])))
  }

  /** v times the differences of x and every member of t, as powers of the primitive element. */
  function Product(t: seq<nat>, x: nat, v: elem): elem {
    if t == [] then v
    else
      var u := Product(t[1..], x, v);
      Plus(Power(x, u), Power(t[0], u))
  }

  function Term(t: seq<nat>, j: nat, x: nat): elem { Product(t, x, Power(j * x, 1)) }

  /** The sum of the terms of the powers that are set in b. */
  function Sum(t: seq<nat>, j: nat, b: seq<bool>): elem
    decreases |b|
  {
    if b == [] then 0 else Plus(if b[0] then Term(t, j, |b| - 1) else 0, Sum(t, j, b[1..]))
  }

  lemma {:induction false} ProductShift(t: seq<nat>, x: nat, m: nat, v: elem)
    ensures Power(m, Product(t, x, v)) == Product(t, x, Power(m, v))
  {
    hide Power, Plus;
    if t != [] {
      var u := Product(t[1..], x, v);
      ProductShift(t[1..], x, m, v);
      PowerLinear(m, Power(x, u), Power(t[0], u));
      PowersCommute(m, x, u);
      PowersCommute(m, t[0], u);
    }
  }

  lemma TermStep(t: seq<nat>, e: nat, j: nat, x: nat)
    ensures Term([e] + t, j, x) == Plus(Term(t, j + 1, x), Power(e, Term(t, j, x)))
  {
    hide Power, Plus;
    assert ([e] + t)[1..] == t;
    ProductShift(t, x, x, Power(j * x, 1));
    PowerJoin(x, j * x, 1);
    assert x + j * x == (j + 1) * x;
  }

  lemma {:induction false} SumStep(t: seq<nat>, e: nat, j: nat, b: seq<bool>)
    ensures Sum([e] + t, j, b) == Plus(Sum(t, j + 1, b), Power(e, Sum(t, j, b)))
    decreases |b|
  {
    hide Power, Plus, Term;
    PowerZero(e, 0);
    PlusLaws(0, 0);
    if b != [] {
      SumStep(t, e, j, b[1..]);
      var x := |b| - 1;
      TermStep(t, e, j, x);
      var p, q := if b[0] then Term(t, j + 1, x) else 0, if b[0] then Term(t, j, x) else 0;
      PowerLinear(e, q, Sum(t, j, b[1..]));
      PlusExchange(p, Power(e, q), Sum(t, j + 1, b[1..]), Power(e, Sum(t, j, b[1..])));
    }
  }

  lemma {:induction false} SyndromeIsSum(j: nat, b: seq<bool>, s: elem)
    ensures Syndrome(j, b, s) == Plus(Power(j * |b|, s), Sum([], j, b))
    decreases |b|
  {
    hide Power, Plus, Element;
    if b == [] {
      NothingTimes(s);
      PlusLaws(s, 0);
    } else {
      var n := |b| - 1;
      SyndromeIsSum(j, b[1..], Plus(Power(j, s), Element(b[0])));
      PowerLinear(j * n, Power(j, s), Element(b[0]));
      PowerJoin(j * n, j, s);
      assert j * n + j == j * |b|;
      PowerZero(j * n, 0);
      ElementOf(b[0]);
      PlusAssociates(Power(j * |b|, s), Power(j * n, Element(b[0])), Sum([], j, b[1..]));
    }
  }

  lemma ElementOf(b: bool)
    ensures Element(b) == if b then 1 else 0
  {
  }

  // ----- the bound

  predicate Vanish(b: seq<bool>) { forall j: nat :: 1 <= j <= 22 ==> Syndrome(j, b, 0) == 0 }

  /** The sums vanish as long as their factors are few. */
  lemma {:induction false} SumsVanish(b: seq<bool>, t: seq<nat>, j: nat)
    requires Vanish(b) && 1 <= j && j + |t| <= 22
    ensures Sum(t, j, b) == 0
    decreases |t|
  {
    hide Power, Plus;
    if t == [] {
      assert Syndrome(j, b, 0) == 0;
      SyndromeIsSum(j, b, 0);
      PowerZero(j * |b|, 0);
      PlusLaws(Sum([], j, b), 0);
    } else {
      assert t == [t[0]] + t[1..];
      SumStep(t[1..], t[0], j, b);
      SumsVanish(b, t[1..], j);
      SumsVanish(b, t[1..], j + 1);
      PowerZero(t[0], 0);
      PlusLaws(0, 0);
    }
  }

  /** Where the set bits of b are, as powers, highest first. */
  function Exponents(b: seq<bool>): (e: seq<nat>)
    ensures |e| <= |b| && forall i :: 0 <= i < |e| ==> e[i] < |b|
  {
    if b == [] then [] else (if b[0] then [|b| - 1] else []) + Exponents(b[1..])
  }

  lemma {:induction false} ProductVanishes(t: seq<nat>, x: nat, v: elem)
    requires x in t
    ensures Product(t, x, v) == 0
  {
    hide Power, Plus;
    var u := Product(t[1..], x, v);
    PlusLaws(Power(x, u), 0);
    if t[0] != x {
      assert t == [t[0]] + t[1..];
      ProductVanishes(t[1..], x, v);
      PowerZero(x, 0);
      PowerZero(t[0], 0);
      PlusLaws(0, 0);
    }
  }

  lemma {:induction false} ProductStays(t: seq<nat>, x: nat, v: elem)
    requires x < 63 && x !in t && (forall i :: 0 <= i < |t| ==> t[i] < 63) && v != 0
    ensures Product(t, x, v) != 0
  {
    hide Power, Plus;
    if t != [] {
      ProductStays(t[1..], x, v);
      var u := Product(t[1..], x, v);
      PlusLaws(Power(x, u), Power(t[0], u));
      if Power(x, u) == Power(t[0], u) {
        assert t[0] != x;
        PowersDiffer(if x < t[0] then x else t[0], if x < t[0] then t[0] else x, u);
      }
    }
  }

  lemma {:induction false} AllVanish(t: seq<nat>, j: nat, b: seq<bool>)
    requires forall x :: x in Exponents(b) ==> x in t
    ensures Sum(t, j, b) == 0
    decreases |b|
  {
    hide Plus, Power;
    if b != [] {
      PlusLaws(0, 0);
      if b[0] {
        assert |b| - 1 in Exponents(b);
        ProductVanishes(t, |b| - 1, Power(j * (|b| - 1), 1));
      }
      AllVanish(t, j, b[1..]);
    }
  }

  /** All set bits but the first are in t. */
  lemma {:induction false} FirstRemains(b: seq<bool>)
    requires |b| <= 63 && Exponents(b) != []
    ensures Sum(Exponents(b)[1..], 1, b) != 0
    decreases |b|
  {
    hide Plus, Power;
    var t, x, rest := Exponents(b)[1..], |b| - 1, b[1..];
    if b[0] {
      assert t == Exponents(rest);
      AllVanish(t, 1, rest);
      PowerZero(1 * x, 1);
      ProductStays(t, x, Power(1 * x, 1));
      PlusLaws(Term(t, 1, x), 0);
    } else {
      assert Exponents(b) == Exponents(rest);
      FirstRemains(rest);
      PlusLaws(Sum(t, 1, rest), 0);
    }
  }

  /** A string of at most 63 bits whose syndromes vanish has no bit set or at least 23. */
  lemma BchBound(b: seq<bool>)
    requires |b| <= 63 && Vanish(b)
    ensures Exponents(b) == [] || |Exponents(b)| >= 23
  {
    hide Vanish, Sum;
    if Exponents(b) != [] && |Exponents(b)| <= 22 {
      SumsVanish(b, Exponents(b)[1..], 1);
      FirstRemains(b);
    }
  }

  lemma {:induction false} HammingIsWeight(a: seq<bool>, b: seq<bool>)
    requires |a| == |b|
    ensures Hamming(a, b) == |Exponents(Xor(a, b))|
  {
    if a != [] {
      HammingIsWeight(a[1..], b[1..]);
      assert Xor(a, b)[1..] == Xor(a[1..], b[1..]);
    }
  }
}
