/** The C4FM modulator of src/p25/C4FM.cpp: a polyphase filter over a circular history, against plain
    convolution of the up-sampled symbol stream. */
module C4fm {
  import opened Bits

  const OSR := 500
  const POLY_TAPS := 9
  const RRC_TAPS := 4001

  /** The prototype filter, the phase step per unit of deviation, and the carrier's two components. */
  datatype Config = Config(h: seq<real>, phaseInc: real, toI: real -> sample, toQ: real -> sample)

  predicate Sized(c: Config) { |c.h| == RRC_TAPS }

  function Symbol(d: dibit): real {
    if d == 0 then 1.0 else if d == 1 then 3.0 else if d == 2 then -1.0 else -3.0
  }

  function Symbols(ds: seq<dibit>): (xs: seq<real>)
    ensures |xs| == |ds|
  {
    seq(|ds|, i requires 0 <= i < |ds| => Symbol(ds[i]))
  }

  // ----- what a receiver makes of a level

  /** The receiver's slicer, with thresholds at zero and halfway between the levels (dsd_dibit.c). */
  function Sliced(level: real): dibit {
    if level > 0.0 then (if level > 2.0 then 1 else 0) else if level < -2.0 then 3 else 2
  }

  predicate IsLevel(level: real) { level == 1.0 || level == 3.0 || level == -1.0 || level == -3.0 }

  /** The levels that a receiver takes for the dibits ds. */
  ghost predicate Carries(xs: seq<real>, ds: seq<dibit>) {
    |xs| == |ds| && forall i :: 0 <= i < |ds| ==> IsLevel(xs[i]) && Sliced(xs[i]) == ds[i]
  }

  lemma SymbolSliced(d: dibit)
    ensures IsLevel(Symbol(d)) && Sliced(Symbol(d)) == d
    ensures forall x: real :: IsLevel(x) && Sliced(x) == d ==> x == Symbol(d)
  {
  }

  /** The levels of the modulator are those, and no others are. */
  lemma SymbolsCarry(xs: seq<real>, ds: seq<dibit>)
    ensures Carries(xs, ds) <==> xs == Symbols(ds)
  {
    hide Symbol, IsLevel, Sliced;
    forall d: dibit
      ensures IsLevel(Symbol(d)) && Sliced(Symbol(d)) == d
      ensures forall x: real :: IsLevel(x) && Sliced(x) == d ==> x == Symbol(d)
    {
      SymbolSliced(d);
    }
  }

  /** The sampling and symbol rates, in hertz: every symbol lasts a whole number of samples. */
  const SAMPLE_RATE := 2_400_000
  const SYMBOL_RATE := 4_800

  // ----- the reference: convolution

  function Tap(h: seq<real>, i: nat): real { if i < |h| then h[i] else 0.0 }

  /** Symbol k of a stream that was silent before it began. */
  function At(xs: seq<real>, k: int): real { if 0 <= k < |xs| then xs[k] else 0.0 }

  /** The stream with OSR - 1 zeros after every symbol. */
  function UpSampled(xs: seq<real>, m: int): real {
    if m % OSR == 0 then At(xs, m / OSR) else 0.0
  }

  /** The first n terms of the convolution of the up-sampled stream with h, at sample m. */
  function FirTo(h: seq<real>, xs: seq<real>, m: int, n: nat): real {
    if n == 0 then 0.0 else FirTo(h, xs, m, n - 1) + Tap(h, n - 1) * UpSampled(xs, m - (n - 1))
  }

  function Fir(h: seq<real>, xs: seq<real>, m: int): real { FirTo(h, xs, m, |h|) }

  // ----- the filter bank

  /** The first n terms of the filter for phase p, the latest symbol being symbol k. */
  function PolyTo(h: seq<real>, xs: seq<real>, k: int, p: nat, n: nat): real {
    if n == 0 then 0.0 else PolyTo(h, xs, k, p, n - 1) + Tap(h, (n - 1) * OSR + p) * At(xs, k - (n - 1))
  }

  function Poly(h: seq<real>, xs: seq<real>, p: nat): real { PolyTo(h, xs, |xs| - 1, p, POLY_TAPS) }

  // ----- they agree

  /** Of OSR consecutive terms only the one that meets a symbol counts. */
  lemma {:induction false} OneTermPerBlock(h: seq<real>, xs: seq<real>, k: int, p: nat, j: nat, r: nat)
    requires p < OSR && r <= OSR
    ensures FirTo(h, xs, k * OSR + p, j * OSR + r)
         == FirTo(h, xs, k * OSR + p, j * OSR) + if r > p then Tap(h, j * OSR + p) * At(xs, k - j) else 0.0
  {
    if r > 0 {
      OneTermPerBlock(h, xs, k, p, j, r - 1);
      var i := j * OSR + (r - 1);
      var m := k * OSR + p - i;
      assert m == (k - j) * OSR + (p - (r - 1));
      if r - 1 == p {
        assert m % OSR == 0 && m / OSR == k - j;
      } else {
        assert m % OSR != 0;
      }
    }
  }

  lemma {:induction false} BlocksArePoly(h: seq<real>, xs: seq<real>, k: int, p: nat, n: nat)
    requires p < OSR
    ensures FirTo(h, xs, k * OSR + p, n * OSR) == PolyTo(h, xs, k, p, n)
  {
    if n > 0 {
      BlocksArePoly(h, xs, k, p, n - 1);
      OneTermPerBlock(h, xs, k, p, n - 1, OSR);
      assert (n - 1) * OSR + OSR == n * OSR;
    }
  }

  lemma {:induction false} PaddingIsSilent(h: seq<real>, xs: seq<real>, m: int, n: nat)
    requires n >= |h|
    ensures FirTo(h, xs, m, n) == Fir(h, xs, m)
  {
    if n > |h| {
      PaddingIsSilent(h, xs, m, n - 1);
    }
  }

  lemma {:induction false} PolySeesThePast(h: seq<real>, xs: seq<real>, ys: seq<real>, k: int, p: nat, n: nat)
    requires k < |xs|
    ensures PolyTo(h, xs + ys, k, p, n) == PolyTo(h, xs, k, p, n)
  {
    if n > 0 {
      PolySeesThePast(h, xs, ys, k, p, n - 1);
    }
  }

  /** The filter bank computes the convolution: at phase p after k + 1 symbols, output sample k * OSR + p. */
  lemma PolyphaseIsConvolution(c: Config, xs: seq<real>, k: nat, p: nat)
    requires Sized(c) && k < |xs| && p < OSR
    ensures Poly(c.h, xs[..k + 1], p) == Fir(c.h, xs, k * OSR + p)
  {
    BlocksArePoly(c.h, xs, k, p, POLY_TAPS);
    PaddingIsSilent(c.h, xs, k * OSR + p, POLY_TAPS * OSR);
    assert xs == xs[..k + 1] + xs[k + 1..];
    PolySeesThePast(c.h, xs[..k + 1], xs[k + 1..], k, p, POLY_TAPS);
  }

  // ----- what modulate computes

  /** The phase after p samples of the latest symbol of xs. */
  function PhaseAfter(c: Config, xs: seq<real>, phase: real, p: nat): real {
    if p == 0 then phase else PhaseAfter(c, xs, phase, p - 1) + Poly(c.h, xs, p - 1) * c.phaseInc
  }

  function Carrier(c: Config, phase: real): seq<sample> { [c.toI(phase), c.toQ(phase)] }

  function SymbolOut(c: Config, xs: seq<real>, phase: real, p: nat): (s: seq<sample>)
    ensures |s| == 2 * p
  {
    if p == 0 then [] else SymbolOut(c, xs, phase, p - 1) + Carrier(c, PhaseAfter(c, xs, phase, p))
  }

  /** The phase after modulating ds, when the symbols xs were modulated before. */
  function PhaseEnd(c: Config, xs: seq<real>, phase: real, ds: seq<dibit>): real
    decreases |ds|
  {
    if ds == [] then phase
    else
      var xs' := xs + [Symbol(ds[0])];
      PhaseEnd(c, xs', PhaseAfter(c, xs', phase, OSR), ds[1..])
  }

  function Modulated(c: Config, xs: seq<real>, phase: real, ds: seq<dibit>): (s: seq<sample>)
    ensures |s| == |ds| * OSR * 2
    decreases |ds|
  {
    if ds == [] then []
    else
      var xs' := xs + [Symbol(ds[0])];
      SymbolOut(c, xs', phase, OSR) + Modulated(c, xs', PhaseAfter(c, xs', phase, OSR), ds[1..])
  }

  lemma SymbolsAppend(a: seq<dibit>, b: seq<dibit>)
    ensures Symbols(a + b) == Symbols(a) + Symbols(b)
  {
    hide Symbol;
  }

  /** Modulating in pieces is modulating at once. */
  lemma {:induction false} ModulateInPieces(c: Config, xs: seq<real>, phase: real, a: seq<dibit>, b: seq<dibit>)
    ensures PhaseEnd(c, xs, phase, a + b) == PhaseEnd(c, xs + Symbols(a), PhaseEnd(c, xs, phase, a), b)
    ensures Modulated(c, xs, phase, a + b)
         == Modulated(c, xs, phase, a) + Modulated(c, xs + Symbols(a), PhaseEnd(c, xs, phase, a), b)
    decreases |a|
  {
    hide Symbol, PhaseAfter, SymbolOut;
    if a == [] {
      assert a + b == b && xs + Symbols(a) == xs;
    } else {
      var xs' := xs + [Symbol(a[0])];
      ModulateInPieces(c, xs', PhaseAfter(c, xs', phase, OSR), a[1..], b);
      assert (a + b)[1..] == a[1..] + b;
      assert xs' + Symbols(a[1..]) == xs + Symbols(a);
    }
  }

  // ----- the signal is frequency modulation of the convolved stream

  /** The phase after n samples of frequency modulation by the convolved stream. */
  function FmPhase(c: Config, xs: seq<real>, phase: real, n: nat): real {
    if n == 0 then phase else FmPhase(c, xs, phase, n - 1) + Fir(c.h, xs, n - 1) * c.phaseInc
  }

  lemma {:induction false} PhaseIsFm(c: Config, xs: seq<real>, phase: real, k: nat, p: nat)
    requires Sized(c) && k < |xs| && p <= OSR
    ensures PhaseAfter(c, xs[..k + 1], FmPhase(c, xs, phase, k * OSR), p) == FmPhase(c, xs, phase, k * OSR + p)
  {
    hide Poly, Fir;
    if p > 0 {
      PhaseIsFm(c, xs, phase, k, p - 1);
      PolyphaseIsConvolution(c, xs, k, p - 1);
    }
  }

  lemma {:induction false} SymbolOutAt(c: Config, xs: seq<real>, phase: real, n: nat, p: nat)
    requires p < n
    ensures SymbolOut(c, xs, phase, n)[2 * p] == c.toI(PhaseAfter(c, xs, phase, p + 1))
    ensures SymbolOut(c, xs, phase, n)[2 * p + 1] == c.toQ(PhaseAfter(c, xs, phase, p + 1))
  {
    hide PhaseAfter;
    if p < n - 1 {
      SymbolOutAt(c, xs, phase, n - 1, p);
    }
  }

  lemma {:induction false} ModulatedFrom(c: Config, xs: seq<real>, phase: real, ds: seq<dibit>, n: nat)
    requires Sized(c) && n < |ds| * OSR
    ensures
      var all, start := xs + Symbols(ds), FmPhase(c, xs + Symbols(ds), phase, |xs| * OSR);
      var now := FmPhase(c, all, phase, |xs| * OSR + n + 1);
      && Modulated(c, xs, start, ds)[2 * n] == c.toI(now)
      && Modulated(c, xs, start, ds)[2 * n + 1] == c.toQ(now)
    decreases |ds|
  {
    hide PhaseAfter, FmPhase, Symbol, SymbolOut;
    var all := xs + Symbols(ds);
    var xs' := xs + [Symbol(ds[0])];
    var k := |xs|;
    assert all[..k + 1] == xs';
    assert xs' + Symbols(ds[1..]) == all;
    var start := FmPhase(c, all, phase, k * OSR);
    if n < OSR {
      SymbolOutAt(c, xs', start, OSR, n);
      PhaseIsFm(c, all, phase, k, n + 1);
    } else {
      PhaseIsFm(c, all, phase, k, OSR);
      assert k * OSR + OSR == |xs'| * OSR;
      ModulatedFrom(c, xs', phase, ds[1..], n - OSR);
      assert k * OSR + n + 1 == |xs'| * OSR + (n - OSR) + 1;
    }
  }

  /** Sample n after the levels xs is the carrier at the phase of the whole stream's FM signal, ys being the levels
      that carry ds. */
  lemma ModulatedAt(c: Config, xs: seq<real>, phase: real, ys: seq<real>, ds: seq<dibit>, n: nat)
    requires Sized(c) && n < |ds| * OSR && Carries(ys, ds)
    ensures
      var start := FmPhase(c, xs + ys, phase, |xs| * OSR);
      var now := FmPhase(c, xs + ys, phase, |xs| * OSR + n + 1);
      && Modulated(c, xs, start, ds)[2 * n] == c.toI(now)
      && Modulated(c, xs, start, ds)[2 * n + 1] == c.toQ(now)
  {
    hide Symbols, Carries, Modulated, FmPhase;
    SymbolsCarry(ys, ds);
    ModulatedFrom(c, xs, phase, ds, n);
  }

  /** From reset, the modulator's output is frequency modulation of the up-sampled, convolved levels. */
  lemma ModulatorIsFm(c: Config, xs: seq<real>, ds: seq<dibit>, n: nat)
    requires Sized(c) && n < |ds| * OSR && Carries(xs, ds)
    ensures Modulated(c, [], 0.0, ds)[2 * n] == c.toI(FmPhase(c, xs, 0.0, n + 1))
    ensures Modulated(c, [], 0.0, ds)[2 * n + 1] == c.toQ(FmPhase(c, xs, 0.0, n + 1))
  {
    hide Carries;
    assert [] + xs == xs;
    assert FmPhase(c, xs, 0.0, 0) == 0.0;
    ModulatedAt(c, [], 0.0, xs, ds, n);
  }

  /** The signal lasts as long as its symbols, pairs at the sampling rate and symbols at theirs; and the filter spans
      four symbols either way. */
  lemma SignalLasts(c: Config, xs: seq<real>, phase: real, ds: seq<dibit>)
    ensures |Modulated(c, xs, phase, ds)| * SYMBOL_RATE == 2 * |ds| * SAMPLE_RATE
    ensures Sized(c) <==> |c.h| == 2 * 4 * (SAMPLE_RATE / SYMBOL_RATE) + 1
  {
    hide Modulated;
  }

  // ----- the modulator

  /** Where the symbol j places before the latest is kept. */
  function Back(pos: nat, j: nat): (k: nat)
    requires pos < POLY_TAPS && j < POLY_TAPS
    ensures k < POLY_TAPS
  {
    (pos - 1 - j + POLY_TAPS) % POLY_TAPS
  }

  lemma BackStep(pos: nat, j: nat)
    requires pos < POLY_TAPS && 0 < j < POLY_TAPS
    ensures Back((pos + 1) % POLY_TAPS, 0) == pos
    ensures Back((pos + 1) % POLY_TAPS, j) == Back(pos, j - 1) != pos
  {
  }

  class C4fm {
    const config: Config
    const poly: array2<real>
    const history: array<real>
    var histPos: nat
    var phase: real
    /** Every symbol modulated so far. */
    ghost var past: seq<real>

    ghost predicate Filter()
      reads poly
    {
      && poly.Length0 == OSR && poly.Length1 == POLY_TAPS
      && forall p, j :: 0 <= p < OSR && 0 <= j < POLY_TAPS ==> poly[p, j] == Tap(config.h, j * OSR + p)
    }

    /** The history holds the last POLY_TAPS symbols, the latest just before histPos. */
    ghost predicate Recent()
      reads `histPos, `past, history
    {
      && history.Length == POLY_TAPS && histPos < POLY_TAPS
      && forall j :: 0 <= j < POLY_TAPS ==> history[Back(histPos, j)] == At(past, |past| - 1 - j)
    }

    ghost predicate Valid()
      reads `histPos, `past, history, poly
    {
      Sized(config) && Filter() && Recent()
    }

    constructor (c: Config)
      requires Sized(c)
      ensures Valid() && config == c && phase == 0.0 && past == []
      ensures fresh(poly) && fresh(history)
    {
      config := c;
      poly := new real[OSR, POLY_TAPS]((p, j) => 0.0);
      history := new real[POLY_TAPS](i => 0.0);
      histPos, phase, past := 0, 0.0, [];
      new;
      BuildFilter();
    }

    method BuildFilter()
      requires Sized(config) && poly.Length0 == OSR && poly.Length1 == POLY_TAPS
      requires forall p, j :: 0 <= p < OSR && 0 <= j < POLY_TAPS ==> poly[p, j] == 0.0
      modifies poly
      ensures Filter()
    {
      var n := |config.h|;
      for p := 0 to OSR
        invariant forall a, j :: 0 <= a < p && 0 <= j < POLY_TAPS ==> poly[a, j] == Tap(config.h, j * OSR + a)
        invariant forall a, j :: p <= a < OSR && 0 <= j < POLY_TAPS ==> poly[a, j] == 0.0
      {
        for j := 0 to POLY_TAPS
          invariant forall a, b :: 0 <= a < p && 0 <= b < POLY_TAPS ==> poly[a, b] == Tap(config.h, b * OSR + a)
          invariant forall b :: 0 <= b < j ==> poly[p, b] == Tap(config.h, b * OSR + p)
          invariant forall b :: j <= b < POLY_TAPS ==> poly[p, b] == 0.0
          invariant forall a, b :: p < a < OSR && 0 <= b < POLY_TAPS ==> poly[a, b] == 0.0
        {
          var idx := j * OSR + p;
          if idx < n {
            poly[p, j] := config.h[idx];
          }
        }
      }
    }

    method Push(sym: real)
      requires Valid()
      modifies `histPos, `past, history
      ensures Valid() && past == old(past) + [sym]
    {
      BackStep(histPos, 1);
      history[histPos] := sym;
      histPos := (histPos + 1) % POLY_TAPS;
      past := past + [sym];
      forall j | 0 <= j < POLY_TAPS
        ensures history[Back(histPos, j)] == At(past, |past| - 1 - j)
      {
        if j > 0 {
          BackStep(old(histPos), j);
          assert old(history[Back(histPos, j - 1)]) == At(old(past), |old(past)| - 1 - (j - 1));
        }
      }
    }

    method Accumulate(p: nat) returns (acc: real)
      requires Valid() && p < OSR
      ensures acc == Poly(config.h, past, p)
    {
      acc := 0.0;
      for j := 0 to POLY_TAPS
        invariant acc == PolyTo(config.h, past, |past| - 1, p, j)
      {
        var idx := (histPos - 1 - j + POLY_TAPS) % POLY_TAPS;
        assert idx == Back(histPos, j);
        acc := acc + poly[p, j] * history[idx];
      }
    }

    /** The body of the loop over dibits. */
    method ModulateOne(d: dibit) returns (out: seq<sample>)
      requires Valid()
      modifies `histPos, `phase, `past, history
      ensures Valid() && past == old(past) + [Symbol(d)]
      ensures phase == PhaseAfter(config, past, old(phase), OSR)
      ensures out == SymbolOut(config, past, old(phase), OSR)
    {
      hide Symbol, Poly, Valid;
      Push(Symbol(d));
      out := [];
      for p := 0 to OSR
        invariant Valid() && past == old(past) + [Symbol(d)]
        invariant phase == PhaseAfter(config, past, old(phase), p)
        invariant out == SymbolOut(config, past, old(phase), p)
      {
        var acc := Accumulate(p);
        phase := phase + acc * config.phaseInc;
        out := out + [config.toI(phase)];
        out := out + [config.toQ(phase)];
      }
    }

    method Modulate(dibits: seq<dibit>) returns (out: seq<sample>)
      requires Valid()
      modifies `histPos, `phase, `past, history
      ensures Valid() && past == old(past) + Symbols(dibits)
      ensures Carries(past[|old(past)|..], dibits)
      ensures phase == PhaseEnd(config, old(past), old(phase), dibits)
      ensures out == Modulated(config, old(past), old(phase), dibits)
    {
      hide Symbol, PhaseAfter, SymbolOut, Valid, Modulated, PhaseEnd, Carries;
      out := [];
      NoSymbols(config, past, phase);
      for n := 0 to |dibits|
        invariant Valid() && past == old(past) + Symbols(dibits[..n])
        invariant phase == PhaseEnd(config, old(past), old(phase), dibits[..n])
        invariant out == Modulated(config, old(past), old(phase), dibits[..n])
      {
        var d := dibits[n];
        OneSymbol(config, past, phase, d);
        ModulateInPieces(config, old(past), old(phase), dibits[..n], [d]);
        SymbolsAppend(dibits[..n], [d]);
        assert dibits[..n + 1] == dibits[..n] + [d];
        var samples := ModulateOne(d);
        out := out + samples;
      }
      assert dibits[..|dibits|] == dibits;
      SymbolsCarry(Symbols(dibits), dibits);
      assert past[|old(past)|..] == Symbols(dibits);
    }
  }

  lemma NoSymbols(c: Config, xs: seq<real>, phase: real)
    ensures xs + Symbols([]) == xs && PhaseEnd(c, xs, phase, []) == phase && Modulated(c, xs, phase, []) == []
  {
  }

  lemma OneSymbol(c: Config, xs: seq<real>, phase: real, d: dibit)
    ensures Symbols([d]) == [Symbol(d)]
    ensures PhaseEnd(c, xs, phase, [d]) == PhaseAfter(c, xs + [Symbol(d)], phase, OSR)
    ensures Modulated(c, xs, phase, [d]) == SymbolOut(c, xs + [Symbol(d)], phase, OSR)
  {
    hide Symbol, PhaseAfter, SymbolOut;
    assert [d][1..] == [];
  }
}
