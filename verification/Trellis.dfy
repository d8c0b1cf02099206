/** The rate one-half, four-state trellis code of src/p25/TSBK.cpp: its inverse and its distances. */
module Trellis {
  import opened Bits
  import opened Distance
  import opened Wrappers

  /** The output pair for a state and an input; the input is the next state. */
  function Pair(state: dibit, d: dibit): (dibit, dibit) {
    if state == 0 then
      if d == 0 then (0, 2) else if d == 1 then (3, 0) else if d == 2 then (0, 1) else (3, 3)
    else if state == 1 then
      if d == 0 then (3, 2) else if d == 1 then (0, 0) else if d == 2 then (3, 1) else (0, 3)
    else if state == 2 then
      if d == 0 then (2, 1) else if d == 1 then (1, 3) else if d == 2 then (2, 2) else (1, 0)
    else
      if d == 0 then (1, 1) else if d == 1 then (2, 3) else if d == 2 then (1, 2) else (2, 0)
  }

  function PairSeq(state: dibit, d: dibit): (s: seq<dibit>)
    ensures |s| == 2
  {
    [Pair(state, d).0, Pair(state, d).1]
  }

  /** The coded form of an input string, the flush dibit included. */
  function Encode(state: dibit, input: seq<dibit>): (coded: seq<dibit>)
    ensures |coded| == 2 * |input| + 2
    decreases |input|
  {
    if input == [] then PairSeq(state, 0)
    else PairSeq(state, input[0]) + Encode(input[0], input[1..])
  }

  /** The state in which step n starts. */
  function StateAt(state: dibit, input: seq<dibit>, n: nat): dibit
    requires n <= |input|
  {
    if n == 0 then state else input[n - 1]
  }

  function InputAt(input: seq<dibit>, n: nat): dibit
    requires n <= |input|
  {
    if n < |input| then input[n] else 0
  }

  lemma PairSeqParts(state: dibit, d: dibit)
    ensures PairSeq(state, d)[0] == Pair(state, d).0 && PairSeq(state, d)[1] == Pair(state, d).1
  {
    hide Pair;
  }

  lemma {:induction false} EncodeAt(state: dibit, input: seq<dibit>, n: nat)
    requires n <= |input|
    ensures Encode(state, input)[2 * n] == Pair(StateAt(state, input, n), InputAt(input, n)).0
    ensures Encode(state, input)[2 * n + 1] == Pair(StateAt(state, input, n), InputAt(input, n)).1
    decreases n
  {
    hide Pair, PairSeq;
    PairSeqParts(StateAt(state, input, n), InputAt(input, n));
    if n > 0 {
      EncodeAt(input[0], input[1..], n - 1);
      assert Encode(state, input)[2..] == Encode(input[0], input[1..]);
    }
  }

  method TrellisEncode(input: seq<dibit>) returns (output: seq<dibit>)
    requires |input| == 48
    ensures output == Encode(0, input) && Decode(0, output) == Some(input)
  {
    hide Pair, Encode;
    var out := new dibit[98];
    var state: dibit := 0;
    var outIdx := 0;
    for n := 0 to 49
      invariant outIdx == 2 * n
      invariant n <= 48 ==> state == StateAt(0, input, n)
      invariant forall k :: 0 <= k < outIdx ==> out[k] == Encode(0, input)[k]
    {
      var d := if n < 48 then input[n] else 0;
      EncodeAt(0, input, n);
      var pair := Pair(state, d);
      out[outIdx] := pair.0;
      outIdx := outIdx + 1;
      out[outIdx] := pair.1;
      outIdx := outIdx + 1;
      state := d;
    }
    output := out[..];
    EncodeDecodes(0, input);
  }

  // ----- decoding

  /** The receiver's own table (third_party/dsd-neo/src/protocol/p25/p25_12.c): the four bits expected when it steps
      from a state to the next, at four times the one plus the other. */
  const P25_DTM: seq<nat> := [2, 12, 1, 15, 14, 0, 13, 3, 9, 7, 10, 4, 5, 11, 6, 8]

  function Number(d: dibit): (n: nat)
    ensures n < 4
  {
    if d == 0 then 0 else if d == 1 then 1 else if d == 2 then 2 else 3
  }

  /** Whether a received pair is the one expected. */
  predicate Expected(state: dibit, next: dibit, pair: (dibit, dibit)) {
    4 * Number(pair.0) + Number(pair.1) == P25_DTM[4 * Number(state) + Number(next)]
  }

  /** The encoder's table and the receiver's, written apart, agree. */
  lemma TablesAgree(state: dibit, d: dibit, pair: (dibit, dibit))
    ensures Expected(state, d, pair) <==> pair == Pair(state, d)
  {
  }

  function DecodePair(state: dibit, pair: (dibit, dibit)): Option<dibit> {
    if Expected(state, 0, pair) then Some(0)
    else if Expected(state, 1, pair) then Some(1)
    else if Expected(state, 2, pair) then Some(2)
    else if Expected(state, 3, pair) then Some(3)
    else None
  }

  lemma DecodePairIff(state: dibit, pair: (dibit, dibit), d: dibit)
    ensures DecodePair(state, pair) == Some(d) <==> Pair(state, d) == pair
  {
    hide Pair, Expected;
    TablesAgree(state, 0, pair);
    TablesAgree(state, 1, pair);
    TablesAgree(state, 2, pair);
    TablesAgree(state, 3, pair);
    if pair == Pair(state, d) {
      OnlyOne(state, d);
    }
  }

  /** The outputs of different inputs differ. */
  lemma OnlyOne(state: dibit, d: dibit)
    ensures forall e: dibit :: Pair(state, e) == Pair(state, d) ==> e == d
  {
  }

  function Decode(state: dibit, coded: seq<dibit>): (r: Option<seq<dibit>>)
    decreases |coded|
  {
    if |coded| < 2 then None
    else if |coded| == 2 then
      if Expected(state, 0, (coded[0], coded[1])) then Some([]) else None
    else
      match DecodePair(state, (coded[0], coded[1]))
      case None => None
      case Some(d) =>
        match Decode(d, coded[2..])
        case None => None
        case Some(rest) => Some([d] + rest)
  }

  lemma {:induction false} EncodeDecodes(state: dibit, input: seq<dibit>)
    ensures Decode(state, Encode(state, input)) == Some(input)
    decreases |input|
  {
    hide Pair, DecodePair, Expected;
    var coded := Encode(state, input);
    if input == [] {
      TablesAgree(state, 0, (coded[0], coded[1]));
    } else {
      var d := input[0];
      DecodePairIff(state, (coded[0], coded[1]), d);
      EncodeDecodes(d, input[1..]);
      assert coded[2..] == Encode(d, input[1..]);
      assert input == [d] + input[1..];
    }
  }

  lemma {:induction false} DecodedIsCoded(state: dibit, coded: seq<dibit>)
    requires Decode(state, coded).Some?
    ensures coded == Encode(state, Decode(state, coded).value)
    decreases |coded|
  {
    hide Pair, DecodePair, Expected;
    if |coded| == 2 {
      TablesAgree(state, 0, (coded[0], coded[1]));
    } else {
      var d := DecodePair(state, (coded[0], coded[1])).value;
      var rest := Decode(d, coded[2..]).value;
      DecodePairIff(state, (coded[0], coded[1]), d);
      DecodedIsCoded(d, coded[2..]);
      assert coded == [coded[0], coded[1]] + coded[2..];
      assert ([d] + rest)[0] == d && ([d] + rest)[1..] == rest;
    }
  }

  /** Decoding accepts exactly the coded strings and inverts the encoder. */
  lemma DecodeIffEncode(state: dibit, coded: seq<dibit>, input: seq<dibit>)
    ensures Decode(state, coded) == Some(input) <==> coded == Encode(state, input)
  {
    hide Decode, Encode;
    EncodeDecodes(state, input);
    if Decode(state, coded) == Some(input) {
      DecodedIsCoded(state, coded);
    }
  }

  // ----- distance

  function TwoBits(d: dibit): (s: seq<bool>)
    ensures |s| == 2
  {
    [d & 2 != 0, d & 1 != 0]
  }

  function DibitBits(x: seq<dibit>): (s: seq<bool>)
    ensures |s| == 2 * |x|
  {
    if x == [] then [] else TwoBits(x[0]) + DibitBits(x[1..])
  }

  function Bit(b: bool): nat { if b then 1 else 0 }

  function DibitGap(x: dibit, y: dibit): nat { Bit(x != y) }

  function BitGap(x: dibit, y: dibit): nat {
    Bit((x & 2 != 0) != (y & 2 != 0)) + Bit((x & 1 != 0) != (y & 1 != 0))
  }

  /** Distance between two output pairs, in dibits and in bits. */
  function PairDibits(p: (dibit, dibit), q: (dibit, dibit)): nat {
    DibitGap(p.0, q.0) + DibitGap(p.1, q.1)
  }

  function PairBits(p: (dibit, dibit), q: (dibit, dibit)): nat {
    BitGap(p.0, q.0) + BitGap(p.1, q.1)
  }

  // Distances are counted in bits or in dibits.

  function Gap(bits: bool, p: (dibit, dibit), q: (dibit, dibit)): nat {
    if bits then PairBits(p, q) else PairDibits(p, q)
  }

  /** What is still to come at least, beyond the inputs' own distance, between two encoders in states s and t. */
  function ToCome(bits: bool, s: dibit, t: dibit): nat {
    if s == t then 0 else (if s ^ t == 1 then 1 else 2) + if bits then 1 else 0
  }

  /** What the code adds at least, in every place where two inputs part, to the inputs' own distance. */
  function Margin(bits: bool): nat { if bits then 4 else 2 }

  lemma StepDibits(s: dibit, d: dibit, t: dibit, e: dibit)
    ensures PairDibits(Pair(s, d), Pair(t, e)) + ToCome(false, d, e)
         >= BitGap(d, e) + if s == t && d != e then 2 else ToCome(false, s, t)
  {
  }

  lemma StepBits(s: dibit, d: dibit, t: dibit, e: dibit)
    ensures PairBits(Pair(s, d), Pair(t, e)) + ToCome(true, d, e)
         >= BitGap(d, e) + if s == t && d != e then 4 else ToCome(true, s, t)
  {
  }

  lemma DifferentPairs(s: dibit, d: dibit, t: dibit, e: dibit)
    requires (s, d) != (t, e)
    ensures PairDibits(Pair(s, d), Pair(t, e)) >= 1
  {
  }

  lemma StepGap(bits: bool, s: dibit, d: dibit, t: dibit, e: dibit)
    ensures Gap(bits, Pair(s, d), Pair(t, e)) + ToCome(bits, d, e)
         >= BitGap(d, e) + if s == t && d != e then Margin(bits) else ToCome(bits, s, t)
  {
    hide Pair, PairDibits, PairBits, ToCome, BitGap;
    StepDibits(s, d, t, e);
    StepBits(s, d, t, e);
  }

  lemma NothingToCome(bits: bool, s: dibit)
    ensures ToCome(bits, s, s) == 0
  {
  }

  lemma FlushGap(bits: bool, s: dibit, t: dibit)
    ensures Gap(bits, Pair(s, 0), Pair(t, 0)) >= ToCome(bits, s, t)
  {
  }

  lemma HammingOfTwo<T>(a: T, b: T, c: T, d: T)
    ensures Hamming([a, b], [c, d]) == Bit(a != c) + Bit(b != d)
  {
    assert [a, b][1..] == [b] && [c, d][1..] == [d];
    assert [b][1..] == [] && [d][1..] == [];
  }

  lemma PairHamming(s: dibit, d: dibit, t: dibit, e: dibit)
    ensures Hamming(PairSeq(s, d), PairSeq(t, e)) == PairDibits(Pair(s, d), Pair(t, e))
  {
    hide Pair, Hamming;
    HammingOfTwo(Pair(s, d).0, Pair(s, d).1, Pair(t, e).0, Pair(t, e).1);
  }

  lemma PairBitHamming(s: dibit, d: dibit, t: dibit, e: dibit)
    ensures Hamming(DibitBits(PairSeq(s, d)), DibitBits(PairSeq(t, e))) == PairBits(Pair(s, d), Pair(t, e))
  {
    hide Pair, BitGap, TwoBits, Hamming;
    var p, q := Pair(s, d), Pair(t, e);
    BitsOfTwo(p.0, p.1);
    BitsOfTwo(q.0, q.1);
    HammingAppend(TwoBits(p.0), TwoBits(p.1), TwoBits(q.0), TwoBits(q.1));
    TwoBitsGap(p.0, q.0);
    TwoBitsGap(p.1, q.1);
  }

  lemma BitsOfTwo(x: dibit, y: dibit)
    ensures DibitBits([x, y]) == TwoBits(x) + TwoBits(y)
  {
    hide TwoBits;
    assert [x, y][1..] == [y] && [y][1..] == [];
  }

  lemma TwoBitsGap(x: dibit, y: dibit)
    ensures Hamming(TwoBits(x), TwoBits(y)) == BitGap(x, y)
  {
    hide Hamming;
    HammingOfTwo(x & 2 != 0, x & 1 != 0, y & 2 != 0, y & 1 != 0);
  }

  lemma FirstDibit(x: seq<dibit>)
    ensures x == [] ==> DibitBits(x) == []
    ensures x != [] ==> DibitBits(x) == TwoBits(x[0]) + DibitBits(x[1..])
  {
  }

  lemma {:induction false} DibitBitsAppend(x: seq<dibit>, y: seq<dibit>)
    ensures DibitBits(x + y) == DibitBits(x) + DibitBits(y)
  {
    hide DibitBits, TwoBits;
    FirstDibit(x);
    if x == [] {
      assert x + y == y;
    } else {
      DibitBitsAppend(x[1..], y);
      assert (x + y)[1..] == x[1..] + y;
      FirstDibit(x + y);
      Associates(TwoBits(x[0]), DibitBits(x[1..]), DibitBits(y));
    }
  }

  /** The distance between the paths of two inputs, step by step, the flush included. */
  function PathGap(bits: bool, s: dibit, a: seq<dibit>, t: dibit, b: seq<dibit>): nat
    requires |a| == |b|
    decreases |a|
  {
    if a == [] then Gap(bits, Pair(s, 0), Pair(t, 0))
    else Gap(bits, Pair(s, a[0]), Pair(t, b[0])) + PathGap(bits, a[0], a[1..], b[0], b[1..])
  }

  lemma {:induction false} PathGapIsDistance(s: dibit, a: seq<dibit>, t: dibit, b: seq<dibit>)
    requires |a| == |b|
    ensures PathGap(false, s, a, t, b) == Hamming(Encode(s, a), Encode(t, b))
    ensures PathGap(true, s, a, t, b) == Hamming(DibitBits(Encode(s, a)), DibitBits(Encode(t, b)))
    decreases |a|
  {
    hide Pair, PairSeq, PairDibits, PairBits, DibitBits;
    var d, e := InputAt(a, 0), InputAt(b, 0);
    PairHamming(s, d, t, e);
    PairBitHamming(s, d, t, e);
    if a != [] {
      var x, y := Encode(a[0], a[1..]), Encode(b[0], b[1..]);
      PathGapIsDistance(a[0], a[1..], b[0], b[1..]);
      HammingAppend(PairSeq(s, d), x, PairSeq(t, e), y);
      DibitBitsAppend(PairSeq(s, d), x);
      DibitBitsAppend(PairSeq(t, e), y);
      HammingAppend(DibitBits(PairSeq(s, d)), DibitBits(x), DibitBits(PairSeq(t, e)), DibitBits(y));
    }
  }

  /** In how many bits two inputs differ. */
  function Weight(a: seq<dibit>, b: seq<dibit>): nat
    requires |a| == |b|
  {
    if a == [] then 0 else BitGap(a[0], b[0]) + Weight(a[1..], b[1..])
  }

  lemma NoGap(x: dibit, y: dibit)
    ensures BitGap(x, y) == 0 <==> x == y
  {
  }

  lemma {:induction false} WeightZero(a: seq<dibit>, b: seq<dibit>)
    requires |a| == |b|
    ensures Weight(a, b) == 0 <==> a == b
  {
    hide BitGap;
    if a != [] {
      NoGap(a[0], b[0]);
      WeightZero(a[1..], b[1..]);
      assert a == [a[0]] + a[1..] && b == [b[0]] + b[1..];
    }
  }

  lemma {:induction false} WeightIsHamming(a: seq<dibit>, b: seq<dibit>)
    requires |a| == |b|
    ensures Weight(a, b) == Hamming(DibitBits(a), DibitBits(b))
  {
    hide BitGap, DibitBits, TwoBits, Hamming;
    FirstDibit(a);
    FirstDibit(b);
    if a == [] {
      NothingApart();
    } else {
      WeightIsHamming(a[1..], b[1..]);
      TwoBitsGap(a[0], b[0]);
      HammingAppend(TwoBits(a[0]), DibitBits(a[1..]), TwoBits(b[0]), DibitBits(b[1..]));
    }
  }

  lemma NothingApart()
    ensures Hamming<bool>([], []) == 0
  {
  }

  /** In how many places two inputs part, one where they have parted already not counted. */
  function Partings(parted: bool, a: seq<dibit>, b: seq<dibit>): nat
    requires |a| == |b|
    decreases |a|
  {
    if a == [] then 0
    else (if !parted && a[0] != b[0] then 1 else 0) + Partings(a[0] != b[0], a[1..], b[1..])
  }

  function Margins(bits: bool, n: nat): nat { if bits then 4 * n else 2 * n }

  /** The code adds its margin to the inputs' own distance wherever they part. */
  lemma {:induction false} EveryPartingPays(bits: bool, s: dibit, a: seq<dibit>, t: dibit, b: seq<dibit>)
    requires |a| == |b|
    ensures PathGap(bits, s, a, t, b) >= Weight(a, b) + ToCome(bits, s, t) + Margins(bits, Partings(s != t, a, b))
    decreases |a|
  {
    hide Pair, Gap, ToCome, BitGap;
    if a == [] {
      FlushGap(bits, s, t);
    } else {
      StepGap(bits, s, a[0], t, b[0]);
      NothingToCome(bits, s);
      EveryPartingPays(bits, a[0], a[1..], b[0], b[1..]);
    }
  }

  lemma {:induction false} SomeParting(a: seq<dibit>, b: seq<dibit>)
    requires |a| == |b| && a != b
    ensures Partings(false, a, b) >= 1
  {
    if a[0] == b[0] {
      assert a == [a[0]] + a[1..] && b == [b[0]] + b[1..];
      SomeParting(a[1..], b[1..]);
    }
  }

  /** The distance between codes in terms of that between inputs, which part in some number of places. */
  lemma PartingDistance(s: dibit, a: seq<dibit>, b: seq<dibit>)
    requires |a| == |b|
    ensures
      var w, n := Hamming(DibitBits(a), DibitBits(b)), Partings(false, a, b);
      && Hamming(Encode(s, a), Encode(s, b)) >= w + 2 * n
      && Hamming(DibitBits(Encode(s, a)), DibitBits(Encode(s, b))) >= w + 4 * n
  {
    hide PathGap, Encode, DibitBits, Weight, Partings;
    PathGapIsDistance(s, a, s, b);
    EveryPartingPays(false, s, a, s, b);
    EveryPartingPays(true, s, a, s, b);
    WeightIsHamming(a, b);
  }

  /** The code sets two different inputs further apart: by two dibits more than they differ in bits, and by four
      bits more, so by at least three dibits and five bits. */
  lemma CodeDistance(s: dibit, a: seq<dibit>, b: seq<dibit>)
    requires |a| == |b| && a != b
    ensures Hamming(Encode(s, a), Encode(s, b)) >= Hamming(DibitBits(a), DibitBits(b)) + 2 >= 3
    ensures Hamming(DibitBits(Encode(s, a)), DibitBits(Encode(s, b))) >= Hamming(DibitBits(a), DibitBits(b)) + 4 >= 5
  {
    hide Encode, DibitBits, Weight, Partings;
    PartingDistance(s, a, b);
    SomeParting(a, b);
    WeightZero(a, b);
    WeightIsHamming(a, b);
  }

  // ----- where two codewords differ

  lemma {:induction false} FirstDifference(a: seq<dibit>, b: seq<dibit>) returns (n: nat)
    requires |a| == |b| && a != b
    ensures n < |a| && a[..n] == b[..n] && a[n] != b[n]
  {
    n := 0;
    if a[0] == b[0] {
      assert a == [a[0]] + a[1..] && b == [b[0]] + b[1..];
      n := FirstDifference(a[1..], b[1..]);
      n := n + 1;
      assert a[..n] == [a[0]] + a[1..][..n - 1] && b[..n] == [b[0]] + b[1..][..n - 1];
    }
  }

  /** The output pair of step n. */
  function PairAt(input: seq<dibit>, n: nat): (dibit, dibit)
    requires n <= |input|
  {
    Pair(StateAt(0, input, n), InputAt(input, n))
  }

  lemma TwoStepDistance(s: dibit, d: dibit, e: dibit, c: dibit)
    requires d != e
    ensures PairDibits(Pair(s, d), Pair(s, e)) + PairDibits(Pair(d, c), Pair(e, c)) >= 3
  {
  }

  /** Two different inputs differ in two adjacent steps; in three dibits there, or in the step after too. */
  lemma AdjacentSteps(a: seq<dibit>, b: seq<dibit>) returns (n: nat)
    requires |a| == |b| && a != b
    ensures n < |a|
    ensures PairDibits(PairAt(a, n), PairAt(b, n)) >= 1
    ensures PairDibits(PairAt(a, n + 1), PairAt(b, n + 1)) >= 1
    ensures PairDibits(PairAt(a, n), PairAt(b, n)) + PairDibits(PairAt(a, n + 1), PairAt(b, n + 1)) >= 3
         || (n + 2 <= |a| && PairDibits(PairAt(a, n + 2), PairAt(b, n + 2)) >= 1)
  {
    hide Pair, PairDibits;
    n := FirstDifference(a, b);
    var s, c := StateAt(0, a, n), InputAt(a, n + 1);
    if n > 0 {
      assert a[n - 1] == a[..n][n - 1] && b[n - 1] == b[..n][n - 1];
    }
    assert StateAt(0, b, n) == s;
    DifferentPairs(s, a[n], s, b[n]);
    DifferentPairs(a[n], c, b[n], InputAt(b, n + 1));
    if c == InputAt(b, n + 1) {
      TwoStepDistance(s, a[n], b[n], c);
    } else {
      assert n + 1 < |a|;
      DifferentPairs(a[n + 1], InputAt(a, n + 2), b[n + 1], InputAt(b, n + 2));
    }
  }
}
