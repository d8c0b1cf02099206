/** The pair interleaver of src/p25/TSBK.cpp. */
module Interleaver {
  import opened Bits

  /** Where the output pair of trellis step n is sent. */
  function AirPair(n: nat): (p: nat)
    requires n < 49
    ensures p < 49
  {
    n / 4 + (if n % 4 == 0 then 0 else if n % 4 == 1 then 13 else if n % 4 == 2 then 25 else 37)
  }

  /** The trellis step whose pair is sent in place p. */
  function StepSent(p: nat): (n: nat)
    requires p < 49
    ensures n < 49
  {
    if p < 13 then 4 * p
    else if p < 25 then 4 * (p - 13) + 1
    else if p < 37 then 4 * (p - 25) + 2
    else 4 * (p - 37) + 3
  }

  /** The interleaver is a permutation that sends neighbouring steps at least twelve pairs apart, and
      steps two apart at least twenty-three. */
  lemma Spread(n: nat)
    requires n < 49
    ensures StepSent(AirPair(n)) == n && AirPair(StepSent(n)) == n
    ensures n + 1 < 49 ==> AirPair(n + 1) - AirPair(n) >= 12 || AirPair(n) - AirPair(n + 1) >= 12
    ensures n + 2 < 49 ==> AirPair(n + 2) - AirPair(n) >= 23 || AirPair(n) - AirPair(n + 2) >= 23
  {
  }

  /** The receiver's own table (third_party/dsd-neo/src/protocol/p25/p25_12.c): the first coded dibit of the pair that
      comes in each place, row by row. */
  const P25_FIRST: seq<nat> := [0, 8, 16, 24, 32, 40, 48, 56, 64, 72, 80, 88, 96]
  const P25_SECOND: seq<nat> := [2, 10, 18, 26, 34, 42, 50, 58, 66, 74, 82, 90]
  const P25_THIRD: seq<nat> := [4, 12, 20, 28, 36, 44, 52, 60, 68, 76, 84, 92]
  const P25_FOURTH: seq<nat> := [6, 14, 22, 30, 38, 46, 54, 62, 70, 78, 86, 94]

  function P25Interleave(k: nat): nat
    requires k < 98
  {
    (if k < 26 then P25_FIRST[k / 2] else if k < 50 then P25_SECOND[(k - 26) / 2]
     else if k < 74 then P25_THIRD[(k - 50) / 2] else P25_FOURTH[(k - 74) / 2]) + k % 2
  }

  function Interleaved(x: seq<dibit>): (y: seq<dibit>)
    requires |x| == 98
    ensures |y| == 98
  {
    seq(98, i requires 0 <= i < 98 => x[2 * StepSent(i / 2) + i % 2])
  }

  function Deinterleaved(y: seq<dibit>): (x: seq<dibit>)
    requires |y| == 98
    ensures |x| == 98
  {
    seq(98, i requires 0 <= i < 98 => y[2 * AirPair(i / 2) + i % 2])
  }

  /** Where dibit i of the coded string is sent. */
  function AirDibit(i: nat): (k: nat)
    requires i < 98
    ensures k < 98
  {
    2 * AirPair(i / 2) + i % 2
  }

  /** Dibit i of the coded string is sent in place AirDibit(i). */
  lemma SentAt(x: seq<dibit>, i: nat)
    requires |x| == 98 && i < 98
    ensures Interleaved(x)[AirDibit(i)] == x[i]
  {
    var k := AirDibit(i);
    Spread(i / 2);
    assert k / 2 == AirPair(i / 2) && k % 2 == i % 2;
    assert StepSent(k / 2) == i / 2;
  }

  lemma RowsAgree(q: nat)
    requires q < 13
    ensures P25_FIRST[q] == 8 * q
    ensures q < 12 ==> P25_SECOND[q] == 8 * q + 2 && P25_THIRD[q] == 8 * q + 4 && P25_FOURTH[q] == 8 * q + 6
  {
    match q
    case 0 => case 1 => case 2 => case 3 => case 4 => case 5 => case 6 =>
    case 7 => case 8 => case 9 => case 10 => case 11 => case _ =>
  }

  lemma TableAgrees(k: nat)
    requires k < 98
    ensures P25Interleave(k) == 2 * StepSent(k / 2) + k % 2
  {
    RowsAgree(if k < 26 then k / 2 else if k < 50 then (k - 26) / 2 else if k < 74 then (k - 50) / 2 else (k - 74) / 2);
  }

  /** What is sent in each place is what the receiver's table says. */
  lemma InterleavedByTable(x: seq<dibit>, k: nat)
    requires |x| == 98 && k < 98
    ensures P25Interleave(k) < 98 && Interleaved(x)[k] == x[P25Interleave(k)]
  {
    hide StepSent, P25Interleave;
    TableAgrees(k);
  }

  lemma AirDibitInjective(i: nat, j: nat)
    requires i < 98 && j < 98 && AirDibit(i) == AirDibit(j)
    ensures i == j
  {
    Spread(i / 2);
    Spread(j / 2);
    assert AirPair(i / 2) == AirPair(j / 2) && i % 2 == j % 2;
  }

  lemma BackAt(x: seq<dibit>, i: nat)
    requires |x| == 98 && i < 98
    ensures Deinterleaved(Interleaved(x))[i] == x[i]
  {
    hide Interleaved, AirPair;
    SentAt(x, i);
  }

  lemma PlaceOfStep(k: nat)
    requires k < 98
    ensures
      var i := 2 * StepSent(k / 2) + k % 2;
      i / 2 == StepSent(k / 2) && i % 2 == k % 2
  {
    hide StepSent;
  }

  lemma ForthAt(x: seq<dibit>, k: nat)
    requires |x| == 98 && k < 98
    ensures Interleaved(Deinterleaved(x))[k] == x[k]
  {
    hide StepSent, AirPair;
    Spread(k / 2);
    PlaceOfStep(k);
  }

  /** De-interleaving undoes interleaving, and the other way round. */
  lemma Inverse(x: seq<dibit>)
    requires |x| == 98
    ensures Deinterleaved(Interleaved(x)) == x
    ensures Interleaved(Deinterleaved(x)) == x
  {
    hide Interleaved, Deinterleaved;
    forall i | 0 <= i < 98
      ensures Deinterleaved(Interleaved(x))[i] == x[i] && Interleaved(Deinterleaved(x))[i] == x[i]
    {
      BackAt(x, i);
      ForthAt(x, i);
    }
  }

  lemma Sends(x: seq<dibit>, k: nat, source: nat)
    requires |x| == 98 && k < 98 && k % 2 == 0 && source == 2 * StepSent(k / 2)
    ensures k + 1 < 98 && source + 1 < 98
    ensures Interleaved(x)[k] == x[source] && Interleaved(x)[k + 1] == x[source + 1]
  {
    assert (k + 1) / 2 == k / 2 && (k + 1) % 2 == 1;
  }

  method DataInterleave(input: seq<dibit>) returns (output: seq<dibit>)
    requires |input| == 98
    ensures output == Interleaved(input)
  {
    hide Interleaved, StepSent;
    var out := new dibit[98];
    var outIdx := 0;
    var j := 0;
    ghost var m := 0;
    while j < 97
      invariant 0 <= m <= 13 && j == 8 * m && outIdx == 2 * m
      invariant forall k :: 0 <= k < outIdx ==> out[k] == Interleaved(input)[k]
    {
      FirstSource(m);
      Sends(input, outIdx, j);
      out[outIdx] := input[j];
      outIdx := outIdx + 1;
      out[outIdx] := input[j + 1];
      outIdx := outIdx + 1;
      j := j + 8;
      m := m + 1;
    }
    var i := 2;
    while i < 7
      invariant (i == 2 && outIdx == 26) || (i == 4 && outIdx == 50) || (i == 6 && outIdx == 74)
             || (i == 8 && outIdx == 98)
      invariant forall k :: 0 <= k < outIdx ==> out[k] == Interleaved(input)[k]
    {
      j := 0;
      m := 0;
      ghost var first := outIdx;
      while j < 89
        invariant 0 <= m <= 12 && j == 8 * m && outIdx == first + 2 * m
        invariant forall k :: 0 <= k < outIdx ==> out[k] == Interleaved(input)[k]
      {
        NextSource(i, m, first);
        Sends(input, outIdx, i + j);
        out[outIdx] := input[i + j];
        outIdx := outIdx + 1;
        out[outIdx] := input[i + j + 1];
        outIdx := outIdx + 1;
        j := j + 8;
        m := m + 1;
      }
      i := i + 2;
    }
    output := out[..];
  }

  lemma FirstSource(m: nat)
    requires m < 13
    ensures (2 * m) % 2 == 0 && 8 * m == 2 * StepSent(2 * m / 2)
  {
  }

  lemma NextSource(i: int, m: nat, first: nat)
    requires m < 12 && i in {2, 4, 6} && first == 26 + 12 * (i - 2)
    ensures (first + 2 * m) % 2 == 0 && i + 8 * m == 2 * StepSent((first + 2 * m) / 2)
  {
    assert (first + 2 * m) / 2 == 13 + 6 * (i - 2) + m;
  }
}
