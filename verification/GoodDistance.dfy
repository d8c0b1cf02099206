/** How far apart the frames of good blocks are: CRC and trellis code together. */
module GoodDistance {
  import opened Bits
  import opened CrcBytes
  import opened DibitRegister
  import opened Distance
  import opened Frame
  import opened FrameRecovery
  import opened RunPatterns
  import opened Trellis
  import opened Tsbk
  import BitOrder
  import CrcDetection
  import GoodBursts

  // ----- strings of dibits: their set bits and their runs

  function DibitOnes(d: dibit): nat { BitGap(d, 0) }

  function Tally(z: seq<dibit>): nat { if z == [] then 0 else DibitOnes(z[0]) + Tally(z[1..]) }

  predicate Full(z: seq<dibit>) { forall i :: 0 <= i < |z| ==> z[i] != 0 }

  /** How many runs of dibits that are not zero begin in z. */
  function Runs(inside: bool, z: seq<dibit>): nat
    decreases |z|
  {
    if z == [] then 0 else (if !inside && z[0] != 0 then 1 else 0) + Runs(z[0] != 0, z[1..])
  }

  lemma {:induction false} TallyJoin(a: seq<dibit>, b: seq<dibit>)
    ensures Tally(a + b) == Tally(a) + Tally(b)
  {
    hide DibitOnes;
    if a == [] {
      assert a + b == b;
    } else {
      TallyJoin(a[1..], b);
      assert (a + b)[1..] == a[1..] + b;
    }
  }

  lemma SomeOnes(d: dibit)
    ensures d == 0 <==> DibitOnes(d) == 0
  {
  }

  lemma {:induction false} FullTally(z: seq<dibit>)
    requires Full(z)
    ensures Tally(z) >= |z|
  {
    hide DibitOnes;
    if z != [] {
      SomeOnes(z[0]);
      FullTally(z[1..]);
    }
  }

  lemma {:induction false} ZeroTally(z: seq<dibit>)
    requires AllZero(z)
    ensures Tally(z) == 0
  {
    if z != [] {
      ZeroTally(z[1..]);
    }
  }

  lemma {:induction false} NoRuns(z: seq<dibit>)
    requires Runs(false, z) == 0
    ensures AllZero(z)
  {
    if z != [] {
      NoRuns(z[1..]);
      assert z == [z[0]] + z[1..];
    }
  }

  /** Where the run that z begins with ends. */
  lemma {:induction false} RunEnd(z: seq<dibit>) returns (hi: nat)
    requires z != [] && z[0] != 0
    ensures 0 < hi <= |z| && Full(z[..hi]) && (hi < |z| ==> z[hi] == 0)
    ensures Runs(true, z) == Runs(false, z[hi..])
  {
    var rest := z[1..];
    hi := 1;
    if rest != [] && rest[0] != 0 {
      hi := RunEnd(rest);
      assert z[hi + 1..] == rest[hi..] && z[..hi + 1] == [z[0]] + rest[..hi];
      hi := hi + 1;
    }
  }

  lemma OneLater(z: seq<dibit>, lo: nat, hi: nat)
    requires z != [] && lo <= hi < |z|
    ensures z[..lo + 1] == [z[0]] + z[1..][..lo]
    ensures z[lo + 1..hi + 1] == z[1..][lo..hi] && z[hi + 1..] == z[1..][hi..]
  {
    var rest := z[1..];
    assert z[..lo + 1] == [z[0]] + rest[..lo];
    var a, b := z[lo + 1..hi + 1], rest[lo..hi];
    assert |a| == |b| == hi - lo;
    forall i | 0 <= i < hi - lo
      ensures a[i] == b[i]
    {
      assert a[i] == z[lo + 1 + i] && b[i] == rest[lo + i];
    }
    assert a == b;
    assert z[hi + 1..] == rest[hi..];
  }

  /** The first run of z. */
  lemma {:induction false} FirstRun(z: seq<dibit>) returns (lo: nat, hi: nat)
    requires Runs(false, z) > 0
    ensures lo < hi <= |z| && AllZero(z[..lo]) && Full(z[lo..hi]) && (hi < |z| ==> z[hi] == 0)
    ensures Runs(false, z) == 1 + Runs(false, z[hi..])
  {
    if z[0] != 0 {
      lo := 0;
      hi := RunEnd(z);
    } else {
      lo, hi := FirstRun(z[1..]);
      OneLater(z, lo, hi);
      lo, hi := lo + 1, hi + 1;
    }
  }

  lemma ThreeParts(z: seq<dibit>, lo: nat, hi: nat)
    requires lo <= hi <= |z|
    ensures z == z[..lo] + (z[lo..hi] + z[hi..])
  {
  }

  /** What precedes the first run does not show in the register. */
  lemma SkipZeros(z: seq<dibit>, lo: nat, hi: nat)
    requires lo <= hi <= |z| && AllZero(z[..lo])
    ensures Folded(0, z) == Folded(Folded(0, z[lo..hi]), z[hi..])
    ensures Tally(z) == Tally(z[lo..hi]) + Tally(z[hi..])
  {
    hide Folded, Tally, Turns;
    ThreeParts(z, lo, hi);
    FoldedJoin(0, z[..lo], z[lo..hi] + z[hi..]);
    FoldedZeros(0, z[..lo]);
    ZeroTurns(0, 2 * lo);
    FoldedJoin(0, z[lo..hi], z[hi..]);
    TallyJoin(z[..lo], z[lo..hi] + z[hi..]);
    TallyJoin(z[lo..hi], z[hi..]);
    ZeroTally(z[..lo]);
  }

  // ----- the word of a short run

  function Small(n: nat): bv16 {
    if n == 0 then 0 else if n == 1 then 1 else if n == 2 then 2 else if n == 3 then 3 else if n == 4 then 4
    else if n == 5 then 5 else 6
  }

  /** A bound on the word of n dibits. */
  function Top(n: nat): bv16 {
    if n == 0 then 1 else if n == 1 then 4 else if n == 2 then 16 else if n == 3 then 64 else if n == 4 then 256
    else 1024
  }

  lemma WordGrows(x: bv16, d: dibit)
    requires IsRun(x) && x < 256 && d != 0
    ensures Plus(Turn2(x), Low(d)) == (x << 2) ^ (d as bv16)
    ensures IsRun((x << 2) ^ (d as bv16)) && (x << 2) ^ (d as bv16) != 0
    ensures Ones((x << 2) ^ (d as bv16)) == Added(Ones(x), Ones(d as bv16))
    ensures x < 1 ==> (x << 2) ^ (d as bv16) < 4
    ensures x < 4 ==> (x << 2) ^ (d as bv16) < 16
    ensures x < 16 ==> (x << 2) ^ (d as bv16) < 64
    ensures x < 64 ==> (x << 2) ^ (d as bv16) < 256
    ensures (x << 2) ^ (d as bv16) < 1024
  {
  }

  lemma OnesOfDibit(d: dibit)
    ensures Ones(d as bv16) == Small(DibitOnes(d)) && DibitOnes(d) <= 2
  {
  }

  function Added(a: bv16, b: bv16): bv16 { a + b }

  lemma SmallStep(n: nat)
    requires n < 6
    ensures Small(n + 1) == Added(Small(n), 1)
  {
    if n == 0 {} else if n == 1 {} else if n == 2 {} else if n == 3 {} else if n == 4 {} else {}
  }

  lemma OneMore(a: bv16, b: bv16)
    ensures Added(a, Added(b, 1)) == Added(Added(a, b), 1) && Added(a, 0) == a
  {
    hide Added;
    AddedIs(a, b);
    AddedIs(b, 1);
    AddedTwice(a, b);
  }

  lemma AddedIs(a: bv16, b: bv16)
    ensures Added(a, b) == a + b
  {
  }

  lemma AddedTwice(a: bv16, b: bv16)
    ensures Added(a, b + 1) == Added(a + b, 1) && Added(a, 0) == a
  {
  }

  lemma SmallBound(n: nat)
    ensures Small(n) <= 6 && Small(0) == 0
  {
  }

  lemma {:induction false} SmallSum(m: nat, n: nat)
    requires m + n <= 6
    ensures Added(Small(m), Small(n)) == Small(m + n)
    ensures Small(m + n) <= 6
  {
    hide Small, Added;
    SmallBound(m + n);
    if n == 0 {
      OneMore(Small(m), 0);
    } else {
      SmallSum(m, n - 1);
      SmallStep(n - 1);
      SmallStep(m + n - 1);
      OneMore(Small(m), Small(n - 1));
    }
  }

  lemma EmptyWord()
    ensures IsRun(0) && Ones(0) == 0
  {
  }

  lemma {:induction false} RunWord(z: seq<dibit>)
    requires Full(z) && Tally(z) <= 5
    ensures
      var x := Folded(0, z);
      |z| <= 5 && IsRun(x) && Ones(x) == Small(Tally(z)) && x < Top(|z|) && (z != [] ==> x != 0)
    decreases |z|
  {
    hide Folded, Plus, Turn2, Low, IsRun, Ones, Tally, DibitOnes, Small, Added;
    FullTally(z);
    if z == [] {
      NothingFolded(0);
      NothingTallied();
      EmptyWord();
    } else {
      var n := |z| - 1;
      var d := z[n];
      assert z == z[..n] + [d];
      TallyJoin(z[..n], [d]);
      OneTallied(d);
      SomeOnes(d);
      RunWord(z[..n]);
      var x := Folded(0, z[..n]);
      FoldedJoin(0, z[..n], [d]);
      FoldedOne(x, d);
      WordGrows(x, d);
      OnesOfDibit(d);
      SmallSum(Tally(z[..n]), DibitOnes(d));
    }
  }

  lemma NothingTallied()
    ensures Tally([]) == 0 && Small(0) == 0
  {
  }

  lemma OneTallied(d: dibit)
    ensures Tally([d]) == DibitOnes(d)
  {
    assert [d][1..] == [];
  }

  // ----- one short run does not pass

  lemma FoldedBetween(s: bv16, z: seq<dibit>, lo: nat, hi: nat)
    requires lo <= hi <= |z| && AllZero(z[..lo]) && AllZero(z[hi..])
    ensures Folded(s, z) == 0 <==> Folded(Turns(s, 2 * lo), z[lo..hi]) == 0
  {
    hide Folded, Turns;
    ThreeParts(z, lo, hi);
    FoldedJoin(s, z[..lo], z[lo..hi] + z[hi..]);
    FoldedZeros(s, z[..lo]);
    var mid := Folded(Turns(s, 2 * lo), z[lo..hi]);
    FoldedJoin(Turns(s, 2 * lo), z[lo..hi], z[hi..]);
    FoldedZeros(mid, z[hi..]);
    ZeroTurns(mid, 2 * |z[hi..]|);
  }

  function Four(a: dibit, b: dibit, c: dibit, d: dibit): bv16 {
    Plus(Turn2(Plus(Turn2(Plus(Turn2(Low(a)), Low(b))), Low(c))), Low(d))
  }

  lemma FoldedFour(s: bv16, z: seq<dibit>)
    requires |z| == 4
    ensures Folded(s, z) == Plus(Turn8(s), Four(z[0], z[1], z[2], z[3]))
  {
    hide Plus, Turn2, Turn8, Turns, Low;
    FoldedLinear(s, z);
    assert z == [z[0], z[1], z[2], z[3]];
    FourAdded(z[0], z[1], z[2], z[3]);
    EightTurns(s);
  }

  lemma FourSmall(a: dibit, b: dibit, c: dibit, d: dibit)
    ensures Four(a, b, c, d) < 256 && (Four(a, b, c, d) >> 2) & 3 == Low(c)
    ensures Four(a, b, c, d) == 0 ==> d == 0
    ensures a == 0 && b == 0 ==> Four(a, b, c, d) < 16
    ensures a == 0 && b == 0 && c == 0 && d == 0 ==> Four(a, b, c, d) == 0
  {
  }

  lemma LowZero(d: dibit)
    ensures Low(d) == 0 <==> d == 0
  {
  }

  lemma TenCaught(y: bv16, u: bv16, v: bv16)
    requires y < 16 && u < 256 && v < 256 && ((u >> 2) & 3 == 0 ==> y == 0)
    requires Plus(Turn8(Plus(Turn8(Plus(Turn8(0), y)), u)), v) == 0
    ensures v == 0
  {
  }

  /** A run of at most ten dibits. */
  lemma OneRun(z: seq<dibit>)
    requires Full(z) && 1 <= |z| <= 10
    ensures Folded(0, z) != 0
  {
    hide Folded, Plus, Turn8, Turns, Low, Four;
    var p := seq(12 - |z|, i => 0 as dibit) + z;
    var k := 12 - |z|;
    assert p[k..] == z && p[k..12] == z && p[12..] == [];
    FoldedBetween(0, p, k, 12);
    ZeroTurns(0, 2 * k);
    var a, b, c := p[..4], p[4..8], p[8..];
    assert p == a + (b + c);
    FoldedJoin(0, a, b + c);
    FoldedJoin(Folded(0, a), b, c);
    FoldedFour(0, a);
    FoldedFour(Folded(0, a), b);
    FoldedFour(Folded(Folded(0, a), b), c);
    FourSmall(a[0], a[1], a[2], a[3]);
    FourSmall(b[0], b[1], b[2], b[3]);
    FourSmall(c[0], c[1], c[2], c[3]);
    LowZero(b[2]);
    assert c[3] == z[|z| - 1] && b[2] == p[6] && a[2] == p[2] && a[3] == p[3];
    if b[2] == 0 {
      assert k > 6;
    }
    if Folded(0, z) == 0 {
      TenCaught(Four(a[0], a[1], a[2], a[3]), Four(b[0], b[1], b[2], b[3]), Four(c[0], c[1], c[2], c[3]));
    }
  }

  // ----- nor do two light ones

  lemma ZeroSum(a: bv16, b: bv16)
    requires Plus(a, b) == 0
    ensures a == b
  {
  }

  lemma SixIf(f: bv16, h: bv16, m: nat, n: nat)
    requires Ones(f) == Small(m) && Ones(h) == Small(n) && m + n <= 6
    ensures SixOnes(f, h)
  {
    hide Ones, Small, Added;
    SmallSum(m, n);
    AddedIs(Ones(f), Ones(h));
  }

  lemma TwoWords(f: seq<dibit>, gap: nat, h: seq<dibit>)
    requires Full(f) && Full(h) && f != [] && h != [] && gap >= 1 && gap + |h| <= 47
    requires Tally(f) + Tally(h) <= 6
    ensures Folded(Turns(Folded(0, f), 2 * gap), h) != 0
  {
    hide Folded, Turns, Plus, Tally, IsRun, Ones, Small, SixOnes;
    FullTally(f);
    FullTally(h);
    RunWord(f);
    RunWord(h);
    var x, y := Folded(0, f), Folded(0, h);
    SixIf(x, y, Tally(f), Tally(h));
    NeverCarried(x, y, gap + |h|);
    TurnsJoin(x, 2 * gap, 2 * |h|);
    FoldedLinear(Turns(x, 2 * gap), h);
    if Folded(Turns(x, 2 * gap), h) == 0 {
      ZeroSum(Turns(x, 2 * (gap + |h|)), y);
    }
  }

  lemma TwoRuns(z: seq<dibit>)
    requires |z| <= 48 && Runs(false, z) == 2 && Tally(z) <= 6
    ensures Folded(0, z) != 0
  {
    hide Folded, Turns, Tally, Runs;
    var lo, hi := FirstRun(z);
    var rest := z[hi..];
    SkipZeros(z, lo, hi);
    var from, to := FirstRun(rest);
    NoRuns(rest[to..]);
    assert rest[0] == z[hi] == 0 && rest[from] == rest[from..to][0] != 0;
    FoldedBetween(Folded(0, z[lo..hi]), rest, from, to);
    SkipZeros(rest, from, to);
    TwoWords(z[lo..hi], from, rest[from..to]);
  }

  /** A string of dibits that leaves the register at zero has many set bits if it has few runs. */
  lemma FewRunsAreHeavy(z: seq<dibit>)
    requires |z| <= 48 && Folded(0, z) == 0
    ensures Runs(false, z) == 1 ==> Tally(z) >= 11
    ensures Runs(false, z) == 2 ==> Tally(z) >= 7
  {
    hide Folded, Turns, Tally, Runs;
    if Runs(false, z) == 1 && Tally(z) <= 10 {
      var lo, hi := FirstRun(z);
      SkipZeros(z, lo, hi);
      NoRuns(z[hi..]);
      FoldedBetween(0, z, lo, hi);
      ZeroTurns(0, 2 * lo);
      FullTally(z[lo..hi]);
      OneRun(z[lo..hi]);
    } else if Runs(false, z) == 2 && Tally(z) <= 6 {
      TwoRuns(z);
    }
  }

  // ----- the differences of two good blocks

  lemma PartsOfSum(x: byte, y: byte)
    ensures ((((x ^ y) >> 6) & 3) as dibit) == (((x >> 6) & 3) as dibit) ^ (((y >> 6) & 3) as dibit)
    ensures ((((x ^ y) >> 4) & 3) as dibit) == (((x >> 4) & 3) as dibit) ^ (((y >> 4) & 3) as dibit)
    ensures ((((x ^ y) >> 2) & 3) as dibit) == (((x >> 2) & 3) as dibit) ^ (((y >> 2) & 3) as dibit)
    ensures (((x ^ y) & 3) as dibit) == ((x & 3) as dibit) ^ ((y & 3) as dibit)
  {
  }

  lemma DibitDifference(x: byte, y: byte, c: nat)
    requires c < 4
    ensures ByteDibit(Difference(x, y), c) == ByteDibit(x, c) ^ ByteDibit(y, c)
  {
    PartsOfSum(x, y);
    if c == 0 {} else if c == 1 {} else if c == 2 {} else {}
  }

  lemma DifferenceAt(t: Pdu, u: Pdu, i: nat)
    requires i < 48
    ensures Dibits(Differences(t, u))[i] == Dibits(t)[i] ^ Dibits(u)[i]
  {
    hide ByteDibit, Dibits, Difference;
    DibitAt(t, i);
    DibitAt(u, i);
    DibitAt(Differences(t, u), i);
    DibitDifference(t[i / 4], u[i / 4], i % 4);
  }

  lemma GapOfDifference(x: dibit, y: dibit)
    ensures BitGap(x, y) == DibitOnes(x ^ y)
    ensures x ^ y == 0 <==> x == y
  {
  }

  lemma {:induction false} DifferenceCounts(a: seq<dibit>, b: seq<dibit>, z: seq<dibit>, parted: bool)
    requires |a| == |b| == |z| && forall i :: 0 <= i < |z| ==> z[i] == a[i] ^ b[i]
    ensures Weight(a, b) == Tally(z) && Partings(parted, a, b) == Runs(parted, z)
    decreases |a|
  {
    hide BitGap, DibitOnes;
    if a != [] {
      GapOfDifference(a[0], b[0]);
      DifferenceCounts(a[1..], b[1..], z[1..], a[0] != b[0]);
    }
  }

  lemma EvenDamage(t: Pdu, u: Pdu)
    requires CrcOk(t) && CrcOk(u) && t != u
    ensures Hamming(DibitBits(Dibits(t)), DibitBits(Dibits(u))) % 2 == 0
    ensures Hamming(DibitBits(Dibits(t)), DibitBits(Dibits(u))) >= 4
  {
    hide DibitBits, Dibits, CrcDetection.Passes, Message, CrcDetection.Codeword;
    DifferentDibits(t, u);
    BitOrder.SameOrder(t);
    BitOrder.SameOrder(u);
    if PduBits(t) == PduBits(u) {
      SameDibits(Dibits(t), Dibits(u));
    }
    CrcDetection.GoodCodewordsFarApart(Message(t), Check(t), Message(u), Check(u));
  }

  /** Good blocks that part in few places differ in many bits. */
  lemma GoodBlocksPart(t: Pdu, u: Pdu)
    requires CrcOk(t) && CrcOk(u) && t != u
    ensures
      var w, n := Hamming(DibitBits(Dibits(t)), DibitBits(Dibits(u))), Partings(false, Dibits(t), Dibits(u));
      w + 2 * n >= 10 && w + 4 * n >= 16
  {
    hide DibitBits, Dibits, CrcOk, Differences, Weight, Partings, Runs, Tally, Digest, Folded;
    var z := Dibits(Differences(t, u));
    forall i | 0 <= i < 48
      ensures z[i] == Dibits(t)[i] ^ Dibits(u)[i]
    {
      DifferenceAt(t, u, i);
    }
    EvenDamage(t, u);
    DifferentDibits(t, u);
    SomeParting(Dibits(t), Dibits(u));
    WeightIsHamming(Dibits(t), Dibits(u));
    DifferenceCounts(Dibits(t), Dibits(u), z, false);
    GoodBursts.DifferencesDigest(t, u);
    ZeroDigest(Differences(t, u));
    FewRunsAreHeavy(z);
  }

  /** Frames of different blocks that pass the CRC differ in at least ten dibits and at least sixteen bits. */
  lemma GoodFrameDistance(nac: bv16, t: Pdu, u: Pdu)
    requires CrcOk(t) && CrcOk(u) && t != u
    ensures Hamming(TsbkFrame(nac, t), TsbkFrame(nac, u)) >= 10
    ensures Hamming(DibitBits(TsbkFrame(nac, t)), DibitBits(TsbkFrame(nac, u))) >= 16
  {
    hide TsbkFrame, Encode, Dibits, DibitBits, CrcOk, Partings;
    GoodBlocksPart(t, u);
    PartingDistance(0, Dibits(t), Dibits(u));
    FrameKeepsDibits(nac, t, u);
    FrameKeepsBits(nac, t, u);
  }

  /** After at most two bit errors, or one dibit error, the sent block is the only nearest one; among blocks that
      pass the CRC it is so after at most seven bit errors, or four dibit errors. */
  lemma NearestIsSent(nac: bv16, t: Pdu, u: Pdu, air: seq<dibit>)
    requires |air| == 180 && t != u
    ensures
      var good := CrcOk(t) && CrcOk(u);
      var bitErrors := Hamming(DibitBits(air), DibitBits(TsbkFrame(nac, t)));
      var dibitErrors := Hamming(air, TsbkFrame(nac, t));
      && (bitErrors <= (if good then 7 else 2) ==>
            Hamming(DibitBits(air), DibitBits(TsbkFrame(nac, u))) > bitErrors)
      && (dibitErrors <= (if good then 4 else 1) ==> Hamming(air, TsbkFrame(nac, u)) > dibitErrors)
  {
    hide TsbkFrame, DibitBits, CrcOk;
    var f, g := TsbkFrame(nac, t), TsbkFrame(nac, u);
    FrameDistance(nac, t, u);
    if CrcOk(t) && CrcOk(u) {
      GoodFrameDistance(nac, t, u);
    }
    HammingTriangle(f, air, g);
    HammingTriangle(DibitBits(f), DibitBits(air), DibitBits(g));
  }

  // ----- ten and sixteen are the least

  /** Damage that the CRC misses, in four bits that part in three places. */
  function NearDamage(): (d: seq<byte>)
    ensures |d| == 12
  {
    [0xA0, 0, 0, 0, 0, 0, 0x80, 0, 0, 0, 0, 0x01]
  }

  /** The register before byte k of it. */
  function NearState(k: nat): bv16
    requires k <= 12
  {
    if k == 0 then 0 else if k == 1 then 0xb5ea else if k == 2 then 0x1d7e else if k == 3 then 0xbd9c
    else if k == 4 then 0xea76 else if k == 5 then 0x2a64 else if k == 6 then 0xe128 else if k == 7 then 0x5487
    else if k == 8 then 0x9d71 else if k == 9 then 0x2314 else if k == 10 then 0x0001 else if k == 11 then 0x0100
    else 0
  }

  lemma NearStep(k: nat)
    requires k < 12
    ensures Feed(NearState(k), NearDamage()[k]) == NearState(k + 1)
  {
  }

  lemma {:induction false} NearDigest(k: nat)
    requires k <= 12
    ensures Digest(0, NearDamage()[..k]) == NearState(k)
  {
    hide Feed, Digest, NearDamage;
    if k == 0 {
      GoodBursts.NoBytes(0);
      assert NearDamage()[..0] == [];
    } else {
      NearDigest(k - 1);
      DigestOne(0, NearDamage(), k - 1);
      NearStep(k - 1);
    }
  }

  function Neighbour(t: Pdu): (u: Pdu) { Differences(t, NearDamage()) }

  lemma NearByte(q: nat, c: nat)
    requires q < 12 && c < 4
    ensures ByteDibit(NearDamage()[q], c)
         == if 4 * q + c in {0, 1, 24} then 2 else if 4 * q + c == 47 then 1 else 0
  {
  }

  lemma NeighbourDibit(t: Pdu, i: nat)
    requires i < 48
    ensures Dibits(Neighbour(t))[i]
         == Dibits(t)[i] ^ if i in {0, 1, 24} then 2 else if i == 47 then 1 else 0
  {
    hide Dibits, ByteDibit, Differences, NearDamage;
    DifferenceAt(t, NearDamage(), i);
    DibitAt(NearDamage(), i);
    NearByte(i / 4, i % 4);
  }

  lemma NeighbourGood(t: Pdu)
    requires CrcOk(t)
    ensures CrcOk(Neighbour(t))
  {
    hide Digest, CrcOk, NearDamage, Differences;
    NearDigest(12);
    assert NearDamage()[..12] == NearDamage();
    GoodBursts.DamageMissed(t, NearDamage());
  }

  /** The distance over the steps from n on. */
  function GapFrom(bits: bool, a: seq<dibit>, b: seq<dibit>, n: nat): nat
    requires |a| == |b| && n <= |a| + 1
    decreases |a| + 1 - n
  {
    if n == |a| + 1 then 0 else Gap(bits, PairAt(a, n), PairAt(b, n)) + GapFrom(bits, a, b, n + 1)
  }

  lemma {:induction false} GapFromIsPath(bits: bool, a: seq<dibit>, b: seq<dibit>, n: nat)
    requires |a| == |b| && n <= |a|
    ensures GapFrom(bits, a, b, n) == PathGap(bits, StateAt(0, a, n), a[n..], StateAt(0, b, n), b[n..])
    decreases |a| - n
  {
    hide Gap, Pair;
    if n < |a| {
      GapFromIsPath(bits, a, b, n + 1);
      assert a[n..][1..] == a[n + 1..] && b[n..][1..] == b[n + 1..];
    } else {
      assert GapFrom(bits, a, b, n + 1) == 0;
    }
  }

  lemma GapStep(bits: bool, a: seq<dibit>, b: seq<dibit>, n: nat)
    requires |a| == |b| && n <= |a|
    ensures GapFrom(bits, a, b, n) == Gap(bits, PairAt(a, n), PairAt(b, n)) + GapFrom(bits, a, b, n + 1)
    ensures GapFrom(bits, a, b, |a| + 1) == 0
  {
    hide Gap, PairAt;
  }

  lemma NoPairGap(bits: bool, p: (dibit, dibit))
    ensures Gap(bits, p, p) == 0
  {
  }

  lemma {:induction false} QuietSteps(bits: bool, a: seq<dibit>, b: seq<dibit>, m: nat, n: nat)
    requires |a| == |b| && m <= n <= |a| + 1
    requires forall k :: m <= k < n ==> PairAt(a, k) == PairAt(b, k)
    ensures GapFrom(bits, a, b, m) == GapFrom(bits, a, b, n)
    decreases n - m
  {
    hide Gap, PairAt;
    if m < n {
      NoPairGap(bits, PairAt(a, m));
      QuietSteps(bits, a, b, m + 1, n);
    }
  }

  lemma FirstPlace(x: dibit, y: dibit, w: dibit)
    ensures PairDibits(Pair(0, x), Pair(0, x ^ 2)) + PairDibits(Pair(x, y), Pair(x ^ 2, y ^ 2))
            + PairDibits(Pair(y, w), Pair(y ^ 2, w)) == 4
    ensures PairBits(Pair(0, x), Pair(0, x ^ 2)) + PairBits(Pair(x, y), Pair(x ^ 2, y ^ 2))
            + PairBits(Pair(y, w), Pair(y ^ 2, w)) == 6
  {
  }

  lemma SecondPlace(s: dibit, x: dibit, y: dibit)
    ensures PairDibits(Pair(s, x), Pair(s, x ^ 2)) + PairDibits(Pair(x, y), Pair(x ^ 2, y)) == 3
    ensures PairBits(Pair(s, x), Pair(s, x ^ 2)) + PairBits(Pair(x, y), Pair(x ^ 2, y)) == 5
  {
  }

  lemma LastPlace(s: dibit, x: dibit)
    ensures PairDibits(Pair(s, x), Pair(s, x ^ 1)) + PairDibits(Pair(x, 0), Pair(x ^ 1, 0)) == 3
    ensures PairBits(Pair(s, x), Pair(s, x ^ 1)) + PairBits(Pair(x, 0), Pair(x ^ 1, 0)) == 5
  {
  }

  lemma Unchanged(d: dibit)
    ensures d ^ 0 == d
  {
  }

  lemma NeighbourPair(t: Pdu, n: nat)
    requires n < 49
    ensures n !in {0, 1, 2, 24, 25, 47, 48} ==> PairAt(Dibits(t), n) == PairAt(Dibits(Neighbour(t)), n)
  {
    hide Dibits, Neighbour, Pair;
    if n > 0 {
      NeighbourDibit(t, n - 1);
      Unchanged(Dibits(t)[n - 1]);
    }
    if n < 48 {
      NeighbourDibit(t, n);
      Unchanged(Dibits(t)[n]);
    }
  }

  lemma FirstGaps(t: Pdu, bits: bool)
    ensures
      var a, b := Dibits(t), Dibits(Neighbour(t));
      Gap(bits, PairAt(a, 0), PairAt(b, 0)) + Gap(bits, PairAt(a, 1), PairAt(b, 1))
      + Gap(bits, PairAt(a, 2), PairAt(b, 2)) == if bits then 6 else 4
  {
    hide Dibits, Neighbour, Pair, PairDibits, PairBits;
    var a := Dibits(t);
    NeighbourDibit(t, 0);
    NeighbourDibit(t, 1);
    NeighbourDibit(t, 2);
    Unchanged(a[2]);
    FirstPlace(a[0], a[1], a[2]);
  }

  lemma SecondGaps(t: Pdu, bits: bool)
    ensures
      var a, b := Dibits(t), Dibits(Neighbour(t));
      Gap(bits, PairAt(a, 24), PairAt(b, 24)) + Gap(bits, PairAt(a, 25), PairAt(b, 25)) == if bits then 5 else 3
  {
    hide Dibits, Neighbour, Pair, PairDibits, PairBits;
    var a := Dibits(t);
    NeighbourDibit(t, 23);
    Unchanged(a[23]);
    NeighbourDibit(t, 24);
    NeighbourDibit(t, 25);
    Unchanged(a[25]);
    SecondPlace(a[23], a[24], a[25]);
  }

  lemma LastGaps(t: Pdu, bits: bool)
    ensures
      var a, b := Dibits(t), Dibits(Neighbour(t));
      Gap(bits, PairAt(a, 47), PairAt(b, 47)) + Gap(bits, PairAt(a, 48), PairAt(b, 48)) == if bits then 5 else 3
  {
    hide Dibits, Neighbour, Pair, PairDibits, PairBits;
    var a := Dibits(t);
    NeighbourDibit(t, 46);
    Unchanged(a[46]);
    NeighbourDibit(t, 47);
    LastPlace(a[46], a[47]);
  }

  lemma NeighbourPath(t: Pdu, bits: bool)
    ensures PathGap(bits, 0, Dibits(t), 0, Dibits(Neighbour(t))) == if bits then 16 else 10
  {
    hide Dibits, Neighbour, PairAt, Gap, GapFrom, PathGap;
    var a, b := Dibits(t), Dibits(Neighbour(t));
    assert a[0..] == a && b[0..] == b;
    GapFromIsPath(bits, a, b, 0);
    forall n | 0 <= n < 49 && n !in {0, 1, 2, 24, 25, 47, 48}
      ensures PairAt(a, n) == PairAt(b, n)
    {
      NeighbourPair(t, n);
    }
    GapStep(bits, a, b, 0);
    GapStep(bits, a, b, 1);
    GapStep(bits, a, b, 2);
    QuietSteps(bits, a, b, 3, 24);
    GapStep(bits, a, b, 24);
    GapStep(bits, a, b, 25);
    QuietSteps(bits, a, b, 26, 47);
    GapStep(bits, a, b, 47);
    GapStep(bits, a, b, 48);
    FirstGaps(t, bits);
    SecondGaps(t, bits);
    LastGaps(t, bits);
  }

  /** Every good block has another good one whose frame differs from its own in exactly ten dibits and exactly
      sixteen bits. */
  lemma NearestNeighbour(nac: bv16, t: Pdu)
    requires CrcOk(t)
    ensures CrcOk(Neighbour(t)) && Neighbour(t) != t
    ensures Hamming(TsbkFrame(nac, t), TsbkFrame(nac, Neighbour(t))) == 10
    ensures Hamming(DibitBits(TsbkFrame(nac, t)), DibitBits(TsbkFrame(nac, Neighbour(t)))) == 16
  {
    hide TsbkFrame, Encode, Dibits, DibitBits, CrcOk, Neighbour, PathGap;
    var u := Neighbour(t);
    NeighbourGood(t);
    NeighbourPath(t, false);
    NeighbourPath(t, true);
    PathGapIsDistance(0, Dibits(t), 0, Dibits(u));
    FrameKeepsDibits(nac, t, u);
    FrameKeepsBits(nac, t, u);
    HammingZero(TsbkFrame(nac, t), TsbkFrame(nac, u));
  }
}
