/** Bursts that the CRC, the trellis code, the interleaver and the status symbols survive together. */
module GoodBursts {
  import opened Bits
  import opened CrcBytes
  import opened Frame
  import opened FrameRecovery
  import opened Interleaver
  import opened StatusSymbols
  import opened Trellis
  import opened Tsbk
  import BitOrder
  import Crc
  import CrcDetection

  // ----- where the bytes of two blocks may differ

  /** Which bits of byte q may differ if the pairs of all differing steps lie from pair p to pair p + 18, and
      at pair p + 18 only the first dibit differs. */
  predicate Fits(d: byte, p: int, q: int) {
    && (d & 0xC0 != 0 ==> p <= q <= p + 5) && (q == p + 5 ==> d & 0x80 == 0)
    && (d & 0x30 != 0 ==> p <= 13 + q <= p + 6) && (13 + q == p + 6 ==> d & 0x20 == 0)
    && (d & 0x0C != 0 ==> p <= 25 + q <= p + 6) && (25 + q == p + 6 ==> d & 0x08 == 0)
    && d & 3 == 0
  }

  predicate Window(d: seq<byte>, p: int)
    requires |d| == 12
  {
    && Fits(d[0], p, 0)
    && Fits(d[1], p, 1)
    && Fits(d[2], p, 2)
    && Fits(d[3], p, 3)
    && Fits(d[4], p, 4)
    && Fits(d[5], p, 5)
    && Fits(d[6], p, 6)
    && Fits(d[7], p, 7)
    && Fits(d[8], p, 8)
    && Fits(d[9], p, 9)
    && Fits(d[10], p, 10)
    && Fits(d[11], p, 11)
  }

  // ----- registers that end at zero

  /** The register runs over d through r, from zero to zero. */
  predicate Chain(d: seq<byte>, r: seq<bv16>)
    requires |d| == 12 && |r| == 13
  {
    && r[0] == 0 && r[12] == 0
    && r[1] == Turn8(r[0] ^ ((d[0] as bv16) << 8))
    && r[2] == Turn8(r[1] ^ ((d[1] as bv16) << 8))
    && r[3] == Turn8(r[2] ^ ((d[2] as bv16) << 8))
    && r[4] == Turn8(r[3] ^ ((d[3] as bv16) << 8))
    && r[5] == Turn8(r[4] ^ ((d[4] as bv16) << 8))
    && r[6] == Turn8(r[5] ^ ((d[5] as bv16) << 8))
    && r[7] == Turn8(r[6] ^ ((d[6] as bv16) << 8))
    && r[8] == Turn8(r[7] ^ ((d[7] as bv16) << 8))
    && r[9] == Turn8(r[8] ^ ((d[8] as bv16) << 8))
    && r[10] == Turn8(r[9] ^ ((d[9] as bv16) << 8))
    && r[11] == Turn8(r[10] ^ ((d[10] as bv16) << 8))
    && r[12] == Turn8(r[11] ^ ((d[11] as bv16) << 8))
  }

  /** The same, read backwards. */
  predicate Unwound(d: seq<byte>, r: seq<bv16>)
    requires |d| == 12 && |r| == 13
  {
    && r[0] == Back8(r[1]) ^ ((d[0] as bv16) << 8)
    && r[1] == Back8(r[2]) ^ ((d[1] as bv16) << 8)
    && r[2] == Back8(r[3]) ^ ((d[2] as bv16) << 8)
    && r[3] == Back8(r[4]) ^ ((d[3] as bv16) << 8)
    && r[4] == Back8(r[5]) ^ ((d[4] as bv16) << 8)
    && r[5] == Back8(r[6]) ^ ((d[5] as bv16) << 8)
    && r[6] == Back8(r[7]) ^ ((d[6] as bv16) << 8)
    && r[7] == Back8(r[8]) ^ ((d[7] as bv16) << 8)
    && r[8] == Back8(r[9]) ^ ((d[8] as bv16) << 8)
    && r[9] == Back8(r[10]) ^ ((d[9] as bv16) << 8)
    && r[10] == Back8(r[11]) ^ ((d[10] as bv16) << 8)
    && r[11] == Back8(r[12]) ^ ((d[11] as bv16) << 8)
  }

  predicate Silent(d: seq<byte>) { forall q :: 0 <= q < |d| ==> d[q] == 0 }

  predicate Linked(s: bv16, b: byte, next: bv16) {
    && next == Turn8(s ^ ((b as bv16) << 8))
    && s == Back8(next) ^ ((b as bv16) << 8)
  }

  lemma Fed(s: bv16, b: byte)
    ensures Feed(s, b) == Turn8(s ^ ((b as bv16) << 8))
  {
    hide Turn8;
  }

  lemma Cancels(x: bv16, s: bv16, b: byte)
    requires x == s ^ ((b as bv16) << 8)
    ensures s == x ^ ((b as bv16) << 8)
  {
  }

  lemma FeedLinks(s: bv16, b: byte)
    ensures Linked(s, b, Feed(s, b))
  {
    hide Turn8, Back8, Feed;
    Fed(s, b);
    BackTurns(s ^ ((b as bv16) << 8));
    Cancels(Back8(Feed(s, b)), s, b);
  }

  lemma Chained(d: seq<byte>) returns (r: seq<bv16>)
    requires |d| == 12 && Digest(0, d) == 0
    ensures |r| == 13 && Chain(d, r) && Unwound(d, r)
  {
    hide Feed, Digest, Linked;
    r := seq(13, k requires 0 <= k < 13 => Digest(0, d[..k]));
    assert d[..12] == d;
    NoBytes(0);
    forall k | 0 <= k < 12
      ensures Linked(r[k], d[k], r[k + 1])
    {
      DigestOne(0, d, k);
      FeedLinks(r[k], d[k]);
    }
    AllLinked(d, r);
  }

  lemma AllLinked(d: seq<byte>, r: seq<bv16>)
    requires |d| == 12 && |r| == 13 && r[0] == 0 && r[12] == 0
    requires forall k :: 0 <= k < 12 ==> Linked(r[k], d[k], r[k + 1])
    ensures Chain(d, r) && Unwound(d, r)
  {
    hide Turn8, Back8;
    assert Linked(r[0], d[0], r[1]) && Linked(r[1], d[1], r[2]) && Linked(r[2], d[2], r[3]);
    assert Linked(r[3], d[3], r[4]) && Linked(r[4], d[4], r[5]) && Linked(r[5], d[5], r[6]);
    assert Linked(r[6], d[6], r[7]) && Linked(r[7], d[7], r[8]) && Linked(r[8], d[8], r[9]);
    assert Linked(r[9], d[9], r[10]) && Linked(r[10], d[10], r[11]) && Linked(r[11], d[11], r[12]);
  }

  lemma NoBytes(s: bv16)
    ensures Digest(s, []) == s
  {
  }

  // ----- nothing fits a window across two groups of steps and is missed by the CRC

  lemma At7(d: seq<byte>, r: seq<bv16>)
    requires |d| == 12 && |r| == 13 && Window(d, 7) && Chain(d, r)
    ensures Silent(d)
  {
  }

  lemma At8(d: seq<byte>, r: seq<bv16>)
    requires |d| == 12 && |r| == 13 && Window(d, 8) && Chain(d, r)
    ensures Silent(d)
  {
  }

  lemma At9(d: seq<byte>, r: seq<bv16>)
    requires |d| == 12 && |r| == 13 && Window(d, 9) && Chain(d, r)
    ensures Silent(d)
  {
  }

  lemma At10(d: seq<byte>, r: seq<bv16>)
    requires |d| == 12 && |r| == 13 && Window(d, 10) && Chain(d, r)
    ensures Silent(d)
  {
  }

  lemma At11(d: seq<byte>, r: seq<bv16>)
    requires |d| == 12 && |r| == 13 && Window(d, 11) && Chain(d, r) && Unwound(d, r)
    ensures Silent(d)
  {
  }

  lemma At19(d: seq<byte>, r: seq<bv16>)
    requires |d| == 12 && |r| == 13 && Window(d, 19) && Chain(d, r)
    ensures Silent(d)
  {
  }

  lemma At20(d: seq<byte>, r: seq<bv16>)
    requires |d| == 12 && |r| == 13 && Window(d, 20) && Chain(d, r)
    ensures Silent(d)
  {
  }

  lemma At21(d: seq<byte>, r: seq<bv16>)
    requires |d| == 12 && |r| == 13 && Window(d, 21) && Chain(d, r)
    ensures Silent(d)
  {
  }

  lemma At22(d: seq<byte>, r: seq<bv16>)
    requires |d| == 12 && |r| == 13 && Window(d, 22) && Chain(d, r)
    ensures Silent(d)
  {
  }

  lemma At23(d: seq<byte>, r: seq<bv16>)
    requires |d| == 12 && |r| == 13 && Window(d, 23) && Chain(d, r) && Unwound(d, r)
    ensures Silent(d)
  {
  }

  lemma At24(d: seq<byte>, r: seq<bv16>)
    requires |d| == 12 && |r| == 13 && Window(d, 24) && Chain(d, r) && Unwound(d, r)
    ensures Silent(d)
  {
  }

  // ----- nor one within a group

  predicate Only(d: byte, mask: byte) { d & !mask == 0 }

  predicate HighBitsClear(d: byte) { d & 0xA8 == 0 }

  predicate DibitMask(mask: byte) { mask == 0xC0 || mask == 0x30 || mask == 0x0C }

  /** Seven dibits, one to a byte and all in the same place in it, the last of them short of its high bit. */
  lemma Seven(a: byte, b: byte, c: byte, d: byte, e: byte, f: byte, g: byte, mask: byte)
    requires DibitMask(mask)
    requires Only(a, mask) && Only(b, mask) && Only(c, mask) && Only(d, mask) && Only(e, mask)
    requires Only(f, mask) && Only(g, mask) && HighBitsClear(g)
    requires Feed(Feed(Feed(Feed(Feed(Feed(Feed(0, a), b), c), d), e), f), g) == 0
    ensures a == b == c == d == e == f == g == 0
  {
  }

  lemma FeedZero(s: bv16)
    ensures Feed(s, 0) == 0 <==> s == 0
  {
  }

  lemma {:induction false} SilentDigest(s: bv16, d: seq<byte>)
    requires Silent(d)
    ensures Digest(s, d) == 0 <==> s == 0
    decreases |d|
  {
    hide Feed;
    if d != [] {
      FeedZero(s);
      SilentDigest(Feed(s, 0), d[1..]);
    }
  }

  lemma {:induction false} DigestJoin(s: bv16, a: seq<byte>, b: seq<byte>)
    ensures Digest(s, a + b) == Digest(Digest(s, a), b)
    decreases |a|
  {
    hide Feed;
    if a == [] {
      assert a + b == b;
    } else {
      assert (a + b)[1..] == a[1..] + b;
      DigestJoin(Feed(s, a[0]), a[1..], b);
    }
  }

  lemma DigestOfSeven(d: seq<byte>)
    requires |d| == 7
    ensures Digest(0, d) == Feed(Feed(Feed(Feed(Feed(Feed(Feed(0, d[0]), d[1]), d[2]), d[3]), d[4]), d[5]), d[6])
  {
    hide Feed, Digest;
    NoBytes(0);
    DigestOne(0, d, 0);
    DigestOne(0, d, 1);
    DigestOne(0, d, 2);
    DigestOne(0, d, 3);
    DigestOne(0, d, 4);
    DigestOne(0, d, 5);
    DigestOne(0, d, 6);
    assert d[..0] == [] && d[..7] == d;
  }

  function Padded(d: seq<byte>): seq<byte> { d + [0, 0, 0, 0, 0, 0, 0] }

  lemma PaddedDigest(d: seq<byte>)
    requires Digest(0, d) == 0
    ensures Digest(0, Padded(d)) == 0
  {
    hide Digest;
    DigestJoin(0, d, [0, 0, 0, 0, 0, 0, 0]);
    SilentDigest(Digest(0, d), [0, 0, 0, 0, 0, 0, 0]);
  }

  /** What is silent around the middle does not count. */
  lemma MiddleDigest(head: seq<byte>, middle: seq<byte>, tail: seq<byte>)
    requires Silent(head) && Silent(tail)
    ensures Digest(0, head + (middle + tail)) == 0 <==> Digest(0, middle) == 0
  {
    hide Digest, Silent;
    DigestJoin(0, head, middle + tail);
    SilentDigest(0, head);
    DigestJoin(0, middle, tail);
    SilentDigest(Digest(0, middle), tail);
  }

  /** Differences in one group of steps, from byte lo on. */
  lemma Alone(d: seq<byte>, lo: nat, mask: byte)
    requires |d| == 12 && lo < 12 && Digest(0, d) == 0
    requires DibitMask(mask)
    requires forall q :: 0 <= q < 12 ==> Only(d[q], mask) && (q < lo || q > lo + 6 ==> d[q] == 0)
    requires lo + 6 < 12 ==> HighBitsClear(d[lo + 6])
    ensures Silent(d)
  {
    hide Digest, Only, HighBitsClear, DibitMask, Feed;
    var e := Padded(d);
    var head, middle, tail := e[..lo], e[lo..lo + 7], e[lo + 7..];
    PaddedDigest(d);
    assert e == head + (middle + tail);
    forall q | 0 <= q < 19
      ensures e[q] == if q < 12 then d[q] else 0
    {
    }
    forall q | 0 <= q < |head|
      ensures head[q] == 0
    {
      assert head[q] == e[q];
    }
    forall q | 0 <= q < |tail|
      ensures tail[q] == 0
    {
      assert tail[q] == e[lo + 7 + q];
    }
    MiddleDigest(head, middle, tail);
    ZeroFits(mask);
    forall q | 0 <= q < 7
      ensures Only(middle[q], mask)
    {
      assert middle[q] == e[lo + q];
    }
    SevenSilent(middle, mask);
    forall q | 0 <= q < 12
      ensures d[q] == 0
    {
      if lo <= q <= lo + 6 {
        assert d[q] == middle[q - lo];
      }
    }
  }

  lemma SevenSilent(d: seq<byte>, mask: byte)
    requires |d| == 7 && DibitMask(mask) && Digest(0, d) == 0
    requires forall q :: 0 <= q < 7 ==> Only(d[q], mask)
    requires HighBitsClear(d[6])
    ensures Silent(d)
  {
    hide Digest, Feed, Only, HighBitsClear, DibitMask;
    DigestOfSeven(d);
    Seven(d[0], d[1], d[2], d[3], d[4], d[5], d[6], mask);
  }

  lemma ZeroFits(mask: byte)
    ensures Only(0, mask) && HighBitsClear(0)
  {
  }

  // ----- nothing fits a window

  lemma FirstGroup(d: byte, p: int, q: int)
    requires Fits(d, p, q) && p <= 6 && 0 <= q < 12
    ensures Only(d, 0xC0) && (q < p || q > p + 5 ==> d == 0)
  {
  }

  lemma SecondGroup(d: byte, p: int, q: int)
    requires Fits(d, p, q) && 12 <= p <= 18 && 0 <= q < 12
    ensures Only(d, 0x30) && (q < p - 13 || q > p - 7 ==> d == 0) && (q == p - 7 ==> HighBitsClear(d))
  {
  }

  lemma ThirdGroup(d: byte, p: int, q: int)
    requires Fits(d, p, q) && 25 <= p && 0 <= q < 12
    ensures Only(d, 0x0C) && (q < p - 25 || q > p - 19 ==> d == 0) && (q == p - 19 ==> HighBitsClear(d))
  {
  }

  lemma WindowAt(d: seq<byte>, p: int, q: nat)
    requires |d| == 12 && q < 12 && Window(d, p)
    ensures Fits(d[q], p, q)
  {
    hide Fits;
  }

  lemma InOneGroup(d: seq<byte>, p: nat)
    requires |d| == 12 && Window(d, p) && Digest(0, d) == 0
    requires p <= 6 || 12 <= p <= 18 || 25 <= p <= 36
    ensures Silent(d)
  {
    hide Window, Fits, Digest, Only, HighBitsClear;
    var base := if p <= 6 then 0 else if p <= 18 then 13 else 25;
    var lo := if p == 12 then 0 else p - base;
    var mask := if p <= 6 then 0xC0 else if p <= 18 then 0x30 else 0x0C;
    ZeroFits(mask);
    forall q | 0 <= q < 12
      ensures Only(d[q], mask) && (q < lo || q > lo + 6 ==> d[q] == 0) && (q == lo + 6 ==> HighBitsClear(d[q]))
    {
      WindowAt(d, p, q);
      if p <= 6 {
        FirstGroup(d[q], p, q);
      } else if p <= 18 {
        SecondGroup(d[q], p, q);
      } else {
        ThirdGroup(d[q], p, q);
      }
    }
    Alone(d, lo, mask);
  }

  /** Differences that fit a window and that the CRC misses are none. */
  lemma NothingFits(d: seq<byte>, p: nat)
    requires |d| == 12 && p <= 36 && Window(d, p) && Digest(0, d) == 0
    ensures Silent(d)
  {
    hide Window, Chain, Unwound, Digest, Silent;
    var r := Chained(d);
    if p == 7 {
      At7(d, r);
    } else if p == 8 {
      At8(d, r);
    } else if p == 9 {
      At9(d, r);
    } else if p == 10 {
      At10(d, r);
    } else if p == 11 {
      At11(d, r);
    } else if p == 19 {
      At19(d, r);
    } else if p == 20 {
      At20(d, r);
    } else if p == 21 {
      At21(d, r);
    } else if p == 22 {
      At22(d, r);
    } else if p == 23 {
      At23(d, r);
    } else if p == 24 {
      At24(d, r);
    } else {
      InOneGroup(d, p);
    }
  }

  // ----- the differences of two good blocks

  /** A block passes its CRC exactly when its bytes leave the register at one constant. */
  lemma GoodDigest(t: Pdu)
    ensures CrcOk(t) <==> Digest(0, t) == 0x1d0f
  {
    hide CrcDetection.Passes, CrcDetection.Codeword, Message, Digest, Crc.Run, AllBits;
    CrcDetection.Residue(Message(t), Check(t));
    BitOrder.PduIsAllBits(t);
    RunIsDigest(0, t);
  }

  lemma SumsToZero(a: bv16)
    ensures Plus(a, a) == 0
  {
  }

  lemma DifferencesDigest(t: Pdu, u: Pdu)
    requires CrcOk(t) && CrcOk(u)
    ensures Digest(0, Differences(t, u)) == 0
  {
    hide Digest, CrcOk, Plus, Differences;
    GoodDigest(t);
    GoodDigest(u);
    DigestLinear(0, t, 0, u);
    SumsToZero(0);
    SumsToZero(0x1d0f);
  }

  lemma NoDifferences(t: Pdu, u: Pdu)
    requires Silent(Differences(t, u))
    ensures t == u
  {
    forall q | 0 <= q < 12
      ensures t[q] == u[q]
    {
      assert Differences(t, u)[q] == 0;
      SameByte(t[q], u[q]);
    }
  }

  lemma SameByte(x: byte, y: byte)
    requires Difference(x, y) == 0
    ensures x == y
  {
  }

  // ----- what a burst of 37 leaves alone

  /** Any 37 consecutive dibits on air hold a status symbol. */
  lemma SlotGap(m: nat, n: nat)
    requires n - m >= 36
    ensures Slot(n) - Slot(m) >= 37
  {
    assert n / 35 > m / 35;
  }

  lemma CodedGap(nac: bv16, t: Pdu, u: Pdu, start: int, i: nat, j: nat)
    requires AgreeOutside(nac, t, u, start, 37)
    requires i < 98 && Encode(0, Dibits(t))[i] != Encode(0, Dibits(u))[i]
    requires j < 98 && Encode(0, Dibits(t))[j] != Encode(0, Dibits(u))[j]
    ensures Place(i) - Place(j) <= 35
  {
    hide TsbkFrame, Encode, Dibits, AirDibit, Slot;
    CodedAt(nac, t, i);
    CodedAt(nac, u, i);
    CodedAt(nac, t, j);
    CodedAt(nac, u, j);
    if Place(i) - Place(j) >= 36 {
      SlotGap(Place(j), Place(i));
    }
  }

  lemma StepGap(nac: bv16, t: Pdu, u: Pdu, start: int, n: nat, c: nat, m: nat, d: nat)
    requires AgreeOutside(nac, t, u, start, 37)
    requires n < 49 && c < 2 && m < 49 && d < 2 && StepDiffers(t, u, n, c) && StepDiffers(t, u, m, d)
    ensures 2 * AirPair(n) + c - (2 * AirPair(m) + d) <= 35
  {
    hide Encode, Dibits, AgreeOutside, AirPair;
    CodedGap(nac, t, u, start, 2 * n + c, 2 * m + d);
    assert (2 * n + c) / 2 == n && (2 * m + d) / 2 == m && (2 * n + c) % 2 == c && (2 * m + d) % 2 == d;
  }

  predicate Changed(t: Pdu, u: Pdu, k: nat)
    requires k < 48
  {
    Dibits(t)[k] != Dibits(u)[k]
  }

  /** The changed dibit whose step is sent first. */
  lemma {:induction false} Foremost(t: Pdu, u: Pdu, m: nat) returns (k: nat)
    requires m < 48 && Changed(t, u, m)
    ensures k < 48 && Changed(t, u, k)
    ensures forall j :: 0 <= j < 48 && Changed(t, u, j) ==> AirPair(k) <= AirPair(j)
    decreases AirPair(m)
  {
    hide AirPair, Changed;
    if j :| 0 <= j < 48 && Changed(t, u, j) && AirPair(j) < AirPair(m) {
      k := Foremost(t, u, j);
    } else {
      k := m;
    }
  }

  lemma StepChanged(t: Pdu, u: Pdu, k: nat) returns (c: nat, d: nat)
    requires k < 48 && Changed(t, u, k)
    ensures c < 2 && d < 2 && StepDiffers(t, u, k, c) && StepDiffers(t, u, k + 1, d)
  {
    hide Dibits, Encode, StepDiffers;
    ChangedSteps(t, u, k);
    c := if StepDiffers(t, u, k, 0) then 0 else 1;
    d := if StepDiffers(t, u, k + 1, 0) then 0 else 1;
  }

  /** A changed dibit lies where the window lets it. */
  lemma ChangedInWindow(nac: bv16, t: Pdu, u: Pdu, start: int, m: nat, k: nat)
    requires AgreeOutside(nac, t, u, start, 37)
    requires m < 48 && Changed(t, u, m) && k < 48 && Changed(t, u, k)
    ensures AirPair(k + 1) - AirPair(m) <= 18 && AirPair(k) - AirPair(k + 1) <= 18
    ensures AirPair(k + 1) - AirPair(m) == 18 ==> !StepDiffers(t, u, k + 1, 1)
  {
    hide AgreeOutside, AirPair, Changed, StepDiffers;
    var c, d := StepChanged(t, u, k);
    var c0, d0 := StepChanged(t, u, m);
    StepGap(nac, t, u, start, k + 1, d, m, c0);
    StepGap(nac, t, u, start, k, c, k + 1, d);
    if StepDiffers(t, u, k + 1, 1) {
      StepGap(nac, t, u, start, k + 1, 1, m, c0);
    }
  }

  predicate SameHigh(x: dibit, y: dibit) { x & 2 == y & 2 }

  /** Two states that give the same second dibit differ in their low bit only. */
  lemma SecondAlike(a: dibit, b: dibit, c: dibit)
    requires Pair(a, c).1 == Pair(b, c).1
    ensures SameHigh(a, b)
  {
  }

  lemma HighAlike(t: Pdu, u: Pdu, k: nat)
    requires k < 48 && !StepDiffers(t, u, k + 1, 1)
    requires k + 1 < 48 ==> !Changed(t, u, k + 1)
    ensures SameHigh(Dibits(t)[k], Dibits(u)[k])
  {
    hide Encode, Dibits, Pair, SameHigh;
    var a, b := Dibits(t), Dibits(u);
    EncodeAt(0, a, k + 1);
    EncodeAt(0, b, k + 1);
    SecondAlike(a[k], b[k], InputAt(a, k + 1));
  }

  lemma GroupPlaces(k: nat)
    requires k < 48
    ensures k % 4 == 0 ==> AirPair(k) == k / 4 && AirPair(k + 1) == k / 4 + 13
    ensures k % 4 == 1 ==> AirPair(k) == k / 4 + 13 && AirPair(k + 1) == k / 4 + 25
    ensures k % 4 == 2 ==> AirPair(k) == k / 4 + 25 && AirPair(k + 1) == k / 4 + 37
    ensures k % 4 == 3 ==> AirPair(k) == k / 4 + 37 && AirPair(k + 1) == k / 4 + 1
  {
  }

  predicate Allowed(t: Pdu, u: Pdu, p: int, k: nat)
    requires k < 48
  {
    Changed(t, u, k) ==>
      && k % 4 != 3 && p <= AirPair(k) && AirPair(k + 1) <= p + 18
      && (AirPair(k + 1) == p + 18 ==> SameHigh(Dibits(t)[k], Dibits(u)[k]))
  }

  lemma ChangedAllowed(nac: bv16, t: Pdu, u: Pdu, start: int, m: nat, k: nat)
    requires AgreeOutside(nac, t, u, start, 37)
    requires m < 48 && Changed(t, u, m) && k < 48
    requires forall j :: 0 <= j < 48 && Changed(t, u, j) ==> AirPair(m) <= AirPair(j)
    ensures Allowed(t, u, AirPair(m), k)
  {
    hide AgreeOutside, AirPair, Changed, StepDiffers, SameHigh, Dibits;
    if Changed(t, u, k) {
      ChangedInWindow(nac, t, u, start, m, k);
      GroupPlaces(k);
      if AirPair(k + 1) - AirPair(m) == 18 {
        if k + 1 < 48 && Changed(t, u, k + 1) {
          ChangedInWindow(nac, t, u, start, m, k + 1);
          GroupPlaces(k + 1);
          assert false;
        }
        HighAlike(t, u, k);
      }
    }
  }

  // ----- bytes and dibits

  lemma UnchangedDibit(x: byte, y: byte, c: nat, mask: byte)
    requires c < 4 && mask == if c == 0 then 0xC0 else if c == 1 then 0x30 else if c == 2 then 0x0C else 0x03
    ensures ByteDibit(x, c) == ByteDibit(y, c) ==> Difference(x, y) & mask == 0
    ensures SameHigh(ByteDibit(x, c), ByteDibit(y, c)) ==> Difference(x, y) & (mask & 0xAA) == 0
  {
  }

  lemma ByteFits(t: Pdu, u: Pdu, p: int, q: nat)
    requires q < 12 && forall k :: 0 <= k < 48 ==> Allowed(t, u, p, k)
    ensures Fits(Difference(t[q], u[q]), p, q)
  {
    hide ByteDibit, Difference, SameHigh, Dibits, AirPair;
    forall c | 0 <= c < 4
      ensures Allowed(t, u, p, 4 * q + c)
      ensures Dibits(t)[4 * q + c] == ByteDibit(t[q], c) && Dibits(u)[4 * q + c] == ByteDibit(u[q], c)
    {
      DibitAt(t, 4 * q + c);
      DibitAt(u, 4 * q + c);
      GroupPlaces(4 * q + c);
    }
    GroupPlaces(4 * q);
    GroupPlaces(4 * q + 1);
    GroupPlaces(4 * q + 2);
    UnchangedDibit(t[q], u[q], 0, 0xC0);
    UnchangedDibit(t[q], u[q], 1, 0x30);
    UnchangedDibit(t[q], u[q], 2, 0x0C);
    UnchangedDibit(t[q], u[q], 3, 0x03);
  }

  // ----- the bound

  lemma ChangeIs(t: Pdu, u: Pdu, i: nat)
    requires i < 48
    ensures Changed(t, u, i) <==> Dibits(t)[i] != Dibits(u)[i]
  {
  }

  lemma BlockFits(t: Pdu, u: Pdu, m: nat)
    requires m < 48 && Changed(t, u, m)
    requires forall k :: 0 <= k < 48 ==> Allowed(t, u, AirPair(m), k)
    ensures AirPair(m) <= 36 && Window(Differences(t, u), AirPair(m))
  {
    hide Difference, Fits, Changed, SameHigh, Dibits, Allowed, AirPair;
    forall q | 0 <= q < 12
      ensures Fits(Differences(t, u)[q], AirPair(m), q)
    {
      ByteFits(t, u, AirPair(m), q);
    }
    PlaceBound(t, u, m);
    WindowFrom(Differences(t, u), AirPair(m));
  }

  lemma PlaceBound(t: Pdu, u: Pdu, m: nat)
    requires m < 48 && Changed(t, u, m) && Allowed(t, u, AirPair(m), m)
    ensures AirPair(m) <= 36
  {
    hide Changed, SameHigh, Dibits, AirPair;
    GroupPlaces(m);
  }

  lemma WindowFrom(d: seq<byte>, p: int)
    requires |d| == 12 && forall q :: 0 <= q < 12 ==> Fits(d[q], p, q)
    ensures Window(d, p)
  {
    hide Fits;
  }

  /** If both blocks pass the CRC, a burst that wipes out 37 consecutive dibits leaves the block determined. */
  lemma GoodBurstTolerance(nac: bv16, t: Pdu, u: Pdu, start: int)
    requires CrcOk(t) && CrcOk(u) && AgreeOutside(nac, t, u, start, 37)
    ensures t == u
  {
    hide Dibits, AgreeOutside, AirPair, Changed, Allowed, CrcOk, Differences, Digest, Silent, Window;
    if t != u {
      DifferentDibits(t, u);
      var i := FirstDifference(Dibits(t), Dibits(u));
      ChangeIs(t, u, i);
      var m := Foremost(t, u, i);
      forall k | 0 <= k < 48
        ensures Allowed(t, u, AirPair(m), k)
      {
        ChangedAllowed(nac, t, u, start, m, k);
      }
      BlockFits(t, u, m);
      DifferencesDigest(t, u);
      NothingFits(Differences(t, u), AirPair(m));
      NoDifferences(t, u);
    }
  }

  // ----- thirty-seven is the most

  /** Damage that the CRC misses. */
  function Pattern(): (d: seq<byte>)
    ensures |d| == 12
  {
    [0x0C, 0, 0, 0, 0, 0, 0x20, 0x30, 0x30, 0, 0x10, 0]
  }

  /** The register before byte k of the pattern. */
  function PatternState(k: nat): bv16
    requires k <= 12
  {
    if k == 0 then 0 else if k == 1 then 0xc18c else if k == 2 then 0x456d else if k == 3 then 0x7561
    else if k == 4 then 0x4f32 else if k == 5 then 0x8b2b else if k == 6 then 0x0be3 else if k == 7 then 0x7609
    else if k == 8 then 0x2102 else if k == 9 then 0x0010 else if k == 10 then 0x1000 else 0
  }

  lemma PatternStep(k: nat)
    requires k < 12
    ensures Feed(PatternState(k), Pattern()[k]) == PatternState(k + 1)
  {
  }

  lemma {:induction false} PatternDigest(k: nat)
    requires k <= 12
    ensures Digest(0, Pattern()[..k]) == PatternState(k)
  {
    hide Feed, Digest, Pattern;
    if k == 0 {
      NoBytes(0);
      assert Pattern()[..0] == [];
    } else {
      PatternDigest(k - 1);
      DigestOne(0, Pattern(), k - 1);
      PatternStep(k - 1);
    }
  }

  /** The block that the pattern turns t into. */
  function Shadow(t: Pdu): (u: Pdu) { Differences(t, Pattern()) }

  lemma PlusZero(a: bv16)
    ensures Plus(0, 0) == 0 && Plus(a, 0) == a
  {
  }

  /** Damage that leaves the register at zero turns good blocks into good blocks. */
  lemma DamageMissed(t: Pdu, d: Pdu)
    requires CrcOk(t) && Digest(0, d) == 0
    ensures CrcOk(Differences(t, d))
  {
    hide Digest, CrcOk, Plus, Difference;
    GoodDigest(t);
    GoodDigest(Differences(t, d));
    DigestLinear(0, t, 0, d);
    PlusZero(0);
    PlusZero(0x1d0f);
  }

  lemma ShadowGood(t: Pdu)
    requires CrcOk(t)
    ensures CrcOk(Shadow(t)) && Shadow(t) != t
  {
    hide Digest, CrcOk, Pattern, Difference;
    PatternDigest(12);
    assert Pattern()[..12] == Pattern();
    DamageMissed(t, Pattern());
    FirstByteDiffers(t[0]);
    assert Shadow(t)[0] == Difference(t[0], Pattern()[0]);
  }

  lemma FirstByteDiffers(b: byte)
    ensures Difference(b, Pattern()[0]) != b
  {
  }

  predicate SameLow(x: dibit, y: dibit) { x & 1 == y & 1 }

  lemma ShadowByte(b: byte, q: nat, c: nat)
    requires q < 12 && c < 4
    ensures 4 * q + c !in [2, 25, 29, 33, 41] ==> ByteDibit(Difference(b, Pattern()[q]), c) == ByteDibit(b, c)
    ensures 4 * q + c == 25 ==> SameLow(ByteDibit(Difference(b, Pattern()[q]), c), ByteDibit(b, c))
  {
  }

  lemma ShadowDibit(t: Pdu, k: nat)
    requires k < 48
    ensures k !in [2, 25, 29, 33, 41] ==> Dibits(Shadow(t))[k] == Dibits(t)[k]
    ensures k == 25 ==> SameLow(Dibits(Shadow(t))[k], Dibits(t)[k])
  {
    hide Dibits, ByteDibit, Difference, Pattern, SameLow;
    DibitAt(t, k);
    DibitAt(Shadow(t), k);
    ShadowByte(t[k / 4], k / 4, k % 4);
  }

  /** Inputs with the same low bit give the same first dibit. */
  lemma FirstAlike(s: dibit, x: dibit, y: dibit)
    requires SameLow(x, y)
    ensures Pair(s, x).0 == Pair(s, y).0
  {
  }

  predicate ShadowStep(n: nat) { n in [2, 3, 25, 26, 29, 30, 33, 34, 41, 42] }

  lemma ShadowCode(t: Pdu, n: nat, c: nat)
    requires n < 49 && c < 2
    requires !ShadowStep(n) || (n == 25 && c == 0)
    ensures Encode(0, Dibits(t))[2 * n + c] == Encode(0, Dibits(Shadow(t)))[2 * n + c]
  {
    hide Encode, Dibits, Shadow, Pair, SameLow;
    var a, b := Dibits(t), Dibits(Shadow(t));
    EncodeAt(0, a, n);
    EncodeAt(0, b, n);
    if n > 0 {
      ShadowDibit(t, n - 1);
    }
    if n < 48 {
      ShadowDibit(t, n);
    }
    if n == 25 {
      FirstAlike(a[24], b[25], a[25]);
    }
  }

  /** Where the differing steps are sent. */
  lemma ShadowPlace(p: nat)
    requires p < 98 && (p < 39 || p > 75)
    ensures
      var n := StepSent(p / 2);
      !ShadowStep(n) || (n == 25 && p % 2 == 0)
  {
    Spread(p / 2);
    assert AirPair(2) == 25 && AirPair(3) == 37 && AirPair(25) == 19 && AirPair(26) == 31 && AirPair(29) == 20;
    assert AirPair(30) == 32 && AirPair(33) == 21 && AirPair(34) == 33 && AirPair(41) == 23 && AirPair(42) == 35;
  }

  lemma ShadowPayload(t: Pdu, p: nat)
    requires p < 98 && (p < 39 || p > 75)
    ensures Payload(t)[p] == Payload(Shadow(t))[p]
  {
    hide Dibits, Shadow, Encode, StepSent;
    ShadowPlace(p);
    ShadowCode(t, StepSent(p / 2), p % 2);
  }

  /** Every good block has another good one whose frame agrees with its own outside a window of 38 dibits. */
  lemma GoodBurstLimit(nac: bv16, t: Pdu)
    requires CrcOk(t)
    ensures CrcOk(Shadow(t)) && Shadow(t) != t && AgreeOutside(nac, t, Shadow(t), 97, 38)
  {
    hide Header, Payload, Shadow, CrcOk;
    ShadowGood(t);
    var u := Shadow(t);
    forall k | 0 <= k < 180 && !(97 <= k < 135)
      ensures TsbkFrame(nac, t)[k] == TsbkFrame(nac, u)[k]
    {
      var m := k - k / 36;
      if k % 36 != 35 && 56 <= m < 154 {
        ShadowPayload(t, m - 56);
      }
    }
  }
}
