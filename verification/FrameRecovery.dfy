/** A receiver for the frames of src/p25/Frame.cpp, and how much damage a frame survives. */
module FrameRecovery {
  import opened Bits
  import opened Distance
  import opened Frame
  import opened Interleaver
  import opened StatusSymbols
  import opened Trellis
  import opened Tsbk
  import opened Wrappers
  import Nid
  import NidCode

  // ----- a receiver

  datatype Received = Received(nac: bv16, duid: bv16, tsbk: Pdu)

  /** The sync as the receiver knows it (third_party/dsd-neo/include/dsd-neo/core/sync_patterns.h): its symbols are the
      outer two, 1 standing for the positive one and 3 for the negative. */
  const P25P1_SYNC: string := "111113113311333313133333"

  /** The frame types that the receiver tells apart by their two dibits (dispatch_p25p1.c). */
  const TSDU: bv16 := 0x7
  const TDU: bv16 := 0x3

  predicate InSync(data: seq<dibit>)
    requires |data| == 154
  {
    forall i :: 0 <= i < 24 ==> data[i] == if P25P1_SYNC[i] == '1' then 1 else 3
  }

  /** The 64 bits after the sync. */
  function ReadNid(data: seq<dibit>): bv64
    requires |data| == 154
  {
    var b := Bytes(data[24..56]);
    ArgWord(b[0], b[1], b[2], b[3], b[4], b[5], b[6], b[7])
  }

  function Nac(nid: bv64): bv16 { (nid >> 52) as bv16 }
  function Duid(nid: bv64): bv16 { ((nid >> 48) & 0xf) as bv16 }

  function Data(air: seq<dibit>): (data: seq<dibit>)
    requires |air| == 180
    ensures |data| == 154
  {
    Stripped(air, 154)
  }

  /** Strip the status symbols, check sync, NID and DUID, de-interleave, trellis-decode, check the CRC. */
  function Receive(air: seq<dibit>): Option<Received> {
    if |air| != 180 then None
    else
      var data := Data(air);
      var nid := ReadNid(data);
      if !InSync(data) || !NidCode.Clean(nid) || Duid(nid) != TSDU then None
      else
        match Decode(0, Deinterleaved(data[56..]))
        case None => None
        case Some(x) =>
          if |x| == 48 && CrcOk(Bytes(x)) then Some(Received(Nac(nid), Duid(nid), Bytes(x))) else None
  }

  lemma DataOfSent(data: seq<dibit>)
    requires |data| == 154
    ensures Data(Sent(data)) == data
  {
    Recovered(data, STATUS_SYMBOL);
  }

  lemma SyncWord()
    ensures ArgByte(FRAME_SYNC, 2) == 0x55 && ArgByte(FRAME_SYNC, 3) == 0x75 && ArgByte(FRAME_SYNC, 4) == 0xF5
    ensures ArgByte(FRAME_SYNC, 5) == 0xFF && ArgByte(FRAME_SYNC, 6) == 0x77 && ArgByte(FRAME_SYNC, 7) == 0xFF
  {
  }

  lemma SyncDibits(k: nat)
    requires k < 4
    ensures ByteDibit(0x55, k) == 1 && ByteDibit(0x75, k) == (if k == 1 then 3 else 1)
    ensures ByteDibit(0xF5, k) == (if k < 2 then 3 else 1) && ByteDibit(0xFF, k) == 3
    ensures ByteDibit(0x77, k) == if k % 2 == 0 then 1 else 3
  {
  }

  lemma SyncPlace(i: nat)
    requires i < 24
    ensures WordDibits(FRAME_SYNC, 24)[i] == ByteDibit(ArgByte(FRAME_SYNC, i / 4 + 2), i % 4)
  {
    hide Dibits, ArgByte, ByteDibit;
    DibitAt(WordBytes(FRAME_SYNC), 8 + i);
  }

  lemma SyncDibit(i: nat)
    requires i < 24
    ensures WordDibits(FRAME_SYNC, 24)[i] == if P25P1_SYNC[i] == '1' then 1 else 3
  {
    hide WordDibits, ArgByte, ByteDibit;
    SyncPlace(i);
    SyncWord();
    SyncDibits(i % 4);
    match i
    case 0 => case 1 => case 2 => case 3 => case 4 => case 5 => case 6 => case 7 => case 8 => case 9 => case 10 =>
    case 11 => case 12 => case 13 => case 14 => case 15 => case 16 => case 17 => case 18 => case 19 => case 20 =>
    case 21 => case 22 => case _ =>
  }

  lemma SyncReads(data: seq<dibit>)
    requires |data| == 154 && data[..24] == WordDibits(FRAME_SYNC, 24)
    ensures InSync(data)
  {
    hide WordDibits;
    forall i | 0 <= i < 24
      ensures data[i] == if P25P1_SYNC[i] == '1' then 1 else 3
    {
      SyncDibit(i);
      assert data[i] == data[..24][i];
    }
  }

  lemma HeaderParts(nac: bv16, duid: bv16, payload: seq<dibit>)
    requires |payload| == 98
    ensures
      var data, nid := Header(nac, duid) + payload, Nid.Encoded(Nid.NidData(nac, duid));
      && data[..24] == WordDibits(FRAME_SYNC, 24)
      && data[24..56] == Dibits(WordBytes(nid))
  {
    hide Nid.Encoded, Nid.NidData, WordBytes, Dibits;
    var data, nid := Header(nac, duid) + payload, Dibits(WordBytes(Nid.Encoded(Nid.NidData(nac, duid))));
    assert nid[0..] == nid;
    assert data[..24] == WordDibits(FRAME_SYNC, 24);
    assert data[24..56] == nid;
  }

  lemma NidReads(data: seq<dibit>, v: bv64)
    requires |data| == 154 && data[24..56] == Dibits(WordBytes(v))
    ensures ReadNid(data) == v
  {
    hide ArgWord, ArgByte, Dibits, Bytes;
    BytesOfDibits(WordBytes(v));
    ArgParts(v);
  }

  lemma FieldsOfHigh(v: bv64)
    ensures Nac(v) == Nid.High(v) >> 4 && Duid(v) == Nid.High(v) & 0xf
  {
  }

  lemma HeaderReads(nac: bv16, duid: bv16, payload: seq<dibit>)
    requires |payload| == 98 && duid < 16
    ensures
      var data := Header(nac, duid) + payload;
      && InSync(data)
      && NidCode.Clean(ReadNid(data))
      && Nac(ReadNid(data)) == nac & 0xfff
      && Duid(ReadNid(data)) == duid
  {
    hide ReadNid, Header, WordDibits, WordBytes, Nid.Encoded, Nid.NidData, Nid.High, Dibits, Nac, Duid, NidCode.Clean,
         InSync;
    var word := Nid.NidData(nac, duid);
    HeaderParts(nac, duid, payload);
    SyncReads(Header(nac, duid) + payload);
    NidReads(Header(nac, duid) + payload, Nid.Encoded(word));
    NidCode.CodewordClean(word);
    FieldsOfHigh(Nid.Encoded(word));
    Nid.Systematic(word);
    Nid.NidFields(nac, duid);
  }

  /** The receiver gets back exactly what was framed, if the block passes its CRC, and nothing otherwise. */
  lemma FrameRoundTrip(nac: bv16, tsbk: Pdu)
    ensures Receive(TsbkFrame(nac, tsbk))
         == if CrcOk(tsbk) then Some(Received(nac & 0xfff, 7, tsbk)) else None
  {
    hide InSync, Nac, Duid, ReadNid, Header, Payload, Sent, Data, Decode, Encode, Dibits, Bytes, Deinterleaved,
         Interleaved, CrcOk, NidCode.Clean;
    DuidsAgree();
    PayloadReads(tsbk);
    var data := Header(nac, Nid.DUID_TSBK) + Payload(tsbk);
    HeaderReads(nac, Nid.DUID_TSBK, Payload(tsbk));
    DataOfSent(data);
    assert data[56..] == Payload(tsbk);
  }

  lemma DuidsAgree()
    ensures Nid.DUID_TSBK == TSDU == 7 && Nid.DUID_TDU == TDU == 3
  {
  }

  lemma PayloadReads(tsbk: Pdu)
    ensures Decode(0, Deinterleaved(Payload(tsbk))) == Some(Dibits(tsbk))
    ensures Bytes(Dibits(tsbk)) == tsbk
  {
    hide Decode, Encode, Dibits, Bytes, Deinterleaved, Interleaved;
    Inverse(Encode(0, Dibits(tsbk)));
    EncodeDecodes(0, Dibits(tsbk));
    BytesOfDibits(tsbk);
  }

  /** A terminator carries the same identity, and zeros, and is never taken for a block. */
  lemma TduReads(nac: bv16)
    ensures
      var data := Data(TduFrame(nac));
      && InSync(data) && NidCode.Clean(ReadNid(data))
      && Nac(ReadNid(data)) == nac & 0xfff && Duid(ReadNid(data)) == TDU
      && (forall i :: 56 <= i < 154 ==> data[i] == 0)
      && Receive(TduFrame(nac)) == None
  {
    hide InSync, Nac, Duid, ReadNid, Header, Sent, Data, Decode, NidCode.Clean;
    DuidsAgree();
    var payload := seq(98, i => 0 as dibit);
    HeaderReads(nac, Nid.DUID_TDU, payload);
    DataOfSent(Header(nac, Nid.DUID_TDU) + payload);
  }

  // ----- the status symbols

  /** What the receiver makes of a frame's status symbols (p25_status_symbol.c). */
  datatype StatusClass = Unknown | Subscriber | Infrastructure

  function CountOf(s: seq<dibit>, d: dibit): nat {
    if s == [] then 0 else (if s[0] == d then 1 else 0) + CountOf(s[1..], d)
  }

  function Classified(s: seq<dibit>): StatusClass {
    if CountOf(s, 1) + CountOf(s, 3) > CountOf(s, 0) then Infrastructure
    else if CountOf(s, 0) > 0 then Subscriber
    else Unknown
  }

  function StatusSymbolsOf(air: seq<dibit>): seq<dibit>
    requires |air| == 180
  {
    [air[35], air[71], air[107], air[143], air[179]]
  }

  lemma {:induction false} OnlyTwos(s: seq<dibit>)
    requires forall i :: 0 <= i < |s| ==> s[i] == 2
    ensures CountOf(s, 0) == CountOf(s, 1) == CountOf(s, 3) == 0
  {
    if s != [] {
      OnlyTwos(s[1..]);
    }
  }

  /** Every status symbol the site sends is one that either side may send, so no frame of its shows which side
      it is. */
  lemma StatusUnknown(nac: bv16, tsbk: Pdu, k: nat)
    requires k < 5
    ensures TsbkFrame(nac, tsbk)[36 * k + 35] == 2 && TduFrame(nac)[36 * k + 35] == 2
    ensures Classified(StatusSymbolsOf(TsbkFrame(nac, tsbk))) == Classified(StatusSymbolsOf(TduFrame(nac))) == Unknown
  {
    hide Header, Payload, Classified;
    forall j: nat | j < 5
      ensures TsbkFrame(nac, tsbk)[36 * j + 35] == 2 && TduFrame(nac)[36 * j + 35] == 2
    {
      assert (36 * j + 35) % 36 == 35;
    }
    TwosUnknown(StatusSymbolsOf(TsbkFrame(nac, tsbk)));
    TwosUnknown(StatusSymbolsOf(TduFrame(nac)));
  }

  lemma TwosUnknown(s: seq<dibit>)
    requires forall i :: 0 <= i < |s| ==> s[i] == 2
    ensures Classified(s) == Unknown
  {
    OnlyTwos(s);
  }

  // ----- where the coded dibits are on air

  /** The place of coded dibit i among the data, and on air. */
  function Place(i: nat): nat
    requires i < 98
  {
    56 + AirDibit(i)
  }

  function AirPlace(i: nat): (k: nat)
    requires i < 98
    ensures k < 180
  {
    Slot(Place(i))
  }

  lemma CodedAt(nac: bv16, t: Pdu, i: nat)
    requires i < 98
    ensures TsbkFrame(nac, t)[AirPlace(i)] == Encode(0, Dibits(t))[i]
  {
    hide Header, Encode, Dibits, OnAir, Interleaved;
    SentAt(Encode(0, Dibits(t)), i);
    DataAt(Header(nac, Nid.DUID_TSBK) + Payload(t), STATUS_SYMBOL, Place(i));
  }

  lemma AirPlaceInjective(i: nat, j: nat)
    requires i < 98 && j < 98 && i != j
    ensures AirPlace(i) != AirPlace(j)
  {
    hide AirDibit, Slot;
    if AirDibit(i) == AirDibit(j) {
      AirDibitInjective(i, j);
    }
    if Place(i) < Place(j) {
      SlotGrows(Place(i), Place(j));
    } else {
      SlotGrows(Place(j), Place(i));
    }
  }

  lemma DifferentDibits(t: Pdu, u: Pdu)
    requires t != u
    ensures Dibits(t) != Dibits(u)
  {
    BytesOfDibits(t);
    BytesOfDibits(u);
  }

  // ----- distance between frames

  /** Which coded dibit is sent at place k, if any. */
  lemma PlaceSent(k: nat) returns (i: nat)
    requires k < 180 && k % 36 != 35 && 56 <= k - k / 36 < 154
    ensures i < 98 && AirPlace(i) == k
  {
    hide StepSent, AirPair;
    var p := k - k / 36 - 56;
    i := 2 * StepSent(p / 2) + p % 2;
    PlaceOfStep(p);
    Spread(p / 2);
  }

  /** Frames of two blocks under one NAC differ in no other place. */
  lemma FixedElsewhere(nac: bv16, t: Pdu, u: Pdu, k: nat)
    requires k < 180 && forall i :: 0 <= i < 98 ==> AirPlace(i) != k
    ensures TsbkFrame(nac, t)[k] == TsbkFrame(nac, u)[k]
  {
    hide Header, Payload, AirPlace;
    if k % 36 != 35 && 56 <= k - k / 36 < 154 {
      var i := PlaceSent(k);
    }
  }

  /** Framing keeps the distance between coded blocks. */
  lemma FrameKeepsDibits(nac: bv16, t: Pdu, u: Pdu)
    ensures Hamming(TsbkFrame(nac, t), TsbkFrame(nac, u)) == Hamming(Encode(0, Dibits(t)), Encode(0, Dibits(u)))
  {
    hide TsbkFrame, Encode, Dibits, AirPlace;
    var x, y := Encode(0, Dibits(t)), Encode(0, Dibits(u));
    var place := seq(98, i requires 0 <= i < 98 => AirPlace(i));
    forall i | 0 <= i < 98
      ensures TsbkFrame(nac, t)[place[i]] == x[i] && TsbkFrame(nac, u)[place[i]] == y[i]
    {
      CodedAt(nac, t, i);
      CodedAt(nac, u, i);
    }
    forall i, j | 0 <= i < j < 98
      ensures place[i] != place[j]
    {
      AirPlaceInjective(i, j);
    }
    forall k | 0 <= k < 180 && k !in place
      ensures TsbkFrame(nac, t)[k] == TsbkFrame(nac, u)[k]
    {
      forall i | 0 <= i < 98
        ensures AirPlace(i) != k
      {
        assert place[i] == AirPlace(i);
      }
      FixedElsewhere(nac, t, u, k);
    }
    HammingScatter(x, y, place, TsbkFrame(nac, t), TsbkFrame(nac, u));
  }

  lemma {:induction false} BitOfDibit(x: seq<dibit>, k: nat)
    requires k < 2 * |x|
    ensures DibitBits(x)[k] == TwoBits(x[k / 2])[k % 2]
  {
    hide TwoBits;
    if k >= 2 {
      BitOfDibit(x[1..], k - 2);
      assert (k - 2) / 2 == k / 2 - 1 && (k - 2) % 2 == k % 2;
    }
  }

  lemma FrameKeepsBits(nac: bv16, t: Pdu, u: Pdu)
    ensures Hamming(DibitBits(TsbkFrame(nac, t)), DibitBits(TsbkFrame(nac, u)))
         == Hamming(DibitBits(Encode(0, Dibits(t))), DibitBits(Encode(0, Dibits(u))))
  {
    hide TsbkFrame, Encode, Dibits, AirPlace, DibitBits, TwoBits;
    var x, y := Encode(0, Dibits(t)), Encode(0, Dibits(u));
    var f, g := TsbkFrame(nac, t), TsbkFrame(nac, u);
    var place := seq(196, k requires 0 <= k < 196 => 2 * AirPlace(k / 2) + k % 2);
    forall k | 0 <= k < 196
      ensures DibitBits(f)[place[k]] == DibitBits(x)[k] && DibitBits(g)[place[k]] == DibitBits(y)[k]
    {
      var p := place[k];
      assert p / 2 == AirPlace(k / 2) && p % 2 == k % 2;
      CodedAt(nac, t, k / 2);
      CodedAt(nac, u, k / 2);
      BitOfDibit(x, k);
      BitOfDibit(y, k);
      BitOfDibit(f, p);
      BitOfDibit(g, p);
    }
    forall j, k | 0 <= j < k < 196
      ensures place[j] != place[k]
    {
      if j / 2 != k / 2 {
        AirPlaceInjective(j / 2, k / 2);
      }
    }
    forall p | 0 <= p < 360 && p !in place
      ensures DibitBits(f)[p] == DibitBits(g)[p]
    {
      forall i | 0 <= i < 98
        ensures AirPlace(i) != p / 2
      {
        assert place[2 * i + p % 2] == 2 * AirPlace(i) + p % 2;
      }
      FixedElsewhere(nac, t, u, p / 2);
      BitOfDibit(f, p);
      BitOfDibit(g, p);
    }
    HammingScatter(DibitBits(x), DibitBits(y), place, DibitBits(f), DibitBits(g));
  }

  /** Frames of different blocks under one NAC differ in at least three dibits and at least five bits. */
  lemma FrameDistance(nac: bv16, t: Pdu, u: Pdu)
    requires t != u
    ensures Hamming(TsbkFrame(nac, t), TsbkFrame(nac, u)) >= 3
    ensures Hamming(DibitBits(TsbkFrame(nac, t)), DibitBits(TsbkFrame(nac, u))) >= 5
  {
    hide TsbkFrame, Encode, Dibits, DibitBits;
    DifferentDibits(t, u);
    CodeDistance(0, Dibits(t), Dibits(u));
    FrameKeepsDibits(nac, t, u);
    FrameKeepsBits(nac, t, u);
  }

  lemma {:induction false} SameDibits(x: seq<dibit>, y: seq<dibit>)
    requires |x| == |y| && DibitBits(x) == DibitBits(y)
    ensures x == y
  {
    hide DibitBits, TwoBits;
    forall m | 0 <= m < |x|
      ensures x[m] == y[m]
    {
      BitOfDibit(x, 2 * m);
      BitOfDibit(x, 2 * m + 1);
      BitOfDibit(y, 2 * m);
      BitOfDibit(y, 2 * m + 1);
      SameTwoBits(x[m], y[m]);
    }
  }

  lemma SameTwoBits(d: dibit, e: dibit)
    requires TwoBits(d)[0] == TwoBits(e)[0] && TwoBits(d)[1] == TwoBits(e)[1]
    ensures d == e
  {
  }

  // ----- bursts

  /** The frames of two blocks agree outside a window of consecutive on-air dibits. */
  ghost predicate AgreeOutside(nac: bv16, t: Pdu, u: Pdu, start: int, length: nat) {
    forall k :: 0 <= k < 180 && !(start <= k < start + length) ==> TsbkFrame(nac, t)[k] == TsbkFrame(nac, u)[k]
  }

  /** Coded dibits that differ are sent inside the window, so their places are close. */
  lemma InWindow(nac: bv16, t: Pdu, u: Pdu, start: int, length: nat, i: nat, j: nat)
    requires AgreeOutside(nac, t, u, start, length)
    requires i < 98 && Encode(0, Dibits(t))[i] != Encode(0, Dibits(u))[i]
    requires j < 98 && Encode(0, Dibits(t))[j] != Encode(0, Dibits(u))[j]
    ensures Place(i) - Place(j) < length
  {
    hide TsbkFrame, Encode, Dibits, AirDibit, Slot;
    CodedAt(nac, t, i);
    CodedAt(nac, u, i);
    CodedAt(nac, t, j);
    CodedAt(nac, u, j);
    if Place(j) < Place(i) {
      SlotGrows(Place(j), Place(i));
    }
  }

  /** Whether dibit c of trellis step n differs. */
  predicate StepDiffers(t: Pdu, u: Pdu, n: nat, c: nat)
    requires n < 49 && c < 2
  {
    Encode(0, Dibits(t))[2 * n + c] != Encode(0, Dibits(u))[2 * n + c]
  }

  lemma StepPairs(t: Pdu, u: Pdu, n: nat)
    requires n < 49
    ensures PairDibits(PairAt(Dibits(t), n), PairAt(Dibits(u), n))
         == Bit(StepDiffers(t, u, n, 0)) + Bit(StepDiffers(t, u, n, 1))
  {
    hide Encode, Dibits, Pair;
    EncodeAt(0, Dibits(t), n);
    EncodeAt(0, Dibits(u), n);
  }

  lemma StepsClose(nac: bv16, t: Pdu, u: Pdu, start: int, length: nat, n: nat, c: nat, m: nat,
      d: nat)
    requires AgreeOutside(nac, t, u, start, length)
    requires n < 49 && c < 2 && m < 49 && d < 2 && StepDiffers(t, u, n, c) && StepDiffers(t, u, m, d)
    ensures 2 * AirPair(n) + c - (2 * AirPair(m) + d) < length
  {
    hide Encode, Dibits, AgreeOutside, AirPair;
    InWindow(nac, t, u, start, length, 2 * n + c, 2 * m + d);
    assert (2 * n + c) / 2 == n && (2 * m + d) / 2 == m && (2 * n + c) % 2 == c && (2 * m + d) % 2 == d;
  }

  /** A burst that wipes out 24 consecutive dibits leaves the block determined. */
  lemma BurstTolerance(nac: bv16, t: Pdu, u: Pdu, start: int)
    requires AgreeOutside(nac, t, u, start, 24)
    ensures t == u
  {
    hide Encode, Dibits, AgreeOutside, AirPair, StepDiffers, PairDibits, PairAt;
    if t != u {
      DifferentDibits(t, u);
      var n := AdjacentSteps(Dibits(t), Dibits(u));
      StepPairs(t, u, n);
      StepPairs(t, u, n + 1);
      Spread(n);
      forall c, m, d | c in {0, 1} && d in {0, 1} && m in {n + 1, n + 2} && m < 49
        && StepDiffers(t, u, n, c) && StepDiffers(t, u, m, d)
        ensures -24 < 2 * AirPair(n) + c - (2 * AirPair(m) + d) < 24
      {
        StepsClose(nac, t, u, start, 24, n, c, m, d);
        StepsClose(nac, t, u, start, 24, m, d, n, c);
      }
      if n + 2 < 49 {
        StepPairs(t, u, n + 2);
      }
      assert false;
    }
  }

  /** Where a dibit of the block differs, its own step and the next one differ. */
  lemma ChangedSteps(t: Pdu, u: Pdu, i: nat)
    requires i < 48 && Dibits(t)[i] != Dibits(u)[i]
    ensures StepDiffers(t, u, i, 0) || StepDiffers(t, u, i, 1)
    ensures StepDiffers(t, u, i + 1, 0) || StepDiffers(t, u, i + 1, 1)
  {
    hide Encode, Dibits, Pair, PairDibits, StepDiffers;
    var a, b := Dibits(t), Dibits(u);
    StepPairs(t, u, i);
    StepPairs(t, u, i + 1);
    DifferentPairs(StateAt(0, a, i), a[i], StateAt(0, b, i), b[i]);
    DifferentPairs(a[i], InputAt(a, i + 1), b[i], InputAt(b, i + 1));
  }

  // ----- twenty-four is the most a frame survives, if the CRC is not heeded

  function Blank(): Pdu { seq(12, i => 0) }

  function Nicked(): Pdu { seq(12, i => if i == 11 then 0x20 else 0) }

  lemma {:induction false} DibitAt(data: seq<byte>, m: nat)
    requires m < 4 * |data|
    ensures Dibits(data)[m] == ByteDibit(data[m / 4], m % 4)
  {
    hide ByteDibit;
    if m >= 4 {
      DibitAt(data[1..], m - 4);
      assert (m - 4) / 4 == m / 4 - 1 && (m - 4) % 4 == m % 4;
    }
  }

  lemma NickedDibits(m: nat)
    requires m < 48
    ensures Dibits(Blank())[m] == 0 && Dibits(Nicked())[m] == if m == 45 then 2 else 0
  {
    hide Dibits;
    DibitAt(Blank(), m);
    DibitAt(Nicked(), m);
    NickedByte(m / 4, m % 4);
  }

  lemma NickedByte(i: nat, k: nat)
    requires i < 12 && k < 4
    ensures ByteDibit(0, k) == 0 && ByteDibit(0x20, k) == if k == 1 then 2 else 0
  {
  }

  lemma NickedPairs(n: nat)
    requires n < 49
    ensures PairAt(Dibits(Blank()), n) == Pair(0, 0)
    ensures PairAt(Dibits(Nicked()), n) == if n == 45 then Pair(0, 2) else if n == 46 then Pair(2, 0) else Pair(0, 0)
  {
    hide Dibits, Blank, Nicked, Pair;
    if n > 0 {
      NickedDibits(n - 1);
    }
    if n < 48 {
      NickedDibits(n);
    }
  }

  lemma NickedCode(i: nat)
    requires i < 98
    ensures i !in {91, 92, 93} ==> Encode(0, Dibits(Blank()))[i] == Encode(0, Dibits(Nicked()))[i]
  {
    hide Dibits, Blank, Nicked, Encode;
    var n := i / 2;
    EncodeAt(0, Dibits(Blank()), n);
    EncodeAt(0, Dibits(Nicked()), n);
    NickedPairs(n);
    assert Pair(0, 2).0 == Pair(0, 0).0;
    assert i == 2 * n || i == 2 * n + 1;
  }

  lemma NickedPlaces(p: nat)
    requires p < 98
    ensures
      var i := 2 * StepSent(p / 2) + p % 2;
      (i == 91 ==> p == 49) && (i == 92 ==> p == 72) && (i == 93 ==> p == 73)
  {
    Spread(p / 2);
    var q, c := p / 2, p % 2;
    assert p == 2 * q + c;
    assert AirPair(45) == 24 && AirPair(46) == 36;
  }

  lemma NickedPayload(p: nat)
    requires p < 98
    ensures p !in {49, 72, 73} ==> Payload(Blank())[p] == Payload(Nicked())[p]
  {
    hide Dibits, Blank, Nicked, Encode, StepSent;
    NickedPlaces(p);
    NickedCode(2 * StepSent(p / 2) + p % 2);
  }

  /** Two different blocks whose frames agree outside a window of 25 dibits. */
  lemma BurstLimit(nac: bv16)
    ensures Blank() != Nicked() && AgreeOutside(nac, Blank(), Nicked(), 108, 25)
  {
    hide Header, Payload;
    assert Blank()[11] != Nicked()[11];
    hide Blank, Nicked;
    forall k | 0 <= k < 180 && !(108 <= k < 133)
      ensures TsbkFrame(nac, Blank())[k] == TsbkFrame(nac, Nicked())[k]
    {
      var m := k - k / 36;
      if k % 36 != 35 && 56 <= m < 154 {
        NickedPayload(m - 56);
      }
    }
  }
}
