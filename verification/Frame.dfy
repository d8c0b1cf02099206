/** Frame assembly (src/p25/Frame.cpp). */
module Frame {
  import opened Bits
  import opened Interleaver
  import opened StatusSymbols
  import opened Trellis
  import opened Tsbk
  import Nid

  const FRAME_SYNC: bv64 := 0x5575F5FF77FF
  const STATUS_SYMBOL: dibit := 2

  // ----- bytes and dibits

  function ByteDibit(b: byte, k: nat): dibit
    requires k < 4
  {
    if k == 0 then ((b >> 6) & 3) as dibit
    else if k == 1 then ((b >> 4) & 3) as dibit
    else if k == 2 then ((b >> 2) & 3) as dibit
    else (b & 3) as dibit
  }

  function ByteDibits(b: byte): (s: seq<dibit>)
    ensures |s| == 4
  {
    [ByteDibit(b, 0), ByteDibit(b, 1), ByteDibit(b, 2), ByteDibit(b, 3)]
  }

  function Dibits(data: seq<byte>): (s: seq<dibit>)
    ensures |s| == 4 * |data|
  {
    if data == [] then [] else ByteDibits(data[0]) + Dibits(data[1..])
  }

  function JoinDibits(a: dibit, b: dibit, c: dibit, d: dibit): byte {
    ((a as byte) << 6) | ((b as byte) << 4) | ((c as byte) << 2) | (d as byte)
  }

  /** The bytes that a string of dibits spells; the receiver's inverse of Dibits. */
  function Bytes(s: seq<dibit>): (data: seq<byte>)
    requires |s| % 4 == 0
    ensures 4 * |data| == |s|
  {
    if s == [] then [] else [JoinDibits(s[0], s[1], s[2], s[3])] + Bytes(s[4..])
  }

  lemma ByteJoined(b: byte)
    ensures JoinDibits(ByteDibit(b, 0), ByteDibit(b, 1), ByteDibit(b, 2), ByteDibit(b, 3)) == b
  {
  }

  lemma {:induction false} BytesOfDibits(data: seq<byte>)
    ensures Bytes(Dibits(data)) == data
  {
    hide JoinDibits, ByteDibit;
    if data != [] {
      ByteJoined(data[0]);
      BytesOfDibits(data[1..]);
      assert Dibits(data)[4..] == Dibits(data[1..]);
      assert Dibits(data)[..4] == ByteDibits(data[0]);
    }
  }

  lemma FirstByte(data: seq<byte>)
    requires data != []
    ensures Dibits(data) == ByteDibits(data[0]) + Dibits(data[1..])
  {
  }

  lemma {:induction false} DibitsAppend(a: seq<byte>, b: seq<byte>)
    ensures Dibits(a + b) == Dibits(a) + Dibits(b)
  {
    hide Dibits, ByteDibits;
    if a == [] {
      NoDibits();
      assert a + b == b;
    } else {
      DibitsAppend(a[1..], b);
      assert (a + b)[1..] == a[1..] + b;
      FirstByte(a);
      FirstByte(a + b);
      Associates(ByteDibits(a[0]), Dibits(a[1..]), Dibits(b));
    }
  }

  lemma DibitsSnoc(data: seq<byte>, i: nat)
    requires i < |data|
    ensures Dibits(data[..i + 1]) == Dibits(data[..i]) + ByteDibits(data[i])
  {
    hide ByteDibits;
    assert data[..i + 1] == data[..i] + [data[i]];
    DibitsAppend(data[..i], [data[i]]);
    assert [data[i]][1..] == [];
  }

  method BytesToDibits(data: seq<byte>, out: seq<dibit>) returns (r: seq<dibit>)
    ensures r == out + Dibits(data)
  {
    hide ByteDibit, Dibits;
    r := out;
    NoDibits();
    for i := 0 to |data|
      invariant r == out + Dibits(data[..i])
    {
      DibitsSnoc(data, i);
      var b := data[i];
      ghost var r0 := r;
      r := r + [ByteDibit(b, 0)];
      r := r + [ByteDibit(b, 1)];
      r := r + [ByteDibit(b, 2)];
      r := r + [ByteDibit(b, 3)];
      assert r == r0 + ByteDibits(b);
    }
    assert data[..|data|] == data;
  }

  lemma NoDibits()
    ensures Dibits([]) == []
  {
  }

  function WordBytes(v: bv64): (s: seq<byte>)
    ensures |s| == 8
  {
    seq(8, i requires 0 <= i < 8 => ArgByte(v, i))
  }

  /** The last n dibits of a word. */
  function WordDibits(v: bv64, n: nat): (s: seq<dibit>)
    requires n <= 32
    ensures |s| == n
  {
    Dibits(WordBytes(v))[32 - n..]
  }

  method Uint64ToDibits(v: bv64, n: nat, out: seq<dibit>) returns (r: seq<dibit>)
    requires n <= 32
    ensures r == out + WordDibits(v, n)
  {
    hide ArgByte, Dibits;
    var buf := new byte[8];
    for i := 0 to 8
      invariant forall k :: 0 <= k < i ==> buf[k] == ArgByte(v, k)
    {
      buf[i] := ArgByte(v, i);
    }
    assert buf[..] == WordBytes(v);
    var all := BytesToDibits(buf[..], []);
    var start := 32 - n;
    r := out;
    for i := start to 32
      invariant r == out + Dibits(WordBytes(v))[start..i]
    {
      r := r + [all[i]];
    }
  }

  // ----- the frames

  function Header(nac: bv16, duid: bv16): (s: seq<dibit>)
    ensures |s| == 56
  {
    WordDibits(FRAME_SYNC, 24) + WordDibits(Nid.Encoded(Nid.NidData(nac, duid)), 32)
  }

  function Payload(tsbk: Pdu): (s: seq<dibit>)
    ensures |s| == 98
  {
    Interleaved(Encode(0, Dibits(tsbk)))
  }

  /** A frame of 154 data dibits is 180 dibits on air. */
  function Sent(data: seq<dibit>): (air: seq<dibit>)
    requires |data| == 154
    ensures |air| == 180
  {
    OnAir(data, STATUS_SYMBOL)
  }

  function TsbkFrame(nac: bv16, tsbk: Pdu): (air: seq<dibit>)
    ensures |air| == 180
  {
    Sent(Header(nac, Nid.DUID_TSBK) + Payload(tsbk))
  }

  function TduFrame(nac: bv16): (air: seq<dibit>)
    ensures |air| == 180
  {
    Sent(Header(nac, Nid.DUID_TDU) + seq(98, i => 0))
  }

  method BuildHeader(nac: bv16, duid: bv16) returns (frame: seq<dibit>)
    ensures frame == Header(nac, duid)
  {
    hide WordDibits;
    frame := Uint64ToDibits(FRAME_SYNC, 24, []);
    var nid := Nid.EncodeBch(Nid.NidData(nac, duid));
    frame := Uint64ToDibits(nid, 32, frame);
  }

  method BuildFrame(nac: bv16, tsbk: Pdu) returns (air: seq<dibit>)
    ensures air == TsbkFrame(nac, tsbk)
  {
    hide Header, Encode, Dibits, OnAir, Interleaved;
    var frame := BuildHeader(nac, Nid.DUID_TSBK);
    var inputDibits := BytesToDibits(tsbk, []);
    assert inputDibits == Dibits(tsbk);
    var encoded := TrellisEncode(inputDibits);
    var interleaved := DataInterleave(encoded);
    air := InsertStatusSymbols(frame + interleaved, STATUS_SYMBOL);
  }

  method BuildTduFrame(nac: bv16) returns (air: seq<dibit>)
    ensures air == TduFrame(nac)
  {
    hide Header, OnAir;
    var frame := BuildHeader(nac, Nid.DUID_TDU);
    ghost var header := frame;
    for i := 0 to 98
      invariant frame == header + seq(i, k => 0)
    {
      frame := frame + [0];
    }
    air := InsertStatusSymbols(frame, STATUS_SYMBOL);
  }
}
