/** The trunking signalling block: twelve bytes, of which the last two are the CRC (src/p25/TSBK.cpp). */
module Tsbk {
  import opened Bits
  import opened Crc
  import opened CrcDetection
  import opened Distance

  type Pdu = s: seq<byte> | |s| == 12 witness seq(12, i => 0)

  function Word(a: byte, b: byte): bv16 { ((a as bv16) << 8) | (b as bv16) }

  /** A receiver's view of a block: header word, argument word, check word. */
  function Head(t: Pdu): bv16 { Word(t[0], t[1]) }

  function Args(t: Pdu): bv64 { ArgWord(t[2], t[3], t[4], t[5], t[6], t[7], t[8], t[9]) }

  function ArgWord(a: byte, b: byte, c: byte, d: byte, e: byte, f: byte, g: byte, h: byte): bv64 {
    ((a as bv64) << 56) | ((b as bv64) << 48) | ((c as bv64) << 40) | ((d as bv64) << 32) |
    ((e as bv64) << 24) | ((f as bv64) << 16) | ((g as bv64) << 8) | (h as bv64)
  }

  function Check(t: Pdu): bv16 { Word(t[10], t[11]) }

  function Message(t: Pdu): (m: seq<bool>)
    ensures |m| == 80
  {
    Bits16(Head(t)) + Bits64(Args(t))
  }

  /** The 96 bits in transmission order. */
  function PduBits(t: Pdu): (s: seq<bool>)
    ensures |s| == 96
  {
    Codeword(Message(t), Check(t))
  }

  predicate CrcOk(t: Pdu) { Passes(Message(t), Check(t)) }

  // ----- building a block

  function HeadWord(lastBlock: bool, opcode: byte, mfid: byte): bv16 {
    ((if lastBlock then 1 else 0) << 15) | ((opcode as bv16) << 8) | (mfid as bv16)
  }

  function HighByte(w: bv16): byte { (w >> 8) as byte }
  function LowByte(w: bv16): byte { (w & 0xff) as byte }

  function ShiftDown(w: bv64, k: nat): bv64
    requires k < 64
  {
    w >> k
  }

  /** Byte i of an argument word, most significant first. */
  function ArgByte(args: bv64, i: nat): byte
    requires i < 8
  {
    (ShiftDown(args, 56 - 8 * i) & 0xff) as byte
  }

  function CrcOf(high: bv16, args: bv64): bv16 { !Run(0, Bits16(high) + Bits64(args)) }

  function Block(lastBlock: bool, opcode: byte, mfid: byte, args: bv64): (t: Pdu) {
    hide HeadWord, CrcOf, HighByte, LowByte, ArgByte;
    var high := HeadWord(lastBlock, opcode, mfid);
    var crc := CrcOf(high, args);
    [HighByte(high), LowByte(high),
     ArgByte(args, 0), ArgByte(args, 1), ArgByte(args, 2), ArgByte(args, 3),
     ArgByte(args, 4), ArgByte(args, 5), ArgByte(args, 6), ArgByte(args, 7),
     HighByte(crc), LowByte(crc)]
  }

  lemma BlockAt(lastBlock: bool, opcode: byte, mfid: byte, args: bv64, k: nat)
    requires k < 12
    ensures
      var t, high := Block(lastBlock, opcode, mfid, args), HeadWord(lastBlock, opcode, mfid);
      var crc := CrcOf(high, args);
      t[k] == if k == 0 then HighByte(high) else if k == 1 then LowByte(high)
              else if k < 10 then ArgByte(args, k - 2)
              else if k == 10 then HighByte(crc) else LowByte(crc)
  {
    hide HeadWord, HighByte, LowByte, ArgByte, CrcOf;
  }

  method BuildTsbk(lastBlock: bool, opcode: byte, mfid: byte, args: bv64) returns (out: Pdu)
    ensures out == Block(lastBlock, opcode, mfid, args)
  {
    hide HeadWord, HighByte, LowByte, ArgByte, CrcOf, Block;
    var high := HeadWord(lastBlock, opcode, mfid);
    var crc := CrcCcitt(high, args);
    CrcOfIs(high, args);
    var buf := new byte[12];
    buf[0] := HighByte(high);
    buf[1] := LowByte(high);
    for i := 0 to 8
      invariant buf[0] == HighByte(high) && buf[1] == LowByte(high)
      invariant forall k :: 2 <= k < 2 + i ==> buf[k] == ArgByte(args, k - 2)
    {
      buf[2 + i] := ArgByte(args, i);
    }
    buf[10] := HighByte(crc);
    buf[11] := LowByte(crc);
    out := buf[..];
    forall k | 0 <= k < 12
      ensures out[k] == Block(lastBlock, opcode, mfid, args)[k]
    {
      BlockAt(lastBlock, opcode, mfid, args, k);
    }
  }

  lemma WordParts(w: bv16)
    ensures Word(HighByte(w), LowByte(w)) == w
  {
  }

  lemma CrcOfIs(high: bv16, args: bv64)
    ensures CrcOf(high, args) == !Run(0, Bits16(high) + Bits64(args))
  {
  }

  lemma HeadBytes(lastBlock: bool, opcode: byte, mfid: byte)
    ensures HighByte(HeadWord(lastBlock, opcode, mfid)) == opcode | if lastBlock then 0x80 else 0
    ensures LowByte(HeadWord(lastBlock, opcode, mfid)) == mfid
  {
  }

  /** The first byte is the last-block flag, a clear protect bit and the opcode; the second is the manufacturer. */
  lemma HeaderBytes(lastBlock: bool, opcode: byte, mfid: byte, args: bv64)
    ensures
      var t := Block(lastBlock, opcode, mfid, args);
      t[0] == (opcode | if lastBlock then 0x80 else 0) && t[1] == mfid
  {
    hide HeadWord, CrcOf, HighByte, LowByte, ArgByte;
    HeadBytes(lastBlock, opcode, mfid);
  }

  lemma ShiftsDown(w: bv64)
    ensures ShiftDown(w, 56) == w >> 56 && ShiftDown(w, 48) == w >> 48
    ensures ShiftDown(w, 40) == w >> 40 && ShiftDown(w, 32) == w >> 32
    ensures ShiftDown(w, 24) == w >> 24 && ShiftDown(w, 16) == w >> 16
    ensures ShiftDown(w, 8) == w >> 8 && ShiftDown(w, 0) == w
  {
  }

  lemma JoinedBytes(w: bv64)
    ensures ArgWord(((w >> 56) & 0xff) as byte, ((w >> 48) & 0xff) as byte,
                    ((w >> 40) & 0xff) as byte, ((w >> 32) & 0xff) as byte,
                    ((w >> 24) & 0xff) as byte, ((w >> 16) & 0xff) as byte,
                    ((w >> 8) & 0xff) as byte, (w & 0xff) as byte) == w
  {
  }

  lemma ArgParts(args: bv64)
    ensures ArgWord(ArgByte(args, 0), ArgByte(args, 1), ArgByte(args, 2), ArgByte(args, 3),
                    ArgByte(args, 4), ArgByte(args, 5), ArgByte(args, 6), ArgByte(args, 7)) == args
  {
    hide ArgWord, ShiftDown;
    ShiftsDown(args);
    JoinedBytes(args);
  }

  /** A built block carries its header and arguments and passes the check. */
  lemma BlockReads(lastBlock: bool, opcode: byte, mfid: byte, args: bv64)
    ensures
      var t := Block(lastBlock, opcode, mfid, args);
      && Head(t) == HeadWord(lastBlock, opcode, mfid)
      && Args(t) == args
      && CrcOk(t)
  {
    hide HeadWord, HighByte, LowByte, ArgByte, CrcOf, Passes, Message, Word, ArgWord;
    var high := HeadWord(lastBlock, opcode, mfid);
    WordParts(high);
    WordParts(CrcOf(high, args));
    ArgParts(args);
    CrcOfPasses(Block(lastBlock, opcode, mfid, args), high, args);
  }

  lemma CrcOfPasses(t: Pdu, high: bv16, args: bv64)
    requires Head(t) == high && Args(t) == args && Check(t) == CrcOf(high, args)
    ensures CrcOk(t)
  {
    hide Head, Args, Check, Run, Bits16, Bits64;
  }

  // ----- two good blocks are far apart

  /** Damage to a good block goes unnoticed exactly when it is a multiple of the generator. */
  lemma UndetectedDamage(t: Pdu, u: Pdu)
    requires CrcOk(t)
    ensures CrcOk(u) <==> IsMultiple(Xor(PduBits(t), PduBits(u)))
  {
    hide Passes, IsMultiple, Message, Codeword;
    UndetectedIffMultiple(Message(t), Check(t), Message(u), Check(u));
  }

  /** Any one, two or three flipped bits, any odd number of them, and any damage confined to sixteen
      neighbouring bits of a good block make the check fail. */
  lemma DamageDetected(t: Pdu, u: Pdu, start: int)
    requires CrcOk(t) && PduBits(t) != PduBits(u)
    requires
      || Hamming(PduBits(t), PduBits(u)) <= 3
      || Hamming(PduBits(t), PduBits(u)) % 2 == 1
      || (forall i :: 0 <= i < 96 && PduBits(t)[i] != PduBits(u)[i] ==> start <= i < start + 16)
    ensures !CrcOk(u)
  {
    hide Passes, Message, Codeword;
    if CrcOk(u) {
      GoodCodewordsFarApart(Message(t), Check(t), Message(u), Check(u));
    }
  }
}
