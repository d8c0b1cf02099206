/** The uplink: requests as the subscriber tester builds them (subscriber_test/p25.go), and the site's handler
    for them (src/rx/RxPipeline.cpp). */
module Uplink {
  import opened Bits
  import opened Messages
  import opened Scheduler
  import opened Tsbk
  import opened Wrappers
  import ControlChannel

  // The opcodes the tester sends (subscriber_test/p25.go) ...
  const ISP_GRP_VCH_REQ: byte := 0x00
  const ISP_UU_VCH_REQ: byte := 0x03
  const ISP_EMRG_ALRM_REQ: byte := 0x0F
  const ISP_GRP_AFF_REQ: byte := 0x28
  const ISP_U_REG_REQ: byte := 0x2C
  const ISP_U_DE_REG_ACK: byte := 0x2F

  // ... and those the handler tells apart (third_party/dsd-neo/include/dsd-neo/runtime/p25_isp_hooks.h).
  const P25_ISP_GRP_VCH_REQ: byte := 0x00
  const P25_ISP_UU_VCH_REQ: byte := 0x03
  const P25_ISP_EMRG_ALRM_REQ: byte := 0x0F
  const P25_ISP_GRP_AFF_Q: byte := 0x28
  const P25_ISP_U_REG_REQ: byte := 0x2C
  const P25_ISP_U_DE_REG_ACK: byte := 0x2F

  // ----- the tester's request builders

  /** A unit id on the wire has 24 bits. */
  function Masked(id: bv32): bv32 { id & 0xFFFFFF }

  function Unit(id: bv32): bv64 { Masked(id) as bv64 }

  function GroupArgs(opts: byte, tgid: bv16, srcId: bv32): bv64 {
    ((opts as bv64) << 56) | ((tgid as bv64) << 24) | Unit(srcId)
  }

  function PairArgs(opts: byte, targetId: bv32, srcId: bv32): bv64 {
    ((opts as bv64) << 56) | (Unit(targetId) << 24) | Unit(srcId)
  }

  function RegistrationArgs(sysId: bv16, srcId: bv32): bv64 {
    (((sysId & 0xFFF) as bv64) << 36) | Unit(srcId)
  }

  function BuildRequest(opcode: byte, args: bv64): Pdu { Block(true, opcode, 0x00, args) }

  function BuildGrpVchReq(opts: byte, tgid: bv16, srcId: bv32): Pdu {
    BuildRequest(ISP_GRP_VCH_REQ, GroupArgs(opts, tgid, srcId))
  }

  function BuildUuVchReq(opts: byte, targetId: bv32, srcId: bv32): Pdu {
    BuildRequest(ISP_UU_VCH_REQ, PairArgs(opts, targetId, srcId))
  }

  function BuildEmrgAlrmReq(tgid: bv16, srcId: bv32): Pdu {
    BuildRequest(ISP_EMRG_ALRM_REQ, GroupArgs(0, tgid, srcId))
  }

  function BuildGrpAffReq(tgid: bv16, srcId: bv32): Pdu { BuildRequest(ISP_GRP_AFF_REQ, GroupArgs(0, tgid, srcId)) }

  function BuildURegReq(sysId: bv16, srcId: bv32): Pdu { BuildRequest(ISP_U_REG_REQ, RegistrationArgs(sysId, srcId)) }

  function BuildUDeRegAck(srcId: bv32): Pdu { BuildRequest(ISP_U_DE_REG_ACK, Unit(srcId)) }

  // ----- the handler

  /** The opcode of a received block, without its two flags (p25p1_tsbk_isp.c). */
  function Opcode(raw: Pdu): byte { raw[0] & 0x3F }

  /** The receiver passes on blocks with a standard manufacturer's code and the protect bit clear (p25p1_tsbk.c). */
  predicate PassedOn(raw: Pdu) { raw[1] < 0x02 && (raw[0] >> 6) & 0x01 == 0 }

  function TwoBytes(a: byte, b: byte): bv32 { ((a as bv32) << 8) | (b as bv32) }

  function TalkgroupOf(raw: Pdu): bv32 { TwoBytes(raw[5], raw[6]) }

  function ThreeBytes(a: byte, b: byte, c: byte): bv32 {
    ((a as bv32) << 16) | ((b as bv32) << 8) | (c as bv32)
  }

  function SourceOf(raw: Pdu): bv32 { ThreeBytes(raw[7], raw[8], raw[9]) }

  function TargetOf(raw: Pdu): bv32 { ThreeBytes(raw[4], raw[5], raw[6]) }

  function Emergency(options: byte): bool { (options >> 7) & 1 == 1 }

  /** What the handler logs. */
  datatype Entry =
    | VoiceRequested(src: bv32, tgid: bv32, emergency: bool)
    | AffiliationQueued(src: bv32, tgid: bv32)
    | RegistrationQueued(src: bv32)
    | Deregistered(src: bv32)
    | Alarm(src: bv32, tgid: bv32)
    | UnitRequested(src: bv32, target: bv32)
    | Unhandled(code: byte, src: bv32)

  function EntryFor(opcode: byte, raw: Pdu): Entry {
    var src, tgid := SourceOf(raw), TalkgroupOf(raw);
    if opcode == P25_ISP_GRP_VCH_REQ then VoiceRequested(src, tgid, Emergency(raw[2]))
    else if opcode == P25_ISP_GRP_AFF_Q then AffiliationQueued(src, tgid)
    else if opcode == P25_ISP_U_REG_REQ then RegistrationQueued(src)
    else if opcode == P25_ISP_U_DE_REG_ACK then Deregistered(src)
    else if opcode == P25_ISP_EMRG_ALRM_REQ then Alarm(src, tgid)
    else if opcode == P25_ISP_UU_VCH_REQ then UnitRequested(src, TargetOf(raw))
    else Unhandled(opcode, src)
  }

  function Low16(w: bv32): bv16 { (w & 0xFFFF) as bv16 }

  /** The block the site queues in answer, if any. */
  function Response(opcode: byte, raw: Pdu, sysId: bv16): Option<Pdu> {
    if opcode == P25_ISP_GRP_AFF_Q then
      Some(BuildGrpAffRsp(false, 0, Low16(TalkgroupOf(raw)), Low16(TalkgroupOf(raw)), SourceOf(raw)))
    else if opcode == P25_ISP_U_REG_REQ then Some(BuildURegRsp(true, sysId, SourceOf(raw), SourceOf(raw)))
    else None
  }

  class RxPipeline {
    const channel: ControlChannel.ControlChannel
    const sysId: bv16
    var log: seq<Entry>

    constructor (channel: ControlChannel.ControlChannel, sysId: bv16)
      ensures this.channel == channel && this.sysId == sysId && log == []
    {
      this.channel, this.sysId, log := channel, sysId, [];
    }

    method HandleIspTsbk(opcode: byte, raw12: Pdu)
      modifies `log, channel`queue, channel`accepted
      ensures log == old(log) + [EntryFor(opcode, raw12)]
      ensures channel.State() ==
        match Response(opcode, raw12, sysId)
        case Some(t) => Apply(old(channel.State()), QueueTsbk(t))
        case None => old(channel.State())
    {
      hide TalkgroupOf, SourceOf, TargetOf, BuildGrpAffRsp, BuildURegRsp, Low16, Emergency;
      var tgid := TalkgroupOf(raw12);
      var srcId := SourceOf(raw12);
      if opcode == P25_ISP_GRP_VCH_REQ {
        log := log + [VoiceRequested(srcId, tgid, Emergency(raw12[2]))];
      } else if opcode == P25_ISP_GRP_AFF_Q {
        var rsp := BuildGrpAffRsp(false, 0, Low16(tgid), Low16(tgid), srcId);
        channel.Queue(rsp);
        log := log + [AffiliationQueued(srcId, tgid)];
      } else if opcode == P25_ISP_U_REG_REQ {
        var rsp := BuildURegRsp(true, sysId, srcId, srcId);
        channel.Queue(rsp);
        log := log + [RegistrationQueued(srcId)];
      } else if opcode == P25_ISP_U_DE_REG_ACK {
        log := log + [Deregistered(srcId)];
      } else if opcode == P25_ISP_EMRG_ALRM_REQ {
        log := log + [Alarm(srcId, tgid)];
      } else if opcode == P25_ISP_UU_VCH_REQ {
        log := log + [UnitRequested(srcId, TargetOf(raw12))];
      } else {
        log := log + [Unhandled(opcode, srcId)];
      }
    }
  }

  // ----- what the handler sees of a request

  function SourceField(args: bv64): bv32 { (args & 0xFFFFFF) as bv32 }
  function TargetField(args: bv64): bv32 { ((args >> 24) & 0xFFFFFF) as bv32 }
  function GroupField(args: bv64): bv32 { ((args >> 24) & 0xFFFF) as bv32 }
  function OptionField(args: bv64): byte { ((args >> 56) & 0xff) as byte }
  function Wide(tgid: bv16): bv32 { tgid as bv32 }

  lemma SourceBytes(args: bv64)
    ensures ThreeBytes(ArgByte(args, 5), ArgByte(args, 6), ArgByte(args, 7)) == SourceField(args)
  {
    hide ShiftDown;
    ShiftsDown(args);
  }

  lemma TargetBytes(args: bv64)
    ensures ThreeBytes(ArgByte(args, 2), ArgByte(args, 3), ArgByte(args, 4)) == TargetField(args)
  {
    hide ShiftDown;
    ShiftsDown(args);
  }

  lemma GroupBytes(args: bv64)
    ensures TwoBytes(ArgByte(args, 3), ArgByte(args, 4)) == GroupField(args)
  {
    hide ShiftDown;
    ShiftsDown(args);
  }

  lemma OptionByte(args: bv64)
    ensures ArgByte(args, 0) == OptionField(args)
  {
    hide ShiftDown;
    ShiftsDown(args);
  }

  lemma OpcodeByte(opcode: byte)
    requires opcode < 0x40
    ensures HighByte(HeadWord(true, opcode, 0x00)) & 0x3F == opcode
  {
  }

  /** The opcode on air is the one the request was built with. */
  lemma RequestOpcode(opcode: byte, args: bv64)
    requires opcode < 0x40
    ensures Opcode(BuildRequest(opcode, args)) == opcode
  {
    hide HeadWord, CrcOf, HighByte, LowByte, ArgByte;
    OpcodeByte(opcode);
  }

  lemma FlagsClear(opcode: byte)
    requires opcode < 0x40
    ensures ((opcode | 0x80) >> 6) & 0x01 == 0
  {
  }

  /** The receiver passes every such request on: it is the last of its frame, in the clear, and the standard
      manufacturer's. */
  lemma RequestPassedOn(opcode: byte, args: bv64)
    requires opcode < 0x40
    ensures PassedOn(BuildRequest(opcode, args))
    ensures BuildRequest(opcode, args)[0] == opcode | 0x80 && BuildRequest(opcode, args)[1] == 0
  {
    hide Block;
    HeaderBytes(true, opcode, 0x00, args);
    FlagsClear(opcode);
  }

  /** The handler's fields are bit fields of the request's arguments. */
  lemma HandlerFields(opcode: byte, args: bv64)
    ensures
      var raw := BuildRequest(opcode, args);
      && SourceOf(raw) == SourceField(args)
      && TargetOf(raw) == TargetField(args)
      && TalkgroupOf(raw) == GroupField(args)
      && raw[2] == OptionField(args)
  {
    hide HeadWord, CrcOf, HighByte, LowByte, ArgByte, ThreeBytes, TwoBytes;
    hide SourceField, TargetField, GroupField, OptionField;
    SourceBytes(args);
    TargetBytes(args);
    GroupBytes(args);
    OptionByte(args);
  }

  lemma GroupArgsFields(opts: byte, tgid: bv16, srcId: bv32)
    ensures
      var a := GroupArgs(opts, tgid, srcId);
      SourceField(a) == Masked(srcId) && GroupField(a) == Wide(tgid) && OptionField(a) == opts
  {
  }

  lemma PairArgsFields(opts: byte, targetId: bv32, srcId: bv32)
    ensures
      var a := PairArgs(opts, targetId, srcId);
      SourceField(a) == Masked(srcId) && TargetField(a) == Masked(targetId) && OptionField(a) == opts
  {
  }

  lemma SourceOnlyFields(sysId: bv16, srcId: bv32)
    ensures SourceField(RegistrationArgs(sysId, srcId)) == Masked(srcId)
    ensures SourceField(Unit(srcId)) == Masked(srcId)
  {
  }

  /** A unit's id as it is read off the wire, where it has 24 bits. */
  function UnitId(id: bv32): bv32 { id & 0xFFFFFF }

  lemma MaskFacts(tgid: bv16, srcId: bv32)
    ensures Low16(Wide(tgid)) == tgid
    ensures Masked(srcId) == UnitId(srcId) && Masked(srcId) & 0xFFFFFF == Masked(srcId)
    ensures 0 & 3 == (0 as byte)
  {
  }

  lemma EmergencyBit(opts: byte)
    ensures Emergency(opts) <==> opts >= 0x80
  {
  }

  /** What the answer to an affiliation tells the radio. */
  predicate AffiliationAnswer(t: Pdu, tgid: bv16, srcId: bv32) {
    && IsMessage(t, 0x28)
    && ReadAffiliationResponse(Args(t)) == AffiliationResponse(false, 0, tgid, tgid, UnitId(srcId))
  }

  /** What the answer to a registration tells it: the site's system, the unit that asked, and verdict 1. */
  predicate RegistrationAnswer(t: Pdu, sysId: bv16, srcId: bv32) {
    && IsMessage(t, 0x2C)
    && ReadRegistrationResponse(Args(t))
         == RegistrationResponse(0, 1, sysId & 0xFFF, UnitId(srcId), UnitId(srcId))
  }

  lemma AffiliationBlock(tgid: bv16, srcId: bv32)
    ensures AffiliationAnswer(BuildGrpAffRsp(false, 0, tgid, tgid, Masked(srcId)), tgid, srcId)
  {
    hide Masked, UnitId, BuildGrpAffRsp, ReadAffiliationResponse, IsMessage, Args;
    MaskFacts(tgid, srcId);
    AffiliationResponseRoundTrip(false, 0, tgid, tgid, Masked(srcId));
  }

  lemma RegistrationBlock(sysId: bv16, srcId: bv32)
    ensures RegistrationAnswer(BuildURegRsp(true, sysId, Masked(srcId), Masked(srcId)), sysId, srcId)
  {
    hide Masked, UnitId, BuildURegRsp, ReadRegistrationResponse, IsMessage, Args;
    MaskFacts(0, srcId);
    RegistrationResponseRoundTrip(true, sysId, Masked(srcId), Masked(srcId));
  }

  /** An affiliation request is answered with a good block that names its talkgroup and its source. */
  lemma AffiliationAnswered(tgid: bv16, srcId: bv32, sysId: bv16)
    ensures
      var raw := BuildGrpAffReq(tgid, srcId);
      var answer := Response(Opcode(raw), raw, sysId);
      && answer.Some? && AffiliationAnswer(answer.value, tgid, srcId)
      && EntryFor(Opcode(raw), raw) == AffiliationQueued(UnitId(srcId), Wide(tgid)) && raw[2] == 0
  {
    hide BuildRequest, SourceOf, TalkgroupOf, GroupArgs, Low16, Wide, Masked, UnitId, BuildGrpAffRsp, AffiliationAnswer;
    hide SourceField, TargetField, GroupField, OptionField, Opcode;
    RequestOpcode(ISP_GRP_AFF_REQ, GroupArgs(0, tgid, srcId));
    HandlerFields(ISP_GRP_AFF_REQ, GroupArgs(0, tgid, srcId));
    GroupArgsFields(0, tgid, srcId);
    MaskFacts(tgid, srcId);
    AffiliationBlock(tgid, srcId);
  }

  /** A registration request is answered under the site's own system, whatever system it asked for, with a block
      addressed to the unit that asked. */
  lemma RegistrationAnswered(requested: bv16, srcId: bv32, sysId: bv16)
    ensures
      var raw := BuildURegReq(requested, srcId);
      var answer := Response(Opcode(raw), raw, sysId);
      && answer.Some? && RegistrationAnswer(answer.value, sysId, srcId)
      && EntryFor(Opcode(raw), raw) == RegistrationQueued(UnitId(srcId))
  {
    hide BuildRequest, SourceOf, RegistrationArgs, Masked, UnitId, BuildURegRsp, RegistrationAnswer;
    hide SourceField, TargetField, GroupField, OptionField, Opcode;
    RequestOpcode(ISP_U_REG_REQ, RegistrationArgs(requested, srcId));
    HandlerFields(ISP_U_REG_REQ, RegistrationArgs(requested, srcId));
    SourceOnlyFields(requested, srcId);
    MaskFacts(0, srcId);
    RegistrationBlock(sysId, srcId);
  }

  /** The system that the decoder prints for a registration request (p25p1_tsbk_isp.c). */
  function DecodedSystem(raw: Pdu): bv16 { TwelveBits(raw[3], raw[4]) }

  function TwelveBits(high: byte, low: byte): bv16 { (((high & 0x0F) as bv16) << 8) | (low as bv16) }

  lemma SystemBits(sysId: bv16, srcId: bv32)
    ensures ((RegistrationArgs(sysId, srcId) >> 48) & 0xff) as byte == 0
    ensures (((RegistrationArgs(sysId, srcId) >> 40) & 0xff) as byte) as bv16 == (sysId & 0xFFF) >> 4
  {
  }

  lemma SystemBytes(sysId: bv16, srcId: bv32)
    ensures ArgByte(RegistrationArgs(sysId, srcId), 1) == 0
    ensures ArgByte(RegistrationArgs(sysId, srcId), 2) as bv16 == (sysId & 0xFFF) >> 4
  {
    hide ShiftDown, RegistrationArgs;
    ShiftsDown(RegistrationArgs(sysId, srcId));
    SystemBits(sysId, srcId);
  }

  lemma SystemWord(high: byte, low: byte, sysId: bv16)
    requires high == 0 && low as bv16 == (sysId & 0xFFF) >> 4
    ensures TwelveBits(high, low) == (sysId & 0xFFF) >> 4
  {
  }

  lemma LostDigit(sysId: bv16)
    ensures (sysId & 0xFFF) >> 4 == sysId & 0xFFF <==> sysId & 0xFFF == 0
  {
  }

  /** The tester puts the system four bits below where the decoder looks, which loses its last digit: no system but
      zero is read back. */
  lemma SystemMisread(sysId: bv16, srcId: bv32)
    ensures
      var raw := BuildURegReq(sysId, srcId);
      && DecodedSystem(raw) == (sysId & 0xFFF) >> 4
      && (DecodedSystem(raw) == sysId & 0xFFF <==> sysId & 0xFFF == 0)
  {
    hide HeadWord, CrcOf, HighByte, LowByte, ArgByte, RegistrationArgs, TwelveBits;
    var args := RegistrationArgs(sysId, srcId);
    SystemBytes(sysId, srcId);
    SystemWord(ArgByte(args, 1), ArgByte(args, 2), sysId);
    LostDigit(sysId);
  }

  /** Voice requests and alarms are logged with their talkgroup and source, and never answered. */
  lemma GroupRequestsLogged(opts: byte, tgid: bv16, srcId: bv32, sysId: bv16)
    ensures
      var voice, alarm := BuildGrpVchReq(opts, tgid, srcId), BuildEmrgAlrmReq(tgid, srcId);
      && Response(Opcode(voice), voice, sysId) == Response(Opcode(alarm), alarm, sysId) == None
      && EntryFor(Opcode(voice), voice) == VoiceRequested(UnitId(srcId), Wide(tgid), opts >= 0x80)
      && EntryFor(Opcode(alarm), alarm) == Alarm(UnitId(srcId), Wide(tgid))
      && voice[2] == opts && alarm[2] == 0
  {
    hide BuildRequest, SourceOf, TargetOf, TalkgroupOf, GroupArgs, Wide, Masked, UnitId, Emergency;
    hide SourceField, TargetField, GroupField, OptionField, Opcode;
    EmergencyBit(opts);
    MaskFacts(tgid, srcId);
    RequestOpcode(ISP_GRP_VCH_REQ, GroupArgs(opts, tgid, srcId));
    RequestOpcode(ISP_EMRG_ALRM_REQ, GroupArgs(0, tgid, srcId));
    HandlerFields(ISP_GRP_VCH_REQ, GroupArgs(opts, tgid, srcId));
    HandlerFields(ISP_EMRG_ALRM_REQ, GroupArgs(0, tgid, srcId));
    GroupArgsFields(opts, tgid, srcId);
    GroupArgsFields(0, tgid, srcId);
  }

  /** So are unit-to-unit requests, with both units, and deregistrations. */
  lemma UnitRequestsLogged(opts: byte, targetId: bv32, srcId: bv32, sysId: bv16)
    ensures
      var pair, bye := BuildUuVchReq(opts, targetId, srcId), BuildUDeRegAck(srcId);
      && Response(Opcode(pair), pair, sysId) == Response(Opcode(bye), bye, sysId) == None
      && EntryFor(Opcode(pair), pair) == UnitRequested(UnitId(srcId), UnitId(targetId))
      && EntryFor(Opcode(bye), bye) == Deregistered(UnitId(srcId)) && pair[2] == opts
  {
    hide BuildRequest, SourceOf, TargetOf, TalkgroupOf, PairArgs, Unit, Wide, Masked, UnitId, Emergency;
    hide SourceField, TargetField, GroupField, OptionField, Opcode;
    MaskFacts(0, srcId);
    MaskFacts(0, targetId);
    RequestOpcode(ISP_UU_VCH_REQ, PairArgs(opts, targetId, srcId));
    RequestOpcode(ISP_U_DE_REG_ACK, Unit(srcId));
    HandlerFields(ISP_UU_VCH_REQ, PairArgs(opts, targetId, srcId));
    HandlerFields(ISP_U_DE_REG_ACK, Unit(srcId));
    PairArgsFields(opts, targetId, srcId);
    SourceOnlyFields(0, srcId);
  }

  /** The requests leave every bit alone that is not theirs. */
  lemma RequestsAreBare(opts: byte, tgid: bv16, targetId: bv32, srcId: bv32, sysId: bv16)
    ensures GroupArgs(opts, tgid, srcId) & 0x00FFFF0000000000 == 0
    ensures PairArgs(opts, targetId, srcId) & 0x00FF000000000000 == 0
    ensures RegistrationArgs(sysId, srcId) & 0xFFFF000FFF000000 == 0
    ensures (RegistrationArgs(sysId, srcId) >> 36) & 0xFFF == (sysId & 0xFFF) as bv64
    ensures Unit(srcId) & 0xFFFFFFFFFF000000 == 0
  {
  }

  // ----- any request at all

  /** The bytes of a number, most significant first. */
  predicate Spells(w: bv32, a: byte, b: byte, c: byte) {
    w < 0x1000000 && w >> 16 == a as bv32 && (w >> 8) & 0xFF == b as bv32 && w & 0xFF == c as bv32
  }

  lemma SpellsThree(a: byte, b: byte, c: byte)
    ensures Spells(ThreeBytes(a, b, c), a, b, c)
  {
  }

  lemma SpellsTwo(a: byte, b: byte)
    ensures Spells(TwoBytes(a, b), 0, a, b)
  {
  }

  /** The source is bytes 7 to 9, whatever the request; the talkgroup bytes 5 and 6; the target bytes 4 to 6; and a
      request that the handler does not know is logged with its code and never answered. */
  lemma AnyRequest(opcode: byte, raw: Pdu, sysId: bv16)
    ensures Spells(SourceOf(raw), raw[7], raw[8], raw[9]) && Spells(TargetOf(raw), raw[4], raw[5], raw[6])
    ensures Spells(TalkgroupOf(raw), 0, raw[5], raw[6])
    ensures opcode !in {0x00, 0x03, 0x0F, 0x28, 0x2C, 0x2F} ==>
      EntryFor(opcode, raw) == Unhandled(opcode, SourceOf(raw)) && Response(opcode, raw, sysId) == None
  {
    hide ThreeBytes, TwoBytes, Spells, BuildGrpAffRsp, BuildURegRsp, Low16, Emergency;
    SpellsThree(raw[7], raw[8], raw[9]);
    SpellsThree(raw[4], raw[5], raw[6]);
    SpellsTwo(raw[5], raw[6]);
  }

  // ----- what the log says was queued

  predicate SaysQueued(e: Entry) { e.AffiliationQueued? || e.RegistrationQueued? }

  /** The handler logs an answer as queued exactly when it has one; whether it was is another matter. */
  lemma LoggedAsQueued(opcode: byte, raw: Pdu, sysId: bv16)
    ensures SaysQueued(EntryFor(opcode, raw)) <==> Response(opcode, raw, sysId).Some?
  {
    hide TalkgroupOf, SourceOf, TargetOf, BuildGrpAffRsp, BuildURegRsp, Low16, Emergency;
  }

  /** What the log says of an answer is true exactly when fewer than 128 blocks were queued; otherwise nothing
      changes but the log. */
  lemma LoggedQueuedIff(s: Channel, raw: Pdu, sysId: bv16)
    requires SaysQueued(EntryFor(Opcode(raw), raw))
    ensures
      var answer := Response(Opcode(raw), raw, sysId);
      && answer.Some?
      && (Apply(s, QueueTsbk(answer.value)).accepted == s.accepted + [answer.value] <==> |s.queue| < 128)
      && (|s.queue| >= 128 ==> Apply(s, QueueTsbk(answer.value)) == s)
  {
    hide EntryFor, Response;
    LoggedAsQueued(Opcode(raw), raw, sysId);
  }

  function Queued(t: Pdu, n: nat): seq<Event> { seq(n, i => QueueTsbk(t)) }

  /** A full queue is reached: n blocks queued one after another are all there, as long as they are at most 128. */
  lemma {:induction false} QueueFills(t: Pdu, n: nat)
    requires n <= 128
    ensures After(FRESH, Queued(t, n)).queue == seq(n, i => t)
    ensures !After(FRESH, Queued(t, n)).running
  {
    if n > 0 {
      QueueFills(t, n - 1);
      assert Queued(t, n)[..n - 1] == Queued(t, n - 1);
    }
  }
}
