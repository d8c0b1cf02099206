/** The outbound messages of src/p25/TSBK.cpp, and what a radio reads back from them. */
module Messages {
  import opened Bits
  import opened Tsbk
  import opened Words

  const GRP_VCH_GRANT: byte := 0x00
  const GRP_VCH_GRANT_UPD: byte := 0x02
  const GRP_AFF_RSP: byte := 0x28
  const LOC_REG_RSP: byte := 0x2B
  const U_REG_RSP: byte := 0x2C
  const SYNC_BCAST: byte := 0x30
  const RFSS_STS_BCAST: byte := 0x3A
  const NET_STS_BCAST: byte := 0x3B
  const ADJ_STS_BCAST: byte := 0x3C
  const IDEN_UP: byte := 0x3D

  /** A good block, the last of its frame and in the clear, with this opcode and the standard manufacturer: the bits
      of its first two bytes as a radio takes them apart. */
  predicate IsMessage(t: Pdu, opcode: byte) {
    && CrcOk(t)
    && t[0] >> 7 == 1 && t[0] & 0x40 == 0 && t[0] & 0x3F == opcode && t[1] == 0
  }

  lemma FlagsOf(opcode: byte)
    requires opcode < 0x40
    ensures (opcode | 0x80) >> 7 == 1 && (opcode | 0x80) & 0x40 == 0 && (opcode | 0x80) & 0x3F == opcode
  {
  }

  lemma BlockIsMessage(opcode: byte, args: bv64)
    requires opcode < 0x40
    ensures IsMessage(Block(true, opcode, 0, args), opcode) && Args(Block(true, opcode, 0, args)) == args
  {
    hide Block, CrcOk, Head, Args, HeadWord;
    BlockReads(true, opcode, 0, args);
    HeaderBytes(true, opcode, 0, args);
    FlagsOf(opcode);
  }

  function Channel(chanId: bv16, chanNum: bv16): bv64 {
    (((chanId & 0xF) as bv64) << 12) | ((chanNum & 0xFFF) as bv64)
  }

  datatype NetStatus = NetStatus(wacn: bv32, sysId: bv16, chanId: bv16, chanNum: bv16, ssc: byte)

  function NetStatusArgs(wacn: bv32, sysId: bv16, chanId: bv16, chanNum: bv16, ssc: byte): bv64 {
    (((wacn & 0xFFFFF) as bv64) << 36) |
    (((sysId & 0xFFF) as bv64) << 24) |
    (Channel(chanId, chanNum) << 8) |
    (ssc as bv64)
  }

  function BuildNetStatusBcast(wacn: bv32, sysId: bv16, chanId: bv16, chanNum: bv16, ssc: byte): Pdu {
    Block(true, NET_STS_BCAST, 0, NetStatusArgs(wacn, sysId, chanId, chanNum, ssc))
  }

  function ReadNetStatus(args: bv64): NetStatus {
    NetStatus(((args >> 36) & 0xFFFFF) as bv32,
      ((args >> 24) & 0xFFF) as bv16,
      ((args >> 20) & 0xF) as bv16,
      ((args >> 8) & 0xFFF) as bv16,
      (args & 0xFF) as byte)
  }

  lemma NetStatusFields(wacn: bv32, sysId: bv16, chanId: bv16, chanNum: bv16, ssc: byte)
    ensures ReadNetStatus(NetStatusArgs(wacn, sysId, chanId, chanNum, ssc))
         == NetStatus(wacn & 0xFFFFF, sysId & 0xFFF, chanId & 0xF, chanNum & 0xFFF, ssc)
    ensures NetStatusArgs(wacn, sysId, chanId, chanNum, ssc) & 0xFF00000000000000 == 0
  {
  }

  lemma NetStatusRoundTrip(wacn: bv32, sysId: bv16, chanId: bv16, chanNum: bv16, ssc: byte)
    ensures
      var t := BuildNetStatusBcast(wacn, sysId, chanId, chanNum, ssc);
      && IsMessage(t, 0x3B)
      && ReadNetStatus(Args(t)) == NetStatus(wacn & 0xFFFFF, sysId & 0xFFF, chanId & 0xF, chanNum & 0xFFF, ssc)
      && Args(t) & 0xFF00000000000000 == 0
  {
    hide NetStatusArgs, ReadNetStatus, Block, IsMessage, Args;
    BlockIsMessage(NET_STS_BCAST, NetStatusArgs(wacn, sysId, chanId, chanNum, ssc));
    NetStatusFields(wacn, sysId, chanId, chanNum, ssc);
  }

  datatype RfssStatus =
    RfssStatus(lrar: byte, sysId: bv16, rfssId: byte, siteId: byte, chanId: bv16, chanNum: bv16, ssc: byte)

  function RfssStatusArgs(lrar: byte, sysId: bv16, rfssId: byte, siteId: byte, chanId: bv16, chanNum: bv16,
      ssc: byte): bv64 {
    ((lrar as bv64) << 56) |
    (((sysId & 0xFFF) as bv64) << 40) |
    ((rfssId as bv64) << 32) |
    ((siteId as bv64) << 24) |
    (Channel(chanId, chanNum) << 8) |
    (ssc as bv64)
  }

  function BuildRfssStatusBcast(lrar: byte, sysId: bv16, rfssId: byte, siteId: byte, chanId: bv16, chanNum: bv16,
      ssc: byte): Pdu {
    Block(true, RFSS_STS_BCAST, 0, RfssStatusArgs(lrar, sysId, rfssId, siteId, chanId, chanNum, ssc))
  }

  function ReadRfssStatus(args: bv64): RfssStatus {
    RfssStatus(((args >> 56) & 0xFF) as byte,
      ((args >> 40) & 0xFFF) as bv16,
      ((args >> 32) & 0xFF) as byte,
      ((args >> 24) & 0xFF) as byte,
      ((args >> 20) & 0xF) as bv16,
      ((args >> 8) & 0xFFF) as bv16,
      (args & 0xFF) as byte)
  }

  lemma RfssStatusFields(lrar: byte, sysId: bv16, rfssId: byte, siteId: byte, chanId: bv16, chanNum: bv16, ssc: byte)
    ensures ReadRfssStatus(RfssStatusArgs(lrar, sysId, rfssId, siteId, chanId, chanNum, ssc))
         == RfssStatus(lrar, sysId & 0xFFF, rfssId, siteId, chanId & 0xF, chanNum & 0xFFF, ssc)
    ensures RfssStatusArgs(lrar, sysId, rfssId, siteId, chanId, chanNum, ssc) & 0x00F0000000000000 == 0
  {
  }

  lemma RfssStatusRoundTrip(lrar: byte, sysId: bv16, rfssId: byte, siteId: byte, chanId: bv16, chanNum: bv16, ssc: byte)
    ensures
      var t := BuildRfssStatusBcast(lrar, sysId, rfssId, siteId, chanId, chanNum, ssc);
      && IsMessage(t, 0x3A)
      && ReadRfssStatus(Args(t)) == RfssStatus(lrar, sysId & 0xFFF, rfssId, siteId, chanId & 0xF, chanNum & 0xFFF, ssc)
      && Args(t) & 0x00F0000000000000 == 0
  {
    hide RfssStatusArgs, ReadRfssStatus, Block, IsMessage, Args;
    BlockIsMessage(RFSS_STS_BCAST, RfssStatusArgs(lrar, sysId, rfssId, siteId, chanId, chanNum, ssc));
    RfssStatusFields(lrar, sysId, rfssId, siteId, chanId, chanNum, ssc);
  }

  datatype AdjacentStatus =
    AdjacentStatus(sysId: bv16, rfssId: byte, siteId: byte, chanId: bv16, chanNum: bv16, ssc: byte)

  function AdjacentStatusArgs(sysId: bv16, rfssId: byte, siteId: byte, chanId: bv16, chanNum: bv16, ssc: byte): bv64 {
    (((sysId & 0xFFF) as bv64) << 40) |
    ((rfssId as bv64) << 32) |
    ((siteId as bv64) << 24) |
    (Channel(chanId, chanNum) << 8) |
    (ssc as bv64)
  }

  function BuildAdjStsBcast(sysId: bv16, rfssId: byte, siteId: byte, chanId: bv16, chanNum: bv16, ssc: byte): Pdu {
    Block(true, ADJ_STS_BCAST, 0, AdjacentStatusArgs(sysId, rfssId, siteId, chanId, chanNum, ssc))
  }

  function ReadAdjacentStatus(args: bv64): AdjacentStatus {
    AdjacentStatus(((args >> 40) & 0xFFF) as bv16,
      ((args >> 32) & 0xFF) as byte,
      ((args >> 24) & 0xFF) as byte,
      ((args >> 20) & 0xF) as bv16,
      ((args >> 8) & 0xFFF) as bv16,
      (args & 0xFF) as byte)
  }

  lemma AdjacentStatusFields(sysId: bv16, rfssId: byte, siteId: byte, chanId: bv16, chanNum: bv16, ssc: byte)
    ensures ReadAdjacentStatus(AdjacentStatusArgs(sysId, rfssId, siteId, chanId, chanNum, ssc))
         == AdjacentStatus(sysId & 0xFFF, rfssId, siteId, chanId & 0xF, chanNum & 0xFFF, ssc)
    ensures AdjacentStatusArgs(sysId, rfssId, siteId, chanId, chanNum, ssc) & 0xFFF0000000000000 == 0
  {
  }

  lemma AdjacentStatusRoundTrip(sysId: bv16, rfssId: byte, siteId: byte, chanId: bv16, chanNum: bv16, ssc: byte)
    ensures
      var t := BuildAdjStsBcast(sysId, rfssId, siteId, chanId, chanNum, ssc);
      && IsMessage(t, 0x3C)
      && ReadAdjacentStatus(Args(t))
           == AdjacentStatus(sysId & 0xFFF, rfssId, siteId, chanId & 0xF, chanNum & 0xFFF, ssc)
      && Args(t) & 0xFFF0000000000000 == 0
  {
    hide AdjacentStatusArgs, ReadAdjacentStatus, Block, IsMessage, Args;
    BlockIsMessage(ADJ_STS_BCAST, AdjacentStatusArgs(sysId, rfssId, siteId, chanId, chanNum, ssc));
    AdjacentStatusFields(sysId, rfssId, siteId, chanId, chanNum, ssc);
  }

  datatype VoiceGrant = VoiceGrant(opts: byte, chanId: bv16, chanNum: bv16, talkgroup: bv16, source: bv32)

  function VoiceGrantArgs(opts: byte, chanId: bv16, chanNum: bv16, talkgroup: bv16, source: bv32): bv64 {
    ((opts as bv64) << 56) |
    (Channel(chanId, chanNum) << 40) |
    ((talkgroup as bv64) << 24) |
    ((source & 0xFFFFFF) as bv64)
  }

  function BuildGrpVChGrant(opts: byte, chanId: bv16, chanNum: bv16, talkgroup: bv16, source: bv32): Pdu {
    Block(true, GRP_VCH_GRANT, 0, VoiceGrantArgs(opts, chanId, chanNum, talkgroup, source))
  }

  function ReadVoiceGrant(args: bv64): VoiceGrant {
    VoiceGrant(((args >> 56) & 0xFF) as byte,
      ((args >> 52) & 0xF) as bv16,
      ((args >> 40) & 0xFFF) as bv16,
      ((args >> 24) & 0xFFFF) as bv16,
      (args & 0xFFFFFF) as bv32)
  }

  lemma VoiceGrantFields(opts: byte, chanId: bv16, chanNum: bv16, talkgroup: bv16, source: bv32)
    ensures ReadVoiceGrant(VoiceGrantArgs(opts, chanId, chanNum, talkgroup, source))
         == VoiceGrant(opts, chanId & 0xF, chanNum & 0xFFF, talkgroup, source & 0xFFFFFF)
  {
  }

  lemma VoiceGrantRoundTrip(opts: byte, chanId: bv16, chanNum: bv16, talkgroup: bv16, source: bv32)
    ensures
      var t := BuildGrpVChGrant(opts, chanId, chanNum, talkgroup, source);
      && IsMessage(t, 0x00)
      && ReadVoiceGrant(Args(t)) == VoiceGrant(opts, chanId & 0xF, chanNum & 0xFFF, talkgroup, source & 0xFFFFFF)
  {
    hide VoiceGrantArgs, ReadVoiceGrant, Block, IsMessage, Args;
    BlockIsMessage(GRP_VCH_GRANT, VoiceGrantArgs(opts, chanId, chanNum, talkgroup, source));
    VoiceGrantFields(opts, chanId, chanNum, talkgroup, source);
  }

  datatype VoiceGrantUpdate =
    VoiceGrantUpdate(chanId1: bv16, chanNum1: bv16, tg1: bv16, chanId2: bv16, chanNum2: bv16, tg2: bv16)

  function VoiceGrantUpdateArgs(chanId1: bv16, chanNum1: bv16, tg1: bv16, chanId2: bv16, chanNum2: bv16,
      tg2: bv16): bv64 {
    (Channel(chanId1, chanNum1) << 48) |
    ((tg1 as bv64) << 32) |
    (Channel(chanId2, chanNum2) << 16) |
    (tg2 as bv64)
  }

  function BuildGrpVChGrantUpdt(chanId1: bv16, chanNum1: bv16, tg1: bv16, chanId2: bv16, chanNum2: bv16,
      tg2: bv16): Pdu {
    Block(true, GRP_VCH_GRANT_UPD, 0, VoiceGrantUpdateArgs(chanId1, chanNum1, tg1, chanId2, chanNum2, tg2))
  }

  function ReadVoiceGrantUpdate(args: bv64): VoiceGrantUpdate {
    VoiceGrantUpdate(((args >> 60) & 0xF) as bv16,
      ((args >> 48) & 0xFFF) as bv16,
      ((args >> 32) & 0xFFFF) as bv16,
      ((args >> 28) & 0xF) as bv16,
      ((args >> 16) & 0xFFF) as bv16,
      (args & 0xFFFF) as bv16)
  }

  lemma VoiceGrantUpdateFields(chanId1: bv16, chanNum1: bv16, tg1: bv16, chanId2: bv16, chanNum2: bv16, tg2: bv16)
    ensures ReadVoiceGrantUpdate(VoiceGrantUpdateArgs(chanId1, chanNum1, tg1, chanId2, chanNum2, tg2))
         == VoiceGrantUpdate(chanId1 & 0xF, chanNum1 & 0xFFF, tg1, chanId2 & 0xF, chanNum2 & 0xFFF, tg2)
  {
  }

  lemma VoiceGrantUpdateRoundTrip(chanId1: bv16, chanNum1: bv16, tg1: bv16, chanId2: bv16, chanNum2: bv16, tg2: bv16)
    ensures
      var t := BuildGrpVChGrantUpdt(chanId1, chanNum1, tg1, chanId2, chanNum2, tg2);
      && IsMessage(t, 0x02)
      && ReadVoiceGrantUpdate(Args(t))
           == VoiceGrantUpdate(chanId1 & 0xF, chanNum1 & 0xFFF, tg1, chanId2 & 0xF, chanNum2 & 0xFFF, tg2)
  {
    hide VoiceGrantUpdateArgs, ReadVoiceGrantUpdate, Block, IsMessage, Args;
    BlockIsMessage(GRP_VCH_GRANT_UPD, VoiceGrantUpdateArgs(chanId1, chanNum1, tg1, chanId2, chanNum2, tg2));
    VoiceGrantUpdateFields(chanId1, chanNum1, tg1, chanId2, chanNum2, tg2);
  }

  datatype AffiliationResponse =
    AffiliationResponse(lg: bool, gav: byte, announceGroup: bv16, talkgroup: bv16, source: bv32)

  function AffiliationResponseArgs(lg: bool, gav: byte, announceGroup: bv16, talkgroup: bv16, source: bv32): bv64 {
    ((if lg then 1 else 0) << 63) |
    (((gav & 3) as bv64) << 56) |
    ((announceGroup as bv64) << 40) |
    ((talkgroup as bv64) << 24) |
    ((source & 0xFFFFFF) as bv64)
  }

  function BuildGrpAffRsp(lg: bool, gav: byte, announceGroup: bv16, talkgroup: bv16, source: bv32): Pdu {
    Block(true, GRP_AFF_RSP, 0, AffiliationResponseArgs(lg, gav, announceGroup, talkgroup, source))
  }

  function ReadAffiliationResponse(args: bv64): AffiliationResponse {
    AffiliationResponse((args >> 63) & 1 == 1,
      ((args >> 56) & 0x3) as byte,
      ((args >> 40) & 0xFFFF) as bv16,
      ((args >> 24) & 0xFFFF) as bv16,
      (args & 0xFFFFFF) as bv32)
  }

  lemma AffiliationResponseFields(lg: bool, gav: byte, announceGroup: bv16, talkgroup: bv16, source: bv32)
    ensures ReadAffiliationResponse(AffiliationResponseArgs(lg, gav, announceGroup, talkgroup, source))
         == AffiliationResponse(lg, gav & 0x3, announceGroup, talkgroup, source & 0xFFFFFF)
    ensures AffiliationResponseArgs(lg, gav, announceGroup, talkgroup, source) & 0x7C00000000000000 == 0
  {
  }

  lemma AffiliationResponseRoundTrip(lg: bool, gav: byte, announceGroup: bv16, talkgroup: bv16, source: bv32)
    ensures
      var t := BuildGrpAffRsp(lg, gav, announceGroup, talkgroup, source);
      && IsMessage(t, 0x28)
      && ReadAffiliationResponse(Args(t))
           == AffiliationResponse(lg, gav & 0x3, announceGroup, talkgroup, source & 0xFFFFFF)
      && Args(t) & 0x7C00000000000000 == 0
  {
    hide AffiliationResponseArgs, ReadAffiliationResponse, Block, IsMessage, Args;
    BlockIsMessage(GRP_AFF_RSP, AffiliationResponseArgs(lg, gav, announceGroup, talkgroup, source));
    AffiliationResponseFields(lg, gav, announceGroup, talkgroup, source);
  }

  datatype LocationResponse = LocationResponse(rv: byte, talkgroup: bv16, rfssId: byte, siteId: byte, target: bv32)

  function LocationResponseArgs(rv: byte, talkgroup: bv16, rfssId: byte, siteId: byte, target: bv32): bv64 {
    (((rv & 3) as bv64) << 56) |
    ((talkgroup as bv64) << 40) |
    ((rfssId as bv64) << 32) |
    ((siteId as bv64) << 24) |
    ((target & 0xFFFFFF) as bv64)
  }

  function BuildLocRegRsp(rv: byte, talkgroup: bv16, rfssId: byte, siteId: byte, target: bv32): Pdu {
    Block(true, LOC_REG_RSP, 0, LocationResponseArgs(rv, talkgroup, rfssId, siteId, target))
  }

  function ReadLocationResponse(args: bv64): LocationResponse {
    LocationResponse(((args >> 56) & 0x3) as byte,
      ((args >> 40) & 0xFFFF) as bv16,
      ((args >> 32) & 0xFF) as byte,
      ((args >> 24) & 0xFF) as byte,
      (args & 0xFFFFFF) as bv32)
  }

  lemma LocationResponseFields(rv: byte, talkgroup: bv16, rfssId: byte, siteId: byte, target: bv32)
    ensures ReadLocationResponse(LocationResponseArgs(rv, talkgroup, rfssId, siteId, target))
         == LocationResponse(rv & 0x3, talkgroup, rfssId, siteId, target & 0xFFFFFF)
    ensures LocationResponseArgs(rv, talkgroup, rfssId, siteId, target) & 0xFC00000000000000 == 0
  {
  }

  lemma LocationResponseRoundTrip(rv: byte, talkgroup: bv16, rfssId: byte, siteId: byte, target: bv32)
    ensures
      var t := BuildLocRegRsp(rv, talkgroup, rfssId, siteId, target);
      && IsMessage(t, 0x2B)
      && ReadLocationResponse(Args(t)) == LocationResponse(rv & 0x3, talkgroup, rfssId, siteId, target & 0xFFFFFF)
      && Args(t) & 0xFC00000000000000 == 0
  {
    hide LocationResponseArgs, ReadLocationResponse, Block, IsMessage, Args;
    BlockIsMessage(LOC_REG_RSP, LocationResponseArgs(rv, talkgroup, rfssId, siteId, target));
    LocationResponseFields(rv, talkgroup, rfssId, siteId, target);
  }

  /** The verdict has two bits, and two more above it are reserved. */
  datatype RegistrationResponse =
    RegistrationResponse(reserved: byte, verdict: byte, sysId: bv16, target: bv32, source: bv32)

  function RegistrationResponseArgs(accepted: bool, sysId: bv16, target: bv32, source: bv32): bv64 {
    ((if accepted then 1 else 0) << 60) |
    (((sysId & 0xFFF) as bv64) << 48) |
    (((target & 0xFFFFFF) as bv64) << 24) |
    ((source & 0xFFFFFF) as bv64)
  }

  function BuildURegRsp(accepted: bool, sysId: bv16, target: bv32, source: bv32): Pdu {
    Block(true, U_REG_RSP, 0, RegistrationResponseArgs(accepted, sysId, target, source))
  }

  function ReadRegistrationResponse(args: bv64): RegistrationResponse {
    RegistrationResponse(((args >> 62) & 0x3) as byte,
      ((args >> 60) & 0x3) as byte,
      ((args >> 48) & 0xFFF) as bv16,
      ((args >> 24) & 0xFFFFFF) as bv32,
      (args & 0xFFFFFF) as bv32)
  }

  lemma RegistrationResponseFields(accepted: bool, sysId: bv16, target: bv32, source: bv32)
    ensures ReadRegistrationResponse(RegistrationResponseArgs(accepted, sysId, target, source))
         == RegistrationResponse(0, if accepted then 1 else 0, sysId & 0xFFF, target & 0xFFFFFF, source & 0xFFFFFF)
  {
  }

  lemma RegistrationResponseRoundTrip(accepted: bool, sysId: bv16, target: bv32, source: bv32)
    ensures
      var t := BuildURegRsp(accepted, sysId, target, source);
      && IsMessage(t, 0x2C)
      && ReadRegistrationResponse(Args(t))
           == RegistrationResponse(0, if accepted then 1 else 0, sysId & 0xFFF, target & 0xFFFFFF, source & 0xFFFFFF)
  {
    hide RegistrationResponseArgs, ReadRegistrationResponse, Block, IsMessage, Args;
    BlockIsMessage(U_REG_RSP, RegistrationResponseArgs(accepted, sysId, target, source));
    RegistrationResponseFields(accepted, sysId, target, source);
  }

  /** What the repository's decoder takes the verdict for (p25p2_vpdu.c). */
  datatype Verdict = Accepted | Failed | Denied | Refused

  function VerdictOf(verdict: byte): Verdict {
    if verdict == 0 then Accepted else if verdict == 1 then Failed else if verdict == 2 then Denied else Refused
  }

  /** It takes an answer for an acceptance exactly when it was not built as one; one built as an acceptance is taken
      for a failure. */
  lemma AcceptanceMisread(accepted: bool, sysId: bv16, target: bv32, source: bv32)
    ensures
      var r := ReadRegistrationResponse(Args(BuildURegRsp(accepted, sysId, target, source)));
      VerdictOf(r.verdict) == if accepted then Failed else Accepted
  {
    hide BuildURegRsp, ReadRegistrationResponse, Args, IsMessage;
    RegistrationResponseRoundTrip(accepted, sysId, target, source);
  }

  // ----- IDEN_UP

  predicate Negative(offset: bv16) { offset & 0x8000 != 0 }

  /** The absolute value of the source's int16_t. */
  function Magnitude(offset: bv16): bv16 { if Negative(offset) then 0 - offset else offset }

  function OffsetField(offset: bv16): (field: bv64)
    ensures field <= 0x1FF
  {
    if Negative(offset) then ((0 - offset) & 0xFF) as bv64
    else if offset != 0 then 0x100 | ((offset & 0xFF) as bv64)
    else 0
  }

  /** Sign and magnitude: a set sign bit means a positive offset. */
  function ReadOffset(field: bv64): bv16 {
    if field & 0x100 != 0 then (field & 0xFF) as bv16 else 0 - ((field & 0xFF) as bv16)
  }

  /** The offset survives exactly when its magnitude fits eight bits. */
  lemma OffsetRoundTrip(offset: bv16)
    ensures ReadOffset(OffsetField(offset)) == offset <==> Fits8(offset)
  {
  }

  datatype Identifier = Identifier(iden: byte, bwUnits: bv16, offsetField: bv64, chspacUnits: bv16, baseUnits: bv64)

  function IdentifierArgs(iden: byte, bwUnits: bv16, offsetField: bv64, chspacUnits: bv16, baseUnits: bv64): bv64 {
    (((iden & 0xF) as bv64) << 60) | (((bwUnits & 0x1FF) as bv64) << 51) | (offsetField << 42) |
    (((chspacUnits & 0x3FF) as bv64) << 32) | (baseUnits & 0xFFFFFFFF)
  }

  /** Frequencies are sent in units of 5 Hz, rounded down. */
  function BaseUnits(baseFreqHz: bv64): bv64 { Fifth(baseFreqHz) }

  /** Whether an offset's magnitude fits the eight bits it is sent in. */
  predicate Fits8(offset: bv16) { Magnitude(offset) <= 255 }

  function BuildIdenUp(iden: byte, bwUnits: bv16, offsetUnits: bv16, chspacUnits: bv16, baseFreqHz: bv64): Pdu {
    Block(true, IDEN_UP, 0,
      IdentifierArgs(iden, bwUnits, OffsetField(offsetUnits), chspacUnits, BaseUnits(baseFreqHz)))
  }

  function ReadIdentifier(args: bv64): Identifier {
    Identifier(((args >> 60) & 0xF) as byte, ((args >> 51) & 0x1FF) as bv16, (args >> 42) & 0x1FF,
      ((args >> 32) & 0x3FF) as bv16, args & 0xFFFFFFFF)
  }

  lemma IdentifierFields(iden: byte, bwUnits: bv16, offsetField: bv64, chspacUnits: bv16, baseUnits: bv64)
    requires offsetField <= 0x1FF
    ensures ReadIdentifier(IdentifierArgs(iden, bwUnits, offsetField, chspacUnits, baseUnits))
         == Identifier(iden & 0xF, bwUnits & 0x1FF, offsetField, chspacUnits & 0x3FF, baseUnits & 0xFFFFFFFF)
  {
  }

  /** A radio takes the field for units of 5 Hz: whether that is the frequency, to within the unit. */
  predicate Near(units: bv64, frequency: bv64) {
    5 * Value(units) <= Value(frequency) < 5 * Value(units) + 5
  }

  lemma BaseRoundTrip(frequency: bv64)
    ensures Near(BaseUnits(frequency) & 0xFFFFFFFF, frequency) <==> Value(frequency) < 5 * 0x1_0000_0000
  {
    hide Fifth, Value;
    FiveTimesFifth(frequency);
  }

  /** Channel plans survive; the offset exactly when it fits eight bits; and the base frequency, to within the 5 Hz
      of its unit, exactly when it is below five times two to the thirty-second. */
  lemma IdenUpRoundTrip(iden: byte, bwUnits: bv16, offsetUnits: bv16, chspacUnits: bv16, baseFreqHz: bv64)
    ensures
      var t := BuildIdenUp(iden, bwUnits, offsetUnits, chspacUnits, baseFreqHz);
      var r := ReadIdentifier(Args(t));
      && IsMessage(t, 0x3D)
      && r.iden == iden & 0xF && r.bwUnits == bwUnits & 0x1FF && r.chspacUnits == chspacUnits & 0x3FF
      && (ReadOffset(r.offsetField) == offsetUnits <==> Fits8(offsetUnits))
      && (Near(r.baseUnits, baseFreqHz) <==> Value(baseFreqHz) < 5 * 0x1_0000_0000)
  {
    hide IdentifierArgs, ReadIdentifier, Block, IsMessage, Args, OffsetField, ReadOffset, Fits8, Near, Value;
    hide BaseUnits;
    var units := BaseUnits(baseFreqHz);
    BlockIsMessage(IDEN_UP, IdentifierArgs(iden, bwUnits, OffsetField(offsetUnits), chspacUnits, units));
    IdentifierFields(iden, bwUnits, OffsetField(offsetUnits), chspacUnits, units);
    OffsetRoundTrip(offsetUnits);
    BaseRoundTrip(baseFreqHz);
  }

  // ----- SYNC_BCAST

  /** Broken-down UTC time, fields as in struct tm, and the local offset from UTC in seconds. */
  datatype Clock = Clock(year: nat, month: byte, day: byte, hour: byte, minute: byte, second: byte, gmtoff: int)

  predicate InCalendar(c: Clock) {
    c.month < 12 && 1 <= c.day <= 31 && c.hour < 24 && c.minute < 60 && c.second <= 60
  }

  /** C division truncates; the offset is held to 31 half hours either way. */
  function HalfHours(gmtoff: int): (h: int)
    ensures -31 <= h <= 31
  {
    var h := if gmtoff >= 0 then gmtoff / 1800 else -(-gmtoff / 1800);
    if h > 31 then 31 else if h < -31 then -31 else h
  }

  function SmallByte(n: nat): byte
    requires n < 100
  {
    n as byte
  }

  lemma LowByteValue(n: nat)
    requires n < 32
    ensures SmallByte(n) as int == n
  {
  }

  lemma MiddleByteValue(n: nat)
    requires 32 <= n < 64
    ensures SmallByte(n) as int == n
  {
  }

  lemma HighByteValue(n: nat)
    requires 64 <= n < 100
    ensures SmallByte(n) as int == n
  {
  }

  lemma SmallByteValue(n: nat)
    requires n < 100
    ensures SmallByte(n) as int == n
  {
    hide SmallByte;
    if n < 32 {
      LowByteValue(n);
    } else if n < 64 {
      MiddleByteValue(n);
    } else {
      HighByteValue(n);
    }
  }

  lemma SmallByteBound(n: nat)
    requires n < 32
    ensures SmallByte(n) < 32
  {
  }

  /** Sign and magnitude. */
  function OffsetByte(h: int): byte
    requires -31 <= h <= 31
  {
    if h < 0 then 0x20 | (SmallByte(-h) & 0x1F) else SmallByte(h) & 0x1F
  }

  function ReadOffsetByte(b: byte): int {
    if b & 0x20 != 0 then -((b & 0x1F) as int) else (b & 0x1F) as int
  }

  lemma SignedByte(x: byte)
    requires x < 32
    ensures (0x20 | (x & 0x1F)) & 0x1F == x && (0x20 | (x & 0x1F)) & 0x20 != 0
    ensures (x & 0x1F) & 0x1F == x && (x & 0x1F) & 0x20 == 0
    ensures (0x20 | (x & 0x1F)) < 0x40 && x & 0x1F < 0x40
  {
  }

  lemma OffsetByteRoundTrip(h: int)
    requires -31 <= h <= 31
    ensures ReadOffsetByte(OffsetByte(h)) == h
    ensures OffsetByte(h) < 0x40
  {
    hide SmallByte;
    var n := if h < 0 then -h else h;
    SmallByteValue(n);
    SmallByteBound(n);
    SignedByte(SmallByte(n));
  }

  function YearOfCentury(year: nat): byte { SmallByte((year + 1900) % 100) }

  function Slots(second: byte): bv16 { (second as bv16) * 135 }

  // The bytes that fields share.
  function ValidByte(offset: byte): byte { 0x40 | offset }
  function YearByte(year: byte, month: byte): byte { (year << 1) | ((month >> 3) & 0x01) }
  function DayByte(month: byte, day: byte): byte { ((month & 0x07) << 5) | (day & 0x1F) }
  function HourByte(hour: byte, minute: byte): byte { ((hour & 0x1F) << 3) | ((minute >> 3) & 0x07) }
  function MinuteByte(minute: byte, slots: bv16): byte { ((minute & 0x07) << 5) | (((slots >> 8) & 0x1F) as byte) }
  function SlotByte(slots: bv16): byte { (slots & 0xFF) as byte }
  function MonthNumber(month: byte): byte { month + 1 }

  function SyncBytes(c: Clock): (b: seq<byte>)
    ensures |b| == 8
  {
    hide OffsetByte, YearOfCentury, Slots, ValidByte, YearByte, DayByte, HourByte, MinuteByte, SlotByte, MonthNumber;
    var offset, year, month := OffsetByte(HalfHours(c.gmtoff)), YearOfCentury(c.year), MonthNumber(c.month);
    [0x00, 0x04, ValidByte(offset), YearByte(year, month), DayByte(month, c.day), HourByte(c.hour, c.minute),
     MinuteByte(c.minute, Slots(c.second)), SlotByte(Slots(c.second))]
  }

  /** The first n bytes, folded into a word. */
  function Folded(b: seq<byte>, n: nat): bv64
    requires n <= |b|
  {
    if n == 0 then 0 else FoldIn(Folded(b, n - 1), b[n - 1])
  }

  function FoldIn(args: bv64, b: byte): bv64 { (args << 8) | (b as bv64) }

  function SyncBcast(c: Clock): Pdu {
    hide SyncBytes, Folded;
    Block(true, SYNC_BCAST, 0, Folded(SyncBytes(c), 8))
  }

  method BuildSyncBcast(c: Clock) returns (t: Pdu)
    ensures t == SyncBcast(c)
  {
    hide FoldIn, SyncBytes, Block;
    var b := SyncBytes(c);
    var args: bv64 := 0;
    for i := 0 to 8
      invariant args == Folded(b, i)
    {
      args := FoldIn(args, b[i]);
    }
    t := BuildTsbk(true, SYNC_BCAST, 0, args);
  }

  lemma FoldedIsArgWord(b: seq<byte>)
    requires |b| == 8
    ensures Folded(b, 8) == ArgWord(b[0], b[1], b[2], b[3], b[4], b[5], b[6], b[7])
  {
    hide FoldIn, ArgWord;
    assert Folded(b, 1) == FoldIn(Folded(b, 0), b[0]);
    assert Folded(b, 2) == FoldIn(Folded(b, 1), b[1]);
    assert Folded(b, 4) == FoldIn(FoldIn(Folded(b, 2), b[2]), b[3]);
    assert Folded(b, 6) == FoldIn(FoldIn(Folded(b, 4), b[4]), b[5]);
    assert Folded(b, 8) == FoldIn(FoldIn(Folded(b, 6), b[6]), b[7]);
    EightFolds(b[0], b[1], b[2], b[3], b[4], b[5], b[6], b[7]);
  }

  lemma EightFolds(a: byte, b: byte, c: byte, d: byte, e: byte, f: byte, g: byte, h: byte)
    ensures FoldIn(FoldIn(FoldIn(FoldIn(FoldIn(FoldIn(FoldIn(FoldIn(0, a), b), c), d), e), f), g), h)
         == ArgWord(a, b, c, d, e, f, g, h)
  {
  }

  /** A radio's view of the arguments. */
  datatype SyncTime = SyncTime(
    flags: SyncFlags, offset: byte, year: byte, month: byte, day: byte, hour: byte, minute: byte, slots: bv16)

  /** Reserved bits; slots not synchronised; time from an external source; minute boundary unlocked; minute correction;
      local offset valid. */
  datatype SyncFlags = SyncFlags(reserved: bv64, us: bv64, ist: bv64, mm: bv64, mc: bv64, vl: bv64)

  function ReadFlags(args: bv64): SyncFlags {
    SyncFlags(args >> 52, (args >> 51) & 1, (args >> 50) & 1, (args >> 49) & 1, (args >> 47) & 3, (args >> 46) & 1)
  }

  function ReadSync(args: bv64): SyncTime {
    SyncTime(ReadFlags(args),
      ((args >> 40) & 0x3F) as byte, ((args >> 33) & 0x7F) as byte, ((args >> 29) & 0xF) as byte,
      ((args >> 24) & 0x1F) as byte, ((args >> 19) & 0x1F) as byte, ((args >> 13) & 0x3F) as byte,
      (args & 0x1FFF) as bv16)
  }

  /** Each field within its width. */
  predicate SyncFits(offset: byte, year: byte, month: byte, day: byte, hour: byte, minute: byte, slots: bv16) {
    offset < 0x40 && year < 0x80 && month < 0x10 && day < 0x20 && hour < 0x20 && minute < 0x40 && slots < 0x2000
  }

  lemma SyncFields(offset: byte, year: byte, month: byte, day: byte, hour: byte, minute: byte, slots: bv16)
    requires SyncFits(offset, year, month, day, hour, minute, slots)
    ensures
      var w := ArgWord(0x00, 0x04, ValidByte(offset), YearByte(year, month), DayByte(month, day),
        HourByte(hour, minute), MinuteByte(minute, slots), SlotByte(slots));
      ReadSync(w) == SyncTime(ReadFlags(w), offset, year, month, day, hour, minute, slots)
  {
    hide ReadFlags;
  }

  lemma FlagFields(offset: byte, d: byte, e: byte, f: byte, g: byte, h: byte)
    requires offset < 0x40
    ensures ReadFlags(ArgWord(0x00, 0x04, ValidByte(offset), d, e, f, g, h)) == SyncFlags(0, 0, 1, 0, 0, 1)
  {
  }

  lemma SlotsValue(second: byte)
    requires second <= 60
    ensures Slots(second) as int == 135 * second as int && Slots(second) < 0x2000
  {
  }

  lemma MonthValue(month: byte)
    requires month < 12
    ensures MonthNumber(month) as int == month as int + 1
  {
  }

  lemma CalendarFits(c: Clock)
    requires InCalendar(c)
    ensures MonthNumber(c.month) < 0x10 && c.day < 0x20 && c.hour < 0x20 && c.minute < 0x40
  {
  }

  lemma ClockFits(c: Clock)
    requires InCalendar(c)
    ensures SyncFits(OffsetByte(HalfHours(c.gmtoff)), YearOfCentury(c.year), MonthNumber(c.month), c.day, c.hour,
      c.minute, Slots(c.second))
  {
    hide OffsetByte, YearOfCentury, MonthNumber, Slots, InCalendar;
    OffsetByteRoundTrip(HalfHours(c.gmtoff));
    SmallYear(c.year);
    CalendarFits(c);
    SecondFits(c);
    SlotsValue(c.second);
  }

  lemma SecondFits(c: Clock)
    requires InCalendar(c)
    ensures c.second <= 60 && c.month < 12
  {
  }

  lemma SmallYear(year: nat)
    ensures YearOfCentury(year) < 0x80 && YearOfCentury(year) as int == (year + 1900) % 100
  {
    hide SmallByte;
    SmallByteValue((year + 1900) % 100);
  }

  /** What a radio is told of a local offset of gmtoff seconds: half hours, rounded towards zero, and no more than 31
      either way. */
  predicate ToldOffset(h: int, gmtoff: int) {
    if gmtoff >= 57600 then h == 31
    else if gmtoff <= -57600 then h == -31
    else if gmtoff >= 0 then 0 <= h && 1800 * h <= gmtoff < 1800 * (h + 1)
    else h <= 0 && 1800 * (h - 1) < gmtoff <= 1800 * h
  }

  lemma OffsetTold(gmtoff: int)
    ensures ToldOffset(HalfHours(gmtoff), gmtoff)
  {
  }

  /** What a radio is told of a time: the month counts from one, the year is of the century, and there are 135 slots
      to a second; the time is from an external source and the offset valid. */
  predicate ToldTime(r: SyncTime, c: Clock) {
    && ToldOffset(ReadOffsetByte(r.offset), c.gmtoff)
    && r.year as int == (c.year + 1900) % 100 && r.month as int == c.month as int + 1
    && r.day == c.day && r.hour == c.hour && r.minute == c.minute && r.slots as int == 135 * c.second as int
    && r.flags == SyncFlags(0, 0, 1, 0, 0, 1)
  }

  /** Date, time and offset survive. */
  lemma SyncRoundTrip(c: Clock)
    requires InCalendar(c)
    ensures IsMessage(SyncBcast(c), 0x30) && ToldTime(ReadSync(Args(SyncBcast(c))), c)
  {
    hide Block, Args, IsMessage, ReadSync, OffsetByte, ReadOffsetByte, YearOfCentury, Slots, Folded, ArgWord,
         HalfHours,
         ValidByte, YearByte, DayByte, HourByte, MinuteByte, SlotByte, MonthNumber, SyncFits, InCalendar, ReadFlags,
         ToldOffset;
    BlockIsMessage(SYNC_BCAST, Folded(SyncBytes(c), 8));
    FoldedIsArgWord(SyncBytes(c));
    var offset, year, month := OffsetByte(HalfHours(c.gmtoff)), YearOfCentury(c.year), MonthNumber(c.month);
    OffsetByteRoundTrip(HalfHours(c.gmtoff));
    OffsetTold(c.gmtoff);
    SmallYear(c.year);
    SecondFits(c);
    SlotsValue(c.second);
    MonthValue(c.month);
    ClockFits(c);
    SyncFields(offset, year, month, c.day, c.hour, c.minute, Slots(c.second));
    FlagFields(offset, YearByte(year, month), DayByte(month, c.day), HourByte(c.hour, c.minute),
      MinuteByte(c.minute, Slots(c.second)), SlotByte(Slots(c.second)));
  }
}
