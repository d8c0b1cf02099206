/** What a site says about itself: the messages that src/tx/ControlChannel.cpp builds from its configuration. */
module Site {
  import opened Bits
  import opened Messages
  import opened Tsbk
  import opened Words

  datatype SiteConfig = SiteConfig(
    nac: bv16, wacn: bv32, sysId: bv16, rfssId: byte, siteId: byte,
    chanId: byte, bwUnits: bv16, txOffsetUnits: bv16, chSpacUnits: bv16, baseFreqHz: bv64)

  function Neighbour(siteId: byte): byte { siteId + 1 }

  function Wide(chanId: byte): bv16 { chanId as bv16 }

  /** The four messages built once per run. */
  function StaticBlocks(cfg: SiteConfig): (blocks: seq<Pdu>)
    ensures |blocks| == 4
  {
    [BuildIdenUp(cfg.chanId, cfg.bwUnits, cfg.txOffsetUnits, cfg.chSpacUnits, cfg.baseFreqHz),
     BuildNetStatusBcast(cfg.wacn, cfg.sysId, 0, 0, 0x00),
     BuildRfssStatusBcast(0x00, cfg.sysId, cfg.rfssId, cfg.siteId, Wide(cfg.chanId), 0, 0x00),
     BuildAdjStsBcast(cfg.sysId, cfg.rfssId, Neighbour(cfg.siteId), 0, 0, 0x00)]
  }

  /** The system message with a given place in the rotation; the fifth is built afresh. */
  function SystemBlock(cfg: SiteConfig, idx: nat, clock: Clock): Pdu {
    if idx < 4 then StaticBlocks(cfg)[idx] else SyncBcast(clock)
  }

  function OpcodeOf(idx: nat): byte {
    if idx == 0 then 0x3D else if idx == 1 then 0x3B else if idx == 2 then 0x3A else if idx == 3 then 0x3C else 0x30
  }

  function Nibble(b: byte): byte { b & 0xF }
  function Low4(w: bv16): bv16 { w & 0xF }
  function Low9(w: bv16): bv16 { w & 0x1FF }
  function Low10(w: bv16): bv16 { w & 0x3FF }
  function Low12(w: bv16): bv16 { w & 0xFFF }
  function Low20(w: bv32): bv32 { w & 0xFFFFF }

  /** What a radio learns about the site from a system message. */
  predicate Tells(args: bv64, cfg: SiteConfig, idx: nat, clock: Clock) {
    if idx == 0 then
      var r := ReadIdentifier(args);
      && r.iden == Nibble(cfg.chanId) && r.bwUnits == Low9(cfg.bwUnits) && r.chspacUnits == Low10(cfg.chSpacUnits)
      && (Fits8(cfg.txOffsetUnits) ==> ReadOffset(r.offsetField) == cfg.txOffsetUnits)
      && (Value(cfg.baseFreqHz) < 5 * 0x1_0000_0000 ==> Near(r.baseUnits, cfg.baseFreqHz))
    else if idx == 1 then
      ReadNetStatus(args) == NetStatus(Low20(cfg.wacn), Low12(cfg.sysId), 0, 0, 0)
    else if idx == 2 then
      var r := ReadRfssStatus(args);
      && r == RfssStatus(0, Low12(cfg.sysId), cfg.rfssId, cfg.siteId, r.chanId, 0, 0)
      && r.chanId as int == Nibble(cfg.chanId) as int
    else if idx == 3 then
      var r := ReadAdjacentStatus(args);
      && r == AdjacentStatus(Low12(cfg.sysId), cfg.rfssId, r.siteId, 0, 0, 0)
      && r.siteId as int == (cfg.siteId as int + 1) % 256
    else
      ToldTime(ReadSync(args), clock)
  }

  /** A good block with the opcode of its place, saying what the site is. */
  predicate IsSystemMessage(t: Pdu, cfg: SiteConfig, idx: nat, clock: Clock) {
    IsMessage(t, OpcodeOf(idx)) && Tells(Args(t), cfg, idx, clock)
  }

  lemma Masks(cfg: SiteConfig)
    ensures (0 as bv16) & 0xF == 0 && (0 as bv16) & 0xFFF == 0
    ensures cfg.wacn & 0xFFFFF == Low20(cfg.wacn) && cfg.sysId & 0xFFF == Low12(cfg.sysId)
    ensures cfg.chanId & 0xF == Nibble(cfg.chanId)
    ensures Wide(cfg.chanId) & 0xF == Low4(Wide(cfg.chanId))
    ensures cfg.bwUnits & 0x1FF == Low9(cfg.bwUnits) && cfg.chSpacUnits & 0x3FF == Low10(cfg.chSpacUnits)
  {
  }

  lemma NextSite(siteId: byte)
    ensures Neighbour(siteId) as int == (siteId as int + 1) % 256
  {
  }

  lemma ChannelNibble(chanId: byte)
    ensures Low4(Wide(chanId)) as int == Nibble(chanId) as int
  {
  }

  lemma IdenUpTells(cfg: SiteConfig, clock: Clock)
    ensures IsSystemMessage(StaticBlocks(cfg)[0], cfg, 0, clock)
  {
    hide Block, IsMessage, Args, ReadIdentifier, ReadOffset, Fits8, Near, Value, Nibble;
    hide Low9, Low10, Low12, Low4, Low20, Wide, Nibble;
    hide BuildIdenUp, BuildNetStatusBcast, BuildRfssStatusBcast, BuildAdjStsBcast, Neighbour;
    Masks(cfg);
    IdenUpRoundTrip(cfg.chanId, cfg.bwUnits, cfg.txOffsetUnits, cfg.chSpacUnits, cfg.baseFreqHz);
  }

  lemma NetStatusTells(cfg: SiteConfig, clock: Clock)
    ensures IsSystemMessage(StaticBlocks(cfg)[1], cfg, 1, clock)
  {
    hide Block, IsMessage, Args, ReadNetStatus, Low9, Low10, Low12, Low4, Low20, Wide, Nibble;
    hide BuildIdenUp, BuildNetStatusBcast, BuildRfssStatusBcast, BuildAdjStsBcast, Neighbour;
    Masks(cfg);
    NetStatusRoundTrip(cfg.wacn, cfg.sysId, 0, 0, 0);
  }

  lemma RfssStatusTells(cfg: SiteConfig, clock: Clock)
    ensures IsSystemMessage(StaticBlocks(cfg)[2], cfg, 2, clock)
  {
    hide Block, IsMessage, Args, ReadRfssStatus, Low9, Low10, Low12, Low4, Low20, Wide, Nibble;
    hide BuildIdenUp, BuildNetStatusBcast, BuildRfssStatusBcast, BuildAdjStsBcast, Neighbour;
    Masks(cfg);
    ChannelNibble(cfg.chanId);
    RfssStatusRoundTrip(0, cfg.sysId, cfg.rfssId, cfg.siteId, Wide(cfg.chanId), 0, 0);
  }

  lemma AdjacentStatusTells(cfg: SiteConfig, clock: Clock)
    ensures IsSystemMessage(StaticBlocks(cfg)[3], cfg, 3, clock)
  {
    hide Block, IsMessage, Args, ReadAdjacentStatus, Low9, Low10, Low12, Low4, Low20, Wide, Nibble;
    hide BuildIdenUp, BuildNetStatusBcast, BuildRfssStatusBcast, BuildAdjStsBcast, Neighbour;
    Masks(cfg);
    NextSite(cfg.siteId);
    AdjacentStatusRoundTrip(cfg.sysId, cfg.rfssId, Neighbour(cfg.siteId), 0, 0, 0);
  }

  lemma SyncTells(cfg: SiteConfig, clock: Clock)
    requires InCalendar(clock)
    ensures IsSystemMessage(SyncBcast(clock), cfg, 4, clock)
  {
    hide SyncBcast, IsMessage, Args, ReadSync, ToldTime, InCalendar, OpcodeOf;
    SyncRoundTrip(clock);
    SyncOpcode();
  }

  lemma SyncOpcode()
    ensures OpcodeOf(4) == 0x30
  {
  }

  /** Every message of the rotation is a good block that says what the site is. */
  lemma SystemMessages(cfg: SiteConfig, idx: nat, clock: Clock)
    requires idx < 5 && InCalendar(clock)
    ensures IsSystemMessage(SystemBlock(cfg, idx, clock), cfg, idx, clock)
  {
    hide StaticBlocks, SyncBcast, IsSystemMessage, InCalendar;
    if idx == 0 {
      IdenUpTells(cfg, clock);
    } else if idx == 1 {
      NetStatusTells(cfg, clock);
    } else if idx == 2 {
      RfssStatusTells(cfg, clock);
    } else if idx == 3 {
      AdjacentStatusTells(cfg, clock);
    } else {
      SyncTells(cfg, clock);
    }
  }
}
