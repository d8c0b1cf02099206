/** From a radio's request on air to the site's answer on air, through src/p25, src/rx and src/tx. */
module EndToEnd {
  import opened Bits
  import opened Frame
  import opened Messages
  import opened FrameRecovery
  import opened Scheduler
  import opened Site
  import opened Tsbk
  import opened Uplink
  import opened Wrappers
  import C4fm
  import ControlChannel
  import Nid
  import NidCode

  /** What the site does with a heard frame: recover the block, handle it by its opcode if the receiver passes it
      on, queue the answer if there is one. */
  function Handled(s: Channel, air: seq<dibit>, sysId: bv16): Channel {
    match Receive(air)
    case None => s
    case Some(heard) =>
      if !PassedOn(heard.tsbk) then s
      else
        match Response(Opcode(heard.tsbk), heard.tsbk, sysId)
        case None => s
        case Some(t) => Apply(s, QueueTsbk(t))
  }

  /** Blocks of other manufacturers, protected blocks and blocks that fail the CRC leave the channel as it was. */
  lemma OthersIgnored(s: Channel, nac: bv16, t: Pdu, sysId: bv16)
    requires !CrcOk(t) || t[1] >= 2 || t[0] & 0x40 != 0
    ensures Handled(s, TsbkFrame(nac, t), sysId) == s
  {
    hide TsbkFrame, Receive, CrcOk, Response, Opcode;
    FrameRoundTrip(nac, t);
    ProtectBit(t[0]);
  }

  lemma ProtectBit(b: byte)
    ensures (b >> 6) & 0x01 == 0 <==> b & 0x40 == 0
  {
  }

  /** Block t is sent as a queued block after the first from frames of aired. */
  ghost predicate SentAfter(aired: seq<Sent>, from: nat, t: Pdu) {
    exists k :: from <= k < |aired| && aired[k] == Action(t)
  }

  lemma {:induction false} AiredGrows(s: Channel, es: seq<Event>)
    ensures s.aired <= After(s, es).aired
    decreases |es|
  {
    hide Chosen, LogLine, AddLog;
    if es != [] {
      AiredGrows(s, es[..|es| - 1]);
    }
  }

  /** The i-th queued block was carried by a frame past every prefix with at most i of them. */
  lemma {:induction false} ActionAired(fs: seq<Sent>, from: nat, i: nat)
    requires from <= |fs| && |Actions(fs[..from])| <= i < |Actions(fs)|
    ensures SentAfter(fs, from, Actions(fs)[i])
    decreases |fs|
  {
    assert fs[..|fs|] == fs;
    var n := |fs| - 1;
    assert fs[..n][..from] == fs[..from];
    if i < |Actions(fs[..n])| {
      ActionAired(fs[..n], from, i);
      var k :| from <= k < n && fs[..n][k] == Action(Actions(fs[..n])[i]);
      assert fs[k] == Action(Actions(fs)[i]);
    } else {
      assert fs[n] == Action(Actions(fs)[i]);
    }
  }

  /** An accepted block goes on air within 160 block frames. */
  lemma QueuedIsSent(s: Channel, t: Pdu, es: seq<Event>)
    requires Inv(s) && s.running && |s.queue| < 128 && Uninterrupted(es) && FrameCount(es) >= 160
    ensures SentAfter(After(Apply(s, QueueTsbk(t)), es).aired, |s.aired|, t)
  {
    hide Actions, Inv, After, Uninterrupted;
    Latency(s, es, t);
    AiredGrows(Apply(s, QueueTsbk(t)), es);
    var aired := After(Apply(s, QueueTsbk(t)), es).aired;
    assert aired[..|s.aired|] == s.aired;
    ActionAired(aired, |s.aired|, |Actions(s.aired)| + |s.queue|);
  }

  lemma RequestHeard(nac: bv16, opcode: byte, args: bv64)
    ensures
      var raw := BuildRequest(opcode, args);
      Receive(TsbkFrame(nac, raw)) == Some(Received(nac & 0xfff, 7, raw))
  {
    hide Block, CrcOk, Receive, TsbkFrame, Head, HeadWord, Args;
    BlockReads(true, opcode, 0x00, args);
    FrameRoundTrip(nac, BuildRequest(opcode, args));
  }

  lemma AnswerHeard(nac: bv16, t: Pdu)
    requires CrcOk(t)
    ensures Receive(TsbkFrame(nac, t)) == Some(Received(nac & 0xfff, 7, t))
  {
    hide CrcOk, Receive, TsbkFrame;
    FrameRoundTrip(nac, t);
  }

  /** The answer to a request: queued if there is room, and then on air within 160 block frames; a radio hears
      it as sent. With a full queue the request changes nothing. */
  ghost predicate Served(s: Channel, air: seq<dibit>, sysId: bv16, siteNac: bv16, t: Pdu) {
    var s' := Handled(s, air, sysId);
    && Receive(TsbkFrame(siteNac, t)) == Some(Received(siteNac & 0xfff, 7, t))
    && (|s.queue| >= 128 ==> s' == s)
    && (|s.queue| < 128 ==>
          && s'.queue == s.queue + [t]
          && forall es :: Uninterrupted(es) && FrameCount(es) >= 160 ==>
               SentAfter(After(s', es).aired, |s.aired|, t))
  }

  lemma AnswerServed(s: Channel, opcode: byte, args: bv64, nac: bv16, sysId: bv16, siteNac: bv16, t: Pdu)
    requires Inv(s) && s.running
    requires
      var raw := BuildRequest(opcode, args);
      Response(Opcode(raw), raw, sysId) == Some(t) && CrcOk(t) && PassedOn(raw)
    ensures Served(s, TsbkFrame(nac, BuildRequest(opcode, args)), sysId, siteNac, t)
  {
    hide Receive, TsbkFrame, BuildRequest, Opcode, Response, PassedOn, CrcOk, Inv, Uninterrupted, After;
    RequestHeard(nac, opcode, args);
    AnswerHeard(siteNac, t);
    if |s.queue| < 128 {
      forall es | Uninterrupted(es) && FrameCount(es) >= 160
        ensures SentAfter(After(Apply(s, QueueTsbk(t)), es).aired, |s.aired|, t)
      {
        QueuedIsSent(s, t, es);
      }
    }
  }

  /** A radio's affiliation request, framed and sent, is answered on air with its own talkgroup and unit. */
  lemma AffiliationServed(s: Channel, nac: bv16, tgid: bv16, srcId: bv32, sysId: bv16, siteNac: bv16)
      returns (t: Pdu)
    requires Inv(s) && s.running
    ensures Served(s, TsbkFrame(nac, BuildGrpAffReq(tgid, srcId)), sysId, siteNac, t)
    ensures AffiliationAnswer(t, tgid, srcId)
  {
    hide Served, BuildRequest, Opcode, Response, PassedOn, CrcOk, Inv, TsbkFrame, GroupArgs, Masked;
    hide ReadAffiliationResponse;
    AffiliationAnswered(tgid, srcId, sysId);
    RequestPassedOn(ISP_GRP_AFF_REQ, GroupArgs(0, tgid, srcId));
    var raw := BuildGrpAffReq(tgid, srcId);
    t := Response(Opcode(raw), raw, sysId).value;
    AnswerServed(s, ISP_GRP_AFF_REQ, GroupArgs(0, tgid, srcId), nac, sysId, siteNac, t);
  }

  /** So is a registration request, with a verdict for the unit that asked. */
  lemma RegistrationServed(s: Channel, nac: bv16, requested: bv16, srcId: bv32, sysId: bv16, siteNac: bv16)
      returns (t: Pdu)
    requires Inv(s) && s.running
    ensures Served(s, TsbkFrame(nac, BuildURegReq(requested, srcId)), sysId, siteNac, t)
    ensures RegistrationAnswer(t, sysId, srcId)
  {
    hide Served, BuildRequest, Opcode, Response, PassedOn, CrcOk, Inv, TsbkFrame, RegistrationArgs, Masked;
    hide ReadRegistrationResponse;
    RegistrationAnswered(requested, srcId, sysId);
    RequestPassedOn(ISP_U_REG_REQ, RegistrationArgs(requested, srcId));
    var raw := BuildURegReq(requested, srcId);
    t := Response(Opcode(raw), raw, sysId).value;
    AnswerServed(s, ISP_U_REG_REQ, RegistrationArgs(requested, srcId), nac, sysId, siteNac, t);
  }

  /** A running channel with its queue full, which queueing alone reaches. */
  function Full(t: Pdu): Channel { After(FRESH, Queued(t, 128) + [Start]) }

  lemma FullQueue(t: Pdu)
    ensures Full(t).running && |Full(t).queue| == 128
  {
    hide After;
    var es := Queued(t, 128);
    QueueFills(t, 128);
    assert (es + [Start])[..|es|] == es;
    AfterJoin(FRESH, es, [Start]);
    OneEvent(After(FRESH, es), Start);
  }

  lemma OneEvent(s: Channel, e: Event)
    ensures After(s, [e]) == Apply(s, e)
  {
    hide Apply;
    assert [e][..0] == [];
  }

  /** There a framed affiliation request is heard and logged as queued, and nothing is queued. */
  lemma QueuedInNameOnly(t: Pdu, nac: bv16, tgid: bv16, srcId: bv32, sysId: bv16)
    ensures
      var raw := BuildGrpAffReq(tgid, srcId);
      && Receive(TsbkFrame(nac, raw)) == Some(Received(nac & 0xfff, 7, raw)) && PassedOn(raw)
      && EntryFor(Opcode(raw), raw) == AffiliationQueued(UnitId(srcId), Uplink.Wide(tgid))
      && Handled(Full(t), TsbkFrame(nac, raw), sysId) == Full(t)
  {
    hide BuildRequest, Opcode, Response, PassedOn, EntryFor, TsbkFrame, Receive, GroupArgs, Full, AffiliationAnswer;
    hide Masked, UnitId, Uplink.Wide;
    FullQueue(t);
    AffiliationAnswered(tgid, srcId, sysId);
    RequestPassedOn(ISP_GRP_AFF_REQ, GroupArgs(0, tgid, srcId));
    RequestHeard(nac, ISP_GRP_AFF_REQ, GroupArgs(0, tgid, srcId));
  }

  /** What the log calls the message with an opcode. */
  function NameOf(opcode: byte): string {
    if opcode == 0x3D then "IDEN_UP" else if opcode == 0x3B then "NET_STS" else if opcode == 0x3A then "RFSS_STS"
    else if opcode == 0x3C then "ADJ_STS" else if opcode == 0x30 then "SYNC" else "ACT TSBK"
  }

  lemma LoggedName(idx: nat)
    requires idx < 5
    ensures LogLine(System(idx)) == "SYS " + NameOf(OpcodeOf(idx))
  {
  }

  lemma OpcodeRead(t: Pdu, cfg: SiteConfig, idx: nat, clock: Clock)
    requires IsSystemMessage(t, cfg, idx, clock)
    ensures Opcode(t) == OpcodeOf(idx)
  {
    hide Tells, CrcOk;
  }

  /** Every system frame of the rotation is heard as the message it is logged as, saying what the site is. */
  lemma BroadcastHeard(cfg: SiteConfig, idx: nat, clock: Clock)
    requires idx < 5 && InCalendar(clock)
    ensures
      var t := ControlChannel.BlockOf(System(idx), cfg, clock);
      && Receive(TsbkFrame(cfg.nac, t)) == Some(Received(cfg.nac & 0xfff, 7, t))
      && IsSystemMessage(t, cfg, idx, clock)
      && LogLine(System(idx)) == "SYS " + NameOf(Opcode(t)) && LogLine(Action(t)) == "ACT TSBK"
  {
    hide Receive, TsbkFrame, SystemBlock, CrcOk, Args, Head, Tells, InCalendar, OpcodeOf, HeadWord, Opcode, NameOf;
    hide SysName;
    SystemMessages(cfg, idx, clock);
    OpcodeRead(SystemBlock(cfg, idx, clock), cfg, idx, clock);
    LoggedName(idx);
    AnswerHeard(cfg.nac, SystemBlock(cfg, idx, clock));
  }

  lemma EarlySymbol(nac: bv16, tsbk: Pdu, i: nat)
    requires i < 24
    ensures TsbkFrame(nac, tsbk)[i] == Data(TsbkFrame(nac, tsbk))[i] && TduFrame(nac)[i] == Data(TduFrame(nac))[i]
  {
    hide Header, Payload;
  }

  lemma HeaderLevels(nac: bv16, tsbk: Pdu)
    ensures InSync(Data(TsbkFrame(nac, tsbk))) && InSync(Data(TduFrame(nac)))
  {
    hide Data, Frame.Sent, Header, Payload, InSync, NidCode.Clean;
    var payload := seq(98, i => 0 as dibit);
    DataOfSent(Header(nac, Nid.DUID_TSBK) + Payload(tsbk));
    DataOfSent(Header(nac, Nid.DUID_TDU) + payload);
    DuidsAgree();
    HeaderReads(nac, Nid.DUID_TSBK, Payload(tsbk));
    HeaderReads(nac, Nid.DUID_TDU, payload);
  }

  /** Every frame opens with the sync pattern in the outer levels: +3 for 1 and -3 for 3. */
  lemma SyncLevels(nac: bv16, tsbk: Pdu, i: nat)
    requires i < 24
    ensures
      var level := if P25P1_SYNC[i] == '1' then 3.0 else -3.0;
      C4fm.Symbols(TsbkFrame(nac, tsbk))[i] == C4fm.Symbols(TduFrame(nac))[i] == level
  {
    hide TsbkFrame, TduFrame, Data;
    HeaderLevels(nac, tsbk);
    EarlySymbol(nac, tsbk, i);
  }
}
