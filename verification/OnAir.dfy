/** From the queue to the hardware: in every run of the transmitter the samples of each frame are where its place in
    the schedule puts them, and an accepted block is among them. */
module OnAir {
  import opened Bits
  import opened ControlChannel
  import opened Frame
  import opened FrameRecovery
  import opened Messages
  import opened SiteRun
  import opened Tsbk
  import opened Uplink
  import opened Wrappers
  import C4fm
  import EndToEnd
  import R = RingProtocol
  import S = Scheduler

  // ----- where the samples of a frame are

  lemma {:induction false} AirLength(p: Setup, aired: seq<S.Sent>, clocks: seq<Clock>)
    requires |aired| == |clocks|
    ensures |AirOf(p, aired, clocks)| == 180 * |aired|
    decreases |aired|
  {
    hide FrameOf;
    if aired != [] {
      var n := |aired| - 1;
      AirLength(p, aired[..n], clocks[..n]);
    }
  }

  lemma {:induction false} AirPrefix(p: Setup, aired: seq<S.Sent>, clocks: seq<Clock>, k: nat)
    requires |aired| == |clocks| && k <= |aired|
    ensures AirOf(p, aired[..k], clocks[..k]) <= AirOf(p, aired, clocks)
    decreases |aired|
  {
    hide FrameOf;
    if k == |aired| {
      assert aired[..k] == aired && clocks[..k] == clocks;
    } else {
      var n := |aired| - 1;
      AirPrefix(p, aired[..n], clocks[..n], k);
      assert aired[..n][..k] == aired[..k] && clocks[..n][..k] == clocks[..k];
    }
  }

  /** The samples of frame k, which continue the signal of the frames before it. */
  function FrameSignal(p: Setup, aired: seq<S.Sent>, clocks: seq<Clock>, k: nat): (s: seq<sample>)
    requires |aired| == |clocks| && k < |aired|
    ensures |s| == FRAME_BYTES
  {
    hide FrameOf, AirOf;
    var before := AirOf(p, aired[..k], clocks[..k]);
    C4fm.Modulated(p.modulator, C4fm.Symbols(before), C4fm.PhaseEnd(p.modulator, [], 0.0, before),
      FrameOf(p, aired[k], clocks[k]))
  }

  lemma SignalPrefix(p: Setup, a: seq<dibit>, b: seq<dibit>)
    requires a <= b
    ensures Signal(p, a) <= Signal(p, b)
  {
    hide Signal, C4fm.Modulated;
    assert b == a + b[|a|..];
    SignalGrows(p, a, b[|a|..]);
  }

  lemma SignalLength(p: Setup, ds: seq<dibit>)
    ensures |Signal(p, ds)| == |ds| * BYTES_PER_DIBIT
  {
    hide C4fm.Modulated;
  }

  /** The signal of the frames up to k is that of those before it and then frame k's. */
  lemma SignalAt(p: Setup, aired: seq<S.Sent>, clocks: seq<Clock>, k: nat)
    requires |aired| == |clocks| && k < |aired|
    ensures
      var before := Signal(p, AirOf(p, aired[..k], clocks[..k]));
      && |before| == k * FRAME_BYTES
      && before + FrameSignal(p, aired, clocks, k) <= Signal(p, AirOf(p, aired, clocks))
  {
    hide FrameOf, AirOf, Signal, C4fm.Modulated, C4fm.PhaseEnd, C4fm.Symbols;
    AirLength(p, aired[..k], clocks[..k]);
    SignalLength(p, AirOf(p, aired[..k], clocks[..k]));
    assert aired[..k + 1] == aired[..k] + [aired[k]] && clocks[..k + 1] == clocks[..k] + [clocks[k]];
    AirSnoc(p, aired[..k], clocks[..k], aired[k], clocks[k]);
    SignalGrows(p, AirOf(p, aired[..k], clocks[..k]), FrameOf(p, aired[k], clocks[k]));
    AirPrefix(p, aired, clocks, k + 1);
    SignalPrefix(p, AirOf(p, aired[..k + 1], clocks[..k + 1]), AirOf(p, aired, clocks));
  }

  lemma Piece(a: seq<sample>, f: seq<sample>, all: seq<sample>, got: seq<sample>)
    requires a + f <= all && got <= all && |got| >= |a| + |f|
    ensures got[|a|..|a| + |f|] == f
  {
    assert all[..|a| + |f|] == a + f;
  }

  /** What the hardware has heard, if it has heard enough, of frame k. */
  predicate Hears(p: Setup, s: State, k: nat)
    requires |s.channel.aired| == |s.clocks| && k < |s.channel.aired|
  {
    |s.ring.received| >= (k + 1) * 180000 ==>
      s.ring.received[k * 180000..(k + 1) * 180000] == FrameSignal(p, s.channel.aired, s.clocks, k)
  }

  /** In every run, once the hardware has received so much, the k-th stretch of 180000 bytes without padding is
      the signal of the k-th frame. */
  lemma FrameHeard(p: Setup, es: seq<Event>, k: nat)
    requires Feasible(p, es)
    ensures
      var s := Final(p, es);
      && |s.channel.aired| == |s.clocks|
      && (k < |s.channel.aired| ==> Hears(p, s, k))
  {
    hide Feasible, Final, Trace, AirOf, Signal, S.Inv, FrameSignal, R.Feasible, R.Chunks, R.Unpadded;
    HardwareHears(p, es);
    var s := Final(p, es);
    if k < |s.channel.aired| && |s.ring.received| >= (k + 1) * FRAME_BYTES {
      SignalAt(p, s.channel.aired, s.clocks, k);
      Piece(Signal(p, AirOf(p, s.channel.aired[..k], s.clocks[..k])), FrameSignal(p, s.channel.aired, s.clocks, k),
        Signal(p, AirOf(p, s.channel.aired, s.clocks)), s.ring.received);
    }
  }

  // ----- a run as the scheduler sees it

  function Scheduled(e: Event): seq<S.Event> {
    match e
    case Start => [S.Start]
    case Stop => [S.Stop]
    case Queue(t) => [S.QueueTsbk(t)]
    case BeginBlock(_) => [S.Frame]
    case _ => []
  }

  function ScheduleOf(es: seq<Event>): seq<S.Event> {
    if es == [] then [] else ScheduleOf(es[..|es| - 1]) + Scheduled(es[|es| - 1])
  }

  lemma ChannelStep(p: Setup, es: seq<Event>, e: Event)
    requires Feasible(p, es + [e])
    ensures Feasible(p, es) && Final(p, es + [e]).channel == NextChannel(Final(p, es), e)
  {
    hide Enabled, NextChannel, RingSteps, NextDibits, NextPc, R.Apply, Feasible, Final, Trace;
    LastStep(p, es, e);
  }

  lemma ScheduleSnoc(c: S.Channel, es: seq<Event>, e: Event, s: State)
    requires s.channel == S.After(c, ScheduleOf(es))
    ensures S.After(c, ScheduleOf(es + [e])) == NextChannel(s, e)
  {
    hide S.Apply, S.After, NextChannel, Scheduled;
    assert (es + [e])[..|es|] == es;
    S.AfterJoin(c, ScheduleOf(es), Scheduled(e));
    ScheduledStep(s, e);
  }

  lemma ScheduledStep(s: State, e: Event)
    ensures S.After(s.channel, Scheduled(e)) == NextChannel(s, e)
  {
    hide S.Apply;
    if Scheduled(e) != [] {
      assert Scheduled(e)[..0] == [];
    }
  }

  /** The scheduler's part of a run is its history. */
  lemma {:induction false} ScheduleRuns(p: Setup, es: seq<Event>, on: seq<Event>)
    requires Feasible(p, es) && Feasible(p, es + on)
    ensures Final(p, es + on).channel == S.After(Final(p, es).channel, ScheduleOf(on))
    decreases |on|
  {
    hide Feasible, Final, Enabled, NextChannel, S.After, ScheduleOf;
    if on == [] {
      assert es + on == es;
      NothingScheduled(Final(p, es).channel);
    } else {
      var n := |on| - 1;
      assert es + on == es + on[..n] + [on[n]] && on == on[..n] + [on[n]];
      ChannelStep(p, es + on[..n], on[n]);
      ScheduleRuns(p, es, on[..n]);
      ScheduleSnoc(Final(p, es).channel, on[..n], on[n], Final(p, es + on[..n]));
    }
  }

  lemma NothingScheduled(c: S.Channel)
    ensures S.After(c, ScheduleOf([])) == c
  {
  }

  function BlocksBegun(es: seq<Event>): nat {
    if es == [] then 0 else BlocksBegun(es[..|es| - 1]) + if es[|es| - 1].BeginBlock? then 1 else 0
  }

  lemma OneScheduled(e: Event)
    requires !e.Start? && !e.Stop?
    ensures S.Uninterrupted(Scheduled(e))
    ensures S.FrameCount(Scheduled(e)) == if e.BeginBlock? then 1 else 0
  {
    if Scheduled(e) != [] {
      assert Scheduled(e)[..0] == [];
    }
  }

  lemma UninterruptedJoin(a: seq<S.Event>, b: seq<S.Event>)
    requires S.Uninterrupted(a) && S.Uninterrupted(b)
    ensures S.Uninterrupted(a + b)
  {
  }

  lemma {:induction false} ScheduleCounts(es: seq<Event>)
    requires Start !in es && Stop !in es
    ensures S.Uninterrupted(ScheduleOf(es)) && S.FrameCount(ScheduleOf(es)) == BlocksBegun(es)
    decreases |es|
  {
    hide S.Uninterrupted, S.FrameCount, Scheduled;
    if es == [] {
      NoneScheduled();
    } else {
      var n := |es| - 1;
      ScheduleCounts(es[..n]);
      OneScheduled(es[n]);
      UninterruptedJoin(ScheduleOf(es[..n]), Scheduled(es[n]));
      S.FrameCountJoin(ScheduleOf(es[..n]), Scheduled(es[n]));
    }
  }

  lemma NoneScheduled()
    ensures S.Uninterrupted([]) && S.FrameCount([]) == 0
  {
  }

  // ----- an accepted block is heard

  /** Frame k carries t, and the hardware hears it. */
  predicate HeardAt(p: Setup, s: State, k: nat, t: Pdu) {
    && k < |s.channel.aired| == |s.clocks|
    && s.channel.aired[k] == S.Action(t)
    && FrameOf(p, s.channel.aired[k], s.clocks[k]) == TsbkFrame(p.cfg.nac, t)
    && Hears(p, s, k)
  }

  /** A running channel with room in its queue takes t, and on it goes without a stop for 160 blocks or more. */
  ghost predicate Accepted(p: Setup, es: seq<Event>, t: Pdu, on: seq<Event>) {
    && Feasible(p, es) && Feasible(p, es + [Queue(t)] + on)
    && Final(p, es).channel.running && |Final(p, es).channel.queue| < 128
    && Start !in on && Stop !in on && BlocksBegun(on) >= 160
  }

  lemma AcceptedRuns(p: Setup, es: seq<Event>, t: Pdu, on: seq<Event>)
    requires Accepted(p, es, t, on)
    ensures Feasible(p, es + [Queue(t)])
    ensures Final(p, es + [Queue(t)]).channel == S.Apply(Final(p, es).channel, S.QueueTsbk(t))
    ensures Final(p, es + [Queue(t)] + on).channel
         == S.After(S.Apply(Final(p, es).channel, S.QueueTsbk(t)), ScheduleOf(on))
  {
    hide Feasible, Final, S.After, S.Apply, ScheduleOf;
    FeasiblePrefix(p, es + [Queue(t)], on);
    ChannelStep(p, es, Queue(t));
    ScheduleRuns(p, es + [Queue(t)], on);
  }

  lemma {:induction false} FeasiblePrefix(p: Setup, es: seq<Event>, on: seq<Event>)
    requires Feasible(p, es + on)
    ensures Feasible(p, es)
    decreases |on|
  {
    hide Feasible, Final, Enabled;
    if on == [] {
      assert es + on == es;
    } else {
      assert es + on == es + on[..|on| - 1] + [on[|on| - 1]];
      ChannelStep(p, es + on[..|on| - 1], on[|on| - 1]);
      FeasiblePrefix(p, es, on[..|on| - 1]);
    }
  }

  /** A block accepted in a run is, once 160 blocks have been begun since without a stop, that of some frame sent
      since; and the hardware hears its samples at that frame's place. */
  lemma AcceptedIsHeard(p: Setup, es: seq<Event>, t: Pdu, on: seq<Event>) returns (k: nat)
    requires Accepted(p, es, t, on)
    ensures k >= |Final(p, es).channel.aired| && HeardAt(p, Final(p, es + [Queue(t)] + on), k, t)
  {
    hide Feasible, Final, Hears, TsbkFrame, S.Inv, S.After, S.Apply, S.Uninterrupted, S.FrameCount, ScheduleOf;
    hide BlocksBegun;
    var before, s := Final(p, es).channel, Final(p, es + [Queue(t)] + on);
    RunCarried(p, es);
    AcceptedRuns(p, es, t, on);
    ScheduleCounts(on);
    EndToEnd.QueuedIsSent(before, t, ScheduleOf(on));
    k :| |before.aired| <= k < |s.channel.aired| && s.channel.aired[k] == S.Action(t);
    FrameHeard(p, es + [Queue(t)] + on, k);
  }

  /** What hearing a framed request does to a channel is to queue t. */
  predicate AnsweredBy(c: S.Channel, air: seq<dibit>, sysId: bv16, t: Pdu) {
    EndToEnd.Handled(c, air, sysId) == S.Apply(c, S.QueueTsbk(t))
  }

  predicate IsResponse(raw: Pdu, sysId: bv16, t: Pdu) { Response(Opcode(raw), raw, sysId) == Some(t) }

  /** So the answer to an affiliation request that the site hears with room in its queue: it names the radio's
      talkgroup and unit, it is carried by a frame that radios can read, and the hardware hears that frame. */
  lemma AffiliationHeard(p: Setup, es: seq<Event>, nac: bv16, tgid: bv16, srcId: bv32, t: Pdu, on: seq<Event>)
      returns (k: nat)
    requires Accepted(p, es, t, on)
    requires IsResponse(BuildGrpAffReq(tgid, srcId), p.cfg.sysId, t)
    ensures AnsweredBy(Final(p, es).channel, TsbkFrame(nac, BuildGrpAffReq(tgid, srcId)), p.cfg.sysId, t)
    ensures AffiliationAnswer(t, tgid, srcId)
    ensures Receive(TsbkFrame(p.cfg.nac, t)) == Some(Received(p.cfg.nac & 0xfff, 7, t))
    ensures HeardAt(p, Final(p, es + [Queue(t)] + on), k, t)
  {
    hide Feasible, Final, HeardAt, TsbkFrame, Receive, S.Apply, BlocksBegun, AffiliationAnswer, Response, Opcode;
    hide CrcOk, PassedOn, BuildRequest, GroupArgs;
    AffiliationAnswered(tgid, srcId, p.cfg.sysId);
    RequestPassedOn(ISP_GRP_AFF_REQ, GroupArgs(0, tgid, srcId));
    EndToEnd.RequestHeard(nac, ISP_GRP_AFF_REQ, GroupArgs(0, tgid, srcId));
    k := AcceptedIsHeard(p, es, t, on);
    AnswerIsGood(t, tgid, srcId);
    EndToEnd.AnswerHeard(p.cfg.nac, t);
  }

  lemma AnswerIsGood(t: Pdu, tgid: bv16, srcId: bv32)
    requires AffiliationAnswer(t, tgid, srcId)
    ensures CrcOk(t)
  {
    hide CrcOk, Args, ReadAffiliationResponse;
  }
}
