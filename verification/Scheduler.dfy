/** The control channel's frame scheduler (src/tx/ControlChannel.cpp) as a state machine over whole histories. */
module Scheduler {
  import opened Tsbk

  const BURST_LEN := 5
  const QUEUE_LIMIT := 128
  const LOG_LIMIT := 500

  /** What a frame carries. */
  datatype Sent = System(idx: nat) | Action(tsbk: Pdu) | Tdu

  /** The channel's state; then history: every block accepted, every frame ever sent, the blocks of the
      present run, where that run began in aired, and every log message. */
  datatype Channel = Channel(
    queue: seq<Pdu>, log: seq<string>, running: bool, frameCount: nat, sysIdx: nat, frameN: nat,
    accepted: seq<Pdu>, aired: seq<Sent>, frames: seq<Sent>, began: nat, messages: seq<string>)

  /** Stop is the return of stop(), which waits for the producer's turn in progress. */
  datatype Event = QueueTsbk(t: Pdu) | Frame | Start | Stop

  const FRESH := Channel([], [], false, 0, 0, 0, [], [], [], 0, [])

  function SysName(idx: nat): string {
    if idx == 0 then "IDEN_UP" else if idx == 1 then "NET_STS" else if idx == 2 then "RFSS_STS"
    else if idx == 3 then "ADJ_STS" else "SYNC"
  }

  function LogLine(f: Sent): string {
    match f
    case System(idx) => "SYS " + SysName(idx)
    case Action(_) => "ACT TSBK"
    case Tdu => ""
  }

  /** Append, and forget the oldest entry beyond the limit. */
  function AddLog(log: seq<string>, msg: string): seq<string> {
    var l := log + [msg];
    if |l| > LOG_LIMIT then l[1..] else l
  }

  /** The next frame: a system message in every fifth slot and whenever nothing is queued. */
  function Chosen(s: Channel): Sent {
    if s.frameN % BURST_LEN == 0 || s.queue == [] then System(s.sysIdx % BURST_LEN) else Action(s.queue[0])
  }

  function Apply(s: Channel, e: Event): Channel {
    match e
    case QueueTsbk(t) =>
      if |s.queue| < QUEUE_LIMIT then s.(queue := s.queue + [t], accepted := s.accepted + [t]) else s
    case Start =>
      if s.running then s
      else s.(running := true, frameCount := 0, sysIdx := 0, frameN := 0, frames := [], began := |s.aired|)
    case Stop => s.(running := false)
    case Frame =>
      if !s.running then s
      else
        var f := Chosen(s);
        s.(queue := if f.Action? then s.queue[1..] else s.queue,
           sysIdx := if f.System? then s.sysIdx + 1 else s.sysIdx,
           frameN := s.frameN + 1,
           frameCount := s.frameCount + 1,
           aired := s.aired + [f] + (if (s.frameN + 1) % BURST_LEN == 0 then [Tdu] else []),
           frames := s.frames + [f],
           log := AddLog(s.log, LogLine(f)),
           messages := s.messages + [LogLine(f)])
  }

  /** The state after a history. */
  function After(s: Channel, es: seq<Event>): Channel
    decreases |es|
  {
    if es == [] then s else Apply(After(s, es[..|es| - 1]), es[|es| - 1])
  }

  // ----- what every step keeps

  /** The queued blocks among some frames, in order. */
  function Actions(fs: seq<Sent>): seq<Pdu> {
    if fs == [] then []
    else
      var n := |fs| - 1;
      Actions(fs[..n]) + if fs[n].Action? then [fs[n].tsbk] else []
  }

  function SystemCount(fs: seq<Sent>): nat {
    if fs == [] then 0
    else
      var n := |fs| - 1;
      SystemCount(fs[..n]) + if fs[n].System? then 1 else 0
  }

  /** Block frames with a terminator after every fifth. */
  function WithTdus(fs: seq<Sent>): seq<Sent> {
    if fs == [] then []
    else
      var n := |fs| - 1;
      WithTdus(fs[..n]) + [fs[n]] + if |fs| % BURST_LEN == 0 then [Tdu] else []
  }

  function LastOf<T>(xs: seq<T>, n: nat): seq<T> { if |xs| > n then xs[|xs| - n..] else xs }

  /** System messages come in turn, one at least in every fifth frame. */
  ghost predicate RoundRobin(fs: seq<Sent>) {
    forall j :: 0 <= j < |fs| ==>
      && !fs[j].Tdu?
      && (fs[j].System? ==> fs[j].idx == SystemCount(fs[..j]) % BURST_LEN)
      && (j % BURST_LEN == 0 ==> fs[j].System?)
  }

  ghost predicate Inv(s: Channel) {
    && |s.queue| <= 128
    && s.accepted == Actions(s.aired) + s.queue
    && s.frameN == s.frameCount == |s.frames| && s.sysIdx == SystemCount(s.frames)
    && RoundRobin(s.frames)
    && s.began <= |s.aired| && s.aired[s.began..] == WithTdus(s.frames)
    && s.log == LastOf(s.messages, 500)
  }

  lemma ActionsSnoc(fs: seq<Sent>, f: Sent)
    ensures Actions(fs + [f]) == Actions(fs) + if f.Action? then [f.tsbk] else []
    ensures SystemCount(fs + [f]) == SystemCount(fs) + if f.System? then 1 else 0
    ensures WithTdus(fs + [f]) == WithTdus(fs) + [f] + if (|fs| + 1) % BURST_LEN == 0 then [Tdu] else []
  {
    assert (fs + [f])[..|fs|] == fs;
  }

  lemma FrameActions(s: Channel)
    requires s.running
    ensures Actions(Apply(s, Frame).aired)
         == Actions(s.aired) + if Chosen(s).Action? then [Chosen(s).tsbk] else []
  {
    hide Chosen, LogLine, AddLog;
    var f := Chosen(s);
    ActionsSnoc(s.aired, f);
    ActionsSnoc(s.aired + [f], Tdu);
    assert s.aired + [f] + [] == s.aired + [f];
  }

  lemma FrameQueue(s: Channel)
    requires s.running && s.accepted == Actions(s.aired) + s.queue
    ensures Apply(s, Frame).accepted == Actions(Apply(s, Frame).aired) + Apply(s, Frame).queue
  {
    hide Actions;
    FrameActions(s);
    if Chosen(s).Action? {
      assert s.queue == [s.queue[0]] + s.queue[1..];
    }
  }

  lemma FrameRotation(s: Channel)
    requires s.running && Inv(s)
    ensures RoundRobin(Apply(s, Frame).frames)
    ensures Apply(s, Frame).sysIdx == SystemCount(Apply(s, Frame).frames)
  {
    var f, fs := Chosen(s), s.frames;
    ActionsSnoc(fs, f);
    forall j | 0 <= j < |fs| + 1
      ensures (fs + [f])[..j] == fs[..j]
    {
    }
  }

  lemma FrameAired(s: Channel)
    requires s.running && Inv(s)
    ensures
      var s' := Apply(s, Frame);
      s'.began <= |s'.aired| && s'.aired[s'.began..] == WithTdus(s'.frames)
  {
    var f := Chosen(s);
    ActionsSnoc(s.frames, f);
    var tail := if (s.frameN + 1) % BURST_LEN == 0 then [Tdu] else [];
    assert (s.aired + [f] + tail)[s.began..] == s.aired[s.began..] + [f] + tail;
  }

  lemma LogKept(log: seq<string>, messages: seq<string>, msg: string)
    requires log == LastOf(messages, 500)
    ensures AddLog(log, msg) == LastOf(messages + [msg], 500)
  {
    if |messages| > 500 {
      var n := |messages| - 500;
      assert (messages[n..] + [msg])[1..] == (messages + [msg])[n + 1..];
    }
  }

  lemma FrameCounts(s: Channel)
    requires s.running && |s.queue| <= 128 && s.frameN == s.frameCount == |s.frames|
    requires s.log == LastOf(s.messages, 500)
    ensures
      var s' := Apply(s, Frame);
      && |s'.queue| <= 128 && s'.frameN == s'.frameCount == |s'.frames|
      && s'.log == LastOf(s'.messages, 500)
  {
    hide LogLine, AddLog, LastOf;
    LogKept(s.log, s.messages, LogLine(Chosen(s)));
  }

  lemma FrameKeeps(s: Channel)
    requires Inv(s) && s.running
    ensures Inv(Apply(s, Frame))
  {
    hide Apply, Actions, WithTdus, RoundRobin, SystemCount;
    FrameQueue(s);
    FrameRotation(s);
    FrameAired(s);
    FrameCounts(s);
  }

  lemma StartKeeps(s: Channel)
    requires Inv(s)
    ensures Inv(Apply(s, Start))
  {
    hide Actions;
    assert s.aired[|s.aired|..] == [];
  }

  lemma QueueKeeps(s: Channel, t: Pdu)
    requires Inv(s)
    ensures Inv(Apply(s, QueueTsbk(t)))
  {
    hide Actions, WithTdus, RoundRobin, SystemCount;
  }

  lemma StopKeeps(s: Channel)
    requires Inv(s)
    ensures Inv(Apply(s, Stop))
  {
    hide Actions, WithTdus, RoundRobin, SystemCount;
  }

  lemma StillStopped(s: Channel)
    requires !s.running
    ensures Apply(s, Frame) == s
  {
  }

  lemma StepInv(s: Channel, e: Event)
    requires Inv(s)
    ensures Inv(Apply(s, e))
  {
    hide Inv, Apply;
    match e
    case QueueTsbk(t) => QueueKeeps(s, t);
    case Start => StartKeeps(s);
    case Stop => StopKeeps(s);
    case Frame =>
      if s.running {
        FrameKeeps(s);
      } else {
        StillStopped(s);
      }
  }

  /** So every history keeps it. */
  lemma {:induction false} HistoryInv(es: seq<Event>)
    ensures Inv(After(FRESH, es))
    decreases |es|
  {
    hide Inv, Apply;
    if es == [] {
      FreshInv();
    } else {
      HistoryInv(es[..|es| - 1]);
      StepInv(After(FRESH, es[..|es| - 1]), es[|es| - 1]);
    }
  }

  lemma FreshInv()
    ensures Inv(FRESH)
  {
  }

  // ----- conservation

  /** Over any history: accepted blocks are those sent, in order and once each, followed by those queued;
      the queue keeps its bound; and the present run is block frames with a terminator after every fifth. */
  lemma Conservation(es: seq<Event>)
    ensures
      var s := After(FRESH, es);
      && s.accepted == Actions(s.aired) + s.queue
      && |s.queue| <= 128
      && s.began <= |s.aired| && s.aired[s.began..] == WithTdus(s.frames)
      && |s.aired| - s.began == |s.frames| + |s.frames| / 5
      && s.log == LastOf(s.messages, 500)
  {
    HistoryInv(es);
    TduCount(After(FRESH, es).frames);
  }

  lemma {:induction false} TduCount(fs: seq<Sent>)
    ensures |WithTdus(fs)| == |fs| + |fs| / BURST_LEN
  {
    if fs != [] {
      TduCount(fs[..|fs| - 1]);
    }
  }

  // ----- fairness

  lemma SystemCountStep(fs: seq<Sent>, j: nat)
    requires j < |fs|
    ensures SystemCount(fs[..j + 1]) == SystemCount(fs[..j]) + if fs[j].System? then 1 else 0
  {
    assert fs[..j + 1] == fs[..j] + [fs[j]];
    ActionsSnoc(fs[..j], fs[j]);
  }

  /** The m-th system message of a run is found where the count passes m. */
  lemma {:induction false} NthSystem(fs: seq<Sent>, lo: nat, hi: nat, m: nat) returns (j: nat)
    requires lo <= hi <= |fs| && SystemCount(fs[..lo]) <= m < SystemCount(fs[..hi])
    ensures lo <= j < hi && fs[j].System? && SystemCount(fs[..j]) == m
    decreases hi - lo
  {
    SystemCountStep(fs, hi - 1);
    if m < SystemCount(fs[..hi - 1]) {
      j := NthSystem(fs, lo, hi - 1, m);
    } else {
      j := hi - 1;
    }
  }

  lemma {:induction false} SystemCountGrows(fs: seq<Sent>, lo: nat, hi: nat)
    requires lo <= hi <= |fs|
    ensures SystemCount(fs[..lo]) <= SystemCount(fs[..hi]) <= SystemCount(fs[..lo]) + (hi - lo)
    ensures (forall j :: lo <= j < hi ==> fs[j].System?) ==> SystemCount(fs[..hi]) == SystemCount(fs[..lo]) + (hi - lo)
    decreases hi - lo
  {
    if lo < hi {
      SystemCountGrows(fs, lo, hi - 1);
      SystemCountStep(fs, hi - 1);
    }
  }

  lemma BurstOpens(fs: seq<Sent>, j: nat)
    requires RoundRobin(fs) && j < |fs| && j % BURST_LEN == 0
    ensures fs[j].System?
  {
  }

  lemma NextOpening(k: nat) returns (j: nat)
    ensures k <= j < k + BURST_LEN && j % BURST_LEN == 0
  {
    j := (k + 4) / BURST_LEN * BURST_LEN;
  }

  lemma OnePerBurst(fs: seq<Sent>, k: nat)
    requires RoundRobin(fs) && k + BURST_LEN <= |fs|
    ensures SystemCount(fs[..k + BURST_LEN]) > SystemCount(fs[..k])
  {
    hide RoundRobin, SystemCount;
    var j := NextOpening(k);
    BurstOpens(fs, j);
    SystemCountStep(fs, j);
    SystemCountGrows(fs, k, j);
    SystemCountGrows(fs, j + 1, k + BURST_LEN);
  }

  lemma TurnOf(c: nat, idx: nat) returns (m: nat)
    requires idx < BURST_LEN
    ensures c <= m < c + BURST_LEN && m % BURST_LEN == idx
  {
    m := c + (idx - c % BURST_LEN + BURST_LEN) % BURST_LEN;
  }

  lemma InTurn(fs: seq<Sent>, j: nat)
    requires RoundRobin(fs) && j < |fs| && fs[j].System?
    ensures fs[j] == System(SystemCount(fs[..j]) % BURST_LEN)
  {
    hide SystemCount;
  }

  lemma AllFive(fs: seq<Sent>, lo: nat, hi: nat, idx: nat) returns (j: nat)
    requires RoundRobin(fs) && lo <= hi <= |fs| && idx < BURST_LEN
    requires SystemCount(fs[..hi]) >= SystemCount(fs[..lo]) + BURST_LEN
    ensures lo <= j < hi && fs[j] == System(idx)
  {
    hide RoundRobin, SystemCount;
    var m := TurnOf(SystemCount(fs[..lo]), idx);
    j := NthSystem(fs, lo, hi, m);
    InTurn(fs, j);
  }

  ghost predicate Carries(fs: seq<Sent>, lo: nat, hi: nat, idx: nat) {
    hi <= |fs| && exists j :: lo <= j < hi && fs[j] == System(idx)
  }

  /** Frames lo up to hi carry each of the five system messages. */
  ghost predicate HasAll(fs: seq<Sent>, lo: nat, hi: nat) {
    forall idx :: 0 <= idx < BURST_LEN ==> Carries(fs, lo, hi, idx)
  }

  lemma TurnsDiffer(c: nat, n: nat)
    requires c <= n < c + 4
    ensures n % BURST_LEN != (c + 4) % BURST_LEN
  {
  }

  /** The message whose turn comes after four others is missing. */
  lemma FifthMissing(fs: seq<Sent>, lo: nat, hi: nat, j: nat)
    requires RoundRobin(fs) && lo <= j < hi <= |fs|
    requires SystemCount(fs[..hi]) < SystemCount(fs[..lo]) + BURST_LEN
    ensures fs[j] != System((SystemCount(fs[..lo]) + 4) % BURST_LEN)
  {
    hide RoundRobin, SystemCount;
    SystemCountGrows(fs, lo, j);
    SystemCountStep(fs, j);
    SystemCountGrows(fs, j + 1, hi);
    if fs[j].System? {
      InTurn(fs, j);
      TurnsDiffer(SystemCount(fs[..lo]), SystemCount(fs[..j]));
    }
  }

  /** A window carries all five system messages exactly when it carries five of any kind. */
  lemma WindowComplete(fs: seq<Sent>, lo: nat, hi: nat)
    requires RoundRobin(fs) && lo <= hi <= |fs|
    ensures HasAll(fs, lo, hi) <==> SystemCount(fs[..hi]) >= SystemCount(fs[..lo]) + BURST_LEN
  {
    hide SystemCount, RoundRobin;
    if SystemCount(fs[..hi]) >= SystemCount(fs[..lo]) + BURST_LEN {
      forall idx: nat | idx < BURST_LEN
        ensures Carries(fs, lo, hi, idx)
      {
        var j := AllFive(fs, lo, hi, idx);
      }
    } else {
      var last := (SystemCount(fs[..lo]) + 4) % BURST_LEN;
      forall j | lo <= j < hi
        ensures fs[j] != System(last)
      {
        FifthMissing(fs, lo, hi, j);
      }
      assert !Carries(fs, lo, hi, last);
    }
  }

  lemma WindowOfFive(fs: seq<Sent>, k: nat)
    requires RoundRobin(fs) && k + BURST_LEN <= |fs|
    ensures SystemCount(fs[..k + BURST_LEN]) >= SystemCount(fs[..k]) + BURST_LEN
       <==> forall j :: k <= j < k + BURST_LEN ==> !fs[j].Action?
  {
    hide SystemCount;
    if forall j :: k <= j < k + BURST_LEN ==> !fs[j].Action? {
      SystemCountGrows(fs, k, k + BURST_LEN);
    } else {
      var j :| k <= j < k + BURST_LEN && fs[j].Action?;
      SystemCountGrows(fs, k, j);
      SystemCountStep(fs, j);
      SystemCountGrows(fs, j + 1, k + BURST_LEN);
    }
  }

  function AsActions(q: seq<Pdu>): seq<Sent> { seq(|q|, i requires 0 <= i < |q| => Action(q[i])) }

  function Frames(k: nat): seq<Event> { seq(k, i => Frame) }

  lemma AfterFrames(s: Channel, k: nat)
    ensures After(s, Frames(0)) == s
    ensures k > 0 ==> After(s, Frames(k)) == Apply(After(s, Frames(k - 1)), Frame)
  {
    hide Apply;
    if k > 0 {
      assert Frames(k)[..k - 1] == Frames(k - 1);
    }
  }

  /** A burst begun with four blocks queued carries one system message only. */
  lemma {:induction false} BusyBurst(s: Channel, k: nat)
    requires s.running && s.frameN % BURST_LEN == 0 && |s.queue| >= 4 && 1 <= k <= BURST_LEN
    ensures
      var s' := After(s, Frames(k));
      && s'.running && s'.frameN == s.frameN + k && s'.queue == s.queue[k - 1..]
      && s'.frames == s.frames + [System(s.sysIdx % BURST_LEN)] + AsActions(s.queue[..k - 1])
  {
    hide After, Apply, Frames;
    AfterFrames(s, k);
    if k > 1 {
      BusyBurst(s, k - 1);
      assert s.queue[..k - 1] == s.queue[..k - 2] + [s.queue[k - 2]];
    } else {
      AfterFrames(s, 0);
    }
    OneFrame(After(s, Frames(k - 1)));
  }

  lemma OneFrame(s: Channel)
    requires s.running
    ensures
      var s', f := Apply(s, Frame), Chosen(s);
      && s'.running && s'.frameN == s.frameN + 1 && s'.frames == s.frames + [f]
      && s'.queue == if f.Action? then s.queue[1..] else s.queue
  {
    hide Chosen;
  }

  lemma WindowHasAll(fs: seq<Sent>, k: nat, n: nat)
    requires RoundRobin(fs) && k + n <= |fs|
    requires n >= 25 || (n >= 5 && forall j :: k <= j < k + n ==> fs[j].System?)
    ensures HasAll(fs, k, k + n)
  {
    hide RoundRobin, SystemCount, HasAll;
    if n >= 25 {
      OnePerBurst(fs, k);
      OnePerBurst(fs, k + 5);
      OnePerBurst(fs, k + 10);
      OnePerBurst(fs, k + 15);
      OnePerBurst(fs, k + 20);
      SystemCountGrows(fs, k + 25, k + n);
    } else {
      SystemCountGrows(fs, k, k + n);
    }
    WindowComplete(fs, k, k + n);
  }

  /** Within any 25 consecutive block frames of a run all five system messages are sent, however busy the
      queue. */
  lemma Fairness(es: seq<Event>, k: nat, n: nat)
    requires k + n <= |After(FRESH, es).frames| && n >= 25
    ensures HasAll(After(FRESH, es).frames, k, k + n)
  {
    hide After, RoundRobin, Actions, WithTdus, SystemCount, HasAll;
    HistoryInv(es);
    WindowHasAll(After(FRESH, es).frames, k, n);
  }

  // ----- latency

  /** How many of the k slots from slot f on are open to queued blocks. */
  function OpenSlots(f: nat, k: nat): (n: nat)
    ensures n <= k
  {
    if k == 0 then 0 else OpenSlots(f, k - 1) + if (f + k - 1) % BURST_LEN != 0 then 1 else 0
  }

  function FrameCount(es: seq<Event>): (n: nat)
  {
    if es == [] then 0 else FrameCount(es[..|es| - 1]) + if es[|es| - 1].Frame? then 1 else 0
  }

  /** No start or stop. */
  predicate Uninterrupted(es: seq<Event>) {
    forall i :: 0 <= i < |es| ==> es[i].QueueTsbk? || es[i].Frame?
  }

  lemma AcceptedParts(s: Channel)
    requires Inv(s)
    ensures s.accepted == Actions(s.aired) + s.queue
  {
    hide Actions, RoundRobin, WithTdus, SystemCount;
  }

  /** In a run, every open slot with a queue behind it sends one queued block, and nothing else does. */
  lemma StepSends(s: Channel, e: Event)
    requires s.running && (e.QueueTsbk? || e.Frame?)
    ensures
      var s' := Apply(s, e);
      && s'.running && s.accepted <= s'.accepted
      && s'.frameN == s.frameN + (if e.Frame? then 1 else 0)
      && |Actions(s'.aired)|
           == |Actions(s.aired)| + if e.Frame? && s.frameN % BURST_LEN != 0 && |s.queue| > 0 then 1 else 0
  {
    hide Actions, AddLog, LogLine;
    if e.Frame? {
      FrameActions(s);
    }
  }

  lemma FramesSend(s: Channel, e: Event)
    requires s.running && (e.QueueTsbk? || e.Frame?)
    ensures
      var s' := Apply(s, e);
      && s.frames <= s'.frames && |s'.frames| == |s.frames| + (if e.Frame? then 1 else 0)
      && |Actions(s'.frames)| - |Actions(s.frames)| == |Actions(s'.aired)| - |Actions(s.aired)|
  {
    hide Actions, AddLog, LogLine, Chosen;
    if e.Frame? {
      FrameActions(s);
      ActionsSnoc(s.frames, Chosen(s));
    }
  }

  /** What an uninterrupted stretch of a run adds. */
  lemma {:induction false} RunExtends(s: Channel, es: seq<Event>)
    requires Inv(s) && s.running && Uninterrupted(es)
    ensures
      var s' := After(s, es);
      && Inv(s') && s'.running && s'.frameN == s.frameN + FrameCount(es)
      && s.frames <= s'.frames && |s'.frames| == |s.frames| + FrameCount(es)
      && s.accepted <= s'.accepted
      && |Actions(s'.frames)| - |Actions(s.frames)| == |Actions(s'.aired)| - |Actions(s.aired)| >= 0
    decreases |es|
  {
    hide Inv, Apply, Actions;
    if es != [] {
      var m := |es| - 1;
      RunExtends(s, es[..m]);
      var s1 := After(s, es[..m]);
      StepInv(s1, es[m]);
      StepSends(s1, es[m]);
      FramesSend(s1, es[m]);
    }
  }

  // ----- bursts, from what is queued

  /** Nothing is queued, at first or on the way. */
  predicate Quiet(s: Channel, es: seq<Event>) {
    s.queue == [] && forall i :: 0 <= i < |es| ==> !es[i].QueueTsbk?
  }

  lemma {:induction false} QuietFrames(s: Channel, es: seq<Event>)
    requires s.running && Uninterrupted(es) && Quiet(s, es)
    ensures
      var s' := After(s, es);
      && s'.running && s'.queue == [] && |s.frames| <= |s'.frames|
      && forall j :: |s.frames| <= j < |s'.frames| ==> s'.frames[j].System?
    decreases |es|
  {
    if es != [] {
      QuietFrames(s, es[..|es| - 1]);
    }
  }

  lemma {:induction false} NoActions(fs: seq<Sent>, k: nat)
    requires k <= |fs| && forall j :: k <= j < |fs| ==> !fs[j].Action?
    ensures Actions(fs) == Actions(fs[..k])
    decreases |fs|
  {
    if k == |fs| {
      assert fs[..k] == fs;
    } else {
      var n := |fs| - 1;
      NoActions(fs[..n], k);
      assert fs[..n][..k] == fs[..k];
    }
  }

  /** Otherwise more blocks are accepted than had been sent. */
  lemma {:induction false} SomeWaiting(s: Channel, es: seq<Event>)
    requires Inv(s) && s.running && Uninterrupted(es) && !Quiet(s, es)
    ensures |After(s, es).accepted| > |Actions(s.aired)|
    decreases |es|
  {
    hide Inv, Actions, AddLog, LogLine, Chosen;
    AcceptedParts(s);
    if es != [] {
      var m := |es| - 1;
      RunExtends(s, es[..m]);
      if Quiet(s, es[..m]) {
        QuietFrames(s, es[..m]);
      } else {
        SomeWaiting(s, es[..m]);
      }
    }
  }

  /** A full burst, of five frames from a mandatory slot on, carries all five system messages exactly when
      nothing was queued when it began and nothing was queued before its last frame. The comment in the source
      promises it of every burst. */
  lemma BurstExactly(s: Channel, es: seq<Event>)
    requires Inv(s) && s.running && s.frameN % BURST_LEN == 0 && Uninterrupted(es)
    requires FrameCount(es) == BURST_LEN && es[|es| - 1].Frame?
    ensures HasAll(After(s, es).frames, |s.frames|, |s.frames| + BURST_LEN) <==> Quiet(s, es)
  {
    hide Inv, Actions, Apply, After, HasAll, Quiet, Uninterrupted, RoundRobin, SystemCount, FrameCount;
    RunExtends(s, es);
    var s', k := After(s, es), |s.frames|;
    InvRotates(s');
    WindowComplete(s'.frames, k, k + BURST_LEN);
    WindowOfFive(s'.frames, k);
    if Quiet(s, es) {
      QuietFrames(s, es);
    } else if forall j :: k <= j < k + BURST_LEN ==> !s'.frames[j].Action? {
      NoActions(s'.frames, k);
      assert s'.frames[..k] == s.frames;
      LastSlotSends(s, es);
    }
  }

  lemma InvRotates(s: Channel)
    requires Inv(s)
    ensures RoundRobin(s.frames)
  {
  }

  /** The last slot of a burst sends a block if one is waiting, so a burst that is not quiet sends one. */
  lemma LastSlotSends(s: Channel, es: seq<Event>)
    requires Inv(s) && s.running && s.frameN % BURST_LEN == 0 && Uninterrupted(es) && !Quiet(s, es)
    requires FrameCount(es) == BURST_LEN && es[|es| - 1].Frame?
    ensures |Actions(After(s, es).aired)| > |Actions(s.aired)|
  {
    hide Inv, Actions, Apply;
    var before := es[..|es| - 1];
    var s1 := After(s, before);
    RunExtends(s, before);
    assert !Quiet(s, before);
    SomeWaiting(s, before);
    StepSends(s1, Frame);
    AcceptedParts(s1);
  }

  /** Five frames in which nothing is queued carry all five, wherever they begin. */
  lemma IdleFairness(s: Channel, es: seq<Event>)
    requires Inv(s) && s.running && Uninterrupted(es) && Quiet(s, es) && FrameCount(es) >= BURST_LEN
    ensures HasAll(After(s, es).frames, |s.frames|, |s.frames| + FrameCount(es))
  {
    hide Inv, Actions, Apply, HasAll, After, Uninterrupted, Quiet;
    RunExtends(s, es);
    QuietFrames(s, es);
    InvRotates(After(s, es));
    WindowHasAll(After(s, es).frames, |s.frames|, FrameCount(es));
  }

  // ----- starting and stopping

  lemma {:induction false} StillBegan(s: Channel, es: seq<Event>)
    requires s.running && Uninterrupted(es)
    ensures After(s, es).running && After(s, es).began == s.began && s.aired <= After(s, es).aired
    decreases |es|
  {
    hide Chosen, LogLine, AddLog;
    if es != [] {
      StillBegan(s, es[..|es| - 1]);
    }
  }

  /** A run begins afresh, whatever was sent before: with the first system message, and what it sends is its block
      frames with a terminator after every fifth. */
  lemma StartsAfresh(s: Channel, es: seq<Event>)
    requires Inv(s) && !s.running && Uninterrupted(es)
    ensures
      var s' := After(Apply(s, Start), es);
      && s'.running && s'.aired == s.aired + WithTdus(s'.frames)
      && |s'.frames| == s'.frameCount == FrameCount(es)
      && (FrameCount(es) > 0 ==> s'.frames[0] == System(0))
  {
    hide Inv, After, Actions, WithTdus, FrameCount, Uninterrupted;
    var started := Apply(s, Start);
    StepInv(s, Start);
    RunExtends(started, es);
    StillBegan(started, es);
    var s' := After(started, es);
    InvAired(s');
    InvRotates(s');
    assert s'.aired == s'.aired[..|s.aired|] + s'.aired[|s.aired|..];
    if |s'.frames| > 0 {
      FirstIsFirst(s'.frames);
    }
  }

  lemma InvAired(s: Channel)
    requires Inv(s)
    ensures s.began <= |s.aired| && s.aired[s.began..] == WithTdus(s.frames)
    ensures s.frameCount == s.frameN == |s.frames|
  {
  }

  lemma FirstIsFirst(fs: seq<Sent>)
    requires RoundRobin(fs) && fs != []
    ensures fs[0] == System(0)
  {
    assert fs[..0] == [];
  }

  /** A channel that is not running sends nothing until it is started, and takes blocks as ever. */
  lemma {:induction false} StoppedIsSilent(s: Channel, es: seq<Event>)
    requires !s.running && Start !in es
    ensures
      var s' := After(s, es);
      && !s'.running && s'.aired == s.aired && s'.log == s.log
      && s.queue <= s'.queue && |s'.queue| - |s.queue| == |s'.accepted| - |s.accepted|
    decreases |es|
  {
    if es != [] {
      StoppedIsSilent(s, es[..|es| - 1]);
    }
  }

  lemma {:induction false} AfterJoin(s: Channel, a: seq<Event>, b: seq<Event>)
    ensures After(s, a + b) == After(After(s, a), b)
    decreases |b|
  {
    hide Apply;
    if b == [] {
      assert a + b == a;
    } else {
      AfterJoin(s, a, b[..|b| - 1]);
      assert (a + b)[..|a + b| - 1] == a + b[..|b| - 1];
    }
  }

  lemma {:induction false} CountFrames(k: nat)
    ensures FrameCount(Frames(k)) == k
  {
    if k > 0 {
      CountFrames(k - 1);
      assert Frames(k)[..k - 1] == Frames(k - 1);
    }
  }

  lemma {:induction false} FrameCountJoin(a: seq<Event>, b: seq<Event>)
    ensures FrameCount(a + b) == FrameCount(a) + FrameCount(b)
    decreases |b|
  {
    if b == [] {
      assert a + b == a;
    } else {
      FrameCountJoin(a, b[..|b| - 1]);
      assert (a + b)[..|a + b| - 1] == a + b[..|b| - 1];
    }
  }

  lemma NoFrameQueued(t: Pdu)
    ensures FrameCount([QueueTsbk(t)]) == 0
  {
    assert [QueueTsbk(t)][..0] == [];
  }

  lemma Started()
    ensures
      var s := After(FRESH, [Start]);
      s.running && s.frameN == 0 && s.frames == []
  {
    assert [Start][..0] == [];
  }

  /** The promise fails of the first burst after a start if a single block is queued beforehand. */
  lemma OneBlockBreaksBurst(t: Pdu)
    ensures !HasAll(After(FRESH, [Start] + ([QueueTsbk(t)] + Frames(BURST_LEN))).frames, 0, BURST_LEN)
  {
    hide Inv, Apply, HasAll, After, FrameCount;
    var es := [QueueTsbk(t)] + Frames(BURST_LEN);
    AfterJoin(FRESH, [Start], es);
    HistoryInv([Start]);
    Started();
    CountFrames(BURST_LEN);
    NoFrameQueued(t);
    FrameCountJoin([QueueTsbk(t)], Frames(BURST_LEN));
    assert es[0].QueueTsbk?;
    assert !Quiet(After(FRESH, [Start]), es);
    BurstExactly(After(FRESH, [Start]), es);
  }

  /** While fewer than n blocks of a queue of n have been sent, every open slot sends one. */
  lemma {:induction false} ActionsSent(s: Channel, es: seq<Event>, n: nat)
    requires Inv(s) && s.running && Uninterrupted(es) && n <= |s.queue|
    ensures
      var s', k := After(s, es), OpenSlots(s.frameN, FrameCount(es));
      && Inv(s') && s'.running && s'.frameN == s.frameN + FrameCount(es)
      && s.accepted <= s'.accepted
      && (if k <= n then |Actions(s'.aired)| == |Actions(s.aired)| + k
          else |Actions(s'.aired)| >= |Actions(s.aired)| + n)
    decreases |es|
  {
    hide Inv, Apply, Actions;
    if es != [] {
      var m := |es| - 1;
      ActionsSent(s, es[..m], n);
      var s1 := After(s, es[..m]);
      StepInv(s1, es[m]);
      StepSends(s1, es[m]);
      AcceptedParts(s);
      AcceptedParts(s1);
    }
  }

  /** The block with p others ahead of it is sent, in its turn, exactly when more than p slots open to queued
      blocks have passed, whatever else is queued meanwhile. */
  lemma SentExactlyWhen(s: Channel, es: seq<Event>, p: nat)
    requires Inv(s) && s.running && Uninterrupted(es) && p < |s.queue|
    ensures
      var sent, turn := Actions(After(s, es).aired), |Actions(s.aired)| + p;
      && (|sent| > turn <==> OpenSlots(s.frameN, FrameCount(es)) > p)
      && (|sent| > turn ==> sent[turn] == s.queue[p])
  {
    hide Inv, Apply, After, Actions, OpenSlots, FrameCount, Uninterrupted;
    ActionsSent(s, es, p + 1);
    var s' := After(s, es);
    var turn := |Actions(s.aired)| + p;
    AcceptedParts(s);
    AcceptedParts(s');
    assert s.accepted[turn] == s.queue[p];
    assert s'.accepted[turn] == s.accepted[turn];
  }

  /** The slots a block with p others ahead may have to wait: itself, those ahead, and one system message
      for every four of them. */
  function Wait(p: nat): nat { (p + 1) + (p + 1 + 3) / 4 }

  lemma {:induction false} OpenSlotsClosed(f: nat, k: nat)
    ensures OpenSlots(f, k) == k - ((f + k + 4) / 5 - (f + 4) / 5)
  {
    if k > 0 {
      OpenSlotsClosed(f, k - 1);
    }
  }

  lemma WaitIsEnough(f: nat, k: nat, p: nat)
    requires p < 128
    ensures Wait(p) <= 160
    ensures k >= Wait(p) ==> k - ((f + k + 4) / 5 - (f + 4) / 5) > p
    ensures f % BURST_LEN == 0 ==> (k - ((f + k + 4) / 5 - (f + 4) / 5) > p <==> k >= Wait(p))
  {
  }

  /** A block accepted with p others ahead is sent within Wait(p) block frames, so within 160; and Wait(p) is
      exact for a block accepted just before a system slot. */
  lemma Latency(s: Channel, es: seq<Event>, t: Pdu)
    requires Inv(s) && s.running && |s.queue| < 128 && Uninterrupted(es)
    ensures
      var p, turn := |s.queue|, |Actions(s.aired)| + |s.queue|;
      var sent := Actions(After(Apply(s, QueueTsbk(t)), es).aired);
      && Wait(p) <= 160
      && (FrameCount(es) >= Wait(p) ==> |sent| > turn && sent[turn] == t)
      && (s.frameN % BURST_LEN == 0 ==> (|sent| > turn <==> FrameCount(es) >= Wait(p)))
  {
    hide Inv, After, Actions, OpenSlots, FrameCount, Uninterrupted;
    var s1 := Apply(s, QueueTsbk(t));
    StepInv(s, QueueTsbk(t));
    SentExactlyWhen(s1, es, |s.queue|);
    OpenSlotsClosed(s.frameN, FrameCount(es));
    WaitIsEnough(s.frameN, FrameCount(es), |s.queue|);
  }
}
