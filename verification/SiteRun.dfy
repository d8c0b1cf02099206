/** The running transmitter: the producer thread of src/tx/ControlChannel.cpp, which decides when it polls and what
    it writes, against every schedule of the reading thread of src/tx/SoapyTx.cpp. */
module SiteRun {
  import opened Bits
  import opened ControlChannel
  import opened Frame
  import opened Messages
  import opened Site
  import opened Tsbk
  import C4fm
  import R = RingProtocol
  import Scheduler

  const RING_SIZE := 4 * 1024 * 1024
  const CHUNK_BYTES := 16384

  const RING_CONFIG := R.Config(RING_SIZE, RING_SIZE / 2, CHUNK_BYTES)

  // ----- the machine

  /** Where the producer thread is in its loop: not running; polling the ring; past the poll and about to send a
      block; inside write() with it; about to send the terminator that is due; inside write() with that. */
  datatype Pc = Off | AtPoll | AtBlock | InBlock | AtTdu | InTdu

  /** The ring and its two threads, the scheduler, and history: every dibit modulated, and the time at which each
      frame was chosen. */
  datatype State = State(
    ring: R.State, pc: Pc, channel: Scheduler.Channel, onAir: seq<dibit>, clocks: seq<Clock>)

  /** What happens: start() and the return of stop(); queueTSBK(); a block chosen, modulated and handed to write(), or
      a terminator; and every other step of the two threads on the ring. */
  datatype Event = Start | Stop | Queue(t: Pdu) | BeginBlock(clock: Clock) | BeginTdu | Ring(step: R.Event)

  /** The site's configuration and its modulator's. */
  datatype Setup = Setup(cfg: SiteConfig, modulator: C4fm.Config)

  function Init(): State {
    State(R.Init(RING_CONFIG), Off, Scheduler.FRESH, [], [])
  }

  /** The block that the next frame carries. */
  function NextBlock(p: Setup, s: State, clock: Clock): Pdu {
    BlockOf(Scheduler.Chosen(s.channel), p.cfg, clock)
  }

  /** The dibits that an event modulates. */
  function NextDibits(p: Setup, s: State, e: Event): seq<dibit> {
    match e
    case BeginBlock(clock) => TsbkFrame(p.cfg.nac, NextBlock(p, s, clock))
    case BeginTdu => TduFrame(p.cfg.nac)
    case _ => []
  }

  /** Their samples, which continue the signal of everything before. */
  function NextSamples(p: Setup, s: State, e: Event): seq<sample> {
    var past, phase := C4fm.Symbols(s.onAir), C4fm.PhaseEnd(p.modulator, [], 0.0, s.onAir);
    C4fm.Modulated(p.modulator, past, phase, NextDibits(p, s, e))
  }

  /** The step on the ring that an event is, if any. */
  function RingSteps(p: Setup, s: State, e: Event): seq<R.Event> {
    match e
    case Ring(step) => [step]
    case BeginBlock(_) => [R.StartWrite(NextSamples(p, s, e))]
    case BeginTdu => [R.StartWrite(NextSamples(p, s, e))]
    case _ => []
  }

  /** The loop's own order; the ring protocol adds its own. */
  predicate Enabled(p: Setup, s: State, e: Event) {
    && (match e
        case Start => s.pc.Off?
        case Stop => s.pc.AtPoll? && s.ring.producer.Idle?
        case Queue(_) => true
        case BeginBlock(_) => s.pc.AtBlock?
        case BeginTdu => s.pc.AtTdu?
        case Ring(step) => !step.StartWrite? && (step.PollW? ==> s.pc.AtPoll?))
    && forall i :: 0 <= i < |RingSteps(p, s, e)| ==> R.Enabled(RING_CONFIG, s.ring, RingSteps(p, s, e)[i])
  }

  function NextPc(s: State, e: Event): Pc {
    match e
    case Start => AtPoll
    case Stop => Off
    case Queue(_) => s.pc
    case BeginBlock(_) => InBlock
    case BeginTdu => InTdu
    case Ring(step) =>
      if step.PollPass? then AtBlock
      else if !step.PublishW? then s.pc
      else if s.pc.InBlock? && s.channel.frameN % Scheduler.BURST_LEN == 0 then AtTdu
      else AtPoll
  }

  function NextChannel(s: State, e: Event): Scheduler.Channel {
    match e
    case Start => Scheduler.Apply(s.channel, Scheduler.Start)
    case Stop => Scheduler.Apply(s.channel, Scheduler.Stop)
    case Queue(t) => Scheduler.Apply(s.channel, Scheduler.QueueTsbk(t))
    case BeginBlock(_) => Scheduler.Apply(s.channel, Scheduler.Frame)
    case _ => s.channel
  }

  function Apply(p: Setup, s: State, e: Event): State
    requires Enabled(p, s, e)
  {
    var steps := RingSteps(p, s, e);
    State(
      if steps == [] then s.ring else R.Apply(RING_CONFIG, s.ring, steps[0]),
      NextPc(s, e),
      NextChannel(s, e),
      s.onAir + NextDibits(p, s, e),
      if e.BeginBlock? then s.clocks + seq(|NextChannel(s, e).aired| - |s.channel.aired|, i => e.clock) else s.clocks)
  }

  // ----- runs

  ghost predicate Feasible(p: Setup, es: seq<Event>)
    decreases |es|, 0
  {
    if es == [] then true
    else
      var n := |es| - 1;
      Feasible(p, es[..n]) && Enabled(p, Final(p, es[..n]), es[n])
  }

  ghost function Final(p: Setup, es: seq<Event>): State
    requires Feasible(p, es)
    decreases |es|, 1
  {
    if es == [] then Init() else Apply(p, Final(p, es[..|es| - 1]), es[|es| - 1])
  }

  /** The run as the ring sees it. */
  ghost function Trace(p: Setup, es: seq<Event>): seq<R.Event>
    requires Feasible(p, es)
    decreases |es|
  {
    if es == [] then []
    else
      var n := |es| - 1;
      Trace(p, es[..n]) + RingSteps(p, Final(p, es[..n]), es[n])
  }

  lemma LastStep(p: Setup, es: seq<Event>, e: Event)
    requires Feasible(p, es + [e])
    ensures Feasible(p, es) && Enabled(p, Final(p, es), e)
    ensures Final(p, es + [e]) == Apply(p, Final(p, es), e)
    ensures Trace(p, es + [e]) == Trace(p, es) + RingSteps(p, Final(p, es), e)
  {
    hide Enabled, Apply, RingSteps;
    assert (es + [e])[..|es|] == es;
  }

  lemma FewSteps(p: Setup, s: State, e: Event)
    ensures |RingSteps(p, s, e)| <= 1
  {
    hide NextSamples;
  }

  lemma EnabledStep(p: Setup, s: State, e: Event)
    requires Enabled(p, s, e) && RingSteps(p, s, e) != []
    ensures R.Enabled(RING_CONFIG, s.ring, RingSteps(p, s, e)[0])
  {
    hide RingSteps, R.Enabled;
  }

  lemma RingOfApply(p: Setup, s: State, e: Event)
    requires Enabled(p, s, e)
    ensures RingSteps(p, s, e) == [] ==> Apply(p, s, e).ring == s.ring
    ensures RingSteps(p, s, e) != [] ==> R.Enabled(RING_CONFIG, s.ring, RingSteps(p, s, e)[0])
    ensures RingSteps(p, s, e) != [] ==> Apply(p, s, e).ring == R.Apply(RING_CONFIG, s.ring, RingSteps(p, s, e)[0])
  {
    hide RingSteps, R.Enabled, R.Apply, NextPc, NextChannel, NextDibits;
    if RingSteps(p, s, e) != [] {
      EnabledStep(p, s, e);
    }
  }

  lemma OneMore(tr: seq<R.Event>, e: R.Event)
    requires R.Feasible(RING_CONFIG, tr) && R.Enabled(RING_CONFIG, R.Final(RING_CONFIG, tr), e)
    ensures R.Feasible(RING_CONFIG, tr + [e])
    ensures R.Final(RING_CONFIG, tr + [e]) == R.Apply(RING_CONFIG, R.Final(RING_CONFIG, tr), e)
  {
    hide R.Enabled, R.Apply;
    assert (tr + [e])[..|tr|] == tr;
  }

  /** Every run of the transmitter is a run of the ring protocol. */
  lemma {:induction false} TraceFeasible(p: Setup, es: seq<Event>)
    requires Feasible(p, es)
    ensures R.Feasible(RING_CONFIG, Trace(p, es))
    ensures R.Final(RING_CONFIG, Trace(p, es)) == Final(p, es).ring
    decreases |es|
  {
    hide Enabled, Apply, RingSteps, R.Enabled, R.Apply, R.Init;
    if es != [] {
      var n := |es| - 1;
      var s, e := Final(p, es[..n]), es[n];
      TraceFeasible(p, es[..n]);
      FewSteps(p, s, e);
      RingOfApply(p, s, e);
      var steps := RingSteps(p, s, e);
      if steps == [] {
        assert Trace(p, es) == Trace(p, es[..n]);
      } else {
        assert steps == [steps[0]];
        OneMore(Trace(p, es[..n]), steps[0]);
      }
    }
  }

  // ----- where the producer is

  predicate Writing(r: R.State) { r.producer.WriteLoadedW? || r.producer.WriteLoadedR? || r.producer.Copying? }

  predicate Polling(r: R.State) { r.producer.Idle? || r.producer.PollLoadedW? || r.producer.PollLoadedR? }

  predicate Shape(s: State) {
    && (s.pc.Off? || s.pc.AtBlock? || s.pc.AtTdu? ==> s.ring.producer.Idle?)
    && (s.pc.AtPoll? ==> Polling(s.ring))
    && (s.pc.InBlock? || s.pc.InTdu? ==> Writing(s.ring))
    && (!s.pc.Off? ==> s.channel.running)
  }

  lemma StillRunning(s: State, e: Event)
    ensures (s.channel.running && !e.Stop?) || e.Start? ==> NextChannel(s, e).running
  {
    hide Scheduler.Chosen, Scheduler.AddLog, Scheduler.LogLine;
  }

  lemma StepShape(p: Setup, s: State, e: Event)
    requires Shape(s) && Enabled(p, s, e)
    ensures Shape(Apply(p, s, e))
  {
    hide NextSamples, NextDibits, NextChannel, R.Available;
    StillRunning(s, e);
    if e.BeginBlock? || e.BeginTdu? || e.Ring? {
      EnabledStep(p, s, e);
    }
  }

  lemma {:induction false} RunShape(p: Setup, es: seq<Event>)
    requires Feasible(p, es)
    ensures Shape(Final(p, es))
    decreases |es|
  {
    hide Shape, Enabled, Apply;
    if es == [] {
      InitShape();
    } else {
      var n := |es| - 1;
      RunShape(p, es[..n]);
      StepShape(p, Final(p, es[..n]), es[n]);
    }
  }

  lemma InitShape()
    ensures Shape(Init())
  {
  }

  // ----- how much is written between polls

  function WritesSincePoll(es: seq<R.Event>): nat {
    if es == [] then 0
    else
      var n := |es| - 1;
      if es[n].PollPass? then 0 else WritesSincePoll(es[..n]) + if es[n].StartWrite? then 1 else 0
  }

  /** Every write is a frame, and no third write is begun between two polls that pass. */
  predicate Paced(es: seq<R.Event>) {
    forall i :: 0 <= i < |es| && es[i].StartWrite? ==>
      |es[i].data| == FRAME_BYTES && WritesSincePoll(es[..i]) < 2
  }

  /** How many writes have been begun since the last poll that passed, from where the producer is. */
  predicate PaceAt(pc: Pc, writes: nat) {
    match pc
    case AtBlock => writes == 0
    case InBlock => writes == 1
    case AtTdu => writes == 1
    case _ => writes <= 2
  }

  lemma PacedSnoc(tr: seq<R.Event>, e: R.Event)
    requires Paced(tr) && (e.StartWrite? ==> |e.data| == FRAME_BYTES && WritesSincePoll(tr) < 2)
    ensures Paced(tr + [e])
    ensures WritesSincePoll(tr + [e])
         == if e.PollPass? then 0 else WritesSincePoll(tr) + if e.StartWrite? then 1 else 0
  {
    hide WritesSincePoll;
    assert (tr + [e])[..|tr|] == tr;
    forall i | 0 <= i < |tr|
      ensures (tr + [e])[..i] == tr[..i]
    {
    }
    WritesOfSnoc(tr, e);
  }

  lemma WritesOfSnoc(tr: seq<R.Event>, e: R.Event)
    ensures WritesSincePoll(tr + [e])
         == if e.PollPass? then 0 else WritesSincePoll(tr) + if e.StartWrite? then 1 else 0
  {
    assert (tr + [e])[..|tr|] == tr;
  }

  lemma StepPace(p: Setup, s: State, e: Event, writes: nat)
    requires Shape(s) && Enabled(p, s, e) && PaceAt(s.pc, writes)
    ensures
      var steps := RingSteps(p, s, e);
      && (steps == [] ==> PaceAt(NextPc(s, e), writes))
      && (steps != [] && steps[0].StartWrite? ==> writes < 2 && |steps[0].data| == FRAME_BYTES)
      && (steps != [] ==>
            PaceAt(NextPc(s, e), if steps[0].PollPass? then 0 else writes + if steps[0].StartWrite? then 1 else 0))
  {
    hide NextSamples, TsbkFrame, TduFrame, NextBlock, R.Available;
    if e.Ring? {
      EnabledStep(p, s, e);
    } else if e.BeginBlock? || e.BeginTdu? {
      FrameSamples(p, s, e);
    }
  }

  lemma FrameSamples(p: Setup, s: State, e: Event)
    requires e.BeginBlock? || e.BeginTdu?
    ensures |NextSamples(p, s, e)| == FRAME_BYTES
  {
    hide TsbkFrame, TduFrame, NextBlock;
  }

  /** The loop writes at most a block and a terminator between two polls that pass. */
  lemma {:induction false} LoopIsPaced(p: Setup, es: seq<Event>)
    requires Feasible(p, es)
    ensures Paced(Trace(p, es)) && PaceAt(Final(p, es).pc, WritesSincePoll(Trace(p, es)))
    decreases |es|
  {
    hide Shape, Enabled, Apply, RingSteps, Paced, PaceAt, WritesSincePoll;
    if es == [] {
      NothingWritten();
    } else {
      var n := |es| - 1;
      var s, e, tr := Final(p, es[..n]), es[n], Trace(p, es[..n]);
      LoopIsPaced(p, es[..n]);
      RunShape(p, es[..n]);
      StepPace(p, s, e, WritesSincePoll(tr));
      FewSteps(p, s, e);
      PcOfApply(p, s, e);
      var steps := RingSteps(p, s, e);
      if steps == [] {
        assert Trace(p, es) == tr;
      } else {
        assert steps == [steps[0]];
        PacedSnoc(tr, steps[0]);
      }
    }
  }

  lemma PcOfApply(p: Setup, s: State, e: Event)
    requires Enabled(p, s, e)
    ensures Apply(p, s, e).pc == NextPc(s, e)
  {
    hide RingSteps, NextPc, NextChannel, NextDibits, R.Apply;
  }

  lemma NothingWritten()
    ensures Paced([]) && PaceAt(Init().pc, WritesSincePoll([]))
  {
  }

  lemma {:induction false} PacedBudget(tr: seq<R.Event>)
    requires Paced(tr)
    ensures R.SincePoll(tr) == FRAME_BYTES * WritesSincePoll(tr) && WritesSincePoll(tr) <= 2
    decreases |tr|
  {
    if tr != [] {
      var n := |tr| - 1;
      PacedPrefix(tr, n);
      PacedBudget(tr[..n]);
    }
  }

  lemma PacedPrefix(tr: seq<R.Event>, n: nat)
    requires Paced(tr) && n <= |tr|
    ensures Paced(tr[..n])
  {
    hide WritesSincePoll;
    forall i | 0 <= i < n
      ensures tr[..n][..i] == tr[..i] && tr[..n][i] == tr[i]
    {
    }
  }

  lemma WithinBudget(p: Setup, es: seq<Event>)
    requires Feasible(p, es)
    ensures R.Feasible(RING_CONFIG, Trace(p, es)) && R.Paced(Trace(p, es), 2 * FRAME_BYTES)
  {
    hide Feasible, Final, Trace, R.Feasible, R.Final, R.SincePoll, Paced;
    var tr := Trace(p, es);
    TraceFeasible(p, es);
    LoopIsPaced(p, es);
    forall i | 0 <= i <= |tr|
      ensures R.SincePoll(tr[..i]) <= 2 * FRAME_BYTES
    {
      PacedPrefix(tr, i);
      PacedBudget(tr[..i]);
    }
  }

  /** The wait for room in write() never waits, whatever the reading thread does, and the ring of four megabytes holds
      at most half its size and two frames. */
  lemma WaitForRoomIsDead(p: Setup, es: seq<Event>)
    requires Feasible(p, es)
    ensures Ring(R.Spin) !in es
    ensures |Final(p, es).ring.sent| - |Final(p, es).ring.received| <= 2097152 + 360000
    ensures |Final(p, es).ring.mem| == 4194304
  {
    hide Feasible, Final, Trace, R.Feasible, R.Final, R.Paced;
    WithinBudget(p, es);
    TraceFeasible(p, es);
    R.NoSpin(RING_CONFIG, Trace(p, es), 2 * FRAME_BYTES);
    R.RunInv(RING_CONFIG, Trace(p, es));
    R.CellsInRange(RING_CONFIG, Final(p, es).ring);
    if Ring(R.Spin) in es {
      StepsAppear(p, es, R.Spin);
    }
  }

  /** A poll passes exactly when what it found is at most half the ring. */
  lemma PollsAtHalf(p: Setup, s: State)
    requires s.ring.producer.PollLoadedR?
    ensures Enabled(p, s, Ring(R.PollPass)) <==> 2 * s.ring.producer.avail <= 4194304
    ensures Enabled(p, s, Ring(R.PollFail)) <==> 2 * s.ring.producer.avail > 4194304
  {
    hide NextSamples;
    assert RingSteps(p, s, Ring(R.PollPass)) == [R.PollPass] && RingSteps(p, s, Ring(R.PollFail)) == [R.PollFail];
    if Enabled(p, s, Ring(R.PollPass)) {
      EnabledStep(p, s, Ring(R.PollPass));
    }
    if Enabled(p, s, Ring(R.PollFail)) {
      EnabledStep(p, s, Ring(R.PollFail));
    }
  }

  lemma {:induction false} StepsAppear(p: Setup, es: seq<Event>, step: R.Event)
    requires Feasible(p, es) && Ring(step) in es
    ensures step in Trace(p, es)
    decreases |es|
  {
    hide Enabled, Apply, NextSamples;
    var n := |es| - 1;
    if es[n] == Ring(step) {
      assert RingSteps(p, Final(p, es[..n]), es[n]) == [step];
    } else {
      assert Ring(step) in es[..n];
      StepsAppear(p, es[..n], step);
    }
  }

  /** Every write is a whole number of I/Q pairs, so every read begins on an I byte and both published indices are
      always even. */
  lemma AlwaysAligned(p: Setup, es: seq<Event>)
    requires Feasible(p, es)
    ensures R.Aligned(Final(p, es).ring)
    ensures Final(p, es).ring.wpos % 2 == 0 && Final(p, es).ring.rpos % 2 == 0
  {
    hide Feasible, Final, Trace, R.Feasible, R.Final, R.Aligned, WritesSincePoll;
    TraceFeasible(p, es);
    LoopIsPaced(p, es);
    R.ChunksAligned(RING_CONFIG, Trace(p, es));
    R.IndicesEven(RING_CONFIG, Trace(p, es));
  }

  // ----- what is written is the signal of what was scheduled

  function Signal(p: Setup, ds: seq<dibit>): seq<sample> { C4fm.Modulated(p.modulator, [], 0.0, ds) }

  lemma SignalGrows(p: Setup, a: seq<dibit>, b: seq<dibit>)
    ensures Signal(p, a + b)
         == Signal(p, a)
            + C4fm.Modulated(p.modulator, C4fm.Symbols(a), C4fm.PhaseEnd(p.modulator, [], 0.0, a), b)
  {
    hide C4fm.Modulated, C4fm.PhaseEnd;
    C4fm.ModulateInPieces(p.modulator, [], 0.0, a, b);
    assert [] + C4fm.Symbols(a) == C4fm.Symbols(a);
  }

  /** What a step hands to write(). */
  function Handed(steps: seq<R.Event>): seq<sample> {
    if steps != [] && steps[0].StartWrite? then steps[0].data else []
  }

  lemma StepHands(p: Setup, s: State, e: Event)
    requires Enabled(p, s, e)
    ensures Signal(p, Apply(p, s, e).onAir) == Signal(p, s.onAir) + Handed(RingSteps(p, s, e))
  {
    hide Signal, NextDibits, NextPc, NextChannel, R.Apply, R.Enabled, C4fm.Modulated, C4fm.PhaseEnd;
    SignalGrows(p, s.onAir, NextDibits(p, s, e));
    if !e.BeginBlock? && !e.BeginTdu? {
      NoDibits(p, s, e);
      assert s.onAir + [] == s.onAir;
    }
  }

  lemma NoDibits(p: Setup, s: State, e: Event)
    requires !e.BeginBlock? && !e.BeginTdu?
    ensures NextDibits(p, s, e) == []
    ensures Handed(RingSteps(p, s, e)) == if e.Ring? && e.step.StartWrite? then e.step.data else []
  {
  }

  lemma SubmittedSnoc(tr: seq<R.Event>, e: R.Event)
    ensures R.Submitted(tr + [e]) == R.Submitted(tr) + Handed([e])
  {
    assert (tr + [e])[..|tr|] == tr;
  }

  lemma {:induction false} WrittenIsSignal(p: Setup, es: seq<Event>)
    requires Feasible(p, es)
    ensures R.Submitted(Trace(p, es)) == Signal(p, Final(p, es).onAir)
    decreases |es|
  {
    hide Enabled, Apply, RingSteps, Signal, R.Submitted, Handed;
    if es == [] {
      SilentStart(p);
    } else {
      var n := |es| - 1;
      var s, e, tr := Final(p, es[..n]), es[n], Trace(p, es[..n]);
      WrittenIsSignal(p, es[..n]);
      StepHands(p, s, e);
      FewSteps(p, s, e);
      var steps := RingSteps(p, s, e);
      if steps == [] {
        NothingHanded();
        assert Trace(p, es) == tr && Signal(p, s.onAir) + [] == Signal(p, s.onAir);
      } else {
        assert steps == [steps[0]];
        SubmittedSnoc(tr, steps[0]);
      }
    }
  }

  lemma SilentStart(p: Setup)
    ensures R.Submitted([]) == Signal(p, Init().onAir)
  {
  }

  lemma NothingHanded()
    ensures Handed([]) == []
  {
  }

  // ----- what is sent is what was scheduled

  function FrameOf(p: Setup, f: Scheduler.Sent, clock: Clock): (ds: seq<dibit>)
    ensures |ds| == 180
  {
    if f.Tdu? then TduFrame(p.cfg.nac) else TsbkFrame(p.cfg.nac, BlockOf(f, p.cfg, clock))
  }

  /** The dibits of everything the scheduler sent. */
  function AirOf(p: Setup, aired: seq<Scheduler.Sent>, clocks: seq<Clock>): seq<dibit>
    requires |aired| == |clocks|
  {
    if aired == [] then []
    else
      var n := |aired| - 1;
      AirOf(p, aired[..n], clocks[..n]) + FrameOf(p, aired[n], clocks[n])
  }

  /** Whether the scheduler has counted a terminator that the loop has still to send. */
  predicate Owed(s: State) {
    s.pc.AtTdu? || (s.pc.InBlock? && s.channel.frameN % Scheduler.BURST_LEN == 0)
  }

  predicate Carried(p: Setup, s: State) {
    && |s.clocks| == |s.channel.aired|
    && AirOf(p, s.channel.aired, s.clocks) == s.onAir + if Owed(s) then TduFrame(p.cfg.nac) else []
  }

  lemma AirSnoc(p: Setup, aired: seq<Scheduler.Sent>, clocks: seq<Clock>, f: Scheduler.Sent, clock: Clock)
    requires |aired| == |clocks|
    ensures AirOf(p, aired + [f], clocks + [clock]) == AirOf(p, aired, clocks) + FrameOf(p, f, clock)
  {
    hide TsbkFrame, TduFrame, BlockOf;
    assert (aired + [f])[..|aired|] == aired && (clocks + [clock])[..|aired|] == clocks;
  }

  lemma BlockCarried(p: Setup, s: State, clock: Clock)
    requires Shape(s) && Enabled(p, s, BeginBlock(clock)) && Carried(p, s)
    ensures Carried(p, Apply(p, s, BeginBlock(clock)))
  {
    hide TsbkFrame, TduFrame, BlockOf, AirOf, NextSamples, R.Apply, R.Enabled, Scheduler.AddLog, Scheduler.LogLine;
    var f, aired, clocks := Scheduler.Chosen(s.channel), s.channel.aired, s.clocks;
    var frame := TsbkFrame(p.cfg.nac, NextBlock(p, s, clock));
    AirSnoc(p, aired, clocks, f, clock);
    var s' := Apply(p, s, BeginBlock(clock));
    assert s'.onAir == s.onAir + frame;
    if (s.channel.frameN + 1) % Scheduler.BURST_LEN == 0 {
      AirSnoc(p, aired + [f], clocks + [clock], Scheduler.Tdu, clock);
      assert s'.channel.aired == aired + [f] + [Scheduler.Tdu];
      assert s'.clocks == clocks + [clock] + [clock];
    } else {
      assert s'.channel.aired == aired + [f];
      assert s'.clocks == clocks + [clock];
    }
  }

  lemma OtherCarried(p: Setup, s: State, e: Event)
    requires Shape(s) && Enabled(p, s, e) && Carried(p, s) && !e.BeginBlock?
    ensures Carried(p, Apply(p, s, e))
  {
    hide TsbkFrame, TduFrame, BlockOf, AirOf, NextSamples, R.Apply, R.Available;
    if e.Ring? {
      EnabledStep(p, s, e);
    }
  }

  lemma {:induction false} RunCarried(p: Setup, es: seq<Event>)
    requires Feasible(p, es)
    ensures Carried(p, Final(p, es)) && Scheduler.Inv(Final(p, es).channel)
    decreases |es|
  {
    hide Shape, Enabled, Apply, Carried, Scheduler.Inv;
    if es == [] {
      InitCarried(p);
    } else {
      var n := |es| - 1;
      var s, e := Final(p, es[..n]), es[n];
      RunShape(p, es[..n]);
      RunCarried(p, es[..n]);
      if e.BeginBlock? {
        BlockCarried(p, s, e.clock);
      } else {
        OtherCarried(p, s, e);
      }
      ChannelKept(p, s, e);
    }
  }

  lemma InitCarried(p: Setup)
    ensures Carried(p, Init()) && Scheduler.Inv(Init().channel)
  {
    Scheduler.FreshInv();
  }

  lemma ChannelKept(p: Setup, s: State, e: Event)
    requires Enabled(p, s, e) && Scheduler.Inv(s.channel)
    ensures Scheduler.Inv(Apply(p, s, e).channel)
  {
    hide Scheduler.Inv, Scheduler.Apply, RingSteps, NextDibits, NextPc, R.Apply;
    match e
    case Start => Scheduler.StepInv(s.channel, Scheduler.Start);
    case Stop => Scheduler.StepInv(s.channel, Scheduler.Stop);
    case Queue(t) => Scheduler.StepInv(s.channel, Scheduler.QueueTsbk(t));
    case BeginBlock(_) => Scheduler.StepInv(s.channel, Scheduler.Frame);
    case _ =>
  }

  /** Whatever the schedule: the chunks that the hardware is given are, without their padding, a prefix of the
      signal of the frames that the scheduler sent, and the scheduler keeps its invariant. */
  lemma HardwareHears(p: Setup, es: seq<Event>)
    requires Feasible(p, es)
    ensures
      var s, tr := Final(p, es), Trace(p, es);
      && |s.clocks| == |s.channel.aired| && Scheduler.Inv(s.channel)
      && R.Feasible(RING_CONFIG, tr)
      && (forall k :: 0 <= k < |R.Chunks(RING_CONFIG, tr)| ==> |R.Chunks(RING_CONFIG, tr)[k].bytes| == 16384)
      && R.Unpadded(R.Chunks(RING_CONFIG, tr)) == s.ring.received
      && s.ring.received <= Signal(p, AirOf(p, s.channel.aired, s.clocks))
  {
    hide Feasible, Final, Trace, AirOf, Signal, Scheduler.Inv, R.Feasible, R.Final, R.Chunks, R.Unpadded, R.Submitted;
    var s, tr := Final(p, es), Trace(p, es);
    TraceFeasible(p, es);
    R.ChunksCarry(RING_CONFIG, tr);
    WrittenIsSignal(p, es);
    RunCarried(p, es);
    SignalGrows(p, s.onAir, if Owed(s) then TduFrame(p.cfg.nac) else []);
  }
}
