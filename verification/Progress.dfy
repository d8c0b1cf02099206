/** What keeps the running transmitter moving: neither thread is ever stuck, a poll passes once the reader has
    caught up, and a write ends. */
module Progress {
  import opened ControlChannel
  import opened Messages
  import opened SiteRun
  import R = RingProtocol

  /** Whether an event is a step of the producer's loop, rather than of the reader or from outside. */
  predicate LoopStep(e: Event) {
    e.BeginBlock? || e.BeginTdu? || (e.Ring? && !R.ReadersStep(e.step))
  }

  /** What the loop does next; a block takes the time of day. */
  function NextOfLoop(s: State, clock: Clock): Event {
    match s.pc
    case Off => Start
    case AtBlock => BeginBlock(clock)
    case AtTdu => BeginTdu
    case _ => Ring(R.NextOfProducer(RING_CONFIG, s.ring.producer))
  }

  lemma RingStep(p: Setup, s: State, step: R.Event)
    requires !step.StartWrite? && (step.PollW? ==> s.pc.AtPoll?)
    ensures Enabled(p, s, Ring(step)) <==> R.Enabled(RING_CONFIG, s.ring, step)
  {
    hide R.Enabled;
    assert RingSteps(p, s, Ring(step)) == [step];
    if Enabled(p, s, Ring(step)) {
      EnabledStep(p, s, Ring(step));
    }
  }

  lemma NotARingStep(p: Setup, s: State, step: R.Event)
    requires step.StartWrite? || (step.PollW? && !s.pc.AtPoll?)
    ensures !Enabled(p, s, Ring(step))
  {
    hide R.Enabled;
  }

  lemma BlockBegins(p: Setup, s: State, clock: Clock)
    requires Shape(s)
    ensures Enabled(p, s, BeginBlock(clock)) <==> s.pc.AtBlock?
    ensures Enabled(p, s, BeginTdu) <==> s.pc.AtTdu?
  {
    hide NextSamples;
  }

  lemma StepNeverStuck(p: Setup, s: State, e: Event, clock: Clock)
    requires Shape(s) && R.Inv(RING_CONFIG, s.ring) && (e.BeginBlock? ==> e.clock == clock)
    ensures Enabled(p, s, Ring(R.NextOfConsumer(s.ring.consumer)))
    ensures Enabled(p, s, NextOfLoop(s, clock))
    ensures LoopStep(e) && Enabled(p, s, e) && !s.pc.Off? ==> e == NextOfLoop(s, clock)
  {
    hide Enabled, R.Enabled, R.Inv;
    BlockBegins(p, s, clock);
    R.NeverStuck(RING_CONFIG, s.ring, R.NextOfConsumer(s.ring.consumer));
    R.NeverStuck(RING_CONFIG, s.ring, R.NextOfProducer(RING_CONFIG, s.ring.producer));
    RingStep(p, s, R.NextOfConsumer(s.ring.consumer));
    if s.pc.Off? {
      Startable(p, s);
    } else if s.pc.AtPoll? || s.pc.InBlock? || s.pc.InTdu? {
      RingStep(p, s, R.NextOfProducer(RING_CONFIG, s.ring.producer));
    }
    if e.Ring? && LoopStep(e) {
      R.NeverStuck(RING_CONFIG, s.ring, e.step);
      if e.step.StartWrite? || (e.step.PollW? && !s.pc.AtPoll?) {
        NotARingStep(p, s, e.step);
      } else {
        RingStep(p, s, e.step);
      }
    }
  }

  lemma Startable(p: Setup, s: State)
    requires s.pc.Off?
    ensures Enabled(p, s, Start)
  {
  }

  /** In every state of every run the reader has a step to take, and so has the loop while the channel runs, which
      is its only one. */
  lemma NeverStuck(p: Setup, es: seq<Event>, e: Event, clock: Clock)
    requires Feasible(p, es) && (e.BeginBlock? ==> e.clock == clock)
    ensures
      var s := Final(p, es);
      && Enabled(p, s, Ring(R.NextOfConsumer(s.ring.consumer)))
      && Enabled(p, s, NextOfLoop(s, clock))
      && (LoopStep(e) && Enabled(p, s, e) && !s.pc.Off? ==> e == NextOfLoop(s, clock))
  {
    hide Feasible, Final, Trace, Shape, Enabled, R.Inv, R.Feasible, R.Final, NextOfLoop;
    RunShape(p, es);
    TraceFeasible(p, es);
    R.RunInv(RING_CONFIG, Trace(p, es));
    StepNeverStuck(p, Final(p, es), e, clock);
  }

  // ----- polls pass and writes end

  function LoopSteps(es: seq<Event>): nat {
    if es == [] then 0 else LoopSteps(es[..|es| - 1]) + if LoopStep(es[|es| - 1]) then 1 else 0
  }

  function ReaderSteps(es: seq<Event>): nat {
    if es == [] then 0
    else
      var n := |es| - 1;
      ReaderSteps(es[..n]) + if es[n].Ring? && R.ReadersStep(es[n].step) then 1 else 0
  }

  /** The loop is polling, or inside write(). */
  predicate Busy(pc: Pc) { pc.AtPoll? || pc.InBlock? || pc.InTdu? }

  /** The step that ends it. */
  function Ending(pc: Pc): Event { if pc.AtPoll? then Ring(R.PollPass) else Ring(R.PublishW) }

  lemma LastLoopStep(es: seq<Event>, e: Event)
    ensures LoopSteps(es + [e]) == LoopSteps(es) + if LoopStep(e) then 1 else 0
    ensures ReaderSteps(es + [e]) == ReaderSteps(es) + if e.Ring? && R.ReadersStep(e.step) then 1 else 0
  {
    assert (es + [e])[..|es|] == es;
  }

  /** A step that does not end what the loop is doing. */
  lemma BusyStep(p: Setup, s: State, e: Event)
    requires Shape(s) && Enabled(p, s, e) && Busy(s.pc) && !e.Stop? && e != Ring(R.Spin) && e != Ending(s.pc)
    ensures NextPc(s, e) == s.pc
    ensures
      var steps := RingSteps(p, s, e);
      && |steps| <= 1
      && (steps != [] ==> R.Continues(steps[0]))
      && R.OwnSteps(steps) == (if LoopStep(e) then 1 else 0)
      && R.ReadSteps(steps) == if e.Ring? && R.ReadersStep(e.step) then 1 else 0
  {
    hide R.Available, NextSamples, NextDibits;
    OneOwn(R.PollW);
    if e.Ring? {
      EnabledStep(p, s, e);
      OneOwn(e.step);
    }
  }

  lemma OneOwn(e: R.Event)
    ensures R.OwnSteps([]) == 0
    ensures R.OwnSteps([e]) == if R.ReadersStep(e) then 0 else 1
    ensures R.ReadSteps([]) == 0
    ensures R.ReadSteps([e]) == if R.ReadersStep(e) then 1 else 0
  {
    assert [e][..0] == [];
  }

  lemma {:induction false} OwnJoin(a: seq<R.Event>, b: seq<R.Event>)
    requires |b| <= 1
    ensures R.OwnSteps(a + b) == R.OwnSteps(a) + R.OwnSteps(b)
    ensures R.ReadSteps(a + b) == R.ReadSteps(a) + R.ReadSteps(b)
  {
    hide R.ReadersStep;
    if b == [] {
      assert a + b == a;
    } else {
      assert b == [b[0]];
      R.LastOwn(a, b[0]);
      R.LastRead(a, b[0]);
      OneOwn(b[0]);
    }
  }

  /** What the ring sees of a stretch of the run in which that does not end. */
  lemma {:induction false} BusyTrace(p: Setup, es: seq<Event>, on: seq<Event>) returns (steps: seq<R.Event>)
    requires Feasible(p, es) && Feasible(p, es + on) && Busy(Final(p, es).pc)
    requires Stop !in on && Ring(R.Spin) !in on && Ending(Final(p, es).pc) !in on
    ensures Final(p, es + on).pc == Final(p, es).pc
    ensures Trace(p, es + on) == Trace(p, es) + steps
    ensures forall i :: 0 <= i < |steps| ==> R.Continues(steps[i])
    ensures R.OwnSteps(steps) == LoopSteps(on) && R.ReadSteps(steps) == ReaderSteps(on)
    decreases |on|
  {
    hide Feasible, Final, Trace, Apply, Enabled, RingSteps, Shape, LoopStep, NextPc, Busy, Ending;
    hide R.Continues, R.OwnSteps, R.ReadSteps, R.ReadersStep;
    if on == [] {
      assert es + on == es;
      steps := [];
      OneOwn(R.PollW);
      assert Trace(p, es) == Trace(p, es) + steps;
    } else {
      var n := |on| - 1;
      var before, e := es + on[..n], on[n];
      assert es + on == before + [e] && on == on[..n] + [e];
      LastStep(p, before, e);
      steps := BusyTrace(p, es, on[..n]);
      RunShape(p, before);
      var s := Final(p, before);
      BusyStep(p, s, e);
      PcOfApply(p, s, e);
      OwnJoin(steps, RingSteps(p, s, e));
      LastLoopStep(on[..n], e);
      steps := steps + RingSteps(p, s, e);
    }
  }

  /** Every write in flight is a frame. */
  predicate Sized(r: R.State) { Writing(r) ==> |r.producer.data| == FRAME_BYTES }

  lemma RingSized(r: R.State, e: R.Event)
    requires R.Enabled(RING_CONFIG, r, e) && Sized(r) && (e.StartWrite? ==> |e.data| == FRAME_BYTES)
    ensures Sized(R.Apply(RING_CONFIG, r, e))
  {
    hide R.Available;
  }

  lemma WritesFrames(p: Setup, s: State, e: Event)
    requires Enabled(p, s, e)
    ensures
      var steps := RingSteps(p, s, e);
      steps != [] && steps[0].StartWrite? ==> |steps[0].data| == FRAME_BYTES
  {
    hide NextSamples, R.Enabled;
    if e.BeginBlock? || e.BeginTdu? {
      FrameSamples(p, s, e);
    }
  }

  lemma StepSized(p: Setup, s: State, e: Event)
    requires Enabled(p, s, e) && Sized(s.ring)
    ensures Sized(Apply(p, s, e).ring)
  {
    hide Sized, Enabled, RingSteps, R.Enabled, R.Apply, Apply;
    RingOfApply(p, s, e);
    WritesFrames(p, s, e);
    if RingSteps(p, s, e) != [] {
      RingSized(s.ring, RingSteps(p, s, e)[0]);
    }
  }

  lemma {:induction false} RunSized(p: Setup, es: seq<Event>)
    requires Feasible(p, es)
    ensures Sized(Final(p, es).ring)
    decreases |es|
  {
    hide Enabled, Apply;
    if es != [] {
      var n := |es| - 1;
      RunSized(p, es[..n]);
      StepSized(p, Final(p, es[..n]), es[n]);
    }
  }

  /** Reads since the last write after which the ring is at most half full: one that may have begun before the
      write, and the chunks of two frames. */
  const ROUNDS := 23

  /** How many steps of its own the loop needs at most to end what it is doing. */
  function StepsToEnd(pc: Pc): nat { if pc.AtPoll? then 4 else 180003 }

  lemma StageBound(p: Setup, es: seq<Event>)
    requires Feasible(p, es) && Busy(Final(p, es).pc)
    ensures R.Stage(RING_CONFIG, Final(p, es).ring.producer) <= StepsToEnd(Final(p, es).pc)
    ensures !Final(p, es).pc.AtPoll? ==> R.Writing(Final(p, es).ring.producer)
  {
    hide Feasible, Final;
    RunShape(p, es);
    RunSized(p, es);
  }

  lemma EnoughRounds(tr: seq<R.Event>)
    requires R.Rounds(tr) >= ROUNDS
    ensures R.Caught(RING_CONFIG, tr, 2 * FRAME_BYTES)
  {
    hide R.Rounds;
  }

  /** Whatever the schedule: when the reader has completed 23 reads since the last write, the poll passes within
      four of the loop's own steps; and a frame handed to write() is published within its bytes and three. */
  lemma LoopMovesOn(p: Setup, es: seq<Event>, on: seq<Event>)
    requires Feasible(p, es) && Feasible(p, es + on) && Busy(Final(p, es).pc) && Stop !in on
    requires Final(p, es).pc.AtPoll? ==> R.Rounds(Trace(p, es)) >= ROUNDS
    requires LoopSteps(on) >= StepsToEnd(Final(p, es).pc)
    ensures Ending(Final(p, es).pc) in on
  {
    hide Feasible, Final, Trace, LoopSteps, Ending, StepsToEnd, Busy;
    hide R.Feasible, R.Final, R.Paced, R.Rounds, R.Caught, R.OwnSteps, R.Stage, R.Continues, R.Writing;
    WaitForRoomIsDead(p, es + on);
    if Ending(Final(p, es).pc) !in on {
      var steps := BusyTrace(p, es, on);
      TraceFeasible(p, es);
      TraceFeasible(p, es + on);
      WithinBudget(p, es + on);
      StageBound(p, es);
      if Final(p, es).pc.AtPoll? {
        EnoughRounds(Trace(p, es));
      }
      R.OperationEnds(RING_CONFIG, Trace(p, es), steps, 2 * FRAME_BYTES);
      assert false;
    }
  }

  /** The reader's own steps that are enough for that many reads. */
  const READER_STEPS := 23 * 16387

  /** So a poll always passes, and nothing but steps of the two threads is needed: after that many of the reader's
      while the loop polls, and four more of the loop's. */
  lemma PollEnds(p: Setup, es: seq<Event>, wait: seq<Event>, on: seq<Event>)
    requires Feasible(p, es) && Feasible(p, es + wait) && Feasible(p, es + wait + on) && Final(p, es).pc.AtPoll?
    requires Stop !in wait + on && ReaderSteps(wait) >= READER_STEPS && LoopSteps(on) >= 4
    ensures Ring(R.PollPass) in wait + on
  {
    hide Feasible, Final, Trace, LoopSteps, ReaderSteps, R.Feasible, R.Final, R.Rounds, R.OwnSteps, R.ReadSteps;
    hide R.ReadStage, R.Continues;
    WaitForRoomIsDead(p, es + wait);
    if Ring(R.PollPass) !in wait {
      var steps := BusyTrace(p, es, wait);
      TraceFeasible(p, es);
      TraceFeasible(p, es + wait);
      R.ReadsEnd(RING_CONFIG, Trace(p, es), steps);
      ReadStageBound(p, es);
      LoopMovesOn(p, es + wait, on);
    }
  }

  lemma ReadStageBound(p: Setup, es: seq<Event>)
    requires Feasible(p, es)
    ensures R.ReadStage(RING_CONFIG, Final(p, es).ring.consumer) <= CHUNK_BYTES + 3
  {
    hide Feasible, Final, Trace, R.Feasible, R.Final;
    TraceFeasible(p, es);
    R.RunInv(RING_CONFIG, Trace(p, es));
  }
}
