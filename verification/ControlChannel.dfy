/** The control channel (src/tx/ControlChannel.cpp): the scheduler's state updated in place, and each frame
    carried through the modulator into the transmit ring. */
module ControlChannel {
  import opened Bits
  import opened Frame
  import opened Scheduler
  import opened Messages
  import opened Site
  import opened Tsbk
  import C4fm
  import SoapyTx

  const BYTES_PER_DIBIT := 2 * C4fm.OSR
  const FRAME_BYTES := 180 * BYTES_PER_DIBIT

  /** The block that a frame carries. */
  function BlockOf(f: Sent, cfg: SiteConfig, clock: Clock): Pdu
    requires !f.Tdu?
  {
    match f
    case System(idx) => SystemBlock(cfg, idx, clock)
    case Action(t) => t
  }

  /** The modulator's state and output after the dibits onAir, from reset. */
  ghost predicate OnStream(c: C4fm.Config, past: seq<real>, phase: real, onAir: seq<dibit>,
      signal: seq<sample>)
  {
    && past == C4fm.Symbols(onAir)
    && phase == C4fm.PhaseEnd(c, [], 0.0, onAir)
    && signal == C4fm.Modulated(c, [], 0.0, onAir)
  }

  /** Sample n of the signal is the carrier, frequency modulated by the up-sampled and convolved levels xs that carry
      everything sent. */
  lemma SignalIsFm(c: C4fm.Config, past: seq<real>, phase: real, onAir: seq<dibit>,
      signal: seq<sample>, xs: seq<real>, n: nat)
    requires OnStream(c, past, phase, onAir, signal) && C4fm.Sized(c) && n < |onAir| * C4fm.OSR
    requires C4fm.Carries(xs, onAir)
    ensures |signal| == 2 * |onAir| * C4fm.OSR
    ensures signal[2 * n] == c.toI(C4fm.FmPhase(c, xs, 0.0, n + 1))
    ensures signal[2 * n + 1] == c.toQ(C4fm.FmPhase(c, xs, 0.0, n + 1))
  {
    C4fm.ModulatorIsFm(c, xs, onAir, n);
  }

  /** What was added to the signal was added to the ring. */
  ghost predicate Wrote(ring: seq<sample>, ring': seq<sample>,
      signal: seq<sample>, signal': seq<sample>)
  {
    signal <= signal' && ring' == ring + signal'[|signal|..]
  }

  lemma WroteTwice(ring: seq<sample>, ring1: seq<sample>, ring2: seq<sample>,
      signal: seq<sample>, signal1: seq<sample>, signal2: seq<sample>)
    requires Wrote(ring, ring1, signal, signal1) && Wrote(ring1, ring2, signal1, signal2)
    ensures Wrote(ring, ring2, signal, signal2)
  {
    assert signal2[|signal|..] == signal1[|signal|..] + signal2[|signal1|..];
  }

  lemma StreamStarts(c: C4fm.Config)
    ensures OnStream(c, [], 0.0, [], [])
  {
  }

  lemma StreamGrows(c: C4fm.Config, past: seq<real>, phase: real, onAir: seq<dibit>, signal: seq<sample>,
      ds: seq<dibit>)
    requires OnStream(c, past, phase, onAir, signal)
    ensures OnStream(c, past + C4fm.Symbols(ds), C4fm.PhaseEnd(c, past, phase, ds), onAir + ds,
      signal + C4fm.Modulated(c, past, phase, ds))
  {
    hide C4fm.PhaseEnd, C4fm.Modulated;
    C4fm.ModulateInPieces(c, [], 0.0, onAir, ds);
    C4fm.SymbolsAppend(onAir, ds);
    assert [] + C4fm.Symbols(onAir) == C4fm.Symbols(onAir);
  }

  class ControlChannel {
    const tx: SoapyTx.SoapyTx
    const modulator: C4fm.C4fm
    const cfg: SiteConfig
    const sysTsbks: seq<Pdu>
    var queue: seq<Pdu>
    var log: seq<string>
    var running: bool
    var frameCount: nat
    /** The producer thread's counters. */
    var sysIdx: nat
    var frameN: nat
    ghost var accepted: seq<Pdu>
    ghost var aired: seq<Sent>
    ghost var frames: seq<Sent>
    ghost var began: nat
    ghost var messages: seq<string>
    /** Every dibit sent and every byte written to the ring. */
    ghost var onAir: seq<dibit>
    ghost var signal: seq<sample>

    ghost function State(): Channel
      reads this
    {
      Channel(queue, log, running, frameCount, sysIdx, frameN, accepted, aired, frames, began, messages)
    }

    ghost predicate Valid()
      reads `onAir, `signal, tx, modulator, modulator.history, modulator.poly
    {
      Streaming() && sysTsbks == StaticBlocks(cfg) && tx.size > 4 * FRAME_BYTES
    }

    constructor (tx: SoapyTx.SoapyTx, modulator: C4fm.C4fm, cfg: SiteConfig)
      requires tx.Valid() && modulator.Valid() && tx.size > 4 * FRAME_BYTES
      requires modulator.past == [] && modulator.phase == 0.0
      ensures Valid() && State() == FRESH && onAir == [] && signal == []
      ensures this.tx == tx && this.modulator == modulator && this.cfg == cfg
    {
      hide StaticBlocks;
      this.tx, this.modulator, this.cfg, sysTsbks := tx, modulator, cfg, StaticBlocks(cfg);
      queue, log, running, frameCount, sysIdx, frameN := [], [], false, 0, 0, 0;
      accepted, aired, frames, began, messages := [], [], [], 0, [];
      onAir, signal := [], [];
      StreamStarts(modulator.config);
    }

    method StartRun()
      modifies `running, `frameCount, `sysIdx, `frameN, `frames, `began
      ensures State() == Apply(old(State()), Start)
    {
      if running {
        return;
      }
      running := true;
      frameCount := 0;
      sysIdx, frameN := 0, 0;
      frames, began := [], |aired|;
    }

    method StopRun()
      modifies `running
      ensures State() == Apply(old(State()), Stop)
    {
      running := false;
    }

    method Queue(t: Pdu)
      modifies `queue, `accepted
      ensures State() == Apply(old(State()), QueueTsbk(t))
    {
      if |queue| < QUEUE_LIMIT {
        queue := queue + [t];
        accepted := accepted + [t];
      }
    }

    method GetLog(maxEntries: nat) returns (result: seq<string>)
      ensures result == LastOf(log, maxEntries)
    {
      result := [];
      var start := if |log| > maxEntries then |log| - maxEntries else 0;
      for i := start to |log|
        invariant result == log[start..i]
      {
        result := result + [log[i]];
      }
    }

    method AddLogEntry(msg: string)
      modifies `log, `messages
      ensures log == AddLog(old(log), msg) && messages == old(messages) + [msg]
    {
      log := log + [msg];
      messages := messages + [msg];
      if |log| > LOG_LIMIT {
        log := log[1..];
      }
    }

    ghost predicate Streaming()
      reads `onAir, `signal, tx, modulator, modulator.history, modulator.poly
    {
      && tx.Valid() && modulator.Valid()
      && OnStream(modulator.config, modulator.past, modulator.phase, onAir, signal)
    }

    /** Modulate a frame into the ring. */
    method SendFrame(dibits: seq<dibit>)
      requires Streaming() && |tx.Contents()| + BYTES_PER_DIBIT * |dibits| < tx.size
      modifies `onAir, `signal, tx`wpos, tx.ring, modulator`histPos, modulator`phase, modulator`past, modulator.history
      ensures Streaming() && onAir == old(onAir) + dibits
      ensures Wrote(old(tx.Contents()), tx.Contents(), old(signal), signal)
      ensures |tx.Contents()| == |old(tx.Contents())| + BYTES_PER_DIBIT * |dibits|
    {
      hide C4fm.PhaseEnd, C4fm.Modulated, C4fm.Symbols, OnStream, C4fm.C4fm.Filter, C4fm.C4fm.Recent,
           SoapyTx.SoapyTx.Contents;
      ghost var past, phase := modulator.past, modulator.phase;
      var iq := modulator.Modulate(dibits);
      tx.Write(iq);
      StreamGrows(modulator.config, past, phase, onAir, signal, dibits);
      onAir, signal := onAir + dibits, signal + iq;
    }

    /** Choose the block for the next slot. */
    method PickBlock(clock: Clock) returns (tsbk: Pdu, logMsg: string)
      requires sysTsbks == StaticBlocks(cfg)
      modifies `queue, `sysIdx
      ensures
        var f := Chosen(old(State()));
        && tsbk == BlockOf(f, cfg, clock) && logMsg == LogLine(f)
        && queue == (if f.Action? then old(queue)[1..] else old(queue))
        && sysIdx == (if f.System? then old(sysIdx) + 1 else old(sysIdx))
    {
      hide StaticBlocks, SyncBcast;
      if frameN % BURST_LEN == 0 || queue == [] {
        var idx := sysIdx % BURST_LEN;
        if idx < 4 {
          tsbk := sysTsbks[idx];
        } else {
          tsbk := BuildSyncBcast(clock);
        }
        logMsg := "SYS " + SysName(idx);
        sysIdx := sysIdx + 1;
      } else {
        tsbk := queue[0];
        queue := queue[1..];
        logMsg := "ACT TSBK";
      }
    }

    /** Count and log a block frame. */
    method Record(logMsg: string, ghost f: Sent)
      modifies `frameCount, `frameN, `log, `messages, `frames, `aired
      ensures frameCount == old(frameCount) + 1 && frameN == old(frameN) + 1
      ensures log == AddLog(old(log), logMsg) && messages == old(messages) + [logMsg]
      ensures frames == old(frames) + [f] && aired == old(aired) + [f]
    {
      frameCount := frameCount + 1;
      AddLogEntry(logMsg);
      frameN := frameN + 1;
      frames, aired := frames + [f], aired + [f];
    }

    /** Send a block frame, count it and log it. */
    method SendBlock(tsbk: Pdu, logMsg: string, ghost f: Sent)
      requires Streaming() && |tx.Contents()| + FRAME_BYTES < tx.size
      modifies `frameCount, `frameN, `log, `messages, `frames, `aired
      modifies `onAir, `signal, tx`wpos, tx.ring, modulator`histPos, modulator`phase, modulator`past, modulator.history
      ensures frameCount == old(frameCount) + 1 && frameN == old(frameN) + 1
      ensures log == AddLog(old(log), logMsg) && messages == old(messages) + [logMsg]
      ensures frames == old(frames) + [f] && aired == old(aired) + [f]
      ensures Streaming() && onAir == old(onAir) + TsbkFrame(cfg.nac, tsbk)
      ensures Wrote(old(tx.Contents()), tx.Contents(), old(signal), signal)
      ensures |tx.Contents()| == |old(tx.Contents())| + FRAME_BYTES
    {
      hide TsbkFrame, OnStream, Wrote, C4fm.C4fm.Filter, C4fm.C4fm.Recent, SoapyTx.SoapyTx.Contents;
      var frame := BuildFrame(cfg.nac, tsbk);
      SendFrame(frame);
      Record(logMsg, f);
    }

    /** The terminator after n block frames, if one is due. */
    function TduDue(n: nat): seq<dibit> { if n % BURST_LEN == 0 then TduFrame(cfg.nac) else [] }

    method EndBurst()
      requires Streaming() && |tx.Contents()| + FRAME_BYTES < tx.size
      modifies `aired
      modifies `onAir, `signal, tx`wpos, tx.ring, modulator`histPos, modulator`phase, modulator`past, modulator.history
      ensures aired == old(aired) + if frameN % BURST_LEN == 0 then [Tdu] else []
      ensures Streaming() && onAir == old(onAir) + TduDue(frameN)
      ensures Wrote(old(tx.Contents()), tx.Contents(), old(signal), signal)
    {
      hide TduFrame, OnStream, C4fm.C4fm.Filter, C4fm.C4fm.Recent, SoapyTx.SoapyTx.Contents;
      if frameN % BURST_LEN == 0 {
        var tdu := BuildTduFrame(cfg.nac);
        SendFrame(tdu);
        aired := aired + [Tdu];
      }
    }

    /** The block frame, and the terminator if it is due. */
    method Transmit(tsbk: Pdu, logMsg: string, ghost f: Sent)
      requires Streaming() && |tx.Contents()| + 2 * FRAME_BYTES < tx.size
      modifies `frameCount, `frameN, `log, `messages, `frames, `aired
      modifies `onAir, `signal, tx`wpos, tx.ring, modulator`histPos, modulator`phase, modulator`past, modulator.history
      ensures frameCount == old(frameCount) + 1 && frameN == old(frameN) + 1
      ensures log == AddLog(old(log), logMsg) && messages == old(messages) + [logMsg]
      ensures frames == old(frames) + [f]
      ensures aired == old(aired) + [f] + if frameN % BURST_LEN == 0 then [Tdu] else []
      ensures Streaming() && onAir == old(onAir) + TsbkFrame(cfg.nac, tsbk) + TduDue(frameN)
      ensures Wrote(old(tx.Contents()), tx.Contents(), old(signal), signal)
    {
      hide TsbkFrame, TduDue, AddLog, OnStream, Wrote, C4fm.C4fm.Filter, C4fm.C4fm.Recent, SoapyTx.SoapyTx.Contents;
      ghost var ring0, signal0 := tx.Contents(), signal;
      SendBlock(tsbk, logMsg, f);
      ghost var ring1, signal1 := tx.Contents(), signal;
      EndBurst();
      WroteTwice(ring0, ring1, tx.Contents(), signal0, signal1, signal);
    }

    /** What one turn of the producer loop puts on air. */
    ghost function NextDibits(clock: Clock): seq<dibit>
      reads this
    {
      TsbkFrame(cfg.nac, BlockOf(Chosen(State()), cfg, clock)) + TduDue(frameN + 1)
    }

    /** One turn of the producer loop, once the ring is at most half full. The writes always find room, and
        what they add to the ring continues the signal of everything sent before. */
    method ProduceFrame(clock: Clock)
      requires Valid() && running && |tx.Contents()| <= tx.size / 2
      modifies this, tx`wpos, tx.ring, modulator`histPos, modulator`phase, modulator`past, modulator.history
      ensures Valid() && State() == Apply(old(State()), Frame)
      ensures onAir == old(onAir) + old(NextDibits(clock))
      ensures Wrote(old(tx.Contents()), tx.Contents(), old(signal), signal)
    {
      hide TsbkFrame, TduFrame, TduDue, StaticBlocks, Chosen, AddLog, BlockOf, LogLine, OnStream, Wrote, Streaming,
           SoapyTx.SoapyTx.Contents;
      ghost var f := Chosen(State());
      var tsbk, logMsg := PickBlock(clock);
      Transmit(tsbk, logMsg, f);
    }
  }
}
