/** The single-producer single-consumer ring of src/tx/SoapyTx.cpp as two threads whose loads, byte copies
    and index publications interleave freely. */
module RingProtocol {
  import opened Bits
  import opened Modular

  /** Ring size, back-off threshold, and the largest read. */
  datatype Config = Config(size: nat, threshold: nat, chunk: nat)

  predicate ValidConfig(c: Config) { c.size > 0 && c.chunk > 0 }

  /** Where the producer is: in write() with its own index loaded, then with the room computed from a read
      index that goes stale, then copying byte i to cell w; or at the same two loads in the back-off loop. */
  datatype Producer =
    | Idle
    | WriteLoadedW(data: seq<sample>, w: nat)
    | WriteLoadedR(data: seq<sample>, avail: nat)
    | Copying(data: seq<sample>, i: nat, w: nat)
    | PollLoadedW(w: nat)
    | PollLoadedR(avail: nat)

  /** Where the consumer is; seen records how many bytes had been published when w was loaded. */
  datatype Consumer =
    | Resting
    | LoadedW(w: nat, seen: nat)
    | Reading(n: nat, r: nat, dst: seq<sample>)

  /** The shared memory and the threads; then history: everything published by each side, and the bytes
      published since the producer last found the ring at most threshold full. */
  datatype State = State(
    mem: seq<sample>, wpos: nat, rpos: nat, producer: Producer, consumer: Consumer,
    sent: seq<sample>, received: seq<sample>, burst: nat)

  datatype Event =
    | PollW | PollR | PollPass | PollFail
    | StartWrite(data: seq<sample>) | WriteR | Spin | StartCopy | CopyByte | PublishW
    | LoadW | LoadR | ReadByte | PublishR

  function Init(c: Config): State
    requires ValidConfig(c)
  {
    State(seq(c.size, i => 0), 0, 0, Idle, Resting, [], [], 0)
  }

  /** ringAvailable() on the two loaded indices. */
  function Available(c: Config, w: nat, r: nat): int
    requires ValidConfig(c)
  {
    (w - r + c.size) % c.size
  }

  predicate Enabled(c: Config, s: State, e: Event)
    requires ValidConfig(c)
  {
    match e
    case PollW => s.producer.Idle?
    case PollR => s.producer.PollLoadedW?
    case PollPass => s.producer.PollLoadedR? && s.producer.avail <= c.threshold
    case PollFail => s.producer.PollLoadedR? && s.producer.avail > c.threshold
    case StartWrite(_) => s.producer.Idle?
    case WriteR => s.producer.WriteLoadedW?
    case Spin => s.producer.WriteLoadedR? && s.producer.avail + |s.producer.data| >= c.size
    case StartCopy => s.producer.WriteLoadedR? && s.producer.avail + |s.producer.data| < c.size
    case CopyByte => s.producer.Copying? && s.producer.i < |s.producer.data| && s.producer.w < |s.mem|
    case PublishW => s.producer.Copying? && s.producer.i == |s.producer.data|
    case LoadW => s.consumer.Resting?
    case LoadR => s.consumer.LoadedW?
    case ReadByte => s.consumer.Reading? && |s.consumer.dst| < s.consumer.n && s.consumer.r < |s.mem|
    case PublishR => s.consumer.Reading? && |s.consumer.dst| == s.consumer.n
  }

  function Apply(c: Config, s: State, e: Event): State
    requires ValidConfig(c) && Enabled(c, s, e)
  {
    match e
    case PollW => s.(producer := PollLoadedW(s.wpos))
    case PollR => s.(producer := PollLoadedR(Available(c, s.producer.w, s.rpos)))
    case PollPass => s.(producer := Idle, burst := 0)
    case PollFail => s.(producer := Idle)
    case StartWrite(data) => s.(producer := WriteLoadedW(data, s.wpos))
    case WriteR => s.(producer := WriteLoadedR(s.producer.data, Available(c, s.producer.w, s.rpos)))
    case Spin => s.(producer := WriteLoadedW(s.producer.data, s.wpos))
    case StartCopy => s.(producer := Copying(s.producer.data, 0, s.wpos))
    case CopyByte =>
      var Copying(data, i, w) := s.producer;
      s.(mem := s.mem[w := data[i]], producer := Copying(data, i + 1, (w + 1) % c.size))
    case PublishW =>
      s.(wpos := s.producer.w, sent := s.sent + s.producer.data,
         burst := s.burst + |s.producer.data|, producer := Idle)
    case LoadW => s.(consumer := LoadedW(s.wpos, |s.sent|))
    case LoadR =>
      var avail := Available(c, s.consumer.w, s.rpos);
      s.(consumer := Reading(if avail < c.chunk then avail else c.chunk, s.rpos, []))
    case ReadByte =>
      var Reading(n, r, dst) := s.consumer;
      s.(consumer := Reading(n, (r + 1) % c.size, dst + [s.mem[r]]))
    case PublishR =>
      s.(rpos := s.consumer.r, received := s.received + s.consumer.dst, consumer := Resting)
  }

  // ----- what every step keeps

  ghost predicate RingInv(c: Config, s: State)
    requires ValidConfig(c)
  {
    var n, w, r := c.size, |s.sent|, |s.received|;
    && |s.mem| == n
    && r <= w < r + n
    && s.wpos == w % n && s.rpos == r % n
    && s.received == s.sent[..r]
    && (forall k :: r <= k < w ==> s.mem[k % n] == s.sent[k])
    && w - r <= c.threshold + s.burst
  }

  ghost predicate ProducerInv(c: Config, s: State)
    requires ValidConfig(c) && RingInv(c, s)
  {
    var n, w, r := c.size, |s.sent|, |s.received|;
    match s.producer
    case Idle => true
    case WriteLoadedW(_, w0) => w0 == s.wpos
    case WriteLoadedR(_, avail) => w - r <= avail <= c.threshold + s.burst
    case Copying(data, i, p) =>
      && i <= |data| && w + |data| < r + n
      && p == (w + i) % n
      && (forall k :: 0 <= k < i ==> s.mem[(w + k) % n] == data[k])
    case PollLoadedW(w0) => w0 == s.wpos
    case PollLoadedR(avail) => w - r <= avail
  }

  ghost predicate ConsumerInv(c: Config, s: State)
    requires ValidConfig(c) && RingInv(c, s)
  {
    var n, w, r := c.size, |s.sent|, |s.received|;
    match s.consumer
    case Resting => true
    case LoadedW(w0, seen) => r <= seen <= w && w0 == seen % n
    case Reading(m, p, dst) =>
      && r + m <= w && |dst| <= m <= c.chunk
      && p == (r + |dst|) % n
      && dst == s.sent[r..r + |dst|]
  }

  ghost predicate Inv(c: Config, s: State)
    requires ValidConfig(c)
  {
    RingInv(c, s) && ProducerInv(c, s) && ConsumerInv(c, s)
  }

  lemma InitInv(c: Config)
    requires ValidConfig(c)
    ensures Inv(c, Init(c))
  {
    WrapOnce(0, c.size);
  }

  lemma ProducerStep(c: Config, s: State, e: Event)
    requires ValidConfig(c) && Inv(c, s) && Enabled(c, s, e)
    requires e.PollW? || e.PollR? || e.PollPass? || e.PollFail? || e.StartWrite? || e.WriteR? || e.Spin? || e.StartCopy?
    ensures Inv(c, Apply(c, s, e))
  {
    if e.PollR? || e.WriteR? {
      Lap(|s.received|, |s.sent|, c.size);
    }
  }

  lemma CopyStep(c: Config, s: State)
    requires ValidConfig(c) && Inv(c, s) && Enabled(c, s, CopyByte)
    ensures Inv(c, Apply(c, s, CopyByte))
  {
    var n, w, r := c.size, |s.sent|, |s.received|;
    var Copying(data, i, p) := s.producer;
    var s' := Apply(c, s, CopyByte);
    Next(w + i, n);
    forall k | r <= k < w + i
      ensures k % n != p
    {
      Apart(k, w + i, n);
    }
    assert RingInv(c, s');
    forall k | 0 <= k < i + 1
      ensures s'.mem[(w + k) % n] == data[k]
    {
      if k < i {
        assert (w + k) % n != p;
      }
    }
  }

  lemma PublishWStep(c: Config, s: State)
    requires ValidConfig(c) && Inv(c, s) && Enabled(c, s, PublishW)
    ensures Inv(c, Apply(c, s, PublishW))
  {
    var n, w, r := c.size, |s.sent|, |s.received|;
    var s' := Apply(c, s, PublishW);
    var data := s.producer.data;
    assert s'.sent[..r] == s.sent[..r];
    forall k | r <= k < |s'.sent|
      ensures s'.mem[k % n] == s'.sent[k]
    {
      if k >= w {
        assert s.mem[(w + (k - w)) % n] == data[k - w];
      }
    }
    assert RingInv(c, s');
    if s.consumer.Reading? {
      var d := |s.consumer.dst|;
      assert s'.sent[r..r + d] == s.sent[r..r + d];
    }
  }

  lemma LoadStep(c: Config, s: State, e: Event)
    requires ValidConfig(c) && Inv(c, s) && Enabled(c, s, e)
    requires e.LoadW? || e.LoadR?
    ensures Inv(c, Apply(c, s, e))
  {
    var s' := Apply(c, s, e);
    assert RingInv(c, s');
    if e.LoadR? {
      Lap(|s.received|, s.consumer.seen, c.size);
    }
  }

  lemma ReadStep(c: Config, s: State)
    requires ValidConfig(c) && Inv(c, s) && Enabled(c, s, ReadByte)
    ensures Inv(c, Apply(c, s, ReadByte))
  {
    var r, s' := |s.received|, Apply(c, s, ReadByte);
    assert RingInv(c, s');
    var Reading(m, p, dst) := s.consumer;
    Next(r + |dst|, c.size);
    assert s.mem[p] == s.sent[r + |dst|];
  }

  lemma PublishRStep(c: Config, s: State)
    requires ValidConfig(c) && Inv(c, s) && Enabled(c, s, PublishR)
    ensures Inv(c, Apply(c, s, PublishR))
  {
    var r, d := |s.received|, s.consumer.dst;
    var s' := Apply(c, s, PublishR);
    assert s.sent[..r + |d|] == s.sent[..r] + s.sent[r..r + |d|];
    assert RingInv(c, s');
  }

  /** Every step of either thread keeps the invariant. */
  lemma StepInv(c: Config, s: State, e: Event)
    requires ValidConfig(c) && Inv(c, s) && Enabled(c, s, e)
    ensures Inv(c, Apply(c, s, e))
  {
    hide Inv, Apply, Enabled;
    match e
    case CopyByte => CopyStep(c, s);
    case PublishW => PublishWStep(c, s);
    case PublishR => PublishRStep(c, s);
    case LoadW => LoadStep(c, s, e);
    case LoadR => LoadStep(c, s, e);
    case ReadByte => ReadStep(c, s);
    case _ => ProducerStep(c, s, e);
  }

  // ----- the ring is a queue

  /** The bytes published and not yet released. */
  function Queue(c: Config, s: State): seq<sample>
    requires |s.received| <= |s.sent|
  {
    s.sent[|s.received|..]
  }

  /** Publishing a write appends its bytes, publishing a read removes what was read from the front, and no
      other step of either thread shows. */
  lemma StepIsQueueStep(c: Config, s: State, e: Event)
    requires ValidConfig(c) && Inv(c, s) && Enabled(c, s, e)
    ensures |s.received| <= |s.sent| && |Apply(c, s, e).received| <= |Apply(c, s, e).sent|
    ensures |Queue(c, s)| < c.size
    ensures
      var q, q' := Queue(c, s), Queue(c, Apply(c, s, e));
      match e
      case PublishW => q' == q + s.producer.data
      case PublishR => q == s.consumer.dst + q' && Apply(c, s, e).received == s.received + s.consumer.dst
      case _ => q' == q
  {
    hide Inv, Available;
    StepInv(c, s, e);
    QueueBounds(c, s);
    QueueBounds(c, Apply(c, s, e));
    if e.PublishR? {
      var r, d := |s.received|, |s.consumer.dst|;
      ReadIsFront(c, s);
      Cut(s.sent, r, d);
    }
  }

  lemma Cut(s: seq<sample>, r: nat, d: nat)
    requires r + d <= |s|
    ensures s[r..] == s[r..r + d] + s[r + d..]
  {
  }

  lemma QueueBounds(c: Config, s: State)
    requires ValidConfig(c) && Inv(c, s)
    ensures |s.received| <= |s.sent| < |s.received| + c.size
  {
  }

  lemma ReadIsFront(c: Config, s: State)
    requires ValidConfig(c) && Inv(c, s) && s.consumer.Reading?
    ensures |s.received| + |s.consumer.dst| <= |s.sent|
    ensures s.consumer.dst == s.sent[|s.received|..|s.received| + |s.consumer.dst|]
  {
  }

  /** The cell that byte k of the stream is kept in. */
  function CellOf(c: Config, k: nat): nat
    requires ValidConfig(c)
  {
    k % c.size
  }

  /** The cells still to be written and the cells still to be read never coincide. */
  lemma RegionsDisjoint(c: Config, s: State, i: nat, j: nat)
    requires ValidConfig(c) && Inv(c, s) && s.producer.Copying? && s.consumer.Reading?
    requires s.producer.i <= i < |s.producer.data| && |s.consumer.dst| <= j < s.consumer.n
    ensures CellOf(c, |s.sent| + i) != CellOf(c, |s.received| + j)
    ensures s.producer.w == CellOf(c, |s.sent| + s.producer.i)
    ensures s.consumer.r == CellOf(c, |s.received| + |s.consumer.dst|)
  {
    hide Inv, CellOf;
    ActiveBounds(c, s);
    CellsApart(c, |s.received| + j, |s.sent| + i);
  }

  lemma CellsApart(c: Config, k: nat, m: nat)
    requires ValidConfig(c) && k < m < k + c.size
    ensures CellOf(c, k) != CellOf(c, m)
  {
    Apart(k, m, c.size);
  }

  lemma ActiveBounds(c: Config, s: State)
    requires ValidConfig(c) && Inv(c, s) && s.producer.Copying? && s.consumer.Reading?
    ensures |s.sent| + |s.producer.data| < |s.received| + c.size
    ensures |s.received| + s.consumer.n <= |s.sent|
    ensures s.producer.w == CellOf(c, |s.sent| + s.producer.i)
    ensures s.consumer.r == CellOf(c, |s.received| + |s.consumer.dst|)
  {
  }

  /** A byte about to be copied has its cell inside the memory, on either side. */
  lemma CellsInRange(c: Config, s: State)
    requires ValidConfig(c) && Inv(c, s)
    ensures |s.mem| == c.size
    ensures s.producer.Copying? ==> s.producer.w < |s.mem| && s.producer.i <= |s.producer.data|
    ensures s.consumer.Reading? ==> s.consumer.r < |s.mem| && |s.consumer.dst| <= s.consumer.n
  {
  }

  // ----- neither thread is ever stuck

  /** What the producer does next in a state, if it is not between operations. */
  function NextOfProducer(c: Config, p: Producer): (e: Event)
    ensures !e.StartWrite?
  {
    match p
    case Idle => PollW
    case PollLoadedW(_) => PollR
    case PollLoadedR(avail) => if avail <= c.threshold then PollPass else PollFail
    case WriteLoadedW(_, _) => WriteR
    case WriteLoadedR(data, avail) => if avail + |data| >= c.size then Spin else StartCopy
    case Copying(data, i, _) => if i < |data| then CopyByte else PublishW
  }

  function NextOfConsumer(k: Consumer): Event {
    match k
    case Resting => LoadW
    case LoadedW(_, _) => LoadR
    case Reading(n, _, dst) => if |dst| < n then ReadByte else PublishR
  }

  predicate ReadersStep(e: Event) { e.LoadW? || e.LoadR? || e.ReadByte? || e.PublishR? }

  /** In every reachable state each thread has exactly one step to take, the producer between operations aside:
      no copy is blocked by its cell, and neither thread ever waits for a step of the other. */
  lemma NeverStuck(c: Config, s: State, e: Event)
    requires ValidConfig(c) && Inv(c, s)
    ensures ReadersStep(e) ==> (Enabled(c, s, e) <==> e == NextOfConsumer(s.consumer))
    ensures !ReadersStep(e) && !s.producer.Idle? ==> (Enabled(c, s, e) <==> e == NextOfProducer(c, s.producer))
    ensures !ReadersStep(e) && s.producer.Idle? ==> (Enabled(c, s, e) <==> e.PollW? || e.StartWrite?)
  {
    hide Inv;
    CellsInRange(c, s);
  }

  // ----- whole runs

  ghost predicate Feasible(c: Config, es: seq<Event>)
    requires ValidConfig(c)
    decreases |es|, 0
  {
    if es == [] then true
    else
      var n := |es| - 1;
      Feasible(c, es[..n]) && Enabled(c, Final(c, es[..n]), es[n])
  }

  /** The state after a run. */
  ghost function Final(c: Config, es: seq<Event>): State
    requires ValidConfig(c) && Feasible(c, es)
    decreases |es|, 1
  {
    if es == [] then Init(c) else Apply(c, Final(c, es[..|es| - 1]), es[|es| - 1])
  }

  /** Every run keeps the invariant. */
  lemma {:induction false} RunInv(c: Config, es: seq<Event>)
    requires ValidConfig(c) && Feasible(c, es)
    ensures Inv(c, Final(c, es))
    decreases |es|
  {
    hide Inv, Apply, Enabled;
    if es == [] {
      InitInv(c);
    } else {
      var n := |es| - 1;
      RunInv(c, es[..n]);
      StepInv(c, Final(c, es[..n]), es[n]);
    }
  }

  /** All the bytes handed to write(), in order. */
  function Submitted(es: seq<Event>): seq<sample> {
    if es == [] then []
    else
      var n := |es| - 1;
      Submitted(es[..n]) + if es[n].StartWrite? then es[n].data else []
  }

  function InFlight(p: Producer): seq<sample> {
    if p.WriteLoadedW? || p.WriteLoadedR? || p.Copying? then p.data else []
  }

  lemma StepSubmits(c: Config, s: State, e: Event)
    requires ValidConfig(c) && Enabled(c, s, e)
    ensures
      var s' := Apply(c, s, e);
      s'.sent + InFlight(s'.producer) == s.sent + InFlight(s.producer) + if e.StartWrite? then e.data else []
  {
    hide Available;
  }

  /** What was published, followed by the write in progress, is what was submitted. */
  lemma {:induction false} NothingInvented(c: Config, es: seq<Event>)
    requires ValidConfig(c) && Feasible(c, es)
    ensures Final(c, es).sent + InFlight(Final(c, es).producer) == Submitted(es)
    decreases |es|
  {
    hide Apply, Enabled, InFlight;
    if es == [] {
      assert InFlight(Idle) == [] by { NoneInFlight(); }
    } else {
      var n := |es| - 1;
      NothingInvented(c, es[..n]);
      StepSubmits(c, Final(c, es[..n]), es[n]);
    }
  }

  lemma NoneInFlight()
    ensures InFlight(Idle) == []
  {
  }

  /** Whatever the interleaving, the bytes read are a prefix of the bytes written, and a full ring never
      looks empty. */
  lemma RingRefinesFifo(c: Config, es: seq<Event>)
    requires ValidConfig(c) && Feasible(c, es)
    ensures
      var s := Final(c, es);
      && s.received <= s.sent <= Submitted(es)
      && |s.sent| - |s.received| < c.size
      && (s.wpos == s.rpos <==> |s.sent| == |s.received|)
  {
    RunInv(c, es);
    NothingInvented(c, es);
    var s := Final(c, es);
    if |s.sent| != |s.received| {
      Apart(|s.received|, |s.sent|, c.size);
    }
  }

  // ----- chunks

  /** What the reading thread hands to the hardware: a full chunk, of which the first filled bytes were read and
      the rest are zeros. */
  datatype Chunk = Chunk(bytes: seq<sample>, filled: nat)

  function PaddedChunk(c: Config, dst: seq<sample>): Chunk {
    Chunk(dst + seq(if |dst| < c.chunk then c.chunk - |dst| else 0, i => 0), |dst|)
  }

  /** The chunks of a run, one for every read. */
  ghost function Chunks(c: Config, es: seq<Event>): seq<Chunk>
    requires ValidConfig(c) && Feasible(c, es)
    decreases |es|
  {
    if es == [] then []
    else
      var n := |es| - 1;
      Chunks(c, es[..n])
      + if es[n].PublishR? then [PaddedChunk(c, Final(c, es[..n]).consumer.dst)] else []
  }

  /** The bytes of some chunks without the padding. */
  function Unpadded(chunks: seq<Chunk>): seq<sample> {
    if chunks == [] then []
    else
      var n := |chunks| - 1;
      Unpadded(chunks[..n])
      + if chunks[n].filled <= |chunks[n].bytes| then chunks[n].bytes[..chunks[n].filled] else []
  }

  predicate FullChunk(c: Config, k: Chunk) {
    && |k.bytes| == c.chunk && k.filled <= c.chunk
    && forall i :: k.filled <= i < |k.bytes| ==> k.bytes[i] == 0
  }

  lemma UnpaddedSnoc(c: Config, chunks: seq<Chunk>, dst: seq<sample>)
    requires |dst| <= c.chunk
    ensures Unpadded(chunks + [PaddedChunk(c, dst)]) == Unpadded(chunks) + dst
    ensures FullChunk(c, PaddedChunk(c, dst))
  {
    var k := PaddedChunk(c, dst);
    assert (chunks + [k])[..|chunks|] == chunks;
    assert k.bytes[..k.filled] == dst;
  }

  lemma ReadFits(c: Config, s: State)
    requires ValidConfig(c) && Inv(c, s) && s.consumer.Reading?
    ensures |s.consumer.dst| <= c.chunk
  {
  }

  lemma ReceivedStep(c: Config, s: State, e: Event)
    requires ValidConfig(c) && Enabled(c, s, e)
    ensures Apply(c, s, e).received == s.received + if e.PublishR? then s.consumer.dst else []
  {
    hide Available;
  }

  lemma NothingChunked(c: Config)
    requires ValidConfig(c)
    ensures Unpadded([]) == [] == Init(c).received
  {
  }

  lemma {:induction false} ChunksAreReads(c: Config, es: seq<Event>)
    requires ValidConfig(c) && Feasible(c, es)
    ensures Unpadded(Chunks(c, es)) == Final(c, es).received
    ensures forall k :: 0 <= k < |Chunks(c, es)| ==> FullChunk(c, Chunks(c, es)[k])
    decreases |es|
  {
    hide Inv, FullChunk, PaddedChunk, Unpadded, Apply, Enabled, Init;
    NothingChunked(c);
    if es != [] {
      var n := |es| - 1;
      var s, before := Final(c, es[..n]), Chunks(c, es[..n]);
      ChunksAreReads(c, es[..n]);
      RunInv(c, es[..n]);
      ReceivedStep(c, s, es[n]);
      if es[n].PublishR? {
        PublishReads(c, s);
        ReadFits(c, s);
        UnpaddedSnoc(c, before, s.consumer.dst);
      } else {
        assert before + [] == before && s.received + [] == s.received;
      }
    }
  }

  lemma PublishReads(c: Config, s: State)
    requires ValidConfig(c) && Enabled(c, s, PublishR)
    ensures s.consumer.Reading?
  {
  }

  /** Every chunk is full, and without the padding the chunks are what was read, which is a prefix of what was
      written: however the threads interleave, an underrun inserts zeros and loses nothing. */
  lemma ChunksCarry(c: Config, es: seq<Event>)
    requires ValidConfig(c) && Feasible(c, es)
    ensures Unpadded(Chunks(c, es)) <= Submitted(es)
    ensures Unpadded(Chunks(c, es)) == Final(c, es).received
    ensures forall k :: 0 <= k < |Chunks(c, es)| ==> FullChunk(c, Chunks(c, es)[k])
  {
    hide FullChunk, Unpadded, Chunks, Feasible, Final, Submitted;
    ChunksAreReads(c, es);
    RingRefinesFifo(c, es);
  }

  // ----- back-pressure

  /** Bytes handed to write() since the producer last found the ring at most threshold full. */
  function SincePoll(es: seq<Event>): nat {
    if es == [] then 0
    else
      var n := |es| - 1;
      if es[n].PollPass? then 0
      else SincePoll(es[..n]) + if es[n].StartWrite? then |es[n].data| else 0
  }

  /** A producer that never hands over more than budget bytes between two successful polls. */
  predicate Paced(es: seq<Event>, budget: nat) {
    forall i :: 0 <= i <= |es| ==> SincePoll(es[..i]) <= budget
  }

  lemma StepBurst(c: Config, s: State, e: Event)
    requires ValidConfig(c) && Enabled(c, s, e)
    ensures
      var s' := Apply(c, s, e);
      s'.burst + |InFlight(s'.producer)|
        == if e.PollPass? then 0
           else s.burst + |InFlight(s.producer)| + if e.StartWrite? then |e.data| else 0
  {
    hide Available;
  }

  lemma {:induction false} BurstIsSincePoll(c: Config, es: seq<Event>)
    requires ValidConfig(c) && Feasible(c, es)
    ensures Final(c, es).burst + |InFlight(Final(c, es).producer)| == SincePoll(es)
    decreases |es|
  {
    hide Apply, Enabled, InFlight;
    if es == [] {
      NoneInFlight();
    } else {
      var n := |es| - 1;
      BurstIsSincePoll(c, es[..n]);
      StepBurst(c, Final(c, es[..n]), es[n]);
    }
  }

  lemma RoomToWrite(c: Config, s: State, budget: nat)
    requires ValidConfig(c) && Inv(c, s) && c.threshold + budget < c.size
    requires s.burst + |InFlight(s.producer)| <= budget
    ensures !Enabled(c, s, Spin)
    ensures |s.sent| - |s.received| <= c.threshold + budget
  {
  }

  /** If the threshold and the budget fit the ring together, the wait loop in write() never iterates. */
  lemma NoSpin(c: Config, es: seq<Event>, budget: nat)
    requires ValidConfig(c) && Feasible(c, es) && Paced(es, budget)
    requires c.threshold + budget < c.size
    ensures Spin !in es
    ensures |Final(c, es).sent| - |Final(c, es).received| <= c.threshold + budget
  {
    hide Inv, Enabled, Apply, InFlight, SincePoll;
    forall i | 0 <= i <= |es|
      ensures Feasible(c, es[..i]) && !Enabled(c, Final(c, es[..i]), Spin)
    {
      SpinDisabled(c, es, budget, i);
    }
    forall i | 0 <= i < |es|
      ensures es[i] != Spin
    {
      PrefixFeasible(c, es, i + 1);
      assert es[..i + 1] == es[..i] + [es[i]];
      LastStep(c, es[..i], es[i]);
    }
    assert es[..|es|] == es;
    SpinDisabled(c, es, budget, |es|);
  }

  lemma SpinDisabled(c: Config, es: seq<Event>, budget: nat, i: nat)
    requires ValidConfig(c) && Feasible(c, es) && Paced(es, budget) && i <= |es|
    requires c.threshold + budget < c.size
    ensures Feasible(c, es[..i]) && !Enabled(c, Final(c, es[..i]), Spin)
    ensures |Final(c, es[..i]).sent| - |Final(c, es[..i]).received| <= c.threshold + budget
  {
    hide Inv, Enabled, Feasible, Final, InFlight, SincePoll;
    PrefixFeasible(c, es, i);
    RunInv(c, es[..i]);
    BurstIsSincePoll(c, es[..i]);
    RoomToWrite(c, Final(c, es[..i]), budget);
  }

  lemma {:induction false} PrefixFeasible(c: Config, es: seq<Event>, i: nat)
    requires ValidConfig(c) && Feasible(c, es) && i <= |es|
    ensures Feasible(c, es[..i])
    decreases |es|
  {
    if i == |es| {
      assert es[..i] == es;
    } else {
      var n := |es| - 1;
      PrefixFeasible(c, es[..n], i);
      assert es[..n][..i] == es[..i];
    }
  }

  // ----- the reader drains what was published

  /** Reads completed since the last write was published. */
  function Rounds(es: seq<Event>): nat {
    if es == [] then 0
    else
      var n := |es| - 1;
      if es[n].PublishW? then 0 else Rounds(es[..n]) + if es[n].PublishR? then 1 else 0
  }

  /** What is left of b bytes after n full chunks. */
  function Drained(c: Config, b: nat, n: nat): nat {
    if n == 0 then b else
      var left := Drained(c, b, n - 1);
      if left < c.chunk then 0 else left - c.chunk
  }

  /** After k reads since the last write, of which the first may have begun before it. */
  predicate Draining(c: Config, s: State, b: nat, k: nat) {
    && |s.received| <= |s.sent|
    && |s.sent| - |s.received| <= Drained(c, b, if k == 0 then 0 else k - 1)
    && (k > 0 && s.consumer.LoadedW? ==> s.consumer.seen == |s.sent|)
    && (k > 0 && s.consumer.Reading? ==>
          s.consumer.n == if |s.sent| - |s.received| < c.chunk then |s.sent| - |s.received| else c.chunk)
  }

  lemma StepDrains(c: Config, s: State, e: Event, b: nat, k: nat)
    requires ValidConfig(c) && Inv(c, s) && Enabled(c, s, e) && Draining(c, s, b, k) && !e.PublishW?
    ensures Draining(c, Apply(c, s, e), b, k + if e.PublishR? then 1 else 0)
  {
    hide Inv, Available;
    QueueBounds(c, s);
    if e.LoadR? {
      LoadedAvailable(c, s);
    } else if e.PublishR? {
      ReadIsFront(c, s);
    }
  }

  lemma Occupancy(c: Config, es: seq<Event>, budget: nat)
    requires ValidConfig(c) && Feasible(c, es) && SincePoll(es) <= budget
    ensures 0 <= |Final(c, es).sent| - |Final(c, es).received| <= c.threshold + budget
  {
    hide Inv, Final, Feasible, SincePoll, InFlight;
    RunInv(c, es);
    BurstIsSincePoll(c, es);
    QueueWithin(c, Final(c, es));
  }

  lemma QueueWithin(c: Config, s: State)
    requires ValidConfig(c) && Inv(c, s)
    ensures 0 <= |s.sent| - |s.received| <= c.threshold + s.burst
  {
  }

  lemma PacedPrefix(es: seq<Event>, budget: nat)
    requires es != [] && Paced(es, budget)
    ensures Paced(es[..|es| - 1], budget) && SincePoll(es) <= budget
  {
    hide SincePoll;
    assert es[..|es|] == es && SincePoll(es[..|es|]) <= budget;
    var before := es[..|es| - 1];
    forall i | 0 <= i < |es|
      ensures before[..i] == es[..i]
    {
    }
  }

  /** Whatever the schedule, each read after the first since a write takes a full chunk or all there is. */
  lemma {:induction false} ReaderDrains(c: Config, es: seq<Event>, budget: nat)
    requires ValidConfig(c) && Feasible(c, es) && Paced(es, budget)
    ensures Draining(c, Final(c, es), c.threshold + budget, Rounds(es))
    decreases |es|
  {
    hide Inv, Apply, Enabled, Drained, SincePoll, Paced;
    if es == [] {
      InitDrains(c, c.threshold + budget);
    } else {
      var n := |es| - 1;
      PacedPrefix(es, budget);
      ReaderDrains(c, es[..n], budget);
      RunInv(c, es[..n]);
      if es[n].PublishW? {
        Occupancy(c, es, budget);
        NothingDrained(c, c.threshold + budget);
      } else {
        StepDrains(c, Final(c, es[..n]), es[n], c.threshold + budget, Rounds(es[..n]));
      }
    }
  }

  lemma InitDrains(c: Config, b: nat)
    requires ValidConfig(c)
    ensures Draining(c, Init(c), b, 0)
  {
  }

  lemma NothingDrained(c: Config, b: nat)
    ensures Drained(c, b, 0) == b
  {
  }

  lemma {:induction false} DrainedClosed(c: Config, b: nat, n: nat)
    ensures Drained(c, b, n) == if n * c.chunk <= b then b - n * c.chunk else 0
  {
    if n > 0 {
      DrainedClosed(c, b, n - 1);
      assert n * c.chunk == (n - 1) * c.chunk + c.chunk;
    }
  }

  // ----- what the producer has begun ends

  /** The producer's own steps until its poll passes, if it is polling and its next load of the read index finds
      room, or until its write is published, if it is writing and the wait for room does not wait. */
  function Stage(c: Config, p: Producer): (n: nat)
    ensures n > 0
  {
    match p
    case Idle => 3
    case PollLoadedW(_) => 2
    case PollLoadedR(avail) => if avail <= c.threshold then 1 else 4
    case WriteLoadedW(data, _) => |data| + 3
    case WriteLoadedR(data, _) => |data| + 2
    case Copying(data, i, _) => if i <= |data| then |data| - i + 1 else 1
  }

  predicate Writing(p: Producer) { p.WriteLoadedW? || p.WriteLoadedR? || p.Copying? }

  /** A step that neither ends nor begins what the producer is doing, nor waits for room. */
  predicate Continues(e: Event) { !e.PollPass? && !e.PublishW? && !e.StartWrite? && !e.Spin? }

  function OwnSteps(es: seq<Event>): nat {
    if es == [] then 0
    else
      var n := |es| - 1;
      OwnSteps(es[..n]) + if ReadersStep(es[n]) then 0 else 1
  }

  lemma StepStage(c: Config, s: State, e: Event)
    requires ValidConfig(c) && Inv(c, s) && Enabled(c, s, e) && Continues(e)
    requires e.PollR? ==> |s.sent| - |s.received| <= c.threshold
    ensures Stage(c, Apply(c, s, e).producer) + (if ReadersStep(e) then 0 else 1) == Stage(c, s.producer)
    ensures Writing(Apply(c, s, e).producer) == Writing(s.producer)
  {
    hide Inv, Available;
    CellsInRange(c, s);
    if e.PollR? {
      PolledAvailable(c, s);
    }
  }

  lemma PolledAvailable(c: Config, s: State)
    requires ValidConfig(c) && Inv(c, s) && s.producer.PollLoadedW?
    ensures Available(c, s.producer.w, s.rpos) == |s.sent| - |s.received|
  {
    Lap(|s.received|, |s.sent|, c.size);
  }

  /** Enough reads for the ring to be at most threshold full, since the last write. */
  predicate Caught(c: Config, es: seq<Event>, budget: nat) {
    Rounds(es) >= 1 && (Rounds(es) - 1) * c.chunk >= budget
  }

  lemma CaughtUp(c: Config, es: seq<Event>, budget: nat)
    requires ValidConfig(c) && Feasible(c, es) && Paced(es, budget) && Caught(c, es, budget)
    ensures |Final(c, es).sent| - |Final(c, es).received| <= c.threshold
  {
    hide Feasible, Final, Paced, Rounds, Drained;
    ReaderDrains(c, es, budget);
    DrainedClosed(c, c.threshold + budget, Rounds(es) - 1);
  }

  lemma StillCaught(c: Config, es: seq<Event>, e: Event, budget: nat)
    requires Caught(c, es, budget) && !e.PublishW?
    ensures Caught(c, es + [e], budget)
  {
    assert (es + [e])[..|es|] == es;
    assert Rounds(es + [e]) >= Rounds(es);
  }

  lemma LastStep(c: Config, es: seq<Event>, e: Event)
    requires ValidConfig(c) && Feasible(c, es + [e])
    ensures Feasible(c, es) && Enabled(c, Final(c, es), e)
    ensures Final(c, es + [e]) == Apply(c, Final(c, es), e)
  {
    hide Enabled, Apply;
    assert (es + [e])[..|es|] == es;
  }

  lemma LastOwn(es: seq<Event>, e: Event)
    ensures OwnSteps(es + [e]) == OwnSteps(es) + if ReadersStep(e) then 0 else 1
  {
    assert (es + [e])[..|es|] == es;
  }

  /** Whatever the schedule: a poll passes within four of the producer's own steps, once the reader has caught up;
      and a write that does not wait for room is published within three steps more than it has bytes. */
  lemma {:induction false} OperationEnds(c: Config, es: seq<Event>, on: seq<Event>, budget: nat)
    requires ValidConfig(c) && Feasible(c, es) && Feasible(c, es + on) && Paced(es + on, budget)
    requires Writing(Final(c, es).producer) || Caught(c, es, budget)
    requires forall i :: 0 <= i < |on| ==> Continues(on[i])
    ensures Stage(c, Final(c, es + on).producer) + OwnSteps(on) == Stage(c, Final(c, es).producer)
    ensures Writing(Final(c, es + on).producer) == Writing(Final(c, es).producer)
    ensures Writing(Final(c, es).producer) || Caught(c, es + on, budget)
    decreases |on|
  {
    hide Inv, Apply, Enabled, Feasible, Final, Paced, Caught, Stage, Writing, Continues, ReadersStep;
    if on == [] {
      assert es + on == es;
    } else {
      var n := |on| - 1;
      var before, e := es + on[..n], on[n];
      assert es + on == before + [e] && on == on[..n] + [e];
      assert (before + [e])[..|before|] == before;
      LastStep(c, before, e);
      PacedPrefix(es + on, budget);
      OperationEnds(c, es, on[..n], budget);
      RunInv(c, before);
      LastOwn(on[..n], e);
      OperationStep(c, before, e, budget);
    }
  }

  lemma OperationStep(c: Config, es: seq<Event>, e: Event, budget: nat)
    requires ValidConfig(c) && Feasible(c, es) && Enabled(c, Final(c, es), e) && Inv(c, Final(c, es))
    requires Paced(es, budget) && Continues(e)
    requires Writing(Final(c, es).producer) || Caught(c, es, budget)
    ensures
      var s := Final(c, es);
      && Stage(c, Apply(c, s, e).producer) + (if ReadersStep(e) then 0 else 1) == Stage(c, s.producer)
      && Writing(Apply(c, s, e).producer) == Writing(s.producer)
    ensures Caught(c, es, budget) ==> Caught(c, es + [e], budget)
  {
    hide Inv, Apply, Feasible, Final, Paced, Caught;
    if Caught(c, es, budget) {
      CaughtUp(c, es, budget);
      StillCaught(c, es, e, budget);
    }
    StepStage(c, Final(c, es), e);
  }

  /** The reader's own steps until its read is published, at most. */
  function ReadStage(c: Config, k: Consumer): (n: nat)
    ensures n > 0
  {
    match k
    case Resting => c.chunk + 3
    case LoadedW(_, _) => c.chunk + 2
    case Reading(n, _, dst) => if |dst| <= n then n - |dst| + 1 else 1
  }

  function ReadSteps(es: seq<Event>): nat {
    if es == [] then 0
    else
      var n := |es| - 1;
      ReadSteps(es[..n]) + if ReadersStep(es[n]) then 1 else 0
  }

  lemma StepReads(c: Config, s: State, e: Event)
    requires ValidConfig(c) && Inv(c, s) && Enabled(c, s, e)
    ensures ReadStage(c, Apply(c, s, e).consumer) + (if ReadersStep(e) then 1 else 0)
         <= ReadStage(c, s.consumer) + if e.PublishR? then c.chunk + 3 else 0
  {
    hide Inv, Available;
    CellsInRange(c, s);
    if e.LoadR? {
      LoadedAvailable(c, s);
    }
  }

  lemma LastRead(es: seq<Event>, e: Event)
    ensures ReadSteps(es + [e]) == ReadSteps(es) + if ReadersStep(e) then 1 else 0
    ensures Rounds(es + [e]) == if e.PublishW? then 0 else Rounds(es) + if e.PublishR? then 1 else 0
  {
    assert (es + [e])[..|es|] == es;
  }

  /** Reads end: while nothing is published, every chunk + 3 of the reader's own steps complete one. */
  lemma {:induction false} ReadsEnd(c: Config, es: seq<Event>, on: seq<Event>)
    requires ValidConfig(c) && Feasible(c, es) && Feasible(c, es + on)
    requires forall i :: 0 <= i < |on| ==> Continues(on[i])
    ensures Rounds(es + on) >= Rounds(es)
    ensures ReadStage(c, Final(c, es + on).consumer) + ReadSteps(on)
         <= ReadStage(c, Final(c, es).consumer) + (Rounds(es + on) - Rounds(es)) * (c.chunk + 3)
    decreases |on|
  {
    hide Inv, Apply, Enabled, Feasible, Final, ReadStage, ReadSteps, Rounds, ReadersStep;
    if on == [] {
      assert es + on == es;
      NoReadSteps();
    } else {
      var n := |on| - 1;
      var before, e := es + on[..n], on[n];
      assert es + on == before + [e] && on == on[..n] + [e];
      LastStep(c, before, e);
      ReadsEnd(c, es, on[..n]);
      RunInv(c, before);
      StepReads(c, Final(c, before), e);
      LastRead(on[..n], e);
      LastRead(before, e);
      var k, m := Rounds(before) - Rounds(es), c.chunk + 3;
      assert (k + 1) * m == k * m + m;
    }
  }

  lemma NoReadSteps()
    ensures ReadSteps([]) == 0
  {
  }

  // ----- I/Q alignment

  predicate EvenWrites(es: seq<Event>) {
    forall i :: 0 <= i < |es| && es[i].StartWrite? ==> |es[i].data| % 2 == 0
  }

  /** Both sides are between I/Q pairs. */
  predicate Aligned(s: State) {
    && |s.sent| % 2 == 0 && |s.received| % 2 == 0 && |InFlight(s.producer)| % 2 == 0
    && (s.consumer.LoadedW? ==> s.consumer.seen % 2 == 0)
    && (s.consumer.Reading? ==> s.consumer.n % 2 == 0)
  }

  lemma StepAligned(c: Config, s: State, e: Event)
    requires ValidConfig(c) && Inv(c, s) && Enabled(c, s, e) && Aligned(s)
    requires c.chunk % 2 == 0 && (e.StartWrite? ==> |e.data| % 2 == 0)
    ensures Aligned(Apply(c, s, e))
  {
    hide Available, Inv;
    if e.LoadR? {
      LoadedAvailable(c, s);
    }
  }

  /** If every write is a whole number of I/Q pairs then every read starts on an I byte and ends on a Q byte. */
  lemma {:induction false} ChunksAligned(c: Config, es: seq<Event>)
    requires ValidConfig(c) && Feasible(c, es) && EvenWrites(es)
    requires c.chunk % 2 == 0
    ensures Aligned(Final(c, es))
    decreases |es|
  {
    hide Inv, Apply, Enabled, Aligned;
    if es == [] {
      InitAligned(c);
    } else {
      var n := |es| - 1;
      ChunksAligned(c, es[..n]);
      RunInv(c, es[..n]);
      StepAligned(c, Final(c, es[..n]), es[n]);
    }
  }

  lemma EvenPlace(k: nat, n: nat)
    requires n > 0 && n % 2 == 0 && k % 2 == 0
    ensures k % n % 2 == 0
  {
    assert k == n / 2 * (k / n) * 2 + k % n;
  }

  /** Then, in a ring of even size, both published indices are always even. */
  lemma IndicesEven(c: Config, es: seq<Event>)
    requires ValidConfig(c) && Feasible(c, es) && EvenWrites(es)
    requires c.chunk % 2 == 0 && c.size % 2 == 0
    ensures Final(c, es).wpos % 2 == 0 && Final(c, es).rpos % 2 == 0
  {
    hide Feasible, Final;
    ChunksAligned(c, es);
    RunInv(c, es);
    EvenPlace(|Final(c, es).sent|, c.size);
    EvenPlace(|Final(c, es).received|, c.size);
  }

  lemma InitAligned(c: Config)
    requires ValidConfig(c)
    ensures Aligned(Init(c))
  {
  }

  lemma LoadedAvailable(c: Config, s: State)
    requires ValidConfig(c) && Inv(c, s) && s.consumer.LoadedW?
    ensures Available(c, s.consumer.w, s.rpos) == s.consumer.seen - |s.received|
  {
    Lap(|s.received|, s.consumer.seen, c.size);
  }
}
