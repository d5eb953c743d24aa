/**
 The ring between the thread that writes audio and the callback that plays it: one producer, one consumer, no
 lock. Each thread's work is cut into steps, one sample copied at a time, and the steps may interleave anyhow.
 */
module OutputRing {
  import opened Bytes
  import opened Options

  type Sample = x: int | -0x8000 <= x < 0x8000

  const SIZE := 8192
  const POSITIONS := 0x1_0000_0000_0000_0000

  // ---- Indices ----

  /** Copying n samples in two runs, the second from the beginning, visits the cells modulo the size. */
  function ChunkIndex(position: u64, n: nat, k: nat): nat
    requires k < n
  {
    var start := position % SIZE;
    var first := if n < SIZE - start then n else SIZE - start;
    if k < first then start + k else k - first
  }

  lemma TwoChunks(absolute: nat, n: nat, k: nat)
    requires k < n <= SIZE
    ensures ChunkIndex(absolute % POSITIONS, n, k) == (absolute + k) % SIZE < SIZE
  {
    WrapKeepsIndex(absolute);
  }

  /** The position counters wrap at a multiple of the size. */
  lemma WrapKeepsIndex(absolute: nat)
    ensures absolute % POSITIONS % SIZE == absolute % SIZE
  {
    var q := absolute / POSITIONS;
    assert absolute == q * POSITIONS + absolute % POSITIONS;
    assert q * POSITIONS == SIZE * (q * 0x8_0000_0000_0000);
    MultipleVanishes(q * 0x8_0000_0000_0000, absolute % POSITIONS);
  }

  lemma MultipleVanishes(m: nat, r: nat)
    ensures (SIZE * m + r) % SIZE == r % SIZE
  {
  }

  /** The number of samples queued, from counters that may have wrapped. */
  lemma QueuedExact(read: nat, write: nat)
    requires read <= write <= read + SIZE
    ensures (write % POSITIONS - read % POSITIONS) % POSITIONS == write - read
  {
    var d := write - read;
    var r := read % POSITIONS;
    assert write % POSITIONS == (r + d) % POSITIONS;
  }

  lemma PositionAdvances(absolute: nat, n: nat)
    ensures (absolute % POSITIONS + n) % POSITIONS == (absolute + n) % POSITIONS
  {
  }

  /** Two positions less than the size apart have different cells. */
  lemma CellsDiffer(i: nat, j: nat)
    requires i < j < i + SIZE
    ensures i % SIZE != j % SIZE
  {
  }

  // ---- States ----

  /** A write in progress: its samples, and how many have been copied in. */
  datatype Producer = Producer(samples: seq<Sample>, done: nat)

  /** A render in progress: where it began, the frames wanted, how many there are, and those copied out so far. */
  datatype Consumer = Consumer(from: u64, frames: nat, copied: nat, out: seq<Sample>)

  /**
   The cells; every sample ever published and how many of them have been played; what each thread is doing; and
   what has been played since the ring was last cleared.
   */
  datatype State = State(cells: seq<Sample>, stream: seq<Sample>, read: nat, producer: Option<Producer>,
                         consumer: Option<Consumer>, clearedAt: nat, played: seq<Sample>)

  /** Samples published but not played are in their cells. */
  predicate Queued(cells: seq<Sample>, stream: seq<Sample>, read: nat)
    requires |cells| == SIZE
  {
    forall i | read <= i < |stream| :: cells[i % SIZE] == stream[i]
  }

  /** A write in progress fits behind what has not been played, and what it has copied is in its cells. */
  predicate Writing(cells: seq<Sample>, at: nat, read: nat, p: Producer)
    requires |cells| == SIZE
  {
    && p.done <= |p.samples| && at + |p.samples| <= read + SIZE
    && forall k | 0 <= k < p.done :: cells[(at + k) % SIZE] == p.samples[k]
  }

  /** A render in progress takes what was published when it began, in order. */
  predicate Reading(stream: seq<Sample>, read: nat, c: Consumer) {
    && c.from == read % POSITIONS
    && c.copied <= c.frames && read + c.copied <= |stream| && |c.out| <= c.copied
    && forall k | 0 <= k < |c.out| :: c.out[k] == stream[read + k]
  }

  ghost predicate Consistent(s: State) {
    && |s.cells| == SIZE && s.clearedAt <= s.read <= |s.stream| <= s.read + SIZE
    && Queued(s.cells, s.stream, s.read)
    && (s.producer.Some? ==> Writing(s.cells, |s.stream|, s.read, s.producer.value))
    && (s.consumer.Some? ==> Reading(s.stream, s.read, s.consumer.value))
    && s.played == s.stream[s.clearedAt..s.read]
  }

  lemma Facts(s: State)
    requires Consistent(s)
    ensures |s.cells| == SIZE && s.clearedAt <= s.read <= |s.stream| <= s.read + SIZE
    ensures Queued(s.cells, s.stream, s.read) && s.played == s.stream[s.clearedAt..s.read]
    ensures s.producer.Some? ==> Writing(s.cells, |s.stream|, s.read, s.producer.value)
    ensures s.consumer.Some? ==> Reading(s.stream, s.read, s.consumer.value)
  {
  }

  // ---- The producer's steps ----

  lemma BeginWriteOk(s: State, samples: seq<Sample>)
    requires Consistent(s) && s.producer == None && |samples| <= SIZE - (|s.stream| - s.read)
    ensures Consistent(s.(producer := Some(Producer(samples, 0))))
  {
  }

  function CopiedIn(s: State): State
    requires |s.cells| == SIZE && s.producer.Some? && s.producer.value.done < |s.producer.value.samples|
  {
    var p := s.producer.value;
    s.(cells := s.cells[(|s.stream| + p.done) % SIZE := p.samples[p.done]],
       producer := Some(p.(done := p.done + 1)))
  }

  /** The cell written is never one that still has to be played, nor one already written. */
  lemma CopyInOk(s: State)
    requires Consistent(s) && s.producer.Some? && s.producer.value.done < |s.producer.value.samples|
    ensures |s.cells| == SIZE && Consistent(CopiedIn(s))
    ensures forall i | s.read <= i < |s.stream| :: i % SIZE != (|s.stream| + s.producer.value.done) % SIZE
  {
    Facts(s);
    var p := s.producer.value;
    var at := |s.stream| + p.done;
    forall i | s.read <= i < at
      ensures i % SIZE != at % SIZE
    {
      CellsDiffer(i, at);
    }
    var t := CopiedIn(s);
    forall k | 0 <= k < p.done + 1
      ensures t.cells[(|s.stream| + k) % SIZE] == p.samples[k]
    {
      assert k < p.done ==> (|s.stream| + k) % SIZE != at % SIZE;
    }
  }

  lemma PublishOk(s: State)
    requires Consistent(s) && s.producer.Some? && s.producer.value.done == |s.producer.value.samples|
    ensures Consistent(s.(stream := s.stream + s.producer.value.samples, producer := None))
  {
    var p := s.producer.value;
    var longer := s.stream + p.samples;
    forall i | s.read <= i < |longer|
      ensures s.cells[i % SIZE] == longer[i]
    {
      if i >= |s.stream| {
        assert s.cells[(|s.stream| + (i - |s.stream|)) % SIZE] == p.samples[i - |s.stream|];
      }
    }
    assert longer[s.clearedAt..s.read] == s.stream[s.clearedAt..s.read];
  }

  // ---- The consumer's steps ----

  lemma BeginRenderOk(s: State, frames: nat)
    requires Consistent(s) && s.consumer == None
    ensures var available := |s.stream| - s.read;
            var copied := if frames < available then frames else available;
            Consistent(s.(consumer := Some(Consumer(s.read % POSITIONS, frames, copied, []))))
  {
  }

  lemma CopyOutOk(s: State)
    requires Consistent(s) && s.consumer.Some? && |s.consumer.value.out| < s.consumer.value.copied
    ensures var c := s.consumer.value;
            && |s.cells| == SIZE && s.read + |c.out| < |s.stream|
            && s.cells[(s.read + |c.out|) % SIZE] == s.stream[s.read + |c.out|]
            && Consistent(s.(consumer := Some(c.(out := c.out + [s.stream[s.read + |c.out|]]))))
  {
  }

  lemma FinishRenderOk(s: State)
    requires Consistent(s) && s.consumer.Some? && |s.consumer.value.out| == s.consumer.value.copied
    ensures var c := s.consumer.value;
            && c.out == s.stream[s.read..s.read + c.copied]
            && Consistent(s.(read := s.read + c.copied, consumer := None, played := s.played + c.out))
  {
    var c := s.consumer.value;
    assert s.stream[s.clearedAt..s.read + c.copied] ==
           s.stream[s.clearedAt..s.read] + s.stream[s.read..s.read + c.copied];
  }

  lemma ClearOk(s: State)
    requires Consistent(s) && s.producer == None && s.consumer == None
    ensures Consistent(s.(read := |s.stream|, clearedAt := |s.stream|, played := []))
  {
  }

  /** What has been played since the last clear is the beginning of what has been written since. */
  lemma PlayedIsPrefix(s: State)
    requires Consistent(s)
    ensures s.clearedAt <= |s.stream| && s.played <= s.stream[s.clearedAt..]
  {
  }

  function Silence(n: nat): (z: seq<Sample>)
    ensures |z| == n && forall i | 0 <= i < n :: z[i] == 0
  {
    seq(n, _ => 0)
  }

  class CoreAudioOutput {
    const outputRing: array<Sample>
    var readPosition: u64
    var writePosition: u64

    // Where each thread is
    var producer: Option<Producer>
    var consumer: Option<Consumer>

    ghost var stream: seq<Sample>
    ghost var read: nat
    ghost var clearedAt: nat
    ghost var played: seq<Sample>

    ghost function Now(): State
      reads this, outputRing
    {
      State(outputRing[..], stream, read, producer, consumer, clearedAt, played)
    }

    ghost predicate Valid()
      reads this, outputRing
    {
      && Consistent(Now()) && outputRing.Length == SIZE
      && readPosition == read % POSITIONS && writePosition == |stream| % POSITIONS
    }

    constructor ()
      ensures Valid() && stream == [] && played == [] && producer == None && consumer == None && fresh(outputRing)
      ensures read == 0 && clearedAt == 0
    {
      outputRing := new Sample[SIZE](_ => 0);
      readPosition, writePosition, producer, consumer := 0, 0, None, None;
      stream, read, clearedAt, played := [], 0, 0, [];
    }

    /** queuedFrames: while the device runs, what waits in its own pipeline counts too. */
    method QueuedFrames(running: bool, pipelineLatency: nat) returns (n: nat)
      requires Valid()
      ensures n == |stream| - read + (if running then pipelineLatency else 0)
      ensures !running ==> n <= SIZE
    {
      n := Used();
      n := n + if running then pipelineLatency else 0;
    }

    /** The number of samples in the ring. */
    method Used() returns (n: nat)
      requires Valid()
      ensures n == |stream| - read <= SIZE
    {
      Facts(Now());
      QueuedExact(read, |stream|);
      n := (writePosition - readPosition) % POSITIONS;
    }

    /** write begins: it is refused when the samples do not fit. */
    method BeginWrite(samples: seq<Sample>) returns (accepted: bool)
      requires Valid() && producer == None
      modifies `producer
      ensures Valid() && (accepted <==> |samples| <= SIZE - (|stream| - read))
      ensures producer == if accepted then Some(Producer(samples, 0)) else None
    {
      var used := Used();
      accepted := |samples| <= SIZE - used;
      if accepted {
        BeginWriteOk(Now(), samples);
        producer := Some(Producer(samples, 0));
      }
    }

    /** write copies its next sample in. */
    method CopyIn()
      requires Valid() && producer.Some? && producer.value.done < |producer.value.samples|
      modifies this`producer, outputRing
      ensures Valid() && producer == Some(Producer(old(producer).value.samples, old(producer).value.done + 1))
    {
      Facts(Now());
      CopyInOk(Now());
      var p := producer.value;
      TwoChunks(|stream|, |p.samples|, p.done);
      ghost var before := Now();
      outputRing[ChunkIndex(writePosition, |p.samples|, p.done)] := p.samples[p.done];
      producer := Some(Producer(p.samples, p.done + 1));
      assert Now() == CopiedIn(before);
    }

    /** write publishes what it has copied in. */
    method Publish()
      requires Valid() && producer.Some? && producer.value.done == |producer.value.samples|
      modifies `producer, `writePosition, `stream
      ensures Valid() && stream == old(stream) + old(producer).value.samples && producer == None
    {
      PublishOk(Now());
      PositionAdvances(|stream|, |producer.value.samples|);
      writePosition := (writePosition + |producer.value.samples|) % POSITIONS;
      stream := stream + producer.value.samples;
      producer := None;
    }

    /** render begins: it will copy out what is there, up to the frames wanted. */
    method BeginRender(frames: nat)
      requires Valid() && consumer == None
      modifies `consumer
      ensures Valid()
      ensures var copied := if frames < |stream| - read then frames else |stream| - read;
              consumer == Some(Consumer(read % POSITIONS, frames, copied, []))
    {
      var available := Used();
      BeginRenderOk(Now(), frames);
      consumer := Some(Consumer(readPosition, frames, if frames < available then frames else available, []));
    }

    /** render copies its next sample out. */
    method CopyOut()
      requires Valid() && consumer.Some? && |consumer.value.out| < consumer.value.copied
      modifies `consumer
      ensures Valid() && read + |old(consumer).value.out| < |stream|
      ensures var c := old(consumer).value;
              consumer == Some(c.(out := c.out + [stream[read + |c.out|]]))
    {
      Facts(Now());
      CopyOutOk(Now());
      var c := consumer.value;
      TwoChunks(read, c.copied, |c.out|);
      consumer := Some(c.(out := c.out + [outputRing[ChunkIndex(c.from, c.copied, |c.out|)]]));
    }

    /** render ends: silence where samples ran short, and only then. */
    method FinishRender() returns (destination: seq<Sample>)
      requires Valid() && consumer.Some? && |consumer.value.out| == consumer.value.copied
      modifies `consumer, `readPosition, `read, `played
      ensures Valid() && consumer == None
      ensures var c := old(consumer).value;
              && destination == c.out + Silence(c.frames - c.copied) && |destination| == c.frames
              && played == old(played) + c.out && read == old(read) + c.copied
    {
      Facts(Now());
      FinishRenderOk(Now());
      PositionAdvances(read, consumer.value.copied);
      var c := consumer.value;
      destination := c.out + Silence(c.frames - c.copied);
      readPosition := (c.from + c.copied) % POSITIONS;
      read := read + c.copied;
      played := played + c.out;
      consumer := None;
    }

    /** stopAndClear, once the device has stopped calling back and nothing is being written. */
    method StopAndClear()
      requires Valid() && producer == None && consumer == None
      modifies `readPosition, `read, `clearedAt, `played
      ensures Valid() && read == |stream| && clearedAt == |stream| && played == []
    {
      ClearOk(Now());
      readPosition := writePosition;
      read, clearedAt, played := |stream|, |stream|, [];
    }
  }

  /**
   stopAndClear when the device would not stop: it clears while a render is under way, which then stores its own
   position. The ring ends up as if it had not been cleared; it is empty only if that render took all there was.
   */
  method ClearWhileRendering(o: CoreAudioOutput)
    requires o.Valid() && o.producer == None
    requires o.consumer.Some? && |o.consumer.value.out| == o.consumer.value.copied
    modifies o
    ensures o.Valid() && o.consumer == None && o.stream == old(o.stream) && o.clearedAt == old(o.clearedAt)
    ensures o.read == old(o.read) + old(o.consumer).value.copied
    ensures o.played == old(o.played) + old(o.consumer).value.out
    ensures o.readPosition == o.writePosition <==> o.read == |o.stream|
  {
    o.readPosition := o.writePosition;
    FinishLate(o);
    QueuedExact(o.read, |o.stream|);
  }

  /** The end of a render that has been overtaken by a clear. */
  method FinishLate(o: CoreAudioOutput)
    requires Consistent(o.Now()) && o.outputRing.Length == SIZE && o.writePosition == |o.stream| % POSITIONS
    requires o.consumer.Some? && |o.consumer.value.out| == o.consumer.value.copied
    modifies o
    ensures o.Valid() && o.consumer == None && o.stream == old(o.stream) && o.clearedAt == old(o.clearedAt)
    ensures o.read == old(o.read) + old(o.consumer).value.copied
    ensures o.played == old(o.played) + old(o.consumer).value.out
    ensures o.writePosition == old(o.writePosition) && o.read <= |o.stream| <= o.read + SIZE
  {
    Facts(o.Now());
    FinishRenderOk(o.Now());
    var c := o.consumer.value;
    PositionAdvances(o.read, c.copied);
    o.readPosition := (c.from + c.copied) % POSITIONS;
    o.read := o.read + c.copied;
    o.played := o.played + c.out;
    o.consumer := None;
  }

  // ---- Whole runs ----

  /** The next step of one of the threads. A step that its thread cannot take at that point is skipped. */
  datatype Step =
    | Write(samples: seq<Sample>)
    | CopyIn
    | Publish
    | Render(frames: nat)
    | CopyOut
    | FinishRender
    | Clear

  /** A queue without cells: what the ring is to look like from outside. */
  datatype Fifo = Fifo(stream: seq<Sample>, read: nat, producer: Option<Producer>, consumer: Option<Consumer>,
                       clearedAt: nat, played: seq<Sample>)

  function View(s: State): Fifo {
    Fifo(s.stream, s.read, s.producer, s.consumer, s.clearedAt, s.played)
  }

  const EMPTY := Fifo([], 0, None, None, 0, [])

  function Left(f: Fifo): int {
    |f.stream| - f.read
  }

  predicate Copied(f: Fifo) {
    f.producer.Some? && f.producer.value.done >= |f.producer.value.samples|
  }

  function After(f: Fifo, step: Step): Fifo {
    match step
    case Write(samples) =>
      if f.producer == None && |samples| <= SIZE - Left(f) then f.(producer := Some(Producer(samples, 0))) else f
    case CopyIn =>
      if f.producer.Some? && !Copied(f)
      then f.(producer := Some(f.producer.value.(done := f.producer.value.done + 1))) else f
    case Publish =>
      if Copied(f) then f.(stream := f.stream + f.producer.value.samples, producer := None) else f
    case Render(frames) =>
      if f.consumer == None && Left(f) >= 0
      then
        var copied := if frames < Left(f) then frames else Left(f);
        f.(consumer := Some(Consumer(f.read % POSITIONS, frames, copied, [])))
      else f
    case CopyOut =>
      if f.consumer.Some? && |f.consumer.value.out| < f.consumer.value.copied &&
         f.read + |f.consumer.value.out| < |f.stream|
      then
        var c := f.consumer.value;
        f.(consumer := Some(c.(out := c.out + [f.stream[f.read + |c.out|]])))
      else f
    case FinishRender =>
      if f.consumer.Some? && |f.consumer.value.out| == f.consumer.value.copied
      then
        var c := f.consumer.value;
        f.(read := f.read + c.copied, consumer := None, played := f.played + c.out)
      else f
    case Clear =>
      if f.producer == None && f.consumer == None
      then f.(read := |f.stream|, clearedAt := |f.stream|, played := []) else f
  }

  function AfterAll(steps: seq<Step>): Fifo {
    if steps == [] then EMPTY else After(AfterAll(steps[..|steps| - 1]), steps[|steps| - 1])
  }

  /** The writes that were accepted and have been published, in order. */
  function Published(steps: seq<Step>): seq<seq<Sample>> {
    if steps == [] then []
    else
      var before := steps[..|steps| - 1];
      Published(before) +
      if steps[|steps| - 1] == Publish && Copied(AfterAll(before))
      then [AfterAll(before).producer.value.samples] else []
  }

  function Joined(writes: seq<seq<Sample>>): seq<Sample> {
    if writes == [] then [] else Joined(writes[..|writes| - 1]) + writes[|writes| - 1]
  }

  /** The stream is what was published, write after write. */
  lemma {:induction false} StreamIsPublished(steps: seq<Step>)
    ensures AfterAll(steps).stream == Joined(Published(steps))
    decreases |steps|
  {
    if steps != [] {
      var before, step := steps[..|steps| - 1], steps[|steps| - 1];
      StreamIsPublished(before);
      assert AfterAll(steps) == After(AfterAll(before), step);
      if step == Publish && Copied(AfterAll(before)) {
        var w := AfterAll(before).producer.value.samples;
        assert Published(steps) == Published(before) + [w];
        assert (Published(before) + [w])[..|Published(before)|] == Published(before);
      } else {
        assert Published(steps) == Published(before) && AfterAll(steps).stream == AfterAll(before).stream;
      }
    }
  }

  /** Nothing is published that was not written. */
  lemma {:induction false} PublishedWasWritten(steps: seq<Step>)
    ensures forall w | w in Published(steps) :: Write(w) in steps
    ensures AfterAll(steps).producer.Some? ==> Write(AfterAll(steps).producer.value.samples) in steps
    decreases |steps|
  {
    if steps != [] {
      var before := steps[..|steps| - 1];
      PublishedWasWritten(before);
      assert steps == before + [steps[|steps| - 1]];
    }
  }

  /** One step of the producer, taken only where it can take it. */
  method TakeProducerStep(o: CoreAudioOutput, step: Step)
    requires o.Valid() && (step.Write? || step.CopyIn? || step.Publish?)
    modifies o, o.outputRing
    ensures o.Valid() && View(o.Now()) == After(old(View(o.Now())), step)
  {
    Facts(o.Now());
    match step
    case Write(samples) =>
      if o.producer == None {
        var _ := o.BeginWrite(samples);
      }
    case CopyIn =>
      if o.producer.Some? && o.producer.value.done < |o.producer.value.samples| {
        o.CopyIn();
      }
    case Publish =>
      if o.producer.Some? && o.producer.value.done == |o.producer.value.samples| {
        o.Publish();
      }
  }

  /** One step of the consumer, or a clear, taken only where it can be. */
  method TakeConsumerStep(o: CoreAudioOutput, step: Step)
    requires o.Valid() && (step.Render? || step.CopyOut? || step.FinishRender? || step.Clear?)
    modifies o
    ensures o.Valid() && View(o.Now()) == After(old(View(o.Now())), step)
  {
    Facts(o.Now());
    match step
    case Render(frames) =>
      if o.consumer == None {
        o.BeginRender(frames);
      }
    case CopyOut =>
      if o.consumer.Some? && |o.consumer.value.out| < o.consumer.value.copied {
        o.CopyOut();
      }
    case FinishRender =>
      if o.consumer.Some? && |o.consumer.value.out| == o.consumer.value.copied {
        var _ := o.FinishRender();
      }
    case Clear =>
      if o.producer == None && o.consumer == None {
        o.StopAndClear();
      }
  }

  /** One step of either thread. */
  method TakeStep(o: CoreAudioOutput, step: Step)
    requires o.Valid()
    modifies o, o.outputRing
    ensures o.Valid() && View(o.Now()) == After(old(View(o.Now())), step)
  {
    if step.Write? || step.CopyIn? || step.Publish? {
      TakeProducerStep(o, step);
    } else {
      TakeConsumerStep(o, step);
    }
  }

  /**
   Any interleaving: from outside the ring is the queue that the steps describe; its stream is what they have written
   and published; and what is heard since the last clear, apart from silence, is the beginning of what was published
   since.
   */
  method Run(steps: seq<Step>) returns (o: CoreAudioOutput)
    ensures o.Valid() && View(o.Now()) == AfterAll(steps) && o.stream == Joined(Published(steps))
    ensures o.read <= |o.stream| <= o.read + SIZE
    ensures o.clearedAt <= |o.stream| && o.played <= o.stream[o.clearedAt..]
  {
    o := new CoreAudioOutput();
    assert steps[..0] == [];
    for i := 0 to |steps|
      invariant o.Valid() && fresh(o) && fresh(o.outputRing) && View(o.Now()) == AfterAll(steps[..i])
    {
      TakeStep(o, steps[i]);
      assert steps[..i + 1][..i] == steps[..i];
    }
    assert steps[..|steps|] == steps;
    StreamIsPublished(steps);
    Facts(o.Now());
    PlayedIsPrefix(o.Now());
  }
}
