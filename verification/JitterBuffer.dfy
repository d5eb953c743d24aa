/** The jitter buffer: packets by timestamp, and the order they came in, from which entries are removed lazily. */
module JitterBuffer {
  import opened Bytes
  import opened Options

  const CAPACITY := 32
  const FRAME_MS := 10
  const HALF := 0x8000_0000
  const WORD := 0x1_0000_0000
  const GENERATIONS := 0x1_0000_0000_0000_0000

  datatype Packet = Packet(source: u32, timestamp: u32, payload: seq<u8>, arrivalMs: int)

  datatype PushResult = Accepted | Duplicate | Overrun | NewSynchronizationSource

  datatype InitialPlayout = InitialPlayout(timestamp: u32, startMs: int, generation: u64, source: u32, arrivalMs: int)

  /** timestampPrecedes: in circular order. */
  predicate Precedes(a: u32, b: u32) {
    (a - b) % WORD >= HALF
  }

  /** A timestamp precedes every one up to half the range after it, and none less than half the range before it. */
  lemma PrecedesExactly(t: u32, k: nat)
    ensures 1 <= k <= HALF ==> Precedes(t, (t + k) % WORD) && Precedes((t - k) % WORD, t)
    ensures k < HALF ==> !Precedes((t + k) % WORD, t) && !Precedes(t, (t - k) % WORD)
  {
    if k <= HALF {
      Modulo(t + k);
      Modulo(t - k);
      Modulo(t - (t + k) % WORD);
      Modulo((t + k) % WORD - t);
      Modulo((t - k) % WORD - t);
      Modulo(t - (t - k) % WORD);
    }
  }

  lemma Modulo(x: int)
    requires -WORD <= x < 2 * WORD
    ensures x % WORD == if x < 0 then x + WORD else if x < WORD then x else x - WORD
  {
  }

  /** Every timestamp but this one. */
  function Except(timestamp: u32): u32 -> bool {
    (t: u32) => t != timestamp
  }

  /** Every timestamp that does not precede this one. */
  function Since(timestamp: u32): u32 -> bool {
    (t: u32) => !Precedes(t, timestamp)
  }

  // ---- The order of the timestamps still held ----

  function Keep(s: seq<u32>, p: u32 -> bool): seq<u32> {
    if s == [] then [] else (if p(s[0]) then [s[0]] else []) + Keep(s[1..], p)
  }

  /** The timestamps still held, in the order of their first entries. */
  function Live(order: seq<u32>, held: set<u32>): seq<u32> {
    if order == [] then []
    else if order[0] in held then [order[0]] + Live(order[1..], held - {order[0]})
    else Live(order[1..], held)
  }

  lemma {:induction false} LiveAppend(a: seq<u32>, t: u32, held: set<u32>)
    ensures Live(a + [t], held) == Live(a, held) + if t in held && t !in a then [t] else []
    decreases |a|
  {
    if a == [] {
      assert [] + [t] == [t];
    } else {
      LiveAppend(a[1..], t, if a[0] in held then held - {a[0]} else held);
      assert (a + [t])[1..] == a[1..] + [t];
    }
  }

  /** Dropping frames drops their timestamps from the live order, and moves nothing. */
  lemma {:induction false} LiveKeep(order: seq<u32>, held: set<u32>, fewer: set<u32>, p: u32 -> bool)
    requires forall t :: t in fewer <==> t in held && p(t)
    ensures Live(order, fewer) == Keep(Live(order, held), p)
    decreases |order|
  {
    if order != [] && order[0] in held {
      LiveKeep(order[1..], held - {order[0]}, fewer - {order[0]}, p);
      var rest := Live(order[1..], held - {order[0]});
      assert ([order[0]] + rest)[1..] == rest && [] + Keep(rest, p) == Keep(rest, p);
      assert order[0] !in fewer ==> fewer - {order[0]} == fewer;
    } else if order != [] {
      LiveKeep(order[1..], held, fewer, p);
    }
  }

  /** The first entry of a timestamp, or the length if there is none. */
  function FirstEntry(order: seq<u32>, t: u32): (i: nat)
    ensures i <= |order| && (i < |order| <==> t in order)
  {
    if order == [] || order[0] == t then 0 else 1 + FirstEntry(order[1..], t)
  }

  /** Where a pushed frame goes: behind the frames whose entries come before the first one of its timestamp. */
  function Place(order: seq<u32>, held: set<u32>, t: u32): nat {
    |Live(order[..FirstEntry(order, t)], held)|
  }

  /** The order entries left once the oldest frame has gone, with the stale entries before its own. */
  function Evicted(order: seq<u32>, held: set<u32>): seq<u32> {
    if order == [] then [] else if order[0] in held then order[1..] else Evicted(order[1..], held)
  }

  function Inset(live: seq<u32>, k: nat, t: u32): seq<u32>
    requires k <= |live|
  {
    live[..k] + [t] + live[k..]
  }

  /** A timestamp with a stale entry left comes back to life there, and everything else stays where it is. */
  lemma {:induction false} LiveRevived(order: seq<u32>, held: set<u32>, t: u32)
    requires t !in held && t in order
    ensures Place(order, held, t) <= |Live(order, held)|
    ensures Live(order, held + {t}) == Inset(Live(order, held), Place(order, held, t), t)
    decreases |order|
  {
    var i := FirstEntry(order, t);
    if order[0] == t {
      assert order[..i] == [] && held + {t} - {t} == held;
    } else {
      assert order[..i][1..] == order[1..][..i - 1];
      if order[0] in held {
        LiveRevived(order[1..], held - {order[0]}, t);
        assert held + {t} - {order[0]} == held - {order[0]} + {t};
      } else {
        LiveRevived(order[1..], held, t);
      }
    }
  }

  /** A timestamp that has no entry in the order does not appear in it when its frame comes. */
  lemma {:induction false} LiveUnaffected(order: seq<u32>, held: set<u32>, t: u32)
    requires t !in order && t !in held
    ensures Live(order, held + {t}) == Live(order, held)
    decreases |order|
  {
    if order != [] && order[0] in held {
      LiveUnaffected(order[1..], held - {order[0]}, t);
      assert held + {t} - {order[0]} == held - {order[0]} + {t};
    } else if order != [] {
      LiveUnaffected(order[1..], held, t);
    }
  }

  lemma {:induction false} LiveMembers(order: seq<u32>, held: set<u32>, t: u32)
    ensures t in Live(order, held) <==> t in order && t in held
    decreases |order|
  {
    if order != [] {
      LiveMembers(order[1..], if order[0] in held then held - {order[0]} else held, t);
    }
  }

  predicate NoDuplicates(s: seq<u32>) {
    forall i, j | 0 <= i < j < |s| :: s[i] != s[j]
  }

  /** When every frame has an entry, the live order names each frame once and nothing else. */
  lemma {:induction false} LiveOnce(order: seq<u32>, held: set<u32>)
    requires Covered(order, held)
    ensures NoDuplicates(Live(order, held)) && |Live(order, held)| == |held|
    decreases |order|
  {
    if order != [] {
      var rest := if order[0] in held then held - {order[0]} else held;
      forall t | t in rest
        ensures t in order[1..]
      {
        assert t in order && t != order[0];
      }
      LiveOnce(order[1..], rest);
      LiveMembers(order[1..], rest, order[0]);
    } else {
      assert held == {};
    }
  }

  /** A stale entry in front means nothing. */
  lemma LiveStale(order: seq<u32>, held: set<u32>)
    requires order != [] && order[0] !in held
    ensures Live(order[1..], held) == Live(order, held)
  {
  }

  lemma LiveFront(order: seq<u32>, held: set<u32>)
    requires order != [] && order[0] in held
    ensures Live(order, held) != [] && Live(order, held)[0] == order[0]
  {
  }

  predicate Covered(order: seq<u32>, held: set<u32>) {
    forall t | t in held :: t in order
  }

  /**
   A pushed frame goes behind the frames whose entries come before the first entry its timestamp has left; that is
   last if it has left none.
   */
  lemma PushedPlace(order: seq<u32>, held: set<u32>, t: u32)
    requires t !in held
    ensures Place(order, held, t) <= |Live(order, held)|
    ensures Live(order + [t], held + {t}) == Inset(Live(order, held), Place(order, held, t), t)
    ensures t !in order ==> Place(order, held, t) == |Live(order, held)|
  {
    LiveAppend(order, t, held + {t});
    if t !in order {
      assert order[..FirstEntry(order, t)] == order;
      LiveUnaffected(order, held, t);
    } else {
      LiveRevived(order, held, t);
    }
  }

  /** One frame has gone, the one that was first in the live order. */
  predicate OldestGone(before: map<u32, Packet>, live: seq<u32>, after: map<u32, Packet>, left: seq<u32>) {
    && live != [] && live[0] in before && after == before - {live[0]} && |after| == |before| - 1
    && left == live[1..]
  }

  lemma OldestDropped(frames: map<u32, Packet>, order: seq<u32>)
    requires order != [] && order[0] in frames
    ensures OldestGone(frames, Live(order, frames.Keys), frames - {order[0]},
                       Live(order[1..], (frames - {order[0]}).Keys))
  {
    var oldest := order[0];
    var fewer := frames - {oldest};
    assert fewer.Keys == frames.Keys - {oldest};
    assert frames == fewer[oldest := frames[oldest]];
    assert |frames| == |fewer| + 1;
  }

  // ---- What frames, order and source have to do with each other ----

  predicate Matches(frames: map<u32, Packet>, source: Option<u32>) {
    forall t | t in frames :: frames[t].timestamp == t && source == Some(frames[t].source)
  }

  /** The buffer, with the sources of all generations so far and the timestamps pushed in this one. */
  datatype State = State(frames: map<u32, Packet>, order: seq<u32>, source: Option<u32>, generation: u64,
                         sources: seq<u32>, pushed: set<u32>)

  predicate Among(order: seq<u32>, pushed: set<u32>) {
    forall t | t in order :: t in pushed
  }

  /** The generation counts the sources followed so far, and the last of them is the current one. */
  predicate Counts(generation: u64, sources: seq<u32>, source: Option<u32>) {
    generation == |sources| % GENERATIONS && source == if sources == [] then None else Some(sources[|sources| - 1])
  }

  /** At most 32 frames, all from the current source, each with its entry in the order. */
  ghost predicate Consistent(s: State) {
    && |s.frames| <= CAPACITY && Covered(s.order, s.frames.Keys) && Matches(s.frames, s.source)
    && Among(s.order, s.pushed) && Counts(s.generation, s.sources, s.source)
  }

  lemma Facts(s: State)
    requires Consistent(s)
    ensures |s.frames| <= CAPACITY && Covered(s.order, s.frames.Keys) && Matches(s.frames, s.source)
    ensures Among(s.order, s.pushed) && Counts(s.generation, s.sources, s.source)
  {
  }

  lemma NothingTaken(frames: map<u32, Packet>, timestamp: u32)
    requires timestamp !in frames
    ensures frames - {timestamp} == frames
  {
  }

  lemma HeldWasPushed(s: State, t: u32)
    requires Consistent(s) && t in s.frames
    ensures t in s.pushed && s.pushed + {t} == s.pushed
  {
    assert t in s.order;
  }

  lemma StartOk()
    ensures Consistent(State(map[], [], None, 0, [], {}))
  {
  }

  lemma {:induction false} SubsetSize(a: set<u32>, b: set<u32>)
    requires a <= b
    ensures |a| <= |b|
    decreases a
  {
    if a != {} {
      var t :| t in a;
      SubsetSize(a - {t}, b - {t});
    }
  }

  /** Frames may go; their entries stay behind. */
  lemma FewerOk(s: State, fewer: map<u32, Packet>)
    requires Consistent(s) && fewer.Keys <= s.frames.Keys && forall t | t in fewer :: fewer[t] == s.frames[t]
    ensures Consistent(s.(frames := fewer))
  {
    assert |fewer| == |fewer.Keys| && |s.frames| == |s.frames.Keys|;
    SubsetSize(fewer.Keys, s.frames.Keys);
  }

  /** Stale entries may go. */
  lemma StaleOk(s: State)
    requires Consistent(s) && s.order != [] && s.order[0] !in s.frames
    ensures Consistent(s.(order := s.order[1..]))
  {
    forall t | t in s.frames
      ensures t in s.order[1..]
    {
      assert t in s.order && t != s.order[0];
    }
  }

  function Followed(s: State, next: u32): State {
    State(map[], [], Some(next), (s.generation + 1) % GENERATIONS, s.sources + [next], {})
  }

  lemma FollowedOk(s: State, next: u32)
    requires Consistent(s)
    ensures Consistent(Followed(s, next))
  {
    assert Counts(Followed(s, next).generation, s.sources + [next], Some(next));
  }

  function Inserted(s: State, packet: Packet): State {
    var t := packet.timestamp;
    s.(frames := s.frames[t := packet], order := s.order + [t], pushed := s.pushed + {t})
  }

  lemma InsertedOk(s: State, packet: Packet)
    requires Consistent(s) && s.source == Some(packet.source)
    requires |s.frames| < CAPACITY && packet.timestamp !in s.frames
    ensures Consistent(Inserted(s, packet))
  {
  }

  /** The frames that a timestamp does not leave behind. */
  function Remaining(frames: map<u32, Packet>, timestamp: u32): map<u32, Packet> {
    map t | t in frames && !Precedes(t, timestamp) :: frames[t]
  }

  /** What is at or after the timestamp stays, by less than half the range; what is before it, by up to half, goes. */
  lemma RemainingExactly(frames: map<u32, Packet>, timestamp: u32, k: nat)
    ensures var after, before, left := (timestamp + k) % WORD, (timestamp - k) % WORD, Remaining(frames, timestamp);
            && (k < HALF ==> (after in left <==> after in frames) && (after in left ==> left[after] == frames[after]))
            && (1 <= k <= HALF ==> before !in left)
  {
    PrecedesExactly(timestamp, k);
  }

  lemma RemainingKeys(frames: map<u32, Packet>, timestamp: u32)
    ensures forall t :: t in Remaining(frames, timestamp).Keys <==> t in frames && !Precedes(t, timestamp)
  {
  }

  /** A frame has been put somewhere into the queue, and at the end if its timestamp was not known. */
  predicate JoinedAt(before: seq<u32>, after: seq<u32>, t: u32, k: nat, known: bool) {
    k <= |before| && after == Inset(before, k, t) && (!known ==> k == |before|)
  }

  /**
   What a push does to the frames and to the queue: known says whether the timestamp has been pushed before, and
   place where its first entry then is, if it has one.
   */
  predicate PushEffect(before: map<u32, Packet>, live: seq<u32>, after: map<u32, Packet>, queue: seq<u32>,
                             packet: Packet, known: bool, place: nat, result: PushResult) {
    var t := packet.timestamp;
    match result
    case NewSynchronizationSource => after == map[t := packet] && queue == [t]
    case Duplicate => t in before && after == before && queue == live
    case Accepted =>
      && t !in before && |before| < CAPACITY && after == before[t := packet]
      && JoinedAt(live, queue, t, place, known)
    case Overrun =>
      && t !in before && |before| == CAPACITY && live != [] && after == (before - {live[0]})[t := packet]
      && JoinedAt(live[1..], queue, t, place, known)
  }

  lemma OverrunEffect(before: map<u32, Packet>, live: seq<u32>, middle: map<u32, Packet>, left: seq<u32>,
                      queue: seq<u32>, packet: Packet, known: bool, place: nat)
    requires OldestGone(before, live, middle, left) && packet.timestamp !in before && |before| == CAPACITY
    requires JoinedAt(left, queue, packet.timestamp, place, known)
    ensures PushEffect(before, live, middle[packet.timestamp := packet], queue, packet, known, place, Overrun)
  {
  }

  // ---- The buffer ----

  class RtpJitterBuffer {
    var frames: map<u32, Packet>
    var insertionOrder: seq<u32>
    var source: Option<u32>
    var lastArrivalMs: Option<int>
    var generation: u64

    // The sources of all generations so far, and the timestamps pushed in this one
    ghost var sources: seq<u32>
    ghost var pushed: set<u32>

    ghost function Now(): State
      reads this
    {
      State(frames, insertionOrder, source, generation, sources, pushed)
    }

    ghost predicate Valid()
      reads this
    {
      Consistent(Now())
    }

    /** The timestamps held, oldest first. */
    ghost function Queue(): seq<u32>
      reads this
    {
      Live(insertionOrder, frames.Keys)
    }

    constructor ()
      ensures Valid() && frames == map[] && Queue() == [] && sources == [] && source == None && pushed == {}
    {
      frames, insertionOrder, source, lastArrivalMs, generation := map[], [], None, None, 0;
      sources, pushed := [], {};
      new;
      StartOk();
    }

    /** discardConsumedOrderEntriesLocked: only stale entries go. */
    method DiscardConsumedOrderEntries()
      requires Valid()
      modifies `insertionOrder
      ensures Valid() && Queue() == old(Queue())
      ensures frames == map[] <==> insertionOrder == []
      ensures Evicted(insertionOrder, frames.Keys) == Evicted(old(insertionOrder), frames.Keys)
      ensures insertionOrder != [] ==> insertionOrder[0] in frames && Queue() != [] && Queue()[0] == insertionOrder[0]
      ensures forall t | t in insertionOrder :: t in old(insertionOrder)
    {
      while insertionOrder != [] && insertionOrder[0] !in frames
        invariant Valid() && Queue() == old(Queue())
        invariant Evicted(insertionOrder, frames.Keys) == Evicted(old(insertionOrder), frames.Keys)
        invariant forall t | t in insertionOrder :: t in old(insertionOrder)
        decreases |insertionOrder|
      {
        LiveStale(insertionOrder, frames.Keys);
        StaleOk(Now());
        insertionOrder := insertionOrder[1..];
      }
      Facts(Now());
      if insertionOrder != [] {
        LiveFront(insertionOrder, frames.Keys);
      }
    }

    /** discardOldestLocked: exactly one frame goes, the oldest. */
    method DiscardOldest()
      requires Valid()
      modifies `frames, `insertionOrder
      ensures Valid() && forall t | t in insertionOrder :: t in old(insertionOrder)
      ensures old(frames) == map[] ==> frames == map[]
      ensures old(frames) != map[] ==>
                && OldestGone(old(frames), old(Queue()), frames, Queue())
                && insertionOrder == Evicted(old(insertionOrder), old(frames).Keys)
    {
      DiscardConsumedOrderEntries();
      if insertionOrder == [] {
        FewerOk(Now(), map[]);
        frames := map[];
      } else {
        OldestDropped(frames, insertionOrder);
        FewerOk(Now(), frames - {insertionOrder[0]});
        frames := frames - {insertionOrder[0]};
        StaleOk(Now());
        insertionOrder := insertionOrder[1..];
      }
    }

    /** The eviction loop of push: it turns at most once, and drops one frame. */
    method MakeRoom() returns (overrun: bool)
      requires Valid()
      modifies `frames, `insertionOrder
      ensures Valid() && |frames| < CAPACITY && forall t | t in insertionOrder :: t in old(insertionOrder)
      ensures overrun <==> |old(frames)| == CAPACITY
      ensures !overrun ==> frames == old(frames) && insertionOrder == old(insertionOrder)
      ensures overrun ==>
                && OldestGone(old(frames), old(Queue()), frames, Queue())
                && insertionOrder == Evicted(old(insertionOrder), old(frames).Keys)
    {
      overrun := false;
      Facts(Now());
      while |frames| >= CAPACITY
        invariant |frames| <= CAPACITY && Valid() && forall t | t in insertionOrder :: t in old(insertionOrder)
        invariant overrun <==> |frames| < |old(frames)|
        invariant !overrun ==> frames == old(frames) && insertionOrder == old(insertionOrder)
        invariant overrun ==>
                    && |old(frames)| == CAPACITY && OldestGone(old(frames), old(Queue()), frames, Queue())
                    && insertionOrder == Evicted(old(insertionOrder), old(frames).Keys)
        decreases |frames|
      {
        DiscardOldest();
        overrun := true;
      }
    }

    /** The part of push that starts a new generation when the source changes. */
    method FollowSource(next: u32) returns (changed: bool)
      requires Valid()
      modifies this
      ensures Valid() && changed == (old(source) != Some(next)) && source == Some(next)
      ensures lastArrivalMs == old(lastArrivalMs)
      ensures changed ==> sources == old(sources) + [next] && frames == map[] && insertionOrder == [] && pushed == {}
      ensures !changed ==> sources == old(sources) && frames == old(frames) && insertionOrder == old(insertionOrder) &&
                           pushed == old(pushed)
    {
      changed := source != Some(next);
      if changed {
        FollowedOk(Now(), next);
        frames, insertionOrder, source := map[], [], Some(next);
        generation := (generation + 1) % GENERATIONS;
        sources, pushed := sources + [next], {};
      }
    }

    /** Where a frame with this timestamp goes when it is pushed, once room has been made if there is none. */
    ghost function PlaceOf(timestamp: u32): nat
      reads this
    {
      if |frames| == CAPACITY && Queue() != []
      then Place(Evicted(insertionOrder, frames.Keys), frames.Keys - {Queue()[0]}, timestamp)
      else Place(insertionOrder, frames.Keys, timestamp)
    }

    /** The part of push that stores the packet. */
    method Insert(packet: Packet)
      requires Valid() && source == Some(packet.source) && packet.timestamp !in frames && |frames| < CAPACITY
      modifies `frames, `insertionOrder, `pushed
      ensures Valid() && frames == old(frames)[packet.timestamp := packet]
      ensures pushed == old(pushed) + {packet.timestamp}
      ensures JoinedAt(old(Queue()), Queue(), packet.timestamp,
                       Place(old(insertionOrder), old(frames).Keys, packet.timestamp), packet.timestamp in old(pushed))
    {
      PushedPlace(insertionOrder, frames.Keys, packet.timestamp);
      InsertedOk(Now(), packet);
      Facts(Now());
      ghost var held := frames.Keys;
      frames := frames[packet.timestamp := packet];
      assert frames.Keys == held + {packet.timestamp};
      insertionOrder := insertionOrder + [packet.timestamp];
      pushed := pushed + {packet.timestamp};
    }

    /** The part of push that makes room if it must, and stores the packet. */
    method Store(packet: Packet) returns (overrun: bool)
      requires Valid() && source == Some(packet.source) && packet.timestamp !in frames
      modifies `frames, `insertionOrder, `pushed
      ensures Valid() && (overrun <==> |old(frames)| == CAPACITY)
      ensures pushed == old(pushed) + {packet.timestamp}
      ensures PushEffect(old(frames), old(Queue()), frames, Queue(), packet, packet.timestamp in old(pushed),
                         old(PlaceOf(packet.timestamp)), if overrun then Overrun else Accepted)
    {
      ghost var before, live, known := frames, Queue(), packet.timestamp in pushed;
      ghost var place := PlaceOf(packet.timestamp);
      Facts(Now());
      overrun := MakeRoom();
      ghost var middle, left := frames, Queue();
      Insert(packet);
      if overrun {
        assert middle.Keys == before.Keys - {live[0]};
        OverrunEffect(before, live, middle, left, Queue(), packet, known, place);
      }
    }

    /**
     push. A packet joins the end of the queue if its timestamp is new in this generation; otherwise it goes where
     the first entry that its timestamp has left behind is.
     */
    method Push(packet: Packet) returns (result: PushResult)
      requires Valid()
      modifies this
      ensures Valid() && lastArrivalMs == Some(packet.arrivalMs) && source == Some(packet.source)
      ensures sources == if old(source) != Some(packet.source) then old(sources) + [packet.source] else old(sources)
      ensures result == if old(source) != Some(packet.source) then NewSynchronizationSource
                        else if packet.timestamp in old(frames) then Duplicate
                        else if |old(frames)| == CAPACITY then Overrun
                        else Accepted
      ensures PushEffect(old(frames), old(Queue()), frames, Queue(), packet, packet.timestamp in old(pushed),
                         old(PlaceOf(packet.timestamp)), result)
      ensures pushed == (if old(source) != Some(packet.source) then {} else old(pushed)) + {packet.timestamp}
    {
      var changed := FollowSource(packet.source);
      lastArrivalMs := Some(packet.arrivalMs);
      if packet.timestamp in frames {
        HeldWasPushed(Now(), packet.timestamp);
        return Duplicate;
      }
      var overrun := Store(packet);
      result := if changed then NewSynchronizationSource else if overrun then Overrun else Accepted;
    }

    /** take. */
    method Take(timestamp: u32) returns (packet: Option<Packet>)
      requires Valid()
      modifies `frames
      ensures Valid() && frames == old(frames) - {timestamp}
      ensures packet == if timestamp in old(frames) then Some(old(frames)[timestamp]) else None
      ensures Queue() == Keep(old(Queue()), Except(timestamp))
    {
      ghost var fewer := frames - {timestamp};
      LiveKeep(insertionOrder, frames.Keys, fewer.Keys, Except(timestamp));
      FewerOk(Now(), fewer);
      if timestamp in frames {
        packet := Some(frames[timestamp]);
        frames := frames - {timestamp};
      } else {
        packet := None;
        NothingTaken(frames, timestamp);
      }
    }

    /** peek and contains. */
    method Peek(timestamp: u32) returns (packet: Option<Packet>)
      requires Valid()
      ensures packet.Some? <==> timestamp in Queue()
      ensures packet == if timestamp in frames then Some(frames[timestamp]) else None
      ensures packet.Some? ==> packet.value.timestamp == timestamp && source == Some(packet.value.source)
    {
      LiveMembers(insertionOrder, frames.Keys, timestamp);
      Facts(Now());
      packet := if timestamp in frames then Some(frames[timestamp]) else None;
    }

    /** initialPlayout: there is one exactly when a frame is held, and it is the oldest. */
    method GetInitialPlayout() returns (start: Option<InitialPlayout>)
      requires Valid()
      modifies `insertionOrder
      ensures Valid() && Queue() == old(Queue())
      ensures start == None <==> frames == map[]
      ensures frames == map[] <==> Queue() == []
      ensures start.Some? ==>
                && start.value.timestamp == Queue()[0] && start.value.timestamp in frames
                && source == Some(start.value.source) && start.value.generation == generation
                && start.value.arrivalMs == frames[Queue()[0]].arrivalMs
                && start.value.startMs == start.value.arrivalMs + FRAME_MS
    {
      DiscardConsumedOrderEntries();
      if insertionOrder == [] || insertionOrder[0] !in frames {
        return None;
      }
      Facts(Now());
      var timestamp := insertionOrder[0];
      var frame := frames[timestamp];
      start := Some(InitialPlayout(timestamp, frame.arrivalMs + FRAME_MS, generation, source.value, frame.arrivalMs));
    }

    /** The loop of discardBefore, whatever order the frames are visited in. */
    method DropBefore(timestamp: u32)
      modifies `frames
      ensures frames == Remaining(old(frames), timestamp)
    {
      var left := frames.Keys;
      while left != {}
        invariant left <= old(frames).Keys && frames.Keys <= old(frames).Keys && left <= frames.Keys
        invariant forall t | t in old(frames) :: t in frames <==> t in left || !Precedes(t, timestamp)
        invariant forall t | t in frames :: frames[t] == old(frames)[t]
        decreases left
      {
        var t: u32 :| t in left;
        if Precedes(t, timestamp) {
          frames := frames - {t};
        }
        left := left - {t};
      }
    }

    /** discardBefore. */
    method DiscardBefore(timestamp: u32)
      requires Valid()
      modifies `frames, `insertionOrder
      ensures Valid() && frames == Remaining(old(frames), timestamp)
      ensures Queue() == Keep(old(Queue()), Since(timestamp))
    {
      RemainingKeys(frames, timestamp);
      LiveKeep(insertionOrder, frames.Keys, Remaining(frames, timestamp).Keys, Since(timestamp));
      FewerOk(Now(), Remaining(frames, timestamp));
      DropBefore(timestamp);
      DiscardConsumedOrderEntries();
    }
  }

  /** Two looks at a buffer that find the same generation find the same source, within 2^64 generations. */
  lemma SameGenerationSameSource(earlier: State, later: State)
    requires Consistent(earlier) && Consistent(later) && earlier.sources <= later.sources
    requires |later.sources| < GENERATIONS && earlier.generation == later.generation
    ensures earlier.source == later.source && earlier.sources == later.sources
  {
  }

  // ---- A plain list of packets ----

  /** What the buffer is to look like: the packets held, oldest first. */
  datatype Listing = Listing(source: Option<u32>, queue: seq<Packet>, pushed: set<u32>)

  datatype Operation =
    | Push(packet: Packet)
    | Take(timestamp: u32)
    | DiscardBefore(timestamp: u32)
    | LookForPlayout

  datatype Answer =
    | Pushed(result: PushResult)
    | Taken(packet: Option<Packet>)
    | Discarded
    | Playout(first: Option<u32>)

  function Stamps(queue: seq<Packet>): (stamps: seq<u32>)
    ensures |stamps| == |queue|
  {
    seq(|queue|, i requires 0 <= i < |queue| => queue[i].timestamp)
  }

  function KeepPackets(queue: seq<Packet>, p: u32 -> bool): seq<Packet> {
    if queue == [] then []
    else (if p(queue[0].timestamp) then [queue[0]] else []) + KeepPackets(queue[1..], p)
  }

  function Lookup(queue: seq<Packet>, timestamp: u32): Option<Packet> {
    if queue == [] then None
    else if queue[0].timestamp == timestamp then Some(queue[0])
    else Lookup(queue[1..], timestamp)
  }

  function After(m: Listing, op: Operation): Listing {
    match op
    case Push(packet) =>
      var t := packet.timestamp;
      if m.source != Some(packet.source) then Listing(Some(packet.source), [packet], {t})
      else if t in Stamps(m.queue) then m
      else m.(queue := (if |m.queue| == CAPACITY then m.queue[1..] else m.queue) + [packet], pushed := m.pushed + {t})
    case Take(timestamp) => m.(queue := KeepPackets(m.queue, Except(timestamp)))
    case DiscardBefore(timestamp) => m.(queue := KeepPackets(m.queue, Since(timestamp)))
    case LookForPlayout => m
  }

  function AnswerTo(m: Listing, op: Operation): Answer {
    match op
    case Push(packet) =>
      Pushed(if m.source != Some(packet.source) then NewSynchronizationSource
             else if packet.timestamp in Stamps(m.queue) then Duplicate
             else if |m.queue| == CAPACITY then Overrun
             else Accepted)
    case Take(timestamp) => Taken(Lookup(m.queue, timestamp))
    case DiscardBefore(_) => Discarded
    case LookForPlayout => Playout(if m.queue == [] then None else Some(m.queue[0].timestamp))
  }

  /** A packet pushed is new: its timestamp has not been taken or discarded before in this generation. */
  predicate IsNew(m: Listing, op: Operation) {
    op.Push? && m.source == Some(op.packet.source) && op.packet.timestamp !in Stamps(m.queue) ==>
      op.packet.timestamp !in m.pushed
  }

  const EMPTY := Listing(None, [], {})

  function AfterAll(ops: seq<Operation>): Listing {
    if ops == [] then EMPTY else After(AfterAll(ops[..|ops| - 1]), ops[|ops| - 1])
  }

  /** The packets of the list are the frames held, and the live order is theirs. */
  predicate Lists(queue: seq<Packet>, frames: map<u32, Packet>, live: seq<u32>) {
    && live == Stamps(queue) && NoDuplicates(live) && |frames| == |queue|
    && (forall t | t in frames :: t in live)
    && forall i | 0 <= i < |queue| :: live[i] in frames && frames[live[i]] == queue[i]
  }

  lemma {:induction false} StampsKept(queue: seq<Packet>, p: u32 -> bool)
    ensures Stamps(KeepPackets(queue, p)) == Keep(Stamps(queue), p)
    decreases |queue|
  {
    if queue != [] {
      StampsKept(queue[1..], p);
      assert Stamps(queue)[1..] == Stamps(queue[1..]);
      var rest := KeepPackets(queue[1..], p);
      assert Stamps([queue[0]] + rest) == [queue[0].timestamp] + Stamps(rest) && [] + rest == rest;
    }
  }

  lemma {:induction false} KeptFrom(queue: seq<Packet>, p: u32 -> bool, i: nat)
    requires i < |KeepPackets(queue, p)|
    ensures KeepPackets(queue, p)[i] in queue && p(KeepPackets(queue, p)[i].timestamp)
    decreases |queue|
  {
    var n := if p(queue[0].timestamp) then 1 else 0;
    if i >= n {
      assert KeepPackets(queue, p)[i] == KeepPackets(queue[1..], p)[i - n];
      KeptFrom(queue[1..], p, i - n);
    }
  }

  lemma {:induction false} LookedUp(queue: seq<Packet>, timestamp: u32)
    ensures match Lookup(queue, timestamp)
            case Some(packet) => packet in queue && packet.timestamp == timestamp
            case None => forall i | 0 <= i < |queue| :: queue[i].timestamp != timestamp
    decreases |queue|
  {
    if queue != [] && queue[0].timestamp != timestamp {
      LookedUp(queue[1..], timestamp);
    }
  }

  lemma Listed(queue: seq<Packet>, frames: map<u32, Packet>, live: seq<u32>, packet: Packet)
    requires Lists(queue, frames, live) && packet in queue
    ensures packet.timestamp in frames && frames[packet.timestamp] == packet
  {
    var i :| 0 <= i < |queue| && queue[i] == packet;
    assert live[i] == packet.timestamp;
  }

  lemma TakenListed(queue: seq<Packet>, frames: map<u32, Packet>, live: seq<u32>, timestamp: u32)
    requires Lists(queue, frames, live)
    ensures Lookup(queue, timestamp) == if timestamp in frames then Some(frames[timestamp]) else None
  {
    LookedUp(queue, timestamp);
    match Lookup(queue, timestamp)
    case Some(packet) => Listed(queue, frames, live, packet);
    case None =>
      assert forall i | 0 <= i < |live| :: live[i] == queue[i].timestamp;
      assert timestamp !in live;
  }

  /** The facts of a buffer that make its frames and its live order a list. */
  ghost predicate Ordered(frames: map<u32, Packet>, live: seq<u32>) {
    NoDuplicates(live) && |live| == |frames| && forall t :: t in live <==> t in frames
  }

  lemma OrderedQueue(s: State)
    requires Consistent(s)
    ensures Ordered(s.frames, Live(s.order, s.frames.Keys))
  {
    LiveOnce(s.order, s.frames.Keys);
    assert |s.frames| == |s.frames.Keys|;
    forall t
      ensures t in Live(s.order, s.frames.Keys) <==> t in s.frames
    {
      LiveMembers(s.order, s.frames.Keys, t);
    }
  }

  lemma FewerListed(queue: seq<Packet>, frames: map<u32, Packet>, live: seq<u32>, p: u32 -> bool,
                    fewer: map<u32, Packet>)
    requires Lists(queue, frames, live)
    requires forall t :: t in fewer <==> t in frames && p(t)
    requires forall t | t in fewer :: fewer[t] == frames[t]
    requires Ordered(fewer, Keep(live, p))
    ensures Lists(KeepPackets(queue, p), fewer, Keep(live, p))
  {
    StampsKept(queue, p);
    var kept := KeepPackets(queue, p);
    forall i | 0 <= i < |kept|
      ensures kept[i].timestamp in fewer && fewer[kept[i].timestamp] == kept[i]
    {
      KeptFrom(queue, p, i);
      Listed(queue, frames, live, kept[i]);
    }
  }

  lemma MoreListed(queue: seq<Packet>, frames: map<u32, Packet>, live: seq<u32>, packet: Packet,
                   after: map<u32, Packet>, longer: seq<u32>, place: nat)
    requires Lists(queue, frames, live) && packet.timestamp !in frames
    requires after == frames[packet.timestamp := packet] && JoinedAt(live, longer, packet.timestamp, place, false)
    requires Ordered(after, longer)
    ensures Lists(queue + [packet], after, longer)
  {
    assert longer == live + [packet.timestamp];
    assert Stamps(queue + [packet]) == Stamps(queue) + [packet.timestamp];
    forall i | 0 <= i < |queue| + 1
      ensures longer[i] in after && after[longer[i]] == (queue + [packet])[i]
    {
      assert i < |queue| ==> longer[i] == live[i] && live[i] in frames;
    }
  }

  lemma OldestListed(queue: seq<Packet>, frames: map<u32, Packet>, live: seq<u32>)
    requires Lists(queue, frames, live) && live != []
    ensures Lists(queue[1..], frames - {live[0]}, live[1..])
  {
    assert Stamps(queue[1..]) == live[1..];
    var fewer := frames - {live[0]};
    assert frames == fewer[live[0] := frames[live[0]]];
    forall i | 0 <= i < |queue| - 1
      ensures live[1..][i] in fewer && fewer[live[1..][i]] == queue[1..][i]
    {
      assert live[i + 1] != live[0];
    }
  }

  /** A push of a new packet does to the buffer what it does to the list. */
  lemma PushListed(m: Listing, packet: Packet, before: map<u32, Packet>, live: seq<u32>, after: map<u32, Packet>,
                   queue: seq<u32>, place: nat)
    requires Lists(m.queue, before, live) && Ordered(after, queue) && IsNew(m, Push(packet))
    requires PushEffect(before, live, after, queue, packet, packet.timestamp in m.pushed, place,
                        AnswerTo(m, Push(packet)).result)
    ensures Lists(After(m, Push(packet)).queue, after, queue)
  {
    var t := packet.timestamp;
    match AnswerTo(m, Push(packet)).result
    case NewSynchronizationSource => OnlyListed(packet);
    case Duplicate =>
    case Accepted => MoreListed(m.queue, before, live, packet, after, queue, place);
    case Overrun =>
      OldestListed(m.queue, before, live);
      MoreListed(m.queue[1..], before - {live[0]}, live[1..], packet, after, queue, place);
  }

  lemma OnlyListed(packet: Packet)
    ensures Lists([packet], map[packet.timestamp := packet], [packet.timestamp])
  {
    assert Stamps([packet]) == [packet.timestamp];
  }

  /** The buffer holds what the list says. */
  ghost predicate Shows(b: RtpJitterBuffer, m: Listing)
    reads b
  {
    b.source == m.source && b.pushed == m.pushed && Lists(m.queue, b.frames, b.Queue())
  }

  lemma PushAnswered(m: Listing, packet: Packet, before: map<u32, Packet>, live: seq<u32>, result: PushResult)
    requires Lists(m.queue, before, live)
    requires result == if m.source != Some(packet.source) then NewSynchronizationSource
                       else if packet.timestamp in before then Duplicate
                       else if |before| == CAPACITY then Overrun
                       else Accepted
    ensures Pushed(result) == AnswerTo(m, Push(packet))
  {
    assert packet.timestamp in before <==> packet.timestamp in live;
  }

  /** What the list says of its source and the timestamps pushed. */
  lemma PushNoted(m: Listing, packet: Packet)
    ensures var n := After(m, Push(packet));
            && n.source == Some(packet.source)
            && n.pushed == if m.source != Some(packet.source) then {packet.timestamp}
                           else if packet.timestamp in Stamps(m.queue) then m.pushed
                           else m.pushed + {packet.timestamp}
  {
  }

  method DoPush(b: RtpJitterBuffer, ghost m: Listing, packet: Packet) returns (result: PushResult)
    requires b.Valid() && Shows(b, m) && IsNew(m, Push(packet))
    modifies b
    ensures b.Valid() && Shows(b, After(m, Push(packet))) && Pushed(result) == AnswerTo(m, Push(packet))
  {
    ghost var before, live, place := b.frames, b.Queue(), b.PlaceOf(packet.timestamp);
    result := b.Push(packet);
    PushAnswered(m, packet, before, live, result);
    PushNoted(m, packet);
    OrderedQueue(b.Now());
    PushListed(m, packet, before, live, b.frames, b.Queue(), place);
    if result == Duplicate {
      HeldWasPushed(b.Now(), packet.timestamp);
    }
  }

  method DoTake(b: RtpJitterBuffer, ghost m: Listing, timestamp: u32) returns (packet: Option<Packet>)
    requires b.Valid() && Shows(b, m)
    modifies b
    ensures b.Valid() && Shows(b, After(m, Take(timestamp))) && Taken(packet) == AnswerTo(m, Take(timestamp))
  {
    ghost var before, live := b.frames, b.Queue();
    TakenListed(m.queue, before, live, timestamp);
    packet := b.Take(timestamp);
    OrderedQueue(b.Now());
    FewerListed(m.queue, before, live, Except(timestamp), b.frames);
  }

  method DoDiscard(b: RtpJitterBuffer, ghost m: Listing, timestamp: u32)
    requires b.Valid() && Shows(b, m)
    modifies b
    ensures b.Valid() && Shows(b, After(m, DiscardBefore(timestamp)))
  {
    ghost var before, live := b.frames, b.Queue();
    b.DiscardBefore(timestamp);
    OrderedQueue(b.Now());
    RemainingKeys(before, timestamp);
    FewerListed(m.queue, before, live, Since(timestamp), b.frames);
  }

  method Do(b: RtpJitterBuffer, ghost m: Listing, op: Operation) returns (answer: Answer)
    requires b.Valid() && Shows(b, m) && IsNew(m, op)
    modifies b
    ensures b.Valid() && Shows(b, After(m, op)) && answer == AnswerTo(m, op)
  {
    match op
    case Push(packet) =>
      var result := DoPush(b, m, packet);
      answer := Pushed(result);
    case Take(timestamp) =>
      var packet := DoTake(b, m, timestamp);
      answer := Taken(packet);
    case DiscardBefore(timestamp) =>
      DoDiscard(b, m, timestamp);
      answer := Discarded;
    case LookForPlayout =>
      var start := b.GetInitialPlayout();
      answer := Playout(if start == None then None else Some(start.value.timestamp));
  }

  /** These are the answers to the first operations. */
  predicate Answered(ops: seq<Operation>, answers: seq<Answer>) {
    |answers| <= |ops| &&
    forall i | 0 <= i < |answers| :: answers[i] == AnswerTo(AfterAll(ops[..i]), ops[i])
  }

  lemma OneOperationMore(ops: seq<Operation>, i: nat, j: nat)
    requires j == i + 1 <= |ops|
    ensures AfterAll(ops[..j]) == After(AfterAll(ops[..i]), ops[i])
  {
    assert ops[..j][..i] == ops[..i] && ops[..j][i] == ops[i];
  }

  method DoNext(b: RtpJitterBuffer, ops: seq<Operation>, answers: seq<Answer>) returns (more: seq<Answer>)
    requires |answers| < |ops| && Answered(ops, answers) && IsNew(AfterAll(ops[..|answers|]), ops[|answers|])
    requires b.Valid() && Shows(b, AfterAll(ops[..|answers|]))
    modifies b
    ensures b.Valid() && Shows(b, AfterAll(ops[..|answers| + 1]))
    ensures |more| == |answers| + 1 && Answered(ops, more)
  {
    var i := |answers|;
    OneOperationMore(ops, i, i + 1);
    var answer := Do(b, AfterAll(ops[..i]), ops[i]);
    more := answers + [answer];
  }

  /**
   Any run in which no taken or discarded timestamp is pushed again within its generation: the buffer, with its lazy
   removal, holds and answers what a plain list of packets in the order of their arrival would.
   */
  method Run(ops: seq<Operation>) returns (b: RtpJitterBuffer, answers: seq<Answer>)
    requires forall i | 0 <= i < |ops| :: IsNew(AfterAll(ops[..i]), ops[i])
    ensures b.Valid() && Shows(b, AfterAll(ops)) && |AfterAll(ops).queue| <= CAPACITY
    ensures |answers| == |ops| && Answered(ops, answers)
  {
    b := new RtpJitterBuffer();
    answers := [];
    assert ops[..0] == [];
    for i := 0 to |ops|
      invariant b.Valid() && fresh(b) && Shows(b, AfterAll(ops[..i])) && |answers| == i && Answered(ops, answers)
    {
      answers := DoNext(b, ops, answers);
    }
    assert ops[..|ops|] == ops;
    Facts(b.Now());
  }
}
