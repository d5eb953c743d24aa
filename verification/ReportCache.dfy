/** The cache of the newest sender report of each recently inserted source. */
module ReportCache {
  import opened Bytes
  import opened Options

  /** A report and when it came. */
  datatype TimedReport = TimedReport(ntp: u64, rtp: u32, packets: u32, octets: u32, name: string, receivedAt: int)

  type History = seq<(u32, TimedReport)>

  // ---- What the cache should hold, by what has been stored ----

  /** The last entries of a list, up to the capacity. */
  function Window(insertions: seq<u32>, capacity: nat): (w: seq<u32>)
    ensures |w| <= capacity && |w| <= |insertions|
  {
    if |insertions| <= capacity then insertions else insertions[|insertions| - capacity..]
  }

  /** The sources that entered the cache, in order: those that were not in it when stored. */
  function Insertions(history: History, capacity: nat): seq<u32> {
    if history == [] then []
    else
      var n := |history| - 1;
      var before := Insertions(history[..n], capacity);
      if history[n].0 in Window(before, capacity) then before else before + [history[n].0]
  }

  /** The report stored last for a source. */
  function Newest(history: History, source: u32): Option<TimedReport> {
    if history == [] then None
    else
      var n := |history| - 1;
      if history[n].0 == source then Some(history[n].1) else Newest(history[..n], source)
  }

  predicate NoDuplicates(s: seq<u32>) {
    forall i, j | 0 <= i < j < |s| :: s[i] != s[j]
  }

  /** A new source pushes the oldest one out once the cache is full. */
  lemma WindowGrows(insertions: seq<u32>, source: u32, capacity: nat)
    ensures capacity > 0 ==>
              Window(insertions + [source], capacity) ==
              (if |Window(insertions, capacity)| < capacity then Window(insertions, capacity)
               else Window(insertions, capacity)[1..]) + [source]
    ensures capacity == 0 ==> Window(insertions + [source], capacity) == []
  {
  }

  /** A source that entered at position i leaves exactly when as many others as the capacity have entered after it. */
  lemma DroppedAtCapacity(ins: seq<u32>, capacity: nat, i: nat)
    requires i < |ins| && forall j | i < j < |ins| :: ins[j] != ins[i]
    ensures ins[i] in Window(ins, capacity) <==> |ins| - 1 - i < capacity
  {
    if |ins| - 1 - i < capacity && |ins| > capacity {
      assert Window(ins, capacity)[i - (|ins| - capacity)] == ins[i];
    }
  }

  function Elements(s: seq<u32>): set<u32> {
    set i | 0 <= i < |s| :: s[i]
  }

  lemma {:induction false} ElementsCounted(s: seq<u32>)
    requires NoDuplicates(s)
    ensures |Elements(s)| == |s|
    decreases |s|
  {
    if s != [] {
      var n := |s| - 1;
      ElementsCounted(s[..n]);
      ElementsAppend(s[..n], s[n]);
      assert s == s[..n] + [s[n]];
      assert forall i | 0 <= i < n :: s[i] != s[n];
    }
  }

  lemma ElementsMember(s: seq<u32>, x: u32)
    ensures x in Elements(s) <==> x in s
  {
  }

  lemma ElementsAppend(s: seq<u32>, x: u32)
    ensures Elements(s + [x]) == Elements(s) + {x}
  {
    var t := s + [x];
    assert forall i | 0 <= i < |s| :: t[i] == s[i];
    assert t[|s|] == x;
  }

  lemma ElementsRest(s: seq<u32>)
    requires s != [] && NoDuplicates(s)
    ensures Elements(s[1..]) == Elements(s) - {s[0]}
  {
    var t := s[1..];
    assert forall i | 0 < i < |s| :: t[i - 1] == s[i];
  }

  // ---- What the cache is, and how a store changes it ----

  /** A queue of exactly the sources of these reports, without duplicates. */
  predicate Queues(reports: map<u32, TimedReport>, order: seq<u32>) {
    NoDuplicates(order) && reports.Keys == Elements(order)
  }

  /** Each report is the newest of its source. */
  predicate AllNewest(history: History, reports: map<u32, TimedReport>) {
    forall s | s in reports :: Newest(history, s) == Some(reports[s])
  }

  /** The sources that should be held. */
  function Held(history: History, capacity: nat): seq<u32> {
    Window(Insertions(history, capacity), capacity)
  }

  lemma NewestAfter(history: History, source: u32, report: TimedReport, s: u32)
    ensures Newest(history + [(source, report)], s) == if s == source then Some(report) else Newest(history, s)
  {
    assert (history + [(source, report)])[..|history|] == history;
  }

  lemma InsertionsAfter(history: History, capacity: nat, source: u32, report: TimedReport)
    ensures Insertions(history + [(source, report)], capacity) ==
            if source in Window(Insertions(history, capacity), capacity) then Insertions(history, capacity)
            else Insertions(history, capacity) + [source]
  {
    assert (history + [(source, report)])[..|history|] == history;
  }

  lemma NewestsAfter(history: History, longer: History, reports: map<u32, TimedReport>,
                     source: u32, report: TimedReport)
    requires AllNewest(history, reports) && longer == history + [(source, report)]
    ensures AllNewest(longer, reports[source := report])
  {
    var updated := reports[source := report];
    forall s | s in updated
      ensures Newest(longer, s) == Some(updated[s])
    {
      NewestAfter(history, source, report, s);
    }
  }

  lemma NewestsFewer(history: History, reports: map<u32, TimedReport>, gone: u32)
    requires AllNewest(history, reports)
    ensures AllNewest(history, reports - {gone})
  {
  }

  lemma NewestOf(history: History, reports: map<u32, TimedReport>, s: u32)
    requires AllNewest(history, reports) && s in reports
    ensures Newest(history, s) == Some(reports[s])
  {
  }

  lemma QueueFacts(reports: map<u32, TimedReport>, order: seq<u32>)
    requires Queues(reports, order)
    ensures |reports| == |order| && forall s :: s in reports <==> s in order
  {
    ElementsCounted(order);
    assert |reports| == |reports.Keys|;
    forall s
      ensures s in reports <==> s in order
    {
      ElementsMember(order, s);
    }
  }

  lemma QueueKnown(reports: map<u32, TimedReport>, order: seq<u32>, source: u32, report: TimedReport)
    requires Queues(reports, order) && source in reports
    ensures Queues(reports[source := report], order)
  {
    assert reports[source := report].Keys == reports.Keys;
  }

  lemma QueueShorter(reports: map<u32, TimedReport>, order: seq<u32>)
    requires Queues(reports, order) && order != []
    ensures Queues(reports - {order[0]}, order[1..])
  {
    ElementsRest(order);
  }

  lemma QueueLonger(reports: map<u32, TimedReport>, order: seq<u32>, source: u32, report: TimedReport)
    requires Queues(reports, order) && source !in reports
    ensures Queues(reports[source := report], order + [source])
  {
    ElementsAppend(order, source);
    assert reports[source := report].Keys == reports.Keys + {source};
    assert forall i | 0 <= i < |order| :: order[i] in Elements(order);
  }

  lemma HeldAfter(history: History, longer: History, capacity: nat, source: u32, report: TimedReport)
    requires longer == history + [(source, report)] && capacity > 0
    ensures var held := Held(history, capacity);
            Held(longer, capacity) ==
            if source in held then held
            else (if |held| < capacity then held else held[1..]) + [source]
  {
    InsertionsAfter(history, capacity, source, report);
    WindowGrows(Insertions(history, capacity), source, capacity);
  }

  class RtcpReportCache {
    const capacity: nat
    var reports: map<u32, TimedReport>
    var insertionOrder: seq<u32>
    ghost var history: History

    ghost predicate Valid()
      reads this
    {
      && capacity > 0 && insertionOrder == Held(history, capacity)
      && Queues(reports, insertionOrder) && AllNewest(history, reports)
    }

    constructor (size: nat)
      requires size > 0
      ensures Valid() && history == [] && capacity == size
    {
      capacity := size;
      reports, insertionOrder, history := map[], [], [];
    }

    /** The oldest source is pushed out when there is no room for another. */
    method MakeRoom() returns (evicted: bool)
      requires Valid()
      modifies `reports, `insertionOrder
      ensures evicted <==> |old(insertionOrder)| == capacity
      ensures insertionOrder == if evicted then old(insertionOrder)[1..] else old(insertionOrder)
      ensures Queues(reports, insertionOrder) && AllNewest(history, reports)
      ensures forall s | s in reports :: s in old(reports)
    {
      QueueFacts(reports, insertionOrder);
      evicted := false;
      if |reports| >= capacity {
        QueueShorter(reports, insertionOrder);
        NewestsFewer(history, reports, insertionOrder[0]);
        reports := reports - {insertionOrder[0]};
        insertionOrder := insertionOrder[1..];
        evicted := true;
      }
    }

    /** The newest report of a known source is replaced; a new source may push the oldest one out. */
    method Store(source: u32, report: TimedReport) returns (evicted: bool)
      requires Valid()
      modifies this
      ensures Valid() && history == old(history) + [(source, report)]
      ensures evicted <==> source !in Held(old(history), capacity) && |Held(old(history), capacity)| == capacity
    {
      ghost var longer := history + [(source, report)];
      QueueFacts(reports, insertionOrder);
      HeldAfter(history, longer, capacity, source, report);
      evicted := false;
      if source in reports {
        QueueKnown(reports, insertionOrder, source, report);
      } else {
        evicted := MakeRoom();
        QueueLonger(reports, insertionOrder, source, report);
        insertionOrder := insertionOrder + [source];
      }
      NewestsAfter(history, longer, reports, source, report);
      reports := reports[source := report];
      history := longer;
    }

    /** The newest report stored for a source, for as long as the source is held. */
    method Find(source: u32) returns (r: Option<TimedReport>)
      requires Valid()
      ensures r == if source in Held(history, capacity) then Newest(history, source) else None
      ensures r.Some? <==> source in Held(history, capacity)
    {
      QueueFacts(reports, insertionOrder);
      if source in reports {
        NewestOf(history, reports, source);
        return Some(reports[source]);
      }
      r := None;
    }

    method Size() returns (n: nat)
      requires Valid()
      ensures n == |Held(history, capacity)| <= capacity
    {
      QueueFacts(reports, insertionOrder);
      n := |reports|;
    }

    method IsEmpty() returns (empty: bool)
      requires Valid()
      ensures empty <==> Held(history, capacity) == []
    {
      QueueFacts(reports, insertionOrder);
      empty := |reports| == 0;
    }
  }

  /** A cache of no capacity is refused. */
  method NewReportCache(capacity: nat) returns (c: RtcpReportCache?)
    ensures c == null <==> capacity == 0
    ensures c != null ==> fresh(c) && c.Valid() && c.history == [] && c.capacity == capacity
  {
    c := null;
    if capacity > 0 {
      c := new RtcpReportCache(capacity);
    }
  }

  /** Any run of stores: the cache is what the reports stored say it should be. */
  method Run(capacity: nat, stores: History) returns (c: RtcpReportCache)
    requires capacity > 0
    ensures c.Valid() && c.history == stores && c.capacity == capacity
  {
    c := new RtcpReportCache(capacity);
    for i := 0 to |stores|
      invariant fresh(c) && c.Valid() && c.history == stores[..i] && c.capacity == capacity
    {
      var (source, report) := stores[i];
      assert stores[..i + 1] == stores[..i] + [(source, report)];
      var _ := c.Store(source, report);
    }
  }
}
