/**
 Reading a compound RTCP datagram: one sender report (section 6.4.1 of RFC 3550), first, and exactly one
 canonical name for its source; anything malformed rejects the whole datagram.
 */
module RtcpPacket {
  import opened BigEndian
  import opened Bytes
  import opened Options
  import opened RtcpWire
  import opened Sequences

  const MAX_PACKET_SIZE := 2048
  const FIXED_SIZE := 24
  const REPORT_BLOCK_SIZE := 24

  /** What a sender report says about its stream. */
  datatype Sender = Sender(source: u32, ntpHigh: u32, ntpLow: u32, rtp: u32, packets: u32, octets: u32)

  datatype Report = Report(sender: Sender, name: Text)

  // ---- Sender reports ----

  function SenderWire(s: Sender): (w: seq<u8>)
    ensures |w| == FIXED_SIZE
  {
    Be32(s.source) + Be32(s.ntpHigh) + Be32(s.ntpLow) + Be32(s.rtp) + Be32(s.packets) + Be32(s.octets)
  }

  function SenderIn(d: seq<u8>): Sender
    requires |d| >= FIXED_SIZE
  {
    Sender(Long(d[..4]), Long(d[4..8]), Long(d[8..12]), Long(d[12..16]), Long(d[16..20]), Long(d[20..24]))
  }

  /** The content of a sender report, if it has the size its count calls for and names a source. */
  function SenderOf(f: Frame): Option<Sender> {
    if |f.content| != FIXED_SIZE + f.count * REPORT_BLOCK_SIZE then None
    else if SenderIn(f.content).source == 0 then None
    else Some(SenderIn(f.content))
  }

  lemma SixParts(a: seq<u8>, b: seq<u8>, c: seq<u8>, d: seq<u8>, e: seq<u8>, f: seq<u8>, rest: seq<u8>)
    requires |a| == |b| == |c| == |d| == |e| == |f| == 4
    ensures var w := a + b + c + d + e + f + rest;
            && w[..4] == a && w[4..8] == b && w[8..12] == c && w[12..16] == d && w[16..20] == e && w[20..24] == f
            && w[24..] == rest
  {
  }

  lemma SixWhole(d: seq<u8>)
    requires |d| >= 24
    ensures d == d[..4] + d[4..8] + d[8..12] + d[12..16] + d[16..20] + d[20..24] + d[24..]
  {
  }

  lemma SenderReadBack(s: Sender, reports: seq<u8>)
    ensures SenderIn(SenderWire(s) + reports) == s
  {
    SixParts(Be32(s.source), Be32(s.ntpHigh), Be32(s.ntpLow), Be32(s.rtp), Be32(s.packets), Be32(s.octets), reports);
    LongSplit(s.source);
    LongSplit(s.ntpHigh);
    LongSplit(s.ntpLow);
    LongSplit(s.rtp);
    LongSplit(s.packets);
    LongSplit(s.octets);
  }

  lemma SenderWasWritten(d: seq<u8>)
    requires |d| >= FIXED_SIZE
    ensures d == SenderWire(SenderIn(d)) + d[FIXED_SIZE..]
  {
    SixWhole(d);
    LongJoin(d[..4]);
    LongJoin(d[4..8]);
    LongJoin(d[8..12]);
    LongJoin(d[12..16]);
    LongJoin(d[16..20]);
    LongJoin(d[20..24]);
  }

  // ---- Canonical names ----

  /** The names these items give, if they are about the source that matters. */
  function ItemNames(items: seq<Item>, relevant: bool): seq<Text> {
    if items == [] || !relevant then []
    else (if items[0].kind == CNAME then [items[0].text] else []) + ItemNames(items[1..], relevant)
  }

  function ChunkNames(cs: seq<Chunk>, source: u32): seq<Text> {
    if cs == [] then []
    else ItemNames(cs[0].items, cs[0].source == source) + ChunkNames(cs[1..], source)
  }

  /** The names given by all source descriptions together; none if one of them is malformed. */
  function AllNames(fs: seq<Frame>, source: u32): Option<seq<Text>> {
    if fs == [] then Some([])
    else
      var f := fs[|fs| - 1];
      match AllNames(fs[..|fs| - 1], source)
      case None => None
      case Some(names) =>
        if f.kind != SOURCE_DESCRIPTION then Some(names)
        else match Chunks(f.content, f.count)
          case None => None
          case Some(cs) => Some(names + ChunkNames(cs, source))
  }

  /** Take names one by one: an empty one or a second one is refused. */
  function Take(name: Option<Text>, names: seq<Text>): Option<Option<Text>>
    decreases |names|
  {
    if names == [] then Some(name)
    else if names[0] == [] || name.Some? then None
    else Take(Some(names[0]), names[1..])
  }

  lemma {:induction false} TakeAppend(name: Option<Text>, a: seq<Text>, b: seq<Text>)
    ensures Take(name, a + b) == match Take(name, a) case None => None case Some(n) => Take(n, b)
    decreases |a|
  {
    if a == [] {
      assert a + b == b;
    } else {
      assert (a + b)[0] == a[0] && (a + b)[1..] == a[1..] + b;
      if a[0] != [] && name == None {
        TakeAppend(Some(a[0]), a[1..], b);
      }
    }
  }

  /** In the end there is exactly one name, and it is not empty. */
  lemma TakenOne(names: seq<Text>, name: Text)
    ensures Take(None, names) == Some(Some(name)) <==> names == [name] && name != []
  {
    if names != [] && names[0] != [] {
      assert names == [names[0]] + names[1..];
      assert Take(Some(names[0]), names[1..]).Some? <==> names[1..] == [];
    }
  }

  // ---- What the parser knows after some frames ----

  datatype State = State(sender: Option<Sender>, name: Option<Text>)

  function Step(st: State, f: Frame, first: bool): Option<State> {
    if first && f.kind != SENDER_REPORT then None
    else if f.kind == SENDER_REPORT then
      (if st.sender.Some? || SenderOf(f) == None then None else Some(st.(sender := SenderOf(f))))
    else if f.kind == SOURCE_DESCRIPTION then
      if st.sender == None then None
      else match Chunks(f.content, f.count)
        case None => None
        case Some(cs) =>
          match Take(st.name, ChunkNames(cs, st.sender.value.source))
          case None => None
          case Some(name) => Some(st.(name := name))
    else Some(st)
  }

  function Digest(fs: seq<Frame>): Option<State> {
    if fs == [] then Some(State(None, None))
    else match Digest(fs[..|fs| - 1])
      case None => None
      case Some(st) => Step(st, fs[|fs| - 1], |fs| == 1)
  }

  /** The whole parser. */
  function Parsed(d: seq<u8>): Option<Report> {
    if |d| < HEADER_SIZE || |d| > MAX_PACKET_SIZE || |d| % 4 != 0 then None
    else match Frames(d)
      case None => None
      case Some(fs) =>
        match Digest(fs)
        case None => None
        case Some(st) =>
          if st.sender == None || st.name == None then None else Some(Report(st.sender.value, st.name.value))
  }

  // ---- What acceptance means ----

  /** The first frame is the only sender report. */
  predicate OneSenderFirst(fs: seq<Frame>) {
    fs != [] && fs[0].kind == SENDER_REPORT && forall i | 0 < i < |fs| :: fs[i].kind != SENDER_REPORT
  }

  /** What the parser should know after some frames, said without going through them one by one. */
  function Expected(fs: seq<Frame>): Option<State> {
    if !OneSenderFirst(fs) || SenderOf(fs[0]) == None then None
    else
      var sender := SenderOf(fs[0]).value;
      match AllNames(fs, sender.source)
      case None => None
      case Some(names) =>
        match Take(None, names)
        case None => None
        case Some(name) => Some(State(Some(sender), name))
  }

  lemma NamesGrow(fs: seq<Frame>, f: Frame, source: u32)
    ensures AllNames(fs + [f], source) ==
            match AllNames(fs, source)
            case None => None
            case Some(names) =>
              if f.kind != SOURCE_DESCRIPTION then Some(names)
              else match Chunks(f.content, f.count)
                case None => None
                case Some(cs) => Some(names + ChunkNames(cs, source))
  {
    assert (fs + [f])[..|fs|] == fs;
  }

  lemma ExpectedGrows(fs: seq<Frame>, f: Frame)
    requires fs != []
    ensures Expected(fs + [f]) == match Expected(fs) case None => None case Some(st) => Step(st, f, false)
  {
    var gs := fs + [f];
    assert gs[|fs|] == f && forall i | 0 <= i < |fs| :: gs[i] == fs[i];
    assert OneSenderFirst(gs) <==> OneSenderFirst(fs) && f.kind != SENDER_REPORT;
    if OneSenderFirst(gs) && SenderOf(fs[0]).Some? {
      var source := SenderOf(fs[0]).value.source;
      NamesGrow(fs, f, source);
      if f.kind == SOURCE_DESCRIPTION && AllNames(gs, source).Some? {
        TakeAppend(None, AllNames(fs, source).value, ChunkNames(Chunks(f.content, f.count).value, source));
      }
    }
  }

  lemma {:induction false} DigestExpected(fs: seq<Frame>)
    requires fs != []
    ensures Digest(fs) == Expected(fs)
    decreases |fs|
  {
    var n := |fs| - 1;
    var before, f := fs[..n], fs[n];
    assert fs == before + [f];
    if n == 0 {
      assert before == [];
      FirstExpected(f);
    } else {
      DigestExpected(before);
      ExpectedGrows(before, f);
    }
  }

  lemma FirstExpected(f: Frame)
    ensures Expected([f]) == Step(State(None, None), f, true)
  {
    var fs := [f];
    assert fs[0] == f && fs == [] + [f];
    assert OneSenderFirst(fs) <==> f.kind == SENDER_REPORT;
    if f.kind == SENDER_REPORT && SenderOf(f).Some? {
      NamesGrow([], f, SenderOf(f).value.source);
      assert AllNames(fs, SenderOf(f).value.source) == Some([]);
      assert Expected(fs) == Some(State(SenderOf(f), None));
    } else {
      assert Expected(fs) == None;
    }
  }

  /** The names that the chunks of each frame give, taken together. */
  function GivenNames(descriptions: seq<seq<Chunk>>, source: u32): seq<Text> {
    if descriptions == [] then []
    else
      var n := |descriptions| - 1;
      GivenNames(descriptions[..n], source) + ChunkNames(descriptions[n], source)
  }

  /** This frame describes these chunks; a frame of another kind describes none. */
  ghost predicate DescribedBy(f: Frame, cs: seq<Chunk>) {
    if f.kind == SOURCE_DESCRIPTION then
      |cs| == f.count && exists zeros | AllZero(zeros) :: f.content == ChunksWire(cs) + zeros
    else cs == []
  }

  ghost predicate AllDescribed(fs: seq<Frame>, descriptions: seq<seq<Chunk>>) {
    |fs| == |descriptions| && forall i | 0 <= i < |fs| :: DescribedBy(fs[i], descriptions[i])
  }

  /** A well-formed compound: what it says, the report blocks it carries, and the chunks of each of its frames. */
  ghost predicate Says(fs: seq<Frame>, r: Report, reports: seq<u8>, descriptions: seq<seq<Chunk>>) {
    && OneSenderFirst(fs) && OnlyLastPadded(fs) && r.sender.source != 0
    && fs[0].content == SenderWire(r.sender) + reports && |reports| == fs[0].count * REPORT_BLOCK_SIZE
    && AllDescribed(fs, descriptions) && GivenNames(descriptions, r.sender.source) == [r.name] && r.name != []
  }

  lemma DescribedChunks(f: Frame, cs: seq<Chunk>)
    requires f.kind == SOURCE_DESCRIPTION && |cs| == f.count
    ensures DescribedBy(f, cs) <==> Chunks(f.content, f.count) == Some(cs)
  {
    ChunksExact(f.content, cs);
  }

  lemma ChunksCounted(d: seq<u8>, count: nat)
    ensures Chunks(d, count).Some? ==> |Chunks(d, count).value| == count
  {
    CountedRead(FirstChunk, d, count);
  }

  lemma NothingNamed(names: seq<Text>, source: u32)
    ensures names + ChunkNames([], source) == names
  {
  }

  lemma {:induction false} NamesGiven(fs: seq<Frame>, descriptions: seq<seq<Chunk>>, source: u32)
    requires AllDescribed(fs, descriptions)
    ensures AllNames(fs, source) == Some(GivenNames(descriptions, source))
    decreases |fs|
  {
    if fs != [] {
      var n := |fs| - 1;
      NamesGiven(fs[..n], descriptions[..n], source);
      var names := GivenNames(descriptions[..n], source);
      assert DescribedBy(fs[n], descriptions[n]);
      if fs[n].kind == SOURCE_DESCRIPTION {
        DescribedChunks(fs[n], descriptions[n]);
      } else {
        NothingNamed(names, source);
      }
    }
  }

  /** What a frame describes, when it can be read. */
  function ChunksOf(f: Frame): seq<Chunk> {
    if f.kind == SOURCE_DESCRIPTION && Chunks(f.content, f.count).Some? then Chunks(f.content, f.count).value else []
  }

  function Descriptions(fs: seq<Frame>): (r: seq<seq<Chunk>>)
    ensures |r| == |fs|
  {
    seq(|fs|, i requires 0 <= i < |fs| => ChunksOf(fs[i]))
  }

  lemma ReadableDescribed(f: Frame)
    requires f.kind == SOURCE_DESCRIPTION ==> Chunks(f.content, f.count).Some?
    ensures DescribedBy(f, ChunksOf(f))
  {
    if f.kind == SOURCE_DESCRIPTION {
      ChunksCounted(f.content, f.count);
      DescribedChunks(f, ChunksOf(f));
    }
  }

  lemma {:induction false} EachReadable(fs: seq<Frame>, source: u32, i: nat)
    requires AllNames(fs, source).Some? && i < |fs|
    ensures fs[i].kind == SOURCE_DESCRIPTION ==> Chunks(fs[i].content, fs[i].count).Some?
    decreases |fs|
  {
    var n := |fs| - 1;
    if i < n {
      EachReadable(fs[..n], source, i);
    }
  }

  lemma DescriptionsRead(fs: seq<Frame>, source: u32)
    requires AllNames(fs, source).Some?
    ensures AllDescribed(fs, Descriptions(fs))
  {
    forall i | 0 <= i < |fs|
      ensures DescribedBy(fs[i], Descriptions(fs)[i])
    {
      EachReadable(fs, source, i);
      ReadableDescribed(fs[i]);
    }
  }

  lemma SenderExact(f: Frame, s: Sender, reports: seq<u8>)
    requires f.content == SenderWire(s) + reports && |reports| == f.count * REPORT_BLOCK_SIZE && s.source != 0
    ensures SenderOf(f) == Some(s)
  {
    SenderReadBack(s, reports);
  }

  lemma {:induction false} WireAligned(fs: seq<Frame>)
    ensures |Wire(fs)| % 4 == 0 && (fs != [] ==> |Wire(fs)| >= HEADER_SIZE)
    decreases |fs|
  {
    if fs != [] {
      WireAligned(fs[1..]);
      assert |FrameWire(fs[0])| == Size(fs[0]);
    }
  }

  /** Every well-formed compound that is not too long is read as exactly what it says. */
  lemma WellFormedParsed(fs: seq<Frame>, r: Report, reports: seq<u8>, descriptions: seq<seq<Chunk>>)
    requires Says(fs, r, reports, descriptions) && |Wire(fs)| <= MAX_PACKET_SIZE
    ensures Parsed(Wire(fs)) == Some(r)
  {
    FramesTile(Wire(fs), fs);
    WireAligned(fs);
    DigestExpected(fs);
    SenderExact(fs[0], r.sender, reports);
    NamesGiven(fs, descriptions, r.sender.source);
    TakenOne([r.name], r.name);
  }

  /** Every datagram accepted is a well-formed compound that says exactly what was read. */
  lemma ParsedWellFormed(d: seq<u8>, r: Report)
    requires Parsed(d) == Some(r)
    ensures exists fs, reports, descriptions :: Says(fs, r, reports, descriptions) && d == Wire(fs)
    ensures HEADER_SIZE <= |d| <= MAX_PACKET_SIZE && |d| % 4 == 0
  {
    var fs := Frames(d).value;
    FramesTile(d, fs);
    assert fs != [];
    DigestExpected(fs);
    var source := r.sender.source;
    var names := AllNames(fs, source).value;
    TakenOne(names, r.name);
    DescriptionsRead(fs, source);
    NamesGiven(fs, Descriptions(fs), source);
    SenderWasWritten(fs[0].content);
    assert Says(fs, r, fs[0].content[FIXED_SIZE..], Descriptions(fs));
  }

  // ---- What the server sends ----

  /** The text is a name that these chunks give to the source. */
  ghost predicate Names(cs: seq<Chunk>, source: u32, text: Text) {
    exists c, i :: c in cs && c.source == source && i in c.items && i.kind == CNAME && i.text == text
  }

  lemma {:induction false} ItemNamesExactly(items: seq<Item>, text: Text)
    ensures text in ItemNames(items, true) <==> exists i :: i in items && i.kind == CNAME && i.text == text
    decreases |items|
  {
    if items != [] {
      ItemNamesExactly(items[1..], text);
      assert forall i :: i in items <==> i == items[0] || i in items[1..];
    }
  }

  lemma {:induction false} ChunkNamesExactly(cs: seq<Chunk>, source: u32, text: Text)
    ensures text in ChunkNames(cs, source) <==> Names(cs, source, text)
    decreases |cs|
  {
    if cs != [] {
      ItemNamesExactly(cs[0].items, text);
      ChunkNamesExactly(cs[1..], source, text);
      assert forall c :: c in cs <==> c == cs[0] || c in cs[1..];
    }
  }

  /** The names given are the canonical-name items of the chunks about that source, in all descriptions. */
  lemma {:induction false} GivenExactly(descriptions: seq<seq<Chunk>>, source: u32, text: Text)
    ensures text in GivenNames(descriptions, source) <==> exists cs :: cs in descriptions && Names(cs, source, text)
    decreases |descriptions|
  {
    if descriptions != [] {
      var n := |descriptions| - 1;
      GivenExactly(descriptions[..n], source, text);
      ChunkNamesExactly(descriptions[n], source, text);
      assert forall cs :: cs in descriptions <==> cs == descriptions[n] || cs in descriptions[..n];
    }
  }

  function NamedChunk(source: u32, name: Text): Chunk {
    Chunk(source, [Item(CNAME, name)])
  }

  lemma ZerosAre(zeros: seq<u8>, n: nat)
    requires AllZero(zeros) && |zeros| == n + 1
    ensures [0] + Zeros(n) == zeros
  {
  }

  /** A chunk that gives one name, byte by byte. */
  lemma NamedChunkBytes(source: u32, name: Text, zeros: seq<u8>)
    requires AllZero(zeros) && 1 <= |zeros| <= 4 && (2 + |name| + |zeros|) % 4 == 0
    ensures ChunkWire(NamedChunk(source, name)) == Be32(source) + [1, |name|] + name + zeros
  {
    var items := NamedChunk(source, name).items;
    assert items[1..] == [] && ItemsWire(items[1..]) == [0];
    assert ItemWire(items[0]) == [1, |name|] + name;
    var w := ItemsWire(items);
    assert w == [1, |name|] + name + [0];
    ZerosAre(zeros, Fill(4 + |w|));
    assert BodyWire(items) == [1, |name|] + name + zeros;
  }

  /** A sender report without report blocks, and a source description with one chunk. */
  lemma ServerFrames(s: Sender, chunk: seq<u8>) returns (report: Frame, description: Frame)
    requires |chunk| % 4 == 0 && |chunk| < 1000
    ensures report == Frame(0, SENDER_REPORT, SenderWire(s), [])
    ensures description == Frame(1, SOURCE_DESCRIPTION, chunk, [])
    ensures Wire([report, description]) ==
            [0x80, 200, 0, 6] + SenderWire(s) + ([0x81, 202] + Be16(|chunk| / 4) + chunk)
  {
    report, description := Frame(0, SENDER_REPORT, SenderWire(s), []), Frame(1, SOURCE_DESCRIPTION, chunk, []);
    assert FrameWire(report) == [0x80, 200, 0, 6] + SenderWire(s);
    assert FrameWire(description) == [0x81, 202] + Be16(|chunk| / 4) + chunk;
    WireSplit(FrameWire, report, [description]);
    WireSplit(FrameWire, description, []);
    assert [report] + [description] == [report, description] && [description] + [] == [description];
    assert Wire([description]) == FrameWire(description);
  }

  lemma ServerSays(s: Sender, name: Text, report: Frame, description: Frame)
    requires s.source != 0 && name != [] && report == Frame(0, SENDER_REPORT, SenderWire(s), [])
    requires description == Frame(1, SOURCE_DESCRIPTION, ChunkWire(NamedChunk(s.source, name)), [])
    ensures Says([report, description], Report(s, name), [], [[], [NamedChunk(s.source, name)]])
  {
    var cs := [NamedChunk(s.source, name)];
    assert report.content == SenderWire(s) + [];
    WireSplit(ChunkWire, cs[0], []);
    assert cs == [cs[0]] + [] && ChunksWire(cs) == ChunkWire(cs[0]) + [];
    assert AllZero([]) && description.content == ChunksWire(cs) + [];
    assert DescribedBy(report, []) && DescribedBy(description, cs);
    assert cs[0].items[1..] == [] && ItemNames(cs[0].items, true) == [name];
    assert ChunkNames(cs, s.source) == [name];
    var none: seq<seq<Chunk>> := [[]];
    assert [[], cs][..1] == none && none[..0] == [];
    assert GivenNames(none, s.source) == [];
  }

  /**
   What the server sends every few seconds is read as what it says, byte by byte: a sender report, and a description
   with the one name of its source, padded with one to four zeros.
   */
  lemma ServerPacketRead(s: Sender, name: Text, zeros: seq<u8>)
    requires s.source != 0 && name != [] && AllZero(zeros) && 1 <= |zeros| <= 4 && (2 + |name| + |zeros|) % 4 == 0
    ensures Parsed([0x80, 200, 0, 6] + SenderWire(s) +
                   ([0x81, 202] + Be16((6 + |name| + |zeros|) / 4) +
                    (Be32(s.source) + [1, |name|] + name + zeros))) == Some(Report(s, name))
  {
    NamedChunkBytes(s.source, name, zeros);
    var chunk := ChunkWire(NamedChunk(s.source, name));
    var report, description := ServerFrames(s, chunk);
    ServerSays(s, name, report, description);
    WellFormedParsed([report, description], Report(s, name), [], [[], [NamedChunk(s.source, name)]]);
  }

  /** The number that four bytes from here make, most significant first. */
  function NumberAt(d: seq<u8>, at: nat): int
    requires at + 4 <= |d|
  {
    0x100 * (0x100 * (0x100 * (d[at] as int) + d[at + 1] as int) + d[at + 2] as int) + d[at + 3] as int
  }

  /** Where the fields of an accepted report come from. */
  lemma ReportLayout(d: seq<u8>, r: Report)
    requires Parsed(d) == Some(r)
    ensures |d| >= 28 && d[0] / 64 == 2 && d[1] == 200
    ensures r.sender == Sender(NumberAt(d, 4), NumberAt(d, 8), NumberAt(d, 12), NumberAt(d, 16), NumberAt(d, 20),
                               NumberAt(d, 24))
  {
    var fs := Frames(d).value;
    var f := fs[0];
    DigestExpected(fs);
    assert FirstFrame(d).Got? && FirstFrame(d).value == f;
    HeadWritten(d);
    HeaderBits(d[0]);
    assert d[..HEADER_SIZE][0] == d[0] && d[..HEADER_SIZE][1] == d[1];
    ContentNumbers(d, f.content);
  }

  lemma ContentNumbers(d: seq<u8>, content: seq<u8>)
    requires FIXED_SIZE <= |content| <= |d| - HEADER_SIZE && d[HEADER_SIZE..HEADER_SIZE + |content|] == content
    ensures SenderIn(content) == Sender(NumberAt(d, 4), NumberAt(d, 8), NumberAt(d, 12), NumberAt(d, 16),
                                        NumberAt(d, 20), NumberAt(d, 24))
  {
    assert forall i | 0 <= i < FIXED_SIZE :: content[i] == d[HEADER_SIZE + i];
  }

  // ---- The parser, step by step ----

  /** What reading the items from here on leads to, given the name found so far. */
  function ItemsOutcome(d: seq<u8>, relevant: bool, name: Option<Text>): Option<(Option<Text>, seq<u8>)> {
    match Items(d)
    case Failed => None
    case Got(items, rest) =>
      match Take(name, ItemNames(items, relevant))
      case None => None
      case Some(n) => Some((n, rest))
  }

  /** The items after the first one. */
  lemma ItemsOutcomeStep(d: seq<u8>, relevant: bool, name: Option<Text>)
    requires d != [] && d[0] != 0
    ensures ItemsOutcome(d, relevant, name) ==
            match FirstItem(d)
            case Failed => None
            case Got(i, rest) =>
              if i.kind != CNAME || !relevant then ItemsOutcome(rest, relevant, name)
              else if i.text == [] || name.Some? then None
              else ItemsOutcome(rest, relevant, Some(i.text))
  {
    var first := FirstItem(d);
    if first.Got? && Items(first.rest).Got? {
      var items := Items(first.rest).value;
      assert ([first.value] + items)[1..] == items;
      var own: seq<Text> := if first.value.kind == CNAME && relevant then [first.value.text] else [];
      assert ItemNames([first.value] + items, relevant) == own + ItemNames(items, relevant);
      TakeAppend(name, own, ItemNames(items, relevant));
    }
  }

  /** The inner loop of parseSourceDescriptions: the items of one chunk, up to the zero that ends them. */
  method ReadItems(d: seq<u8>, start: nat, relevant: bool, given: Option<Text>)
    returns (ok: bool, offset: nat, name: Option<Text>)
    requires start <= |d|
    ensures ok ==> start <= offset <= |d|
    ensures ItemsOutcome(d[start..], relevant, given) == if ok then Some((name, d[offset..])) else None
  {
    ok, offset, name := false, start, given;
    while offset < |d|
      invariant start <= offset <= |d| && !ok
      invariant ItemsOutcome(d[start..], relevant, given) == ItemsOutcome(d[offset..], relevant, name)
    {
      ghost var here := d[offset..];
      if d[offset] == 0 {
        assert here[1..] == d[offset + 1..];
        return true, offset + 1, name;
      }
      ItemsOutcomeStep(here, relevant, name);
      if offset + 1 >= |d| || d[offset + 1] > |d| - offset - 2 {
        return false, offset, name;
      }
      var end := offset + 2 + d[offset + 1];
      var text: Text := d[offset + 2..end];
      FirstItemAt(d, offset, end, text);
      if d[offset] == CNAME && relevant {
        if |text| == 0 || name.Some? {
          return false, offset, name;
        }
        name := Some(text);
      }
      offset := end;
    }
  }

  lemma FirstItemAt(d: seq<u8>, offset: nat, end: nat, text: Text)
    requires offset + 1 < |d| && d[offset] != 0 && end == offset + 2 + d[offset + 1] <= |d|
    requires text == d[offset + 2..end]
    ensures FirstItem(d[offset..]) == Got(Item(d[offset], text), d[end..])
  {
    var here := d[offset..];
    assert here[2..2 + here[1]] == text && here[2 + here[1]..] == d[end..];
  }

  /** What reading so many chunks from here on leads to, given the name found so far. */
  function ChunksOutcome(d: seq<u8>, count: nat, source: u32, name: Option<Text>): Option<Option<Text>> {
    match Chunks(d, count)
    case None => None
    case Some(cs) => Take(name, ChunkNames(cs, source))
  }

  /** What reading one chunk leads to. */
  function ChunkOutcome(d: seq<u8>, source: u32, name: Option<Text>): Option<(Option<Text>, seq<u8>)> {
    match FirstChunk(d)
    case Failed => None
    case Got(c, rest) =>
      match Take(name, ItemNames(c.items, c.source == source))
      case None => None
      case Some(n) => Some((n, rest))
  }

  lemma ChunksOutcomeStep(d: seq<u8>, count: nat, source: u32, name: Option<Text>)
    requires count > 0
    ensures ChunksOutcome(d, count, source, name) ==
            match ChunkOutcome(d, source, name)
            case None => None
            case Some((n, rest)) => ChunksOutcome(rest, count - 1, source, n)
  {
    var first := FirstChunk(d);
    if first.Got? && Chunks(first.rest, count - 1).Some? {
      var cs := Chunks(first.rest, count - 1).value;
      assert ([first.value] + cs)[1..] == cs;
      TakeAppend(name, ItemNames(first.value.items, first.value.source == source), ChunkNames(cs, source));
    }
  }

  /** A chunk is its source, its items, and zeros up to a word boundary. */
  lemma ChunkOutcomeParts(d: seq<u8>, source: u32, name: Option<Text>)
    requires |d| >= 4
    ensures ChunkOutcome(d, source, name) ==
            match ItemsOutcome(d[4..], Long(d[..4]) == source, name)
            case None => None
            case Some((n, rest)) =>
              match SkipFill(|d| - |rest|, rest)
              case None => None
              case Some(left) => Some((n, left))
  {
    assert 4 + |d[4..]| == |d|;
  }

  /** One turn of the outer loop of parseSourceDescriptions. */
  method ReadChunk(d: seq<u8>, start: nat, source: u32, given: Option<Text>)
    returns (ok: bool, offset: nat, name: Option<Text>)
    requires start <= |d|
    ensures ok ==> start <= offset <= |d|
    ensures ChunkOutcome(d[start..], source, given) == if ok then Some((name, d[offset..])) else None
  {
    offset, name := start, given;
    if start + 4 > |d| {
      return false, offset, name;
    }
    ChunkOutcomeParts(d[start..], source, given);
    var chunkSource := Long(d[start..start + 4]);
    assert d[start..][..4] == d[start..start + 4] && d[start..][4..] == d[start + 4..];
    ok, offset, name := ReadItems(d, start + 4, chunkSource == source, given);
    if ok {
      ok, offset := ReadFill(d, start, offset);
    }
  }

  /** The zeros that end a chunk. */
  method ReadFill(d: seq<u8>, start: nat, at: nat) returns (ok: bool, offset: nat)
    requires start <= at <= |d|
    ensures ok ==> at <= offset <= |d|
    ensures SkipFill(|d[start..]| - |d[at..]|, d[at..]) == if ok then Some(d[offset..]) else None
  {
    var fill := Fill(at - start);
    offset := at;
    if fill > |d| - at {
      return false, offset;
    }
    PartOfRest(d, at, 0, fill);
    CutTwice(d, at, fill);
    assert |d[start..]| - |d[at..]| == at - start;
    ok := IsAllZero(d[at..at + fill]);
    offset := at + fill;
  }

  /** allZero. */
  method IsAllZero(d: seq<u8>) returns (zero: bool)
    ensures zero <==> AllZero(d)
  {
    for i := 0 to |d|
      invariant AllZero(d[..i])
    {
      if d[i] != 0 {
        return false;
      }
    }
    assert d[..|d|] == d;
    zero := true;
  }

  /** With these bytes and chunks left and this name found, reading ends this way. */
  predicate LeadsTo(d: seq<u8>, left: nat, name: Option<Text>, source: u32, goal: Option<Option<Text>>) {
    ChunksOutcome(d, left, source, name) == goal
  }

  lemma LeadsAnywhere(d: seq<u8>, left: nat, source: u32, name: Option<Text>)
    ensures LeadsTo(d, left, name, source, ChunksOutcome(d, left, source, name))
  {
  }

  lemma LeadsEnd(d: seq<u8>, source: u32, name: Option<Text>, goal: Option<Option<Text>>)
    requires LeadsTo(d, 0, name, source, goal)
    ensures goal == if AllZero(d) then Some(name) else None
  {
  }

  lemma LeadsOn(d: seq<u8>, left: nat, given: Option<Text>, source: u32, goal: Option<Option<Text>>,
                rest: seq<u8>, name: Option<Text>)
    requires LeadsTo(d, left, given, source, goal) && left > 0
    requires ChunkOutcome(d, source, given) == Some((name, rest))
    ensures LeadsTo(rest, left - 1, name, source, goal)
  {
    ChunksOutcomeStep(d, left, source, given);
  }

  lemma LeadsNowhere(d: seq<u8>, left: nat, given: Option<Text>, source: u32, goal: Option<Option<Text>>)
    requires LeadsTo(d, left, given, source, goal) && left > 0 && ChunkOutcome(d, source, given) == None
    ensures goal == None
  {
    ChunksOutcomeStep(d, left, source, given);
  }

  /** A chunk read, as a step towards reading them all. */
  method AdvanceChunk(d: seq<u8>, start: nat, ghost left: nat, source: u32, given: Option<Text>,
                      ghost goal: Option<Option<Text>>)
    returns (ok: bool, offset: nat, name: Option<Text>)
    requires start <= |d| && left > 0 && LeadsTo(d[start..], left, given, source, goal)
    ensures ok ==> start <= offset <= |d| && LeadsTo(d[offset..], left - 1, name, source, goal)
    ensures !ok ==> goal == None
  {
    ok, offset, name := ReadChunk(d, start, source, given);
    if ok {
      LeadsOn(d[start..], left, given, source, goal, d[offset..], name);
    } else {
      LeadsNowhere(d[start..], left, given, source, goal);
    }
  }

  /** parseSourceDescriptions, on what follows the header. */
  method ParseSourceDescriptions(d: seq<u8>, count: u8, source: u32, given: Option<Text>)
    returns (ok: bool, name: Option<Text>)
    ensures ChunksOutcome(d, count, source, given) == if ok then Some(name) else None
  {
    var offset: nat, left: nat := 0, count;
    name := given;
    assert d[0..] == d;
    ghost var goal := ChunksOutcome(d, count, source, given);
    LeadsAnywhere(d, count, source, given);
    while left > 0
      invariant offset <= |d| && LeadsTo(d[offset..], left, name, source, goal)
    {
      ok, offset, name := AdvanceChunk(d, offset, left, source, name, goal);
      if !ok {
        return;
      }
      left := left - 1;
    }
    LeadsEnd(d[offset..], source, name, goal);
    ok := IsAllZero(d[offset..]);
  }

  /** The header of a frame, and its padding if it is the last one. */
  method ReadFrame(d: seq<u8>, offset: nat) returns (f: Option<Frame>)
    requires offset < |d|
    ensures f == None ==> FirstFrame(d[offset..]) == Failed
    ensures f.Some? ==> offset + Size(f.value) <= |d| &&
                        FirstFrame(d[offset..]) == Got(f.value, d[offset + Size(f.value)..])
  {
    var here := d[offset..];
    if |d| - offset < HEADER_SIZE {
      return None;
    }
    var firstByte, kind := d[offset], d[offset + 1];
    var size := (Word(d[offset + 2], d[offset + 3]) as int + 1) * 4;
    assert size == Announced(here);
    if firstByte / 64 != 2 || size > |d| - offset {
      return None;
    }
    var padding: nat := 0;
    if firstByte / 32 % 2 == 1 {
      if offset + size != |d| {
        return None;
      }
      padding := d[offset + size - 1];
      if padding == 0 || padding > size - HEADER_SIZE {
        return None;
      }
    }
    var frame: RawFrame := Frame(firstByte % 32, kind, d[offset + HEADER_SIZE..offset + size - padding],
                                 d[offset + size - padding..offset + size]);
    FrameAt(d, offset, size, padding, frame);
    f := Some(frame);
  }

  lemma FrameAt(d: seq<u8>, offset: nat, size: nat, padding: nat, f: RawFrame)
    requires offset + HEADER_SIZE <= offset + size <= |d| && size == Announced(d[offset..]) && d[offset] / 64 == 2
    requires PaddingOf(d[offset..]) == Some(padding) && padding <= size - HEADER_SIZE
    requires f == Frame(d[offset] % 32, d[offset + 1], d[offset + HEADER_SIZE..offset + size - padding],
                        d[offset + size - padding..offset + size])
    ensures Framable(f) && Size(f) == size && FirstFrame(d[offset..]) == Got(f, d[offset + size..])
  {
    var here := d[offset..];
    assert here[HEADER_SIZE..size - padding] == d[offset + HEADER_SIZE..offset + size - padding];
    assert here[size - padding..size] == d[offset + size - padding..offset + size];
    assert here[size..] == d[offset + size..];
    assert f == Delimited(here, padding);
  }

  /** What the loop of parseRtcpSenderReport does with one packet of the compound. */
  method HandleFrame(st: State, f: Frame, first: bool) returns (next: Option<State>)
    ensures next == Step(st, f, first)
  {
    if first && f.kind != SENDER_REPORT {
      return None;
    }
    if f.kind == SENDER_REPORT {
      if st.sender.Some? || |f.content| != FIXED_SIZE + f.count * REPORT_BLOCK_SIZE {
        return None;
      }
      var sender := SenderIn(f.content);
      if sender.source == 0 {
        return None;
      }
      next := Some(State(Some(sender), st.name));
    } else if f.kind == SOURCE_DESCRIPTION {
      if st.sender == None {
        return None;
      }
      var ok, name := ParseSourceDescriptions(f.content, f.count, st.sender.value.source, st.name);
      next := if ok then Some(State(st.sender, name)) else None;
    } else {
      next := Some(st);
    }
  }

  /** Frames read so far, and whatever the rest of the datagram holds. */
  function Onward(done: seq<Frame>, rest: Option<seq<Frame>>): Option<seq<Frame>> {
    match rest case None => None case Some(fs) => Some(done + fs)
  }

  lemma OnwardFails(d: seq<u8>, done: seq<Frame>)
    requires d != [] && FirstFrame(d) == Failed
    ensures Onward(done, Frames(d)) == None
  {
  }

  lemma OnwardStep(d: seq<u8>, done: seq<Frame>, f: Frame, rest: seq<u8>)
    requires d != [] && FirstFrame(d) == Got(f, rest)
    ensures Onward(done, Frames(d)) == Onward(done + [f], Frames(rest))
  {
    if Frames(rest).Some? {
      var fs := Frames(rest).value;
      assert done + ([f] + fs) == done + [f] + fs;
    }
  }

  /** Once a frame is refused nothing that follows can help. */
  lemma {:induction false} DigestStuck(done: seq<Frame>, more: seq<Frame>)
    requires Digest(done) == None
    ensures Digest(done + more) == None
    decreases |more|
  {
    if more == [] {
      assert done + more == done;
    } else {
      var n := |more| - 1;
      DigestStuck(done, more[..n]);
      assert (done + more)[..|done + more| - 1] == done + more[..n];
    }
  }

  lemma DigestStep(done: seq<Frame>, f: Frame)
    ensures Digest(done + [f]) ==
            match Digest(done) case None => None case Some(st) => Step(st, f, done == [])
  {
    assert (done + [f])[..|done|] == done;
  }

  /** A refused frame refuses the datagram. */
  lemma Refused(d: seq<u8>, done: seq<Frame>, rest: Option<seq<Frame>>)
    requires Digest(done) == None && Frames(d) == Onward(done, rest)
    ensures Parsed(d) == None
  {
    if rest.Some? {
      DigestStuck(done, rest.value);
    }
  }

  /** parseRtcpSenderReport. */
  method ParseSenderReport(d: seq<u8>) returns (r: Option<Report>)
    ensures r == Parsed(d)
  {
    if |d| < HEADER_SIZE || |d| > MAX_PACKET_SIZE || |d| % 4 != 0 {
      return None;
    }
    var st, offset, index := State(None, None), 0, 0;
    ghost var done: seq<Frame> := [];
    StartOnward(d);
    while offset < |d|
      invariant offset <= |d| && index == |done|
      invariant Frames(d) == Onward(done, Frames(d[offset..])) && Digest(done) == Some(st)
    {
      var f := ReadFrame(d, offset);
      if f == None {
        OnwardFails(d[offset..], done);
        return None;
      }
      var end := offset + Size(f.value);
      OnwardStep(d[offset..], done, f.value, d[end..]);
      DigestStep(done, f.value);
      var next := HandleFrame(st, f.value, index == 0);
      done := done + [f.value];
      offset, index := end, index + 1;
      if next == None {
        Refused(d, done, Frames(d[offset..]));
        return None;
      }
      st := next.value;
    }
    EndOnward(d, done);
    r := if st.sender == None || st.name == None then None else Some(Report(st.sender.value, st.name.value));
  }

  lemma StartOnward(d: seq<u8>)
    ensures Frames(d) == Onward([], Frames(d[0..]))
  {
    assert d[0..] == d;
    if Frames(d).Some? {
      assert [] + Frames(d).value == Frames(d).value;
    }
  }

  lemma EndOnward(d: seq<u8>, done: seq<Frame>)
    requires Frames(d) == Onward(done, Frames(d[|d|..]))
    ensures Frames(d) == Some(done)
  {
    assert done + [] == done;
  }
}
