/**
 The wire form of compound RTCP packets (section 6.1 of RFC 3550) and of source descriptions (section 6.5):
 how each is written, and that what is read back is exactly what was written.
 */
module RtcpWire {
  import opened BigEndian
  import opened Bytes
  import opened Options
  import opened Sequences

  const SENDER_REPORT: u8 := 200
  const SOURCE_DESCRIPTION: u8 := 202
  const CNAME: u8 := 1
  const HEADER_SIZE := 4

  /** Something read from the front of some bytes, and the bytes left. */
  datatype Read<+T> = Failed | Got(value: T, rest: seq<u8>)

  // ---- Things written one after another, each delimiting itself ----

  function WireAll<T>(wire: T -> seq<u8>, xs: seq<T>): seq<u8> {
    if xs == [] then [] else wire(xs[0]) + WireAll(wire, xs[1..])
  }

  lemma WireSplit<T>(wire: T -> seq<u8>, x: T, xs: seq<T>)
    ensures WireAll(wire, [x] + xs) == wire(x) + WireAll(wire, xs)
  {
    assert ([x] + xs)[1..] == xs;
  }

  /** Read this many. */
  function ReadCount<T>(read: seq<u8> -> Read<T>, d: seq<u8>, n: nat): Read<seq<T>>
    decreases n
  {
    if n == 0 then Got([], d)
    else match read(d)
      case Failed => Failed
      case Got(x, rest) =>
        match ReadCount(read, rest, n - 1)
        case Failed => Failed
        case Got(xs, left) => Got([x] + xs, left)
  }

  lemma {:induction false} CountedRead<T>(read: seq<u8> -> Read<T>, d: seq<u8>, n: nat)
    ensures ReadCount(read, d, n).Got? ==> |ReadCount(read, d, n).value| == n
    decreases n
  {
    if n > 0 && read(d).Got? {
      CountedRead(read, read(d).rest, n - 1);
    }
  }

  /** Read until nothing is left. */
  function ReadWhole<T>(read: seq<u8> -> Read<T>, d: seq<u8>): Option<seq<T>>
    decreases |d|
  {
    if d == [] then Some([])
    else match read(d)
      case Failed => None
      case Got(x, rest) =>
        if |rest| >= |d| then None
        else match ReadWhole(read, rest)
          case None => None
          case Some(xs) => Some([x] + xs)
  }

  /** Reading undoes writing. */
  ghost predicate ReadsBack<T(!new)>(wire: T -> seq<u8>, read: seq<u8> -> Read<T>) {
    forall x, rest :: read(wire(x) + rest) == Got(x, rest)
  }

  /** Whatever is read was written. */
  ghost predicate WasWritten<T(!new)>(wire: T -> seq<u8>, read: seq<u8> -> Read<T>) {
    forall d :: read(d).Got? ==> d == wire(read(d).value) + read(d).rest
  }

  lemma {:induction false} CountReadBack<T(!new)>(wire: T -> seq<u8>, read: seq<u8> -> Read<T>, xs: seq<T>,
                                                  rest: seq<u8>)
    requires ReadsBack(wire, read)
    ensures ReadCount(read, WireAll(wire, xs) + rest, |xs|) == Got(xs, rest)
    decreases |xs|
  {
    var d := WireAll(wire, xs) + rest;
    if xs == [] {
      assert d == rest;
    } else {
      var tail := WireAll(wire, xs[1..]) + rest;
      assert d == wire(xs[0]) + tail;
      CountReadBack(wire, read, xs[1..], rest);
      assert [xs[0]] + xs[1..] == xs;
    }
  }

  lemma {:induction false} CountWasWritten<T(!new)>(wire: T -> seq<u8>, read: seq<u8> -> Read<T>, d: seq<u8>, n: nat)
    requires WasWritten(wire, read) && ReadCount(read, d, n).Got?
    ensures var r := ReadCount(read, d, n);
            |r.value| == n && d == WireAll(wire, r.value) + r.rest
    decreases n
  {
    var r := ReadCount(read, d, n);
    if n == 0 {
      assert d == [] + d;
    } else {
      var first := read(d);
      var later := ReadCount(read, first.rest, n - 1);
      CountWasWritten(wire, read, first.rest, n - 1);
      assert r.value == [first.value] + later.value && r.rest == later.rest;
      WireSplit(wire, first.value, later.value);
      assert d == wire(first.value) + (WireAll(wire, later.value) + r.rest);
    }
  }

  lemma WholeStep<T>(read: seq<u8> -> Read<T>, d: seq<u8>, x: T, rest: seq<u8>, xs: seq<T>)
    requires read(d) == Got(x, rest) && |rest| < |d| && ReadWhole(read, rest) == Some(xs)
    ensures ReadWhole(read, d) == Some([x] + xs)
  {
  }

  // ---- Frames: the packets of a compound ----

  /** One packet of a compound: its count field, type, content after the header, and padding. */
  datatype RawFrame = Frame(count: u8, kind: u8, content: seq<u8>, padding: seq<u8>)

  function Size(f: RawFrame): nat {
    HEADER_SIZE + |f.content| + |f.padding|
  }

  predicate Framable(f: RawFrame) {
    && f.count < 32 && Size(f) % 4 == 0 && Size(f) / 4 - 1 < 0x1_0000
    && (f.padding != [] ==> f.padding[|f.padding| - 1] == |f.padding|)
  }

  type Frame = f: RawFrame | Framable(f) witness Frame(0, 0, [], [])

  function FirstByte(f: Frame): u8 {
    128 + (if f.padding != [] then 32 else 0) + f.count
  }

  function FrameWire(f: Frame): (w: seq<u8>)
    ensures |w| == Size(f)
  {
    [FirstByte(f), f.kind] + Be16(Size(f) / 4 - 1) + f.content + f.padding
  }

  /** The size that a frame's header announces. */
  function Announced(d: seq<u8>): nat
    requires |d| >= HEADER_SIZE
  {
    (Word(d[2], d[3]) as int + 1) * 4
  }

  /** How much padding a frame says it has: none, unless it is the last and says so. */
  function PaddingOf(d: seq<u8>): Option<nat>
    requires |d| >= HEADER_SIZE && Announced(d) <= |d|
  {
    var size := Announced(d);
    if d[0] / 32 % 2 == 0 then Some(0)
    else if size != |d| then None
    else if d[size - 1] == 0 || d[size - 1] > size - HEADER_SIZE then None
    else Some(d[size - 1])
  }

  /** What a header with this much padding after it delimits. */
  function Delimited(d: seq<u8>, padding: nat): (f: Frame)
    requires |d| >= HEADER_SIZE && Announced(d) <= |d| && padding <= Announced(d) - HEADER_SIZE
    requires padding > 0 ==> d[Announced(d) - 1] == padding
    ensures Size(f) == Announced(d)
  {
    var size := Announced(d);
    DelimitedWell(d, size, padding);
    Frame(d[0] % 32, d[1], d[HEADER_SIZE..size - padding], d[size - padding..size])
  }

  lemma DelimitedWell(d: seq<u8>, size: nat, padding: nat)
    requires |d| >= HEADER_SIZE && size == Announced(d) <= |d| && padding <= size - HEADER_SIZE
    requires padding > 0 ==> d[size - 1] == padding
    ensures var f := RawFrame.Frame(d[0] % 32, d[1], d[HEADER_SIZE..size - padding], d[size - padding..size]);
            Framable(f) && Size(f) == size
  {
    var rest := d[size - padding..size];
    assert |rest| == padding && (padding > 0 ==> rest[padding - 1] == d[size - 1]);
  }

  /** The frame at the start of what is left of a datagram. */
  function FirstFrame(d: seq<u8>): (r: Read<Frame>)
    ensures r.Got? ==> |r.rest| < |d| && Size(r.value) <= |d| && r.rest == d[Size(r.value)..]
  {
    if |d| < HEADER_SIZE || d[0] / 64 != 2 || Announced(d) > |d| then Failed
    else match PaddingOf(d)
      case None => Failed
      case Some(padding) => Got(Delimited(d, padding), d[Announced(d)..])
  }

  lemma HeaderBits(b: u8)
    ensures b / 64 == 2 && b / 32 % 2 == 0 <==> b == 128 + b % 32
    ensures b / 64 == 2 && b / 32 % 2 == 1 <==> b == 160 + b % 32
  {
  }

  /** What a written frame looks like to its reader. */
  lemma WrittenHeader(f: Frame, rest: seq<u8>)
    ensures var d := FrameWire(f) + rest;
            && Announced(d) == Size(f) && d[0] == FirstByte(f) && d[1] == f.kind
            && d[HEADER_SIZE..HEADER_SIZE + |f.content|] == f.content
            && d[HEADER_SIZE + |f.content|..Size(f)] == f.padding && d[Size(f)..] == rest
  {
    WordRoundTrip(Size(f) / 4 - 1, 0, 0);
    assert (Size(f) / 4) * 4 == Size(f);
  }

  lemma FrameReadBack(f: Frame, rest: seq<u8>)
    requires f.padding != [] ==> rest == []
    ensures FirstFrame(FrameWire(f) + rest) == Got(f, rest)
  {
    var d := FrameWire(f) + rest;
    WrittenHeader(f, rest);
    HeaderBits(d[0]);
    assert d[0] % 32 == f.count;
    if f.padding != [] {
      assert d[|d| - 1] == f.padding[|f.padding| - 1];
    }
  }

  /** Whatever is read as a frame was written as that frame. */
  lemma FrameWasWritten(d: seq<u8>)
    requires FirstFrame(d).Got?
    ensures var r := FirstFrame(d);
            d == FrameWire(r.value) + r.rest && (r.value.padding != [] ==> r.rest == [])
  {
    var f := FirstFrame(d).value;
    HeadWritten(d);
    ThreeParts(d, HEADER_SIZE, HEADER_SIZE + |f.content|, Size(f));
  }

  /** The header that was read is the one that would be written, and what it delimits is where it says. */
  lemma HeadWritten(d: seq<u8>)
    requires FirstFrame(d).Got?
    ensures var f := FirstFrame(d).value;
            && Size(f) <= |d| && d[..HEADER_SIZE] == [FirstByte(f), f.kind] + Be16(Size(f) / 4 - 1)
            && d[HEADER_SIZE..HEADER_SIZE + |f.content|] == f.content
            && d[HEADER_SIZE + |f.content|..Size(f)] == f.padding
            && (f.padding != [] ==> FirstFrame(d).rest == [])
  {
    var padding := PaddingOf(d).value;
    FirstByteRead(d, padding);
    LengthRead(d);
    PartsRead(d, padding);
    assert FirstFrame(d).value == Delimited(d, padding);
  }

  lemma LengthRead(d: seq<u8>)
    requires |d| >= HEADER_SIZE
    ensures Announced(d) % 4 == 0 && d[..HEADER_SIZE] == [d[0], d[1]] + Be16(Announced(d) / 4 - 1)
  {
    WordRoundTrip(0, d[2], d[3]);
    assert Announced(d) / 4 - 1 == Word(d[2], d[3]);
  }

  lemma PartsRead(d: seq<u8>, padding: nat)
    requires |d| >= HEADER_SIZE && Announced(d) <= |d| && padding <= Announced(d) - HEADER_SIZE
    requires padding > 0 ==> d[Announced(d) - 1] == padding
    ensures var f, size := Delimited(d, padding), Announced(d);
            && Size(f) == size && HEADER_SIZE + |f.content| == size - padding
            && d[HEADER_SIZE..size - padding] == f.content && d[size - padding..size] == f.padding
  {
  }

  lemma FirstByteRead(d: seq<u8>, padding: nat)
    requires |d| >= HEADER_SIZE && d[0] / 64 == 2 && Announced(d) <= |d| && PaddingOf(d) == Some(padding)
    ensures padding <= Announced(d) - HEADER_SIZE && (padding > 0 ==> Announced(d) == |d|)
    ensures padding > 0 ==> d[Announced(d) - 1] == padding
    ensures FirstByte(Delimited(d, padding)) == d[0] && Delimited(d, padding).kind == d[1]
  {
    HeaderBits(d[0]);
    var f := Delimited(d, padding);
    assert f.padding != [] <==> padding > 0;
  }

  function Wire(fs: seq<Frame>): seq<u8> {
    WireAll(FrameWire, fs)
  }

  predicate OnlyLastPadded(fs: seq<Frame>) {
    forall i | 0 <= i < |fs| - 1 :: fs[i].padding == []
  }

  /** Split a datagram into frames that tile it. */
  function Frames(d: seq<u8>): Option<seq<Frame>> {
    ReadWhole(FirstFrame, d)
  }

  ghost predicate FramesReadBack(wire: Frame -> seq<u8>, read: seq<u8> -> Read<Frame>) {
    forall f: Frame, rest: seq<u8> :: (f.padding != [] ==> rest == []) ==>
      read(wire(f) + rest) == Got(f, rest) && |wire(f)| > 0
  }

  ghost predicate FramesWereWritten(wire: Frame -> seq<u8>, read: seq<u8> -> Read<Frame>) {
    forall d :: read(d).Got? ==>
      d == wire(read(d).value) + read(d).rest && (read(d).value.padding != [] ==> read(d).rest == [])
  }

  lemma {:induction false} WholeReadBack(wire: Frame -> seq<u8>, read: seq<u8> -> Read<Frame>, fs: seq<Frame>)
    requires FramesReadBack(wire, read) && OnlyLastPadded(fs)
    ensures ReadWhole(read, WireAll(wire, fs)) == Some(fs)
    decreases |fs|
  {
    if fs != [] {
      var rest := WireAll(wire, fs[1..]);
      WholeReadBack(wire, read, fs[1..]);
      assert fs[0].padding != [] ==> fs[1..] == [];
      assert read(wire(fs[0]) + rest) == Got(fs[0], rest);
      WholeStep(read, wire(fs[0]) + rest, fs[0], rest, fs[1..]);
      assert [fs[0]] + fs[1..] == fs;
    }
  }

  lemma {:induction false} WholeWasWritten(wire: Frame -> seq<u8>, read: seq<u8> -> Read<Frame>, d: seq<u8>)
    requires FramesWereWritten(wire, read) && ReadWhole(read, d).Some?
    ensures d == WireAll(wire, ReadWhole(read, d).value) && OnlyLastPadded(ReadWhole(read, d).value)
    decreases |d|
  {
    if d != [] {
      var first, fs := read(d), ReadWhole(read, d).value;
      WholeWasWritten(wire, read, first.rest);
      assert fs[1..] == ReadWhole(read, first.rest).value;
      assert forall i | 0 < i < |fs| - 1 :: fs[i] == fs[1..][i - 1];
    }
  }

  /** A datagram splits into frames exactly when it is those frames, written one after another, with padding last. */
  lemma FramesTile(d: seq<u8>, fs: seq<Frame>)
    ensures Frames(d) == Some(fs) <==> d == Wire(fs) && OnlyLastPadded(fs)
  {
    forall f: Frame, rest: seq<u8> | f.padding != [] ==> rest == []
      ensures FirstFrame(FrameWire(f) + rest) == Got(f, rest)
    {
      FrameReadBack(f, rest);
    }
    forall d | FirstFrame(d).Got?
      ensures d == FrameWire(FirstFrame(d).value) + FirstFrame(d).rest
      ensures FirstFrame(d).value.padding != [] ==> FirstFrame(d).rest == []
    {
      FrameWasWritten(d);
    }
    if OnlyLastPadded(fs) {
      WholeReadBack(FrameWire, FirstFrame, fs);
    }
    if Frames(d).Some? {
      WholeWasWritten(FrameWire, FirstFrame, d);
    }
  }

  // ---- Source descriptions ----

  type ItemKind = k: u8 | k != 0 witness 1
  type Text = t: seq<u8> | |t| < 0x100

  datatype Item = Item(kind: ItemKind, text: Text)

  datatype Chunk = Chunk(source: u32, items: seq<Item>)

  function Zeros(n: nat): (z: seq<u8>)
    ensures |z| == n
  {
    seq(n, _ => 0)
  }

  predicate AllZero(s: seq<u8>) {
    forall i | 0 <= i < |s| :: s[i] == 0
  }

  function ItemWire(i: Item): (w: seq<u8>)
    ensures |w| == 2 + |i.text|
  {
    [i.kind, |i.text|] + i.text
  }

  /** Items, and the zero that ends them. */
  function ItemsWire(items: seq<Item>): (w: seq<u8>)
    ensures |w| > 0
  {
    if items == [] then [0] else ItemWire(items[0]) + ItemsWire(items[1..])
  }

  /** How many zeros take this many bytes to a word boundary. */
  function Fill(n: nat): (z: nat)
    ensures (n + z) % 4 == 0 && z < 4
  {
    (4 - n % 4) % 4
  }

  /** The items of a chunk after its four-byte source, with zeros up to a word boundary. */
  function BodyWire(items: seq<Item>): (w: seq<u8>)
    ensures |w| > 0
  {
    var w := ItemsWire(items);
    w + Zeros(Fill(4 + |w|))
  }

  function ChunkWire(c: Chunk): seq<u8> {
    Be32(c.source) + BodyWire(c.items)
  }

  function FirstItem(d: seq<u8>): Read<Item>
    requires d != [] && d[0] != 0
  {
    if |d| < 2 || d[1] > |d| - 2 then Failed else Got(Item(d[0], d[2..2 + d[1]]), d[2 + d[1]..])
  }

  /** Items up to and including the zero that ends them. */
  function Items(d: seq<u8>): (r: Read<seq<Item>>)
    ensures r.Got? ==> |r.rest| < |d|
    decreases |d|
  {
    if d == [] then Failed
    else if d[0] == 0 then Got([], d[1..])
    else match FirstItem(d)
      case Failed => Failed
      case Got(item, rest) =>
        match Items(rest)
        case Failed => Failed
        case Got(items, left) => Got([item] + items, left)
  }

  /** The zeros after a chunk of which used bytes have been read. */
  function SkipFill(used: nat, rest: seq<u8>): (r: Option<seq<u8>>)
    ensures r.Some? ==> |r.value| <= |rest|
  {
    if Fill(used) > |rest| || !AllZero(rest[..Fill(used)]) then None else Some(rest[Fill(used)..])
  }

  function FirstBody(d: seq<u8>): Read<seq<Item>> {
    match Items(d)
    case Failed => Failed
    case Got(items, rest) =>
      match SkipFill(4 + |d| - |rest|, rest)
      case None => Failed
      case Some(left) => Got(items, left)
  }

  function FirstChunk(d: seq<u8>): Read<Chunk> {
    if |d| < 4 then Failed
    else match FirstBody(d[4..])
      case Failed => Failed
      case Got(items, rest) => Got(Chunk(Long(d[..4]), items), rest)
  }

  /** So many chunks, and nothing but zeros after them. */
  function Chunks(d: seq<u8>, count: nat): Option<seq<Chunk>> {
    match ReadCount(FirstChunk, d, count)
    case Failed => None
    case Got(cs, rest) => if AllZero(rest) then Some(cs) else None
  }

  lemma ItemReadBack(i: Item, rest: seq<u8>)
    ensures FirstItem(ItemWire(i) + rest) == Got(i, rest)
  {
    var d := ItemWire(i) + rest;
    assert d[0] == i.kind && d[1] == |i.text|;
    assert d[2..2 + |i.text|] == i.text && d[2 + |i.text|..] == rest;
  }

  lemma ItemsStep(d: seq<u8>, i: Item, rest: seq<u8>, items: seq<Item>, left: seq<u8>)
    requires d != [] && d[0] != 0 && FirstItem(d) == Got(i, rest) && Items(rest) == Got(items, left)
    ensures Items(d) == Got([i] + items, left)
  {
  }

  lemma {:induction false} ItemsReadBack(items: seq<Item>, rest: seq<u8>)
    ensures Items(ItemsWire(items) + rest) == Got(items, rest)
  {
    var d := ItemsWire(items) + rest;
    if items == [] {
      assert d[0] == 0 && d[1..] == rest;
    } else {
      var tail := ItemsWire(items[1..]) + rest;
      assert d == ItemWire(items[0]) + tail;
      assert d[0] == items[0].kind;
      ItemReadBack(items[0], tail);
      ItemsReadBack(items[1..], rest);
      ItemsStep(d, items[0], tail, items[1..], rest);
      assert [items[0]] + items[1..] == items;
    }
  }

  lemma ItemWasWritten(d: seq<u8>, i: Item, rest: seq<u8>)
    requires d != [] && d[0] != 0 && FirstItem(d) == Got(i, rest)
    ensures d == ItemWire(i) + rest
  {
    assert d == [d[0], d[1]] + d[2..2 + d[1]] + d[2 + d[1]..];
  }

  lemma {:induction false} ItemsWereWritten(d: seq<u8>, items: seq<Item>, rest: seq<u8>)
    requires Items(d) == Got(items, rest)
    ensures d == ItemsWire(items) + rest
    decreases |d|
  {
    if d[0] == 0 {
      assert d == [0] + d[1..];
    } else {
      var first := FirstItem(d);
      ItemWasWritten(d, first.value, first.rest);
      ItemsWereWritten(first.rest, items[1..], rest);
      assert items == [first.value] + items[1..];
    }
  }

  lemma FillReadBack(used: nat, rest: seq<u8>)
    ensures SkipFill(used, Zeros(Fill(used)) + rest) == Some(rest)
  {
    var d := Zeros(Fill(used)) + rest;
    assert d[..Fill(used)] == Zeros(Fill(used)) && d[Fill(used)..] == rest;
  }

  lemma FillWasWritten(used: nat, d: seq<u8>, rest: seq<u8>)
    requires SkipFill(used, d) == Some(rest)
    ensures d == Zeros(Fill(used)) + rest
  {
    assert d[..Fill(used)] == Zeros(Fill(used));
    assert d == d[..Fill(used)] + d[Fill(used)..];
  }

  lemma BodyReadBack(items: seq<Item>, rest: seq<u8>)
    ensures FirstBody(BodyWire(items) + rest) == Got(items, rest)
  {
    var w := ItemsWire(items);
    var filled := Zeros(Fill(4 + |w|)) + rest;
    Regrouped(w, Zeros(Fill(4 + |w|)), rest);
    ItemsReadBack(items, filled);
    assert 4 + |w + filled| - |filled| == 4 + |w|;
    FillReadBack(4 + |w|, rest);
  }

  lemma BodyWasWritten(d: seq<u8>, items: seq<Item>, rest: seq<u8>)
    requires FirstBody(d) == Got(items, rest)
    ensures d == BodyWire(items) + rest
  {
    var filled := Items(d).rest;
    ItemsWereWritten(d, items, filled);
    var w := ItemsWire(items);
    assert 4 + |d| - |filled| == 4 + |w|;
    FillWasWritten(4 + |w|, filled, rest);
    Regrouped(w, Zeros(Fill(4 + |w|)), rest);
  }

  lemma ChunkReadBack(c: Chunk, rest: seq<u8>)
    ensures FirstChunk(ChunkWire(c) + rest) == Got(c, rest)
  {
    var d := ChunkWire(c) + rest;
    assert d[..4] == Be32(c.source) && d[4..] == BodyWire(c.items) + rest;
    LongSplit(c.source);
    BodyReadBack(c.items, rest);
  }

  lemma ChunkWasWritten(d: seq<u8>)
    requires FirstChunk(d).Got?
    ensures d == ChunkWire(FirstChunk(d).value) + FirstChunk(d).rest
  {
    var r := FirstChunk(d);
    BodyWasWritten(d[4..], r.value.items, r.rest);
    LongJoin(d[..4]);
    CutAt(d, 4);
    Regrouped(Be32(r.value.source), BodyWire(r.value.items), r.rest);
  }

  function ChunksWire(cs: seq<Chunk>): seq<u8> {
    WireAll(ChunkWire, cs)
  }

  /** A description reads as these chunks exactly when it is those chunks, written, and then only zeros. */
  lemma ChunksExact(d: seq<u8>, cs: seq<Chunk>)
    ensures Chunks(d, |cs|) == Some(cs) <==> exists zeros | AllZero(zeros) :: d == ChunksWire(cs) + zeros
  {
    forall c: Chunk, rest: seq<u8>
      ensures FirstChunk(ChunkWire(c) + rest) == Got(c, rest)
    {
      ChunkReadBack(c, rest);
    }
    forall e | FirstChunk(e).Got?
      ensures e == ChunkWire(FirstChunk(e).value) + FirstChunk(e).rest
    {
      ChunkWasWritten(e);
    }
    if zeros :| AllZero(zeros) && d == ChunksWire(cs) + zeros {
      CountReadBack(ChunkWire, FirstChunk, cs, zeros);
    }
    if Chunks(d, |cs|) == Some(cs) {
      CountWasWritten(ChunkWire, FirstChunk, d, |cs|);
      assert AllZero(ReadCount(FirstChunk, d, |cs|).rest);
    }
  }
}
