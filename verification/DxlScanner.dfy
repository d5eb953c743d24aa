/**
 Recovering packets from a noisy byte stream: the header scan and the multi-response receive loop
 of the bus driver.
 */
module DxlScanner {
  import opened Bytes
  import opened DxlProtocol
  import opened Options
  import opened Sequences

  /** What turns a packet image into a packet; the theory of scanning does not depend on how. */
  type Parser = seq<u8> -> Parsed

  ghost predicate IsParser(parse: Parser) {
    forall d {:trigger Parse(d)} :: parse(d) == Parse(d)
  }

  /** A header at i whose announced packet fits in the first maxEnd bytes. */
  predicate PacketAt(buf: seq<u8>, i: nat, maxEnd: nat) {
    i + 7 <= |buf| && HeaderAt(buf, i) && PacketEnd(buf, i) <= maxEnd
  }

  function PacketEnd(buf: seq<u8>, i: nat): nat
    requires i + 7 <= |buf|
  {
    i + 7 + Le16(buf[i + 5], buf[i + 6])
  }

  /** Where the first complete packet of s begins. */
  function FirstPacket(s: seq<u8>, from: nat): Option<nat>
    decreases |s| - from
  {
    if from + 7 > |s| then None
    else if PacketAt(s, from, |s|) then Some(from)
    else FirstPacket(s, from + 1)
  }

  /** What a receive pass delivers and counts. */
  datatype Receipt = Receipt(packets: seq<Packet>, servoErrors: nat, crcErrors: nat, noise: nat)

  const NOTHING := Receipt([], 0, 0, 0)

  const MULTI_RX_BUF_SIZE := 4096

  /** The bytes of a multi-response transfer: eleven around the data of each response expected. */
  function TransferSize(dataPerResponse: nat, expectedCount: nat): nat {
    (dataPerResponse + 11) * expectedCount
  }

  function ServoErrorCount(parsed: Parsed): nat {
    if parsed.Code() == ServoError then 1 else 0
  }

  function CrcErrorCount(parsed: Parsed): nat {
    if parsed.Code() == CrcMismatch then 1 else 0
  }

  /** One consumed packet, after some noise, followed by the rest of the pass. */
  function Consume(noise: nat, parsed: Parsed, rest: Receipt): Receipt {
    Receipt(
      (if parsed.Accepted? then [parsed.packet] else []) + rest.packets,
      rest.servoErrors + ServoErrorCount(parsed),
      rest.crcErrors + CrcErrorCount(parsed),
      rest.noise + noise)
  }

  /** The receive loop as a function of the bytes not yet consumed and the packets still expected. */
  function Receive(parse: Parser, s: seq<u8>, room: nat): Receipt
    decreases |s|
  {
    if room == 0 then NOTHING
    else
      match FirstPacket(s, 0)
      case None => NOTHING
      case Some(at) =>
        FirstPacketFound(s, 0);
        var parsed := parse(s[at..PacketEnd(s, at)]);
        Consume(at, parsed, Receive(parse, s[PacketEnd(s, at)..], if parsed.Accepted? then room - 1 else room))
  }

  /** The scan finds the first complete packet, if there is one. */
  lemma {:induction false} FirstPacketFound(s: seq<u8>, from: nat)
    ensures match FirstPacket(s, from)
            case Some(at) => from <= at && PacketAt(s, at, |s|) && forall i | from <= i < at :: !PacketAt(s, i, |s|)
            case None => forall i: nat | from <= i :: !PacketAt(s, i, |s|)
    decreases |s| - from
  {
    if from + 7 <= |s| && !PacketAt(s, from, |s|) {
      FirstPacketFound(s, from + 1);
    }
  }

  // ---- Streams with known contents ----

  /** A packet image with an intact header and length field; its CRC may be bad. */
  predicate IsFrame(f: seq<u8>) {
    |f| >= 7 && HeaderAt(f, 0) && |f| == PacketEnd(f, 0)
  }

  ghost predicate Quiet(noise: seq<u8>) {
    forall i: nat :: !HeaderAt(noise, i)
  }

  /** No complete packet image begins anywhere; a header may, of a packet that was cut off. */
  ghost predicate Unparsed(s: seq<u8>) {
    forall i: nat :: !PacketAt(s, i, |s|)
  }

  /** Some noise and then a packet image. */
  datatype Segment = Segment(noise: seq<u8>, frame: seq<u8>)

  ghost predicate Clean(segments: seq<Segment>) {
    forall g | g in segments :: Quiet(g.noise) && IsFrame(g.frame)
  }

  function Stream(segments: seq<Segment>, tail: seq<u8>): seq<u8> {
    if segments == [] then tail
    else segments[0].noise + segments[0].frame + Stream(segments[1..], tail)
  }

  /** What should be received: each packet image in turn, until enough good ones have been seen. */
  function Sent(parse: Parser, segments: seq<Segment>, room: nat): Receipt {
    if room == 0 || segments == [] then NOTHING
    else
      var parsed := parse(segments[0].frame);
      Consume(|segments[0].noise|, parsed, Sent(parse, segments[1..], if parsed.Accepted? then room - 1 else room))
  }

  /**
   The header has no self-overlap, so noise followed by a packet contains no header that begins in
   the noise.
   */
  lemma NoStraddling(noise: seq<u8>, frame: seq<u8>, rest: seq<u8>, i: nat)
    requires Quiet(noise) && IsFrame(frame) && i < |noise|
    ensures !HeaderAt(noise + frame + rest, i)
  {
    var s := noise + frame + rest;
    var n := |noise|;
    assert s[n] == 0xFF && s[n + 1] == 0xFF && s[n + 2] == 0xFD && s[n + 3] == 0x00;
    assert !HeaderAt(noise, i);
  }

  lemma FirstPacketAfterNoise(noise: seq<u8>, frame: seq<u8>, rest: seq<u8>)
    requires Quiet(noise) && IsFrame(frame)
    ensures var s := noise + frame + rest;
            && FirstPacket(s, 0) == Some(|noise|)
            && PacketEnd(s, |noise|) == |noise| + |frame|
  {
    var s := noise + frame + rest;
    assert forall i: nat | i < |frame| :: s[|noise| + i] == frame[i];
    assert PacketAt(s, |noise|, |s|);
    forall i: nat | i < |noise|
      ensures !PacketAt(s, i, |s|)
    {
      NoStraddling(noise, frame, rest, i);
    }
    FirstPacketFound(s, 0);
  }

  /**
   Noise-tolerant recovery: the pass delivers exactly the good packets in order, up to the number
   expected, counts every bad CRC it meets, and counts exactly the noise before the packets it consumes.
   */
  lemma {:induction false} StreamRecovered(parse: Parser, segments: seq<Segment>, tail: seq<u8>, room: nat)
    requires Clean(segments) && Unparsed(tail)
    ensures Receive(parse, Stream(segments, tail), room) == Sent(parse, segments, room)
    decreases |segments|
  {
    var s := Stream(segments, tail);
    if segments == [] {
      FirstPacketFound(tail, 0);
    } else if room > 0 {
      var g, rest := segments[0], Stream(segments[1..], tail);
      assert g in segments;
      FirstPacketAfterNoise(g.noise, g.frame, rest);
      var at, end := |g.noise|, |g.noise| + |g.frame|;
      assert s[at..end] == g.frame && s[end..] == rest;
      var parsed := parse(g.frame);
      StreamRecovered(parse, segments[1..], tail, if parsed.Accepted? then room - 1 else room);
    }
  }

  /** When every image parses, the packets are delivered in order up to the number expected. */
  lemma {:induction false} AllSent(parse: Parser, segments: seq<Segment>, packets: seq<Packet>, room: nat)
    requires |segments| == |packets|
    requires forall i | 0 <= i < |packets| :: parse(segments[i].frame) == Accepted(packets[i])
    ensures Sent(parse, segments, room).packets == packets[..if room < |packets| then room else |packets|]
    decreases |segments|
  {
    if room > 0 && segments != [] {
      AllSent(parse, segments[1..], packets[1..], room - 1);
    }
  }

  // ---- What a pass counts ----

  /** An image whose CRC does not hold. */
  predicate BadCrc(g: Segment) {
    Framed(g.frame) && !CrcHolds(g.frame)
  }

  /** An image that parses, from a servo that reports an error: the byte after the instruction of a status packet. */
  predicate Faulty(parse: Parser, g: Segment) {
    parse(g.frame).Accepted? && |g.frame| > 8 && g.frame[7] == STATUS && g.frame[8] != 0
  }

  function NoiseIn(segments: seq<Segment>): nat {
    if segments == [] then 0 else |segments[0].noise| + NoiseIn(segments[1..])
  }

  function BadCrcs(segments: seq<Segment>): nat {
    if segments == [] then 0 else (if BadCrc(segments[0]) then 1 else 0) + BadCrcs(segments[1..])
  }

  function Faults(parse: Parser, segments: seq<Segment>): nat {
    if segments == [] then 0 else (if Faulty(parse, segments[0]) then 1 else 0) + Faults(parse, segments[1..])
  }

  function PacketsIn(parse: Parser, segments: seq<Segment>): seq<Packet> {
    if segments == [] then []
    else (match parse(segments[0].frame)
          case Accepted(p) => [p]
          case Rejected(_) => []) + PacketsIn(parse, segments[1..])
  }

  /** The images that a pass takes from any bytes, each with what it passes over before it. */
  function Taken(parse: Parser, s: seq<u8>, room: nat): seq<Segment>
    decreases |s|
  {
    if room == 0 then []
    else
      match FirstPacket(s, 0)
      case None => []
      case Some(at) =>
        FirstPacketFound(s, 0);
        var end := PacketEnd(s, at);
        [Segment(s[..at], s[at..end])] +
        Taken(parse, s[end..], if parse(s[at..end]).Accepted? then room - 1 else room)
  }

  /** What the outcome of parsing one image adds to the counts. */
  lemma OutcomeCounted(parse: Parser, g: Segment)
    requires IsParser(parse)
    ensures CrcErrorCount(parse(g.frame)) == if BadCrc(g) then 1 else 0
    ensures ServoErrorCount(parse(g.frame)) == if Faulty(parse, g) then 1 else 0
  {
    assert parse(g.frame) == Parse(g.frame);
    ErrorByteOf(g.frame);
  }

  /** On any bytes whatever: what is delivered and counted is what the images taken say, and the bytes between them. */
  lemma {:induction false} ReceiveCounted(parse: Parser, s: seq<u8>, room: nat)
    requires IsParser(parse)
    ensures var taken := Taken(parse, s, room);
            Receive(parse, s, room) ==
            Receipt(PacketsIn(parse, taken), Faults(parse, taken), BadCrcs(taken), NoiseIn(taken))
    decreases |s|
  {
    if room > 0 && FirstPacket(s, 0).Some? {
      var at := FirstPacket(s, 0).value;
      FirstPacketFound(s, 0);
      var end := PacketEnd(s, at);
      var left := if parse(s[at..end]).Accepted? then room - 1 else room;
      OutcomeCounted(parse, Segment(s[..at], s[at..end]));
      ReceiveCounted(parse, s[end..], left);
      assert Taken(parse, s, room)[1..] == Taken(parse, s[end..], left);
    }
  }

  /** How many of these segments a pass consumes. */
  function Consumed(parse: Parser, segments: seq<Segment>, room: nat): (n: nat)
    ensures n <= |segments|
  {
    if room == 0 || segments == [] then 0
    else 1 + Consumed(parse, segments[1..], if parse(segments[0].frame).Accepted? then room - 1 else room)
  }

  lemma FirstOfSome(segments: seq<Segment>, n: nat)
    requires 0 < n <= |segments|
    ensures segments[..n][0] == segments[0] && segments[..n][1..] == segments[1..][..n - 1]
  {
  }

  /** It consumes them all, or as few as it takes to deliver the number expected. */
  lemma {:induction false} ConsumedExactly(parse: Parser, segments: seq<Segment>, room: nat)
    ensures var n := Consumed(parse, segments, room);
            && (n == |segments| || |PacketsIn(parse, segments[..n])| == room)
            && forall m: nat | m < n :: |PacketsIn(parse, segments[..m])| < room
    decreases |segments|
  {
    if room > 0 && segments != [] {
      var left := if parse(segments[0].frame).Accepted? then room - 1 else room;
      var n := Consumed(parse, segments[1..], left);
      ConsumedExactly(parse, segments[1..], left);
      FirstOfSome(segments, n + 1);
      forall m: nat | m <= n
        ensures |PacketsIn(parse, segments[..m])| < room
      {
        if m > 0 {
          FirstOfSome(segments, m);
        }
      }
    }
  }

  lemma {:induction false} TakenClean(parse: Parser, segments: seq<Segment>, tail: seq<u8>, room: nat)
    requires Clean(segments) && Unparsed(tail)
    ensures Taken(parse, Stream(segments, tail), room) == segments[..Consumed(parse, segments, room)]
    decreases |segments|
  {
    var s := Stream(segments, tail);
    if segments == [] {
      FirstPacketFound(tail, 0);
    } else if room > 0 {
      var g, rest := segments[0], Stream(segments[1..], tail);
      assert g in segments;
      FirstPacketAfterNoise(g.noise, g.frame, rest);
      var at, end := |g.noise|, |g.noise| + |g.frame|;
      assert s[..at] == g.noise && s[at..end] == g.frame && s[end..] == rest;
      var left := if parse(g.frame).Accepted? then room - 1 else room;
      TakenClean(parse, segments[1..], tail, left);
      FirstOfSome(segments, Consumed(parse, segments, room));
    }
  }

  /**
   What a pass over packet images amid quiet noise counts: it takes the first n images, which are all of them or just
   enough to deliver the number expected, and counts the noise before each of these, each of these whose CRC fails, and
   each good one from a servo that reports an error.
   */
  lemma StreamCounted(parse: Parser, segments: seq<Segment>, tail: seq<u8>, room: nat) returns (n: nat)
    requires IsParser(parse) && Clean(segments) && Unparsed(tail)
    ensures n <= |segments| && (n == |segments| || |PacketsIn(parse, segments[..n])| == room)
    ensures forall m: nat | m < n :: |PacketsIn(parse, segments[..m])| < room
    ensures var got, taken := Receive(parse, Stream(segments, tail), room), segments[..n];
            && got.packets == PacketsIn(parse, taken) && got.noise == NoiseIn(taken)
            && got.crcErrors == BadCrcs(taken) && got.servoErrors == Faults(parse, taken)
  {
    n := Consumed(parse, segments, room);
    ConsumedExactly(parse, segments, room);
    ReceiveCounted(parse, Stream(segments, tail), room);
    TakenClean(parse, segments, tail, room);
  }

  // ---- A transfer of limited size ----

  /** What a transfer of at most limit bytes delivers. */
  function Cut(s: seq<u8>, limit: nat): seq<u8> {
    if |s| <= limit then s else s[..limit]
  }

  function Size(g: Segment): nat {
    |g.noise| + |g.frame|
  }

  /** Where the first n segments end. */
  function EndOf(segments: seq<Segment>, n: nat): nat
    requires n <= |segments|
  {
    if n == 0 then 0 else Size(segments[0]) + EndOf(segments[1..], n - 1)
  }

  /** How many segments arrive whole. */
  function Whole(segments: seq<Segment>, limit: nat): (n: nat)
    ensures n <= |segments|
  {
    if segments == [] || Size(segments[0]) > limit then 0 else 1 + Whole(segments[1..], limit - Size(segments[0]))
  }

  /** What arrives after them. */
  function Remainder(segments: seq<Segment>, tail: seq<u8>, limit: nat): seq<u8> {
    if segments == [] then Cut(tail, limit)
    else if Size(segments[0]) > limit then (segments[0].noise + segments[0].frame)[..limit]
    else Remainder(segments[1..], tail, limit - Size(segments[0]))
  }

  lemma {:induction false} WholeExactly(segments: seq<Segment>, limit: nat, i: nat)
    requires i < |segments|
    ensures i < Whole(segments, limit) <==> EndOf(segments, i + 1) <= limit
    decreases |segments|
  {
    if i > 0 && Size(segments[0]) <= limit {
      WholeExactly(segments[1..], limit - Size(segments[0]), i - 1);
    }
  }

  lemma CutBehind(front: seq<u8>, rest: seq<u8>, limit: nat)
    ensures |front| <= limit ==> Cut(front + rest, limit) == front + Cut(rest, limit - |front|)
    ensures |front| > limit ==> Cut(front + rest, limit) == front[..limit]
  {
  }

  lemma {:induction false} StreamCut(segments: seq<Segment>, tail: seq<u8>, limit: nat)
    ensures Cut(Stream(segments, tail), limit) ==
            Stream(segments[..Whole(segments, limit)], Remainder(segments, tail, limit))
    decreases |segments|
  {
    if segments != [] {
      var g, rest := segments[0], Stream(segments[1..], tail);
      CutBehind(g.noise + g.frame, rest, limit);
      if Size(g) <= limit {
        StreamCut(segments[1..], tail, limit - Size(g));
        var n := Whole(segments[1..], limit - Size(g));
        assert segments[..n + 1][0] == g && segments[..n + 1][1..] == segments[1..][..n];
      }
    }
  }

  /** A packet image without a second header before its last three bytes. */
  ghost predicate Solid(f: seq<u8>) {
    forall i: nat | 1 <= i && i + 7 < |f| :: !HeaderAt(f, i)
  }

  /** A packet image cut off anywhere leaves no complete one behind. */
  lemma CutOff(noise: seq<u8>, frame: seq<u8>, limit: nat)
    requires Quiet(noise) && IsFrame(frame) && Solid(frame) && limit < |noise| + |frame|
    ensures Unparsed((noise + frame)[..limit])
  {
    var s, t := noise + frame, (noise + frame)[..limit];
    forall i: nat
      ensures !PacketAt(t, i, |t|)
    {
      if i + 7 <= |t| {
        assert t[i..i + 7] == s[i..i + 7];
        assert HeaderAt(t, i) <==> HeaderAt(s, i);
        if i < |noise| {
          NoStraddling(noise, frame, [], i);
          assert noise + frame + [] == s;
        } else {
          assert s[i..i + 7] == frame[i - |noise|..i - |noise| + 7];
          assert HeaderAt(s, i) <==> HeaderAt(frame, i - |noise|);
        }
      }
    }
  }

  lemma {:induction false} RemainderUnparsed(segments: seq<Segment>, tail: seq<u8>, limit: nat)
    requires Clean(segments) && Quiet(tail) && forall g | g in segments :: Solid(g.frame)
    ensures Unparsed(Remainder(segments, tail, limit))
    decreases |segments|
  {
    if segments == [] {
      assert forall i: nat :: HeaderAt(Cut(tail, limit), i) ==> HeaderAt(tail, i);
    } else if Size(segments[0]) > limit {
      CutOff(segments[0].noise, segments[0].frame, limit);
    } else {
      RemainderUnparsed(segments[1..], tail, limit - Size(segments[0]));
    }
  }

  /** A transfer of limited size delivers what the segments that arrive whole bring, and nothing of the one cut off. */
  lemma CutRecovered(parse: Parser, segments: seq<Segment>, tail: seq<u8>, limit: nat, room: nat)
    requires Clean(segments) && Quiet(tail) && forall g | g in segments :: Solid(g.frame)
    ensures Receive(parse, Cut(Stream(segments, tail), limit), room) ==
            Sent(parse, segments[..Whole(segments, limit)], room)
  {
    StreamCut(segments, tail, limit);
    RemainderUnparsed(segments, tail, limit);
    StreamRecovered(parse, segments[..Whole(segments, limit)], Remainder(segments, tail, limit), room);
  }

  // ---- A round trip through the stream ----

  /** A status packet that survives its own stuffing. */
  predicate IsResponse(p: Packet) {
    p.instruction == STATUS && 1 <= |p.params| <= MAX_PARAMS && !ErrorByteJoinsHeader(p.params)
  }

  ghost function Responses(noises: seq<seq<u8>>, sent: seq<Packet>): seq<Segment>
    requires |noises| == |sent|
  {
    seq(|sent|, i requires 0 <= i < |sent| => Segment(noises[i], Encode(sent[i])))
  }

  lemma EncodeIsFrame(p: Packet)
    requires |p.params| <= MAX_PARAMS
    ensures IsFrame(Encode(p))
  {
    EncodedFields(p, []);
    assert Encode(p) + [] == Encode(p);
    var e := Encode(p);
    assert e[0] == e[..4][0] && e[1] == e[..4][1] && e[2] == e[..4][2] && e[3] == e[..4][3];
  }

  lemma ResponseParses(p: Packet)
    requires IsResponse(p)
    ensures Parse(Encode(p)) == Accepted(AsStatus(p))
  {
    StatusRoundTrip(p, []);
    assert Encode(p) + [] == Encode(p);
  }

  lemma ResponsesClean(noises: seq<seq<u8>>, sent: seq<Packet>)
    requires |noises| == |sent|
    requires forall i | 0 <= i < |sent| :: Quiet(noises[i]) && IsResponse(sent[i])
    ensures Clean(Responses(noises, sent)) && forall g | g in Responses(noises, sent) :: Solid(g.frame)
  {
    var segments := Responses(noises, sent);
    forall g | g in segments
      ensures Quiet(g.noise) && IsFrame(g.frame) && Solid(g.frame)
    {
      var i :| 0 <= i < |segments| && segments[i] == g;
      EncodeIsFrame(sent[i]);
      forall j: nat | 1 <= j && j + 7 < |g.frame|
        ensures !HeaderAt(g.frame, j)
      {
        HeaderOnlyAtStart(sent[i], j);
      }
    }
  }

  /** Whatever quiet noise lies between them, the responses that arrive whole are the packets received. */
  lemma ResponsesReceived(noises: seq<seq<u8>>, sent: seq<Packet>, tail: seq<u8>, limit: nat, room: nat)
    requires |noises| == |sent| <= room && Quiet(tail)
    requires forall i | 0 <= i < |sent| :: Quiet(noises[i]) && IsResponse(sent[i])
    ensures var segments := Responses(noises, sent);
            var got := Receive(Parse, Cut(Stream(segments, tail), limit), room).packets;
            && |got| == Whole(segments, limit)
            && forall i | 0 <= i < |got| :: got[i] == AsStatus(sent[i])
  {
    var segments := Responses(noises, sent);
    ResponsesClean(noises, sent);
    CutRecovered(Parse, segments, tail, limit, room);
    var n := Whole(segments, limit);
    var packets := seq(n, i requires 0 <= i < n => AsStatus(sent[i]));
    forall i | 0 <= i < n
      ensures Parse(segments[..n][i].frame) == Accepted(packets[i])
    {
      ResponseParses(sent[i]);
    }
    AllSent(Parse, segments[..n], packets, room);
  }

  // ---- Any stream at all ----

  /** p is what parses at a header somewhere in s. */
  ghost predicate ParsedFrom(parse: Parser, s: seq<u8>, p: Packet) {
    exists i: nat, j: nat :: i <= j <= |s| && HeaderAt(s, i) && parse(s[i..j]) == Accepted(p)
  }

  lemma {:induction false} ReceiveBounded(parse: Parser, s: seq<u8>, room: nat)
    ensures |Receive(parse, s, room).packets| <= room && Receive(parse, s, room).noise <= |s|
    decreases |s|
  {
    if room > 0 && FirstPacket(s, 0).Some? {
      var at := FirstPacket(s, 0).value;
      FirstPacketFound(s, 0);
      var end := PacketEnd(s, at);
      ReceiveBounded(parse, s[end..], if parse(s[at..end]).Accepted? then room - 1 else room);
    }
  }

  lemma ParsedFromSuffix(parse: Parser, s: seq<u8>, end: nat, p: Packet)
    requires end <= |s| && ParsedFrom(parse, s[end..], p)
    ensures ParsedFrom(parse, s, p)
  {
    var rest := s[end..];
    var i: nat, j: nat :| i <= j <= |rest| && HeaderAt(rest, i) && parse(rest[i..j]) == Accepted(p);
    assert rest[i..j] == s[end + i..end + j] && HeaderAt(s, end + i);
  }

  /** On any bytes whatever: every packet delivered is what parses at a header in the stream. */
  lemma {:induction false} NothingInvented(parse: Parser, s: seq<u8>, room: nat, p: Packet)
    requires p in Receive(parse, s, room).packets
    ensures ParsedFrom(parse, s, p)
    decreases |s|
  {
    var at := FirstPacket(s, 0).value;
    FirstPacketFound(s, 0);
    var end := PacketEnd(s, at);
    var parsed := parse(s[at..end]);
    var room' := if parsed.Accepted? then room - 1 else room;
    if p in Receive(parse, s[end..], room').packets {
      NothingInvented(parse, s[end..], room', p);
      ParsedFromSuffix(parse, s, end, p);
    }
  }

  // ---- The driver routines ----

  /** find_packet_header: the first header at or after startPos whose packet ends by maxEnd. */
  method FindPacketHeader(buf: seq<u8>, startPos: nat, maxEnd: nat) returns (found: bool, offset: nat, pktEnd: nat)
    ensures found ==> startPos <= offset && PacketAt(buf, offset, maxEnd) && pktEnd == PacketEnd(buf, offset)
    ensures found ==> forall i | startPos <= i < offset :: !PacketAt(buf, i, maxEnd)
    ensures !found ==> forall i: nat | startPos <= i :: !PacketAt(buf, i, maxEnd)
  {
    var pos := startPos;
    while pos + 7 <= |buf|
      invariant startPos <= pos
      invariant forall i | startPos <= i < pos :: !PacketAt(buf, i, maxEnd)
      decreases |buf| - pos
    {
      if buf[pos] == 0xFF && buf[pos + 1] == 0xFF && buf[pos + 2] == 0xFD && buf[pos + 3] == 0x00 {
        var wireLen := Le16(buf[pos + 5], buf[pos + 6]);
        var end := pos + 7 + wireLen;
        if end <= maxEnd {
          return true, pos, end;
        }
      }
      pos := pos + 1;
    }
    return false, 0, 0;
  }

  /** One turn of the receive loop, at an offset of the receive buffer. */
  lemma ReceiveStep(parse: Parser, buf: seq<u8>, offset: nat, room: nat, found: bool, at: nat)
    requires offset <= |buf| && room > 0
    requires found ==> offset <= at && PacketAt(buf, at, |buf|)
    requires found ==> forall i | offset <= i < at :: !PacketAt(buf, i, |buf|)
    requires !found ==> forall i: nat | offset <= i :: !PacketAt(buf, i, |buf|)
    ensures !found ==> Receive(parse, buf[offset..], room) == NOTHING
    ensures found ==>
              var end := PacketEnd(buf, at); var parsed := parse(buf[at..end]);
              Receive(parse, buf[offset..], room) ==
              Consume(at - offset, parsed, Receive(parse, buf[end..], if parsed.Accepted? then room - 1 else room))
  {
    FirstPacketFrom(buf, offset, found, at);
    if found {
      ReceiveShifted(parse, buf, offset, room, at);
    }
  }

  /** The same, with what the turn takes and what it leaves named. */
  lemma ReceiveTurn(parse: Parser, buf: seq<u8>, offset: nat, room: nat, at: nat, parsed: Parsed, rest: Receipt)
    requires offset <= at && PacketAt(buf, at, |buf|) && room > 0
    requires forall i | offset <= i < at :: !PacketAt(buf, i, |buf|)
    requires parsed == parse(buf[at..PacketEnd(buf, at)])
    requires rest == Receive(parse, buf[PacketEnd(buf, at)..], if parsed.Accepted? then room - 1 else room)
    ensures Receive(parse, buf[offset..], room) == Consume(at - offset, parsed, rest)
  {
    ReceiveStep(parse, buf, offset, room, true, at);
  }

  lemma NothingLeft(parse: Parser, buf: seq<u8>, offset: nat, room: nat)
    requires offset <= |buf| && room > 0
    requires forall i: nat | offset <= i :: !PacketAt(buf, i, |buf|)
    ensures Receive(parse, buf[offset..], room) == NOTHING
  {
    ReceiveStep(parse, buf, offset, room, false, 0);
  }

  lemma ReceiveShifted(parse: Parser, buf: seq<u8>, offset: nat, room: nat, at: nat)
    requires offset <= at && at + 7 <= |buf| && PacketEnd(buf, at) <= |buf| && room > 0
    requires FirstPacket(buf[offset..], 0) == Some(at - offset)
    ensures var end := PacketEnd(buf, at); var parsed := parse(buf[at..end]);
            Receive(parse, buf[offset..], room) ==
            Consume(at - offset, parsed, Receive(parse, buf[end..], if parsed.Accepted? then room - 1 else room))
  {
    var rest, first, end := buf[offset..], at - offset, PacketEnd(buf, at);
    ReceiveFirst(parse, rest, room, first);
    PacketShifted(buf, offset, first);
    PartOfRest(buf, offset, first, end - offset);
    CutTwice(buf, offset, end - offset);
    assert rest[first..PacketEnd(rest, first)] == buf[at..end] && rest[PacketEnd(rest, first)..] == buf[end..];
  }

  lemma ReceiveFirst(parse: Parser, s: seq<u8>, room: nat, at: nat)
    requires room > 0 && FirstPacket(s, 0) == Some(at)
    ensures at + 7 <= |s| && PacketEnd(s, at) <= |s|
    ensures var end := PacketEnd(s, at); var parsed := parse(s[at..end]);
            Receive(parse, s, room) ==
            Consume(at, parsed, Receive(parse, s[end..], if parsed.Accepted? then room - 1 else room))
  {
    FirstPacketFound(s, 0);
  }

  lemma PacketShifted(buf: seq<u8>, offset: nat, i: nat)
    requires offset <= |buf|
    ensures PacketAt(buf[offset..], i, |buf| - offset) <==> PacketAt(buf, offset + i, |buf|)
    ensures i + 7 <= |buf| - offset ==> PacketEnd(buf[offset..], i) == PacketEnd(buf, offset + i) - offset
  {
  }

  lemma FirstPacketFrom(buf: seq<u8>, offset: nat, found: bool, at: nat)
    requires offset <= |buf|
    requires found ==> offset <= at && PacketAt(buf, at, |buf|)
    requires found ==> forall i | offset <= i < at :: !PacketAt(buf, i, |buf|)
    requires !found ==> forall i: nat | offset <= i :: !PacketAt(buf, i, |buf|)
    ensures FirstPacket(buf[offset..], 0) == if found then Some(at - offset) else None
  {
    var rest := buf[offset..];
    FirstPacketFound(rest, 0);
    forall i: nat
      ensures PacketAt(rest, i, |rest|) <==> PacketAt(buf, offset + i, |buf|)
    {
      PacketShifted(buf, offset, i);
    }
    if found {
      assert PacketAt(rest, at - offset, |rest|);
    }
  }

  /** What a turn of the loop has delivered, and what it leaves to the rest of the pass. */
  lemma ConsumedFirst(before: seq<Packet>, noise: nat, parsed: Parsed, rest: Receipt)
    ensures var r := Consume(noise, parsed, rest);
            before + r.packets == (before + if parsed.Accepted? then [parsed.packet] else []) + rest.packets
  {
  }

  /** The part of the bus driver's context that a receive pass updates. */
  class Metrics {
    var rxPackets: nat
    var servoErrors: nat
    var crcErrors: nat
    var timeouts: nat
    var rxNoiseBytes: nat

    /** Count the noise before a packet image, parse it into the next free slot, and count the outcome. */
    method TakePacket(data: seq<u8>, ghost parsed: Parsed, noise: nat, rxPkts: array<Packet>, count: nat,
                      ghost rest: Receipt)
      returns (next: nat)
      requires count < rxPkts.Length && parsed == Parse(data)
      modifies `rxPackets, `servoErrors, `crcErrors, `rxNoiseBytes, rxPkts
      ensures next == count + (if parsed.Accepted? then 1 else 0)
      ensures rxPkts[..next] + rest.packets == old(rxPkts[..count]) + Consume(noise, parsed, rest).packets
      ensures rxPackets == old(rxPackets) + next - count
      ensures servoErrors + rest.servoErrors == old(servoErrors) + Consume(noise, parsed, rest).servoErrors
      ensures crcErrors + rest.crcErrors == old(crcErrors) + Consume(noise, parsed, rest).crcErrors
      ensures rxNoiseBytes + rest.noise == old(rxNoiseBytes) + Consume(noise, parsed, rest).noise
    {
      if noise > 0 {
        rxNoiseBytes := rxNoiseBytes + noise;
      }
      var parseRes, pkt := ParsePacket(data);
      next := count;
      if parseRes == Ok {
        rxPkts[count] := pkt;
        rxPackets := rxPackets + 1;
        next := count + 1;
      } else if parseRes == ServoError {
        rxPkts[count] := pkt;
        rxPackets := rxPackets + 1;
        servoErrors := servoErrors + 1;
        next := count + 1;
      } else if parseRes == CrcMismatch {
        crcErrors := crcErrors + 1;
      }
      assert rxPkts[..next] == old(rxPkts[..count]) + if parsed.Accepted? then [parsed.packet] else [];
      ConsumedFirst(old(rxPkts[..count]), noise, parsed, rest);
    }

    /** One turn of the parse loop: what it delivers and counts is exactly what the pass then still owes less. */
    method ParseNext(ghost parse: Parser, rxBuf: seq<u8>, offset: nat, rxPkts: array<Packet>, count: nat,
                     ghost room: nat, ghost owed: Receipt)
      returns (found: bool, nextOffset: nat, nextCount: nat, ghost left: nat, ghost owing: Receipt)
      requires offset < |rxBuf| && count < count + room <= rxPkts.Length && IsParser(parse)
      requires owed == Receive(parse, rxBuf[offset..], room)
      modifies `rxPackets, `servoErrors, `crcErrors, `rxNoiseBytes, rxPkts
      ensures offset <= nextOffset <= |rxBuf| && (found ==> nextOffset > offset)
      ensures count <= nextCount && nextCount + left == count + room
      ensures owing == Receive(parse, rxBuf[nextOffset..], left) && (!found ==> owing == NOTHING)
      ensures rxPkts[..nextCount] + owing.packets == old(rxPkts[..count]) + owed.packets
      ensures rxPackets == old(rxPackets) + nextCount - count
      ensures servoErrors + owing.servoErrors == old(servoErrors) + owed.servoErrors
      ensures crcErrors + owing.crcErrors == old(crcErrors) + owed.crcErrors
      ensures rxNoiseBytes + owing.noise == old(rxNoiseBytes) + owed.noise
    {
      var hdrPos, pktEnd;
      found, hdrPos, pktEnd := FindPacketHeader(rxBuf, offset, |rxBuf|);
      if !found {
        NothingLeft(parse, rxBuf, offset, room);
        return false, offset, count, room, owed;
      }
      ghost var parsed := parse(rxBuf[hdrPos..pktEnd]);
      left := if parsed.Accepted? then room - 1 else room;
      owing := Receive(parse, rxBuf[pktEnd..], left);
      ReceiveTurn(parse, rxBuf, offset, room, hdrPos, parsed, owing);
      nextCount := TakePacket(rxBuf[hdrPos..pktEnd], parsed, hdrPos - offset, rxPkts, count, owing);
      nextOffset := pktEnd;
    }

    /** The parse loop: every packet image in the buffer, in order, until enough good ones are in. */
    method ParseAll(ghost parse: Parser, rxBuf: seq<u8>, expectedCount: nat, rxPkts: array<Packet>) returns (count: nat)
      requires expectedCount <= rxPkts.Length && IsParser(parse)
      modifies `rxPackets, `servoErrors, `crcErrors, `rxNoiseBytes, rxPkts
      ensures count <= expectedCount && rxPkts[..count] == Receive(parse, rxBuf, expectedCount).packets
      ensures rxPackets == old(rxPackets) + count
      ensures servoErrors == old(servoErrors) + Receive(parse, rxBuf, expectedCount).servoErrors
      ensures crcErrors == old(crcErrors) + Receive(parse, rxBuf, expectedCount).crcErrors
      ensures rxNoiseBytes == old(rxNoiseBytes) + Receive(parse, rxBuf, expectedCount).noise
    {
      var offset := 0;
      count := 0;
      ghost var got := Receive(parse, rxBuf, expectedCount);
      assert rxBuf[0..] == rxBuf;
      ghost var owed, room := got, expectedCount;
      while offset < |rxBuf| && count < expectedCount
        invariant offset <= |rxBuf| && count + room == expectedCount
        invariant owed == Receive(parse, rxBuf[offset..], room)
        invariant rxPkts[..count] + owed.packets == got.packets
        invariant rxPackets == old(rxPackets) + count
        invariant servoErrors + owed.servoErrors == old(servoErrors) + got.servoErrors
        invariant crcErrors + owed.crcErrors == old(crcErrors) + got.crcErrors
        invariant rxNoiseBytes + owed.noise == old(rxNoiseBytes) + got.noise
        decreases |rxBuf| - offset
      {
        var found;
        found, offset, count, room, owed := ParseNext(parse, rxBuf, offset, rxPkts, count, room, owed);
        if !found {
          break;
        }
      }
      assert owed == NOTHING;
    }

    /**
     dxl_hal_txrx_multi, from the reply on: the transfer takes as many bytes as unstuffed responses of the expected
     size would have, and is not begun when those do not fit the buffer.
     */
    method ReceiveMulti(reply: seq<u8>, dataPerResponse: nat, expectedCount: nat, rxPkts: array<Packet>)
      returns (result: Outcome, count: nat)
      requires expectedCount <= rxPkts.Length
      modifies this, rxPkts
      ensures var limit := TransferSize(dataPerResponse, expectedCount);
              var got :=
                if limit > MULTI_RX_BUF_SIZE then NOTHING else Receive(Parse, Cut(reply, limit), expectedCount);
              && count <= expectedCount && rxPkts[..count] == got.packets
              && rxPackets == old(rxPackets) + count
              && servoErrors == old(servoErrors) + got.servoErrors
              && crcErrors == old(crcErrors) + got.crcErrors
              && rxNoiseBytes == old(rxNoiseBytes) + got.noise
              && result == (if limit > MULTI_RX_BUF_SIZE then BufferOverflow else if count == 0 then Timeout else Ok)
              && timeouts == old(timeouts) + if result == Timeout then 1 else 0
    {
      var rxBufSize := TransferSize(dataPerResponse, expectedCount);
      if rxBufSize > MULTI_RX_BUF_SIZE {
        return BufferOverflow, 0;
      }
      count := ParseAll(Parse, Cut(reply, rxBufSize), expectedCount, rxPkts);
      if count == 0 {
        timeouts := timeouts + 1;
        return Timeout, 0;
      }
      result := Ok;
    }
  }
}
