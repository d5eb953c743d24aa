/** Lines over a serial port: what the reader makes of the bytes, however they arrive, and what the writer sends. */
module SerialFraming {
  import opened Bytes
  import opened Sequences

  type Text = seq<u8>

  const NEWLINE: u8 := 10
  const RETURN: u8 := 13

  // ---- Cutting a stream into lines ----

  /** The complete lines of a stream, without their newlines, and what follows the last newline. */
  datatype Cut = Cut(lines: seq<Text>, tail: Text)

  function Extended(c: Cut, b: u8): Cut {
    if b == NEWLINE then Cut(c.lines + [c.tail], []) else Cut(c.lines, c.tail + [b])
  }

  function CutUp(s: Text): Cut {
    if s == [] then Cut([], []) else Extended(CutUp(s[..|s| - 1]), s[|s| - 1])
  }

  /** Lines with a newline after each. */
  function Joined(lines: seq<Text>): Text {
    if lines == [] then [] else Joined(lines[..|lines| - 1]) + lines[|lines| - 1] + [NEWLINE]
  }

  predicate AllUnbroken(lines: seq<Text>) {
    forall i | 0 <= i < |lines| :: NEWLINE !in lines[i]
  }

  lemma CutLonger(s: Text, b: u8)
    ensures CutUp(s + [b]) == Extended(CutUp(s), b)
  {
    assert (s + [b])[..|s|] == s;
  }

  lemma JoinedLonger(lines: seq<Text>, line: Text)
    ensures Joined(lines + [line]) == Joined(lines) + line + [NEWLINE]
  {
    assert (lines + [line])[..|lines|] == lines;
  }

  /** What is after complete lines stays after them. */
  lemma {:induction false} CutAfter(s: Text, t: Text)
    requires CutUp(s).tail == [] && NEWLINE !in t
    ensures CutUp(s + t) == Cut(CutUp(s).lines, t)
    decreases |t|
  {
    if t == [] {
      assert s + t == s;
    } else {
      var u, b := t[..|t| - 1], t[|t| - 1];
      CutAfter(s, u);
      assert s + t == (s + u) + [b] && t == u + [b];
      CutLonger(s + u, b);
    }
  }

  /** The lines and the tail are the only way to cut a stream at its newlines. */
  lemma {:induction false} CutUnique(lines: seq<Text>, tail: Text)
    requires AllUnbroken(lines) && NEWLINE !in tail
    ensures CutUp(Joined(lines) + tail) == Cut(lines, tail)
    decreases |lines|
  {
    CutJoined(lines);
    CutAfter(Joined(lines), tail);
  }

  lemma {:induction false} CutJoined(lines: seq<Text>)
    requires AllUnbroken(lines)
    ensures CutUp(Joined(lines)) == Cut(lines, [])
    decreases |lines|
  {
    if lines != [] {
      var before, line := lines[..|lines| - 1], lines[|lines| - 1];
      CutJoined(before);
      CutAfter(Joined(before), line);
      CutLonger(Joined(before) + line, NEWLINE);
      assert lines == before + [line];
    }
  }

  /** These are the lines and the tail of the stream. */
  predicate Cuts(c: Cut, s: Text) {
    s == Joined(c.lines) + c.tail && AllUnbroken(c.lines) && NEWLINE !in c.tail
  }

  lemma CutsLonger(s: Text, b: u8, c: Cut)
    requires Cuts(c, s)
    ensures Cuts(Extended(c, b), s + [b])
  {
    if b == NEWLINE {
      JoinedLonger(c.lines, c.tail);
      assert Joined(c.lines + [c.tail]) + [] == s + [b];
    } else {
      Regrouped(Joined(c.lines), c.tail, [b]);
    }
  }

  lemma {:induction false} CutWhole(s: Text)
    ensures Cuts(CutUp(s), s)
    decreases |s|
  {
    if s != [] {
      var before, b := s[..|s| - 1], s[|s| - 1];
      CutWhole(before);
      CutsLonger(before, b, CutUp(before));
      assert s == before + [b];
    }
  }

  lemma {:induction false} JoinedAppend(a: seq<Text>, b: seq<Text>)
    ensures Joined(a + b) == Joined(a) + Joined(b)
    decreases |b|
  {
    if b == [] {
      assert a + b == a;
    } else {
      var before, line := b[..|b| - 1], b[|b| - 1];
      JoinedAppend(a, before);
      assert b == before + [line];
      Regrouped(a, before, [line]);
      JoinedLonger(a + before, line);
      Regrouped(Joined(a), Joined(before), line);
      Regrouped(Joined(a), Joined(before) + line, [NEWLINE]);
    }
  }

  lemma Rejoined(a: seq<Text>, t: Text, b: Text, c: seq<Text>, u: Text)
    requires t + b == Joined(c) + u
    ensures Joined(a) + t + b == Joined(a + c) + u
  {
    JoinedAppend(a, c);
    assert Joined(a) + t + b == Joined(a) + (t + b);
  }

  /** Cutting a longer stream is cutting what was left over together with what is new. */
  lemma CutContinues(a: Text, b: Text)
    ensures var c := CutUp(CutUp(a).tail + b);
            CutUp(a + b) == Cut(CutUp(a).lines + c.lines, c.tail)
  {
    var c := CutUp(CutUp(a).tail + b);
    CutWhole(a);
    CutWhole(CutUp(a).tail + b);
    Rejoined(CutUp(a).lines, CutUp(a).tail, b, c.lines, c.tail);
    CutUnique(CutUp(a).lines + c.lines, c.tail);
  }

  lemma CutLine(line: Text)
    requires NEWLINE !in line
    ensures CutUp(line + [NEWLINE]) == Cut([line], [])
  {
    CutAfter([], line);
    NothingBefore(line);
    CutLonger(line, NEWLINE);
    NothingBefore([line]);
  }

  /** A line off the front. */
  lemma CutFirst(line: Text, rest: Text)
    requires NEWLINE !in line
    ensures CutUp(line + [NEWLINE] + rest) == Cut([line] + CutUp(rest).lines, CutUp(rest).tail)
  {
    CutLine(line);
    CutContinues(line + [NEWLINE], rest);
    NothingBefore(rest);
  }

  // ---- Messages ----

  /** A line without the carriage return it may end with. */
  function Stripped(line: Text): Text {
    if line != [] && line[|line| - 1] == RETURN then line[..|line| - 1] else line
  }

  /** Only the carriage return at the end goes. */
  lemma StrippedExactly(text: Text)
    ensures Stripped(text + [RETURN]) == text
    ensures text == [] || text[|text| - 1] != RETURN ==> Stripped(text) == text
  {
    assert (text + [RETURN])[..|text|] == text;
  }

  /** The message in a line, if there is one. */
  function Message(line: Text): seq<Text> {
    if Stripped(line) != [] then [Stripped(line)] else []
  }

  /** The messages in these lines: empty ones are dropped. */
  function Messages(lines: seq<Text>): seq<Text> {
    if lines == [] then [] else Messages(lines[..|lines| - 1]) + Message(lines[|lines| - 1])
  }

  lemma MessagesLonger(lines: seq<Text>, line: Text)
    ensures Messages(lines + [line]) == Messages(lines) + Message(line)
  {
    assert (lines + [line])[..|lines|] == lines;
  }

  lemma {:induction false} MessagesAppend(a: seq<Text>, b: seq<Text>)
    ensures Messages(a + b) == Messages(a) + Messages(b)
    decreases |b|
  {
    if b == [] {
      assert a + b == a;
    } else {
      var n := |b| - 1;
      var before, line := b[..n], b[n];
      MessagesAppend(a, before);
      LastOff(b);
      Regrouped(a, before, [line]);
      MessagesLonger(a + before, line);
      MessagesLonger(before, line);
      Regrouped(Messages(a), Messages(before), Message(line));
    }
  }

  /** From this queue and buffer, cutting at newlines leads to that queue and buffer. */
  predicate LeadingTo(incoming: seq<Text>, buffer: Text, queue: seq<Text>, left: Text) {
    incoming + Messages(CutUp(buffer).lines) == queue && CutUp(buffer).tail == left
  }

  lemma LeadsOn(incoming: seq<Text>, line: Text, rest: Text, queue: seq<Text>, left: Text)
    requires LeadingTo(incoming, line + [NEWLINE] + rest, queue, left) && NEWLINE !in line
    ensures LeadingTo(incoming + Message(line), rest, queue, left)
  {
    CutFirst(line, rest);
    MessagesAppend([line], CutUp(rest).lines);
    MessagesLonger([], line);
    assert [] + [line] == [line] && [] + Message(line) == Message(line);
    Regrouped(incoming, Message(line), Messages(CutUp(rest).lines));
  }

  lemma LeadsEnd(incoming: seq<Text>, buffer: Text, queue: seq<Text>, left: Text)
    requires LeadingTo(incoming, buffer, queue, left) && NEWLINE !in buffer
    ensures incoming == queue && buffer == left
  {
    CutAfter([], buffer);
    assert [] + buffer == buffer && incoming + [] == incoming;
  }

  lemma LeadsStart(received: Text, chunk: Text)
    ensures LeadingTo(Messages(CutUp(received).lines), CutUp(received).tail + chunk,
                      Messages(CutUp(received + chunk).lines), CutUp(received + chunk).tail)
  {
    CutContinues(received, chunk);
    MessagesAppend(CutUp(received).lines, CutUp(CutUp(received).tail + chunk).lines);
  }

  /** Where the first newline is. */
  method Find(s: Text) returns (i: nat)
    requires NEWLINE in s
    ensures i < |s| && NEWLINE !in s[..i] && s == s[..i] + [NEWLINE] + s[i + 1..]
  {
    i := 0;
    while s[i] != NEWLINE
      invariant i < |s| && NEWLINE !in s[..i]
      decreases |s| - i
    {
      assert s == s[..i] + [s[i]] + s[i + 1..];
      assert s[..i + 1] == s[..i] + [s[i]];
      i := i + 1;
      assert NEWLINE in s[i..];
    }
  }

  class SerialReader {
    var tempBuffer: Text
    var incoming: seq<Text>
    ghost var received: Text

    /** The queue and the buffer are what the bytes received so far call for, however they were cut up. */
    ghost predicate Valid()
      reads this
    {
      incoming == Messages(CutUp(received).lines) && tempBuffer == CutUp(received).tail
    }

    constructor ()
      ensures Valid() && received == []
    {
      tempBuffer, incoming, received := [], [], [];
    }

    /** The inner loop of run, once: the first line in the buffer. */
    method TakeLine(ghost queue: seq<Text>, ghost left: Text)
      requires LeadingTo(incoming, tempBuffer, queue, left) && NEWLINE in tempBuffer
      modifies `incoming, `tempBuffer
      ensures LeadingTo(incoming, tempBuffer, queue, left) && |tempBuffer| < |old(tempBuffer)|
    {
      var newline := Find(tempBuffer);
      var line := tempBuffer[..newline];
      LeadsOn(incoming, line, tempBuffer[newline + 1..], queue, left);
      assert incoming + [] == incoming;
      if line != [] && line[|line| - 1] == RETURN {
        line := line[..|line| - 1];
      }
      if line != [] {
        incoming := incoming + [line];
      }
      tempBuffer := tempBuffer[newline + 1..];
    }

    /** What run does with the bytes of one read. */
    method Receive(chunk: Text)
      requires Valid()
      modifies this
      ensures Valid() && received == old(received) + chunk
    {
      LeadsStart(received, chunk);
      received := received + chunk;
      tempBuffer := tempBuffer + chunk;
      ghost var queue, left := Messages(CutUp(received).lines), CutUp(received).tail;
      while NEWLINE in tempBuffer
        invariant received == old(received) + chunk && LeadingTo(incoming, tempBuffer, queue, left)
        decreases |tempBuffer|
      {
        TakeLine(queue, left);
      }
      LeadsEnd(incoming, tempBuffer, queue, left);
    }
  }

  function Concat(chunks: seq<Text>): Text {
    if chunks == [] then [] else Concat(chunks[..|chunks| - 1]) + chunks[|chunks| - 1]
  }

  /** Any sequence of reads: the messages depend only on the bytes, not on how they were cut up. */
  method Run(chunks: seq<Text>) returns (messages: seq<Text>, left: Text)
    ensures messages == Messages(CutUp(Concat(chunks)).lines) && left == CutUp(Concat(chunks)).tail
  {
    var r := new SerialReader();
    for i := 0 to |chunks|
      invariant fresh(r) && r.Valid() && r.received == Concat(chunks[..i])
    {
      r.Receive(chunks[i]);
      assert chunks[..i + 1][..i] == chunks[..i];
    }
    assert chunks[..|chunks|] == chunks;
    messages, left := r.incoming, r.tempBuffer;
  }

  // ---- The writer ----

  /** The bytes the writer sends for these payloads: empty ones are skipped, others get a newline. */
  function Sent(payloads: seq<Text>): Text {
    if payloads == [] then []
    else (if payloads[0] == [] then [] else payloads[0] + [NEWLINE]) + Sent(payloads[1..])
  }

  /** The loop of SerialWriter's run, as long as every write goes through. */
  method WriteAll(payloads: seq<Text>) returns (wire: Text)
    ensures wire == Sent(payloads)
  {
    wire := [];
    for i := 0 to |payloads|
      invariant wire + Sent(payloads[i..]) == Sent(payloads)
    {
      var payload := payloads[i];
      assert payloads[i..][1..] == payloads[i + 1..];
      if payload != [] {
        payload := payload + [NEWLINE];
        wire := wire + payload;
      }
    }
  }

  /** A payload that arrives as it was sent. */
  predicate Sendable(payload: Text) {
    payload != [] && NEWLINE !in payload && payload[|payload| - 1] != RETURN
  }

  lemma {:induction false} SentJoined(payloads: seq<Text>)
    requires forall i | 0 <= i < |payloads| :: payloads[i] != []
    ensures Sent(payloads) == Joined(payloads)
    decreases |payloads|
  {
    if payloads != [] {
      SentJoined(payloads[1..]);
      JoinedAppend([payloads[0]], payloads[1..]);
      JoinedLonger([], payloads[0]);
      assert [] + [payloads[0]] == [payloads[0]] && [payloads[0]] + payloads[1..] == payloads;
      assert [] + payloads[0] == payloads[0];
    }
  }

  /** A line that arrives as it is. */
  predicate Clean(line: Text) {
    line != [] && line[|line| - 1] != RETURN
  }

  predicate AllClean(lines: seq<Text>) {
    forall i | 0 <= i < |lines| :: Clean(lines[i])
  }

  lemma AllCleanLonger(lines: seq<Text>, line: Text)
    ensures AllClean(lines + [line]) <==> AllClean(lines) && Clean(line)
  {
    var longer := lines + [line];
    assert longer[|lines|] == line && forall i | 0 <= i < |lines| :: longer[i] == lines[i];
  }

  lemma MessageClean(line: Text)
    ensures |Message(line)| <= 1 && (Message(line) == [line] <==> Clean(line))
  {
  }

  lemma {:induction false} MessagesWhole(lines: seq<Text>)
    ensures |Messages(lines)| <= |lines|
    ensures Messages(lines) == lines <==> AllClean(lines)
    decreases |lines|
  {
    if lines != [] {
      var n := |lines| - 1;
      var before, line := lines[..n], lines[n];
      MessagesWhole(before);
      MessageClean(line);
      assert lines == before + [line];
      SameParts(Messages(before), Message(line), before, line);
      AllCleanLonger(before, line);
    }
  }

  lemma SameParts(a: seq<Text>, m: seq<Text>, b: seq<Text>, line: Text)
    requires |a| <= |b| && |m| <= 1
    ensures a + m == b + [line] <==> a == b && m == [line]
  {
    if a + m == b + [line] {
      assert (a + m)[..|b|] == b && (a + m)[|b|] == line;
    }
  }

  lemma {:induction false} MessagesUnbroken(lines: seq<Text>, i: nat)
    requires AllUnbroken(lines) && i < |Messages(lines)|
    ensures Messages(lines)[i] != [] && NEWLINE !in Messages(lines)[i]
    decreases |lines|
  {
    var n := |lines| - 1;
    var before := Messages(lines[..n]);
    if i < |before| {
      MessagesUnbroken(lines[..n], i);
    } else {
      assert Messages(lines)[i] == Stripped(lines[n]);
      assert NEWLINE !in lines[n];
    }
  }

  /** What is written is read back unchanged exactly when every payload is sendable. */
  lemma RoundTrip(payloads: seq<Text>)
    ensures Messages(CutUp(Sent(payloads)).lines) == payloads <==>
            forall i | 0 <= i < |payloads| :: Sendable(payloads[i])
  {
    var s := Sent(payloads);
    if Messages(CutUp(s).lines) == payloads {
      CutWhole(s);
      forall i | 0 <= i < |payloads|
        ensures payloads[i] != [] && NEWLINE !in payloads[i]
      {
        MessagesUnbroken(CutUp(s).lines, i);
      }
    }
    if forall i | 0 <= i < |payloads| :: payloads[i] != [] && NEWLINE !in payloads[i] {
      SentJoined(payloads);
      CutJoined(payloads);
      MessagesWhole(payloads);
      assert forall i | 0 <= i < |payloads| :: Clean(payloads[i]) <==> Sendable(payloads[i]);
    }
  }
}
