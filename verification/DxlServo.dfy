/**
 Commands built on the packet layer: broadcasting goal positions, collecting status responses, and
 the little-endian layout of control-table registers.
 */
module DxlServo {
  import opened Bytes
  import opened DxlProtocol
  import opened DxlScanner
  import opened Options
  import opened Sequences

  const MAX_SYNC_SERVOS := 16
  const MAX_PACKET_SIZE := 256
  const BROADCAST: u8 := 0xFE
  const SYNC_WRITE: u8 := 0x83
  const GOAL_POSITION: u8 := 116
  const STATUS_LENGTH := 21

  // ---- Little-endian values ----

  /** The low length bytes of a value, least significant first. */
  function LittleEndian(v: nat, length: nat): (bytes: seq<u8>)
    ensures |bytes| == length
    decreases length
  {
    if length == 0 then [] else [v % 0x100] + LittleEndian(v / 0x100, length - 1)
  }

  function FromLittleEndian(bytes: seq<u8>): nat {
    if bytes == [] then 0 else bytes[0] as int + 0x100 * FromLittleEndian(bytes[1..])
  }

  function Capacity(length: nat): nat {
    if length == 0 then 1 else 0x100 * Capacity(length - 1)
  }

  /** A register value that fits its register reads back as written. */
  lemma {:induction false} RegisterRoundTrip(v: nat, length: nat)
    requires v < Capacity(length)
    ensures FromLittleEndian(LittleEndian(v, length)) == v
    decreases length
  {
    if length > 0 {
      RegisterRoundTrip(v / 0x100, length - 1);
      assert LittleEndian(v, length)[1..] == LittleEndian(v / 0x100, length - 1);
    }
  }

  // ---- Goal positions for many servos in one packet ----

  datatype SyncPosition = SyncPosition(id: u8, position: u32)

  /** An id, and four bytes of position. */
  function RecordBytes(e: SyncPosition): (bytes: seq<u8>)
    ensures |bytes| == 5
  {
    [e.id] + LittleEndian(e.position, 4)
  }

  function Records(entries: seq<SyncPosition>): (bytes: seq<u8>)
    ensures |bytes| == 5 * |entries|
  {
    if entries == [] then []
    else RecordBytes(entries[0]) + Records(entries[1..])
  }

  /** How a servo takes a sync write apart: an id and four position bytes at a time. */
  function ReadRecords(bytes: seq<u8>): seq<SyncPosition> {
    if |bytes| < 5 then []
    else
      PositionFits(bytes[1..5]);
      [SyncPosition(bytes[0], FromLittleEndian(bytes[1..5]))] + ReadRecords(bytes[5..])
  }

  lemma PositionFits(bytes: seq<u8>)
    requires |bytes| == 4
    ensures FromLittleEndian(bytes) < 0x1_0000_0000
  {
    assert FromLittleEndian(bytes[3..]) < 0x100;
    assert bytes[2..][1..] == bytes[3..] && bytes[1..][1..] == bytes[2..];
    assert FromLittleEndian(bytes[2..]) < 0x1_0000;
    assert FromLittleEndian(bytes[1..]) < 0x100_0000;
  }

  lemma RecordRead(e: SyncPosition, rest: seq<u8>)
    ensures var bytes := RecordBytes(e) + rest;
            bytes[0] == e.id && FromLittleEndian(bytes[1..5]) == e.position && bytes[5..] == rest
  {
    assert (RecordBytes(e) + rest)[1..5] == LittleEndian(e.position, 4);
    assert Capacity(1) == 0x100 && Capacity(2) == 0x1_0000;
    assert Capacity(3) == 0x100_0000 && Capacity(4) == 0x1_0000_0000;
    RegisterRoundTrip(e.position, 4);
  }

  lemma {:induction false} RecordsRoundTrip(entries: seq<SyncPosition>)
    ensures ReadRecords(Records(entries)) == entries
    decreases |entries|
  {
    if entries != [] {
      RecordRead(entries[0], Records(entries[1..]));
      RecordsRoundTrip(entries[1..]);
    }
  }

  function SyncWritePacket(entries: seq<SyncPosition>): Packet {
    Packet(BROADCAST, SYNC_WRITE, 0, [GOAL_POSITION, 0, 4, 0] + Records(entries))
  }

  /** Up to 16 goal positions always fit one packet, and every servo reads the same list back from it. */
  lemma SyncWriteDelivers(entries: seq<SyncPosition>, rest: seq<u8>)
    requires |entries| <= MAX_SYNC_SERVOS
    ensures |Encode(SyncWritePacket(entries))| <= MAX_PACKET_SIZE
    ensures var parsed := Parse(Encode(SyncWritePacket(entries)) + rest);
            && parsed == Accepted(SyncWritePacket(entries))
            && ReadRecords(parsed.packet.params[4..]) == entries
  {
    var p := SyncWritePacket(entries);
    EncodedFields(p, []);
    RoundTrip(p, rest);
    assert p.params[4..] == Records(entries);
    RecordsRoundTrip(entries);
  }

  lemma FourBytes(v: nat)
    ensures LittleEndian(v, 4) == [v % 0x100, v / 0x100 % 0x100, v / 0x1_0000 % 0x100, v / 0x100_0000 % 0x100]
  {
    assert v / 0x100 / 0x100 == v / 0x1_0000 && v / 0x1_0000 / 0x100 == v / 0x100_0000;
    assert LittleEndian(v / 0x100_0000, 1) == [v / 0x100_0000 % 0x100];
    assert LittleEndian(v / 0x1_0000, 2) == [v / 0x1_0000 % 0x100] + LittleEndian(v / 0x100_0000, 1);
    assert LittleEndian(v / 0x100, 3) == [v / 0x100 % 0x100] + LittleEndian(v / 0x1_0000, 2);
  }

  /** Where a record lies among the records. */
  lemma {:induction false} RecordAt(entries: seq<SyncPosition>, i: nat, at: nat, next: nat)
    requires i < |entries| && at == 5 * i && next == at + 5
    ensures next <= |Records(entries)| && Records(entries)[at..next] == RecordBytes(entries[i])
    decreases |entries|
  {
    var record, rest := RecordBytes(entries[0]), Records(entries[1..]);
    if i > 0 {
      RecordAt(entries[1..], i - 1, at - 5, at);
      BehindFive(record, rest, at - 5, at, next);
    } else {
      FirstFive(record, rest, next);
    }
  }

  lemma FirstFive(record: seq<u8>, rest: seq<u8>, next: nat)
    requires |record| == 5 == next
    ensures (record + rest)[0..next] == record
  {
  }

  lemma BehindFive(record: seq<u8>, rest: seq<u8>, before: nat, at: nat, next: nat)
    requires |record| == 5 && at == before + 5 <= |rest| && next == at + 5
    ensures (record + rest)[at..next] == rest[before..at]
  {
  }

  lemma RecordPlace(entries: seq<SyncPosition>, i: nat)
    requires i < |entries|
    ensures SyncWritePacket(entries).params[5 * i + 4..5 * i + 9] == RecordBytes(entries[i])
  {
    var params, at := SyncWritePacket(entries).params, 5 * i;
    RecordAt(entries, i, at, at + 5);
    assert params[4..] == Records(entries);
    PartOfRest(params, 4, at, at + 5);
  }

  /** The parameters of a sync write: the register, its size, and then an id and four bytes for each servo. */
  lemma SyncWriteBytes(entries: seq<SyncPosition>, i: nat)
    requires i < |entries|
    ensures var params, p := SyncWritePacket(entries).params, entries[i].position as int;
            && |params| == 4 + 5 * |entries| && params[..4] == [116, 0, 4, 0]
            && params[5 * i + 4..5 * i + 9] ==
               [entries[i].id, p % 0x100, p / 0x100 % 0x100, p / 0x1_0000 % 0x100, p / 0x100_0000]
  {
    RecordPlace(entries, i);
    RecordSpelt(entries[i]);
  }

  lemma RecordSpelt(e: SyncPosition)
    ensures var p: int := e.position;
            RecordBytes(e) == [e.id, p % 0x100, p / 0x100 % 0x100, p / 0x1_0000 % 0x100, p / 0x100_0000]
  {
    var p: int := e.position;
    FourBytes(p);
    assert p / 0x100_0000 % 0x100 == p / 0x100_0000;
  }

  /** One id and its position, least significant byte first. */
  method PutRecord(params: array<u8>, offset: nat, e: SyncPosition)
    requires offset + 5 <= params.Length
    modifies params
    ensures params[..offset] == old(params[..offset])
    ensures params[offset..offset + 5] == RecordBytes(e)
  {
    var v: int := e.position;
    FourBytes(v);
    params[offset] := e.id;
    params[offset + 1] := v % 0x100;
    params[offset + 2] := v / 0x100 % 0x100;
    params[offset + 3] := v / 0x1_0000 % 0x100;
    params[offset + 4] := v / 0x100_0000 % 0x100;
  }

  lemma RecordsStep(entries: seq<SyncPosition>, i: nat, wanted: seq<u8>, offset: nat)
    requires i < |entries| && offset <= |wanted| && wanted[offset..] == Records(entries[i..])
    ensures offset + 5 <= |wanted| && wanted[offset + 5..] == Records(entries[i + 1..])
    ensures wanted[offset..offset + 5] == RecordBytes(entries[i])
  {
    assert entries[i..][1..] == entries[i + 1..];
    var record := RecordBytes(entries[i]);
    assert wanted[offset..] == record + Records(entries[i + 1..]);
    CutTwice(wanted, offset, 5);
    PartOfRest(wanted, offset, 0, 5);
  }

  /** The same, as part of what is wanted. */
  method PutNext(params: array<u8>, offset: nat, e: SyncPosition, ghost wanted: seq<u8>)
    requires offset + 5 <= params.Length && offset + 5 <= |wanted|
    requires params[..offset] == wanted[..offset]
    requires wanted[offset..offset + 5] == RecordBytes(e)
    modifies params
    ensures params[..offset + 5] == wanted[..offset + 5]
  {
    PutRecord(params, offset, e);
    PartAdded(wanted, offset, offset + 5);
    assert params[..offset + 5] == params[..offset] + params[offset..offset + 5];
  }

  /** The first i records are in place: what is wanted, up to here. */
  predicate Filling(entries: seq<SyncPosition>, i: nat, b: seq<u8>, offset: nat, wanted: seq<u8>) {
    && i <= |entries| && offset == 4 + 5 * i <= |b| && offset <= |wanted|
    && wanted[offset..] == Records(entries[i..]) && b[..offset] == wanted[..offset]
  }

  lemma FillingBegins(entries: seq<SyncPosition>, b: seq<u8>)
    requires |b| >= 4
    ensures Filling(entries, 0, b, 4, b[..4] + Records(entries))
  {
    assert entries[0..] == entries;
  }

  lemma FillingEnds(entries: seq<SyncPosition>, b: seq<u8>, offset: nat, wanted: seq<u8>)
    requires Filling(entries, |entries|, b, offset, wanted)
    ensures b[..offset] == wanted
  {
    assert entries[|entries|..] == [];
    assert |wanted[offset..]| == 0;
  }

  /** One turn of the loop. */
  method FillNext(entries: seq<SyncPosition>, i: nat, buffer: array<u8>, offset: nat, ghost wanted: seq<u8>)
    returns (next: nat)
    requires buffer.Length == MAX_PARAMS && i < |entries| <= MAX_SYNC_SERVOS
    requires Filling(entries, i, buffer[..], offset, wanted)
    modifies buffer
    ensures Filling(entries, i + 1, buffer[..], next, wanted)
  {
    RecordsStep(entries, i, wanted, offset);
    assert buffer[..][..offset] == buffer[..offset];
    PutNext(buffer, offset, entries[i], wanted);
    next := offset + 5;
    assert buffer[..][..next] == buffer[..next];
  }

  /** The records of a sync write, after the four bytes that say what they are. */
  method FillRecords(entries: seq<SyncPosition>, buffer: array<u8>) returns (offset: nat)
    requires buffer.Length == MAX_PARAMS && |entries| <= MAX_SYNC_SERVOS
    modifies buffer
    ensures offset == 4 + 5 * |entries| <= buffer.Length
    ensures buffer[..offset] == old(buffer[..4]) + Records(entries)
  {
    offset := 4;
    ghost var wanted := buffer[..][..4] + Records(entries);
    FillingBegins(entries, buffer[..]);
    for i := 0 to |entries|
      invariant Filling(entries, i, buffer[..], offset, wanted)
    {
      offset := FillNext(entries, i, buffer, offset, wanted);
    }
    FillingEnds(entries, buffer[..], offset, wanted);
  }

  /** The parameter block of a sync write. */
  method PutRecords(entries: seq<SyncPosition>) returns (params: seq<u8>)
    requires |entries| <= MAX_SYNC_SERVOS
    ensures params == SyncWritePacket(entries).params
  {
    var buffer := new u8[MAX_PARAMS];
    buffer[0], buffer[1], buffer[2], buffer[3] := GOAL_POSITION, 0, 4, 0;
    assert buffer[..4] == [GOAL_POSITION, 0, 4, 0];
    var offset := FillRecords(entries, buffer);
    params := buffer[..offset];
  }

  /** dxl_sync_write_position: what ends up in the transmit buffer. */
  method SyncWritePosition(entries: seq<SyncPosition>, txBuf: array<u8>) returns (result: Outcome, length: nat)
    requires txBuf.Length == MAX_PACKET_SIZE
    modifies txBuf
    ensures result == if 1 <= |entries| <= MAX_SYNC_SERVOS then Ok else InvalidPacket
    ensures result == Ok ==> length <= txBuf.Length && txBuf[..length] == Encode(SyncWritePacket(entries))
    ensures result != Ok ==> txBuf[..] == old(txBuf[..])
  {
    if |entries| == 0 || |entries| > MAX_SYNC_SERVOS {
      return InvalidPacket, 0;
    }
    var params := PutRecords(entries);
    SyncWriteDelivers(entries, []);
    result, length := BuildPacket(Packet(BROADCAST, SYNC_WRITE, 0, params), txBuf);
  }

  // ---- Registers ----

  /** dxl_write_register: address and value, both least significant byte first. */
  method WriteRegisterParams(address: u16, length: nat, value: u32) returns (params: seq<u8>)
    requires length <= 4
    ensures params == [Low8(address), High8(address)] + LittleEndian(value, length)
  {
    params := [Low8(address), High8(address)];
    var left: int := value;
    for i := 0 to length
      invariant left >= 0
      invariant params + LittleEndian(left, length - i) == [Low8(address), High8(address)] + LittleEndian(value, length)
    {
      params := params + [left % 0x100];
      left := left / 0x100;
    }
  }

  /** dxl_read_register: the value in the first length parameters, or in all of them if there are fewer. */
  method ReadRegisterValue(length: nat, params: seq<u8>) returns (value: nat)
    requires length <= 4
    ensures value == FromLittleEndian(params[..if length < |params| then length else |params|])
  {
    value := 0;
    var scale := 1;
    ghost var used := params[..if length < |params| then length else |params|];
    var i := 0;
    while i < length && i < |params|
      invariant i <= |used| && scale > 0
      invariant value + scale * FromLittleEndian(used[i..]) == FromLittleEndian(used)
    {
      ghost var rest := FromLittleEndian(used[i + 1..]);
      assert used[i..][1..] == used[i + 1..];
      Distribute(scale, params[i] as int, rest);
      value := value + scale * (params[i] as int);
      scale := 0x100 * scale;
      i := i + 1;
    }
  }

  lemma Distribute(scale: int, b: int, rest: int)
    ensures scale * (b + 0x100 * rest) == scale * b + (0x100 * scale) * rest
  {
  }

  // ---- Collecting status responses ----

  datatype Reading = Reading(load: int, position: int, voltage: nat, temperature: nat)

  /** One servo's slot in the result array. */
  datatype Slot = Slot(id: u8, reading: Reading, valid: bool, servoError: u8)

  const NO_READING := Reading(0, 0, 0, 0)

  function Signed(v: nat, length: nat): int {
    if 2 * v < Capacity(length) then v else v - Capacity(length)
  }

  /** The register block at addresses 126 to 146. */
  function Decode(params: seq<u8>): Reading
    requires |params| >= STATUS_LENGTH
  {
    Reading(
      Signed(FromLittleEndian(params[0..2]), 2),
      Signed(FromLittleEndian(params[6..10]), 4),
      FromLittleEndian(params[18..20]),
      params[20])
  }

  /** The bytes each reading comes from; load and position are signed. */
  lemma DecodedBytes(params: seq<u8>)
    requires |params| >= STATUS_LENGTH
    ensures var r := Decode(params);
            && -0x8000 <= r.load < 0x8000 && -0x8000_0000 <= r.position < 0x8000_0000
            && r.load % 0x1_0000 == params[0] as int + 0x100 * params[1] as int
            && r.position % 0x1_0000_0000 ==
               params[6] as int + 0x100 * params[7] as int + 0x1_0000 * params[8] as int + 0x100_0000 * params[9] as int
            && r.voltage == params[18] as int + 0x100 * params[19] as int && r.temperature == params[20]
  {
    TwoBytes(params[0..2]);
    LastBytes(params[6..10]);
    TwoBytes(params[18..20]);
    assert Capacity(2) == 0x100 * Capacity(1);
    assert Capacity(4) == 0x100 * Capacity(3) && Capacity(3) == 0x100 * Capacity(2);
  }

  lemma TwoBytes(b: seq<u8>)
    requires |b| == 2
    ensures FromLittleEndian(b) == b[0] as int + 0x100 * b[1] as int
  {
    assert FromLittleEndian(b[1..]) == b[1] as int + 0x100 * FromLittleEndian(b[1..][1..]);
  }

  lemma LastBytes(b: seq<u8>)
    requires |b| == 4
    ensures FromLittleEndian(b) ==
            b[0] as int + 0x100 * b[1] as int + 0x1_0000 * b[2] as int + 0x100_0000 * b[3] as int
  {
    TwoBytes(b[2..]);
    assert b[1..][1..] == b[2..];
    assert FromLittleEndian(b[1..]) == b[1] as int + 0x100 * FromLittleEndian(b[2..]);
  }

  /** What a response does to the slot it is matched with: a short one leaves only its error byte. */
  function Fill(slot: Slot, response: Packet): Slot {
    var noted := slot.(servoError := response.error);
    if |response.params| >= STATUS_LENGTH then noted.(reading := Decode(response.params), valid := true) else noted
  }

  predicate Awaits(slot: Slot, response: Packet) {
    slot.id == response.id && !slot.valid
  }

  /** A response goes to the first slot with its id that has no reading yet. */
  function Match(slots: seq<Slot>, response: Packet): (r: seq<Slot>)
    ensures |r| == |slots|
  {
    if slots == [] then []
    else if Awaits(slots[0], response) then [Fill(slots[0], response)] + slots[1..]
    else [slots[0]] + Match(slots[1..], response)
  }

  function MatchAll(slots: seq<Slot>, responses: seq<Packet>): (r: seq<Slot>)
    ensures |r| == |slots|
    decreases |responses|
  {
    if responses == [] then slots
    else MatchAll(Match(slots, responses[0]), responses[1..])
  }

  function Blank(ids: seq<u8>): seq<Slot> {
    seq(|ids|, i requires 0 <= i < |ids| => Slot(ids[i], NO_READING, false, 0))
  }

  function ValidCount(slots: seq<Slot>): nat {
    if slots == [] then 0 else (if slots[0].valid then 1 else 0) + ValidCount(slots[1..])
  }

  predicate Distinct(ids: seq<u8>) {
    forall i, j | 0 <= i < j < |ids| :: ids[i] != ids[j]
  }

  /** The history of one slot when its id belongs to it alone. */
  function FillAll(slot: Slot, responses: seq<Packet>): Slot
    decreases |responses|
  {
    if responses == [] then slot
    else FillAll(if Awaits(slot, responses[0]) then Fill(slot, responses[0]) else slot, responses[1..])
  }

  predicate SlotsFor(slots: seq<Slot>, ids: seq<u8>) {
    |slots| == |ids| && forall i | 0 <= i < |ids| :: slots[i].id == ids[i]
  }

  lemma {:induction false} MatchOne(slots: seq<Slot>, ids: seq<u8>, response: Packet, i: nat)
    requires SlotsFor(slots, ids) && Distinct(ids) && i < |ids|
    ensures SlotsFor(Match(slots, response), ids)
    ensures Match(slots, response)[i] == if Awaits(slots[i], response) then Fill(slots[i], response) else slots[i]
    decreases |slots|
  {
    if Awaits(slots[0], response) {
      assert i > 0 ==> ids[i] != ids[0];
    } else {
      forall k | 1 <= k < |ids|
        ensures Match(slots[1..], response)[k - 1].id == ids[k]
      {
        MatchOne(slots[1..], ids[1..], response, k - 1);
      }
      if i > 0 {
        MatchOne(slots[1..], ids[1..], response, i - 1);
      }
    }
  }

  lemma {:induction false} MatchEach(slots: seq<Slot>, ids: seq<u8>, responses: seq<Packet>, i: nat)
    requires SlotsFor(slots, ids) && Distinct(ids) && i < |ids|
    ensures MatchAll(slots, responses)[i] == FillAll(slots[i], responses)
    decreases |responses|
  {
    if responses != [] {
      MatchOne(slots, ids, responses[0], i);
      MatchEach(Match(slots, responses[0]), ids, responses[1..], i);
    }
  }

  /** A full-length response from this servo. */
  predicate Answers(response: Packet, id: u8) {
    response.id == id && |response.params| >= STATUS_LENGTH
  }

  lemma {:induction false} SettledSlot(slot: Slot, responses: seq<Packet>)
    requires slot.valid
    ensures FillAll(slot, responses) == slot
    decreases |responses|
  {
    if responses != [] {
      SettledSlot(slot, responses[1..]);
    }
  }

  /** The first full answer settles a slot; without one it stays invalid. */
  lemma {:induction false} FirstAnswerCounts(slot: Slot, responses: seq<Packet>, k: nat)
    requires !slot.valid && k <= |responses|
    requires forall j | 0 <= j < k :: !Answers(responses[j], slot.id)
    requires k < |responses| ==> Answers(responses[k], slot.id)
    ensures var r := FillAll(slot, responses);
            && r.id == slot.id && (r.valid <==> k < |responses|)
            && (r.valid ==> r.reading == Decode(responses[k].params) && r.servoError == responses[k].error)
            && (!r.valid ==> r.reading == slot.reading)
    decreases |responses|
  {
    if responses != [] {
      var next := if Awaits(slot, responses[0]) then Fill(slot, responses[0]) else slot;
      if k == 0 {
        SettledSlot(next, responses[1..]);
      } else {
        FirstAnswerCounts(next, responses[1..], k - 1);
      }
    }
  }

  /**
   Whatever arrives, in whatever order: with distinct ids, a servo is reported valid exactly when some
   response of its own was full length, and then with the reading and error byte of the first such one.
   */
  lemma SyncReadExact(ids: seq<u8>, responses: seq<Packet>, i: nat, k: nat)
    requires Distinct(ids) && i < |ids| && k <= |responses|
    requires forall j | 0 <= j < k :: !Answers(responses[j], ids[i])
    requires k < |responses| ==> Answers(responses[k], ids[i])
    ensures var r := MatchAll(Blank(ids), responses)[i];
            && r.id == ids[i] && (r.valid <==> k < |responses|)
            && (r.valid ==> r.reading == Decode(responses[k].params) && r.servoError == responses[k].error)
            && (!r.valid ==> r.reading == NO_READING)
  {
    MatchEach(Blank(ids), ids, responses, i);
    FirstAnswerCounts(Blank(ids)[i], responses, k);
  }

  /** Of short responses the last one leaves its error byte. */
  lemma {:induction false} ShortAnswersNoted(slot: Slot, responses: seq<Packet>, j: nat)
    requires !slot.valid && j < |responses| && responses[j].id == slot.id
    requires forall i | 0 <= i < |responses| :: !Answers(responses[i], slot.id)
    requires forall i | j < i < |responses| :: responses[i].id != slot.id
    ensures FillAll(slot, responses) == slot.(servoError := responses[j].error)
    decreases |responses|
  {
    var next := if Awaits(slot, responses[0]) then Fill(slot, responses[0]) else slot;
    if j == 0 {
      Unanswered(next, responses[1..]);
    } else {
      ShortAnswersNoted(next, responses[1..], j - 1);
    }
  }

  /** A servo with no full answer is reported invalid, with the error byte of the last response of its own. */
  lemma SyncReadShort(ids: seq<u8>, responses: seq<Packet>, i: nat, j: nat)
    requires Distinct(ids) && i < |ids| && j < |responses| && responses[j].id == ids[i]
    requires forall k | 0 <= k < |responses| :: !Answers(responses[k], ids[i])
    requires forall k | j < k < |responses| :: responses[k].id != ids[i]
    ensures MatchAll(Blank(ids), responses)[i] == Slot(ids[i], NO_READING, false, responses[j].error)
  {
    MatchEach(Blank(ids), ids, responses, i);
    ShortAnswersNoted(Blank(ids)[i], responses, j);
  }

  /** dxl_sync_read_status, from the responses on: fill the result array and count the valid ones. */
  method MatchResponses(ids: seq<u8>, responses: seq<Packet>, results: array<Slot>) returns (resultCount: nat)
    requires results.Length == |ids|
    modifies results
    ensures results[..] == MatchAll(Blank(ids), responses)
    ensures resultCount == ValidCount(results[..])
  {
    for i := 0 to |ids|
      invariant forall k | 0 <= k < i :: results[k] == Slot(ids[k], NO_READING, false, 0)
    {
      results[i] := Slot(ids[i], NO_READING, false, 0);
    }
    assert results[..] == Blank(ids);
    for r := 0 to |responses|
      invariant MatchAll(results[..], responses[r..]) == MatchAll(Blank(ids), responses)
    {
      ghost var before := results[..];
      MatchResponse(results, responses[r]);
      assert responses[r..][1..] == responses[r + 1..];
    }
    resultCount := 0;
    for i := 0 to |ids|
      invariant resultCount + ValidCount(results[i..]) == ValidCount(results[..])
    {
      assert results[i..][1..] == results[i + 1..];
      if results[i].valid {
        resultCount := resultCount + 1;
      }
    }
  }

  /** The search for the slot a response belongs to. */
  method MatchResponse(results: array<Slot>, response: Packet)
    modifies results
    ensures results[..] == Match(old(results[..]), response)
  {
    ghost var slots := results[..];
    assert slots[..0] == [] && slots[0..] == slots;
    for i := 0 to results.Length
      invariant results[..] == slots
      invariant Match(slots, response) == slots[..i] + Match(slots[i..], response)
    {
      MatchStep(slots, i, response);
      if results[i].id == response.id && !results[i].valid {
        results[i] := Fill(results[i], response);
        return;
      }
    }
    assert slots[..|slots|] == slots && Match(slots[|slots|..], response) == [];
  }

  lemma MatchStep(slots: seq<Slot>, i: nat, response: Packet)
    requires i < |slots| && Match(slots, response) == slots[..i] + Match(slots[i..], response)
    ensures if Awaits(slots[i], response) then Match(slots, response) == slots[i := Fill(slots[i], response)]
            else Match(slots, response) == slots[..i + 1] + Match(slots[i + 1..], response)
  {
    CutTwice(slots, i, 1);
    if Awaits(slots[i], response) {
      assert slots[i := Fill(slots[i], response)] == slots[..i] + ([Fill(slots[i], response)] + slots[i + 1..]);
    } else {
      Regrouped(slots[..i], [slots[i]], Match(slots[i + 1..], response));
      assert slots[..i] + [slots[i]] == slots[..i + 1];
    }
  }

  // ---- From the servos to the results ----

  /** Each of these servos answers with a full status block, after some quiet noise. */
  ghost predicate AllAnswer(noises: seq<seq<u8>>, sent: seq<Packet>, ids: seq<u8>) {
    && |noises| == |sent| == |ids|
    && forall j {:trigger FullAnswer(noises[j], sent[j], ids[j])} | 0 <= j < |sent| ::
         FullAnswer(noises[j], sent[j], ids[j])
  }

  ghost predicate FullAnswer(noise: seq<u8>, p: Packet, id: u8) {
    Quiet(noise) && IsResponse(p) && p.id == id && |p.params| == 1 + STATUS_LENGTH
  }

  lemma AnswerOf(noises: seq<seq<u8>>, sent: seq<Packet>, ids: seq<u8>, j: nat)
    requires AllAnswer(noises, sent, ids) && j < |sent|
    ensures Quiet(noises[j]) && IsResponse(sent[j]) && sent[j].id == ids[j] && |sent[j].params| == 1 + STATUS_LENGTH
  {
    assert FullAnswer(noises[j], sent[j], ids[j]);
  }

  lemma AnswersReceived(noises: seq<seq<u8>>, sent: seq<Packet>, ids: seq<u8>, tail: seq<u8>, limit: nat)
    requires AllAnswer(noises, sent, ids) && Quiet(tail)
    ensures var segments := Responses(noises, sent);
            var got := Receive(Parse, Cut(Stream(segments, tail), limit), |ids|).packets;
            && |got| == Whole(segments, limit)
            && forall i | 0 <= i < |got| :: got[i] == AsStatus(sent[i])
  {
    forall j | 0 <= j < |sent|
      ensures Quiet(noises[j]) && IsResponse(sent[j])
    {
      AnswerOf(noises, sent, ids, j);
    }
    ResponsesReceived(noises, sent, tail, limit, |ids|);
  }

  /** What dxl_sync_read_status makes of the answers, as far as the transfer takes them. */
  ghost function Telemetry(noises: seq<seq<u8>>, sent: seq<Packet>, ids: seq<u8>, tail: seq<u8>): (r: seq<Slot>)
    requires |noises| == |sent|
    ensures |r| == |ids|
  {
    var reply := Stream(Responses(noises, sent), tail);
    MatchAll(Blank(ids), Receive(Parse, Cut(reply, TransferSize(STATUS_LENGTH, |ids|)), |ids|).packets)
  }

  /**
   Telemetry end to end: when every servo answers with a full status block, in any quiet noise, a servo is reported
   valid, with the reading it sent, exactly when its packet ends within 32 bytes for each servo asked; the others are
   reported as if they had not answered.
   */
  lemma TelemetryEndToEnd(noises: seq<seq<u8>>, sent: seq<Packet>, ids: seq<u8>, tail: seq<u8>, i: nat)
    requires AllAnswer(noises, sent, ids) && Quiet(tail) && Distinct(ids) && i < |ids|
    ensures FullAnswer(noises[i], sent[i], ids[i])
    ensures Telemetry(noises, sent, ids, tail)[i] ==
            if EndOf(Responses(noises, sent), i + 1) <= 32 * |ids|
            then Slot(ids[i], Decode(sent[i].params[1..]), true, sent[i].params[0])
            else Slot(ids[i], NO_READING, false, 0)
  {
    var segments, limit := Responses(noises, sent), 32 * |ids|;
    AnswersReceived(noises, sent, ids, tail, limit);
    WholeExactly(segments, limit, i);
    var got := Receive(Parse, Cut(Stream(segments, tail), limit), |ids|).packets;
    OwnAnswers(noises, sent, ids, got, i);
    if i < |got| {
      SyncReadExact(ids, got, i, i);
    } else {
      MatchEach(Blank(ids), ids, got, i);
      Unanswered(Blank(ids)[i], got);
    }
  }

  /** Of the answers received only the one of servo i itself is its own. */
  lemma OwnAnswers(noises: seq<seq<u8>>, sent: seq<Packet>, ids: seq<u8>, got: seq<Packet>, i: nat)
    requires AllAnswer(noises, sent, ids) && Distinct(ids) && i < |ids| && |got| <= |sent|
    requires forall j | 0 <= j < |got| :: got[j] == AsStatus(sent[j])
    ensures forall j | 0 <= j < |got| :: Answers(got[j], ids[i]) <==> j == i
    ensures forall j | 0 <= j < |got| :: got[j].id == ids[i] <==> j == i
    ensures FullAnswer(noises[i], sent[i], ids[i])
    ensures i < |got| ==> got[i].params == sent[i].params[1..] && got[i].error == sent[i].params[0]
  {
    AnswerOf(noises, sent, ids, i);
    forall j | 0 <= j < |got|
      ensures Answers(got[j], ids[i]) <==> j == i
      ensures got[j].id == ids[i] <==> j == i
    {
      AnswerOf(noises, sent, ids, j);
      assert got[j] == AsStatus(sent[j]) && (j != i ==> ids[j] != ids[i]);
    }
  }

  lemma {:induction false} Unanswered(slot: Slot, responses: seq<Packet>)
    requires forall j | 0 <= j < |responses| :: responses[j].id != slot.id
    ensures FillAll(slot, responses) == slot
    decreases |responses|
  {
    if responses != [] {
      Unanswered(slot, responses[1..]);
    }
  }

  /** An answer with no noise before it, and nothing stuffed into it. */
  predicate Plain(noise: seq<u8>, p: Packet) {
    noise == [] && Stuff(p.params) == p.params
  }

  /** A full answer takes exactly 32 bytes without noise and stuffing, and more with either. */
  lemma AnswerSize(noise: seq<u8>, p: Packet)
    requires |p.params| == 1 + STATUS_LENGTH
    ensures Size(Segment(noise, Encode(p))) >= 32
    ensures Size(Segment(noise, Encode(p))) == 32 <==> Plain(noise, p)
  {
    EncodedFields(p, []);
    StuffGrowth(p.params, 0);
    if |Stuff(p.params)| == |p.params| {
      NothingStuffed(p.params, 0);
    }
  }

  lemma {:induction false} NothingStuffed(params: seq<u8>, k: nat)
    requires k <= |params| && |StuffFrom(params, k)| == |params| - k
    ensures StuffFrom(params, k) == params[k..]
    decreases |params| - k
  {
    if k < |params| {
      StuffGrowth(params, k + 1);
      NothingStuffed(params, k + 1);
    }
  }

  predicate AllPlain(noises: seq<seq<u8>>, sent: seq<Packet>)
    requires |noises| == |sent|
  {
    forall j {:trigger Plain(noises[j], sent[j])} | 0 <= j < |sent| :: Plain(noises[j], sent[j])
  }

  lemma AllPlainFirst(noises: seq<seq<u8>>, sent: seq<Packet>)
    requires |noises| == |sent| > 0
    ensures AllPlain(noises, sent) <==> Plain(noises[0], sent[0]) && AllPlain(noises[1..], sent[1..])
  {
    if Plain(noises[0], sent[0]) && AllPlain(noises[1..], sent[1..]) {
      forall j | 0 <= j < |sent|
        ensures Plain(noises[j], sent[j])
      {
        if j > 0 {
          assert Plain(noises[1..][j - 1], sent[1..][j - 1]);
        }
      }
    }
  }

  lemma {:induction false} EndsTight(noises: seq<seq<u8>>, sent: seq<Packet>)
    requires |noises| == |sent| && forall j | 0 <= j < |sent| :: |sent[j].params| == 1 + STATUS_LENGTH
    ensures var end := EndOf(Responses(noises, sent), |sent|);
            end >= 32 * |sent| && (end == 32 * |sent| <==> AllPlain(noises, sent))
    decreases |sent|
  {
    if sent != [] {
      AnswerSize(noises[0], sent[0]);
      EndsTight(noises[1..], sent[1..]);
      AllPlainFirst(noises, sent);
      assert Responses(noises, sent)[1..] == Responses(noises[1..], sent[1..]);
    }
  }

  lemma {:induction false} EndsGrow(segments: seq<Segment>, i: nat, n: nat)
    requires i <= n <= |segments|
    ensures EndOf(segments, i) <= EndOf(segments, n)
    decreases n
  {
    if i > 0 {
      EndsGrow(segments[1..], i - 1, n - 1);
    }
  }

  /** All servos answer in full, amid quiet noise. */
  ghost predicate Answering(noises: seq<seq<u8>>, sent: seq<Packet>, ids: seq<u8>, tail: seq<u8>) {
    AllAnswer(noises, sent, ids) && Quiet(tail) && Distinct(ids)
  }

  /** Servo i is reported valid. */
  ghost predicate Heard(noises: seq<seq<u8>>, sent: seq<Packet>, ids: seq<u8>, tail: seq<u8>, i: nat) {
    |noises| == |sent| && i < |ids| && Telemetry(noises, sent, ids, tail)[i].valid
  }

  lemma HeardWithin(noises: seq<seq<u8>>, sent: seq<Packet>, ids: seq<u8>, tail: seq<u8>, i: nat, k: nat)
    requires |noises| == |sent| == |ids| && k == i + 1 <= |ids|
    ensures Answering(noises, sent, ids, tail) ==>
              (Heard(noises, sent, ids, tail, i) <==> EndOf(Responses(noises, sent), k) <= 32 * |ids|)
    ensures EndOf(Responses(noises, sent), k) <= EndOf(Responses(noises, sent), |ids|)
  {
    if Answering(noises, sent, ids, tail) {
      TelemetryEndToEnd(noises, sent, ids, tail, i);
    }
    EndsGrow(Responses(noises, sent), k, |ids|);
  }

  lemma AllWithin(noises: seq<seq<u8>>, sent: seq<Packet>, ids: seq<u8>)
    requires |noises| == |sent| == |ids|
    ensures AllAnswer(noises, sent, ids) ==>
              (EndOf(Responses(noises, sent), |ids|) <= 32 * |ids| <==> AllPlain(noises, sent))
  {
    if AllAnswer(noises, sent, ids) {
      forall j | 0 <= j < |sent|
        ensures |sent[j].params| == 1 + STATUS_LENGTH
      {
        AnswerOf(noises, sent, ids, j);
      }
      EndsTight(noises, sent);
    }
  }

  lemma PlainHeard(noises: seq<seq<u8>>, sent: seq<Packet>, ids: seq<u8>, tail: seq<u8>, i: nat)
    requires |noises| == |sent| == |ids| && i < |ids|
    ensures Answering(noises, sent, ids, tail) && AllPlain(noises, sent) ==> Heard(noises, sent, ids, tail, i)
  {
    AllWithin(noises, sent, ids);
    HeardWithin(noises, sent, ids, tail, i, i + 1);
  }

  lemma LastHeard(noises: seq<seq<u8>>, sent: seq<Packet>, ids: seq<u8>, tail: seq<u8>, last: nat)
    requires |noises| == |sent| == |ids| == last + 1
    ensures Answering(noises, sent, ids, tail) ==> (Heard(noises, sent, ids, tail, last) <==> AllPlain(noises, sent))
  {
    AllWithin(noises, sent, ids);
    HeardWithin(noises, sent, ids, tail, last, last + 1);
  }

  /** All servos are reported valid exactly when there is no noise before the last answer and nothing is stuffed. */
  lemma AllHeardExactly(noises: seq<seq<u8>>, sent: seq<Packet>, ids: seq<u8>, tail: seq<u8>)
    requires AllAnswer(noises, sent, ids) && Quiet(tail) && Distinct(ids)
    ensures (forall i | 0 <= i < |ids| :: Telemetry(noises, sent, ids, tail)[i].valid) <==> AllPlain(noises, sent)
  {
    if AllPlain(noises, sent) {
      forall i | 0 <= i < |ids|
        ensures Telemetry(noises, sent, ids, tail)[i].valid
      {
        PlainHeard(noises, sent, ids, tail, i);
        assert Heard(noises, sent, ids, tail, i);
      }
    } else if |ids| == 0 {
      NoneIsPlain(noises, sent);
    } else {
      LastHeard(noises, sent, ids, tail, |ids| - 1);
      assert !Heard(noises, sent, ids, tail, |ids| - 1);
    }
  }

  lemma NoneIsPlain(noises: seq<seq<u8>>, sent: seq<Packet>)
    requires |noises| == |sent|
    ensures sent == [] ==> AllPlain(noises, sent)
  {
  }

  /** One byte of noise before the answer of the only servo asked, and the servo is reported offline. */
  lemma NoiseByteSilences(b: u8, p: Packet)
    requires IsResponse(p) && |p.params| == 1 + STATUS_LENGTH
    ensures Telemetry([[b]], [p], [p.id], []) == [Slot(p.id, NO_READING, false, 0)]
    ensures Receive(Parse, Cut([b] + Encode(p), TransferSize(STATUS_LENGTH, 1)), 1) == NOTHING
  {
    var segments := Responses([[b]], [p]);
    AnswerSize([b], p);
    assert FullAnswer([b], p, p.id);
    assert segments == [Segment([b], Encode(p))];
    assert EndOf(segments, 1) == Size(segments[0]) + EndOf(segments[1..], 0);
    TelemetryEndToEnd([[b]], [p], [p.id], [], 0);
    ResponsesClean([[b]], [p]);
    CutRecovered(Parse, segments, [], 32, 1);
    assert Stream(segments, []) == [b] + Encode(p) + Stream(segments[1..], []) == [b] + Encode(p);
    assert segments[..0] == [];
  }
}
