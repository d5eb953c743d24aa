/**
 Dynamixel Protocol 2.0 packets: the byte-stuffing printer and the parser that undoes it.
 */
module DxlProtocol {
  import opened Bytes
  import opened Crc
  import opened Options
  import opened Sequences

  const MAX_PARAMS := 246
  const STATUS: u8 := 0x55
  const HEADER: seq<u8> := [0xFF, 0xFF, 0xFD, 0x00]

  datatype Outcome = Ok | Timeout | InvalidPacket | CrcMismatch | ServoError | TxFail | BufferOverflow

  datatype Packet = Packet(id: u8, instruction: u8, error: u8, params: seq<u8>)

  datatype Parsed = Rejected(reason: Outcome) | Accepted(packet: Packet) {
    /** The result code dxl_parse_packet returns: a servo-reported error still delivers its packet. */
    function Code(): Outcome {
      match this
      case Rejected(reason) => reason
      case Accepted(packet) => if packet.error != 0 then ServoError else Ok
    }
  }

  // ---- Byte stuffing ----

  /** s ends with the three bytes that start a header. */
  predicate EndsLikeHeader(s: seq<u8>) {
    |s| >= 3 && s[|s| - 3] == 0xFF && s[|s| - 2] == 0xFF && s[|s| - 1] == 0xFD
  }

  predicate EndsInOne(s: seq<u8>) {
    |s| >= 1 && s[|s| - 1] == 0xFF
  }

  predicate EndsInTwo(s: seq<u8>) {
    |s| >= 2 && s[|s| - 2] == 0xFF && s[|s| - 1] == 0xFF
  }

  /** The wire bytes for params[k..]: every byte that completes FF FF FD is followed by a stuffed 0xFD. */
  function StuffFrom(params: seq<u8>, k: nat): seq<u8>
    requires k <= |params|
    decreases |params| - k
  {
    if k == |params| then []
    else [params[k]] + StuffByte(params[..k + 1]) + StuffFrom(params, k + 1)
  }

  function StuffByte(s: seq<u8>): seq<u8> {
    if EndsLikeHeader(s) then [0xFD] else []
  }

  function Stuff(params: seq<u8>): seq<u8> {
    StuffFrom(params, 0)
  }

  /** What the parser makes of raw[i..], having already recovered acc; None when the packet buffer is full. */
  function UnstuffFrom(raw: seq<u8>, i: nat, acc: seq<u8>): Option<seq<u8>>
    requires i <= |raw|
    decreases |raw| - i
  {
    if i == |raw| then Some(acc)
    else if |acc| >= MAX_PARAMS then None
    else
      var next := acc + [raw[i]];
      if EndsLikeHeader(next) && i + 1 < |raw| && raw[i + 1] == 0xFD
      then UnstuffFrom(raw, i + 2, next)
      else UnstuffFrom(raw, i + 1, next)
  }

  /** The parser's next steps depend on what it recovered only through the ones that end it. */
  predicate SameContext(acc: seq<u8>, s: seq<u8>) {
    && (EndsInOne(acc) <==> EndsInOne(s))
    && (EndsInTwo(acc) <==> EndsInTwo(s))
  }

  lemma ContextStep(acc: seq<u8>, s: seq<u8>, b: u8)
    requires SameContext(acc, s)
    ensures SameContext(acc + [b], s + [b])
    ensures EndsLikeHeader(acc + [b]) <==> EndsLikeHeader(s + [b])
  {
  }

  /** The wire bytes of one parameter, and of those after it. */
  lemma WireStep(params: seq<u8>, k: nat, raw: seq<u8>, i: nat, next: nat)
    requires k < |params| && i <= |raw| && raw[i..] == StuffFrom(params, k)
    requires next == i + 1 + |StuffByte(params[..k + 1])|
    ensures next <= |raw| && raw[i] == params[k] && raw[next..] == StuffFrom(params, k + 1)
    ensures next == i + 2 ==> raw[i + 1] == 0xFD
  {
    var stuffed, rest := StuffByte(params[..k + 1]), StuffFrom(params, k + 1);
    Regrouped([params[k]], stuffed, rest);
    CutTwice(raw, i, next - i);
    assert raw[i..][0] == params[k] && raw[i..][next - i..] == rest;
    if stuffed != [] {
      assert raw[i..][1] == stuffed[0];
    }
  }

  /** One turn of the parser, with room left. */
  lemma UnstuffStep(raw: seq<u8>, i: nat, acc: seq<u8>, next: nat)
    requires i < next <= |raw| && |acc| < MAX_PARAMS
    requires next == i + 1 + |StuffByte(acc + [raw[i]])| && (next == i + 2 ==> raw[i + 1] == 0xFD)
    ensures UnstuffFrom(raw, i, acc) == UnstuffFrom(raw, next, acc + [raw[i]])
  {
  }

  lemma OneRecovered(params: seq<u8>, k: nat, acc: seq<u8>)
    requires k < |params|
    ensures acc + params[k..] == acc + [params[k]] + params[k + 1..]
  {
  }

  lemma NothingRecovered(params: seq<u8>, k: nat, acc: seq<u8>)
    requires k == |params|
    ensures acc + params[k..] == acc
  {
  }

  /** Unstuffing resumed at a parameter boundary, in a context like the printer's, recovers the rest. */
  lemma {:induction false} Resume(params: seq<u8>, k: nat, raw: seq<u8>, i: nat, acc: seq<u8>)
    requires k <= |params| && i <= |raw|
    requires raw[i..] == StuffFrom(params, k) && SameContext(acc, params[..k])
    ensures UnstuffFrom(raw, i, acc) ==
            if k == |params| || |acc| + |params| - k <= MAX_PARAMS then Some(acc + params[k..]) else None
    decreases |params| - k
  {
    if k == |params| {
      NothingRecovered(params, k, acc);
    } else {
      var p1, b := params[..k + 1], params[k];
      assert p1 == params[..k] + [b];
      ContextStep(acc, params[..k], b);
      var next := i + 1 + |StuffByte(p1)|;
      WireStep(params, k, raw, i, next);
      OneRecovered(params, k, acc);
      if |acc| < MAX_PARAMS {
        UnstuffStep(raw, i, acc, next);
        Resume(params, k + 1, raw, next, acc + [b]);
      }
    }
  }

  lemma Unstuffs(params: seq<u8>)
    requires |params| <= MAX_PARAMS
    ensures UnstuffFrom(Stuff(params), 0, []) == Some(params)
  {
    Resume(params, 0, Stuff(params), 0, []);
    assert [] + params[0..] == params;
  }

  // ---- Headers do not occur inside stuffed parameters ----

  predicate HeaderAt(s: seq<u8>, i: nat) {
    i + 4 <= |s| && s[i] == 0xFF && s[i + 1] == 0xFF && s[i + 2] == 0xFD && s[i + 3] == 0x00
  }

  /** None ends with the next parameter, which is followed by a stuffed byte if it completes the start of one. */
  lemma NoHeaderInNext(pre: seq<u8>, b: u8, stuffed: seq<u8>, rest: seq<u8>, j: nat)
    requires stuffed == if EndsLikeHeader(pre + [b]) then [0xFD] else []
    requires |pre| <= j + 2 < |pre + [b] + stuffed|
    requires stuffed == [] ==> !EndsLikeHeader(pre + [b])
    ensures !HeaderAt(pre + [b] + stuffed + rest, j)
  {
    var next := pre + [b] + stuffed;
    assert next[..|pre| + 1] == pre + [b];
    if HeaderAt(next + rest, j) {
      HeaderCut(next + rest, j, next);
    }
  }

  /** No header of s has its third byte at or after from. */
  ghost predicate HeaderFree(s: seq<u8>, from: nat) {
    forall j: nat {:trigger HeaderAt(s, j)} | from <= j + 2 :: !HeaderAt(s, j)
  }

  lemma HeaderFreeNext(pre: seq<u8>, b: u8, stuffed: seq<u8>, rest: seq<u8>)
    requires stuffed == if EndsLikeHeader(pre + [b]) then [0xFD] else []
    requires HeaderFree(pre + [b] + stuffed + rest, |pre + [b] + stuffed|)
    ensures HeaderFree(pre + [b] + stuffed + rest, |pre|)
  {
    var next := pre + [b] + stuffed;
    forall j: nat | |pre| <= j + 2
      ensures !HeaderAt(next + rest, j)
    {
      if j + 2 < |next| {
        NoHeaderInNext(pre, b, stuffed, rest, j);
      }
    }
  }

  lemma StuffSplits(params: seq<u8>, k: nat, pre: seq<u8>)
    requires k < |params|
    ensures pre + StuffFrom(params, k) == pre + [params[k]] + StuffByte(params[..k + 1]) + StuffFrom(params, k + 1)
  {
  }

  /** No header has its third byte among stuffed parameters, whatever precedes them. */
  lemma {:induction false} NoHeaderInside(params: seq<u8>, k: nat, pre: seq<u8>)
    requires k <= |params| && SameContext(pre, params[..k])
    ensures HeaderFree(pre + StuffFrom(params, k), |pre|)
    decreases |params| - k
  {
    if k < |params| {
      var p1, b := params[..k + 1], params[k];
      assert p1 == params[..k] + [b];
      ContextStep(pre, params[..k], b);
      StuffSplits(params, k, pre);
      NoHeaderInside(params, k + 1, pre + [b] + StuffByte(p1));
      HeaderFreeNext(pre, b, StuffByte(p1), StuffFrom(params, k + 1));
    }
  }

  /** A header whose third byte ends or lies inside a prefix leaves that prefix, up to there, ending like a header. */
  lemma HeaderCut(s: seq<u8>, j: nat, pre: seq<u8>)
    requires HeaderAt(s, j) && pre <= s && j + 3 <= |pre|
    ensures EndsLikeHeader(pre[..j + 3])
    ensures j + 4 <= |pre| ==> pre[j + 3] == 0
  {
  }

  // ---- Stuffing adds at most a third ----

  function Credit(s: seq<u8>): nat {
    if EndsInTwo(s) then 2 else if EndsInOne(s) then 1 else 0
  }

  lemma {:induction false} StuffGrowth(params: seq<u8>, k: nat)
    requires k <= |params|
    ensures |StuffFrom(params, k)| >= |params| - k
    ensures 3 * (|StuffFrom(params, k)| - (|params| - k)) <= |params| - k + Credit(params[..k])
    decreases |params| - k
  {
    if k < |params| {
      assert params[..k + 1] == params[..k] + [params[k]];
      StuffGrowth(params, k + 1);
    }
  }

  // ---- Packets on the wire ----

  /** The eight bytes before the parameters. */
  function WireHead(p: Packet): (head: seq<u8>)
    ensures |head| == 8
  {
    var n := 3 + |Stuff(p.params)|;
    HEADER + [p.id, Low8(n), High8(n), p.instruction]
  }

  function WireBody(p: Packet): seq<u8> {
    WireHead(p) + Stuff(p.params)
  }

  /** A packet as transmitted: header, id, length, instruction, stuffed parameters, CRC. */
  function Encode(p: Packet): seq<u8> {
    var crc := Serial(DXL_POLY, 0, WireBody(p));
    WireBody(p) + [Low8(crc), High8(crc)]
  }

  function WireLength(data: seq<u8>): nat
    requires |data| >= 7
  {
    Le16(data[5], data[6])
  }

  function Word(data: seq<u8>, i: nat): u16
    requires i + 2 <= |data|
  {
    Le16(data[i], data[i + 1])
  }

  /** The buffer starts with a header and holds all the bytes its length field announces. */
  predicate Framed(data: seq<u8>) {
    |data| >= 10 && data[..4] == HEADER && 7 + WireLength(data) <= |data|
  }

  predicate CrcHolds(data: seq<u8>)
    requires Framed(data)
  {
    var crcAt := 5 + WireLength(data);
    Word(data, crcAt) == Serial(DXL_POLY, 0, data[..crcAt])
  }

  /** What dxl_parse_packet makes of a buffer, of which it may use only a prefix. */
  function Parse(data: seq<u8>): Parsed {
    if !Framed(data) then Rejected(InvalidPacket)
    else if !CrcHolds(data) then Rejected(CrcMismatch)
    else
      var crcAt := 5 + WireLength(data);
      var start := if data[7] == STATUS then 9 else 8;
      var error := if data[7] == STATUS then data[8] else 0;
      match UnstuffFrom(if start <= crcAt then data[start..crcAt] else [], 0, [])
      case None => Rejected(BufferOverflow)
      case Some(params) => Accepted(Packet(data[4], data[7], error, params))
  }

  /** Which images are refused for their CRC, and which servos report an error. */
  lemma ErrorByteOf(data: seq<u8>)
    ensures Parse(data) == Rejected(CrcMismatch) <==> Framed(data) && !CrcHolds(data)
    ensures Parse(data).Accepted? ==>
              Parse(data).packet.error == if data[7] == STATUS then data[8] else 0
    ensures Parse(data).Code() == CrcMismatch <==> Framed(data) && !CrcHolds(data)
    ensures Parse(data).Code() == ServoError <==> Parse(data).Accepted? && data[7] == STATUS && data[8] != 0
  {
  }

  lemma LowHigh(v: u16)
    ensures Le16(Low8(v), High8(v)) == v
  {
  }

  /** Reading the fields of a buffer made of a head, a body, a CRC and whatever follows. */
  lemma FieldsOf(head: seq<u8>, body: seq<u8>, crc: u16, rest: seq<u8>)
    requires |head| == 8
    ensures var data := head + body + [Low8(crc), High8(crc)] + rest; var n := 8 + |body|;
            && |data| == n + 2 + |rest| && data[..4] == head[..4] && data[4] == head[4] && data[7] == head[7]
            && WireLength(data) == Le16(head[5], head[6])
            && data[8..n] == body && data[..n] == head + body && Word(data, n) == crc
  {
    LowHigh(crc);
  }

  lemma HeadFields(p: Packet)
    requires |p.params| <= MAX_PARAMS
    ensures var head := WireHead(p);
            && head[..4] == HEADER && head[4] == p.id && head[7] == p.instruction
            && Le16(head[5], head[6]) == 3 + |Stuff(p.params)|
            && |Stuff(p.params)| <= |p.params| + |p.params| / 3
  {
    StuffGrowth(p.params, 0);
    LowHigh(3 + |Stuff(p.params)|);
  }

  /** The parser sees exactly one packet: its bytes, then whatever follows. */
  lemma EncodedFields(p: Packet, rest: seq<u8>)
    requires |p.params| <= MAX_PARAMS
    ensures var data := Encode(p) + rest; var n := |Stuff(p.params)|;
            && n <= |p.params| + |p.params| / 3
            && |Encode(p)| == 10 + n && |data| >= 10 + n && data[..4] == HEADER
            && WireLength(data) == 3 + n && data[4] == p.id && data[7] == p.instruction
            && data[8..8 + n] == Stuff(p.params)
            && Word(data, 8 + n) == Serial(DXL_POLY, 0, data[..8 + n])
  {
    HeadFields(p);
    FieldsOf(WireHead(p), Stuff(p.params), Serial(DXL_POLY, 0, WireBody(p)), rest);
  }

  /** Parsing a built packet comes down to unstuffing its parameters from the right place. */
  lemma ParseEncoded(p: Packet, rest: seq<u8>)
    requires |p.params| <= MAX_PARAMS && (p.instruction == STATUS ==> |p.params| >= 1)
    ensures var status := p.instruction == STATUS;
            Parse(Encode(p) + rest) ==
            match UnstuffFrom(StuffFrom(p.params, if status then 1 else 0), 0, [])
            case None => Rejected(BufferOverflow)
            case Some(params) => Accepted(Packet(p.id, p.instruction, if status then p.params[0] else 0, params))
  {
    EncodedFields(p, rest);
    var data, n := Encode(p) + rest, |Stuff(p.params)|;
    if p.instruction == STATUS {
      assert data[9..8 + n] == data[8..8 + n][1..] == StuffFrom(p.params, 1);
      assert data[8] == data[8..8 + n][0] == p.params[0];
    }
  }

  /** What was built parses back, and bytes after the packet are ignored. */
  lemma RoundTrip(p: Packet, rest: seq<u8>)
    requires |p.params| <= MAX_PARAMS && p.instruction != STATUS
    ensures Parse(Encode(p) + rest) == Accepted(p.(error := 0))
  {
    ParseEncoded(p, rest);
    Unstuffs(p.params);
  }

  /** The packet a status packet should parse to: the first parameter is the error byte. */
  function AsStatus(p: Packet): Packet {
    if p.params == [] then p else Packet(p.id, p.instruction, p.params[0], p.params[1..])
  }

  predicate ErrorByteJoinsHeader(params: seq<u8>) {
    |params| >= 3 && params[0] == 0xFF && params[1] == 0xFF && params[2] == 0xFD
  }

  /**
   Status packets are stuffed with the error byte counted among the parameters but unstuffed
   without it. They parse back exactly when the error byte does not complete a header start.
   */
  lemma StatusRoundTrip(p: Packet, rest: seq<u8>)
    requires 1 <= |p.params| <= MAX_PARAMS && p.instruction == STATUS
    ensures Parse(Encode(p) + rest) == Accepted(AsStatus(p)) <==> !ErrorByteJoinsHeader(p.params)
  {
    ParseEncoded(p, rest);
    UnstuffsAfterFirst(p.params, StuffFrom(p.params, 1));
  }

  lemma UnstuffsAfterFirst(params: seq<u8>, raw: seq<u8>)
    requires 1 <= |params| <= MAX_PARAMS && raw == StuffFrom(params, 1)
    ensures UnstuffFrom(raw, 0, []) == Some(params[1..]) <==> !ErrorByteJoinsHeader(params)
  {
    assert raw == raw[0..];
    if params[0] != 0xFF || |params| == 1 {
      if params[0] != 0xFF {
        Resume(params, 1, raw, 0, []);
      }
      assert [] + params[1..] == params[1..];
    } else {
      var acc := [] + [raw[0]];
      assert acc == [params[1]] && raw[1..] == StuffFrom(params, 2);
      assert UnstuffFrom(raw, 0, []) == UnstuffFrom(raw, 1, acc);
      assert acc + params[2..] == params[1..];
      if params[1] != 0xFF {
        Resume(params, 2, raw, 1, acc);
      } else if |params| > 2 {
        AfterTwoOnes(params, raw, acc);
      } else {
        assert |raw[1..]| == 0;
        assert UnstuffFrom(raw, 1, acc) == Some(acc) && params[1..] == acc;
      }
    }
  }

  /** Two ones behind it, the parser is in step with the printer unless the printer stuffs now. */
  lemma AfterTwoOnes(params: seq<u8>, raw: seq<u8>, acc: seq<u8>)
    requires 3 <= |params| <= MAX_PARAMS && |raw| >= 1 && raw[1..] == StuffFrom(params, 2)
    requires params[0] == 0xFF && params[1] == 0xFF && acc == [params[1]]
    ensures UnstuffFrom(raw, 1, acc) == Some(params[1..]) <==> params[2] != 0xFD
  {
    var rest := (if params[2] == 0xFD then [0xFD] else []) + StuffFrom(params, 3);
    StuffThird(params);
    NextByte(raw, 1, params[2], rest);
    KeptWhole(raw, 1, acc);
    MiddlePair(params, acc);
    if params[2] != 0xFD {
      NothingBefore(StuffFrom(params, 3));
      InStep(params, raw, params[1..3]);
    } else {
      OutOfStep(params, raw, params[1..3]);
    }
  }

  lemma MiddlePair(params: seq<u8>, acc: seq<u8>)
    requires |params| >= 3 && acc == [params[1]]
    ensures acc + [params[2]] == params[1..3]
  {
  }

  lemma NextByte(raw: seq<u8>, i: nat, b: u8, rest: seq<u8>)
    requires i <= |raw| && raw[i..] == [b] + rest
    ensures i < |raw| && raw[i] == b && raw[i + 1..] == rest
  {
    assert raw[i] == raw[i..][0];
    assert raw[i + 1..] == raw[i..][1..];
  }

  lemma StuffThird(params: seq<u8>)
    requires |params| >= 3 && params[0] == 0xFF && params[1] == 0xFF
    ensures StuffFrom(params, 2) ==
            [params[2]] + ((if params[2] == 0xFD then [0xFD] else []) + StuffFrom(params, 3))
  {
    var stuffed, rest := StuffByte(params[..3]), StuffFrom(params, 3);
    assert params[..3] == [0xFF, 0xFF, params[2]];
    assert stuffed == if params[2] == 0xFD then [0xFD] else [];
    assert StuffFrom(params, 2) == [params[2]] + stuffed + rest;
    Regrouped([params[2]], stuffed, rest);
  }

  /** With fewer than two parameters recovered the parser just takes the next byte. */
  lemma KeptWhole(raw: seq<u8>, i: nat, acc: seq<u8>)
    requires i < |raw| && |acc| < 2
    ensures UnstuffFrom(raw, i, acc) == UnstuffFrom(raw, i + 1, acc + [raw[i]])
  {
  }

  lemma InStep(params: seq<u8>, raw: seq<u8>, acc: seq<u8>)
    requires 3 <= |params| <= MAX_PARAMS && |raw| >= 2 && raw[2..] == StuffFrom(params, 3)
    requires acc == params[1..3] && params[2] != 0xFD && params[1] == 0xFF && params[0] == 0xFF
    ensures UnstuffFrom(raw, 2, acc) == Some(params[1..])
  {
    Resume(params, 3, raw, 2, acc);
    assert acc + params[3..] == params[1..];
  }

  /** The parser keeps the stuffed byte as a parameter, and then falls in step: one parameter too many. */
  lemma OutOfStep(params: seq<u8>, raw: seq<u8>, acc: seq<u8>)
    requires 3 <= |params| <= MAX_PARAMS && |raw| >= 2 && raw[2..] == [0xFD] + StuffFrom(params, 3)
    requires acc == params[1..3] && params[2] == 0xFD
    ensures UnstuffFrom(raw, 2, acc) != Some(params[1..])
  {
    var acc3 := acc + [0xFD];
    assert raw[2] == raw[2..][0] == 0xFD;
    assert raw[3..] == raw[2..][1..];
    assert UnstuffFrom(raw, 2, acc) == UnstuffFrom(raw, 3, acc3);
    Resume(params, 3, raw, 3, acc3);
  }

  lemma NoHeaderInHead(head: seq<u8>, rest: seq<u8>, i: nat)
    requires |head| == 8 && head[..4] == HEADER && head[6] < 2 && 1 <= i < 7
    ensures !HeaderAt(head + rest, i)
  {
    var s := head + rest;
    assert s[0] == head[..4][0] && s[1] == head[..4][1] && s[2] == head[..4][2] && s[3] == head[..4][3];
    assert s[6] == head[6];
  }

  lemma HeaderShifted(head: seq<u8>, rest: seq<u8>, i: nat)
    requires i >= |head|
    ensures HeaderAt(head + rest, i) <==> HeaderAt(rest, i - |head|)
  {
  }

  lemma HeaderInPrefix(s: seq<u8>, t: seq<u8>, i: nat)
    requires i + 4 <= |s|
    ensures HeaderAt(s + t, i) <==> HeaderAt(s, i)
  {
  }

  lemma HeaderAtInstruction(head: seq<u8>, params: seq<u8>)
    requires |head| == 8
    ensures HeaderAt(head + Stuff(params), 7) <==>
            head[7] == 0xFF && |params| >= 3 && params[0] == 0xFF && params[1] == 0xFD && params[2] == 0x00
  {
    FirstStuffed(params);
    var s := head + Stuff(params);
    assert s[7] == head[7] && forall k | 0 <= k < |Stuff(params)| :: s[8 + k] == Stuff(params)[k];
  }

  lemma HeaderInParams(head: seq<u8>, params: seq<u8>, i: nat)
    requires |head| == 8 && i >= 8
    ensures !HeaderAt(head + Stuff(params), i)
  {
    HeaderShifted(head, Stuff(params), i);
    NoHeaderInside(params, 0, []);
    assert [] + Stuff(params) == Stuff(params);
  }

  /** The one packet shape with a second header in it. */
  predicate HidesHeader(p: Packet) {
    p.instruction == 0xFF && |p.params| >= 3 && p.params[0] == 0xFF && p.params[1] == 0xFD && p.params[2] == 0x00
  }

  /**
   Between the start of a packet and its CRC the header pattern occurs nowhere else, except in one
   case: an instruction byte of 0xFF followed by parameters FF FD 00, which none of the protocol's
   instructions has.
   */
  lemma HeaderOnlyAtStart(p: Packet, i: nat)
    requires |p.params| <= MAX_PARAMS && 1 <= i && i + 6 <= |Encode(p)|
    ensures HeaderAt(Encode(p), i) <==> i == 7 && HidesHeader(p)
  {
    var crc := Serial(DXL_POLY, 0, WireBody(p));
    HeadFields(p);
    HeaderInPrefix(WireBody(p), [Low8(crc), High8(crc)], i);
    if i >= 8 {
      HeaderInParams(WireHead(p), p.params, i);
    } else if i == 7 {
      HeaderAtInstruction(WireHead(p), p.params);
    } else {
      assert Le16(WireHead(p)[5], WireHead(p)[6]) < 0x200;
      NoHeaderInHead(WireHead(p), Stuff(p.params), i);
    }
  }

  /** Stuffing leaves the first three parameters where they are. */
  lemma FirstStuffed(params: seq<u8>)
    ensures |Stuff(params)| >= |params|
    ensures forall i | 0 <= i < 3 && i < |params| :: Stuff(params)[i] == params[i]
    ensures |params| < 3 ==> Stuff(params) == params
  {
    StuffGrowth(params, 0);
    if |params| > 0 {
      assert StuffFrom(params, 0) == [params[0]] + StuffFrom(params, 1);
      if |params| > 1 {
        assert StuffFrom(params, 1) == [params[1]] + StuffFrom(params, 2);
      }
    }
  }

  // ---- Damage ----

  /** other is data with damage in at most the two neighbouring bytes i and i + 1. */
  predicate DamagedAt(data: seq<u8>, other: seq<u8>, i: nat) {
    && |other| == |data| && i + 2 <= |data| && other != data
    && other[..i] == data[..i] && other[i + 2..] == data[i + 2..]
  }

  /**
   A packet that passes the CRC check no longer does once its id, its instruction, or one or two neighbouring bytes
   between its length field and its CRC, are changed.
   */
  lemma DamageDetected(data: seq<u8>, other: seq<u8>, i: nat)
    requires Framed(data) && CrcHolds(data)
    requires DamagedAt(data, other, i)
    requires (i == 4 && other[5] == data[5]) || (i == 6 && other[6] == data[6]) || i >= 7
    requires i + 2 <= 5 + WireLength(data)
    ensures Framed(other) && !CrcHolds(other)
  {
    var at := 5 + WireLength(data);
    var pre, post := data[..i], data[i + 2..at];
    DamagedBytes(data, other, i, at);
    assert WireLength(other) == WireLength(data);
    PairDamageDetected(DXL_POLY, 0, pre, data[i], data[i + 1], other[i], other[i + 1], post);
  }

  /** The parser refuses such a packet for its CRC. */
  lemma DamageRejected(data: seq<u8>, other: seq<u8>, i: nat)
    requires Framed(data) && CrcHolds(data) && DamagedAt(data, other, i)
    requires (i == 4 && other[5] == data[5]) || (i == 6 && other[6] == data[6]) || i >= 7
    requires i + 2 <= 5 + WireLength(data)
    ensures Parse(other) == Rejected(CrcMismatch)
  {
    DamageDetected(data, other, i);
    ErrorByteOf(other);
  }

  lemma DamagedBytes(data: seq<u8>, other: seq<u8>, i: nat, at: nat)
    requires DamagedAt(data, other, i) && 4 <= i && i + 2 <= at && at + 2 <= |data|
    ensures other[i] != data[i] || other[i + 1] != data[i + 1]
    ensures other[..4] == data[..4]
    ensures forall k | 0 <= k < |data| && k != i && k != i + 1 :: other[k] == data[k]
    ensures data[..at] == data[..i] + [data[i], data[i + 1]] + data[i + 2..at]
    ensures other[..at] == data[..i] + [other[i], other[i + 1]] + data[i + 2..at]
  {
    forall k | 0 <= k < |data| && k != i && k != i + 1
      ensures other[k] == data[k]
    {
      if k < i {
        assert other[..i][k] == data[..i][k];
      } else {
        assert other[i + 2..][k - i - 2] == data[i + 2..][k - i - 2];
      }
    }
  }

  // ---- The routines themselves ----

  /** The first pass of dxl_build_packet: the size of the parameters once stuffed. */
  method StuffedSize(params: seq<u8>) returns (size: nat)
    ensures size == |Stuff(params)|
  {
    size := 0;
    for i := 0 to |params|
      invariant size + |StuffFrom(params, i)| == |Stuff(params)|
    {
      size := size + 1;
      if i >= 2 && params[i - 2] == 0xFF && params[i - 1] == 0xFF && params[i] == 0xFD {
        size := size + 1;
      }
    }
  }

  /** One parameter of a wire image: where it goes, its stuffed byte, and where the rest starts. */
  lemma StuffStep(params: seq<u8>, i: nat, wire: seq<u8>, at: nat)
    requires i < |params| && at <= |wire| && wire[at..] == StuffFrom(params, i)
    ensures var n := |StuffByte(params[..i + 1])|;
            && at + 1 + n <= |wire| && wire[at] == params[i] && (n == 1 ==> wire[at + 1] == 0xFD)
            && wire[at + 1 + n..] == StuffFrom(params, i + 1)
            && n == if i >= 2 && params[i - 2] == 0xFF && params[i - 1] == 0xFF && params[i] == 0xFD then 1 else 0
  {
    var tail, n := wire[at..], |StuffByte(params[..i + 1])|;
    assert tail[0] == params[i] && (n == 1 ==> tail[1] == 0xFD);
    assert wire[at + 1 + n..] == tail[1 + n..];
  }

  /** One turn of the second pass. */
  method WriteParam(params: seq<u8>, i: nat, outBuf: array<u8>, pos: nat, ghost wire: seq<u8>) returns (next: nat)
    requires i < |params| && 8 <= pos <= 8 + |wire| <= outBuf.Length && wire[pos - 8..] == StuffFrom(params, i)
    modifies outBuf
    ensures pos <= next <= 8 + |wire| && wire[next - 8..] == StuffFrom(params, i + 1)
    ensures forall k | pos <= k < next :: outBuf[k] == wire[k - 8]
    ensures forall k | 0 <= k < outBuf.Length && (k < pos || next <= k) :: outBuf[k] == old(outBuf[k])
  {
    StuffStep(params, i, wire, pos - 8);
    outBuf[pos] := params[i];
    next := pos + 1;
    if i >= 2 && params[i - 2] == 0xFF && params[i - 1] == 0xFF && params[i] == 0xFD {
      outBuf[next] := 0xFD;
      next := next + 1;
    }
  }

  /** The second pass: parameters written from offset 8 on, with stuffing. */
  method WriteParams(params: seq<u8>, outBuf: array<u8>) returns (pos: nat)
    requires 8 + |Stuff(params)| <= outBuf.Length
    modifies outBuf
    ensures pos == 8 + |Stuff(params)|
    ensures forall k | 8 <= k < pos :: outBuf[k] == Stuff(params)[k - 8]
    ensures forall k | 0 <= k < outBuf.Length && (k < 8 || pos <= k) :: outBuf[k] == old(outBuf[k])
  {
    pos := 8;
    ghost var wire := Stuff(params);
    for i := 0 to |params|
      invariant 8 <= pos <= 8 + |wire| && wire[pos - 8..] == StuffFrom(params, i)
      invariant forall k | 8 <= k < pos :: outBuf[k] == wire[k - 8]
      invariant forall k | 0 <= k < outBuf.Length && (k < 8 || pos <= k) :: outBuf[k] == old(outBuf[k])
    {
      pos := WriteParam(params, i, outBuf, pos, wire);
    }
  }

  /** Header, id, length and instruction. */
  method WriteHead(pkt: Packet, wireLength: nat, outBuf: array<u8>)
    requires outBuf.Length >= 8 && wireLength == 3 + |Stuff(pkt.params)|
    modifies outBuf
    ensures outBuf[..8] == WireHead(pkt)
    ensures forall k | 8 <= k < outBuf.Length :: outBuf[k] == old(outBuf[k])
  {
    outBuf[0], outBuf[1], outBuf[2], outBuf[3] := 0xFF, 0xFF, 0xFD, 0x00;
    outBuf[4] := pkt.id;
    outBuf[5], outBuf[6] := Low8(wireLength), High8(wireLength);
    outBuf[7] := pkt.instruction;
  }

  /** dxl_build_packet: fills outBuf, or touches nothing when the packet does not fit. */
  method BuildPacket(pkt: Packet, outBuf: array<u8>) returns (result: Outcome, length: nat)
    requires |pkt.params| <= MAX_PARAMS
    modifies outBuf
    ensures result == if |Encode(pkt)| <= outBuf.Length then Ok else BufferOverflow
    ensures result == Ok ==> length == |Encode(pkt)| && outBuf[..length] == Encode(pkt)
    ensures forall k | (if result == Ok then length else 0) <= k < outBuf.Length :: outBuf[k] == old(outBuf[k])
  {
    var stuffedSize := StuffedSize(pkt.params);
    var wireLength := 1 + stuffedSize + 2;
    if 7 + wireLength > outBuf.Length {
      return BufferOverflow, 0;
    }
    WriteHead(pkt, wireLength, outBuf);
    ghost var head := outBuf[..8];
    var pos := WriteParams(pkt.params, outBuf);
    ghost var body := head + Stuff(pkt.params);
    assert outBuf[..pos] == body;
    var crc := DxlCrc16(outBuf[..pos]);
    outBuf[pos], outBuf[pos + 1] := Low8(crc), High8(crc);
    length := pos + 2;
    assert outBuf[..length] == body + [Low8(crc), High8(crc)];
    result := Ok;
  }

  /** The unstuffing loop of dxl_parse_packet, over data[rawStart..rawEnd]. */
  method UnstuffParams(data: seq<u8>, rawStart: nat, rawEnd: nat) returns (params: Option<seq<u8>>)
    requires rawEnd <= |data|
    ensures params == UnstuffFrom(if rawStart <= rawEnd then data[rawStart..rawEnd] else [], 0, [])
  {
    if rawStart >= rawEnd {
      return Some([]);
    }
    var buffer := new u8[MAX_PARAMS];
    var paramIdx, i := 0, rawStart;
    ghost var raw := data[rawStart..rawEnd];
    assert buffer[..0] == [];
    while i < rawEnd
      invariant rawStart <= i <= rawEnd && paramIdx <= MAX_PARAMS
      invariant UnstuffFrom(raw, i - rawStart, buffer[..paramIdx]) == UnstuffFrom(raw, 0, [])
      decreases rawEnd - i
    {
      if paramIdx >= MAX_PARAMS {
        return None;
      }
      ghost var acc := buffer[..paramIdx];
      buffer[paramIdx] := data[i];
      paramIdx := paramIdx + 1;
      assert buffer[..paramIdx] == acc + [raw[i - rawStart]];
      if paramIdx >= 3 && buffer[paramIdx - 3] == 0xFF && buffer[paramIdx - 2] == 0xFF &&
         buffer[paramIdx - 1] == 0xFD && i + 1 < rawEnd && data[i + 1] == 0xFD {
        i := i + 1;
      }
      i := i + 1;
    }
    params := Some(buffer[..paramIdx]);
  }

  /** dxl_parse_packet: the packet is delivered exactly when the specification accepts it. */
  method ParsePacket(data: seq<u8>) returns (result: Outcome, pkt: Packet)
    ensures result == Parse(data).Code()
    ensures Parse(data).Accepted? ==> pkt == Parse(data).packet
  {
    pkt := Packet(0, 0, 0, []);
    if |data| < 10 {
      return InvalidPacket, pkt;
    }
    if data[0] != 0xFF || data[1] != 0xFF || data[2] != 0xFD || data[3] != 0x00 {
      assert data[..4][0] == data[0] && data[..4][1] == data[1] && data[..4][2] == data[2] && data[..4][3] == data[3];
      return InvalidPacket, pkt;
    }
    assert data[..4] == HEADER;
    var expectedTotal := 7 + Le16(data[5], data[6]);
    if expectedTotal > |data| {
      return InvalidPacket, pkt;
    }
    assert Framed(data);
    var crcOffset := expectedTotal - 2;
    var received := Le16(data[crcOffset], data[crcOffset + 1]);
    var computed := DxlCrc16(data[..crcOffset]);
    if received != computed {
      return CrcMismatch, pkt;
    }
    assert CrcHolds(data);
    var rawStart, error := 8, 0;
    if data[7] == STATUS {
      rawStart, error := 9, data[8];
    }
    var params := UnstuffParams(data, rawStart, crcOffset);
    match params
    case None =>
      result := BufferOverflow;
    case Some(ps) =>
      pkt := Packet(data[4], data[7], error, ps);
      result := if error != 0 then ServoError else Ok;
  }
}
