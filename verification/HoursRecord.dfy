/** The 16-byte record of the power-on hours odometer, and the choice of the newest one in a region. */
module HoursRecord {
  import opened BigEndian
  import opened Bytes
  import opened Crc
  import opened Options

  const MAGIC: u16 := 0x4852
  const SLOT_SIZE := 16
  const SLOT_COUNT := 16
  const REGION_SIZE := 256
  const CRC_INIT: u16 := 0xFFFF

  datatype Record = Record(number: u32, uptime: u32, motor: u32)

  // ---- One record ----

  function Body(r: Record): (b: seq<u8>)
    ensures |b| == 14
  {
    Be16(MAGIC) + Be32(r.number) + Be32(r.uptime) + Be32(r.motor)
  }

  function Fields(s: seq<u8>): Record
    requires |s| >= 14
  {
    Record(Long(s[2..6]), Long(s[6..10]), Long(s[10..14]))
  }

  /** The bytes of a record in its slot. */
  function Serialized(r: Record): (s: seq<u8>)
    ensures |s| == SLOT_SIZE
  {
    Body(r) + Be16(Serial(HOURS_POLY, CRC_INIT, Body(r)))
  }

  /** What a slot holds, if it is valid. */
  function Held(s: seq<u8>): Option<Record>
    requires |s| == SLOT_SIZE
  {
    if Word(s[0], s[1]) != MAGIC then None
    else if Word(s[14], s[15]) != Serial(HOURS_POLY, CRC_INIT, s[..14]) then None
    else Some(Fields(s))
  }

  lemma Parts(m: seq<u8>, a: seq<u8>, b: seq<u8>, c: seq<u8>)
    requires |m| == 2 && |a| == |b| == |c| == 4
    ensures var s := m + a + b + c;
            s[0] == m[0] && s[1] == m[1] && s[2..6] == a && s[6..10] == b && s[10..14] == c
  {
  }

  lemma Assemble(s: seq<u8>, m: seq<u8>, a: seq<u8>, b: seq<u8>, c: seq<u8>)
    requires |s| == 14 && m == [s[0], s[1]] && a == s[2..6] && b == s[6..10] && c == s[10..14]
    ensures m + a + b + c == s
  {
  }

  lemma BodyFields(r: Record)
    ensures Fields(Body(r)) == r && Word(Body(r)[0], Body(r)[1]) == MAGIC
  {
    Parts(Be16(MAGIC), Be32(r.number), Be32(r.uptime), Be32(r.motor));
    LongSplit(r.number);
    LongSplit(r.uptime);
    LongSplit(r.motor);
    WordRoundTrip(MAGIC, 0, 0);
  }

  lemma PartsJoin(m0: u8, m1: u8, a: seq<u8>, b: seq<u8>, c: seq<u8>, r: Record)
    requires |a| == |b| == |c| == 4 && Word(m0, m1) == MAGIC && r == Record(Long(a), Long(b), Long(c))
    ensures Body(r) == [m0, m1] + a + b + c
  {
    WordRoundTrip(0, m0, m1);
    LongJoin(a);
    LongJoin(b);
    LongJoin(c);
  }

  lemma FieldsBody(s: seq<u8>, r: Record)
    requires |s| == 14 && Word(s[0], s[1]) == MAGIC && r == Fields(s)
    ensures Body(r) == s
  {
    PartsJoin(s[0], s[1], s[2..6], s[6..10], s[10..14], r);
    Assemble(s, [s[0], s[1]], s[2..6], s[6..10], s[10..14]);
  }

  lemma Cut(s: seq<u8>, b: seq<u8>, c: seq<u8>)
    requires |s| == 16 && |b| == 14 && |c| == 2
    ensures s == b + c <==> s[..14] == b && [s[14], s[15]] == c
  {
    assert s == s[..14] + [s[14], s[15]];
  }

  lemma SerializedHeld(r: Record)
    ensures Held(Serialized(r)) == Some(r)
  {
    var body, s := Body(r), Serialized(r);
    var crc := Serial(HOURS_POLY, CRC_INIT, body);
    Cut(s, body, Be16(crc));
    BodyFields(r);
    WordRoundTrip(crc, 0, 0);
    assert s[0] == body[0] && s[1] == body[1];
    assert s[2..6] == body[2..6] && s[6..10] == body[6..10] && s[10..14] == body[10..14];
  }

  lemma HeldSerialized(s: seq<u8>, r: Record)
    requires |s| == SLOT_SIZE && Held(s) == Some(r)
    ensures s == Serialized(r)
  {
    var body := s[..14];
    assert s[0] == body[0] && s[1] == body[1];
    assert s[2..6] == body[2..6] && s[6..10] == body[6..10] && s[10..14] == body[10..14];
    FieldsBody(body, r);
    WordRoundTrip(0, s[14], s[15]);
    Cut(s, Body(r), Be16(Serial(HOURS_POLY, CRC_INIT, Body(r))));
  }

  /** A slot holds a record exactly when its bytes are the ones that record serializes to. */
  lemma HeldIsSerialized(s: seq<u8>, r: Record)
    requires |s| == SLOT_SIZE
    ensures Held(s) == Some(r) <==> s == Serialized(r)
  {
    SerializedHeld(r);
    if Held(s) == Some(r) {
      HeldSerialized(s, r);
    }
  }

  /** The bytes of a valid slot: the letters HR, three numbers and the CRC, each most significant byte first. */
  lemma HeldLayout(s: seq<u8>, r: Record)
    requires |s| == SLOT_SIZE && Held(s) == Some(r)
    ensures s[0] == 'H' as int && s[1] == 'R' as int
    ensures r.number == 0x100 * (0x100 * (0x100 * s[2] as int + s[3] as int) + s[4] as int) + s[5] as int
    ensures r.uptime == 0x100 * (0x100 * (0x100 * s[6] as int + s[7] as int) + s[8] as int) + s[9] as int
    ensures r.motor == 0x100 * (0x100 * (0x100 * s[10] as int + s[11] as int) + s[12] as int) + s[13] as int
    ensures 0x100 * s[14] as int + s[15] as int == Serial(0x1021, 0xFFFF, s[..14])
  {
    assert s[2..6] == [s[2], s[3], s[4], s[5]] && s[6..10] == [s[6], s[7], s[8], s[9]];
    assert s[10..14] == [s[10], s[11], s[12], s[13]];
  }

  // ---- Damage ----

  lemma ZeroStays(n: nat)
    ensures Shifts(HOURS_POLY, 0, n) == 0
  {
  }

  /** The two CRC bytes bring the register to zero, and only they do. */
  lemma ResidueZero(c: u16, a: u8, b: u8)
    ensures Serial(HOURS_POLY, c, [a, b]) == 0 <==> c == Word(a, b)
  {
    SerialPair(HOURS_POLY, c, a, b);
    var w := Be16(c);
    WordRoundTrip(c, a, b);
    SerialPair(HOURS_POLY, c, w[0], w[1]);
    FeedWord(HOURS_POLY, c, w[0], w[1]);
    assert 0x100 * (w[0] as int) + w[1] == c;
    XorSelf(c);
    ZeroStays(16);
    if Serial(HOURS_POLY, c, [a, b]) == 0 {
      FeedWordInjective(HOURS_POLY, c, a, b, w[0], w[1]);
    }
  }

  lemma ValidByResidue(s: seq<u8>)
    requires |s| == SLOT_SIZE
    ensures Held(s).Some? <==> Word(s[0], s[1]) == MAGIC && Serial(HOURS_POLY, CRC_INIT, s) == 0
  {
    assert s == s[..14] + [s[14], s[15]];
    SerialAppend(HOURS_POLY, CRC_INIT, s[..14], [s[14], s[15]]);
    ResidueZero(Serial(HOURS_POLY, CRC_INIT, s[..14]), s[14], s[15]);
  }

  lemma PairSplit(s: seq<u8>, k: nat)
    requires k + 1 < |s|
    ensures s == s[..k] + [s[k], s[k + 1]] + s[k + 2..]
  {
  }

  lemma PairReplaced(s: seq<u8>, t: seq<u8>, k: nat, a: u8, b: u8)
    requires k + 1 < |s| && t == s[k := a][k + 1 := b]
    ensures |t| == |s| && t == s[..k] + [a, b] + s[k + 2..]
  {
    PairSplit(t, k);
    assert t[..k] == s[..k] && t[k + 2..] == s[k + 2..];
  }

  /** Changing one byte of a valid slot, or two adjacent bytes, anywhere in it, always invalidates it. */
  lemma DamageInvalidates(s: seq<u8>, k: nat, a: u8, b: u8)
    requires |s| == SLOT_SIZE && k + 1 < SLOT_SIZE && Held(s).Some?
    requires a != s[k] || b != s[k + 1]
    ensures Held(s[k := a][k + 1 := b]) == None
  {
    var t := s[k := a][k + 1 := b];
    PairSplit(s, k);
    PairReplaced(s, t, k, a, b);
    PairDamageDetected(HOURS_POLY, CRC_INIT, s[..k], s[k], s[k + 1], a, b, s[k + 2..]);
    ValidByResidue(s);
    ValidByResidue(t);
  }

  // ---- Writes cut short ----

  /** What a slot holds when only the first k bytes of a write have reached it. */
  function CutShort(before: seq<u8>, bytes: seq<u8>, k: nat): (s: seq<u8>)
    requires |before| == |bytes| == SLOT_SIZE && k <= SLOT_SIZE
    ensures |s| == SLOT_SIZE
  {
    bytes[..k] + before[k..]
  }

  lemma CutMagic(before: seq<u8>, bytes: seq<u8>, k: nat)
    requires |before| == |bytes| == SLOT_SIZE && k <= SLOT_SIZE
    requires Word(before[0], before[1]) == MAGIC && Word(bytes[0], bytes[1]) == MAGIC
    ensures var s := CutShort(before, bytes, k); Word(s[0], s[1]) == MAGIC
  {
    assert before[0] == bytes[0] && before[1] == bytes[1];
  }

  lemma CutRegister(before: seq<u8>, bytes: seq<u8>, k: nat)
    requires |before| == |bytes| == SLOT_SIZE && k <= SLOT_SIZE
    ensures Serial(HOURS_POLY, CRC_INIT, CutShort(before, bytes, k)) ==
            Serial(HOURS_POLY, Serial(HOURS_POLY, CRC_INIT, bytes[..k]), before[k..])
    ensures Serial(HOURS_POLY, CRC_INIT, before) ==
            Serial(HOURS_POLY, Serial(HOURS_POLY, CRC_INIT, before[..k]), before[k..])
  {
    SerialAppend(HOURS_POLY, CRC_INIT, bytes[..k], before[k..]);
    SerialAppend(HOURS_POLY, CRC_INIT, before[..k], before[k..]);
    assert before == before[..k] + before[k..];
  }

  /**
   A write over a valid record that is cut short after k bytes leaves a valid slot exactly when the two records have
   the same CRC after k bytes.
   */
  lemma CutShortExactly(before: seq<u8>, bytes: seq<u8>, k: nat)
    requires |before| == |bytes| == SLOT_SIZE && k <= SLOT_SIZE && Held(before).Some? && Held(bytes).Some?
    ensures Held(CutShort(before, bytes, k)).Some? <==>
            Serial(HOURS_POLY, CRC_INIT, bytes[..k]) == Serial(HOURS_POLY, CRC_INIT, before[..k])
  {
    ValidByResidue(before);
    ValidByResidue(CutShort(before, bytes, k));
    HasMagic(before);
    HasMagic(bytes);
    CutMagic(before, bytes, k);
    CutRegister(before, bytes, k);
    RegisterMatters(Serial(HOURS_POLY, CRC_INIT, bytes[..k]), Serial(HOURS_POLY, CRC_INIT, before[..k]), before[k..]);
  }

  lemma HasMagic(s: seq<u8>)
    requires |s| == SLOT_SIZE && Held(s).Some?
    ensures Word(s[0], s[1]) == MAGIC
  {
  }

  /** Of all registers exactly one is brought to zero by the same bytes. */
  lemma RegisterMatters(a: u16, b: u16, rest: seq<u8>)
    requires Serial(HOURS_POLY, b, rest) == 0
    ensures Serial(HOURS_POLY, a, rest) == 0 <==> a == b
  {
    if Serial(HOURS_POLY, a, rest) == 0 {
      SerialInjective(HOURS_POLY, a, b, rest);
    }
  }

  /** Over a slot that holds nothing valid it leaves one exactly when the CRC comes out for the mixture. */
  lemma CutShortAnywhere(before: seq<u8>, bytes: seq<u8>, k: nat)
    requires |before| == |bytes| == SLOT_SIZE && k <= SLOT_SIZE
    ensures var s := CutShort(before, bytes, k);
            Held(s).Some? <==>
            Word(s[0], s[1]) == MAGIC &&
            Serial(HOURS_POLY, Serial(HOURS_POLY, CRC_INIT, bytes[..k]), before[k..]) == 0
  {
    ValidByResidue(CutShort(before, bytes, k));
    CutRegister(before, bytes, k);
  }

  // ---- The newest record of a region ----

  function Slots(region: seq<u8>): (n: nat)
    ensures n <= SLOT_COUNT && n * SLOT_SIZE <= |region|
  {
    if |region| / SLOT_SIZE > SLOT_COUNT then SLOT_COUNT else |region| / SLOT_SIZE
  }

  function SlotAt(region: seq<u8>, i: nat): (s: seq<u8>)
    requires (i + 1) * SLOT_SIZE <= |region|
    ensures |s| == SLOT_SIZE
  {
    region[i * SLOT_SIZE..(i + 1) * SLOT_SIZE]
  }

  predicate Holds(region: seq<u8>, i: nat, r: Record) {
    i < Slots(region) && Held(SlotAt(region, i)) == Some(r)
  }

  /** The record with the highest number among the first k slots, and the first of those. */
  predicate NewestAmong(region: seq<u8>, k: nat, best: int, r: Record)
    requires k <= Slots(region)
  {
    && (best < 0 ==> best == -1 && forall j | 0 <= j < k :: Held(SlotAt(region, j)) == None)
    && (best >= 0 ==>
          && best < k && Holds(region, best, r)
          && forall j | 0 <= j < k :: Held(SlotAt(region, j)) == None ||
               (var other := Held(SlotAt(region, j)).value.number;
                if j < best then other < r.number else other <= r.number))
  }

  /** There is never any doubt which one that is. */
  lemma NewestUnique(region: seq<u8>, k: nat, b: int, r: Record, b': int, r': Record)
    requires k <= Slots(region) && NewestAmong(region, k, b, r) && NewestAmong(region, k, b', r')
    ensures b == b' && (b >= 0 ==> r == r')
  {
    assert b >= 0 ==> Held(SlotAt(region, b)) == Some(r);
    assert b' >= 0 ==> Held(SlotAt(region, b')) == Some(r');
  }

  /** One more slot looked at: a record is taken only if its number is higher than any before. */
  lemma NewestStep(region: seq<u8>, k: nat, best: int, r: Record, taken: bool)
    requires k < Slots(region) && NewestAmong(region, k, best, r)
    requires var held := Held(SlotAt(region, k));
             taken == (held.Some? && (best < 0 || held.value.number > r.number))
    ensures NewestAmong(region, k + 1, if taken then k else best, if taken then Held(SlotAt(region, k)).value else r)
  {
    if taken {
      assert Holds(region, k, Held(SlotAt(region, k)).value);
    }
  }

  /** eeprom_hours_deserialize. */
  method Deserialize(s: seq<u8>) returns (valid: bool, r: Record)
    requires |s| == SLOT_SIZE
    ensures Held(s) == if valid then Some(r) else None
  {
    r := Record(0, 0, 0);
    if Word(s[0], s[1]) != MAGIC {
      return false, r;
    }
    var crc := HoursCrc16(s[..14]);
    if Word(s[14], s[15]) != crc {
      return false, r;
    }
    return true, Fields(s);
  }

  /** eeprom_hours_serialize. */
  method Serialize(r: Record) returns (s: seq<u8>)
    ensures |s| == SLOT_SIZE && Held(s) == Some(r)
  {
    var body := Be16(MAGIC) + Be32(r.number) + Be32(r.uptime) + Be32(r.motor);
    assert body == Body(r);
    var crc := HoursCrc16(body);
    s := body + Be16(crc);
    HeldIsSerialized(s, r);
  }

  /** eeprom_hours_select_slot. */
  method SelectSlot(region: seq<u8>) returns (best: int, r: Record)
    ensures NewestAmong(region, Slots(region), best, r)
  {
    best, r := -1, Record(0, 0, 0);
    var bestNumber: u32 := 0;
    for i := 0 to Slots(region)
      invariant NewestAmong(region, i, best, r) && (best >= 0 ==> bestNumber == r.number)
    {
      var valid, record := Deserialize(SlotAt(region, i));
      NewestStep(region, i, best, r, valid && (best < 0 || record.number > bestNumber));
      if valid {
        if best < 0 || record.number > bestNumber {
          best, bestNumber, r := i, record.number, record;
        }
      }
    }
  }
}
