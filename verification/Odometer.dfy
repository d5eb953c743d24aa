/** The power-on hours odometer: a ring of records in the EEPROM, and the counters that are persisted to it. */
module Odometer {
  import opened Bytes
  import opened Crc
  import opened HoursRecord
  import opened Options

  const EEPROM_SIZE := 32768
  const REGION_ADDR := 32512
  const PAGE_SIZE := 64
  const MINUTE_US := 60_000_000
  const MOTOR_ON_VOLTAGE := 3.0
  const WORD := 0x1_0000_0000

  // ---- The chip ----

  /** The memory with data stored at an address, and everything else as it was. */
  function Overwritten(mem: seq<u8>, at: nat, data: seq<u8>): (r: seq<u8>)
    requires at + |data| <= |mem|
    ensures |r| == |mem|
  {
    mem[..at] + data + mem[at + |data|..]
  }

  /** One write cycle: the chip's address counter wraps around within the page. */
  function PageWritten(mem: seq<u8>, at: nat, data: seq<u8>): (r: seq<u8>)
    requires at < |mem| && |data| <= PAGE_SIZE
    ensures |r| == |mem|
  {
    seq(|mem|, i requires 0 <= i < |mem| =>
      if i / PAGE_SIZE == at / PAGE_SIZE && (i - at) % PAGE_SIZE < |data| then data[(i - at) % PAGE_SIZE] else mem[i])
  }

  /** A write that stays within its page is an ordinary one. */
  lemma WithinPage(mem: seq<u8>, at: nat, data: seq<u8>)
    requires at + |data| <= |mem| && at < |mem| && at % PAGE_SIZE + |data| <= PAGE_SIZE
    ensures PageWritten(mem, at, data) == Overwritten(mem, at, data)
  {
    var p, o := PageWritten(mem, at, data), Overwritten(mem, at, data);
    forall i | 0 <= i < |mem|
      ensures p[i] == o[i]
    {
      if at <= i < at + |data| {
        assert (i - at) % PAGE_SIZE == i - at && i / PAGE_SIZE == at / PAGE_SIZE;
      } else if i / PAGE_SIZE == at / PAGE_SIZE {
        assert i < at ==> (i - at) % PAGE_SIZE == i - at + PAGE_SIZE;
        assert i >= at ==> (i - at) % PAGE_SIZE == i - at;
      }
    }
  }

  lemma OverwrittenTwice(mem: seq<u8>, at: nat, a: seq<u8>, b: seq<u8>)
    requires at + |a| + |b| <= |mem|
    ensures Overwritten(Overwritten(mem, at, a), at + |a|, b) == Overwritten(mem, at, a + b)
  {
  }

  /** One page of a longer write. */
  lemma PageStep(before: seq<u8>, mem: seq<u8>, addr: nat, data: seq<u8>, done: nat, size: nat)
    requires addr + |data| <= |before| && done + size <= |data| && mem == Overwritten(before, addr, data[..done])
    requires size > 0 && (addr + done) % PAGE_SIZE + size <= PAGE_SIZE
    ensures PageWritten(mem, addr + done, data[done..done + size]) == Overwritten(before, addr, data[..done + size])
  {
    WithinPage(mem, addr + done, data[done..done + size]);
    OverwrittenTwice(before, addr, data[..done], data[done..done + size]);
    assert data[..done] + data[done..done + size] == data[..done + size];
  }

  // ---- The ring ----

  function Region(mem: seq<u8>): (r: seq<u8>)
    requires |mem| == EEPROM_SIZE
    ensures |r| == REGION_SIZE
  {
    mem[REGION_ADDR..]
  }

  function Slot(mem: seq<u8>, j: nat): (s: seq<u8>)
    requires |mem| == EEPROM_SIZE && j < SLOT_COUNT
    ensures |s| == SLOT_SIZE
  {
    mem[REGION_ADDR + SLOT_SIZE * j..REGION_ADDR + SLOT_SIZE * (j + 1)]
  }

  lemma SlotOfRegion(mem: seq<u8>, j: nat)
    requires |mem| == EEPROM_SIZE && j < SLOT_COUNT
    ensures SlotAt(Region(mem), j) == Slot(mem, j) && Slots(Region(mem)) == SLOT_COUNT
  {
  }

  lemma SlotWritten(mem: seq<u8>, j: nat, data: seq<u8>, i: nat)
    requires |mem| == EEPROM_SIZE && j < SLOT_COUNT && i < SLOT_COUNT && |data| == SLOT_SIZE
    ensures Slot(Overwritten(mem, REGION_ADDR + SLOT_SIZE * j, data), i) == if i == j then data else Slot(mem, i)
  {
    var w := Overwritten(mem, REGION_ADDR + SLOT_SIZE * j, data);
    if i < j {
      assert SLOT_SIZE * (i + 1) <= SLOT_SIZE * j;
    } else if i > j {
      assert SLOT_SIZE * (j + 1) <= SLOT_SIZE * i;
    }
  }

  /** What the sixteen slots hold. */
  function Contents(mem: seq<u8>): (held: seq<Option<Record>>)
    requires |mem| == EEPROM_SIZE
    ensures |held| == SLOT_COUNT
  {
    seq(SLOT_COUNT, j requires 0 <= j < SLOT_COUNT => Held(Slot(mem, j)))
  }

  lemma ContentsWritten(mem: seq<u8>, j: nat, data: seq<u8>)
    requires |mem| == EEPROM_SIZE && j < SLOT_COUNT && |data| == SLOT_SIZE
    ensures Contents(Overwritten(mem, REGION_ADDR + SLOT_SIZE * j, data)) == Contents(mem)[j := Held(data)]
  {
    forall i | 0 <= i < SLOT_COUNT
      ensures Slot(Overwritten(mem, REGION_ADDR + SLOT_SIZE * j, data), i) == if i == j then data else Slot(mem, i)
    {
      SlotWritten(mem, j, data, i);
    }
  }

  /** Records are numbered from one. */
  predicate Numbered(log: seq<Record>) {
    forall k | 0 <= k < |log| :: log[k].number == k + 1
  }

  predicate SlotHolds(held: seq<Option<Record>>, log: seq<Record>, k: nat)
    requires |held| == SLOT_COUNT && k < |log|
  {
    held[k % SLOT_COUNT] == Some(log[k])
  }

  /**
   Record n is in slot (n - 1) mod 16, for the last fifteen records; the slot the next record will take holds
   the record before those, or nothing valid; and a slot never used holds nothing valid.
   */
  predicate RingHolds(held: seq<Option<Record>>, log: seq<Record>)
    requires |held| == SLOT_COUNT
  {
    var n := |log|;
    && (forall k | 0 <= k < n && n - SLOT_COUNT < k :: SlotHolds(held, log, k))
    && (n >= SLOT_COUNT ==> held[n % SLOT_COUNT] == None || SlotHolds(held, log, n - SLOT_COUNT))
    && (forall j | n <= j < SLOT_COUNT :: held[j] == None)
  }

  lemma BlankRing(mem: seq<u8>)
    requires |mem| == EEPROM_SIZE && forall i | REGION_ADDR <= i < EEPROM_SIZE :: mem[i] == 0xFF
    ensures RingHolds(Contents(mem), [])
  {
    forall j | 0 <= j < SLOT_COUNT
      ensures Held(Slot(mem, j)) == None
    {
      assert Slot(mem, j)[0] == 0xFF;
    }
  }

  /** The last of n records that belongs in a slot. */
  lemma LastInSlot(n: nat, j: nat) returns (k: nat)
    requires j < n && j < SLOT_COUNT
    ensures k < n <= k + SLOT_COUNT && k % SLOT_COUNT == j && (n == k + SLOT_COUNT ==> n % SLOT_COUNT == j)
  {
    k := n - 1 - (n - 1 - j) % SLOT_COUNT;
  }

  /** Whatever valid record a slot holds is one of the last sixteen persisted. */
  lemma SlotFromLog(held: seq<Option<Record>>, log: seq<Record>, j: nat)
    requires |held| == SLOT_COUNT && j < SLOT_COUNT && RingHolds(held, log) && held[j].Some?
    ensures exists k | 0 <= k < |log| :: k % SLOT_COUNT == j && SlotHolds(held, log, k)
  {
    var n := |log|;
    assert j < n;
    var k := LastInSlot(n, j);
    assert SlotHolds(held, log, k);
  }

  /** The first of the highest-numbered slots, as the scan of a region chooses it. */
  predicate Chosen(held: seq<Option<Record>>, best: int, r: Record) {
    && (best < 0 ==> best == -1 && forall j | 0 <= j < |held| :: held[j] == None)
    && (best >= 0 ==>
          && best < |held| && held[best] == Some(r)
          && (forall j | 0 <= j < |held| && held[j].Some? :: held[j].value.number <= r.number)
          && forall j | 0 <= j < best && held[j].Some? :: held[j].value.number < r.number)
  }

  lemma NewestChosen(mem: seq<u8>, best: int, r: Record)
    requires |mem| == EEPROM_SIZE && NewestAmong(Region(mem), Slots(Region(mem)), best, r)
    ensures Chosen(Contents(mem), best, r)
  {
    forall j | 0 <= j < SLOT_COUNT
      ensures Contents(mem)[j] == Held(SlotAt(Region(mem), j)) && Slots(Region(mem)) == SLOT_COUNT
    {
      SlotOfRegion(mem, j);
    }
  }

  /** Boot finds the last record persisted, in its slot, and nothing when there is none. */
  lemma BootFindsLast(held: seq<Option<Record>>, log: seq<Record>, best: int, r: Record)
    requires |held| == SLOT_COUNT && RingHolds(held, log) && Numbered(log) && Chosen(held, best, r)
    ensures if log == [] then best == -1 else best == (|log| - 1) % SLOT_COUNT && r == log[|log| - 1]
  {
    if best >= 0 {
      SlotFromLog(held, log, best);
    }
    if log != [] {
      assert SlotHolds(held, log, |log| - 1);
    }
  }

  /** Distinct records among any sixteen in a row never share a slot. */
  lemma SlotsDistinct(k: nat, n: nat)
    requires k < n < k + SLOT_COUNT
    ensures k % SLOT_COUNT != n % SLOT_COUNT
  {
  }

  lemma SlotAgain(n: nat)
    requires n >= SLOT_COUNT
    ensures (n - SLOT_COUNT) % SLOT_COUNT == n % SLOT_COUNT
  {
  }

  lemma RingAdvances(held: seq<Option<Record>>, log: seq<Record>, r: Record)
    requires |held| == SLOT_COUNT && RingHolds(held, log)
    ensures RingHolds(held[|log| % SLOT_COUNT := Some(r)], log + [r])
  {
    var n := |log|;
    var w := held[n % SLOT_COUNT := Some(r)];
    forall k | 0 <= k < n && n + 1 - SLOT_COUNT <= k
      ensures SlotHolds(w, log + [r], k)
    {
      SlotsDistinct(k, n);
      assert SlotHolds(held, log, k);
    }
    assert SlotHolds(w, log + [r], n);
    if n + 1 >= SLOT_COUNT {
      SlotAgain(n + 1);
    }
  }

  /** A write cut short by a power failure spoils only the slot of the oldest record. */
  lemma RingSurvives(held: seq<Option<Record>>, log: seq<Record>)
    requires |held| == SLOT_COUNT && RingHolds(held, log)
    ensures RingHolds(held[|log| % SLOT_COUNT := None], log)
  {
    var n := |log|;
    var w := held[n % SLOT_COUNT := None];
    forall k | 0 <= k < n && n - SLOT_COUNT < k
      ensures SlotHolds(w, log, k)
    {
      SlotsDistinct(k, n);
      assert SlotHolds(held, log, k);
    }
  }

  /** Whatever any other slot than the next one holds was numbered at its time, and only the last record that high. */
  lemma OtherSlot(held: seq<Option<Record>>, log: seq<Record>, j: nat)
    requires |held| == SLOT_COUNT && RingHolds(held, log) && Numbered(log) && j < SLOT_COUNT && held[j].Some?
    ensures log != [] && held[j].value.number <= |log|
    ensures held[j].value.number == |log| ==> j == (|log| - 1) % SLOT_COUNT && held[j].value == log[|log| - 1]
  {
    SlotFromLog(held, log, j);
  }

  /**
   After a write cut short, boot still restores the record before it, from its slot, exactly when what is left of
   the slot is invalid, or numbered lower, or numbered the same and not in the first slot, where it would be found
   first.
   */
  lemma BootAfterTornWrite(held: seq<Option<Record>>, log: seq<Record>, torn: Option<Record>, best: int, r: Record)
    requires |held| == SLOT_COUNT && RingHolds(held, log) && Numbered(log)
    requires Chosen(held[|log| % SLOT_COUNT := torn], best, r)
    ensures torn == None || torn.value.number < |log| || (torn.value.number == |log| && |log| % SLOT_COUNT != 0) <==>
            if log == [] then best == -1 else best == (|log| - 1) % SLOT_COUNT && r == log[|log| - 1]
  {
    var n := |log|;
    var w := held[n % SLOT_COUNT := torn];
    assert w[n % SLOT_COUNT] == torn;
    if n > 0 {
      SlotsDistinct(n - 1, n);
      assert SlotHolds(held, log, n - 1) && w[(n - 1) % SLOT_COUNT] == Some(log[n - 1]);
    }
    if best >= 0 && best != n % SLOT_COUNT {
      assert w[best] == held[best];
      OtherSlot(held, log, best);
    }
  }

  /** Were the record number ever to wrap, boot would not find the newest record. */
  lemma WrappedNumberLost(held: seq<Option<Record>>, last: nat, next: nat, best: int, r: Record)
    requires last < |held| && next < |held| && Chosen(held, best, r)
    requires held[last].Some? && held[last].value.number == 0xFFFF_FFFF
    requires held[next].Some? && held[next].value.number == 0
    ensures best != next
  {
  }

  // ---- Counting ----

  /** Minutes as the firmware adds them, in 32 bits. */
  function Minutes(baseline: u32, us: u64): u32 {
    (baseline + us / MINUTE_US % WORD) % WORD
  }

  lemma MinutesExact(total: nat, us: u64)
    ensures Minutes(total % WORD, us) == (total + us / MINUTE_US) % WORD
  {
  }

  /** A sample of the motor rail. */
  datatype Sample = Sample(us: u64, volts: real)

  predicate Increasing(samples: seq<Sample>) {
    forall i, j | 0 <= i < j < |samples| :: samples[i].us <= samples[j].us
  }

  /** Time with the rail on: each interval counts when the sample that ends it is above the threshold. */
  function OnTime(samples: seq<Sample>): int {
    var n := |samples|;
    if n < 2 then 0
    else OnTime(samples[..n - 1]) +
         if samples[n - 1].volts > MOTOR_ON_VOLTAGE then samples[n - 1].us - samples[n - 2].us else 0
  }

  /** The rail is never on for longer than it is watched. */
  lemma {:induction false} OnTimeBound(samples: seq<Sample>)
    requires samples != [] && Increasing(samples)
    ensures 0 <= OnTime(samples) <= samples[|samples| - 1].us - samples[0].us
    decreases |samples|
  {
    var n := |samples|;
    if n >= 2 {
      OnTimeBound(samples[..n - 1]);
      assert samples[n - 2].us <= samples[n - 1].us;
    }
  }

  /** Uptime and motor minutes, as they would be in unbounded integers. */
  datatype Total = Total(uptime: nat, motor: nat)

  predicate Grows(a: Total, b: Total) {
    a.uptime <= b.uptime && a.motor <= b.motor
  }

  /** Records hold the totals modulo 2^32; totals never decrease, and motor time never exceeds uptime. */
  predicate Accounted(log: seq<Record>, totals: seq<Total>) {
    && |log| == |totals|
    && (forall k | 0 <= k < |log| ::
          && log[k].uptime == totals[k].uptime % WORD && log[k].motor == totals[k].motor % WORD
          && totals[k].motor <= totals[k].uptime)
    && (forall j, k | 0 <= j < k < |log| :: Grows(totals[j], totals[k]))
  }

  /** As long as the totals fit 32 bits, persisted totals never decrease. */
  lemma PersistedTotalsGrow(log: seq<Record>, totals: seq<Total>, j: nat, k: nat)
    requires Accounted(log, totals) && j < k < |log| && totals[k].uptime < WORD
    ensures log[j].uptime <= log[k].uptime && log[j].motor <= log[k].motor && log[k].motor <= log[k].uptime
  {
    assert Grows(totals[j], totals[k]);
  }

  lemma AccountedGrows(log: seq<Record>, totals: seq<Total>, r: Record, t: Total)
    requires Accounted(log, totals) && r.uptime == t.uptime % WORD && r.motor == t.motor % WORD
    requires t.motor <= t.uptime && (totals != [] ==> Grows(totals[|totals| - 1], t))
    ensures Accounted(log + [r], totals + [t])
  {
    forall j | 0 <= j < |log|
      ensures Grows(totals[j], t)
    {
      assert j < |log| - 1 ==> Grows(totals[j], totals[|log| - 1]);
    }
  }

  // ---- What is known of a board ----

  /** The counters, which do not outlive a reboot. */
  datatype Counters = Counters(
    baselineUptime: u32, baselineMotor: u32, lastNumber: u32, lastSlot: nat,
    motorOnUs: u64, lastSampleUs: u64, samplePrimed: bool)

  /** Everything ever persisted, with exact totals; the totals at boot; the samples since, and the latest time seen. */
  datatype Past = Past(log: seq<Record>, totals: seq<Total>, atBoot: Total, samples: seq<Sample>, clock: u64)

  const BLANK := Past([], [], Total(0, 0), [], 0)

  function Elapsed(atBoot: Total, us: u64, motorUs: u64): Total {
    Total(atBoot.uptime + us / MINUTE_US, atBoot.motor + motorUs / MINUTE_US)
  }

  predicate Records(mem: seq<u8>, past: Past) {
    && |mem| == EEPROM_SIZE && RingHolds(Contents(mem), past.log) && Numbered(past.log) && |past.log| < WORD
    && Accounted(past.log, past.totals)
  }

  predicate Sampled(c: Counters, past: Past) {
    && Increasing(past.samples) && c.motorOnUs == OnTime(past.samples) && c.motorOnUs <= past.clock
    && c.samplePrimed == (past.samples != [])
    && (past.samples != [] ==> c.lastSampleUs == past.samples[|past.samples| - 1].us <= past.clock)
  }

  predicate Continues(c: Counters, past: Past) {
    && c.lastNumber == |past.log| && c.lastSlot == (|past.log| + SLOT_COUNT - 1) % SLOT_COUNT
    && c.baselineUptime == past.atBoot.uptime % WORD && c.baselineMotor == past.atBoot.motor % WORD
    && past.atBoot.motor <= past.atBoot.uptime && |past.log| == |past.totals|
    && (past.log != [] ==> Grows(past.totals[|past.log| - 1], Elapsed(past.atBoot, past.clock, c.motorOnUs)))
  }

  /** The counters go with the past. */
  predicate Running(c: Counters, past: Past) {
    Sampled(c, past) && Continues(c, past)
  }

  // Boot

  function Rebooted(past: Past): Past {
    Past(past.log, past.totals, if past.totals == [] then Total(0, 0) else past.totals[|past.totals| - 1], [], 0)
  }

  function Restored(slot: int, r: Record, lastSampleUs: u64): Counters {
    if slot < 0 then Counters(0, 0, 0, SLOT_COUNT - 1, 0, lastSampleUs, false)
    else Counters(r.uptime, r.motor, r.number, slot, 0, lastSampleUs, false)
  }

  lemma MemorySize(mem: seq<u8>, past: Past)
    requires Records(mem, past)
    ensures |mem| == EEPROM_SIZE
  {
  }

  lemma RegionRead(mem: seq<u8>, region: seq<u8>)
    requires |mem| == EEPROM_SIZE && region == mem[REGION_ADDR..REGION_ADDR + REGION_SIZE]
    ensures region == Region(mem)
  {
  }

  lemma BootRestores(mem: seq<u8>, region: seq<u8>, past: Past, slot: int, r: Record)
    requires Records(mem, past) && region == Region(mem) && NewestAmong(region, Slots(region), slot, r)
    ensures Records(mem, Rebooted(past))
    ensures if past.log == [] then slot == -1
            else slot == (|past.log| - 1) % SLOT_COUNT && r == past.log[|past.log| - 1]
  {
    NewestChosen(mem, slot, r);
    BootFindsLast(Contents(mem), past.log, slot, r);
  }

  lemma BootContinues(mem: seq<u8>, past: Past, slot: int, r: Record, lastSampleUs: u64)
    requires Records(mem, past)
    requires if past.log == [] then slot == -1
            else slot == (|past.log| - 1) % SLOT_COUNT && r == past.log[|past.log| - 1]
    ensures Running(Restored(slot, r, lastSampleUs), Rebooted(past))
  {
  }

  // Persist

  /** The record a persist at this time writes. */
  function Next(past: Past, us: u64, motorUs: u64): Record
    requires |past.log| + 1 < WORD
  {
    var t := Elapsed(past.atBoot, us, motorUs);
    Record(|past.log| + 1, t.uptime % WORD, t.motor % WORD)
  }

  function Persisted(past: Past, us: u64, motorUs: u64): Past
    requires |past.log| + 1 < WORD
  {
    past.(log := past.log + [Next(past, us, motorUs)],
          totals := past.totals + [Elapsed(past.atBoot, us, motorUs)], clock := us)
  }

  /** The counters lead to the right record in the right slot. */
  lemma NextComputed(c: Counters, past: Past, us: u64)
    requires Running(c, past) && |past.log| + 1 < WORD
    ensures Next(past, us, c.motorOnUs) ==
            Record((c.lastNumber + 1) % WORD, Minutes(c.baselineUptime, us), Minutes(c.baselineMotor, c.motorOnUs))
    ensures (c.lastSlot + 1) % SLOT_COUNT == |past.log| % SLOT_COUNT
  {
    MinutesExact(past.atBoot.uptime, us);
    MinutesExact(past.atBoot.motor, c.motorOnUs);
  }

  /** The next record has the next number, and the totals at boot with the whole minutes since added, modulo 2^32. */
  lemma NextExactly(past: Past, us: u64, motorUs: u64, minutes: nat, motorMinutes: nat)
    requires |past.log| + 1 < WORD
    requires minutes * 60_000_000 <= us < (minutes + 1) * 60_000_000
    requires motorMinutes * 60_000_000 <= motorUs < (motorMinutes + 1) * 60_000_000
    ensures Next(past, us, motorUs) ==
            Record(|past.log| + 1, (past.atBoot.uptime + minutes) % WORD, (past.atBoot.motor + motorMinutes) % WORD)
  {
    WholeMinutes(us, minutes);
    WholeMinutes(motorUs, motorMinutes);
  }

  lemma WholeMinutes(us: nat, minutes: nat)
    requires minutes * 60_000_000 <= us < (minutes + 1) * 60_000_000
    ensures us / MINUTE_US == minutes
  {
  }

  lemma ElapsedGrows(a: Total, us: u64, later: u64, motorUs: u64, motorLater: u64)
    requires us <= later && motorUs <= motorLater
    ensures Grows(Elapsed(a, us, motorUs), Elapsed(a, later, motorLater))
    ensures a.motor <= a.uptime && motorUs <= us ==>
              Elapsed(a, us, motorUs).motor <= Elapsed(a, us, motorUs).uptime
  {
    assert us / MINUTE_US <= later / MINUTE_US && motorUs / MINUTE_US <= motorLater / MINUTE_US;
    assert motorUs <= us ==> motorUs / MINUTE_US <= us / MINUTE_US;
  }

  lemma PersistRecorded(mem: seq<u8>, c: Counters, past: Past, us: u64, slot: nat, bytes: seq<u8>)
    requires Records(mem, past) && Running(c, past) && us >= past.clock && |past.log| + 1 < WORD
    requires slot == |past.log| % SLOT_COUNT && |bytes| == SLOT_SIZE
    requires Held(bytes) == Some(Next(past, us, c.motorOnUs))
    ensures Records(Overwritten(mem, REGION_ADDR + SLOT_SIZE * slot, bytes), Persisted(past, us, c.motorOnUs))
  {
    var r, t := Next(past, us, c.motorOnUs), Elapsed(past.atBoot, us, c.motorOnUs);
    ContentsWritten(mem, slot, bytes);
    RingAdvances(Contents(mem), past.log, r);
    ElapsedGrows(past.atBoot, past.clock, us, c.motorOnUs, c.motorOnUs);
    ElapsedGrows(past.atBoot, us, us, c.motorOnUs, c.motorOnUs);
    AccountedGrows(past.log, past.totals, r, t);
  }

  lemma PersistContinues(c: Counters, past: Past, us: u64)
    requires Running(c, past) && us >= past.clock && |past.log| + 1 < WORD
    ensures Running(c.(lastNumber := |past.log| + 1, lastSlot := |past.log| % SLOT_COUNT),
                    Persisted(past, us, c.motorOnUs))
  {
    assert (|past.log| + 1 + SLOT_COUNT - 1) % SLOT_COUNT == |past.log| % SLOT_COUNT;
  }

  /** A slot left invalid, or as it was, leaves the past as it was. */
  lemma TornKept(mem: seq<u8>, past: Past, slot: nat, torn: seq<u8>)
    requires Records(mem, past) && |torn| == SLOT_SIZE && slot == |past.log| % SLOT_COUNT
    requires Held(torn) == None || Held(torn) == Held(Slot(mem, slot))
    ensures Records(Overwritten(mem, REGION_ADDR + SLOT_SIZE * slot, torn), past)
  {
    ContentsWritten(mem, slot, torn);
    if Held(torn) == None {
      RingSurvives(Contents(mem), past.log);
    } else {
      assert Contents(mem)[slot := Held(torn)] == Contents(mem);
    }
  }

  /** What the next slot still holds is not the next record. */
  lemma OldRecord(mem: seq<u8>, past: Past)
    requires Records(mem, past)
    ensures var held := Held(Slot(mem, |past.log| % SLOT_COUNT));
            held.Some? ==> held.value.number <= |past.log|
  {
    var j := |past.log| % SLOT_COUNT;
    if Contents(mem)[j].Some? {
      SlotFromLog(Contents(mem), past.log, j);
    }
  }

  // Samples

  function Watched(past: Past, s: Sample): Past {
    past.(samples := past.samples + [s], clock := s.us)
  }

  lemma SampleContinues(mem: seq<u8>, c: Counters, past: Past, s: Sample, onUs: u64)
    requires Running(c, past) && s.us >= past.clock
    requires onUs == c.motorOnUs + if c.samplePrimed && s.volts > MOTOR_ON_VOLTAGE then s.us - c.lastSampleUs else 0
    ensures Running(c.(motorOnUs := onUs, lastSampleUs := s.us, samplePrimed := true), Watched(past, s))
    ensures Records(mem, past) ==> Records(mem, Watched(past, s))
  {
    SampleWatched(c, past, s, onUs);
    ElapsedGrows(past.atBoot, past.clock, s.us, c.motorOnUs, onUs);
  }

  lemma SampleWatched(c: Counters, past: Past, s: Sample, onUs: u64)
    requires Sampled(c, past) && s.us >= past.clock
    requires onUs == c.motorOnUs + if c.samplePrimed && s.volts > MOTOR_ON_VOLTAGE then s.us - c.lastSampleUs else 0
    ensures Sampled(c.(motorOnUs := onUs, lastSampleUs := s.us, samplePrimed := true), Watched(past, s))
  {
    var samples := past.samples + [s];
    assert samples[..|past.samples|] == past.samples;
    OnTimeBound(samples);
  }

  lemma NoWrap(x: int)
    requires 0 <= x < 0x1_0000_0000_0000_0000
    ensures x % 0x1_0000_0000_0000_0000 == x
  {
  }

  lemma OnTimeFits(c: Counters, past: Past, s: Sample)
    requires Running(c, past) && s.us >= past.clock
    ensures c.samplePrimed ==> c.lastSampleUs <= s.us && c.motorOnUs + s.us - c.lastSampleUs <= s.us
  {
    if past.samples != [] {
      OnTimeBound(past.samples);
    }
  }

  /** The board: its EEPROM, which outlives a reboot, and the counters. */
  class Board {
    var eeprom: seq<u8>

    var baselineUptime: u32
    var baselineMotor: u32
    var lastNumber: u32
    var lastSlot: nat
    var motorOnUs: u64
    var lastSampleUs: u64
    var samplePrimed: bool

    ghost var past: Past

    ghost function Now(): Counters
      reads this
    {
      Counters(baselineUptime, baselineMotor, lastNumber, lastSlot, motorOnUs, lastSampleUs, samplePrimed)
    }

    /** The EEPROM holds what was persisted, whatever the counters say. */
    ghost predicate Stored()
      reads this
    {
      Records(eeprom, past)
    }

    ghost predicate Valid()
      reads this
    {
      Stored() && Running(Now(), past)
    }

    /** A board whose region has never been written. */
    constructor (memory: seq<u8>)
      requires |memory| == EEPROM_SIZE && forall i | REGION_ADDR <= i < EEPROM_SIZE :: memory[i] == 0xFF
      ensures Stored() && past == BLANK && eeprom == memory
    {
      eeprom := memory;
      past := BLANK;
      new;
      BlankRing(memory);
    }

    /** eeprom_write: no single write cycle crosses a page boundary. */
    method EepromWrite(addr: nat, data: seq<u8>)
      requires |eeprom| == EEPROM_SIZE && addr + |data| <= EEPROM_SIZE
      modifies `eeprom
      ensures eeprom == Overwritten(old(eeprom), addr, data)
    {
      var at, done := addr, 0;
      while done < |data|
        invariant done <= |data| && at == addr + done && |eeprom| == EEPROM_SIZE
        invariant eeprom == Overwritten(old(eeprom), addr, data[..done])
      {
        var pageRemaining := PAGE_SIZE - at % PAGE_SIZE;
        var left := |data| - done;
        var size := if left < pageRemaining then left else pageRemaining;
        PageStep(old(eeprom), eeprom, addr, data, done, size);
        eeprom := PageWritten(eeprom, at, data[done..done + size]);
        at, done := at + size, done + size;
      }
      assert data[..|data|] == data;
    }

    /** eeprom_read. */
    method EepromRead(addr: nat, size: nat) returns (data: seq<u8>)
      requires |eeprom| == EEPROM_SIZE && addr + size <= EEPROM_SIZE
      ensures data == eeprom[addr..addr + size]
    {
      data := [];
      var at := addr;
      while |data| < size
        invariant |data| <= size && at == addr + |data| && data == eeprom[addr..at]
      {
        var left := size - |data|;
        var n := if left > PAGE_SIZE then PAGE_SIZE else left;
        data, at := data + eeprom[at..at + n], at + n;
      }
    }

    /** The newest record in the region. */
    method ReadNewest() returns (slot: int, r: Record)
      requires Stored()
      ensures var log := past.log;
              if log == [] then slot == -1 else slot == (|log| - 1) % SLOT_COUNT && r == log[|log| - 1]
      ensures Records(eeprom, Rebooted(past))
    {
      MemorySize(eeprom, past);
      var region := EepromRead(REGION_ADDR, REGION_SIZE);
      RegionRead(eeprom, region);
      slot, r := SelectSlot(region);
      BootRestores(eeprom, region, past, slot, r);
    }

    /** eeprom_hours_init: whatever happened before, boot takes up where the last persisted record left off. */
    method Boot()
      requires Stored()
      modifies this
      ensures Valid() && eeprom == old(eeprom) && past == Rebooted(old(past))
      ensures past.log == [] ==> lastNumber == 0 && baselineUptime == 0 && baselineMotor == 0
      ensures past.log != [] ==> Record(lastNumber, baselineUptime, baselineMotor) == past.log[|past.log| - 1]
    {
      var slot, r := ReadNewest();
      BootContinues(eeprom, past, slot, r, lastSampleUs);
      if slot < 0 {
        baselineUptime, baselineMotor, lastNumber, lastSlot := 0, 0, 0, SLOT_COUNT - 1;
      } else {
        baselineUptime, baselineMotor, lastNumber, lastSlot := r.uptime, r.motor, r.number, slot;
      }
      motorOnUs, samplePrimed := 0, false;
      past := Rebooted(past);
    }

    function UptimeMinutes(us: u64): u32
      reads this
    {
      Minutes(baselineUptime, us)
    }

    function MotorMinutes(): u32
      reads this
    {
      Minutes(baselineMotor, motorOnUs)
    }

    /** The part of eeprom_hours_persist before the write. */
    method PrepareRecord(us: u64) returns (slot: nat, number: u32, bytes: seq<u8>)
      requires Valid() && |past.log| + 1 < WORD
      ensures slot == |past.log| % SLOT_COUNT && number == |past.log| + 1
      ensures |bytes| == SLOT_SIZE && Held(bytes) == Some(Next(past, us, motorOnUs))
    {
      NextComputed(Now(), past, us);
      number := (lastNumber + 1) % WORD;
      slot := (lastSlot + 1) % SLOT_COUNT;
      bytes := Serialize(Record(number, UptimeMinutes(us), MotorMinutes()));
    }

    /** The write of eeprom_hours_persist. */
    method StoreRecord(us: u64, slot: nat, bytes: seq<u8>)
      requires Valid() && us >= past.clock && |past.log| + 1 < WORD && slot == |past.log| % SLOT_COUNT
      requires |bytes| == SLOT_SIZE && Held(bytes) == Some(Next(past, us, motorOnUs))
      modifies `eeprom
      ensures Records(eeprom, Persisted(past, us, motorOnUs))
    {
      MemorySize(eeprom, past);
      PersistRecorded(eeprom, Now(), past, us, slot, bytes);
      EepromWrite(REGION_ADDR + SLOT_SIZE * slot, bytes);
    }

    /** eeprom_hours_persist. */
    method Persist(us: u64)
      requires Valid() && us >= past.clock && |past.log| + 1 < WORD
      modifies this
      ensures Valid() && past == Persisted(old(past), us, old(motorOnUs))
    {
      var slot, number, bytes := PrepareRecord(us);
      StoreRecord(us, slot, bytes);
      PersistContinues(Now(), past, us);
      past := Persisted(past, us, motorOnUs);
      lastNumber, lastSlot := number, slot;
    }

    /**
     The power fails during a persist, whatever bytes that leaves in the slot. Left invalid, or as it was, the slot
     leaves the past as it was; left with the whole record, it has been persisted.
     */
    method TornPersist(us: u64, torn: seq<u8>)
      requires Valid() && us >= past.clock && |past.log| + 1 < WORD && |torn| == SLOT_SIZE
      modifies this
      ensures eeprom == Overwritten(old(eeprom), REGION_ADDR + SLOT_SIZE * (|old(past).log| % SLOT_COUNT), torn)
      ensures var whole := Held(torn) == Some(Next(old(past), us, old(motorOnUs)));
              && past == (if whole then Persisted(old(past), us, old(motorOnUs)) else old(past))
              && ((whole || Held(torn) == None || Held(torn) == old(Held(Slot(eeprom, |past.log| % SLOT_COUNT))))
                  ==> Stored())
    {
      var slot, _, _ := PrepareRecord(us);
      ghost var whole := Held(torn) == Some(Next(past, us, motorOnUs));
      if whole {
        PersistRecorded(eeprom, Now(), past, us, slot, torn);
      } else if Held(torn) == None || Held(torn) == Held(Slot(eeprom, slot)) {
        TornKept(eeprom, past, slot, torn);
      }
      eeprom := Overwritten(eeprom, REGION_ADDR + SLOT_SIZE * slot, torn);
      past := if whole then Persisted(past, us, motorOnUs) else past;
    }

    /**
     The power fails when k bytes of a persist have reached the slot. Nothing is lost but the new record, unless the
     bytes that reached the slot happen to make a valid one with those that were there: over a valid record, exactly
     when the two have the same CRC after k bytes.
     */
    method CutPersist(us: u64, k: nat) returns (bytes: seq<u8>)
      requires Valid() && us >= past.clock && |past.log| + 1 < WORD && k <= SLOT_SIZE
      modifies this
      ensures |bytes| == SLOT_SIZE && Held(bytes) == Some(Next(old(past), us, old(motorOnUs)))
      ensures var before := old(Slot(eeprom, |past.log| % SLOT_COUNT));
              && (k == SLOT_SIZE ==> Stored() && past == Persisted(old(past), us, old(motorOnUs)))
              && (k == 0 ==> Stored() && past == old(past))
              && (Held(CutShort(before, bytes, k)) == None ==> Stored() && past == old(past))
              && (Held(before).Some? ==>
                    (Held(CutShort(before, bytes, k)) == None <==>
                     Serial(HOURS_POLY, CRC_INIT, bytes[..k]) != Serial(HOURS_POLY, CRC_INIT, before[..k])))
    {
      var slot, _, whole := PrepareRecord(us);
      bytes := whole;
      var before := Slot(eeprom, slot);
      OldRecord(eeprom, past);
      if Held(before).Some? {
        CutShortExactly(before, bytes, k);
      }
      assert CutShort(before, bytes, 0) == before && CutShort(before, bytes, SLOT_SIZE) == bytes;
      TornPersist(us, CutShort(before, bytes, k));
    }

    /** eeprom_hours_motor_sample. */
    method MotorSample(us: u64, volts: real)
      requires Valid() && us >= past.clock
      modifies this
      ensures Valid() && past == Watched(old(past), Sample(us, volts)) && eeprom == old(eeprom)
    {
      ghost var before, sample := Now(), Sample(us, volts);
      OnTimeFits(before, past, sample);
      if !samplePrimed {
        lastSampleUs, samplePrimed := us, true;
      } else {
        var delta: int := us - lastSampleUs;
        lastSampleUs := us;
        if delta > 0 && volts > MOTOR_ON_VOLTAGE {
          NoWrap(motorOnUs + delta);
          motorOnUs := (motorOnUs + delta) % 0x1_0000_0000_0000_0000;
        }
      }
      assert Now() == before.(motorOnUs := motorOnUs, lastSampleUs := us, samplePrimed := true);
      SampleContinues(eeprom, before, past, sample, motorOnUs);
      past := Watched(past, sample);
    }
  }

  // ---- Whole runs ----

  /** How far a write gets before the power fails: not begun, cut short so that the slot is invalid, or done. */
  datatype Written = Unwritten | Spoilt(bytes: seq<u8>) | Whole

  /** What may happen to a board: time passes before each. */
  datatype Happening =
    | Persists
    | PowerFails(written: Written)
    | Reboots
    | Samples(volts: real)

  predicate Plausible(h: Happening) {
    h.PowerFails? && h.written.Spoilt? ==> |h.written.bytes| == SLOT_SIZE && Held(h.written.bytes) == None
  }

  predicate Restarts(h: Happening) {
    h.PowerFails? || h.Reboots?
  }

  predicate AddsRecord(h: Happening) {
    h.Persists? || h == PowerFails(Whole)
  }

  /** The board's clock after these happenings: it never runs backwards, and starts again when the board does. */
  function Clock(happenings: seq<(u64, Happening)>): u64
    decreases |happenings|, 1
  {
    if happenings == [] || Restarts(happenings[|happenings| - 1].1) then 0 else Time(happenings)
  }

  /** The time on that clock of the last of these happenings. */
  function Time(happenings: seq<(u64, Happening)>): u64
    requires happenings != []
    decreases |happenings|, 0
  {
    var n := |happenings| - 1;
    var before := Clock(happenings[..n]);
    if happenings[n].0 < before then before else happenings[n].0
  }

  /** How many records have been persisted. */
  function RecordCount(happenings: seq<(u64, Happening)>): nat {
    if happenings == [] then 0
    else
      var n := |happenings| - 1;
      RecordCount(happenings[..n]) + if AddsRecord(happenings[n].1) then 1 else 0
  }

  /** What becomes of a past. */
  predicate Becomes(past: Past, us: u64, h: Happening, next: Past) {
    if AddsRecord(h) then
      && |past.log| + 1 < WORD && 0 <= OnTime(past.samples) < 0x1_0000_0000_0000_0000
      && var persisted := Persisted(past, us, OnTime(past.samples));
         next == if h.Persists? then persisted else Rebooted(persisted)
    else if h.Samples? then next == Watched(past, Sample(us, h.volts))
    else next == Rebooted(past)
  }

  /** The past of a board is what its happenings, one after another, have made of a blank one. */
  predicate IsPast(happenings: seq<(u64, Happening)>, pasts: seq<Past>) {
    && |pasts| == |happenings| + 1 && pasts[0] == BLANK
    && forall i | 0 <= i < |happenings| ::
         Becomes(pasts[i], Time(happenings[..i + 1]), happenings[i].1, pasts[i + 1])
  }

  lemma PastLonger(happenings: seq<(u64, Happening)>, n: nat, pasts: seq<Past>, next: Past)
    requires n < |happenings| && IsPast(happenings[..n], pasts)
    requires Becomes(pasts[n], Time(happenings[..n + 1]), happenings[n].1, next)
    ensures IsPast(happenings[..n + 1], pasts + [next])
  {
    var longer, later := happenings[..n + 1], pasts + [next];
    forall i | 0 <= i < n + 1
      ensures Becomes(later[i], Time(longer[..i + 1]), longer[i].1, later[i + 1])
    {
      if i < n {
        assert happenings[..n][..i + 1] == longer[..i + 1];
        assert Becomes(pasts[i], Time(happenings[..n][..i + 1]), happenings[..n][i].1, pasts[i + 1]);
      } else {
        assert longer[..i + 1] == longer;
      }
    }
  }

  /** As many records as have been persisted. */
  lemma {:induction false} RecordsCounted(happenings: seq<(u64, Happening)>, pasts: seq<Past>, n: nat)
    requires IsPast(happenings, pasts) && n <= |happenings|
    ensures |pasts[n].log| == RecordCount(happenings[..n])
    decreases n
  {
    if n > 0 {
      RecordsCounted(happenings, pasts, n - 1);
      assert happenings[..n][..n - 1] == happenings[..n - 1];
      assert Becomes(pasts[n - 1], Time(happenings[..n - 1 + 1]), happenings[n - 1].1, pasts[n - 1 + 1]);
    }
  }

  lemma ClockRuns(happenings: seq<(u64, Happening)>, n: nat)
    requires n < |happenings|
    ensures var now, next := Clock(happenings[..n]), happenings[n];
            && Time(happenings[..n + 1]) == (if next.0 < now then now else next.0)
            && Clock(happenings[..n + 1]) == if Restarts(next.1) then 0 else Time(happenings[..n + 1])
  {
    assert happenings[..n + 1][..n] == happenings[..n];
  }

  /** The bytes that a write cut short leaves behind. */
  method Leftover(b: Board, us: u64, written: Written) returns (torn: seq<u8>)
    requires b.Valid() && |b.past.log| + 1 < WORD && Plausible(PowerFails(written))
    ensures |torn| == SLOT_SIZE
    ensures written.Whole? <==> Held(torn) == Some(Next(b.past, us, b.motorOnUs))
    ensures !written.Whole? ==> Held(torn) == None || Held(torn) == Held(Slot(b.eeprom, |b.past.log| % SLOT_COUNT))
  {
    var slot, _, bytes := b.PrepareRecord(us);
    OldRecord(b.eeprom, b.past);
    match written
    case Unwritten => torn := Slot(b.eeprom, slot);
    case Spoilt(spoilt) => torn := spoilt;
    case Whole => torn := bytes;
  }

  /** One thing that happens to a board. */
  method HappenTo(b: Board, us: u64, h: Happening)
    requires b.Valid() && us >= b.past.clock && |b.past.log| + 1 < WORD && Plausible(h)
    modifies b
    ensures b.Valid() && Becomes(old(b.past), us, h, b.past)
    ensures b.past.clock == if Restarts(h) then 0 else us
  {
    match h
    case Persists => b.Persist(us);
    case PowerFails(written) =>
      var torn := Leftover(b, us, written);
      b.TornPersist(us, torn);
      b.Boot();
    case Reboots => b.Boot();
    case Samples(volts) => b.MotorSample(us, volts);
  }

  /** The happening numbered i of a run. */
  method Proceed(b: Board, happenings: seq<(u64, Happening)>, i: nat, now: u64, ghost pasts: seq<Past>)
    returns (later: u64, ghost longer: seq<Past>)
    requires i < |happenings| && |happenings| + 1 < WORD && Plausible(happenings[i].1)
    requires b.Valid() && |b.past.log| <= i && b.past.clock <= now == Clock(happenings[..i])
    requires IsPast(happenings[..i], pasts) && b.past == pasts[i]
    modifies b
    ensures b.Valid() && |b.past.log| <= i + 1 && b.past.clock <= later == Clock(happenings[..i + 1])
    ensures IsPast(happenings[..i + 1], longer) && b.past == longer[i + 1]
  {
    var us := if happenings[i].0 < now then now else happenings[i].0;
    ClockRuns(happenings, i);
    HappenTo(b, us, happenings[i].1);
    PastLonger(happenings, i, pasts, b.past);
    longer := pasts + [b.past];
    later := if Restarts(happenings[i].1) then 0 else us;
  }

  /**
   Any run from a blank region, with reboots and power failures anywhere: the ring holds the records persisted, in
   order, as many as were, and the counters carry on from the last of them.
   */
  method Run(memory: seq<u8>, happenings: seq<(u64, Happening)>) returns (b: Board, ghost pasts: seq<Past>)
    requires |memory| == EEPROM_SIZE && forall i | REGION_ADDR <= i < EEPROM_SIZE :: memory[i] == 0xFF
    requires |happenings| + 1 < WORD && forall i | 0 <= i < |happenings| :: Plausible(happenings[i].1)
    ensures IsPast(happenings, pasts) && b.past == pasts[|happenings|]
    ensures |b.past.log| == RecordCount(happenings)
    ensures Records(b.eeprom, b.past) && Sampled(b.Now(), b.past) && Continues(b.Now(), b.past)
  {
    b := new Board(memory);
    b.Boot();
    pasts := [b.past];
    var now: u64 := 0;
    assert happenings[..0] == [];
    for i := 0 to |happenings|
      invariant b.Valid() && fresh(b) && |b.past.log| <= i && b.past.clock <= now == Clock(happenings[..i])
      invariant IsPast(happenings[..i], pasts) && b.past == pasts[i]
    {
      now, pasts := Proceed(b, happenings, i, now, pasts);
    }
    assert happenings[..|happenings|] == happenings;
    RecordsCounted(happenings, pasts, |happenings|);
  }
}
