/** From RTP and NTP timestamps to nanoseconds of wall-clock time, and when to hand audio to the device. */
module RtcpTiming {
  import opened Bytes
  import opened Division
  import opened Options

  type i16 = x: int | -0x8000 <= x < 0x8000
  type i32 = x: int | -0x8000_0000 <= x < 0x8000_0000
  type i64 = x: int | -0x8000_0000_0000_0000 <= x < 0x8000_0000_0000_0000

  const SAMPLE_RATE := 48_000
  const FRAME_MS := 10
  const FRAMES_PER_CHUNK := 480
  const TARGET_PLAYOUT_FRAMES := 2
  const ENQUEUE_HEADROOM_MS := 5
  const NS_PER_SECOND := 1_000_000_000
  const NS_PER_MS := 1_000_000
  const NTP_UNIX_EPOCH_OFFSET := 2_208_988_800
  const WORD := 0x1_0000_0000
  const HALF := 0x8000_0000

  // ---- Timestamps ----

  /** signedRtpTimestampDifference. */
  function SignedDifference(timestamp: u32, reference: u32): i32 {
    var difference := (timestamp - reference) % WORD;
    if difference <= 0x7FFF_FFFF then difference else difference - WORD
  }

  /** samplesToDuration; every intermediate value fits 64 bits. */
  function SamplesToDuration(samples: i32): i64 {
    var product: i64 := samples * NS_PER_SECOND;
    Truncated(product, SAMPLE_RATE)
  }

  /** ntpToSystemTime; every intermediate value fits 64 bits. */
  function NtpToSystemTime(ntp: u64): Option<i64> {
    var unixSeconds: i64 := ntp / WORD - NTP_UNIX_EPOCH_OFFSET;
    var fraction: u64 := ntp % WORD * NS_PER_SECOND;
    var whole: i64 := unixSeconds * NS_PER_SECOND;
    var converted: i64 := whole + fraction / WORD;
    if converted < -0x8000_0000_0000_0000 || converted > 0x7FFF_FFFF_FFFF_FFFF then None else Some(converted)
  }

  /** What these functions look at of a sender report. */
  datatype Report = Report(ntp: u64, rtp: u32, name: string)

  /** rtpSystemTime. */
  function RtpSystemTime(report: Report, timestamp: u32): Option<i64> {
    match NtpToSystemTime(report.ntp)
    case None => None
    case Some(time) =>
      NtpBounds(report.ntp);
      DurationBounds(SignedDifference(timestamp, report.rtp));
      Some(time + SamplesToDuration(SignedDifference(timestamp, report.rtp)))
  }

  // ---- What the conversions mean ----

  /** The time of an NTP timestamp is its exact value in nanoseconds, rounded down, whatever the timestamp. */
  lemma NtpIsFloor(ntp: u64)
    ensures NtpToSystemTime(ntp) ==
            Some(ntp * NS_PER_SECOND / WORD - NTP_UNIX_EPOCH_OFFSET * NS_PER_SECOND)
  {
    var s, f := ntp / WORD, ntp % WORD;
    assert ntp * NS_PER_SECOND == (s * NS_PER_SECOND) * WORD + f * NS_PER_SECOND;
    DivideShifted(s * NS_PER_SECOND, f * NS_PER_SECOND);
  }

  lemma DivideShifted(a: int, b: int)
    ensures (a * WORD + b) / WORD == a + b / WORD
  {
  }

  lemma NtpBounds(ntp: u64)
    ensures NtpToSystemTime(ntp).Some?
    ensures -2_208_988_800_000_000_000 <= NtpToSystemTime(ntp).value < 2_085_978_496_000_000_000
  {
  }

  lemma DurationBounds(samples: i32)
    ensures -44_739_242_666_667 <= SamplesToDuration(samples) <= 44_739_242_666_667
  {
  }

  lemma FloorMonotone(a: int, b: int)
    requires a <= b
    ensures a / WORD <= b / WORD && a / SAMPLE_RATE <= b / SAMPLE_RATE
  {
  }

  lemma NtpMonotone(a: u64, b: u64)
    requires a <= b
    ensures NtpToSystemTime(a).value <= NtpToSystemTime(b).value
  {
    NtpIsFloor(a);
    NtpIsFloor(b);
    FloorMonotone(a * NS_PER_SECOND, b * NS_PER_SECOND);
  }

  /** The media time depends only on how far the timestamp is from the report's, modulo 2^32. */
  lemma OnlyDifferenceMatters(report: Report, timestamp: u32, shift: u32)
    ensures RtpSystemTime(report.(rtp := (report.rtp + shift) % WORD), (timestamp + shift) % WORD) ==
            RtpSystemTime(report, timestamp)
  {
    ShiftCancels(timestamp, report.rtp, shift);
  }

  lemma Wrapped(x: int)
    requires -WORD <= x < 2 * WORD
    ensures x % WORD == if x < 0 then x + WORD else if x < WORD then x else x - WORD
  {
  }

  lemma ShiftCancels(a: u32, b: u32, shift: u32)
    ensures ((a + shift) % WORD - (b + shift) % WORD) % WORD == (a - b) % WORD
  {
    Wrapped(a + shift);
    Wrapped(b + shift);
    Wrapped(a - b);
    Wrapped((a + shift) % WORD - (b + shift) % WORD);
  }

  /** A duration is s * 62500 / 3 nanoseconds, rounded towards zero. */
  lemma DurationInThirds(samples: i32)
    ensures SamplesToDuration(samples) == Truncated(samples * 62_500, 3)
  {
    assert samples * NS_PER_SECOND == 16_000 * (samples * 62_500);
    var a := samples as int * 62_500;
    ScaledDivision(if a >= 0 then a else -a);
  }

  lemma ScaledDivision(a: nat)
    ensures (16_000 * a) / 48_000 == a / 3
  {
  }

  lemma DurationMonotone(a: i32, b: i32)
    requires a < b
    ensures SamplesToDuration(a) < SamplesToDuration(b)
  {
    DurationInThirds(a);
    DurationInThirds(b);
  }

  /** Media time grows strictly with the signed difference. */
  lemma MediaTimeMonotone(report: Report, a: u32, b: u32)
    ensures RtpSystemTime(report, a).Some? && RtpSystemTime(report, b).Some?
    ensures SignedDifference(a, report.rtp) < SignedDifference(b, report.rtp) <==>
            RtpSystemTime(report, a).value < RtpSystemTime(report, b).value
  {
    NtpBounds(report.ntp);
    var da, db := SignedDifference(a, report.rtp), SignedDifference(b, report.rtp);
    if da < db {
      DurationMonotone(da, db);
    } else if db < da {
      DurationMonotone(db, da);
    }
  }

  /** A timestamp k samples after another, or before it, is that far from it, on either side of the wrap. */
  lemma DifferenceCounts(reference: u32, k: nat)
    ensures k < HALF ==> SignedDifference((reference + k) % WORD, reference) == k
    ensures 1 <= k <= HALF ==> SignedDifference((reference - k) % WORD, reference) == -(k as int)
  {
    if k <= HALF {
      Wrapped(reference + k);
      Wrapped((reference + k) % WORD - reference);
      Wrapped(reference - k);
      Wrapped((reference - k) % WORD - reference);
    }
  }

  /**
   The report's own timestamp is presented at the time it gives, and a timestamp samples away from it that many
   sample times later or earlier, to within a nanosecond.
   */
  lemma MediaTimeExact(report: Report, samples: i32)
    ensures var media, own := RtpSystemTime(report, (report.rtp + samples) % WORD), NtpToSystemTime(report.ntp);
            && media.Some? && own.Some?
            && (samples >= 0 ==> 0 <= samples * 62_500 - 3 * (media.value - own.value) < 3)
            && (samples <= 0 ==> 0 <= 3 * (media.value - own.value) - samples * 62_500 < 3)
  {
    NtpBounds(report.ntp);
    DifferenceCounts(report.rtp, if samples >= 0 then samples else -(samples as int));
    DurationInThirds(samples);
  }

  lemma ThirdsApart(s: int)
    ensures Truncated((s + 480) * 62_500, 3) - Truncated(s * 62_500, 3) ==
            if s < 0 <= s + 480 && s % 3 != 0 then 9_999_999 else 10_000_000
  {
    var a := s * 62_500;
    assert (s + 480) * 62_500 == a + 30_000_000;
    assert a % 3 == s % 3 by {
      assert a == 3 * (s * 20_833) + s;
    }
    TruncatedApart(a);
  }

  lemma TruncatedApart(a: int)
    ensures Truncated(a + 30_000_000, 3) - Truncated(a, 3) ==
            if a < 0 <= a + 30_000_000 && a % 3 != 0 then 9_999_999 else 10_000_000
  {
  }

  /** When adding a frame's worth of samples takes the signed difference past its range, and what it does otherwise. */
  lemma NextFrameDifference(timestamp: u32, reference: u32)
    ensures var d, e := SignedDifference(timestamp, reference),
                        SignedDifference((timestamp + FRAMES_PER_CHUNK) % WORD, reference);
            e == if d + FRAMES_PER_CHUNK < HALF then d + FRAMES_PER_CHUNK else d + FRAMES_PER_CHUNK - WORD
  {
    var next := (timestamp + FRAMES_PER_CHUNK) % WORD;
    Wrapped(timestamp + FRAMES_PER_CHUNK);
    Wrapped(timestamp - reference);
    Wrapped(next - reference);
  }

  /**
   Consecutive frames are exactly 10 ms apart, except for the one that crosses the report's own timestamp, which
   is a nanosecond short when that timestamp is not a whole number of third samples away; this holds as long as
   the signed difference does not wrap, and media time moves forward only then.
   */
  lemma FrameSpacing(report: Report, timestamp: u32)
    ensures var next := (timestamp + FRAMES_PER_CHUNK) % WORD;
            var d := SignedDifference(timestamp, report.rtp);
            var step := RtpSystemTime(report, next).value - RtpSystemTime(report, timestamp).value;
            && (step > 0 <==> d + FRAMES_PER_CHUNK < HALF)
            && (step > 0 ==>
                  step == if d < 0 <= d + FRAMES_PER_CHUNK && d % 3 != 0 then 9_999_999 else 10_000_000)
  {
    var next := (timestamp + FRAMES_PER_CHUNK) % WORD;
    var d, e := SignedDifference(timestamp, report.rtp), SignedDifference(next, report.rtp);
    NextFrameDifference(timestamp, report.rtp);
    NtpBounds(report.ntp);
    DurationInThirds(d);
    DurationInThirds(e);
    if e == d + FRAMES_PER_CHUNK {
      ThirdsApart(d);
    } else {
      DurationMonotone(e, d);
    }
  }

  // ---- Comparing the clocks of two streams ----

  function Distance(a: int, b: int): nat {
    if a >= b then a - b else b - a
  }

  /** rtcpClockMappingsCompatible: do two reports of one participant agree on the time, within so many microseconds? */
  predicate Compatible(first: Report, second: Report, toleranceUs: nat) {
    && first.name != "" && first.name == second.name
    && RtpSystemTime(first, second.rtp).Some? && NtpToSystemTime(second.ntp).Some?
    && Distance(RtpSystemTime(first, second.rtp).value, NtpToSystemTime(second.ntp).value) <= 1000 * toleranceUs
  }

  lemma DifferenceAntisymmetric(a: u32, b: u32)
    ensures SignedDifference(a, b) == -(SignedDifference(b, a) as int) <==> (a - b) % WORD != HALF
  {
    assert (b - a) % WORD == if (a - b) % WORD == 0 then 0 else WORD - (a - b) % WORD;
  }

  lemma DurationOdd(a: i32, b: i32)
    requires a == -(b as int)
    ensures SamplesToDuration(a) == -(SamplesToDuration(b) as int)
  {
  }

  /** It does not matter which report comes first, unless their RTP timestamps are exactly half the range apart. */
  lemma CompatibleSymmetric(first: Report, second: Report, toleranceUs: nat)
    requires (first.rtp - second.rtp) % WORD != HALF
    ensures Compatible(first, second, toleranceUs) <==> Compatible(second, first, toleranceUs)
  {
    NtpBounds(first.ntp);
    NtpBounds(second.ntp);
    DifferenceAntisymmetric(first.rtp, second.rtp);
    DurationOdd(SignedDifference(first.rtp, second.rtp), SignedDifference(second.rtp, first.rtp));
  }

  /** At exactly half the range, the order decides whenever the distances fall on either side of the tolerance. */
  lemma CompatibleAtHalf(first: Report, second: Report, toleranceUs: nat)
    requires (first.rtp - second.rtp) % WORD == HALF && first.name == second.name && first.name != ""
    ensures var ahead := NtpToSystemTime(first.ntp).value - NtpToSystemTime(second.ntp).value;
            && (Compatible(first, second, toleranceUs) <==> Distance(ahead, 44_739_242_666_666) <= 1000 * toleranceUs)
            && (Compatible(second, first, toleranceUs) <==> Distance(-ahead, 44_739_242_666_666) <= 1000 * toleranceUs)
  {
    NtpBounds(first.ntp);
    NtpBounds(second.ntp);
    assert SignedDifference(second.rtp, first.rtp) == -HALF;
    assert SignedDifference(first.rtp, second.rtp) == -HALF;
    DurationInThirds(-HALF);
  }

  /** The tolerance that the audio client allows, in microseconds. */
  const RTCP_CLOCK_COMPATIBILITY_US := 1000

  /** Two reports for which it does matter, with that tolerance. */
  lemma OrderMatters()
    ensures var first, second := Report(44_739 * WORD + 1_042_245_391, 0, "c"), Report(0, HALF, "c");
            && Compatible(first, second, RTCP_CLOCK_COMPATIBILITY_US)
            && !Compatible(second, first, RTCP_CLOCK_COMPATIBILITY_US)
  {
    var first, second := Report(44_739 * WORD + 1_042_245_391, 0, "c"), Report(0, HALF, "c");
    NtpIsFloor(44_739 * WORD + 1_042_245_391);
    NtpIsFloor(0);
    CompatibleAtHalf(first, second, RTCP_CLOCK_COMPATIBILITY_US);
  }

  // ---- When to enqueue ----

  function Max(a: int, b: int): int {
    if a > b then a else b
  }

  /** What ConfigurationBuilder lets through. */
  predicate Accepted(delayMs: int, compensationMs: int) {
    && 20 <= delayMs <= 500 && -100 <= compensationMs <= 100
    && delayMs >= FRAME_MS + ENQUEUE_HEADROOM_MS + Max(0, compensationMs)
  }

  /** rtcpIdleQueueFrames. */
  function IdleQueueFrames(delayMs: u16, compensationMs: i16): nat {
    var available := delayMs - ENQUEUE_HEADROOM_MS - Max(0, compensationMs);
    var configured := Max(FRAME_MS, available) * SAMPLE_RATE / 1000;
    var target := TARGET_PLAYOUT_FRAMES * FRAMES_PER_CHUNK;
    if configured < target then configured else target
  }

  /** framesToDuration, with its 64-bit multiplications. */
  function FramesToDuration(frames: u64): i64 {
    var seconds: u64 := frames / SAMPLE_RATE * NS_PER_SECOND % 0x1_0000_0000_0000_0000;
    var rest: u64 := frames % SAMPLE_RATE * NS_PER_SECOND / SAMPLE_RATE;
    var nanoseconds: u64 := (seconds + rest) % 0x1_0000_0000_0000_0000;
    if nanoseconds > 0x7FFF_FFFF_FFFF_FFFF then 0x7FFF_FFFF_FFFF_FFFF else nanoseconds
  }

  /** Up to two centuries of audio, the duration is exact, rounded down. */
  lemma FramesDurationExact(frames: u64)
    requires frames / SAMPLE_RATE < 9_000_000_000
    ensures FramesToDuration(frames) == frames * NS_PER_SECOND / SAMPLE_RATE
  {
    var q, r := frames / SAMPLE_RATE, frames % SAMPLE_RATE;
    assert frames * NS_PER_SECOND == (q * NS_PER_SECOND) * SAMPLE_RATE + r * NS_PER_SECOND;
    assert ((q * NS_PER_SECOND) * SAMPLE_RATE + r * NS_PER_SECOND) / SAMPLE_RATE ==
           q * NS_PER_SECOND + r * NS_PER_SECOND / SAMPLE_RATE;
  }

  /**
   The idle queue is one to two chunks, and it leaves room in the common delay for compensation and headroom
   exactly for the configurations that are accepted.
   */
  lemma IdleQueueFits(delayMs: u16, compensationMs: i16)
    requires 20 <= delayMs <= 500 && -100 <= compensationMs <= 100
    ensures var frames := IdleQueueFrames(delayMs, compensationMs);
            && FRAMES_PER_CHUNK <= frames <= TARGET_PLAYOUT_FRAMES * FRAMES_PER_CHUNK
            && (FramesToDuration(frames) + (Max(0, compensationMs) + ENQUEUE_HEADROOM_MS) * NS_PER_MS
                  <= delayMs * NS_PER_MS
                <==> Accepted(delayMs, compensationMs))
  {
    var frames := IdleQueueFrames(delayMs, compensationMs);
    var available := Max(FRAME_MS, delayMs - ENQUEUE_HEADROOM_MS - Max(0, compensationMs));
    assert available * SAMPLE_RATE / 1000 == 48 * available;
    FramesDurationExact(frames);
    assert 48 * available * NS_PER_SECOND / SAMPLE_RATE == available * NS_PER_MS;
    FloorMonotone(frames * NS_PER_SECOND, 48 * available * NS_PER_SECOND);
    FloorMonotone(FRAMES_PER_CHUNK * NS_PER_SECOND, frames * NS_PER_SECOND);
  }

  /** Of all queues of at most two chunks it is the longest that leaves that room. */
  lemma IdleQueueLongest(delayMs: u16, compensationMs: i16, frames: nat)
    requires Accepted(delayMs, compensationMs) && frames <= TARGET_PLAYOUT_FRAMES * FRAMES_PER_CHUNK
    ensures FramesToDuration(frames) + (Max(0, compensationMs) + ENQUEUE_HEADROOM_MS) * NS_PER_MS
              <= delayMs * NS_PER_MS
            <==> frames <= IdleQueueFrames(delayMs, compensationMs)
  {
    var available := delayMs - ENQUEUE_HEADROOM_MS - Max(0, compensationMs);
    assert available * SAMPLE_RATE / 1000 == 48 * available;
    FramesDurationExact(frames);
    WithinMilliseconds(frames, available);
  }

  lemma WithinMilliseconds(frames: nat, ms: nat)
    ensures frames * NS_PER_SECOND / SAMPLE_RATE <= ms * NS_PER_MS <==> frames <= 48 * ms
  {
    assert 48 * ms * NS_PER_SECOND == ms * NS_PER_MS * SAMPLE_RATE;
  }

  /** The two clocks, read together. */
  datatype ClockPair = ClockPair(system: int, steady: int)

  datatype Plan = Plan(media: int, presentation: int, enqueue: int)

  datatype EnqueueState = Wait | Ready | Missed

  /** RtcpPlayoutPlanner::plan. */
  function PlanPlayout(clocks: ClockPair, delayMs: u16, compensationMs: i16, report: Report, timestamp: u32,
                       queued: u64): Option<Plan>
  {
    match RtpSystemTime(report, timestamp)
    case None => None
    case Some(media) =>
      var presentation := clocks.steady + (media + delayMs * NS_PER_MS - clocks.system);
      Some(Plan(media, presentation, presentation - FramesToDuration(queued) - compensationMs * NS_PER_MS))
  }

  /** classifyRtcpEnqueue. */
  function Classify(plan: Plan, now: int, lateToleranceUs: nat): EnqueueState {
    if now < plan.enqueue then Wait
    else if now - plan.enqueue > 1000 * lateToleranceUs then Missed
    else Ready
  }

  /** A frame waits up to its enqueue deadline, is ready from then on, and is missed once the tolerance has passed. */
  lemma ClassifyTurns(plan: Plan, late: int, lateToleranceUs: nat)
    ensures var state := Classify(plan, plan.enqueue + late, lateToleranceUs);
            && (state == Wait <==> late < 0)
            && (state == Ready <==> 0 <= late <= lateToleranceUs * 1000)
            && (state == Missed <==> late > lateToleranceUs * 1000)
  {
  }

  /** The media time of a frame is the time at which it arrives. */
  predicate SentOnArrival(clocks: ClockPair, report: Report, timestamp: u32, arrival: int) {
    RtpSystemTime(report, timestamp) == Some(clocks.system + (arrival - clocks.steady))
  }

  /**
   A frame whose media time is its time of arrival is to be presented the common delay later; it can be enqueued for
   five more milliseconds at least, so it is never missed on arrival.
   */
  lemma NeverMissedOnArrival(clocks: ClockPair, delayMs: u16, compensationMs: i16, report: Report, timestamp: u32,
                             arrival: int, lateToleranceUs: nat)
    requires Accepted(delayMs, compensationMs)
    ensures var queued := IdleQueueFrames(delayMs, compensationMs);
            var plan := PlanPlayout(clocks, delayMs, compensationMs, report, timestamp, queued);
            && plan.Some?
            && (SentOnArrival(clocks, report, timestamp, arrival) <==>
                plan.value.presentation == arrival + delayMs * NS_PER_MS)
            && (plan.value.presentation == arrival + delayMs * NS_PER_MS ==>
                  && plan.value.enqueue >= arrival + ENQUEUE_HEADROOM_MS * NS_PER_MS
                  && Classify(plan.value, arrival, lateToleranceUs) == Wait)
  {
    NtpBounds(report.ntp);
    IdleQueueFits(delayMs, compensationMs);
  }

  /** The plan, moved by so many nanoseconds. */
  function Moved(plan: Plan, presentation: int, enqueue: int): Plan {
    plan.(presentation := plan.presentation + presentation, enqueue := plan.enqueue + enqueue)
  }

  /**
   A millisecond more of delay moves both deadlines by a millisecond, one more of compensation brings only the enqueue
   deadline forward by one, and so does each further chunk of ten milliseconds in the queue, by ten.
   */
  lemma PlanMoves(clocks: ClockPair, delayMs: u16, compensationMs: i16, report: Report, timestamp: u32, queued: u64)
    requires delayMs < 0xFFFF && compensationMs < 0x7FFF && queued / SAMPLE_RATE < 8_000_000_000
    ensures var plan := PlanPlayout(clocks, delayMs, compensationMs, report, timestamp, queued);
            && plan.Some?
            && PlanPlayout(clocks, delayMs + 1, compensationMs, report, timestamp, queued) ==
               Some(Moved(plan.value, 1_000_000, 1_000_000))
            && PlanPlayout(clocks, delayMs, compensationMs + 1, report, timestamp, queued) ==
               Some(Moved(plan.value, 0, -1_000_000))
            && PlanPlayout(clocks, delayMs, compensationMs, report, timestamp, queued + FRAMES_PER_CHUNK) ==
               Some(Moved(plan.value, 0, -10_000_000))
  {
    NtpBounds(report.ntp);
    FramesDurationExact(queued);
    FramesDurationExact(queued + FRAMES_PER_CHUNK);
    ChunkLonger(queued);
  }

  lemma ChunkLonger(frames: nat)
    ensures (frames + FRAMES_PER_CHUNK) * NS_PER_SECOND / SAMPLE_RATE ==
            frames * NS_PER_SECOND / SAMPLE_RATE + FRAME_MS * NS_PER_MS
  {
    assert (frames + FRAMES_PER_CHUNK) * NS_PER_SECOND == frames * NS_PER_SECOND + FRAME_MS * NS_PER_MS * SAMPLE_RATE;
  }

  /** rtcpPresentationDeadlinePlausible. */
  predicate Plausible(plan: Plan, arrival: int, delayMs: u16, maximumMs: nat) {
    Distance(plan.presentation, arrival + delayMs * NS_PER_MS) <= maximumMs * NS_PER_MS
  }

  /** Whatever the delay, a deadline is plausible when the media time is close enough to the time of arrival. */
  lemma PlausibleExactly(clocks: ClockPair, delayMs: u16, compensationMs: i16, report: Report, timestamp: u32,
                         queued: u64, arrival: int, maximumMs: nat)
    ensures var plan := PlanPlayout(clocks, delayMs, compensationMs, report, timestamp, queued);
            && plan.Some?
            && (Plausible(plan.value, arrival, delayMs, maximumMs) <==>
                -(maximumMs as int) * NS_PER_MS
                  <= RtpSystemTime(report, timestamp).value - (clocks.system + (arrival - clocks.steady))
                  <= maximumMs * NS_PER_MS)
  {
    NtpBounds(report.ntp);
  }

  /** A plan made for later media is for a later deadline. */
  lemma PlansInOrder(clocks: ClockPair, delayMs: u16, compensationMs: i16, report: Report, a: u32, b: u32, queued: u64)
    requires SignedDifference(a, report.rtp) < SignedDifference(b, report.rtp)
    ensures var p, q := PlanPlayout(clocks, delayMs, compensationMs, report, a, queued),
                        PlanPlayout(clocks, delayMs, compensationMs, report, b, queued);
            p.Some? && q.Some? && p.value.enqueue < q.value.enqueue && p.value.presentation < q.value.presentation
  {
    MediaTimeMonotone(report, a, b);
  }
}
