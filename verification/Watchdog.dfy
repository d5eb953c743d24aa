/** The watchdog: four monitored quantities, each with a limit not to be exceeded for long, and a warning level. */
module Watchdog {
  import opened Division

  const NS_PER_SECOND := 1_000_000_000

  datatype Settings = Settings(limit: real, warning: real, responseSeconds: real)

  /** A value and the time at which it was looked at. */
  datatype Sample = Sample(value: real, ns: int)

  datatype Outcome = Quiet | Warned | Stopped

  /** Whole seconds, rounded towards zero as duration_cast does. */
  function WholeSeconds(ns: int): int {
    Truncated(ns, NS_PER_SECOND)
  }

  // ---- What should happen, by the history of samples alone ----

  predicate Over(s: Settings, sample: Sample) {
    sample.value >= s.limit
  }

  /** Where the uninterrupted stretch of samples over the limit that ends with sample k began. */
  function RunStart(s: Settings, h: seq<Sample>, k: nat): (j: nat)
    requires k < |h|
    ensures j <= k && (Over(s, h[k]) ==> forall i | j <= i <= k :: Over(s, h[i]))
    ensures Over(s, h[k]) && j > 0 ==> !Over(s, h[j - 1])
  {
    if k > 0 && Over(s, h[k]) && Over(s, h[k - 1]) then RunStart(s, h, k - 1) else k
  }

  /** The limit has been exceeded since an earlier sample, for long enough. */
  predicate Trips(s: Settings, h: seq<Sample>, k: nat)
    requires k < |h|
  {
    && Over(s, h[k]) && RunStart(s, h, k) < k
    && WholeSeconds(h[k].ns - h[RunStart(s, h, k)].ns) as real >= s.responseSeconds
  }

  /** The value is at warning level, and it was not before, or it has just come down from over the limit. */
  predicate Warns(s: Settings, h: seq<Sample>, k: nat)
    requires k < |h|
  {
    && h[k].value >= s.warning
    && (k == 0 || h[k - 1].value < s.warning || h[k - 1].value >= s.limit > h[k].value)
  }

  /** Nothing later changes what a sample meant when it was taken. */
  lemma {:induction false} RunStartKept(s: Settings, h: seq<Sample>, longer: seq<Sample>, k: nat)
    requires k < |h| && h <= longer
    ensures RunStart(s, longer, k) == RunStart(s, h, k) && Trips(s, longer, k) == Trips(s, h, k)
    ensures Warns(s, longer, k) == Warns(s, h, k)
    decreases k
  {
    assert h[k] == longer[k];
    if k > 0 {
      assert h[k - 1] == longer[k - 1];
      RunStartKept(s, h, longer, k - 1);
    }
  }

  /** There is only one maximal stretch: any stretch over the limit with something under it before it is the one. */
  lemma RunStartUnique(s: Settings, h: seq<Sample>, k: nat, j: nat)
    requires j <= k < |h| && forall i | j <= i <= k :: Over(s, h[i])
    requires j > 0 ==> !Over(s, h[j - 1])
    ensures RunStart(s, h, k) == j
  {
    var r := RunStart(s, h, k);
    assert Over(s, h[k]);
    assert j > 0 ==> !Over(s, h[j - 1]);
    assert r > 0 ==> !Over(s, h[r - 1]);
  }

  /** A response time in whole seconds, rounded up. */
  function SecondsNeeded(s: Settings): int {
    -((-s.responseSeconds).Floor)
  }

  /** Rounding elapsed time down to whole seconds comes to the same as rounding the response time up. */
  lemma EnoughSeconds(s: Settings, ns: int)
    requires ns >= 0 || s.responseSeconds > 0.0
    ensures WholeSeconds(ns) as real >= s.responseSeconds <==> ns >= SecondsNeeded(s) * 1_000_000_000
    ensures ns >= 0 ==> WholeSeconds(ns) * 1_000_000_000 <= ns < (WholeSeconds(ns) + 1) * 1_000_000_000
  {
  }

  /** The samples from j to k are over the limit, and the one before them, if any, is not. */
  predicate Stretch(s: Settings, h: seq<Sample>, j: nat, k: nat)
    requires k < |h|
  {
    j <= k && (forall i | j <= i <= k :: Over(s, h[i])) && (j > 0 ==> !Over(s, h[j - 1]))
  }

  /** Such a stretch, from at least the response time ago. */
  predicate Lasting(s: Settings, h: seq<Sample>, j: nat, k: nat)
    requires k < |h|
  {
    Stretch(s, h, j, k) && h[k].ns - h[j].ns >= SecondsNeeded(s) * 1_000_000_000
  }

  /**
   Given a response time, or a clock that does not run backwards, a quantity trips exactly when its stretch over the
   limit began at an earlier sample, at least the response time ago, counted in whole seconds.
   */
  lemma TripsExactly(s: Settings, h: seq<Sample>, k: nat)
    requires k < |h| && (s.responseSeconds > 0.0 || forall i | 0 <= i < k :: h[i].ns <= h[k].ns)
    ensures Trips(s, h, k) <==>
            exists j: nat | j < k :: Lasting(s, h, j, k)
  {
    var r := RunStart(s, h, k);
    if r < k {
      EnoughSeconds(s, h[k].ns - h[r].ns);
    }
    if Trips(s, h, k) {
      assert Lasting(s, h, r, k);
    }
    if j: nat :| j < k && Lasting(s, h, j, k) {
      RunStartUnique(s, h, k, j);
    }
  }

  /** For a response time of so many seconds. */
  lemma WholeResponse(s: Settings, seconds: nat)
    ensures s.responseSeconds == seconds as real ==> SecondsNeeded(s) == seconds
  {
  }

  // ---- One monitored quantity ----

  /** The fields kept for one quantity. */
  datatype Tracker = Tracker(exceeded: bool, exceededNs: int, warningLogged: bool)

  const FRESH := Tracker(false, 0, false)

  ghost predicate Tripped(s: Settings, h: seq<Sample>) {
    exists k | 0 <= k < |h| :: Trips(s, h, k)
  }

  /** What the fields say of the samples so far: the warning flag means nothing once the quantity has tripped. */
  ghost predicate Tracks(t: Tracker, s: Settings, h: seq<Sample>) {
    var n := |h|;
    && t.exceeded == (n > 0 && Over(s, h[n - 1]))
    && (t.exceeded ==> t.exceededNs == h[RunStart(s, h, n - 1)].ns)
    && (!Tripped(s, h) ==> t.warningLogged == (n > 0 && h[n - 1].value >= s.warning))
  }

  /** One more sample: everything before it stands. */
  lemma Extended(s: Settings, h: seq<Sample>, longer: seq<Sample>)
    requires |longer| == |h| + 1 && h <= longer
    ensures var n := |h|;
            && RunStart(s, longer, n) ==
               (if n > 0 && Over(s, longer[n]) && Over(s, longer[n - 1]) then RunStart(s, h, n - 1) else n)
            && ((exists k | 0 <= k < |longer| :: Trips(s, longer, k)) <==>
                (exists k | 0 <= k < n :: Trips(s, h, k)) || Trips(s, longer, n))
  {
    forall k | 0 <= k < |h|
      ensures Trips(s, longer, k) == Trips(s, h, k) && RunStart(s, longer, k) == RunStart(s, h, k)
    {
      RunStartKept(s, h, longer, k);
    }
  }

  /** The fields after a sample, and what was done about it. */
  function Checked(t: Tracker, s: Settings, sample: Sample): (Tracker, Outcome) {
    var over := sample.value >= s.limit;
    var u := if over && !t.exceeded then Tracker(true, sample.ns, t.warningLogged)
             else if !over && t.exceeded then Tracker(false, t.exceededNs, false)
             else t;
    if over && t.exceeded && WholeSeconds(sample.ns - t.exceededNs) as real >= s.responseSeconds then (u, Stopped)
    else if sample.value >= s.warning && !u.warningLogged then (u.(warningLogged := true), Warned)
    else if sample.value < s.warning && u.warningLogged then (u.(warningLogged := false), Quiet)
    else (u, Quiet)
  }

  lemma CheckedStops(t: Tracker, s: Settings, h: seq<Sample>, longer: seq<Sample>, sample: Sample)
    requires Tracks(t, s, h) && longer == h + [sample]
    ensures Checked(t, s, sample).1 == Stopped <==> Trips(s, longer, |h|)
    ensures Tripped(s, longer) <==> Tripped(s, h) || Checked(t, s, sample).1 == Stopped
  {
    Extended(s, h, longer);
  }

  lemma CheckedWarns(t: Tracker, s: Settings, h: seq<Sample>, longer: seq<Sample>, sample: Sample)
    requires Tracks(t, s, h) && longer == h + [sample] && !Tripped(s, longer)
    ensures Checked(t, s, sample).1 == Warned <==> Warns(s, longer, |h|)
    ensures Checked(t, s, sample).0.warningLogged == (sample.value >= s.warning)
  {
    CheckedStops(t, s, h, longer, sample);
    assert |h| > 0 ==> longer[|h| - 1] == h[|h| - 1];
  }

  lemma CheckedTracks(t: Tracker, s: Settings, h: seq<Sample>, longer: seq<Sample>, sample: Sample)
    requires Tracks(t, s, h) && longer == h + [sample]
    ensures Tracks(Checked(t, s, sample).0, s, longer)
  {
    Extended(s, h, longer);
    assert |h| > 0 ==> longer[|h| - 1] == h[|h| - 1];
    if !Tripped(s, longer) {
      CheckedWarns(t, s, h, longer, sample);
    }
  }

  // ---- All four, until one of them trips ----

  const CHANNELS := 4

  /** What is seen of one quantity over the first n passes. */
  function Column(passes: seq<seq<Sample>>, n: nat, c: nat): (h: seq<Sample>)
    requires n <= |passes| && c < CHANNELS && forall i | 0 <= i < |passes| :: |passes[i]| == CHANNELS
    ensures |h| == n
  {
    seq(n, i requires 0 <= i < n => passes[i][c])
  }

  lemma ColumnGrows(passes: seq<seq<Sample>>, n: nat, c: nat)
    requires n < |passes| && c < CHANNELS && forall i | 0 <= i < |passes| :: |passes[i]| == CHANNELS
    ensures Column(passes, n + 1, c) == Column(passes, n, c) + [passes[n][c]]
  {
  }

  /** Quantity c has gone over its limit for too long by pass p. */
  predicate TripsAt(settings: seq<Settings>, passes: seq<seq<Sample>>, p: nat, c: nat)
    requires |settings| == CHANNELS && p < |passes| && c < CHANNELS
    requires forall i | 0 <= i < |passes| :: |passes[i]| == CHANNELS
  {
    Trips(settings[c], Column(passes, p + 1, c), p)
  }

  /** Quantity c is to be warned about at pass p. */
  predicate WarnsAt(settings: seq<Settings>, passes: seq<seq<Sample>>, p: nat, c: nat)
    requires |settings| == CHANNELS && p < |passes| && c < CHANNELS
    requires forall i | 0 <= i < |passes| :: |passes[i]| == CHANNELS
  {
    Warns(settings[c], Column(passes, p + 1, c), p)
  }

  /** What is done about quantity c at pass p, as long as nothing has tripped before. */
  function OutcomeAt(settings: seq<Settings>, passes: seq<seq<Sample>>, p: nat, c: nat): Outcome
    requires |settings| == CHANNELS && p < |passes| && c < CHANNELS
    requires forall i | 0 <= i < |passes| :: |passes[i]| == CHANNELS
  {
    if TripsAt(settings, passes, p, c) then Stopped
    else if WarnsAt(settings, passes, p, c) then Warned
    else Quiet
  }

  lemma NotTripped(settings: seq<Settings>, passes: seq<seq<Sample>>, n: nat, c: nat)
    requires |settings| == CHANNELS && n <= |passes| && c < CHANNELS
    requires forall i | 0 <= i < |passes| :: |passes[i]| == CHANNELS
    requires forall p | 0 <= p < n :: !TripsAt(settings, passes, p, c)
    ensures !Tripped(settings[c], Column(passes, n, c))
  {
    forall p | 0 <= p < n
      ensures !Trips(settings[c], Column(passes, n, c), p)
    {
      assert Column(passes, p + 1, c) <= Column(passes, n, c);
      RunStartKept(settings[c], Column(passes, p + 1, c), Column(passes, n, c), p);
      assert !TripsAt(settings, passes, p, c);
    }
  }

  /** The four quantities: power draw, temperature, and servo temperature and load. */
  class WatchdogThread {
    const settings: seq<Settings>
    var trackers: seq<Tracker>
    ghost var histories: seq<seq<Sample>>

    ghost predicate Valid()
      reads this
    {
      && |settings| == |trackers| == |histories| == CHANNELS
      && forall c | 0 <= c < CHANNELS :: Tracks(trackers[c], settings[c], histories[c])
    }

    constructor (s: seq<Settings>)
      requires |s| == CHANNELS
      ensures Valid() && settings == s && histories == [[], [], [], []]
    {
      settings := s;
      trackers, histories := [FRESH, FRESH, FRESH, FRESH], [[], [], [], []];
    }

    /** The four check functions, which differ only in what they look at. */
    method Check(c: nat, sample: Sample) returns (outcome: Outcome)
      requires Valid() && c < CHANNELS
      modifies this
      ensures Valid() && histories == old(histories)[c := old(histories)[c] + [sample]]
      ensures outcome == Stopped <==> Trips(settings[c], histories[c], |old(histories)[c]|)
      ensures !Tripped(settings[c], histories[c]) ==>
                (outcome == Warned <==> Warns(settings[c], histories[c], |old(histories)[c]|))
    {
      var s := settings[c];
      ghost var longer := histories[c] + [sample];
      CheckedStops(trackers[c], s, histories[c], longer, sample);
      CheckedTracks(trackers[c], s, histories[c], longer, sample);
      if !Tripped(s, longer) {
        CheckedWarns(trackers[c], s, histories[c], longer, sample);
      }
      var t;
      t, outcome := Judge(trackers[c], s, sample);
      trackers := trackers[c := t];
      histories := histories[c := longer];
    }

    /** The body of a check function. */
    method Judge(tracker: Tracker, s: Settings, sample: Sample) returns (t: Tracker, outcome: Outcome)
      ensures (t, outcome) == Checked(tracker, s, sample)
    {
      t := tracker;
      if sample.value >= s.limit {
        if !t.exceeded {
          t := t.(exceeded := true, exceededNs := sample.ns);
        } else {
          var timeOverLimit := WholeSeconds(sample.ns - t.exceededNs);
          if timeOverLimit as real >= s.responseSeconds {
            return t, Stopped;
          }
        }
      } else {
        if t.exceeded {
          t := t.(exceeded := false, warningLogged := false);
        }
      }
      outcome := Quiet;
      if sample.value >= s.warning && !t.warningLogged {
        t := t.(warningLogged := true);
        outcome := Warned;
      } else if sample.value < s.warning && t.warningLogged {
        t := t.(warningLogged := false);
      }
    }

    /** One turn of the loop: every quantity is looked at, even when an earlier one has tripped. */
    method Pass(samples: seq<Sample>) returns (outcomes: seq<Outcome>)
      requires Valid() && |samples| == CHANNELS
      modifies this
      ensures Valid() && forall c | 0 <= c < CHANNELS :: histories[c] == old(histories)[c] + [samples[c]]
      ensures |outcomes| == CHANNELS
      ensures forall c | 0 <= c < CHANNELS ::
                outcomes[c] == Stopped <==> Trips(settings[c], histories[c], |old(histories)[c]|)
      ensures forall c | 0 <= c < CHANNELS && !Tripped(settings[c], histories[c]) ::
                outcomes[c] == Warned <==> Warns(settings[c], histories[c], |old(histories)[c]|)
    {
      outcomes := [];
      for c := 0 to CHANNELS
        invariant Valid() && |outcomes| == c
        invariant forall k | 0 <= k < CHANNELS ::
                    histories[k] == old(histories)[k] + if k < c then [samples[k]] else []
        invariant forall k | 0 <= k < c ::
                    outcomes[k] == Stopped <==> Trips(settings[k], histories[k], |old(histories)[k]|)
        invariant forall k | 0 <= k < c && !Tripped(settings[k], histories[k]) ::
                    outcomes[k] == Warned <==> Warns(settings[k], histories[k], |old(histories)[k]|)
      {
        var outcome := Check(c, samples[c]);
        outcomes := outcomes + [outcome];
      }
    }
  }

  /** These are the outcomes of pass p. */
  predicate PassedWith(settings: seq<Settings>, passes: seq<seq<Sample>>, p: nat, outcomes: seq<Outcome>)
    requires |settings| == CHANNELS && p < |passes|
    requires forall i | 0 <= i < |passes| :: |passes[i]| == CHANNELS
  {
    |outcomes| == CHANNELS && forall c | 0 <= c < CHANNELS :: outcomes[c] == OutcomeAt(settings, passes, p, c)
  }

  /** The pass numbered n of a run in which nothing has tripped before. */
  method NextPass(w: WatchdogThread, passes: seq<seq<Sample>>, n: nat) returns (outcomes: seq<Outcome>)
    requires w.Valid() && n < |passes| && forall i | 0 <= i < |passes| :: |passes[i]| == CHANNELS
    requires forall c | 0 <= c < CHANNELS :: w.histories[c] == Column(passes, n, c)
    requires forall p, c | 0 <= p < n && 0 <= c < CHANNELS :: !TripsAt(w.settings, passes, p, c)
    modifies w
    ensures w.Valid() && forall c | 0 <= c < CHANNELS :: w.histories[c] == Column(passes, n + 1, c)
    ensures PassedWith(w.settings, passes, n, outcomes)
  {
    outcomes := w.Pass(passes[n]);
    forall c | 0 <= c < CHANNELS
      ensures w.histories[c] == Column(passes, n + 1, c) && outcomes[c] == OutcomeAt(w.settings, passes, n, c)
    {
      ColumnGrows(passes, n, c);
      if !TripsAt(w.settings, passes, n, c) {
        NotTripped(w.settings, passes, n + 1, c);
      }
    }
  }

  /**
   The whole run, pass by pass and quantity by quantity: exactly the stops and warnings that the samples call for. It
   ends with the first pass in which any quantity trips, or with the last one.
   */
  method Run(settings: seq<Settings>, passes: seq<seq<Sample>>) returns (log: seq<seq<Outcome>>)
    requires |settings| == CHANNELS && forall i | 0 <= i < |passes| :: |passes[i]| == CHANNELS
    ensures |log| <= |passes| && forall p | 0 <= p < |log| :: PassedWith(settings, passes, p, log[p])
    ensures forall p | 0 <= p < |log| - 1 :: Stopped !in log[p]
    ensures |log| < |passes| ==> log != [] && Stopped in log[|log| - 1]
  {
    var w := new WatchdogThread(settings);
    log := [];
    var tripped := false;
    while |log| < |passes| && !tripped
      invariant w.Valid() && w.settings == settings && fresh(w)
      invariant |log| <= |passes| && forall p | 0 <= p < |log| :: PassedWith(settings, passes, p, log[p])
      invariant forall c | 0 <= c < CHANNELS :: w.histories[c] == Column(passes, |log|, c)
      invariant forall p | 0 <= p < |log| && (p < |log| - 1 || !tripped) :: Stopped !in log[p]
      invariant tripped ==> log != [] && Stopped in log[|log| - 1]
      decreases |passes| - |log|
    {
      NoneTripped(settings, passes, log);
      var outcomes := NextPass(w, passes, |log|);
      log := log + [outcomes];
      tripped := Stopped in outcomes;
    }
  }

  lemma NoneTripped(settings: seq<Settings>, passes: seq<seq<Sample>>, log: seq<seq<Outcome>>)
    requires |settings| == CHANNELS && forall i | 0 <= i < |passes| :: |passes[i]| == CHANNELS
    requires |log| <= |passes|
    requires forall p | 0 <= p < |log| :: PassedWith(settings, passes, p, log[p]) && Stopped !in log[p]
    ensures forall p, c | 0 <= p < |log| && 0 <= c < CHANNELS :: !TripsAt(settings, passes, p, c)
  {
    forall p, c | 0 <= p < |log| && 0 <= c < CHANNELS
      ensures !TripsAt(settings, passes, p, c)
    {
      assert log[p][c] in log[p];
    }
  }
}
