/**
 Re-initialisation: from the moment every confirmed flag is cleared, through writing each servo's settings
 back, to the checks that come before any servo is energized again. About values, like TorqueState.
 */
module TorqueRecovery {
  import opened Bytes
  import opened TorqueState

  // ---- Stretches of a pass in which confirmed flags may change ----

  predicate SameSetting(m: Motor, n: Motor) {
    m.(requested := 0, confirmed := false) == n.(requested := 0, confirmed := false)
  }

  predicate SameSetup(a: seq<Motor>, b: seq<Motor>) {
    |a| == |b| && forall i | 0 <= i < |a| :: SameSetting(a[i], b[i])
  }

  /** Like Ran, except that confirmed flags may change. */
  predicate Passed(a: State, b: State, ids: set<u8>, energizing: bool) {
    Worked(a, b, ids) && SameSetup(a.motors, b.motors) && (!energizing ==> NoneEnergized(a, b))
  }

  lemma SameSetupTransitive(a: seq<Motor>, b: seq<Motor>, c: seq<Motor>)
    requires SameSetup(a, b) && SameSetup(b, c)
    ensures SameSetup(a, c)
  {
    forall i | 0 <= i < |a|
      ensures SameSetting(a[i], c[i])
    {
      assert SameSetting(a[i], b[i]) && SameSetting(b[i], c[i]);
    }
  }

  lemma PassedTransitive(a: State, b: State, c: State, ids: set<u8>, more: set<u8>, energizing: bool)
    requires Passed(a, b, ids, energizing) && Passed(b, c, more, energizing)
    ensures Passed(a, c, ids + more, energizing)
  {
    WorkedTransitive(a, b, c, ids, more);
    SameSetupTransitive(a.motors, b.motors, c.motors);
    if !energizing {
      NoneEnergizedTransitive(a, b, c);
    }
  }

  lemma SameMotorsSetup(a: seq<Motor>, b: seq<Motor>)
    requires SameMotors(a, b)
    ensures SameSetup(a, b)
  {
    forall i | 0 <= i < |a|
      ensures SameSetting(a[i], b[i])
    {
      assert SameMotor(a[i], b[i]);
    }
  }

  lemma RanPassed(a: State, b: State, ids: set<u8>, energizing: bool)
    requires Ran(a, b, ids, energizing)
    ensures Passed(a, b, ids, energizing)
  {
    SameMotorsSetup(a.motors, b.motors);
  }

  /** Wider in what it may write and whether it may energize. */
  lemma PassedWider(a: State, b: State, ids: set<u8>, more: set<u8>, energizing: bool)
    requires Passed(a, b, ids, energizing) && ids <= more
    ensures Passed(a, b, more, true) && Passed(a, b, more, energizing)
  {
  }

  lemma PassedThenRan(a: State, b: State, c: State, ids: set<u8>, more: set<u8>, energizing: bool)
    requires Passed(a, b, ids, energizing) && Ran(b, c, more, energizing) && more <= ids
    ensures Passed(a, c, ids, energizing)
  {
    RanPassed(b, c, more, energizing);
    PassedTransitive(a, b, c, ids, more, energizing);
    assert ids + more == ids;
  }

  lemma SameSetupIds(a: seq<Motor>, b: seq<Motor>)
    requires SameSetup(a, b)
    ensures Ids(a) == Ids(b) && (Distinct(a) ==> Distinct(b))
  {
    assert forall i | 0 <= i < |a| :: SameSetting(a[i], b[i]);
    assert forall i | 0 <= i < |a| :: a[i].id in Ids(b) && b[i].id in Ids(a);
  }

  // ---- Writing settings back ----

  /** Where the servo task may be while it writes the settings of the servos of start back. */
  ghost predicate Restoring(start: State, s: State) {
    Invariant(s) && !s.stale && Passed(start, s, Ids(start.motors), false)
  }

  lemma RestoringBegins(start: State)
    requires Invariant(start) && !start.stale
    ensures Restoring(start, start)
  {
  }

  lemma RestoringEnds(start: State, s: State)
    requires Restoring(start, s)
    ensures Invariant(s) && !s.stale && Passed(start, s, Ids(start.motors), false)
    ensures SameSetup(start.motors, s.motors)
  {
  }

  lemma RestoringStep(start: State, a: State, b: State, k: nat)
    requires k < |start.motors| && Restoring(start, a) && Invariant(b)
    requires Ran(a, b, {start.motors[k].id}, false)
    ensures Restoring(start, b)
  {
    PassedThenRan(start, a, b, Ids(start.motors), {start.motors[k].id}, false);
  }

  /** The stored velocity may be written, whatever has been confirmed so far. */
  lemma RestoringAllows(start: State, s: State, k: nat)
    requires k < |start.motors| && Restoring(start, s)
    ensures MayWrite(s, start.motors[k].id, ProfileVelocity, start.motors[k].velocity) && Invariant(s)
  {
    assert SameSetting(start.motors[k], s.motors[k]);
  }

  lemma LedAllowed(s: State, id: u8, v: u32)
    ensures MayWrite(s, id, Led, v)
  {
  }

  /** Recording the outcome for servo k. */
  function Noting(s: State, id: u8, confirmed: bool): State {
    s.(motors := Marked(s.motors, id, confirmed))
  }

  lemma MarkedSame(a: seq<Motor>, b: seq<Motor>, id: u8, confirmed: bool)
    requires SameMotors(a, b)
    ensures SameMotors(Marked(a, id, confirmed), Marked(b, id, confirmed))
  {
    assert forall i | 0 <= i < |a| :: SameMotor(a[i], b[i]);
  }

  /** A velocity that was read back may be recorded as confirmed. */
  lemma RestoringMarks(start: State, s: State, k: nat, confirmed: bool)
    requires k < |start.motors| && Restoring(start, s)
    requires confirmed ==> Holding(s, start.motors[k].id, ProfileVelocity, start.motors[k].velocity)
    ensures Restoring(start, Noting(s, start.motors[k].id, confirmed))
  {
    var id := start.motors[k].id;
    assert SameSetting(start.motors[k], s.motors[k]);
    MarkedGood(s, id, confirmed);
    var t := Noting(s, id, confirmed);
    assert forall i | 0 <= i < |s.motors| :: SameSetting(s.motors[i], t.motors[i]);
    SameSetupTransitive(start.motors, s.motors, t.motors);
  }

  /** How many of the first k servos are not confirmed. */
  function Missing(motors: seq<Motor>, k: nat): nat
    requires k <= |motors|
  {
    if k == 0 then 0 else Missing(motors, k - 1) + if motors[k - 1].confirmed then 0 else 1
  }

  lemma {:induction false} MissingSame(a: seq<Motor>, b: seq<Motor>, k: nat)
    requires k <= |a| && k <= |b| && forall j | 0 <= j < k :: a[j].confirmed == b[j].confirmed
    ensures Missing(a, k) == Missing(b, k)
    decreases k
  {
    if k > 0 {
      MissingSame(a, b, k - 1);
    }
  }

  /** Recording the outcome for the next servo. */
  lemma MissingMarked(start: State, a: seq<Motor>, k: nat, confirmed: bool, b: seq<Motor>)
    requires k < |start.motors| && Distinct(start.motors) && SameSetup(start.motors, a)
    requires SameMotors(Marked(a, start.motors[k].id, confirmed), b)
    ensures |a| == |b| == |start.motors|
    ensures Missing(b, k + 1) == Missing(a, k) + if confirmed then 0 else 1
  {
    forall j | 0 <= j <= k
      ensures b[j].confirmed == if j == k then confirmed else a[j].confirmed
    {
      assert SameSetting(start.motors[j], a[j]) && SameSetting(start.motors[k], a[k]);
      assert SameMotor(Marked(a, start.motors[k].id, confirmed)[j], b[j]);
    }
    MissingSame(a, b, k);
  }

  // ---- Writing settings back with nothing in the way ----

  /** The bus once the settings of the first k servos have been written back. */
  predicate SettingsBack(before: map<u8, Servo>, bus: map<u8, Servo>, motors: seq<Motor>, k: nat)
    requires Present(motors, before)
  {
    && bus.Keys == before.Keys
    && (forall j | 0 <= j < |motors| ::
          bus[motors[j].id] ==
          if j < k then before[motors[j].id].(velocity := motors[j].velocity, led := 1) else before[motors[j].id])
    && (forall id | id in before && id !in Ids(motors) :: bus[id] == before[id])
  }

  predicate FirstConfirmed(motors: seq<Motor>, k: nat) {
    k <= |motors| && forall j | 0 <= j < k :: motors[j].confirmed
  }

  /** The states with the rail up in which k servos have their settings back, and are marked so. */
  ghost predicate Restored(start: State, k: nat, s: State) {
    s.flags.rail && Present(start.motors, start.bus) && SettingsBack(start.bus, s.bus, start.motors, k) &&
                    |s.motors| == |start.motors| && FirstConfirmed(s.motors, k)
  }

  /** A servo whose settings have been written. */
  function Settings(bus: map<u8, Servo>, id: u8, velocity: u32): map<u8, Servo>
    requires id in bus
  {
    bus[id := bus[id].(velocity := velocity, led := 1)]
  }

  lemma SettingsBackStep(before: map<u8, Servo>, a: map<u8, Servo>, b: map<u8, Servo>, motors: seq<Motor>, k: nat)
    requires k < |motors| && Distinct(motors) && Present(motors, before) && SettingsBack(before, a, motors, k)
    requires b == Settings(a, motors[k].id, motors[k].velocity)
    ensures SettingsBack(before, b, motors, k + 1)
  {
  }

  /** The velocity, then the light. */
  lemma SettingsWritten(a: map<u8, Servo>, m: map<u8, Servo>, b: map<u8, Servo>, id: u8, velocity: u32)
    requires id in a && id in m
    ensures m == a[id := Set(a[id], ProfileVelocity, velocity)] && b == m[id := Set(m[id], Led, 1)] ==>
              b == Settings(a, id, velocity)
  {
  }

  /** Writing one more servo's velocity, marking it, and lighting it. */
  lemma RestoredStep(start: State, a: State, b: State, k: nat)
    requires k < |start.motors| && Distinct(start.motors) && Restored(start, k, a) && b.flags.rail
    requires SameSetup(start.motors, a.motors) && SameMotors(Marked(a.motors, start.motors[k].id, true), b.motors)
    requires start.motors[k].id in a.bus
    requires b.bus == Settings(a.bus, start.motors[k].id, start.motors[k].velocity)
    ensures Restored(start, k + 1, b)
  {
    SettingsBackStep(start.bus, a.bus, b.bus, start.motors, k);
    forall j | 0 <= j < k + 1
      ensures b.motors[j].confirmed
    {
      assert SameSetting(start.motors[j], a.motors[j]);
      assert SameMotor(Marked(a.motors, start.motors[k].id, true)[j], b.motors[j]);
    }
  }

  // ---- The checks before energizing ----

  /** A pass that began at p is in progress. */
  predicate BeganAt(h: History, p: nat) {
    p < |h| && h[p] == PassStarted && forall i | p < i < |h| :: h[i] != PassStarted
  }

  ghost predicate InPass(h: History) {
    exists p: nat :: BeganAt(h, p)
  }

  /** The emergency stop has been looked at in this pass and found clear. */
  ghost predicate Cleared(h: History) {
    exists p: nat, c: nat :: ClearSince(h, p, c)
  }

  lemma InPassGrows(a: State, b: State, ids: set<u8>)
    requires InPass(a.history) && Worked(a, b, ids)
    ensures InPass(b.history)
  {
    var p: nat :| BeganAt(a.history, p);
    assert forall i | 0 <= i < |a.history| :: b.history[i] == a.history[i];
    assert BeganAt(b.history, p);
  }

  lemma InPassMeanwhile(a: State, b: State)
    requires InPass(a.history) && Rely(a, b)
    ensures InPass(b.history)
  {
    InPassGrows(a, b, {});
  }

  lemma ClearedGrows(a: State, b: State, ids: set<u8>)
    requires Cleared(a.history) && Worked(a, b, ids)
    ensures Cleared(b.history)
  {
    var p: nat, c: nat :| ClearSince(a.history, p, c);
    assert forall i | 0 <= i < |a.history| :: b.history[i] == a.history[i];
    assert b.history[..c] == a.history[..c];
    assert ClearSince(b.history, p, c);
  }

  /** A pass is in progress that has found itself told to run, and taken no request since. */
  ghost predicate Recovering(h: History) {
    InPass(h) && RunningFound(h)
  }

  lemma RecoveringLater(a: State, b: State, ids: set<u8>, energizing: bool)
    requires Recovering(a.history) && Passed(a, b, ids, energizing)
    ensures Recovering(b.history)
  {
    InPassGrows(a, b, ids);
    RunningKept(a.history, b.history);
  }

  lemma RecoveringMeanwhile(a: State, b: State)
    requires Recovering(a.history) && Rely(a, b)
    ensures Recovering(b.history)
  {
    InPassGrows(a, b, {});
    RunningKept(a.history, b.history);
  }

  lemma RunningNoted(s: State)
    requires Invariant(s) && s.flags.running && InPass(s.history)
    ensures Recovering(Observing(s, FoundRunning).history)
  {
    var h, g := s.history, s.history + [FoundRunning];
    var p: nat :| BeganAt(h, p);
    assert BeganAt(g, p) && g[..|h|] == h;
    assert RunningSince(g, |h|);
  }

  /** The history notes something the servo task did or found. */
  function Observing(s: State, o: Observation): State {
    s.(history := s.history + [o])
  }

  lemma ObservingGood(s: State, o: Observation)
    requires Invariant(s) && !o.Saw? && !o.Energized? && o != TookRequest
    ensures Invariant(Observing(s, o))
    ensures o != PassStarted ==> Ran(s, Observing(s, o), {}, false)
  {
    OtherFlags(s.flags, o);
    ChronicleGrows(s, o, Observing(s, o));
    OnlyHistory(s, Observing(s, o));
    if o != PassStarted {
      ObservingRan(s, o);
    }
  }

  lemma ObservingRan(s: State, o: Observation)
    requires !o.Energized? && o != TookRequest && o != PassStarted
    ensures Ran(s, Observing(s, o), {}, false)
  {
    RanNothing(s, {}, false);
  }

  lemma OtherFlags(f: Flags, o: Observation)
    requires !o.Saw? && o != TookRequest
    ensures FlagsAfter(f, o) == f
  {
  }

  /** A change to the history alone keeps whatever it does not speak of. */
  lemma OnlyHistory(s: State, t: State)
    requires Invariant(s) && Chronicled(t) && t == s.(history := t.history)
    ensures Invariant(t)
  {
  }

  lemma PassBegins(h: History)
    ensures InPass(h + [PassStarted])
  {
    assert BeganAt(h + [PassStarted], |h|);
  }

  lemma ClearFound(s: State)
    requires Invariant(s) && InPass(s.history) && !s.flags.estop
    ensures Cleared(Observing(s, FoundClear).history)
  {
    var h := s.history;
    var g := h + [FoundClear];
    var p: nat :| BeganAt(h, p);
    assert g[..|h|] == h;
    assert ClearSince(g, p, |h|);
  }

  lemma ClearAndAsked(h: History)
    requires Cleared(h) && EnableAsked(h)
    ensures Permitted(h)
  {
    var p: nat, c: nat :| ClearSince(h, p, c);
  }

  lemma ClearAndAskedLater(a: State, b: State)
    requires Rely(a, b) && Cleared(a.history) && EnableAsked(a.history)
    ensures Permitted(b.history)
  {
    ClearAndAsked(a.history);
    PermittedKept(a, b, {}, false, true);
  }

  lemma FrameFound(s: State)
    requires Invariant(s) && Cleared(s.history) && RunningFound(s.history) && s.flags.frame
    ensures Permitted(Observing(s, FoundFrame).history)
  {
    var h := s.history;
    var g := h + [FoundFrame];
    var p: nat, c: nat :| ClearSince(h, p, c);
    var r: nat :| RunningSince(h, r);
    assert g[..c] == h[..c] && g[..r] == h[..r] && g[..|h|] == h;
    assert ClearSince(g, p, c) && FrameAndRunning(g, p, r, |h|);
  }

  /** Driving the servos some time after s0. */
  lemma DrivenLater(s0: State, s1: State, s: State, enable: bool)
    requires Rely(s0, s1) && Ran(s1, s, Ids(s1.motors), enable)
    ensures Ran(s0, s, Ids(s0.motors), enable)
  {
    SameMotorsSetup(s0.motors, s1.motors);
    SameSetupIds(s0.motors, s1.motors);
    RanWider(s0, s1, {}, enable);
    RanTransitive(s0, s1, s, {}, Ids(s1.motors), enable);
    assert {} + Ids(s1.motors) == Ids(s1.motors);
  }

  lemma SweptLater(before: map<u8, Servo>, a: seq<Motor>, b: seq<Motor>, k: nat, enable: bool, s: State)
    requires SameMotors(a, b) && Swept(before, b, k, enable, s)
    ensures Swept(before, a, k, enable, s)
  {
    SameMotorsSetup(a, b);
    SameSetupIds(a, b);
    forall i | 0 <= i < |a|
      ensures a[i].id == b[i].id && Want(a[i], enable) == Want(b[i], enable)
    {
      assert SameMotor(a[i], b[i]);
    }
    DrivenSame(before, s.bus, a, b, k, enable);
  }

  /** The rail is up at a, and was not found lost on the way to b. */
  predicate Railed(a: State, b: State) {
    a.flags.rail && Outages(a.history) == Outages(b.history)
  }

  /** The same, with every servo on the bus. */
  predicate Powered(a: State, b: State) {
    Railed(a, b) && Present(a.motors, a.bus)
  }

  /** So many failures, each of them after three steps in which something went wrong, unless the power failed. */
  predicate Excused(a: State, b: State, failures: nat, troubles: int) {
    Powered(a, b) ==> troubles >= 3 * failures
  }

  /** With the power on from a to c it was on at b on the way. */
  lemma PoweredBefore(a: State, b: State, c: State)
    requires Invariant(a) && Invariant(b) && a.history <= b.history <= c.history
    ensures Railed(a, c) ==> Railed(a, b) && Railed(b, c)
  {
    OutagesGrow(a.history, b.history);
    OutagesGrow(b.history, c.history);
  }

  /** With the power on, the next servo of a sweep can be reached. */
  lemma SweepPowered(start: State, a: State, b: State, snapshot: seq<Motor>, enable: bool, k: nat, good: bool,
                     better: bool)
    requires Invariant(start) && SameMotors(start.motors, snapshot) && k < |snapshot| && a.history <= b.history
    requires Sweep(start, enable, k, good, a) && Sweep(start, enable, k + 1, better, b)
    ensures Powered(start, b) ==> Powered(start, a) && b.flags.rail && snapshot[k].id in a.bus
  {
    SweepEnds(start, a, enable, k, good);
    SweepEnds(start, b, enable, k + 1, better);
    PoweredBefore(start, a, b);
    PoweredBefore(start, b, b);
    assert SameMotor(start.motors[k], snapshot[k]);
  }

  /** The same for the next servo to be set up again. */
  lemma RestoringPowered(start: State, a: State, b: State, k: nat)
    requires Invariant(start) && Invariant(b) && Restoring(start, a) && Restoring(start, b)
    requires a.history <= b.history && k < |start.motors|
    ensures Powered(start, b) ==> Powered(start, a) && Railed(a, b) && start.motors[k].id in a.bus
  {
    PoweredBefore(start, a, b);
  }

  /** Of the first k servos so many have been confirmed, and the others are excused. */
  predicate Counting(start: State, s: State, k: nat, count: nat, troubles: int) {
    && k <= |s.motors| == |start.motors| && count + Missing(s.motors, k) == k
    && Excused(start, s, Missing(s.motors, k), troubles)
  }

  lemma CountingBegins(start: State, s: State)
    requires Restoring(start, s)
    ensures Counting(start, s, 0, 0, 0)
  {
  }

  /** All servos but those excused are confirmed. */
  predicate AllButExcused(a: State, b: State, troubles: int) {
    |b.motors| == |a.motors| && Excused(a, b, Missing(b.motors, |b.motors|), troubles)
  }

  lemma ExcusedEarlier(a: State, start: State, s: State, count: nat, troubles: int, more: int)
    requires Invariant(a) && Invariant(start) && Passed(a, start, {}, false) && start.history <= s.history
    requires Counting(start, s, |start.motors|, count, troubles) && troubles <= more
    ensures AllButExcused(a, s, more)
  {
    PoweredBefore(a, start, s);
    assert forall i | 0 <= i < |a.motors| :: SameSetting(a.motors[i], start.motors[i]);
  }

  lemma ExcusedLater(a: State, s: State, b: State, ids: set<u8>, troubles: int, more: int)
    requires Invariant(a) && Invariant(s) && a.history <= s.history && Ran(s, b, ids, true)
    requires AllButExcused(a, s, troubles) && troubles <= more
    ensures AllButExcused(a, b, more)
  {
    PoweredBefore(a, s, b);
    assert forall i | 0 <= i < |s.motors| :: SameMotor(s.motors[i], b.motors[i]);
    MissingSame(s.motors, b.motors, |s.motors|);
  }

  lemma DrivenSame(before: map<u8, Servo>, bus: map<u8, Servo>, a: seq<Motor>, b: seq<Motor>, k: nat, enable: bool)
    requires |a| == |b| && Ids(a) == Ids(b) && Present(b, before) && Driven(before, bus, b, k, enable)
    requires forall i | 0 <= i < |a| :: a[i].id == b[i].id && Want(a[i], enable) == Want(b[i], enable)
    ensures Present(a, before) && Driven(before, bus, a, k, enable)
  {
  }

  lemma SweptNothing(motors: seq<Motor>, enable: bool, s: State)
    requires s.flags.rail && Present(motors, s.bus)
    ensures Swept(s.bus, motors, 0, enable, s)
  {
  }

  // ---- A whole re-initialisation ----

  /** Every flag cleared: the span in which flags may be out of date is over. */
  function Cleansed(s: State): State {
    s.(motors := Unconfirmed(s.motors), stale := false)
  }

  lemma CleansedGood(a: State, s: State)
    requires Invariant(s) && Rely(a, s)
    ensures Invariant(Cleansed(s)) && Passed(a, Cleansed(s), {}, false)
  {
    UnconfirmedGood(s);
    RanPassed(a, s, {}, false);
    assert forall i | 0 <= i < |s.motors| :: SameSetting(s.motors[i], Unconfirmed(s.motors)[i]);
    SameSetupTransitive(a.motors, s.motors, Cleansed(s).motors);
  }

  /** Every servo is marked confirmed, holds its stored velocity and is lit; all have torque, or as they had before. */
  predicate Recovered(a: State, b: State, enabled: bool)
    requires Present(a.motors, a.bus)
  {
    && |b.motors| == |a.motors| && FirstConfirmed(b.motors, |b.motors|)
    && forall j | 0 <= j < |a.motors| ::
         var m := a.motors[j];
         m.id in b.bus && b.bus[m.id] == Servo(m.velocity, if enabled then 1 else a.bus[m.id].torque, 1)
  }

  lemma RestoredBegins(a: State, start: State)
    requires SameSetup(a.motors, start.motors) && start.flags.rail && a.bus == start.bus && Present(a.motors, a.bus)
    ensures Restored(start, 0, start)
  {
    assert forall i | 0 <= i < |a.motors| :: SameSetting(a.motors[i], start.motors[i]);
  }

  lemma RestoredPresent(a: State, s: State)
    requires Restored(a, |a.motors|, s) && SameSetup(a.motors, s.motors)
    ensures s.flags.rail && Present(s.motors, s.bus)
  {
    assert forall i | 0 <= i < |a.motors| :: SameSetting(a.motors[i], s.motors[i]);
  }

  predicate NoneConfirmed(motors: seq<Motor>) {
    forall i | 0 <= i < |motors| :: !motors[i].confirmed
  }

  lemma NoneMarked(a: seq<Motor>, id: u8, b: seq<Motor>)
    requires NoneConfirmed(a) && SameMotors(Marked(a, id, false), b)
    ensures NoneConfirmed(b)
  {
    assert forall i | 0 <= i < |a| :: SameMotor(Marked(a, id, false)[i], b[i]);
  }

  /** Servos on the bus stay on it. */
  lemma PresentLater(a: State, b: State)
    requires Rely(a, b) && Present(a.motors, a.bus)
    ensures Present(b.motors, b.bus)
  {
    assert forall i | 0 <= i < |a.motors| :: SameMotor(a.motors[i], b.motors[i]);
  }

  /** Clearing the flags and writing every servo's settings back. */
  lemma RestoredWhole(a: State, start: State, s: State)
    requires SameSetup(a.motors, start.motors) && a.bus == start.bus && Restored(start, |start.motors|, s)
    ensures Restored(a, |a.motors|, s)
  {
    SameSetupIds(a.motors, start.motors);
    forall j | 0 <= j < |a.motors|
      ensures a.motors[j].id == start.motors[j].id && a.motors[j].velocity == start.motors[j].velocity
    {
      assert SameSetting(a.motors[j], start.motors[j]);
    }
  }

  lemma RestoringPassed(a: State, start: State, s: State)
    requires Passed(a, start, {}, false) && Restoring(start, s)
    ensures Passed(a, s, Ids(a.motors), false)
  {
    SameSetupIds(a.motors, start.motors);
    PassedTransitive(a, start, s, {}, Ids(start.motors), false);
    assert {} + Ids(start.motors) == Ids(a.motors);
  }

  lemma RecoveredWhole(a: State, s: State, b: State, enabled: bool)
    requires Restored(a, |a.motors|, s) && SameSetup(a.motors, s.motors) && SameMotors(s.motors, b.motors)
    requires Swept(s.bus, s.motors, if enabled then |s.motors| else 0, true, b)
    ensures Present(a.motors, a.bus) && Recovered(a, b, enabled)
  {
    forall j | 0 <= j < |a.motors|
      ensures a.motors[j].id in b.bus && b.motors[j].confirmed
      ensures var m := a.motors[j];
              m.id in a.bus && b.bus[m.id] == Servo(m.velocity, if enabled then 1 else a.bus[m.id].torque, 1)
    {
      assert SameSetting(a.motors[j], s.motors[j]) && SameMotor(s.motors[j], b.motors[j]);
    }
  }

  lemma RecoveryPassed(a: State, s: State, b: State)
    requires Passed(a, s, Ids(a.motors), false) && Ran(s, b, Ids(s.motors), true)
    ensures Passed(a, b, Ids(a.motors), true)
    ensures SameSetup(a.motors, s.motors) && SameMotors(s.motors, b.motors)
  {
    SameSetupIds(a.motors, s.motors);
    PassedWider(a, s, Ids(a.motors), Ids(a.motors), false);
    PassedThenRan(a, s, b, Ids(a.motors), Ids(s.motors), true);
  }

  // ---- What a whole pass does ----

  /** Time passes: the history grows, and no servo gains torque without a note. */
  predicate Grown(a: State, b: State) {
    a.bus.Keys == b.bus.Keys && a.history <= b.history && Recorded(a, b)
  }

  /** The same, without another pass. */
  predicate Extended(a: State, b: State) {
    Grown(a, b) && forall i | |a.history| <= i < |b.history| :: b.history[i] != PassStarted
  }

  /** Like Passed, except that the torque request or a re-init may be taken up. */
  predicate Continued(a: State, b: State) {
    Extended(a, b) && SameSetup(a.motors, b.motors)
  }

  lemma PassedContinued(a: State, b: State, ids: set<u8>, energizing: bool)
    requires Passed(a, b, ids, energizing)
    ensures Continued(a, b)
  {
  }

  lemma RanContinued(a: State, b: State, ids: set<u8>, energizing: bool)
    requires Ran(a, b, ids, energizing)
    ensures Continued(a, b)
  {
    SameMotorsSetup(a.motors, b.motors);
  }

  lemma ContinuedTransitive(a: State, b: State, c: State)
    requires Continued(a, b) && Continued(b, c)
    ensures Continued(a, c)
  {
    SameSetupTransitive(a.motors, b.motors, c.motors);
    RecordedTransitive(a, b, c);
    assert forall i | |a.history| <= i < |b.history| :: c.history[i] == b.history[i];
  }

  lemma ExtendedTransitive(a: State, b: State, c: State)
    requires Extended(a, b) && Extended(b, c)
    ensures Extended(a, c)
  {
    RecordedTransitive(a, b, c);
    assert forall i | |a.history| <= i < |b.history| :: c.history[i] == b.history[i];
  }

  /** The servo task takes up a re-init: nothing but a flag changes. */
  lemma FlagContinued(a: State, b: State)
    requires b.motors == a.motors && b.bus == a.bus && b.history == a.history
    ensures Continued(a, b)
  {
  }

  /** Clearing the re-init flag keeps the invariant, given that confirmed flags are then not to be trusted. */
  lemma TakenUp(s: State)
    requires Invariant(s)
    ensures Invariant(s.(reinit := false, stale := true))
  {
  }

  /** The servo task takes the torque request, whatever it is by now. */
  function Took(s: State): State {
    s.(flags := s.flags.(request := NoRequest), history := s.history + [TookRequest])
  }

  lemma TookGood(s: State)
    requires Invariant(s)
    ensures Invariant(Took(s)) && Continued(s, Took(s))
  {
    ChronicleGrows(s, TookRequest, Took(s));
  }

  /** A re-init taken up and carried out. */
  lemma TakenContinued(a: State, b: State, taken: State, c: State, ids: set<u8>)
    requires Rely(a, b) && taken == b.(reinit := false, stale := true) && Passed(taken, c, ids, true)
    ensures Continued(a, c)
  {
    RanContinued(a, b, {}, false);
    FlagContinued(b, taken);
    PassedContinued(taken, c, ids, true);
    ContinuedTransitive(a, b, taken);
    ContinuedTransitive(a, taken, c);
  }

  lemma AskedMeanwhile(a: State, b: State)
    requires Invariant(a) && Rely(a, b)
    ensures a.flags.request == Enable ==> EnableAsked(b.history)
  {
    EnableWasAsked(a.history);
    if a.flags.request == Enable {
      var i :| 0 <= i < |a.history| && a.history[i] == Saw(RequestTorque(true));
      assert b.history[i] == a.history[i];
    }
  }

  predicate AllReleased(motors: seq<Motor>, bus: map<u8, Servo>) {
    forall j | 0 <= j < |motors| :: motors[j].id in bus && bus[motors[j].id].torque == 0
  }

  lemma SweptReleased(a: State, b: State)
    requires Swept(a.bus, a.motors, |a.motors|, false, b)
    ensures AllReleased(a.motors, b.bus)
  {
  }

  predicate EnergizedFrom(h: History, u: nat, id: u8) {
    exists i | u <= i < |h| :: h[i].Energized? && h[i].id == id
  }

  /** Every one of these servos is released, unless the history notes that it was energized since u. */
  predicate ReleasedSince(u: nat, s: State, motors: seq<Motor>) {
    forall j | 0 <= j < |motors| && motors[j].id in s.bus ::
      s.bus[motors[j].id].torque == 0 || EnergizedFrom(s.history, u, motors[j].id)
  }

  lemma ReleasedKept(u: nat, a: State, b: State, motors: seq<Motor>)
    requires u <= |a.history| && ReleasedSince(u, a, motors) && Grown(a, b)
    ensures ReleasedSince(u, b, motors)
  {
    forall j | 0 <= j < |motors| && motors[j].id in b.bus && b.bus[motors[j].id].torque != 0
      ensures EnergizedFrom(b.history, u, motors[j].id)
    {
      var id := motors[j].id;
      if a.bus[id].torque != 0 {
        var i :| u <= i < |a.history| && a.history[i].Energized? && a.history[i].id == id;
        assert b.history[i] == a.history[i];
      } else {
        assert EnergizedBetween(a, b, id);
      }
    }
  }

  /** Every request taken in the last part of this history, unless it was ENABLE, has left these servos released. */
  predicate RequestsServed(from: nat, s: State, motors: seq<Motor>) {
    !EnableAsked(s.history) ==>
      forall u | from <= u < |s.history| && s.history[u] == TookRequest :: ReleasedSince(u, s, motors)
  }

  /** No request was taken on the way from h to g. */
  predicate NoneTaken(h: History, g: History) {
    forall i | |h| <= i < |g| :: g[i] != TookRequest
  }

  predicate SomeTaken(h: History, g: History) {
    exists i | |h| <= i < |g| :: g[i] == TookRequest
  }

  lemma NoneTakenTransitive(f: History, g: History, h: History)
    requires f <= g <= h && NoneTaken(f, g) && NoneTaken(g, h)
    ensures NoneTaken(f, h)
  {
    assert forall i | |f| <= i < |g| :: h[i] == g[i];
  }

  lemma TakenHere(f: History, g: History, h: History)
    requires f <= g && g + [TookRequest] <= h
    ensures SomeTaken(f, h)
  {
    assert h[|g|] == (g + [TookRequest])[|g|];
  }

  lemma PassTook(f: History, g: History, h: History)
    requires f + [PassStarted] <= g <= h
    ensures SomeTaken(f + [PassStarted], g) ==> SomeTaken(f, h)
  {
    if SomeTaken(f + [PassStarted], g) {
      var i :| |f| + 1 <= i < |g| && g[i] == TookRequest;
      assert h[i] == g[i];
    }
  }

  lemma TookAsked(s: State)
    ensures EnableAsked(s.history) ==> EnableAsked(Took(s).history)
  {
    if EnableAsked(s.history) {
      EnableAskedGrows(s.history, Took(s).history);
    }
  }

  /** A pass that took a request and serviced it. */
  lemma PendingServed(a: State, b: State, c: State, requested: TorqueRequest)
    requires requested != NoRequest && (requested == Enable ==> EnableAsked(b.history)) && b.history <= c.history
    requires SameSetup(a.motors, b.motors) && (requested == Disable ==> AllReleased(b.motors, c.bus))
    ensures RequestsServed(|a.history|, c, a.motors)
  {
    if requested == Enable {
      EnableAskedGrows(b.history, c.history);
    } else {
      assert forall i | 0 <= i < |a.motors| :: SameSetting(a.motors[i], b.motors[i]);
      ReleasedServed(|a.history|, c, a.motors);
    }
  }

  lemma EnableAskedGrows(h: History, g: History)
    requires h <= g && EnableAsked(h)
    ensures EnableAsked(g)
  {
    var i :| 0 <= i < |h| && h[i] == Saw(RequestTorque(true));
    assert g[i] == h[i];
  }

  lemma ServedKept(from: nat, a: State, b: State, motors: seq<Motor>)
    requires RequestsServed(from, a, motors) && Extended(a, b) && NoneTaken(a.history, b.history)
    ensures RequestsServed(from, b, motors)
  {
    if EnableAsked(a.history) {
      EnableAskedGrows(a.history, b.history);
    } else {
      forall u | from <= u < |b.history| && b.history[u] == TookRequest
        ensures ReleasedSince(u, b, motors)
      {
        assert a.history[u] == b.history[u];
        ReleasedKept(u, a, b, motors);
      }
    }
  }

  lemma ServedMeanwhile(from: nat, a: State, b: State, motors: seq<Motor>)
    requires Rely(a, b)
    ensures RequestsServed(from, a, motors) ==> RequestsServed(from, b, motors)
  {
    if RequestsServed(from, a, motors) {
      ServedKept(from, a, b, motors);
    }
  }

  lemma ServedFurther(from: nat, a: State, b: State, motors: seq<Motor>)
    requires Continued(a, b) && NoneTaken(a.history, b.history)
    ensures RequestsServed(from, a, motors) ==> RequestsServed(from, b, motors)
  {
    if RequestsServed(from, a, motors) {
      ServedKept(from, a, b, motors);
    }
  }

  lemma StillTaken(f: History, g: History, h: History)
    requires f <= g <= h
    ensures SomeTaken(f, g) ==> SomeTaken(f, h)
  {
    if SomeTaken(f, g) {
      var i :| |f| <= i < |g| && g[i] == TookRequest;
      assert h[i] == g[i];
    }
  }

  lemma ReleasedServed(from: nat, s: State, motors: seq<Motor>)
    requires AllReleased(motors, s.bus)
    ensures RequestsServed(from, s, motors)
  {
  }

  /** Every configured servo is marked confirmed, holds its stored velocity and is lit. */
  predicate AllSet(s: State) {
    forall j | 0 <= j < |s.motors| ::
      s.motors[j].confirmed && HoldsVelocity(s.motors[j], s.bus) && s.bus[s.motors[j].id].led == 1
  }

  lemma RecoveredSet(a: State, b: State, enabled: bool)
    requires Present(a.motors, a.bus) && Recovered(a, b, enabled) && SameSetup(a.motors, b.motors)
    ensures AllSet(b) && (enabled ==> AllTorqued(b))
  {
    assert forall j | 0 <= j < |a.motors| :: SameSetting(a.motors[j], b.motors[j]);
  }

  predicate AllTorqued(s: State) {
    forall j | 0 <= j < |s.motors| :: s.motors[j].id in s.bus && s.bus[s.motors[j].id].torque == 1
  }

  /** Every servo is set up again, and holds torque unless the emergency stop is active or no frame has been seen. */
  predicate Restarted(s: State) {
    AllSet(s) && (AllTorqued(s) || s.flags.estop || !s.flags.frame)
  }

  /** Exactly the servos marked confirmed hold torque. */
  predicate ConfirmedTorqued(s: State) {
    forall j | 0 <= j < |s.motors| ::
      s.motors[j].id in s.bus && s.bus[s.motors[j].id].torque == Want(s.motors[j], true)
  }

  lemma SweptTorqued(a: State, b: State)
    requires Swept(a.bus, a.motors, |a.motors|, true, b) && SameMotors(a.motors, b.motors)
    ensures ConfirmedTorqued(b)
  {
    assert forall j | 0 <= j < |a.motors| :: SameMotor(a.motors[j], b.motors[j]);
  }

  lemma TorquedMeanwhile(a: State, b: State)
    requires Rely(a, b) && b.bus == a.bus
    ensures ConfirmedTorqued(a) ==> ConfirmedTorqued(b)
  {
    assert forall j | 0 <= j < |a.motors| :: SameMotor(a.motors[j], b.motors[j]);
  }

  /** The task has found itself told to run on the way from h to g. */
  predicate SomeFound(h: History, g: History) {
    exists i | |h| <= i < |g| :: g[i] == FoundRunning
  }

  lemma FoundHere(f: History, g: History, h: History)
    requires f <= g && g + [FoundRunning] <= h
    ensures SomeFound(f, h)
  {
    assert h[|g|] == (g + [FoundRunning])[|g|];
  }

  lemma StillFound(f: History, g: History, h: History)
    requires f <= g <= h && SomeFound(g, h)
    ensures SomeFound(f, h)
  {
  }

  lemma PassGoesOn(f: History, a: State, b: State, reinitialized: bool)
    requires f <= a.history <= b.history && (reinitialized ==> SomeFound(a.history, b.history))
    ensures reinitialized ==> SomeFound(f, b.history)
    ensures NoStops(f, b.history) ==> NoStops(f, a.history)
  {
    if reinitialized {
      StillFound(f, a.history, b.history);
    }
    if NoStops(f, b.history) {
      NoStopsBefore(f, a.history, b.history);
    }
  }

  lemma NoStopsBefore(f: History, g: History, h: History)
    requires f <= g <= h && NoStops(f, h)
    ensures NoStops(f, g)
  {
    assert forall i | |f| <= i < |g| :: g[i] == h[i];
  }

  lemma PassPaused(a: State, b: State, c: State)
    requires Continued(a, b) && Rely(b, c)
    ensures Continued(a, c)
  {
    RanContinued(b, c, {}, false);
    ContinuedTransitive(a, b, c);
  }

  lemma ContinuedInPass(a: State, b: State)
    requires InPass(a.history) && Continued(a, b)
    ensures InPass(b.history)
  {
    var p: nat :| BeganAt(a.history, p);
    assert forall i | 0 <= i < |a.history| :: b.history[i] == a.history[i];
    assert BeganAt(b.history, p);
  }

  lemma ContinuedPresent(a: State, b: State)
    requires Continued(a, b) && Present(a.motors, a.bus)
    ensures Present(b.motors, b.bus)
  {
    assert forall i | 0 <= i < |a.motors| :: SameSetting(a.motors[i], b.motors[i]);
  }

  /** What has been done since a pause in which the task found itself told to run. */
  lemma RecoveredMeanwhile(s0: State, s2: State, s: State, reinitialized: bool)
    requires Rely(s0, s2) && s0.history + [FoundRunning] <= s2.history
    requires Continued(s2, s) && NoneTaken(s2.history, s.history) && (!reinitialized ==> Rely(s2, s))
    ensures Continued(s0, s) && NoneTaken(s0.history, s.history) && SomeFound(s0.history, s.history)
    ensures !reinitialized ==> Rely(s0, s)
  {
    RanContinued(s0, s2, {}, false);
    ContinuedTransitive(s0, s2, s);
    NoneTakenTransitive(s0.history, s2.history, s.history);
    FoundHere(s0.history, s0.history, s.history);
    if !reinitialized {
      RelyTransitive(s0, s2, s);
    }
  }

  /** What a pass has done so far still stands after a pause. */
  lemma BegunMeanwhile(before: History, s0: State, s1: State, s2: State)
    requires s0.history == before + [PassStarted] && InPass(s1.history) && Continued(s0, s1) && Rely(s1, s2)
    ensures Continued(s0, s2) && InPass(s2.history)
    ensures SomeTaken(s0.history, s1.history) ==> SomeTaken(before, s2.history)
    ensures RequestsServed(|s0.history|, s1, s0.motors) ==> RequestsServed(|s0.history|, s2, s0.motors)
    ensures Present(s0.motors, s0.bus) ==> Present(s2.motors, s2.bus)
    ensures s2.bus == s1.bus && ConfirmedTorqued(s1) ==> ConfirmedTorqued(s2)
  {
    InPassMeanwhile(s1, s2);
    PassPaused(s0, s1, s2);
    PassTook(before, s1.history, s2.history);
    ServedMeanwhile(|s0.history|, s1, s2, s0.motors);
    if Present(s0.motors, s0.bus) {
      ContinuedPresent(s0, s2);
    }
    if s2.bus == s1.bus {
      TorquedMeanwhile(s1, s2);
    }
  }

  // ---- Configuration ----

  /** The midpoint the firmware computes in 32 bits. */
  function Center(minPosition: u32, maxPosition: u32): u32 {
    (minPosition as int + maxPosition as int) % 0x1_0000_0000 / 2
  }

  predicate Configurable(motors: seq<Motor>, id: u8) {
    1 <= id <= MAX_ID && |motors| < MAX_SERVOS && forall i | 0 <= i < |motors| :: motors[i].id != id
  }

  /** A newly configured servo starts at the middle of its range, below the speed limit, and unconfirmed. */
  function Configured(motors: seq<Motor>, id: u8, minPosition: u32, maxPosition: u32, velocity: u32): seq<Motor> {
    motors + [Motor(id, minPosition, maxPosition, Center(minPosition, maxPosition), Capped(velocity), false)]
  }

  function Capped(velocity: u32): u32 {
    if velocity > MAX_PROFILE_VELOCITY then MAX_PROFILE_VELOCITY else velocity
  }

  /** The new entry: its limits as given, its start halfway, its speed limited, and not confirmed. */
  lemma ConfiguredExactly(motors: seq<Motor>, id: u8, minPosition: u32, maxPosition: u32, velocity: u32)
    ensures var longer := Configured(motors, id, minPosition, maxPosition, velocity); var m := longer[|motors|];
            && |longer| == |motors| + 1 && longer[..|motors|] == motors
            && m.id == id && m.minPosition == minPosition && m.maxPosition == maxPosition && !m.confirmed
            && m.requested == (minPosition as int + maxPosition as int) / 2 % 0x8000_0000
            && m.velocity == if velocity <= 267 then velocity else 267
  {
  }

  lemma ConfiguredLast(motors: seq<Motor>, id: u8, minPosition: u32, maxPosition: u32, velocity: u32)
    ensures var longer := Configured(motors, id, minPosition, maxPosition, velocity); var m := longer[|longer| - 1];
            m.id == id && m.velocity == Capped(velocity)
  {
  }

  lemma ConfiguredWell(motors: seq<Motor>, id: u8, minPosition: u32, maxPosition: u32, velocity: u32)
    requires WellFormed(motors) && Configurable(motors, id)
    ensures WellFormed(Configured(motors, id, minPosition, maxPosition, velocity))
  {
    var longer := Configured(motors, id, minPosition, maxPosition, velocity);
    assert forall i | 0 <= i < |motors| :: longer[i] == motors[i];
  }

  lemma ConfiguredGood(s: State, id: u8, minPosition: u32, maxPosition: u32, velocity: u32)
    requires Invariant(s) && Configurable(s.motors, id)
    ensures Invariant(s.(motors := Configured(s.motors, id, minPosition, maxPosition, velocity)))
  {
    ConfiguredWell(s.motors, id, minPosition, maxPosition, velocity);
    var motors := Configured(s.motors, id, minPosition, maxPosition, velocity);
    assert forall i | 0 <= i < |s.motors| :: motors[i] == s.motors[i];
  }

  lemma LastSame(a: seq<Motor>, b: seq<Motor>)
    requires SameMotors(a, b) && |a| > 0
    ensures b[|b| - 1].id == a[|a| - 1].id && b[|b| - 1].velocity == a[|a| - 1].velocity
  {
    assert SameMotor(a[|a| - 1], b[|a| - 1]);
  }

  lemma PassedSince(a: State, b: State, c: State)
    requires Rely(a, b) && Passed(b, c, Ids(b.motors), false)
    ensures Passed(a, c, Ids(a.motors), false)
  {
    RanPassed(a, b, {}, false);
    SameSetupIds(a.motors, b.motors);
    PassedTransitive(a, b, c, {}, Ids(b.motors), false);
    assert {} + Ids(b.motors) == Ids(a.motors);
  }

  lemma MarkedLast(a: seq<Motor>, b: seq<Motor>)
    requires |a| > 0
    ensures SameMotors(Marked(a, a[|a| - 1].id, true), b) ==> b != [] && b[|b| - 1].confirmed
  {
    if SameMotors(Marked(a, a[|a| - 1].id, true), b) {
      assert SameMotor(Marked(a, a[|a| - 1].id, true)[|a| - 1], b[|a| - 1]);
    }
  }

  /** The servo configured last is marked as not confirmed. */
  lemma MarkedRestoring(start: State)
    requires Invariant(start) && !start.stale && |start.motors| > 0
    ensures Restoring(start, Noting(start, start.motors[|start.motors| - 1].id, false))
  {
    RestoringBegins(start);
    RestoringMarks(start, start, |start.motors| - 1, false);
  }

  lemma ReinitAsked(start: State, a: State, b: State)
    requires Restoring(start, a) && Rely(a, b) && Invariant(b)
    ensures Invariant(b.(reinit := true)) && Passed(start, b.(reinit := true), Ids(start.motors), false)
  {
    RanWider(a, b, Ids(start.motors), false);
    PassedThenRan(start, a, b, Ids(start.motors), Ids(start.motors), false);
  }

  /** A change to the motor map alone. */
  lemma FlagExtended(a: State, b: State)
    requires b.bus == a.bus && b.history == a.history
    ensures Extended(a, b)
  {
  }

  lemma PassedExtended(a: State, b: State, ids: set<u8>)
    requires Passed(a, b, ids, false)
    ensures Extended(a, b) && SameSetup(a.motors, b.motors) && NoneTaken(a.history, b.history)
  {
  }

  lemma ConfiguredExtended(a: State, b: State, c: State)
    requires b.bus == a.bus && b.history == a.history && Passed(b, c, Ids(b.motors), false)
    ensures Extended(a, c) && SameSetup(b.motors, c.motors) && NoneTaken(a.history, c.history)
  {
    FlagExtended(a, b);
    PassedExtended(b, c, Ids(b.motors));
    ExtendedTransitive(a, b, c);
  }

  lemma RanExtended(a: State, b: State, c: State, ids: set<u8>, energizing: bool)
    requires Extended(a, b) && NoneTaken(a.history, b.history) && Ran(b, c, ids, energizing)
    ensures Extended(a, c) && NoneTaken(a.history, c.history)
  {
    assert Extended(b, c) && NoneTaken(b.history, c.history);
    ExtendedTransitive(a, b, c);
    NoneTakenTransitive(a.history, b.history, c.history);
  }

  lemma ForgottenGood(s: State)
    requires Invariant(s)
    ensures Invariant(s.(motors := []))
  {
  }

  lemma ResetExtended(a: State, b: State, c: State)
    requires b == Took(a) && Extended(b, c)
    ensures Extended(a, c.(motors := [])) && SomeTaken(a.history, c.history)
  {
    assert Extended(a, b);
    ExtendedTransitive(a, b, c);
    FlagExtended(c, c.(motors := []));
    ExtendedTransitive(a, c, c.(motors := []));
    TakenHere(a.history, a.history, c.history);
  }

  /** The bus, once the first k servos have also been darkened. */
  predicate Darkened(bus: map<u8, Servo>, motors: seq<Motor>, k: nat) {
    k <= |motors| && Present(motors, bus) && forall j | 0 <= j < k :: bus[motors[j].id].led == 0
  }

  /** The states with the rail up in which every servo is released and k of them dark. */
  ghost predicate Dimmed(motors: seq<Motor>, k: nat, s: State) {
    s.flags.rail && AllReleased(motors, s.bus) && Darkened(s.bus, motors, k)
  }

  lemma DimmedStep(motors: seq<Motor>, k: nat, a: State, b: State)
    requires Dimmed(motors, k, a) && k < |motors| && b.flags.rail && motors[k].id in a.bus
    requires b.bus == a.bus[motors[k].id := Set(a.bus[motors[k].id], Led, 0)]
    ensures Dimmed(motors, k + 1, b)
  {
  }
}
