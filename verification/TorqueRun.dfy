/**
 Whole runs: passes of the servo task and CONFIG handling one after another, with everything that other tasks and the
 bus may do in between, and what a disconnect then brings about.
 */
module TorqueRun {
  import opened Bytes
  import opened Sequences
  import opened TorqueRecovery
  import opened TorqueSafety
  import opened TorqueState
  import opened TorqueTask

  /** Where the firmware is between two jobs. */
  datatype Stage = Stage(state: State, now: nat)

  predicate AsksTorque(o: Observation) {
    o.Saw? && o.event.RequestTorque?
  }

  /** A request made at d has been taken since. */
  predicate TakenSince(h: History, d: nat) {
    exists u | d < u < |h| :: h[u] == TookRequest
  }

  /** The history h has gone on to g with another pass, and nothing was energized before that pass began. */
  predicate PassAdded(h: History, g: History) {
    exists p | |h| <= p < |g| :: g[p] == PassStarted && forall k | |h| <= k < p :: !g[k].Energized?
  }

  /** A pass takes every request made before it, if it has not been taken already. */
  predicate RequestsTaken(h: History, g: History) {
    forall d | 0 <= d < |h| && AsksTorque(h[d]) :: TakenSince(g, d)
  }

  /** The rail is up, every servo of the map is on the bus, and in these steps nothing is in the way. */
  ghost predicate Unhindered(events: nat -> seq<Event>, attempts: nat -> Attempt, a: Stage, to: nat) {
    a.state.flags.rail && Present(a.state.motors, a.state.bus) && CalmOver(events, attempts, a.now, to)
  }

  /** No caller asks for the servos to be released on the way from h to g. */
  predicate NoDisables(h: History, g: History) {
    forall i | |h| <= i < |g| :: g[i] != Saw(RequestTorque(false))
  }

  /** A pass told to run with a re-init pending sets every servo up again, and an ENABLE request brings torque. */
  predicate PassWorks(a: State, b: State) {
    && (a.flags.running && a.reinit && a.motors != [] && NoStops(a.history, b.history) ==> Restarted(b))
    && (a.flags.request == Enable && NoDisables(a.history, b.history) ==>
          Restarted(b) || ConfirmedTorqued(b) || b.flags.estop || b.reinit)
  }

  /** What a job brings about with nothing in its way. */
  predicate JobWorks(job: Job, a: State, b: State) {
    match job
    case Pass => PassWorks(a, b)
    case Configure(id, _, _, velocity) =>
      Configurable(a.motors, id) && id in a.bus ==>
        b.motors != [] && b.motors[|b.motors| - 1].confirmed && b.bus == Settings(a.bus, id, Capped(velocity))
    case ResetMap => AllReleased(a.motors, b.bus) && Darkened(b.bus, a.motors, |a.motors|)
  }

  /** A pending re-init stays pending until a pass finds itself told to run. */
  predicate ReinitKept(a: State, b: State) {
    a.reinit && !SomeFound(a.history, b.history) ==> b.reinit
  }

  /** What a job does between two stages. */
  ghost predicate JobDone(events: nat -> seq<Event>, attempts: nat -> Attempt, job: Job, a: Stage, b: Stage) {
    && a.now < b.now && Invariant(b.state) && b.state.seen == Happened(events, b.now) && Grown(a.state, b.state)
    && Passes(b.state.history) == Passes(a.state.history) + (if job.Pass? then 1 else 0)
    && (job.Pass? ==>
          PassAdded(a.state.history, b.state.history) && RequestsTaken(a.state.history, b.state.history))
    && SameSetup(MapAfter(job, a.state.motors), b.state.motors)
    && ReinitKept(a.state, b.state)
    && (Unhindered(events, attempts, a, b.now) ==>
          RequestsServed(|a.state.history|, b.state, a.state.motors) && JobWorks(job, a.state, b.state))
  }

  lemma {:induction false} NoPassesAdded(h: History, g: History)
    requires h <= g && forall i | |h| <= i < |g| :: g[i] != PassStarted
    ensures Passes(g) == Passes(h)
    decreases |g|
  {
    if |h| < |g| {
      NoPassesAdded(h, g[..|g| - 1]);
    } else {
      assert h == g;
    }
  }

  lemma RequestTakenBy(h: History, y: History, g: History, d: nat)
    requires h <= y <= g && d < |h| && AsksTorque(h[d])
    requires FlagsIn(y).request != NoRequest ==> SomeTaken(y, g)
    ensures TakenSince(g, d)
  {
    assert y[d] == h[d];
    RequestKept(y, d);
    if FlagsIn(y).request == NoRequest {
      var u :| d < u < |y| && y[u] == TookRequest;
      assert g[u] == y[u];
    }
  }

  lemma PassHistory(a: State, y: State, b: State)
    requires Rely(a, y) && Continued(Observing(y, PassStarted), b)
    requires FlagsIn(y.history).request != NoRequest ==> SomeTaken(y.history, b.history)
    ensures Passes(b.history) == Passes(a.history) + 1 && PassAdded(a.history, b.history)
    ensures RequestsTaken(a.history, b.history)
  {
    var begun := Observing(y, PassStarted).history;
    NoPassesAdded(a.history, y.history);
    OneMore(y.history, PassStarted);
    NoPassesAdded(begun, b.history);
    assert forall k | 0 <= k < |begun| :: b.history[k] == begun[k];
    assert b.history[|y.history|] == PassStarted;
    forall d | 0 <= d < |a.history| && AsksTorque(a.history[d])
      ensures TakenSince(b.history, d)
    {
      RequestTakenBy(a.history, y.history, b.history, d);
    }
  }

  lemma GrownTransitive(a: State, b: State, c: State)
    requires Grown(a, b) && Grown(b, c)
    ensures Grown(a, c)
  {
    RecordedTransitive(a, b, c);
  }

  lemma ServedSame(from: nat, s: State, a: seq<Motor>, b: seq<Motor>)
    requires SameMotors(a, b) && RequestsServed(from, s, b)
    ensures RequestsServed(from, s, a)
  {
    assert forall i | 0 <= i < |a| :: SameMotor(a[i], b[i]);
  }

  lemma NothingTakenMeanwhile(a: State, y: State, b: State, motors: seq<Motor>)
    requires Rely(a, y) && y.history <= b.history
    requires RequestsServed(|y.history|, b, motors)
    ensures RequestsServed(|a.history|, b, motors)
  {
    assert forall u | |a.history| <= u < |y.history| :: b.history[u] == y.history[u];
  }

  /** Serving requests over a whole job, some time before the firmware began on it. */
  lemma JobServed(a: State, y: State, b: State)
    requires Rely(a, y) && y.history <= b.history && RequestsServed(|y.history|, b, y.motors)
    ensures RequestsServed(|a.history|, b, a.motors)
  {
    NothingTakenMeanwhile(a, y, b, y.motors);
    ServedSame(|a.history|, b, a.motors, y.motors);
  }

  lemma PassServed(y: State, b: State, motors: seq<Motor>)
    requires y.history + [PassStarted] <= b.history && RequestsServed(|y.history| + 1, b, motors)
    ensures RequestsServed(|y.history|, b, motors)
  {
    assert b.history[|y.history|] == (y.history + [PassStarted])[|y.history|];
  }

  // ---- Jobs ----

  ghost function StageOf(f: Firmware): Stage
    reads f
  {
    Stage(f.Now(), f.now)
  }

  lemma PassGrown(a: State, y: State, b: State)
    requires Rely(a, y) && Continued(Observing(y, PassStarted), b)
    ensures Grown(a, b) && SameSetup(a.motors, b.motors) && y.history + [PassStarted] <= b.history
  {
    assert Grown(y, Observing(y, PassStarted)) && Grown(Observing(y, PassStarted), b);
    GrownTransitive(y, Observing(y, PassStarted), b);
    GrownTransitive(a, y, b);
    SameMotorsSetup(a.motors, y.motors);
    SameSetupTransitive(a.motors, y.motors, b.motors);
  }

  lemma ReinitHeld(a: State, y: State, b: State)
    requires Rely(a, y) && y.history <= b.history && ReinitKept(y, b)
    ensures ReinitKept(a, b)
  {
  }

  /** What happens before a pass begins neither stops it nor takes its request. */
  lemma StillTold(a: State, y: State, b: State)
    requires Rely(a, y) && y.history <= b.history && Invariant(a) && Invariant(y)
    ensures a.flags.running && NoStops(a.history, b.history) ==> y.flags.running
    ensures a.flags.request == Enable && NoDisables(a.history, b.history) ==> y.flags.request == Enable
  {
    assert forall i | |a.history| <= i < |y.history| :: y.history[i] == b.history[i];
    RunsOn(a.history, y.history);
    if a.flags.request == Enable && NoDisables(a.history, b.history) {
      StillEnable(a.history, y.history);
    }
  }

  lemma PassHasWorked(a: State, y: State, b: State)
    requires Rely(a, y) && y.history <= b.history && Invariant(a) && Invariant(y)
    ensures PassWorks(y, b) ==> PassWorks(a, b)
  {
    StillTold(a, y, b);
  }

  /** What a pass that began at y has served, said of the stage before it. */
  lemma PassHasServed(a: State, y: State, b: State)
    requires Rely(a, y) && y.history + [PassStarted] <= b.history
    requires RequestsServed(|y.history| + 1, b, y.motors)
    ensures RequestsServed(|a.history|, b, a.motors)
  {
    PassServed(y, b, y.motors);
    JobServed(a, y, b);
  }

  /** A pass, after whatever has happened since the last job. */
  method DoPass(f: Firmware)
    requires f.Valid() && !f.stale
    modifies f
    ensures f.Valid() && !f.stale
    ensures JobDone(f.events, f.attempts, Pass, old(StageOf(f)), StageOf(f))
  {
    ghost var a := StageOf(f);
    f.Yield();
    ghost var y := f.Now();
    var reinitialized := f.TaskPass();
    ghost var b := StageOf(f);
    PassGrown(a.state, y, b.state);
    ReinitHeld(a.state, y, b.state);
    PassHistory(a.state, y, b.state);
    CalmKnown(f.events, f.attempts, f.seen, f.now, f.troubled, f.heard, a.now);
    if Unhindered(f.events, f.attempts, a, b.now) {
      PresentLater(a.state, y);
      PassHasServed(a.state, y, b.state);
      PassHasWorked(a.state, y, b.state);
    }
  }

  lemma OtherGrown(job: Job, a: State, y: State, b: State)
    requires !job.Pass? && Rely(a, y) && Extended(y, b) && SameSetup(MapAfter(job, y.motors), b.motors)
    ensures Grown(a, b) && Passes(b.history) == Passes(a.history) && SameSetup(MapAfter(job, a.motors), b.motors)
  {
    GrownTransitive(a, y, b);
    NoPassesAdded(a.history, y.history);
    NoPassesAdded(y.history, b.history);
    SameMotorsSetup(a.motors, y.motors);
    MapAfterSame(job, a.motors, y.motors);
    SameSetupTransitive(MapAfter(job, a.motors), MapAfter(job, y.motors), b.motors);
  }

  lemma ConfigureHasWorked(job: Job, a: State, y: State, b: State)
    requires Rely(a, y) && y.bus == a.bus && job.Configure? && JobWorks(job, y, b)
    ensures JobWorks(job, a, b)
  {
    assert forall i | 0 <= i < |a.motors| :: SameMotor(a.motors[i], y.motors[i]);
  }

  lemma ResetHasWorked(a: State, y: State, b: State)
    requires Rely(a, y) && JobWorks(ResetMap, y, b)
    ensures JobWorks(ResetMap, a, b)
  {
    assert forall i | 0 <= i < |a.motors| :: SameMotor(a.motors[i], y.motors[i]);
  }

  method DoConfigure(f: Firmware, job: Job)
    requires f.Valid() && !f.stale && job.Configure?
    modifies f
    ensures f.Valid() && !f.stale
    ensures JobDone(f.events, f.attempts, job, old(StageOf(f)), StageOf(f))
  {
    ghost var a := StageOf(f);
    f.Yield();
    ghost var y := f.Now();
    var _, _ := f.ConfigureDynamixelServo(job.id, job.minPosition, job.maxPosition, job.profileVelocity);
    ghost var b := StageOf(f);
    OtherGrown(job, a.state, y, b.state);
    ReinitHeld(a.state, y, b.state);
    CalmKnown(f.events, f.attempts, f.seen, f.now, f.troubled, f.heard, a.now);
    assert RequestsServed(|y.history|, b.state, y.motors);
    JobServed(a.state, y, b.state);
    if Unhindered(f.events, f.attempts, a, b.now) {
      ConfigureHasWorked(job, a.state, y, b.state);
    }
  }

  method DoReset(f: Firmware)
    requires f.Valid() && !f.stale
    modifies f
    ensures f.Valid() && !f.stale
    ensures JobDone(f.events, f.attempts, ResetMap, old(StageOf(f)), StageOf(f))
  {
    ghost var a := StageOf(f);
    f.Yield();
    ghost var y := f.Now();
    f.ResetDynamixelMotorMap();
    ghost var b := StageOf(f);
    OtherGrown(ResetMap, a.state, y, b.state);
    ReinitHeld(a.state, y, b.state);
    CalmKnown(f.events, f.attempts, f.seen, f.now, f.troubled, f.heard, a.now);
    if Unhindered(f.events, f.attempts, a, b.now) {
      PresentLater(a.state, y);
      JobServed(a.state, y, b.state);
      ResetHasWorked(a.state, y, b.state);
    }
  }

  method DoJob(f: Firmware, job: Job)
    requires f.Valid() && !f.stale
    modifies f
    ensures f.Valid() && !f.stale
    ensures JobDone(f.events, f.attempts, job, old(StageOf(f)), StageOf(f))
  {
    match job
    case Pass => DoPass(f);
    case Configure(_, _, _, _) => DoConfigure(f, job);
    case ResetMap => DoReset(f);
  }

  // ---- Whole runs ----

  lemma GoodSays(s: State)
    requires Invariant(s)
    ensures Safe(s.history) && WellFormed(s.motors) && (Settled(s) && !s.stale ==> Trusted(s.motors, s.bus))
    ensures s.flags == FlagsIn(s.history) && s.seen == Seen(s.history)
  {
  }

  /** The motor map that jobs add up to, apart from requested positions and confirmed flags. */
  function Setup(jobs: seq<Job>): seq<Motor> {
    if jobs == [] then [] else MapAfter(jobs[|jobs| - 1], Setup(jobs[..|jobs| - 1]))
  }

  function PassCount(jobs: seq<Job>): nat {
    if jobs == [] then 0 else PassCount(jobs[..|jobs| - 1]) + if jobs[|jobs| - 1].Pass? then 1 else 0
  }

  /** Job i has led from its stage to the next. */
  ghost predicate DoneAt(events: nat -> seq<Event>, attempts: nat -> Attempt, jobs: seq<Job>, stages: seq<Stage>,
                         i: nat)
    requires i < |jobs| && |stages| == |jobs| + 1
  {
    JobDone(events, attempts, jobs[i], stages[i], stages[i + 1])
  }

  /** The firmware has been through these stages, doing these jobs. */
  ghost predicate IsRun(servos: map<u8, Servo>, events: nat -> seq<Event>, attempts: nat -> Attempt, jobs: seq<Job>,
                        stages: seq<Stage>) {
    && |stages| == |jobs| + 1
    && stages[0] == Stage(State([], AT_BOOT, false, servos, false, [], []), 0)
    && forall i {:trigger DoneAt(events, attempts, jobs, stages, i)} | 0 <= i < |jobs| ::
         DoneAt(events, attempts, jobs, stages, i)
  }

  /**
   What a run adds up to: as many passes as jobs that are passes, the map they configure, and no servo with torque
   that has not been noted.
   */
  lemma {:induction false} RunAddsUp(servos: map<u8, Servo>, events: nat -> seq<Event>, attempts: nat -> Attempt,
                                     jobs: seq<Job>, stages: seq<Stage>, n: nat)
    requires IsRun(servos, events, attempts, jobs, stages) && n <= |jobs|
    ensures Passes(stages[n].state.history) == PassCount(jobs[..n])
    ensures SameSetup(Setup(jobs[..n]), stages[n].state.motors)
    ensures Grown(stages[0].state, stages[n].state)
  {
    if n > 0 {
      RunAddsUp(servos, events, attempts, jobs, stages, n - 1);
      assert jobs[..n][..n - 1] == jobs[..n - 1];
      var a, b := stages[n - 1].state, stages[n].state;
      assert DoneAt(events, attempts, jobs, stages, n - 1);
      GrownTransitive(stages[0].state, a, b);
      MapAfterSame(jobs[n - 1], Setup(jobs[..n - 1]), a.motors);
      SameSetupTransitive(Setup(jobs[..n]), MapAfter(jobs[n - 1], a.motors), b.motors);
    }
  }

  /**
   Any run: however passes and CONFIG handling follow each other, whatever the other tasks do between any two
   steps and however the bus behaves, every servo marked confirmed holds its stored velocity unless a re-init
   is due, and no servo is energized by a pass that may not do so. The history is that of the run: its events are
   those of the steps taken, its passes those of the jobs, and every servo that has gained torque is in it.
   */
  method Run(servos: map<u8, Servo>, future: nat -> seq<Event>, fates: nat -> Attempt, jobs: seq<Job>)
    returns (f: Firmware, ghost stages: seq<Stage>)
    ensures IsRun(servos, future, fates, jobs, stages) && stages[|jobs|] == StageOf(f)
    ensures Safe(f.history) && WellFormed(f.motors) && SameSetup(Setup(jobs), f.motors)
    ensures Settled(f.Now()) ==> Trusted(f.motors, f.bus)
    ensures f.SharedFlags() == FlagsIn(f.history) && (f.emergencyStop <==> Saw(RaiseEstop) in f.history)
    ensures Seen(f.history) == Happened(future, f.now) && Passes(f.history) == PassCount(jobs)
    ensures f.bus.Keys == servos.Keys
    ensures forall id | id in servos && servos[id].torque == 0 && f.bus[id].torque != 0 ::
              EnergizedFrom(f.history, 0, id)
  {
    f, stages := Through(servos, future, fates, jobs);
    RunAddsUp(servos, future, fates, jobs, stages, |jobs|);
    assert jobs[..|jobs|] == jobs;
    GoodSays(f.Now());
    EstopWasRaised(f.history);
    CalmKnown(future, fates, f.seen, f.now, f.troubled, f.heard, f.now);
  }

  /** These jobs, one after another, from boot. */
  method Through(servos: map<u8, Servo>, future: nat -> seq<Event>, fates: nat -> Attempt, jobs: seq<Job>)
    returns (f: Firmware, ghost stages: seq<Stage>)
    ensures f.Valid() && !f.stale && fresh(f) && f.events == future && f.attempts == fates
    ensures IsRun(servos, future, fates, jobs, stages) && stages[|jobs|] == StageOf(f)
  {
    f := new Firmware(servos, future, fates);
    stages := [StageOf(f)];
    for i := 0 to |jobs|
      invariant f.Valid() && !f.stale && fresh(f) && f.events == future && f.attempts == fates
      invariant IsRun(servos, future, fates, jobs[..i], stages) && stages[i] == StageOf(f)
    {
      DoJob(f, jobs[i]);
      RunLonger(servos, future, fates, jobs[..i], stages, jobs[i], StageOf(f));
      OneLonger(jobs, i);
      stages := stages + [StageOf(f)];
    }
    assert jobs[..|jobs|] == jobs;
  }

  lemma RunLonger(servos: map<u8, Servo>, events: nat -> seq<Event>, attempts: nat -> Attempt, jobs: seq<Job>,
                  stages: seq<Stage>, job: Job, next: Stage)
    requires IsRun(servos, events, attempts, jobs, stages)
    requires JobDone(events, attempts, job, stages[|jobs|], next)
    ensures IsRun(servos, events, attempts, jobs + [job], stages + [next])
  {
    var longer, later := jobs + [job], stages + [next];
    forall i | 0 <= i < |longer|
      ensures DoneAt(events, attempts, longer, later, i)
    {
      if i < |jobs| {
        assert DoneAt(events, attempts, jobs, stages, i);
      }
    }
  }

  lemma MapAfterSame(job: Job, a: seq<Motor>, b: seq<Motor>)
    requires SameSetup(a, b)
    ensures SameSetup(MapAfter(job, a), MapAfter(job, b))
  {
    assert forall i | 0 <= i < |a| :: SameSetting(a[i], b[i]);
  }

  // ---- Restoring what was lost ----

  lemma NotFoundBefore(f: History, g: History, h: History)
    requires f <= g <= h
    ensures !SomeFound(f, h) ==> !SomeFound(f, g) && !SomeFound(g, h)
  {
    assert forall i | |f| <= i < |g| :: g[i] == h[i];
  }

  lemma RunKeepsReinit(servos: map<u8, Servo>, events: nat -> seq<Event>, attempts: nat -> Attempt, jobs: seq<Job>,
                       stages: seq<Stage>, j: nat)
    requires IsRun(servos, events, attempts, jobs, stages) && j < |jobs|
    ensures ReinitKept(stages[j].state, stages[j + 1].state)
    ensures stages[j].state.history <= stages[j + 1].state.history
  {
    assert DoneAt(events, attempts, jobs, stages, j);
  }

  /** A re-init requested in a run waits for the first pass that finds itself told to run. */
  lemma {:induction false} ReinitWaits(servos: map<u8, Servo>, events: nat -> seq<Event>, attempts: nat -> Attempt,
                                       jobs: seq<Job>, stages: seq<Stage>, i: nat, k: nat)
    requires IsRun(servos, events, attempts, jobs, stages) && i <= k <= |jobs| && stages[i].state.reinit
    ensures stages[i].state.history <= stages[k].state.history
    ensures !SomeFound(stages[i].state.history, stages[k].state.history) ==> stages[k].state.reinit
    decreases k
  {
    if i < k {
      ReinitWaits(servos, events, attempts, jobs, stages, i, k - 1);
      RunKeepsReinit(servos, events, attempts, jobs, stages, k - 1);
      NotFoundBefore(stages[i].state.history, stages[k - 1].state.history, stages[k].state.history);
    }
  }

  lemma RunWorks(servos: map<u8, Servo>, events: nat -> seq<Event>, attempts: nat -> Attempt, jobs: seq<Job>,
                 stages: seq<Stage>, j: nat)
    requires IsRun(servos, events, attempts, jobs, stages) && j < |jobs|
    requires Unhindered(events, attempts, stages[j], stages[j + 1].now)
    ensures JobWorks(jobs[j], stages[j].state, stages[j + 1].state)
  {
    assert DoneAt(events, attempts, jobs, stages, j);
  }

  /**
   A re-init that is pending at some stage of a run is carried out by the first pass that is told to run, if nothing is
   in its way: every servo of its map is confirmed, at its stored velocity and lit, and has torque unless the emergency
   stop is active or no frame has been seen.
   */
  lemma RunRecovers(servos: map<u8, Servo>, events: nat -> seq<Event>, attempts: nat -> Attempt, jobs: seq<Job>,
                    stages: seq<Stage>, i: nat, k: nat)
    requires IsRun(servos, events, attempts, jobs, stages) && i <= k < |jobs| && jobs[k].Pass?
    requires stages[i].state.reinit && !SomeFound(stages[i].state.history, stages[k].state.history)
    requires stages[k].state.flags.running && stages[k].state.motors != []
    requires NoStops(stages[k].state.history, stages[k + 1].state.history)
    requires Unhindered(events, attempts, stages[k], stages[k + 1].now)
    ensures Restarted(stages[k + 1].state)
  {
    ReinitWaits(servos, events, attempts, jobs, stages, i, k);
    RunWorks(servos, events, attempts, jobs, stages, k);
  }

  /** An ENABLE request neither taken nor countermanded since it was made is in hand. */
  lemma EnableInHand(h: History, d: nat)
    requires d < |h| && h[d] == Saw(RequestTorque(true)) && NotCountermanded(h[..d + 1], h)
    ensures FlagsIn(h).request == Enable
  {
    OneMore(h[..d], h[d]);
    assert h[..d + 1] == h[..d] + [h[d]];
    StillEnable(h[..d + 1], h);
  }

  /**
   A pass that finds an ENABLE request not yet taken or countermanded, with nothing in its way, leaves exactly the
   confirmed servos with torque, or all of them set up again, unless the emergency stop is active or a re-init pending.
   */
  lemma RunEnables(servos: map<u8, Servo>, events: nat -> seq<Event>, attempts: nat -> Attempt, jobs: seq<Job>,
                   stages: seq<Stage>, j: nat, d: nat)
    requires IsRun(servos, events, attempts, jobs, stages) && j < |jobs| && jobs[j].Pass?
    requires d < |stages[j].state.history| && stages[j].state.history[d] == Saw(RequestTorque(true))
    requires NotCountermanded(stages[j].state.history[..d + 1], stages[j].state.history)
    requires NoDisables(stages[j].state.history, stages[j + 1].state.history)
    requires Unhindered(events, attempts, stages[j], stages[j + 1].now)
    ensures var s := stages[j + 1].state;
            Restarted(s) || ConfirmedTorqued(s) || s.flags.estop || s.reinit
  {
    EnableInHand(stages[j].state.history, d);
    assert DoneAt(events, attempts, jobs, stages, j - 1);
    RunWorks(servos, events, attempts, jobs, stages, j);
  }

  // ---- After a disconnect ----

  /** controller_disconnected has run: told to stop, asked to release, and the first frame forgotten. */
  predicate Disconnected(h: History, halt: nat, d: nat, g: nat) {
    && halt < d < |h| && g < |h| && StoppedUntil(h, halt, g)
    && h[d] == Saw(RequestTorque(false)) && h[g] == Saw(ForgetFrame)
  }

  /** The job in which the request made at d, or a later one, was taken. */
  predicate TakenIn(stages: seq<Stage>, j: nat, d: nat) {
    j + 1 < |stages| && TookFrom(stages[j + 1].state.history, |stages[j].state.history|, d)
  }

  predicate TookFrom(h: History, from: nat, d: nat) {
    exists u | d < u && from <= u < |h| :: h[u] == TookRequest
  }

  predicate AllLimp(motors: seq<Motor>, bus: map<u8, Servo>) {
    forall m | m in motors && m.id in bus :: bus[m.id].torque == 0
  }

  lemma {:induction false} RunGrows(servos: map<u8, Servo>, events: nat -> seq<Event>, attempts: nat -> Attempt,
                                    jobs: seq<Job>, stages: seq<Stage>, i: nat, n: nat)
    requires IsRun(servos, events, attempts, jobs, stages) && i <= n <= |jobs|
    ensures Grown(stages[i].state, stages[n].state)
    decreases n - i
  {
    if i < n {
      RunGrows(servos, events, attempts, jobs, stages, i, n - 1);
      RunGrowsOnce(servos, events, attempts, jobs, stages, n - 1);
      GrownTransitive(stages[i].state, stages[n - 1].state, stages[n].state);
    }
  }

  /** Every moment of a run falls in one of its jobs. */
  lemma {:induction false} InSomeJob(stages: seq<Stage>, n: nat, u: nat) returns (j: nat)
    requires n < |stages| && stages[0].state.history == [] && u < |stages[n].state.history|
    ensures j < n && |stages[j].state.history| <= u < |stages[j + 1].state.history|
    decreases n
  {
    j := n - 1;
    if u < |stages[n - 1].state.history| {
      j := InSomeJob(stages, n - 1, u);
    }
  }

  /** Stage by stage, servos that are released stay so unless the history notes otherwise. */
  lemma LimpLater(u: nat, a: Stage, b: Stage, motors: seq<Motor>)
    requires u <= |a.state.history| && ReleasedSince(u, a.state, motors) && Grown(a.state, b.state)
    requires forall k | u < k < |b.state.history| :: !b.state.history[k].Energized?
    requires u < |b.state.history| && !b.state.history[u].Energized?
    ensures AllLimp(motors, b.state.bus)
  {
    ReleasedKept(u, a.state, b.state, motors);
    forall m | m in motors && m.id in b.state.bus
      ensures b.state.bus[m.id].torque == 0
    {
      var j :| 0 <= j < |motors| && motors[j] == m;
    }
  }

  // ---- What a run says of one of its jobs ----

  lemma RunGrowsOnce(servos: map<u8, Servo>, events: nat -> seq<Event>, attempts: nat -> Attempt, jobs: seq<Job>,
                     stages: seq<Stage>, j: nat)
    requires IsRun(servos, events, attempts, jobs, stages) && j < |jobs|
    ensures Grown(stages[j].state, stages[j + 1].state)
  {
    assert DoneAt(events, attempts, jobs, stages, j);
  }

  lemma RunTakes(servos: map<u8, Servo>, events: nat -> seq<Event>, attempts: nat -> Attempt, jobs: seq<Job>,
                 stages: seq<Stage>, j: nat)
    requires IsRun(servos, events, attempts, jobs, stages) && j < |jobs| && jobs[j].Pass?
    ensures RequestsTaken(stages[j].state.history, stages[j + 1].state.history)
  {
    assert DoneAt(events, attempts, jobs, stages, j);
  }

  lemma RunServes(servos: map<u8, Servo>, events: nat -> seq<Event>, attempts: nat -> Attempt, jobs: seq<Job>,
                  stages: seq<Stage>, j: nat)
    requires IsRun(servos, events, attempts, jobs, stages) && j < |jobs|
    requires Unhindered(events, attempts, stages[j], stages[j + 1].now)
    ensures RequestsServed(|stages[j].state.history|, stages[j + 1].state, stages[j].state.motors)
  {
    assert DoneAt(events, attempts, jobs, stages, j);
  }

  lemma RunIsSafe(servos: map<u8, Servo>, events: nat -> seq<Event>, attempts: nat -> Attempt, jobs: seq<Job>,
                  stages: seq<Stage>, j: nat)
    requires IsRun(servos, events, attempts, jobs, stages) && j < |jobs|
    ensures Safe(stages[j + 1].state.history)
  {
    assert DoneAt(events, attempts, jobs, stages, j);
  }

  /** The servos that a job released after taking a request at u are still limp at a later stage. */
  lemma LimpAtLast(a: Stage, b: Stage, c: Stage, halt: nat, g: nat, u: nat)
    requires |a.state.history| <= u < |b.state.history| && b.state.history[u] == TookRequest
    requires Grown(b.state, c.state) && Safe(c.state.history) && !EnableAsked(c.state.history)
    requires NoFrameSince(c.state.history, g)
    requires g < u || (halt < u && StoppedUntil(c.state.history, halt, g))
    requires RequestsServed(|a.state.history|, b.state, a.state.motors)
    ensures AllLimp(a.state.motors, c.state.bus)
  {
    var h := c.state.history;
    assert h[u] == TookRequest;
    forall k | u < k < |h|
      ensures !h[k].Energized?
    {
      AskedInPrefix(h, k);
      NotEnergizedOnceTaken(h, halt, g, u, k);
    }
    assert h[..|b.state.history|] == b.state.history;
    AskedInPrefix(h, |b.state.history|);
    LimpLater(u, b, c, a.state.motors);
  }

  /**
   A job in which a request is taken, with nothing in its way, leaves the servos of its map limp until the next first
   frame or explicit ENABLE, if the frame was forgotten before; or if it was forgotten later, and the firmware was told
   to stop before and not told to run again in between.
   */
  lemma TakingReleases(servos: map<u8, Servo>, events: nat -> seq<Event>, attempts: nat -> Attempt, jobs: seq<Job>,
                       stages: seq<Stage>, j: nat, n: nat, halt: nat, g: nat, u: nat)
    requires IsRun(servos, events, attempts, jobs, stages) && j < n <= |jobs|
    requires |stages[j].state.history| <= u < |stages[j + 1].state.history|
    requires stages[j + 1].state.history[u] == TookRequest
    requires Unhindered(events, attempts, stages[j], stages[j + 1].now)
    requires NoFrameSince(stages[n].state.history, g) && !EnableAsked(stages[n].state.history)
    requires g < u || (halt < u && StoppedUntil(stages[n].state.history, halt, g))
    ensures AllLimp(stages[j].state.motors, stages[n].state.bus)
  {
    RunGrows(servos, events, attempts, jobs, stages, j + 1, n);
    RunServes(servos, events, attempts, jobs, stages, j);
    RunIsSafe(servos, events, attempts, jobs, stages, n - 1);
    LimpAtLast(stages[j], stages[j + 1], stages[n], halt, g, u);
  }

  /** A pass that takes a request once the frame is forgotten leaves the servos of its map limp until the next frame. */
  lemma PassReleases(servos: map<u8, Servo>, events: nat -> seq<Event>, attempts: nat -> Attempt, jobs: seq<Job>,
                     stages: seq<Stage>, i: nat, n: nat, g: nat)
    requires IsRun(servos, events, attempts, jobs, stages) && i < n <= |jobs|
    requires SomeTaken(stages[i].state.history, stages[i + 1].state.history) && g < |stages[i].state.history|
    requires Unhindered(events, attempts, stages[i], stages[i + 1].now)
    requires NoFrameSince(stages[n].state.history, g) && !EnableAsked(stages[n].state.history)
    ensures AllLimp(stages[i].state.motors, stages[n].state.bus)
  {
    var h := stages[i + 1].state.history;
    var u :| |stages[i].state.history| <= u < |h| && h[u] == TookRequest;
    TakingReleases(servos, events, attempts, jobs, stages, i, n, 0, g, u);
  }

  /** What a history says of a disconnect it goes on to say. */
  lemma StillStopped(h: History, later: History, halt: nat, g: nat)
    requires h <= later && g < |h| && StoppedUntil(h, halt, g)
    ensures StoppedUntil(later, halt, g)
  {
    assert forall i | 0 <= i < |h| :: later[i] == h[i];
  }

  /** By the end of a pass a request made before it has been taken. */
  lemma TakenByPass(servos: map<u8, Servo>, events: nat -> seq<Event>, attempts: nat -> Attempt, jobs: seq<Job>,
                    stages: seq<Stage>, i: nat, d: nat)
    requires IsRun(servos, events, attempts, jobs, stages) && i < |jobs| && jobs[i].Pass?
    requires d < |stages[i].state.history| && AsksTorque(stages[i].state.history[d])
    ensures TakenSince(stages[i + 1].state.history, d)
  {
    RunTakes(servos, events, attempts, jobs, stages, i);
  }

  /** A pass sees to it that some job takes a request made before it. */
  lemma TakenInJob(servos: map<u8, Servo>, events: nat -> seq<Event>, attempts: nat -> Attempt, jobs: seq<Job>,
                   stages: seq<Stage>, i: nat, d: nat)
    returns (j: nat)
    requires IsRun(servos, events, attempts, jobs, stages) && i < |jobs| && jobs[i].Pass?
    requires d < |stages[i].state.history| && AsksTorque(stages[i].state.history[d])
    ensures j <= i && TakenIn(stages, j, d)
  {
    TakenByPass(servos, events, attempts, jobs, stages, i, d);
    var h := stages[i + 1].state.history;
    var u :| d < u < |h| && h[u] == TookRequest;
    j := InSomeJob(stages, i + 1, u);
    RunGrows(servos, events, attempts, jobs, stages, j + 1, i + 1);
    assert stages[j + 1].state.history[u] == h[u];
  }

  lemma TakenReleases(servos: map<u8, Servo>, events: nat -> seq<Event>, attempts: nat -> Attempt, jobs: seq<Job>,
                      stages: seq<Stage>, i: nat, j: nat, n: nat, halt: nat, d: nat, g: nat)
    requires IsRun(servos, events, attempts, jobs, stages) && j <= i < n <= |jobs| && TakenIn(stages, j, d)
    requires Disconnected(stages[i].state.history, halt, d, g)
    requires Unhindered(events, attempts, stages[j], stages[j + 1].now)
    requires NoFrameSince(stages[n].state.history, g) && !EnableAsked(stages[n].state.history)
    ensures AllLimp(stages[j].state.motors, stages[n].state.bus)
  {
    var h := stages[j + 1].state.history;
    var u :| d < u && |stages[j].state.history| <= u < |h| && h[u] == TookRequest;
    RunGrows(servos, events, attempts, jobs, stages, i, n);
    StillStopped(stages[i].state.history, stages[n].state.history, halt, g);
    TakingReleases(servos, events, attempts, jobs, stages, j, n, halt, g, u);
  }

  /**
   After a disconnect the next pass finds its release request taken, by itself or by a job before it; and every job so
   far that has taken it, or a later request, with nothing in its way has left the servos of its map limp. They stay so
   until the next first frame, unless some caller explicitly asks for torque.
   */
  lemma DisconnectReleases(servos: map<u8, Servo>, events: nat -> seq<Event>, attempts: nat -> Attempt, jobs: seq<Job>,
                           stages: seq<Stage>, i: nat, n: nat, halt: nat, d: nat, g: nat)
    requires IsRun(servos, events, attempts, jobs, stages) && i < n <= |jobs| && jobs[i].Pass?
    requires Disconnected(stages[i].state.history, halt, d, g)
    requires NoFrameSince(stages[n].state.history, g) && !EnableAsked(stages[n].state.history)
    ensures exists j | 0 <= j <= i :: TakenIn(stages, j, d)
    ensures forall j | 0 <= j <= i && TakenIn(stages, j, d) &&
                       Unhindered(events, attempts, stages[j], stages[j + 1].now) ::
              AllLimp(stages[j].state.motors, stages[n].state.bus)
  {
    var t := TakenInJob(servos, events, attempts, jobs, stages, i, d);
    forall j | 0 <= j <= i && TakenIn(stages, j, d) && Unhindered(events, attempts, stages[j], stages[j + 1].now)
      ensures AllLimp(stages[j].state.motors, stages[n].state.bus)
    {
      TakenReleases(servos, events, attempts, jobs, stages, i, j, n, halt, d, g);
    }
  }
}
