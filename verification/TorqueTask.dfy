/**
 The Dynamixel task and its neighbours, step by step: every access to shared state, with whatever
 other tasks do between one step and the next.
 */
module TorqueTask {
  import opened Bytes
  import opened Sequences
  import opened TorqueRecovery
  import opened TorqueState

  const WRITE_MAX_ATTEMPTS := 3

  /** What the bus does with one register write and the read-back that follows. */
  datatype Attempt = Attempt(lands: bool, acknowledged: bool, answered: bool)

  /** How many servos were confirmed to hold torque, confirmed to be released, or confirmed neither way. */
  datatype Tally = Tally(energized: nat, released: nat, failed: nat)

  function Counted(t: Tally, wanted: bool, ok: bool): Tally {
    if !ok then t.(failed := t.failed + 1)
    else if wanted then t.(energized := t.energized + 1)
    else t.(released := t.released + 1)
  }

  /** All n servos were counted, and none as energized by a call that releases. */
  predicate Tallied(t: Tally, n: nat, enable: bool) {
    t.energized + t.released + t.failed == n && (enable || t.energized == 0)
  }

  /** In this step no event takes servo settings away and every access succeeds. */
  ghost predicate CalmStep(events: nat -> seq<Event>, attempts: nat -> Attempt, t: nat) {
    MildAll(events(t)) && attempts(t) == Attempt(true, true, true)
  }

  ghost predicate CalmOver(events: nat -> seq<Event>, attempts: nat -> Attempt, from: nat, to: nat) {
    forall t: nat | from <= t < to :: CalmStep(events, attempts, t)
  }

  /** The steps from troubled to now were calm, and the one before was not. */
  ghost predicate CalmExactly(events: nat -> seq<Event>, attempts: nat -> Attempt, troubled: nat, now: nat) {
    && troubled <= now && CalmOver(events, attempts, troubled, now)
    && (troubled > 0 ==> !CalmStep(events, attempts, troubled - 1))
  }

  /** These are steps before t, in order, none of them calm. */
  ghost predicate Troubles(events: nat -> seq<Event>, attempts: nat -> Attempt, t: nat, steps: seq<nat>) {
    && (forall i | 0 <= i < |steps| :: steps[i] < t && !CalmStep(events, attempts, steps[i]))
    && forall i, j | 0 <= i < j < |steps| :: steps[i] < steps[j]
  }

  lemma TroublesGrow(events: nat -> seq<Event>, attempts: nat -> Attempt, t: nat, steps: seq<nat>)
    returns (next: seq<nat>)
    requires Troubles(events, attempts, t, steps)
    ensures Troubles(events, attempts, t + 1, next)
    ensures next == steps + if CalmStep(events, attempts, t) then [] else [t]
  {
    next := steps + if CalmStep(events, attempts, t) then [] else [t];
  }

  /** In the steps from heard to now no read was answered, and in the one before one was. */
  ghost predicate SilentExactly(attempts: nat -> Attempt, heard: nat, now: nat) {
    && heard <= now && (forall t: nat | heard <= t < now :: !attempts(t).answered)
    && (heard > 0 ==> attempts(heard - 1).answered)
  }

  /** The records kept of the first now steps agree with what happened in them. */
  ghost predicate Accounts(events: nat -> seq<Event>, attempts: nat -> Attempt, seen: seq<Event>, now: nat,
                           troubled: nat, heard: nat) {
    && seen == Happened(events, now) && CalmExactly(events, attempts, troubled, now)
    && SilentExactly(attempts, heard, now)
  }

  lemma CalmKnown(events: nat -> seq<Event>, attempts: nat -> Attempt, seen: seq<Event>, now: nat, troubled: nat,
                  heard: nat, from: nat)
    requires Accounts(events, attempts, seen, now, troubled, heard) && from <= now
    ensures troubled <= from <==> CalmOver(events, attempts, from, now)
    ensures seen == Happened(events, now)
  {
    if from < troubled {
      assert !CalmStep(events, attempts, troubled - 1);
    }
  }

  lemma TimesKept(events: nat -> seq<Event>, attempts: nat -> Attempt, seen: seq<Event>, now: nat, troubled: nat,
                  heard: nat)
    requires Accounts(events, attempts, seen, now, troubled, heard)
    ensures troubled <= now && heard <= now
  {
  }

  lemma AccountsGrow(events: nat -> seq<Event>, attempts: nat -> Attempt, seen: seq<Event>, now: nat, troubled: nat,
                     heard: nat)
    returns (nextTroubled: nat, nextHeard: nat)
    requires Accounts(events, attempts, seen, now, troubled, heard)
    ensures Accounts(events, attempts, seen + events(now), now + 1, nextTroubled, nextHeard)
    ensures nextTroubled == if CalmStep(events, attempts, now) then troubled else now + 1
    ensures nextHeard == if attempts(now).answered then now + 1 else heard
  {
    nextTroubled := if CalmStep(events, attempts, now) then troubled else now + 1;
    nextHeard := if attempts(now).answered then now + 1 else heard;
  }

  /** What the firmware does, one thing after another, on the chain that owns the bus. */
  datatype Job =
    | Pass
    | Configure(id: u8, minPosition: u32, maxPosition: u32, profileVelocity: u32)
    | ResetMap

  /** The motor map after a job, apart from requested positions and confirmed flags. */
  function MapAfter(job: Job, motors: seq<Motor>): seq<Motor> {
    match job
    case Pass => motors
    case Configure(id, minPosition, maxPosition, velocity) =>
      if Configurable(motors, id) then Configured(motors, id, minPosition, maxPosition, velocity) else motors
    case ResetMap => []
  }

  lemma MapUnchanged(job: Job, a: seq<Motor>)
    requires job.Configure? && !Configurable(a, job.id)
    ensures SameSetup(MapAfter(job, a), a)
  {
  }

  class Firmware {
    // Firmware state shared between tasks
    var motors: seq<Motor>
    var request: TorqueRequest
    var railPresent: bool
    var reinitRequested: bool
    var safeToRun: bool
    var firstFrameReceived: bool
    var emergencyStop: bool

    // The servos on the bus. What other tasks do between two steps, and what the bus does with each
    // register access, is fixed in advance but arbitrary; now counts the steps taken.
    var bus: map<u8, Servo>
    var now: nat
    const events: nat -> seq<Event>
    const attempts: nat -> Attempt

    // Bookkeeping: an accepted frame or a restored rail whose re-init has not been requested yet, the span between
    // clearing the re-init flag and clearing the confirmed flags, the step after the last one in which something
    // went wrong, the step after the last one with an answer, the steps that went wrong, and all that has happened.
    ghost var frameInFlight: bool
    ghost var restoreInFlight: bool
    ghost var stale: bool
    ghost var troubled: nat
    ghost var heard: nat
    ghost var troubles: seq<nat>
    ghost var history: History
    ghost var seen: seq<Event>

    ghost function SharedFlags(): Flags
      reads this
    {
      Flags(railPresent, frameInFlight, restoreInFlight, request, safeToRun, firstFrameReceived, emergencyStop)
    }

    ghost function Now(): State
      reads this
    {
      State(motors, SharedFlags(), reinitRequested, bus, stale, history, seen)
    }

    /** The invariant holds, and the events of the history are those of the steps taken. */
    ghost predicate Valid()
      reads this
    {
      && Invariant(Now()) && Accounts(events, attempts, seen, now, troubled, heard)
      && Troubles(events, attempts, now, troubles)
    }

    /** Since step from, no event has taken servo settings away and every access has succeeded. */
    ghost predicate CalmSince(from: nat)
      reads `troubled
    {
      troubled <= from
    }

    /** Time has passed. */
    twostate predicate Later()
      reads this
    {
      && old(now) <= now && old(troubled) <= troubled && old(heard) <= heard && |old(troubles)| <= |troubles|
      && (troubled == old(troubled) || troubled > old(now)) && (troubled > old(now) ==> |troubles| > |old(troubles)|)
    }

    /** The clock and what is kept about the steps taken. */
    ghost predicate Timed(t: nat, wrong: nat, answered: nat, wrongs: seq<nat>)
      reads `now, `troubled, `heard, `troubles
    {
      now == t && troubled == wrong && heard == answered && troubles == wrongs
    }

    /** Since step from, no read has been answered. */
    ghost predicate SilentSince(from: nat)
      reads `heard
    {
      heard <= from
    }

    /** Nothing has been in the way since step from, when the rail was up and every servo was on the bus. */
    ghost predicate Unhindered(s: State, from: nat)
      reads `troubled
    {
      s.flags.rail && Present(s.motors, s.bus) && CalmSince(from)
    }

    /** A board that has just booted, with any servos on its bus. */
    constructor (servos: map<u8, Servo>, future: nat -> seq<Event>, fates: nat -> Attempt)
      ensures Valid() && !stale && history == [] && bus == servos && motors == [] && !reinitRequested
      ensures events == future && attempts == fates && now == 0
    {
      motors := [];
      request := NoRequest;
      railPresent, reinitRequested, safeToRun, firstFrameReceived, emergencyStop := true, false, false, false, false;
      bus, now, events, attempts := servos, 0, future, fates;
      frameInFlight, restoreInFlight, stale, troubled, heard := false, false, false, 0, 0;
      troubles, history, seen := [], [], [];
    }

    // ---- The other tasks ----

    /**
     controller_motor_power_sample, up to its first write. A servo loses its registers when the rail is found to be
     lost; the re-init that follows a restored rail is requested by a second write, MotorPowerRestored.
     */
    method MotorPowerSample(voltage: real)
      modifies `railPresent, `restoreInFlight, `bus
      ensures railPresent == RailAfter(old(railPresent), voltage)
      ensures restoreInFlight == (old(restoreInFlight) || (!old(railPresent) && railPresent))
      ensures bus == if old(railPresent) && !railPresent then PowerCycled(old(bus), old(bus.Keys)) else old(bus)
    {
      if railPresent {
        if voltage < RAIL_LOST_VOLTAGE {
          railPresent := false;
          bus := PowerCycled(bus, bus.Keys);
        }
      } else {
        if voltage > RAIL_RESTORED_VOLTAGE {
          railPresent := true;
          restoreInFlight := true;
        }
      }
    }

    /** The end of controller_motor_power_sample when it has found the rail restored. */
    method MotorPowerRestored()
      modifies `reinitRequested, `restoreInFlight
      ensures reinitRequested && !restoreInFlight
    {
      reinitRequested := true;
      restoreInFlight := false;
    }

    /** requestDynamixelPosition: only for a configured servo, and only within its limits. */
    method RequestDynamixelPosition(id: u8, position: u32) returns (accepted: bool)
      requires Distinct(motors)
      modifies `motors
      ensures motors == Requested(old(motors), id, position)
      ensures accepted <==> exists i | 0 <= i < |motors| ::
                old(motors)[i].id == id && old(motors)[i].minPosition <= position <= old(motors)[i].maxPosition
    {
      accepted := false;
      for i := 0 to |motors|
        invariant motors == old(motors)
        invariant forall j | 0 <= j < i :: motors[j].id != id
      {
        if motors[i].id == id {
          if position < motors[i].minPosition || position > motors[i].maxPosition {
            assert motors == Requested(motors, id, position);
            return false;
          }
          motors := motors[i := motors[i].(requested := position)];
          assert motors == Requested(old(motors), id, position);
          return true;
        }
      }
      assert motors == Requested(motors, id, position);
    }

    /** A flag or a request written by another task. */
    method WriteFlag(e: Event)
      requires !e.Voltage? && !e.FrameAccepted? && !e.RequestPosition?
      modifies `request, `reinitRequested, `safeToRun, `firstFrameReceived, `emergencyStop, `frameInFlight,
               `restoreInFlight
      ensures SharedFlags() == FlagsWith(old(SharedFlags()), e)
      ensures reinitRequested == (old(reinitRequested) || e.RestoreHandled? || e.FrameHandled?)
    {
      match e
      case RestoreHandled => MotorPowerRestored();
      case FrameHandled =>
        reinitRequested := true;
        frameInFlight := false;
      case ForgetFrame => firstFrameReceived := false;
      case StopRunning => safeToRun := false;
      case StartRunning => safeToRun := true;
      case RequestTorque(enable) => request := if enable then Enable else Disable;
      case RaiseEstop => emergencyStop := true;
    }

    /** A frame is accepted: the flag is set first, and powering the motor rails may sag the supply. */
    method AcceptFrame(sagged: set<u8>)
      modifies `firstFrameReceived, `frameInFlight, `bus
      ensures Now() == Changed(old(Now()), FrameAccepted(sagged))
    {
      firstFrameReceived, frameInFlight := true, true;
      bus := PowerCycled(bus, sagged);
    }

    /** One write to shared state by another task, or one voltage sample. */
    method WriteShared(e: Event)
      requires Distinct(motors)
      modifies this
      ensures Now() == Changed(old(Now()), e)
      ensures Timed(old(now), old(troubled), old(heard), old(troubles))
    {
      match e
      case Voltage(v) => MotorPowerSample(v);
      case FrameAccepted(sagged) => AcceptFrame(sagged);
      case RequestPosition(id, position) => var _ := RequestDynamixelPosition(id, position);
      case _ => WriteFlag(e);
    }

    /** The same, noted in the history. */
    method Happen(e: Event)
      requires Distinct(motors)
      modifies this
      ensures Now() == Effect(old(Now()), e)
      ensures Timed(old(now), old(troubled), old(heard), old(troubles))
    {
      WriteShared(e);
      history, seen := history + [Saw(e)], seen + [e];
    }

    /** The event numbered i of several. */
    method HappenNext(ghost start: State, es: seq<Event>, i: nat)
      requires i < |es| && Invariant(Now()) && Rely(start, Now()) && Now() == Effects(start, es[..i])
      requires seen == start.seen + es[..i] && (MildAll(es) && start.flags.rail ==> railPresent && bus == start.bus)
      modifies this
      ensures Invariant(Now()) && Rely(start, Now()) && Now() == Effects(start, es[..i + 1])
      ensures seen == start.seen + es[..i + 1] && (MildAll(es) && start.flags.rail ==> railPresent && bus == start.bus)
      ensures Timed(old(now), old(troubled), old(heard), old(troubles))
    {
      ghost var at := Now();
      OneMoreEffect(start, at, es, i);
      EventStep(start, at, es[i]);
      OneLonger(es, i);
      Regrouped(start.seen, es[..i], [es[i]]);
      Happen(es[i]);
    }

    /** These events, one after another. */
    method HappenAll(es: seq<Event>)
      requires Invariant(Now())
      modifies this
      ensures Now() == Effects(old(Now()), es) && Invariant(Now()) && Rely(old(Now()), Now())
      ensures seen == old(seen) + es
      ensures Timed(old(now), old(troubled), old(heard), old(troubles))
      ensures MildAll(es) && old(railPresent) ==> railPresent && bus == old(bus)
    {
      ghost var start := Now();
      for i := 0 to |es|
        invariant Timed(old(now), old(troubled), old(heard), old(troubles))
        invariant Invariant(Now()) && Rely(start, Now()) && Now() == Effects(start, es[..i])
        invariant seen == start.seen + es[..i] && (MildAll(es) && start.flags.rail ==> railPresent && bus == start.bus)
      {
        HappenNext(start, es, i);
      }
      assert es[..|es|] == es;
    }

    /** The step is over. */
    method Tick(ghost before: seq<Event>)
      requires Invariant(Now()) && seen == before + events(now)
      requires Accounts(events, attempts, before, now, troubled, heard) && Troubles(events, attempts, now, troubles)
      modifies `now, `troubled, `heard, `troubles
      ensures Valid() && now == old(now) + 1
      ensures troubled == if old(CalmStep(events, attempts, now)) then old(troubled) else now
      ensures heard == if old(attempts(now)).answered then now else old(heard)
      ensures troubles == old(troubles) + if old(CalmStep(events, attempts, now)) then [] else [old(now)]
    {
      ghost var state := Now();
      ghost var lastTroubled, lastHeard := AccountsGrow(events, attempts, before, now, troubled, heard);
      ghost var steps := TroublesGrow(events, attempts, now, troubles);
      now, troubled, heard, troubles := now + 1, lastTroubled, lastHeard, steps;
      assert Now() == state;
    }

    /** Everything other tasks do between two steps of the servo task: exactly the events of this step. */
    method Interfere()
      requires Valid()
      modifies this
      ensures Now() == Effects(old(Now()), old(events(now))) && now == old(now) + 1
      ensures Valid() && Rely(old(Now()), Now())
      ensures troubled == if old(CalmStep(events, attempts, now)) then old(troubled) else now
      ensures heard == if old(attempts(now)).answered then now else old(heard)
      ensures troubles == old(troubles) + if old(CalmStep(events, attempts, now)) then [] else [old(now)]
      ensures old(MildAll(events(now))) && old(railPresent) ==> railPresent && bus == old(bus)
    {
      var es := events(now);
      ghost var before := seen;
      HappenAll(es);
      Tick(before);
    }

    /** The servo task pauses: what it may rely on, whatever the others do. */
    method Yield()
      requires Valid()
      modifies this
      ensures Valid() && Rely(old(Now()), Now()) && now == old(now) + 1 && Later()
      ensures CalmSince(old(now)) ==> old(attempts(now)) == Attempt(true, true, true)
      ensures SilentSince(old(now)) ==> !old(attempts(now)).answered
      ensures CalmSince(old(now)) && old(railPresent) ==> railPresent && bus == old(bus)
    {
      TimesKept(events, attempts, seen, now, troubled, heard);
      Interfere();
    }

    // ---- Register access ----

    /** The servo applies a write, and the history notes it if it brings torque. */
    ghost method Note(id: u8, r: Register, v: u32)
      requires Valid() && id in bus && MayWrite(Now(), id, r, v)
      modifies `history
      ensures history == old(history) + Noted(old(Now()), id, r, v)
      ensures Invariant(Landed(old(Now()), id, r, v))
      ensures Ran(old(Now()), Landed(old(Now()), id, r, v), {id}, Energizes(r, v))
    {
      LandedGood(Now(), id, r, v);
      LandedRan(Now(), id, r, v);
      history := history + Noted(Now(), id, r, v);
    }

    /** dxl_write_register: the servo may or may not apply the write, and may or may not say so. */
    method WriteRegister(id: u8, r: Register, v: u32) returns (ok: bool)
      requires Valid() && MayWrite(Now(), id, r, v)
      modifies `bus, `history
      ensures Valid() && Ran(old(Now()), Now(), {id}, Energizes(r, v))
      ensures ok == (id in bus && attempts(now).acknowledged)
      ensures bus == if id in old(bus) && attempts(now).lands then old(bus)[id := Set(old(bus)[id], r, v)] else old(bus)
    {
      ok := id in bus && attempts(now).acknowledged;
      if id in bus && attempts(now).lands {
        ghost var before := Now();
        Note(id, r, v);
        bus := bus[id := Set(bus[id], r, v)];
        assert Now() == Landed(before, id, r, v);
      }
    }

    /** dxl_read_register: a read that succeeds tells the truth. */
    method ReadRegister(id: u8, r: Register) returns (ok: bool, v: u32)
      ensures ok == (id in bus && attempts(now).answered)
      ensures ok ==> v == Get(bus[id], r)
    {
      if id in bus && attempts(now).answered {
        return true, Get(bus[id], r);
      }
      return false, 0;
    }

    /** One attempt: write, and trust only what reads back. */
    method AttemptRegister(id: u8, r: Register, v: u32) returns (ok: bool)
      requires Valid() && MayWrite(Now(), id, r, v)
      modifies this
      ensures Valid() && Ran(old(Now()), Now(), {id}, Energizes(r, v)) && Later() && now <= old(now) + 2
      ensures ok ==> Holding(Now(), id, r, v)
      ensures SilentSince(old(now)) ==> !ok
      ensures CalmSince(old(now)) && old(railPresent) && id in old(bus) ==>
                ok && railPresent && bus == old(bus)[id := Set(old(bus)[id], r, v)]
    {
      ghost var start := Now();
      var written := WriteRegister(id, r, v);
      ghost var landed := Now();
      Yield();
      RanRely(start, landed, Now(), {id}, Energizes(r, v));
      if !written {
        return false;
      }
      ok := ReadBack(start, id, r, v);
    }

    /** The second half of an attempt. */
    method ReadBack(ghost start: State, id: u8, r: Register, v: u32) returns (ok: bool)
      requires Valid() && Ran(start, Now(), {id}, Energizes(r, v))
      modifies this
      ensures Valid() && Ran(start, Now(), {id}, Energizes(r, v)) && Later() && now == old(now) + 1
      ensures ok ==> Holding(Now(), id, r, v)
      ensures SilentSince(old(now)) ==> !ok
      ensures CalmSince(old(now)) && old(railPresent) && id in old(bus) ==>
                ok == (Get(bus[id], r) == v) && railPresent && bus == old(bus)
    {
      ghost var before := Now();
      var answered, readback := ReadRegister(id, r);
      ok := answered && readback == v;
      Yield();
      RanRely(start, before, Now(), {id}, Energizes(r, v));
      if ok {
        HoldingKept(before, Now(), {}, id, r, v);
      }
    }

    /** Let the others run in the middle of a register access. */
    method Pause(ghost start: State, id: u8, r: Register, v: u32)
      requires Valid() && MayWrite(Now(), id, r, v)
      requires Ran(start, Now(), {id}, Energizes(r, v))
      modifies this
      ensures Valid() && MayWrite(Now(), id, r, v) && Later() && now == old(now) + 1
      ensures Ran(start, Now(), {id}, Energizes(r, v))
      ensures CalmSince(old(now)) && old(railPresent) ==> railPresent && bus == old(bus)
    {
      ghost var before := Now();
      Yield();
      RanRely(start, before, Now(), {id}, Energizes(r, v));
      AllowedKept(before, Now(), {}, id, r, v);
    }

    /** An attempt in the middle of a register access, after some time has passed since the rail was looked at. */
    method TryRegister(ghost start: State, id: u8, r: Register, v: u32) returns (ok: bool)
      requires Valid() && MayWrite(Now(), id, r, v)
      requires Ran(start, Now(), {id}, Energizes(r, v))
      modifies this
      ensures Valid() && MayWrite(Now(), id, r, v) && Later() && now <= old(now) + 3
      ensures Ran(start, Now(), {id}, Energizes(r, v))
      ensures ok ==> Holding(Now(), id, r, v)
      ensures SilentSince(old(now)) ==> !ok
      ensures CalmSince(old(now)) && old(railPresent) && id in old(bus) ==>
                ok && railPresent && bus == old(bus)[id := Set(old(bus)[id], r, v)]
    {
      Pause(start, id, r, v);
      ghost var before := Now();
      ok := AttemptRegister(id, r, v);
      RanTwice(start, before, Now(), id, Energizes(r, v));
      AllowedKept(before, Now(), {id}, id, r, v);
    }

    /** One turn of the loop: an attempt, and a pause unless it was the last or succeeded. */
    method TryThenPause(ghost start: State, id: u8, r: Register, v: u32, again: bool) returns (ok: bool)
      requires Valid() && MayWrite(Now(), id, r, v)
      requires Ran(start, Now(), {id}, Energizes(r, v))
      modifies this
      ensures Valid() && MayWrite(Now(), id, r, v) && Later() && now <= old(now) + (if again then 4 else 3)
      ensures Ran(start, Now(), {id}, Energizes(r, v))
      ensures ok ==> Holding(Now(), id, r, v)
      ensures SilentSince(old(now)) ==> !ok
      ensures !ok && old(railPresent) && id in old(bus) ==> |troubles| > |old(troubles)|
      ensures CalmSince(old(now)) && old(railPresent) && id in old(bus) ==>
                ok && railPresent && bus == old(bus)[id := Set(old(bus)[id], r, v)]
    {
      ok := TryRegister(start, id, r, v);
      if !ok && again {
        Pause(start, id, r, v);
      }
    }

    /**
     dynamixel_apply_register: up to three attempts, given up at once when the rail is down. Otherwise it takes three
     things that go wrong to make it fail.
     */
    method ApplyRegister(id: u8, r: Register, v: u32) returns (ok: bool)
      requires Valid() && MayWrite(Now(), id, r, v)
      modifies this
      ensures Valid() && Ran(old(Now()), Now(), {id}, Energizes(r, v)) && Later()
      ensures ok ==> Holding(Now(), id, r, v)
      ensures SilentSince(old(now)) ==> !ok
      ensures CalmSince(old(now)) && old(railPresent) && id in old(bus) ==>
                ok && railPresent && bus == old(bus)[id := Set(old(bus)[id], r, v)]
      ensures !ok && railPresent && id in old(bus) ==> |troubles| >= |old(troubles)| + 3
      ensures now <= old(now) + 11
    {
      ghost var start, wrong := Now(), |troubles|;
      RanNothing(start, {id}, Energizes(r, v));
      for attempt := 0 to WRITE_MAX_ATTEMPTS
        invariant Valid() && MayWrite(Now(), id, r, v) && Later()
        invariant Ran(start, Now(), {id}, Energizes(r, v))
        invariant attempt == 0 ==> Now() == start && now == old(now)
        invariant now <= old(now) + (if attempt < WRITE_MAX_ATTEMPTS then 4 * attempt else 11)
        invariant id in start.bus ==> |troubles| >= wrong + attempt
        invariant attempt > 0 ==> !(CalmSince(old(now)) && start.flags.rail && id in start.bus)
      {
        if !railPresent {
          return false;
        }
        ok := TryThenPause(start, id, r, v, attempt + 1 < WRITE_MAX_ATTEMPTS);
        if ok {
          return true;
        }
      }
      ok := false;
    }

    // ---- Torque ----

    /** One turn of the loop of dynamixel_set_torque_all, for the servo that was at k when it started. */
    method DriveOne(ghost start: State, snapshot: seq<Motor>, k: nat, enable: bool, before: Tally)
      returns (tally: Tally)
      requires Valid() && Sweep(start, enable, k, before.failed == 0, Now())
      requires k < |snapshot| && Tallied(before, k, enable)
      requires Distinct(start.motors) && SameMotors(start.motors, snapshot)
      modifies this
      ensures Valid() && Sweep(start, enable, k + 1, tally.failed == 0, Now()) && Later()
      ensures Tallied(tally, k + 1, enable) && old(history) <= history
      ensures snapshot[k].id in old(bus) && railPresent && tally.failed != before.failed ==>
                tally.failed == before.failed + 1 && |troubles| >= |old(troubles)| + 3
      ensures CalmSince(old(now)) && before.failed == 0 && Swept(start.bus, start.motors, k, enable, old(Now()))
              ==> tally.failed == 0 && Swept(start.bus, start.motors, k + 1, enable, Now())
    {
      ghost var s, t := Now(), now;
      var m := snapshot[k];
      assert SameMotor(start.motors[k], m);
      TorqueAllowed(start, s, k, enable, before.failed == 0);
      var ok := ApplyRegister(m.id, TorqueEnable, Want(m, enable));
      SweepStep(start, s, Now(), k, enable, before.failed == 0, ok);
      if CalmSince(t) && Swept(start.bus, start.motors, k, enable, s) {
        SweptStep(start.bus, start.motors, k, enable, s, Now());
      }
      tally := Counted(before, Want(m, enable) != 0, ok);
    }

    /**
     k servos driven and tallied since step t: each failure is excused, and there is none if nothing went wrong.
     */
    ghost predicate DrivenSoFar(start: State, k: nat, enable: bool, tally: Tally, wrong: nat, t: nat, ready: bool)
      reads this
    {
      && Valid() && Sweep(start, enable, k, tally.failed == 0, Now()) && Tallied(tally, k, enable)
      && Excused(start, Now(), tally.failed, |troubles| - wrong) && t <= now
      && (ready && CalmSince(t) ==> tally.failed == 0 && Swept(start.bus, start.motors, k, enable, Now()))
    }

    lemma DrivingBegins(start: State, enable: bool)
      requires Valid() && Sweep(start, enable, 0, true, Now())
      ensures DrivenSoFar(start, 0, enable, Tally(0, 0, 0), |troubles|, now,
                          Swept(start.bus, start.motors, 0, enable, Now()))
    {
    }

    /** The loop of dynamixel_set_torque_all, over a copy of the motor map. */
    method DriveAll(ghost start: State, snapshot: seq<Motor>, enable: bool) returns (tally: Tally)
      requires Valid() && Sweep(start, enable, 0, true, Now()) && Invariant(start)
      requires Distinct(start.motors) && SameMotors(start.motors, snapshot)
      modifies this
      ensures Later()
      ensures DrivenSoFar(start, |snapshot|, enable, tally, old(|troubles|), old(now),
                          old(Swept(start.bus, start.motors, 0, enable, Now())))
    {
      DrivingBegins(start, enable);
      tally := Tally(0, 0, 0);
      ghost var t, wrong, ready := now, |troubles|, Swept(start.bus, start.motors, 0, enable, Now());
      for i := 0 to |snapshot|
        invariant Later() && DrivenSoFar(start, i, enable, tally, wrong, t, ready)
      {
        tally := DriveNext(start, snapshot, i, enable, tally, wrong, t, ready);
      }
    }

    /** The same turn, with the failures so far accounted for. */
    method DriveNext(ghost start: State, snapshot: seq<Motor>, k: nat, enable: bool, before: Tally, ghost wrong: nat,
                     ghost t: nat, ghost ready: bool)
      returns (tally: Tally)
      requires DrivenSoFar(start, k, enable, before, wrong, t, ready) && Invariant(start) && k < |snapshot|
      requires Distinct(start.motors) && SameMotors(start.motors, snapshot)
      modifies this
      ensures Later() && DrivenSoFar(start, k + 1, enable, tally, wrong, t, ready)
    {
      ghost var s := Now();
      tally := DriveOne(start, snapshot, k, enable, before);
      SweepPowered(start, s, Now(), snapshot, enable, k, before.failed == 0, tally.failed == 0);
    }

    /**
     dynamixel_set_torque_all. It counts the servos it has confirmed to hold torque or to be released, and
     those it could confirm neither way; counts of zero also cover the call that finds nothing to do.
     */
    method SetTorqueAll(enable: bool) returns (tally: Tally)
      requires Valid() && !stale && (enable ==> Permitted(history))
      modifies this
      ensures Valid() && Ran(old(Now()), Now(), Ids(old(motors)), enable) && Later()
      ensures if old(railPresent) then Tallied(tally, |old(motors)|, enable) else tally == Tally(0, 0, 0)
      ensures !old(railPresent) ==> Now() == old(Now())
      ensures Tallied(tally, |old(motors)|, enable) && tally.failed == 0 ==>
                TorqueHeld(Now(), old(motors), |old(motors)|, enable)
      ensures Excused(old(Now()), Now(), tally.failed, |troubles| - |old(troubles)|)
      ensures Unhindered(old(Now()), old(now)) ==>
                && Tallied(tally, |old(motors)|, enable) && tally.failed == 0
                && Swept(old(bus), old(motors), |old(motors)|, enable, Now())
    {
      ghost var start := Now();
      RanNothing(start, Ids(motors), enable);
      if |motors| == 0 || !railPresent {
        return Tally(0, 0, 0);
      }
      Yield();
      SweepBegins(start, Now(), enable);
      tally := DriveAll(start, motors, enable);
      SweepEnds(start, Now(), enable, |start.motors|, tally.failed == 0);
    }

    // ---- Re-initialisation ----

    /** dynamixel_mark_velocity_confirmed: only a servo that is still configured is marked. */
    method MarkVelocityConfirmed(id: u8, confirmed: bool)
      requires Distinct(motors)
      modifies `motors
      ensures Now() == Noting(old(Now()), id, confirmed)
    {
      for i := 0 to |motors|
        invariant motors == old(motors)
        invariant forall j | 0 <= j < i :: motors[j].id != id
      {
        if motors[i].id == id {
          motors := motors[i := motors[i].(confirmed := confirmed)];
          assert motors == Marked(old(motors), id, confirmed);
          return;
        }
      }
      assert motors == Marked(old(motors), id, confirmed);
    }

    /** Write the stored velocity of the servo that was at k, and pause. */
    method WriteVelocity(ghost start: State, ghost k: nat, id: u8, velocity: u32) returns (confirmed: bool)
      requires Valid() && Restoring(start, Now()) && k < |start.motors|
      requires id == start.motors[k].id && velocity == start.motors[k].velocity
      modifies this
      ensures Valid() && Restoring(start, Now()) && Later() && SameMotors(old(motors), motors)
      ensures old(history) <= history
      ensures confirmed ==> Holding(Now(), id, ProfileVelocity, velocity)
      ensures !confirmed && Railed(old(Now()), Now()) && id in old(bus) ==> |troubles| >= |old(troubles)| + 3
      ensures SilentSince(old(now)) ==> !confirmed
      ensures CalmSince(old(now)) && old(railPresent) && id in old(bus) ==>
                confirmed && railPresent && bus == old(bus)[id := Set(old(bus)[id], ProfileVelocity, velocity)]
    {
      ghost var s0 := Now();
      RestoringAllows(start, s0, k);
      confirmed := ApplyRegister(id, ProfileVelocity, velocity);
      ghost var s1 := Now();
      Yield();
      ghost var s2 := Now();
      PoweredBefore(s0, s1, s2);
      RanRely(s0, s1, s2, {id}, false);
      RestoringStep(start, s0, s2, k);
      if confirmed {
        HoldingKept(s1, s2, {}, id, ProfileVelocity, velocity);
      }
    }

    /** Write the stored velocity of the servo that was at k, and record whether it reads back. */
    method ConfirmVelocity(ghost start: State, ghost k: nat, id: u8, velocity: u32) returns (confirmed: bool)
      requires Valid() && Restoring(start, Now()) && k < |start.motors|
      requires id == start.motors[k].id && velocity == start.motors[k].velocity
      modifies this
      ensures Valid() && Restoring(start, Now()) && Later()
      ensures SameMotors(Marked(old(motors), id, confirmed), motors) && old(history) <= history
      ensures confirmed ==> Holding(Now(), id, ProfileVelocity, velocity)
      ensures !confirmed && Railed(old(Now()), Now()) && id in old(bus) ==> |troubles| >= |old(troubles)| + 3
      ensures SilentSince(old(now)) ==> !confirmed
      ensures CalmSince(old(now)) && old(railPresent) && id in old(bus) ==>
                confirmed && railPresent && bus == old(bus)[id := Set(old(bus)[id], ProfileVelocity, velocity)]
    {
      ghost var was := motors;
      confirmed := WriteVelocity(start, k, id, velocity);
      RestoringMarks(start, Now(), k, confirmed);
      MarkedSame(was, motors, id, confirmed);
      MarkVelocityConfirmed(id, confirmed);
    }

    /** Velocity first, then the light that says how it went. */
    method ApplySettings(ghost start: State, ghost k: nat, id: u8, velocity: u32)
      returns (confirmed: bool, shown: bool)
      requires Valid() && Restoring(start, Now()) && k < |start.motors|
      requires id == start.motors[k].id && velocity == start.motors[k].velocity
      modifies this
      ensures Valid() && Restoring(start, Now()) && Later()
      ensures SameMotors(Marked(old(motors), id, confirmed), motors)
      ensures SilentSince(old(now)) ==> !confirmed
      ensures old(history) <= history
      ensures !confirmed && Railed(old(Now()), Now()) && id in old(bus) ==> |troubles| >= |old(troubles)| + 3
      ensures shown ==> Holding(Now(), id, Led, if confirmed then 1 else 0)
      ensures !shown && railPresent && id in old(bus) ==> |troubles| >= |old(troubles)| + 3
      ensures CalmSince(old(now)) && old(railPresent) && id in old(bus) ==>
                confirmed && shown && railPresent && bus == Settings(old(bus), id, velocity)
    {
      ghost var s0 := Now();
      confirmed := ConfirmVelocity(start, k, id, velocity);
      ghost var s1 := Now();
      LedAllowed(s1, id, if confirmed then 1 else 0);
      shown := ApplyRegister(id, Led, if confirmed then 1 else 0);
      PoweredBefore(s0, s1, Now());
      RestoringStep(start, s1, Now(), k);
      SameMotorsTransitive(Marked(s0.motors, id, confirmed), s1.motors, motors);
      if id in s0.bus && id in s1.bus {
        SettingsWritten(s0.bus, s1.bus, bus, id, velocity);
      }
    }

    /** One turn of the loop of dynamixel_reinitialize_all. */
    method RestoreOne(ghost start: State, ghost k: nat, id: u8, velocity: u32) returns (confirmed: bool)
      requires Valid() && Restoring(start, Now()) && k < |start.motors| && Distinct(start.motors)
      requires id == start.motors[k].id && velocity == start.motors[k].velocity
      modifies this
      ensures Valid() && Restoring(start, Now()) && Later()
      ensures old(history) <= history && |old(motors)| == |motors| == |start.motors|
      ensures Missing(motors, k + 1) == Missing(old(motors), k) + if confirmed then 0 else 1
      ensures !confirmed && Railed(old(Now()), Now()) && id in old(bus) ==> |troubles| >= |old(troubles)| + 3
      ensures SilentSince(old(now)) && NoneConfirmed(old(motors)) ==> !confirmed && NoneConfirmed(motors)
      ensures CalmSince(old(now)) && Restored(start, k, old(Now())) ==>
                confirmed && Restored(start, k + 1, Now())
    {
      ghost var s, t := Now(), now;
      var shown;
      confirmed, shown := ApplySettings(start, k, id, velocity);
      RestoringEnds(start, s);
      MissingMarked(start, s.motors, k, confirmed, motors);
      if !confirmed && NoneConfirmed(s.motors) {
        NoneMarked(s.motors, id, motors);
      }
      if CalmSince(t) && Restored(start, k, s) {
        RestoredStep(start, s, Now(), k);
      }
    }

    /**
     k servos set up and counted since step t: each that is not confirmed is excused, none is confirmed without an
     answer, and all are if nothing went wrong.
     */
    ghost predicate RestoredSoFar(start: State, k: nat, count: nat, wrong: nat, t: nat, blank: bool, ready: bool)
      reads this
    {
      && Valid() && Restoring(start, Now()) && Counting(start, Now(), k, count, |troubles| - wrong)
      && t <= now && (blank && SilentSince(t) ==> NoneConfirmed(motors))
      && (ready && CalmSince(t) ==> Restored(start, k, Now()))
    }

    /** The same turn, with the servos confirmed so far counted, and the others accounted for. */
    method RestoreNext(ghost start: State, k: nat, id: u8, velocity: u32, before: nat, ghost wrong: nat, ghost t: nat,
                       ghost blank: bool, ghost ready: bool)
      returns (count: nat)
      requires RestoredSoFar(start, k, before, wrong, t, blank, ready) && Invariant(start) && k < |start.motors|
      requires id == start.motors[k].id && velocity == start.motors[k].velocity
      modifies this
      ensures Later() && RestoredSoFar(start, k + 1, count, wrong, t, blank, ready)
    {
      ghost var s := Now();
      var confirmed := RestoreOne(start, k, id, velocity);
      RestoringPowered(start, s, Now(), k);
      count := if confirmed then before + 1 else before;
    }

    /**
     The loop of dynamixel_reinitialize_all, over a copy of the motor map. A servo that cannot be set up does not stop
     the others from being.
     */
    method RestoreAll(ghost start: State, snapshot: seq<Motor>) returns (confirmedCount: nat)
      requires Valid() && Restoring(start, Now()) && Invariant(start) && start.motors == snapshot && Distinct(snapshot)
      modifies this
      ensures Later()
      ensures RestoredSoFar(start, |snapshot|, confirmedCount, old(|troubles|), old(now), old(NoneConfirmed(motors)),
                            old(Restored(start, 0, Now())))
    {
      confirmedCount := 0;
      ghost var t, wrong := now, |troubles|;
      ghost var blank, ready := NoneConfirmed(motors), Restored(start, 0, Now());
      CountingBegins(start, Now());
      for i := 0 to |snapshot|
        invariant Later() && RestoredSoFar(start, i, confirmedCount, wrong, t, blank, ready)
      {
        var m := snapshot[i];
        confirmedCount := RestoreNext(start, i, m.id, m.velocity, confirmedCount, wrong, t, blank, ready);
      }
    }

    /** Note something the servo task did or found. */
    ghost method Observe(o: Observation)
      requires Valid() && !o.Saw? && !o.Energized? && o != TookRequest
      modifies `history
      ensures Valid() && Now() == Observing(old(Now()), o)
    {
      ObservingGood(Now(), o);
      history := history + [o];
    }

    /** Note what the servo task found, and let the others run. */
    method FindThenPause(ghost o: Observation) returns (ghost found: State)
      requires Valid() && o in {FoundRunning, FoundClear, FoundFrame}
      modifies this
      ensures Valid() && Later() && found == Observing(old(Now()), o)
      ensures Rely(found, Now()) && Rely(old(Now()), Now())
      ensures CalmSince(old(now)) && old(railPresent) ==> railPresent && bus == old(bus)
    {
      ObservingGood(Now(), o);
      ghost var before := Now();
      Observe(o);
      found := Now();
      Yield();
      RelyTransitive(before, found, Now());
    }

    /** Torque may come back on unless the emergency stop is active or no frame has been received. */
    method MayEnergize() returns (may: bool)
      requires Valid() && Recovering(history)
      modifies this
      ensures Valid() && Rely(old(Now()), Now()) && Later()
      ensures may ==> Permitted(history) && !old(emergencyStop)
      ensures !may ==> emergencyStop || !firstFrameReceived
      ensures CalmSince(old(now)) && old(railPresent) ==> railPresent && bus == old(bus)
    {
      ghost var a := Now();
      Yield();
      ghost var s0 := Now();
      RecoveringMeanwhile(a, s0);
      if emergencyStop {
        return false;
      }
      ClearFound(s0);
      ghost var s1 := FindThenPause(FoundClear);
      ghost var s2 := Now();
      ClearedGrows(s1, s2, {});
      RecoveringMeanwhile(s0, s2);
      RelyTransitive(a, s0, s2);
      if !firstFrameReceived {
        return false;
      }
      FrameFound(s2);
      ghost var s3 := FindThenPause(FoundFrame);
      PermittedKept(s3, Now(), {}, false, true);
      RelyTransitive(a, s2, Now());
      may := true;
    }

    /** The end of dynamixel_reinitialize_all. */
    method EnergizeIfAllowed() returns (enabled: bool)
      requires Valid() && !stale && Recovering(history)
      modifies this
      ensures Valid() && Ran(old(Now()), Now(), Ids(old(motors)), true) && Later()
      ensures !enabled ==> emergencyStop || !firstFrameReceived
      ensures Unhindered(old(Now()), old(now)) ==>
                Swept(old(bus), old(motors), if enabled then |old(motors)| else 0, true, Now())
    {
      ghost var s0 := Now();
      enabled := MayEnergize();
      ghost var s1 := Now();
      if enabled {
        EnergizeSince(s0);
      } else {
        RanWider(s0, s1, Ids(s0.motors), true);
        if s1.flags.rail && Present(s0.motors, s1.bus) {
          SweptNothing(s0.motors, true, s1);
        }
      }
    }

    /** Torque for every confirmed servo, some time after s0. */
    method EnergizeSince(ghost s0: State)
      requires Valid() && !stale && Permitted(history) && Rely(s0, Now())
      modifies this
      ensures Valid() && Ran(s0, Now(), Ids(s0.motors), true) && Later()
      ensures CalmSince(old(now)) && old(railPresent) && Present(s0.motors, s0.bus) ==>
                Swept(old(bus), s0.motors, |s0.motors|, true, Now())
    {
      ghost var s1 := Now();
      var _ := SetTorqueAll(true);
      DrivenLater(s0, s1, Now(), true);
      if Present(s0.motors, s0.bus) {
        PresentLater(s0, s1);
      }
      if Swept(s1.bus, s1.motors, |s1.motors|, true, Now()) {
        SweptLater(s1.bus, s0.motors, s1.motors, |s1.motors|, true, Now());
      }
    }

    /** The part of dynamixel_reinitialize_all that clears every flag, under the lock. */
    method ClearConfirmed()
      modifies `motors
      ensures motors == Unconfirmed(old(motors))
    {
      for i := 0 to |motors|
        invariant |motors| == |old(motors)|
        invariant forall j | 0 <= j < i :: motors[j] == Unconfirmed(old(motors))[j]
        invariant forall j | i <= j < |motors| :: motors[j] == old(motors)[j]
      {
        motors := motors[i := motors[i].(confirmed := false)];
      }
    }

    /** Clear every flag, some time after the re-init has been taken up. */
    method ForgetConfirmed()
      requires Valid()
      modifies this
      ensures Valid() && !stale && Later() && NoneConfirmed(motors) && Passed(old(Now()), Now(), {}, false)
      ensures CalmSince(old(now)) && old(railPresent) ==> railPresent && bus == old(bus)
    {
      ghost var a := Now();
      Yield();
      CleansedGood(a, Now());
      ClearConfirmed();
      stale := false;
    }

    /**
     The first half of dynamixel_reinitialize_all: clear every flag, then write every servo's settings back. No flag
     is set again without an answer from the bus.
     */
    method RestoreSettings()
      requires Valid()
      modifies this
      ensures Valid() && !stale && Later()
      ensures Passed(old(Now()), Now(), Ids(old(motors)), false)
      ensures SilentSince(old(now)) ==> NoneConfirmed(motors)
      ensures AllButExcused(old(Now()), Now(), |troubles| - |old(troubles)|)
      ensures Unhindered(old(Now()), old(now)) ==> Restored(old(Now()), |old(motors)|, Now())
    {
      ghost var a, t, wrong := Now(), now, |troubles|;
      ForgetConfirmed();
      ghost var start, later := Now(), |troubles|;
      RestoringBegins(start);
      if Unhindered(a, t) {
        RestoredBegins(a, start);
      }
      var count := RestoreAll(start, motors);
      RestoringPassed(a, start, Now());
      ExcusedEarlier(a, start, Now(), count, |troubles| - later, |troubles| - wrong);
      if Unhindered(a, t) {
        RestoredWhole(a, start, Now());
      }
    }

    /** dynamixel_reinitialize_all, entered with the re-init flag cleared and the confirmed flags out of date. */
    method ReinitializeAll() returns (enabled: bool)
      requires Valid() && Recovering(history)
      modifies this
      ensures Valid() && !stale && Later()
      ensures Passed(old(Now()), Now(), Ids(old(motors)), true)
      ensures !enabled ==> emergencyStop || !firstFrameReceived
      ensures AllButExcused(old(Now()), Now(), |troubles| - |old(troubles)|)
      ensures Unhindered(old(Now()), old(now)) ==> Recovered(old(Now()), Now(), enabled)
    {
      ghost var a, t, wrong := Now(), now, |troubles|;
      RestoreSettings();
      ghost var s, later := Now(), |troubles|;
      RecoveringLater(a, s, Ids(a.motors), false);
      enabled := EnergizeIfAllowed();
      RecoveryPassed(a, s, Now());
      ExcusedLater(a, s, Now(), Ids(s.motors), later - wrong, |troubles| - wrong);
      if Unhindered(a, t) {
        RestoredPresent(a, s);
        RecoveredWhole(a, s, Now(), enabled);
      }
    }

    // ---- The servo task ----

    /** An ENABLE request: not while the emergency stop is active, and left to a re-init that is already pending. */
    method ServiceEnable() returns (driven: bool)
      requires Valid() && !stale && InPass(history) && EnableAsked(history)
      modifies this
      ensures Valid() && !stale && Later() && Continued(old(Now()), Now())
      ensures NoneTaken(old(history), history) && (old(reinitRequested) ==> reinitRequested)
      ensures driven ==> !old(emergencyStop) && !old(reinitRequested)
      ensures !driven ==> emergencyStop || reinitRequested
      ensures SameMotors(old(motors), motors)
      ensures Unhindered(old(Now()), old(now)) ==>
                Swept(old(bus), old(motors), if driven then |old(motors)| else 0, true, Now())
    {
      ghost var s0, t := Now(), now;
      FlagContinued(s0, s0);
      if emergencyStop {
        if Unhindered(s0, t) {
          SweptNothing(motors, true, s0);
        }
        return false;
      }
      ClearFound(s0);
      ghost var s1 := FindThenPause(FoundClear);
      ghost var s2 := Now();
      RanContinued(s0, s2, {}, false);
      if reinitRequested {
        if Unhindered(s0, t) {
          SweptNothing(s0.motors, true, s2);
        }
        return false;
      }
      ClearAndAskedLater(s1, s2);
      var _ := SetTorqueAll(true);
      driven := true;
      RanContinued(s2, Now(), Ids(s2.motors), true);
      ContinuedTransitive(s0, s2, Now());
      NoneTakenTransitive(s0.history, s2.history, history);
      SameMotorsTransitive(s0.motors, s2.motors, motors);
      if Unhindered(s0, t) {
        PresentLater(s0, s2);
        SweptLater(s2.bus, s0.motors, s2.motors, |s2.motors|, true, Now());
      }
    }

    /** The torque request that a pass has taken, serviced. */
    method ServiceRequest(requested: TorqueRequest)
      requires Valid() && !stale && InPass(history)
      requires requested != NoRequest && (requested == Enable ==> EnableAsked(history))
      modifies this
      ensures Valid() && !stale && Later() && Continued(old(Now()), Now())
      ensures NoneTaken(old(history), history) && (old(reinitRequested) ==> reinitRequested)
      ensures Unhindered(old(Now()), old(now)) ==>
                railPresent && (requested == Disable ==> AllReleased(old(motors), bus))
      ensures Unhindered(old(Now()), old(now)) && requested == Enable ==>
                ConfirmedTorqued(Now()) || emergencyStop || reinitRequested
    {
      ghost var s0, t := Now(), now;
      if requested == Enable {
        var driven := ServiceEnable();
        if driven && Unhindered(s0, t) {
          SweptTorqued(s0, Now());
        }
      } else {
        var _ := SetTorqueAll(false);
        RanContinued(s0, Now(), Ids(s0.motors), false);
        if Swept(s0.bus, s0.motors, |s0.motors|, false, Now()) {
          SweptReleased(s0, Now());
        }
      }
    }

    /**
     A re-init, if one is pending and the servo task may run. The request is cleared first, so that one arriving
     meanwhile is kept.
     */
    method Recover() returns (reinitialized: bool)
      requires Valid() && !stale && InPass(history)
      modifies this
      ensures Valid() && !stale && Later() && Continued(old(Now()), Now())
      ensures NoneTaken(old(history), history)
      ensures old(safeToRun) && old(reinitRequested) && |old(motors)| > 0 && old(railPresent) && CalmSince(old(now)) ==>
                reinitialized
      ensures !reinitialized ==> Rely(old(Now()), Now()) && (old(reinitRequested) ==> reinitRequested)
      ensures !reinitialized && CalmSince(old(now)) && old(railPresent) ==> bus == old(bus)
      ensures reinitialized ==> SomeFound(old(history), history)
      ensures Unhindered(old(Now()), old(now)) && reinitialized ==> Restarted(Now())
    {
      ghost var s0, t := Now(), now;
      FlagContinued(s0, s0);
      reinitialized := false;
      if safeToRun && |motors| > 0 {
        RunningNoted(s0);
        ghost var s1 := FindThenPause(FoundRunning);
        RecoveringMeanwhile(s1, Now());
        ghost var s2 := Now();
        reinitialized := RecoverWithRail();
        RecoveredMeanwhile(s0, s2, Now(), reinitialized);
        if Unhindered(s0, t) {
          PresentLater(s0, s2);
        }
      }
    }

    /** The rest of it, once the task has found itself told to run. */
    method RecoverWithRail() returns (reinitialized: bool)
      requires Valid() && !stale && Recovering(history)
      modifies this
      ensures Valid() && !stale && Later() && Continued(old(Now()), Now())
      ensures NoneTaken(old(history), history)
      ensures old(railPresent) && old(reinitRequested) ==> reinitialized
      ensures !reinitialized ==> Rely(old(Now()), Now())
      ensures !reinitialized && CalmSince(old(now)) && old(railPresent) ==> bus == old(bus)
      ensures Unhindered(old(Now()), old(now)) && reinitialized ==> Restarted(Now())
    {
      ghost var s0, t := Now(), now;
      FlagContinued(s0, s0);
      RanNothing(s0, {}, false);
      reinitialized := false;
      if railPresent {
        Yield();
        ghost var s1 := Now();
        RecoveringMeanwhile(s0, s1);
        RanContinued(s0, s1, {}, false);
        if reinitRequested {
          TakeReinit();
          reinitialized := true;
          ContinuedTransitive(s0, s1, Now());
          NoneTakenTransitive(s0.history, s1.history, history);
          if Unhindered(s0, t) {
            PresentLater(s0, s1);
          }
        }
      }
    }

    /** From here until the confirmed flags are cleared they may be out of date with no re-init pending. */
    method ClearReinitRequest()
      requires Valid()
      modifies `reinitRequested, `stale
      ensures Valid() && Now() == old(Now()).(reinit := false, stale := true)
    {
      TakenUp(Now());
      reinitRequested := false;
      stale := true;
    }

    method TakeReinit()
      requires Valid() && !stale && Recovering(history)
      modifies this
      ensures Valid() && !stale && Later() && Continued(old(Now()), Now())
      ensures NoneTaken(old(history), history)
      ensures Unhindered(old(Now()), old(now)) ==> Restarted(Now())
    {
      ghost var s1, t := Now(), now;
      Yield();
      ghost var s2 := Now();
      RecoveringMeanwhile(s1, s2);
      ClearReinitRequest();
      ghost var s3 := Now();
      var enabled := ReinitializeAll();
      TakenContinued(s1, s2, s3, Now(), Ids(s3.motors));
      NoneTakenTransitive(s1.history, s2.history, history);
      if Unhindered(s1, t) {
        PresentLater(s1, s2);
        RecoveredSet(s3, Now(), enabled);
      }
    }

    /** The servo task takes the request it has seen. One that arrived since is taken with it. */
    method TakeRequest()
      requires Valid()
      modifies `request, `history
      ensures Valid() && Now() == Took(old(Now())) && Continued(old(Now()), Now())
    {
      TookGood(Now());
      request := NoRequest;
      history := history + [TookRequest];
    }

    /** Some time after seeing a request, take it. */
    method ReachForRequest()
      requires Valid() && !stale && InPass(history)
      modifies this
      ensures Valid() && !stale && Later() && InPass(history) && Continued(old(Now()), Now())
      ensures (old(reinitRequested) ==> reinitRequested) && SomeTaken(old(history), history)
      ensures old(request) == Enable ==> EnableAsked(history)
      ensures CalmSince(old(now)) && old(railPresent) ==> railPresent && bus == old(bus)
    {
      ghost var s0 := Now();
      Yield();
      ghost var s1 := Now();
      AskedMeanwhile(s0, s1);
      InPassMeanwhile(s0, s1);
      RanContinued(s0, s1, {}, false);
      TakeRequest();
      ContinuedTransitive(s0, s1, Now());
      ContinuedInPass(s1, Now());
      TookAsked(s1);
      TakenHere(s0.history, s1.history, history);
    }

    /** The first half of a pass: the torque request, which does not depend on being safe to run. */
    method ServicePending()
      requires Valid() && !stale && InPass(history)
      modifies this
      ensures Valid() && !stale && Later() && Continued(old(Now()), Now())
      ensures old(reinitRequested) ==> reinitRequested
      ensures old(request) != NoRequest ==> SomeTaken(old(history), history)
      ensures Unhindered(old(Now()), old(now)) ==>
                railPresent && RequestsServed(|old(history)|, Now(), old(motors))
      ensures Unhindered(old(Now()), old(now)) && old(request) == Enable ==>
                ConfirmedTorqued(Now()) || emergencyStop || reinitRequested
    {
      ghost var s0, t := Now(), now;
      FlagContinued(s0, s0);
      var requested := request;
      if requested != NoRequest {
        ReachForRequest();
        ghost var s2 := Now();
        ServiceRequest(requested);
        ContinuedTransitive(s0, s2, Now());
        StillTaken(s0.history, s2.history, history);
        if Unhindered(s0, t) {
          ContinuedPresent(s0, s2);
          PendingServed(s0, s2, Now(), requested);
        }
      }
    }

    /** A pass begins with the torque request. */
    method StartPass()
      requires Valid() && !stale
      modifies this
      ensures Valid() && !stale && Later() && InPass(history)
      ensures Continued(Observing(old(Now()), PassStarted), Now())
      ensures old(reinitRequested) ==> reinitRequested
      ensures old(request) != NoRequest ==> SomeTaken(old(history) + [PassStarted], history)
      ensures Unhindered(old(Now()), old(now)) ==>
                railPresent && RequestsServed(|old(history)| + 1, Now(), old(motors))
      ensures Unhindered(old(Now()), old(now)) && old(request) == Enable ==>
                ConfirmedTorqued(Now()) || emergencyStop || reinitRequested
    {
      PassBegins(history);
      Observe(PassStarted);
      ghost var begun := Now();
      ServicePending();
      ContinuedInPass(begun, Now());
    }

    /** The same, and whatever happens before the look at the re-init request. */
    method BeginPass()
      requires Valid() && !stale
      modifies this
      ensures Valid() && !stale && Later() && InPass(history)
      ensures Continued(Observing(old(Now()), PassStarted), Now())
      ensures old(reinitRequested) ==> reinitRequested
      ensures old(request) != NoRequest ==> SomeTaken(old(history), history)
      ensures Unhindered(old(Now()), old(now)) ==>
                railPresent && Present(motors, bus) && RequestsServed(|old(history)| + 1, Now(), old(motors))
      ensures Unhindered(old(Now()), old(now)) && old(request) == Enable ==>
                ConfirmedTorqued(Now()) || emergencyStop || reinitRequested
      ensures old(safeToRun) && NoStops(old(history), history) ==> safeToRun
    {
      ghost var before, begun := history, Observing(Now(), PassStarted);
      StartPass();
      ghost var started := Now();
      Yield();
      BegunMeanwhile(before, begun, started, Now());
      RunsOn(before, history);
    }

    /**
     One pass of dynamixel_controller_task, up to the bus traffic that moves and reads servos. A pending re-init is
     carried out once the task is told to run, and an ENABLE request unless it must not be, if nothing is in the way.
     */
    method TaskPass() returns (reinitialized: bool)
      requires Valid() && !stale
      modifies this
      ensures Valid() && !stale && Later()
      ensures Continued(Observing(old(Now()), PassStarted), Now())
      ensures old(request) != NoRequest ==> SomeTaken(old(history), history)
      ensures Unhindered(old(Now()), old(now)) ==> RequestsServed(|old(history)| + 1, Now(), old(motors))
      ensures old(safeToRun) && NoStops(old(history), history) && old(reinitRequested) && |old(motors)| > 0 ==>
                (Unhindered(old(Now()), old(now)) ==> reinitialized)
      ensures Unhindered(old(Now()), old(now)) && reinitialized ==> Restarted(Now())
      ensures Unhindered(old(Now()), old(now)) && old(request) == Enable && !reinitialized ==>
                ConfirmedTorqued(Now()) || emergencyStop || reinitRequested
      ensures !reinitialized && old(reinitRequested) ==> reinitRequested
      ensures reinitialized ==> SomeFound(old(history), history)
    {
      ghost var begun, t := Observing(Now(), PassStarted), now;
      BeginPass();
      ghost var s2 := Now();
      reinitialized := Recover();
      ContinuedTransitive(begun, s2, Now());
      StillTaken(old(history), s2.history, history);
      ServedFurther(|begun.history|, s2, Now(), begun.motors);
      PassGoesOn(old(history), s2, Now(), reinitialized);
      if Unhindered(begun, t) && !reinitialized {
        TorquedMeanwhile(s2, Now());
      }
    }

    // ---- CONFIG handling, between passes ----

    /** The motor map takes a new entry, under the lock, or refuses it. */
    method AddMotor(id: u8, minPosition: u32, maxPosition: u32, profileVelocity: u32) returns (ok: bool)
      requires Valid()
      modifies `motors
      ensures Valid() && (ok <==> Configurable(old(motors), id))
      ensures motors ==
              if ok then Configured(old(motors), id, minPosition, maxPosition, profileVelocity) else old(motors)
    {
      if id == 0 || id > MAX_ID {
        return false;
      }
      var velocity := profileVelocity;
      if velocity > MAX_PROFILE_VELOCITY {
        velocity := MAX_PROFILE_VELOCITY;
      }
      if |motors| >= MAX_SERVOS {
        return false;
      }
      for i := 0 to |motors|
        invariant forall j | 0 <= j < i :: motors[j].id != id
      {
        if motors[i].id == id {
          return false;
        }
      }
      ConfiguredGood(Now(), id, minPosition, maxPosition, profileVelocity);
      motors := motors + [Motor(id, minPosition, maxPosition, Center(minPosition, maxPosition), velocity, false)];
      ok := true;
    }

    /** configureDynamixelServo: with the rail down the settings are left to a later re-init. */
    method ConfigureDynamixelServo(id: u8, minPosition: u32, maxPosition: u32, profileVelocity: u32)
      returns (ok: bool, confirmed: bool)
      requires Valid() && !stale
      modifies this
      ensures Valid() && !stale && Later()
      ensures Extended(old(Now()), Now()) && NoneTaken(old(history), history)
      ensures ok <==> Configurable(old(motors), id)
      ensures !ok ==> Now() == old(Now())
      ensures SameSetup(MapAfter(Configure(id, minPosition, maxPosition, profileVelocity), old(motors)), motors)
      ensures ok && !RailThrough(old(railPresent), old(events(now))) ==> !confirmed && reinitRequested
      ensures confirmed ==> motors != [] && motors[|motors| - 1].confirmed
      ensures old(reinitRequested) ==> reinitRequested
      ensures ok && CalmSince(old(now)) && old(railPresent) && id in old(bus) ==>
                confirmed && bus == Settings(old(bus), id, Capped(profileVelocity))
    {
      ghost var before, meanwhile := Now(), events(now);
      ghost var job := Configure(id, minPosition, maxPosition, profileVelocity);
      ok := AddMotor(id, minPosition, maxPosition, profileVelocity);
      if ok {
        confirmed := SetUpNew(before, job, meanwhile);
      } else {
        FlagExtended(before, Now());
        MapUnchanged(job, motors);
        confirmed := false;
      }
    }

    /** The settings of a servo just added to a motor map that was as before. */
    method SetUpNew(ghost before: State, ghost job: Job, ghost meanwhile: seq<Event>) returns (confirmed: bool)
      requires Valid() && !stale && job.Configure? && Configurable(before.motors, job.id) && meanwhile == events(now)
      requires Now() == before.(motors := MapAfter(job, before.motors))
      modifies this
      ensures Valid() && !stale && Later()
      ensures Extended(before, Now()) && NoneTaken(before.history, history)
      ensures SameSetup(MapAfter(job, before.motors), motors)
      ensures !RailThrough(before.flags.rail, meanwhile) ==> !confirmed && reinitRequested
      ensures confirmed ==> motors != [] && motors[|motors| - 1].confirmed
      ensures before.reinit ==> reinitRequested
      ensures CalmSince(old(now)) && before.flags.rail && job.id in before.bus ==>
                confirmed && bus == Settings(before.bus, job.id, Capped(job.profileVelocity))
    {
      ghost var added := Now();
      ConfiguredLast(before.motors, job.id, job.minPosition, job.maxPosition, job.profileVelocity);
      confirmed := ApplyNewSettings(meanwhile);
      ConfiguredExtended(before, added, Now());
    }

    /** With the rail down there is nothing to write to: a later re-init will do it. */
    method DeferSettings()
      requires Valid() && !stale && |motors| > 0
      modifies this
      ensures Valid() && !stale && Later()
      ensures Passed(old(Now()), Now(), Ids(old(motors)), false)
      ensures reinitRequested
    {
      ghost var start := Now();
      MarkedRestoring(start);
      MarkVelocityConfirmed(motors[|motors| - 1].id, false);
      ghost var marked := Now();
      Yield();
      ReinitAsked(start, marked, Now());
      reinitRequested := true;
    }

    /** The servo task pauses, and what happens meanwhile decides the rail flag. */
    method AwaitRail(ghost meanwhile: seq<Event>)
      requires Valid() && meanwhile == events(now)
      modifies this
      ensures Valid() && Rely(old(Now()), Now()) && Later()
      ensures railPresent == RailThrough(old(railPresent), meanwhile)
      ensures CalmSince(old(now)) && old(railPresent) ==> railPresent && bus == old(bus)
    {
      TimesKept(events, attempts, seen, now, troubled, heard);
      EffectsRail(Now(), events(now));
      Interfere();
    }

    /** The settings of the servo configured last, some time after the lock on the map has been released. */
    method ApplyNewSettings(ghost meanwhile: seq<Event>) returns (confirmed: bool)
      requires Valid() && !stale && |motors| > 0 && meanwhile == events(now)
      modifies this
      ensures Valid() && !stale && Later()
      ensures Passed(old(Now()), Now(), Ids(old(motors)), false)
      ensures !RailThrough(old(railPresent), meanwhile) ==> !confirmed && reinitRequested
      ensures var m := old(motors)[|old(motors)| - 1];
              CalmSince(old(now)) && old(railPresent) && m.id in old(bus) ==>
                confirmed && bus == Settings(old(bus), m.id, m.velocity)
      ensures confirmed ==> motors != [] && motors[|motors| - 1].confirmed
    {
      ghost var added := Now();
      var m := motors[|motors| - 1];
      AwaitRail(meanwhile);
      ghost var start := Now();
      LastSame(added.motors, motors);
      if railPresent {
        confirmed := ApplyLast(m.id, m.velocity);
      } else {
        DeferSettings();
        confirmed := false;
      }
      PassedSince(added, start, Now());
    }

    /** The same, once the rail has been found up. */
    method ApplyLast(id: u8, velocity: u32) returns (confirmed: bool)
      requires Valid() && !stale && |motors| > 0
      requires id == motors[|motors| - 1].id && velocity == motors[|motors| - 1].velocity
      modifies this
      ensures Valid() && !stale && Later()
      ensures Passed(old(Now()), Now(), Ids(old(motors)), false)
      ensures CalmSince(old(now)) && old(railPresent) && id in old(bus) ==>
                confirmed && bus == Settings(old(bus), id, velocity)
      ensures confirmed ==> motors != [] && motors[|motors| - 1].confirmed
    {
      ghost var start := Now();
      RestoringBegins(start);
      var shown;
      confirmed, shown := ApplySettings(start, |motors| - 1, id, velocity);
      RestoringEnds(start, Now());
      MarkedLast(start.motors, motors);
    }

    /** The lights of the first half of resetDynamixelMotorMap: out, if there is power to hear it. */
    method LightsOut(ghost start: State, snapshot: seq<Motor>)
      requires Valid() && !stale && SameMotors(start.motors, snapshot)
      requires Extended(start, Now()) && NoneTaken(start.history, history)
      modifies this
      ensures Valid() && !stale && Later() && (old(reinitRequested) ==> reinitRequested)
      ensures Extended(start, Now()) && NoneTaken(start.history, history)
      ensures CalmSince(old(now)) && Dimmed(start.motors, 0, old(Now())) ==>
                Dimmed(start.motors, |start.motors|, Now())
    {
      for i := 0 to |snapshot|
        invariant Valid() && !stale && Later() && (old(reinitRequested) ==> reinitRequested)
        invariant Extended(start, Now()) && NoneTaken(start.history, history)
        invariant CalmSince(old(now)) && Dimmed(start.motors, 0, old(Now())) ==> Dimmed(start.motors, i, Now())
      {
        LightOut(start, snapshot, i);
      }
    }

    method LightOut(ghost start: State, snapshot: seq<Motor>, i: nat)
      requires Valid() && !stale && SameMotors(start.motors, snapshot) && i < |snapshot|
      requires Extended(start, Now()) && NoneTaken(start.history, history)
      modifies this
      ensures Valid() && !stale && Later() && (old(reinitRequested) ==> reinitRequested)
      ensures Extended(start, Now()) && NoneTaken(start.history, history)
      ensures CalmSince(old(now)) && Dimmed(start.motors, i, old(Now())) ==> Dimmed(start.motors, i + 1, Now())
    {
      assert SameMotor(start.motors[i], snapshot[i]);
      ghost var before, t := Now(), now;
      LedAllowed(before, snapshot[i].id, 0);
      var _ := ApplyRegister(snapshot[i].id, Led, 0);
      RanExtended(start, before, Now(), {snapshot[i].id}, false);
      if CalmSince(t) && Dimmed(start.motors, i, before) {
        DimmedStep(start.motors, i, before, Now());
      }
    }

    /** Release every servo, and pause. */
    method ReleaseAll()
      requires Valid() && !stale
      modifies this
      ensures Valid() && !stale && Later() && SameMotors(old(motors), motors)
      ensures old(reinitRequested) ==> reinitRequested
      ensures Extended(old(Now()), Now()) && NoneTaken(old(history), history)
      ensures Unhindered(old(Now()), old(now)) ==> railPresent && Dimmed(old(motors), 0, Now())
    {
      ghost var s1, t := Now(), now;
      var _ := SetTorqueAll(false);
      ghost var s2 := Now();
      Yield();
      SameMotorsTransitive(s1.motors, s2.motors, motors);
      FlagExtended(s1, s1);
      RanExtended(s1, s1, s2, Ids(s1.motors), false);
      RanExtended(s1, s2, Now(), {}, false);
      if Unhindered(s1, t) {
        SweptReleased(s1, s2);
      }
    }

    /** Release every servo and put its light out while its id is still known. */
    method ReleaseAndDarken()
      requires Valid() && !stale
      modifies this
      ensures Valid() && !stale && Later() && (old(reinitRequested) ==> reinitRequested)
      ensures Extended(old(Now()), Now()) && NoneTaken(old(history), history)
      ensures Unhindered(old(Now()), old(now)) ==>
                AllReleased(old(motors), bus) && Darkened(bus, old(motors), |old(motors)|)
    {
      ghost var s1 := Now();
      ReleaseAll();
      if railPresent {
        LightsOut(s1, motors);
      }
    }

    /** The motor map is emptied, under the lock. */
    method ForgetMotors()
      requires Valid()
      modifies `motors
      ensures Valid() && Now() == old(Now()).(motors := [])
    {
      ForgottenGood(Now());
      motors := [];
    }

    /** resetDynamixelMotorMap: the torque request is dropped, every servo released and dimmed, the map emptied. */
    method ResetDynamixelMotorMap()
      requires Valid() && !stale
      modifies this
      ensures Valid() && !stale && Later() && motors == [] && (old(reinitRequested) ==> reinitRequested)
      ensures Extended(old(Now()), Now()) && SomeTaken(old(history), history)
      ensures Unhindered(old(Now()), old(now)) ==>
                && AllReleased(old(motors), bus) && Darkened(bus, old(motors), |old(motors)|)
                && RequestsServed(|old(history)|, Now(), old(motors))
    {
      ghost var s0, t := Now(), now;
      TakeRequest();
      ghost var s1 := Now();
      ReleaseAndDarken();
      ghost var s2 := Now();
      ForgetMotors();
      ResetExtended(s0, s1, s2);
      if Unhindered(s0, t) {
        ReleasedServed(|s0.history|, Now(), s0.motors);
      }
    }
  }
}
