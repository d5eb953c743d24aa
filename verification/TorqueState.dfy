/**
 What the firmware knows about its Dynamixel servos, what the servos themselves hold, and what has
 happened so far. The definitions here are about values; TorqueTask changes the state step by step.
 */
module TorqueState {
  import opened Bytes
  import opened Sequences

  const MAX_SERVOS := 16
  const MAX_ID := 0xFD
  const MAX_PROFILE_VELOCITY := 267

  /** One entry of the motor map. */
  datatype Motor = Motor(id: u8, minPosition: u32, maxPosition: u32, requested: u32, velocity: u32, confirmed: bool)

  /** The volatile registers of a servo that matter here. */
  datatype Servo = Servo(velocity: u32, torque: u32, led: u32)

  /** How a servo comes up after losing power. */
  const POWERED_UP := Servo(0, 0, 0)

  datatype Register = ProfileVelocity | TorqueEnable | Led

  function Get(s: Servo, r: Register): u32 {
    match r
    case ProfileVelocity => s.velocity
    case TorqueEnable => s.torque
    case Led => s.led
  }

  function Set(s: Servo, r: Register, v: u32): Servo {
    match r
    case ProfileVelocity => s.(velocity := v)
    case TorqueEnable => s.(torque := v)
    case Led => s.(led := v)
  }

  datatype TorqueRequest = NoRequest | Enable | Disable

  /** A write to shared state by another task or by the world, each atomic on its own. */
  datatype Event =
    | Voltage(volts: real)
    | RestoreHandled
    | FrameAccepted(sagged: set<u8>)
    | FrameHandled
    | ForgetFrame
    | StopRunning
    | StartRunning
    | RequestTorque(enable: bool)
    | RaiseEstop
    | RequestPosition(id: u8, position: u32)

  /** What the history records: every event, and what the servo task did and found. */
  datatype Observation =
    | Saw(event: Event)
    | PassStarted
    | TookRequest
    | FoundRunning
    | FoundClear
    | FoundFrame
    | Energized(id: u8, atStoredSpeed: bool, reinitPending: bool)

  type History = seq<Observation>

  /**
   The flags that the history decides: the rail flag; whether an accepted frame, or a sample that found the rail
   restored, has set its flag but not yet requested its re-init; and what has been asked, accepted and raised.
   */
  datatype Flags = Flags(rail: bool, frameInFlight: bool, restoreInFlight: bool, request: TorqueRequest,
                         running: bool, frame: bool, estop: bool)

  const AT_BOOT := Flags(true, false, false, NoRequest, false, false, false)

  /**
   Everything at one moment: the motor map, the flags, whether a re-init is pending, the servos, whether confirmed
   flags are out of date because a re-init has just been taken up, all that has happened, and the events in it.
   */
  datatype State = State(
    motors: seq<Motor>, flags: Flags, reinit: bool, bus: map<u8, Servo>, stale: bool, history: History,
    seen: seq<Event>)

  // ---- What the history says ----

  const RAIL_LOST_VOLTAGE := 2.0
  const RAIL_RESTORED_VOLTAGE := 4.5

  /** The rail flag follows the sampled voltage with hysteresis. */
  predicate RailAfter(rail: bool, volts: real) {
    if rail then volts >= RAIL_LOST_VOLTAGE else volts > RAIL_RESTORED_VOLTAGE
  }

  function FlagsWith(f: Flags, e: Event): Flags {
    match e
    case Voltage(v) =>
      f.(rail := RailAfter(f.rail, v), restoreInFlight := f.restoreInFlight || (!f.rail && RailAfter(f.rail, v)))
    case RestoreHandled => f.(restoreInFlight := false)
    case FrameAccepted(_) => f.(frame := true, frameInFlight := true)
    case FrameHandled => f.(frameInFlight := false)
    case ForgetFrame => f.(frame := false)
    case StopRunning => f.(running := false)
    case StartRunning => f.(running := true)
    case RequestTorque(enable) => f.(request := if enable then Enable else Disable)
    case RaiseEstop => f.(estop := true)
    case RequestPosition(_, _) => f
  }

  function FlagsAfter(f: Flags, o: Observation): Flags {
    if o.Saw? then FlagsWith(f, o.event) else if o == TookRequest then f.(request := NoRequest) else f
  }

  function FlagsIn(h: History): Flags {
    if h == [] then AT_BOOT else FlagsAfter(FlagsIn(h[..|h| - 1]), h[|h| - 1])
  }

  /** Servos may have lost their settings, and the re-init that this calls for has not been requested yet. */
  predicate Disturbed(f: Flags) {
    !f.rail || f.frameInFlight || f.restoreInFlight
  }

  predicate EnableAsked(h: History) {
    Saw(RequestTorque(true)) in h
  }

  predicate AcceptsFrame(o: Observation) {
    o.Saw? && o.event.FrameAccepted?
  }

  /** In the pass that began at p, the emergency stop was looked at, at c, and had never been raised. */
  predicate ClearSince(h: History, p: nat, c: nat) {
    && p < c < |h| && h[p] == PassStarted && (forall i | p < i < |h| :: h[i] != PassStarted)
    && h[c] == FoundClear && !FlagsIn(h[..c]).estop
  }

  /** In that pass a first frame was looked for, at g, and had been accepted. */
  predicate FrameSince(h: History, p: nat, g: nat) {
    p < g < |h| && h[g] == FoundFrame && FlagsIn(h[..g]).frame
  }

  /** The servo task found itself told to run, at r, and has not begun a pass or taken a request since. */
  predicate RunningSince(h: History, r: nat) {
    && r < |h| && h[r] == FoundRunning && FlagsIn(h[..r]).running
    && forall i | r < i < |h| :: h[i] != PassStarted && h[i] != TookRequest
  }

  ghost predicate RunningFound(h: History) {
    exists r: nat :: RunningSince(h, r)
  }

  /** It found itself told to run, at r, and after that, at f, that a frame had been accepted. */
  predicate FrameAndRunning(h: History, p: nat, r: nat, f: nat) {
    RunningSince(h, r) && r < f && FrameSince(h, p, f)
  }

  /** The current pass, which began at p, has looked for a first frame after finding itself told to run. */
  ghost predicate Ready(h: History, p: nat) {
    exists r: nat, f: nat :: FrameAndRunning(h, p, r, f)
  }

  /** The current pass may energize servos. */
  ghost predicate Permitted(h: History) {
    exists p: nat, c: nat :: ClearSince(h, p, c) && (EnableAsked(h) || Ready(h, p))
  }

  /**
   Every servo ever energized was, by a pass that may, and at its stored speed, with a re-init pending, or while
   one had yet to be requested.
   */
  ghost predicate Safe(h: History) {
    forall k | 0 <= k < |h| && h[k].Energized? ::
      Permitted(h[..k]) && (h[k].atStoredSpeed || h[k].reinitPending || Disturbed(FlagsIn(h[..k])))
  }

  /** The events of a history, in order. */
  function Seen(h: History): seq<Event> {
    if h == [] then []
    else Seen(h[..|h| - 1]) + if h[|h| - 1].Saw? then [h[|h| - 1].event] else []
  }

  /** The events of the first t steps, in order. */
  function Happened(events: nat -> seq<Event>, t: nat): seq<Event> {
    if t == 0 then [] else Happened(events, t - 1) + events(t - 1)
  }

  /** How many passes have begun. */
  function Passes(h: History): nat {
    if h == [] then 0 else Passes(h[..|h| - 1]) + if h[|h| - 1] == PassStarted then 1 else 0
  }

  // ---- What the state says ----

  predicate Distinct(motors: seq<Motor>) {
    forall i, j | 0 <= i < j < |motors| :: motors[i].id != motors[j].id
  }

  predicate InRange(m: Motor) {
    m.minPosition <= m.maxPosition && m.minPosition + m.maxPosition < 0x1_0000_0000 ==>
      m.minPosition <= m.requested <= m.maxPosition
  }

  predicate WellFormed(motors: seq<Motor>) {
    && |motors| <= MAX_SERVOS && Distinct(motors)
    && forall i | 0 <= i < |motors| ::
         1 <= motors[i].id <= MAX_ID && motors[i].velocity <= MAX_PROFILE_VELOCITY && InRange(motors[i])
  }

  /** The rail is up and nothing says that servo settings may have been lost. */
  predicate Settled(s: State) {
    !Disturbed(s.flags) && !s.reinit
  }

  predicate HoldsVelocity(m: Motor, bus: map<u8, Servo>) {
    m.id in bus && bus[m.id].velocity == m.velocity
  }

  /** Every servo marked confirmed holds its stored profile velocity. */
  predicate Trusted(motors: seq<Motor>, bus: map<u8, Servo>) {
    forall i | 0 <= i < |motors| :: motors[i].confirmed ==> HoldsVelocity(motors[i], bus)
  }

  /** The flags are what the history says, and the history is safe. */
  ghost predicate Chronicled(s: State) {
    s.flags == FlagsIn(s.history) && s.seen == Seen(s.history) && Safe(s.history)
  }

  ghost predicate Invariant(s: State) {
    && WellFormed(s.motors) && Chronicled(s)
    && (Settled(s) && !s.stale ==> Trusted(s.motors, s.bus))
  }

  // ---- What other tasks may do between two steps of the servo task ----

  predicate SameMotor(m: Motor, n: Motor) {
    m.(requested := 0) == n.(requested := 0)
  }

  predicate SameMotors(a: seq<Motor>, b: seq<Motor>) {
    |a| == |b| && forall i | 0 <= i < |a| :: SameMotor(a[i], b[i])
  }

  predicate Untouched(a: Servo, b: Servo, settled: bool) {
    b == a || (!settled && b == POWERED_UP)
  }

  /** No servo was energized on the way from a to b. */
  predicate NoneEnergized(a: State, b: State) {
    forall i | |a.history| <= i < |b.history| :: !b.history[i].Energized?
  }

  /** Between a and b the history notes that this servo was energized. */
  predicate EnergizedBetween(a: State, b: State, id: u8) {
    exists i | |a.history| <= i < |b.history| :: b.history[i].Energized? && b.history[i].id == id
  }

  /** No servo gets torque without the history noting it. */
  predicate Recorded(a: State, b: State) {
    forall id | id in a.bus && id in b.bus ::
      a.bus[id].torque == 0 && b.bus[id].torque != 0 ==> EnergizedBetween(a, b, id)
  }

  /** What holds of any stretch within a pass that writes only to the servos in ids. */
  predicate Worked(a: State, b: State, ids: set<u8>) {
    && a.bus.Keys == b.bus.Keys && a.history <= b.history
    && (a.reinit ==> b.reinit) && (a.flags.estop ==> b.flags.estop) && (Settled(b) ==> Settled(a))
    && (forall i | |a.history| <= i < |b.history| :: b.history[i] != PassStarted && b.history[i] != TookRequest)
    && Recorded(a, b)
    && forall id | id in a.bus && id in b.bus && id !in ids :: Untouched(a.bus[id], b.bus[id], Settled(b))
  }

  /** A stretch of the servo task between two points at which the confirmed flags are the same. */
  predicate Ran(a: State, b: State, ids: set<u8>, energizing: bool) {
    && Worked(a, b, ids) && SameMotors(a.motors, b.motors) && b.stale == a.stale
    && (!energizing ==> NoneEnergized(a, b))
  }

  /** What other tasks and the world may do meanwhile: servos keep their registers unless their loss is announced. */
  predicate Rely(a: State, b: State) {
    Ran(a, b, {}, false)
  }

  lemma WorkedTransitive(a: State, b: State, c: State, ids: set<u8>, more: set<u8>)
    requires Worked(a, b, ids) && Worked(b, c, more)
    ensures Worked(a, c, ids + more)
  {
    assert forall i | |a.history| <= i < |b.history| :: c.history[i] == b.history[i];
    RecordedTransitive(a, b, c);
  }

  lemma RecordedTransitive(a: State, b: State, c: State)
    requires a.history <= b.history <= c.history && a.bus.Keys == b.bus.Keys == c.bus.Keys
    requires Recorded(a, b) && Recorded(b, c)
    ensures Recorded(a, c)
  {
    forall id | id in a.bus && id in c.bus && a.bus[id].torque == 0 && c.bus[id].torque != 0
      ensures EnergizedBetween(a, c, id)
    {
      if b.bus[id].torque != 0 {
        var i :| |a.history| <= i < |b.history| && b.history[i].Energized? && b.history[i].id == id;
        assert c.history[i] == b.history[i];
      } else {
        assert EnergizedBetween(b, c, id);
      }
    }
  }

  lemma NoneEnergizedTransitive(a: State, b: State, c: State)
    requires a.history <= b.history <= c.history
    requires NoneEnergized(a, b) && NoneEnergized(b, c)
    ensures NoneEnergized(a, c)
  {
    assert forall i | |a.history| <= i < |b.history| :: c.history[i] == b.history[i];
  }

  lemma SameMotorsTransitive(a: seq<Motor>, b: seq<Motor>, c: seq<Motor>)
    requires SameMotors(a, b) && SameMotors(b, c)
    ensures SameMotors(a, c)
  {
    forall i | 0 <= i < |a|
      ensures SameMotor(a[i], c[i])
    {
      assert SameMotor(a[i], b[i]) && SameMotor(b[i], c[i]);
    }
  }

  lemma RanTransitive(a: State, b: State, c: State, ids: set<u8>, more: set<u8>, energizing: bool)
    requires Ran(a, b, ids, energizing) && Ran(b, c, more, energizing)
    ensures Ran(a, c, ids + more, energizing)
  {
    WorkedTransitive(a, b, c, ids, more);
    SameMotorsTransitive(a.motors, b.motors, c.motors);
    if !energizing {
      NoneEnergizedTransitive(a, b, c);
    }
  }

  lemma RanWider(a: State, b: State, ids: set<u8>, energizing: bool)
    requires Rely(a, b)
    ensures Ran(a, b, ids, energizing)
  {
  }

  lemma PermittedKept(a: State, b: State, ids: set<u8>, energizing: bool, wanted: bool)
    requires Ran(a, b, ids, energizing) && (wanted ==> Permitted(a.history))
    ensures wanted ==> Permitted(b.history)
  {
    if wanted {
      PermittedGrows(a.history, b.history);
    }
  }

  lemma RanNothing(a: State, ids: set<u8>, energizing: bool)
    ensures Ran(a, a, ids, energizing)
  {
  }

  lemma RanTwice(a: State, b: State, c: State, id: u8, energizing: bool)
    requires Ran(a, b, {id}, energizing) && Ran(b, c, {id}, energizing)
    ensures Ran(a, c, {id}, energizing)
  {
    RanTransitive(a, b, c, {id}, {id}, energizing);
    assert {id} + {id} == {id};
  }

  lemma RanRely(a: State, b: State, c: State, ids: set<u8>, energizing: bool)
    requires Ran(a, b, ids, energizing) && Rely(b, c)
    ensures Ran(a, c, ids, energizing)
  {
    RanTransitive(a, b, c, ids, {}, energizing);
    assert ids + {} == ids;
  }

  lemma RelyTransitive(a: State, b: State, c: State)
    requires Rely(a, b) && Rely(b, c)
    ensures Rely(a, c)
  {
    RanRely(a, b, c, {}, false);
  }

  // ---- Histories ----

  lemma SafeGrows(h: History, o: Observation)
    requires Safe(h)
    requires o.Energized? ==> Permitted(h) && (o.atStoredSpeed || o.reinitPending || Disturbed(FlagsIn(h)))
    ensures Safe(h + [o])
  {
    var g := h + [o];
    forall k | 0 <= k < |g| && g[k].Energized?
      ensures Permitted(g[..k]) && (g[k].atStoredSpeed || g[k].reinitPending || Disturbed(FlagsIn(g[..k])))
    {
      if k < |h| {
        assert g[..k] == h[..k];
      } else {
        assert g[..k] == h;
      }
    }
  }

  lemma RunningKept(h: History, g: History)
    requires RunningFound(h) && h <= g && forall i | |h| <= i < |g| :: g[i] != PassStarted && g[i] != TookRequest
    ensures RunningFound(g)
  {
    var r: nat :| RunningSince(h, r);
    assert g[..r] == h[..r];
    assert forall i | 0 <= i < |h| :: g[i] == h[i];
    assert RunningSince(g, r);
  }

  lemma ReadyGrows(h: History, g: History, p: nat)
    requires Ready(h, p) && h <= g && forall i | |h| <= i < |g| :: g[i] != PassStarted && g[i] != TookRequest
    ensures Ready(g, p)
  {
    var r: nat, f: nat :| FrameAndRunning(h, p, r, f);
    assert g[..r] == h[..r] && g[..f] == h[..f];
    assert forall i | 0 <= i < |h| :: g[i] == h[i];
    assert FrameAndRunning(g, p, r, f);
  }

  lemma PermittedGrows(h: History, g: History)
    requires Permitted(h) && h <= g && forall i | |h| <= i < |g| :: g[i] != PassStarted && g[i] != TookRequest
    ensures Permitted(g)
  {
    var p: nat, c: nat :| ClearSince(h, p, c) && (EnableAsked(h) || Ready(h, p));
    assert g[..c] == h[..c];
    assert forall i | 0 <= i < |h| :: g[i] == h[i];
    assert ClearSince(g, p, c);
    if EnableAsked(h) {
      var i :| 0 <= i < |h| && h[i] == Saw(RequestTorque(true));
      assert g[i] == h[i];
    } else {
      ReadyGrows(h, g, p);
    }
  }

  /** What one more observation changes. */
  lemma OneMore(h: History, o: Observation)
    ensures FlagsIn(h + [o]) == FlagsAfter(FlagsIn(h), o)
    ensures Seen(h + [o]) == Seen(h) + if o.Saw? then [o.event] else []
    ensures Passes(h + [o]) == Passes(h) + if o == PassStarted then 1 else 0
  {
    assert (h + [o])[..|h|] == h;
  }

  /** What one more observation makes of the flags that histories are asked about. */
  lemma FlagsStep(f: Flags, o: Observation)
    ensures FlagsAfter(f, o).estop == (f.estop || o == Saw(RaiseEstop))
    ensures FlagsAfter(f, o).frame == (AcceptsFrame(o) || (f.frame && o != Saw(ForgetFrame)))
    ensures FlagsAfter(f, o).running == (o == Saw(StartRunning) || (f.running && o != Saw(StopRunning)))
    ensures FlagsAfter(f, o).request == NoRequest ==>
              o == TookRequest || (f.request == NoRequest && !(o.Saw? && o.event.RequestTorque?))
  {
    if o.Saw? {
      match o.event
      case Voltage(_) =>
      case FrameAccepted(_) =>
      case ForgetFrame =>
      case StopRunning =>
      case StartRunning =>
      case RequestTorque(_) =>
      case RaiseEstop =>
      case _ =>
    }
  }

  lemma AskedInPrefix(h: History, k: nat)
    requires k <= |h|
    ensures EnableAsked(h[..k]) ==> EnableAsked(h)
  {
  }

  lemma EnableStays(f: Flags, o: Observation)
    ensures FlagsAfter(f, o).request == Enable ==> f.request == Enable || o == Saw(RequestTorque(true))
  {
    if o.Saw? {
      match o.event
      case RequestTorque(_) =>
      case Voltage(_) =>
      case _ =>
    }
  }

  /** An ENABLE request in hand was asked for. */
  lemma {:induction false} EnableWasAsked(h: History)
    ensures FlagsIn(h).request == Enable ==> EnableAsked(h)
    decreases |h|
  {
    if h != [] {
      var last := |h| - 1;
      EnableStays(FlagsIn(h[..last]), h[last]);
      EnableWasAsked(h[..last]);
      AskedInPrefix(h, last);
    }
  }

  /** The emergency stop flag says whether the stop has ever been raised. */
  lemma {:induction false} EstopWasRaised(h: History)
    ensures FlagsIn(h).estop <==> Saw(RaiseEstop) in h
    decreases |h|
  {
    if h != [] {
      FlagsStep(FlagsIn(h[..|h| - 1]), h[|h| - 1]);
      EstopWasRaised(h[..|h| - 1]);
      assert h == h[..|h| - 1] + [h[|h| - 1]];
    }
  }

  lemma {:induction false} FrameAfterForgetting(h: History, d: nat)
    requires d < |h| && h[d] == Saw(ForgetFrame) && FlagsIn(h).frame
    ensures exists f | d < f < |h| :: AcceptsFrame(h[f])
    decreases |h|
  {
    var last := |h| - 1;
    FlagsStep(FlagsIn(h[..last]), h[last]);
    if !AcceptsFrame(h[last]) {
      FrameAfterForgetting(h[..last], d);
      var f :| d < f < last && AcceptsFrame(h[..last][f]);
      assert h[f] == h[..last][f];
    }
  }

  lemma {:induction false} StartAfterStopping(h: History, d: nat)
    requires d < |h| && h[d] == Saw(StopRunning) && FlagsIn(h).running
    ensures exists f | d < f < |h| :: h[f] == Saw(StartRunning)
    decreases |h|
  {
    var last := |h| - 1;
    FlagsStep(FlagsIn(h[..last]), h[last]);
    if h[last] != Saw(StartRunning) {
      StartAfterStopping(h[..last], d);
      var f :| d < f < last && h[..last][f] == Saw(StartRunning);
      assert h[f] == h[..last][f];
    }
  }

  /** Told to run, and not to stop since, the firmware is still told to run. */
  predicate NoStops(h: History, g: History) {
    forall i | |h| <= i < |g| :: g[i] != Saw(StopRunning)
  }

  lemma {:induction false} StillRunning(h: History, g: History)
    requires h <= g && FlagsIn(h).running && NoStops(h, g)
    ensures FlagsIn(g).running
    decreases |g|
  {
    if |h| < |g| {
      var before := g[..|g| - 1];
      FlagsStep(FlagsIn(before), g[|g| - 1]);
      assert forall i | 0 <= i < |before| :: before[i] == g[i];
      StillRunning(h, before);
    } else {
      assert h == g;
    }
  }

  lemma RunsOn(h: History, g: History)
    requires h <= g
    ensures FlagsIn(h).running && NoStops(h, g) ==> FlagsIn(g).running
  {
    if FlagsIn(h).running && NoStops(h, g) {
      StillRunning(h, g);
    }
  }

  predicate LosesRail(o: Observation) {
    o.Saw? && o.event.Voltage? && o.event.volts < RAIL_LOST_VOLTAGE
  }

  /** How many samples have found the rail voltage too low. */
  function Outages(h: History): nat {
    if h == [] then 0 else Outages(h[..|h| - 1]) + if LosesRail(h[|h| - 1]) then 1 else 0
  }

  lemma {:induction false} OutagesGrow(h: History, g: History)
    requires h <= g
    ensures Outages(h) <= Outages(g) && (FlagsIn(h).rail && Outages(g) == Outages(h) ==> FlagsIn(g).rail)
    decreases |g|
  {
    if |h| < |g| {
      var before, o := g[..|g| - 1], g[|g| - 1];
      OutagesGrow(h, before);
      if o.Saw? {
        RailWith(FlagsIn(before), o.event);
      }
    } else {
      assert h == g;
    }
  }

  /** An ENABLE request stays one until it is taken or countermanded. */
  predicate NotCountermanded(h: History, g: History) {
    forall i | |h| <= i < |g| :: g[i] != TookRequest && g[i] != Saw(RequestTorque(false))
  }

  lemma {:induction false} StillEnable(h: History, g: History)
    requires h <= g && FlagsIn(h).request == Enable && NotCountermanded(h, g)
    ensures FlagsIn(g).request == Enable
    decreases |g|
  {
    if |h| < |g| {
      var before := g[..|g| - 1];
      assert forall i | 0 <= i < |before| :: before[i] == g[i];
      StillEnable(h, before);
      EnableStep(FlagsIn(before), g[|g| - 1]);
    } else {
      assert h == g;
    }
  }

  lemma EnableStep(f: Flags, o: Observation)
    requires f.request == Enable && o != TookRequest && o != Saw(RequestTorque(false))
    ensures FlagsAfter(f, o).request == Enable
  {
    if o.Saw? {
      match o.event
      case RequestTorque(_) =>
      case Voltage(_) =>
      case _ =>
    }
  }

  /** A request is in hand until the servo task takes it. */
  lemma {:induction false} RequestKept(h: History, d: nat)
    requires d < |h| && h[d].Saw? && h[d].event.RequestTorque?
    ensures FlagsIn(h).request != NoRequest || exists u | d < u < |h| :: h[u] == TookRequest
    decreases |h|
  {
    var last := |h| - 1;
    FlagsStep(FlagsIn(h[..last]), h[last]);
    if d < last && h[last] != TookRequest {
      RequestKept(h[..last], d);
      if FlagsIn(h[..last]).request == NoRequest {
        var u :| d < u < last && h[..last][u] == TookRequest;
        assert h[u] == h[..last][u];
      }
    }
  }

  // ---- The effect of an event ----

  function PowerCycled(bus: map<u8, Servo>, lost: set<u8>): (r: map<u8, Servo>)
    ensures r.Keys == bus.Keys
  {
    map id | id in bus :: if id in lost then POWERED_UP else bus[id]
  }

  /** A requested position is taken by the servo it names, if within that servo's limits. */
  function Requested(motors: seq<Motor>, id: u8, position: u32): (r: seq<Motor>)
    ensures |r| == |motors|
  {
    seq(|motors|, i requires 0 <= i < |motors| =>
      if motors[i].id == id && motors[i].minPosition <= position <= motors[i].maxPosition
      then motors[i].(requested := position) else motors[i])
  }

  /** The position asked for is stored if within the limits, and nothing else changes. */
  lemma RequestedExactly(motors: seq<Motor>, id: u8, position: u32, i: nat)
    requires i < |motors|
    ensures var m, n := motors[i], Requested(motors, id, position)[i];
            && SameMotor(m, n)
            && (m.id == id && m.minPosition <= position <= m.maxPosition ==> n.requested == position)
            && (m.id != id || position < m.minPosition || position > m.maxPosition ==> n.requested == m.requested)
  {
  }

  /** What an event does to the servos' registers: a lost rail resets them all, a sagging supply some. */
  function BusAfter(rail: bool, bus: map<u8, Servo>, e: Event): (after: map<u8, Servo>)
    ensures after.Keys == bus.Keys
  {
    match e
    case Voltage(v) => if rail && !RailAfter(rail, v) then PowerCycled(bus, bus.Keys) else bus
    case FrameAccepted(sagged) => PowerCycled(bus, sagged)
    case _ => bus
  }

  function Changed(s: State, e: Event): State {
    State(if e.RequestPosition? then Requested(s.motors, e.id, e.position) else s.motors,
          FlagsWith(s.flags, e),
          s.reinit || e.RestoreHandled? || e.FrameHandled?,
          BusAfter(s.flags.rail, s.bus, e), s.stale, s.history, s.seen)
  }

  /** A write to shared state, or a voltage sample, and its place in the history. */
  function Effect(s: State, e: Event): State {
    Changed(s, e).(history := s.history + [Saw(e)], seen := s.seen + [e])
  }

  /** Several events in a row. */
  function Effects(s: State, es: seq<Event>): State {
    if es == [] then s else Effect(Effects(s, es[..|es| - 1]), es[|es| - 1])
  }

  /** The flags stay what the history says. */
  lemma ChronicleGrows(s: State, o: Observation, t: State)
    requires Chronicled(s) && t.history == s.history + [o] && t.flags == FlagsAfter(s.flags, o)
    requires t.seen == s.seen + if o.Saw? then [o.event] else []
    requires o.Energized? ==> Permitted(s.history) && (o.atStoredSpeed || o.reinitPending || Disturbed(s.flags))
    ensures Chronicled(t)
  {
    SafeGrows(s.history, o);
    OneMore(s.history, o);
  }

  lemma RequestedSame(motors: seq<Motor>, id: u8, position: u32)
    requires WellFormed(motors)
    ensures WellFormed(Requested(motors, id, position)) && SameMotors(motors, Requested(motors, id, position))
  {
  }

  lemma SameMotorsTrusted(a: seq<Motor>, b: seq<Motor>, bus: map<u8, Servo>)
    requires SameMotors(a, b) && Trusted(a, bus)
    ensures Trusted(b, bus)
  {
    forall i | 0 <= i < |b| && b[i].confirmed
      ensures HoldsVelocity(b[i], bus)
    {
      assert SameMotor(a[i], b[i]);
    }
  }

  lemma PowerCycledUntouched(bus: map<u8, Servo>, lost: set<u8>)
    ensures forall id | id in bus :: Untouched(bus[id], PowerCycled(bus, lost)[id], false)
    ensures lost == {} ==> PowerCycled(bus, lost) == bus
  {
  }

  /** The invariant, except for what the history says. */
  predicate Kept(s: State) {
    WellFormed(s.motors) && (Settled(s) && !s.stale ==> Trusted(s.motors, s.bus))
  }

  lemma PowerRely(s: State, e: Event)
    requires Kept(s) && (e.Voltage? || e.FrameAccepted?)
    ensures Kept(Changed(s, e)) && Rely(s, Changed(s, e))
  {
    PowerCycledUntouched(s.bus, if e.FrameAccepted? then e.sagged else s.bus.Keys);
  }

  lemma MotorsRely(s: State, motors: seq<Motor>)
    requires Kept(s) && WellFormed(motors) && SameMotors(s.motors, motors)
    ensures Kept(s.(motors := motors)) && Rely(s, s.(motors := motors))
  {
    if Trusted(s.motors, s.bus) {
      SameMotorsTrusted(s.motors, motors, s.bus);
    }
  }

  lemma PositionRely(s: State, id: u8, position: u32)
    requires Kept(s)
    ensures var t := Changed(s, RequestPosition(id, position)); Kept(t) && Rely(s, t)
  {
    var motors := Requested(s.motors, id, position);
    RequestedSame(s.motors, id, position);
    assert Changed(s, RequestPosition(id, position)) == s.(motors := motors);
    MotorsRely(s, motors);
  }

  /** Events that leave servos and motor map alone. */
  lemma FlagRely(s: State, t: State)
    requires Kept(s)
    requires t.motors == s.motors && t.bus == s.bus && t.stale == s.stale && t.history == s.history
    requires (s.reinit ==> t.reinit) && (s.flags.estop ==> t.flags.estop) && (Settled(t) ==> Settled(s))
    ensures Kept(t) && Rely(s, t)
  {
  }

  /** What an event does apart from its entry in the history. */
  lemma ChangedRely(s: State, e: Event)
    requires Kept(s)
    ensures Kept(Changed(s, e)) && Rely(s, Changed(s, e))
  {
    match e
    case Voltage(_) => PowerRely(s, e);
    case FrameAccepted(_) => PowerRely(s, e);
    case RequestPosition(id, position) => PositionRely(s, id, position);
    case _ => FlagRely(s, Changed(s, e));
  }

  /** No event breaks the invariant, and every event is one the servo task can live with. */
  lemma EffectGood(s: State, e: Event)
    requires Invariant(s)
    ensures Invariant(Effect(s, e)) && Rely(s, Effect(s, e))
  {
    ChronicleGrows(s, Saw(e), Effect(s, e));
    EffectRely(s, e);
    InvariantOf(Effect(s, e));
  }

  lemma EffectRely(s: State, e: Event)
    requires Kept(s)
    ensures Kept(Effect(s, e)) && Rely(s, Effect(s, e))
  {
    ChangedRely(s, e);
  }

  lemma InvariantOf(s: State)
    requires Kept(s) && Chronicled(s)
    ensures Invariant(s)
  {
  }

  /** Events that take no servo's settings away. */
  predicate Mild(e: Event) {
    && (e.Voltage? ==> e.volts >= RAIL_LOST_VOLTAGE)
    && (e.FrameAccepted? ==> e.sagged == {})
  }

  predicate MildAll(es: seq<Event>) {
    forall i | 0 <= i < |es| :: Mild(es[i])
  }

  lemma MildEffect(s: State, e: Event)
    requires Mild(e) && s.flags.rail
    ensures Effect(s, e).flags.rail && Effect(s, e).bus == s.bus
  {
    PowerCycledUntouched(s.bus, {});
  }

  /** Where these events leave the rail flag. */
  function RailThrough(rail: bool, es: seq<Event>): bool {
    if es == [] then rail
    else
      var before, e := RailThrough(rail, es[..|es| - 1]), es[|es| - 1];
      if e.Voltage? then RailAfter(before, e.volts) else before
  }

  lemma {:induction false} EffectsRail(s: State, es: seq<Event>)
    ensures Effects(s, es).flags.rail == RailThrough(s.flags.rail, es)
    decreases |es|
  {
    if es != [] {
      var before, e := es[..|es| - 1], es[|es| - 1];
      EffectsRail(s, before);
      RailWith(Effects(s, before).flags, e);
      assert Effects(s, es) == Effect(Effects(s, before), e);
    }
  }

  lemma RailWith(f: Flags, e: Event)
    ensures FlagsWith(f, e).rail == if e.Voltage? then RailAfter(f.rail, e.volts) else f.rail
  {
  }

  lemma OneMoreEffect(start: State, s: State, es: seq<Event>, i: nat)
    requires i < |es| && s == Effects(start, es[..i])
    ensures Effect(s, es[i]) == Effects(start, es[..i + 1])
  {
    OneLonger(es, i);
  }

  /** One more event in a row of them. */
  lemma EventStep(start: State, s: State, e: Event)
    requires Invariant(s) && Rely(start, s)
    ensures Invariant(Effect(s, e)) && Rely(start, Effect(s, e)) && Effect(s, e).seen == s.seen + [e]
    ensures Mild(e) && s.flags.rail ==> Effect(s, e).flags.rail && Effect(s, e).bus == s.bus
  {
    EffectGood(s, e);
    RelyTransitive(start, s, Effect(s, e));
    if Mild(e) && s.flags.rail {
      MildEffect(s, e);
    }
  }

  // ---- Register writes ----

  predicate Energizes(r: Register, v: u32) {
    r == TorqueEnable && v != 0
  }

  predicate IsConfirmed(motors: seq<Motor>, id: u8) {
    exists i | 0 <= i < |motors| :: motors[i].id == id && motors[i].confirmed
  }

  /** What must be true for a register write to be one the servo task may make. */
  ghost predicate MayWrite(s: State, id: u8, r: Register, v: u32) {
    && (r == ProfileVelocity ==> forall i | 0 <= i < |s.motors| && s.motors[i].id == id && s.motors[i].confirmed ::
            s.motors[i].velocity == v)
    && (Energizes(r, v) ==> Permitted(s.history) && !s.stale && IsConfirmed(s.motors, id))
  }

  /** A write that may be made now may still be made later in the same pass. */
  lemma AllowedKept(a: State, b: State, ids: set<u8>, id: u8, r: Register, v: u32)
    requires MayWrite(a, id, r, v)
    requires Ran(a, b, ids, true) || Ran(a, b, ids, false)
    ensures MayWrite(b, id, r, v)
  {
    assert forall i | 0 <= i < |a.motors| :: SameMotor(a.motors[i], b.motors[i]);
    if Energizes(r, v) {
      PermittedGrows(a.history, b.history);
      var i :| 0 <= i < |a.motors| && a.motors[i].id == id && a.motors[i].confirmed;
      assert SameMotor(a.motors[i], b.motors[i]);
    }
  }

  /** Some configured servo with this id holds its own stored velocity, which is within the limit. */
  predicate AtStoredSpeed(motors: seq<Motor>, bus: map<u8, Servo>, id: u8) {
    exists i | 0 <= i < |motors| ::
      motors[i].id == id && HoldsVelocity(motors[i], bus) && motors[i].velocity <= MAX_PROFILE_VELOCITY
  }

  /** What the history notes about a write that lands. */
  function Noted(s: State, id: u8, r: Register, v: u32): History {
    if Energizes(r, v) then
      [Energized(id, AtStoredSpeed(s.motors, s.bus, id), s.reinit)]
    else []
  }

  /** A register write that lands. */
  function Landed(s: State, id: u8, r: Register, v: u32): State
    requires id in s.bus
  {
    s.(bus := s.bus[id := Set(s.bus[id], r, v)], history := s.history + Noted(s, id, r, v))
  }

  lemma LandedChronicled(s: State, id: u8, r: Register, v: u32)
    requires Invariant(s) && id in s.bus && MayWrite(s, id, r, v)
    ensures Chronicled(Landed(s, id, r, v))
  {
    if Energizes(r, v) {
      var i :| 0 <= i < |s.motors| && s.motors[i].id == id && s.motors[i].confirmed;
      ChronicleGrows(s, Noted(s, id, r, v)[0], Landed(s, id, r, v));
    } else {
      assert s.history + [] == s.history;
    }
  }

  lemma LandedTrusted(s: State, id: u8, r: Register, v: u32)
    requires id in s.bus && MayWrite(s, id, r, v) && Trusted(s.motors, s.bus)
    ensures Trusted(s.motors, s.bus[id := Set(s.bus[id], r, v)])
  {
    var bus := s.bus[id := Set(s.bus[id], r, v)];
    forall i | 0 <= i < |s.motors| && s.motors[i].confirmed
      ensures HoldsVelocity(s.motors[i], bus)
    {
      assert HoldsVelocity(s.motors[i], s.bus);
    }
  }

  /** An allowed write keeps the invariant, wherever in the pass it lands. */
  lemma LandedGood(s: State, id: u8, r: Register, v: u32)
    requires Invariant(s) && id in s.bus && MayWrite(s, id, r, v)
    ensures Invariant(Landed(s, id, r, v))
  {
    LandedChronicled(s, id, r, v);
    if Trusted(s.motors, s.bus) {
      LandedTrusted(s, id, r, v);
    }
  }

  lemma LandedRan(s: State, id: u8, r: Register, v: u32)
    requires id in s.bus
    ensures Ran(s, Landed(s, id, r, v), {id}, Energizes(r, v))
  {
    if Energizes(r, v) {
      var noted := Noted(s, id, r, v)[0];
      assert Landed(s, id, r, v).history[|s.history|] == noted;
      assert EnergizedBetween(s, Landed(s, id, r, v), id);
    }
  }

  /** A value read back from a servo: it is still there unless something has announced its loss. */
  predicate Holding(s: State, id: u8, r: Register, v: u32) {
    id in s.bus && (Get(s.bus[id], r) == v || (!Settled(s) && s.bus[id] == POWERED_UP))
  }

  lemma HoldingKept(a: State, b: State, ids: set<u8>, id: u8, r: Register, v: u32)
    requires Holding(a, id, r, v) && Worked(a, b, ids) && id !in ids
    ensures Holding(b, id, r, v)
  {
    assert id in b.bus && Untouched(a.bus[id], b.bus[id], Settled(b));
  }

  // ---- Torque on every servo ----

  function Ids(motors: seq<Motor>): set<u8> {
    set i | 0 <= i < |motors| :: motors[i].id
  }

  /** A servo whose settings are not confirmed is driven torque-off even when torque is wanted. */
  function Want(m: Motor, enable: bool): u32 {
    if enable && m.confirmed then 1 else 0
  }

  /** The first k servos hold the torque setting wanted of them. */
  predicate TorqueHeld(s: State, motors: seq<Motor>, k: nat, enable: bool)
    requires k <= |motors|
  {
    forall j | 0 <= j < k :: Holding(s, motors[j].id, TorqueEnable, Want(motors[j], enable))
  }

  lemma TorqueHeldKept(a: State, b: State, ids: set<u8>, energizing: bool, motors: seq<Motor>, k: nat, enable: bool)
    requires k <= |motors| && TorqueHeld(a, motors, k, enable) && Ran(a, b, ids, energizing)
    requires forall j | 0 <= j < k :: motors[j].id !in ids
    ensures TorqueHeld(b, motors, k, enable)
  {
    forall j | 0 <= j < k
      ensures Holding(b, motors[j].id, TorqueEnable, Want(motors[j], enable))
    {
      HoldingKept(a, b, ids, motors[j].id, TorqueEnable, Want(motors[j], enable));
    }
  }

  /** Where the servo task may be while it drives the servos of a motor map that it saw at the start. */
  ghost predicate Driving(start: State, setup: seq<Motor>, enable: bool, s: State) {
    Invariant(s) && !s.stale && (enable ==> Permitted(s.history)) &&
             Ran(start, s, Ids(setup), enable) && SameMotors(setup, s.motors)
  }

  /** Where the servo task may be after driving k servos, all of them successfully if so marked. */
  ghost predicate Sweep(start: State, enable: bool, k: nat, complete: bool, s: State) {
    Driving(start, start.motors, enable, s) && k <= |start.motors| &&
             (complete ==> TorqueHeld(s, start.motors, k, enable))
  }

  lemma SweepBegins(start: State, s: State, enable: bool)
    requires Invariant(s) && Rely(start, s) && !start.stale && (enable ==> Permitted(start.history))
    ensures Sweep(start, enable, 0, true, s)
  {
    RanWider(start, s, Ids(start.motors), enable);
    PermittedKept(start, s, {}, false, enable);
  }

  lemma SweepEnds(start: State, s: State, enable: bool, k: nat, complete: bool)
    requires Sweep(start, enable, k, complete, s)
    ensures Ran(start, s, Ids(start.motors), enable) && Invariant(s)
    ensures complete && k == |start.motors| ==> TorqueHeld(s, start.motors, k, enable)
  {
  }

  lemma DrivingStep(start: State, a: State, b: State, setup: seq<Motor>, k: nat, enable: bool)
    requires k < |setup| && Driving(start, setup, enable, a) && Invariant(b)
    requires Ran(a, b, {setup[k].id}, Want(setup[k], enable) != 0)
    ensures Driving(start, setup, enable, b)
  {
    var id := setup[k].id;
    assert Ran(a, b, {id}, enable);
    RanTransitive(start, a, b, Ids(setup), {id}, enable);
    assert Ids(setup) + {id} == Ids(setup);
    SameMotorsTransitive(setup, a.motors, b.motors);
    PermittedKept(a, b, {id}, enable, enable);
  }

  lemma TorqueStep(a: State, b: State, setup: seq<Motor>, k: nat, enable: bool)
    requires k < |setup| && Distinct(setup) && TorqueHeld(a, setup, k, enable)
    requires Ran(a, b, {setup[k].id}, Want(setup[k], enable) != 0)
    requires Holding(b, setup[k].id, TorqueEnable, Want(setup[k], enable))
    ensures TorqueHeld(b, setup, k + 1, enable)
  {
    TorqueHeldKept(a, b, {setup[k].id}, Want(setup[k], enable) != 0, setup, k, enable);
  }

  /** Driving one more servo. */
  lemma SweepStep(start: State, a: State, b: State, k: nat, enable: bool, complete: bool, ok: bool)
    requires k < |start.motors| && Distinct(start.motors) && Sweep(start, enable, k, complete, a) && Invariant(b)
    requires Ran(a, b, {start.motors[k].id}, Want(start.motors[k], enable) != 0)
    requires ok ==> Holding(b, start.motors[k].id, TorqueEnable, Want(start.motors[k], enable))
    ensures Sweep(start, enable, k + 1, complete && ok, b)
  {
    var setup := start.motors;
    DrivingStep(start, a, b, setup, k, enable);
    if complete && ok {
      TorqueStep(a, b, setup, k, enable);
    }
  }

  /** The write that drives servo k is one the servo task may make. */
  lemma TorqueAllowed(start: State, s: State, k: nat, enable: bool, complete: bool)
    requires k < |start.motors| && Sweep(start, enable, k, complete, s)
    ensures MayWrite(s, start.motors[k].id, TorqueEnable, Want(start.motors[k], enable)) && Invariant(s)
  {
    assert SameMotor(start.motors[k], s.motors[k]);
  }

  /** All these servos are on the bus. */
  predicate Present(motors: seq<Motor>, bus: map<u8, Servo>) {
    forall j | 0 <= j < |motors| :: motors[j].id in bus
  }

  /** The bus, once the first k servos have been driven with nothing in the way: no other register changes. */
  predicate Driven(before: map<u8, Servo>, bus: map<u8, Servo>, motors: seq<Motor>, k: nat, enable: bool)
    requires Present(motors, before)
  {
    && bus.Keys == before.Keys
    && (forall j | 0 <= j < |motors| ::
          bus[motors[j].id] ==
          if j < k then Set(before[motors[j].id], TorqueEnable, Want(motors[j], enable)) else before[motors[j].id])
    && (forall id | id in before && id !in Ids(motors) :: bus[id] == before[id])
  }

  /** The states with the rail up in which this is what the bus looks like. */
  ghost predicate Swept(before: map<u8, Servo>, motors: seq<Motor>, k: nat, enable: bool, s: State) {
    s.flags.rail && k <= |motors| && Present(motors, before) && Driven(before, s.bus, motors, k, enable)
  }

  lemma SweptStep(before: map<u8, Servo>, motors: seq<Motor>, k: nat, enable: bool, a: State, b: State)
    requires Swept(before, motors, k, enable, a) && k < |motors| && Distinct(motors)
    requires b.flags.rail && motors[k].id in a.bus
    requires b.bus == a.bus[motors[k].id := Set(a.bus[motors[k].id], TorqueEnable, Want(motors[k], enable))]
    ensures Swept(before, motors, k + 1, enable, b)
  {
  }

  // ---- Confirmed flags ----

  function Marked(motors: seq<Motor>, id: u8, confirmed: bool): (r: seq<Motor>)
    ensures |r| == |motors|
  {
    seq(|motors|, i requires 0 <= i < |motors| =>
      if motors[i].id == id then motors[i].(confirmed := confirmed) else motors[i])
  }

  /** A servo may be marked confirmed once its stored velocity has been read back from it. */
  lemma MarkedGood(s: State, id: u8, confirmed: bool)
    requires Invariant(s) && !s.stale
    requires confirmed ==> forall i | 0 <= i < |s.motors| && s.motors[i].id == id ::
                             Holding(s, id, ProfileVelocity, s.motors[i].velocity)
    ensures Invariant(s.(motors := Marked(s.motors, id, confirmed)))
  {
    var motors := Marked(s.motors, id, confirmed);
    assert forall i | 0 <= i < |motors| :: motors[i].(confirmed := false) == s.motors[i].(confirmed := false);
    if Settled(s) {
      forall i | 0 <= i < |motors| && motors[i].confirmed
        ensures HoldsVelocity(motors[i], s.bus)
      {
        assert s.motors[i].id == id || HoldsVelocity(s.motors[i], s.bus);
      }
    }
  }

  function Unconfirmed(motors: seq<Motor>): (r: seq<Motor>)
    ensures |r| == |motors|
  {
    seq(|motors|, i requires 0 <= i < |motors| => motors[i].(confirmed := false))
  }

  /** Clearing every flag ends the span in which flags may be out of date. */
  lemma UnconfirmedGood(s: State)
    requires WellFormed(s.motors) && Chronicled(s)
    ensures Invariant(s.(motors := Unconfirmed(s.motors), stale := false))
  {
  }
}
