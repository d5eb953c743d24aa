/**
 What safe histories rule out, and the window in which a servo may be off its speed.
 */
module TorqueSafety {
  import opened Bytes
  import opened TorqueState

  // ---- Safety over whole histories ----

  /** What a pass found before it energized a servo that no caller had asked for. */
  lemma FoundBefore(h: History, k: nat) returns (p: nat, r: nat, f: nat)
    requires Safe(h) && k < |h| && h[k].Energized? && !EnableAsked(h[..k])
    ensures FrameAndRunning(h[..k], p, r, f) && p < f
    ensures h[p] == PassStarted && forall i | p < i < k :: h[i] != PassStarted
  {
    var g, c: nat;
    g := h[..k];
    p, c :| ClearSince(g, p, c) && (EnableAsked(g) || Ready(g, p));
    r, f :| FrameAndRunning(g, p, r, f);
    assert forall i | 0 <= i < k :: g[i] == h[i];
  }

  lemma FrameBetween(h: History, k: nat, d: nat, f: nat)
    requires d < f < k <= |h| && h[d] == Saw(ForgetFrame) && FlagsIn(h[..k][..f]).frame
    ensures exists a | d < a < f :: AcceptsFrame(h[a])
  {
    assert h[..k][..f] == h[..f];
    FrameAfterForgetting(h[..f], d);
    var a :| d < a < f && AcceptsFrame(h[..f][a]);
    assert h[a] == h[..f][a];
  }

  lemma StartBetween(h: History, k: nat, d: nat, r: nat)
    requires d < r < k <= |h| && h[d] == Saw(StopRunning) && FlagsIn(h[..k][..r]).running
    ensures exists a | d < a < r :: h[a] == Saw(StartRunning)
  {
    assert h[..k][..r] == h[..r];
    StartAfterStopping(h[..r], d);
    var a :| d < a < r && h[..r][a] == Saw(StartRunning);
    assert h[a] == h[..r][a];
  }

  /**
   Once the connection is given up and another pass has begun, no servo is energized before the next
   first frame, unless some caller explicitly asks for torque.
   */
  lemma NotEnergizedUntilNextFrame(h: History, d: nat, p: nat, k: nat)
    requires Safe(h) && d < p < k < |h|
    requires h[d] == Saw(ForgetFrame) && h[p] == PassStarted && h[k].Energized?
    requires !EnableAsked(h[..k])
    ensures exists f | d < f < k :: AcceptsFrame(h[f])
  {
    var q, r, f := FoundBefore(h, k);
    FrameBetween(h, k, d, f);
  }

  /** A request taken in a pass is taken before the pass finds itself told to run. */
  lemma FoundAfterTaking(h: History, u: nat, k: nat) returns (r: nat, f: nat)
    requires Safe(h) && u < k < |h| && h[u] == TookRequest && h[k].Energized? && !EnableAsked(h[..k])
    ensures u < r < f < k && FlagsIn(h[..k][..r]).running && FlagsIn(h[..k][..f]).frame
  {
    var p;
    p, r, f := FoundBefore(h, k);
    assert h[..k][u] == TookRequest;
  }

  /**
   Once the task has been told to stop and has then taken a request, it energizes no servo before it is told to
   run again, not even in the same pass, unless some caller explicitly asks for torque.
   */
  lemma NotEnergizedUntilRunning(h: History, d: nat, u: nat, k: nat)
    requires Safe(h) && d < u < k < |h|
    requires h[d] == Saw(StopRunning) && h[u] == TookRequest && h[k].Energized?
    requires !EnableAsked(h[..k])
    ensures exists f | d < f < k :: h[f] == Saw(StartRunning)
  {
    var r, f := FoundAfterTaking(h, u, k);
    StartBetween(h, k, d, r);
    var a :| d < a < r && h[a] == Saw(StartRunning);
  }

  /** No frame has been accepted since the connection was given up at g. */
  predicate NoFrameSince(h: History, g: nat) {
    g < |h| && h[g] == Saw(ForgetFrame) && forall i | g < i < |h| :: !AcceptsFrame(h[i])
  }

  /** Told to stop at halt, the firmware was not told to run again before the frame was forgotten at g. */
  predicate StoppedUntil(h: History, halt: nat, g: nat) {
    halt < |h| && h[halt] == Saw(StopRunning) && forall i | halt < i < g && i < |h| :: h[i] != Saw(StartRunning)
  }

  lemma FrameForgotten(h: History, k: nat, g: nat, f: nat)
    requires f < k <= |h| && NoFrameSince(h, g)
    ensures g < f ==> !FlagsIn(h[..k][..f]).frame
  {
    if g < f && FlagsIn(h[..k][..f]).frame {
      FrameBetween(h, k, g, f);
    }
  }

  lemma StartForgotten(h: History, k: nat, halt: nat, g: nat, r: nat)
    requires halt < r < k <= |h| && r < g && StoppedUntil(h, halt, g)
    ensures !FlagsIn(h[..k][..r]).running
  {
    if FlagsIn(h[..k][..r]).running {
      StartBetween(h, k, halt, r);
    }
  }

  /**
   Once a request has been taken, nothing is energized before the next first frame, unless some caller explicitly
   asks for torque, if the connection had been given up by then; or if it was given up later, and the firmware had
   been told to stop before the request was taken and was not told to run again in between.
   */
  lemma NotEnergizedOnceTaken(h: History, halt: nat, g: nat, u: nat, k: nat)
    requires Safe(h) && u < k < |h| && h[u] == TookRequest && NoFrameSince(h, g) && !EnableAsked(h[..k])
    requires g < u || (halt < u && StoppedUntil(h, halt, g))
    ensures !h[k].Energized?
  {
    if h[k].Energized? {
      var r, f := FoundAfterTaking(h, u, k);
      FrameForgotten(h, k, g, f);
      if g >= f {
        StartForgotten(h, k, halt, g, r);
      }
      assert false;
    }
  }

  lemma {:induction false} EstopStays(h: History, e: nat)
    requires e < |h| && h[e] == Saw(RaiseEstop)
    ensures FlagsIn(h).estop
    decreases |h|
  {
    FlagsStep(FlagsIn(h[..|h| - 1]), h[|h| - 1]);
    if e < |h| - 1 {
      EstopStays(h[..|h| - 1], e);
    }
  }

  lemma ClearedBefore(h: History, k: nat) returns (p: nat, c: nat)
    requires Safe(h) && k < |h| && h[k].Energized?
    ensures p < c < k && !FlagsIn(h[..c]).estop && forall i | p < i < k :: h[i] != PassStarted
  {
    var g := h[..k];
    p, c :| ClearSince(g, p, c) && (EnableAsked(g) || Ready(g, p));
    assert g[..c] == h[..c] && forall i | 0 <= i < k :: g[i] == h[i];
  }

  /** After the emergency stop is raised no servo is energized except by the pass then in progress. */
  lemma NeverEnergizedAfterEstop(h: History, e: nat, k: nat)
    requires Safe(h) && e < k < |h| && h[e] == Saw(RaiseEstop) && h[k].Energized?
    ensures forall p | e < p < k :: h[p] != PassStarted
  {
    var p, c := ClearedBefore(h, k);
    if e < c {
      assert h[..c][e] == h[e];
      EstopStays(h[..c], e);
      assert false;
    }
  }

  // ---- The window in which a servo may be off its speed ----

  /**
   A sample that finds the rail restored raises the rail flag before it requests the re-init. In between, the flags
   look settled, a servo that the lost rail has reset is still marked confirmed, and a torque write that lands
   energizes it at its power-up speed; the re-init is then requested.
   */
  lemma RestoreWindow(s: State, i: nat, low: real, high: real)
    requires Invariant(s) && Settled(s) && !s.stale && i < |s.motors|
    requires s.motors[i].confirmed && s.motors[i].velocity != 0
    requires low < RAIL_LOST_VOLTAGE && RAIL_RESTORED_VOLTAGE < high
    ensures var t := Effects(s, [Voltage(low), Voltage(high)]); var id := s.motors[i].id;
            && Invariant(t) && t.flags.rail && !t.flags.frameInFlight && !t.reinit && !t.stale
            && t.motors == s.motors && !Trusted(t.motors, t.bus)
            && Noted(t, id, TorqueEnable, 1) == [Energized(id, false, false)]
            && Effect(t, RestoreHandled).reinit && !Disturbed(Effect(t, RestoreHandled).flags)
  {
    var lost := Effect(s, Voltage(low));
    var t := Effect(lost, Voltage(high));
    BriefOutage(s, low, high);
    EffectGood(s, Voltage(low));
    EffectGood(lost, Voltage(high));
    AllReset(s.motors, s.bus, i);
  }

  lemma AllReset(motors: seq<Motor>, bus: map<u8, Servo>, i: nat)
    requires WellFormed(motors) && Trusted(motors, bus)
    requires i < |motors| && motors[i].confirmed && motors[i].velocity != 0
    ensures var reset := PowerCycled(bus, bus.Keys);
            !Trusted(motors, reset) && !AtStoredSpeed(motors, reset, motors[i].id)
  {
    assert HoldsVelocity(motors[i], bus) && !HoldsVelocity(motors[i], PowerCycled(bus, bus.Keys));
  }

  lemma BriefOutage(s: State, low: real, high: real)
    requires s.flags.rail && low < RAIL_LOST_VOLTAGE && RAIL_RESTORED_VOLTAGE < high
    ensures Effects(s, [Voltage(low), Voltage(high)]) == Effect(Effect(s, Voltage(low)), Voltage(high))
    ensures var t := Effect(Effect(s, Voltage(low)), Voltage(high));
            && t.flags.rail && t.flags.restoreInFlight && t.bus == PowerCycled(s.bus, s.bus.Keys)
            && t == s.(flags := s.flags.(restoreInFlight := true), bus := t.bus, history := t.history, seen := t.seen)
  {
    assert [Voltage(low), Voltage(high)][..1] == [Voltage(low)];
    assert [Voltage(low)][..0] == [];
    assert Effects(s, [Voltage(low)]) == Effect(s, Voltage(low));
  }

  /** Four flags and the task's own span, as a state shows them. */
  predicate Shows(s: State, rail: bool, reinit: bool, frameInFlight: bool, restoreInFlight: bool, stale: bool) {
    && s.flags.rail == rail && s.reinit == reinit && s.flags.frameInFlight == frameInFlight
    && s.flags.restoreInFlight == restoreInFlight && s.stale == stale
  }

  function Perhaps(h: History, e: Event, happens: bool): History {
    if happens then h + [Saw(e)] else h
  }

  /** A history that leads to these flags. */
  function Leading(rail: bool, frameInFlight: bool, restoreInFlight: bool): History {
    var lost := Perhaps([], Voltage(0.0), restoreInFlight);
    var restored := Perhaps(lost, Voltage(5.0), restoreInFlight);
    Perhaps(Perhaps(restored, FrameAccepted({}), frameInFlight), Voltage(0.0), !rail)
  }

  lemma PerhapsLeads(h: History, e: Event, happens: bool)
    requires Safe(h)
    ensures Safe(Perhaps(h, e, happens))
    ensures FlagsIn(Perhaps(h, e, happens)) == if happens then FlagsWith(FlagsIn(h), e) else FlagsIn(h)
  {
    if happens {
      SafeGrows(h, Saw(e));
      OneMore(h, Saw(e));
    }
  }

  lemma Leads(rail: bool, frameInFlight: bool, restoreInFlight: bool)
    ensures var h := Leading(rail, frameInFlight, restoreInFlight);
            && Safe(h)
            && FlagsIn(h) == Flags(rail, frameInFlight, restoreInFlight, NoRequest, false, frameInFlight, false)
  {
    var lost := Perhaps([], Voltage(0.0), restoreInFlight);
    PerhapsLeads([], Voltage(0.0), restoreInFlight);
    var restored := Perhaps(lost, Voltage(5.0), restoreInFlight);
    PerhapsLeads(lost, Voltage(5.0), restoreInFlight);
    assert FlagsIn(restored) == AT_BOOT.(restoreInFlight := restoreInFlight);
    PerhapsLeads(restored, FrameAccepted({}), frameInFlight);
    PerhapsLeads(Perhaps(restored, FrameAccepted({}), frameInFlight), Voltage(0.0), !rail);
  }

  /** One servo, marked confirmed, that holds its power-up velocity. */
  function OffSpeed(rail: bool, reinit: bool, frameInFlight: bool, restoreInFlight: bool, stale: bool): State {
    State([Motor(1, 0, 0, 0, 1, true)],
          Flags(rail, frameInFlight, restoreInFlight, NoRequest, false, frameInFlight, false), reinit,
          map[1 := POWERED_UP], stale, Leading(rail, frameInFlight, restoreInFlight),
          Seen(Leading(rail, frameInFlight, restoreInFlight)))
  }

  lemma OffSpeedGood(rail: bool, reinit: bool, frameInFlight: bool, restoreInFlight: bool, stale: bool)
    requires !rail || reinit || frameInFlight || restoreInFlight || stale
    ensures var s := OffSpeed(rail, reinit, frameInFlight, restoreInFlight, stale);
            Invariant(s) && !Trusted(s.motors, s.bus)
  {
    Leads(rail, frameInFlight, restoreInFlight);
    OffSpeedWell(OffSpeed(rail, reinit, frameInFlight, restoreInFlight, stale));
  }

  lemma OffSpeedWell(s: State)
    requires s.motors == [Motor(1, 0, 0, 0, 1, true)] && s.bus == map[1 := POWERED_UP] && s.seen == Seen(s.history)
    requires (Disturbed(s.flags) || s.reinit || s.stale) && s.flags == FlagsIn(s.history) && Safe(s.history)
    ensures Invariant(s) && !Trusted(s.motors, s.bus)
  {
    assert !HoldsVelocity(s.motors[0], s.bus);
  }

  /**
   A servo marked confirmed can be off its stored speed exactly while the rail flag is down, a re-init is pending or
   about to be requested, or the servo task is between taking a re-init up and clearing the confirmed flags.
   */
  lemma OffSpeedExactly(rail: bool, reinit: bool, frameInFlight: bool, restoreInFlight: bool, stale: bool)
    ensures (exists s: State :: Invariant(s) && Shows(s, rail, reinit, frameInFlight, restoreInFlight, stale) &&
               !Trusted(s.motors, s.bus))
            <==> !rail || reinit || frameInFlight || restoreInFlight || stale
  {
    if !rail || reinit || frameInFlight || restoreInFlight || stale {
      OffSpeedGood(rail, reinit, frameInFlight, restoreInFlight, stale);
    } else {
      forall s: State | Invariant(s) && Shows(s, rail, reinit, frameInFlight, restoreInFlight, stale)
        ensures Trusted(s.motors, s.bus)
      {
        assert Settled(s) && !s.stale;
      }
    }
  }

  predicate ConfirmedOff(s: State, i: nat) {
    i < |s.motors| && s.motors[i].confirmed && !HoldsVelocity(s.motors[i], s.bus)
  }

  /**
   Each of these is reached from any settled state in which a servo is confirmed at a speed of its own: by losing the
   rail, then finding it restored, then requesting the re-init, then taking that up; or by accepting a frame that sags
   the supply.
   */
  lemma OffSpeedReached(s: State, i: nat, low: real, high: real)
    requires Invariant(s) && Settled(s) && !s.stale && i < |s.motors|
    requires s.motors[i].confirmed && s.motors[i].velocity != 0
    requires low < RAIL_LOST_VOLTAGE && RAIL_RESTORED_VOLTAGE < high
    ensures var lost := Effect(s, Voltage(low));
            var restored := Effect(lost, Voltage(high));
            var asked := Effect(restored, RestoreHandled);
            && Shows(lost, false, false, false, false, false) && ConfirmedOff(lost, i)
            && Shows(restored, true, false, false, true, false) && ConfirmedOff(restored, i)
            && Shows(asked, true, true, false, false, false) && ConfirmedOff(asked, i)
            && Shows(asked.(reinit := false, stale := true), true, false, false, false, true)
    ensures var sagged := Effect(s, FrameAccepted({s.motors[i].id}));
            Shows(sagged, true, false, true, false, false) && ConfirmedOff(sagged, i)
  {
    BriefOutage(s, low, high);
    assert HoldsVelocity(s.motors[i], s.bus);
  }

  predicate NoneSince(h: History, e: nat, o: Observation) {
    forall i | e < i < |h| :: h[i] != o
  }

  lemma NoneSinceGrows(h: History, e: nat, o: Observation, more: Observation)
    requires e < |h|
    ensures NoneSince(h + [more], e, o) <==> NoneSince(h, e, o) && more != o
  {
    var g := h + [more];
    assert g[|h|] == more && forall i | 0 <= i < |h| :: g[i] == h[i];
  }

  /** A frame accepted at e, or a sample at e that found the rail restored, with its re-init not yet requested. */
  predicate Unfinished(h: History, e: nat) {
    && e < |h| && h[e].Saw?
    && match h[e].event
       case FrameAccepted(_) => NoneSince(h, e, Saw(FrameHandled))
       case Voltage(v) =>
         !FlagsIn(h[..e]).rail && v > RAIL_RESTORED_VOLTAGE && NoneSince(h, e, Saw(RestoreHandled))
       case _ => false
  }

  /** What ends what began at e. */
  function Ending(o: Observation): Observation {
    if AcceptsFrame(o) then Saw(FrameHandled) else Saw(RestoreHandled)
  }

  /** Whatever is not the end of it leaves an unfinished event unfinished. */
  lemma UnfinishedGrows(h: History, o: Observation, e: nat)
    requires e < |h|
    ensures Unfinished(h + [o], e) <==> Unfinished(h, e) && o != Ending(h[e])
  {
    assert (h + [o])[..e] == h[..e] && (h + [o])[e] == h[e];
    NoneSinceGrows(h, e, Ending(h[e]), o);
  }

  lemma UnfinishedNow(h: History, o: Observation)
    ensures Unfinished(h + [o], |h|) <==>
            AcceptsFrame(o) ||
            (o.Saw? && o.event.Voltage? && !FlagsIn(h).rail && o.event.volts > RAIL_RESTORED_VOLTAGE)
  {
    assert (h + [o])[..|h|] == h;
  }

  predicate UnfinishedKind(h: History, e: nat, frame: bool) {
    Unfinished(h, e) && AcceptsFrame(h[e]) == frame
  }

  /** The flags of what is in flight after one more observation. */
  lemma InFlightAfter(f: Flags, o: Observation)
    ensures FlagsAfter(f, o).frameInFlight == (AcceptsFrame(o) || (f.frameInFlight && o != Saw(FrameHandled)))
    ensures FlagsAfter(f, o).restoreInFlight ==
            ((o.Saw? && o.event.Voltage? && !f.rail && o.event.volts > RAIL_RESTORED_VOLTAGE) ||
             (f.restoreInFlight && o != Saw(RestoreHandled)))
  {
    if o.Saw? {
      match o.event
      case Voltage(_) =>
      case RestoreHandled =>
      case FrameAccepted(_) =>
      case FrameHandled =>
      case _ =>
    }
  }

  /** A re-init is about to be requested exactly while a frame or a restored rail is unfinished. */
  lemma {:induction false} InFlightExactly(h: History, frame: bool)
    ensures (if frame then FlagsIn(h).frameInFlight else FlagsIn(h).restoreInFlight) <==>
            exists e: nat :: UnfinishedKind(h, e, frame)
    decreases |h|
  {
    if h != [] {
      var before, o := h[..|h| - 1], h[|h| - 1];
      assert h == before + [o];
      var ended := o == if frame then Saw(FrameHandled) else Saw(RestoreHandled);
      InFlightExactly(before, frame);
      InFlightAfter(FlagsIn(before), o);
      UnfinishedNow(before, o);
      forall e: nat | e < |before|
        ensures UnfinishedKind(h, e, frame) <==>
                UnfinishedKind(before, e, frame) && !ended
      {
        UnfinishedGrows(before, o, e);
      }
      InFlightStep(before, h, frame, ended);
    }
  }

  lemma InFlightStep(h: History, g: History, frame: bool, ended: bool)
    requires |g| == |h| + 1
    requires forall e: nat | e < |h| :: UnfinishedKind(g, e, frame) <==> UnfinishedKind(h, e, frame) && !ended
    ensures (exists e: nat :: UnfinishedKind(g, e, frame)) <==>
            UnfinishedKind(g, |h|, frame) || (!ended && exists e: nat :: UnfinishedKind(h, e, frame))
  {
    if e: nat :| UnfinishedKind(g, e, frame) {
      assert e < |g|;
      assert e == |h| || UnfinishedKind(h, e, frame);
    }
    if e: nat :| UnfinishedKind(h, e, frame) {
      assert e < |h|;
      assert ended || UnfinishedKind(g, e, frame);
    }
  }

  /**
   A servo energized off its stored speed with no re-init pending was energized with the rail flag down, or between
   the two writes of a sample that found the rail restored or of a handler that accepted a frame.
   */
  lemma EnergizedOffSpeed(h: History, k: nat)
    requires Safe(h) && k < |h| && h[k].Energized? && !h[k].atStoredSpeed && !h[k].reinitPending
    ensures !FlagsIn(h[..k]).rail || exists e: nat :: Unfinished(h[..k], e)
  {
    InFlightExactly(h[..k], true);
    InFlightExactly(h[..k], false);
    if FlagsIn(h[..k]).frameInFlight {
      var e: nat :| UnfinishedKind(h[..k], e, true);
    } else if FlagsIn(h[..k]).restoreInFlight {
      var e: nat :| UnfinishedKind(h[..k], e, false);
    }
  }
}
