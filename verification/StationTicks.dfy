/** What one tick does, told by the clock alone: leases, faults, the heartbeat, and how the motion under way
    fares. The lemmas say what the tick leaves behind field by field and do not depend on how it is put together. */
module StationTicks {
  import opened Wrappers
  import opened Protocol
  import opened Ordered
  import opened StationSpec
  import opened StationInvariant
  import opened StationRuns
  import opened StationMotion
  import opened MachineWords

  /** What only the refreshing part of a tick, and no motion, ever changes. */
  function Settings(s: Station): (Mode, U32, int, int, nat) {
    (s.mode, s.keepaliveCounter, s.faultUntil, s.heartbeat, s.sequence)
  }

  lemma FinishKeepsSettings(s: Station, result: Result, reason: Reason, now: int)
    requires ActiveCached(s)
    ensures Settings(Finish(s, result, reason, now)) == Settings(s)
  {
  }

  lemma AdvanceKeepsSettings(s: Station, now: int)
    requires ActiveCached(s) && s.active.Some?
    ensures Settings(Advance(s, now)) == Settings(s)
  {
    hide Finish, PositionAt, Reached;
    var p := s.(position := PositionAt(s, now));
    FinishKeepsSettings(p, FAILED, ACTION_TIMEOUT, now);
    FinishKeepsSettings(p.(visitedExtended := true, state := EXTENDED), COMPLETED, NO_REASON, now);
    var u := if p.visitedExtended then p.(cycles := p.cycles + 1, visitedExtended := false) else p;
    FinishKeepsSettings(u.(state := IDLE), COMPLETED, NO_REASON, now);
  }

  lemma HousekeepSettings(s: Station, now: int)
    requires ActiveCached(s)
    ensures Settings(Housekeep(s, now)) == Settings(Refresh(s, now))
  {
    hide Finish, Refresh;
    var f := Refresh(s, now);
    FinishKeepsSettings(f.(retired := f.retired[f.owner := now + RETIREMENT_MS]), FAILED, COMM_TIMEOUT, now);
    FinishKeepsSettings(Lapse(f, now), FAILED, LIMIT_CONFLICT, now);
  }

  lemma TickSettings(s: Station, now: int)
    requires ActiveCached(s)
    ensures Settings(Tick(s, now)) == Settings(Refresh(s, now))
  {
    HousekeepSettings(s, now);
    hide Housekeep, Advance, Refresh, WellFormed, NoDuplicates;
    if Housekeep(s, now).active.Some? { AdvanceKeepsSettings(Housekeep(s, now), now); }
  }

  lemma RefreshSettings(s: Station, now: int)
    ensures var r := Refresh(s, now);
      && r.fault == (if Passed(s, now) then NO_FAULT else s.fault)
      && Settings(r) == (s.mode, s.keepaliveCounter, s.faultUntil,
                         if r.fault == FROZEN_HEARTBEAT then s.heartbeat else now, s.sequence + 1)
      && (forall k :: k in r.retired <==> k in s.retired && s.retired[k] > now)
      && (forall k :: k in r.retired ==> r.retired[k] == s.retired[k])
  {
  }

  predicate Lapsed(s: Station, now: int) { s.owner != 0 && now >= s.lastKeepalive + s.cfg.leaseMs }

  predicate Passed(s: Station, now: int) { s.fault in {COMM_SILENT, FROZEN_HEARTBEAT} && now >= s.faultUntil }

  /** A tick counts itself, drops an owner exactly when its lease has run out and retires it for five seconds,
      lets the communication faults pass exactly at their end, and beats unless the heartbeat is frozen. */
  lemma TickedSettings(s: Station, now: int)
    requires ActiveCached(s)
    ensures var r := Tick(s, now);
      && r.sequence == s.sequence + 1 && r.mode == s.mode && r.keepaliveCounter == s.keepaliveCounter
      && r.faultUntil == s.faultUntil && r.fault == (if Passed(s, now) then NO_FAULT else s.fault)
      && r.heartbeat == (if r.fault == FROZEN_HEARTBEAT then s.heartbeat else now)
      && r.owner == (if Lapsed(s, now) then 0 else s.owner)
      && (forall k :: k in r.retired <==> (k in s.retired && s.retired[k] > now) || (Lapsed(s, now) && k == s.owner))
      && (forall k :: k in r.retired ==>
           r.retired[k] == if Lapsed(s, now) && k == s.owner then now + 5000 else s.retired[k])
      && r.highwater == s.highwater && r.cfg == s.cfg && r.lastKeepalive == s.lastKeepalive
      && r.motionStarts == s.motionStarts
  {
    TickLedger(s, now);
    TickSettings(s, now);
    RefreshSettings(s, now);
    hide Tick, Refresh, Passed, WellFormed, NoDuplicates;
  }

  // ---- a station at rest ----

  /** Time moves nothing that rests; contradicting limits alone stop it in a fault. */
  lemma RestsOn(s: Station, now: int)
    requires s.active.None?
    ensures var r := Tick(s, now);
      && r.active.None? && r.position == s.position && r.cycles == s.cycles && r.visitedExtended == s.visitedExtended
      && r.ack == s.ack && r.finished == s.finished && r.cache == s.cache && r.lastActionMs == s.lastActionMs
      && r.tally == s.tally
      && r.state == (if r.fault == BOTH_LIMITS then State.FAULT else s.state)
      && r.alarm == (if r.fault == BOTH_LIMITS then LIMIT_CONFLICT else s.alarm)
  {
  }

  // ---- a motion under way ----

  /** The motion has ended, and everything that tells of it tells this result. */
  ghost predicate Ended(s: Station, r: Station, now: int, result: Result, reason: Reason)
    requires s.active.Some?
  {
    var m := s.active.value;
    && r.active.None? && r.ack == Ack(m.sequence, result, reason)
    && r.finished == Finished(m.sequence, result, reason, if now > m.began then now - m.began else 0)
    && r.lastActionMs == r.finished.duration
    && s.cache.Has(m.sequence) && r.cache.Has(m.sequence)
    && r.cache.items[m.sequence] == Entry(s.cache.items[m.sequence].fingerprint, result, reason)
  }

  /** ... and stopped the machine with an alarm where it stood at position p. */
  ghost predicate Tripped(s: Station, r: Station, now: int, reason: Reason, p: real)
    requires s.active.Some?
  {
    && Ended(s, r, now, FAILED, reason) && r.state == State.FAULT && r.alarm == reason && r.position == p
    && r.cycles == s.cycles && r.visitedExtended == s.visitedExtended
  }

  /** Whether the leg has had the time it takes, with this fault injected. */
  predicate LegDone(s: Station, fault: Fault, now: int)
    requires s.active.Some?
  {
    && fault != TARGET_LIMIT_MISSING
    && now - s.active.value.legBegan >= s.cfg.moveMs * (if fault == SLOW_MOTION then 10 else 1)
  }

  /** On its way at an even pace, or held at the far end because its limit is not seen. */
  ghost predicate OnItsWay(m: Motion, position: real, duration: int, now: int) {
    if now - m.legBegan >= duration then position == m.target as real
    else (position - m.start) * duration as real == (m.target as real - m.start) * (now - m.legBegan) as real
  }

  lemma FinishEnds(s: Station, result: Result, reason: Reason, now: int)
    requires ActiveCached(s) && s.active.Some?
    ensures var r := Finish(s, result, reason, now);
      && Ended(s, r, now, result, reason)
      && r.state == s.state && r.alarm == s.alarm && r.position == s.position
      && r.cycles == s.cycles && r.visitedExtended == s.visitedExtended
  {
    hide WellFormed, NoDuplicates;
  }

  /** The lease has run out: the motion ends where it last was seen. */
  lemma LapseEnds(s: Station, now: int)
    requires Consistent(s, now) && s.active.Some? && Lapsed(s, now)
    ensures Tripped(s, Tick(s, now), now, COMM_TIMEOUT, s.position)
  {
    var f := Refresh(s, now);
    assert f == s.(sequence := f.sequence, retired := f.retired, fault := f.fault, heartbeat := f.heartbeat);
    assert f.fault != BOTH_LIMITS;
    var e := f.(retired := f.retired[f.owner := now + RETIREMENT_MS]);
    FinishEnds(e, FAILED, COMM_TIMEOUT, now);
    hide Refresh, Consistent, WellFormed, NoDuplicates;
    LapseUnfolds(s, f, e, now);
    hide Tick, Finish;
  }

  lemma LapseUnfolds(s: Station, f: Station, e: Station, now: int)
    requires ActiveCached(s) && f == Refresh(s, now) && f.fault != BOTH_LIMITS && f.active.Some? && Lapsed(f, now)
    requires e == f.(retired := f.retired[f.owner := now + RETIREMENT_MS])
    ensures Tick(s, now) ==
      Finish(e, FAILED, COMM_TIMEOUT, now).(state := State.FAULT, alarm := COMM_TIMEOUT, owner := 0)
  {
    FinishKeepsLedger(e, FAILED, COMM_TIMEOUT, now);
    hide Refresh, Finish, WellFormed, NoDuplicates;
  }

  /** The owner is there: the tick is the housekeeping of its settings and the progress of the motion. */
  lemma TickAdvances(s: Station, now: int)
    requires Consistent(s, now) && s.active.Some? && !Lapsed(s, now)
    ensures var h := Refresh(s, now);
      && ActiveCached(s) && Consistent(h, now) && h.active == s.active && Tick(s, now) == Advance(h, now)
      && h == s.(sequence := h.sequence, retired := h.retired, fault := h.fault, heartbeat := h.heartbeat)
      && h.fault == Tick(s, now).fault
  {
    RefreshConsistent(s, now);
    var h := Refresh(s, now);
    assert h == s.(sequence := h.sequence, retired := h.retired, fault := h.fault, heartbeat := h.heartbeat);
    hide Refresh, WellFormed, NoDuplicates;
    assert Lapse(h, now) == h && Housekeep(s, now) == h;
    AdvanceKeepsLedger(h, now);
    hide Advance, Consistent;
  }

  lemma Proportion(x: real, y: int, d: int)
    requires d > 0 && y < d
    ensures x * Fraction(y, d) * d as real == x * y as real
  {
    assert Fraction(y, d) * d as real == y as real;
    assert x * Fraction(y, d) * d as real == x * (Fraction(y, d) * d as real);
  }

  lemma Paces(s: Station, now: int)
    requires Consistent(s, now) && s.active.Some?
    ensures OnItsWay(s.active.value, PositionAt(s, now), LegDuration(s), now)
  {
    PositionBounds(s, now);
    var m, d := s.active.value, LegDuration(s);
    if now - m.legBegan < d {
      Proportion(m.target as real - m.start, now - m.legBegan, d);
    }
  }

  /** The leg is over: a cycle turns round at its far end, any other motion is complete. */
  ghost predicate Arrived(s: Station, r: Station, now: int)
    requires s.active.Some?
  {
    var m := s.active.value;
    && r.position == m.target as real && r.alarm == s.alarm
    && r.visitedExtended == (m.target == 1)
    && r.cycles == s.cycles + (if m.target == 0 && s.visitedExtended then 1 else 0)
    && (if m.target == 1 && m.cycle then
          r.active == Some(m.(target := 0, start := 1.0, legBegan := now)) && r.state == RETRACTING
          && r.ack == s.ack && r.finished == s.finished && r.cache == s.cache && r.lastActionMs == s.lastActionMs
        else Ended(s, r, now, COMPLETED, NO_REASON) && r.state == if m.target == 1 then EXTENDED else IDLE)
  }

  lemma ArriveArrives(h: Station, now: int)
    requires Consistent(h, now) && h.active.Some?
    requires h.position == h.active.value.target as real
    ensures ActiveCached(h) && Arrived(h, Arrive(h, now), now)
  {
    var q := h.(visitedExtended := true);
    FinishEnds(q.(state := EXTENDED), COMPLETED, NO_REASON, now);
    var u := if h.visitedExtended then h.(cycles := h.cycles + 1, visitedExtended := false) else h;
    FinishEnds(u.(state := IDLE), COMPLETED, NO_REASON, now);
    hide Finish, Consistent, WellFormed, NoDuplicates;
  }

  /** The motion is neither over nor out of time. */
  ghost predicate Carried(s: Station, r: Station, now: int)
    requires s.active.Some?
  {
    && r.active == s.active && r.state == s.state && r.alarm == s.alarm && r.cycles == s.cycles
    && r.visitedExtended == s.visitedExtended && r.ack == s.ack && r.finished == s.finished && r.cache == s.cache
    && r.lastActionMs == s.lastActionMs
    && OnItsWay(s.active.value, r.position, s.cfg.moveMs * (if r.fault == SLOW_MOTION then 10 else 1), now)
  }

  lemma AdvanceFares(h: Station, now: int)
    requires Consistent(h, now) && h.active.Some?
    ensures var r, m := Advance(h, now), h.active.value;
      && (LegDone(h, h.fault, now) ==> Arrived(h, r, now))
      && (!LegDone(h, h.fault, now) && now - m.legBegan >= h.cfg.timeoutMs ==>
           Tripped(h, r, now, ACTION_TIMEOUT, r.position))
      && (!LegDone(h, h.fault, now) && now - m.legBegan < h.cfg.timeoutMs ==> Carried(h, r, now))
  {
    ReachedExactly(h, now);
    AdvanceKeepsLedger(h, now);
    assert LegDone(h, h.fault, now) <==> LegOver(h, now);
    if LegDone(h, h.fault, now) { ReachesEnd(h, now); } else { StaysShort(h, now); }
    hide Advance, Consistent, OnItsWay, LegDone, LegOver, Arrived, Tripped, Carried, Reached, LegDuration;
  }

  lemma ReachesEnd(h: Station, now: int)
    requires Consistent(h, now) && h.active.Some? && LegDone(h, h.fault, now)
    requires Reached(h.(position := PositionAt(h, now)))
    ensures Arrived(h, Advance(h, now), now)
  {
    PositionBounds(h, now);
    var p := h.(position := PositionAt(h, now));
    assert Consistent(p, now) by { hide PositionAt; }
    assert p.position == h.active.value.target as real;
    ArriveArrives(p, now);
    assert Advance(h, now) == Arrive(p, now);
    hide Advance, Arrive, PositionAt, Reached, OnItsWay, Consistent, LegDone, WellFormed, NoDuplicates;
  }

  lemma StaysShort(h: Station, now: int)
    requires Consistent(h, now) && h.active.Some? && !Reached(h.(position := PositionAt(h, now)))
    ensures var r, m := Advance(h, now), h.active.value;
      && (now - m.legBegan >= h.cfg.timeoutMs ==> Tripped(h, r, now, ACTION_TIMEOUT, r.position))
      && (now - m.legBegan < h.cfg.timeoutMs ==> Carried(h, r, now))
  {
    Paces(h, now);
    var p := h.(position := PositionAt(h, now));
    FinishEnds(p, FAILED, ACTION_TIMEOUT, now);
    hide Finish, PositionAt, Reached, OnItsWay, Consistent, WellFormed, NoDuplicates;
  }

  /** How a motion fares in one tick, by the clock and the injected fault alone: it ends with a communication
      timeout exactly when the lease has run out; otherwise it arrives exactly when its leg has had its time and
      the limit can be seen; otherwise it ends with an action timeout exactly when its time is up. The duration
      reported is the time since it began. */
  lemma MotionFares(s: Station, now: int)
    requires Consistent(s, now) && s.active.Some?
    ensures ActiveCached(s)
    ensures var r, m := Tick(s, now), s.active.value;
      && (Lapsed(s, now) ==> Tripped(s, r, now, COMM_TIMEOUT, s.position))
      && (!Lapsed(s, now) && LegDone(s, r.fault, now) ==> Arrived(s, r, now))
      && (!Lapsed(s, now) && !LegDone(s, r.fault, now) && now - m.legBegan >= s.cfg.timeoutMs ==>
           Tripped(s, r, now, ACTION_TIMEOUT, r.position))
      && (!Lapsed(s, now) && !LegDone(s, r.fault, now) && now - m.legBegan < s.cfg.timeoutMs ==> Carried(s, r, now))
  {
    assert ActiveCached(s);
    hide Tick, Consistent, Tripped, Arrived, Carried, LegDone, ActiveCached;
    if Lapsed(s, now) { LapseEnds(s, now); } else { KeptFares(s, now); }
  }

  lemma KeptFares(s: Station, now: int)
    requires Consistent(s, now) && s.active.Some? && !Lapsed(s, now)
    ensures ActiveCached(s)
    ensures var r, m := Tick(s, now), s.active.value;
      && (LegDone(s, r.fault, now) ==> Arrived(s, r, now))
      && (!LegDone(s, r.fault, now) && now - m.legBegan >= s.cfg.timeoutMs ==>
           Tripped(s, r, now, ACTION_TIMEOUT, r.position))
      && (!LegDone(s, r.fault, now) && now - m.legBegan < s.cfg.timeoutMs ==> Carried(s, r, now))
  {
    TickAdvances(s, now);
    var h, r := Refresh(s, now), Tick(s, now);
    AdvanceFares(h, now);
    AdvanceKeepsLedger(h, now);
    FaresAlike(s, h, r, now);
    assert h.fault == r.fault && h.cfg == s.cfg && h.active == s.active;
    hide *;
  }

  /** What is said of a motion does not look at the settings. */
  lemma FaresAlike(s: Station, h: Station, r: Station, now: int)
    requires s.active.Some?
    requires h == s.(sequence := h.sequence, retired := h.retired, fault := h.fault, heartbeat := h.heartbeat)
    ensures LegDone(h, h.fault, now) == LegDone(s, h.fault, now)
    ensures Arrived(h, r, now) == Arrived(s, r, now) && Carried(h, r, now) == Carried(s, r, now)
    ensures Tripped(h, r, now, ACTION_TIMEOUT, r.position) == Tripped(s, r, now, ACTION_TIMEOUT, r.position)
  {
    hide OnItsWay, WellFormed;
  }
}
