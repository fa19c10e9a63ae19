/** What every reachable state of the station satisfies, whatever it is sent. */
module StationInvariant {
  import opened Wrappers
  import opened Protocol
  import opened Ordered
  import opened StationSpec
  import opened MachineWords

  /** Facts that stay true while time passes and nothing is called. */
  ghost predicate Consistent(s: Station, now: int) {
    // an active motion and a moving state are the same thing, and they agree on the direction
    && (s.active.Some? <==> s.state in {EXTENDING, RETRACTING})
    && (s.active.Some? ==> (s.state == EXTENDING <==> s.active.value.target == 1))
    // motion happens for an owner, and its block is remembered as accepted
    && (s.active.Some? ==>
      && s.owner != 0 && s.cache.Has(s.active.value.sequence)
      && s.cache.items[s.active.value.sequence].result == ACCEPTED
      && s.cache.items[s.active.value.sequence].reason == NO_REASON
      && 0.0 <= s.active.value.start <= 1.0 && s.active.value.start != s.active.value.target as real
      && s.active.value.began <= s.active.value.legBegan <= now)
    // the cache is bounded and below the sequence floor
    && s.cache.Size() <= CACHE_LIMIT && (forall k :: k in s.cache.items ==> k <= s.highwater)
    // a fault is exactly a standing alarm
    && (s.state == State.FAULT <==> s.alarm != NO_REASON)
    && (s.fault == BOTH_LIMITS ==> s.active.None?)
    // resting states pin the position
    && 0.0 <= s.position <= 1.0
    && (s.state == IDLE ==> s.position == 0.0)
    && (s.state == EXTENDED ==> s.position == 1.0)
    && (s.state == STOPPED ==> 0.0 < s.position < 1.0)
    // the owner is never a retired session
    && (s.owner != 0 ==> s.owner !in s.retired && s.lastKeepalive <= now)
    && (forall k :: k in s.retired ==> s.retired[k] <= now + RETIREMENT_MS)
    // conservation of motions
    && s.motionStarts == s.tally.ended + (if s.active.Some? then 1 else 0)
    && s.cycles <= s.tally.completed && s.tally.completed + s.tally.timedOut <= s.tally.ended
    && (s.active.Some? ==>
      s.tally.legs == (if s.active.value.cycle && s.active.value.target == 0 then 2 else 1))
  }

  /** Leases and retirements that were checked at this moment still have time to run. */
  ghost predicate LeaseTimely(s: Station, now: int) {
    && (s.owner != 0 ==> now - s.lastKeepalive < s.cfg.leaseMs)
    && (forall k :: k in s.retired ==> s.retired[k] > now)
  }

  /** ... and so does the running leg; contradicting limits have been noticed. */
  ghost predicate Timely(s: Station, now: int) {
    && LeaseTimely(s, now)
    && (s.fault == BOTH_LIMITS ==> s.state == State.FAULT)
    && (s.active.Some? ==> now - s.active.value.legBegan < s.cfg.timeoutMs)
  }

  ghost predicate Inv(s: Station, now: int) {
    Consistent(s, now) && Timely(s, now)
  }

  lemma InitialConsistent(cfg: Timing, now: int)
    ensures Consistent(Initial(cfg), now) && ActiveCached(Initial(cfg))
  {
  }

  lemma EvictBounds(cache: OrderedDict<U32, Entry>, active: Option<Motion>)
    ensures var r := Evict(cache, active);
      && r.Size() == (if cache.Size() > CACHE_LIMIT then CACHE_LIMIT else cache.Size())
      && (forall k :: k in r.items ==> k in cache.items && r.items[k] == cache.items[k])
    decreases cache.Size()
  {
    if cache.Size() > CACHE_LIMIT {
      var victim := Victim(cache.order, active);
      assert victim in cache.order;
      EvictBounds(Remove(cache, victim), active);
    }
  }

  /** Remembering an outcome never loses the active motion's entry and never outgrows the cache. */
  lemma RememberBounds(s: Station, sequence: U32, fingerprint: Block, result: Result, reason: Reason)
    requires sequence <= s.highwater && forall k :: k in s.cache.items ==> k <= s.highwater
    ensures var r := Remember(s, sequence, fingerprint, result, reason);
      && r.cache.Size() <= CACHE_LIMIT
      && (forall k :: k in r.cache.items ==> k <= r.highwater)
      && (ActiveCached(s) && s.active.Some? ==>
        && r.cache.Has(s.active.value.sequence)
        && r.cache.items[s.active.value.sequence] ==
           (if s.active.value.sequence == sequence then Entry(fingerprint, result, reason)
            else s.cache.items[s.active.value.sequence]))
  {
    EvictBounds(Put(s.cache, sequence, Entry(fingerprint, result, reason)), s.active);
  }

  /** Ending a motion for any reason but a timeout leaves everything but its state and alarm consistent. */
  lemma FinishBounds(s: Station, result: Result, reason: Reason, now: int)
    requires ActiveCached(s)
    requires s.active.Some? ==> s.active.value.sequence <= s.highwater
    requires s.cache.Size() <= CACHE_LIMIT && forall k :: k in s.cache.items ==> k <= s.highwater
    ensures var r := Finish(s, result, reason, now);
      && r.cache.Size() <= CACHE_LIMIT && (forall k :: k in r.cache.items ==> k <= r.highwater)
  {
    if s.active.Some? {
      RememberBounds(s, s.active.value.sequence, s.cache.items[s.active.value.sequence].fingerprint, result, reason);
    }
  }

  /** Ending a motion changes what it reports and counts, and the cache within its bounds. */
  lemma FinishFields(s: Station, result: Result, reason: Reason, now: int)
    requires ActiveCached(s) && s.active.Some? && s.active.value.sequence <= s.highwater
    requires s.cache.Size() <= CACHE_LIMIT && forall k :: k in s.cache.items ==> k <= s.highwater
    ensures var r := Finish(s, result, reason, now);
      && r == s.(cache := r.cache, ack := r.ack, finished := r.finished, lastActionMs := r.lastActionMs, active := None,
                 tally := Tally(s.tally.ended + 1, s.tally.completed + (if result == COMPLETED then 1 else 0),
                                s.tally.timedOut + (if reason == ACTION_TIMEOUT then 1 else 0), 0))
      && r.cache.Size() <= CACHE_LIMIT && (forall k :: k in r.cache.items ==> k <= r.highwater)
  {
    FinishBounds(s, result, reason, now);
    hide Evict, Put, WellFormed, NoDuplicates;
  }

  lemma TripConsistent(s: Station, reason: Reason, now: int)
    requires Consistent(s, now) && reason != NO_REASON
    ensures Consistent(Trip(s, reason, now), now)
  {
    if s.active.Some? { FinishFields(s, FAILED, reason, now); } else { assert Finish(s, FAILED, reason, now) == s; }
    hide Finish, WellFormed, NoDuplicates;
  }

  lemma ProductNonNegative(x: real, y: real)
    requires 0.0 <= x && 0.0 <= y
    ensures 0.0 <= x * y
  {
  }

  lemma ProductPositive(x: real, y: real)
    requires 0.0 < x && 0.0 < y
    ensures 0.0 < x * y
  {
  }

  lemma FractionBounds(elapsed: int, duration: int)
    requires 0 <= elapsed && 0 < duration
    ensures 0.0 <= Fraction(elapsed, duration) <= 1.0
    ensures elapsed < duration ==> Fraction(elapsed, duration) < 1.0
  {
    if elapsed < duration {
      var f := Fraction(elapsed, duration);
      assert f * duration as real == elapsed as real;
      if f >= 1.0 { ProductNonNegative(f - 1.0, duration as real); }
      if f < 0.0 { ProductNonNegative(-f, duration as real); }
    }
  }

  /** A point moved part of the way towards an end of the stroke stays on the stroke. */
  lemma Interpolate(start: real, target: real, f: real)
    requires 0.0 <= start <= 1.0 && target in {0.0, 1.0} && 0.0 <= f <= 1.0
    ensures 0.0 <= start + (target - start) * f <= 1.0
    ensures f == 1.0 ==> start + (target - start) * f == target
  {
    ProductNonNegative(start, f);
    ProductNonNegative(start, 1.0 - f);
    ProductNonNegative(1.0 - start, f);
    ProductNonNegative(1.0 - start, 1.0 - f);
    assert start * (1.0 - f) == start - start * f;
    assert (target - start) * f == target * f - start * f;
    assert target * f == if target == 1.0 then f else 0.0;
  }

  /** Less than the whole of a non-empty stretch is not the whole of it. */
  lemma StopsShort(d: real, f: real)
    requires d != 0.0 && f < 1.0
    ensures d * f != d
  {
    if d > 0.0 {
      ProductPositive(d, 1.0 - f);
      assert d * (1.0 - f) == d - d * f;
    } else {
      ProductPositive(-d, 1.0 - f);
      assert -d * (1.0 - f) == d * f - d;
    }
  }

  lemma PositionBounds(s: Station, now: int)
    requires s.active.Some? && 0.0 <= s.active.value.start <= 1.0 && s.active.value.legBegan <= now
    ensures 0.0 <= PositionAt(s, now) <= 1.0
    ensures now - s.active.value.legBegan >= LegDuration(s) ==> PositionAt(s, now) == s.active.value.target as real
    ensures now - s.active.value.legBegan < LegDuration(s) && s.active.value.start != s.active.value.target as real ==>
      PositionAt(s, now) != s.active.value.target as real
  {
    var m := s.active.value;
    FractionBounds(now - m.legBegan, LegDuration(s));
    var target, f := m.target as real, Fraction(now - m.legBegan, LegDuration(s));
    Interpolate(m.start, target, f);
    if f < 1.0 && m.start != target { StopsShort(target - m.start, f); }
  }

  lemma RefreshConsistent(s: Station, now: int)
    requires Consistent(s, now)
    ensures var r := Refresh(s, now);
      Consistent(r, now) && forall k :: k in r.retired ==> r.retired[k] > now
  {
    var r := Refresh(s, now);
    assert r == s.(sequence := r.sequence, retired := r.retired, fault := r.fault, heartbeat := r.heartbeat);
    assert r.fault == s.fault || r.fault == NO_FAULT;
    hide Refresh, WellFormed, NoDuplicates;
  }

  lemma LapseConsistent(s: Station, now: int)
    requires Consistent(s, now) && forall k :: k in s.retired ==> s.retired[k] > now
    ensures var r := Lapse(s, now);
      && Consistent(r, now)
      && LeaseTimely(r, now)
      && (r.active.Some? ==> r.active == s.active)
  {
    hide Trip, Consistent, LeaseTimely;
    if s.owner != 0 && now - s.lastKeepalive >= s.cfg.leaseMs { LapsedConsistent(s, now); } else { NotLapsed(s, now); }
  }

  lemma NotLapsed(s: Station, now: int)
    requires Consistent(s, now) && forall k :: k in s.retired ==> s.retired[k] > now
    requires s.owner == 0 || now - s.lastKeepalive < s.cfg.leaseMs
    ensures LeaseTimely(s, now)
  {
    hide Consistent;
  }

  lemma LapsedConsistent(s: Station, now: int)
    requires Consistent(s, now) && (forall k :: k in s.retired ==> s.retired[k] > now) && s.owner != 0
    ensures var e := s.(retired := s.retired[s.owner := now + RETIREMENT_MS]);
      var r := (if e.active.Some? then Trip(e, COMM_TIMEOUT, now) else e).(owner := 0);
      Consistent(r, now) && LeaseTimely(r, now) && r.active.None?
  {
    hide Finish, WellFormed, NoDuplicates;
    var e := s.(retired := s.retired[s.owner := now + RETIREMENT_MS]);
    if e.active.Some? { FinishFields(e, FAILED, COMM_TIMEOUT, now); }
  }

  lemma HousekeepConsistent(s: Station, now: int)
    requires Consistent(s, now)
    ensures var r := Housekeep(s, now);
      && Consistent(r, now)
      && LeaseTimely(r, now) && (r.fault == BOTH_LIMITS ==> r.state == State.FAULT)
      && (r.active.Some? ==> r.active == s.active)
  {
    RefreshConsistent(s, now);
    LapseConsistent(Refresh(s, now), now);
    TripConsistent(Lapse(Refresh(s, now), now), LIMIT_CONFLICT, now);
  }

  lemma ArriveInv(s: Station, now: int)
    requires Consistent(s, now) && LeaseTimely(s, now) && s.active.Some? && Reached(s)
    ensures Inv(Arrive(s, now), now)
  {
    if s.active.value.target == 1 { ArriveExtended(s, now); } else { ArriveHome(s, now); }
  }

  lemma ArriveExtended(s: Station, now: int)
    requires Consistent(s, now) && LeaseTimely(s, now) && s.active.Some? && Reached(s) && s.active.value.target == 1
    ensures Inv(Arrive(s, now), now)
  {
    hide Finish, WellFormed, NoDuplicates;
    assert s.position == 1.0;
    var q := s.(visitedExtended := true);
    if !s.active.value.cycle { FinishFields(q.(state := EXTENDED), COMPLETED, NO_REASON, now); }
  }

  lemma ArriveHome(s: Station, now: int)
    requires Consistent(s, now) && LeaseTimely(s, now) && s.active.Some? && Reached(s) && s.active.value.target == 0
    ensures Inv(Arrive(s, now), now)
  {
    hide Finish, WellFormed, NoDuplicates;
    assert s.position == 0.0;
    var q := if s.visitedExtended then s.(cycles := s.cycles + 1, visitedExtended := false) else s;
    FinishFields(q.(state := IDLE), COMPLETED, NO_REASON, now);
  }

  lemma AdvanceInv(s: Station, now: int)
    requires Consistent(s, now) && LeaseTimely(s, now) && s.active.Some?
    ensures Inv(Advance(s, now), now)
  {
    PositionBounds(s, now);
    var p := s.(position := PositionAt(s, now));
    assert Consistent(p, now);
    if Reached(p) {
      ArriveInv(p, now);
    } else {
      TripConsistent(p, ACTION_TIMEOUT, now);
    }
  }

  /** Whatever time has passed, one tick restores every fact about the present moment. */
  lemma TickInv(s: Station, now: int)
    requires Consistent(s, now)
    ensures Inv(Tick(s, now), now)
  {
    HousekeepConsistent(s, now);
    if Housekeep(s, now).active.Some? { AdvanceInv(Housekeep(s, now), now); }
  }

  lemma KeepaliveInv(s: Station, values: KeepaliveBlock, now: int)
    requires Consistent(s, now)
    ensures Inv(Keepalive(s, values, now).0, now)
  {
    TickInv(s, now);
  }

  /** What is known of a block that has been admitted and is about to be looked at. */
  ghost predicate Admitted(s: Station, v: Block) {
    && s.highwater == Sequence(v) && !s.cache.Has(Sequence(v))
    && ActionOf(v[0]).Some? && Session(v) != 0 && Sequence(v) != 0
    && (if IsArm(v) then (s.owner == 0 || s.owner == Session(v)) && Session(v) !in s.retired
        else s.owner == Session(v))
  }

  lemma AdmitInv(s: Station, v: Block, now: int)
    requires Inv(s, now) && Screen(s, v, now).Fresh?
    ensures Inv(Admit(s, v), now) && Admitted(Admit(s, v), v)
  {
  }

  lemma RefusedInv(s: Station, v: Block, reason: Reason, now: int)
    requires Inv(s, now) && Admitted(s, v)
    ensures Inv(Refused(s, v, reason), now)
  {
    RememberBounds(s, Sequence(v), v, REJECTED, reason);
  }

  lemma SettledConsistent(s: Station, v: Block, now: int)
    requires Consistent(s, now) && s.highwater == Sequence(v) && !s.cache.Has(Sequence(v))
    ensures Consistent(Remember(s, Sequence(v), v, COMPLETED, NO_REASON), now)
    ensures ActiveCached(Remember(s, Sequence(v), v, COMPLETED, NO_REASON))
  {
    hide Remember, Sequence, WellFormed, NoDuplicates;
    RememberOther(s, Sequence(v), v, COMPLETED, NO_REASON);
  }

  /** Remembering the outcome of another block than the active motion's. */
  lemma RememberOther(s: Station, sequence: U32, fingerprint: Block, result: Result, reason: Reason)
    requires sequence <= s.highwater && forall k :: k in s.cache.items ==> k <= s.highwater
    requires ActiveCached(s) && !s.cache.Has(sequence)
    ensures var r := Remember(s, sequence, fingerprint, result, reason);
      && r == s.(cache := r.cache, ack := r.ack)
      && r.cache.Size() <= CACHE_LIMIT && (forall k :: k in r.cache.items ==> k <= r.highwater)
      && (s.active.Some? ==>
            && r.cache.Has(s.active.value.sequence)
            && r.cache.items[s.active.value.sequence] == s.cache.items[s.active.value.sequence])
  {
    RememberBounds(s, sequence, fingerprint, result, reason);
    hide Evict, Put, WellFormed;
  }

  lemma SettleInv(s: Station, v: Block, now: int)
    requires Consistent(s, now) && s.highwater == Sequence(v) && !s.cache.Has(Sequence(v))
    ensures Inv(Settle(s, v, now), now)
  {
    hide Tick, Inv;
    SettledConsistent(s, v, now);
    hide Consistent, Remember;
    TickInv(Remember(s, Sequence(v), v, COMPLETED, NO_REASON), now);
  }

  /** Ending a motion rewrites its own entry and adds none. */
  lemma FinishKeepsKeys(s: Station, result: Result, reason: Reason, now: int)
    requires ActiveCached(s)
    ensures forall k :: k in Finish(s, result, reason, now).cache.items ==> k in s.cache.items
  {
    if s.active.Some? {
      EvictBounds(Put(s.cache, s.active.value.sequence,
        Entry(s.cache.items[s.active.value.sequence].fingerprint, result, reason)), s.active);
    }
  }

  lemma StopInv(s: Station, v: Block, now: int)
    requires Inv(s, now) && Admitted(s, v) && ActionOf(v[0]) == Some(STOP)
    ensures Inv(Perform(s, v, now), now)
  {
    hide Settle, Finish, Session, Sequence, WellFormed, NoDuplicates;
    if s.active.Some? {
      FinishFields(s, FAILED, STOP_REQUESTED, now);
    } else {
      NoneToFinish(s, FAILED, STOP_REQUESTED, now);
    }
    FinishKeepsKeys(s, FAILED, STOP_REQUESTED, now);
    var t := Finish(s, FAILED, STOP_REQUESTED, now);
    SettleInv(if t.state != State.FAULT then t.(state := AtRest(t.position)) else t, v, now);
  }

  lemma NoneToFinish(s: Station, result: Result, reason: Reason, now: int)
    requires s.active.None?
    ensures Finish(s, result, reason, now) == s
  {
  }

  lemma ArmInv(s: Station, v: Block, now: int)
    requires Inv(s, now) && Admitted(s, v) && IsArm(v) && s.active.None?
    ensures Inv(Settle(s.(owner := Session(v), lastKeepalive := now), v, now), now)
  {
    hide Settle, WellFormed, Sequence, Session;
    SettleInv(s.(owner := Session(v), lastKeepalive := now), v, now);
  }

  lemma ResetInv(s: Station, v: Block, now: int)
    requires Inv(s, now) && Admitted(s, v) && s.active.None?
    ensures Inv(Settle(s.(alarm := NO_REASON, state := AtRest(s.position)), v, now), now)
  {
    hide Settle, WellFormed, Sequence, Session;
    SettleInv(s.(alarm := NO_REASON, state := AtRest(s.position)), v, now);
  }

  lemma InjectInv(s: Station, v: Block, fault: Fault, now: int)
    requires Inv(s, now) && Admitted(s, v) && s.active.None?
    ensures Inv(Settle(s.(fault := fault, faultUntil := now + s.cfg.faultMs), v, now), now)
  {
    hide Settle, WellFormed, Sequence, Session;
    SettleInv(s.(fault := fault, faultUntil := now + s.cfg.faultMs), v, now);
  }

  lemma SettingInv(s: Station, v: Block, now: int)
    requires Inv(s, now) && Admitted(s, v) && Interlock(s, v).None?
    requires ActionOf(v[0]).value in {INJECT, RESET, MODE, ARM}
    ensures Inv(Perform(s, v, now), now)
  {
    hide Settle, Refused, Sequence, Session, Parameter, WellFormed, AtRest;
    assert s.active.None?;
    match ActionOf(v[0]).value
    case ARM => ArmInv(s, v, now);
    case INJECT =>
      RefusedInv(s, v, PARAMETER, now);
      var f := FaultOf(Parameter(v));
      if f.Some? { InjectInv(s, v, f.value, now); }
    case RESET =>
      RefusedInv(s, v, FAULT_ACTIVE, now);
      ResetInv(s, v, now);
    case MODE =>
      RefusedInv(s, v, PARAMETER, now);
      var m := ModeOf(Parameter(v));
      if m.Some? { ModeInv(s, v, m.value, now); }
  }

  lemma ModeInv(s: Station, v: Block, mode: Mode, now: int)
    requires Inv(s, now) && Admitted(s, v) && s.active.None?
    ensures Inv(Settle(s.(mode := mode), v, now), now)
  {
    hide Settle, WellFormed, Sequence, Session;
    SettleInv(s.(mode := mode), v, now);
  }

  /** The station with its motion under way, before the acceptance is remembered. */
  function Underway(s: Station, v: Block, action: Action, now: int): Station {
    var target: Target := if action == RETRACT then 0 else 1;
    s.(active := Some(Motion(Sequence(v), now, action == CYCLE, target, s.position, now)),
       motionStarts := s.motionStarts + 1, tally := s.tally.(legs := 1),
       state := if target == 1 then EXTENDING else RETRACTING)
  }

  lemma StartMotionUnfold(s: Station, v: Block, action: Action, now: int)
    ensures StartMotion(s, v, action, now) == Remember(Underway(s, v, action, now), Sequence(v), v, ACCEPTED, NO_REASON)
  {
    hide Remember, Sequence;
  }

  /** A permitted motion does not start at its target. */
  lemma RestsElsewhere(s: Station, action: Action, now: int)
    requires Inv(s, now) && action in {EXTEND, RETRACT, CYCLE} && MotionPermitted(s, action)
    ensures s.position != if action == RETRACT then 0.0 else 1.0
    ensures forall k :: k in s.cache.items ==> k <= s.highwater
  {
    hide WellFormed;
  }

  lemma StartMotionInv(s: Station, v: Block, action: Action, now: int)
    requires Inv(s, now) && Admitted(s, v)
    requires s.active.None? && s.alarm == NO_REASON && s.owner != 0
    requires action in {EXTEND, RETRACT, CYCLE} && MotionPermitted(s, action)
    ensures Inv(StartMotion(s, v, action, now), now)
  {
    hide Inv, StartMotion, Remember, Sequence, MotionPermitted, Session, WellFormed;
    var u := Underway(s, v, action, now);
    RestsElsewhere(s, action, now);
    StartMotionUnfold(s, v, action, now);
    assert s.highwater == Sequence(v);
    hide Admitted;
    RememberStarts(u, Sequence(v), v);
    StartedInv(s, u, Remember(u, Sequence(v), v, ACCEPTED, NO_REASON), now);
  }

  lemma StartedInv(s: Station, u: Station, r: Station, now: int)
    requires Inv(s, now) && s.active.None? && s.alarm == NO_REASON && s.owner != 0 && u.active.Some?
    requires var m := u.active.value;
      && u == s.(active := Some(m), motionStarts := s.motionStarts + 1, tally := s.tally.(legs := 1), state := u.state)
      && u.state == (if m.target == 1 then EXTENDING else RETRACTING)
      && m == Motion(m.sequence, now, m.cycle, m.target, s.position, now) && (m.cycle ==> m.target == 1)
      && s.position != m.target as real
      && r == u.(cache := r.cache, ack := r.ack)
      && r.cache.Size() <= CACHE_LIMIT && (forall k :: k in r.cache.items ==> k <= r.highwater)
      && r.cache.Has(m.sequence) && r.cache.items[m.sequence].result == ACCEPTED
      && r.cache.items[m.sequence].reason == NO_REASON
    ensures Inv(r, now)
  {
    hide WellFormed, NoDuplicates;
  }

  /** Remembering the acceptance of the motion under way. */
  lemma RememberStarts(u: Station, sequence: U32, fingerprint: Block)
    requires sequence <= u.highwater && forall k :: k in u.cache.items ==> k <= u.highwater
    requires u.active.Some? && u.active.value.sequence == sequence
    ensures var r := Remember(u, sequence, fingerprint, ACCEPTED, NO_REASON);
      && r == u.(cache := r.cache, ack := r.ack)
      && r.cache.Size() <= CACHE_LIMIT && (forall k :: k in r.cache.items ==> k <= r.highwater)
      && r.cache.Has(sequence) && r.cache.items[sequence] == Entry(fingerprint, ACCEPTED, NO_REASON)
  {
    RememberBounds(u, sequence, fingerprint, ACCEPTED, NO_REASON);
    EvictBounds(Put(u.cache, sequence, Entry(fingerprint, ACCEPTED, NO_REASON)), u.active);
  }

  lemma PerformInv(s: Station, v: Block, now: int)
    requires Inv(s, now) && Admitted(s, v) && Interlock(s, v).None?
    ensures Inv(Perform(s, v, now), now)
  {
    hide Settle, Refused, StartMotion;
    match ActionOf(v[0]).value
    case STOP => StopInv(s, v, now);
    case ARM | INJECT | RESET | MODE => SettingInv(s, v, now);
    case action =>
      RefusedInv(s, v, FAULT_ACTIVE, now);
      RefusedInv(s, v, INTERLOCK, now);
      if s.alarm == NO_REASON && MotionPermitted(s, action) { StartMotionInv(s, v, action, now); }
  }

  lemma AckInv(s: Station, ack: Ack, now: int)
    requires Inv(s, now)
    ensures Inv(s.(ack := ack), now)
  {
  }

  lemma RespondInv(t: Station, v: Block, now: int)
    requires Inv(t, now)
    ensures Inv(Respond(t, v, now), now)
  {
    hide Inv, Screen, Admit, Interlock, Refused, Perform;
    match Screen(t, v, now)
    case Refuse(reason) => AckInv(t, Ack(Sequence(v), REJECTED, reason), now);
    case Replay(entry) => AckInv(t, Ack(Sequence(v), entry.result, entry.reason), now);
    case Fresh =>
      AdmitInv(t, v, now);
      var a := Admit(t, v);
      match Interlock(a, v)
      case Some(reason) => RefusedInv(a, v, reason, now);
      case None => PerformInv(a, v, now);
  }

  lemma ExecuteInv(s: Station, v: Block, now: int)
    requires Consistent(s, now)
    ensures Inv(Execute(s, v, now), now)
  {
    hide Inv, Tick, Respond;
    TickInv(s, now);
    RespondInv(Tick(s, now), v, now);
  }
}
