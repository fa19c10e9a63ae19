/** Motions: how each leg ends, when a timeout is possible, and what a block without effect leaves alone. */
module StationMotion {
  import opened Wrappers
  import opened Protocol
  import opened Ordered
  import opened StationSpec
  import opened StationInvariant
  import opened StationRuns

  /** The station without its bookkeeping of commands. */
  function Machine(s: Station): Station {
    s.(ack := NO_ACK, finished := NOT_FINISHED, cache := Empty(), highwater := 0, keepaliveCounter := 0)
  }

  /** A block that does not take effect moves nothing, owns nothing and sets nothing. */
  lemma NoEffectNoChange(s: Station, v: Block, now: int)
    requires ActiveCached(s) && !TakesEffect(s, v, now)
    ensures Machine(Execute(s, v, now)) == Machine(Tick(s, now))
  {
    hide Perform, Screen, Interlock, Evict;
    var t := Tick(s, now);
    hide Tick;
    match Screen(t, v, now)
    case Fresh =>
      var a, refusal := Admit(t, v), Interlock(Admit(t, v), v);
      assert refusal.Some?;
      assert Machine(a) == Machine(t);
      hide Admit;
      assert Execute(s, v, now) == Refused(a, v, refusal.value);
    case _ =>
  }

  predicate Starts(s: Station, v: Block) {
    && ActionOf(v[0]) in {Some(EXTEND), Some(RETRACT), Some(CYCLE)}
    && s.alarm == NO_REASON && MotionPermitted(s, ActionOf(v[0]).value)
  }

  predicate StartsMotion(s: Station, v: Block, now: int)
    requires ActiveCached(s)
  {
    TakesEffect(s, v, now) && Starts(Admit(Tick(s, now), v), v)
  }

  /** The motion counter counts exactly the blocks that start a motion. */
  lemma MotionStartsCounted(s: Station, c: Call, now: int)
    requires ActiveCached(s)
    ensures Step(s, c, now).motionStarts ==
      s.motionStarts + (if c.ExecuteCall? && StartsMotion(s, c.block, now) then 1 else 0)
    ensures Step(s, c, now).cfg == s.cfg
  {
    TickLedger(s, now);
    match c
    case TickCall | RegistersCall =>
    case KeepaliveCall(values) =>
    case ExecuteCall(v) => ExecuteCounted(s, v, now);
  }

  lemma SettleStartsNone(s: Station, v: Block, now: int)
    requires ActiveCached(s)
    ensures Settle(s, v, now).motionStarts == s.motionStarts && Settle(s, v, now).cfg == s.cfg
  {
    hide Tick;
    TickLedger(Remember(s, Sequence(v), v, COMPLETED, NO_REASON), now);
  }

  lemma PerformCounted(s: Station, v: Block, now: int)
    requires ActiveCached(s) && ActionOf(v[0]).Some?
    ensures Perform(s, v, now).cfg == s.cfg
    ensures Perform(s, v, now).motionStarts == s.motionStarts +
      (if Starts(s, v) then 1 else 0)
  {
    hide Settle, MotionPermitted;
    match ActionOf(v[0]).value
    case ARM => SettleStartsNone(s.(owner := Session(v), lastKeepalive := now), v, now);
    case STOP =>
      var t := Finish(s, FAILED, STOP_REQUESTED, now);
      SettleStartsNone(if t.state != State.FAULT then t.(state := AtRest(t.position)) else t, v, now);
    case INJECT =>
      var f := FaultOf(Parameter(v));
      if f.Some? { SettleStartsNone(s.(fault := f.value, faultUntil := now + s.cfg.faultMs), v, now); }
    case RESET => SettleStartsNone(s.(alarm := NO_REASON, state := AtRest(s.position)), v, now);
    case MODE =>
      var m := ModeOf(Parameter(v));
      if m.Some? { SettleStartsNone(s.(mode := m.value), v, now); }
    case action =>
  }

  lemma RememberStartsNone(s: Station, v: Block)
    ensures forall result, reason ::
      var r := Remember(s, Sequence(v), v, result, reason); r.motionStarts == s.motionStarts && r.cfg == s.cfg
  {
  }

  lemma ExecuteCounted(s: Station, v: Block, now: int)
    requires ActiveCached(s)
    ensures Execute(s, v, now).cfg == s.cfg
    ensures Execute(s, v, now).motionStarts == s.motionStarts + (if StartsMotion(s, v, now) then 1 else 0)
  {
    hide Tick, Perform, Interlock, Starts, Remember;
    TickLedger(s, now);
    var t := Tick(s, now);
    RememberStartsNone(Admit(t, v), v);
    if Effective(t, v, now) { PerformCounted(Admit(t, v), v, now); }
  }

  // ---- how a leg ends ----

  /** Whether the leg running at this moment is over, seen by its clock alone. */
  ghost predicate LegOver(s: Station, now: int)
    requires s.active.Some?
  {
    s.fault != TARGET_LIMIT_MISSING && now - s.active.value.legBegan >= LegDuration(s)
  }

  lemma ReachedExactly(s: Station, now: int)
    requires Consistent(s, now) && s.active.Some?
    ensures Reached(s.(position := PositionAt(s, now))) <==> LegOver(s, now)
  {
    PositionBounds(s, now);
  }

  /** A motion times out exactly when its time is up and an injected fault kept it from its limit. */
  lemma TimesOutExactly(s: Station, now: int)
    requires Consistent(s, now) && s.active.Some?
    ensures Advance(s, now).tally.timedOut > s.tally.timedOut <==>
      && now - s.active.value.legBegan >= s.cfg.timeoutMs
      && (|| s.fault == TARGET_LIMIT_MISSING
          || (s.fault == SLOW_MOTION && now - s.active.value.legBegan < 10 * s.cfg.moveMs))
  {
    ReachedExactly(s, now);
    hide Reached, PositionAt;
  }

  /** A motion completes exactly when its last leg is over. */
  lemma CompletesExactly(s: Station, now: int)
    requires Consistent(s, now) && s.active.Some?
    ensures Advance(s, now).tally.completed > s.tally.completed <==>
      LegOver(s, now) && (s.active.value.target == 0 || !s.active.value.cycle)
    ensures Advance(s, now).tally.completed == s.tally.completed ==> Advance(s, now).cycles == s.cycles
  {
    ReachedExactly(s, now);
    hide Reached, PositionAt;
  }

  // ---- motions end ----

  /** How two states of one run are related: unless a new motion was started, the later one is at rest,
      still on the same leg, or on the second leg of the same cycle. */
  ghost predicate Later(s: Station, r: Station) {
    && r.cfg == s.cfg && r.motionStarts >= s.motionStarts
    && (r.motionStarts == s.motionStarts && r.active.Some? ==>
      && s.active.Some?
      && (r.active == s.active || (s.active.value.target == 1 && r.active.value.target == 0)))
  }

  lemma AdvanceLater(s: Station, now: int)
    requires Consistent(s, now) && s.active.Some?
    ensures Later(s, Advance(s, now))
  {
    AdvanceKeepsLedger(s, now);
    hide PositionAt, Reached, Remember, Consistent;
  }

  lemma TickLater(s: Station, now: int)
    requires Consistent(s, now)
    ensures Later(s, Tick(s, now))
  {
    TickLedger(s, now);
    HousekeepConsistent(s, now);
    HousekeepLedger(s, now);
    hide Housekeep, Advance, Consistent, Lapse;
    if Housekeep(s, now).active.Some? { AdvanceLater(Housekeep(s, now), now); }
  }

  lemma IdleTick(s: Station, now: int)
    requires s.active.None?
    ensures Tick(s, now).active.None?
  {
  }

  lemma SettleIdle(s: Station, v: Block, now: int)
    requires ActiveCached(s) && s.active.None?
    ensures Settle(s, v, now).active.None?
  {
    hide Tick;
    IdleTick(Remember(s, Sequence(v), v, COMPLETED, NO_REASON), now);
  }

  /** Only starting a motion makes a resting station move, and only a stop gets past a moving one. */
  lemma PerformIdle(s: Station, v: Block, now: int)
    requires ActiveCached(s) && ActionOf(v[0]).Some? && Interlock(s, v).None?
    requires !Starts(s, v)
    ensures Perform(s, v, now).active.None?
  {
    hide Settle, MotionPermitted;
    match ActionOf(v[0]).value
    case ARM => SettleIdle(s.(owner := Session(v), lastKeepalive := now), v, now);
    case STOP =>
      var t := Finish(s, FAILED, STOP_REQUESTED, now);
      SettleIdle(if t.state != State.FAULT then t.(state := AtRest(t.position)) else t, v, now);
    case INJECT =>
      var f := FaultOf(Parameter(v));
      if f.Some? { SettleIdle(s.(fault := f.value, faultUntil := now + s.cfg.faultMs), v, now); }
    case RESET => SettleIdle(s.(alarm := NO_REASON, state := AtRest(s.position)), v, now);
    case MODE =>
      var m := ModeOf(Parameter(v));
      if m.Some? { SettleIdle(s.(mode := m.value), v, now); }
    case action =>
  }

  /** Answering a block leaves a motion alone, stops it, or starts one. */
  lemma RespondLater(t: Station, v: Block, now: int)
    requires ActiveCached(t)
    ensures var r := Respond(t, v, now);
      r.active.Some? ==> r.active == t.active || (Effective(t, v, now) && Starts(Admit(t, v), v))
  {
    hide Perform, Starts, Evict;
    if Effective(t, v, now) && !Starts(Admit(t, v), v) { PerformIdle(Admit(t, v), v, now); }
  }

  lemma ExecuteLater(s: Station, t0: int, v: Block, now: int)
    requires Consistent(s, t0) && t0 <= now
    ensures Later(s, Execute(s, v, now))
  {
    assert Consistent(s, now) && ActiveCached(s);
    hide *;
    TickLater(s, now);
    ExecuteCounted(s, v, now);
    RespondLater(Tick(s, now), v, now);
    TickLedger(s, now);
    RespondsLater(s, v, now);
  }

  lemma RespondsLater(s: Station, v: Block, now: int)
    requires ActiveCached(s) && Later(s, Tick(s, now)) && Execute(s, v, now).cfg == s.cfg
    requires Tick(s, now).motionStarts == s.motionStarts
    requires Execute(s, v, now).motionStarts == s.motionStarts + (if StartsMotion(s, v, now) then 1 else 0)
    requires var t := Tick(s, now);
      var r := Respond(t, v, now);
      r.active.Some? ==> r.active == t.active || (Effective(t, v, now) && Starts(Admit(t, v), v))
    ensures Later(s, Execute(s, v, now))
  {
    hide Tick, Respond, Starts, Effective, Admit;
  }

  lemma StepLater(s: Station, t0: int, c: Call, now: int)
    requires Consistent(s, t0) && t0 <= now
    ensures Later(s, Step(s, c, now))
  {
    assert Consistent(s, now);
    hide Tick, Execute, Consistent;
    match c
    case TickCall | RegistersCall => TickLater(s, now);
    case KeepaliveCall(values) => TickLater(s, now);
    case ExecuteCall(v) => ExecuteLater(s, t0, v, now);
  }

  lemma {:induction false} RunLater(s: Station, start: int, calls: seq<Timed>)
    requires Consistent(s, start) && Chronological(start, calls)
    ensures Later(s, Run(s, calls))
  {
    assert ActiveCached(s);
    if calls != [] {
      var before, last := calls[..|calls| - 1], calls[|calls| - 1];
      ChronologicalPrefix(start, calls);
      hide Step, Consistent, Chronological, EndTime;
      RunLater(s, start, before);
      RunInv(s, start, before);
      StepLater(Run(s, before), EndTime(start, before), last.call, last.at);
    }
  }

  /** Every motion is over after two timeouts: whatever the station is asked to do meanwhile, one call at or
      after the first leg's timeout and one more a timeout later are enough. */
  lemma MotionEndsWithinTwoTimeouts(s: Station, start: int, first: seq<Timed>, second: seq<Timed>)
    requires Consistent(s, start) && s.active.Some?
    requires first != [] && second != []
    requires Chronological(start, first) && Chronological(EndTime(start, first), second)
    requires EndTime(start, first) >= s.active.value.legBegan + s.cfg.timeoutMs
    requires EndTime(start, second) >= EndTime(start, first) + s.cfg.timeoutMs
    ensures Run(Run(s, first), second).tally.ended > s.tally.ended
  {
    assert ActiveCached(s);
    RunInv(s, start, first);
    RunLater(s, start, first);
    RunInv(Run(s, first), EndTime(start, first), second);
    RunLater(Run(s, first), EndTime(start, first), second);
  }

  // ---- faults decide between completion and timeout ----

  function Outcomes(s: Station): (nat, nat, nat) {
    (s.tally.completed, s.tally.timedOut, s.cycles)
  }

  predicate Injects(c: Call, f: Fault) {
    c.ExecuteCall? && ActionOf(c.block[0]) == Some(INJECT) && FaultOf(Parameter(c.block)) == Some(f)
  }

  /** Faults do not arise by themselves, and only the communication faults pass by themselves. */
  ghost predicate FaultKept(s: Station, r: Station) {
    r.fault == s.fault || (r.fault == NO_FAULT && s.fault in {COMM_SILENT, FROZEN_HEARTBEAT})
  }

  lemma TripOutcomes(s: Station, reason: Reason, now: int)
    requires ActiveCached(s) && reason != ACTION_TIMEOUT
    ensures Outcomes(Trip(s, reason, now)) == Outcomes(s)
  {
    hide Evict, Put, WellFormed;
  }

  lemma HousekeepOutcomes(s: Station, now: int)
    requires ActiveCached(s)
    ensures Outcomes(Housekeep(s, now)) == Outcomes(s)
  {
    hide Trip;
    var f := Refresh(s, now);
    TripOutcomes(f.(retired := f.retired[f.owner := now + RETIREMENT_MS]), COMM_TIMEOUT, now);
    TripOutcomes(Lapse(f, now), LIMIT_CONFLICT, now);
  }

  lemma TickKeepsFault(s: Station, now: int)
    requires ActiveCached(s)
    ensures FaultKept(s, Tick(s, now)) && FaultKept(s, Housekeep(s, now))
  {
    hide Tick, Housekeep, Lapse;
    TickLedger(s, now);
    HousekeepLedger(s, now);
    LapseLedger(Refresh(s, now), now);
  }

  lemma AdvanceOutcomes(h: Station, now: int)
    requires Consistent(h, now) && h.active.Some?
    ensures ActiveCached(h) && var r := Advance(h, now);
      && (h.fault !in {TARGET_LIMIT_MISSING, SLOW_MOTION} ==> r.tally.timedOut <= h.tally.timedOut)
      && (h.fault == TARGET_LIMIT_MISSING ==> r.tally.completed <= h.tally.completed && r.cycles <= h.cycles)
  {
    TimesOutExactly(h, now);
    CompletesExactly(h, now);
    OutcomesGrow(h, now);
    hide Advance, Consistent;
  }

  lemma TickOutcomes(s: Station, now: int)
    requires Consistent(s, now)
    ensures FaultKept(s, Tick(s, now))
    ensures s.fault !in {TARGET_LIMIT_MISSING, SLOW_MOTION} ==> Tick(s, now).tally.timedOut <= s.tally.timedOut
    ensures s.fault == TARGET_LIMIT_MISSING ==>
      Tick(s, now).tally.completed <= s.tally.completed && Tick(s, now).cycles <= s.cycles
  {
    assert ActiveCached(s);
    hide Housekeep, Advance, Consistent;
    TickKeepsFault(s, now);
    HousekeepOutcomes(s, now);
    HousekeepConsistent(s, now);
    if Housekeep(s, now).active.Some? { AdvanceOutcomes(Housekeep(s, now), now); }
  }

  lemma OutcomesGrow(s: Station, now: int)
    requires ActiveCached(s) && s.active.Some?
    ensures Advance(s, now).tally.completed >= s.tally.completed
  {
    hide PositionAt, Reached, Remember;
  }

  lemma SettleOutcomes(s: Station, v: Block, now: int)
    requires ActiveCached(s) && s.active.None?
    ensures Outcomes(Settle(s, v, now)) == Outcomes(s) && FaultKept(s, Settle(s, v, now))
  {
    var t := Remember(s, Sequence(v), v, COMPLETED, NO_REASON);
    assert Outcomes(t) == Outcomes(s) && t.fault == s.fault && t.active.None? && t.motionStarts == s.motionStarts;
    hide Remember;
    HousekeepOutcomes(t, now);
    TickLedger(t, now);
    IdleTick(t, now);
    hide Housekeep;
  }

  lemma PerformOutcomes(s: Station, v: Block, now: int)
    requires ActiveCached(s) && ActionOf(v[0]).Some? && Interlock(s, v).None?
    ensures Outcomes(Perform(s, v, now)) == Outcomes(s)
    ensures FaultKept(s, Perform(s, v, now)) || Injects(ExecuteCall(v), Perform(s, v, now).fault)
  {
    hide Settle, Starts, Evict;
    match ActionOf(v[0]).value
    case ARM => SettleOutcomes(s.(owner := Session(v), lastKeepalive := now), v, now);
    case STOP =>
      var t := Finish(s, FAILED, STOP_REQUESTED, now);
      SettleOutcomes(if t.state != State.FAULT then t.(state := AtRest(t.position)) else t, v, now);
    case INJECT =>
      var f := FaultOf(Parameter(v));
      if f.Some? { InjectKeepsFault(s, v, f.value, now); }
    case RESET => SettleOutcomes(s.(alarm := NO_REASON, state := AtRest(s.position)), v, now);
    case MODE =>
      var m := ModeOf(Parameter(v));
      if m.Some? { SettleOutcomes(s.(mode := m.value), v, now); }
    case action =>
  }

  lemma InjectKeepsFault(s: Station, v: Block, f: Fault, now: int)
    requires ActiveCached(s) && s.active.None?
    ensures var r := Settle(s.(fault := f, faultUntil := now + s.cfg.faultMs), v, now);
      Outcomes(r) == Outcomes(s) && r.fault == f
  {
    var t := s.(fault := f, faultUntil := now + s.cfg.faultMs);
    SettleOutcomes(t, v, now);
    TickLedger(Remember(t, Sequence(v), v, COMPLETED, NO_REASON), now);
    hide Tick, Evict;
  }

  lemma RespondOutcomes(t: Station, v: Block, now: int)
    requires ActiveCached(t)
    ensures Outcomes(Respond(t, v, now)) == Outcomes(t)
    ensures FaultKept(t, Respond(t, v, now)) || Injects(ExecuteCall(v), Respond(t, v, now).fault)
  {
    hide Perform, Evict, Injects;
    if Effective(t, v, now) { PerformOutcomes(Admit(t, v), v, now); }
  }

  /** What a call can do to the injected fault and to the outcome counters. */
  ghost predicate OutcomesKept(s: Station, c: Call, r: Station) {
    && (FaultKept(s, r) || Injects(c, r.fault))
    && (s.fault !in {TARGET_LIMIT_MISSING, SLOW_MOTION} ==> r.tally.timedOut <= s.tally.timedOut)
    && (s.fault == TARGET_LIMIT_MISSING ==> r.tally.completed <= s.tally.completed && r.cycles <= s.cycles)
  }

  lemma ExecuteOutcomes(s: Station, v: Block, now: int)
    requires Consistent(s, now)
    ensures OutcomesKept(s, ExecuteCall(v), Execute(s, v, now))
  {
    assert ActiveCached(s);
    hide Tick, Respond, Consistent, Injects;
    TickOutcomes(s, now);
    RespondOutcomes(Tick(s, now), v, now);
  }

  lemma TickStepOutcomes(s: Station, c: Call, now: int)
    requires Consistent(s, now) && !c.ExecuteCall?
    ensures OutcomesKept(s, c, Step(s, c, now))
  {
    assert ActiveCached(s);
    hide Tick, Keepalive, Consistent, Injects;
    TickOutcomes(s, now);
    if c.KeepaliveCall? { KeepaliveSame(s, c.values, now); }
    assert Outcomes(Step(s, c, now)) == Outcomes(Tick(s, now)) && Step(s, c, now).fault == Tick(s, now).fault;
    hide Step;
  }

  lemma KeepaliveSame(s: Station, values: KeepaliveBlock, now: int)
    requires ActiveCached(s)
    ensures var r, t := Keepalive(s, values, now).0, Tick(s, now);
      r.fault == t.fault && r.tally == t.tally && r.cycles == t.cycles
  {
    hide Tick;
  }

  lemma StepOutcomes(s: Station, t0: int, c: Call, now: int)
    requires Consistent(s, t0) && t0 <= now
    ensures OutcomesKept(s, c, Step(s, c, now))
  {
    assert Consistent(s, now) && ActiveCached(s);
    hide Tick, Respond, OutcomesKept, Consistent;
    match c
    case TickCall | RegistersCall => TickStepOutcomes(s, c, now);
    case KeepaliveCall(_) => TickStepOutcomes(s, c, now);
    case ExecuteCall(v) => ExecuteOutcomes(s, v, now);
  }

  /** Unless one of the two motion faults is injected, no motion of a whole run ever times out. */
  lemma {:induction false} NoTimeoutWithoutFault(cfg: Timing, start: int, calls: seq<Timed>)
    requires Chronological(start, calls)
    requires forall c :: c in calls ==> !Injects(c.call, TARGET_LIMIT_MISSING) && !Injects(c.call, SLOW_MOTION)
    ensures var r := Run(Initial(cfg), calls);
      r.tally.timedOut == 0 && r.fault !in {TARGET_LIMIT_MISSING, SLOW_MOTION}
  {
    var s := Initial(cfg);
    InitialConsistent(cfg, start);
    NothingTimedOut(cfg);
    hide Step, Consistent, EndTime, Injects, Initial, FaultKept, ActiveCached;
    if calls != [] {
      var before, last := calls[..|calls| - 1], calls[|calls| - 1];
      assert last in calls && forall c :: c in before ==> c in calls;
      ChronologicalPrefix(start, calls);
      hide Chronological;
      NoTimeoutWithoutFault(cfg, start, before);
      RunInv(s, start, before);
      StepOutcomes(Run(s, before), EndTime(start, before), last.call, last.at);
      StillNoTimeout(Run(s, before), last.call, Step(Run(s, before), last.call, last.at));
    }
  }

  lemma NothingTimedOut(cfg: Timing)
    ensures Initial(cfg).tally.timedOut == 0 && Initial(cfg).fault == NO_FAULT
  {
  }

  lemma StillNoTimeout(s: Station, c: Call, r: Station)
    requires OutcomesKept(s, c, r) && s.tally.timedOut == 0 && s.fault !in {TARGET_LIMIT_MISSING, SLOW_MOTION}
    requires !Injects(c, TARGET_LIMIT_MISSING) && !Injects(c, SLOW_MOTION)
    ensures r.tally.timedOut == 0 && r.fault !in {TARGET_LIMIT_MISSING, SLOW_MOTION}
  {
    hide Injects;
  }

  /** While the target limit is missing, injected again or not, no motion completes and no cycle is counted. */
  lemma {:induction false} MissingLimitNeverCompletes(s: Station, start: int, calls: seq<Timed>)
    requires Consistent(s, start) && Chronological(start, calls) && s.fault == TARGET_LIMIT_MISSING
    requires forall c, f :: c in calls && Injects(c.call, f) ==> f == TARGET_LIMIT_MISSING
    ensures var r := Run(s, calls);
      r.fault == TARGET_LIMIT_MISSING && r.tally.completed <= s.tally.completed && r.cycles <= s.cycles
  {
    assert ActiveCached(s);
    if calls != [] {
      var before, last := calls[..|calls| - 1], calls[|calls| - 1];
      ChronologicalPrefix(start, calls);
      hide Step, Consistent, Chronological, EndTime, Injects;
      MissingLimitNeverCompletes(s, start, before);
      RunInv(s, start, before);
      StepOutcomes(Run(s, before), EndTime(start, before), last.call, last.at);
    }
  }
}
