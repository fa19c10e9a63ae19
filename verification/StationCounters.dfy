/** What the station's history amounts to: the mode set last, the motions begun and the round trips made, and what
    the status registers say of them. */
module StationCounters {
  import opened Wrappers
  import opened Protocol
  import opened StationSpec
  import opened StationInvariant
  import opened StationRuns
  import opened StationMotion
  import opened StationTicks
  import opened StationCommands
  import opened StatusRegisters
  import opened MachineWords

  // ---- what one call does to mode and counters ----

  /** The tick of a call comes first; these are the directions in which it completes a leg. */
  function ArrivedAt(s: Station, now: int): seq<Target>
    requires ActiveCached(s)
  {
    if s.active.Some? && !Lapsed(s, now) && LegDone(s, Tick(s, now).fault, now) then [s.active.value.target] else []
  }

  /** The block is carried out as a motion. */
  predicate Begins(s: Station, v: Block, now: int)
    requires ActiveCached(s)
  {
    var t := Tick(s, now);
    && TakesEffect(s, v, now) && v[0] in {CODE_EXTEND, CODE_RETRACT, CODE_CYCLE}
    && t.alarm == NO_REASON && Suitable(t.mode, t.state, v[0])
  }

  predicate SetsMode(s: Station, v: Block, now: int)
    requires ActiveCached(s)
  {
    TakesEffect(s, v, now) && v[0] == CODE_MODE && 1 <= Parameter(v) <= 2
  }

  /** Everything a command can do to the mode and the counters. */
  lemma ExecuteCounts(s: Station, v: Block, now: int)
    requires Consistent(s, now)
    ensures ActiveCached(s)
    ensures var t, r := Tick(s, now), Execute(s, v, now);
      && r.mode == (if SetsMode(s, v, now) then MODES[Parameter(v) - 1] else t.mode)
      && r.motionStarts == t.motionStarts + (if Begins(s, v, now) then 1 else 0)
      && r.cycles == t.cycles && r.visitedExtended == t.visitedExtended
  {
    assert ActiveCached(s);
    if !TakesEffect(s, v, now) {
      NoEffectNoChange(s, v, now);
      hide Tick, Execute, Consistent, TakesEffect;
    } else {
      EffectCounts(s, v, now);
      hide *;
    }
  }

  lemma EffectCounts(s: Station, v: Block, now: int)
    requires Consistent(s, now) && ActiveCached(s) && TakesEffect(s, v, now)
    ensures var t, r := Tick(s, now), Execute(s, v, now);
      && r.mode == (if SetsMode(s, v, now) then MODES[Parameter(v) - 1] else t.mode)
      && r.motionStarts == t.motionStarts + (if Begins(s, v, now) then 1 else 0)
      && r.cycles == t.cycles && r.visitedExtended == t.visitedExtended
  {
    TakesEffectExactly(s, v, now);
    var t, r := Tick(s, now), Execute(s, v, now);
    assert CODE_EXTEND <= v[0] <= CODE_ARM;
    hide Tick, Execute, Consistent, TakesEffect, Welcome, Fitting, Suitable, ActiveCached, ModeSet, FaultSet,
      AlarmReset, Stopped, Started, Declined, Machine, Answered;
    if v[0] == CODE_ARM { ArmsExactly(s, v, now); ArmedKeeps(t, r); }
    else if v[0] == CODE_STOP { StopsExactly(s, v, now); StoppedKeeps(t, v, r, now); }
    else if v[0] == CODE_INJECT { InjectsExactly(s, v, now); FaultKeeps(t, v, r, now); }
    else if v[0] == CODE_RESET { ResetsExactly(s, v, now); ResetKeeps(t, v, r); }
    else if v[0] == CODE_MODE { SetsModeExactly(s, v, now); ModeChanges(t, v, r); }
    else { MovesExactly(s, v, now); MovedKeeps(t, v, r, now); }
  }

  ghost predicate Unmoved(t: Station, r: Station) { r.cycles == t.cycles && r.visitedExtended == t.visitedExtended }

  lemma ArmedKeeps(t: Station, r: Station)
    ensures
      Machine(r) == Machine(t).(owner := r.owner, lastKeepalive := r.lastKeepalive, sequence := t.sequence + 1) ==>
      Unmoved(t, r) && r.mode == t.mode && r.motionStarts == t.motionStarts
  {
  }

  lemma StoppedKeeps(t: Station, v: Block, r: Station, now: int)
    requires Stopped(t, v, r, now)
    ensures Unmoved(t, r) && r.mode == t.mode && r.motionStarts == t.motionStarts
  {
    hide Answered;
  }

  lemma FaultKeeps(t: Station, v: Block, r: Station, now: int)
    requires FaultSet(t, v, r, now)
    ensures Unmoved(t, r) && r.mode == t.mode && r.motionStarts == t.motionStarts
  {
    hide Answered;
  }

  lemma ResetKeeps(t: Station, v: Block, r: Station)
    requires AlarmReset(t, v, r)
    ensures Unmoved(t, r) && r.mode == t.mode && r.motionStarts == t.motionStarts
  {
    hide Answered;
  }

  lemma ModeChanges(t: Station, v: Block, r: Station)
    requires ModeSet(t, v, r)
    ensures Unmoved(t, r) && r.motionStarts == t.motionStarts
    ensures r.mode == if 1 <= Parameter(v) <= 2 then MODES[Parameter(v) - 1] else t.mode
  {
    hide Answered;
  }

  lemma MovedKeeps(t: Station, v: Block, r: Station, now: int)
    ensures Started(t, v, r, now) ==> Unmoved(t, r) && r.mode == t.mode && r.motionStarts == t.motionStarts + 1
    ensures Declined(t, v, r, FAULT_ACTIVE) || Declined(t, v, r, INTERLOCK) ==>
      Unmoved(t, r) && r.mode == t.mode && r.motionStarts == t.motionStarts
  {
    hide Answered;
  }

  lemma TickTrips(s: Station, now: int)
    requires Consistent(s, now)
    ensures ActiveCached(s)
    ensures var r, a := Tick(s, now), ArrivedAt(s, now);
      && r.mode == s.mode && r.motionStarts == s.motionStarts
      && r.visitedExtended == (if a == [] then s.visitedExtended else a[0] == 1)
      && r.cycles == s.cycles + (if a == [0] && s.visitedExtended then 1 else 0)
  {
    assert ActiveCached(s);
    TickedSettings(s, now);
    hide Tick, Consistent, ActiveCached, Lapsed, LegDone, Ended;
    if s.active.None? { RestsOn(s, now); } else { MotionFares(s, now); }
  }

  /** What one call does, in one line each. */
  ghost predicate Counts(s: Station, c: Call, now: int, r: Station)
    requires ActiveCached(s)
  {
    var a := ArrivedAt(s, now);
    && r.mode == (if c.ExecuteCall? && SetsMode(s, c.block, now) then MODES[Parameter(c.block) - 1] else s.mode)
    && r.motionStarts == s.motionStarts + (if c.ExecuteCall? && Begins(s, c.block, now) then 1 else 0)
    && r.visitedExtended == (if a == [] then s.visitedExtended else a[0] == 1)
    && r.cycles == s.cycles + (if a == [0] && s.visitedExtended then 1 else 0)
  }

  lemma StepCounts(s: Station, c: Call, now: int)
    requires Consistent(s, now)
    ensures ActiveCached(s) && Counts(s, c, now, Step(s, c, now))
  {
    hide *;
    TickTrips(s, now);
    if c.ExecuteCall? {
      ExecuteCounts(s, c.block, now);
      ExecuteIsStep(s, c.block, now);
    } else {
      OthersTick(s, c, now);
    }
    CountsAs(s, c, now, Step(s, c, now));
  }

  lemma ExecuteIsStep(s: Station, v: Block, now: int)
    requires ActiveCached(s)
    ensures Step(s, ExecuteCall(v), now) == Execute(s, v, now)
  {
    hide Execute;
  }

  lemma OthersTick(s: Station, c: Call, now: int)
    requires ActiveCached(s) && !c.ExecuteCall?
    ensures var t, r := Tick(s, now), Step(s, c, now);
      r.mode == t.mode && r.motionStarts == t.motionStarts && r.cycles == t.cycles
      && r.visitedExtended == t.visitedExtended
  {
    hide Tick;
  }

  lemma CountsAs(s: Station, c: Call, now: int, r: Station)
    requires ActiveCached(s)
    requires var t, a := Tick(s, now), ArrivedAt(s, now);
      && t.mode == s.mode && t.motionStarts == s.motionStarts
      && t.visitedExtended == (if a == [] then s.visitedExtended else a[0] == 1)
      && t.cycles == s.cycles + (if a == [0] && s.visitedExtended then 1 else 0)
      && r.mode == (if c.ExecuteCall? && SetsMode(s, c.block, now) then MODES[Parameter(c.block) - 1] else t.mode)
      && r.motionStarts == t.motionStarts + (if c.ExecuteCall? && Begins(s, c.block, now) then 1 else 0)
      && r.cycles == t.cycles && r.visitedExtended == t.visitedExtended
    ensures Counts(s, c, now, r)
  {
    hide Tick, ArrivedAt, Begins, SetsMode;
  }

  // ---- over whole runs ----

  /** The parameter of the last block that set the mode; by hand before any has. */
  function LastMode(effects: seq<Effect>): Mode {
    if effects == [] then MANUAL
    else
      var b := effects[|effects| - 1].block;
      if b[0] == CODE_MODE && 1 <= Parameter(b) <= 2 then MODES[Parameter(b) - 1]
      else LastMode(effects[..|effects| - 1])
  }

  /** The blocks that were carried out as motions during a run, in order. */
  function Begun(s: Station, calls: seq<Timed>): seq<Block>
    requires ActiveCached(s)
  {
    if calls == [] then []
    else
      var before, last := calls[..|calls| - 1], calls[|calls| - 1];
      Begun(s, before) +
        (if last.call.ExecuteCall? && Begins(Run(s, before), last.call.block, last.at) then [last.call.block] else [])
  }

  /** The ends of the stroke at which legs were completed during a run, in order. */
  function Arrivals(s: Station, calls: seq<Timed>): seq<Target>
    requires ActiveCached(s)
  {
    if calls == [] then []
    else
      var before, last := calls[..|calls| - 1], calls[|calls| - 1];
      Arrivals(s, before) + ArrivedAt(Run(s, before), last.at)
  }

  /** How often the far end is followed by home. */
  function RoundTrips(arrivals: seq<Target>): nat {
    if |arrivals| < 2 then 0
    else
      RoundTrips(arrivals[..|arrivals| - 1]) +
        (if arrivals[|arrivals| - 2] == 1 && arrivals[|arrivals| - 1] == 0 then 1 else 0)
  }

  ghost predicate Tallied(s: Station, effects: seq<Effect>, begun: seq<Block>, arrivals: seq<Target>) {
    && s.mode == LastMode(effects) && s.motionStarts == |begun| && s.cycles == RoundTrips(arrivals)
    && (s.visitedExtended <==> arrivals != [] && arrivals[|arrivals| - 1] == 1)
  }

  /** Over every run: the mode is the one set by the last effective MODE block, the motion counter is the number of
      blocks carried out as motions, and the cycle counter the number of times home was reached next after the
      far end, in one motion or two. */
  lemma {:induction false} RunTallied(cfg: Timing, start: int, calls: seq<Timed>)
    requires Chronological(start, calls)
    ensures var s := Initial(cfg);
      Tallied(Run(s, calls), Effects(s, calls), Begun(s, calls), Arrivals(s, calls))
  {
    var s := Initial(cfg);
    InitialConsistent(cfg, start);
    if calls != [] {
      hide *;
      var before, last := calls[..|calls| - 1], calls[|calls| - 1];
      ChronologicalPrefix(start, calls);
      RunTallied(cfg, start, before);
      RunInv(s, start, before);
      var b := Run(s, before);
      StaysConsistent(b, EndTime(start, before), last.at);
      StepCounts(b, last.call, last.at);
      EffectsUnfold(s, calls);
      HistoryUnfolds(s, calls);
      TalliesOn(b, last.call, last.at, Run(s, calls), Effects(s, before), Begun(s, before), Arrivals(s, before));
    } else { assert Run(s, calls) == s; }
  }

  lemma HistoryUnfolds(s: Station, calls: seq<Timed>)
    requires ActiveCached(s) && calls != []
    ensures var b, last := Run(s, calls[..|calls| - 1]), calls[|calls| - 1];
      && Begun(s, calls) == Begun(s, calls[..|calls| - 1]) +
           (if last.call.ExecuteCall? && Begins(b, last.call.block, last.at) then [last.call.block] else [])
      && Arrivals(s, calls) == Arrivals(s, calls[..|calls| - 1]) + ArrivedAt(b, last.at)
  {
    hide Begins, ArrivedAt, Run, ActiveCached;
  }

  lemma TalliesOn(b: Station, c: Call, now: int, r: Station, effects: seq<Effect>, begun: seq<Block>,
                  arrivals: seq<Target>)
    requires ActiveCached(b) && Tallied(b, effects, begun, arrivals) && Counts(b, c, now, r)
    ensures Tallied(r,
      effects + (if c.ExecuteCall? && TakesEffect(b, c.block, now) then [Effect(c.block, now)] else []),
      begun + (if c.ExecuteCall? && Begins(b, c.block, now) then [c.block] else []),
      arrivals + ArrivedAt(b, now))
  {
    assert |ArrivedAt(b, now)| <= 1;
    hide TakesEffect, Begins, ActiveCached, Parameter, ArrivedAt, RoundTrips, LastMode;
    TripsOn(arrivals, ArrivedAt(b, now));
    if c.ExecuteCall? && TakesEffect(b, c.block, now) {
      LastModeOn(effects, Effect(c.block, now));
    } else {
      assert effects + [] == effects;
    }
  }

  lemma LastModeOn(effects: seq<Effect>, e: Effect)
    ensures LastMode(effects + [e]) ==
      if e.block[0] == CODE_MODE && 1 <= Parameter(e.block) <= 2 then MODES[Parameter(e.block) - 1]
      else LastMode(effects)
  {
    assert (effects + [e])[..|effects|] == effects;
  }

  lemma TripsOn(arrivals: seq<Target>, a: seq<Target>)
    requires |a| <= 1
    ensures RoundTrips(arrivals + a) ==
      RoundTrips(arrivals) + (if a == [0] && arrivals != [] && arrivals[|arrivals| - 1] == 1 then 1 else 0)
  {
    if a != [] { assert (arrivals + a)[..|arrivals|] == arrivals; } else { assert arrivals + a == arrivals; }
  }

  /** In the manual mode EXTEND and RETRACT are carried out, in the automatic one CYCLE is, and nothing else starts a
      motion: the counter rises with a block exactly if it takes effect, no alarm stands, and the mode set last and
      the state suit it. */
  lemma MotionsSuitTheMode(cfg: Timing, start: int, calls: seq<Timed>, v: Block, now: int)
    requires Chronological(start, calls) && EndTime(start, calls) <= now
    ensures var s := Run(Initial(cfg), calls); var t := Tick(s, now);
      Execute(s, v, now).motionStarts > s.motionStarts <==>
        && TakesEffect(s, v, now) && t.alarm == NO_REASON
        && (match LastMode(Effects(Initial(cfg), calls))
            case MANUAL =>
              || (v[0] == CODE_EXTEND && t.state in {IDLE, STOPPED})
              || (v[0] == CODE_RETRACT && t.state in {EXTENDED, STOPPED})
            case AUTO => v[0] == CODE_CYCLE && t.state == IDLE)
  {
    InitialConsistent(cfg, start);
    hide *;
    RunInv(Initial(cfg), start, calls);
    RunTallied(cfg, start, calls);
    var s := Run(Initial(cfg), calls);
    StaysConsistent(s, EndTime(start, calls), now);
    StepCounts(s, ExecuteCall(v), now);
    ExecuteIsStep(s, v, now);
    TickedSettings(s, now);
    TalliedMode(s, Effects(Initial(cfg), calls), Begun(Initial(cfg), calls), Arrivals(Initial(cfg), calls));
    SuitsExactly(s, v, now, s.mode);
    RisesExactly(s, v, now, Execute(s, v, now));
  }

  lemma StaysConsistent(s: Station, t0: int, now: int)
    requires Consistent(s, t0) && t0 <= now
    ensures Consistent(s, now) && ActiveCached(s)
  {
  }

  lemma TalliedMode(s: Station, effects: seq<Effect>, begun: seq<Block>, arrivals: seq<Target>)
    requires Tallied(s, effects, begun, arrivals)
    ensures s.mode == LastMode(effects)
  {
  }

  lemma RisesExactly(s: Station, v: Block, now: int, r: Station)
    requires ActiveCached(s) && Counts(s, ExecuteCall(v), now, r)
    ensures r.motionStarts > s.motionStarts <==> Begins(s, v, now)
  {
    hide Begins, ArrivedAt, SetsMode;
  }

  lemma SuitsExactly(s: Station, v: Block, now: int, mode: Mode)
    requires ActiveCached(s) && Tick(s, now).mode == mode
    ensures var t := Tick(s, now);
      Begins(s, v, now) <==>
        && TakesEffect(s, v, now) && t.alarm == NO_REASON
        && (match mode
            case MANUAL =>
              || (v[0] == CODE_EXTEND && t.state in {IDLE, STOPPED})
              || (v[0] == CODE_RETRACT && t.state in {EXTENDED, STOPPED})
            case AUTO => v[0] == CODE_CYCLE && t.state == IDLE)
  {
    hide Tick, TakesEffect;
  }

  // ---- what the registers say of it ----

  lemma ReadsTick(s: Station, calls: seq<Timed>, now: int)
    requires ActiveCached(s)
    ensures Run(s, calls + [Timed(RegistersCall, now)]) == Tick(Run(s, calls), now)
  {
    assert (calls + [Timed(RegistersCall, now)])[..|calls|] == calls;
    hide Tick, ActiveCached;
  }

  lemma ChronologicalOn(start: int, calls: seq<Timed>, c: Timed)
    requires Chronological(start, calls) && EndTime(start, calls) <= c.at
    ensures Chronological(start, calls + [c])
  {
    assert forall i :: 0 <= i < |calls| ==> calls[i].at <= EndTime(start, calls);
  }

  lemma RoundIsNear(x: real)
    ensures -1.0 <= 2.0 * (Round(x) as real - x) <= 1.0
  {
  }

  /** Each limit switch is on at its end of the stroke, unless a fault hides the end the machine moves to, and both
      are when the limits contradict each other. */
  ghost predicate Switches(s: Station, home: bool, extended: bool) {
    var hidden := s.fault == TARGET_LIMIT_MISSING;
    && (home <==> s.fault == BOTH_LIMITS || (s.position == 0.0 && !(hidden && s.state == RETRACTING)))
    && (extended <==> s.fault == BOTH_LIMITS || (s.position == 1.0 && !(hidden && s.state == EXTENDING)))
  }

  lemma LimitsAreSwitches(s: Station, now: int)
    requires Inv(s, now)
    ensures Switches(s, Limits(s).0, Limits(s).1)
  {
  }

  lemma ReportTells(s: Station, now: int, effects: seq<Effect>, begun: seq<Block>, arrivals: seq<Target>)
    requires Inv(s, now) && Tallied(s, effects, begun, arrivals)
    requires s.fault != FROZEN_HEARTBEAT ==> s.heartbeat == now
    ensures var p := Report(s, now);
      && p.mode == LastMode(effects) && p.motionStarts == Low32(|begun|) && p.cycles == Low32(RoundTrips(arrivals))
      && -1.0 <= 2.0 * (p.permille as real - 1000.0 * s.position) <= 1.0
      && p.uptime == Low32(now) && (s.fault != FROZEN_HEARTBEAT ==> p.heartbeat == p.uptime)
      && (p.alarm == NO_REASON <==> p.state != State.FAULT) && (p.owner == 0 ==> p.lease == 0)
      && Switches(s, p.home, p.extended) && p.activeSequence == (if s.active.Some? then s.active.value.sequence else 0)
      && p.owner == s.owner
  {
    RoundIsNear(1000.0 * s.position);
    LimitsAreSwitches(s, now);
    assert s.position * 1000.0 == 1000.0 * s.position;
    hide LastMode, RoundTrips, Round, Low32, Limits, Switches;
  }

  lemma LeaseTold(s: Station, now: int, later: int)
    requires Inv(s, now) && now <= later && ActiveCached(s)
    ensures Tick(s, later).owner == 0 <==> s.owner == 0 || later - now >= Report(s, now).lease
  {
    TickedSettings(s, later);
    hide Tick, Round, Limits, Low32, Consistent;
  }

  /** What the registers of a status read at this moment tell: the history above in its low 32 bits, how long the
      lease would still last without another call, both limit switches, and the position to the nearest
      thousandth. */
  lemma RegistersTell(cfg: Timing, start: int, calls: seq<Timed>, now: int)
    requires Chronological(start, calls) && EndTime(start, calls) <= now
    ensures var s0, all := Initial(cfg), calls + [Timed(RegistersCall, now)];
      var s := Run(s0, all); var d := Decode(Encode(Report(s, now)));
      d.Some? && var p := d.value.sample;
      && p.mode == LastMode(Effects(s0, all)) && p.motionStarts == Low32(|Begun(s0, all)|)
      && p.cycles == Low32(RoundTrips(Arrivals(s0, all)))
      && (forall later :: later >= now ==> (Tick(s, later).owner == 0 <==> p.owner == 0 || later - now >= p.lease))
      && -1.0 <= 2.0 * (p.permille as real - 1000.0 * s.position) <= 1.0
      && p.uptime == Low32(now) && (s.fault != FROZEN_HEARTBEAT ==> p.heartbeat == p.uptime)
      && (p.alarm == NO_REASON <==> p.state != State.FAULT) && (p.owner == 0 ==> p.lease == 0)
      && Switches(s, p.home, p.extended) && p.activeSequence == (if s.active.Some? then s.active.value.sequence else 0)
  {
    var s0, all := Initial(cfg), calls + [Timed(RegistersCall, now)];
    var s := Run(s0, all);
    assert all[..|all| - 1] == calls;
    ReadsTick(s0, calls, now);
    InitialConsistent(cfg, start);
    hide *;
    ChronologicalOn(start, calls, Timed(RegistersCall, now));
    RunTallied(cfg, start, all);
    RunInv(s0, start, calls);
    StaysConsistent(Run(s0, calls), EndTime(start, calls), now);
    TickInv(Run(s0, calls), now);
    TickedSettings(Run(s0, calls), now);
    StatusRoundTrip(Report(s, now), []);
    ReportTells(s, now, Effects(s0, all), Begun(s0, all), Arrivals(s0, all));
    forall later | later >= now
      ensures Tick(s, later).owner == 0 <==> s.owner == 0 || later - now >= Report(s, now).lease
    {
      LeaseTold(s, now, later);
    }
  }
}
