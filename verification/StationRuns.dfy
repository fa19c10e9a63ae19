/** Whole timed runs of the station: no block takes effect twice, motions end and are conserved. */
module StationRuns {
  import opened Wrappers
  import opened Protocol
  import opened Ordered
  import opened StationSpec
  import opened StationInvariant
  import opened MachineWords

  datatype Call = TickCall | RegistersCall | KeepaliveCall(values: KeepaliveBlock) | ExecuteCall(block: Block)

  /** One call together with the clock sample it was made at. */
  datatype Timed = Timed(call: Call, at: int)

  function Step(s: Station, c: Call, now: int): (r: Station)
    requires ActiveCached(s)
    ensures ActiveCached(r)
  {
    match c
    case TickCall | RegistersCall => Tick(s, now)
    case KeepaliveCall(values) => Keepalive(s, values, now).0
    case ExecuteCall(block) => Execute(s, block, now)
  }

  function Run(s: Station, calls: seq<Timed>): (r: Station)
    requires ActiveCached(s)
    ensures ActiveCached(r)
  {
    if calls == [] then s
    else Step(Run(s, calls[..|calls| - 1]), calls[|calls| - 1].call, calls[|calls| - 1].at)
  }

  /** Clock samples start at or after the given moment and never go back. */
  ghost predicate Chronological(start: int, calls: seq<Timed>) {
    && (forall i :: 0 <= i < |calls| ==> start <= calls[i].at)
    && (forall i, j :: 0 <= i <= j < |calls| ==> calls[i].at <= calls[j].at)
  }

  function EndTime(start: int, calls: seq<Timed>): int {
    if calls == [] then start else calls[|calls| - 1].at
  }

  lemma ChronologicalPrefix(start: int, calls: seq<Timed>)
    requires Chronological(start, calls) && calls != []
    ensures var before, last := calls[..|calls| - 1], calls[|calls| - 1];
      Chronological(start, before) && EndTime(start, before) <= last.at && EndTime(start, calls) == last.at
  {
  }

  lemma StepInv(s: Station, t0: int, c: Call, now: int)
    requires Consistent(s, t0) && t0 <= now
    ensures Inv(Step(s, c, now), now)
  {
    hide Inv, Tick, Keepalive, Execute;
    assert Consistent(s, now);
    match c
    case TickCall | RegistersCall => TickInv(s, now);
    case KeepaliveCall(values) => KeepaliveInv(s, values, now);
    case ExecuteCall(block) => ExecuteInv(s, block, now);
  }

  /** The station invariant holds after every run, from every consistent state. */
  lemma {:induction false} RunInv(s: Station, start: int, calls: seq<Timed>)
    requires Consistent(s, start) && Chronological(start, calls)
    ensures calls != [] ==> Inv(Run(s, calls), EndTime(start, calls))
    ensures Consistent(Run(s, calls), EndTime(start, calls))
  {
    assert ActiveCached(s);
    hide Step, Consistent;
    if calls != [] {
      ChronologicalPrefix(start, calls);
      var before := calls[..|calls| - 1];
      RunInv(s, start, before);
      StepInv(Run(s, before), EndTime(start, before), calls[|calls| - 1].call, calls[|calls| - 1].at);
    }
  }

  // ---- no block takes effect twice ----

  datatype Effect = Effect(block: Block, at: int)

  /** The blocks that took effect during a run, in order. */
  function Effects(s: Station, calls: seq<Timed>): seq<Effect>
    requires ActiveCached(s)
  {
    if calls == [] then []
    else
      var before, last := calls[..|calls| - 1], calls[|calls| - 1];
      Effects(s, before) +
        (if last.call.ExecuteCall? && TakesEffect(Run(s, before), last.call.block, last.at)
         then [Effect(last.call.block, last.at)] else [])
  }

  /** One of the three timing rules stands in the way of the block: its deadline, the sequence floor of
      its owner, or the retirement of its session, which outlasts the deadline. */
  ghost predicate Spent(s: Station, b: Block, now: int) {
    && Session(b) != 0 && Deadline(b) <= now + DEADLINE_CAP_MS
    && (|| Deadline(b) <= now
        || (s.owner == Session(b) && Sequence(b) <= s.highwater)
        || (Session(b) in s.retired && s.retired[Session(b)] >= Deadline(b)))
  }

  /** Everything the ownership rules look at, the motion counter and the injected fault. */
  function Ledger(s: Station): (U32, int, U32, map<U32, int>, Timing, nat, Fault) {
    (s.owner, s.lastKeepalive, s.highwater, s.retired, s.cfg, s.motionStarts, s.fault)
  }

  lemma FinishKeepsLedger(s: Station, result: Result, reason: Reason, now: int)
    requires ActiveCached(s)
    ensures Ledger(Finish(s, result, reason, now)) == Ledger(s)
  {
  }

  lemma AdvanceKeepsLedger(s: Station, now: int)
    requires ActiveCached(s) && s.active.Some?
    ensures Ledger(Advance(s, now)) == Ledger(s)
  {
    hide Finish, PositionAt, Reached;
    var p := s.(position := PositionAt(s, now));
    FinishKeepsLedger(p, FAILED, ACTION_TIMEOUT, now);
    var q := p.(visitedExtended := true);
    FinishKeepsLedger(q.(state := EXTENDED), COMPLETED, NO_REASON, now);
    var u := if p.visitedExtended then p.(cycles := p.cycles + 1, visitedExtended := false) else p;
    FinishKeepsLedger(u.(state := IDLE), COMPLETED, NO_REASON, now);
  }

  /** The lease rule, and no other part of the housekeeping, changes ownership. */
  lemma HousekeepLedger(s: Station, now: int)
    requires ActiveCached(s)
    ensures Ledger(Housekeep(s, now)) == Ledger(Lapse(Refresh(s, now), now))
  {
    hide Finish, Lapse, Refresh;
    FinishKeepsLedger(Lapse(Refresh(s, now), now), FAILED, LIMIT_CONFLICT, now);
  }

  lemma LapseLedger(s: Station, now: int)
    requires ActiveCached(s)
    ensures var lapsed := s.owner != 0 && now - s.lastKeepalive >= s.cfg.leaseMs;
      Ledger(Lapse(s, now)) == Ledger(
        if lapsed then s.(owner := 0, retired := s.retired[s.owner := now + RETIREMENT_MS]) else s)
  {
    hide Finish;
    FinishKeepsLedger(s.(retired := s.retired[s.owner := now + RETIREMENT_MS]), FAILED, COMM_TIMEOUT, now);
  }

  /** A tick changes ownership in one way only: a lapsed owner is retired. */
  lemma TickLedger(s: Station, now: int)
    requires ActiveCached(s)
    ensures var r := Tick(s, now);
      && r.highwater == s.highwater && r.cfg == s.cfg && r.lastKeepalive == s.lastKeepalive
      && r.motionStarts == s.motionStarts && r.fault == Refresh(s, now).fault
      && (if s.owner != 0 && now - s.lastKeepalive >= s.cfg.leaseMs
          then r.owner == 0 && r.retired == Refresh(s, now).retired[s.owner := now + RETIREMENT_MS]
          else r.owner == s.owner && r.retired == Refresh(s, now).retired)
  {
    hide Housekeep, Lapse, Advance;
    LapseLedger(Refresh(s, now), now);
    HousekeepLedger(s, now);
    if Housekeep(s, now).active.Some? { AdvanceKeepsLedger(Housekeep(s, now), now); }
  }

  lemma SpentTick(s: Station, t0: int, b: Block, now: int)
    requires ActiveCached(s) && t0 <= now && Spent(s, b, t0)
    requires s.owner != 0 ==> s.owner !in s.retired
    ensures Spent(Tick(s, now), b, now)
  {
    hide Tick;
    TickLedger(s, now);
  }

  /** Admission of a new block leaves every spent block spent, and is itself refused to spent blocks. */
  lemma SpentAdmit(s: Station, v: Block, b: Block, now: int)
    requires Inv(s, now) && Screen(s, v, now).Fresh? && Spent(s, b, now)
    ensures Spent(Admit(s, v), b, now)
    ensures Session(b) == Session(v) && Sequence(b) == Sequence(v) ==> Deadline(b) <= now
  {
  }

  lemma SpentSettle(s: Station, v: Block, b: Block, now: int)
    requires ActiveCached(s) && Spent(s, b, now) && (s.owner != 0 ==> s.owner !in s.retired)
    ensures Spent(Settle(s, v, now), b, now)
  {
    hide Tick;
    SpentTick(Remember(s, Sequence(v), v, COMPLETED, NO_REASON), now, b, now);
  }

  lemma StartFields(s: Station, v: Block, action: Action, now: int)
    ensures var r := StartMotion(s, v, action, now);
      r.owner == s.owner && r.highwater == s.highwater && r.retired == s.retired && r.cfg == s.cfg
  {
    hide Evict, Put, Sequence, WellFormed;
  }

  lemma RequestFields(s: Station, v: Block, action: Action, now: int)
    requires ActiveCached(s)
    ensures var r := RequestMotion(s, v, action, now);
      r.owner == s.owner && r.highwater == s.highwater && r.retired == s.retired && r.cfg == s.cfg
  {
    hide Evict, Put, MotionPermitted, Sequence, StartMotion;
    StartFields(s, v, action, now);
  }

  lemma SpentRequest(s: Station, v: Block, action: Action, b: Block, now: int)
    requires ActiveCached(s) && Spent(s, b, now)
    ensures Spent(RequestMotion(s, v, action, now), b, now)
  {
    hide RequestMotion;
    RequestFields(s, v, action, now);
  }

  /** Performing a block moves ownership to its session at most, whose floor the block has raised. */
  lemma SpentPerform(s: Station, v: Block, b: Block, now: int)
    requires Inv(s, now) && Admitted(s, v)
    requires Spent(s.(owner := Session(v)), b, now)
    ensures Spent(Perform(s, v, now), b, now)
  {
    hide Settle, Finish, AtRest, FaultOf, ModeOf, Parameter, Evict, Put, WellFormed, RequestMotion;
    match ActionOf(v[0]).value
    case ARM =>
      SpentSettle(s.(owner := Session(v), lastKeepalive := now), v, b, now);
    case STOP =>
      FinishKeepsLedger(s, FAILED, STOP_REQUESTED, now);
      var t := Finish(s, FAILED, STOP_REQUESTED, now);
      SpentSettle(if t.state != State.FAULT then t.(state := AtRest(t.position)) else t, v, b, now);
    case INJECT =>
      var f := FaultOf(Parameter(v));
      if f.Some? { SpentSettle(s.(fault := f.value, faultUntil := now + s.cfg.faultMs), v, b, now); }
    case RESET =>
      if s.fault == NO_FAULT { SpentSettle(s.(alarm := NO_REASON, state := AtRest(s.position)), v, b, now); }
    case MODE =>
      var m := ModeOf(Parameter(v));
      if m.Some? { SpentSettle(s.(mode := m.value), v, b, now); }
    case action => SpentRequest(s, v, action, b, now);
  }

  /** Once spent, a block stays spent whatever the station is asked to do. */
  lemma SpentExecute(s: Station, t0: int, v: Block, b: Block, now: int)
    requires Consistent(s, t0) && t0 <= now && Spent(s, b, t0)
    ensures Spent(Execute(s, v, now), b, now)
    ensures TakesEffect(s, v, now) && Session(b) == Session(v) && Sequence(b) == Sequence(v) ==> Deadline(b) <= now
  {
    hide Tick, Inv, Perform, Screen, Interlock, Admit;
    assert Consistent(s, now);
    TickInv(s, now);
    SpentTick(s, t0, b, now);
    var t := Tick(s, now);
    if Screen(t, v, now).Fresh? {
      AdmitInv(t, v, now);
      SpentAdmit(t, v, b, now);
      AdmitTakesSession(t, v, b, now);
      if Interlock(Admit(t, v), v).None? { SpentPerform(Admit(t, v), v, b, now); }
    }
  }

  lemma AdmitTakesSession(s: Station, v: Block, b: Block, now: int)
    requires Inv(s, now) && Screen(s, v, now).Fresh? && Spent(s, b, now)
    ensures Spent(Admit(s, v).(owner := Session(v)), b, now)
  {
  }

  lemma SpentStep(s: Station, t0: int, c: Call, b: Block, now: int)
    requires Consistent(s, t0) && t0 <= now && Spent(s, b, t0)
    ensures Spent(Step(s, c, now), b, now)
  {
    hide Execute, Tick;
    match c
    case TickCall | RegistersCall => SpentTick(s, t0, b, now);
    case KeepaliveCall(values) => SpentTick(s, t0, b, now);
    case ExecuteCall(block) => SpentExecute(s, t0, block, b, now);
  }

  /** A block that takes effect is spent from then on. */
  lemma EffectIsSpent(s: Station, t0: int, v: Block, now: int)
    requires Consistent(s, t0) && t0 <= now && TakesEffect(s, v, now)
    ensures Spent(Execute(s, v, now), v, now)
    ensures now < Deadline(v) <= now + DEADLINE_CAP_MS && Session(v) != 0 && Boot(v) == s.cfg.boot
  {
    hide Tick, Inv, Perform, Interlock;
    assert Consistent(s, now);
    TickInv(s, now);
    TickLedger(s, now);
    var t := Tick(s, now);
    AdmitInv(t, v, now);
    SpentPerform(Admit(t, v), v, v, now);
  }

  lemma EffectsUnfold(s: Station, calls: seq<Timed>)
    requires ActiveCached(s) && calls != []
    ensures var before, last := calls[..|calls| - 1], calls[|calls| - 1];
      && Run(s, calls) == Step(Run(s, before), last.call, last.at)
      && Effects(s, calls) == Effects(s, before) +
           (if last.call.ExecuteCall? && TakesEffect(Run(s, before), last.call.block, last.at)
            then [Effect(last.call.block, last.at)] else [])
      && (last.call.ExecuteCall? ==> Run(s, calls) == Execute(Run(s, before), last.call.block, last.at))
  {
  }

  lemma {:induction false} EffectsAreSpent(s: Station, start: int, calls: seq<Timed>, i: nat)
    requires Consistent(s, start) && Chronological(start, calls) && i < |Effects(s, calls)|
    ensures Spent(Run(s, calls), Effects(s, calls)[i].block, EndTime(start, calls))
  {
    assert ActiveCached(s) && calls != [];
    hide *;
    EffectsUnfold(s, calls);
    ChronologicalPrefix(start, calls);
    var before, last := calls[..|calls| - 1], calls[|calls| - 1];
    RunInv(s, start, before);
    if i < |Effects(s, before)| {
      EffectsAreSpent(s, start, before, i);
      SpentStep(Run(s, before), EndTime(start, before), last.call, Effects(s, before)[i].block, last.at);
    } else {
      EffectIsSpent(Run(s, before), EndTime(start, before), last.call.block, last.at);
    }
  }

  /** When a later block with the same session and sequence takes effect, the earlier one has expired. */
  lemma {:induction false} EffectsExpireFirst(s: Station, start: int, calls: seq<Timed>, i: nat, j: nat)
    requires Consistent(s, start) && Chronological(start, calls) && i < j < |Effects(s, calls)|
    requires var e := Effects(s, calls);
      Session(e[i].block) == Session(e[j].block) && Sequence(e[i].block) == Sequence(e[j].block)
    ensures Deadline(Effects(s, calls)[i].block) <= Effects(s, calls)[j].at < Deadline(Effects(s, calls)[j].block)
  {
    assert ActiveCached(s) && calls != [];
    hide *;
    EffectsUnfold(s, calls);
    ChronologicalPrefix(start, calls);
    var before, last := calls[..|calls| - 1], calls[|calls| - 1];
    RunInv(s, start, before);
    if j < |Effects(s, before)| {
      EffectsExpireFirst(s, start, before, i, j);
    } else {
      EffectsAreSpent(s, start, before, i);
      EffectIsSpent(Run(s, before), EndTime(start, before), last.call.block, last.at);
      SpentExecute(Run(s, before), EndTime(start, before), last.call.block, Effects(s, before)[i].block, last.at);
    }
  }

  /** Safety: over every run of one boot, whatever is lost, repeated or delayed on the way to the station,
      no command block takes effect twice. */
  lemma NoBlockTakesEffectTwice(cfg: Timing, start: int, calls: seq<Timed>)
    requires Chronological(start, calls)
    ensures var e := Effects(Initial(cfg), calls);
      forall i, j :: 0 <= i < j < |e| ==> e[i].block != e[j].block
  {
    assert Consistent(Initial(cfg), start);
    hide *;
    var e := Effects(Initial(cfg), calls);
    forall i, j | 0 <= i < j < |e| ensures e[i].block != e[j].block {
      if e[i].block == e[j].block { EffectsExpireFirst(Initial(cfg), start, calls, i, j); }
    }
  }
}
