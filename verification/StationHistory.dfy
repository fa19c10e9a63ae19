/** The station together with the real outcome of every command block it has executed. */
module StationHistory {
  import opened Wrappers
  import opened Protocol
  import opened Ordered
  import opened StationSpec
  import opened StationInvariant
  import opened StationRuns
  import opened StationMotion
  import opened MachineWords

  datatype Key = Key(boot: U32, session: U32, sequence: U32)

  datatype Outcome = Outcome(action: Option<Action>, result: Result, reason: Reason)

  /** `last` is the command the acknowledgement registers speak of, and `space` the session whose sequence
      numbers the finished registers and the cache use. */
  datatype History = History(station: Station, outcomes: map<Key, Outcome>, last: Option<Key>, space: U32)

  function KeyOf(v: Block): Key { Key(Boot(v), Session(v), Sequence(v)) }

  function MotionKey(s: Station): Key
    requires s.active.Some?
  {
    Key(s.cfg.boot, s.owner, s.active.value.sequence)
  }

  /** The outcome of a motion that has just ended replaces its acceptance. */
  function Ended(h: History, r: Station): map<Key, Outcome> {
    if h.station.active.Some? && r.active.None? then
      var k := MotionKey(h.station);
      var action := if k in h.outcomes then h.outcomes[k].action else None;
      h.outcomes[k := Outcome(action, r.finished.result, r.finished.reason)]
    else h.outcomes
  }

  function Ticked(h: History, now: int): (r: History)
    requires ActiveCached(h.station)
    ensures ActiveCached(r.station)
  {
    var s := Tick(h.station, now);
    var last := if h.station.active.Some? && s.active.None? then Some(MotionKey(h.station)) else h.last;
    History(s, Ended(h, s), last, h.space)
  }

  predicate TakesOver(s: Station, v: Block, now: int) {
    Screen(s, v, now).Fresh? && IsArm(v) && s.owner != Session(v)
  }

  function Responded(h: History, v: Block, now: int): (r: History)
    requires ActiveCached(h.station)
    ensures ActiveCached(r.station)
  {
    var s := Respond(h.station, v, now);
    History(s, Ended(h, s)[KeyOf(v) := Outcome(ActionOf(v[0]), s.ack.result, s.ack.reason)], Some(KeyOf(v)),
            if TakesOver(h.station, v, now) then Session(v) else h.space)
  }

  predicate IsMotion(a: Option<Action>) { a == Some(EXTEND) || a == Some(RETRACT) || a == Some(CYCLE) }

  /** The registers tell real outcomes of the session whose numbers they use. */
  ghost predicate Truthful(h: History) {
    && (h.station.owner != 0 ==> h.station.owner == h.space)
    && (h.station.active.Some? ==>
         && h.station.active.value.sequence != 0 && MotionKey(h.station) in h.outcomes
         && IsMotion(h.outcomes[MotionKey(h.station)].action)
         && h.outcomes[MotionKey(h.station)].result == ACCEPTED)
    && (var f := h.station.finished;
        f.sequence != 0 ==>
          var k := Key(h.station.cfg.boot, h.space, f.sequence);
          && k in h.outcomes && IsMotion(h.outcomes[k].action)
          && h.outcomes[k].result == f.result && h.outcomes[k].reason == f.reason && f.result in {COMPLETED, FAILED})
    && (var a := h.station.ack;
        if a.sequence == 0 then a.result == NO_RESULT && h.last.None?
        else
          && h.last.Some? && h.last.value.sequence == a.sequence && h.last.value in h.outcomes
          && h.outcomes[h.last.value].result == a.result && h.outcomes[h.last.value].reason == a.reason)
    && (forall k :: k in h.station.cache.items ==> Key(h.station.cfg.boot, h.space, k) in h.outcomes)
  }

  // ---- what ticks and answers do to the registers ----

  lemma FinishTells(s: Station, result: Result, reason: Reason, now: int)
    requires ActiveCached(s)
    ensures var r := Finish(s, result, reason, now);
      if s.active.Some? then
        && r.finished.sequence == s.active.value.sequence && r.finished.result == result && r.finished.reason == reason
        && r.ack == Ack(s.active.value.sequence, result, reason)
        && r.owner == s.owner && r.cfg == s.cfg
        && (forall k :: k in r.cache.items ==> k in s.cache.items)
      else r == s
  {
    hide Evict, Put, WellFormed;
    FinishKeepsKeys(s, result, reason, now);
  }

  /** A tick changes the result registers exactly when it ends the motion, and then tells its outcome. */
  ghost predicate TellsEnd(s: Station, r: Station) {
    && r.cfg == s.cfg && (r.owner == 0 || r.owner == s.owner)
    && (forall k :: k in r.cache.items ==> k in s.cache.items)
    && (if s.active.Some? && r.active.None? then
          && r.finished.sequence == s.active.value.sequence && r.finished.result in {COMPLETED, FAILED}
          && r.ack == Ack(r.finished.sequence, r.finished.result, r.finished.reason)
        else
          && r.finished == s.finished && r.ack == s.ack
          && (r.active.Some? ==>
                s.active.Some? && r.owner == s.owner && r.active.value.sequence == s.active.value.sequence))
  }

  lemma LapseTells(s: Station, now: int)
    requires ActiveCached(s)
    ensures TellsEnd(s, Lapse(s, now))
  {
    FinishTells(s.(retired := s.retired[s.owner := now + RETIREMENT_MS]), FAILED, COMM_TIMEOUT, now);
    hide Finish;
  }

  lemma HousekeepTells(s: Station, now: int)
    requires ActiveCached(s)
    ensures TellsEnd(s, Housekeep(s, now))
  {
    LapseTells(Refresh(s, now), now);
    FinishTells(Lapse(Refresh(s, now), now), FAILED, LIMIT_CONFLICT, now);
    hide Finish, Lapse;
  }

  lemma ArriveTells(s: Station, now: int)
    requires ActiveCached(s) && s.active.Some?
    ensures TellsEnd(s, Arrive(s, now))
  {
    FinishTells(s.(visitedExtended := true, state := EXTENDED), COMPLETED, NO_REASON, now);
    var u := if s.visitedExtended then s.(cycles := s.cycles + 1, visitedExtended := false) else s;
    FinishTells(u.(state := IDLE), COMPLETED, NO_REASON, now);
    hide Finish;
  }

  lemma AdvanceTells(s: Station, now: int)
    requires ActiveCached(s) && s.active.Some?
    ensures TellsEnd(s, Advance(s, now))
  {
    hide Finish, PositionAt, Reached, Arrive;
    var p := s.(position := PositionAt(s, now));
    FinishTells(p, FAILED, ACTION_TIMEOUT, now);
    ArriveTells(p, now);
  }

  lemma TickTells(s: Station, now: int)
    requires ActiveCached(s)
    ensures TellsEnd(s, Tick(s, now))
  {
    HousekeepTells(s, now);
    hide Housekeep, Advance;
    if Housekeep(s, now).active.Some? { AdvanceTells(Housekeep(s, now), now); }
  }

  lemma TickedIsTruthful(h: History, now: int)
    requires ActiveCached(h.station) && Truthful(h) && (h.station.active.Some? ==> h.station.owner != 0)
    ensures Truthful(Ticked(h, now))
  {
    TickTells(h.station, now);
    hide Tick;
  }

  /** What answering a block does to the registers; `taken` says that the block's session takes over. */
  ghost predicate TellsAnswer(s: Station, v: Block, r: Station, taken: bool) {
    && r.cfg == s.cfg && r.ack.sequence == Sequence(v)
    && (r.owner == 0 || r.owner == if taken then Session(v) else s.owner)
    && (if taken then r.finished == NOT_FINISHED && s.active.None? && r.active.None?
        else if s.active.Some? && r.active.None? then
          r.finished.sequence == s.active.value.sequence && r.finished.result == FAILED
        else r.finished == s.finished)
    && (r.active.Some? ==> r.owner == s.owner)
    && (r.active.Some? && r.active != s.active ==>
          && r.active.value.sequence == Sequence(v) && r.ack.result == ACCEPTED && IsMotion(ActionOf(v[0]))
          && s.owner == Session(v) && s.cfg.boot == Boot(v))
    && (forall k :: k in r.cache.items ==>
         || (!taken && k in s.cache.items)
         || (k == Sequence(v) && s.cfg.boot == Boot(v) && (taken || s.owner == Session(v))))
  }

  lemma RememberTells(s: Station, sequence: U32, fingerprint: Block, result: Result, reason: Reason)
    ensures var r := Remember(s, sequence, fingerprint, result, reason);
      && r.ack == Ack(sequence, result, reason)
      && r == s.(cache := r.cache, ack := r.ack)
      && (forall k :: k in r.cache.items ==> k == sequence || k in s.cache.items)
  {
    EvictBounds(Put(s.cache, sequence, Entry(fingerprint, result, reason)), s.active);
  }

  /** A block whose effect is complete at once. */
  ghost predicate TellsDone(s: Station, v: Block, r: Station) {
    && r.cfg == s.cfg && r.ack == Ack(Sequence(v), COMPLETED, NO_REASON)
    && (r.owner == 0 || r.owner == s.owner) && r.finished == s.finished && r.active.None?
    && (forall k :: k in r.cache.items ==> k == Sequence(v) || k in s.cache.items)
  }

  lemma SettleTells(s: Station, v: Block, now: int)
    requires ActiveCached(s) && s.active.None?
    ensures TellsDone(s, v, Settle(s, v, now))
  {
    var t := Remember(s, Sequence(v), v, COMPLETED, NO_REASON);
    RememberTells(s, Sequence(v), v, COMPLETED, NO_REASON);
    TickTells(t, now);
    IdleTick(t, now);
    hide Tick, Remember;
  }

  /** What performing an admitted block does to the registers. */
  ghost predicate TellsPerformed(s: Station, v: Block, r: Station) {
    && r.cfg == s.cfg && r.ack.sequence == Sequence(v)
    && (r.owner == 0 || r.owner == if IsArm(v) then Session(v) else s.owner)
    && (if s.active.Some? && r.active.None? then
          r.finished.sequence == s.active.value.sequence && r.finished.result == FAILED
        else r.finished == s.finished)
    && (r.active.Some? ==>
          && r.owner == s.owner && r.active.value.sequence == Sequence(v)
          && r.ack.result == ACCEPTED && IsMotion(ActionOf(v[0])))
    && (forall k :: k in r.cache.items ==> k == Sequence(v) || k in s.cache.items)
    && (IsArm(v) ==> r.ack.result == COMPLETED)
  }

  lemma StartMotionTells(s: Station, v: Block, action: Action, now: int)
    requires s.active.None? && ActionOf(v[0]) == Some(action) && IsMotion(Some(action))
    ensures TellsPerformed(s, v, StartMotion(s, v, action, now))
  {
    hide Remember, Sequence;
    var u := Underway(s, v, action, now);
    StartMotionUnfold(s, v, action, now);
    hide StartMotion;
    RememberTells(u, Sequence(v), v, ACCEPTED, NO_REASON);
  }

  lemma RequestMotionTells(s: Station, v: Block, action: Action, now: int)
    requires ActiveCached(s) && s.active.None? && ActionOf(v[0]) == Some(action) && IsMotion(Some(action))
    ensures TellsPerformed(s, v, RequestMotion(s, v, action, now))
  {
    RememberTells(s, Sequence(v), v, REJECTED, FAULT_ACTIVE);
    RememberTells(s, Sequence(v), v, REJECTED, INTERLOCK);
    hide Remember, StartMotion, MotionPermitted;
    if s.alarm == NO_REASON && MotionPermitted(s, action) { StartMotionTells(s, v, action, now); }
  }

  lemma PerformTells(s: Station, v: Block, now: int)
    requires ActiveCached(s) && ActionOf(v[0]).Some? && Interlock(s, v).None?
    ensures TellsPerformed(s, v, Perform(s, v, now))
  {
    hide Settle, Remember, Finish, RequestMotion;
    match ActionOf(v[0]).value
    case ARM => SettleTells(s.(owner := Session(v), lastKeepalive := now), v, now);
    case STOP =>
      FinishTells(s, FAILED, STOP_REQUESTED, now);
      var t := Finish(s, FAILED, STOP_REQUESTED, now);
      SettleTells(if t.state != State.FAULT then t.(state := AtRest(t.position)) else t, v, now);
    case INJECT =>
      RememberTells(s, Sequence(v), v, REJECTED, PARAMETER);
      var f := FaultOf(Parameter(v));
      if f.Some? { SettleTells(s.(fault := f.value, faultUntil := now + s.cfg.faultMs), v, now); }
    case RESET =>
      RememberTells(s, Sequence(v), v, REJECTED, FAULT_ACTIVE);
      SettleTells(s.(alarm := NO_REASON, state := AtRest(s.position)), v, now);
    case MODE =>
      RememberTells(s, Sequence(v), v, REJECTED, PARAMETER);
      var m := ModeOf(Parameter(v));
      if m.Some? { SettleTells(s.(mode := m.value), v, now); }
    case action => RequestMotionTells(s, v, action, now);
  }

  /** The block is admitted: what performing it, or refusing it, does to the registers. */
  lemma FreshTells(s: Station, v: Block, now: int)
    requires ActiveCached(s) && Screen(s, v, now).Fresh?
    ensures TellsAnswer(s, v, Respond(s, v, now), TakesOver(s, v, now))
    ensures IsArm(v) ==> Respond(s, v, now).ack.result in {COMPLETED, REJECTED}
    ensures IsArm(v) && Respond(s, v, now).ack.result == COMPLETED ==> TakesOver(s, v, now) || s.owner == Session(v)
  {
    hide Perform, Remember, Put, WellFormed;
    var a := Admit(s, v);
    assert ActionOf(v[0]).Some? && (IsArm(v) && s.owner != Session(v) ==> s.active.None?);
    match Interlock(a, v) {
      case Some(reason) =>
        RememberTells(a, Sequence(v), v, REJECTED, reason);
        assert Respond(s, v, now) == Remember(a, Sequence(v), v, REJECTED, reason);
      case None =>
        PerformTells(a, v, now);
        assert Respond(s, v, now) == Perform(a, v, now);
        hide Respond, Interlock;
        PerformedTellsAnswer(s, v, Perform(a, v, now), now);
        hide TellsPerformed, TellsAnswer;
    }
  }

  lemma PerformedTellsAnswer(s: Station, v: Block, r: Station, now: int)
    requires Screen(s, v, now).Fresh? && TellsPerformed(Admit(s, v), v, r)
    ensures TellsAnswer(s, v, r, TakesOver(s, v, now))
    ensures IsArm(v) ==> r.ack.result == COMPLETED && (TakesOver(s, v, now) || s.owner == Session(v))
  {
    hide Put, WellFormed;
  }

  /** An answer from the checks or from the cache changes the acknowledgement alone. */
  lemma AnsweredTells(s: Station, v: Block, now: int)
    requires ActiveCached(s) && !Screen(s, v, now).Fresh?
    ensures TellsAnswer(s, v, Respond(s, v, now), TakesOver(s, v, now))
    ensures Screen(s, v, now).Refuse? ==> Respond(s, v, now).ack.result == REJECTED
  {
    hide Screen, Perform, Interlock, Admit;
    assert !TakesOver(s, v, now);
    assert Respond(s, v, now) == s.(ack := Respond(s, v, now).ack) && Respond(s, v, now).ack.sequence == Sequence(v);
    hide Respond, TakesOver;
  }

  lemma RespondTells(s: Station, v: Block, now: int)
    requires Inv(s, now)
    ensures TellsAnswer(s, v, Respond(s, v, now), TakesOver(s, v, now))
    ensures IsArm(v) && !Screen(s, v, now).Replay? ==> Respond(s, v, now).ack.result in {COMPLETED, REJECTED}
    ensures IsArm(v) && !Screen(s, v, now).Replay? && Respond(s, v, now).ack.result == COMPLETED ==>
      TakesOver(s, v, now) || s.owner == Session(v)
  {
    assert ActiveCached(s);
    hide *;
    if Screen(s, v, now).Fresh? { FreshTells(s, v, now); } else { AnsweredTells(s, v, now); }
  }

  /** Executing a block that has not been executed before records its real outcome and keeps the registers
      truthful. */
  lemma RespondedIsTruthful(h: History, v: Block, now: int)
    requires Inv(h.station, now) && Truthful(h) && Sequence(v) != 0 && KeyOf(v) !in h.outcomes
    ensures var r := Responded(h, v, now);
      && Truthful(r)
      && (IsArm(v) ==> r.outcomes[KeyOf(v)].result in {COMPLETED, REJECTED})
      && (IsArm(v) && r.outcomes[KeyOf(v)].result == COMPLETED ==> r.space == Session(v))
      && (r.space == h.space || (IsArm(v) && r.space == Session(v)))
  {
    RespondTells(h.station, v, now);
    NoReplay(h, v, now);
    hide Respond, Consistent, Timely;
  }

  lemma NoReplay(h: History, v: Block, now: int)
    requires Truthful(h) && KeyOf(v) !in h.outcomes
    ensures !Screen(h.station, v, now).Replay?
    ensures TakesOver(h.station, v, now) ==> IsArm(v)
  {
  }

  /** Outcomes are only ever added or settled. */
  ghost predicate Grown(a: map<Key, Outcome>, b: map<Key, Outcome>) {
    forall k :: k in a ==> k in b && b[k].action == a[k].action && (a[k].result != ACCEPTED ==> b[k] == a[k])
  }

  lemma TickedGrows(h: History, now: int)
    requires ActiveCached(h.station) && Truthful(h) && (h.station.active.Some? ==> h.station.owner != 0)
    ensures var r := Ticked(h, now);
      && Grown(h.outcomes, r.outcomes) && r.outcomes.Keys == h.outcomes.Keys && r.space == h.space
      && r.station.cfg == h.station.cfg
      && (r.last == h.last
          || (r.last.Some? && r.last.value.session == h.space && r.last.value.boot == h.station.cfg.boot))
  {
    TickTells(h.station, now);
    hide Tick;
  }

  lemma RespondedGrows(h: History, v: Block, now: int)
    requires Inv(h.station, now) && Truthful(h) && KeyOf(v) !in h.outcomes
    ensures var r := Responded(h, v, now);
      && Grown(h.outcomes, r.outcomes) && r.outcomes.Keys == h.outcomes.Keys + {KeyOf(v)}
      && r.outcomes[KeyOf(v)].action == ActionOf(v[0]) && r.last == Some(KeyOf(v))
      && r.station.cfg == h.station.cfg
  {
    RespondTells(h.station, v, now);
    var s := Respond(h.station, v, now);
    assert ActiveCached(h.station) && s.cfg == h.station.cfg;
    hide Respond, Inv, TellsAnswer, KeyOf, TakesOver;
    EndedGrows(h, s);
    hide Ended, Truthful;
  }

  /** The end of a motion settles its outcome and no other. */
  lemma EndedGrows(h: History, s: Station)
    requires Truthful(h)
    ensures Grown(h.outcomes, Ended(h, s)) && Ended(h, s).Keys == h.outcomes.Keys
  {
  }
}
