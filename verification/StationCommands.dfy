/** What every command does, as the operator sees it: when it takes effect, what it then changes, what it is
    refused for, and, over whole runs, which mode the station is in and which motions it starts. Codes and limits
    are written out here and do not come from the functions they are about. */
module StationCommands {
  import opened Wrappers
  import opened Protocol
  import opened Ordered
  import opened StationSpec
  import opened StationInvariant
  import opened StationRuns
  import opened StationMotion
  import opened StationTicks
  import opened MachineWords

  const CODE_EXTEND := 1
  const CODE_RETRACT := 2
  const CODE_STOP := 3
  const CODE_RESET := 4
  const CODE_MODE := 5
  const CODE_INJECT := 6
  const CODE_CYCLE := 7
  const CODE_ARM := 8

  const FAULTS := [NO_FAULT, TARGET_LIMIT_MISSING, BOTH_LIMITS, SLOW_MOTION, COMM_SILENT, FROZEN_HEARTBEAT]
  const MODES := [MANUAL, AUTO]

  // ---- when a block is looked at, and when it takes effect ----

  /** The block is for this boot and well formed, in time, from the session that owns the station or may come to
      own it, and newer than everything that session has sent. */
  predicate Welcome(t: Station, v: Block, now: int) {
    && Boot(v) == t.cfg.boot && Session(v) != 0 && Sequence(v) != 0 && v[10] == 0 && v[11] == 0
    && CODE_EXTEND <= v[0] <= CODE_ARM
    && now < Deadline(v) <= now + 5000
    && (if v[0] == CODE_ARM then t.active.None? && t.owner in {0, Session(v)} && Session(v) !in t.retired
        else t.owner == Session(v))
    && (t.owner == Session(v) ==> Sequence(v) > t.highwater)
  }

  lemma WelcomeExactly(t: Station, v: Block, now: int)
    requires Consistent(t, now)
    ensures Screen(t, v, now).Fresh? <==> Welcome(t, v, now)
  {
    assert v[10..] == [v[10], v[11]];
  }

  /** A parameter goes with MODE and INJECT alone, and while a motion is under way only STOP is obeyed. */
  predicate Fitting(t: Station, v: Block) {
    (Parameter(v) == 0 || v[0] in {CODE_MODE, CODE_INJECT}) && (t.active.None? || v[0] == CODE_STOP)
  }

  /** Exactly when a block takes effect, whatever the order the checks are made in. */
  lemma TakesEffectExactly(s: Station, v: Block, now: int)
    requires Consistent(s, now)
    ensures TakesEffect(s, v, now) <==> Welcome(Tick(s, now), v, now) && Fitting(Tick(s, now), v)
  {
    TickInv(s, now);
    EffectiveExactly(Tick(s, now), v, now);
    hide Tick, Timely, Effective, Consistent, Welcome, Fitting;
  }

  lemma EffectiveExactly(t: Station, v: Block, now: int)
    requires Consistent(t, now)
    ensures Effective(t, v, now) <==> Welcome(t, v, now) && Fitting(t, v)
  {
    WelcomeExactly(t, v, now);
    KnownCode(v);
    hide Consistent, Screen, Welcome, ActionOf, Sequence, Session, WellFormed;
  }

  /** The codes of the actions the interlock asks for. */
  lemma KnownCode(v: Block)
    ensures ActionOf(v[0]) in {Some(MODE), Some(INJECT)} <==> v[0] in {CODE_MODE, CODE_INJECT}
    ensures ActionOf(v[0]) == Some(STOP) <==> v[0] == CODE_STOP
  {
  }

  // ---- answers ----

  /** The answer is remembered with the block. */
  ghost predicate Answered(v: Block, r: Station, result: Result, reason: Reason) {
    && r.ack == Ack(Sequence(v), result, reason) && r.highwater == Sequence(v)
    && r.cache.Has(Sequence(v)) && r.cache.items[Sequence(v)] == Entry(v, result, reason)
  }

  /** Refused and remembered; nothing else happens. */
  ghost predicate Declined(t: Station, v: Block, r: Station, reason: Reason) {
    Answered(v, r, REJECTED, reason) && Machine(r) == Machine(t)
  }

  /** What is remembered under other numbers was remembered before. */
  ghost predicate KeepsOthers(s: Station, r: Station, sequence: U32) {
    forall k :: k in r.cache.items && k != sequence ==> k in s.cache.items && r.cache.items[k] == s.cache.items[k]
  }

  /** A new entry does not make room for itself. */
  lemma RemembersNewest(s: Station, sequence: U32, fingerprint: Block, result: Result, reason: Reason)
    requires s.cache.Size() <= CACHE_LIMIT && !s.cache.Has(sequence)
    ensures var r := Remember(s, sequence, fingerprint, result, reason);
      && r == s.(cache := r.cache, ack := Ack(sequence, result, reason))
      && r.cache.Has(sequence) && r.cache.items[sequence] == Entry(fingerprint, result, reason)
      && KeepsOthers(s, r, sequence)
  {
    var p := Put(s.cache, sequence, Entry(fingerprint, result, reason));
    assert p.order[p.Size() - 1] == sequence;
    if p.Size() > CACHE_LIMIT {
      var victim := Victim(p.order, s.active);
      assert victim != sequence;
      assert Evict(p, s.active) == Remove(p, victim);
    }
  }

  /** At the limit the oldest entry makes room, or the second oldest when the oldest is the motion's. */
  lemma ForgetsOldest(s: Station, sequence: U32, fingerprint: Block, result: Result, reason: Reason)
    requires s.cache.Size() <= CACHE_LIMIT && !s.cache.Has(sequence)
    ensures var before, r := s.cache.order, Remember(s, sequence, fingerprint, result, reason);
      r.cache.order ==
        if |before| < 128 then before + [sequence]
        else if s.active.Some? && s.active.value.sequence == before[0] then [before[0]] + before[2..] + [sequence]
        else before[1..] + [sequence]
  {
    var before := s.cache.order;
    var p := Put(s.cache, sequence, Entry(fingerprint, result, reason));
    assert p.order == before + [sequence];
    assert Remember(s, sequence, fingerprint, result, reason).cache == Evict(p, s.active);
    if |before| == 128 {
      EvictsOne(p, s.active);
      hide *;
      DropsOldest(before, sequence, s.active, Victim(p.order, s.active));
    }
  }

  lemma DropsOldest(before: seq<U32>, sequence: U32, active: Option<Motion>, victim: U32)
    requires |before| == 128 && before[0] != before[1]
    requires victim == if active.Some? && before[0] == active.value.sequence then before[1] else before[0]
    ensures Without(before + [sequence], victim) ==
      if active.Some? && active.value.sequence == before[0] then [before[0]] + before[2..] + [sequence]
      else before[1..] + [sequence]
  {
    var p := before + [sequence];
    WithoutSecond(p);
    hide Without;
    assert p[1..] == before[1..] + [sequence] && p[2..] == before[2..] + [sequence];
  }

  lemma EvictsOne(p: OrderedDict<U32, Entry>, active: Option<Motion>)
    requires p.Size() == CACHE_LIMIT + 1
    ensures Evict(p, active).order == Without(p.order, Victim(p.order, active)) && p.order[0] != p.order[1]
    ensures Victim(p.order, active) ==
      if active.Some? && p.order[0] == active.value.sequence then p.order[1] else p.order[0]
  {
    assert Evict(p, active) == Remove(p, Victim(p.order, active)) by { hide Victim; }
  }

  lemma WithoutSecond<K(!new)>(s: seq<K>)
    requires |s| >= 2 && s[0] != s[1]
    ensures Without(s, s[0]) == s[1..] && Without(s, s[1]) == [s[0]] + s[2..]
  {
    assert s[1..][0] == s[1] && s[1..][1..] == s[2..];
  }

  /** What an admitted block finds: the machine as the tick left it, a cache without its number, and, after a
      change of owner, nothing of the previous one. */
  lemma AdmittedFresh(s: Station, v: Block, now: int)
    requires Consistent(s, now) && Welcome(Tick(s, now), v, now)
    ensures var t := Tick(s, now); var a := Admit(t, v);
      && Inv(t, now) && Inv(a, now) && Admitted(a, v) && Machine(a) == Machine(t) && a.ack == t.ack
      && a.cache.Size() <= CACHE_LIMIT
      && (if t.owner == Session(v) then
            a.keepaliveCounter == t.keepaliveCounter && a.finished == t.finished && a.cache == t.cache
          else a.keepaliveCounter == 0 && a.finished == NOT_FINISHED && a.cache == Empty())
  {
    TickInv(s, now);
    hide Tick;
    WelcomeExactly(Tick(s, now), v, now);
    AdmitInv(Tick(s, now), v, now);
    hide Screen;
  }

  /** A welcome block is refused by the interlock, or performed. */
  lemma LookedAt(s: Station, v: Block, now: int)
    requires Consistent(s, now) && Welcome(Tick(s, now), v, now)
    ensures ActiveCached(s)
    ensures var a := Admit(Tick(s, now), v);
      && ActiveCached(a) && ActionOf(v[0]).Some?
      && Execute(s, v, now) ==
         if Parameter(v) != 0 && v[0] !in {CODE_MODE, CODE_INJECT} then Refused(a, v, PARAMETER)
         else if a.active.Some? && v[0] != CODE_STOP then Refused(a, v, BUSY)
         else Perform(a, v, now)
  {
    TickInv(s, now);
    WelcomeExactly(Tick(s, now), v, now);
    assert ActiveCached(s) && ActiveCached(Tick(s, now));
    hide *;
    RespondsToWelcome(Tick(s, now), v, now);
    ExecuteResponds(s, v, now);
  }

  lemma ExecuteResponds(s: Station, v: Block, now: int)
    requires ActiveCached(s)
    ensures Execute(s, v, now) == Respond(Tick(s, now), v, now)
  {
    hide Tick, Respond;
  }

  lemma RespondsToWelcome(t: Station, v: Block, now: int)
    requires ActiveCached(t) && Welcome(t, v, now) && Screen(t, v, now).Fresh?
    ensures var a := Admit(t, v);
      && ActiveCached(a) && ActionOf(v[0]).Some?
      && Respond(t, v, now) ==
         if Parameter(v) != 0 && v[0] !in {CODE_MODE, CODE_INJECT} then Refused(a, v, PARAMETER)
         else if a.active.Some? && v[0] != CODE_STOP then Refused(a, v, BUSY)
         else Perform(a, v, now)
  {
    hide Refused, Perform, Screen, Boot, Session, Sequence, Deadline, Parameter, WellFormed;
  }

  /** Welcome but not fitting: refused for the parameter first, for the motion otherwise. */
  lemma UnfittingIsDeclined(s: Station, v: Block, now: int)
    requires Consistent(s, now) && Welcome(Tick(s, now), v, now) && !Fitting(Tick(s, now), v)
    ensures var t := Tick(s, now);
      Declined(t, v, Execute(s, v, now),
        if Parameter(v) != 0 && v[0] !in {CODE_MODE, CODE_INJECT} then PARAMETER else BUSY)
  {
    AdmittedFresh(s, v, now);
    LookedAt(s, v, now);
    var t := Tick(s, now);
    var a := Admit(t, v);
    DeclinesOnce(a, v, PARAMETER);
    DeclinesOnce(a, v, BUSY);
    assert a.active == t.active;
    hide Tick, Refused, Inv, Admit, Execute, Perform, Welcome;
  }

  lemma DeclinesOnce(a: Station, v: Block, reason: Reason)
    requires a.highwater == Sequence(v) && !a.cache.Has(Sequence(v)) && a.cache.Size() <= CACHE_LIMIT
    ensures Declined(a, v, Refused(a, v, reason), reason)
  {
    RemembersNewest(a, Sequence(v), v, REJECTED, reason);
    hide Remember;
  }

  lemma DeclinesSince(t: Station, a: Station, v: Block, reason: Reason)
    requires a == t.(highwater := Sequence(v)) && !a.cache.Has(Sequence(v)) && a.cache.Size() <= CACHE_LIMIT
    ensures Declined(t, v, Refused(a, v, reason), reason)
  {
    DeclinesOnce(a, v, reason);
    hide Refused, Sequence, WellFormed, Answered;
  }

  // ---- commands that are complete at once ----

  /** The lease, the retirements, the communication fault and the heartbeat are those of this moment. */
  ghost predicate UpToDate(s: Station, now: int) {
    && (s.owner != 0 ==> now < s.lastKeepalive + s.cfg.leaseMs)
    && (forall k :: k in s.retired ==> s.retired[k] > now)
    && (s.fault in {COMM_SILENT, FROZEN_HEARTBEAT} ==> now < s.faultUntil)
  }

  lemma TickUpdates(s: Station, now: int)
    requires Consistent(s, now)
    ensures var t := Tick(s, now);
      && UpToDate(t, now) && (t.fault != FROZEN_HEARTBEAT ==> t.heartbeat == now)
      && (t.fault == BOTH_LIMITS ==> t.active.None? && t.state == State.FAULT && t.alarm == LIMIT_CONFLICT)
  {
    TickedSettings(s, now);
    TickInv(s, now);
    if s.active.None? { RestsOn(s, now); }
    hide Tick, Machine;
    assert s.active.Some? ==> s.fault != BOTH_LIMITS;
  }

  /** A second tick at the same moment on a station at rest: it counts itself, the heartbeat is that of this moment
      unless frozen, and contradicting limits are noticed. */
  lemma SecondTick(s: Station, now: int)
    requires s.active.None? && UpToDate(s, now)
    ensures Tick(s, now) == s.(
      sequence := s.sequence + 1, heartbeat := if s.fault == FROZEN_HEARTBEAT then s.heartbeat else now,
      state := if s.fault == BOTH_LIMITS then State.FAULT else s.state,
      alarm := if s.fault == BOTH_LIMITS then LIMIT_CONFLICT else s.alarm)
  {
    TickedSettings(s, now);
    RestsOn(s, now);
    hide Tick;
    assert Tick(s, now).retired == s.retired;
    hide UpToDate;
  }

  /** Complete at once: `w` is the station with the command's own change made. */
  ghost predicate Done(w: Station, v: Block, r: Station, now: int) {
    && Answered(v, r, COMPLETED, NO_REASON)
    && r.finished == w.finished && r.keepaliveCounter == w.keepaliveCounter
    && Machine(r) == Machine(w).(
         sequence := w.sequence + 1, heartbeat := if w.fault == FROZEN_HEARTBEAT then w.heartbeat else now,
         state := if w.fault == BOTH_LIMITS then State.FAULT else w.state,
         alarm := if w.fault == BOTH_LIMITS then LIMIT_CONFLICT else w.alarm)
    && KeepsOthers(w, r, Sequence(v))
  }

  lemma SettleDone(w: Station, v: Block, now: int)
    requires w.active.None? && UpToDate(w, now) && w.cache.Size() <= CACHE_LIMIT
    requires w.highwater == Sequence(v) && !w.cache.Has(Sequence(v))
    ensures Done(w, v, Settle(w, v, now), now)
  {
    RemembersNewest(w, Sequence(v), v, COMPLETED, NO_REASON);
    var u := Remember(w, Sequence(v), v, COMPLETED, NO_REASON);
    assert UpToDate(u, now) && u.active.None?;
    SettlesByTick(w, v, now);
    hide *;
    SecondTick(u, now);
    DoneAfter(w, u, v, Tick(u, now), now);
  }

  lemma SettlesByTick(w: Station, v: Block, now: int)
    requires w.active.None?
    ensures Settle(w, v, now) == Tick(Remember(w, Sequence(v), v, COMPLETED, NO_REASON), now)
  {
    hide Remember, Tick, Sequence;
  }

  lemma DoneAfter(w: Station, u: Station, v: Block, r: Station, now: int)
    requires w.highwater == Sequence(v)
    requires u == w.(cache := u.cache, ack := Ack(Sequence(v), COMPLETED, NO_REASON))
    requires u.cache.Has(Sequence(v)) && u.cache.items[Sequence(v)] == Entry(v, COMPLETED, NO_REASON)
    requires KeepsOthers(w, u, Sequence(v))
    requires r == u.(
      sequence := u.sequence + 1, heartbeat := if u.fault == FROZEN_HEARTBEAT then u.heartbeat else now,
      state := if u.fault == BOTH_LIMITS then State.FAULT else u.state,
      alarm := if u.fault == BOTH_LIMITS then LIMIT_CONFLICT else u.alarm)
    ensures Done(w, v, r, now)
  {
    hide Sequence, WellFormed, NoDuplicates;
  }

  /** The tick before left nothing for the second one but its count. */
  ghost predicate Current(t: Station, now: int) {
    && (t.fault != FROZEN_HEARTBEAT ==> t.heartbeat == now)
    && (t.fault == BOTH_LIMITS ==> t.active.None? && t.state == State.FAULT && t.alarm == LIMIT_CONFLICT)
  }

  /** An admitted block that is not a stop, about to be performed. */
  ghost predicate Ready(a: Station, v: Block, now: int) {
    && a.active.None? && UpToDate(a, now) && a.cache.Size() <= CACHE_LIMIT && 0.0 <= a.position <= 1.0
    && a.highwater == Sequence(v) && !a.cache.Has(Sequence(v))
  }

  /** A block that takes effect is performed on the admitted station. */
  lemma Performs(s: Station, v: Block, now: int)
    requires Consistent(s, now) && ActiveCached(s) && TakesEffect(s, v, now)
    ensures var t := Tick(s, now); var a := Admit(t, v);
      && Welcome(t, v, now) && Fitting(t, v) && UpToDate(a, now) && ActiveCached(a)
      && ActionOf(v[0]).Some? && Execute(s, v, now) == Perform(a, v, now)
      && Machine(a) == Machine(t) && a.highwater == Sequence(v) && !a.cache.Has(Sequence(v))
      && a.cache.Size() <= CACHE_LIMIT && Consistent(a, now) && Current(t, now)
      && (v[0] != CODE_ARM ==> a == t.(highwater := Sequence(v)))
      && (v[0] != CODE_STOP ==> Ready(a, v, now)) && 0.0 <= t.position <= 1.0
  {
    TakesEffectExactly(s, v, now);
    AdmittedFresh(s, v, now);
    LookedAt(s, v, now);
    TickUpdates(s, now);
    hide Tick, Execute, Perform, Refused, Admit, Welcome, TakesEffect, WellFormed, Timely;
    AdmitsOwner(Tick(s, now), v);
    hide Consistent, Machine;
  }

  /** The change `w` a command makes to an admitted station, seen from the state the tick left. */
  lemma DoneSince(t: Station, w: Station, v: Block, now: int)
    requires w.sequence == t.sequence && w.heartbeat == t.heartbeat && Current(t, now)
    requires w.fault == t.fault && (w.fault == BOTH_LIMITS ==> w.state == t.state && w.alarm == t.alarm)
    requires w.active.None? && UpToDate(w, now) && w.cache.Size() <= CACHE_LIMIT
    requires w.highwater == Sequence(v) && !w.cache.Has(Sequence(v))
    ensures var r := Settle(w, v, now);
      && Answered(v, r, COMPLETED, NO_REASON) && r.finished == w.finished && r.keepaliveCounter == w.keepaliveCounter
      && Machine(r) == Machine(w).(sequence := t.sequence + 1)
      && KeepsOthers(w, r, Sequence(v))
  {
    SettleDone(w, v, now);
    hide Sequence, WellFormed, Settle, UpToDate, Answered, Machine;
  }

  lemma AdmitsOwner(t: Station, v: Block)
    ensures Admit(t, v).active == t.active
    ensures v[0] != CODE_ARM ==> Admit(t, v) == t.(highwater := Sequence(v))
  {
    hide Sequence, Session, WellFormed;
  }

  /** Arming: the session owns the station from now on; a new owner starts with nothing of the last one. */
  lemma ArmsExactly(s: Station, v: Block, now: int)
    requires Consistent(s, now) && ActiveCached(s) && TakesEffect(s, v, now) && v[0] == CODE_ARM
    ensures var t, r := Tick(s, now), Execute(s, v, now);
      && Answered(v, r, COMPLETED, NO_REASON)
      && Machine(r) == Machine(t).(owner := Session(v), lastKeepalive := now, sequence := t.sequence + 1)
      && r.keepaliveCounter == (if t.owner == Session(v) then t.keepaliveCounter else 0)
      && r.finished == (if t.owner == Session(v) then t.finished else NOT_FINISHED)
      && (t.owner != Session(v) ==> forall k :: k in r.cache.items ==> k == Sequence(v))
  {
    Performs(s, v, now);
    TickUpdates(s, now);
    AdmittedFresh(s, v, now);
    var t := Tick(s, now);
    var a := Admit(t, v);
    ArmDone(t, a, v, now);
    hide Tick, Execute, Perform, Welcome, Fitting, TakesEffect, Consistent, Admit, WellFormed, UpToDate, Machine,
      Answered;
  }

  lemma PerformsArm(a: Station, v: Block, now: int)
    requires ActiveCached(a) && v[0] == CODE_ARM && a.active.None?
    ensures Perform(a, v, now) == Settle(a.(owner := Session(v), lastKeepalive := now), v, now)
  {
    hide Settle, Session, Sequence, Parameter, WellFormed, Finish, RequestMotion, Refused;
  }

  lemma ArmDone(t: Station, a: Station, v: Block, now: int)
    requires ActiveCached(a) && v[0] == CODE_ARM && a.active.None? && UpToDate(a, now) && a.cache.Size() <= CACHE_LIMIT
    requires a.highwater == Sequence(v) && !a.cache.Has(Sequence(v)) && Machine(a) == Machine(t) && Current(t, now)
    ensures var r := Perform(a, v, now);
      && Answered(v, r, COMPLETED, NO_REASON) && r.finished == a.finished && r.keepaliveCounter == a.keepaliveCounter
      && Machine(r) == Machine(t).(owner := Session(v), lastKeepalive := now, sequence := t.sequence + 1)
      && (forall k :: k in r.cache.items ==> k == Sequence(v) || k in a.cache.items)
  {
    var w := a.(owner := Session(v), lastKeepalive := now);
    PerformsArm(a, v, now);
    DoneSince(t, w, v, now);
    assert Machine(w) == Machine(t).(owner := Session(v), lastKeepalive := now);
    hide *;
  }

  /** The state a machine without an alarm rests in at a position. */
  function StateAt(position: real): State {
    if position == 0.0 then IDLE else if position == 1.0 then EXTENDED else STOPPED
  }

  ghost predicate ModeSet(t: Station, v: Block, r: Station) {
    if 1 <= Parameter(v) <= 2 then
      && Answered(v, r, COMPLETED, NO_REASON) && r.finished == t.finished && r.keepaliveCounter == t.keepaliveCounter
      && Machine(r) == Machine(t).(mode := MODES[Parameter(v) - 1], sequence := t.sequence + 1)
    else Declined(t, v, r, PARAMETER)
  }

  /** Setting the mode; any parameter but the two modes is refused. */
  lemma SetsModeExactly(s: Station, v: Block, now: int)
    requires Consistent(s, now) && ActiveCached(s) && TakesEffect(s, v, now) && v[0] == CODE_MODE
    ensures ModeSet(Tick(s, now), v, Execute(s, v, now))
  {
    assert v[0] != CODE_ARM && v[0] != CODE_STOP;
    hide *;
    Performs(s, v, now);
    ModeDone(Tick(s, now), Admit(Tick(s, now), v), v, now);
  }

  lemma ModeDone(t: Station, a: Station, v: Block, now: int)
    requires ActiveCached(a) && v[0] == CODE_MODE && Ready(a, v, now) && Current(t, now)
    requires a == t.(highwater := Sequence(v))
    ensures ModeSet(t, v, Perform(a, v, now))
  {
    PerformsMode(a, v, now);
    if 1 <= Parameter(v) <= 2 {
      var w := a.(mode := MODES[Parameter(v) - 1]);
      DoneSince(t, w, v, now);
      assert Machine(w) == Machine(t).(mode := MODES[Parameter(v) - 1]);
      hide *;
    } else {
      DeclinesSince(t, a, v, PARAMETER);
      hide *;
    }
  }

  lemma PerformsMode(a: Station, v: Block, now: int)
    requires ActiveCached(a) && v[0] == CODE_MODE
    ensures Perform(a, v, now) ==
      if 1 <= Parameter(v) <= 2 then Settle(a.(mode := MODES[Parameter(v) - 1]), v, now)
      else Refused(a, v, PARAMETER)
  {
    hide Settle, Session, Sequence, Parameter, WellFormed, Finish, RequestMotion, Refused;
  }

  ghost predicate FaultSet(t: Station, v: Block, r: Station, now: int) {
    if Parameter(v) < |FAULTS| then
      var f := FAULTS[Parameter(v)];
      && Answered(v, r, COMPLETED, NO_REASON) && r.finished == t.finished && r.keepaliveCounter == t.keepaliveCounter
      && Machine(r) == Machine(t).(
           fault := f, faultUntil := now + t.cfg.faultMs, sequence := t.sequence + 1,
           heartbeat := if f == FROZEN_HEARTBEAT then t.heartbeat else now,
           state := if f == BOTH_LIMITS then State.FAULT else t.state,
           alarm := if f == BOTH_LIMITS then LIMIT_CONFLICT else t.alarm)
    else Declined(t, v, r, PARAMETER)
  }

  /** Injecting a fault, for the configured time; contradicting limits stop the machine at once. */
  lemma InjectsExactly(s: Station, v: Block, now: int)
    requires Consistent(s, now) && ActiveCached(s) && TakesEffect(s, v, now) && v[0] == CODE_INJECT
    ensures FaultSet(Tick(s, now), v, Execute(s, v, now), now)
  {
    assert v[0] != CODE_ARM && v[0] != CODE_STOP;
    hide *;
    Performs(s, v, now);
    InjectDone(Tick(s, now), Admit(Tick(s, now), v), v, now);
  }

  lemma InjectDone(t: Station, a: Station, v: Block, now: int)
    requires ActiveCached(a) && v[0] == CODE_INJECT && Ready(a, v, now)
    requires a == t.(highwater := Sequence(v))
    ensures FaultSet(t, v, Perform(a, v, now), now)
  {
    PerformsInject(a, v, now);
    if Parameter(v) < |FAULTS| {
      var w := a.(fault := FAULTS[Parameter(v)], faultUntil := now + a.cfg.faultMs);
      assert UpToDate(w, now) && w.active.None? && w.cache == a.cache && w.highwater == Sequence(v);
      assert !w.cache.Has(Sequence(v)) && w.cache.Size() <= CACHE_LIMIT;
      FaultIsSet(t, w, Settle(w, v, now), v, now);
      hide *;
      SettleDone(w, v, now);
    } else {
      FaultIsUnknown(t, v, Refused(a, v, PARAMETER), now);
      hide *;
      DeclinesSince(t, a, v, PARAMETER);
    }
  }

  lemma FaultIsUnknown(t: Station, v: Block, r: Station, now: int)
    requires Parameter(v) >= |FAULTS|
    ensures Declined(t, v, r, PARAMETER) ==> FaultSet(t, v, r, now)
  {
    hide Declined;
  }

  lemma FaultIsSet(t: Station, w: Station, r: Station, v: Block, now: int)
    requires Parameter(v) < |FAULTS|
    requires w == t.(highwater := w.highwater, fault := FAULTS[Parameter(v)], faultUntil := now + t.cfg.faultMs)
    ensures Done(w, v, r, now) ==> FaultSet(t, v, r, now)
  {
    hide Answered, WellFormed, Declined, Parameter, KeepsOthers;
  }

  lemma PerformsInject(a: Station, v: Block, now: int)
    requires ActiveCached(a) && v[0] == CODE_INJECT
    ensures Perform(a, v, now) ==
      if Parameter(v) < |FAULTS| then
        Settle(a.(fault := FAULTS[Parameter(v)], faultUntil := now + a.cfg.faultMs), v, now)
      else Refused(a, v, PARAMETER)
  {
    hide Settle, Session, Sequence, Parameter, WellFormed, Finish, RequestMotion, Refused;
  }

  ghost predicate AlarmReset(t: Station, v: Block, r: Station) {
    if t.fault == NO_FAULT then
      && Answered(v, r, COMPLETED, NO_REASON) && r.finished == t.finished && r.keepaliveCounter == t.keepaliveCounter
      && Machine(r) == Machine(t).(alarm := NO_REASON, state := StateAt(t.position), sequence := t.sequence + 1)
    else Declined(t, v, r, FAULT_ACTIVE)
  }

  /** Resetting: refused while a fault is injected; otherwise the alarm is gone and the state is the position's. */
  lemma ResetsExactly(s: Station, v: Block, now: int)
    requires Consistent(s, now) && ActiveCached(s) && TakesEffect(s, v, now) && v[0] == CODE_RESET
    ensures AlarmReset(Tick(s, now), v, Execute(s, v, now))
  {
    assert v[0] != CODE_ARM && v[0] != CODE_STOP;
    hide *;
    Performs(s, v, now);
    ResetDone(Tick(s, now), Admit(Tick(s, now), v), v, now);
  }

  lemma ResetDone(t: Station, a: Station, v: Block, now: int)
    requires ActiveCached(a) && v[0] == CODE_RESET && Ready(a, v, now) && Current(t, now)
    requires a == t.(highwater := Sequence(v)) && 0.0 <= t.position <= 1.0
    ensures AlarmReset(t, v, Perform(a, v, now))
  {
    PerformsReset(a, v, now);
    if t.fault == NO_FAULT {
      var w := a.(alarm := NO_REASON, state := StateAt(a.position));
      DoneSince(t, w, v, now);
      assert Machine(w) == Machine(t).(alarm := NO_REASON, state := StateAt(t.position));
      hide *;
    } else {
      DeclinesSince(t, a, v, FAULT_ACTIVE);
      hide *;
    }
  }

  lemma PerformsReset(a: Station, v: Block, now: int)
    requires ActiveCached(a) && v[0] == CODE_RESET && 0.0 <= a.position <= 1.0
    ensures Perform(a, v, now) ==
      if a.fault == NO_FAULT then Settle(a.(alarm := NO_REASON, state := StateAt(a.position)), v, now)
      else Refused(a, v, FAULT_ACTIVE)
  {
    hide Settle, Session, Sequence, Parameter, WellFormed, Finish, RequestMotion, Refused;
  }

  // ---- stopping ----

  /** Stopping a station at rest changes nothing. A motion under way fails with the duration it had, and the state
      becomes the position's; its outcome stays to be asked for while it is remembered. */
  lemma StopsExactly(s: Station, v: Block, now: int)
    requires Consistent(s, now) && ActiveCached(s) && TakesEffect(s, v, now) && v[0] == CODE_STOP
    ensures Stopped(Tick(s, now), v, Execute(s, v, now), now)
  {
    Performs(s, v, now);
    var t := Tick(s, now);
    if t.active.None? { StopsNothing(t, Admit(t, v), v, now); } else { StopsMotion(t, Admit(t, v), v, now); }
    hide *;
  }

  ghost predicate Stopped(t: Station, v: Block, r: Station, now: int) {
    && Answered(v, r, COMPLETED, NO_REASON) && r.keepaliveCounter == t.keepaliveCounter
    && (t.active.None? ==> r.finished == t.finished && Machine(r) == Machine(t).(sequence := t.sequence + 1))
    && (t.active.Some? ==>
         var m := t.active.value;
         && r.finished == Finished(m.sequence, FAILED, STOP_REQUESTED, now - m.began)
         && Machine(r) == Machine(t).(active := None, state := StateAt(t.position), lastActionMs := now - m.began,
                                      tally := r.tally, sequence := t.sequence + 1)
         && (r.cache.Has(m.sequence) ==>
               && r.cache.items[m.sequence].result == FAILED && r.cache.items[m.sequence].reason == STOP_REQUESTED))
  }

  lemma StopsNothing(t: Station, a: Station, v: Block, now: int)
    requires ActiveCached(a) && v[0] == CODE_STOP && Ready(a, v, now) && Current(t, now) && Consistent(a, now)
    requires a == t.(highwater := Sequence(v))
    ensures Stopped(t, v, Perform(a, v, now), now)
  {
    NoneToFinish(a, FAILED, STOP_REQUESTED, now);
    PerformsStop(a, v, now);
    DoneSince(t, a, v, now);
    assert a.state != State.FAULT ==> a.(state := StateAt(a.position)) == a;
    assert Machine(a) == Machine(t);
    hide Perform, Settle, Finish, Machine, Answered, Consistent, UpToDate, Sequence;
  }

  lemma PerformsStop(a: Station, v: Block, now: int)
    requires ActiveCached(a) && v[0] == CODE_STOP && 0.0 <= a.position <= 1.0
    ensures var f := Finish(a, FAILED, STOP_REQUESTED, now);
      f.position == a.position &&
      Perform(a, v, now) == Settle(if f.state != State.FAULT then f.(state := StateAt(f.position)) else f, v, now)
  {
    FinishKeepsPosition(a, FAILED, STOP_REQUESTED, now);
    RestsAt(a.position);
    assert ActionOf(v[0]) == Some(STOP);
    hide Settle, ActionOf, AtRest, StateAt, WellFormed, Finish, RequestMotion, Refused, FaultOf, ModeOf;
  }

  lemma RestsAt(position: real)
    requires 0.0 <= position <= 1.0
    ensures AtRest(position) == StateAt(position)
  {
  }

  lemma FinishKeepsPosition(a: Station, result: Result, reason: Reason, now: int)
    requires ActiveCached(a)
    ensures Finish(a, result, reason, now).position == a.position
  {
  }

  lemma StopsMotion(t: Station, a: Station, v: Block, now: int)
    requires ActiveCached(a) && v[0] == CODE_STOP && Current(t, now) && Consistent(a, now) && UpToDate(a, now)
    requires a == t.(highwater := Sequence(v)) && a.active.Some? && !a.cache.Has(Sequence(v))
    ensures Stopped(t, v, Perform(a, v, now), now)
  {
    var f := Finish(a, FAILED, STOP_REQUESTED, now);
    var w := f.(state := StateAt(f.position));
    assert Machine(a) == Machine(t) && 0.0 <= a.position <= 1.0;
    StopFinishes(t, a, w, v, now);
    hide *;
    PerformsStop(a, v, now);
    DoneSince(t, w, v, now);
    StoppedMachine(t, a, w, now);
    StoppedSince(t, w, v, Settle(w, v, now), now);
  }

  lemma StopFinishes(t: Station, a: Station, w: Station, v: Block, now: int)
    requires Consistent(a, now) && UpToDate(a, now) && ActiveCached(a)
    requires a == t.(highwater := Sequence(v)) && a.active.Some? && !a.cache.Has(Sequence(v))
    requires w == Finish(a, FAILED, STOP_REQUESTED, now).(state := StateAt(a.position))
    ensures Finish(a, FAILED, STOP_REQUESTED, now).position == a.position
    ensures Finish(a, FAILED, STOP_REQUESTED, now).state == a.state != State.FAULT
    ensures var m := a.active.value;
      && m.sequence != Sequence(v)
      && w == a.(cache := w.cache, ack := w.ack, finished := w.finished, lastActionMs := now - m.began,
                 active := None, tally := w.tally, state := StateAt(a.position))
      && w.finished == Finished(m.sequence, FAILED, STOP_REQUESTED, now - m.began)
      && w.cache.Has(m.sequence)
      && w.cache.items[m.sequence].result == FAILED && w.cache.items[m.sequence].reason == STOP_REQUESTED
    ensures w.fault != BOTH_LIMITS && UpToDate(w, now) && w.cache.Size() <= CACHE_LIMIT
    ensures w.highwater == Sequence(v) && !w.cache.Has(Sequence(v))
  {
    FinishEnds(a, FAILED, STOP_REQUESTED, now);
    FinishFields(a, FAILED, STOP_REQUESTED, now);
    FinishKeepsKeys(a, FAILED, STOP_REQUESTED, now);
    hide Finish, WellFormed, NoDuplicates, StateAt, Sequence;
  }

  lemma StoppedSince(t: Station, w: Station, v: Block, r: Station, now: int)
    requires t.active.Some? && t.active.value.sequence != Sequence(v)
    requires Answered(v, r, COMPLETED, NO_REASON)
    requires r.finished == w.finished && r.keepaliveCounter == t.keepaliveCounter
    requires Machine(r) == Machine(w).(sequence := t.sequence + 1)
    requires KeepsOthers(w, r, Sequence(v))
    requires var m := t.active.value;
      && w.finished == Finished(m.sequence, FAILED, STOP_REQUESTED, now - m.began)
      && Machine(w) == Machine(t).(active := None, state := StateAt(t.position), lastActionMs := now - m.began,
                                   tally := w.tally)
      && w.cache.Has(m.sequence)
      && w.cache.items[m.sequence].result == FAILED && w.cache.items[m.sequence].reason == STOP_REQUESTED
    ensures Stopped(t, v, r, now)
  {
    assert r.tally == w.tally by { hide Answered, Sequence, StateAt, WellFormed; }
    hide Machine, Answered, Sequence, StateAt, WellFormed;
  }

  lemma StoppedMachine(t: Station, a: Station, w: Station, now: int)
    requires Machine(a) == Machine(t) && a.active.Some?
    requires w == a.(cache := w.cache, ack := w.ack, finished := w.finished, lastActionMs := now - a.active.value.began,
                     active := None, tally := w.tally, state := StateAt(a.position))
    ensures Machine(w) == Machine(t).(active := None, state := StateAt(t.position),
                                      lastActionMs := now - t.active.value.began, tally := w.tally)
  {
    hide StateAt, WellFormed;
  }

  // ---- motions ----

  /** By hand, towards the end it does not rest at; in automatic mode, a cycle from home. */
  predicate Suitable(mode: Mode, state: State, code: int) {
    || (code == CODE_EXTEND && mode == MANUAL && (state == IDLE || state == STOPPED))
    || (code == CODE_RETRACT && mode == MANUAL && (state == EXTENDED || state == STOPPED))
    || (code == CODE_CYCLE && mode == AUTO && state == IDLE)
  }

  /** The motion is under way from where the machine stood: out, or home for RETRACT. */
  ghost predicate Started(t: Station, v: Block, r: Station, now: int) {
    var target: Target := if v[0] == CODE_RETRACT then 0 else 1;
    && Answered(v, r, ACCEPTED, NO_REASON) && r.finished == t.finished && r.keepaliveCounter == t.keepaliveCounter
    && Machine(r) == Machine(t).(
         active := Some(Motion(Sequence(v), now, v[0] == CODE_CYCLE, target, t.position, now)),
         state := if v[0] == CODE_RETRACT then RETRACTING else EXTENDING,
         motionStarts := t.motionStarts + 1, tally := r.tally)
  }

  /** A motion command: refused under an alarm, refused when mode or state do not suit it, otherwise started. */
  lemma MovesExactly(s: Station, v: Block, now: int)
    requires Consistent(s, now) && ActiveCached(s) && TakesEffect(s, v, now)
    requires v[0] in {CODE_EXTEND, CODE_RETRACT, CODE_CYCLE}
    ensures var t, r := Tick(s, now), Execute(s, v, now);
      && (t.alarm != NO_REASON ==> Declined(t, v, r, FAULT_ACTIVE))
      && (t.alarm == NO_REASON && !Suitable(t.mode, t.state, v[0]) ==> Declined(t, v, r, INTERLOCK))
      && (t.alarm == NO_REASON && Suitable(t.mode, t.state, v[0]) ==> Started(t, v, r, now))
  {
    Performs(s, v, now);
    var t := Tick(s, now);
    PerformsMotion(Admit(t, v), v, now);
    MotionDone(t, Admit(t, v), v, now);
    hide Tick, Execute, Perform, Welcome, TakesEffect, Consistent, Admit, Declined, Started;
  }

  lemma PerformsMotion(a: Station, v: Block, now: int)
    requires ActiveCached(a) && v[0] in {CODE_EXTEND, CODE_RETRACT, CODE_CYCLE}
    ensures var action := if v[0] == CODE_EXTEND then EXTEND else if v[0] == CODE_RETRACT then RETRACT else CYCLE;
      Perform(a, v, now) ==
        if a.alarm != NO_REASON then Refused(a, v, FAULT_ACTIVE)
        else if !Suitable(a.mode, a.state, v[0]) then Refused(a, v, INTERLOCK)
        else Remember(Underway(a, v, action, now), Sequence(v), v, ACCEPTED, NO_REASON)
  {
    var action := if v[0] == CODE_EXTEND then EXTEND else if v[0] == CODE_RETRACT then RETRACT else CYCLE;
    StartMotionUnfold(a, v, action, now);
    SuitsExactly(a, v[0], action);
    assert ActionOf(v[0]) == Some(action);
    PerformsRequest(a, v, action, now);
    hide Perform, Sequence, WellFormed, Refused, Remember, Underway, StartMotion, MotionPermitted, Suitable, ActionOf;
  }

  lemma PerformsRequest(a: Station, v: Block, action: Action, now: int)
    requires ActiveCached(a) && ActionOf(v[0]) == Some(action) && action in {EXTEND, RETRACT, CYCLE}
    ensures Perform(a, v, now) == RequestMotion(a, v, action, now)
  {
    hide Settle, RequestMotion, Finish, ActionOf, WellFormed, Refused, FaultOf, ModeOf, AtRest;
  }

  lemma SuitsExactly(a: Station, code: int, action: Action)
    requires ActionOf(code) == Some(action)
    ensures MotionPermitted(a, action) <==> Suitable(a.mode, a.state, code)
  {
  }

  lemma MotionDone(t: Station, a: Station, v: Block, now: int)
    requires Ready(a, v, now) && a == t.(highwater := Sequence(v))
    ensures Declined(t, v, Refused(a, v, FAULT_ACTIVE), FAULT_ACTIVE)
    ensures Declined(t, v, Refused(a, v, INTERLOCK), INTERLOCK)
    ensures v[0] in {CODE_EXTEND, CODE_RETRACT, CODE_CYCLE} ==>
      var action := if v[0] == CODE_EXTEND then EXTEND else if v[0] == CODE_RETRACT then RETRACT else CYCLE;
      Started(t, v, Remember(Underway(a, v, action, now), Sequence(v), v, ACCEPTED, NO_REASON), now)
  {
    assert !a.cache.Has(Sequence(v)) && a.cache.Size() <= CACHE_LIMIT;
    var action := if v[0] == CODE_EXTEND then EXTEND else if v[0] == CODE_RETRACT then RETRACT else CYCLE;
    assert v[0] in {CODE_EXTEND, CODE_RETRACT, CODE_CYCLE} ==> ActionOf(v[0]) == Some(action);
    hide *;
    DeclinesSince(t, a, v, FAULT_ACTIVE);
    DeclinesSince(t, a, v, INTERLOCK);
    if v[0] in {CODE_EXTEND, CODE_RETRACT, CODE_CYCLE} { StartsDone(t, a, v, action, now); }
  }

  lemma StartsDone(t: Station, a: Station, v: Block, action: Action, now: int)
    requires Ready(a, v, now) && a == t.(highwater := Sequence(v)) && ActionOf(v[0]) == Some(action)
    requires v[0] in {CODE_EXTEND, CODE_RETRACT, CODE_CYCLE}
    ensures Started(t, v, Remember(Underway(a, v, action, now), Sequence(v), v, ACCEPTED, NO_REASON), now)
  {
    var u := Underway(a, v, action, now);
    RemembersNewest(u, Sequence(v), v, ACCEPTED, NO_REASON);
    UnderwayExactly(t, a, v, action, now);
    hide *;
    StartedSince(t, u, u.active.value, v, Remember(u, Sequence(v), v, ACCEPTED, NO_REASON), now);
  }

  lemma UnderwayExactly(t: Station, a: Station, v: Block, action: Action, now: int)
    requires a == t.(highwater := Sequence(v)) && ActionOf(v[0]) == Some(action)
    requires v[0] in {CODE_EXTEND, CODE_RETRACT, CODE_CYCLE}
    ensures var u := Underway(a, v, action, now);
      && u.active == Some(Motion(Sequence(v), now, v[0] == CODE_CYCLE, if v[0] == CODE_RETRACT then 0 else 1,
                                 t.position, now))
      && u == t.(highwater := Sequence(v), active := u.active, tally := u.tally,
                 motionStarts := t.motionStarts + 1,
                 state := if v[0] == CODE_RETRACT then RETRACTING else EXTENDING)
      && u.cache == a.cache
  {
    assert v[0] == CODE_CYCLE <==> action == CYCLE;
    assert v[0] == CODE_RETRACT <==> action == RETRACT;
    hide Sequence, ActionOf, WellFormed;
  }

  lemma StartedSince(t: Station, u: Station, m: Motion, v: Block, r: Station, now: int)
    requires m == Motion(Sequence(v), now, v[0] == CODE_CYCLE, if v[0] == CODE_RETRACT then 0 else 1, t.position, now)
    requires u == t.(highwater := Sequence(v), active := Some(m), tally := u.tally,
                     motionStarts := t.motionStarts + 1,
                     state := if v[0] == CODE_RETRACT then RETRACTING else EXTENDING)
    requires r == u.(cache := r.cache, ack := Ack(Sequence(v), ACCEPTED, NO_REASON))
    requires r.cache.Has(Sequence(v)) && r.cache.items[Sequence(v)] == Entry(v, ACCEPTED, NO_REASON)
    ensures Started(t, v, r, now)
  {
    hide Sequence, WellFormed, NoDuplicates;
  }

  // ---- blocks that are not looked at ----

  /** The very block that is remembered under its number is sent once more by the owner. */
  predicate Repeats(t: Station, v: Block) {
    && Boot(v) == t.cfg.boot && Session(v) != 0 && Session(v) == t.owner && Sequence(v) != 0
    && v[10] == 0 && v[11] == 0 && CODE_EXTEND <= v[0] <= CODE_ARM && (v[0] == CODE_ARM ==> t.active.None?)
    && t.cache.Has(Sequence(v)) && t.cache.items[Sequence(v)].fingerprint == v
  }

  /** What a refusal for this reason claims. */
  predicate Grounds(t: Station, v: Block, now: int, reason: Reason) {
    match reason
    case BOOT => Boot(v) != t.cfg.boot
    case PARAMETER =>
      Session(v) == 0 || Sequence(v) == 0 || v[10] != 0 || v[11] != 0 || v[0] < CODE_EXTEND || v[0] > CODE_ARM
    case SESSION => if v[0] == CODE_ARM then Session(v) in t.retired else Session(v) != t.owner
    case BUSY => v[0] == CODE_ARM && (t.active.Some? || (t.owner != 0 && t.owner != Session(v)))
    case SEQUENCE => Session(v) == t.owner && Sequence(v) <= t.highwater
    case EXPIRED => Deadline(v) <= now || Deadline(v) > now + 5000
    case _ => false
  }

  /** A block that is not looked at changes nothing but the acknowledgement. A repeated one is answered with the
      result remembered for it; any other is refused for a reason that is true of it, and for its boot number
      whenever that is wrong. */
  lemma NotLookedAt(s: Station, v: Block, now: int)
    requires Consistent(s, now) && !Welcome(Tick(s, now), v, now)
    ensures ActiveCached(s)
    ensures var t, r := Tick(s, now), Execute(s, v, now);
      && r == t.(ack := r.ack) && r.ack.sequence == Sequence(v)
      && (Repeats(t, v) ==>
           r.ack.result == t.cache.items[Sequence(v)].result && r.ack.reason == t.cache.items[Sequence(v)].reason)
      && (!Repeats(t, v) ==>
           && r.ack.result == REJECTED && Grounds(t, v, now, r.ack.reason)
           && (Boot(v) != t.cfg.boot ==> r.ack.reason == BOOT))
  {
    TickInv(s, now);
    ExecuteResponds(s, v, now);
    assert Consistent(Tick(s, now), now) && ActiveCached(s) && ActiveCached(Tick(s, now));
    hide *;
    RespondsUnlooked(Tick(s, now), v, now);
  }

  lemma RespondsUnlooked(t: Station, v: Block, now: int)
    requires Consistent(t, now) && ActiveCached(t) && !Welcome(t, v, now)
    ensures var r := Respond(t, v, now);
      && r == t.(ack := r.ack) && r.ack.sequence == Sequence(v)
      && (Repeats(t, v) ==>
           r.ack.result == t.cache.items[Sequence(v)].result && r.ack.reason == t.cache.items[Sequence(v)].reason)
      && (!Repeats(t, v) ==>
           && r.ack.result == REJECTED && Grounds(t, v, now, r.ack.reason)
           && (Boot(v) != t.cfg.boot ==> r.ack.reason == BOOT))
  {
    WelcomeExactly(t, v, now);
    hide Consistent, Welcome;
    Screened(t, v, now);
    hide Screen, Grounds, Repeats, Perform, Refused, Interlock, Admit, WellFormed;
  }

  lemma Screened(t: Station, v: Block, now: int)
    requires Consistent(t, now)
    ensures match Screen(t, v, now)
      case Fresh => true
      case Replay(entry) => Repeats(t, v) && entry == t.cache.items[Sequence(v)]
      case Refuse(reason) =>
        !Repeats(t, v) && Grounds(t, v, now, reason) && (Boot(v) != t.cfg.boot ==> reason == BOOT)
  {
    assert v[10..] == [v[10], v[11]];
    assert t.owner != 0 ==> t.owner !in t.retired;
    assert forall k :: k in t.cache.items ==> k <= t.highwater;
    hide Consistent, Boot, Session, Sequence, Deadline, WellFormed;
  }

  // ---- keepalives ----

  /** A keepalive is obeyed exactly when it names this boot, the present owner and a counter above every one obeyed
      before it. Then, and only then, the owner has a whole lease from now on; a keepalive does nothing else. */
  lemma KeepsAliveExactly(s: Station, values: KeepaliveBlock, now: int)
    requires Consistent(s, now)
    ensures ActiveCached(s)
    ensures var t, (r, obeyed) := Tick(s, now), Keepalive(s, values, now);
      && (obeyed <==>
            && U32At(values, 0) == s.cfg.boot && U32At(values, 2) == t.owner != 0
            && U32At(values, 4) > s.keepaliveCounter)
      && r == t.(lastKeepalive := r.lastKeepalive, keepaliveCounter := r.keepaliveCounter)
      && r.keepaliveCounter == (if obeyed then U32At(values, 4) else s.keepaliveCounter)
      && (forall later :: later >= now && t.owner != 0 ==>
           (Tick(r, later).owner == 0 <==> later >= (if obeyed then now else s.lastKeepalive) + s.cfg.leaseMs))
  {
    TickedSettings(s, now);
    assert ActiveCached(s);
    var r := Keepalive(s, values, now).0;
    forall later | later >= now && Tick(s, now).owner != 0
      ensures Tick(r, later).owner == 0 <==> later >= r.lastKeepalive + s.cfg.leaseMs
    {
      TickedSettings(r, later);
    }
    hide Tick, U32At, Consistent, WellFormed;
  }
}
