/** What every call on the actuator station does to its state, as functions. */
module StationSpec {
  import opened Wrappers
  import opened Protocol
  import opened Ordered
  import opened MachineWords

  const RETIREMENT_MS := 5000
  const DEADLINE_CAP_MS := 5000
  const CACHE_LIMIT := 128

  datatype Config = Config(boot: U32, moveMs: int, timeoutMs: int, leaseMs: int, faultMs: int) {
    predicate Valid() { 0 < moveMs < timeoutMs && 0 < leaseMs && 0 < faultMs && boot != 0 }
  }

  type Timing = c: Config | c.Valid() witness Config(1, 400, 1200, 1000, 2000)

  /** 0 is the home end of the stroke, 1 the extended end. */
  type Target = x: int | 0 <= x <= 1

  datatype Motion = Motion(sequence: U32, began: int, cycle: bool, target: Target, start: real, legBegan: int)
  datatype Entry = Entry(fingerprint: Block, result: Result, reason: Reason)
  datatype Ack = Ack(sequence: U32, result: Result, reason: Reason)
  datatype Finished = Finished(sequence: U32, result: Result, reason: Reason, duration: int)

  /** History counters: motions ended, completed and timed out so far, and legs of the current motion. */
  datatype Tally = Tally(ended: nat, completed: nat, timedOut: nat, legs: nat)

  datatype Station = Station(
    cfg: Timing,
    state: State, mode: Mode, alarm: Reason,
    position: real, cycles: nat, motionStarts: nat,
    owner: U32, lastKeepalive: int, keepaliveCounter: U32,
    sequence: nat, highwater: U32, heartbeat: int,
    ack: Ack, finished: Finished,
    active: Option<Motion>, visitedExtended: bool,
    fault: Fault, faultUntil: int, lastActionMs: int,
    cache: OrderedDict<U32, Entry>,
    retired: map<U32, int>,
    tally: Tally)

  const NO_ACK := Ack(0, NO_RESULT, NO_REASON)
  const NOT_FINISHED := Finished(0, NO_RESULT, NO_REASON, 0)

  function Initial(cfg: Timing): Station {
    Station(cfg, IDLE, MANUAL, NO_REASON, 0.0, 0, 0, 0, 0, 0, 0, 0, 0, NO_ACK, NOT_FINISHED,
            None, false, NO_FAULT, 0, 0, Empty(), map[], Tally(0, 0, 0, 0))
  }

  /** The one thing the station's own look-ups rely on. */
  predicate ActiveCached(s: Station) {
    s.active.Some? ==> s.cache.Has(s.active.value.sequence)
  }

  function Limits(s: Station): (bool, bool) {
    if s.fault == BOTH_LIMITS then (true, true)
    else if s.fault == TARGET_LIMIT_MISSING && s.active.Some? then
      if s.state == EXTENDING then (s.position <= 0.0, false) else (false, s.position >= 1.0)
    else (s.position <= 0.0, s.position >= 1.0)
  }

  // ---- de-duplication cache ----

  function Victim(order: seq<U32>, active: Option<Motion>): U32
    requires |order| > CACHE_LIMIT
  {
    if active.Some? && order[0] == active.value.sequence then order[1] else order[0]
  }

  function Evict(cache: OrderedDict<U32, Entry>, active: Option<Motion>): (r: OrderedDict<U32, Entry>)
    ensures active.Some? && cache.Has(active.value.sequence) ==>
      r.Has(active.value.sequence) && r.items[active.value.sequence] == cache.items[active.value.sequence]
    decreases cache.Size()
  {
    if cache.Size() > CACHE_LIMIT then
      var victim := Victim(cache.order, active);
      assert victim in cache.order;
      assert active.Some? ==> victim != active.value.sequence by { assert cache.order[0] != cache.order[1]; }
      Evict(Remove(cache, victim), active)
    else cache
  }

  function Remember(s: Station, sequence: U32, fingerprint: Block, result: Result, reason: Reason): Station {
    s.(cache := Evict(Put(s.cache, sequence, Entry(fingerprint, result, reason)), s.active),
       ack := Ack(sequence, result, reason))
  }

  // ---- motion ----

  function Finish(s: Station, result: Result, reason: Reason, now: int): (r: Station)
    requires ActiveCached(s)
    ensures r.active.None?
  {
    if s.active.None? then s
    else
      var motion := s.active.value;
      var duration := if now - motion.began > 0 then now - motion.began else 0;
      var t := s.(lastActionMs := duration, finished := Finished(motion.sequence, result, reason, duration));
      Remember(t, motion.sequence, s.cache.items[motion.sequence].fingerprint, result, reason).(
        active := None,
        tally := Tally(s.tally.ended + 1,
                       s.tally.completed + (if result == COMPLETED then 1 else 0),
                       s.tally.timedOut + (if reason == ACTION_TIMEOUT then 1 else 0), 0))
  }

  function Trip(s: Station, reason: Reason, now: int): (r: Station)
    requires ActiveCached(s)
    ensures r.active.None?
  {
    Finish(s, FAILED, reason, now).(state := State.FAULT, alarm := reason)
  }

  function Leg(s: Station, target: Target, now: int): Station
    requires s.active.Some?
  {
    s.(active := Some(s.active.value.(target := target, start := s.position, legBegan := now)),
       state := if target == 1 then EXTENDING else RETRACTING,
       tally := s.tally.(legs := s.tally.legs + 1))
  }

  function Fraction(elapsed: int, duration: int): real
    requires duration > 0
  {
    if elapsed >= duration then 1.0 else elapsed as real / duration as real
  }

  function LegDuration(s: Station): (d: int)
    ensures d > 0
  {
    s.cfg.moveMs * (if s.fault == SLOW_MOTION then 10 else 1)
  }

  function PositionAt(s: Station, now: int): real
    requires s.active.Some?
  {
    var m := s.active.value;
    m.start + (m.target as real - m.start) * Fraction(now - m.legBegan, LegDuration(s))
  }

  // ---- tick, in the order of the source: housekeeping first, then the moving leg ----

  /** The status counter, retired sessions, expiring faults and the heartbeat. */
  function Refresh(s: Station, now: int): (r: Station)
    ensures r.active == s.active && r.cache == s.cache
  {
    var a := s.(sequence := s.sequence + 1,
                retired := map key | key in s.retired && s.retired[key] > now :: s.retired[key]);
    var b := if (a.fault == COMM_SILENT || a.fault == FROZEN_HEARTBEAT) && now >= a.faultUntil
             then a.(fault := NO_FAULT) else a;
    if b.fault != FROZEN_HEARTBEAT then b.(heartbeat := now) else b
  }

  /** An owner that stopped calling loses its lease, its motion and, for a while, its session number. */
  function Lapse(s: Station, now: int): (r: Station)
    requires ActiveCached(s)
    ensures ActiveCached(r)
  {
    if s.owner != 0 && now - s.lastKeepalive >= s.cfg.leaseMs then
      var e := s.(retired := s.retired[s.owner := now + RETIREMENT_MS]);
      (if e.active.Some? then Trip(e, COMM_TIMEOUT, now) else e).(owner := 0)
    else s
  }

  function Housekeep(s: Station, now: int): (r: Station)
    requires ActiveCached(s)
    ensures ActiveCached(r)
  {
    var t := Lapse(Refresh(s, now), now);
    if t.fault == BOTH_LIMITS then Trip(t, LIMIT_CONFLICT, now) else t
  }

  predicate Reached(s: Station)
    requires s.active.Some?
  {
    if s.active.value.target == 1 then Limits(s).1 else Limits(s).0
  }

  /** The target limit is seen: turn round in a cycle, otherwise the motion is complete. */
  function Arrive(s: Station, now: int): (r: Station)
    requires s.active.Some? && ActiveCached(s)
    ensures ActiveCached(r)
  {
    if s.active.value.target == 1 then
      var q := s.(visitedExtended := true);
      if s.active.value.cycle then Leg(q, 0, now) else Finish(q.(state := EXTENDED), COMPLETED, NO_REASON, now)
    else
      var q := if s.visitedExtended then s.(cycles := s.cycles + 1, visitedExtended := false) else s;
      Finish(q.(state := IDLE), COMPLETED, NO_REASON, now)
  }

  function Advance(s: Station, now: int): (r: Station)
    requires s.active.Some? && ActiveCached(s)
    ensures ActiveCached(r)
  {
    var p := s.(position := PositionAt(s, now));
    if Reached(p) then Arrive(p, now)
    else if now - s.active.value.legBegan >= s.cfg.timeoutMs then Trip(p, ACTION_TIMEOUT, now)
    else p
  }

  function Tick(s: Station, now: int): (r: Station)
    requires ActiveCached(s)
    ensures ActiveCached(r)
  {
    var h := Housekeep(s, now);
    if h.active.None? then h else Advance(h, now)
  }

  // ---- keepalive ----

  type KeepaliveBlock = k: seq<Word> | |k| == 6 witness seq(6, _ => 0)

  function Keepalive(s: Station, values: KeepaliveBlock, now: int): (r: (Station, bool))
    requires ActiveCached(s)
    ensures ActiveCached(r.0)
  {
    var t := Tick(s, now);
    var owner, counter := U32At(values, 2), U32At(values, 4);
    if U32At(values, 0) != t.cfg.boot || owner == 0 || owner != t.owner || counter <= t.keepaliveCounter then (t, false)
    else (t.(keepaliveCounter := counter, lastKeepalive := now), true)
  }

  // ---- execute ----

  datatype Screening = Refuse(reason: Reason) | Replay(entry: Entry) | Fresh

  predicate IsArm(v: Block) { ActionOf(v[0]) == Some(ARM) }

  /** The checks made before a block can change anything but the acknowledgement. */
  function Screen(s: Station, v: Block, now: int): Screening {
    if Boot(v) != s.cfg.boot then Refuse(BOOT)
    else if Session(v) == 0 || Sequence(v) == 0 || v[10..] != [0, 0] then Refuse(PARAMETER)
    else if ActionOf(v[0]).None? then Refuse(PARAMETER)
    else if !IsArm(v) && Session(v) != s.owner then Refuse(SESSION)
    else if IsArm(v) && (s.active.Some? || s.owner !in {0, Session(v)}) then Refuse(BUSY)
    else if IsArm(v) && Session(v) in s.retired then Refuse(SESSION)
    else if Session(v) == s.owner && s.cache.Has(Sequence(v)) then
      if s.cache.items[Sequence(v)].fingerprint != v then Refuse(SEQUENCE) else Replay(s.cache.items[Sequence(v)])
    else if Deadline(v) <= now || Deadline(v) > now + DEADLINE_CAP_MS then Refuse(EXPIRED)
    else if !(IsArm(v) && s.owner != Session(v)) && Sequence(v) <= s.highwater then Refuse(SEQUENCE)
    else Fresh
  }

  /** A new owner starts with an empty cache and its own sequence numbers. */
  function Admit(s: Station, v: Block): (r: Station)
    ensures ActiveCached(s) && (IsArm(v) ==> s.active.None?) ==> ActiveCached(r)
  {
    var t := if IsArm(v) && s.owner != Session(v) then
               s.(cache := Empty(), highwater := 0, keepaliveCounter := 0, finished := NOT_FINISHED)
             else s;
    t.(highwater := Sequence(v))
  }

  /** Refusals remembered in the cache; None lets the block take effect. */
  function Interlock(s: Station, v: Block): Option<Reason> {
    if Parameter(v) != 0 && ActionOf(v[0]) !in {Some(MODE), Some(INJECT)} then Some(PARAMETER)
    else if s.active.Some? && ActionOf(v[0]) != Some(STOP) then Some(BUSY)
    else None
  }

  function AtRest(position: real): State {
    if position <= 0.0 then IDLE else if position >= 1.0 then EXTENDED else STOPPED
  }

  function Settle(s: Station, v: Block, now: int): (r: Station)
    requires ActiveCached(s)
    ensures ActiveCached(r)
  {
    Tick(Remember(s, Sequence(v), v, COMPLETED, NO_REASON), now)
  }

  function Refused(s: Station, v: Block, reason: Reason): (r: Station)
    ensures ActiveCached(s) ==> ActiveCached(r)
  {
    Remember(s, Sequence(v), v, REJECTED, reason)
  }

  predicate MotionPermitted(s: Station, action: Action) {
    || (action == EXTEND && s.mode == MANUAL && s.state in {IDLE, STOPPED})
    || (action == RETRACT && s.mode == MANUAL && s.state in {EXTENDED, STOPPED})
    || (action == CYCLE && s.mode != MANUAL && s.state == IDLE)
  }

  function StartMotion(s: Station, v: Block, action: Action, now: int): (r: Station)
    ensures ActiveCached(r)
  {
    var motion := Motion(Sequence(v), now, action == CYCLE, 0, s.position, now);
    var t := s.(active := Some(motion), motionStarts := s.motionStarts + 1, tally := s.tally.(legs := 0));
    Remember(Leg(t, if action == RETRACT then 0 else 1, now), Sequence(v), v, ACCEPTED, NO_REASON)
  }

  function RequestMotion(s: Station, v: Block, action: Action, now: int): (r: Station)
    requires ActiveCached(s)
    ensures ActiveCached(r)
  {
    if s.alarm != NO_REASON then Refused(s, v, FAULT_ACTIVE)
    else if !MotionPermitted(s, action) then Refused(s, v, INTERLOCK)
    else StartMotion(s, v, action, now)
  }

  function Perform(s: Station, v: Block, now: int): (r: Station)
    requires ActiveCached(s) && ActionOf(v[0]).Some?
    ensures ActiveCached(r)
  {
    match ActionOf(v[0]).value
    case ARM => Settle(s.(owner := Session(v), lastKeepalive := now), v, now)
    case STOP =>
      var t := Finish(s, FAILED, STOP_REQUESTED, now);
      Settle(if t.state != State.FAULT then t.(state := AtRest(t.position)) else t, v, now)
    case INJECT =>
      var f := FaultOf(Parameter(v));
      if f.None? then Refused(s, v, PARAMETER)
      else Settle(s.(fault := f.value, faultUntil := now + s.cfg.faultMs), v, now)
    case RESET =>
      if s.fault != NO_FAULT then Refused(s, v, FAULT_ACTIVE)
      else Settle(s.(alarm := NO_REASON, state := AtRest(s.position)), v, now)
    case MODE =>
      var m := ModeOf(Parameter(v));
      if m.None? then Refused(s, v, PARAMETER) else Settle(s.(mode := m.value), v, now)
    case action => RequestMotion(s, v, action, now)
  }

  /** The answer to a block once the tick of its call has been made. */
  function Respond(t: Station, v: Block, now: int): (r: Station)
    requires ActiveCached(t)
    ensures ActiveCached(r)
  {
    match Screen(t, v, now)
    case Refuse(reason) => t.(ack := Ack(Sequence(v), REJECTED, reason))
    case Replay(entry) => t.(ack := Ack(Sequence(v), entry.result, entry.reason))
    case Fresh =>
      var a := Admit(t, v);
      var refusal := Interlock(a, v);
      if refusal.Some? then Refused(a, v, refusal.value) else Perform(a, v, now)
  }

  function Execute(s: Station, v: Block, now: int): (r: Station)
    requires ActiveCached(s)
    ensures ActiveCached(r)
  {
    Respond(Tick(s, now), v, now)
  }

  /** The block gets past every check that refuses it before its action is looked at. */
  predicate Effective(t: Station, v: Block, now: int) {
    Screen(t, v, now).Fresh? && Interlock(Admit(t, v), v).None?
  }

  predicate TakesEffect(s: Station, v: Block, now: int)
    requires ActiveCached(s)
  {
    Effective(Tick(s, now), v, now)
  }

  // ---- status ----

  /** Python's round: the nearest integer, halves to even. */
  function Round(x: real): int {
    var low := x.Floor;
    var rest := x - low as real;
    if rest < 0.5 || (rest == 0.5 && low % 2 == 0) then low else low + 1
  }

  /** What the status registers of a station say at this moment. */
  function Report(s: Station, now: int): Sample {
    var (home, extended) := Limits(s);
    var remaining := s.cfg.leaseMs - (now - s.lastKeepalive);
    Sample(s.state, s.mode, home, extended, s.alarm,
      Low32(s.cycles), Low32(s.lastActionMs), Low32(s.heartbeat), Low32(s.sequence), s.cfg.boot,
      s.owner, Low32(now), if s.active.Some? then s.active.value.sequence else 0,
      s.ack.sequence, s.ack.result, s.ack.reason,
      Round(s.position * 1000.0), s.fault, Low32(s.motionStarts),
      s.finished.sequence, s.finished.result, s.finished.reason, Low32(s.finished.duration),
      if s.owner != 0 && remaining > 0 then remaining else 0)
  }
}
