/** The station object: its calls update fields in place, and each is tied to its specification. */
module StationObject {
  import opened Wrappers
  import opened Protocol
  import opened Ordered
  import Spec = StationSpec
  import opened StationSpec
  import opened StatusRegisters
  import opened MachineWords

  class Station {
    const cfg: Timing
    var state: State
    var mode: Mode
    var alarm: Reason
    var position: real
    var cycles: nat
    var motionStarts: nat
    var owner: U32
    var lastKeepalive: int
    var keepaliveCounter: U32
    var sequence: nat
    var highwater: U32
    var heartbeat: int
    var ack: Ack
    var finished: Finished
    var active: Option<Motion>
    var visitedExtended: bool
    var fault: Fault
    var faultUntil: int
    var lastActionMs: int
    var cache: OrderedDict<U32, Entry>
    var retired: map<U32, int>
    ghost var tally: Tally

    /** The fields as one value. */
    ghost function Value(): Spec.Station
      reads this
    {
      Spec.Station.Station(cfg, state, mode, alarm, position, cycles, motionStarts, owner, lastKeepalive,
        keepaliveCounter, sequence, highwater, heartbeat, ack, finished, active, visitedExtended, fault, faultUntil,
        lastActionMs, cache, retired, tally)
    }

    constructor (cfg: Timing)
      ensures this.cfg == cfg && Value() == Initial(cfg)
    {
      this.cfg := cfg;
      state, mode, alarm := IDLE, MANUAL, NO_REASON;
      position, cycles, motionStarts := 0.0, 0, 0;
      owner, lastKeepalive, keepaliveCounter := 0, 0, 0;
      sequence, highwater, heartbeat := 0, 0, 0;
      ack := NO_ACK;
      finished := NOT_FINISHED;
      active := None;
      visitedExtended := false;
      fault, faultUntil := NO_FAULT, 0;
      lastActionMs := 0;
      cache := Empty();
      retired := map[];
      tally := Tally(0, 0, 0, 0);
    }

    method Remember(sequence: U32, fingerprint: Block, result: Result, reason: Reason)
      modifies `cache, `ack
      ensures Value() == Spec.Remember(old(Value()), sequence, fingerprint, result, reason)
    {
      hide Evict, Put, WellFormed;
      cache := Shrink(Put(cache, sequence, Entry(fingerprint, result, reason)));
      ack := Ack(sequence, result, reason);
    }

    /** Drop the oldest entries over the limit, passing over the active motion's. */
    method Shrink(full: OrderedDict<U32, Entry>) returns (kept: OrderedDict<U32, Entry>)
      ensures kept == Evict(full, active)
    {
      kept := full;
      while kept.Size() > CACHE_LIMIT
        invariant Evict(kept, active) == Evict(full, active)
        decreases kept.Size()
      {
        var i := 0;
        while active.Some? && kept.order[i] == active.value.sequence
          invariant 0 <= i <= 1 && (i == 1 ==> active.Some? && kept.order[0] == active.value.sequence)
          decreases 1 - i
        {
          assert kept.order[0] != kept.order[1];
          i := i + 1;
        }
        assert kept.order[i] == Victim(kept.order, active) && kept.order[i] in kept.order;
        kept := Remove(kept, kept.order[i]);
      }
    }

    method MarkFinished(result: Result, reason: Reason, now: int)
      requires active.Some?
      modifies this
      ensures var duration := if now - old(active.value.began) > 0 then now - old(active.value.began) else 0;
        Value() == old(Value()).(lastActionMs := duration,
                                 finished := Finished(old(active.value.sequence), result, reason, duration))
    {
      lastActionMs := if now - active.value.began > 0 then now - active.value.began else 0;
      finished := Finished(active.value.sequence, result, reason, lastActionMs);
    }

    method Finish(result: Result, reason: Reason, now: int)
      requires ActiveCached(Value())
      modifies this
      ensures Value() == Spec.Finish(old(Value()), result, reason, now)
    {
      hide Spec.Remember;
      if active.None? { return; }
      MarkFinished(result, reason, now);
      Remember(active.value.sequence, cache.items[active.value.sequence].fingerprint, result, reason);
      Clear(result, reason);
    }

    method Clear(ghost result: Result, ghost reason: Reason)
      modifies `active, `tally
      ensures Value() == old(Value()).(
        active := None,
        tally := Tally(old(tally).ended + 1, old(tally).completed + (if result == COMPLETED then 1 else 0),
                       old(tally).timedOut + (if reason == ACTION_TIMEOUT then 1 else 0), 0))
    {
      active := None;
      tally := Tally(tally.ended + 1, tally.completed + (if result == COMPLETED then 1 else 0),
                     tally.timedOut + (if reason == ACTION_TIMEOUT then 1 else 0), 0);
    }

    method Trip(reason: Reason, now: int)
      requires ActiveCached(Value())
      modifies this
      ensures Value() == Spec.Trip(old(Value()), reason, now)
    {
      Finish(FAILED, reason, now);
      state, alarm := State.FAULT, reason;
    }

    method Leg(target: Target, now: int)
      requires active.Some?
      modifies this
      ensures Value() == Spec.Leg(old(Value()), target, now)
    {
      active := Some(active.value.(target := target, start := position, legBegan := now));
      state := if target == 1 then EXTENDING else RETRACTING;
      tally := tally.(legs := tally.legs + 1);
    }

    method Limits() returns (home: bool, extended: bool)
      ensures (home, extended) == Spec.Limits(Value())
    {
      if fault == BOTH_LIMITS { return true, true; }
      home, extended := position <= 0.0, position >= 1.0;
      if fault == TARGET_LIMIT_MISSING && active.Some? {
        if state == EXTENDING {
          extended := false;
        } else {
          home := false;
        }
      }
    }

    method Refresh(now: int)
      modifies this
      ensures Value() == Spec.Refresh(old(Value()), now)
    {
      sequence := sequence + 1;
      Forget(now);
      Beat(now);
    }

    method Forget(now: int)
      modifies `retired
      ensures Value() == old(Value()).(
        retired := map key | key in old(retired) && old(retired)[key] > now :: old(retired)[key])
    {
      retired := map key | key in retired && retired[key] > now :: retired[key];
    }

    /** Communication faults pass by themselves; a frozen heartbeat stops beating. */
    method Beat(now: int)
      modifies `fault, `heartbeat
      ensures fault ==
        if old(fault) in {COMM_SILENT, FROZEN_HEARTBEAT} && now >= faultUntil then NO_FAULT else old(fault)
      ensures Value() ==
        old(Value()).(fault := fault, heartbeat := if fault != FROZEN_HEARTBEAT then now else old(heartbeat))
    {
      if (fault == COMM_SILENT || fault == FROZEN_HEARTBEAT) && now >= faultUntil { fault := NO_FAULT; }
      if fault != FROZEN_HEARTBEAT { heartbeat := now; }
    }

    method Lapse(now: int)
      requires ActiveCached(Value())
      modifies this
      ensures Value() == Spec.Lapse(old(Value()), now)
    {
      hide Spec.Trip;
      if owner != 0 && now - lastKeepalive >= cfg.leaseMs {
        retired := retired[owner := now + RETIREMENT_MS];
        if active.Some? { Trip(COMM_TIMEOUT, now); }
        owner := 0;
      }
    }

    method CountCycle()
      modifies `cycles, `visitedExtended
      ensures Value() == old(Value()).(cycles := old(cycles) + 1, visitedExtended := false)
    {
      cycles := cycles + 1;
      visitedExtended := false;
    }

    /** The leg has reached its end of the stroke. */
    method Arrive(now: int)
      requires ActiveCached(Value()) && active.Some?
      modifies this
      ensures Value() == Spec.Arrive(old(Value()), now)
    {
      hide Spec.Finish;
      if active.value.target == 1 {
        visitedExtended := true;
        if active.value.cycle {
          Leg(0, now);
          return;
        }
        state := EXTENDED;
      } else {
        state := IDLE;
        if visitedExtended { CountCycle(); }
      }
      Finish(COMPLETED, NO_REASON, now);
    }

    method Advance(now: int)
      requires ActiveCached(Value()) && active.Some?
      modifies this
      ensures Value() == Spec.Advance(old(Value()), now)
    {
      hide Spec.Trip, Spec.Arrive, PositionAt, LegDuration;
      var target := active.value.target;
      Move(now);
      var home, extended := Limits();
      if (if target == 1 then extended else home) {
        Arrive(now);
      } else if now - active.value.legBegan >= cfg.timeoutMs {
        Trip(ACTION_TIMEOUT, now);
      }
    }

    /** The position is interpolated between the start of the leg and its target. */
    method Move(now: int)
      requires active.Some?
      modifies `position
      ensures Value() == old(Value()).(position := PositionAt(old(Value()), now))
    {
      var elapsed := now - active.value.legBegan;
      var duration := cfg.moveMs * (if fault == SLOW_MOTION then 10 else 1);
      var start, target := active.value.start, active.value.target;
      assert duration == LegDuration(Value());
      var fraction := if elapsed >= duration then 1.0 else elapsed as real / duration as real;
      position := start + (target as real - start) * fraction;
    }

    method Tick(now: int)
      requires ActiveCached(Value())
      modifies this
      ensures Value() == Spec.Tick(old(Value()), now)
    {
      hide Spec.Refresh, Spec.Lapse, Spec.Trip, Spec.Advance;
      Refresh(now);
      Lapse(now);
      if fault == BOTH_LIMITS { Trip(LIMIT_CONFLICT, now); }
      if active.Some? { Advance(now); }
    }

    method Keepalive(values: KeepaliveBlock, now: int) returns (accepted: bool)
      requires ActiveCached(Value())
      modifies this
      ensures (Value(), accepted) == Spec.Keepalive(old(Value()), values, now)
    {
      Tick(now);
      var boot, session, counter := U32At(values, 0), U32At(values, 2), U32At(values, 4);
      if boot != cfg.boot || session == 0 || session != owner || counter <= keepaliveCounter { return false; }
      keepaliveCounter, lastKeepalive := counter, now;
      return true;
    }

    /** A refusal; remembered ones also answer a repetition of the block. */
    method Refuse(v: Block, reason: Reason, remember: bool)
      modifies this
      ensures Value() ==
        if remember then Refused(old(Value()), v, reason) else old(Value()).(ack := Ack(Sequence(v), REJECTED, reason))
    {
      ack := Ack(Sequence(v), REJECTED, reason);
      if remember { Remember(Sequence(v), v, REJECTED, reason); }
    }

    /** The checks made before a block can change anything but the acknowledgement. */
    method Screen(v: Block, now: int) returns (outcome: Screening)
      ensures outcome == Spec.Screen(Value(), v, now)
      ensures outcome.Fresh? ==> ActionOf(v[0]).Some?
    {
      var action, session, deadline := ActionOf(v[0]), Session(v), Deadline(v);
      if Boot(v) != cfg.boot { return Screening.Refuse(BOOT); }
      if session == 0 || Sequence(v) == 0 || v[10..] != [0, 0] { return Screening.Refuse(PARAMETER); }
      if action.None? { return Screening.Refuse(PARAMETER); }
      if action.value != ARM && session != owner { return Screening.Refuse(SESSION); }
      if action.value == ARM && (active.Some? || (owner != 0 && owner != session)) { return Screening.Refuse(BUSY); }
      if action.value == ARM && session in retired { return Screening.Refuse(SESSION); }
      if session == owner && cache.Has(Sequence(v)) {
        var previous := cache.items[Sequence(v)];
        return if previous.fingerprint != v then Screening.Refuse(SEQUENCE) else Screening.Replay(previous);
      }
      if deadline <= now || deadline > now + DEADLINE_CAP_MS { return Screening.Refuse(EXPIRED); }
      if !(action.value == ARM && owner != session) && Sequence(v) <= highwater { return Screening.Refuse(SEQUENCE); }
      return Screening.Fresh;
    }

    /** A new owner starts with an empty cache and its own sequence numbers. */
    method Admit(v: Block)
      modifies this
      ensures Value() == Spec.Admit(old(Value()), v)
    {
      hide ActionOf, Sequence, Session;
      if ActionOf(v[0]) == Some(ARM) && owner != Session(v) { StartOver(); }
      highwater := Sequence(v);
    }

    method StartOver()
      modifies `cache, `keepaliveCounter, `finished
      ensures Value() == old(Value()).(cache := Empty(), keepaliveCounter := 0, finished := NOT_FINISHED)
    {
      cache := Empty();
      keepaliveCounter := 0;
      finished := NOT_FINISHED;
    }

    method Execute(v: Block, now: int) returns (answer: Ack)
      requires ActiveCached(Value())
      modifies this
      ensures Value() == Spec.Execute(old(Value()), v, now) && answer == ack
    {
      hide Spec.Tick, Spec.Screen, Spec.Admit, Spec.Perform, Spec.Refused;
      Tick(now);
      var outcome := Screen(v, now);
      match outcome {
      case Refuse(reason) => Refuse(v, reason, false);
      case Replay(previous) => ack := Ack(Sequence(v), previous.result, previous.reason);
      case Fresh =>
        Admit(v);
        var action := ActionOf(v[0]).value;
        if Parameter(v) != 0 && action != MODE && action != INJECT {
          Refuse(v, PARAMETER, true);
        } else if active.Some? && action != STOP {
          Refuse(v, BUSY, true);
        } else {
          Perform(v, action, now);
        }
      }
      answer := ack;
    }

    method StartMotion(v: Block, action: Action, now: int)
      modifies this
      ensures Value() == Spec.StartMotion(old(Value()), v, action, now)
    {
      hide Spec.Remember, Spec.Leg, Sequence;
      Begin(Motion(Sequence(v), now, action == CYCLE, 0, position, now));
      Leg(if action == RETRACT then 0 else 1, now);
      Remember(Sequence(v), v, ACCEPTED, NO_REASON);
    }

    method Begin(motion: Motion)
      modifies `active, `motionStarts, `tally
      ensures Value() == old(Value()).(active := Some(motion), motionStarts := old(motionStarts) + 1,
                                       tally := old(tally).(legs := 0))
    {
      active := Some(motion);
      motionStarts := motionStarts + 1;
      tally := tally.(legs := 0);
    }

    method RequestMotion(v: Block, action: Action, now: int)
      requires ActiveCached(Value())
      modifies this
      ensures Value() == Spec.RequestMotion(old(Value()), v, action, now)
    {
      hide Spec.Refused, Spec.StartMotion;
      if alarm != NO_REASON { Refuse(v, FAULT_ACTIVE, true); return; }
      var manual := mode == MANUAL;
      var permitted :=
        || (action == EXTEND && manual && (state == IDLE || state == STOPPED))
        || (action == RETRACT && manual && (state == EXTENDED || state == STOPPED))
        || (action == CYCLE && !manual && state == IDLE);
      if permitted { StartMotion(v, action, now); } else { Refuse(v, INTERLOCK, true); }
    }

    method Grant(session: U32, now: int)
      modifies `owner, `lastKeepalive
      ensures Value() == old(Value()).(owner := session, lastKeepalive := now)
    {
      owner, lastKeepalive := session, now;
    }

    method Inject(injected: Fault, now: int)
      modifies `fault, `faultUntil
      ensures Value() == old(Value()).(fault := injected, faultUntil := now + cfg.faultMs)
    {
      fault, faultUntil := injected, now + cfg.faultMs;
    }

    method ClearAlarm()
      modifies `alarm, `state
      ensures Value() == old(Value()).(alarm := NO_REASON, state := AtRest(position))
    {
      alarm, state := NO_REASON, AtRest(position);
    }

    method Perform(v: Block, action: Action, now: int)
      requires ActiveCached(Value()) && ActionOf(v[0]) == Some(action)
      modifies this
      ensures Value() == Spec.Perform(old(Value()), v, now)
    {
      hide Spec.Settle, Spec.Refused, Spec.Finish, Spec.RequestMotion, Session, Parameter, AtRest, FaultOf, ModeOf;
      match action {
      case ARM => Grant(Session(v), now);
      case STOP =>
        Finish(FAILED, STOP_REQUESTED, now);
        if state != State.FAULT { state := AtRest(position); }
      case INJECT =>
        var injected := FaultOf(Parameter(v));
        if injected.None? { Refuse(v, PARAMETER, true); return; }
        Inject(injected.value, now);
      case RESET =>
        if fault != NO_FAULT { Refuse(v, FAULT_ACTIVE, true); return; }
        ClearAlarm();
      case MODE =>
        var requested := ModeOf(Parameter(v));
        if requested.None? { Refuse(v, PARAMETER, true); return; }
        mode := requested.value;
      case EXTEND | RETRACT | CYCLE =>
        RequestMotion(v, action, now);
        return;
      }
      Settle(v, now);
    }

    method Settle(v: Block, now: int)
      requires ActiveCached(Value())
      modifies this
      ensures Value() == Spec.Settle(old(Value()), v, now)
    {
      hide Spec.Tick;
      Remember(Sequence(v), v, COMPLETED, NO_REASON);
      Tick(now);
    }

    /** The forty registers, after a tick. */
    method Registers(now: int) returns (registers: seq<int>)
      requires ActiveCached(Value())
      modifies this
      ensures Value() == Spec.Tick(old(Value()), now) && registers == Encode(Report(Value(), now))
    {
      hide Spec.Tick, Encode;
      Tick(now);
      var home, extended := Limits();
      var remaining := cfg.leaseMs - (now - lastKeepalive);
      registers := Encode(Sample(state, mode, home, extended, alarm,
        Low32(cycles), Low32(lastActionMs), Low32(heartbeat), Low32(sequence), cfg.boot,
        owner, Low32(now), if active.Some? then active.value.sequence else 0, ack.sequence, ack.result, ack.reason,
        Round(position * 1000.0), fault, Low32(motionStarts),
        finished.sequence, finished.result, finished.reason, Low32(finished.duration),
        if owner != 0 && remaining > 0 then remaining else 0));
    }
  }
}
