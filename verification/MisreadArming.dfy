/** A run that ends with a refused arming reported as completed. */
module MisreadArming {
  import opened Wrappers
  import opened Protocol
  import opened Ordered
  import S = StationSpec
  import opened StationHistory
  import opened GatewaySpec
  import G = GatewayRuns
  import L = OrderedLink
  import opened MachineWords

  const TIMING: S.Timing := S.Config(7, 400, 1200, 1000, 2000)

  // ---- the station ----

  /** Nothing moves, nothing is injected, and the lease, if there is one, is alive. */
  predicate Quiet(d: S.Station, now: int) {
    && d.cfg == TIMING && d.active.None? && d.fault == NO_FAULT && d.retired == map[]
    && (d.owner == 0 || now - d.lastKeepalive < 1000)
  }

  lemma QuietTick(d: S.Station, now: int)
    requires Quiet(d, now)
    ensures S.Tick(d, now) == d.(sequence := d.sequence + 1, heartbeat := now)
  {
    assert S.Refresh(d, now) == d.(sequence := d.sequence + 1, heartbeat := now);
  }

  /** Ready to move out: owned by session 1 and at home. */
  predicate Granted(d: S.Station) {
    && Quiet(d, 0) && d.owner == 1 && d.lastKeepalive == 0 && d.highwater == 1 && !d.cache.Has(2) && d.cache.Size() <= 1
    && d.mode == MANUAL && d.state == IDLE && d.alarm == NO_REASON && d.position == 0.0
    && d.ack == S.Ack(1, COMPLETED, NO_REASON) && d.finished == S.NOT_FINISHED
  }

  function Arming(sequence: U32, session: U32, deadline: U32): Block { Command(ARM, sequence, 0, 7, session, deadline) }

  function Extending(): Block { Command(EXTEND, 2, 0, 7, 1, 1000) }

  lemma ArmingAdmitted()
    ensures var s, v := S.Initial(TIMING).(sequence := 2), Arming(1, 1, 1000);
      && S.Respond(s, v, 0) == S.Settle(S.Admit(s, v).(owner := 1, lastKeepalive := 0), v, 0)
      && Sequence(v) == 1 && S.Admit(s, v) == s.(highwater := 1)
  {
    var s, v := S.Initial(TIMING).(sequence := 2), Arming(1, 1, 1000);
    CommandRoundTrip(ARM, 1, 0, 7, 1, 1000);
    assert S.Screen(s, v, 0).Fresh? && S.Interlock(S.Admit(s, v), v).None?;
    hide S.Settle, S.Screen;
    assert S.Perform(S.Admit(s, v), v, 0) == S.Settle(S.Admit(s, v).(owner := 1, lastKeepalive := 0), v, 0);
  }

  lemma ArmingGranted()
    ensures Granted(S.Respond(S.Initial(TIMING).(sequence := 2), Arming(1, 1, 1000), 0))
  {
    var v := Arming(1, 1, 1000);
    ArmingAdmitted();
    hide S.Respond, S.Admit, Arming, Sequence;
    var a := S.Initial(TIMING).(sequence := 2, highwater := 1, owner := 1, lastKeepalive := 0);
    var t := S.Remember(a, 1, v, COMPLETED, NO_REASON);
    assert t == a.(cache := Put(a.cache, 1, S.Entry(v, COMPLETED, NO_REASON)), ack := S.Ack(1, COMPLETED, NO_REASON));
    QuietTick(t, 0);
    hide S.Tick;
  }

  /** On the way out since time 0, as motion 2 of session 1. */
  predicate Underway(d: S.Station) {
    && d.cfg == TIMING && d.active == Some(S.Motion(2, 0, false, 1, 0.0, 0))
    && d.fault == NO_FAULT && d.retired == map[]
    && d.owner == 1 && d.lastKeepalive == 0 && d.cache.Has(2) && d.cache.Size() <= 2
  }

  lemma ExtendingStarts(d: S.Station)
    requires Granted(d)
    ensures Underway(S.Respond(S.Tick(d, 0), Extending(), 0))
  {
    var v := Extending();
    CommandRoundTrip(EXTEND, 2, 0, 7, 1, 1000);
    QuietTick(d, 0);
    var s := S.Tick(d, 0);
    assert S.Screen(s, v, 0).Fresh?;
    var a := S.Admit(s, v);
    assert S.Interlock(a, v).None? && S.MotionPermitted(a, EXTEND);
    assert S.Perform(a, v, 0) == S.StartMotion(a, v, EXTEND, 0);
    hide S.Tick;
  }

  /** Session 1 still holds the lease, and its motion 2 is the last one finished. */
  predicate Held(d: S.Station) {
    && Quiet(d, 400) && d.owner == 1 && d.finished.sequence == 2 && d.finished.result == COMPLETED
  }

  lemma MotionCompletes(d: S.Station)
    requires Underway(d)
    ensures Held(S.Tick(d, 400)) && S.Tick(d, 400).heartbeat == 400
  {
    var h := S.Refresh(d, 400);
    assert h == d.(sequence := d.sequence + 1, heartbeat := 400);
    assert S.Housekeep(d, 400) == h;
    assert S.Fraction(400, 400) == 1.0 && S.PositionAt(h, 400) == 1.0;
    var p := h.(position := 1.0);
    assert S.Advance(h, 400) == S.Arrive(p, 400);
    assert S.Arrive(p, 400) == S.Finish(p.(visitedExtended := true, state := EXTENDED), COMPLETED, NO_REASON, 400);
  }

  /** Another session's arming is refused and nothing else comes of it. */
  lemma ArmingRefused(d: S.Station, sequence: U32)
    requires Held(d) && sequence != 0
    ensures var r := S.Respond(S.Tick(d, 400), Arming(sequence, 4, 1400), 400);
      Held(r) && r.ack == S.Ack(sequence, REJECTED, BUSY)
  {
    CommandRoundTrip(ARM, sequence, 0, 7, 4, 1400);
    QuietTick(d, 400);
    assert S.Screen(S.Tick(d, 400), Arming(sequence, 4, 1400), 400) == S.Refuse(BUSY);
  }

  // ---- the gateway ----

  /** Good and recent data of the device at this clock reading. */
  ghost predicate Fresh(g: Gateway, at: int) {
    && g.failures == 0 && g.quality == GOOD && g.Sampled() && g.lastGood == Some(at as real)
    && g.sample.Some? && g.sample.value.boot == 7 && g.sample.value.uptime == at && g.lastHeartbeatChange.value >= 0.0
  }

  ghost predicate Ready(g: Gateway, at: int) { Fresh(g, at) && G.NonePending(g) }

  /** The one pending command is the last one written. */
  ghost predicate Waiting(g: Gateway, at: int, id: Id, action: Action) {
    && Fresh(g, at) && id in g.rows && g.rows[id] == Noted(action, g.session, g.sequence)
    && forall other :: other in g.rows && other != id ==> !g.rows[other].Pending()
  }

  function Asked(id: Id, action: Action): Payload { Payload(id, Some(action), 0, 1000) }

  function Noted(action: Action, session: U32, sequence: nat): Record {
    Record(Request(action, 0, 1000, "operator"), 7, session, sequence, Sent, Device(NO_REASON), None)
  }

  lemma Submitted(g: Gateway, id: Id, action: Action, at: nat)
    requires Ready(g, at) && at <= 1000 && g.sequence < 10 && (action == ARM || g.armed) && IsId(id) && id !in g.rows
    ensures Submit(g, Asked(id, action), "operator", false, 0.0, at as real) == Written(
      g.(sequence := g.sequence + 1, rows := g.rows[id := Noted(action, g.session, g.sequence + 1)]),
      Command(action, g.sequence + 1, 0, 7, g.session, at + 1000))
  {
    hide Command;
    assert !g.AnyPending();
    assert (0.0 as real).Floor == 0;
  }

  /** Reading the registers back after a write, while the session's lease, if any, is its own. */
  lemma ReadsBack(g: Gateway, id: Id, action: Action, d: S.Station, at: nat, next: U32)
    requires Waiting(g, at, id, action) && at <= 400 && 1 <= g.sequence <= 10 && d.cfg == TIMING
    requires g.armed ==> d.owner == g.session
    requires d.finished.sequence == g.sequence || d.ack.sequence == g.sequence
    ensures var h := Confirm(g, action, Answer(S.Report(d, at)), at as real, next);
      && Fresh(h, at) && h.session == g.session && h.sequence == g.sequence && h.rows.Keys == g.rows.Keys
      && (forall other :: other in g.rows && other != id ==> h.rows[other] == g.rows[other])
      && h.rows[id].request == g.rows[id].request && h.rows[id].boot == 7
      && h.rows[id].session == g.session && h.rows[id].sequence == g.sequence
      && h.rows[id].status ==
         Reported(if d.finished.sequence == g.sequence then d.finished.result else d.ack.result)
      && (action == ARM && d.ack.sequence == g.sequence && d.ack.result == COMPLETED && d.owner == g.session ==>
            h.armed)
      && (!g.armed && d.owner != g.session ==> !h.armed)
  {
    var sample := S.Report(d, at);
    assert sample.boot == 7 && sample.uptime == at && sample.owner == d.owner
      && sample.finishedSequence == d.finished.sequence && sample.finishedResult == d.finished.result
      && sample.ackSequence == d.ack.sequence && sample.ackResult == d.ack.result;
    hide S.Report;
    assert Revoke(g, sample, next) == g && !HeartbeatFrozen(g, sample, at as real);
    L.ConfirmUnfold(g, action, sample, at as real, next);
    hide Confirm, Revoke, HeartbeatFrozen;
  }

  lemma PollsIdle(g: Gateway, d: S.Station, at: nat, next: U32)
    requires g.Sampled() && G.NonePending(g) && !g.armed && at <= 400 && d.cfg == TIMING
    requires g.sample.Some? ==> g.sample.value.boot == 7 && g.lastHeartbeatChange.value >= 0.0
    ensures var h := Poll(g, Answer(S.Report(d, at)), None, at as real, next);
      Ready(h, at) && !h.armed && h.session == g.session && h.sequence == g.sequence && h.rows == g.rows
  {
    var sample := S.Report(d, at);
    assert sample.boot == 7 && sample.uptime == at;
    hide S.Report;
    assert Revoke(g, sample, next) == g && !HeartbeatFrozen(g, sample, at as real);
    L.PollUnfold(g, sample, None, at as real, next);
    hide Poll, Revoke, HeartbeatFrozen;
    assert MatchAll(g.rows, g.session, sample) == g.rows;
  }

  // ---- the run ----

  ghost predicate Runs(s: L.System, steps: seq<L.Step>) {
    && L.Reachable(s, steps, TIMING, 1) && s.gateway.Sampled() && S.ActiveCached(s.history.station)
  }

  lemma Follow(s: L.System, steps: seq<L.Step>, step: L.Step)
    requires Runs(s, steps) && L.Enabled(s, step)
    ensures Runs(L.Apply(s, step), steps + [step])
  {
    hide L.Inv, L.Apply, L.Enabled;
    var more := steps + [step];
    assert more[..|more| - 1] == steps && more[|more| - 1] == step;
    assert L.Reachable(L.Apply(s, step), more, TIMING, 1);
    L.ReachableInv(s, steps, TIMING, 1);
    L.StepKeeps(s, step);
    Runnable(L.Apply(s, step));
  }

  lemma Runnable(s: L.System)
    requires L.Inv(s)
    ensures s.gateway.Sampled() && S.ActiveCached(s.history.station)
  {
  }

  /** Between two exchanges, nothing on the wire. */
  ghost predicate Calm(s: L.System, at: nat, drawn: nat) {
    && s.wire == [] && s.awaiting.None? && s.now == at && Ready(s.gateway, at)
    && forall n :: n in s.sessions ==> n <= drawn
  }

  lemma Sends(s: L.System, steps: seq<L.Step>, id: Id, action: Action, at: nat) returns (r: L.System, more: seq<L.Step>)
    requires Runs(s, steps) && s.wire == [] && s.awaiting.None? && Ready(s.gateway, at)
    requires at <= 1000 && s.gateway.sequence < 10 && (action == ARM || s.gateway.armed)
    requires IsId(id) && id !in s.gateway.rows
    ensures Runs(r, more) && r == s.(gateway := r.gateway, wire := r.wire, awaiting := Some(id))
    ensures Waiting(r.gateway, at, id, action) && r.gateway.rows.Keys == s.gateway.rows.Keys + {id}
    ensures r.gateway.armed == s.gateway.armed
    ensures r.gateway.session == s.gateway.session && r.gateway.sequence == s.gateway.sequence + 1
    ensures r.wire == [Command(action, r.gateway.sequence, 0, 7, r.gateway.session, at + 1000)]
  {
    hide L.Reachable, S.Tick, S.Respond, Confirm, Poll, Fail, Close, Started, Ticked, Responded, S.Keepalive, S.Report;
    var step := L.Write(Asked(id, action), "operator", false, 0.0, at as real);
    Submitted(s.gateway, id, action, at);
    hide Submit, Command;
    Follow(s, steps, step);
    r, more := L.Apply(s, step), steps + [step];
  }

  lemma Delivers(s: L.System, steps: seq<L.Step>, action: Action, sequence: U32, session: U32, deadline: U32)
    returns (r: L.System, more: seq<L.Step>)
    requires Runs(s, steps) && s.wire == [Command(action, sequence, 0, 7, session, deadline)]
    ensures Runs(r, more) && r == s.(history := r.history, wire := [])
    ensures r.history.station == S.Respond(S.Tick(s.history.station, s.now), s.wire[0], s.now)
    ensures var k := Key(7, session, sequence);
      k in r.history.outcomes && r.history.outcomes[k].result == r.history.station.ack.result
  {
    hide L.Reachable;
    CommandRoundTrip(action, sequence, 0, 7, session, deadline);
    Follow(s, steps, L.Deliver(s.now));
    r, more := L.Apply(s, L.Deliver(s.now)), steps + [L.Deliver(s.now)];
    hide S.Respond, S.Tick, Command;
  }

  lemma ReadStep(s: L.System, steps: seq<L.Step>, at: int, now: real, next: U32)
    returns (r: L.System, more: seq<L.Step>)
    requires Runs(s, steps) && L.Enabled(s, L.ReadBack(at, now, next))
    ensures Runs(r, more) && r == s.(history := r.history, gateway := r.gateway, now := at, awaiting := None,
                                     sessions := s.sessions + {next})
    ensures r.history == Ticked(s.history, at)
    ensures r.gateway ==
      Confirm(s.gateway, L.AwaitedAction(s), Answer(S.Report(S.Tick(s.history.station, at), at)), now, next)
  {
    hide L.Reachable, L.Enabled, Confirm, S.Report, S.Tick, L.AwaitedAction, Ended;
    Follow(s, steps, L.ReadBack(at, now, next));
    r, more := L.Apply(s, L.ReadBack(at, now, next)), steps + [L.ReadBack(at, now, next)];
  }

  lemma PollStep(s: L.System, steps: seq<L.Step>, at: int, now: real, next: U32)
    returns (r: L.System, more: seq<L.Step>)
    requires Runs(s, steps) && L.Enabled(s, L.Polls(at, None, now, next))
    ensures Runs(r, more)
    ensures r == s.(history := r.history, gateway := r.gateway, now := at, sessions := s.sessions + {next})
    ensures r.history == Ticked(s.history, at)
    ensures r.gateway == Poll(s.gateway, Answer(S.Report(S.Tick(s.history.station, at), at)), None, now, next)
  {
    hide L.Reachable, L.Enabled, Poll, S.Report, S.Tick, Ended;
    Follow(s, steps, L.Polls(at, None, now, next));
    r, more := L.Apply(s, L.Polls(at, None, now, next)), steps + [L.Polls(at, None, now, next)];
  }

  lemma FailStep(s: L.System, steps: seq<L.Step>, reason: string, next: U32)
    returns (r: L.System, more: seq<L.Step>)
    requires Runs(s, steps) && L.Enabled(s, L.WriteFails(reason, next))
    ensures Runs(r, more)
    ensures r == s.(gateway := Fail(s.gateway, reason, next), awaiting := None, sessions := s.sessions + {next})
  {
    hide L.Reachable, L.Enabled, Fail;
    Follow(s, steps, L.WriteFails(reason, next));
    r, more := L.Apply(s, L.WriteFails(reason, next)), steps + [L.WriteFails(reason, next)];
  }

  lemma TickStep(s: L.System, steps: seq<L.Step>, at: int) returns (r: L.System, more: seq<L.Step>)
    requires Runs(s, steps) && s.now <= at
    ensures Runs(r, more) && r == s.(history := Ticked(s.history, at), now := at)
  {
    hide L.Reachable, Ticked;
    Follow(s, steps, L.Ticks(at));
    r, more := L.Apply(s, L.Ticks(at)), steps + [L.Ticks(at)];
  }

  /** A read-back whose sample carries the awaited command's number. */
  lemma Reads(s: L.System, steps: seq<L.Step>, id: Id, action: Action, at: nat, next: U32)
    returns (r: L.System, more: seq<L.Step>)
    requires Runs(s, steps) && s.wire == [] && s.awaiting == Some(id) && s.now == at <= 400 && L.Unused(s, next)
    requires Waiting(s.gateway, at, id, action) && 1 <= s.gateway.sequence <= 10 && Quiet(s.history.station, at)
    requires Key(7, s.gateway.session, s.gateway.sequence) in s.history.outcomes
    requires s.gateway.armed ==> s.history.station.owner == s.gateway.session
    requires s.history.station.finished.sequence == s.gateway.sequence
      || s.history.station.ack.sequence == s.gateway.sequence
    ensures Runs(r, more) && r.wire == [] && r.awaiting.None? && r.now == at && r.sessions == s.sessions + {next}
    ensures Fresh(r.gateway, at) && r.gateway.rows.Keys == s.gateway.rows.Keys
    ensures r.gateway.session == s.gateway.session && r.gateway.sequence == s.gateway.sequence
    ensures forall other :: other in r.gateway.rows && other != id ==> r.gateway.rows[other] == s.gateway.rows[other]
    ensures var d, n := s.history.station, s.gateway.sequence;
      && r.history == s.history.(station := d.(sequence := d.sequence + 1, heartbeat := at))
      && L.RecordKey(r.gateway.rows[id]) == Key(7, s.gateway.session, n) && r.gateway.rows[id].request.action == action
      && r.gateway.rows[id].status == Reported(if d.finished.sequence == n then d.finished.result else d.ack.result)
      && (action == ARM && d.ack.sequence == n && d.ack.result == COMPLETED && d.owner == s.gateway.session ==>
            r.gateway.armed)
      && (!s.gateway.armed && d.owner != s.gateway.session ==> !r.gateway.armed)
  {
    hide L.Reachable, S.Tick, Confirm, S.Report, L.Apply;
    QuietTick(s.history.station, at);
    ReadsBack(s.gateway, id, action, S.Tick(s.history.station, at), at, next);
    assert L.AwaitedAction(s) == action;
    assert L.RecordKey(s.gateway.rows[id]) == Key(7, s.gateway.session, s.gateway.sequence);
    assert L.Enabled(s, L.ReadBack(at, at as real, next));
    hide L.Enabled, L.AwaitedAction;
    r, more := ReadStep(s, steps, at, at as real, next);
  }

  lemma Polled() returns (s: L.System, steps: seq<L.Step>)
    ensures Runs(s, steps) && Calm(s, 0, 2) && !s.gateway.armed && s.gateway.session == 1 && s.gateway.sequence == 0
    ensures s.history.station == S.Initial(TIMING).(sequence := 1) && s.gateway.rows == map[]
  {
    var s0 := L.InitialSystem(TIMING, 1);
    assert s0.gateway.rows == map[];
    assert Runs(s0, []) && L.Enabled(s0, L.Polls(0, None, 0.0, 2));
    QuietTick(S.Initial(TIMING), 0);
    hide Runs, L.Apply, L.Enabled, S.Tick, Poll;
    PollsIdle(s0.gateway, S.Tick(S.Initial(TIMING), 0), 0, 2);
    s, steps := PollStep(s0, [], 0, 0.0, 2);
  }

  /** Session 1 polls once and arms. */
  lemma Arms() returns (s: L.System, steps: seq<L.Step>)
    ensures Runs(s, steps) && Calm(s, 0, 3) && s.gateway.armed && s.gateway.session == 1 && s.gateway.sequence == 1
    ensures Granted(s.history.station) && s.gateway.rows.Keys == {"a"}
  {
    var s0, steps0 := Polled();
    hide Runs, L.Apply, L.Enabled, S.Tick, S.Respond, Waiting, Command, L.RecordKey;
    var s1, steps1 := Sends(s0, steps0, "a", ARM, 0);
    var s2, steps2 := Delivers(s1, steps1, ARM, 1, 1, 1000);
    QuietTick(s0.history.station, 0);
    ArmingGranted();
    s, steps := Reads(s2, steps2, "a", ARM, 0, 3);
    assert forall id :: id in s.gateway.rows ==> id in {"a"};
  }

  /** It starts a motion, which completes; the read-back of the command has failed and drawn session 4. */
  lemma Moves() returns (s: L.System, steps: seq<L.Step>)
    ensures Runs(s, steps) && s.wire == [] && s.awaiting.None? && s.now == 400
    ensures forall n :: n in s.sessions ==> n <= 4
    ensures Held(s.history.station) && s.gateway.session == 4 && s.gateway.sequence == 0 && !s.gateway.armed
    ensures G.NonePending(s.gateway) && s.gateway.rows.Keys == {"a", "b"}
    ensures s.gateway.sample.Some? && s.gateway.sample.value.boot == 7 && s.gateway.lastHeartbeatChange.value >= 0.0
  {
    var s0, steps0 := Arms();
    hide Runs, L.Apply, S.Tick, S.Respond, Command, Fail;
    var s1, steps1 := Sends(s0, steps0, "b", EXTEND, 0);
    var s2, steps2 := Delivers(s1, steps1, EXTEND, 2, 1, 1000);
    ExtendingStarts(s0.history.station);
    MotionCompletes(s2.history.station);
    var s3, steps3 := TickStep(s2, steps2, 400);
    assert L.Enabled(s3, L.WriteFails("LINK", 4));
    hide L.Enabled;
    s, steps := FailStep(s3, steps3, "LINK", 4);
    FailsDry(s3.gateway, "LINK", 4);
  }

  lemma FailsDry(g: Gateway, reason: string, next: U32)
    requires g.failures == 0
    ensures var h := Fail(g, reason, next);
      && G.NonePending(h) && h.session == next && h.sequence == 0 && !h.armed && h.rows.Keys == g.rows.Keys
      && h.sample == g.sample && h.lastHeartbeatChange == g.lastHeartbeatChange && h.lastGood == g.lastGood
  {
  }

  /** The next poll is good again. */
  lemma Recovers() returns (s: L.System, steps: seq<L.Step>)
    ensures Runs(s, steps) && Calm(s, 400, 5) && Held(s.history.station)
    ensures s.gateway.session == 4 && s.gateway.sequence == 0 && !s.gateway.armed && s.gateway.rows.Keys == {"a", "b"}
  {
    var s0, steps0 := Moves();
    assert L.Enabled(s0, L.Polls(400, None, 400.0, 5));
    hide L.Enabled, L.Apply, S.Tick, Poll, L.Reachable, L.RecordKey;
    QuietTick(s0.history.station, 400);
    PollsIdle(s0.gateway, S.Tick(s0.history.station, 400), 400, 5);
    s, steps := PollStep(s0, steps0, 400, 400.0, 5);
  }

  /** An arming of session 4 while session 1 still holds the lease. */
  lemma IsRefused(s: L.System, steps: seq<L.Step>, id: Id, next: U32) returns (r: L.System, more: seq<L.Step>)
    requires Runs(s, steps) && 0 < next && Calm(s, 400, next - 1) && Held(s.history.station)
    requires s.gateway.session == 4 && s.gateway.sequence <= 1 && !s.gateway.armed && IsId(id) && id !in s.gateway.rows
    ensures Runs(r, more) && Calm(r, 400, next) && Held(r.history.station) && !r.gateway.armed
    ensures r.gateway.session == 4 && r.gateway.sequence == s.gateway.sequence + 1
    ensures r.gateway.rows.Keys == s.gateway.rows.Keys + {id}
    ensures var row := r.gateway.rows[id];
      && row.request.action == ARM
      && row.status == Reported(if r.gateway.sequence == 2 then COMPLETED else REJECTED)
      && L.RecordKey(row) in r.history.outcomes && r.history.outcomes[L.RecordKey(row)].result == REJECTED
  {
    hide Runs, L.Apply, L.Enabled, S.Tick, S.Respond, Fresh, Command;
    var s1, steps1 := Sends(s, steps, id, ARM, 400);
    var s2, steps2 := Delivers(s1, steps1, ARM, s1.gateway.sequence, 4, 1400);
    ArmingRefused(s.history.station, s1.gateway.sequence);
    r, more := Reads(s2, steps2, id, ARM, 400, next);
  }

  predicate Misread(s: L.System, id: Id) {
    && id in s.gateway.rows
    && var r := s.gateway.rows[id];
      && r.request.action == ARM && r.status == Reported(COMPLETED)
      && L.RecordKey(r) in s.history.outcomes && s.history.outcomes[L.RecordKey(r)].result == REJECTED
  }

  /** A run in which no block is lost and after which a record says that an arming completed, while the
      station refused it: the session before had finished its second motion, and this is the second try to arm. */
  lemma ArmingMisread()
    ensures exists s, steps, id :: L.Reachable(s, steps, TIMING, 1) && Misread(s, id)
  {
    hide L.Reachable, L.Enabled, L.Apply, L.RecordKey, Held, Ready;
    var s1, steps1 := Recovers();
    var s2, steps2 := IsRefused(s1, steps1, "c", 6);
    var s3, steps3 := IsRefused(s2, steps2, "d", 7);
    assert L.Reachable(s3, steps3, TIMING, 1) && Misread(s3, "d");
  }
}
