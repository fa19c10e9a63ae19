/** The one kind of record that can end up wrong, an arming, and exactly when it does. */
module ArmReport {
  import opened Wrappers
  import opened Protocol
  import opened Ordered
  import S = StationSpec
  import I = StationInvariant
  import opened StationHistory
  import opened GatewaySpec
  import G = GatewayRuns
  import L = OrderedLink
  import opened MachineWords

  /** A reported arming has been executed, and what is reported is its outcome unless the record was settled
      from the finished motion, which gives it a duration; then the arming was really refused. */
  ghost predicate ArmTold(r: Record, outcomes: map<Key, Outcome>) {
    r.request.action == ARM && r.status in {Reported(COMPLETED), Reported(FAILED), Reported(REJECTED)} ==>
      var k := L.RecordKey(r);
      && k in outcomes && outcomes[k].action == Some(ARM) && outcomes[k].result in {COMPLETED, REJECTED}
      && ((r.status == Reported(outcomes[k].result) && r.reason == Device(outcomes[k].reason)) <==> r.duration.None?)
      && (r.duration.Some? ==> outcomes[k].result == REJECTED)
  }

  /** Once an arming has been executed, the acknowledgement speaks of its session or of the finished motion. */
  ghost predicate ArmExecuted(s: L.System, r: Record) {
    var k, last := L.RecordKey(r), s.history.last;
    && k in s.history.outcomes
    && s.history.outcomes[k].action == Some(ARM) && s.history.outcomes[k].result in {COMPLETED, REJECTED}
    && (s.history.outcomes[k].result == COMPLETED ==> s.history.space == r.session)
    && last.Some?
    && ((last.value.boot == r.boot && last.value.session == r.session)
        || s.history.station.finished.sequence == last.value.sequence)
    && forall i :: 0 <= i < |s.wire| ==> Boot(s.wire[i]) == r.boot && Session(s.wire[i]) == r.session
  }

  ghost predicate ArmWaits(s: L.System, r: Record) {
    r.request.action == ARM && r.Pending() ==>
      && r.duration.None?
      && (r.boot == s.history.station.cfg.boot && L.RecordKey(r) in s.history.outcomes ==> ArmExecuted(s, r))
  }

  ghost predicate ArmInv(s: L.System) {
    forall id :: id in s.gateway.rows ==>
      ArmTold(s.gateway.rows[id], s.history.outcomes) && ArmWaits(s, s.gateway.rows[id])
  }

  // ---- steps of the station ----

  lemma ToldGrows(r: Record, a: map<Key, Outcome>, b: map<Key, Outcome>)
    requires ArmTold(r, a) && Grown(a, b)
    ensures ArmTold(r, b)
  {
  }

  /** The acknowledgement is left alone by a tick, or taken over by the motion that ends. */
  ghost predicate Moved(h: History, r: History) {
    && Grown(h.outcomes, r.outcomes) && r.outcomes.Keys == h.outcomes.Keys && r.space == h.space
    && r.station.cfg == h.station.cfg
    && (|| (r.station.finished == h.station.finished && r.last == h.last)
        || (r.last.Some? && r.station.finished.sequence == r.last.value.sequence))
  }

  lemma TickMoves(h: History, time: int)
    requires S.ActiveCached(h.station) && Truthful(h) && (h.station.active.Some? ==> h.station.owner != 0)
    ensures Moved(h, Ticked(h, time))
  {
    TickedGrows(h, time);
    TickTells(h.station, time);
    hide S.Tick, Ended, Grown, Truthful;
  }

  lemma MovedArms(s: L.System, r: L.System)
    requires ArmInv(s) && r == s.(history := r.history, now := r.now) && Moved(s.history, r.history)
    ensures ArmInv(r)
  {
    hide KeyOf, L.RecordKey, Boot, Session;
    assert forall k :: k in r.history.outcomes ==> k in s.history.outcomes;
    forall id | id in r.gateway.rows
      ensures ArmTold(r.gateway.rows[id], r.history.outcomes) && ArmWaits(r, r.gateway.rows[id])
    {
      ToldGrows(r.gateway.rows[id], s.history.outcomes, r.history.outcomes);
    }
  }

  lemma TickArms(s: L.System, time: int)
    requires L.Inv(s) && ArmInv(s) && s.now <= time
    ensures ArmInv(s.(history := Ticked(s.history, time), now := time))
  {
    hide ArmInv, Ticked, Truthful;
    L.LaterConsistent(s, time);
    TickMoves(s.history, time);
    hide L.Inv, Moved;
    MovedArms(s, s.(history := Ticked(s.history, time), now := time));
  }

  /** The first block on the wire is executed, right after a tick of the station. */
  lemma ExecuteArms(s: L.System)
    requires L.Inv(s) && I.Inv(s.history.station, s.now) && s.wire != [] && ArmInv(s)
    ensures ArmInv(s.(history := Responded(s.history, s.wire[0], s.now), wire := s.wire[1..]))
  {
    var v := s.wire[0];
    var r := s.(history := Responded(s.history, v, s.now), wire := s.wire[1..]);
    assert KeyOf(v) !in s.history.outcomes && Sequence(v) != 0;
    RespondedGrows(s.history, v, s.now);
    RespondedIsTruthful(s.history, v, s.now);
    L.ExecuteKeeps(s);
    forall id | id in r.gateway.rows
      ensures ArmTold(r.gateway.rows[id], r.history.outcomes) && ArmWaits(r, r.gateway.rows[id])
    {
      var row := r.gateway.rows[id];
      assert ArmTold(row, s.history.outcomes) && ArmWaits(s, row);
      ToldGrows(row, s.history.outcomes, r.history.outcomes);
      if row.request.action == ARM && row.Pending() && row.boot == r.history.station.cfg.boot {
        ExecuteOne(s, r, id);
      }
    }
  }

  lemma ExecuteOne(s: L.System, r: L.System, id: Id)
    requires L.PendingExecuted(s) && L.AwaitedLast(r) && r.gateway == s.gateway && id in s.gateway.rows
    requires r.awaiting == s.awaiting && s.wire != [] && r.wire == s.wire[1..]
    requires var row := s.gateway.rows[id];
      && row.request.action == ARM && row.Pending() && ArmWaits(s, row)
      && row.boot == r.history.station.cfg.boot == s.history.station.cfg.boot
    requires var v := s.wire[0];
      && r.history.last == Some(KeyOf(v)) && Grown(s.history.outcomes, r.history.outcomes)
      && r.history.outcomes.Keys == s.history.outcomes.Keys + {KeyOf(v)}
      && (r.history.space == s.history.space || r.history.space == Session(v))
    ensures ArmWaits(r, s.gateway.rows[id])
  {
    var row := s.gateway.rows[id];
    hide Boot, Session, Sequence, ActionOf;
    if L.RecordKey(row) in s.history.outcomes {
      assert ArmExecuted(s, row);
    } else if L.RecordKey(row) in r.history.outcomes {
      assert L.SampledBoot(r) && s.awaiting == Some(id);
    }
  }

  lemma KeepaliveArms(s: L.System, values: S.KeepaliveBlock, time: int)
    requires S.ActiveCached(s.history.station)
    requires L.Inv(s) && ArmInv(s) && s.now <= time
    ensures ArmInv(L.Apply(s, L.KeepaliveArrives(values, time)))
  {
    hide L.Inv, ArmInv, S.Tick, Ended, Grown;
    TickArms(s, time);
    var t := s.(history := Ticked(s.history, time), now := time);
    var station := S.Keepalive(s.history.station, values, time).0;
    assert Moved(t.history, t.history.(station := station)) by { Unmoved(t.history.outcomes); }
    hide Ticked, S.Keepalive, Moved;
    MovedArms(t, t.(history := t.history.(station := station)));
  }

  lemma Unmoved(a: map<Key, Outcome>)
    ensures Grown(a, a)
  {
  }

  lemma RebootArms(s: L.System, cfg: S.Timing, time: int)
    requires S.ActiveCached(s.history.station)
    requires L.Inv(s) && ArmInv(s) && cfg.boot !in s.boots
    ensures ArmInv(L.Apply(s, L.Reboots(cfg, time)))
  {
    hide I.Consistent, Truthful, G.Inv, L.RecordsTrue, L.KeysUnique, L.AwaitedLast, L.Ours;
  }

  // ---- steps of the gateway ----

  lemma WriteArms(s: L.System, p: Payload, h: Gateway, block: Block)
    requires L.Inv(s) && ArmInv(s) && s.gateway.sequence < MAX_U32
    requires G.Issued(s.gateway, p, h, block)
    ensures ArmInv(s.(gateway := h, wire := s.wire + [block], awaiting := Some(p.id)))
  {
    var r := s.(gateway := h, wire := s.wire + [block], awaiting := Some(p.id));
    L.NewKey(s, p, h, block);
    hide KeyOf, Boot, Session, Sequence, ActionOf, I.Consistent, Truthful, L.RecordsTrue, L.AwaitedLast, L.Ours;
    forall id | id in r.gateway.rows
      ensures ArmTold(r.gateway.rows[id], r.history.outcomes) && ArmWaits(r, r.gateway.rows[id])
    {
      if id != p.id {
        assert ArmTold(s.gateway.rows[id], s.history.outcomes) && ArmWaits(s, s.gateway.rows[id]);
        assert r.gateway.rows[id] == s.gateway.rows[id];
      }
    }
  }

  /** A device's report settles an arming rightly through the acknowledgement and wrongly through a finished
      motion: a motion of the arming's own session would have had to be numbered differently. */
  lemma MatchArms(s: L.System, id: Id)
    requires L.Inv(s) && s.wire == [] && id in s.gateway.rows && ArmInv(s)
    requires s.awaiting == Some(id) ==> L.RecordKey(s.gateway.rows[id]) in s.history.outcomes
    ensures var r := s.gateway.rows[id];
      var m := Matched(r, s.gateway.session, S.Report(s.history.station, s.now));
      ArmTold(m, s.history.outcomes) && ArmWaits(s, m)
  {
    var r, session := s.gateway.rows[id], s.gateway.session;
    var sample := S.Report(s.history.station, s.now);
    assert ArmTold(r, s.history.outcomes) && ArmWaits(s, r);
    assert sample.boot == s.history.station.cfg.boot && Matched(r, session, sample).request == r.request;
    if r.request.action == ARM && r.Pending() && r.boot == sample.boot && r.session == session {
      assert 1 <= r.sequence == Low32(r.sequence) && L.RecordKey(r) in s.history.outcomes;
      assert sample.finishedSequence == s.history.station.finished.sequence
        && sample.finishedResult == s.history.station.finished.result
        && sample.ackSequence == s.history.station.ack.sequence && sample.ackResult == s.history.station.ack.result
        && sample.ackReason == s.history.station.ack.reason;
      hide L.Inv, S.Report;
      ArmSettled(s, r, sample);
    }
  }

  lemma ArmSettled(s: L.System, r: Record, sample: Sample)
    requires Truthful(s.history) && r.request.action == ARM && r.Pending() && r.boot == s.history.station.cfg.boot
    requires r.duration.None? && 1 <= r.sequence == Low32(r.sequence) && L.RecordKey(r) in s.history.outcomes
    requires ArmExecuted(s, r) && s.wire == [] && sample.boot == r.boot
    requires sample.finishedSequence == s.history.station.finished.sequence
      && sample.finishedResult == s.history.station.finished.result
      && sample.ackSequence == s.history.station.ack.sequence && sample.ackResult == s.history.station.ack.result
      && sample.ackReason == s.history.station.ack.reason
    ensures ArmTold(Matched(r, r.session, sample), s.history.outcomes) && ArmWaits(s, Matched(r, r.session, sample))
  {
    var finished, k := s.history.station.finished, L.RecordKey(r);
    if r.sequence == finished.sequence {
      assert IsMotion(s.history.outcomes[Key(r.boot, s.history.space, finished.sequence)].action);
      assert s.history.space != r.session && s.history.outcomes[k].result == REJECTED;
    } else if r.sequence == sample.ackSequence {
      assert s.history.last == Some(k);
    }
  }

  /** What one read of the registers makes of a record: it is matched, given up or left alone. */
  ghost predicate ReadFrom(a: Rows, session: U32, sample: Sample, b: Rows) {
    b.Keys == a.Keys && forall id :: id in a ==>
      || b[id] == a[id] || b[id] == Matched(a[id], session, sample)
      || (b[id].status == Unknown && b[id].request == a[id].request)
  }

  lemma FailReads(a: Rows, session: U32, sample: Sample, g: Gateway, reason: string, next: U32)
    requires ReadFrom(a, session, sample, g.rows)
    ensures ReadFrom(a, session, sample, Fail(g, reason, next).rows)
  {
    assert forall id :: id in a ==> Matched(a[id], session, sample).request == a[id].request;
    hide Matched;
    var h := Fail(g, reason, next);
    assert forall id :: id in a ==>
      h.rows[id] == g.rows[id] || (h.rows[id].status == Unknown && h.rows[id].request == g.rows[id].request);
  }

  lemma AcceptReads(g: Gateway, sample: Sample, at: real)
    ensures ReadFrom(g.rows, g.session, sample, Accept(g, sample, at).rows)
  {
    hide Matched;
  }

  /** Whether the sample fits or not, nothing else comes of reading it. */
  lemma ObserveReads(g: Gateway, sample: Sample, at: real, next: U32)
    requires G.Inv(g)
    ensures var h := Revoke(g, sample, next);
      ReadFrom(g.rows, g.session, sample, h.rows) && ReadFrom(g.rows, g.session, sample, Accept(h, sample, at).rows)
  {
    var h := Revoke(g, sample, next);
    if h != g {
      L.RevokeDisarms(g, sample, next);
      L.IdleAccept(h, sample, at);
    } else {
      AcceptReads(g, sample, at);
    }
    hide G.Inv, Matched, Accept, Revoke;
  }

  lemma PollReads(g: Gateway, sample: Sample, kept: Option<string>, at: real, next: U32)
    requires G.Inv(g) && g.Sampled()
    ensures ReadFrom(g.rows, g.session, sample, Poll(g, Answer(sample), kept, at, next).rows)
  {
    var h := Accept(Revoke(g, sample, next), sample, at);
    L.PollUnfold(g, sample, kept, at, next);
    ObserveReads(g, sample, at, next);
    hide G.Inv, Accept, Revoke, Fail, Poll, ReadFrom, HeartbeatFrozen;
    FailReads(g.rows, g.session, sample, Revoke(g, sample, next), "FROZEN_HEARTBEAT", next);
    if kept.Some? { FailReads(g.rows, g.session, sample, h.(keepalive := h.keepalive + 1), kept.value, next); }
  }

  lemma ConfirmReads(g: Gateway, action: Action, sample: Sample, at: real, next: U32)
    requires G.Inv(g) && g.Sampled()
    ensures ReadFrom(g.rows, g.session, sample, Confirm(g, action, Answer(sample), at, next).rows)
  {
    L.ConfirmUnfold(g, action, sample, at, next);
    ObserveReads(g, sample, at, next);
    hide G.Inv, Accept, Revoke, Fail, Confirm, ReadFrom, HeartbeatFrozen;
    FailReads(g.rows, g.session, sample, Revoke(g, sample, next), "ConnectionError", next);
  }

  lemma ReadArms(s: L.System, h: Gateway, r: L.System)
    requires L.Inv(s) && s.wire == [] && ArmInv(s)
    requires s.awaiting.Some? && s.awaiting.value in s.gateway.rows ==>
      L.RecordKey(s.gateway.rows[s.awaiting.value]) in s.history.outcomes
    requires ReadFrom(s.gateway.rows, s.gateway.session, S.Report(s.history.station, s.now), h.rows)
    requires r.history == s.history && r.wire == [] && r.gateway == h
    ensures ArmInv(r)
  {
    hide L.Inv, S.Report, Matched, L.RecordKey, KeyOf;
    forall id | id in h.rows ensures ArmTold(h.rows[id], r.history.outcomes) && ArmWaits(r, h.rows[id]) {
      assert id in s.gateway.rows;
      assert ArmTold(s.gateway.rows[id], s.history.outcomes) && ArmWaits(s, s.gateway.rows[id]);
      MatchArms(s, id);
    }
  }

  /** Records that are given up say nothing any more. */
  lemma GivenUpArms(s: L.System, r: L.System)
    requires ArmInv(s) && r.history == s.history && r.wire == s.wire
    requires L.Settled(s.gateway.rows, r.gateway.rows)
    ensures ArmInv(r)
  {
    hide L.RecordKey, Boot, Session;
    forall id | id in r.gateway.rows
      ensures ArmTold(r.gateway.rows[id], r.history.outcomes) && ArmWaits(r, r.gateway.rows[id])
    {
      assert ArmTold(s.gateway.rows[id], s.history.outcomes) && ArmWaits(s, s.gateway.rows[id]);
    }
  }

  // ---- whole runs ----

  lemma WriteStepArms(s: L.System, step: L.Step)
    requires s.gateway.Sampled() && S.ActiveCached(s.history.station)
    requires L.Inv(s) && L.Enabled(s, step) && ArmInv(s) && step.Write?
    ensures ArmInv(L.Apply(s, step))
  {
    G.SubmitIssues(s.gateway, step.payload, step.actor, step.locked, step.waited, step.at);
    hide L.Inv, G.Issued, Submit, ArmTold, ArmExecuted;
    match Submit(s.gateway, step.payload, step.actor, step.locked, step.waited, step.at)
    case Refused(_, h) => GivenUpArms(s, s.(gateway := h));
    case Existing(_) =>
    case Written(h, block) => WriteArms(s, step.payload, h, block);
  }

  lemma ReadStepArms(s: L.System, step: L.Step)
    requires s.gateway.Sampled() && S.ActiveCached(s.history.station)
    requires L.Inv(s) && L.Enabled(s, step) && ArmInv(s) && (step.ReadBack? || step.Polls?)
    ensures ArmInv(L.Apply(s, step))
  {
    L.TickKeeps(s, step.time);
    TickArms(s, step.time);
    var t := s.(history := Ticked(s.history, step.time), now := step.time);
    var sample := S.Report(t.history.station, t.now);
    assert G.Inv(t.gateway);
    hide L.Inv, ArmInv, Ticked, Poll, Confirm, S.Report, ReadFrom, L.RecordKey;
    if step.Polls? {
      PollReads(t.gateway, sample, step.kept, step.at, step.next);
    } else {
      ConfirmReads(t.gateway, L.AwaitedAction(s), sample, step.at, step.next);
    }
    ReadArms(t, L.Apply(s, step).gateway, L.Apply(s, step));
  }

  lemma AbandonSettles(a: Rows, reason: string)
    ensures L.Settled(a, a) && L.Settled(a, Abandon(a, reason))
  {
  }

  lemma GivenUpStepArms(s: L.System, step: L.Step)
    requires s.gateway.Sampled() && S.ActiveCached(s.history.station)
    requires L.Inv(s) && ArmInv(s) && (step.WriteFails? || step.PollFails? || step.Closes? || step.Restarts?)
    ensures ArmInv(L.Apply(s, step))
  {
    var r := L.Apply(s, step);
    hide L.Inv, ArmInv, Abandon, L.Settled, Submit;
    var reason :=
      if step.WriteFails? || step.PollFails? then step.reason
      else if step.Closes? then "GATEWAY_STOP" else "GATEWAY_RESTART";
    assert r.history == s.history && r.wire == s.wire;
    assert r.gateway.rows in {s.gateway.rows, Abandon(s.gateway.rows, reason)};
    hide L.Apply;
    AbandonSettles(s.gateway.rows, reason);
    GivenUpArms(s, r);
  }

  lemma StepArms(s: L.System, step: L.Step)
    requires s.gateway.Sampled() && S.ActiveCached(s.history.station)
    requires L.Inv(s) && L.Enabled(s, step) && ArmInv(s)
    ensures ArmInv(L.Apply(s, step))
  {
    match step
    case Write(_, _, _, _, _) => WriteStepArms(s, step);
    case ReadBack(_, _, _) => ReadStepArms(s, step);
    case Polls(_, _, _, _) => ReadStepArms(s, step);
    case Deliver(time) =>
      hide L.Inv, I.Inv, Ticked, Responded, ArmInv;
      L.TickKeeps(s, time);
      TickArms(s, time);
      ExecuteArms(s.(history := Ticked(s.history, time), now := time));
    case Lose => hide L.Inv, ArmTold; LoseArms(s);
    case Ticks(time) => hide L.Inv, Ticked, ArmInv; TickArms(s, time);
    case KeepaliveArrives(values, time) => KeepaliveArms(s, values, time);
    case Reboots(cfg, time) => RebootArms(s, cfg, time);
    case _ => GivenUpStepArms(s, step);
  }

  lemma LoseArms(s: L.System)
    requires ArmInv(s) && s.wire != []
    ensures ArmInv(s.(wire := s.wire[1..]))
  {
    hide ArmTold, L.RecordKey, Boot, Session;
    var r := s.(wire := s.wire[1..]);
    assert forall i :: 0 <= i < |r.wire| ==> r.wire[i] == s.wire[i + 1];
  }

  lemma {:induction false} ReachableArms(s: L.System, steps: seq<L.Step>, cfg: S.Timing, session: U32)
    requires L.Reachable(s, steps, cfg, session)
    ensures L.Inv(s) && ArmInv(s)
    decreases |steps|
  {
    L.ReachableInv(s, steps, cfg, session);
    if steps != [] {
      var last := steps[|steps| - 1];
      var before :|
        && L.Reachable(before, steps[..|steps| - 1], cfg, session)
        && before.gateway.Sampled() && S.ActiveCached(before.history.station)
        && L.Enabled(before, last) && s == L.Apply(before, last);
      hide L.Inv, ArmInv, L.Apply, L.Enabled;
      ReachableArms(before, steps[..|steps| - 1], cfg, session);
      StepArms(before, last);
    }
  }

  /** Over every run: a reported arming was executed, as an arming, and granted or refused; its record says
      what happened if and only if it has no duration, that is, if it was not settled from a finished motion.
      An arming that was granted is never misreported. */
  lemma ArmingsToldExactly(s: L.System, steps: seq<L.Step>, cfg: S.Timing, session: U32, id: Id)
    requires L.Reachable(s, steps, cfg, session) && id in s.gateway.rows
    requires s.gateway.rows[id].request.action == ARM
    requires s.gateway.rows[id].status in {Reported(COMPLETED), Reported(FAILED), Reported(REJECTED)}
    ensures var r := s.gateway.rows[id];
      && L.RecordKey(r) in s.history.outcomes
      && var truth := s.history.outcomes[L.RecordKey(r)];
      && truth.action == Some(ARM) && truth.result in {COMPLETED, REJECTED}
      && ((r.status == Reported(truth.result) && r.reason == Device(truth.reason)) <==> r.duration.None?)
      && (truth.result == COMPLETED ==> r.duration.None?)
  {
    hide L.Inv, L.Reachable, L.RecordKey;
    ReachableArms(s, steps, cfg, session);
  }

  /** What reading the registers makes of an executed arming, told by two of them: refused but reported as the
      finished motion when that carries the arming's number, and otherwise reported as it was once the
      acknowledgement carries it. */
  lemma ArmingReadExactly(s: L.System, steps: seq<L.Step>, cfg: S.Timing, session: U32, id: Id)
    requires L.Reachable(s, steps, cfg, session) && s.wire == [] && id in s.gateway.rows
    requires var r := s.gateway.rows[id];
      && r.request.action == ARM && r.Pending() && r.boot == s.history.station.cfg.boot
      && L.RecordKey(r) in s.history.outcomes
    ensures var r := s.gateway.rows[id];
      var truth := s.history.outcomes[L.RecordKey(r)];
      var m := Matched(r, s.gateway.session, S.Report(s.history.station, s.now));
      if s.history.station.finished.sequence == r.sequence then
        m.status in {Reported(COMPLETED), Reported(FAILED)} && truth.result == REJECTED
      else if s.history.station.ack.sequence == r.sequence then
        m.status == Reported(truth.result) && m.reason == Device(truth.reason)
      else m == r
  {
    hide L.Reachable, S.Limits, S.Round;
    ReachableArms(s, steps, cfg, session);
    var r := s.gateway.rows[id];
    var sample := S.Report(s.history.station, s.now);
    assert r.session == s.gateway.session && 1 <= r.sequence == Low32(r.sequence) && ArmWaits(s, r);
    assert sample.finishedSequence == s.history.station.finished.sequence
      && sample.finishedResult == s.history.station.finished.result
      && sample.ackSequence == s.history.station.ack.sequence && sample.ackResult == s.history.station.ack.result
      && sample.ackReason == s.history.station.ack.reason && sample.boot == r.boot;
    hide L.Inv, S.Report;
    ArmSettled(s, r, sample);
  }
}
