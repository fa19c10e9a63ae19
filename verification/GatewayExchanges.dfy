/** What an exchange with the device does to the gateway: when it stays or becomes armed, which records a sample
    settles and how, and what a failure leaves. Told by the sample and the clock alone. */
module GatewayExchanges {
  import opened Wrappers
  import opened Protocol
  import opened GatewaySpec
  import opened GatewayRuns
  import opened MachineWords

  // ---- failures ----

  /** Every pending record has been given up for this reason, and no other has changed. */
  ghost predicate GivenUp(before: Rows, after: Rows, reason: string) {
    && after.Keys == before.Keys
    && (forall id :: id in before ==>
         after[id] ==
           if before[id].Pending() then before[id].(status := Unknown, reason := Own(reason)) else before[id])
  }

  /** The first failure after a good sample takes a new session and starts counting afresh, disarms and gives up
      what is pending; a further one changes nothing but what is shown. The third in a row shows OFFLINE. */
  lemma FailsExactly(g: Gateway, reason: string, next: U32)
    ensures var r := Fail(g, reason, next);
      && r == g.(session := r.session, sequence := r.sequence, keepalive := r.keepalive, armed := r.armed,
                 rows := r.rows, failures := g.failures + 1, error := Some(reason),
                 quality := if g.failures < 2 then STALE else OFFLINE)
      && (if g.failures == 0 then
            && r.session == next && r.sequence == 0 && r.keepalive == 0 && !r.armed
            && GivenUp(g.rows, r.rows, reason)
          else
            && r.session == g.session && r.sequence == g.sequence && r.keepalive == g.keepalive
            && r.armed == g.armed && r.rows == g.rows)
  {
  }

  /** Closing disarms and gives up what is pending. */
  lemma ClosesExactly(g: Gateway)
    ensures var r := Close(g);
      r == g.(armed := false, rows := r.rows) && GivenUp(g.rows, r.rows, "GATEWAY_STOP")
  {
  }

  /** A new process gives up what the last one left pending and knows nothing of the device. */
  lemma StartsExactly(rows: Rows, session: U32)
    ensures var r := Started(rows, session);
      && GivenUp(rows, r.rows, "GATEWAY_RESTART") && r.session == session && r.sequence == 0 && r.keepalive == 0
      && r.failures == 0 && !r.armed && r.sample.None? && r.lastGood.None? && r.quality == OFFLINE
  {
  }

  // ---- samples ----

  predicate Restarted(g: Gateway, sample: Sample) { g.sample.Some? && sample.boot != g.sample.value.boot }

  predicate Lost(g: Gateway, sample: Sample) {
    g.armed && !Restarted(g, sample) && sample.owner != g.session
  }

  predicate Frozen(g: Gateway, sample: Sample, now: real)
    requires g.Sampled()
  {
    && g.sample.Some? && !Restarted(g, sample) && sample.heartbeat == g.sample.value.heartbeat
    && now - g.lastHeartbeatChange.value > 400.0
  }

  /** What a sample says of a pending record with this number: the end of its motion, or else its answer. */
  ghost predicate Told(r: Record, sample: Sample, after: Record) {
    if r.sequence == sample.finishedSequence then
      after == r.(status := Reported(sample.finishedResult), reason := Device(sample.finishedReason),
                  duration := after.duration)
      && ((r.status != Reported(sample.finishedResult) || r.reason != Device(sample.finishedReason)) ==>
            after.duration == Some(sample.finishedDuration))
    else if r.sequence == sample.ackSequence then
      after == r.(status := Reported(sample.ackResult), reason := Device(sample.ackReason))
    else after == r
  }

  lemma MatchedTells(r: Record, session: U32, sample: Sample)
    requires r.Pending() && r.boot == sample.boot && r.session == session
    ensures Told(r, sample, Matched(r, session, sample))
  {
  }

  /** A sample that is neither frozen nor of a restarted device or a lost session is taken as good, and settles
      exactly the pending records of this boot whose numbers it names. */
  ghost predicate Taken(g: Gateway, sample: Sample, now: real, r: Gateway) {
    && r == g.(sample := Some(sample), lastGood := Some(now), quality := GOOD, error := None, failures := 0,
               lastHeartbeatChange := r.lastHeartbeatChange, rows := r.rows)
    && r.lastHeartbeatChange ==
         (if g.sample.Some? && g.sample.value.boot == sample.boot && g.sample.value.heartbeat == sample.heartbeat
          then g.lastHeartbeatChange else Some(now))
    && r.rows.Keys == g.rows.Keys
    && (forall id :: id in g.rows ==>
         if g.rows[id].Pending() && g.rows[id].boot == sample.boot then Told(g.rows[id], sample, r.rows[id])
         else r.rows[id] == g.rows[id])
  }

  lemma AcceptTakes(g: Gateway, sample: Sample, now: real)
    requires Inv(g)
    ensures Taken(g, sample, now, Accept(g, sample, now))
  {
    var r := Accept(g, sample, now);
    forall id | id in g.rows
      ensures if g.rows[id].Pending() && g.rows[id].boot == sample.boot then Told(g.rows[id], sample, r.rows[id])
              else r.rows[id] == g.rows[id]
    {
      if g.rows[id].Pending() && g.rows[id].boot == sample.boot { MatchedTells(g.rows[id], g.session, sample); }
    }
    hide Told, Matched;
  }

  /** How a sample is observed: refused exactly when the heartbeat has stood still for more than 400 ms; disarmed
      exactly by another boot number or another owner, which also gives up what is pending and takes a new session;
      otherwise taken, and the records it names are settled. */
  lemma ObservesExactly(g: Gateway, sample: Sample, now: real, next: U32)
    requires Inv(g)
    ensures g.Sampled()
    ensures var (r, good) := Observe(g, sample, now, next); var lost := Restarted(g, sample) || Lost(g, sample);
      && (good <==> !Frozen(g, sample, now))
      && r.armed == (g.armed && !lost)
      && (!lost ==> if good then Taken(g, sample, now, r) else r == g)
      && (lost && g.failures == 0 ==>
           && r.session == next && r.sequence == 0 && r.keepalive == 0
           && GivenUp(g.rows, r.rows, if Restarted(g, sample) then "DEVICE_RESTART" else "SESSION_LOST"))
      && (lost && g.failures > 0 && good ==> Taken(g, sample, now, r))
      && (lost && good ==> r.quality == GOOD && r.failures == 0 && r.sample == Some(sample) && r.lastGood == Some(now))
      && (lost && !good ==> r.quality == STALE && r.failures == 1 && r.sample == g.sample)
  {
    assert g.Sampled();
    if Restarted(g, sample) || Lost(g, sample) {
      ObservesLoss(g, sample, now, next);
      hide Observe, Inv, Taken, GivenUp, Frozen;
    } else {
      AcceptTakes(g, sample, now);
      hide Taken, Accept, Inv;
    }
  }

  /** A new session: nothing is pending, so the sample settles nothing. */
  lemma ObservesLoss(g: Gateway, sample: Sample, now: real, next: U32)
    requires Inv(g) && (Restarted(g, sample) || Lost(g, sample))
    ensures g.Sampled()
    ensures var (r, good) := Observe(g, sample, now, next);
      && (good <==> !Frozen(g, sample, now)) && !r.armed
      && (g.failures == 0 ==>
           && r.session == next && r.sequence == 0 && r.keepalive == 0
           && GivenUp(g.rows, r.rows, if Restarted(g, sample) then "DEVICE_RESTART" else "SESSION_LOST"))
      && (g.failures > 0 && good ==> Taken(g, sample, now, r))
      && (good ==> r.quality == GOOD && r.failures == 0 && r.sample == Some(sample) && r.lastGood == Some(now))
      && (!good ==> r.quality == STALE && r.failures == 1 && r.sample == g.sample)
  {
    assert g.Sampled() && (g.failures > 0 ==> !g.armed);
    var reason := if Restarted(g, sample) then "DEVICE_RESTART" else "SESSION_LOST";
    var h := Fail(g, reason, next);
    FailsExactly(g, reason, next);
    FailInv(g, reason, next);
    RevokesTo(g, sample, next);
    SettlesNothing(h, sample, now);
    if g.failures > 0 { TakesLater(g, h, sample, now); }
    hide Fail, Inv, NonePending, Accept, GivenUp, Taken, Revoke;
    var r := Observe(g, sample, now, next).0;
    assert Observe(g, sample, now, next).1 ==> r == Accept(h, sample, now);
    assert Frozen(g, sample, now) ==> r == h;
    AcceptShows(h, sample, now);
  }

  lemma RevokesTo(g: Gateway, sample: Sample, next: U32)
    requires Restarted(g, sample) || Lost(g, sample)
    requires g.failures > 0 ==> !g.armed
    ensures Revoke(g, sample, next) == Fail(g, if Restarted(g, sample) then "DEVICE_RESTART" else "SESSION_LOST", next)
    ensures !Revoke(g, sample, next).armed
  {
  }

  lemma AcceptShows(h: Gateway, sample: Sample, now: real)
    ensures var r := Accept(h, sample, now);
      && r.session == h.session && r.sequence == h.sequence && r.keepalive == h.keepalive && r.armed == h.armed
      && r.quality == GOOD && r.failures == 0 && r.sample == Some(sample) && r.lastGood == Some(now)
  {
  }

  lemma SettlesNothing(h: Gateway, sample: Sample, now: real)
    requires NonePending(h)
    ensures Accept(h, sample, now).rows == h.rows
  {
  }

  /** A failure more or less is forgotten when a sample is taken. */
  lemma TakesLater(g: Gateway, h: Gateway, sample: Sample, now: real)
    requires Inv(g) && h == g.(failures := h.failures, quality := h.quality, error := h.error)
    ensures Taken(g, sample, now, Accept(h, sample, now))
  {
    AcceptTakes(g, sample, now);
    assert Accept(h, sample, now) == Accept(g, sample, now);
    hide Accept, Inv;
  }

  // ---- what is shown ----

  /** The quality shown is never better than the last exchange left it, STALE from 300 ms and OFFLINE from 750 ms
      after the last good sample. */
  lemma ShownQuality(g: Gateway, now: real)
    ensures var q := Freshness(g, now);
      && (q == OFFLINE <==> g.quality == OFFLINE || g.lastGood.None? || now - g.lastGood.value > 750.0)
      && (q == GOOD <==> g.quality == GOOD && g.lastGood.Some? && now - g.lastGood.value <= 300.0)
  {
  }

  // ---- polling and reading back ----

  /** A polling turn leaves the gateway armed exactly when it was, the device answered with this boot's beating
      heartbeat and the gateway's own session, and the keepalive was written; it has then been counted. */
  lemma PollKeepsArmed(g: Gateway, reply: Reply, kept: Option<string>, now: real, next: U32)
    requires Inv(g)
    ensures g.Sampled()
    ensures var r := Poll(g, reply, kept, now, next);
      && (r.armed <==>
            && g.armed && reply.Answer? && kept.None? && !Restarted(g, reply.sample) && reply.sample.owner == g.session
            && !Frozen(g, reply.sample, now))
      && (r.armed ==> Taken(g, reply.sample, now, r.(keepalive := g.keepalive)) && r.keepalive == g.keepalive + 1)
  {
    assert g.Sampled() && (g.failures > 0 ==> !g.armed);
    match reply
    case Broken(reason) => FailInv(g, reason, next);
    case Answer(sample) =>
      ObservesExactly(g, sample, now, next);
      ObserveInv(g, sample, now, next);
      var h := Observe(g, sample, now, next).0;
      FailInv(h, "FROZEN_HEARTBEAT", next);
      hide Fail, Observe, Taken, GivenUp, Inv, Frozen, Restarted;
      if h.armed && kept.Some? { FailArmed(h, h.keepalive + 1, kept.value, next); }
  }

  lemma FailArmed(h: Gateway, keepalive: nat, reason: string, next: U32)
    requires Inv(h) && h.armed
    ensures !Fail(h.(keepalive := keepalive), reason, next).armed
  {
  }

  /** The read-back arms the gateway exactly when it is the answer to its own ARM and names its session as owner;
      for any other command it stays armed as it does when polling. */
  lemma ConfirmArms(g: Gateway, action: Action, reply: Reply, now: real, next: U32)
    requires Inv(g)
    ensures g.Sampled()
    ensures var r := Confirm(g, action, reply, now, next);
      reply.Answer? && !Restarted(g, reply.sample) && !Lost(g, reply.sample) ==>
        (r.armed <==>
          && !Frozen(g, reply.sample, now)
          && if action == ARM && reply.sample.ackSequence == g.sequence && reply.sample.ackResult == COMPLETED
             then reply.sample.owner == g.session else g.armed)
    ensures reply.Broken? ==> !Confirm(g, action, reply, now, next).armed
  {
    assert g.Sampled();
    match reply
    case Broken(reason) => FailInv(g, reason, next);
    case Answer(sample) =>
      ObservesExactly(g, sample, now, next);
      ObserveInv(g, sample, now, next);
      FailInv(Observe(g, sample, now, next).0, "ConnectionError", next);
      hide Fail, Observe, GivenUp, Inv, Frozen, Restarted;
  }
}
