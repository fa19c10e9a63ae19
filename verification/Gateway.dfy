/** The gateway object and its record store: their calls update fields and rows in place, and each is tied to
    its specification. Writing to and reading from the device happen between `Dispatch` and `Confirm`. */
module GatewayObject {
  import opened Wrappers
  import opened Protocol
  import Spec = GatewaySpec
  import opened GatewaySpec
  import opened MachineWords

  class Store {
    var rows: Rows

    /** Opening a database settles whatever an earlier process left pending. */
    constructor (rows: Rows)
      ensures this.rows == Spec.Abandon(rows, "GATEWAY_RESTART")
    {
      this.rows := rows;
      new;
      Abandon("GATEWAY_RESTART");
    }

    method Put(id: Id, record: Record)
      requires id !in rows
      modifies this
      ensures rows == old(rows)[id := record]
    {
      rows := rows[id := record];
    }

    method Update(id: Id, status: Status, reason: Cause, duration: Option<int>)
      requires id in rows
      modifies this
      ensures rows == old(rows)[id := Updated(old(rows)[id], status, reason, duration)]
    {
      var record := rows[id];
      if record.status == status && record.reason == reason { return; }
      record := record.(status := status, reason := reason);
      if duration.Some? { record := record.(duration := duration); }
      rows := rows[id := record];
    }

    method Pending() returns (ids: set<Id>)
      ensures forall id :: id in ids <==> id in rows && rows[id].Pending()
    {
      ids := set id | id in rows && rows[id].Pending();
    }

    method Abandon(reason: string)
      modifies this
      ensures rows == Spec.Abandon(old(rows), reason)
    {
      var todo := Pending();
      while todo != {}
        invariant todo <= rows.Keys == old(rows).Keys
        invariant forall id :: id in todo ==> old(rows)[id].Pending()
        invariant forall id :: id in old(rows) ==>
          rows[id] == if id in todo then old(rows)[id] else Spec.Abandon(old(rows), reason)[id]
      {
        var id :| id in todo;
        Update(id, Unknown, Own(reason), None);
        todo := todo - {id};
      }
    }

    /** A sample settles the pending records of its boot and session that it speaks of. */
    method Match(session: U32, sample: Sample)
      modifies this
      ensures rows == MatchAll(old(rows), session, sample)
    {
      var todo := Pending();
      while todo != {}
        invariant todo <= rows.Keys == old(rows).Keys
        invariant forall id :: id in todo ==> old(rows)[id].Pending()
        invariant forall id :: id in old(rows) ==>
          rows[id] == if id in todo then old(rows)[id] else Matched(old(rows)[id], session, sample)
      {
        var id :| id in todo;
        todo := todo - {id};
        var pending := rows[id];
        if pending.boot != sample.boot || pending.session != session { continue; }
        if pending.sequence == sample.finishedSequence {
          Update(id, Reported(sample.finishedResult), Device(sample.finishedReason), Some(sample.finishedDuration));
        } else if pending.sequence == sample.ackSequence {
          Update(id, Reported(sample.ackResult), Device(sample.ackReason), None);
        }
      }
    }
  }

  class Gateway {
    const store: Store
    var session: U32
    var sequence: nat
    var keepalive: nat
    var failures: nat
    var armed: bool
    var sample: Option<Sample>
    var lastGood: Option<real>
    var lastHeartbeatChange: Option<real>
    var quality: Quality
    var error: Option<string>

    /** The fields and the rows as one value. */
    ghost function Value(): Spec.Gateway
      reads this, store
    {
      Spec.Gateway.Gateway(session, sequence, keepalive, failures, armed, sample, lastGood, lastHeartbeatChange,
        quality, error, store.rows)
    }

    constructor (rows: Rows, session: U32)
      ensures fresh(store) && Value() == Started(rows, session)
    {
      store := new Store(rows);
      this.session, sequence, keepalive, failures, armed := session, 0, 0, 0, false;
      sample, lastGood, lastHeartbeatChange := None, None, None;
      quality, error := OFFLINE, Some("WAITING_FOR_DEVICE");
    }

    method Disown(reason: string, next: U32)
      modifies this, store
      ensures Value() == old(Value()).(armed := false, session := next, sequence := 0, keepalive := 0,
                                       rows := Spec.Abandon(old(store.rows), reason))
    {
      hide Spec.Abandon;
      armed := false;
      session := next;
      sequence, keepalive := 0, 0;
      store.Abandon(reason);
    }

    method Fail(reason: string, next: U32)
      modifies this, store
      ensures Value() == Spec.Fail(old(Value()), reason, next)
    {
      hide Spec.Abandon;
      if failures == 0 { Disown(reason, next); }
      failures := failures + 1;
      quality := if failures >= 3 then OFFLINE else STALE;
      error := Some(reason);
    }

    method Revoke(fitting: Sample, next: U32)
      modifies this, store
      ensures Value() == Spec.Revoke(old(Value()), fitting, next)
    {
      hide Spec.Fail;
      if sample.Some? && fitting.boot != sample.value.boot { Fail("DEVICE_RESTART", next); }
      if armed && fitting.owner != session { Fail("SESSION_LOST", next); }
    }

    method Accept(latest: Sample, now: real)
      modifies this, store
      ensures Value() == Spec.Accept(old(Value()), latest, now)
    {
      hide MatchAll;
      if sample.None? || latest.boot != sample.value.boot || latest.heartbeat != sample.value.heartbeat {
        lastHeartbeatChange := Some(now);
      }
      sample, lastGood := Some(latest), Some(now);
      quality, error, failures := GOOD, None, 0;
      store.Match(session, latest);
    }

    /** The result is false where the original raises an exception. */
    method Observe(latest: Sample, now: real, next: U32) returns (good: bool)
      requires Value().Sampled()
      modifies this, store
      ensures (Value(), good) == Spec.Observe(old(Value()), latest, now, next)
    {
      RevokeKeepsSampled(Value(), latest, next);
      hide Spec.Fail, Spec.Accept, Spec.Revoke;
      Revoke(latest, next);
      if sample.Some? && latest.boot == sample.value.boot && latest.heartbeat == sample.value.heartbeat
         && now - lastHeartbeatChange.value > 400.0 {
        return false;
      }
      Accept(latest, now);
      return true;
    }

    method Poll(reply: Reply, kept: Option<string>, now: real, next: U32)
      requires Value().Sampled()
      modifies this, store
      ensures Value() == Spec.Poll(old(Value()), reply, kept, now, next)
    {
      hide Spec.Fail, Spec.Observe;
      if reply.Broken? {
        Fail(reply.reason, next);
        return;
      }
      var good := Observe(reply.sample, now, next);
      if !good {
        Fail("FROZEN_HEARTBEAT", next);
      } else if armed {
        keepalive := keepalive + 1;
        if kept.Some? { Fail(kept.value, next); }
      }
    }

    /** The request up to the write: a refusal, the record of a repeated identifier, or the block to write. */
    method Dispatch(p: Payload, actor: string, locked: bool, waited: Duration, now: real)
      returns (refusal: Option<string>, existing: Option<Record>, block: Option<Block>)
      requires Value().Sampled()
      modifies this, store
      ensures refusal.Some? || existing.Some? || block.Some?
      ensures Spec.Submit(old(Value()), p, actor, locked, waited, now) ==
        if refusal.Some? then Spec.Refused(refusal.value, Value())
        else if existing.Some? then Spec.Existing(existing.value)
        else Spec.Written(Value(), block.value)
      ensures existing.Some? ==> Value() == old(Value())
    {
      hide Spec.Stamp;
      refusal, existing, block := None, None, None;
      if !IsId(p.id) || p.action.None? || !(0 <= p.parameter <= 65535) || !(100 <= p.validity <= 2000) {
        return Some("Invalid request"), None, None;
      }
      var request := Request(p.action.value, p.parameter, p.validity, actor);
      if p.id in store.rows {
        if store.rows[p.id].request != request {
          return Some("command_id already used for a different request"), None, None;
        }
        return None, Some(store.rows[p.id]), None;
      }
      if locked { return Some("Another submission is in progress; no queue"), None, None; }
      if waited >= p.validity as real { return Some("Command expired before dispatch"), None, None; }
      if Freshness(now) != GOOD { return Some("Device data is not fresh"), None, None; }
      if p.action.value != ARM && !armed { return Some("Explicit ARM required"), None, None; }
      var pending := store.Pending();
      assert pending != {} <==> Value().AnyPending();
      if pending != {} && p.action.value != STOP {
        return Some("Motion is pending; only STOP is permitted"), None, None;
      }
      refusal, block := Stamp(p.id, request, waited, now);
    }

    function Freshness(now: real): (q: Quality)
      reads this
      ensures q == Spec.Freshness(Value(), now)
    {
      if lastGood.None? || now - lastGood.value > 750.0 then OFFLINE
      else if now - lastGood.value > 300.0 && quality == GOOD then STALE
      else quality
    }

    method Stamp(id: Id, request: Request, waited: Duration, now: real)
      returns (refusal: Option<string>, block: Option<Block>)
      requires Value().Sampled() && lastGood.Some? && waited < request.validity as real
      requires 0 <= request.parameter <= 65535 && id !in store.rows
      modifies this, store
      ensures refusal.Some? <==> block.None?
      ensures Spec.Stamp(old(Value()).(sequence := old(sequence) + 1), id, request, waited, now) ==
        if refusal.Some? then Spec.Refused(refusal.value, Value()) else Spec.Written(Value(), block.value)
    {
      sequence := sequence + 1;
      var remaining := request.validity - waited.Floor;
      var deadline := sample.value.uptime + remaining;
      if now - lastGood.value >= remaining as real || deadline > MAX_U32 {
        return Some("Insufficient freshness or uptime range"), None;
      }
      hide Command;
      var record := Record(request, sample.value.boot, session, sequence, Created, Device(NO_REASON), None);
      store.Put(id, record);
      store.Update(id, Sent, Device(NO_REASON), None);
      return None, Some(Command(request.action, Low32(sequence), request.parameter, record.boot, session, deadline));
    }

    method Confirm(action: Action, reply: Reply, now: real, next: U32)
      requires Value().Sampled()
      modifies this, store
      ensures Value() == Spec.Confirm(old(Value()), action, reply, now, next)
    {
      hide Spec.Fail, Spec.Observe;
      if reply.Broken? {
        Fail(reply.reason, next);
        return;
      }
      var good := Observe(reply.sample, now, next);
      if !good {
        Fail("ConnectionError", next);
      } else if action == ARM && reply.sample.ackSequence == sequence && reply.sample.ackResult == COMPLETED {
        armed := reply.sample.owner == session;
      }
    }

    method Close()
      modifies this, store
      ensures Value() == Spec.Close(old(Value()))
    {
      hide Spec.Abandon;
      armed := false;
      store.Abandon("GATEWAY_STOP");
    }
  }

  lemma RevokeKeepsSampled(g: Spec.Gateway, sample: Sample, next: U32)
    requires g.Sampled()
    ensures Revoke(g, sample, next).Sampled()
  {
  }
}
