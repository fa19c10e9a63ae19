/** The life of command records over whole runs of the gateway, for any device and any link. */
module GatewayRuns {
  import opened Wrappers
  import opened Protocol
  import opened GatewaySpec
  import opened MachineWords

  /** RestartEvent is a new process on the same database. */
  datatype Event =
    | PollEvent(reply: Reply, kept: Option<string>, now: real, next: U32)
    | SubmitEvent(payload: Payload, actor: string, locked: bool, waited: Duration, at: real,
                  reply: Reply, readAt: real, next: U32)
    | CloseEvent
    | RestartEvent(next: U32)

  ghost function Step(g: Gateway, e: Event): Gateway
    requires g.Sampled()
  {
    match e
    case PollEvent(reply, kept, now, next) => Poll(g, reply, kept, now, next)
    case SubmitEvent(payload, actor, locked, waited, at, reply, readAt, next) =>
      (match Submit(g, payload, actor, locked, waited, at)
       case Refused(_, h) => h
       case Existing(_) => g
       case Written(h, _) => Confirm(h, payload.action.value, reply, readAt, next))
    case CloseEvent => Close(g)
    case RestartEvent(next) => Started(g.rows, next)
  }

  ghost predicate NonePending(g: Gateway) { forall id :: id in g.rows ==> !g.rows[id].Pending() }

  ghost predicate Inv(g: Gateway) {
    && g.Sampled()
    && (g.failures > 0 ==> !g.armed && NonePending(g) && g.quality != GOOD)
    // pending records belong to the current session and carry sequence numbers it has handed out
    && (forall id :: id in g.rows && g.rows[id].Pending() ==>
          g.rows[id].session == g.session && 1 <= g.rows[id].sequence <= g.sequence)
    // at most one pending command is not a stop, and no two pending commands share a number
    && (forall a, b :: a in g.rows && b in g.rows && g.rows[a].Pending() && g.rows[b].Pending() && a != b ==>
          && g.rows[a].sequence != g.rows[b].sequence
          && (g.rows[a].request.action == STOP || g.rows[b].request.action == STOP))
  }

  /** Nothing but the outcome of a record ever changes, and a settled outcome never does. */
  ghost predicate Kept(before: Rows, after: Rows) {
    forall id :: id in before ==>
      && id in after
      && after[id].request == before[id].request && after[id].boot == before[id].boot
      && after[id].session == before[id].session && after[id].sequence == before[id].sequence
      && (!before[id].Pending() ==> after[id] == before[id])
  }

  /** Outcomes change, no record is added: what is said of pending records stays true. */
  lemma KeptPending(g: Gateway, r: Gateway)
    requires Inv(g) && Kept(g.rows, r.rows) && r.rows.Keys == g.rows.Keys
    requires r.session == g.session && r.sequence == g.sequence && r.Sampled()
    requires r.failures > 0 ==> !r.armed && NonePending(r) && r.quality != GOOD
    ensures Inv(r)
  {
    assert forall id :: id in r.rows && r.rows[id].Pending() ==> g.rows[id].Pending();
  }

  lemma FailInv(g: Gateway, reason: string, next: U32)
    requires Inv(g)
    ensures var r := Fail(g, reason, next);
      Inv(r) && !r.armed && NonePending(r) && Kept(g.rows, r.rows) && r.failures > 0
  {
  }

  lemma AcceptInv(g: Gateway, sample: Sample, now: real)
    requires Inv(g)
    ensures var r := Accept(g, sample, now);
      Inv(r) && Kept(g.rows, r.rows) && r.failures == 0 && r.armed == g.armed && r.session == g.session
  {
    var r := Accept(g, sample, now);
    assert Kept(g.rows, r.rows) by { hide Inv; }
    hide Kept, Accept, Matched;
    KeptPending(g, r);
  }

  lemma ObserveInv(g: Gateway, sample: Sample, now: real, next: U32)
    requires Inv(g)
    ensures var (r, good) := Observe(g, sample, now, next);
      Inv(r) && Kept(g.rows, r.rows) && (good ==> r.failures == 0)
  {
    hide Inv, Kept;
    FailInv(g, "DEVICE_RESTART", next);
    FailInv(g, "SESSION_LOST", next);
    KeptIsReflexive(g.rows);
    AcceptInv(Revoke(g, sample, next), sample, now);
    KeptIsTransitive(g.rows, Revoke(g, sample, next).rows, Accept(Revoke(g, sample, next), sample, now).rows);
  }

  lemma KeptIsReflexive(a: Rows)
    ensures Kept(a, a)
  {
  }

  lemma KeptIsTransitive(a: Rows, b: Rows, c: Rows)
    requires Kept(a, b) && Kept(b, c)
    ensures Kept(a, c)
  {
  }

  lemma PollInv(g: Gateway, reply: Reply, kept: Option<string>, now: real, next: U32)
    requires Inv(g)
    ensures var r := Poll(g, reply, kept, now, next); Inv(r) && Kept(g.rows, r.rows)
  {
    match reply
    case Broken(reason) => FailInv(g, reason, next);
    case Answer(sample) =>
      ObserveInv(g, sample, now, next);
      var h := Observe(g, sample, now, next).0;
      var k := h.(keepalive := h.keepalive + 1);
      FailInv(h, "FROZEN_HEARTBEAT", next);
      KeptIsTransitive(g.rows, h.rows, Fail(h, "FROZEN_HEARTBEAT", next).rows);
      if h.armed && kept.Some? {
        FailInv(k, kept.value, next);
        KeptIsTransitive(g.rows, k.rows, Fail(k, kept.value, next).rows);
      }
  }

  lemma ConfirmInv(g: Gateway, action: Action, reply: Reply, now: real, next: U32)
    requires Inv(g)
    ensures var r := Confirm(g, action, reply, now, next); Inv(r) && Kept(g.rows, r.rows)
  {
    match reply
    case Broken(reason) => FailInv(g, reason, next);
    case Answer(sample) =>
      ObserveInv(g, sample, now, next);
      var h := Observe(g, sample, now, next).0;
      FailInv(h, "ConnectionError", next);
      KeptIsTransitive(g.rows, h.rows, Fail(h, "ConnectionError", next).rows);
  }

  /** What a written command amounts to: one new record of the very request, and a block that carries its action,
      parameter and numbers and a deadline at most its validity after the device's last sampled uptime. */
  ghost predicate Issued(g: Gateway, p: Payload, h: Gateway, block: Block) {
    && p.action.Some? && p.id !in g.rows && p.id in h.rows && g.sample.Some? && g.failures == 0
    && h == g.(sequence := g.sequence + 1, rows := g.rows[p.id := h.rows[p.id]])
    && (p.action.value != ARM ==> g.armed)
    && var r := h.rows[p.id];
      && r.status == Sent && r.reason == Device(NO_REASON) && r.duration.None?
      && r.request == Request(p.action.value, p.parameter, p.validity, r.request.actor)
      && r.boot == g.sample.value.boot && r.session == h.session && r.sequence == h.sequence
      && ActionOf(block[0]) == p.action && Boot(block) == r.boot && Session(block) == r.session
      && Sequence(block) == Low32(r.sequence) && Parameter(block) == p.parameter
      && g.sample.value.uptime < Deadline(block) <= g.sample.value.uptime + p.validity && p.validity <= 2000
  }

  lemma StampIssues(g: Gateway, p: Payload, request: Request, waited: Duration, now: real)
    requires g.lastGood.Some? && g.sample.Some? && waited < request.validity as real && 0 <= request.parameter <= 65535
    requires g.sequence > 0 && g.failures == 0 && p.id !in g.rows && p.action == Some(request.action)
    requires request.validity <= 2000 && (request.action != ARM ==> g.armed)
    requires p.parameter == request.parameter && p.validity == request.validity
    ensures match Stamp(g, p.id, request, waited, now)
      case Refused(_, h) => h == g
      case Existing(_) => false
      case Written(h, block) =>
        && Issued(g.(sequence := g.sequence - 1), p, h, block) && h.rows[p.id].request == request
        && Deadline(block) == g.sample.value.uptime + request.validity - waited.Floor
  {
    var deadline := g.sample.value.uptime + request.validity - waited.Floor;
    if deadline <= MAX_U32 {
      CommandRoundTrip(request.action, Low32(g.sequence), request.parameter, g.sample.value.boot, g.session, deadline);
      var boot := g.sample.value.boot;
      var block := Command(request.action, Low32(g.sequence), request.parameter, boot, g.session, deadline);
      var record := Record(request, boot, g.session, g.sequence, Sent, Device(NO_REASON), None);
      hide Command, Sequence, Boot, Session, Deadline, Parameter, ActionOf;
      RecordIssued(g, p, request, record, block);
    }
    hide Issued, Command;
  }

  lemma RecordIssued(g: Gateway, p: Payload, request: Request, record: Record, block: Block)
    requires g.sample.Some? && g.sequence > 0 && g.failures == 0 && p.id !in g.rows && p.action == Some(request.action)
    requires request == Request(request.action, p.parameter, p.validity, request.actor)
    requires request.validity <= 2000 && (request.action != ARM ==> g.armed)
    requires record == Record(request, g.sample.value.boot, g.session, g.sequence, Sent, Device(NO_REASON), None)
    requires ActionOf(block[0]) == p.action && Boot(block) == record.boot && Session(block) == g.session
    requires Sequence(block) == Low32(g.sequence) && Parameter(block) == p.parameter
    requires g.sample.value.uptime < Deadline(block) <= g.sample.value.uptime + p.validity
    ensures Issued(g.(sequence := g.sequence - 1), p, g.(rows := g.rows[p.id := record]), block)
  {
    hide Sequence, Boot, Session, Deadline, Parameter, ActionOf;
  }

  lemma SubmitIssues(g: Gateway, p: Payload, actor: string, locked: bool, waited: Duration, now: real)
    requires Inv(g)
    ensures match Submit(g, p, actor, locked, waited, now)
      case Refused(_, h) => h == g || h == g.(sequence := g.sequence + 1)
      case Existing(record) => p.id in g.rows && record == g.rows[p.id]
      case Written(h, block) =>
        && Issued(g, p, h, block) && (g.AnyPending() ==> p.action.value == STOP)
        && h.rows[p.id].request.actor == actor
        && Deadline(block) == g.sample.value.uptime + p.validity - waited.Floor
  {
    assert g.Sampled() && (g.failures > 0 ==> g.quality != GOOD);
    hide Inv;
    assert Freshness(g, now) == GOOD ==> g.failures == 0 && g.sample.Some?;
    hide Stamp, Issued, IsId, Freshness;
    if IsId(p.id) && p.action.Some? && 0 <= p.parameter <= 65535 && 100 <= p.validity <= 2000 && p.id !in g.rows
       && waited < p.validity as real && Freshness(g, now) == GOOD && (p.action.value == ARM || g.armed) {
      var h := g.(sequence := g.sequence + 1);
      StampIssues(h, p, Request(p.action.value, p.parameter, p.validity, actor), waited, now);
      assert h.(sequence := h.sequence - 1) == g;
    }
  }

  /** A request the gateway looks at: an id, a known action, and both numbers in their ranges. */
  ghost predicate WellMade(p: Payload) {
    && 1 <= |p.id| <= 96 && (forall i :: 0 <= i < |p.id| ==> IsIdCharacter(p.id[i]))
    && p.action.Some? && 0 <= p.parameter <= 65535 && 100 <= p.validity <= 2000
  }

  /** A new request that nothing stands in the way of: no other submission, no time lost, a good sample of the last
      300 ms, an armed gateway or an arming, nothing pending or a stop. */
  ghost predicate Admissible(g: Gateway, p: Payload, locked: bool, waited: Duration, now: real) {
    && WellMade(p) && p.id !in g.rows && !locked && waited < p.validity as real
    && g.quality == GOOD && g.lastGood.Some? && now - g.lastGood.value <= 300.0
    && (g.armed || p.action.value == ARM)
    && (p.action.value == STOP || NonePending(g))
  }

  /** Exactly when a command is written: the request is admissible, the sample is younger than the time left, and
      the deadline can be told in 32 bits. A number is used up by every admissible request and by no other. A known
      id is answered with its record exactly when the request is the same. */
  lemma WrittenExactly(g: Gateway, p: Payload, actor: string, locked: bool, waited: Duration, now: real)
    requires Inv(g)
    ensures var d := Submit(g, p, actor, locked, waited, now);
      && (d.Written? <==>
            && Admissible(g, p, locked, waited, now)
            && now - g.lastGood.value < (p.validity - waited.Floor) as real
            && g.sample.value.uptime + p.validity - waited.Floor <= 0xffff_ffff)
      && (d.Refused? ==>
            d.gateway == if Admissible(g, p, locked, waited, now) then g.(sequence := g.sequence + 1) else g)
      && (d.Existing? <==>
            && WellMade(p) && p.id in g.rows
            && g.rows[p.id].request == Request(p.action.value, p.parameter, p.validity, actor))
  {
    assert g.Sampled();
    WellMadeExactly(p);
    FreshExactly(g, now);
    hide Inv, WellMade, IsId, Freshness;
    if WellMade(p) && p.id !in g.rows && waited < p.validity as real { NewExactly(g, p, actor, waited, now); }
    hide Stamp, Gateway.AnyPending;
  }

  /** The last checks, made on a new request that came in time. */
  lemma NewExactly(g: Gateway, p: Payload, actor: string, waited: Duration, now: real)
    requires g.Sampled() && WellMade(p) && p.id !in g.rows && waited < p.validity as real
    ensures var d := Submit(g, p, actor, false, waited, now);
      && (d.Written? <==>
            && Admissible(g, p, false, waited, now)
            && now - g.lastGood.value < (p.validity - waited.Floor) as real
            && g.sample.value.uptime + p.validity - waited.Floor <= 0xffff_ffff)
      && (d.Refused? ==>
            d.gateway == if Admissible(g, p, false, waited, now) then g.(sequence := g.sequence + 1) else g)
      && !d.Existing?
  {
    assert g.AnyPending() <==> !NonePending(g);
    WellMadeExactly(p);
    FreshExactly(g, now);
    hide WellMade, IsId, Stamp, Freshness, NonePending, Gateway.AnyPending;
    if g.lastGood.Some? {
      StampExactly(g.(sequence := g.sequence + 1), p.id, Request(p.action.value, p.parameter, p.validity, actor),
                   waited, now);
    }
  }

  lemma WellMadeExactly(p: Payload)
    ensures WellMade(p) <==>
      IsId(p.id) && p.action.Some? && 0 <= p.parameter <= 65535 && 100 <= p.validity <= 2000
    ensures WellMade(p) ==> p.action.Some? && 0 <= p.parameter <= 65535
  {
    hide IsIdCharacter;
  }

  lemma FreshExactly(g: Gateway, now: real)
    ensures Freshness(g, now) == GOOD <==> g.quality == GOOD && g.lastGood.Some? && now - g.lastGood.value <= 300.0
  {
  }

  lemma StampExactly(g: Gateway, id: Id, request: Request, waited: Duration, now: real)
    requires g.lastGood.Some? && g.sample.Some? && waited < request.validity as real && 0 <= request.parameter <= 65535
    ensures match Stamp(g, id, request, waited, now)
      case Refused(_, h) => h == g
      case Existing(_) => false
      case Written(_, _) => true
    ensures Stamp(g, id, request, waited, now).Written? <==>
      && now - g.lastGood.value < (request.validity - waited.Floor) as real
      && g.sample.value.uptime + request.validity - waited.Floor <= 0xffff_ffff
  {
    hide Command;
  }

  lemma SubmitInv(g: Gateway, p: Payload, h: Gateway, block: Block)
    requires Inv(g) && Issued(g, p, h, block) && (g.AnyPending() ==> p.action.value == STOP)
    ensures Inv(h) && Kept(g.rows, h.rows)
  {
    hide Sequence, Boot, Session, Deadline, ActionOf;
  }

  /** A refusal may use up a sequence number. */
  lemma SkippedNumber(g: Gateway)
    requires Inv(g)
    ensures Inv(g.(sequence := g.sequence + 1))
  {
  }

  lemma SubmitStepInv(g: Gateway, e: Event)
    requires Inv(g) && e.SubmitEvent?
    ensures Inv(Step(g, e)) && Kept(g.rows, Step(g, e).rows)
  {
    assert g.Sampled();
    hide Inv, Kept, Confirm, Submit;
    KeptIsReflexive(g.rows);
    SubmitIssues(g, e.payload, e.actor, e.locked, e.waited, e.at);
    match Submit(g, e.payload, e.actor, e.locked, e.waited, e.at)
    case Refused(_, h) => SkippedNumber(g);
    case Existing(_) =>
    case Written(h, block) =>
      SubmitInv(g, e.payload, h, block);
      ConfirmInv(h, e.payload.action.value, e.reply, e.readAt, e.next);
      KeptIsTransitive(g.rows, h.rows, Step(g, e).rows);
  }

  lemma StepInv(g: Gateway, e: Event)
    requires Inv(g)
    ensures Inv(Step(g, e)) && Kept(g.rows, Step(g, e).rows)
  {
    hide Inv, Kept, Submit, Poll, Confirm, Close, Started;
    match e
    case PollEvent(reply, kept, now, next) => PollInv(g, reply, kept, now, next);
    case SubmitEvent(_, _, _, _, _, _, _, _) => SubmitStepInv(g, e);
    case CloseEvent => CloseInv(g);
    case RestartEvent(next) => StartedInv(g, next);
  }

  lemma CloseInv(g: Gateway)
    requires Inv(g)
    ensures Inv(Close(g)) && Kept(g.rows, Close(g).rows)
  {
    var r := Close(g);
    assert Kept(g.rows, r.rows) && NonePending(r);
    hide Kept, Abandon;
  }

  lemma StartedInv(g: Gateway, next: U32)
    requires Inv(g)
    ensures Inv(Started(g.rows, next)) && Kept(g.rows, Started(g.rows, next).rows)
  {
  }

  ghost function Run(g: Gateway, events: seq<Event>): Gateway
    requires Inv(g)
    ensures Inv(Run(g, events)) && Kept(g.rows, Run(g, events).rows)
  {
    if events == [] then
      g
    else
      var before := Run(g, events[..|events| - 1]);
      StepInv(before, events[|events| - 1]);
      KeptIsTransitive(g.rows, before.rows, Step(before, events[|events| - 1]).rows);
      Step(before, events[|events| - 1])
  }
}
