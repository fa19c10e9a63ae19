/** The gateway and its command records: what each of its calls does, as functions. */
module GatewaySpec {
  import opened Wrappers
  import opened Protocol
  import opened MachineWords

  type Id = string

  /** A record's status is the gateway's own until the device has reported a result. */
  datatype Status = Created | Sent | Reported(result: Result) | Unknown

  datatype Cause = Device(reason: Reason) | Own(text: string)

  datatype Request = Request(action: Action, parameter: int, validity: int, actor: string)

  datatype Record = Record(request: Request, boot: U32, session: U32, sequence: nat,
                           status: Status, reason: Cause, duration: Option<int>) {
    predicate Pending() { status in {Created, Sent, Reported(ACCEPTED)} }
  }

  type Rows = map<Id, Record>

  datatype Quality = OFFLINE | STALE | GOOD

  datatype Gateway = Gateway(
    session: U32, sequence: nat, keepalive: nat, failures: nat, armed: bool,
    sample: Option<Sample>, lastGood: Option<real>, lastHeartbeatChange: Option<real>,
    quality: Quality, error: Option<string>, rows: Rows)
  {
    /** The first good sample sets all three together. */
    predicate Sampled() {
      (sample.Some? <==> lastGood.Some?) && (sample.Some? <==> lastHeartbeatChange.Some?)
    }

    ghost predicate AnyPending() { exists id :: id in rows && rows[id].Pending() }
  }

  // ---- records ----

  function Updated(r: Record, status: Status, reason: Cause, duration: Option<int>): Record {
    if r.status == status && r.reason == reason then r
    else r.(status := status, reason := reason, duration := if duration.Some? then duration else r.duration)
  }

  /** Every pending record becomes UNKNOWN. */
  function Abandon(rows: Rows, reason: string): Rows {
    map id | id in rows :: if rows[id].Pending() then Updated(rows[id], Unknown, Own(reason), None) else rows[id]
  }

  function Started(rows: Rows, session: U32): Gateway {
    Gateway(session, 0, 0, 0, false, None, None, None, OFFLINE, Some("WAITING_FOR_DEVICE"),
            Abandon(rows, "GATEWAY_RESTART"))
  }

  // ---- failures and samples ----

  function Fail(g: Gateway, reason: string, next: U32): Gateway {
    var h := if g.failures == 0 then
               g.(armed := false, session := next, sequence := 0, keepalive := 0, rows := Abandon(g.rows, reason))
             else g;
    h.(failures := h.failures + 1, quality := if h.failures + 1 >= 3 then OFFLINE else STALE, error := Some(reason))
  }

  /** What a sample says about one record of the current session. */
  function Matched(r: Record, session: U32, sample: Sample): Record {
    if !r.Pending() || r.boot != sample.boot || r.session != session then r
    else if r.sequence == sample.finishedSequence then
      Updated(r, Reported(sample.finishedResult), Device(sample.finishedReason), Some(sample.finishedDuration))
    else if r.sequence == sample.ackSequence then
      Updated(r, Reported(sample.ackResult), Device(sample.ackReason), None)
    else r
  }

  function MatchAll(rows: Rows, session: U32, sample: Sample): Rows {
    map id | id in rows :: Matched(rows[id], session, sample)
  }

  /** A restarted device or a lost session revokes the arming. */
  function Revoke(g: Gateway, sample: Sample, next: U32): Gateway {
    var h := if g.sample.Some? && sample.boot != g.sample.value.boot then Fail(g, "DEVICE_RESTART", next) else g;
    if h.armed && sample.owner != h.session then Fail(h, "SESSION_LOST", next) else h
  }

  predicate HeartbeatFrozen(g: Gateway, sample: Sample, now: real)
    requires g.Sampled()
  {
    && g.sample.Some? && sample.boot == g.sample.value.boot && sample.heartbeat == g.sample.value.heartbeat
    && now - g.lastHeartbeatChange.value > 400.0
  }

  function Accept(g: Gateway, sample: Sample, now: real): Gateway {
    var beating := g.sample.None? || sample.boot != g.sample.value.boot || sample.heartbeat != g.sample.value.heartbeat;
    g.(lastHeartbeatChange := if beating then Some(now) else g.lastHeartbeatChange,
       sample := Some(sample), lastGood := Some(now), quality := GOOD, error := None, failures := 0,
       rows := MatchAll(g.rows, g.session, sample))
  }

  /** The flag is false when the sample is refused with an exception. */
  function Observe(g: Gateway, sample: Sample, now: real, next: U32): (Gateway, bool)
    requires g.Sampled()
  {
    var h := Revoke(g, sample, next);
    if HeartbeatFrozen(g, sample, now) then (h, false) else (Accept(h, sample, now), true)
  }

  /** How an exchange with the device ended. */
  datatype Reply = Answer(sample: Sample) | Broken(reason: string)

  /** One turn of the polling loop; the keepalive is written only while armed. */
  function Poll(g: Gateway, reply: Reply, kept: Option<string>, now: real, next: U32): Gateway
    requires g.Sampled()
  {
    match reply
    case Broken(reason) => Fail(g, reason, next)
    case Answer(sample) =>
      var (h, good) := Observe(g, sample, now, next);
      if !good then Fail(h, "FROZEN_HEARTBEAT", next)
      else if !h.armed then h
      else
        var k := h.(keepalive := h.keepalive + 1);
        if kept.Some? then Fail(k, kept.value, next) else k
  }

  // ---- submission ----

  datatype Payload = Payload(id: string, action: Option<Action>, parameter: int, validity: int)

  datatype Dispatch =
    | Refused(message: string, gateway: Gateway)
    | Existing(record: Record)
    | Written(gateway: Gateway, block: Block)

  predicate IsIdCharacter(c: char) {
    'A' <= c <= 'Z' || 'a' <= c <= 'z' || '0' <= c <= '9' || c in {'_', '.', ':', '-'}
  }

  predicate IsId(s: string) { 1 <= |s| <= 96 && forall i :: 0 <= i < |s| ==> IsIdCharacter(s[i]) }

  function Freshness(g: Gateway, now: real): Quality {
    if g.lastGood.None? || now - g.lastGood.value > 750.0 then OFFLINE
    else if now - g.lastGood.value > 300.0 && g.quality == GOOD then STALE
    else g.quality
  }

  const MAX_U32 := 0xffff_ffff

  type Duration = x: real | 0.0 <= x

  /** Everything up to and including the write, at the moment both locks are held; `waited` is how long the
      request has been waiting for them. */
  ghost function Submit(g: Gateway, p: Payload, actor: string, locked: bool, waited: Duration, now: real): Dispatch
    requires g.Sampled()
  {
    if !IsId(p.id) || p.action.None? || !(0 <= p.parameter <= 65535) || !(100 <= p.validity <= 2000) then
      Refused("Invalid request", g)
    else
      var request := Request(p.action.value, p.parameter, p.validity, actor);
      if p.id in g.rows then
        if g.rows[p.id].request == request then Existing(g.rows[p.id])
        else Refused("command_id already used for a different request", g)
      else if locked then Refused("Another submission is in progress; no queue", g)
      else if waited >= p.validity as real then Refused("Command expired before dispatch", g)
      else if Freshness(g, now) != GOOD then Refused("Device data is not fresh", g)
      else if p.action.value != ARM && !g.armed then Refused("Explicit ARM required", g)
      else if g.AnyPending() && p.action.value != STOP then Refused("Motion is pending; only STOP is permitted", g)
      else Stamp(g.(sequence := g.sequence + 1), p.id, request, waited, now)
  }

  /** Sequence number taken: the record is stored and the block written unless the deadline makes no sense.
      The device's last sampled uptime bounds the deadline. */
  function Stamp(g: Gateway, id: Id, request: Request, waited: Duration, now: real): Dispatch
    requires g.lastGood.Some? && g.sample.Some? && waited < request.validity as real && 0 <= request.parameter <= 65535
  {
    var remaining := request.validity - waited.Floor;
    var deadline := g.sample.value.uptime + remaining;
    if now - g.lastGood.value >= remaining as real || deadline > MAX_U32 then
      Refused("Insufficient freshness or uptime range", g)
    else
      var record := Record(request, g.sample.value.boot, g.session, g.sequence, Sent, Device(NO_REASON), None);
      Written(g.(rows := g.rows[id := record]),
              Command(request.action, Low32(g.sequence), request.parameter, record.boot, record.session, deadline))
  }

  /** After the write: observe the sample read back, or fail on any error of the write or the read. */
  function Confirm(g: Gateway, action: Action, reply: Reply, now: real, next: U32): Gateway
    requires g.Sampled()
  {
    match reply
    case Broken(reason) => Fail(g, reason, next)
    case Answer(sample) =>
      var (h, good) := Observe(g, sample, now, next);
      if !good then Fail(h, "ConnectionError", next)
      else if action == ARM && sample.ackSequence == h.sequence && sample.ackResult == COMPLETED then
        h.(armed := sample.owner == h.session)
      else h
  }

  function Close(g: Gateway): Gateway {
    g.(armed := false, rows := Abandon(g.rows, "GATEWAY_STOP"))
  }
}
