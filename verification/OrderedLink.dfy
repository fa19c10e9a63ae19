/** One gateway and the station on a link that loses but does not reorder or repeat: what the command
    records end up saying is what really happened. */
module OrderedLink {
  import opened Wrappers
  import opened Protocol
  import S = StationSpec
  import I = StationInvariant
  import R = StationRuns
  import opened StationHistory
  import opened GatewaySpec
  import G = GatewayRuns
  import opened MachineWords

  /** `wire` holds the blocks written and neither executed nor lost yet, `awaiting` the command whose write
      or read-back is still going on, `sessions` every session number used so far. */
  datatype System = System(
    gateway: Gateway, history: History, now: int, boots: set<U32>, sessions: set<U32>,
    wire: seq<Block>, awaiting: Option<Id>)

  datatype Step =
    | Write(payload: Payload, actor: string, locked: bool, waited: Duration, at: real)
    | Deliver(time: int)
    | Lose
    | ReadBack(time: int, at: real, next: U32)
    | WriteFails(reason: string, next: U32)
    | Polls(time: int, kept: Option<string>, at: real, next: U32)
    | PollFails(reason: string, next: U32)
    | Closes
    | Restarts(next: U32)
    | Ticks(time: int)
    | KeepaliveArrives(values: S.KeepaliveBlock, time: int)
    | Reboots(cfg: S.Timing, time: int)

  function RecordKey(r: Record): Key { Key(r.boot, r.session, Low32(r.sequence)) }

  predicate Unused(s: System, next: U32) { next != 0 && next !in s.sessions }

  /** Reads are answered after everything written before them; a read-back means the write itself was
      acknowledged. Session numbers are drawn at random and taken not to recur. */
  ghost predicate Enabled(s: System, step: Step) {
    match step
    case Write(_, _, _, _, _) => s.awaiting.None? && s.gateway.sequence < MAX_U32
    case Deliver(time) => s.wire != [] && s.now <= time
    case Lose => s.wire != []
    case ReadBack(time, _, next) =>
      && s.awaiting.Some? && s.wire == [] && s.now <= time && Unused(s, next)
      && s.awaiting.value in s.gateway.rows && RecordKey(s.gateway.rows[s.awaiting.value]) in s.history.outcomes
    case WriteFails(_, next) => s.awaiting.Some? && Unused(s, next)
    case Polls(time, _, _, next) => s.awaiting.None? && s.wire == [] && s.now <= time && Unused(s, next)
    case PollFails(_, next) => s.awaiting.None? && Unused(s, next)
    case Closes => true
    case Restarts(next) => Unused(s, next)
    case Ticks(time) => s.now <= time
    case KeepaliveArrives(_, time) => s.now <= time
    case Reboots(cfg, _) => cfg.boot !in s.boots
  }

  function AwaitedAction(s: System): Action {
    if s.awaiting.Some? && s.awaiting.value in s.gateway.rows then s.gateway.rows[s.awaiting.value].request.action
    else STOP
  }

  ghost function Apply(s: System, step: Step): System
    requires s.gateway.Sampled() && S.ActiveCached(s.history.station)
  {
    match step
    case Write(p, actor, locked, waited, at) =>
      (match Submit(s.gateway, p, actor, locked, waited, at)
       case Refused(_, h) => s.(gateway := h)
       case Existing(_) => s
       case Written(h, block) => s.(gateway := h, wire := s.wire + [block], awaiting := Some(p.id)))
    case Deliver(time) =>
      if s.wire == [] then s
      else s.(history := Responded(Ticked(s.history, time), s.wire[0], time), now := time, wire := s.wire[1..])
    case Lose => if s.wire == [] then s else s.(wire := s.wire[1..])
    case ReadBack(time, at, next) =>
      var h := Ticked(s.history, time);
      s.(history := h, now := time, sessions := s.sessions + {next}, awaiting := None,
         gateway := Confirm(s.gateway, AwaitedAction(s), Answer(S.Report(h.station, time)), at, next))
    case WriteFails(reason, next) =>
      s.(sessions := s.sessions + {next}, awaiting := None,
         gateway := Confirm(s.gateway, AwaitedAction(s), Broken(reason), 0.0, next))
    case Polls(time, kept, at, next) =>
      var h := Ticked(s.history, time);
      s.(history := h, now := time, sessions := s.sessions + {next},
         gateway := Poll(s.gateway, Answer(S.Report(h.station, time)), kept, at, next))
    case PollFails(reason, next) =>
      s.(sessions := s.sessions + {next}, gateway := Poll(s.gateway, Broken(reason), None, 0.0, next))
    case Closes => s.(gateway := Close(s.gateway))
    case Restarts(next) =>
      s.(sessions := s.sessions + {next}, awaiting := None, gateway := Started(s.gateway.rows, next))
    case Ticks(time) => s.(history := Ticked(s.history, time), now := time)
    case KeepaliveArrives(values, time) =>
      var h := Ticked(s.history, time);
      s.(history := h.(station := S.Keepalive(s.history.station, values, time).0), now := time)
    case Reboots(cfg, time) =>
      s.(history := History(S.Initial(cfg), s.history.outcomes, None, 0), now := time, boots := s.boots + {cfg.boot})
  }

  // ---- the invariant ----

  /** A reported final result of anything but an arming is the station's own for that command. */
  ghost predicate True(r: Record, outcomes: map<Key, Outcome>) {
    r.request.action != ARM && r.status in {Reported(COMPLETED), Reported(FAILED), Reported(REJECTED)} ==>
      && RecordKey(r) in outcomes
      && r.status == Reported(outcomes[RecordKey(r)].result) && r.reason == Device(outcomes[RecordKey(r)].reason)
  }

  ghost predicate RecordsTrue(s: System) {
    forall id :: id in s.gateway.rows ==> True(s.gateway.rows[id], s.history.outcomes)
  }

  /** Keys are used once: what is on the wire has not been executed, and new commands get new keys. */
  ghost predicate KeysUnique(s: System) {
    && s.gateway.session in s.sessions && 0 !in s.sessions && s.gateway.sequence <= MAX_U32
    && (forall k :: k in s.history.outcomes ==>
          k.session in s.sessions && (k.session == s.gateway.session ==> k.sequence <= s.gateway.sequence))
    && (forall i :: 0 <= i < |s.wire| ==>
          && Session(s.wire[i]) in s.sessions && Sequence(s.wire[i]) != 0 && KeyOf(s.wire[i]) !in s.history.outcomes
          && (Session(s.wire[i]) == s.gateway.session ==> Sequence(s.wire[i]) <= s.gateway.sequence))
    && (forall i, j :: 0 <= i < j < |s.wire| ==> KeyOf(s.wire[i]) != KeyOf(s.wire[j]))
  }

  /** Pending commands were made for the boot last sampled, and all but the awaited one have been executed. */
  ghost predicate PendingExecuted(s: System) {
    forall id :: id in s.gateway.rows && s.gateway.rows[id].Pending() ==>
      && s.gateway.sample.Some? && s.gateway.rows[id].boot == s.gateway.sample.value.boot
      && (s.awaiting != Some(id) ==> RecordKey(s.gateway.rows[id]) in s.history.outcomes)
  }

  ghost predicate Exposed(g: Gateway) {
    g.armed || exists id :: id in g.rows && g.rows[id].Pending() && g.rows[id].request.action != ARM
  }

  /** The station, the wire and the acknowledgement all belong to the gateway's session. */
  ghost predicate Ours(s: System) {
    var boot, session := s.history.station.cfg.boot, s.gateway.session;
    && s.history.space == session
    && (forall i :: 0 <= i < |s.wire| ==> Boot(s.wire[i]) == boot && Session(s.wire[i]) == session)
    && (s.history.last.Some? ==> s.history.last.value.boot == boot && s.history.last.value.session == session)
  }

  ghost predicate SampledBoot(s: System) {
    s.gateway.sample.Some? && s.gateway.sample.value.boot == s.history.station.cfg.boot
  }

  /** The awaited command is the last on the wire; once executed, nothing has been executed after it. */
  ghost predicate AwaitedLast(s: System) {
    s.awaiting.Some? ==>
      && s.awaiting.value in s.gateway.rows && s.gateway.sample.Some? && s.gateway.failures == 0
      && var r := s.gateway.rows[s.awaiting.value];
        && r.session == s.gateway.session && r.sequence == s.gateway.sequence && r.boot == s.gateway.sample.value.boot
        && (forall i :: 0 <= i < |s.wire| && KeyOf(s.wire[i]) == RecordKey(r) ==>
              i == |s.wire| - 1 && ActionOf(s.wire[i][0]) == Some(r.request.action))
        && (RecordKey(r) in s.history.outcomes ==>
              && s.wire == [] && s.history.outcomes[RecordKey(r)].action == Some(r.request.action)
              && (SampledBoot(s) ==>
                    && (s.history.last == Some(RecordKey(r))
                        || (s.history.last.Some? && s.history.last.value.boot == s.history.station.cfg.boot
                            && s.history.last.value.session == s.history.space))
                    && (r.request.action == ARM ==>
                          s.history.outcomes[RecordKey(r)].result in {COMPLETED, REJECTED}
                          && (s.history.outcomes[RecordKey(r)].result == COMPLETED ==> s.history.space == r.session))))
  }

  ghost predicate Inv(s: System) {
    && G.Inv(s.gateway) && I.Consistent(s.history.station, s.now) && Truthful(s.history)
    && s.history.station.cfg.boot in s.boots && (s.gateway.sample.Some? ==> s.gateway.sample.value.boot in s.boots)
    && (s.gateway.armed ==> s.gateway.sample.Some?)
    && RecordsTrue(s) && KeysUnique(s) && PendingExecuted(s) && AwaitedLast(s)
    && (Exposed(s.gateway) && SampledBoot(s) ==> Ours(s))
  }

  // ---- steps of the station ----

  lemma TrueGrows(r: Record, a: map<Key, Outcome>, b: map<Key, Outcome>)
    requires True(r, a) && Grown(a, b)
    ensures True(r, b)
  {
  }

  lemma TickKeeps(s: System, time: int)
    requires Inv(s) && s.now <= time
    ensures var r := s.(history := Ticked(s.history, time), now := time);
      Inv(r) && I.Inv(r.history.station, time) && r.history.outcomes.Keys == s.history.outcomes.Keys
  {
    LaterConsistent(s, time);
    hide I.Consistent, Ticked, S.Tick, Truthful, G.Inv, True, KeyOf, RecordKey, Session, Boot, Sequence, ActionOf,
      Exposed, RecordsTrue, Grown, AwaitedLast, S.ActiveCached, KeysUnique, PendingExecuted, Ours;
    TickedFacts(s.history, time);
    var r := s.(history := Ticked(s.history, time), now := time);
    StillTrue(s, r);
    TickedAwaited(s, r);
    TickedKeys(s, r);
  }

  /** Time passing executes nothing, and what it makes the acknowledgement speak of is the session's. */
  lemma TickedKeys(s: System, r: System)
    requires KeysUnique(s) && PendingExecuted(s) && r == s.(history := r.history, now := r.now)
    requires r.history.outcomes.Keys == s.history.outcomes.Keys
    requires r.history.space == s.history.space && r.history.station.cfg == s.history.station.cfg
    requires r.history.last == s.history.last
      || (r.history.last.Some? && r.history.last.value.session == r.history.space
          && r.history.last.value.boot == r.history.station.cfg.boot)
    ensures KeysUnique(r) && PendingExecuted(r) && (SampledBoot(r) <==> SampledBoot(s)) && (Ours(s) ==> Ours(r))
  {
    hide KeyOf, RecordKey, Session, Boot, Sequence;
    assert forall k :: k in s.history.outcomes <==> k in r.history.outcomes;
  }

  lemma TickedFacts(h: History, time: int)
    requires S.ActiveCached(h.station) && I.Consistent(h.station, time) && Truthful(h)
    ensures var r := Ticked(h, time);
      && I.Inv(r.station, time) && I.Consistent(r.station, time) && Truthful(r)
      && Grown(h.outcomes, r.outcomes) && r.outcomes.Keys == h.outcomes.Keys && r.space == h.space
      && r.station.cfg == h.station.cfg
      && (r.last == h.last
          || (r.last.Some? && r.last.value.session == h.space && r.last.value.boot == h.station.cfg.boot))
  {
    assert h.station.active.Some? ==> h.station.owner != 0;
    hide I.Consistent, S.Tick, Truthful, Ended;
    I.TickInv(h.station, time);
    TickedIsTruthful(h, time);
    TickedGrows(h, time);
    hide Grown;
  }

  /** Time passing settles outcomes and moves the acknowledgement within the session, no more. */
  lemma TickedAwaited(s: System, r: System)
    requires AwaitedLast(s) && r == s.(history := r.history, now := r.now)
    requires Grown(s.history.outcomes, r.history.outcomes) && r.history.outcomes.Keys == s.history.outcomes.Keys
    requires r.history.space == s.history.space && r.history.station.cfg == s.history.station.cfg
    requires r.history.last == s.history.last
      || (r.history.last.Some? && r.history.last.value.session == r.history.space
          && r.history.last.value.boot == r.history.station.cfg.boot)
    ensures AwaitedLast(r)
  {
    hide KeyOf, RecordKey, Session, Boot, Sequence, ActionOf;
    assert forall k :: k in s.history.outcomes ==> k in r.history.outcomes;
  }

  /** The first block on the wire is executed, right after a tick of the station. */
  lemma ExecuteKeeps(s: System)
    requires Inv(s) && I.Inv(s.history.station, s.now) && s.wire != []
    ensures Inv(s.(history := Responded(s.history, s.wire[0], s.now), wire := s.wire[1..]))
  {
    hide I.Consistent, I.Inv, Responded, Truthful, G.Inv, True, Boot, Sequence, ActionOf, Exposed, RecordKey, Session;
    var v := s.wire[0];
    assert KeyOf(v) !in s.history.outcomes && Sequence(v) != 0;
    LaterConsistent(s, s.now);
    RespondedIsTruthful(s.history, v, s.now);
    RespondedGrows(s.history, v, s.now);
    RespondedConsistent(s.history, v, s.now);
    var r := s.(history := Responded(s.history, v, s.now), wire := s.wire[1..]);
    StillTrue(s, r);
    AwaitedExecuted(s, r);
    ExecutedKeys(s, r);
    hide AwaitedLast, RecordsTrue, KeysUnique;
  }

  lemma StillTrue(s: System, r: System)
    requires RecordsTrue(s) && r.gateway == s.gateway && Grown(s.history.outcomes, r.history.outcomes)
    ensures RecordsTrue(r)
  {
    hide True, Grown;
    forall id | id in s.gateway.rows ensures True(s.gateway.rows[id], r.history.outcomes) {
      TrueGrows(s.gateway.rows[id], s.history.outcomes, r.history.outcomes);
    }
  }

  lemma ExecutedKeys(s: System, r: System)
    requires KeysUnique(s) && s.wire != [] && r.wire == s.wire[1..]
    requires r.gateway == s.gateway && r.sessions == s.sessions
    requires r.history.outcomes.Keys == s.history.outcomes.Keys + {KeyOf(s.wire[0])}
    ensures KeysUnique(r)
  {
    hide Boot, Session, Sequence;
    assert forall k :: k in r.history.outcomes ==> k in s.history.outcomes.Keys || k == KeyOf(s.wire[0]);
  }

  /** If the executed block is the awaited command's, the wire is empty now. */
  lemma AwaitedExecuted(s: System, r: System)
    requires AwaitedLast(s) && s.wire != [] && r.gateway == s.gateway && r.awaiting == s.awaiting
    requires r.wire == s.wire[1..] && r.history.station.cfg == s.history.station.cfg
    requires Grown(s.history.outcomes, r.history.outcomes)
    requires var k := KeyOf(s.wire[0]);
      && r.history.outcomes.Keys == s.history.outcomes.Keys + {k} && r.history.last == Some(k)
      && r.history.outcomes[k].action == ActionOf(s.wire[0][0])
      && (S.IsArm(s.wire[0]) ==>
           && r.history.outcomes[k].result in {COMPLETED, REJECTED}
           && (r.history.outcomes[k].result == COMPLETED ==> r.history.space == Session(s.wire[0])))
    ensures AwaitedLast(r)
  {
    hide Boot, Session, Sequence, ActionOf;
  }

  lemma RespondedConsistent(h: History, v: Block, now: int)
    requires I.Inv(h.station, now)
    ensures I.Consistent(Responded(h, v, now).station, now)
  {
    I.RespondInv(h.station, v, now);
    hide I.Inv, S.Respond;
  }

  lemma LoseKeeps(s: System)
    requires Inv(s) && s.wire != []
    ensures Inv(s.(wire := s.wire[1..]))
  {
    hide I.Consistent, Truthful, G.Inv, True, KeyOf, RecordKey, Boot, Sequence, ActionOf, Exposed;
  }

  lemma StationSwap(s: System, station: S.Station)
    requires Inv(s) && I.Consistent(station, s.now) && Truthful(s.history.(station := station))
    requires station.cfg == s.history.station.cfg
    ensures Inv(s.(history := s.history.(station := station)))
  {
    hide I.Consistent, Truthful, G.Inv, True, KeyOf, RecordKey, Session, Boot, Sequence, ActionOf, Exposed;
  }

  lemma LaterConsistent(s: System, time: int)
    requires Inv(s) && s.now <= time
    ensures I.Consistent(s.history.station, time) && S.ActiveCached(s.history.station)
  {
  }

  /** A keepalive moves the lease and nothing a record depends on. */
  lemma KeepaliveKeeps(s: System, values: S.KeepaliveBlock, time: int)
    requires Inv(s) && s.now <= time
    ensures Inv(Apply(s, KeepaliveArrives(values, time)))
  {
    LaterConsistent(s, time);
    hide *;
    I.KeepaliveInv(s.history.station, values, time);
    TickKeeps(s, time);
    var t := s.(history := Ticked(s.history, time), now := time);
    Parts(t);
    KeepaliveTruthful(s.history, values, time);
    KeepaliveApplies(s, values, time);
    StationSwap(t, S.Keepalive(s.history.station, values, time).0);
  }

  lemma Parts(s: System)
    requires Inv(s)
    ensures Truthful(s.history) && s.gateway.Sampled() && G.Inv(s.gateway)
  {
  }

  lemma KeepaliveApplies(s: System, values: S.KeepaliveBlock, time: int)
    requires S.ActiveCached(s.history.station) && s.gateway.Sampled()
    ensures var t := s.(history := Ticked(s.history, time), now := time);
      Apply(s, KeepaliveArrives(values, time))
        == t.(history := t.history.(station := S.Keepalive(s.history.station, values, time).0))
  {
    hide Ticked, S.Keepalive;
  }

  lemma KeepaliveTruthful(h: History, values: S.KeepaliveBlock, time: int)
    requires S.ActiveCached(h.station) && Truthful(Ticked(h, time))
    ensures Truthful(Ticked(h, time).(station := S.Keepalive(h.station, values, time).0))
    ensures S.Keepalive(h.station, values, time).0.cfg == S.Tick(h.station, time).cfg
  {
    hide S.Tick, Ended;
  }

  lemma RebootKeeps(s: System, cfg: S.Timing, time: int)
    requires Inv(s) && cfg.boot !in s.boots
    ensures Inv(Apply(s, Reboots(cfg, time)))
  {
    hide G.Inv, True, KeyOf, RecordKey, Session, Boot, Sequence, ActionOf, Exposed, I.Consistent, S.Initial, Truthful,
      S.ActiveCached;
    LaterConsistent(s, s.now);
    Parts(s);
    InitialConsistent(cfg, time);
    var r := Apply(s, Reboots(cfg, time));
    assert r.history.station.cfg == cfg && r.gateway == s.gateway && r.history.outcomes == s.history.outcomes;
    assert !SampledBoot(r);
    assert RecordsTrue(r) && KeysUnique(r) && PendingExecuted(r);
    hide Apply, RecordsTrue, KeysUnique, PendingExecuted, Ours;
  }

  lemma InitialConsistent(cfg: S.Timing, time: int)
    ensures I.Consistent(S.Initial(cfg), time) && S.Initial(cfg).cfg == cfg
    ensures forall outcomes :: Truthful(History(S.Initial(cfg), outcomes, None, 0))
  {
    I.InitialConsistent(cfg, time);
    hide I.Consistent;
  }

  // ---- steps of the gateway ----

  /** Records are as they were, or UNKNOWN. */
  ghost predicate Settled(a: Rows, b: Rows) {
    && b.Keys == a.Keys
    && forall id :: id in a ==> b[id] == a[id] || (b[id].status == Unknown && b[id].request == a[id].request)
  }

  /** No command has been issued under the session number. */
  ghost predicate Unclaimed(s: System, next: U32) {
    && next != 0
    && (forall k :: k in s.history.outcomes ==> k.session != next)
    && (forall i :: 0 <= i < |s.wire| ==> Session(s.wire[i]) != next)
  }

  lemma UnusedIsUnclaimed(s: System, next: U32)
    requires Inv(s) && Unused(s, next)
    ensures Unclaimed(s, next) && next != 0
  {
    hide I.Consistent, Truthful, G.Inv;
  }

  /** A gateway that has nothing pending and is not armed may start over under an unused session. */
  lemma DisarmedKeeps(s: System, h: Gateway, next: U32)
    requires Inv(s) && next != 0 && G.Inv(h) && !h.armed && G.NonePending(h) && Settled(s.gateway.rows, h.rows)
    requires (h.session == s.gateway.session && h.sequence == s.gateway.sequence)
      || (h.session == next && h.sequence == 0 && Unclaimed(s, next))
    requires h.sample.Some? ==> h.sample.value.boot in s.boots
    ensures Inv(s.(gateway := h, sessions := s.sessions + {next}, awaiting := None))
  {
    hide I.Consistent, Truthful, G.Inv, KeyOf, RecordKey, Session, Boot, Sequence, ActionOf, Ours;
  }

  lemma FailDisarms(g: Gateway, reason: string, next: U32)
    requires G.Inv(g)
    ensures var h := Fail(g, reason, next);
      && G.Inv(h) && !h.armed && G.NonePending(h) && Settled(g.rows, h.rows) && h.sample == g.sample
      && (if g.failures == 0 then h.session == next && h.sequence == 0
          else h.session == g.session && h.sequence == g.sequence)
  {
    G.FailInv(g, reason, next);
    hide G.Inv, G.Kept;
  }

  /** A sample that does not fit the gateway's session disarms it. */
  lemma RevokeDisarms(g: Gateway, sample: Sample, next: U32)
    requires G.Inv(g) && Revoke(g, sample, next) != g
    ensures var h := Revoke(g, sample, next);
      && G.Inv(h) && !h.armed && G.NonePending(h) && Settled(g.rows, h.rows) && h.sample == g.sample
      && (g.failures == 0 ==> h.session == next && h.sequence == 0)
      && ((h.session == g.session && h.sequence == g.sequence) || (h.session == next && h.sequence == 0))
  {
    FailDisarms(g, "DEVICE_RESTART", next);
    FailDisarms(g, "SESSION_LOST", next);
    hide G.Inv, Fail;
  }

  lemma IdleAccept(g: Gateway, sample: Sample, now: real)
    requires G.Inv(g) && G.NonePending(g)
    ensures Accept(g, sample, now).rows == g.rows && G.NonePending(Accept(g, sample, now))
  {
  }

  /** A device's report matched against a record of the gateway's session tells the truth about it. */
  lemma MatchIsTrue(s: System, id: Id)
    requires Inv(s) && s.wire == [] && id in s.gateway.rows && SampledBoot(s)
    requires s.awaiting == Some(id) ==> RecordKey(s.gateway.rows[id]) in s.history.outcomes
    ensures var r := s.gateway.rows[id];
      True(Matched(r, s.gateway.session, S.Report(s.history.station, s.now)), s.history.outcomes)
  {
    hide I.Consistent, S.Limits, S.Round;
    var r := s.gateway.rows[id];
    if r.Pending() && r.request.action != ARM {
      assert Ours(s) && r.sequence >= 1 && r.sequence <= MAX_U32;
      assert RecordKey(r) == Key(s.history.station.cfg.boot, s.history.space, r.sequence);
      hide KeysUnique, PendingExecuted, AwaitedLast, RecordsTrue, G.Inv;
    } else {
      assert True(r, s.history.outcomes);
      hide Inv;
    }
  }

  /** What a fitting sample makes of the records. */
  ghost predicate TrulyMatched(s: System, rows: Rows) {
    && rows.Keys == s.gateway.rows.Keys
    && forall id :: id in rows ==>
      && RecordKey(rows[id]) == RecordKey(s.gateway.rows[id]) && rows[id].request == s.gateway.rows[id].request
      && rows[id].boot == s.gateway.rows[id].boot
      && (rows[id].Pending() ==> s.gateway.rows[id].Pending())
      && True(rows[id], s.history.outcomes)
  }

  lemma MatchedTruly(s: System, sample: Sample)
    requires Inv(s) && s.wire == [] && sample == S.Report(s.history.station, s.now)
    requires s.awaiting.Some? ==> RecordKey(s.gateway.rows[s.awaiting.value]) in s.history.outcomes
    requires s.gateway.sample.Some? ==> SampledBoot(s)
    ensures TrulyMatched(s, MatchAll(s.gateway.rows, s.gateway.session, sample))
  {
    hide G.Inv, I.Consistent, Truthful, KeysUnique, AwaitedLast, Exposed, Ours, S.Report, RecordKey;
    var g := s.gateway;
    forall id | id in g.rows ensures True(Matched(g.rows[id], g.session, sample), s.history.outcomes) {
      if g.sample.Some? {
        MatchIsTrue(s, id);
      } else {
        assert !g.rows[id].Pending() && True(g.rows[id], s.history.outcomes);
      }
    }
    hide Inv, True;
    MatchKeepsKeys(s, sample);
  }

  lemma MatchKeepsKeys(s: System, sample: Sample)
    ensures var rows := MatchAll(s.gateway.rows, s.gateway.session, sample);
      && rows.Keys == s.gateway.rows.Keys
      && forall id :: id in rows ==>
        && rows[id] == Matched(s.gateway.rows[id], s.gateway.session, sample)
        && RecordKey(rows[id]) == RecordKey(s.gateway.rows[id]) && rows[id].request == s.gateway.rows[id].request
        && rows[id].boot == s.gateway.rows[id].boot && (rows[id].Pending() ==> s.gateway.rows[id].Pending())
  {
  }

  lemma SampledKeeps(s: System, h: Gateway, next: U32)
    requires Inv(s) && s.wire == [] && Unclaimed(s, next) && G.Inv(h) && TrulyMatched(s, h.rows)
    requires s.awaiting.Some? ==> RecordKey(s.gateway.rows[s.awaiting.value]) in s.history.outcomes
    requires s.gateway.sample.Some? ==> SampledBoot(s)
    requires h.session == s.gateway.session && h.sequence == s.gateway.sequence && h.armed == s.gateway.armed
    requires h.sample.Some? && h.sample.value.boot == s.history.station.cfg.boot
    ensures var r := s.(gateway := h, sessions := s.sessions + {next}, awaiting := None);
      Inv(r) && SampledBoot(r) && Unclaimed(r, next)
  {
    hide I.Consistent, Truthful, True, G.Inv, KeyOf, RecordKey, Session, Boot, Sequence, ActionOf;
  }

  /** A fitting sample settles the records it speaks of, truthfully. */
  lemma AcceptKeeps(s: System, at: real, next: U32)
    requires Inv(s) && s.wire == [] && Unclaimed(s, next)
    requires s.awaiting.Some? ==> RecordKey(s.gateway.rows[s.awaiting.value]) in s.history.outcomes
    requires Revoke(s.gateway, S.Report(s.history.station, s.now), next) == s.gateway
    ensures var h := Accept(s.gateway, S.Report(s.history.station, s.now), at);
      var r := s.(gateway := h, sessions := s.sessions + {next}, awaiting := None);
      Inv(r) && SampledBoot(r) && Unclaimed(r, next) && h.failures == 0
  {
    var sample := S.Report(s.history.station, s.now);
    G.AcceptInv(s.gateway, sample, at);
    assert s.gateway.sample.Some? ==> SampledBoot(s) by { hide Inv; }
    MatchedTruly(s, sample);
    hide Inv, G.Inv, MatchAll, Revoke, TrulyMatched;
    SampledKeeps(s, Accept(s.gateway, sample, at), next);
  }

  /** An acknowledged arming finds the station, the wire and the registers in the gateway's session. */
  lemma ArmKeeps(s: System, r: System)
    requires Inv(s) && s.wire == [] && s.awaiting.Some? && SampledBoot(s)
    requires RecordKey(s.gateway.rows[s.awaiting.value]) in s.history.outcomes
    requires Inv(r) && r.history == s.history && r.wire == [] && r.awaiting.None? && r.gateway.failures == 0
    requires r.gateway.session == s.gateway.session && r.gateway.sample.Some?
    requires r.history.station.owner == r.gateway.session
    ensures Inv(r.(gateway := r.gateway.(armed := true)))
  {
    hide I.Consistent, True, KeyOf, Session, Boot, Sequence, ActionOf, RecordsTrue, PendingExecuted;
    assert r.gateway.session != 0 && r.history.space == r.gateway.session;
    assert Ours(r) by { hide G.Inv; }
    assert G.Inv(r.gateway.(armed := true)) by { hide Truthful, AwaitedLast, KeysUnique, Ours; }
    ArmedSame(r);
    hide Truthful, G.Inv, Ours, AwaitedLast, KeysUnique;
  }

  lemma ArmedSame(r: System)
    ensures var a := r.(gateway := r.gateway.(armed := true));
      && (RecordsTrue(r) ==> RecordsTrue(a)) && (KeysUnique(r) ==> KeysUnique(a)) && (Ours(r) ==> Ours(a))
      && (PendingExecuted(r) ==> PendingExecuted(a)) && (AwaitedLast(r) ==> AwaitedLast(a))
  {
    hide True, KeyOf, RecordKey, Session, Boot, Sequence, ActionOf;
  }

  lemma DisarmKeeps(r: System)
    requires Inv(r)
    ensures Inv(r.(gateway := r.gateway.(armed := false)))
  {
    hide I.Consistent, True, KeyOf, Session, Boot, Sequence, ActionOf, Truthful;
  }

  /** After a failure, whatever the gateway knew before, nothing is pending and every record is still true. */
  lemma FailKeeps(s: System, reason: string, next: U32)
    requires Inv(s) && Unclaimed(s, next)
    ensures Inv(s.(gateway := Fail(s.gateway, reason, next), sessions := s.sessions + {next}, awaiting := None))
  {
    FailDisarms(s.gateway, reason, next);
    hide G.Inv, Fail, G.NonePending, Settled;
    assert s.gateway.sample.Some? ==> s.gateway.sample.value.boot in s.boots;
    hide Inv;
    DisarmedKeeps(s, Fail(s.gateway, reason, next), next);
  }

  lemma SettledTwice(a: Rows, b: Rows, c: Rows)
    requires Settled(a, b) && Settled(b, c)
    ensures Settled(a, c)
  {
  }

  /** A sample from a restarted device or a lost session leaves nothing pending, in whatever way it ends. */
  lemma RevokedKeeps(s: System, at: real, reason: string, next: U32)
    requires Inv(s) && Unclaimed(s, next)
    requires Revoke(s.gateway, S.Report(s.history.station, s.now), next) != s.gateway
    ensures var g := Revoke(s.gateway, S.Report(s.history.station, s.now), next);
      var h := Accept(g, S.Report(s.history.station, s.now), at);
      && Inv(s.(gateway := h, sessions := s.sessions + {next}, awaiting := None)) && !h.armed
      && Inv(s.(gateway := Fail(g, reason, next), sessions := s.sessions + {next}, awaiting := None))
      && (s.gateway.failures == 0 ==> h.sequence == 0)
  {
    var sample := S.Report(s.history.station, s.now);
    assert sample.boot in s.boots;
    var g := Revoke(s.gateway, sample, next);
    var h := Accept(g, sample, at);
    RevokeDisarms(s.gateway, sample, next);
    IdleAccept(g, sample, at);
    G.AcceptInv(g, sample, at);
    FailDisarms(g, reason, next);
    SettledTwice(s.gateway.rows, g.rows, Fail(g, reason, next).rows);
    assert h.session == g.session && h.sequence == g.sequence && h.sample == Some(sample);
    assert g.sample.Some? ==> g.sample.value.boot in s.boots;
    hide Inv, G.Inv, Fail, Revoke, Accept, S.Report, Settled, G.NonePending, Unclaimed;
    DisarmedKeeps(s, h, next);
    DisarmedKeeps(s, Fail(g, reason, next), next);
  }

  lemma CounterKeeps(s: System)
    requires Inv(s)
    ensures Inv(s.(gateway := s.gateway.(keepalive := s.gateway.keepalive + 1)))
  {
    hide I.Consistent, True, KeyOf, Session, Boot, Sequence, ActionOf, Truthful, RecordKey;
  }

  lemma PollUnfold(g: Gateway, sample: Sample, kept: Option<string>, at: real, next: U32)
    requires g.Sampled()
    ensures var h := Accept(Revoke(g, sample, next), sample, at);
      var k := h.(keepalive := h.keepalive + 1);
      Poll(g, Answer(sample), kept, at, next) ==
        if HeartbeatFrozen(g, sample, at) then Fail(Revoke(g, sample, next), "FROZEN_HEARTBEAT", next)
        else if !h.armed then h
        else if kept.Some? then Fail(k, kept.value, next) else k
  {
    hide Fail, Revoke, Accept, HeartbeatFrozen;
  }

  lemma ConfirmUnfold(g: Gateway, action: Action, sample: Sample, at: real, next: U32)
    requires g.Sampled()
    ensures var h := Accept(Revoke(g, sample, next), sample, at);
      Confirm(g, action, Answer(sample), at, next) ==
        if HeartbeatFrozen(g, sample, at) then Fail(Revoke(g, sample, next), "ConnectionError", next)
        else if action == ARM && sample.ackSequence == h.sequence && sample.ackResult == COMPLETED then
          h.(armed := sample.owner == h.session)
        else h
  {
    hide Fail, Revoke, Accept, HeartbeatFrozen;
  }

  lemma KeepaliveSent(r: System, kept: Option<string>, next: U32)
    requires Inv(r) && Unclaimed(r, next) && next in r.sessions && r.awaiting.None?
    ensures var k := r.gateway.(keepalive := r.gateway.keepalive + 1);
      Inv(r.(gateway := if kept.Some? then Fail(k, kept.value, next) else k))
  {
    hide Inv, Unclaimed, Fail;
    CounterKeeps(r);
    var k := r.(gateway := r.gateway.(keepalive := r.gateway.keepalive + 1));
    ClaimsIgnoreGateway(r, k, next);
    if kept.Some? {
      FailKeeps(k, kept.value, next);
      assert k.sessions + {next} == k.sessions;
    }
  }

  /** The branches of one poll that starts from a sample the gateway accepts as its own. */
  lemma PollFits(t: System, kept: Option<string>, at: real, next: U32)
    requires Inv(t) && t.wire == [] && t.awaiting.None? && Unclaimed(t, next)
    requires Revoke(t.gateway, S.Report(t.history.station, t.now), next) == t.gateway
    ensures var h := Accept(t.gateway, S.Report(t.history.station, t.now), at);
      var k := h.(keepalive := h.keepalive + 1);
      var r := t.(gateway := h, sessions := t.sessions + {next}, awaiting := None);
      && Inv(r) && Inv(r.(gateway := if kept.Some? then Fail(k, kept.value, next) else k))
      && Inv(r.(gateway := Fail(t.gateway, "FROZEN_HEARTBEAT", next)))
  {
    var h := Accept(t.gateway, S.Report(t.history.station, t.now), at);
    hide Inv, Unclaimed, Fail, Revoke, Accept, S.Report, SampledBoot;
    FailKeeps(t, "FROZEN_HEARTBEAT", next);
    AcceptKeeps(t, at, next);
    KeepaliveSent(t.(gateway := h, sessions := t.sessions + {next}, awaiting := None), kept, next);
  }

  lemma PollRevoked(t: System, kept: Option<string>, at: real, next: U32)
    requires Inv(t) && t.wire == [] && t.awaiting.None? && Unclaimed(t, next)
    requires Revoke(t.gateway, S.Report(t.history.station, t.now), next) != t.gateway
    ensures Inv(t.(sessions := t.sessions + {next}, awaiting := None,
                   gateway := Poll(t.gateway, Answer(S.Report(t.history.station, t.now)), kept, at, next)))
  {
    var sample := S.Report(t.history.station, t.now);
    assert t.gateway.Sampled();
    PollUnfold(t.gateway, sample, kept, at, next);
    hide *;
    RevokedKeeps(t, at, "FROZEN_HEARTBEAT", next);
  }

  lemma PollAnswered(t: System, kept: Option<string>, at: real, next: U32)
    requires Inv(t) && t.wire == [] && t.awaiting.None? && Unclaimed(t, next)
    ensures Inv(t.(sessions := t.sessions + {next}, awaiting := None,
                   gateway := Poll(t.gateway, Answer(S.Report(t.history.station, t.now)), kept, at, next)))
  {
    var sample := S.Report(t.history.station, t.now);
    assert t.gateway.Sampled();
    if Revoke(t.gateway, sample, next) != t.gateway {
      hide *;
      PollRevoked(t, kept, at, next);
    } else {
      PollFitting(t, kept, at, next);
    }
  }

  lemma PollFitting(t: System, kept: Option<string>, at: real, next: U32)
    requires Inv(t) && t.wire == [] && t.awaiting.None? && Unclaimed(t, next) && t.gateway.Sampled()
    requires Revoke(t.gateway, S.Report(t.history.station, t.now), next) == t.gateway
    ensures Inv(t.(sessions := t.sessions + {next}, awaiting := None,
                   gateway := Poll(t.gateway, Answer(S.Report(t.history.station, t.now)), kept, at, next)))
  {
    hide *;
    var sample := S.Report(t.history.station, t.now);
    var h := Accept(t.gateway, sample, at);
    PollUnfold(t.gateway, sample, kept, at, next);
    PollFits(t, kept, at, next);
    if HeartbeatFrozen(t.gateway, sample, at) {
      assert Poll(t.gateway, Answer(sample), kept, at, next) == Fail(t.gateway, "FROZEN_HEARTBEAT", next);
    } else if !h.armed {
      assert Poll(t.gateway, Answer(sample), kept, at, next) == h;
    }
  }

  lemma ClaimsIgnoreGateway(r: System, k: System, next: U32)
    requires Unclaimed(r, next) && k.history == r.history && k.wire == r.wire
    ensures Unclaimed(k, next)
  {
  }

  lemma ReadBackAnswered(t: System, at: real, next: U32)
    requires Inv(t) && t.wire == [] && t.awaiting.Some? && Unclaimed(t, next)
    requires RecordKey(t.gateway.rows[t.awaiting.value]) in t.history.outcomes
    ensures Inv(t.(sessions := t.sessions + {next}, awaiting := None,
      gateway := Confirm(t.gateway, AwaitedAction(t), Answer(S.Report(t.history.station, t.now)), at, next)))
  {
    var sample := S.Report(t.history.station, t.now);
    assert t.gateway.Sampled() && t.gateway.failures == 0;
    assert sample.ackSequence == 0 ==> sample.ackResult == NO_RESULT;
    assert sample.owner == t.history.station.owner;
    assert Revoke(t.gateway, sample, next) == t.gateway ==> SampledBoot(t);
    ConfirmUnfold(t.gateway, AwaitedAction(t), sample, at, next);
    hide Inv, Unclaimed, Fail, Revoke, Accept, HeartbeatFrozen, S.Report, SampledBoot, RecordKey, Confirm,
      AwaitedAction;
    if Revoke(t.gateway, sample, next) != t.gateway {
      RevokedKeeps(t, at, "ConnectionError", next);
    } else {
      FailKeeps(t, "ConnectionError", next);
      AcceptKeeps(t, at, next);
      var r := t.(gateway := Accept(t.gateway, sample, at), sessions := t.sessions + {next}, awaiting := None);
      assert r.gateway.session == t.gateway.session && r.gateway.sample == Some(sample) by {
        AcceptSession(t.gateway, sample, at);
      }
      DisarmKeeps(r);
      if sample.owner == r.gateway.session { ArmKeeps(t, r); }
    }
  }

  lemma AcceptSession(g: Gateway, sample: Sample, at: real)
    ensures var h := Accept(g, sample, at);
      h.session == g.session && h.sample == Some(sample) && h.sequence == g.sequence
  {
  }

  lemma WriteKeeps(s: System, p: Payload, h: Gateway, block: Block)
    requires Inv(s) && s.awaiting.None? && s.gateway.sequence < MAX_U32
    requires G.Issued(s.gateway, p, h, block) && (s.gateway.AnyPending() ==> p.action.value == STOP)
    ensures Inv(s.(gateway := h, wire := s.wire + [block], awaiting := Some(p.id)))
  {
    hide I.Consistent, G.Inv, Truthful, KeyOf, Sequence, Session, Boot, ActionOf;
    G.SubmitInv(s.gateway, p, h, block);
    var r := s.(gateway := h, wire := s.wire + [block], awaiting := Some(p.id));
    NewKey(s, p, h, block);
    WrittenKeys(s, p, h, block);
    assert RecordsTrue(r);
    hide KeysUnique, RecordsTrue;
    assert PendingExecuted(r) && AwaitedLast(r) by { hide Exposed; }
    assert Exposed(h) && SampledBoot(r) ==> Ours(r);
  }

  /** A new command has a key that nothing on the wire and nothing executed has. */
  lemma NewKey(s: System, p: Payload, h: Gateway, block: Block)
    requires KeysUnique(s) && s.gateway.sequence < MAX_U32 && G.Issued(s.gateway, p, h, block)
    ensures KeyOf(block) == RecordKey(h.rows[p.id]) && KeyOf(block) !in s.history.outcomes
    ensures forall i :: 0 <= i < |s.wire| ==> KeyOf(s.wire[i]) != KeyOf(block)
    ensures Sequence(block) == s.gateway.sequence + 1 && Session(block) == s.gateway.session
    ensures Boot(block) == s.gateway.sample.value.boot
  {
    hide Boot, Session, Sequence, ActionOf;
  }

  lemma WrittenKeys(s: System, p: Payload, h: Gateway, block: Block)
    requires KeysUnique(s) && s.gateway.sequence < MAX_U32 && G.Issued(s.gateway, p, h, block)
    ensures KeysUnique(s.(gateway := h, wire := s.wire + [block], awaiting := Some(p.id)))
  {
    NewKey(s, p, h, block);
    hide Boot, Session, Sequence, ActionOf, KeyOf;
  }

  lemma WriteStepKeeps(s: System, step: Step)
    requires Inv(s) && Enabled(s, step) && step.Write?
    ensures Inv(Apply(s, step))
  {
    G.SubmitIssues(s.gateway, step.payload, step.actor, step.locked, step.waited, step.at);
    hide Inv, G.Issued, Submit;
    match Submit(s.gateway, step.payload, step.actor, step.locked, step.waited, step.at)
    case Refused(_, h) => NumberSkipped(s);
    case Existing(_) =>
    case Written(h, block) => WriteKeeps(s, step.payload, h, block);
  }

  lemma TickClaims(s: System, time: int, next: U32)
    requires S.ActiveCached(s.history.station) && Unclaimed(s, next)
    requires Ticked(s.history, time).outcomes.Keys == s.history.outcomes.Keys
    ensures Unclaimed(s.(history := Ticked(s.history, time), now := time), next)
  {
    hide Ticked, S.ActiveCached;
    assert forall k :: k in Ticked(s.history, time).outcomes ==> k in s.history.outcomes;
  }

  /** The exchanges that are answered after a tick of the station. */
  lemma AnsweredKeeps(s: System, step: Step)
    requires Inv(s) && Enabled(s, step) && (step.ReadBack? || step.Polls?)
    ensures Inv(Apply(s, step))
  {
    hide Inv, I.Inv, Ticked, Confirm, Poll, S.Report, RecordKey, S.ActiveCached, Unused, Unclaimed;
    Parts(s);
    LaterConsistent(s, s.now);
    UnusedIsUnclaimed(s, step.next);
    TickKeeps(s, step.time);
    var t := s.(history := Ticked(s.history, step.time), now := step.time);
    TickClaims(s, step.time, step.next);
    if step.Polls? { PollAnswered(t, step.kept, step.at, step.next); } else { ReadBackAnswered(t, step.at, step.next); }
  }

  lemma StepKeeps(s: System, step: Step)
    requires Inv(s) && Enabled(s, step)
    ensures Inv(Apply(s, step))
  {
    hide Inv, I.Inv, Ticked, Responded, Fail, S.ActiveCached, Submit, Started, S.Keepalive, RecordKey;
    Parts(s);
    LaterConsistent(s, s.now);
    match step
    case Write(_, _, _, _, _) => WriteStepKeeps(s, step);
    case ReadBack(_, _, _) => AnsweredKeeps(s, step);
    case Polls(_, _, _, _) => AnsweredKeeps(s, step);
    case Deliver(time) =>
      TickKeeps(s, time);
      ExecuteKeeps(s.(history := Ticked(s.history, time), now := time));
    case Lose => LoseKeeps(s);
    case WriteFails(reason, next) =>
      UnusedIsUnclaimed(s, next);
      FailKeeps(s, reason, next);
    case PollFails(reason, next) =>
      UnusedIsUnclaimed(s, next);
      FailKeeps(s, reason, next);
    case Closes => ClosesKeeps(s);
    case Restarts(next) => RestartsKeeps(s, next);
    case Ticks(time) => TickKeeps(s, time);
    case KeepaliveArrives(values, time) => KeepaliveKeeps(s, values, time);
    case Reboots(cfg, time) => RebootKeeps(s, cfg, time);
  }

  lemma NumberSkipped(s: System)
    requires Inv(s) && s.awaiting.None? && s.gateway.sequence < MAX_U32
    ensures Inv(s.(gateway := s.gateway.(sequence := s.gateway.sequence + 1)))
  {
    G.SkippedNumber(s.gateway);
    hide I.Consistent, Truthful, True, G.Inv, KeyOf, RecordKey, Session, Boot, Sequence, ActionOf;
  }

  lemma ClosesKeeps(s: System)
    requires Inv(s)
    ensures Inv(s.(gateway := Close(s.gateway)))
  {
    G.CloseInv(s.gateway);
    var h := Close(s.gateway);
    ClosedRows(s, h);
    hide I.Consistent, Truthful, G.Inv, RecordsTrue, AwaitedLast, KeyOf, RecordKey, Session, Boot, Sequence, ActionOf,
      Close;
    assert !Exposed(h) by { hide Inv; }
  }

  lemma ClosedRows(s: System, h: Gateway)
    requires RecordsTrue(s) && AwaitedLast(s) && h == Close(s.gateway)
    ensures h == s.gateway.(armed := false, rows := h.rows) && G.NonePending(h)
    ensures RecordsTrue(s.(gateway := h)) && AwaitedLast(s.(gateway := h))
  {
    hide KeyOf, Session, Boot, Sequence, ActionOf;
  }

  lemma RestartsKeeps(s: System, next: U32)
    requires Inv(s) && Unused(s, next)
    ensures Inv(Apply(s, Restarts(next)))
  {
    hide *;
    LaterConsistent(s, s.now);
    Parts(s);
    UnusedIsUnclaimed(s, next);
    StartedDisarmed(s.gateway, next);
    DisarmedKeeps(s, Started(s.gateway.rows, next), next);
    RestartApplies(s, next);
  }

  lemma StartedDisarmed(g: Gateway, next: U32)
    requires G.Inv(g)
    ensures var h := Started(g.rows, next);
      && h.session == next && h.sequence == 0 && h.sample.None? && !h.armed
      && G.Inv(h) && G.NonePending(h) && Settled(g.rows, h.rows)
  {
    G.StartedInv(g, next);
    hide G.Inv;
  }

  lemma RestartApplies(s: System, next: U32)
    requires s.gateway.Sampled() && S.ActiveCached(s.history.station)
    ensures Apply(s, Restarts(next))
      == s.(gateway := Started(s.gateway.rows, next), sessions := s.sessions + {next}, awaiting := None)
  {
    hide Started;
  }

  // ---- whole runs ----

  function InitialSystem(cfg: S.Timing, session: U32): System {
    System(Started(map[], session), History(S.Initial(cfg), map[], None, 0), 0, {cfg.boot}, {session}, [], None)
  }

  ghost predicate Reachable(s: System, steps: seq<Step>, cfg: S.Timing, session: U32)
    decreases |steps|
  {
    if steps == [] then s == InitialSystem(cfg, session) && session != 0
    else
      exists before ::
        && Reachable(before, steps[..|steps| - 1], cfg, session)
        && before.gateway.Sampled() && S.ActiveCached(before.history.station)
        && Enabled(before, steps[|steps| - 1]) && s == Apply(before, steps[|steps| - 1])
  }

  lemma {:induction false} ReachableInv(s: System, steps: seq<Step>, cfg: S.Timing, session: U32)
    requires Reachable(s, steps, cfg, session)
    ensures Inv(s)
    decreases |steps|
  {
    if steps != [] {
      var last := steps[|steps| - 1];
      var before :|
        && Reachable(before, steps[..|steps| - 1], cfg, session)
        && before.gateway.Sampled() && S.ActiveCached(before.history.station)
        && Enabled(before, last) && s == Apply(before, last);
      hide Inv, Apply, Enabled;
      ReachableInv(before, steps[..|steps| - 1], cfg, session);
      StepKeeps(before, last);
    }
  }

  /** Over every run, with losses, failures, restarts of the gateway and reboots of the station: a record of
      anything but an arming that says COMPLETED, FAILED or REJECTED tells the station's own outcome for its
      boot, session and sequence, reason included. */
  lemma RecordsTellTheTruth(s: System, steps: seq<Step>, cfg: S.Timing, session: U32, id: Id)
    requires Reachable(s, steps, cfg, session) && id in s.gateway.rows
    requires s.gateway.rows[id].request.action != ARM
    requires s.gateway.rows[id].status in {Reported(COMPLETED), Reported(FAILED), Reported(REJECTED)}
    ensures var r := s.gateway.rows[id];
      && RecordKey(r) in s.history.outcomes
      && r.status == Reported(s.history.outcomes[RecordKey(r)].result)
      && r.reason == Device(s.history.outcomes[RecordKey(r)].reason)
  {
    ReachableInv(s, steps, cfg, session);
  }
}
