/** Gateway and station joined by a link that may lose, repeat, reorder and delay command blocks. */
module LossyLink {
  import opened Wrappers
  import opened Protocol
  import S = StationSpec
  import I = StationInvariant
  import R = StationRuns
  import M = StationMotion
  import opened GatewaySpec
  import G = GatewayRuns
  import opened MachineWords

  /** A block put on the link for a command id; `sampled` is the device uptime the gateway went by, and
      `at` the device's clock when the block was written. */
  datatype Write = Write(id: Id, block: Block, sampled: U32, at: int)

  /** Both ends, the device's clock, and the history of the link and of the station. */
  datatype System = System(
    gateway: Gateway, station: S.Station, now: int, boots: set<U32>,
    writes: seq<Write>, effects: seq<R.Effect>, motions: seq<R.Effect>)

  datatype Step =
    | WriteStep(payload: Payload, actor: string, locked: bool, waited: Duration, at: real)
    | ConfirmStep(action: Action, reply: Reply, readAt: real, next: U32)
    | PollStep(polled: Reply, kept: Option<string>, pollAt: real, next: U32)
    | CloseStep
    | RestartStep(next: U32)
    | StationStep(call: R.Call, time: int)
    | RebootStep(cfg: S.Timing, time: int)

  /** A sample, however late, was taken in this or an earlier boot and tells a clock reading the device had. */
  predicate Past(s: System, sample: Sample) {
    sample.boot in s.boots && (sample.boot == s.station.cfg.boot ==> sample.uptime <= s.now)
  }

  predicate Genuine(s: System, reply: Reply) { reply.Answer? ==> Past(s, reply.sample) }

  ghost predicate WasWritten(writes: seq<Write>, block: Block) {
    exists w :: w in writes && w.block == block
  }

  /** Any block written so far may arrive at any time, any number of times; the device's clock does not go
      back within a boot, and boot numbers are not used again. */
  ghost predicate Enabled(s: System, step: Step) {
    match step
    case ConfirmStep(_, reply, _, _) => Genuine(s, reply)
    case PollStep(reply, _, _, _) => Genuine(s, reply)
    case StationStep(call, time) =>
      s.now <= time && (call.ExecuteCall? ==> WasWritten(s.writes, call.block))
    case RebootStep(cfg, _) => cfg.boot !in s.boots
    case _ => true
  }

  ghost function Apply(s: System, step: Step): System
    requires s.gateway.Sampled() && S.ActiveCached(s.station)
  {
    match step
    case WriteStep(p, actor, locked, waited, at) =>
      (match Submit(s.gateway, p, actor, locked, waited, at)
       case Refused(_, h) => s.(gateway := h)
       case Existing(_) => s
       case Written(h, block) =>
         var sampled := if s.gateway.sample.Some? then s.gateway.sample.value.uptime else 0;
         s.(gateway := h, writes := s.writes + [Write(p.id, block, sampled, s.now)]))
    case ConfirmStep(action, reply, readAt, next) => s.(gateway := Confirm(s.gateway, action, reply, readAt, next))
    case PollStep(reply, kept, pollAt, next) => s.(gateway := Poll(s.gateway, reply, kept, pollAt, next))
    case CloseStep => s.(gateway := Close(s.gateway))
    case RestartStep(next) => s.(gateway := Started(s.gateway.rows, next))
    case StationStep(call, time) =>
      var effective := call.ExecuteCall? && S.TakesEffect(s.station, call.block, time);
      var moving := call.ExecuteCall? && M.StartsMotion(s.station, call.block, time);
      s.(station := R.Step(s.station, call, time), now := time,
         effects := if effective then s.effects + [R.Effect(call.block, time)] else s.effects,
         motions := if moving then s.motions + [R.Effect(call.block, time)] else s.motions)
    case RebootStep(cfg, time) =>
      s.(station := S.Initial(cfg), now := time, boots := s.boots + {cfg.boot})
  }

  function CountOf(motions: seq<R.Effect>, boot: U32): nat {
    if motions == [] then 0
    else CountOf(motions[..|motions| - 1], boot) + (if Boot(motions[|motions| - 1].block) == boot then 1 else 0)
  }

  ghost predicate WritesInv(s: System) {
    // every command id is written at most once, for the record stored under it
    && (forall i, j :: 0 <= i < j < |s.writes| ==> s.writes[i].id != s.writes[j].id)
    && (forall i :: 0 <= i < |s.writes| ==> var w := s.writes[i];
         && w.id in s.gateway.rows
         && Boot(w.block) == s.gateway.rows[w.id].boot && Session(w.block) == s.gateway.rows[w.id].session
         && Sequence(w.block) == Low32(s.gateway.rows[w.id].sequence)
         && ActionOf(w.block[0]) == Some(s.gateway.rows[w.id].request.action)
         && Parameter(w.block) == s.gateway.rows[w.id].request.parameter
         && Deadline(w.block) <= w.sampled + s.gateway.rows[w.id].request.validity
         && s.gateway.rows[w.id].request.validity <= 2000 && Boot(w.block) in s.boots
         && (Boot(w.block) == s.station.cfg.boot ==> w.sampled <= w.at <= s.now))
  }

  ghost predicate DistinctBlocks(e: seq<R.Effect>) {
    forall i, j :: 0 <= i < j < |e| ==> e[i].block != e[j].block
  }

  /** The effect of a written block, in time, which spends it for the rest of its boot. */
  ghost predicate Accounted(s: System, e: R.Effect) {
    && WasWritten(s.writes, e.block) && e.at < Deadline(e.block) && Boot(e.block) in s.boots
    && (Boot(e.block) == s.station.cfg.boot ==> R.Spent(s.station, e.block, s.now))
  }

  ghost predicate EffectsInv(s: System) {
    && (forall e :: e in s.effects ==> Accounted(s, e))
    && DistinctBlocks(s.effects)
    // every motion is an effect, no two of the same block, and the station has counted those of its boot
    && (forall m :: m in s.motions ==> m in s.effects)
    && DistinctBlocks(s.motions)
    && CountOf(s.motions, s.station.cfg.boot) == s.station.motionStarts
  }

  ghost predicate Inv(s: System) {
    && G.Inv(s.gateway) && I.Consistent(s.station, s.now) && s.station.cfg.boot in s.boots
    && (s.gateway.sample.Some? ==> Past(s, s.gateway.sample.value)) && WritesInv(s) && EffectsInv(s)
  }

  lemma ObserveSample(g: Gateway, sample: Sample, now: real, next: U32)
    requires g.Sampled()
    ensures Observe(g, sample, now, next).0.sample in {g.sample, Some(sample)}
  {
  }

  lemma PollSample(g: Gateway, reply: Reply, kept: Option<string>, now: real, next: U32)
    requires g.Sampled()
    ensures var r := Poll(g, reply, kept, now, next);
      r.sample == g.sample || (reply.Answer? && r.sample == Some(reply.sample))
  {
    hide Observe;
    if reply.Answer? { ObserveSample(g, reply.sample, now, next); }
  }

  lemma ConfirmSample(g: Gateway, action: Action, reply: Reply, now: real, next: U32)
    requires g.Sampled()
    ensures var r := Confirm(g, action, reply, now, next);
      r.sample == g.sample || (reply.Answer? && r.sample == Some(reply.sample))
  {
    hide Observe;
    if reply.Answer? { ObserveSample(g, reply.sample, now, next); }
  }

  /** A step of the gateway that writes nothing. */
  lemma GatewayOnly(s: System, h: Gateway)
    requires Inv(s) && G.Inv(h) && G.Kept(s.gateway.rows, h.rows)
    requires h.sample.Some? ==> Past(s, h.sample.value)
    ensures Inv(s.(gateway := h))
  {
    hide G.Inv, I.Consistent, EffectsInv, Boot, Session, Sequence, Deadline, ActionOf;
    var r := s.(gateway := h);
    assert WritesInv(r);
    EffectsIgnoreGateway(s, h);
  }

  lemma EffectsIgnoreGateway(s: System, h: Gateway)
    requires EffectsInv(s)
    ensures EffectsInv(s.(gateway := h))
  {
  }

  lemma WriteKeepsInv(s: System, p: Payload, h: Gateway, block: Block)
    requires Inv(s) && G.Issued(s.gateway, p, h, block) && (s.gateway.AnyPending() ==> p.action.value == STOP)
    ensures Inv(s.(gateway := h, writes := s.writes + [Write(p.id, block, s.gateway.sample.value.uptime, s.now)]))
  {
    hide G.Inv, I.Consistent, R.Spent, Boot, Session, Sequence, Deadline, ActionOf;
    G.SubmitInv(s.gateway, p, h, block);
    var w := Write(p.id, block, s.gateway.sample.value.uptime, s.now);
    var r := s.(gateway := h, writes := s.writes + [w]);
    assert WritesInv(r);
    forall b | WasWritten(s.writes, b) ensures WasWritten(r.writes, b) {
      var v :| v in s.writes && v.block == b;
      assert v in r.writes;
    }
    hide WasWritten;
  }

  lemma CountKnown(motions: seq<R.Effect>, boot: U32)
    requires forall m :: m in motions ==> Boot(m.block) != boot
    ensures CountOf(motions, boot) == 0
  {
  }

  lemma RebootKeepsInv(s: System, cfg: S.Timing, time: int)
    requires Inv(s) && cfg.boot !in s.boots
    ensures Inv(Apply(s, RebootStep(cfg, time)))
  {
    hide G.Inv, R.Spent, Session, Sequence, Deadline, ActionOf;
    CountKnown(s.motions, cfg.boot);
  }

  /** What the station's own guarantees say about one more call. */
  lemma StationGuarantees(s: System, call: R.Call, time: int)
    requires Inv(s) && Enabled(s, StationStep(call, time))
    ensures var r := Apply(s, StationStep(call, time));
      && r.station.cfg == s.station.cfg && I.Consistent(r.station, time)
      && r.station.motionStarts == s.station.motionStarts + |r.motions| - |s.motions|
      && (forall e :: e in s.effects ==> Accounted(r, e))
      && (r.effects != s.effects ==>
           var e := R.Effect(call.block, time);
           && r.effects == s.effects + [e] && Accounted(r, e) && Boot(e.block) == s.station.cfg.boot
           && (forall d :: d in s.effects ==> d.block != e.block))
      && (r.motions != s.motions ==> r.effects != s.effects && r.motions == s.motions + [R.Effect(call.block, time)])
  {
    R.StepInv(s.station, s.now, call, time);
    M.MotionStartsCounted(s.station, call, time);
    assert S.ActiveCached(s.station);
    var r := Apply(s, StationStep(call, time));
    hide R.Step, R.Spent, S.TakesEffect, M.StartsMotion, S.ActiveCached, WasWritten, I.Consistent,
      Boot, Session, Sequence, Deadline, G.Inv, WritesInv, DistinctBlocks;
    forall e | e in s.effects ensures Accounted(r, e) {
      if Boot(e.block) == s.station.cfg.boot { R.SpentStep(s.station, s.now, call, e.block, time); }
    }
    if call.ExecuteCall? {
      StartsIsEffect(s.station, call.block, time);
      if S.TakesEffect(s.station, call.block, time) {
        ExecuteIsStep(s.station, call.block, time);
        R.EffectIsSpent(s.station, s.now, call.block, time);
        forall d | d in s.effects ensures d.block != call.block {
          if d.block == call.block { R.SpentExecute(s.station, s.now, call.block, d.block, time); }
        }
      }
    }
  }

  lemma StartsIsEffect(s: S.Station, v: Block, now: int)
    requires S.ActiveCached(s)
    ensures M.StartsMotion(s, v, now) ==> S.TakesEffect(s, v, now)
  {
    hide S.TakesEffect;
  }

  lemma ExecuteIsStep(s: S.Station, v: Block, now: int)
    requires S.ActiveCached(s)
    ensures R.Step(s, R.ExecuteCall(v), now) == S.Execute(s, v, now)
  {
    hide S.Execute;
  }

  lemma LaterWrites(s: System, r: System)
    requires WritesInv(s) && s.now <= r.now
    requires r.gateway == s.gateway && r.writes == s.writes && r.boots == s.boots && r.station.cfg == s.station.cfg
    ensures WritesInv(r)
  {
    hide Boot, Session, Sequence, Deadline, ActionOf;
  }

  lemma MoreEffects(s: System, r: System, e: R.Effect)
    requires EffectsInv(s) && (forall d :: d in s.effects ==> Accounted(r, d)) && r.station.cfg == s.station.cfg
    requires r.effects == s.effects ||
      (r.effects == s.effects + [e] && Accounted(r, e) && forall d :: d in s.effects ==> d.block != e.block)
    requires r.motions == s.motions ||
      (r.motions == s.motions + [e] && r.effects != s.effects && Boot(e.block) == s.station.cfg.boot)
    requires r.station.motionStarts == s.station.motionStarts + |r.motions| - |s.motions|
    ensures EffectsInv(r)
  {
    hide Accounted, Boot;
    assert r.motions != s.motions ==> r.motions[..|r.motions| - 1] == s.motions;
  }

  lemma Ready(s: System)
    requires Inv(s)
    ensures s.gateway.Sampled() && S.ActiveCached(s.station)
  {
  }

  lemma StationApplies(s: System, call: R.Call, time: int)
    requires s.gateway.Sampled() && S.ActiveCached(s.station)
    ensures var r := Apply(s, StationStep(call, time));
      && r.gateway == s.gateway && r.now == time && r.boots == s.boots && r.writes == s.writes
      && (!call.ExecuteCall? ==> r.effects == s.effects && r.motions == s.motions)
  {
    hide R.Step, S.TakesEffect, M.StartsMotion, S.ActiveCached;
  }

  lemma StationKeepsInv(s: System, call: R.Call, time: int)
    requires Inv(s) && Enabled(s, StationStep(call, time))
    ensures Inv(Apply(s, StationStep(call, time)))
  {
    hide Apply, G.Inv, I.Consistent, Accounted, WritesInv, EffectsInv, S.ActiveCached, Boot, WasWritten;
    Ready(s);
    StationApplies(s, call, time);
    StationGuarantees(s, call, time);
    var r := Apply(s, StationStep(call, time));
    LaterWrites(s, r);
    MoreEffects(s, r, if call.ExecuteCall? then R.Effect(call.block, time) else R.Effect(seq(12, _ => 0), time));
  }

  lemma StepKeepsInv(s: System, step: Step)
    requires Inv(s) && Enabled(s, step)
    ensures Inv(Apply(s, step))
  {
    var g := s.gateway;
    assert g.Sampled() && S.ActiveCached(s.station);
    hide G.Inv, I.Consistent, WritesInv, EffectsInv, S.ActiveCached;
    match step
    case WriteStep(p, actor, locked, waited, at) => WriteStepKeeps(s, p, actor, locked, waited, at);
    case ConfirmStep(action, reply, readAt, next) =>
      hide Confirm;
      G.ConfirmInv(g, action, reply, readAt, next);
      ConfirmSample(g, action, reply, readAt, next);
      GatewayOnly(s, Confirm(g, action, reply, readAt, next));
    case PollStep(reply, kept, pollAt, next) =>
      hide Poll;
      G.PollInv(g, reply, kept, pollAt, next);
      PollSample(g, reply, kept, pollAt, next);
      GatewayOnly(s, Poll(g, reply, kept, pollAt, next));
    case CloseStep =>
      G.CloseInv(g);
      GatewayOnly(s, Close(g));
    case RestartStep(next) =>
      G.StartedInv(g, next);
      GatewayOnly(s, Started(g.rows, next));
    case StationStep(call, time) => StationKeepsInv(s, call, time);
    case RebootStep(cfg, time) => RebootKeepsInv(s, cfg, time);
  }

  lemma WriteStepKeeps(s: System, p: Payload, actor: string, locked: bool, waited: Duration, at: real)
    requires s.gateway.Sampled() && S.ActiveCached(s.station) && Inv(s)
    ensures Inv(Apply(s, WriteStep(p, actor, locked, waited, at)))
  {
    hide G.Inv, I.Consistent, WritesInv, EffectsInv, S.ActiveCached, G.Issued, Submit;
    var g := s.gateway;
    G.SubmitIssues(g, p, actor, locked, waited, at);
    match Submit(g, p, actor, locked, waited, at)
    case Refused(_, h) =>
      G.SkippedNumber(g);
      G.KeptIsReflexive(g.rows);
      GatewayOnly(s, h);
    case Existing(_) =>
    case Written(h, block) =>
      IssuedSample(g, p, h, block);
      WriteKeepsInv(s, p, h, block);
  }

  lemma IssuedSample(g: Gateway, p: Payload, h: Gateway, block: Block)
    requires G.Issued(g, p, h, block)
    ensures g.sample.Some?
  {
  }

  function InitialSystem(cfg: S.Timing, session: U32): System {
    System(Started(map[], session), S.Initial(cfg), 0, {cfg.boot}, [], [], [])
  }

  /** The states a run of the whole system can reach. */
  ghost predicate Reachable(s: System, steps: seq<Step>, cfg: S.Timing, session: U32)
    decreases |steps|
  {
    if steps == [] then s == InitialSystem(cfg, session)
    else
      exists before ::
        && Reachable(before, steps[..|steps| - 1], cfg, session)
        && before.gateway.Sampled() && S.ActiveCached(before.station)
        && Enabled(before, steps[|steps| - 1]) && s == Apply(before, steps[|steps| - 1])
  }

  lemma {:induction false} ReachableInv(s: System, steps: seq<Step>, cfg: S.Timing, session: U32)
    requires Reachable(s, steps, cfg, session)
    ensures Inv(s)
    decreases |steps|
  {
    if steps != [] {
      var last := steps[|steps| - 1];
      var before :|
        && Reachable(before, steps[..|steps| - 1], cfg, session)
        && before.gateway.Sampled() && S.ActiveCached(before.station)
        && Enabled(before, last) && s == Apply(before, last);
      hide Inv, Apply, Enabled;
      ReachableInv(before, steps[..|steps| - 1], cfg, session);
      StepKeepsInv(before, last);
    }
  }

  /** A choice of a write for every motion. */
  ghost predicate Owns(s: System, owners: seq<nat>) {
    && |owners| == |s.motions|
    && (forall i :: 0 <= i < |owners| ==> owners[i] < |s.writes| && s.writes[owners[i]].block == s.motions[i].block)
  }

  lemma {:induction false} OwnersExist(s: System, n: nat) returns (owners: seq<nat>)
    requires EffectsInv(s) && n <= |s.motions|
    ensures |owners| == n
    ensures forall i :: 0 <= i < n ==> owners[i] < |s.writes| && s.writes[owners[i]].block == s.motions[i].block
  {
    if n == 0 {
      owners := [];
    } else {
      owners := OwnersExist(s, n - 1);
      assert s.motions[n - 1] in s.effects && WasWritten(s.writes, s.motions[n - 1].block);
      var w :| w in s.writes && w.block == s.motions[n - 1].block;
      var k :| 0 <= k < |s.writes| && s.writes[k] == w;
      owners := owners + [k];
    }
  }

  /** The block says what the record it was written for says, and is good for the record's validity at most. */
  ghost predicate CarriesRecord(s: System, b: Block, w: Write) {
    && w.id in s.gateway.rows
    && var r := s.gateway.rows[w.id];
       && ActionOf(b[0]) == Some(r.request.action) && Parameter(b) == r.request.parameter
       && Session(b) == r.session && Boot(b) == r.boot && Sequence(b) == Low32(r.sequence)
       && Deadline(b) <= w.sampled + r.request.validity <= w.sampled + 2000
  }

  /** In every reachable state each command id has been written at most once, and every motion of any boot
      belongs to a record of its own: however often a block arrives, the motions map one to one into the
      stored records that asked for them, and each started before the deadline the gateway had set, less than
      two seconds after the device clock reading it went by. */
  lemma MotionsHaveTheirOwnRecords(s: System, steps: seq<Step>, cfg: S.Timing, session: U32) returns (owners: seq<nat>)
    requires Reachable(s, steps, cfg, session)
    // each command id is written at most once, for the record stored under it
    ensures forall i, j :: 0 <= i < j < |s.writes| ==> s.writes[i].id != s.writes[j].id
    ensures forall i :: 0 <= i < |s.writes| ==> CarriesRecord(s, s.writes[i].block, s.writes[i])
    // whatever takes effect was written with the action, numbers and parameter of its record, and is in time
    ensures forall e :: e in s.effects ==>
      exists w :: w in s.writes && w.block == e.block && CarriesRecord(s, e.block, w) && e.at < Deadline(e.block)
    // no block takes effect twice
    ensures DistinctBlocks(s.effects) && forall m :: m in s.motions ==> m in s.effects
    ensures Owns(s, owners)
    ensures forall i, j :: 0 <= i < j < |owners| ==> s.writes[owners[i]].id != s.writes[owners[j]].id
    ensures forall i :: 0 <= i < |owners| ==> var w, m := s.writes[owners[i]], s.motions[i];
      && CarriesRecord(s, m.block, w) && m.at < Deadline(m.block)
      && (Boot(m.block) == s.station.cfg.boot ==> w.sampled <= w.at <= s.now)
    ensures CountOf(s.motions, s.station.cfg.boot) == s.station.motionStarts
  {
    hide Reachable, I.Consistent, G.Inv, DistinctBlocks, R.Spent, Boot, Session, Sequence, Deadline, ActionOf, CountOf;
    ReachableInv(s, steps, cfg, session);
    owners := OwnersExist(s, |s.motions|);
    OwnersApart(s, owners);
    forall i | 0 <= i < |owners|
      ensures s.motions[i].at < Deadline(s.motions[i].block)
    {
      assert s.motions[i] in s.effects;
      assert Accounted(s, s.motions[i]);
    }
  }

  lemma OwnersApart(s: System, owners: seq<nat>)
    requires WritesInv(s) && DistinctBlocks(s.motions) && Owns(s, owners)
    ensures forall i, j :: 0 <= i < j < |owners| ==> s.writes[owners[i]].id != s.writes[owners[j]].id
  {
    forall i, j | 0 <= i < j < |owners| ensures s.writes[owners[i]].id != s.writes[owners[j]].id {
      assert s.motions[i].block != s.motions[j].block;
      if owners[i] < owners[j] {} else if owners[j] < owners[i] {} else { assert false; }
    }
  }
}
