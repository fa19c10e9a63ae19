/** The clock-offset estimator, with the formulas of section 8 of RFC 5905. Times are in milliseconds. */
module Latency {
  import opened Wrappers
  import opened Ordered
  import opened Percentile

  const REPLY_LIMIT := 10000.0
  const CLOCK_AGE := 30000.0
  const CLOCKS := 64
  const FRAMES := 512

  datatype Clock = Clock(at: real, rtt: real, offset: real)

  datatype Frame = Frame(created: real, published: Option<real>, decoded: Option<real>)

  datatype Tracker = Tracker(
    requests: map<nat, real>, clocks: seq<Clock>, frames: OrderedDict<int, Frame>, latest: Option<int>,
    nextRequest: nat, lastReply: Option<real>)

  /** A reply; a time that is not a finite number is None. */
  datatype Reply = Reply(id: nat, received: Option<real>, replied: Option<real>)

  function Started(): Tracker { Tracker(map[], [], Empty(), None, 0, None) }

  function Reset(t: Tracker): Tracker { Started().(nextRequest := t.nextRequest) }

  // ---- pruning ----

  function Recent(clocks: seq<Clock>, at: real): (r: seq<Clock>)
    ensures forall c :: c in r ==> c in clocks
  {
    if clocks == [] then []
    else
      Recent(clocks[..|clocks| - 1], at)
      + (if at - clocks[|clocks| - 1].at <= CLOCK_AGE then [clocks[|clocks| - 1]] else [])
  }

  function LastClocks(clocks: seq<Clock>): seq<Clock> {
    if |clocks| <= CLOCKS then clocks else clocks[|clocks| - CLOCKS..]
  }

  function ForgetOld(frames: OrderedDict<int, Frame>, ids: seq<int>, latest: Option<int>, at: real)
    : OrderedDict<int, Frame>
    decreases |ids|
  {
    if ids == [] then frames
    else
      ForgetOld(if frames.Has(ids[0]) && at - frames.items[ids[0]].created > CLOCK_AGE && latest != Some(ids[0])
                then Remove(frames, ids[0]) else frames, ids[1..], latest, at)
  }

  function ForgetMany(frames: OrderedDict<int, Frame>, latest: Option<int>): OrderedDict<int, Frame>
    decreases frames.Size()
  {
    if frames.Size() > FRAMES then
      var id := if latest == Some(frames.order[0]) then frames.order[1] else frames.order[0];
      assert id in frames.order;
      ForgetMany(Remove(frames, id), latest)
    else frames
  }

  function Prune(t: Tracker, at: real): Tracker {
    t.(requests := map id | id in t.requests && at - t.requests[id] <= REPLY_LIMIT :: t.requests[id],
       clocks := LastClocks(Recent(t.clocks, at)),
       frames := ForgetMany(ForgetOld(t.frames, t.frames.order, t.latest, at), t.latest))
  }

  // ---- requests and replies ----

  function Request(t: Tracker, now: real): Tracker {
    var p := Prune(t, now);
    p.(nextRequest := p.nextRequest + 1, requests := p.requests[p.nextRequest + 1 := now])
  }

  function Cancel(t: Tracker, id: nat): Tracker { t.(requests := t.requests - {id}) }

  function Measured(sent: real, received: real, replied: real, at: real): Clock {
    Clock(at, at - sent - (replied - received), ((received - sent) + (replied - at)) / 2.0)
  }

  /** The flag says that the reply was used. */
  function AcceptClock(t: Tracker, r: Reply, at: real): (Tracker, bool) {
    var u := Cancel(t, r.id);
    if r.id !in t.requests || at - t.requests[r.id] > REPLY_LIMIT || r.received.None? || r.replied.None?
       || r.replied.value < r.received.value
    then (u, false)
    else
      var c := Measured(t.requests[r.id], r.received.value, r.replied.value, at);
      if c.rtt < 0.0 then (u, false)
      else (Prune(u.(clocks := u.clocks + [c], lastReply := Some(at)), at), true)
  }

  // ---- frames ----

  function Noted(t: Tracker, id: int, now: real): Tracker {
    var p := Prune(t, now);
    if p.frames.Has(id) then p else p.(frames := Put(p.frames, id, Frame(now, None, None)))
  }

  function NoteMetadata(t: Tracker, id: int, published: real, now: real): Tracker {
    if published <= 0.0 then t
    else
      var n := Noted(t, id, now);
      n.(frames := Put(n.frames, id, n.frames.items[id].(published := Some(published))))
  }

  function NoteDecoded(t: Tracker, id: int, decoded: real, now: real): Tracker {
    var n := Noted(t, id, now);
    var m := n.(frames := Put(n.frames, id, n.frames.items[id].(decoded := Some(decoded))));
    var later := m.latest.None? || !m.frames.Has(m.latest.value) || m.frames.items[m.latest.value].decoded.None?
                 || decoded >= m.frames.items[m.latest.value].decoded.value;
    if later then m.(latest := Some(id)) else m
  }

  // ---- the snapshot ----

  function Best(clocks: seq<Clock>): Clock
    requires clocks != []
  {
    if |clocks| == 1 then clocks[0]
    else
      var a, b := Best(clocks[..|clocks| - 1]), clocks[|clocks| - 1];
      if a.rtt < b.rtt then a else b
  }

  datatype Readiness = Calibrating | Stale | Waiting | InvalidDelay | Ready

  datatype Snapshot = Snapshot(state: Readiness, delay: Option<real>, age: Option<real>, mean: Option<real>,
                               p95: Option<real>, uncertainty: Option<real>, count: nat)

  /** When a frame was decoded here, and published there. */
  datatype Showing = Showing(decoded: real, published: real) {
    function Delay(offset: real): real { decoded + offset - published }
  }

  /** The frame, if it was shown lately and its delay does not come out negative. */
  function ShownFrame(f: Frame, offset: real, at: real): seq<Showing> {
    if f.published.Some? && f.decoded.Some? && at - f.decoded.value <= REPLY_LIMIT
       && Showing(f.decoded.value, f.published.value).Delay(offset) >= 0.0
    then [Showing(f.decoded.value, f.published.value)]
    else []
  }

  function Shown(frames: OrderedDict<int, Frame>, ids: seq<int>, offset: real, at: real): seq<Showing>
    decreases |ids|
  {
    if ids == [] then []
    else
      (if frames.Has(ids[0]) then ShownFrame(frames.items[ids[0]], offset, at) else [])
      + Shown(frames, ids[1..], offset, at)
  }

  function Delays(shown: seq<Showing>, offset: real): (r: seq<real>)
    ensures |r| == |shown| && forall i :: 0 <= i < |r| ==> r[i] == shown[i].Delay(offset)
  {
    seq(|shown|, i requires 0 <= i < |shown| => shown[i].Delay(offset))
  }

  function Sum(values: seq<real>): real {
    if values == [] then 0.0 else Sum(values[..|values| - 1]) + values[|values| - 1]
  }

  function Mean(values: seq<real>): Option<real> {
    if values == [] then None else Some(Sum(values) / |values| as real)
  }

  /** Taken on a tracker that has just been pruned. */
  function Take(t: Tracker, at: real): Snapshot {
    var blank := Snapshot(Calibrating, None, None, None, None, None, 0);
    if t.lastReply.Some? && at - t.lastReply.value > REPLY_LIMIT then blank.(state := Stale)
    else if |t.clocks| < 3 then blank
    else
      var best := Best(t.clocks);
      var values := Delays(Shown(t.frames, t.frames.order, best.offset, at), best.offset);
      var result := blank.(state := Waiting, uncertainty := Some(best.rtt / 2.0 + 1.0), count := |values|,
                           mean := Mean(values), p95 := P95(values));
      if t.latest.None? || !t.frames.Has(t.latest.value) || t.frames.items[t.latest.value].published.None?
         || t.frames.items[t.latest.value].decoded.None?
      then result
      else
        var f := t.frames.items[t.latest.value];
        var delay := f.decoded.value + best.offset - f.published.value;
        if delay < 0.0 then result.(state := InvalidDelay)
        else result.(state := Ready, delay := Some(delay), age := Some(at + best.offset - f.published.value))
  }

  // ---- the error of one measurement ----

  function Abs(x: real): real { if x < 0.0 then -x else x }

  /** A server whose clock is ahead by `ahead`, and two network delays that may differ: the error of the offset is
      half their difference, so it is within half the round trip, and reaches it exactly when one of them is zero. */
  lemma OffsetError(sent: real, there: real, back: real, held: real, ahead: real)
    requires there >= 0.0 && back >= 0.0 && held >= 0.0
    ensures var received := sent + there + ahead;
      var replied := received + held;
      var c := Measured(sent, received, replied, replied - ahead + back);
      && c.rtt == there + back && c.offset - ahead == (there - back) / 2.0
      && Abs(c.offset - ahead) <= c.rtt / 2.0
      && (Abs(c.offset - ahead) == c.rtt / 2.0 <==> there == 0.0 || back == 0.0)
  {
    var received := sent + there + ahead;
    var c := Measured(sent, received, received + held, received + held - ahead + back);
    assert c.rtt == there + back;
    assert c.offset == ((there + ahead) + (ahead - back)) / 2.0;
  }

  // ---- whole histories ----

  datatype Event =
    | Requests(now: real)
    | Cancels(id: nat)
    | Replies(reply: Reply, at: real)
    | Prunes(at: real)
    | Metadata(frame: int, published: real, now: real)
    | Decodes(frame: int, decoded: real, now: real)
    | Resets

  /** `issued` is when each request was sent. */
  datatype World = World(tracker: Tracker, issued: map<nat, real>)

  function Step(w: World, e: Event): World {
    match e
    case Requests(now) =>
      World(Request(w.tracker, now), w.issued[w.tracker.nextRequest + 1 := now])
    case Cancels(id) => w.(tracker := Cancel(w.tracker, id))
    case Replies(reply, at) => w.(tracker := AcceptClock(w.tracker, reply, at).0)
    case Prunes(at) => w.(tracker := Prune(w.tracker, at))
    case Metadata(id, published, now) => w.(tracker := NoteMetadata(w.tracker, id, published, now))
    case Decodes(id, decoded, now) => w.(tracker := NoteDecoded(w.tracker, id, decoded, now))
    case Resets => w.(tracker := Reset(w.tracker))
  }

  /** A reply the server really gave: it arrived there after it was sent, left after it arrived, and arrives here
      after it left, on clocks that are `ahead` apart. Replies may be lost, late, repeated or out of order. */
  ghost predicate Causal(w: World, e: Event, ahead: real) {
    e.Replies? && e.reply.id in w.issued && e.reply.received.Some? && e.reply.replied.Some? ==>
      && w.issued[e.reply.id] + ahead <= e.reply.received.value <= e.reply.replied.value <= e.at + ahead
  }

  ghost predicate Sound(c: Clock, ahead: real) { 0.0 <= c.rtt && Abs(c.offset - ahead) <= c.rtt / 2.0 }

  ghost predicate Inv(w: World, ahead: real) {
    && (forall c :: c in w.tracker.clocks ==> Sound(c, ahead))
    && (forall id :: id in w.tracker.requests ==> id in w.issued && w.issued[id] == w.tracker.requests[id])
    && (forall id :: id in w.issued ==> id <= w.tracker.nextRequest)
  }

  lemma MeasuredSound(sent: real, received: real, replied: real, at: real, ahead: real)
    requires sent + ahead <= received <= replied <= at + ahead
    ensures Sound(Measured(sent, received, replied, at), ahead)
  {
    OffsetError(sent, received - ahead - sent, at + ahead - replied, replied - received, ahead);
  }

  lemma PruneKeeps(w: World, at: real, ahead: real)
    requires Inv(w, ahead)
    ensures Inv(w.(tracker := Prune(w.tracker, at)), ahead) && Prune(w.tracker, at).nextRequest == w.tracker.nextRequest
  {
    hide Sound;
  }

  lemma AcceptKeeps(w: World, r: Reply, at: real, ahead: real)
    requires Inv(w, ahead) && Causal(w, Replies(r, at), ahead)
    ensures Inv(w.(tracker := AcceptClock(w.tracker, r, at).0), ahead)
  {
    var u := Cancel(w.tracker, r.id);
    if AcceptClock(w.tracker, r, at).1 {
      var c := Measured(w.tracker.requests[r.id], r.received.value, r.replied.value, at);
      MeasuredSound(w.tracker.requests[r.id], r.received.value, r.replied.value, at, ahead);
      hide Sound, Measured, Prune;
      var v := u.(clocks := u.clocks + [c], lastReply := Some(at));
      assert Inv(w.(tracker := v), ahead);
      PruneKeeps(w.(tracker := v), at, ahead);
    } else {
      hide Sound;
    }
  }

  lemma StepKeeps(w: World, e: Event, ahead: real)
    requires Inv(w, ahead) && Causal(w, e, ahead)
    ensures Inv(Step(w, e), ahead)
  {
    hide Sound, Prune, AcceptClock;
    match e
    case Requests(now) => PruneKeeps(w, now, ahead);
    case Cancels(id) =>
    case Replies(reply, at) => AcceptKeeps(w, reply, at, ahead);
    case Prunes(at) => PruneKeeps(w, at, ahead);
    case Metadata(id, published, now) => PruneKeeps(w, now, ahead);
    case Decodes(id, decoded, now) => PruneKeeps(w, now, ahead);
    case Resets =>
  }

  function After(events: seq<Event>): World {
    if events == [] then World(Started(), map[]) else Step(After(events[..|events| - 1]), events[|events| - 1])
  }

  ghost predicate AllCausal(events: seq<Event>, ahead: real) {
    events == [] ||
      (AllCausal(events[..|events| - 1], ahead) && Causal(After(events[..|events| - 1]), events[|events| - 1], ahead))
  }

  /** Every offset stored at any time is within half its round trip of the true one. */
  lemma {:induction false} OffsetsAreSound(events: seq<Event>, ahead: real)
    requires AllCausal(events, ahead)
    ensures Inv(After(events), ahead)
  {
    if events != [] {
      hide Inv, Step, Causal;
      OffsetsAreSound(events[..|events| - 1], ahead);
      StepKeeps(After(events[..|events| - 1]), events[|events| - 1], ahead);
    }
  }

  lemma {:induction false} BestIsLeast(clocks: seq<Clock>)
    requires clocks != []
    ensures Best(clocks) in clocks && forall c :: c in clocks ==> Best(clocks).rtt <= c.rtt
  {
    if |clocks| > 1 {
      var front := clocks[..|clocks| - 1];
      BestIsLeast(front);
      assert clocks == front + [clocks[|clocks| - 1]];
    }
  }

  /** The mean error of a list of values is the error of each, when that is the same for all. */
  lemma {:induction false} SumShifts(values: seq<real>, truth: seq<real>, error: real)
    requires |values| == |truth| && forall i :: 0 <= i < |values| ==> values[i] == truth[i] + error
    ensures Sum(values) == Sum(truth) + |values| as real * error
  {
    if values != [] {
      var n := |values| - 1;
      SumShifts(values[..n], truth[..n], error);
      assert (n as real + 1.0) * error == n as real * error + error;
    }
  }

  /** The delay of the latest frame and its age are reported within the reported uncertainty of what they are by the
      true clocks, and no stored round trip would give a smaller uncertainty. */
  ghost predicate Right(t: Tracker, at: real, ahead: real) {
    var s := Take(t, at);
    s.state.Ready? ==>
      && t.latest.Some? && t.frames.Has(t.latest.value)
      && var f := t.frames.items[t.latest.value];
        && f.decoded.Some? && f.published.Some? && s.delay.Some? && s.age.Some? && s.uncertainty.Some?
        && Abs(s.delay.value - (f.decoded.value + ahead - f.published.value)) <= s.uncertainty.value
        && Abs(s.age.value - (at + ahead - f.published.value)) <= s.uncertainty.value
        && (forall c :: c in t.clocks ==> s.uncertainty.value <= c.rtt / 2.0 + 1.0)
  }

  /** After any history of requests, lost, late, repeated and reordered replies, what is reported is right. */
  lemma SnapshotIsRight(events: seq<Event>, ahead: real, at: real)
    requires AllCausal(events, ahead)
    ensures Right(Prune(After(events).tracker, at), at, ahead)
  {
    OffsetsAreSound(events, ahead);
    PruneKeeps(After(events), at, ahead);
    var t := Prune(After(events).tracker, at);
    hide Right, After, AllCausal, Prune, Sound;
    TakeIsRight(t, at, ahead);
  }

  lemma TakeIsRight(t: Tracker, at: real, ahead: real)
    requires forall c :: c in t.clocks ==> Sound(c, ahead)
    ensures Right(t, at, ahead)
  {
    var s := Take(t, at);
    if s.state.Ready? {
      var best, f := Best(t.clocks), t.frames.items[t.latest.value];
      assert s.delay.value == f.decoded.value + best.offset - f.published.value;
      assert s.age.value == at + best.offset - f.published.value && s.uncertainty.value == best.rtt / 2.0 + 1.0;
      hide Take, Best;
      BestIsLeast(t.clocks);
      ShiftedBy(s.delay.value, f.decoded.value, f.published.value, best, ahead);
      ShiftedBy(s.age.value, at, f.published.value, best, ahead);
    }
  }

  lemma ShiftedBy(reported: real, seen: real, published: real, best: Clock, ahead: real)
    requires reported == seen + best.offset - published && Sound(best, ahead)
    ensures Abs(reported - (seen + ahead - published)) <= best.rtt / 2.0 + 1.0
  {
  }

  /** The mean delay is as right as the offset: it is compared with the mean of the same frames by the true clocks. */
  lemma MeanIsRight(t: Tracker, at: real, ahead: real)
    requires (forall c :: c in t.clocks ==> Sound(c, ahead)) && Take(t, at).mean.Some?
    ensures t.clocks != [] && var best := Best(t.clocks);
      var truth := Mean(Delays(Shown(t.frames, t.frames.order, best.offset, at), ahead));
      truth.Some? && Abs(Take(t, at).mean.value - truth.value) <= best.rtt / 2.0
  {
    var best := Best(t.clocks);
    BestIsLeast(t.clocks);
    MeanShifts(Shown(t.frames, t.frames.order, best.offset, at), best, ahead);
    hide Best, Shown, Sound, Mean;
  }

  /** So is the 95th percentile. */
  lemma P95IsRight(t: Tracker, at: real, ahead: real)
    requires (forall c :: c in t.clocks ==> Sound(c, ahead)) && Take(t, at).p95.Some?
    ensures t.clocks != [] && var best := Best(t.clocks);
      var truth := P95(Delays(Shown(t.frames, t.frames.order, best.offset, at), ahead));
      truth.Some? && Abs(Take(t, at).p95.value - truth.value) <= best.rtt / 2.0
  {
    hide Best, Shown, P95, Mean;
    var best := Best(t.clocks);
    var shown := Shown(t.frames, t.frames.order, best.offset, at);
    assert t.clocks != [] && Take(t, at).p95 == P95(Delays(shown, best.offset));
    hide Take;
    BestIsLeast(t.clocks);
    NoneOfNothing();
    P95Shifts(Delays(shown, best.offset), Delays(shown, ahead), best.offset - ahead);
    P95Splits(Delays(shown, ahead));
  }

  lemma NoneOfNothing()
    ensures P95([]).None?
  {
  }

  lemma MeanShifts(shown: seq<Showing>, best: Clock, ahead: real)
    requires shown != [] && Sound(best, ahead)
    ensures Mean(Delays(shown, best.offset)).Some? && Mean(Delays(shown, ahead)).Some?
    ensures Abs(Mean(Delays(shown, best.offset)).value - Mean(Delays(shown, ahead)).value) <= best.rtt / 2.0
  {
    var values, truth := Delays(shown, best.offset), Delays(shown, ahead);
    var error, n := best.offset - ahead, |shown| as real;
    assert forall i :: 0 <= i < |values| ==> values[i] == truth[i] + error;
    assert Mean(values) == Some(Sum(values) / n) && Mean(truth) == Some(Sum(truth) / n);
    hide Mean, Delays, Sum;
    SumShifts(values, truth, error);
    assert |values| as real * error == n * error;
    SameShare(Sum(values), Sum(truth), n, error);
  }

  lemma SameShare(sum: real, truth: real, n: real, error: real)
    requires n > 0.0 && sum == truth + n * error
    ensures sum / n == truth / n + error
  {
    Share(truth, n, error);
  }

  lemma Share(sum: real, n: real, error: real)
    requires n > 0.0
    ensures (sum + n * error) / n == sum / n + error
  {
    assert (sum / n + error) * n == sum + n * error;
  }
}
