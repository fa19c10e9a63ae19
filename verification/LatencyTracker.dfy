/** The latency tracker object: its maps and lists are changed in place, each call tied to its specification. */
module LatencyObject {
  import opened Wrappers
  import opened Ordered
  import Spec = Latency
  import opened Latency
  import opened Percentile

  class LatencyTracker {
    var requests: map<nat, real>
    var clocks: seq<Clock>
    var frames: OrderedDict<int, Frame>
    var latest: Option<int>
    var nextRequest: nat
    var lastReply: Option<real>

    ghost function Value(): Tracker
      reads this
    {
      Tracker(requests, clocks, frames, latest, nextRequest, lastReply)
    }

    constructor ()
      ensures Value() == Started()
    {
      requests, clocks, frames, latest, nextRequest, lastReply := map[], [], Empty(), None, 0, None;
    }

    method Reset()
      modifies this
      ensures Value() == Spec.Reset(old(Value()))
    {
      requests, clocks, frames, latest, lastReply := map[], [], Empty(), None, None;
    }

    method PruneRequests(at: real)
      modifies `requests
      ensures requests == map id | id in old(requests) && at - old(requests)[id] <= REPLY_LIMIT :: old(requests)[id]
    {
      var todo := requests.Keys;
      while todo != {}
        invariant todo <= requests.Keys <= old(requests).Keys
        invariant forall id :: id in old(requests) ==>
          (id in requests <==> id in todo || at - old(requests)[id] <= REPLY_LIMIT)
        invariant forall id :: id in requests ==> requests[id] == old(requests)[id]
      {
        var id :| id in todo;
        if at - requests[id] > REPLY_LIMIT { requests := requests - {id}; }
        todo := todo - {id};
      }
    }

    method PruneClocks(at: real)
      modifies `clocks
      ensures clocks == LastClocks(Recent(old(clocks), at))
    {
      var kept := [];
      for i := 0 to |clocks|
        invariant kept == Recent(clocks[..i], at)
      {
        assert clocks[..i + 1][..i] == clocks[..i];
        if at - clocks[i].at <= CLOCK_AGE { kept := kept + [clocks[i]]; }
      }
      assert clocks[..|clocks|] == clocks;
      clocks := if |kept| <= CLOCKS then kept else kept[|kept| - CLOCKS..];
    }

    method PruneFrames(at: real)
      modifies `frames
      ensures frames == ForgetMany(ForgetOld(old(frames), old(frames.order), latest, at), latest)
    {
      var ids := frames.order;
      for i := 0 to |ids|
        invariant ForgetOld(frames, ids[i..], latest, at) == ForgetOld(old(frames), ids, latest, at)
      {
        OldOnce(frames, ids, i, latest, at);
        hide ForgetOld;
        if frames.Has(ids[i]) && at - frames.items[ids[i]].created > CLOCK_AGE && latest != Some(ids[i]) {
          frames := Remove(frames, ids[i]);
        }
      }
      OldNone(frames, latest, at);
      hide ForgetOld;
      while frames.Size() > FRAMES
        invariant ForgetMany(frames, latest) == ForgetMany(ForgetOld(old(frames), ids, latest, at), latest)
        decreases frames.Size()
      {
        var k := 0;
        if latest == Some(frames.order[0]) { k := 1; }
        assert frames.order[k] in frames.order;
        frames := Remove(frames, frames.order[k]);
      }
    }

    method Prune(at: real)
      modifies this
      ensures Value() == Spec.Prune(old(Value()), at)
    {
      hide ForgetMany, ForgetOld, LastClocks, Recent;
      PruneRequests(at);
      PruneClocks(at);
      PruneFrames(at);
    }

    method Request(now: real) returns (id: nat)
      modifies this
      ensures Value() == Spec.Request(old(Value()), now) && id == nextRequest
    {
      hide Spec.Prune;
      PruneNumber(Value(), now);
      Prune(now);
      nextRequest := nextRequest + 1;
      requests := requests[nextRequest := now];
      id := nextRequest;
    }

    method CancelRequest(id: nat)
      modifies this
      ensures Value() == Cancel(old(Value()), id)
    {
      requests := requests - {id};
    }

    method AcceptClock(r: Reply, at: real) returns (used: bool)
      modifies this
      ensures (Value(), used) == Spec.AcceptClock(old(Value()), r, at)
    {
      hide Spec.Prune;
      var sent := if r.id in requests then Some(requests[r.id]) else None;
      requests := requests - {r.id};
      if sent.None? || at - sent.value > REPLY_LIMIT || r.received.None? || r.replied.None?
         || r.replied.value < r.received.value {
        return false;
      }
      var rtt := at - sent.value - (r.replied.value - r.received.value);
      if rtt < 0.0 { return false; }
      clocks := clocks + [Clock(at, rtt, ((r.received.value - sent.value) + (r.replied.value - at)) / 2.0)];
      lastReply := Some(at);
      Prune(at);
      return true;
    }

    /** The stored measurement with the least round trip, the last one of several. */
    method BestClock() returns (best: Clock)
      requires clocks != []
      ensures best == Best(clocks)
    {
      best := clocks[0];
      assert clocks[..1] == [clocks[0]];
      for i := 1 to |clocks|
        invariant best == Best(clocks[..i])
      {
        assert clocks[..i + 1][..i] == clocks[..i];
        if best.rtt >= clocks[i].rtt { best := clocks[i]; }
      }
      assert clocks[..|clocks|] == clocks;
    }

    /** The delays of the frames shown lately. */
    method RecentDelays(offset: real, at: real) returns (values: seq<real>)
      ensures values == Delays(Shown(frames, frames.order, offset, at), offset)
    {
      values := [];
      ghost var all := Remaining(frames, 0, offset, at);
      assert frames.order[0..] == frames.order;
      for i := 0 to |frames.order|
        invariant values + Remaining(frames, i, offset, at) == all
      {
        ghost var was, rest := values, Remaining(frames, i + 1, offset, at);
        DelaysOnce(frames, i, offset, at);
        var frame := frames.items[frames.order[i]];
        hide Remaining;
        if frame.published.Some? && frame.decoded.Some? && at - frame.decoded.value <= REPLY_LIMIT {
          var delay := frame.decoded.value + offset - frame.published.value;
          if delay >= 0.0 {
            values := values + [delay];
            assert was + ([delay] + rest) == values + rest;
          }
        }
        assert values == was ==> [] + rest == rest;
      }
    }

    method Average(values: seq<real>) returns (mean: Option<real>)
      ensures mean == Mean(values)
    {
      if values == [] { return None; }
      var sum := 0.0;
      for i := 0 to |values|
        invariant sum == Sum(values[..i])
      {
        assert values[..i + 1][..i] == values[..i];
        sum := sum + values[i];
      }
      assert values[..|values|] == values;
      return Some(sum / |values| as real);
    }

    method TakeSnapshot(at: real) returns (s: Snapshot)
      modifies this
      ensures Value() == Spec.Prune(old(Value()), at) && s == Take(Value(), at)
    {
      hide Spec.Prune, Shown, Best, Mean, P95;
      Prune(at);
      s := Snapshot(Calibrating, None, None, None, None, None, 0);
      if lastReply.Some? && at - lastReply.value > REPLY_LIMIT { return s.(state := Stale); }
      if |clocks| < 3 { return; }
      var best := BestClock();
      var values := RecentDelays(best.offset, at);
      var mean := Average(values);
      s := s.(state := Waiting, uncertainty := Some(best.rtt / 2.0 + 1.0), count := |values|, mean := mean,
              p95 := P95(values));
      if latest.None? || !frames.Has(latest.value) { return; }
      var frame := frames.items[latest.value];
      if frame.published.None? || frame.decoded.None? { return; }
      var delay := frame.decoded.value + best.offset - frame.published.value;
      if delay < 0.0 { return s.(state := InvalidDelay); }
      s := s.(state := Ready, delay := Some(delay), age := Some(at + best.offset - frame.published.value));
    }
  }

  /** The delays of the frames from the i-th on. */
  function Remaining(frames: OrderedDict<int, Frame>, i: nat, offset: real, at: real): seq<real>
    requires i <= frames.Size()
  {
    Delays(Shown(frames, frames.order[i..], offset, at), offset)
  }

  lemma DelaysOnce(frames: OrderedDict<int, Frame>, i: nat, offset: real, at: real)
    requires i < frames.Size()
    ensures frames.order[i] in frames.items && var f := frames.items[frames.order[i]];
      Remaining(frames, i, offset, at) ==
        (if ShownFrame(f, offset, at) != [] then [f.decoded.value + offset - f.published.value] else [])
        + Remaining(frames, i + 1, offset, at)
  {
    assert frames.order[i] in frames.order && frames.order[i..][1..] == frames.order[i + 1..];
    var f, rest := frames.items[frames.order[i]], Shown(frames, frames.order[i + 1..], offset, at);
    assert Shown(frames, frames.order[i..], offset, at) == ShownFrame(f, offset, at) + rest;
    hide Shown;
    if ShownFrame(f, offset, at) != [] {
      var one := ShownFrame(f, offset, at)[0];
      assert Delays([one] + rest, offset) == [one.Delay(offset)] + Delays(rest, offset);
    }
  }

  lemma PruneNumber(t: Tracker, at: real)
    ensures Spec.Prune(t, at).nextRequest == t.nextRequest
  {
  }

  lemma OldOnce(frames: OrderedDict<int, Frame>, ids: seq<int>, i: nat, latest: Option<int>, at: real)
    requires i < |ids|
    ensures ForgetOld(frames, ids[i..], latest, at) ==
      ForgetOld(if frames.Has(ids[i]) && at - frames.items[ids[i]].created > CLOCK_AGE && latest != Some(ids[i])
                then Remove(frames, ids[i]) else frames, ids[i + 1..], latest, at)
  {
    assert ids[i..][1..] == ids[i + 1..];
  }

  lemma OldNone(frames: OrderedDict<int, Frame>, latest: Option<int>, at: real)
    ensures ForgetOld(frames, [], latest, at) == frames
  {
  }
}
