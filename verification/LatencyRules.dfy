/** Which replies the latency tracker uses, what it forgets, and when it has something to show. */
module LatencyRules {
  import opened Wrappers
  import opened Ordered
  import opened Latency

  lemma {:induction false} RecentExactly(clocks: seq<Clock>, at: real)
    ensures var r := Recent(clocks, at);
      && |r| <= |clocks| && (forall c :: c in r <==> c in clocks && at - c.at <= 30000.0)
  {
    if clocks != [] {
      var front := clocks[..|clocks| - 1];
      RecentExactly(front, at);
      assert clocks == front + [clocks[|clocks| - 1]];
    }
  }

  /** Pruning forgets requests after ten seconds and measurements after thirty, and keeps at most the last 64
      measurements; of the younger ones none is lost while there are no more than that. */
  lemma PruneForgets(t: Tracker, at: real)
    ensures var r := Prune(t, at);
      && (forall id :: id in r.requests <==> id in t.requests && at - t.requests[id] <= 10000.0)
      && (forall id :: id in r.requests ==> r.requests[id] == t.requests[id])
      && |r.clocks| <= 64
      && (forall c :: c in r.clocks ==> c in t.clocks && at - c.at <= 30000.0)
      && (forall c :: c in t.clocks && at - c.at <= 30000.0 ==> c in r.clocks || |r.clocks| == 64)
      && r.latest == t.latest && r.lastReply == t.lastReply && r.nextRequest == t.nextRequest
  {
    RecentExactly(t.clocks, at);
    hide Recent, ForgetMany, ForgetOld;
  }

  lemma {:induction false} ForgetOldExactly(
      frames: OrderedDict<int, Frame>, ids: seq<int>, latest: Option<int>, at: real)
    ensures var r := ForgetOld(frames, ids, latest, at);
      && r.Size() <= frames.Size()
      && (forall id :: r.Has(id) <==>
           frames.Has(id) && !(id in ids && latest != Some(id) && at - frames.items[id].created > 30000.0))
      && (forall id :: r.Has(id) ==> r.items[id] == frames.items[id])
    decreases |ids|
  {
    if ids != [] {
      var drop := frames.Has(ids[0]) && at - frames.items[ids[0]].created > CLOCK_AGE && latest != Some(ids[0]);
      assert forall id :: id in ids <==> id == ids[0] || id in ids[1..];
      ForgetOldExactly(if drop then Remove(frames, ids[0]) else frames, ids[1..], latest, at);
    }
  }

  lemma {:induction false} ForgetManyKeeps(frames: OrderedDict<int, Frame>, latest: Option<int>)
    ensures var r := ForgetMany(frames, latest);
      && r.Size() == (if frames.Size() > 512 then 512 else frames.Size())
      && (forall id :: r.Has(id) ==> frames.Has(id) && r.items[id] == frames.items[id])
      && (latest.Some? && frames.Has(latest.value) ==> r.Has(latest.value))
      && (frames.Size() <= 512 ==> r == frames)
    decreases frames.Size()
  {
    if frames.Size() > FRAMES {
      var id := if latest == Some(frames.order[0]) then frames.order[1] else frames.order[0];
      assert id in frames.order && frames.order[0] != frames.order[1];
      ForgetManyKeeps(Remove(frames, id), latest);
    }
  }

  /** Pruning forgets frames after thirty seconds, and beyond 512 of them, but never the latest one. */
  lemma FramesForgotten(t: Tracker, at: real)
    ensures var r := Prune(t, at);
      && r.frames.Size() <= 512
      && (forall id :: r.frames.Has(id) ==> t.frames.Has(id) && r.frames.items[id] == t.frames.items[id])
      && (t.latest.Some? && t.frames.Has(t.latest.value) ==> r.frames.Has(t.latest.value))
      && (t.frames.Size() <= 512 ==>
           forall id :: r.frames.Has(id) <==>
             t.frames.Has(id) && (t.latest == Some(id) || at - t.frames.items[id].created <= 30000.0))
  {
    var f := ForgetOld(t.frames, t.frames.order, t.latest, at);
    PrunesFrames(t, at);
    KeysInOrder(t.frames);
    hide *;
    ForgetOldExactly(t.frames, t.frames.order, t.latest, at);
    ForgetManyKeeps(f, t.latest);
    assert t.latest.Some? && t.frames.Has(t.latest.value) ==> f.Has(t.latest.value);
  }

  lemma PrunesFrames(t: Tracker, at: real)
    ensures Prune(t, at).frames == ForgetMany(ForgetOld(t.frames, t.frames.order, t.latest, at), t.latest)
  {
    hide ForgetOld, ForgetMany, Recent, LastClocks;
  }

  lemma KeysInOrder(d: OrderedDict<int, Frame>)
    ensures forall id :: d.Has(id) ==> id in d.order
  {
  }

  /** A time of publication is noted exactly if it is positive. */
  lemma PublicationNoted(t: Tracker, id: int, published: real, now: real)
    ensures var r := NoteMetadata(t, id, published, now);
      if published > 0.0 then
        && r.frames.Has(id) && r.frames.items[id].published == Some(published)
        && (Prune(t, now).frames.Has(id) ==> r.frames.items[id].decoded == Prune(t, now).frames.items[id].decoded)
      else r == t
  {
    hide Prune;
  }

  lemma NewestIsKept(clocks: seq<Clock>, c: Clock)
    ensures var r := LastClocks(Recent(clocks + [c], c.at)); r != [] && r[|r| - 1] == c
  {
    assert (clocks + [c])[..|clocks|] == clocks;
    assert Recent(clocks + [c], c.at) == Recent(clocks, c.at) + [c];
    hide Recent;
  }

  /** A reply is used exactly when its request is known and at most ten seconds old, both its times are numbers in
      order, and they do not take longer than the whole exchange; it then is the newest measurement. Used or not,
      its request is answered: no reply counts twice. */
  lemma RepliesUsedExactly(t: Tracker, r: Reply, at: real)
    ensures var (u, used) := AcceptClock(t, r, at);
      && (used <==>
            && r.id in t.requests && at - t.requests[r.id] <= 10000.0 && r.received.Some? && r.replied.Some?
            && r.received.value <= r.replied.value
            && r.replied.value - r.received.value <= at - t.requests[r.id])
      && r.id !in u.requests
      && (!used ==> u == t.(requests := t.requests - {r.id}))
      && (used ==>
            && u.lastReply == Some(at) && u.clocks != []
            && var c := u.clocks[|u.clocks| - 1];
              && c.at == at && c.rtt == (at - t.requests[r.id]) - (r.replied.value - r.received.value)
              && 2.0 * c.offset == (r.received.value - t.requests[r.id]) + (r.replied.value - at))
  {
    if AcceptClock(t, r, at).1 {
      var c := Measured(t.requests[r.id], r.received.value, r.replied.value, at);
      var u := Cancel(t, r.id);
      NewestIsKept(u.clocks, c);
      PruneForgets(u.(clocks := u.clocks + [c], lastReply := Some(at)), at);
      hide Recent, LastClocks, ForgetMany, ForgetOld;
    }
  }

  /** A frame decoded no earlier than the latest one takes its place. */
  lemma LatestDecoded(t: Tracker, id: int, decoded: real, now: real)
    ensures var p, r := Prune(t, now), NoteDecoded(t, id, decoded, now);
      && r.frames.Has(id) && r.frames.items[id].decoded == Some(decoded)
      && (r.latest == Some(id) <==>
            || t.latest == Some(id) || t.latest.None? || !p.frames.Has(t.latest.value)
            || p.frames.items[t.latest.value].decoded.None? || decoded >= p.frames.items[t.latest.value].decoded.value)
      && (r.latest != Some(id) ==> r.latest == t.latest)
      && (forall k :: k in p.frames.items && k != id ==> r.frames.Has(k) && r.frames.items[k] == p.frames.items[k])
  {
    PruneForgets(t, now);
    hide Prune;
  }

  /** What a snapshot shows: nothing but staleness ten seconds after the last reply used; nothing before three
      measurements; the delay once the latest frame has both its times and it does not come out negative. */
  lemma ShowsExactly(t: Tracker, at: real)
    ensures var s := Take(t, at);
      var stale := t.lastReply.Some? && at - t.lastReply.value > 10000.0;
      var known := t.latest.Some? && t.frames.Has(t.latest.value)
        && t.frames.items[t.latest.value].published.Some? && t.frames.items[t.latest.value].decoded.Some?;
      && (s.state == Stale <==> stale)
      && (s.state == Calibrating <==> !stale && |t.clocks| < 3)
      && (s.state == Waiting <==> !stale && |t.clocks| >= 3 && !known)
      && (s.uncertainty.Some? <==> !stale && |t.clocks| >= 3)
      && (s.delay.Some? <==> s.state == Ready) && (s.age.Some? <==> s.state == Ready)
      && (s.mean.Some? <==> s.count > 0) && (s.p95.Some? <==> s.count > 0)
      && (s.state == Ready <==>
            && !stale && |t.clocks| >= 3 && known
            && t.frames.items[t.latest.value].published.value - t.frames.items[t.latest.value].decoded.value
               <= Best(t.clocks).offset)
  {
    hide Best, Shown, Sum;
  }
}
