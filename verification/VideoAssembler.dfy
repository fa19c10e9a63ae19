/** The assembler object: its calls change the tables in place, and each is tied to its specification. */
module VideoAssembler {
  import opened Wrappers
  import opened Ordered
  import opened Octets
  import Spec = VideoFrames
  import opened VideoFrames
  import opened MachineWords

  class Assembler {
    var frames: OrderedDict<U32, Assembly>
    var retired: OrderedDict<U32, real>
    var lastRendered: Option<U32>
    var latestPublished: nat
    var latestId: Option<U32>
    var dropped: nat
    var publicationFloor: nat

    /** The fields as one value. */
    ghost function Value(): State
      reads this
    {
      State(frames, retired, lastRendered, latestPublished, latestId, dropped, publicationFloor)
    }

    constructor ()
      ensures Value() == Spec.Fresh()
    {
      frames, retired := Empty(), Empty();
      lastRendered, latestPublished, latestId, dropped, publicationFloor := None, 0, None, 0, 0;
    }

    method Reset()
      modifies this
      ensures Value() == Spec.Fresh()
    {
      frames, retired := Empty(), Empty();
      lastRendered, latestPublished, latestId, dropped, publicationFloor := None, 0, None, 0, 0;
    }

    method Discard(id: U32, now: real)
      modifies `frames, `retired, `dropped
      ensures Value() == Spec.Discard(old(Value()), id, now)
    {
      if frames.Has(id) {
        frames := Remove(frames, id);
        dropped := dropped + 1;
      } else {
        RemoveAbsent(frames, id);
      }
      retired := Put(retired, id, now);
    }

    method DiscardExpired(now: real)
      modifies `frames, `retired, `dropped
      ensures Value() == Spec.DiscardExpired(old(Value()), old(frames.order), now)
    {
      var ids := frames.order;
      for i := 0 to |ids|
        invariant Spec.DiscardExpired(Value(), ids[i..], now) == Spec.DiscardExpired(old(Value()), ids, now)
      {
        ExpiredOnce(Value(), ids, i, now);
        hide Spec.Discard, Spec.DiscardExpired;
        if frames.Has(ids[i]) && now - frames.items[ids[i]].createdAt > FRAME_AGE { Discard(ids[i], now); }
      }
      ExpiredNone(Value(), now);
    }

    method DiscardOldest(now: real)
      modifies `frames, `retired, `dropped
      ensures Value() == Spec.DiscardOldest(old(Value()), now)
    {
      while frames.Size() > MAX_FRAMES
        invariant Spec.DiscardOldest(Value(), now) == Spec.DiscardOldest(old(Value()), now)
        decreases frames.Size()
      {
        assert frames.order[0] in frames.order;
        Discard(frames.order[0], now);
      }
    }

    method ForgetExpired(now: real)
      modifies `retired
      ensures retired == Spec.ForgetExpired(old(retired), old(retired.order), now)
    {
      var ids := retired.order;
      for i := 0 to |ids|
        invariant Spec.ForgetExpired(retired, ids[i..], now) == Spec.ForgetExpired(old(retired), ids, now)
      {
        ForgottenOnce(retired, ids, i, now);
        hide Spec.ForgetExpired;
        if retired.Has(ids[i]) && now - retired.items[ids[i]] > RETIRED_AGE { retired := Remove(retired, ids[i]); }
      }
      ForgottenNone(retired, now);
    }

    method ForgetOldest()
      modifies `retired
      ensures retired == Spec.ForgetOldest(old(retired))
    {
      while retired.Size() > MAX_RETIRED
        invariant Spec.ForgetOldest(retired) == Spec.ForgetOldest(old(retired))
        decreases retired.Size()
      {
        assert retired.order[0] in retired.order;
        retired := Remove(retired, retired.order[0]);
      }
    }

    method Prune(now: real)
      modifies `frames, `retired, `dropped
      ensures Value() == Spec.Prune(old(Value()), now)
    {
      hide Spec.DiscardExpired, Spec.DiscardOldest, Spec.ForgetExpired, Spec.ForgetOldest;
      DiscardExpired(now);
      DiscardOldest(now);
      ForgetExpired(now);
      ForgetOldest();
    }

    method EnsureFrame(id: U32, total: int, totalBytes: int, now: real) returns (ok: bool)
      modifies `frames
      ensures Value() == Ensure(old(Value()), id, total, totalBytes, now)
      ensures ok <==> Welcome(old(Value()), id, total)
      ensures ok ==> frames.Has(id)
    {
      if total <= 0 || total > MAX_FRAGMENTS || retired.Has(id)
         || (lastRendered.Some? && !Newer(id, lastRendered.value)) {
        return false;
      }
      if !frames.Has(id) { frames := Put(frames, id, NewAssembly(total, totalBytes, now)); }
      return true;
    }

    method Merge(frame: Assembly, p: Packet) returns (merged: Assembly)
      requires p.index < frame.total
      ensures merged == WithChunk(frame, p)
    {
      merged := frame.(published := p.published);
      if merged.chunks[p.index].None? {
        merged := merged.(chunks := merged.chunks[p.index := Some(p.payload)], received := merged.received + 1,
                          receivedBytes := merged.receivedBytes + |p.payload|);
      }
    }

    method Store(p: Packet, now: real) returns (held: bool)
      modifies `frames, `retired, `dropped
      ensures Value() == Add(old(Value()), p, now)
      ensures held ==> frames.Has(p.id)
    {
      hide Newer, Spec.Prune, Spec.Discard, WithChunk;
      var ok := EnsureFrame(p.id, p.total, 0, now);
      if !ok { return false; }
      var frame := frames.items[p.id];
      if frame.total != p.total || (frame.published.Some? && frame.published != p.published) {
        Discard(p.id, now);
        return false;
      }
      frame := Merge(frame, p);
      frames := Put(frames, p.id, frame);
      if frame.receivedBytes > MAX_BYTES {
        Discard(p.id, now);
        return false;
      }
      Prune(now);
      return frames.Has(p.id);
    }

    method Accept(p: Packet, now: real) returns (held: bool)
      modifies this
      ensures Value() == Spec.Accept(old(Value()), p, now)
      ensures held ==> frames.Has(p.id)
    {
      hide Newer, Spec.Prune, Spec.Add;
      if p.published.Some? && p.published.value > latestPublished && latestId.Some?
         && p.id != latestId.value && !Newer(p.id, latestId.value) {
        Reset();
        publicationFloor := p.published.value;
      }
      if p.published.Some? && p.published.value < publicationFloor { return false; }
      if p.published.Some? && p.published.value > latestPublished {
        latestPublished, latestId := p.published.value, Some(p.id);
      }
      Prune(now);
      held := Store(p, now);
    }

    method Finish(id: U32, now: real) returns (shown: bool)
      modifies this
      ensures (Value(), shown) == Spec.Finish(old(Value()), id, now)
    {
      hide Newer, Spec.Discard;
      if !frames.Has(id) || frames.items[id].received != frames.items[id].total { return false; }
      if lastRendered.Some? && !Newer(id, lastRendered.value) {
        Discard(id, now);
        return false;
      }
      lastRendered := Some(id);
      frames := Remove(frames, id);
      DiscardOlder(id, now);
      return true;
    }

    method DiscardOlder(id: U32, now: real)
      modifies `frames, `retired, `dropped
      ensures Value() == Spec.DiscardOlder(old(Value()), old(frames.order), id, now)
    {
      var ids := frames.order;
      for i := 0 to |ids|
        invariant Spec.DiscardOlder(Value(), ids[i..], id, now) == Spec.DiscardOlder(old(Value()), ids, id, now)
      {
        OlderOnce(Value(), ids, i, id, now);
        hide Newer, Spec.Discard, Spec.DiscardOlder;
        if frames.Has(ids[i]) && !Newer(ids[i], id) { Discard(ids[i], now); }
      }
      OlderNone(Value(), id, now);
    }
  }

  lemma ExpiredOnce(s: State, ids: seq<U32>, i: nat, now: real)
    requires i < |ids|
    ensures Spec.DiscardExpired(s, ids[i..], now) ==
      Spec.DiscardExpired(if s.frames.Has(ids[i]) && now - s.frames.items[ids[i]].createdAt > FRAME_AGE
                          then Spec.Discard(s, ids[i], now) else s, ids[i + 1..], now)
  {
    hide Spec.Discard;
    assert ids[i..][1..] == ids[i + 1..];
  }

  lemma ExpiredNone(s: State, now: real)
    ensures Spec.DiscardExpired(s, [], now) == s
  {
  }

  lemma ForgottenOnce(r: OrderedDict<U32, real>, ids: seq<U32>, i: nat, now: real)
    requires i < |ids|
    ensures Spec.ForgetExpired(r, ids[i..], now) ==
      Spec.ForgetExpired(
        if r.Has(ids[i]) && now - r.items[ids[i]] > RETIRED_AGE then Remove(r, ids[i]) else r, ids[i + 1..], now)
  {
    assert ids[i..][1..] == ids[i + 1..];
  }

  lemma ForgottenNone(r: OrderedDict<U32, real>, now: real)
    ensures Spec.ForgetExpired(r, [], now) == r
  {
  }

  lemma OlderOnce(s: State, ids: seq<U32>, i: nat, id: U32, now: real)
    requires i < |ids|
    ensures Spec.DiscardOlder(s, ids[i..], id, now) ==
      Spec.DiscardOlder(if s.frames.Has(ids[i]) && !Newer(ids[i], id) then Spec.Discard(s, ids[i], now) else s,
                        ids[i + 1..], id, now)
  {
    hide Spec.Discard, Newer;
    assert ids[i..][1..] == ids[i + 1..];
  }

  lemma OlderNone(s: State, id: U32, now: real)
    ensures Spec.DiscardOlder(s, [], id, now) == s
  {
  }

  lemma RemoveAbsent<V>(d: OrderedDict<U32, V>, id: U32)
    requires !d.Has(id)
    ensures Remove(d, id) == d
  {
    assert id !in d.order;
    assert d.items - {id} == d.items;
  }
}
