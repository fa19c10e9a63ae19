/** From published frames to the screen: what is shown is a published frame, byte for byte, and in order, over
    any loss, repetition and reordering of fragments. */
module VideoDelivery {
  import opened Wrappers
  import opened Ordered
  import opened Octets
  import opened VideoFrames
  import opened MachineWords

  /** A frame one of the capture processes has published. */
  datatype Published = Published(capture: nat, number: nat, published: nat, data: seq<Byte>) {
    function Id(): U32 { Low32(number) }
  }

  type Catalog = set<Published>

  // ---- fragments, as the gateway cuts them ----

  function Total(length: nat, size: nat): nat
    requires size > 0
  {
    CeilDiv(length, size)
  }

  function Cut(length: nat, size: nat, i: nat): nat { if i * size <= length then i * size else length }

  lemma CutMonotone(length: nat, size: nat, i: nat)
    ensures Cut(length, size, i) <= Cut(length, size, i + 1) <= length
  {
    assert (i + 1) * size == i * size + size;
  }

  function Slice(data: seq<Byte>, size: nat, i: nat): seq<Byte> {
    CutMonotone(|data|, size, i);
    data[Cut(|data|, size, i)..Cut(|data|, size, i + 1)]
  }

  predicate Deliverable(f: Published, size: nat)
    requires size > 0
  {
    f.data != [] && Total(|f.data|, size) <= MAX_FRAGMENTS && size <= MAX_BYTES
  }

  lemma SliceBounds(length: nat, size: nat, i: nat)
    requires size > 0 && i < Total(length, size)
    ensures Cut(length, size, i) < Cut(length, size, i + 1) <= Cut(length, size, i) + size
    ensures i == Total(length, size) - 1 ==> Cut(length, size, i + 1) == length
  {
    var total := Total(length, size);
    assert total * size >= length && (total - 1) * size < length by { Rounding(length, size); }
    assert i * size <= (total - 1) * size by { Multiples(i, total - 1, size); }
    assert (i + 1) * size == i * size + size;
  }

  lemma Rounding(length: nat, size: nat)
    requires size > 0
    ensures length <= Total(length, size) * size < length + size
  {
    CeilDivBounds(length, size);
  }

  lemma Multiples(a: nat, b: nat, size: nat)
    requires a <= b
    ensures a * size <= b * size
  {
  }

  function FragmentOf(f: Published, size: nat, i: nat): Packet
    requires size > 0 && Deliverable(f, size) && i < Total(|f.data|, size)
  {
    SliceBounds(|f.data|, size, i);
    Parsed(f.Id(), i, Total(|f.data|, size), Slice(f.data, size, i), Some(f.published))
  }

  /** The gateway's loop over one frame. */
  method SendFragments(f: Published, size: nat) returns (sent: seq<Packet>)
    requires size > 0 && Deliverable(f, size)
    ensures |sent| == Total(|f.data|, size)
    ensures forall i :: 0 <= i < |sent| ==> sent[i] == FragmentOf(f, size, i)
  {
    sent := [];
    var total := Total(|f.data|, size);
    for i := 0 to total
      invariant |sent| == i && forall k :: 0 <= k < i ==> sent[k] == FragmentOf(f, size, k)
    {
      SliceBounds(|f.data|, size, i);
      var offset := i * size;
      var remaining := |f.data| - offset;
      var len := if size < remaining then size else remaining;
      sent := sent + [Parsed(f.Id(), i, total, f.data[offset..offset + len], Some(f.published))];
    }
  }

  function Joined(chunks: Chunks): seq<Byte> {
    if chunks == [] then []
    else
      Joined(chunks[..|chunks| - 1])
      + (if chunks[|chunks| - 1].Some? then chunks[|chunks| - 1].value else [])
  }

  lemma {:induction false} SlicesJoin(data: seq<Byte>, size: nat, chunks: Chunks)
    requires size > 0 && |chunks| <= Total(|data|, size)
    requires forall i :: 0 <= i < |chunks| ==> chunks[i] == Some(Slice(data, size, i))
    ensures Joined(chunks) == data[..Cut(|data|, size, |chunks|)]
  {
    if chunks != [] {
      var n := |chunks| - 1;
      SlicesJoin(data, size, chunks[..n]);
      CutMonotone(|data|, size, n);
    }
  }

  lemma {:induction false} AllPresent(chunks: Chunks)
    ensures Count(chunks) <= |chunks|
    ensures Count(chunks) == |chunks| <==> forall i :: 0 <= i < |chunks| ==> chunks[i].Some?
  {
    if chunks != [] {
      AllPresent(chunks[..|chunks| - 1]);
      if forall i :: 0 <= i < |chunks| ==> chunks[i].Some? {
        assert chunks[|chunks| - 1].Some?;
      }
    }
  }

  // ---- what the tables hold ----

  /** Number and publication time tell published frames apart, even across restarts of the capture. */
  ghost predicate Distinct(published: Catalog) {
    forall f, g :: f in published && g in published && f.Id() == g.Id() && f.published == g.published ==> f == g
  }

  ghost predicate Genuine(p: Packet, published: Catalog, size: nat)
    requires size > 0
  {
    exists f, i: nat ::
      f in published && Deliverable(f, size) && i < Total(|f.data|, size) && p == FragmentOf(f, size, i)
  }

  ghost predicate PartOf(a: Assembly, f: Published, size: nat)
    requires size > 0
  {
    && a.total == Total(|f.data|, size) && a.published == Some(f.published)
    && forall i :: 0 <= i < a.total ==> a.chunks[i].None? || a.chunks[i] == Some(Slice(f.data, size, i))
  }

  /** A frame holds nothing yet, or parts of one published frame only. */
  ghost predicate Faithful(id: U32, a: Assembly, published: Catalog, size: nat)
    requires size > 0
  {
    || (a.published.None? && forall i :: 0 <= i < a.total ==> a.chunks[i].None?)
    || exists f :: f in published && f.Id() == id && PartOf(a, f, size)
  }

  ghost predicate Holds(s: State, published: Catalog, size: nat)
    requires size > 0
  {
    forall id :: id in s.frames.items ==> Faithful(id, s.frames.items[id], published, size)
  }

  lemma ReducedHolds(s: State, r: State, published: Catalog, size: nat)
    requires size > 0 && Holds(s, published, size) && Reduced(s, r)
    ensures Holds(r, published, size)
  {
    hide Faithful;
  }

  lemma ChunkFaithful(id: U32, a: Assembly, p: Packet, published: Catalog, size: nat)
    requires size > 0 && Distinct(published) && Genuine(p, published, size) && Faithful(id, a, published, size)
    requires p.id == id && a.total == p.total && (a.published.None? || a.published == p.published)
    ensures Faithful(id, WithChunk(a, p), published, size)
  {
    var f, i: nat :| f in published && Deliverable(f, size) && i < Total(|f.data|, size) && p == FragmentOf(f, size, i);
    if a.published.Some? {
      var g :| g in published && g.Id() == id && PartOf(a, g, size);
      assert f == g;
    }
    hide Slice, Total, Low32;
    assert PartOf(WithChunk(a, p), f, size);
  }

  lemma EnsureHolds(s: State, id: U32, total: int, totalBytes: int, now: real, published: Catalog, size: nat)
    requires size > 0 && Holds(s, published, size)
    ensures Holds(Ensure(s, id, total, totalBytes, now), published, size)
  {
    if 0 < total { assert Faithful(id, NewAssembly(total, totalBytes, now), published, size); }
    hide Faithful, NewAssembly;
  }

  lemma AddHolds(s: State, p: Packet, now: real, published: Catalog, size: nat)
    requires size > 0 && Distinct(published) && Genuine(p, published, size) && Holds(s, published, size) && Tables(s)
    requires AllCounted(s.frames.items)
    ensures Holds(Add(s, p, now), published, size)
  {
    if Welcome(s, p.id, p.total) {
      EnsureHolds(s, p.id, p.total, 0, now, published, size);
      EnsureKeeps(s, p.id, p.total, 0, now);
      var t := Ensure(s, p.id, p.total, 0, now);
      hide Ensure, Distinct, Genuine, AllCounted, Tables;
      StoreHolds(t, p, now, published, size);
    }
  }

  lemma StoreHolds(t: State, p: Packet, now: real, published: Catalog, size: nat)
    requires size > 0 && Distinct(published) && Genuine(p, published, size) && Holds(t, published, size) && Tables(t)
    requires t.frames.Has(p.id)
    ensures Holds(Discard(t, p.id, now), published, size)
    ensures var a := t.frames.items[p.id];
      a.total == p.total && (a.published.None? || a.published == p.published) ==>
        var u := t.(frames := Put(t.frames, p.id, WithChunk(a, p)));
        Holds(Discard(u, p.id, now), published, size) && Holds(Prune(u, now), published, size)
  {
    var a := t.frames.items[p.id];
    DiscardKeeps(t, p.id, now);
    hide Discard, Prune;
    ReducedHolds(t, Discard(t, p.id, now), published, size);
    if a.total == p.total && (a.published.None? || a.published == p.published) {
      ChunkFaithful(p.id, a, p, published, size);
      var u := t.(frames := Put(t.frames, p.id, WithChunk(a, p)));
      assert Holds(u, published, size) by { hide Faithful, WithChunk; }
      TablesIgnoreValues(t, u);
      assert u.frames.Has(p.id);
      hide Holds, WithChunk, Tables;
      DiscardKeeps(u, p.id, now);
      PruneKeeps(u, now);
      ReducedHolds(u, Discard(u, p.id, now), published, size);
      ReducedHolds(u, Prune(u, now), published, size);
    }
  }

  lemma TablesIgnoreValues(s: State, r: State)
    requires Tables(s) && r.frames.items.Keys == s.frames.items.Keys && r == s.(frames := r.frames)
    ensures Tables(r)
  {
    assert forall id :: id in r.frames.items ==> id in s.frames.items.Keys;
  }

  lemma AcceptHolds(s: State, p: Packet, now: real, published: Catalog, size: nat)
    requires size > 0 && Distinct(published) && Genuine(p, published, size) && Holds(s, published, size) && Inv(s)
    ensures Holds(Accept(s, p, now), published, size)
  {
    var t := if Restarted(s, p) then Fresh().(floor := p.published.value) else s;
    if !(p.published.Some? && p.published.value < t.floor) {
      ObserveKeeps(t, p);
      var o := Observe(t, p);
      PruneKeeps(o, now);
      PruneInv(o, now);
      ReducedHolds(o, Prune(o, now), published, size);
      hide Prune, Genuine, Faithful, Add, Tables, AllCounted;
      AddHolds(Prune(o, now), p, now, published, size);
    }
  }
}
