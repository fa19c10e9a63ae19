/** The browser's frame assembler: what each of its calls does to its tables, as functions. */
module VideoFrames {
  import opened Wrappers
  import opened Ordered
  import opened Octets
  import opened MachineWords

  const MAX_FRAGMENTS := 8192
  const MAX_BYTES := 8 * 1024 * 1024
  const MAX_FRAMES := 2
  const MAX_RETIRED := 128
  const FRAME_AGE := 120.0
  const RETIRED_AGE := 2000.0

  /** Serial number comparison, section 3.2 of RFC 1982. */
  predicate Newer(a: U32, b: U32) { a != b && Low32(a - b) < 0x8000_0000 }

  /** A fragment that passed the parser. */
  datatype Parsed = Parsed(id: U32, index: nat, total: nat, payload: seq<Byte>, published: Option<nat>) {
    predicate Sound() { index < total <= MAX_FRAGMENTS && 0 < |payload| <= MAX_BYTES }
  }

  type Packet = p: Parsed | p.Sound() witness Parsed(0, 0, 1, [0], None)

  type Chunks = seq<Option<seq<Byte>>>

  datatype Partial = Partial(total: nat, totalBytes: int, chunks: Chunks, received: nat, receivedBytes: nat,
                             createdAt: real, published: Option<nat>)

  type Assembly = a: Partial | |a.chunks| == a.total witness Partial(0, 0, [], 0, 0, 0.0, None)

  datatype State = State(
    frames: OrderedDict<U32, Assembly>, retired: OrderedDict<U32, real>, lastRendered: Option<U32>,
    latestPublished: nat, latestId: Option<U32>, dropped: nat, floor: nat)

  function Fresh(): State { State(Empty(), Empty(), None, 0, None, 0, 0) }

  // ---- pruning ----

  function Discard(s: State, id: U32, now: real): State {
    s.(frames := Remove(s.frames, id), dropped := s.dropped + (if s.frames.Has(id) then 1 else 0),
       retired := Put(s.retired, id, now))
  }

  function DiscardExpired(s: State, ids: seq<U32>, now: real): State
    decreases |ids|
  {
    if ids == [] then s
    else
      DiscardExpired(if s.frames.Has(ids[0]) && now - s.frames.items[ids[0]].createdAt > FRAME_AGE
                     then Discard(s, ids[0], now) else s, ids[1..], now)
  }

  function DiscardOldest(s: State, now: real): State
    decreases s.frames.Size()
  {
    if s.frames.Size() > MAX_FRAMES then
      assert s.frames.order[0] in s.frames.order;
      DiscardOldest(Discard(s, s.frames.order[0], now), now)
    else s
  }

  function ForgetExpired(r: OrderedDict<U32, real>, ids: seq<U32>, now: real): OrderedDict<U32, real>
    decreases |ids|
  {
    if ids == [] then r
    else
      var drop := r.Has(ids[0]) && now - r.items[ids[0]] > RETIRED_AGE;
      ForgetExpired(if drop then Remove(r, ids[0]) else r, ids[1..], now)
  }

  function ForgetOldest(r: OrderedDict<U32, real>): OrderedDict<U32, real>
    decreases r.Size()
  {
    if r.Size() > MAX_RETIRED then
      assert r.order[0] in r.order;
      ForgetOldest(Remove(r, r.order[0]))
    else r
  }

  function Prune(s: State, now: real): State {
    var t := DiscardOldest(DiscardExpired(s, s.frames.order, now), now);
    t.(retired := ForgetOldest(ForgetExpired(t.retired, t.retired.order, now)))
  }

  // ---- frames ----

  /** The frame may be held: it was not given up, and it is newer than the one on the screen. */
  predicate Welcome(s: State, id: U32, total: int) {
    0 < total <= MAX_FRAGMENTS && !s.retired.Has(id) && (s.lastRendered.Some? ==> Newer(id, s.lastRendered.value))
  }

  function NewAssembly(total: nat, totalBytes: int, now: real): Assembly {
    Partial(total, totalBytes, seq(total, _ => None), 0, 0, now, None)
  }

  function Ensure(s: State, id: U32, total: int, totalBytes: int, now: real): State {
    if !Welcome(s, id, total) || s.frames.Has(id) then s
    else s.(frames := Put(s.frames, id, NewAssembly(total, totalBytes, now)))
  }

  /** A frame start message: the frame is made room for, then the tables are pruned. */
  function Announce(s: State, id: U32, total: int, totalBytes: int, now: real): State {
    Prune(Ensure(s, id, total, totalBytes, now), now)
  }

  /** A later publication under an earlier number: the capture process has been restarted. */
  predicate Restarted(s: State, p: Packet) {
    && p.published.Some? && p.published.value > s.latestPublished && s.latestId.Some?
    && p.id != s.latestId.value && !Newer(p.id, s.latestId.value)
  }

  function Observe(s: State, p: Packet): State {
    if p.published.Some? && p.published.value > s.latestPublished
    then s.(latestPublished := p.published.value, latestId := Some(p.id)) else s
  }

  function WithChunk(a: Assembly, p: Packet): Assembly
    requires p.index < |a.chunks|
  {
    var b := a.(published := p.published);
    if b.chunks[p.index].None? then
      b.(chunks := b.chunks[p.index := Some(p.payload)], received := b.received + 1,
         receivedBytes := b.receivedBytes + |p.payload|)
    else b
  }

  /** A fragment is added to its frame; one that contradicts it costs the whole frame. */
  function Add(s: State, p: Packet, now: real): State {
    if !Welcome(s, p.id, p.total) then s
    else
      var t := Ensure(s, p.id, p.total, 0, now);
      var a := t.frames.items[p.id];
      if a.total != p.total || (a.published.Some? && a.published != p.published)
      then Discard(t, p.id, now)
      else
        var b := WithChunk(a, p);
        var u := t.(frames := Put(t.frames, p.id, b));
        if b.receivedBytes > MAX_BYTES then Discard(u, p.id, now) else Prune(u, now)
  }

  function Accept(s: State, p: Packet, now: real): State {
    var t := if Restarted(s, p) then Fresh().(floor := p.published.value) else s;
    if p.published.Some? && p.published.value < t.floor then t
    else Add(Prune(Observe(t, p), now), p, now)
  }

  function DiscardOlder(s: State, ids: seq<U32>, id: U32, now: real): State
    decreases |ids|
  {
    if ids == [] then s
    else
      DiscardOlder(if s.frames.Has(ids[0]) && !Newer(ids[0], id) then Discard(s, ids[0], now) else s, ids[1..], id, now)
  }

  predicate Complete(s: State, id: U32) {
    s.frames.Has(id) && s.frames.items[id].received == s.frames.items[id].total
  }

  /** The flag says that the frame may be shown. */
  function Finish(s: State, id: U32, now: real): (State, bool) {
    if !Complete(s, id) then (s, false)
    else if s.lastRendered.Some? && !Newer(id, s.lastRendered.value) then (Discard(s, id, now), false)
    else
      var t := s.(lastRendered := Some(id), frames := Remove(s.frames, id));
      (DiscardOlder(t, t.frames.order, id, now), true)
  }

  // ---- the invariant ----

  function Count(chunks: Chunks): nat {
    if chunks == [] then 0 else (if chunks[|chunks| - 1].Some? then 1 else 0) + Count(chunks[..|chunks| - 1])
  }

  function Bytes(chunks: Chunks): nat {
    if chunks == [] then 0
    else (if chunks[|chunks| - 1].Some? then |chunks[|chunks| - 1].value| else 0) + Bytes(chunks[..|chunks| - 1])
  }

  /** The counters of a frame count what it holds. */
  ghost predicate Counted(a: Assembly) {
    && 0 < a.total <= MAX_FRAGMENTS
    && a.received == Count(a.chunks) && a.receivedBytes == Bytes(a.chunks) && a.receivedBytes <= MAX_BYTES
  }

  ghost predicate AllCounted(frames: map<U32, Assembly>) { forall id :: id in frames ==> Counted(frames[id]) }

  ghost predicate Tables(s: State) {
    && (forall id :: id in s.frames.items ==> id !in s.retired.items)
    && (s.lastRendered.Some? ==> forall id :: id in s.frames.items ==> Newer(id, s.lastRendered.value))
    && s.floor <= s.latestPublished
  }

  ghost predicate Inv(s: State) {
    && AllCounted(s.frames.items) && Tables(s)
    && s.frames.Size() <= MAX_FRAMES && s.frames.Size() + s.retired.Size() <= MAX_FRAMES + MAX_RETIRED
  }

  // ---- what pruning keeps ----

  /** Frames are only given up, whole, and what is given up is remembered or was remembered. */
  ghost predicate Reduced(s: State, r: State) {
    && (forall id :: id in r.frames.items ==> id in s.frames.items && r.frames.items[id] == s.frames.items[id])
    && r.lastRendered == s.lastRendered && r.latestPublished == s.latestPublished
    && r.latestId == s.latestId && r.floor == s.floor
    && r.frames.Size() <= s.frames.Size()
    && (forall id :: id in r.retired.items ==> id in s.retired.items || id in s.frames.items)
  }

  lemma DiscardKeeps(s: State, id: U32, now: real)
    requires Tables(s)
    ensures var r := Discard(s, id, now);
      && Tables(r) && id in r.retired.items
      && (s.frames.Has(id) ==>
            Reduced(s, r) && r.frames.Size() + r.retired.Size() == s.frames.Size() + s.retired.Size())
  {
  }

  lemma ReducedTwice(s: State, t: State, r: State)
    requires Reduced(s, t) && Reduced(t, r)
    ensures Reduced(s, r)
  {
  }

  lemma {:induction false} DiscardExpiredKeeps(s: State, ids: seq<U32>, now: real)
    requires Tables(s)
    ensures var r := DiscardExpired(s, ids, now);
      Tables(r) && Reduced(s, r) && r.frames.Size() + r.retired.Size() == s.frames.Size() + s.retired.Size()
    decreases |ids|
  {
    hide Tables, Reduced, Discard;
    if ids == [] {
      SameReduced(s);
    } else {
      DiscardKeeps(s, ids[0], now);
      SameReduced(s);
      var drop := s.frames.Has(ids[0]) && now - s.frames.items[ids[0]].createdAt > FRAME_AGE;
      var t := if drop then Discard(s, ids[0], now) else s;
      DiscardExpiredKeeps(t, ids[1..], now);
      ReducedTwice(s, t, DiscardExpired(t, ids[1..], now));
    }
  }

  lemma SameReduced(s: State)
    ensures Reduced(s, s)
  {
  }

  lemma {:induction false} DiscardOldestKeeps(s: State, now: real)
    requires Tables(s)
    ensures var r := DiscardOldest(s, now);
      && Tables(r) && Reduced(s, r) && r.frames.Size() + r.retired.Size() == s.frames.Size() + s.retired.Size()
      && r.frames.Size() <= MAX_FRAMES
    decreases s.frames.Size()
  {
    SameReduced(s);
    if s.frames.Size() > MAX_FRAMES {
      var id := s.frames.order[0];
      assert id in s.frames.order;
      DiscardKeeps(s, id, now);
      var t := Discard(s, id, now);
      assert t.frames.Size() < s.frames.Size();
      hide Tables, Reduced, Discard;
      DiscardOldestKeeps(t, now);
      ReducedTwice(s, t, DiscardOldest(t, now));
    }
  }

  lemma {:induction false} ForgetExpiredKeeps(r: OrderedDict<U32, real>, ids: seq<U32>, now: real)
    ensures forall id :: id in ForgetExpired(r, ids, now).items ==> id in r.items
    ensures ForgetExpired(r, ids, now).Size() <= r.Size()
    decreases |ids|
  {
    if ids != [] {
      var drop := r.Has(ids[0]) && now - r.items[ids[0]] > RETIRED_AGE;
      ForgetExpiredKeeps(if drop then Remove(r, ids[0]) else r, ids[1..], now);
    }
  }

  lemma {:induction false} ForgetOldestKeeps(r: OrderedDict<U32, real>)
    ensures forall id :: id in ForgetOldest(r).items ==> id in r.items
    ensures ForgetOldest(r).Size() <= MAX_RETIRED
    decreases r.Size()
  {
    if r.Size() > MAX_RETIRED {
      assert r.order[0] in r.order;
      ForgetOldestKeeps(Remove(r, r.order[0]));
    }
  }

  lemma PruneKeeps(s: State, now: real)
    requires Tables(s)
    ensures var r := Prune(s, now);
      && Tables(r) && Reduced(s, r) && r.frames.Size() <= MAX_FRAMES && r.retired.Size() <= MAX_RETIRED
  {
    DiscardExpiredKeeps(s, s.frames.order, now);
    var d := DiscardExpired(s, s.frames.order, now);
    DiscardOldestKeeps(d, now);
    var t := DiscardOldest(d, now);
    ReducedTwice(s, d, t);
    ForgetExpiredKeeps(t.retired, t.retired.order, now);
    ForgetOldestKeeps(ForgetExpired(t.retired, t.retired.order, now));
    hide DiscardExpired, DiscardOldest, ForgetExpired, ForgetOldest;
  }

  predicate Old(s: State, id: U32, now: real) {
    s.frames.Has(id) && now - s.frames.items[id].createdAt > 120.0
  }

  /** The frames that are left, and those given up at this moment. */
  ghost predicate GivenUp(s: State, r: State, now: real) {
    && (forall id :: r.retired.Has(id) <==> s.retired.Has(id) || (s.frames.Has(id) && !r.frames.Has(id)))
    && (forall id :: r.retired.Has(id) ==>
         r.retired.items[id] == if s.retired.Has(id) then s.retired.items[id] else now)
    && (forall id :: r.frames.Has(id) ==> s.frames.Has(id) && r.frames.items[id] == s.frames.items[id])
    && r.dropped + r.frames.Size() == s.dropped + s.frames.Size()
  }

  ghost predicate Disjoint(s: State) { forall id :: id in s.frames.items ==> id !in s.retired.items }

  lemma DiscardExactly(s: State, id: U32, now: real)
    requires Disjoint(s) && s.frames.Has(id)
    ensures var r := Discard(s, id, now);
      && Disjoint(r) && GivenUp(s, r, now)
      && (forall k :: r.frames.Has(k) <==> s.frames.Has(k) && k != id)
      && (forall k :: r.frames.Has(k) ==> r.frames.items[k] == s.frames.items[k])
  {
    var r := Discard(s, id, now);
    assert r.retired.items == s.retired.items[id := now] && r.frames.items == s.frames.items - {id};
    assert r.dropped + r.frames.Size() == s.dropped + s.frames.Size();
    hide *;
    GivenUpOne(s, r, id, now);
  }

  lemma GivenUpOne(s: State, r: State, id: U32, now: real)
    requires Disjoint(s) && s.frames.Has(id)
    requires r.retired.items == s.retired.items[id := now] && r.frames.items == s.frames.items - {id}
    requires r.dropped + r.frames.Size() == s.dropped + s.frames.Size()
    ensures Disjoint(r) && GivenUp(s, r, now)
    ensures forall k :: r.frames.Has(k) <==> s.frames.Has(k) && k != id
    ensures forall k :: r.frames.Has(k) ==> r.frames.items[k] == s.frames.items[k]
  {
    hide WellFormed;
  }

  lemma GivenUpTwice(s: State, t: State, r: State, now: real)
    requires Disjoint(s) && GivenUp(s, t, now) && GivenUp(t, r, now)
    ensures GivenUp(s, r, now)
  {
    hide WellFormed;
  }

  lemma NoneGivenUp(s: State, now: real)
    requires Disjoint(s)
    ensures GivenUp(s, s, now)
  {
  }

  lemma {:induction false} DiscardExpiredExactly(s: State, ids: seq<U32>, now: real)
    requires Disjoint(s)
    ensures var r := DiscardExpired(s, ids, now);
      GivenUp(s, r, now) && forall id :: r.frames.Has(id) <==> s.frames.Has(id) && !(id in ids && Old(s, id, now))
    decreases |ids|
  {
    hide Disjoint, GivenUp, Discard, WellFormed;
    NoneGivenUp(s, now);
    if ids != [] {
      assert forall id :: id in ids <==> id == ids[0] || id in ids[1..];
      if Old(s, ids[0], now) {
        var t := Discard(s, ids[0], now);
        DiscardExactly(s, ids[0], now);
        DiscardExpiredExactly(t, ids[1..], now);
        GivenUpTwice(s, t, DiscardExpired(t, ids[1..], now), now);
      } else {
        DiscardExpiredExactly(s, ids[1..], now);
      }
    }
  }

  lemma {:induction false} ForgetExpiredExactly(r: OrderedDict<U32, real>, ids: seq<U32>, now: real)
    ensures var f := ForgetExpired(r, ids, now);
      && (forall id :: f.Has(id) <==> r.Has(id) && !(id in ids && now - r.items[id] > 2000.0))
      && (forall id :: f.Has(id) ==> f.items[id] == r.items[id])
    decreases |ids|
  {
    if ids != [] {
      var drop := r.Has(ids[0]) && now - r.items[ids[0]] > RETIRED_AGE;
      assert forall id :: id in ids <==> id == ids[0] || id in ids[1..];
      ForgetExpiredExactly(if drop then Remove(r, ids[0]) else r, ids[1..], now);
    }
  }

  /** Pruning gives up exactly the frames older than 120 ms, and counts them; while no more than 128 numbers have to
      be remembered, it forgets exactly those given up more than two seconds ago. */
  lemma PruneExactly(s: State, now: real)
    requires Tables(s) && s.frames.Size() <= MAX_FRAMES
    ensures var r := Prune(s, now);
      && (forall id :: r.frames.Has(id) <==> s.frames.Has(id) && now - s.frames.items[id].createdAt <= 120.0)
      && (forall id :: r.frames.Has(id) ==> r.frames.items[id] == s.frames.items[id])
      && r.dropped == s.dropped + s.frames.Size() - r.frames.Size()
      && (s.frames.Size() + s.retired.Size() <= 128 ==>
           forall id :: r.retired.Has(id) <==>
             (s.retired.Has(id) && now - s.retired.items[id] <= 2000.0) || (s.frames.Has(id) && !r.frames.Has(id)))
  {
    var d := DiscardExpired(s, s.frames.order, now);
    DiscardExpiredExactly(s, s.frames.order, now);
    DiscardExpiredKeeps(s, s.frames.order, now);
    assert DiscardOldest(d, now) == d;
    ForgetExpiredExactly(d.retired, d.retired.order, now);
    ForgetExpiredKeeps(d.retired, d.retired.order, now);
    var f := ForgetExpired(d.retired, d.retired.order, now);
    assert f.Size() <= MAX_RETIRED ==> ForgetOldest(f) == f;
    assert forall id :: s.frames.Has(id) ==> id in s.frames.order;
    assert forall id :: d.retired.Has(id) ==> id in d.retired.order;
    hide DiscardExpired, DiscardOldest, ForgetExpired, ForgetOldest, Tables, Reduced, WellFormed;
  }

  lemma ReducedCounted(s: State, r: State)
    requires AllCounted(s.frames.items) && Reduced(s, r)
    ensures AllCounted(r.frames.items)
  {
    hide Counted;
  }

  /** Pruning leaves every table within its bounds, whatever it was before. */
  lemma PruneInv(s: State, now: real)
    requires Tables(s) && AllCounted(s.frames.items)
    ensures Inv(Prune(s, now))
  {
    PruneKeeps(s, now);
    hide Prune, Tables, AllCounted;
    ReducedCounted(s, Prune(s, now));
  }

  // ---- what accepting and finishing keep ----

  lemma {:induction false} ChunkCounts(chunks: Chunks, i: nat, payload: seq<Byte>)
    requires i < |chunks| && chunks[i].None?
    ensures Count(chunks[i := Some(payload)]) == Count(chunks) + 1
    ensures Bytes(chunks[i := Some(payload)]) == Bytes(chunks) + |payload|
  {
    var n := |chunks| - 1;
    if i == n {
      assert chunks[i := Some(payload)][..n] == chunks[..n];
    } else {
      ChunkCounts(chunks[..n], i, payload);
      assert chunks[i := Some(payload)][..n] == chunks[..n][i := Some(payload)];
    }
  }

  lemma {:induction false} NoChunks(chunks: Chunks)
    requires forall i :: 0 <= i < |chunks| ==> chunks[i].None?
    ensures Count(chunks) == 0 && Bytes(chunks) == 0
  {
    if chunks != [] { NoChunks(chunks[..|chunks| - 1]); }
  }

  lemma WithChunkCounts(a: Assembly, p: Packet)
    requires Counted(a) && p.index < a.total
    ensures var b := WithChunk(a, p); b.receivedBytes <= MAX_BYTES ==> Counted(b)
    ensures WithChunk(a, p).receivedBytes <= a.receivedBytes + |p.payload|
  {
    if a.chunks[p.index].None? { ChunkCounts(a.chunks, p.index, p.payload); }
  }

  lemma NewCounts(total: nat, totalBytes: int, now: real)
    requires 0 < total <= MAX_FRAGMENTS
    ensures Counted(NewAssembly(total, totalBytes, now))
  {
    NoChunks(seq(total, _ => None));
  }

  lemma EnsureKeeps(s: State, id: U32, total: int, totalBytes: int, now: real)
    requires Tables(s) && AllCounted(s.frames.items)
    ensures var r := Ensure(s, id, total, totalBytes, now); Tables(r) && AllCounted(r.frames.items)
  {
    if Welcome(s, id, total) { NewCounts(total, totalBytes, now); }
    hide Counted, Newer, NewAssembly;
  }

  lemma AnnounceInv(s: State, id: U32, total: int, totalBytes: int, now: real)
    requires Inv(s)
    ensures Inv(Announce(s, id, total, totalBytes, now))
  {
    EnsureKeeps(s, id, total, totalBytes, now);
    hide Tables, AllCounted, Ensure, Prune;
    PruneInv(Ensure(s, id, total, totalBytes, now), now);
  }

  lemma AddInv(s: State, p: Packet, now: real)
    requires Tables(s) && AllCounted(s.frames.items) && s.frames.Size() <= MAX_FRAMES && s.retired.Size() <= MAX_RETIRED
    ensures Inv(Add(s, p, now))
  {
    if Welcome(s, p.id, p.total) {
      EnsureKeeps(s, p.id, p.total, 0, now);
      var t := Ensure(s, p.id, p.total, 0, now);
      var a := t.frames.items[p.id];
      assert Counted(a) && (!s.frames.Has(p.id) ==> a == NewAssembly(p.total, 0, now));
      DiscardKeeps(t, p.id, now);
      ReducedCounted(t, Discard(t, p.id, now));
      if a.total == p.total && (a.published.None? || a.published == p.published) {
        AddedInv(t, p, now, s.frames.Has(p.id));
      }
      hide Counted, Newer, Discard, WithChunk, Prune;
    }
  }

  /** A fragment that fits its frame. */
  lemma AddedInv(t: State, p: Packet, now: real, held: bool)
    requires Tables(t) && AllCounted(t.frames.items) && t.frames.Has(p.id) && p.index < t.frames.items[p.id].total
    requires t.frames.Size() <= (if held then MAX_FRAMES else MAX_FRAMES + 1) && t.retired.Size() <= MAX_RETIRED
    requires !held ==> t.frames.items[p.id].receivedBytes == 0
    ensures var b := WithChunk(t.frames.items[p.id], p);
      var u := t.(frames := Put(t.frames, p.id, b));
      Inv(if b.receivedBytes > MAX_BYTES then Discard(u, p.id, now) else Prune(u, now))
  {
    var b := WithChunk(t.frames.items[p.id], p);
    var u := t.(frames := Put(t.frames, p.id, b));
    assert u.frames.items == t.frames.items[p.id := b] && u.frames.Size() == t.frames.Size();
    assert t.frames.items[p.id].receivedBytes == 0 ==> b.receivedBytes <= MAX_BYTES by {
      WithChunkCounts(t.frames.items[p.id], p);
    }
    hide Put;
    StoredTables(t, u, p, b);
    hide Counted, WithChunk, Newer, Tables, AllCounted, Prune;
    if b.receivedBytes > MAX_BYTES {
      OverflowInv(t, u, p.id, now);
    } else {
      PruneInv(u, now);
    }
  }

  lemma StoredTables(t: State, u: State, p: Packet, b: Assembly)
    requires Tables(t) && AllCounted(t.frames.items) && t.frames.Has(p.id) && p.index < t.frames.items[p.id].total
    requires b == WithChunk(t.frames.items[p.id], p)
    requires u == t.(frames := u.frames) && u.frames.items == t.frames.items[p.id := b]
    ensures Tables(u) && (b.receivedBytes <= MAX_BYTES ==> AllCounted(u.frames.items))
  {
    WithChunkCounts(t.frames.items[p.id], p);
    hide WithChunk, Counted, Newer;
  }

  /** A frame that has grown too large goes as a whole. */
  lemma OverflowInv(t: State, u: State, id: U32, now: real)
    requires Tables(u) && AllCounted(t.frames.items) && t.frames.Has(id)
    requires u.frames.items.Keys == t.frames.items.Keys
    requires forall k :: k in t.frames.items && k != id ==> u.frames.items[k] == t.frames.items[k]
    requires u.frames.Size() <= MAX_FRAMES && u.retired.Size() <= MAX_RETIRED
    ensures Inv(Discard(u, id, now))
  {
    DiscardKeeps(u, id, now);
    var r := Discard(u, id, now);
    hide Counted, Newer, Tables, Reduced;
    assert forall k :: k in r.frames.items ==> k in t.frames.items && r.frames.items[k] == t.frames.items[k];
  }

  lemma ObserveKeeps(s: State, p: Packet)
    requires AllCounted(s.frames.items) && (forall id :: id in s.frames.items ==> id !in s.retired.items)
    requires s.lastRendered.Some? ==> forall id :: id in s.frames.items ==> Newer(id, s.lastRendered.value)
    requires s.floor <= s.latestPublished || (p.published.Some? && s.floor <= p.published.value)
    ensures var r := Observe(s, p);
      Tables(r) && r.frames == s.frames && r.retired == s.retired && r.lastRendered == s.lastRendered
  {
  }

  lemma AcceptInv(s: State, p: Packet, now: real)
    requires Inv(s)
    ensures Inv(Accept(s, p, now))
  {
    var t := if Restarted(s, p) then Fresh().(floor := p.published.value) else s;
    if !(p.published.Some? && p.published.value < t.floor) {
      ObserveKeeps(t, p);
      var o := Observe(t, p);
      hide Counted, Newer, Observe;
      assert AllCounted(o.frames.items);
      PruneInv(o, now);
      PruneKeeps(o, now);
      hide Tables, AllCounted, Prune, Add;
      AddInv(Prune(o, now), p, now);
    }
  }

  /** The fragment contradicts its frame in the number of fragments or the time of publication, or makes it larger
      than 8 MiB. */
  predicate Spoils(a: Assembly, p: Packet) {
    || a.total != p.total || (a.published.Some? && a.published != p.published)
    || (a.chunks[p.index].None? && a.receivedBytes + |p.payload| > 8 * 1024 * 1024)
  }

  /** Such a fragment costs the whole frame, which is not taken up again; the other frame stays unless it has become
      too old. */
  lemma ContradictionCosts(s: State, p: Packet, now: real)
    requires Inv(s) && s.frames.Has(p.id) && now - s.frames.items[p.id].createdAt <= 120.0
    requires p.published.Some? ==> s.floor <= p.published.value <= s.latestPublished
    requires Spoils(s.frames.items[p.id], p)
    ensures var r := Accept(s, p, now);
      && !r.frames.Has(p.id) && r.retired.Has(p.id)
      && (forall id :: r.frames.Has(id) <==>
           id != p.id && s.frames.Has(id) && now - s.frames.items[id].createdAt <= 120.0)
      && r.dropped == s.dropped + s.frames.Size() - r.frames.Size()
  {
    assert Observe(s, p) == s && Accept(s, p, now) == Add(Prune(s, now), p, now);
    PruneExactly(s, now);
    PruneKeeps(s, now);
    var t := Prune(s, now);
    assert t.frames.Has(p.id) && Tables(t);
    hide *;
    AddDiscards(t, p, now);
  }

  lemma AddDiscards(t: State, p: Packet, now: real)
    requires Tables(t) && t.frames.Has(p.id)
    requires Spoils(t.frames.items[p.id], p)
    ensures var r := Add(t, p, now);
      && r.retired.Has(p.id) && r.frames.Size() == t.frames.Size() - 1 && r.dropped == t.dropped + 1
      && (forall id :: r.frames.Has(id) <==> id != p.id && t.frames.Has(id))
  {
    hide Newer;
    assert Welcome(t, p.id, p.total);
    var a := t.frames.items[p.id];
    DiscardsHeld(t, p.id, now);
    if a.total == p.total && (a.published.None? || a.published == p.published) {
      var u := t.(frames := Put(t.frames, p.id, WithChunk(a, p)));
      assert Add(t, p, now) == Discard(u, p.id, now);
      assert u.frames.items == t.frames.items[p.id := WithChunk(a, p)] && u.frames.Size() == t.frames.Size();
      DiscardsHeld(u, p.id, now);
      hide Add, Welcome, Tables, Discard, WithChunk, Put, WellFormed;
    } else {
      assert Add(t, p, now) == Discard(t, p.id, now);
      hide *;
    }
  }

  lemma DiscardsHeld(t: State, id: U32, now: real)
    requires t.frames.Has(id)
    ensures var r := Discard(t, id, now);
      && r.retired.Has(id) && r.frames.Size() == t.frames.Size() - 1 && r.dropped == t.dropped + 1
      && (forall k :: r.frames.Has(k) <==> k != id && t.frames.Has(k))
  {
  }

  lemma {:induction false} DiscardOlderKeeps(s: State, ids: seq<U32>, id: U32, now: real)
    requires forall k :: k in s.frames.items ==> k !in s.retired.items
    ensures var r := DiscardOlder(s, ids, id, now);
      && Reduced(s, r) && r.frames.Size() + r.retired.Size() == s.frames.Size() + s.retired.Size()
      && (forall k :: k in r.frames.items ==> k !in r.retired.items && (k in ids ==> Newer(k, id)))
    decreases |ids|
  {
    if ids != [] {
      var drop := s.frames.Has(ids[0]) && !Newer(ids[0], id);
      var t := if drop then Discard(s, ids[0], now) else s;
      assert Reduced(s, t) && t.frames.Size() + t.retired.Size() == s.frames.Size() + s.retired.Size();
      assert forall k :: k in t.frames.items ==> k !in t.retired.items;
      hide Newer, Discard, WellFormed, NoDuplicates;
      DiscardOlderKeeps(t, ids[1..], id, now);
      ReducedTwice(s, t, DiscardOlder(t, ids[1..], id, now));
    }
  }

  /** A complete frame is always newer than the one on the screen, so finishing it shows it. */
  lemma FinishInv(s: State, id: U32, now: real)
    requires Inv(s)
    ensures var (r, shown) := Finish(s, id, now);
      && Inv(r) && (shown <==> Complete(s, id))
      && (if shown then
            r.lastRendered == Some(id) && (s.lastRendered.Some? ==> Newer(id, s.lastRendered.value))
          else r == s)
  {
    hide Newer, DiscardOlder, Counted, Reduced, AllCounted;
    if Complete(s, id) {
      var t := s.(lastRendered := Some(id), frames := Remove(s.frames, id));
      var r := DiscardOlder(t, t.frames.order, id, now);
      DiscardOlderKeeps(t, t.frames.order, id, now);
      KeysInOrder(t.frames);
      FinishedCounted(s, t, r, id);
    }
  }

  lemma KeysInOrder(d: OrderedDict<U32, Assembly>)
    ensures forall k :: k in d.items ==> k in d.order
  {
  }

  lemma FinishedCounted(s: State, t: State, r: State, id: U32)
    requires AllCounted(s.frames.items) && t.frames.items == s.frames.items - {id} && Reduced(t, r)
    ensures AllCounted(r.frames.items) && r.floor == t.floor && r.latestPublished == t.latestPublished
    ensures r.lastRendered == t.lastRendered && forall k :: k in r.frames.items ==> k in t.frames.items
    ensures r.frames.Size() <= t.frames.Size()
  {
    hide Counted;
  }
}
