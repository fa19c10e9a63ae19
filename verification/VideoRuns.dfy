/** Whole histories of the frame assembler. */
module VideoRuns {
  import opened Wrappers
  import opened Ordered
  import opened Octets
  import opened VideoFrames
  import opened VideoDelivery
  import opened MachineWords

  datatype Event =
    | Accepts(packet: Packet, now: real)
    | Announces(id: U32, total: int, totalBytes: int, now: real)
    | Finishes(id: U32, now: real)
    | Prunes(now: real)
    | Resets

  /** The tables, and the frames put on the screen since the last reset. */
  datatype Viewer = Viewer(state: State, shown: seq<U32>)

  function Step(v: Viewer, e: Event): Viewer {
    match e
    case Accepts(p, now) => Viewer(Accept(v.state, p, now), if Restarted(v.state, p) then [] else v.shown)
    case Announces(id, total, totalBytes, now) => v.(state := Announce(v.state, id, total, totalBytes, now))
    case Finishes(id, now) =>
      var (r, shown) := Finish(v.state, id, now);
      Viewer(r, if shown then v.shown + [id] else v.shown)
    case Prunes(now) => v.(state := Prune(v.state, now))
    case Resets => Viewer(Fresh(), [])
  }

  function After(events: seq<Event>): Viewer {
    if events == [] then Viewer(Fresh(), []) else Step(After(events[..|events| - 1]), events[|events| - 1])
  }

  /** The last frame shown is the one the tables remember, and each was newer than the one before. */
  ghost predicate Shows(v: Viewer) {
    && (v.state.lastRendered == if v.shown == [] then None else Some(v.shown[|v.shown| - 1]))
    && forall i :: 0 < i < |v.shown| ==> Newer(v.shown[i], v.shown[i - 1])
  }

  lemma AcceptRemembers(s: State, p: Packet, now: real)
    requires Inv(s)
    ensures Accept(s, p, now).lastRendered == if Restarted(s, p) then None else s.lastRendered
  {
    var t := if Restarted(s, p) then Fresh().(floor := p.published.value) else s;
    if !(p.published.Some? && p.published.value < t.floor) {
      ObserveKeeps(t, p);
      var o := Observe(t, p);
      PruneKeeps(o, now);
      PruneInv(o, now);
      hide Prune, Counted, Newer;
      AddRemembers(Prune(o, now), p, now);
    }
  }

  lemma AddRemembers(s: State, p: Packet, now: real)
    requires Tables(s) && AllCounted(s.frames.items)
    ensures var r := Add(s, p, now);
      && r.lastRendered == s.lastRendered && r.floor == s.floor
      && r.latestId == s.latestId && r.latestPublished == s.latestPublished
  {
    if Welcome(s, p.id, p.total) {
      EnsureKeeps(s, p.id, p.total, 0, now);
      var t := Ensure(s, p.id, p.total, 0, now);
      assert t == s.(frames := t.frames) && t.frames.Has(p.id);
      var a := t.frames.items[p.id];
      if a.total == p.total && (a.published.None? || a.published == p.published) {
        var u := t.(frames := Put(t.frames, p.id, WithChunk(a, p)));
        TablesIgnoreValues(t, u);
        PruneKeeps(u, now);
      }
      hide Prune, WithChunk, Ensure, Newer, Counted;
    }
  }

  /** The screen stays as it is, or starts over. */
  lemma StillShows(v: Viewer, r: State, restarted: bool)
    requires Shows(v) && r.lastRendered == if restarted then None else v.state.lastRendered
    ensures Shows(Viewer(r, if restarted then [] else v.shown))
  {
  }

  lemma ShowsOneMore(v: Viewer, r: State, id: U32)
    requires Shows(v) && r.lastRendered == Some(id)
    requires v.state.lastRendered.Some? ==> Newer(id, v.state.lastRendered.value)
    ensures Shows(Viewer(r, v.shown + [id]))
  {
    hide Newer;
  }

  lemma FinishStepKeeps(v: Viewer, id: U32, now: real)
    requires Inv(v.state) && Shows(v)
    ensures var r := Step(v, Finishes(id, now)); Inv(r.state) && Shows(r)
  {
    FinishInv(v.state, id, now);
    var r, shown := Finish(v.state, id, now).0, Finish(v.state, id, now).1;
    hide Finish, Inv, Newer, Complete, Shows;
    if shown { ShowsOneMore(v, r, id); }
  }

  lemma StepKeeps(v: Viewer, e: Event)
    requires Inv(v.state) && Shows(v)
    ensures Inv(Step(v, e).state) && Shows(Step(v, e))
  {
    match e
    case Accepts(p, now) =>
      hide *;
      AcceptStepKeeps(v, p, now);
    case Announces(id, total, totalBytes, now) => AnnounceStepKeeps(v, id, total, totalBytes, now);
    case Finishes(id, now) =>
      hide *;
      FinishStepKeeps(v, id, now);
    case Prunes(now) =>
      PruneInv(v.state, now);
      PruneKeeps(v.state, now);
      hide Prune, Inv, Newer, Shows;
      StillShows(v, Prune(v.state, now), false);
    case Resets =>
  }

  lemma AnnounceStepKeeps(v: Viewer, id: U32, total: int, totalBytes: int, now: real)
    requires Inv(v.state) && Shows(v)
    ensures var r := Step(v, Announces(id, total, totalBytes, now)); Inv(r.state) && Shows(r)
  {
    AnnounceInv(v.state, id, total, totalBytes, now);
    EnsureKeeps(v.state, id, total, totalBytes, now);
    PruneKeeps(Ensure(v.state, id, total, totalBytes, now), now);
    hide Prune, Inv, Newer, Tables, AllCounted, Shows;
    StillShows(v, Announce(v.state, id, total, totalBytes, now), false);
  }

  lemma AcceptStepKeeps(v: Viewer, p: Packet, now: real)
    requires Inv(v.state) && Shows(v)
    ensures Inv(Step(v, Accepts(p, now)).state) && Shows(Step(v, Accepts(p, now)))
  {
    hide Accept, Inv, Shows, Restarted;
    AcceptInv(v.state, p, now);
    AcceptRemembers(v.state, p, now);
    StillShows(v, Accept(v.state, p, now), Restarted(v.state, p));
  }

  /** Over every history, whatever fragments arrive: the tables keep their bounds and agree with each other, a
      complete frame is always newer than the one on the screen, and what is shown only moves forward. */
  lemma {:induction false} HistoryInv(events: seq<Event>)
    ensures Inv(After(events).state) && Shows(After(events))
  {
    if events != [] {
      hide Inv, Shows, Step;
      HistoryInv(events[..|events| - 1]);
      StepKeeps(After(events[..|events| - 1]), events[|events| - 1]);
    } else {
      hide Newer;
    }
  }

  // ---- order ----

  /** For numbers less than 2^31 apart, serial comparison of their low 32 bits is the comparison of the numbers. */
  lemma NewerExactly(m: nat, n: nat)
    requires -0x8000_0000 < n - m < 0x8000_0000
    ensures Newer(Low32(n), Low32(m)) <==> n > m
  {
    Subtracted32(m, n);
    DifferenceIsZero(m, n);
    if n > m { Of32(n - m, 0, n - m); } else if n < m { Of32(n - m, -1, n - m + 0x1_0000_0000); }
  }

  lemma DifferenceIsZero(m: nat, n: nat)
    requires -0x8000_0000 < n - m < 0x8000_0000
    ensures Low32(n) == Low32(m) <==> n == m
  {
    Subtracted32(m, n);
    if n > m { Of32(n - m, 0, n - m); } else if n < m { Of32(n - m, -1, n - m + 0x1_0000_0000); }
  }

  /** Any true numbers of the shown frames that lie within a window of 2^31 increase strictly. */
  lemma {:induction false} ShownInOrder(events: seq<Event>, numbers: seq<nat>, i: nat, j: nat)
    requires |numbers| == |After(events).shown|
    requires forall k :: 0 <= k < |numbers| ==> Low32(numbers[k]) == After(events).shown[k]
    requires forall k, l :: 0 <= k < |numbers| && 0 <= l < |numbers| ==> numbers[l] < numbers[k] + 0x8000_0000
    requires i < j < |numbers|
    ensures numbers[i] < numbers[j]
    decreases j
  {
    HistoryInv(events);
    var shown := After(events).shown;
    hide After, Inv, Newer, Low32;
    NewerExactly(numbers[j - 1], numbers[j]);
    assert Newer(shown[j], shown[j - 1]);
    if i < j - 1 { ShownInOrder(events, numbers, i, j - 1); }
  }

  // ---- contents ----

  ghost predicate AllGenuine(events: seq<Event>, published: Catalog, size: nat)
    requires size > 0
  {
    forall e :: e in events && e.Accepts? ==> Genuine(e.packet, published, size)
  }

  lemma StepHolds(v: Viewer, e: Event, published: Catalog, size: nat)
    requires size > 0 && Inv(v.state) && Distinct(published) && Holds(v.state, published, size)
    requires e.Accepts? ==> Genuine(e.packet, published, size)
    ensures Holds(Step(v, e).state, published, size)
  {
    match e
    case Accepts(p, now) => AcceptHolds(v.state, p, now, published, size);
    case Announces(id, total, totalBytes, now) =>
      EnsureHolds(v.state, id, total, totalBytes, now, published, size);
      EnsureKeeps(v.state, id, total, totalBytes, now);
      var t := Ensure(v.state, id, total, totalBytes, now);
      PruneKeeps(t, now);
      ReducedHolds(t, Prune(t, now), published, size);
      hide Faithful, Prune, Ensure;
    case Finishes(id, now) => FinishHolds(v.state, id, now, published, size);
    case Prunes(now) =>
      PruneKeeps(v.state, now);
      ReducedHolds(v.state, Prune(v.state, now), published, size);
      hide Faithful, Prune;
    case Resets =>
  }

  lemma FinishHolds(s: State, id: U32, now: real, published: Catalog, size: nat)
    requires size > 0 && Inv(s) && Holds(s, published, size)
    ensures Holds(Finish(s, id, now).0, published, size)
  {
    FinishInv(s, id, now);
    if Complete(s, id) {
      var t := s.(lastRendered := Some(id), frames := Remove(s.frames, id));
      DiscardOlderKeeps(t, t.frames.order, id, now);
      assert Holds(t, published, size) by { hide Faithful; }
      ReducedHolds(t, DiscardOlder(t, t.frames.order, id, now), published, size);
    }
    hide Holds, DiscardOlder, Inv;
  }

  lemma {:induction false} HistoryHolds(events: seq<Event>, published: Catalog, size: nat)
    requires size > 0 && Distinct(published) && AllGenuine(events, published, size)
    ensures Holds(After(events).state, published, size)
  {
    if events != [] {
      var before, last := events[..|events| - 1], events[|events| - 1];
      assert AllGenuine(before, published, size);
      assert last.Accepts? ==> Genuine(last.packet, published, size);
      hide Holds, Inv, Step, Genuine;
      HistoryHolds(before, published, size);
      HistoryInv(before);
      StepHolds(After(before), last, published, size);
    }
  }

  /** End to end: after any loss, repetition and reordering of fragments, across restarts of the capture,
      whenever a frame is complete and so may be shown, its chunks in order are one published frame, whole. */
  lemma ShownIsPublished(events: seq<Event>, published: Catalog, size: nat, id: U32, now: real) returns (f: Published)
    requires size > 0 && Distinct(published) && AllGenuine(events, published, size)
    requires Finish(After(events).state, id, now).1
    ensures f in published && f.Id() == id && After(events).state.frames.Has(id)
    ensures Joined(After(events).state.frames.items[id].chunks) == f.data
    ensures After(events).state.frames.items[id].published == Some(f.published)
  {
    HistoryInv(events);
    HistoryHolds(events, published, size);
    var s := After(events).state;
    var a := s.frames.items[id];
    assert Faithful(id, a, published, size) && Counted(a) && a.received == a.total;
    hide After, Holds, Inv, AllGenuine, Genuine;
    AllPresent(a.chunks);
    assert a.chunks[0].Some?;
    f :| f in published && f.Id() == id && PartOf(a, f, size);
    hide Slice, Cut;
    SlicesJoin(f.data, size, a.chunks);
    WholeCut(f.data, size);
  }

  lemma WholeCut(data: seq<Byte>, size: nat)
    requires size > 0
    ensures Cut(|data|, size, Total(|data|, size)) == |data| && data[..|data|] == data
  {
    Rounding(|data|, size);
  }

  // ---- restarts of the capture process ----

  /** Frames of one capture process: its clock does not go back, and they are less than 2^31 numbers apart. */
  ghost predicate OneCapture(published: Catalog) {
    && (forall f, g :: f in published && g in published && f.number < g.number ==> f.published <= g.published)
    && (forall f, g :: f in published && g in published ==> g.number - f.number < 0x8000_0000)
  }

  /** What has been seen last was published. */
  ghost predicate SeenPublished(s: State, published: Catalog) {
    s.latestId.Some? ==> exists f :: f in published && f.Id() == s.latestId.value && f.published == s.latestPublished
  }

  lemma NotRestarted(s: State, p: Packet, published: Catalog, size: nat)
    requires size > 0 && OneCapture(published) && SeenPublished(s, published) && Genuine(p, published, size)
    ensures !Restarted(s, p)
  {
    if Restarted(s, p) {
      var f :| f in published && f.Id() == s.latestId.value && f.published == s.latestPublished;
      var g, i: nat :|
        g in published && Deliverable(g, size) && i < Total(|g.data|, size) && p == FragmentOf(g, size, i);
      hide Total, Slice, Low32, Newer;
      assert g.number > f.number;
      NewerExactly(f.number, g.number);
    }
  }

  lemma AcceptSees(s: State, p: Packet, now: real, published: Catalog, size: nat)
    requires size > 0 && Inv(s) && OneCapture(published) && SeenPublished(s, published) && Genuine(p, published, size)
    ensures SeenPublished(Accept(s, p, now), published)
  {
    NotRestarted(s, p, published, size);
    if !(p.published.Some? && p.published.value < s.floor) {
      ObserveKeeps(s, p);
      var o := Observe(s, p);
      PruneKeeps(o, now);
      PruneInv(o, now);
      assert SeenPublished(o, published) by {
        var g, i: nat :|
          g in published && Deliverable(g, size) && i < Total(|g.data|, size) && p == FragmentOf(g, size, i);
        assert p.id == g.Id() && p.published == Some(g.published);
      }
      hide Prune, Counted, Newer, Add, Genuine, OneCapture, Restarted;
      AddRemembers(Prune(o, now), p, now);
    }
  }

  lemma StepSees(v: Viewer, e: Event, published: Catalog, size: nat)
    requires size > 0 && Inv(v.state) && OneCapture(published) && SeenPublished(v.state, published)
    requires e.Accepts? ==> Genuine(e.packet, published, size)
    ensures SeenPublished(Step(v, e).state, published)
  {
    match e
    case Accepts(p, now) =>
      hide Accept, Inv, OneCapture;
      AcceptSees(v.state, p, now, published, size);
    case Announces(id, total, totalBytes, now) =>
      EnsureKeeps(v.state, id, total, totalBytes, now);
      PruneKeeps(Ensure(v.state, id, total, totalBytes, now), now);
      hide Prune, OneCapture;
    case Finishes(id, now) =>
      FinishLatest(v.state, id, now);
      hide Finish, Inv, OneCapture;
    case Prunes(now) =>
      PruneKeeps(v.state, now);
      hide Prune, OneCapture;
    case Resets =>
  }

  lemma FinishLatest(s: State, id: U32, now: real)
    requires Inv(s)
    ensures var r := Finish(s, id, now).0;
      r.latestId == s.latestId && r.latestPublished == s.latestPublished && r.floor == s.floor
  {
    FinishInv(s, id, now);
    if Complete(s, id) {
      var t := s.(lastRendered := Some(id), frames := Remove(s.frames, id));
      DiscardOlderKeeps(t, t.frames.order, id, now);
      hide DiscardOlder, Newer, Counted;
    }
  }

  lemma {:induction false} HistorySees(events: seq<Event>, published: Catalog, size: nat)
    requires size > 0 && OneCapture(published) && AllGenuine(events, published, size)
    ensures SeenPublished(After(events).state, published)
  {
    if events != [] {
      var before, last := events[..|events| - 1], events[|events| - 1];
      assert AllGenuine(before, published, size);
      assert last.Accepts? ==> Genuine(last.packet, published, size);
      hide SeenPublished, Inv, Step, Genuine, OneCapture;
      HistorySees(before, published, size);
      HistoryInv(before);
      StepSees(After(before), last, published, size);
    }
  }

  /** While one capture process runs, no fragment of it ever resets the assembler, in whatever order they come. */
  lemma NoSpuriousReset(events: seq<Event>, p: Packet, published: Catalog, size: nat)
    requires size > 0 && OneCapture(published) && AllGenuine(events, published, size) && Genuine(p, published, size)
    ensures !Restarted(After(events).state, p)
  {
    HistorySees(events, published, size);
    NotRestarted(After(events).state, p, published, size);
  }

  /** After a reset that a restart has caused, fragments published before the restart change nothing. */
  lemma EarlierCaptureIgnored(events: seq<Event>, p: Packet, now: real)
    requires p.published.Some? && p.published.value < After(events).state.floor
    ensures Accept(After(events).state, p, now) == After(events).state
  {
    HistoryInv(events);
    hide After;
  }

  // ---- completeness: a frame all of whose fragments arrive in time is shown ----

  /** No frame but the other one was added after this one. */
  predicate Seat(order: seq<U32>, id: U32, other: U32) {
    && order != []
    && (|| order[|order| - 1] == id
        || (|order| >= 2 && order[|order| - 1] == other && order[|order| - 2] == id))
  }

  /** The frame is held, with exactly the fragments received so far. */
  ghost predicate Receiving(s: State, f: Published, other: U32, size: nat, got: set<nat>, began: real)
    requires size > 0
  {
    && s.frames.Has(f.Id()) && Seat(s.frames.order, f.Id(), other)
    && var a := s.frames.items[f.Id()];
      && a.total == Total(|f.data|, size) && a.published == Some(f.published) && a.createdAt == began
      && (forall i :: 0 <= i < a.total ==> a.chunks[i] == if i in got then Some(Slice(f.data, size, i)) else None)
  }

  /** Nothing of the frame stands in the way of its first fragment. */
  ghost predicate Awaited(s: State, f: Published, size: nat)
    requires size > 0
  {
    && Deliverable(f, size) && |f.data| <= MAX_BYTES
    && !s.frames.Has(f.Id()) && Welcome(s, f.Id(), Total(|f.data|, size)) && s.floor <= f.published
  }

  /** A fragment of the frame does not look like one of a restarted capture process. */
  predicate Follows(s: State, f: Published) {
    f.published > s.latestPublished && s.latestId.Some? ==>
      f.Id() == s.latestId.value || Newer(f.Id(), s.latestId.value)
  }

  /** Two frames of one capture process, the later published under the newer number. */
  predicate SameCapture(f: Published, g: Published) {
    && f.Id() != g.Id()
    && (f.published < g.published ==> Newer(g.Id(), f.Id())) && (g.published < f.published ==> Newer(f.Id(), g.Id()))
  }

  ghost predicate Undisturbed(s: State, f: Published, g: Published) {
    s.floor <= f.published && Follows(s, f) && Follows(s, g) && SameCapture(f, g)
  }

  ghost predicate IsFragment(p: Packet, f: Published, size: nat)
    requires size > 0
  {
    Deliverable(f, size) && exists i: nat :: i < Total(|f.data|, size) && p == FragmentOf(f, size, i)
  }

  function Moment(e: Event): real
    requires !e.Resets?
  {
    e.now
  }

  /** What may happen while the frame is being received: fragments of it and of one other frame in any order,
      announcements of both, pruning, and showing the other frame if it is the older one. */
  ghost predicate Tolerated(e: Event, f: Published, g: Published, size: nat)
    requires size > 0
  {
    match e
    case Accepts(p, _) => IsFragment(p, f, size) || IsFragment(p, g, size)
    case Announces(id, _, _, _) => id in {f.Id(), g.Id()}
    case Finishes(id, _) => id == g.Id() && Newer(f.Id(), g.Id())
    case Prunes(_) => true
    case Resets => false
  }

  function StateAfter(s: State, e: Event): State { Step(Viewer(s, []), e).state }

  /** The fragment of the frame that the event brings, if any. */
  function Brought(e: Event, f: Published): set<nat> {
    if e.Accepts? && e.packet.id == f.Id() then {e.packet.index} else {}
  }

  /** Two different frames of the one capture process whose frames have been seen so far. */
  lemma OneCaptureUndisturbed(s: State, published: Catalog, f: Published, g: Published)
    requires OneCapture(published) && SeenPublished(s, published) && f in published && g in published
    requires f.number != g.number && s.floor <= f.published
    ensures Undisturbed(s, f, g)
  {
    NewerExactly(f.number, g.number);
    NewerExactly(g.number, f.number);
    DifferenceIsZero(f.number, g.number);
    if s.latestId.Some? {
      var h :| h in published && h.Id() == s.latestId.value && h.published == s.latestPublished;
      hide Low32, Newer;
      if f.published > h.published { NewerExactly(h.number, f.number); }
      if g.published > h.published { NewerExactly(h.number, g.number); }
    }
  }

  // ---- what pruning spares ----

  /** The frame is held in its seat and is not too old. */
  ghost predicate Seated(s: State, id: U32, other: U32, a: Assembly, now: real) {
    && s.frames.Has(id) && s.frames.items[id] == a && now - a.createdAt <= FRAME_AGE
    && Seat(s.frames.order, id, other)
  }

  lemma {:induction false} SeatStays(order: seq<U32>, id: U32, other: U32, k: U32)
    requires Seat(order, id, other) && k != id && id != other
    ensures Seat(Without(order, k), id, other)
  {
    if order[0] != k && |order| > 1 {
      if Seat(order[1..], id, other) {
        SeatStays(order[1..], id, other, k);
      } else {
        assert order == [id, other] && Without([other], k) == if k == other then [] else [other];
        assert order[1..] == [other];
      }
    }
  }

  lemma DiscardSpares(s: State, k: U32, now: real, id: U32, other: U32, a: Assembly)
    requires Seated(s, id, other, a, now) && k != id && id != other
    ensures Seated(Discard(s, k, now), id, other, a, now)
  {
    hide Without, NoDuplicates, WellFormed, Seat;
    SeatStays(s.frames.order, id, other, k);
  }

  lemma {:induction false} DiscardExpiredSpares(s: State, ids: seq<U32>, now: real, id: U32, other: U32, a: Assembly)
    requires Seated(s, id, other, a, now) && id != other
    ensures Seated(DiscardExpired(s, ids, now), id, other, a, now)
    decreases |ids|
  {
    if ids != [] {
      var drop := s.frames.Has(ids[0]) && now - s.frames.items[ids[0]].createdAt > FRAME_AGE;
      assert drop ==> ids[0] != id;
      hide Seated, Discard;
      if drop { DiscardSpares(s, ids[0], now, id, other, a); }
      DiscardExpiredSpares(if drop then Discard(s, ids[0], now) else s, ids[1..], now, id, other, a);
    }
  }

  lemma {:induction false} DiscardOldestSpares(s: State, now: real, id: U32, other: U32, a: Assembly)
    requires Seated(s, id, other, a, now) && id != other
    ensures Seated(DiscardOldest(s, now), id, other, a, now)
    decreases s.frames.Size()
  {
    if s.frames.Size() > MAX_FRAMES {
      var first := s.frames.order[0];
      assert first in s.frames.order && first != id;
      DiscardSpares(s, first, now, id, other, a);
      assert Discard(s, first, now).frames.Size() < s.frames.Size();
      hide Seated, Discard;
      DiscardOldestSpares(Discard(s, first, now), now, id, other, a);
    }
  }

  /** Pruning spares a frame in its seat that is not too old. */
  lemma PruneSpares(s: State, now: real, id: U32, other: U32, a: Assembly)
    requires Seated(s, id, other, a, now) && id != other
    ensures Seated(Prune(s, now), id, other, a, now)
  {
    hide DiscardExpired, DiscardOldest, ForgetExpired, ForgetOldest, Seat;
    DiscardExpiredSpares(s, s.frames.order, now, id, other, a);
    DiscardOldestSpares(DiscardExpired(s, s.frames.order, now), now, id, other, a);
  }

  lemma {:induction false} DiscardOlderSpares(s: State, ids: seq<U32>, k: U32, now: real, id: U32, other: U32,
                                              a: Assembly)
    requires Seated(s, id, other, a, now) && id != other && Newer(id, k)
    ensures Seated(DiscardOlder(s, ids, k, now), id, other, a, now)
    decreases |ids|
  {
    if ids != [] {
      var drop := s.frames.Has(ids[0]) && !Newer(ids[0], k);
      assert drop ==> ids[0] != id;
      hide Seated, Discard, Newer;
      if drop { DiscardSpares(s, ids[0], now, id, other, a); }
      DiscardOlderSpares(if drop then Discard(s, ids[0], now) else s, ids[1..], k, now, id, other, a);
    }
  }

  // ---- fragments of the frame itself ----

  lemma {:induction false} BytesBounded(data: seq<Byte>, size: nat, chunks: Chunks)
    requires size > 0 && |chunks| <= Total(|data|, size)
    requires forall i :: 0 <= i < |chunks| ==> chunks[i].None? || chunks[i] == Some(Slice(data, size, i))
    ensures Bytes(chunks) <= Cut(|data|, size, |chunks|)
  {
    if chunks != [] {
      BytesBounded(data, size, chunks[..|chunks| - 1]);
      CutMonotone(|data|, size, |chunks| - 1);
    }
  }

  /** Adding a fragment to a table that has room for it. */
  lemma AddReceives(s: State, f: Published, other: U32, size: nat, got: set<nat>, i: nat, began: real, now: real)
    requires Tables(s) && AllCounted(s.frames.items) && s.frames.Size() <= MAX_FRAMES && size > 0 && other != f.Id()
    requires Deliverable(f, size) && |f.data| <= MAX_BYTES && i < Total(|f.data|, size)
    requires Welcome(s, f.Id(), Total(|f.data|, size)) && now - began <= FRAME_AGE
    requires if got == {} then !s.frames.Has(f.Id()) && began == now else Receiving(s, f, other, size, got, began)
    ensures Receiving(Add(s, FragmentOf(f, size, i), now), f, other, size, got + {i}, began)
  {
    var p, id := FragmentOf(f, size, i), f.Id();
    EnsureKeeps(s, id, p.total, 0, now);
    var t := Ensure(s, id, p.total, 0, now);
    assert s.frames.Has(id) ==> t == s;
    assert !s.frames.Has(id) ==>
      t.frames.order == s.frames.order + [id] && t.frames.items[id] == NewAssembly(p.total, 0, now);
    hide Slice, Total, Low32, Newer, Prune, Discard, Ensure, Counted;
    StoreReceives(t, f, other, size, got, i, began, now);
  }

  lemma StoreReceives(t: State, f: Published, other: U32, size: nat, got: set<nat>, i: nat, began: real, now: real)
    requires AllCounted(t.frames.items) && size > 0 && t.frames.Has(f.Id()) && now - began <= FRAME_AGE
    requires Deliverable(f, size) && |f.data| <= MAX_BYTES && i < Total(|f.data|, size)
    requires Seat(t.frames.order, f.Id(), other) && other != f.Id()
    requires var a := t.frames.items[f.Id()];
      && a.total == Total(|f.data|, size) && a.createdAt == began
      && (a.published.None? || a.published == Some(f.published))
      && (forall k :: 0 <= k < a.total ==> a.chunks[k] == if k in got then Some(Slice(f.data, size, k)) else None)
    ensures var b := WithChunk(t.frames.items[f.Id()], FragmentOf(f, size, i));
      && b.receivedBytes <= MAX_BYTES
      && Receiving(Prune(t.(frames := Put(t.frames, f.Id(), b)), now), f, other, size, got + {i}, began)
  {
    hide Slice, Total, Low32, Newer, Prune, Discard, Counted, Seat;
    var p, id := FragmentOf(f, size, i), f.Id();
    var a := t.frames.items[id];
    var b := WithChunk(a, p);
    ChunkBytes(a, p, f, size);
    WithChunkCounts(a, p);
    PruneSpares(t.(frames := Put(t.frames, id, b)), now, id, other, b);
  }

  lemma ChunkBytes(a: Assembly, p: Packet, f: Published, size: nat)
    requires size > 0 && Counted(a) && a.total == Total(|f.data|, size) && p.index < a.total && |f.data| <= MAX_BYTES
    requires forall i :: 0 <= i < a.total ==> a.chunks[i].None? || a.chunks[i] == Some(Slice(f.data, size, i))
    requires p.payload == Slice(f.data, size, p.index)
    ensures WithChunk(a, p).receivedBytes <= MAX_BYTES
  {
    var b := WithChunk(a, p);
    hide Slice, Total, Cut;
    if a.chunks[p.index].None? { ChunkCounts(a.chunks, p.index, p.payload); }
    BytesBounded(f.data, size, b.chunks);
    CutMonotone(|f.data|, size, b.total);
  }

  /** Accepting a fragment that does not reset the tables, up to the point where it is added. */
  lemma AcceptAdds(s: State, p: Packet, now: real)
    requires Inv(s) && !Restarted(s, p) && p.published.Some? && s.floor <= p.published.value
    ensures var t := Prune(Observe(s, p), now);
      && Accept(s, p, now) == Add(t, p, now)
      && Tables(t) && AllCounted(t.frames.items) && t.frames.Size() <= MAX_FRAMES
      && Reduced(Observe(s, p), t) && t.floor == s.floor
  {
    ObserveKeeps(s, p);
    var o := Observe(s, p);
    hide Counted, Newer;
    PruneKeeps(o, now);
    PruneInv(o, now);
    hide Prune, Tables, AllCounted, Add;
  }

  /** Whatever of the two frames is observed, neither looks restarted afterwards. */
  lemma ObserveFollows(s: State, f: Published, g: Published, x: Published, size: nat, i: nat)
    requires Undisturbed(s, f, g) && x in {f, g} && size > 0 && Deliverable(x, size) && i < Total(|x.data|, size)
    ensures !Restarted(s, FragmentOf(x, size, i)) && Undisturbed(Observe(s, FragmentOf(x, size, i)), f, g)
  {
    hide Newer, Low32, Total, Slice;
  }

  lemma FollowsIgnoresFrames(s: State, r: State, f: Published, g: Published)
    requires Undisturbed(s, f, g)
    requires r.latestPublished == s.latestPublished && r.latestId == s.latestId && r.floor == s.floor
    ensures Undisturbed(r, f, g)
  {
  }

  lemma FirstFragment(s: State, f: Published, g: Published, size: nat, i: nat, now: real)
    requires Inv(s) && size > 0 && Awaited(s, f, size) && Undisturbed(s, f, g) && i < Total(|f.data|, size)
    ensures var r := Accept(s, FragmentOf(f, size, i), now);
      Inv(r) && Receiving(r, f, g.Id(), size, {i}, now) && Undisturbed(r, f, g)
  {
    var p := FragmentOf(f, size, i);
    ObserveFollows(s, f, g, f, size, i);
    AcceptAdds(s, p, now);
    AcceptInv(s, p, now);
    var t := Prune(Observe(s, p), now);
    hide Newer, Prune, Slice, Total, Low32, Add, Counted, Receiving, Restarted, Accept, Follows;
    assert t.lastRendered == s.lastRendered && !t.frames.Has(f.Id()) && !t.retired.Has(f.Id());
    AddReceives(t, f, g.Id(), size, {}, i, now, now);
    AddRemembers(t, p, now);
    FollowsIgnoresFrames(Observe(s, p), Add(t, p, now), f, g);
    assert {} + {i} == {i};
  }

  lemma NextFragment(s: State, f: Published, g: Published, size: nat, got: set<nat>, i: nat, began: real, now: real)
    requires Inv(s) && size > 0 && Deliverable(f, size) && |f.data| <= MAX_BYTES && i < Total(|f.data|, size)
    requires Receiving(s, f, g.Id(), size, got, began) && got != {} && now - began <= FRAME_AGE && Undisturbed(s, f, g)
    ensures var r := Accept(s, FragmentOf(f, size, i), now);
      Inv(r) && Receiving(r, f, g.Id(), size, got + {i}, began) && Undisturbed(r, f, g)
  {
    var p := FragmentOf(f, size, i);
    ObserveFollows(s, f, g, f, size, i);
    AcceptAdds(s, p, now);
    AcceptInv(s, p, now);
    var o := Observe(s, p);
    PruneSpares(o, now, f.Id(), g.Id(), o.frames.items[f.Id()]);
    var t := Prune(o, now);
    hide Newer, Prune, Slice, Total, Low32, Add, Counted, Restarted, Accept, Seat, Follows;
    assert Receiving(t, f, g.Id(), size, got, began);
    assert Welcome(t, f.Id(), p.total);
    AddReceives(t, f, g.Id(), size, got, i, began, now);
    AddRemembers(t, p, now);
    FollowsIgnoresFrames(o, Add(t, p, now), f, g);
  }

  // ---- what else may happen in between ----

  lemma EnsureSpares(t: State, k: U32, total: int, totalBytes: int, now: real, id: U32, other: U32, a: Assembly)
    requires Seated(t, id, other, a, now) && id != other && k in {id, other}
    ensures Seated(Ensure(t, k, total, totalBytes, now), id, other, a, now)
  {
    hide Newer, NewAssembly;
  }

  /** Adding a fragment of the other frame, whatever comes of that. */
  lemma AddSpares(t: State, p: Packet, now: real, id: U32, a: Assembly)
    requires Seated(t, id, p.id, a, now) && id != p.id
    ensures Seated(Add(t, p, now), id, p.id, a, now)
  {
    if Welcome(t, p.id, p.total) {
      EnsureSpares(t, p.id, p.total, 0, now, id, p.id, a);
      var u := Ensure(t, p.id, p.total, 0, now);
      var b := u.frames.items[p.id];
      DiscardSpares(u, p.id, now, id, p.id, a);
      if b.total == p.total && (b.published.None? || b.published == p.published) {
        var w := u.(frames := Put(u.frames, p.id, WithChunk(b, p)));
        hide Ensure, Prune, Discard, WithChunk, Seat, Newer;
        assert Seated(w, id, p.id, a, now);
        DiscardSpares(w, p.id, now, id, p.id, a);
        PruneSpares(w, now, id, p.id, a);
      }
      hide Ensure, Prune, Discard, WithChunk, Seat, Newer;
    }
  }

  lemma OtherFragment(s: State, f: Published, g: Published, size: nat, i: nat, now: real, a: Assembly)
    requires Inv(s) && size > 0 && Undisturbed(s, f, g) && Deliverable(g, size) && i < Total(|g.data|, size)
    requires Seated(s, f.Id(), g.Id(), a, now)
    ensures var r := Accept(s, FragmentOf(g, size, i), now);
      Inv(r) && Seated(r, f.Id(), g.Id(), a, now) && Undisturbed(r, f, g)
  {
    var p := FragmentOf(g, size, i);
    ObserveFollows(s, f, g, g, size, i);
    AcceptInv(s, p, now);
    if s.floor <= g.published {
      AcceptAdds(s, p, now);
      var o := Observe(s, p);
      assert Seated(o, f.Id(), g.Id(), a, now);
      hide Newer, Prune, Slice, Total, Low32, Add, Counted, Restarted, Accept, Seated, Follows;
      PruneSpares(o, now, f.Id(), g.Id(), a);
      AddSpares(Prune(o, now), p, now, f.Id(), a);
      AddRemembers(Prune(o, now), p, now);
      FollowsIgnoresFrames(o, Add(Prune(o, now), p, now), f, g);
    }
  }

  lemma OtherShown(s: State, f: Published, g: Published, now: real, a: Assembly)
    requires Inv(s) && Undisturbed(s, f, g) && Newer(f.Id(), g.Id()) && Seated(s, f.Id(), g.Id(), a, now)
    ensures var r := Finish(s, g.Id(), now).0;
      Inv(r) && Seated(r, f.Id(), g.Id(), a, now) && Undisturbed(r, f, g)
  {
    hide Inv, Undisturbed, Seated, Newer, Finish, Low32;
    FinishInv(s, g.Id(), now);
    FinishLatest(s, g.Id(), now);
    FollowsIgnoresFrames(s, Finish(s, g.Id(), now).0, f, g);
    if Complete(s, g.Id()) {
      DifferentFrames(s, f, g);
      FinishSpares(s, g.Id(), now, f.Id(), a);
    }
  }

  lemma DifferentFrames(s: State, f: Published, g: Published)
    requires Undisturbed(s, f, g)
    ensures f.Id() != g.Id()
  {
  }

  lemma FinishSpares(s: State, other: U32, now: real, id: U32, a: Assembly)
    requires Inv(s) && Complete(s, other) && Seated(s, id, other, a, now) && id != other && Newer(id, other)
    ensures Seated(Finish(s, other, now).0, id, other, a, now)
  {
    assert !(s.lastRendered.Some? && !Newer(other, s.lastRendered.value));
    var t := s.(lastRendered := Some(other), frames := Remove(s.frames, other));
    assert Seated(t, id, other, a, now) by {
      DiscardSpares(s, other, now, id, other, a);
      assert Discard(s, other, now).frames == t.frames;
    }
    hide Seated, DiscardOlder, Remove, Newer, Inv;
    DiscardOlderSpares(t, t.frames.order, other, now, id, other, a);
  }

  lemma Bookkeeping(s: State, e: Event, f: Published, g: Published, a: Assembly)
    requires Inv(s) && Undisturbed(s, f, g) && (e.Prunes? || (e.Announces? && e.id in {f.Id(), g.Id()}))
    requires Seated(s, f.Id(), g.Id(), a, Moment(e))
    ensures var r := StateAfter(s, e);
      Inv(r) && Seated(r, f.Id(), g.Id(), a, Moment(e)) && Undisturbed(r, f, g)
  {
    var t := if e.Announces? then Ensure(s, e.id, e.total, e.totalBytes, e.now) else s;
    if e.Announces? {
      EnsureKeeps(s, e.id, e.total, e.totalBytes, e.now);
      EnsureSpares(s, e.id, e.total, e.totalBytes, e.now, f.Id(), g.Id(), a);
    }
    assert StateAfter(s, e) == Prune(t, Moment(e));
    assert t.latestId == s.latestId && t.latestPublished == s.latestPublished && t.floor == s.floor;
    assert Tables(t) && AllCounted(t.frames.items);
    hide Ensure, Prune, Seated, Undisturbed, Tables, AllCounted, Inv, Step, StateAfter, Low32;
    FollowsIgnoresFrames(s, t, f, g);
    PruneInv(t, Moment(e));
    PruneKeeps(t, Moment(e));
    PruneSpares(t, Moment(e), f.Id(), g.Id(), a);
    FollowsIgnoresFrames(t, Prune(t, Moment(e)), f, g);
  }

  /** One event while the frame is being received. */
  lemma ReceivingStep(s: State, e: Event, f: Published, g: Published, size: nat, got: set<nat>, began: real)
    requires Inv(s) && size > 0 && Deliverable(f, size) && |f.data| <= MAX_BYTES && got != {}
    requires Receiving(s, f, g.Id(), size, got, began) && Undisturbed(s, f, g)
    requires Tolerated(e, f, g, size) && Moment(e) - began <= FRAME_AGE
    ensures var r := StateAfter(s, e);
      Inv(r) && Receiving(r, f, g.Id(), size, got + Brought(e, f), began) && Undisturbed(r, f, g)
  {
    var a := s.frames.items[f.Id()];
    assert Seated(s, f.Id(), g.Id(), a, Moment(e));
    if e.Accepts? && IsFragment(e.packet, f, size) {
      var i: nat :| i < Total(|f.data|, size) && e.packet == FragmentOf(f, size, i);
      NextFragment(s, f, g, size, got, i, began, e.now);
    } else {
      OtherStep(s, e, f, g, size, a);
      assert Brought(e, f) == {} by { NotBrought(e, f, g, size); }
      assert got + {} == got;
      hide Seat, Tolerated;
    }
    hide Inv, Accept, Finish, Newer, Slice, Total, Low32, Undisturbed;
  }

  lemma NotBrought(e: Event, f: Published, g: Published, size: nat)
    requires size > 0 && Tolerated(e, f, g, size) && f.Id() != g.Id() && (e.Accepts? ==> !IsFragment(e.packet, f, size))
    ensures Brought(e, f) == {}
  {
    hide Total, Slice, Low32;
  }

  lemma OtherStep(s: State, e: Event, f: Published, g: Published, size: nat, a: Assembly)
    requires Inv(s) && size > 0 && Undisturbed(s, f, g) && Tolerated(e, f, g, size)
    requires Seated(s, f.Id(), g.Id(), a, Moment(e)) && (e.Accepts? ==> !IsFragment(e.packet, f, size))
    ensures var r := StateAfter(s, e);
      Inv(r) && Seated(r, f.Id(), g.Id(), a, Moment(e)) && Undisturbed(r, f, g)
  {
    hide Inv, Seated, Undisturbed, Accept, Finish, Newer, Slice, Total, Low32, Announce, Prune;
    match e
    case Accepts(p, now) =>
      assert IsFragment(p, g, size);
      var i: nat :| i < Total(|g.data|, size) && p == FragmentOf(g, size, i);
      OtherFragment(s, f, g, size, i, now, a);
    case Finishes(id, now) => OtherShown(s, f, g, now, a);
    case _ => Bookkeeping(s, e, f, g, a);
  }

  // ---- the whole reception ----

  function Arrive(s: State, events: seq<Event>): State {
    if events == [] then s else StateAfter(Arrive(s, events[..|events| - 1]), events[|events| - 1])
  }

  function Gathered(events: seq<Event>, f: Published): set<nat> {
    if events == [] then {} else Gathered(events[..|events| - 1], f) + Brought(events[|events| - 1], f)
  }

  /** It begins with a fragment of the frame, and the rest comes within the frame's age limit. */
  ghost predicate Reception(events: seq<Event>, f: Published, g: Published, size: nat)
    requires size > 0
  {
    && events != [] && events[0].Accepts? && IsFragment(events[0].packet, f, size)
    && forall e :: e in events ==> Tolerated(e, f, g, size) && Moment(e) - events[0].now <= FRAME_AGE
  }

  lemma ReceptionPrefix(events: seq<Event>, f: Published, g: Published, size: nat)
    requires size > 0 && Reception(events, f, g, size)
    ensures var last := events[|events| - 1];
      && Tolerated(last, f, g, size) && Moment(last) - events[0].now <= FRAME_AGE
      && (|events| > 1 ==>
            var before := events[..|events| - 1];
            before != [] && before[0] == events[0] && Reception(before, f, g, size))
  {
    hide IsFragment, Tolerated;
    assert events[|events| - 1] in events;
    assert forall e :: e in events[..|events| - 1] ==> e in events;
  }

  lemma {:induction false} ArrivesSoFar(s: State, f: Published, g: Published, size: nat, events: seq<Event>)
    requires Inv(s) && size > 0 && Awaited(s, f, size) && Undisturbed(s, f, g) && Reception(events, f, g, size)
    ensures var r := Arrive(s, events);
      && Inv(r) && Receiving(r, f, g.Id(), size, Gathered(events, f), events[0].now) && Undisturbed(r, f, g)
      && Gathered(events, f) != {}
    decreases |events|
  {
    ReceptionPrefix(events, f, g, size);
    AwaitedFits(s, f, size);
    var n := |events| - 1;
    var last, before := events[n], events[..n];
    if n == 0 {
      hide Inv, Receiving, Undisturbed, StateAfter, Awaited, IsFragment, Tolerated, Brought;
      FirstArrives(s, last, f, g, size);
      assert before == [];
      assert {} + Brought(last, f) == Brought(last, f);
    } else {
      hide Inv, Receiving, Undisturbed, StateAfter, IsFragment, Tolerated, Brought, Reception, Awaited, Deliverable;
      ArrivesSoFar(s, f, g, size, before);
      ReceivingStep(Arrive(s, before), last, f, g, size, Gathered(before, f), events[0].now);
    }
  }

  lemma AwaitedFits(s: State, f: Published, size: nat)
    requires size > 0 && Awaited(s, f, size)
    ensures Deliverable(f, size) && |f.data| <= MAX_BYTES
  {
  }

  lemma FirstArrives(s: State, e: Event, f: Published, g: Published, size: nat)
    requires Inv(s) && size > 0 && Awaited(s, f, size) && Undisturbed(s, f, g)
    requires e.Accepts? && IsFragment(e.packet, f, size)
    ensures var r := StateAfter(s, e);
      Inv(r) && Receiving(r, f, g.Id(), size, Brought(e, f), e.now) && Undisturbed(r, f, g) && Brought(e, f) != {}
  {
    hide Inv, Receiving, Undisturbed, Accept, Slice, Total, Low32;
    var i: nat :| i < Total(|f.data|, size) && e.packet == FragmentOf(f, size, i);
    FirstFragment(s, f, g, size, i, e.now);
    assert Brought(e, f) == {i};
  }

  /** Finishing the frame shows it, byte for byte. */
  ghost predicate Shown(s: State, f: Published, now: real) {
    s.frames.Has(f.Id()) && Finish(s, f.Id(), now).1 && Joined(s.frames.items[f.Id()].chunks) == f.data
  }

  /** Completeness: once every fragment of an awaited frame has arrived, in any order, with any repetitions, and
      within the frame's age limit of the first one, finishing it shows it, byte for byte. One other frame may be
      received, announced and, if older, shown in between. */
  lemma AllFragmentsShow(s: State, f: Published, g: Published, size: nat, events: seq<Event>, now: real)
    requires Inv(s) && size > 0 && Awaited(s, f, size) && Undisturbed(s, f, g) && Reception(events, f, g, size)
    requires forall i: nat :: i < Total(|f.data|, size) ==> i in Gathered(events, f)
    ensures Shown(Arrive(s, events), f, now)
  {
    var began := events[0].now;
    hide Arrive, Inv, Receiving, Finish, Undisturbed, Reception, Gathered;
    ArrivesSoFar(s, f, g, size, events);
    ReceivedWhole(Arrive(s, events), f, g.Id(), size, Gathered(events, f), began);
    FinishInv(Arrive(s, events), f.Id(), now);
  }

  /** Nothing but having seen this frame's number and time. */
  function Restart(f: Published): State {
    Fresh().(floor := f.published, latestPublished := f.published, latestId := Some(f.Id()))
  }

  lemma RestartAccepts(s: State, f: Published, size: nat, i: nat, now: real)
    requires size > 0 && Deliverable(f, size) && i < Total(|f.data|, size)
    requires s.latestId.Some? && f.published > s.latestPublished
    requires f.Id() != s.latestId.value && !Newer(f.Id(), s.latestId.value)
    ensures Accept(s, FragmentOf(f, size, i), now) == Accept(Restart(f), FragmentOf(f, size, i), now)
  {
    hide Prune, Add, Newer, Slice, Total, Low32;
  }

  lemma {:induction false} RestartArrives(s: State, f: Published, g: Published, size: nat, events: seq<Event>)
    requires size > 0 && Deliverable(f, size) && Reception(events, f, g, size)
    requires s.latestId.Some? && f.published > s.latestPublished
    requires f.Id() != s.latestId.value && !Newer(f.Id(), s.latestId.value)
    ensures Arrive(s, events) == Arrive(Restart(f), events)
    decreases |events|
  {
    ReceptionPrefix(events, f, g, size);
    var n := |events| - 1;
    if n == 0 {
      var i: nat :| i < Total(|f.data|, size) && events[0].packet == FragmentOf(f, size, i);
      RestartAccepts(s, f, size, i, events[0].now);
      assert events[..0] == [];
      hide Accept, Restart, Newer, Slice, Total, Low32, Reception, Tolerated, Deliverable;
    } else {
      RestartArrives(s, f, g, size, events[..n]);
      hide StateAfter, Reception, Restart, Newer, Deliverable;
    }
  }

  /** A capture process that starts again is followed at once, whatever has been shown before: once every fragment
      of a frame has arrived that was published later than everything seen, but under a number that is not newer
      than the last one, finishing it shows it, byte for byte. */
  lemma RestartShows(s: State, f: Published, g: Published, size: nat, events: seq<Event>, now: real)
    requires s.latestId.Some? && f.published > s.latestPublished
    requires f.Id() != s.latestId.value && !Newer(f.Id(), s.latestId.value)
    requires size > 0 && Deliverable(f, size) && |f.data| <= MAX_BYTES
    requires SameCapture(f, g) && Reception(events, f, g, size)
    requires forall i: nat :: i < Total(|f.data|, size) ==> i in Gathered(events, f)
    ensures Shown(Arrive(s, events), f, now)
  {
    RestartArrives(s, f, g, size, events);
    RestartIsReady(f, g, size);
    hide *;
    AllFragmentsShow(Restart(f), f, g, size, events, now);
  }

  lemma RestartIsReady(f: Published, g: Published, size: nat)
    requires size > 0 && Deliverable(f, size) && |f.data| <= MAX_BYTES && SameCapture(f, g)
    ensures Inv(Restart(f)) && Awaited(Restart(f), f, size) && Undisturbed(Restart(f), f, g)
  {
    CeilDivBounds(|f.data|, size);
    hide Newer, Low32;
  }

  lemma ReceivedWhole(r: State, f: Published, other: U32, size: nat, got: set<nat>, began: real)
    requires Inv(r) && size > 0 && Receiving(r, f, other, size, got, began)
    requires forall i: nat :: i < Total(|f.data|, size) ==> i in got
    ensures Complete(r, f.Id()) && Joined(r.frames.items[f.Id()].chunks) == f.data
  {
    var a := r.frames.items[f.Id()];
    assert Counted(a);
    hide Inv, Slice, Cut, Total;
    assert forall i :: 0 <= i < a.total ==> a.chunks[i] == Some(Slice(f.data, size, i));
    AllPresent(a.chunks);
    SlicesJoin(f.data, size, a.chunks);
    WholeCut(f.data, size);
  }
}
