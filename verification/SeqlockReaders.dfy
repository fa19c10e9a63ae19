/** The three readers of the latest-frame memory. Every load may be preceded by any number of the writer's
    stores; what a reader accepts is nevertheless one publication, whole. */
module SeqlockReaders {
  import opened Wrappers
  import opened Protocol
  import opened Octets
  import opened SharedMemory
  import opened MachineWords

  /** The memory as a reader sees it: `now` is how many stores the writer has made so far. */
  class View {
    const pictures: seq<Picture>
    var now: nat

    ghost predicate Valid()
      reads this
    {
      now <= |All(pictures)|
    }

    constructor (pictures: seq<Picture>, now: nat)
      requires now <= |All(pictures)|
      ensures Valid() && this.pictures == pictures && this.now == now
    {
      this.pictures, this.now := pictures, now;
    }

    /** The writer gets on with its work for a while, then one cell is read. */
    method Load(c: Cell) returns (v: int)
      requires Valid()
      modifies this
      ensures Valid() && old(now) <= now && v == At(pictures, now, c)
    {
      var later: nat :| now <= later <= |All(pictures)|;
      now := later;
      v := At(pictures, now, c);
    }

    /** Ascending loads of consecutive cells, and when each was made. */
    method LoadAll(area: Area, size: nat) returns (values: seq<int>, ghost at: seq<nat>)
      requires Valid()
      modifies this
      ensures Valid() && old(now) <= now && ReadAt(pictures, values, at, area, old(now), now) && |values| == size
    {
      values, at := [], [];
      while |values| < size
        invariant Valid() && old(now) <= now && |values| <= size && ReadAt(pictures, values, at, area, old(now), now)
      {
        hide All, At, CellOf, ReadAt;
        ghost var before := now;
        var v := Load(CellOf(area, |values|));
        OneMoreRead(pictures, values, at, area, old(now), before, v, now);
        values, at := values + [v], at + [now];
      }
    }
  }

  datatype Area = HeaderArea | DataArea | TimingArea

  function CellOf(area: Area, i: nat): Cell {
    match area case HeaderArea => Header(i) case DataArea => Data(i) case TimingArea => Timing(i)
  }

  /** Values read from consecutive cells at ascending moments of an interval. */
  ghost predicate ReadAt(pictures: seq<Picture>, values: seq<int>, at: seq<nat>, area: Area, low: nat, high: nat) {
    && |at| == |values| && low <= high <= |All(pictures)|
    && (forall i :: 0 <= i < |at| ==> low <= at[i] <= high && values[i] == At(pictures, at[i], CellOf(area, i)))
    && (forall i, j :: 0 <= i <= j < |at| ==> at[i] <= at[j])
  }

  lemma OneMoreRead(pictures: seq<Picture>, values: seq<int>, at: seq<nat>, area: Area, low: nat, high: nat, v: int,
                    now: nat)
    requires ReadAt(pictures, values, at, area, low, high) && high <= now <= |All(pictures)|
    requires v == At(pictures, now, CellOf(area, |values|))
    ensures ReadAt(pictures, values + [v], at + [now], area, low, now)
  {
    hide All, At, CellOf;
  }

  /** The header of the last complete publication, or zeros. */
  ghost function Latest(pictures: seq<Picture>, m: nat): (h: seq<int>)
    ensures |h| == HEADER_FIELDS
  {
    var k := Completed(pictures, m);
    if k == 0 then seq(HEADER_FIELDS, _ => 0) else HeaderOf(k - 1, pictures[k - 1])
  }

  /** The write index is read the same at two moments, so that nothing was stored between them. */
  lemma SameMoment(pictures: seq<Picture>, h: seq<int>, first: seq<nat>, second: seq<nat>,
                   a: nat, b: nat, c: nat, d: nat)
    requires |h| == HEADER_FIELDS && h[WRITE_IDX] % 2 == 0
    requires ReadAt(pictures, h, first, HeaderArea, a, b) && ReadAt(pictures, h, second, HeaderArea, c, d) && b <= c
    requires Completed(pictures, d) - Completed(pictures, a) < 0x8000_0000
    ensures b == c == first[WRITE_IDX] == second[WRITE_IDX] && Quiet(pictures, b)
  {
    hide All, At, Completed, Value;
    var m, n := first[WRITE_IDX], second[WRITE_IDX];
    CompletedMonotone(pictures, a, m);
    CompletedMonotone(pictures, n, d);
    Certified(pictures, m, n);
  }

  /** Two equal readings of the whole header, one word after another: the fields up to the write index are
      certified by the second reading, those after it by the first, and everything read in between belongs to
      the same moment. */
  lemma DoubleRead(pictures: seq<Picture>, h: seq<int>, first: seq<nat>, second: seq<nat>,
                   a: nat, b: nat, c: nat, d: nat)
    requires |h| == HEADER_FIELDS && h[WRITE_IDX] % 2 == 0
    requires ReadAt(pictures, h, first, HeaderArea, a, b) && ReadAt(pictures, h, second, HeaderArea, c, d) && b <= c
    requires Completed(pictures, d) - Completed(pictures, a) < 0x8000_0000
    ensures b == c == first[WRITE_IDX] && Quiet(pictures, b) && h == Latest(pictures, b)
  {
    hide All, At, Completed, Value, Quiet, HeaderOf;
    SameMoment(pictures, h, first, second, a, b, c, d);
    forall f | 0 <= f < HEADER_FIELDS ensures h[f] == Latest(pictures, b)[f] {
      QuietHeader(pictures, b, f);
      if f <= WRITE_IDX { assert second[f] == b; } else { assert first[f] == b; }
    }
  }

  /** Payload read while the writer is between publications. */
  lemma PayloadRead(pictures: seq<Picture>, d: seq<int>, at: seq<nat>, m: nat)
    requires Quiet(pictures, m) && ReadAt(pictures, d, at, DataArea, m, m)
    requires Completed(pictures, m) > 0 && |d| == |pictures[Completed(pictures, m) - 1].data|
    ensures d == pictures[Completed(pictures, m) - 1].data
  {
    hide All, At, Completed, Quiet;
    forall i | 0 <= i < |d| ensures d[i] == pictures[Completed(pictures, m) - 1].data[i] {
      QuietData(pictures, m, i);
      assert at[i] == m;
    }
  }

  lemma TimingRead(pictures: seq<Picture>, t: seq<int>, at: seq<nat>, m: nat)
    requires Quiet(pictures, m) && ReadAt(pictures, t, at, TimingArea, m, m)
    requires Completed(pictures, m) > 0 && |t| == TIMING_WORDS
    ensures t == TimingOf(Completed(pictures, m) - 1, pictures[Completed(pictures, m) - 1])
  {
    hide All, At, Completed, Quiet;
    forall w | 0 <= w < TIMING_WORDS
      ensures t[w] == TimingOf(Completed(pictures, m) - 1, pictures[Completed(pictures, m) - 1])[w]
    {
      QuietTiming(pictures, m, w);
      assert at[w] == m;
    }
  }

  lemma HeaderRead(pictures: seq<Picture>, h: seq<int>, at: seq<nat>, m: nat)
    requires Quiet(pictures, m) && ReadAt(pictures, h, at, HeaderArea, m, m) && |h| == HEADER_FIELDS
    ensures h == Latest(pictures, m)
  {
    hide All, At, Completed, Quiet;
    forall f | 0 <= f < HEADER_FIELDS ensures h[f] == Latest(pictures, m)[f] {
      QuietHeader(pictures, m, f);
      assert at[f] == m;
    }
  }

  /** Fewer than 2^31 publications between two moments. */
  ghost predicate Brief(pictures: seq<Picture>, m: nat, n: nat) {
    Completed(pictures, n) - Completed(pictures, m) < 0x8000_0000
  }

  /** The number of the last complete publication, at a moment when none is under way. */
  ghost function Current(pictures: seq<Picture>, m: nat): (n: Option<nat>)
    ensures n.Some? ==> n.value < |pictures|
  {
    if Quiet(pictures, m) && Completed(pictures, m) > 0 then Some(Completed(pictures, m) - 1) else None
  }

  // ---- the fallback source: header, payload, timing record, header again ----

  const MAX_FRAME_BYTES := 8 * 1024 * 1024
  const MAX_SAFE_INTEGER := 0x1f_ffff_ffff_ffff

  datatype TimingRecord = TimingRecord(
    cameraSequence: int, cameraFlags: int, driverUs: int, dequeuedUs: int, publishedUs: int)

  datatype Packet = Packet(frameId: int, size: int, published: int, timing: Option<TimingRecord>, payload: seq<int>)

  function PacketOf(number: nat, p: Picture): Packet {
    Packet(Low32(number), |p.data|, p.publishedUs / 1000, Some(RecordOf(p)), p.data)
  }

  function RecordOf(p: Picture): TimingRecord {
    TimingRecord(p.cameraSequence, p.cameraFlags, p.driverUs, p.dequeuedUs, p.publishedUs)
  }

  predicate Readable(h: seq<int>, after: int)
    requires |h| == HEADER_FIELDS
  {
    && h[WRITE_IDX] % 2 == 0 && h[FLAGS] % 2 == 0 && 4 <= h[FRAME_SIZE] <= MAX_FRAME_BYTES
    && after < h[LAST_FEEDBACK_TIME] <= MAX_SAFE_INTEGER
  }

  predicate TimingFits(h: seq<int>, t: seq<int>)
    requires |h| == HEADER_FIELDS && |t| == TIMING_WORDS
  {
    t[0] == TIMING_MAGIC && t[1] == h[FRAME_ID] && t[6] / 1000 == h[LAST_FEEDBACK_TIME]
  }

  /** The packet a reading ends in, if it is accepted. */
  function Assemble(h: seq<int>, d: seq<int>, t: Option<seq<int>>, v: seq<int>, after: int): Option<Packet>
    requires |h| == HEADER_FIELDS && (t.Some? ==> |t.value| == TIMING_WORDS)
    requires Readable(h, after) && |d| == h[FRAME_SIZE]
  {
    if (t.Some? && !TimingFits(h, t.value)) || h != v || d[0] != 0xff || d[1] != 0xd8 then None
    else Some(Packet(h[FRAME_ID], h[FRAME_SIZE], h[LAST_FEEDBACK_TIME],
                     if t.None? then None
                     else Some(TimingRecord(t.value[2], t.value[3], t.value[4], t.value[5], t.value[6])), d))
  }

  /** Whatever the writer does meanwhile, equal headers around payload and timing record mean one publication,
      whole, and it passes every remaining check. */
  lemma ReadIsWhole(pictures: seq<Picture>, h: seq<int>, hAt: seq<nat>, d: seq<int>, dAt: seq<nat>,
                    t: Option<seq<int>>, tAt: seq<nat>, vAt: seq<nat>,
                    a: nat, b: nat, c: nat, e: nat, f: nat, after: nat)
    requires |h| == HEADER_FIELDS && Readable(h, after) && |d| == h[FRAME_SIZE] && Brief(pictures, a, f)
    requires ReadAt(pictures, h, hAt, HeaderArea, a, b) && ReadAt(pictures, d, dAt, DataArea, b, c)
    requires t.Some? <==> h[FLAGS] / 2 % 2 == 1
    requires t.Some? ==> |t.value| == TIMING_WORDS && ReadAt(pictures, t.value, tAt, TimingArea, c, e)
    requires ReadAt(pictures, h, vAt, HeaderArea, e, f) && c <= e
    ensures Current(pictures, b).Some?
    ensures var n := Current(pictures, b).value;
      Assemble(h, d, t, h, after) == Some(PacketOf(n, pictures[n]))
  {
    hide *;
    CheckedFields(h, after);
    InOrder(pictures, d, dAt, DataArea, b, c);
    HeaderIsWhole(pictures, h, hAt, vAt, a, b, e, f);
    var n := Completed(pictures, b) - 1;
    var p := pictures[n];
    DescribedBy(n, p);
    PayloadRead(pictures, d, dAt, b);
    TimingRead(pictures, t.value, tAt, b);
    AssembledWhole(n, p, after);
  }

  lemma CheckedFields(h: seq<int>, after: int)
    requires |h| == HEADER_FIELDS && Readable(h, after)
    ensures h[WRITE_IDX] % 2 == 0 && h[FRAME_SIZE] > 0
  {
  }

  lemma InOrder(pictures: seq<Picture>, values: seq<int>, at: seq<nat>, area: Area, low: nat, high: nat)
    requires ReadAt(pictures, values, at, area, low, high)
    ensures low <= high
  {
  }

  lemma DescribedBy(n: nat, p: Picture)
    ensures |HeaderOf(n, p)| == HEADER_FIELDS
    ensures HeaderOf(n, p)[FLAGS] == 2 && HeaderOf(n, p)[FRAME_SIZE] == |p.data|
  {
  }

  lemma HeaderIsWhole(pictures: seq<Picture>, h: seq<int>, hAt: seq<nat>, vAt: seq<nat>, a: nat, b: nat, e: nat, f: nat)
    requires |h| == HEADER_FIELDS && h[WRITE_IDX] % 2 == 0 && h[FRAME_SIZE] > 0 && Brief(pictures, a, f) && b <= e
    requires ReadAt(pictures, h, hAt, HeaderArea, a, b) && ReadAt(pictures, h, vAt, HeaderArea, e, f)
    ensures b == e && Quiet(pictures, b) && Current(pictures, b) == Some(Completed(pictures, b) - 1)
    ensures var n := Completed(pictures, b) - 1; h == HeaderOf(n, pictures[n])
  {
    DoubleRead(pictures, h, hAt, vAt, a, b, e, f);
    hide *;
    SomethingShown(pictures, h, b);
  }

  lemma SomethingShown(pictures: seq<Picture>, h: seq<int>, m: nat)
    requires Quiet(pictures, m) && h == Latest(pictures, m) && h[FRAME_SIZE] > 0
    ensures Current(pictures, m) == Some(Completed(pictures, m) - 1)
    ensures h == HeaderOf(Current(pictures, m).value, pictures[Current(pictures, m).value])
  {
    hide All, Completed, Quiet, HeaderOf;
  }

  lemma AssembledWhole(n: nat, p: Picture, after: nat)
    requires Readable(HeaderOf(n, p), after)
    ensures Assemble(HeaderOf(n, p), p.data, Some(TimingOf(n, p)), HeaderOf(n, p), after) == Some(PacketOf(n, p))
  {
    hide Low32;
  }

  /** A publication that nothing disturbs is refused only for its size or its age. */
  lemma StillHeader(pictures: seq<Picture>, h: seq<int>, at: seq<nat>, m: nat, after: nat)
    requires ReadAt(pictures, h, at, HeaderArea, m, m) && |h| == HEADER_FIELDS && Current(pictures, m).Some?
    ensures h == Latest(pictures, m) && Brief(pictures, m, m)
    ensures var p := pictures[Current(pictures, m).value];
      Readable(h, after) <==> |p.data| <= MAX_FRAME_BYTES && after < p.publishedUs / 1000 <= MAX_SAFE_INTEGER
  {
    HeaderRead(pictures, h, at, m);
    var n := Current(pictures, m).value;
    ReadableOf(n, pictures[n], after);
    assert n + 1 == Completed(pictures, m);
    hide All, At, Quiet, ReadAt, HeaderOf, Readable, Completed;
  }

  lemma ReadableOf(n: nat, p: Picture, after: nat)
    ensures Readable(HeaderOf(n, p), after) <==>
      |p.data| <= MAX_FRAME_BYTES && after < p.publishedUs / 1000 <= MAX_SAFE_INTEGER
  {
    EvenWord(n + 1);
    hide Low32;
  }

  lemma EvenWord(k: nat)
    ensures Low32(2 * k) % 2 == 0
  {
    Doubled32(k);
  }

  /** `when` is a moment of the call at which the accepted publication was the current one. */
  method ReadLatest(view: View, after: nat) returns (r: Option<Packet>, ghost when: nat)
    requires view.Valid()
    modifies view
    ensures view.Valid() && old(view.now) <= when <= view.now
    ensures Brief(view.pictures, old(view.now), view.now) && r.Some? ==>
      && Current(view.pictures, when).Some?
      && var n := Current(view.pictures, when).value;
        r.value == PacketOf(n, view.pictures[n]) && after < r.value.published
    ensures view.now == old(view.now) && Current(view.pictures, view.now).Some? ==>
      var p := view.pictures[Current(view.pictures, view.now).value];
      r.Some? <==> |p.data| <= MAX_FRAME_BYTES && after < p.publishedUs / 1000 <= MAX_SAFE_INTEGER
  {
    hide All, At, Value, Completed, Quiet, ReadAt, Current, Brief, PacketOf, Latest;
    r, when := None, view.now;
    ghost var began := view.now;
    var header, headerAt := view.LoadAll(HeaderArea, HEADER_FIELDS);
    when := view.now;
    ghost var still := began == when && Current(view.pictures, when).Some?;
    if still { StillHeader(view.pictures, header, headerAt, when, after); }
    if !Readable(header, after) { return; }
    var payload, payloadAt := view.LoadAll(DataArea, header[FRAME_SIZE]);
    ghost var copied := view.now;
    var timing: Option<seq<int>> := None;
    ghost var timingAt: seq<nat> := [];
    if header[FLAGS] / 2 % 2 == 1 {
      var t;
      t, timingAt := view.LoadAll(TimingArea, TIMING_WORDS);
      timing := Some(t);
    }
    ghost var timed := view.now;
    var verified, verifiedAt := view.LoadAll(HeaderArea, HEADER_FIELDS);
    r := Assemble(header, payload, timing, verified, after);
    if still && view.now == began { StillHeader(view.pictures, verified, verifiedAt, when, after); }
    if header == verified && Brief(view.pictures, began, view.now) {
      ReadIsWhole(view.pictures, header, headerAt, payload, payloadAt, timing, timingAt, verifiedAt,
                  began, when, copied, timed, view.now, after);
    }
  }

  // ---- the monitor's reader: the image is optional, and so is a timing record that does not fit ----

  const MAX_JPEG := 8 * 1024 * 1024

  datatype Reading =
    | Unavailable
    | Invalid
    | Seen(stale: bool, frameId: int, published: int, size: int, timing: Option<TimingRecord>, jpeg: Option<seq<int>>)

  function SeenOf(number: nat, p: Picture, image: bool, clock: real): (r: Reading)
    ensures r.Seen?
  {
    Seen(clock - (p.publishedUs / 1000) as real > 500.0, Low32(number), p.publishedUs / 1000, |p.data|,
         Some(RecordOf(p)),
         if image then Some(p.data) else None)
  }

  function Judge(h: seq<int>, d: Option<seq<int>>, t: Option<seq<int>>, v: seq<int>, clock: real): Reading
    requires |h| == HEADER_FIELDS && (t.Some? ==> |t.value| == TIMING_WORDS) && (d.Some? ==> |d.value| >= 4)
  {
    if h != v then Unavailable
    else if d.Some? && (d.value[0] != 0xff || d.value[1] != 0xd8) then Unavailable
    else if clock < h[LAST_FEEDBACK_TIME] as real then Invalid
    else
      Seen(clock - h[LAST_FEEDBACK_TIME] as real > 500.0, h[FRAME_ID], h[LAST_FEEDBACK_TIME], h[FRAME_SIZE],
           if t.None? || !TimingFits(h, t.value) then None
           else Some(TimingRecord(t.value[2], t.value[3], t.value[4], t.value[5], t.value[6])), d)
  }

  lemma JudgedWhole(n: nat, p: Picture, image: bool, clock: real)
    ensures var j := Judge(HeaderOf(n, p), if image then Some(p.data) else None, Some(TimingOf(n, p)), HeaderOf(n, p),
                           clock);
      j == if clock < (p.publishedUs / 1000) as real then Invalid else SeenOf(n, p, image, clock)
  {
    hide Low32;
  }

  lemma ReadingIsWhole(pictures: seq<Picture>, h: seq<int>, hAt: seq<nat>, d: Option<seq<int>>, dAt: seq<nat>,
                       t: Option<seq<int>>, tAt: seq<nat>, vAt: seq<nat>,
                       a: nat, b: nat, c: nat, e: nat, f: nat, clock: real)
    requires |h| == HEADER_FIELDS && h[WRITE_IDX] % 2 == 0 && h[FRAME_SIZE] >= 4 && Brief(pictures, a, f) && b <= c <= e
    requires ReadAt(pictures, h, hAt, HeaderArea, a, b)
    requires d.Some? ==> |d.value| == h[FRAME_SIZE] && ReadAt(pictures, d.value, dAt, DataArea, b, c)
    requires t.Some? <==> h[FLAGS] / 2 % 2 == 1
    requires t.Some? ==> |t.value| == TIMING_WORDS && ReadAt(pictures, t.value, tAt, TimingArea, c, e)
    requires ReadAt(pictures, h, vAt, HeaderArea, e, f)
    ensures Current(pictures, b).Some?
    ensures var n := Current(pictures, b).value;
      Judge(h, d, t, h, clock) ==
        if clock < (pictures[n].publishedUs / 1000) as real then Invalid else SeenOf(n, pictures[n], d.Some?, clock)
  {
    hide *;
    HeaderIsWhole(pictures, h, hAt, vAt, a, b, e, f);
    var n := Completed(pictures, b) - 1;
    DescribedBy(n, pictures[n]);
    if d.Some? { PayloadRead(pictures, d.value, dAt, b); }
    TimingRead(pictures, t.value, tAt, b);
    JudgedWhole(n, pictures[n], d.Some?, clock);
  }

  /** The monitor looks at a publication that nothing disturbs unless it is too large or published before 1 ms. */
  lemma StillCapture(pictures: seq<Picture>, h: seq<int>, at: seq<nat>, m: nat)
    requires ReadAt(pictures, h, at, HeaderArea, m, m) && |h| == HEADER_FIELDS && Current(pictures, m).Some?
    ensures h == Latest(pictures, m) && Brief(pictures, m, m)
    ensures var p := pictures[Current(pictures, m).value];
      && h[WRITE_IDX] % 2 == 0 && h[FLAGS] % 2 == 0 && 4 <= h[FRAME_SIZE] == |p.data|
      && h[LAST_FEEDBACK_TIME] == p.publishedUs / 1000
  {
    HeaderRead(pictures, h, at, m);
    var n := Current(pictures, m).value;
    EvenWord(n + 1);
    assert n + 1 == Completed(pictures, m);
    hide All, At, Quiet, ReadAt, Completed, Low32;
  }

  /** A reading is of one publication, timing record and image included; an undisturbed one is seen exactly if it is
      within the size limit, has a time of publication, and the clock has reached it. */
  method ReadCapture(view: View, image: bool, clock: real) returns (r: Reading, ghost when: nat)
    requires view.Valid()
    modifies view
    ensures view.Valid() && old(view.now) <= when <= view.now
    ensures Brief(view.pictures, old(view.now), view.now) && r.Seen? ==>
      && Current(view.pictures, when).Some?
      && var n := Current(view.pictures, when).value; r == SeenOf(n, view.pictures[n], image, clock)
    ensures view.now == old(view.now) && Current(view.pictures, view.now).Some? ==>
      var p := view.pictures[Current(view.pictures, view.now).value];
      var shown := |p.data| <= MAX_JPEG && p.publishedUs >= 1000;
      && (r.Seen? <==> shown && clock >= (p.publishedUs / 1000) as real)
      && (r.Invalid? <==> shown && clock < (p.publishedUs / 1000) as real)
  {
    hide All, At, Value, Completed, Quiet, ReadAt, Current, Brief, SeenOf, Latest;
    r, when := Unavailable, view.now;
    ghost var began := view.now;
    var header, headerAt := view.LoadAll(HeaderArea, HEADER_FIELDS);
    when := view.now;
    ghost var still := began == when && Current(view.pictures, when).Some?;
    if still { StillCapture(view.pictures, header, headerAt, when); }
    if header[WRITE_IDX] % 2 == 1 || header[FLAGS] % 2 == 1 || !(4 <= header[FRAME_SIZE] <= MAX_JPEG)
       || header[LAST_FEEDBACK_TIME] <= 0 {
      return;
    }
    var jpeg: Option<seq<int>> := None;
    ghost var jpegAt: seq<nat> := [];
    if image {
      var d;
      d, jpegAt := view.LoadAll(DataArea, header[FRAME_SIZE]);
      jpeg := Some(d);
    }
    ghost var copied := view.now;
    var timing: Option<seq<int>> := None;
    ghost var timingAt: seq<nat> := [];
    if header[FLAGS] / 2 % 2 == 1 {
      var t;
      t, timingAt := view.LoadAll(TimingArea, TIMING_WORDS);
      timing := Some(t);
    }
    ghost var timed := view.now;
    var verified, verifiedAt := view.LoadAll(HeaderArea, HEADER_FIELDS);
    r := Judge(header, jpeg, timing, verified, clock);
    if still && view.now == began { StillCapture(view.pictures, verified, verifiedAt, when); }
    if header == verified && Brief(view.pictures, began, view.now) {
      ReadingIsWhole(view.pictures, header, headerAt, jpeg, jpegAt, timing, timingAt, verifiedAt,
                     began, when, copied, timed, view.now, clock);
    }
  }

  // ---- the video gateway: the write index before and after the header, and once more after the payload ----

  /** A header read between two equal even readings of the write index is the last complete publication's, and
      nothing has been stored up to the second one. */
  lemma BracketedRead(pictures: seq<Picture>, h: seq<int>, at: seq<nat>, m: nat, n: nat)
    requires |h| == HEADER_FIELDS && ReadAt(pictures, h, at, HeaderArea, m, n) && Brief(pictures, m, n)
    requires At(pictures, m, Header(WRITE_IDX)) == At(pictures, n, Header(WRITE_IDX))
    requires At(pictures, m, Header(WRITE_IDX)) % 2 == 0
    ensures m == n && Quiet(pictures, m) && h == Latest(pictures, m)
  {
    InOrder(pictures, h, at, HeaderArea, m, n);
    Certified(pictures, m, n);
    assert Quiet(pictures, m);
    hide *;
    HeaderRead(pictures, h, at, m);
  }

  lemma BriefInside(pictures: seq<Picture>, a: nat, m: nat, n: nat, b: nat)
    requires Brief(pictures, a, b) && a <= m <= n <= b
    ensures Brief(pictures, m, n)
  {
    CompletedMonotone(pictures, a, m);
    CompletedMonotone(pictures, n, b);
  }

  lemma NotQuiet(pictures: seq<Picture>, m: nat)
    requires m <= |All(pictures)| && At(pictures, m, Header(WRITE_IDX)) % 2 == 1
    ensures !Quiet(pictures, m)
  {
    if Quiet(pictures, m) {
      QuietHeader(pictures, m, WRITE_IDX);
      EvenWord(Completed(pictures, m));
      hide All, At, Completed, Quiet;
    }
  }

  lemma NothingIsBrief(pictures: seq<Picture>, m: nat)
    ensures Brief(pictures, m, m)
  {
  }

  /** A header that is there whenever the writer rests and nothing disturbs. */
  method ReadStableHeader(view: View) returns (out: Option<seq<int>>, ghost when: nat)
    requires view.Valid()
    modifies view
    ensures view.Valid() && old(view.now) <= when <= view.now && (out.Some? ==> |out.value| == HEADER_FIELDS)
    ensures Brief(view.pictures, old(view.now), view.now) && out.Some? ==>
      Quiet(view.pictures, when) && out.value == Latest(view.pictures, when)
    ensures view.now == old(view.now) ==> (out.Some? <==> Quiet(view.pictures, view.now))
  {
    hide All, At, Value, Completed, Quiet, ReadAt, Current, Brief, Latest;
    out, when := None, view.now;
    ghost var began := view.now;
    for attempt := 0 to 3
      invariant view.Valid() && began <= when <= view.now && out.None?
      invariant attempt > 0 && view.now == began ==> !Quiet(view.pictures, began)
    {
      var before := view.Load(Header(WRITE_IDX));
      if before % 2 == 1 { NotQuiet(view.pictures, view.now); continue; }
      ghost var m := view.now;
      when := m;
      var snapshot, snapshotAt := view.LoadAll(HeaderArea, HEADER_FIELDS);
      ghost var read := view.now;
      var after := view.Load(Header(WRITE_IDX));
      if before == after {
        out := Some(snapshot);
        if view.now == began { NothingIsBrief(view.pictures, began); }
        if Brief(view.pictures, began, view.now) {
          BriefInside(view.pictures, began, m, view.now, view.now);
          LaterRead(view.pictures, snapshot, snapshotAt, HeaderArea, m, read, view.now);
          BracketedRead(view.pictures, snapshot, snapshotAt, m, view.now);
        }
        return;
      }
    }
  }

  lemma LaterRead(pictures: seq<Picture>, values: seq<int>, at: seq<nat>, area: Area, low: nat, high: nat, later: nat)
    requires ReadAt(pictures, values, at, area, low, high) && high <= later <= |All(pictures)|
    ensures ReadAt(pictures, values, at, area, low, later)
  {
    hide All, At;
  }

  /** What one turn of the gateway's loop does about the latest frame. */
  datatype Turn =
    | Wait
    | SkipControl(frameId: int)
    | Drop(frameId: int)
    | Send(frameId: int, data: seq<int>, published: int, fragments: int)

  const SHM_PAYLOAD := 128 * 1024 * 1024 - 48
  const HIGH_WATERMARK := 128 * 1024

  /** Everything decided from the header alone; Send stands for going on to copy the payload. */
  function Decide(h: seq<int>, last: int, fragmentSize: nat, clock: real, buffered: nat): Turn
    requires |h| == HEADER_FIELDS && fragmentSize > 0
  {
    if h[FRAME_SIZE] == 0 && h[FRAG_TOTAL] == 0 && h[FLAGS] == 0 then Wait
    else if h[FRAME_ID] == last then Wait
    else if h[FLAGS] % 2 == 1 then SkipControl(h[FRAME_ID])
    else if h[FRAME_SIZE] <= 0 || h[FRAME_SIZE] > SHM_PAYLOAD || h[FRAG_SIZE] == 0 then Drop(h[FRAME_ID])
    else if clock - h[LAST_FEEDBACK_TIME] as real > 100.0 then Wait
    else if CeilDiv(h[FRAME_SIZE], fragmentSize) > 65535 then Drop(h[FRAME_ID])
    else if buffered > HIGH_WATERMARK then Wait
    else Send(h[FRAME_ID], [], h[LAST_FEEDBACK_TIME], CeilDiv(h[FRAME_SIZE], fragmentSize))
  }

  /** The payload check: the write index is read once more after the copy. */
  lemma RecheckedRead(pictures: seq<Picture>, h: seq<int>, d: seq<int>, at: seq<nat>, m: nat, a: nat, b: nat, n: nat)
    requires Quiet(pictures, m) && h == Latest(pictures, m) && h[FRAME_SIZE] > 0 && |d| == h[FRAME_SIZE]
    requires m <= a && ReadAt(pictures, d, at, DataArea, a, b) && b <= n <= |All(pictures)| && Brief(pictures, m, n)
    requires At(pictures, n, Header(WRITE_IDX)) == h[WRITE_IDX]
    ensures Current(pictures, m).Some?
    ensures var k := Current(pictures, m).value; h == HeaderOf(k, pictures[k]) && d == pictures[k].data
  {
    InOrder(pictures, d, at, DataArea, a, b);
    SomethingShown(pictures, h, m);
    var k := Current(pictures, m).value;
    DescribedBy(k, pictures[k]);
    assert k + 1 == Completed(pictures, m);
    QuietHeader(pictures, m, WRITE_IDX);
    EvenWord(k + 1);
    assert HeaderOf(k, pictures[k])[WRITE_IDX] == Low32(2 * (k + 1));
    hide *;
    Certified(pictures, m, n);
    PayloadRead(pictures, d, at, m);
  }

  /** What is decided about the current publication when nothing disturbs: sent exactly if it is another one than
      last time, at most 100 ms old, in at most 65535 parts, and at most 128 KiB are waiting to go out. */
  lemma DecidesExactly(pictures: seq<Picture>, m: nat, last: int, fragmentSize: nat, clock: real, buffered: nat)
    requires fragmentSize > 0
    ensures Quiet(pictures, m) && Current(pictures, m).None? ==>
      Decide(Latest(pictures, m), last, fragmentSize, clock, buffered) == Wait
    ensures !Quiet(pictures, m) ==> Current(pictures, m).None?
    ensures Current(pictures, m).Some? ==>
      var n := Current(pictures, m).value;
      var p, r := pictures[n], Decide(Latest(pictures, m), last, fragmentSize, clock, buffered);
      var due := Low32(n) != last && clock - (p.publishedUs / 1000) as real <= 100.0;
      && Quiet(pictures, m) && Latest(pictures, m) == HeaderOf(n, p)
      && (r.Send? <==> due && CeilDiv(|p.data|, fragmentSize) <= 65535 && buffered <= HIGH_WATERMARK)
      && (r.Drop? <==> due && CeilDiv(|p.data|, fragmentSize) > 65535)
      && (r.Drop? ==> r.frameId == Low32(n)) && !r.SkipControl?
  {
    hide All, Completed, Quiet, CeilDiv, Low32;
  }

  lemma IndexStands(pictures: seq<Picture>, m: nat)
    requires Quiet(pictures, m)
    ensures At(pictures, m, Header(WRITE_IDX)) == Latest(pictures, m)[WRITE_IDX]
  {
    QuietHeader(pictures, m, WRITE_IDX);
    hide All, At, Quiet, Completed, HeaderOf;
  }

  /** A frame the gateway sends is one publication, whole, recent, and not the one it sent last; and the current
      publication is sent whenever nothing disturbs the reading and nothing speaks against it. */
  method NextFrame(view: View, last: int, fragmentSize: nat, clock: real, buffered: nat)
    returns (r: Turn, ghost when: nat)
    requires view.Valid() && fragmentSize > 0
    modifies view
    ensures view.Valid() && old(view.now) <= when <= view.now
    ensures Brief(view.pictures, old(view.now), view.now) && r.Send? ==>
      && Current(view.pictures, when).Some?
      && var n := Current(view.pictures, when).value;
        var p := view.pictures[n];
        && r == Send(Low32(n), p.data, p.publishedUs / 1000, CeilDiv(|p.data|, fragmentSize))
        && r.frameId != last && r.fragments <= 65535
    ensures r.Send? ==>
      r.frameId != last && clock - r.published as real <= 100.0 && r.fragments <= 65535 && buffered <= HIGH_WATERMARK
    ensures view.now == old(view.now) ==>
      match Current(view.pictures, view.now)
      case None => r == Wait
      case Some(n) =>
        var p := view.pictures[n];
        var due := Low32(n) != last && clock - (p.publishedUs / 1000) as real <= 100.0;
        && (r.Send? <==> due && CeilDiv(|p.data|, fragmentSize) <= 65535 && buffered <= HIGH_WATERMARK)
        && (r.Drop? <==> due && CeilDiv(|p.data|, fragmentSize) > 65535)
        && (r.Drop? ==> r.frameId == Low32(n)) && !r.SkipControl?
  {
    hide All, At, Value, Completed, Quiet, ReadAt, Current, Brief, Latest, Low32;
    ghost var began := view.now;
    NothingIsBrief(view.pictures, began);
    var stable, whenStable := ReadStableHeader(view);
    r, when := Wait, whenStable;
    if view.now == began { DecidesExactly(view.pictures, began, last, fragmentSize, clock, buffered); }
    if stable.None? { return; }
    var h := stable.value;
    ghost var settled := view.now;
    r := Decide(h, last, fragmentSize, clock, buffered);
    assert r.Send? ==> r.frameId != last && clock - r.published as real <= 100.0 && buffered <= HIGH_WATERMARK;
    if !r.Send? { return; }
    var copy, copyAt := view.LoadAll(DataArea, h[FRAME_SIZE]);
    ghost var copied := view.now;
    var again := view.Load(Header(WRITE_IDX));
    if view.now == began && Quiet(view.pictures, began) { IndexStands(view.pictures, began); }
    if again != h[WRITE_IDX] { r := Wait; return; }
    r := r.(data := copy);
    if Brief(view.pictures, began, view.now) {
      BriefInside(view.pictures, began, began, settled, view.now);
      BriefInside(view.pictures, began, when, view.now, view.now);
      RecheckedRead(view.pictures, h, copy, copyAt, when, settled, copied, view.now);
    }
  }
}
