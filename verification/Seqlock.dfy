/** The latest-frame memory: what the capture process stores, in order, and what a cell holds at any moment.
    Time is counted in stores of the writer; loads see the stores made before them. */
module SharedMemory {
  import opened Wrappers
  import opened Protocol
  import opened Octets
  import opened MachineWords

  type U64 = x: int | 0 <= x < 0x1_0000_0000_0000_0000

  /** Header fields in address order, payload bytes, and words of the timing record. */
  datatype Cell = Header(field: nat) | Data(index: nat) | Timing(word: nat)

  const FRAME_ID := 0
  const FRAG_TOTAL := 1
  const FRAG_SIZE := 2
  const FRAME_SIZE := 3
  const WRITE_IDX := 4
  const READ_IDX := 5
  const FLAGS := 6
  const MOTION_THRESHOLD := 7
  const KEYFRAME_INTERVAL := 8
  const LAST_FEEDBACK_TIME := 9
  const HEADER_FIELDS := 10
  const TIMING_WORDS := 7

  const TIMING_MAGIC := 0x314d4954
  const FRAGMENT_MAX_SIZE := 24 * 1024
  const MAX_PUBLISHED := 128 * 1024 * 1024 - 64 - 48

  datatype Store = Store(cell: Cell, value: int)

  /** A captured picture that passed the checks made before it is published. */
  datatype Captured = Captured(data: seq<Byte>, cameraSequence: U32, cameraFlags: U32,
                               driverUs: U64, dequeuedUs: U64, publishedUs: U64) {
    predicate LooksLikeJpeg() { 4 <= |data| <= MAX_PUBLISHED && data[0] == 0xff && data[1] == 0xd8 }
  }

  type Picture = c: Captured | c.LooksLikeJpeg() witness Captured([0xff, 0xd8, 0, 0], 0, 0, 0, 0, 0)

  /** The header and timing record of the publication with this number. */
  function HeaderOf(number: nat, p: Picture): seq<int> {
    [Low32(number), CeilDiv(|p.data|, FRAGMENT_MAX_SIZE), FRAGMENT_MAX_SIZE, |p.data|,
     Low32(2 * (number + 1)), 0, 2, 0, 0, p.publishedUs / 1000]
  }

  function TimingOf(number: nat, p: Picture): seq<int> {
    [TIMING_MAGIC, Low32(number), p.cameraSequence, p.cameraFlags, p.driverUs, p.dequeuedUs, p.publishedUs]
  }

  // ---- what one publication stores ----

  function Copied(data: seq<Byte>): (r: seq<Store>)
    ensures |r| == |data| && forall i :: 0 <= i < |data| ==> r[i] == Store(Data(i), data[i])
  {
    if data == [] then [] else Copied(data[..|data| - 1]) + [Store(Data(|data| - 1), data[|data| - 1])]
  }

  function Described(number: nat, p: Picture): (r: seq<Store>)
    ensures |r| == 15 && forall i :: 0 <= i < |r| ==> !r[i].cell.Data? && r[i].cell != Header(WRITE_IDX)
  {
    var h, t := HeaderOf(number, p), TimingOf(number, p);
    [Store(Header(FRAG_TOTAL), h[1]), Store(Header(FRAG_SIZE), h[2]), Store(Header(FRAME_SIZE), h[3]),
     Store(Header(FLAGS), h[6]), Store(Header(MOTION_THRESHOLD), h[7]), Store(Header(KEYFRAME_INTERVAL), h[8]),
     Store(Timing(0), t[0]), Store(Timing(1), t[1]), Store(Timing(2), t[2]), Store(Timing(3), t[3]),
     Store(Timing(4), t[4]), Store(Timing(5), t[5]), Store(Timing(6), t[6]),
     Store(Header(LAST_FEEDBACK_TIME), h[9]), Store(Header(FRAME_ID), h[0])]
  }

  function Stores(number: nat, p: Picture): seq<Store> {
    [Store(Header(WRITE_IDX), Low32(2 * number + 1))] + Copied(p.data) + Described(number, p)
    + [Store(Header(WRITE_IDX), Low32(2 * (number + 1)))]
  }

  /** Everything one capture process stores. */
  function All(pictures: seq<Picture>): seq<Store> {
    if pictures == [] then []
    else All(pictures[..|pictures| - 1]) + Stores(|pictures| - 1, pictures[|pictures| - 1])
  }

  // ---- what a cell holds ----

  function Value(stores: seq<Store>, c: Cell): int {
    if stores == [] then 0
    else if stores[|stores| - 1].cell == c then stores[|stores| - 1].value
    else Value(stores[..|stores| - 1], c)
  }

  function At(pictures: seq<Picture>, m: nat, c: Cell): int
    requires m <= |All(pictures)|
  {
    Value(All(pictures)[..m], c)
  }

  /** How many publications are complete. */
  ghost function Completed(pictures: seq<Picture>, m: nat): (k: nat)
    ensures k <= |pictures|
  {
    if pictures == [] then 0
    else if m >= |All(pictures)| then |pictures|
    else Completed(pictures[..|pictures| - 1], m)
  }

  /** The moment the first k publications are complete. */
  ghost function Start(pictures: seq<Picture>, k: nat): nat
    requires k <= |pictures|
  {
    |All(pictures[..k])|
  }

  // ---- proofs ----

  lemma {:induction false} LastStore(stores: seq<Store>, i: nat, c: Cell)
    requires i < |stores| && stores[i].cell == c && forall j :: i < j < |stores| ==> stores[j].cell != c
    ensures Value(stores, c) == stores[i].value
  {
    if i < |stores| - 1 { LastStore(stores[..|stores| - 1], i, c); }
  }

  lemma {:induction false} Appended(a: seq<Store>, b: seq<Store>, c: Cell)
    ensures (exists i :: 0 <= i < |b| && b[i].cell == c) ==> Value(a + b, c) == Value(b, c)
    ensures (forall i :: 0 <= i < |b| ==> b[i].cell != c) ==> Value(a + b, c) == Value(a, c)
  {
    if b == [] {
      assert a + b == a;
    } else {
      var front := b[..|b| - 1];
      assert (a + b)[..|a + b| - 1] == a + front;
      Appended(a, front, c);
      if i :| 0 <= i < |b| && b[i].cell == c { assert i < |b| - 1 ==> front[i].cell == c; }
    }
  }

  /** Where in a publication each cell gets its value. */
  lemma Layout(k: nat, p: Picture)
    ensures var b, n := Stores(k, p), 1 + |p.data|;
      && |b| == n + 16
      && b[0] == Store(Header(WRITE_IDX), Low32(2 * k + 1)) && b[n + 15] == Store(Header(WRITE_IDX), Low32(2 * (k + 1)))
      && (forall i :: 0 <= i < |p.data| ==> b[1 + i] == Store(Data(i), p.data[i]))
      && (forall j :: n <= j < n + 15 ==> b[j] == Described(k, p)[j - n])
  {
    hide Described, HeaderOf;
  }

  /** The last store of one cell in a publication decides what it holds afterwards. */
  lemma HeldBy(before: seq<Store>, k: nat, p: Picture, at: nat, c: Cell)
    requires at < |Stores(k, p)| && Stores(k, p)[at].cell == c
    requires forall j :: at < j < |Stores(k, p)| ==> Stores(k, p)[j].cell != c
    ensures Value(before + Stores(k, p), c) == Stores(k, p)[at].value
  {
    hide Stores;
    LastStore(Stores(k, p), at, c);
    Appended(before, Stores(k, p), c);
  }

  lemma HeaderStored(before: seq<Store>, k: nat, p: Picture, f: nat)
    requires f < HEADER_FIELDS && f != READ_IDX
    ensures Value(before + Stores(k, p), Header(f)) == HeaderOf(k, p)[f]
  {
    var n := 1 + |p.data|;
    var at := if f == WRITE_IDX then n + 15 else if f == FRAME_ID then n + 14
              else if f == LAST_FEEDBACK_TIME then n + 13
              else if f < WRITE_IDX then n + f - 1 else n + f - 3;
    Layout(k, p);
    hide Stores, Value;
    HeldBy(before, k, p, at, Header(f));
  }

  lemma DataStored(before: seq<Store>, k: nat, p: Picture, i: nat)
    requires i < |p.data|
    ensures Value(before + Stores(k, p), Data(i)) == p.data[i]
  {
    Layout(k, p);
    hide Stores, Value;
    forall j | 1 + i < j < |Stores(k, p)| ensures Stores(k, p)[j].cell != Data(i) {
      if j <= |p.data| { assert Stores(k, p)[1 + (j - 1)].cell == Data(j - 1); }
    }
    HeldBy(before, k, p, 1 + i, Data(i));
  }

  lemma TimingStored(before: seq<Store>, k: nat, p: Picture, w: nat)
    requires w < TIMING_WORDS
    ensures Value(before + Stores(k, p), Timing(w)) == TimingOf(k, p)[w]
  {
    Layout(k, p);
    hide Stores, Value;
    HeldBy(before, k, p, 1 + |p.data| + 6 + w, Timing(w));
  }

  /** Just after a publication the memory holds exactly that publication. */
  lemma HeldAfter(pictures: seq<Picture>)
    requires pictures != []
    ensures var k, p := |pictures| - 1, pictures[|pictures| - 1];
      && (forall f :: 0 <= f < HEADER_FIELDS && f != READ_IDX ==> Value(All(pictures), Header(f)) == HeaderOf(k, p)[f])
      && (forall i :: 0 <= i < |p.data| ==> Value(All(pictures), Data(i)) == p.data[i])
      && (forall w :: 0 <= w < TIMING_WORDS ==> Value(All(pictures), Timing(w)) == TimingOf(k, p)[w])
  {
    var k, p := |pictures| - 1, pictures[|pictures| - 1];
    var before := All(pictures[..k]);
    assert All(pictures) == before + Stores(k, p);
    hide Stores, Value, All, HeaderOf, TimingOf;
    forall f | 0 <= f < HEADER_FIELDS && f != READ_IDX ensures Value(All(pictures), Header(f)) == HeaderOf(k, p)[f] {
      HeaderStored(before, k, p, f);
    }
    forall i | 0 <= i < |p.data| ensures Value(All(pictures), Data(i)) == p.data[i] {
      DataStored(before, k, p, i);
    }
    forall w | 0 <= w < TIMING_WORDS ensures Value(All(pictures), Timing(w)) == TimingOf(k, p)[w] {
      TimingStored(before, k, p, w);
    }
  }

  lemma NeverAmong(k: nat, p: Picture, j: nat)
    requires j < |Stores(k, p)|
    ensures Stores(k, p)[j].cell != Header(READ_IDX)
  {
    Layout(k, p);
    var b, n := Stores(k, p), 1 + |p.data|;
    hide Stores;
    if 0 < j < n { assert b[1 + (j - 1)].cell == Data(j - 1); }
  }

  lemma {:induction false} NeverStored(pictures: seq<Picture>)
    ensures Value(All(pictures), Header(READ_IDX)) == 0
  {
    if pictures != [] {
      hide Stores;
      var k := |pictures| - 1;
      NeverStored(pictures[..k]);
      forall j | 0 <= j < |Stores(k, pictures[k])| ensures Stores(k, pictures[k])[j].cell != Header(READ_IDX) {
        NeverAmong(k, pictures[k], j);
      }
      Appended(All(pictures[..k]), Stores(k, pictures[k]), Header(READ_IDX));
    }
  }

  /** The whole header: nothing before the first publication, that publication's afterwards. */
  lemma HeaderHeld(pictures: seq<Picture>)
    ensures forall f :: 0 <= f < HEADER_FIELDS ==>
      Value(All(pictures), Header(f)) ==
        if pictures == [] then 0 else HeaderOf(|pictures| - 1, pictures[|pictures| - 1])[f]
  {
    NeverStored(pictures);
    if pictures != [] { HeldAfter(pictures); }
  }

  lemma {:induction false} PrefixOfAll(pictures: seq<Picture>, k: nat)
    requires k <= |pictures|
    ensures |All(pictures[..k])| <= |All(pictures)| && All(pictures)[..|All(pictures[..k])|] == All(pictures[..k])
    decreases |pictures|
  {
    hide Stores;
    if k == |pictures| {
      assert pictures[..k] == pictures;
    } else {
      var front, last := pictures[..|pictures| - 1], Stores(|pictures| - 1, pictures[|pictures| - 1]);
      PrefixOfAll(front, k);
      assert front[..k] == pictures[..k];
      assert All(pictures) == All(front) + last;
      hide All;
      TakeAppended(All(front), last, |All(pictures[..k])|);
    }
  }

  lemma TakeAppended<T>(a: seq<T>, b: seq<T>, n: nat)
    requires n <= |a|
    ensures (a + b)[..n] == a[..n]
  {
  }

  /** In the middle of a publication the write index is odd. */
  lemma OddInside(pictures: seq<Picture>, m: nat)
    requires pictures != [] && |All(pictures[..|pictures| - 1])| < m < |All(pictures)|
    ensures At(pictures, m, Header(WRITE_IDX)) % 2 == 1
  {
    var k := |pictures| - 1;
    var before, b := All(pictures[..k]), Stores(k, pictures[k]);
    var part := b[..m - |before|];
    assert All(pictures) == before + b;
    hide Stores, Value, All;
    assert All(pictures)[..m] == before + part;
    OddPart(k, pictures[k], m - |before|);
    Appended(before, part, Header(WRITE_IDX));
  }

  lemma OddWord(k: nat)
    ensures Low32(2 * k + 1) % 2 == 1
  {
    Doubled32(k);
  }

  lemma OddPart(k: nat, p: Picture, n: nat)
    requires 0 < n < |Stores(k, p)|
    ensures var part := Stores(k, p)[..n];
      part[0].cell == Header(WRITE_IDX) && Value(part, Header(WRITE_IDX)) % 2 == 1
  {
    var part := Stores(k, p)[..n];
    OddWord(k);
    Layout(k, p);
    hide *;
    LastStore(part, 0, Header(WRITE_IDX));
  }

  /** An even write index is seen only between publications, and it counts them, modulo 32 bits. */
  lemma {:induction false} EvenBetween(pictures: seq<Picture>, m: nat)
    requires m <= |All(pictures)| && At(pictures, m, Header(WRITE_IDX)) % 2 == 0
    ensures var k := Completed(pictures, m);
      m == Start(pictures, k) && At(pictures, m, Header(WRITE_IDX)) == Low32(2 * k)
    decreases |pictures|
  {
    hide Stores, Value, All, HeaderOf;
    if m == |All(pictures)| {
      AllHeld(pictures);
    } else {
      assert pictures != [] by { EmptyAll(); }
      var front := pictures[..|pictures| - 1];
      PrefixOfAll(pictures, |front|);
      if m > |All(front)| { OddInside(pictures, m); }
      assert All(pictures)[..m] == All(front)[..m];
      EvenBetween(front, m);
      assert front[..Completed(front, m)] == pictures[..Completed(front, m)];
    }
  }

  lemma EmptyAll()
    ensures All([]) == []
  {
  }

  lemma AllHeld(pictures: seq<Picture>)
    ensures At(pictures, |All(pictures)|, Header(WRITE_IDX)) == Low32(2 * |pictures|)
    ensures Start(pictures, |pictures|) == |All(pictures)| == Start(pictures, Completed(pictures, |All(pictures)|))
  {
    HeaderHeld(pictures);
    hide Stores, Value, All;
    assert All(pictures)[..|All(pictures)|] == All(pictures) && pictures[..|pictures|] == pictures;
    hide At;
    if pictures == [] { EmptyAll(); }
  }

  lemma {:induction false} CompletedMonotone(pictures: seq<Picture>, m: nat, n: nat)
    requires m <= n
    ensures Completed(pictures, m) <= Completed(pictures, n)
  {
    if pictures != [] && n < |All(pictures)| { CompletedMonotone(pictures[..|pictures| - 1], m, n); }
  }

  lemma DoubledWords(a: nat, b: nat)
    ensures Low32(2 * a) == Low32(2 * b) <==> (b - a) % 0x8000_0000 == 0
  {
    Doubled32(a);
    Doubled32(b);
    Difference31(a, b);
  }

  /** Two even readings of the write index agree exactly when the number of publications between them is a
      multiple of 2^31. */
  lemma AgreeExactly(pictures: seq<Picture>, m: nat, n: nat)
    requires m <= n <= |All(pictures)|
    requires At(pictures, m, Header(WRITE_IDX)) % 2 == 0 && At(pictures, n, Header(WRITE_IDX)) % 2 == 0
    ensures At(pictures, m, Header(WRITE_IDX)) == At(pictures, n, Header(WRITE_IDX)) <==>
      (Completed(pictures, n) - Completed(pictures, m)) % 0x8000_0000 == 0
  {
    hide At, All, Low32, Completed, Value, Start;
    EvenBetween(pictures, m);
    EvenBetween(pictures, n);
    DoubledWords(Completed(pictures, m), Completed(pictures, n));
  }

  /** The seqlock: two equal even readings with fewer than 2^31 publications between them mean that the writer
      has stored nothing at all between them. */
  lemma Certified(pictures: seq<Picture>, m: nat, n: nat)
    requires m <= n <= |All(pictures)|
    requires At(pictures, m, Header(WRITE_IDX)) == At(pictures, n, Header(WRITE_IDX))
    requires At(pictures, m, Header(WRITE_IDX)) % 2 == 0
    requires Completed(pictures, n) - Completed(pictures, m) < 0x8000_0000
    ensures m == n == Start(pictures, Completed(pictures, m))
  {
    hide At, All, Low32, Completed;
    EvenBetween(pictures, m);
    EvenBetween(pictures, n);
    CompletedMonotone(pictures, m, n);
    AgreeExactly(pictures, m, n);
  }

  /** No publication is under way. */
  ghost predicate Quiet(pictures: seq<Picture>, m: nat) {
    m <= |All(pictures)| && m == Start(pictures, Completed(pictures, m))
  }

  /** A load made while no publication is under way returns what the last complete one stored. */
  lemma QuietLoad(pictures: seq<Picture>, m: nat, c: Cell)
    requires Quiet(pictures, m)
    ensures At(pictures, m, c) == Value(All(pictures[..Completed(pictures, m)]), c)
  {
    PrefixOfAll(pictures, Completed(pictures, m));
  }

  lemma QuietHeader(pictures: seq<Picture>, m: nat, f: nat)
    requires Quiet(pictures, m) && f < HEADER_FIELDS
    ensures var k := Completed(pictures, m);
      At(pictures, m, Header(f)) == if k == 0 then 0 else HeaderOf(k - 1, pictures[k - 1])[f]
  {
    var k := Completed(pictures, m);
    QuietLoad(pictures, m, Header(f));
    hide All, Value, HeaderOf, At, Quiet, Completed;
    HeaderHeld(pictures[..k]);
  }

  lemma QuietData(pictures: seq<Picture>, m: nat, i: nat)
    requires Quiet(pictures, m) && Completed(pictures, m) > 0
    requires i < |pictures[Completed(pictures, m) - 1].data|
    ensures At(pictures, m, Data(i)) == pictures[Completed(pictures, m) - 1].data[i]
  {
    QuietLoad(pictures, m, Data(i));
    hide All, Value, HeaderOf, At, Quiet, Completed;
    HeldAfter(pictures[..Completed(pictures, m)]);
  }

  lemma QuietTiming(pictures: seq<Picture>, m: nat, w: nat)
    requires Quiet(pictures, m) && Completed(pictures, m) > 0 && w < TIMING_WORDS
    ensures var k := Completed(pictures, m);
      At(pictures, m, Timing(w)) == TimingOf(k - 1, pictures[k - 1])[w]
  {
    QuietLoad(pictures, m, Timing(w));
    hide All, Value, HeaderOf, At, Quiet, Completed, TimingOf;
    HeldAfter(pictures[..Completed(pictures, m)]);
  }
}
