/** The capture process: publishFrame stores one picture into the latest-frame memory, store by store. */
module SeqlockWriter {
  import opened Wrappers
  import opened Protocol
  import opened Octets
  import opened SharedMemory
  import opened MachineWords

  class Publisher {
    const header: array<int>
    const payload: array<Byte>
    const timing: array<int>
    var writeSeq: U32
    var frameId: U32
    /** Every store made so far, and the pictures published. */
    ghost var log: seq<Store>
    ghost var pictures: seq<Picture>

    ghost predicate Mirrors()
      reads this`log, header, payload, timing
    {
      && header.Length == HEADER_FIELDS && payload.Length == MAX_PUBLISHED && timing.Length == TIMING_WORDS
      && header != timing
      && (forall f :: 0 <= f < HEADER_FIELDS ==> header[f] == Value(log, Header(f)))
      && (forall i :: 0 <= i < MAX_PUBLISHED ==> payload[i] == Value(log, Data(i)))
      && (forall w :: 0 <= w < TIMING_WORDS ==> timing[w] == Value(log, Timing(w)))
    }

    /** Between calls: the stores are those of the pictures published, and the counters count them. */
    ghost predicate Valid()
      reads this, header, payload, timing
    {
      Mirrors() && log == All(pictures) && writeSeq == Low32(|pictures|) && frameId == Low32(|pictures|)
    }

    constructor ()
      ensures Valid() && pictures == [] && fresh(header) && fresh(payload) && fresh(timing)
    {
      header := new int[HEADER_FIELDS](_ => 0);
      payload := new Byte[MAX_PUBLISHED](_ => 0);
      timing := new int[TIMING_WORDS](_ => 0);
      writeSeq, frameId := 0, 0;
      log, pictures := [], [];
    }

    method PutHeader(f: nat, v: int)
      requires Mirrors() && f < HEADER_FIELDS
      modifies header, this`log
      ensures Mirrors() && log == old(log) + [Store(Header(f), v)]
    {
      header[f] := v;
      log := log + [Store(Header(f), v)];
      StoredOne(old(log), Store(Header(f), v));
    }

    method PutTiming(w: nat, v: int)
      requires Mirrors() && w < TIMING_WORDS
      modifies timing, this`log
      ensures Mirrors() && log == old(log) + [Store(Timing(w), v)]
    {
      timing[w] := v;
      log := log + [Store(Timing(w), v)];
      StoredOne(old(log), Store(Timing(w), v));
    }

    method CopyPayload(data: seq<Byte>)
      requires Mirrors() && |data| <= MAX_PUBLISHED
      modifies payload, this`log
      ensures Mirrors() && log == old(log) + Copied(data)
    {
      var i := 0;
      while i < |data|
        invariant i <= |data| && Mirrors() && log == old(log) + Copied(data[..i])
      {
        hide Value;
        payload[i] := data[i];
        StoredOne(log, Store(Data(i), data[i]));
        log := log + [Store(Data(i), data[i])];
        assert data[..i + 1][..i] == data[..i];
        i := i + 1;
      }
      assert data[..i] == data;
    }

    method DescribeFrame(ghost number: nat, p: Picture)
      requires Mirrors()
      modifies header, this`log
      ensures Mirrors() && log == old(log) + Described(number, p)[..6]
    {
      hide Mirrors, Value;
      PutHeader(FRAG_TOTAL, (|p.data| + FRAGMENT_MAX_SIZE - 1) / FRAGMENT_MAX_SIZE);
      PutHeader(FRAG_SIZE, FRAGMENT_MAX_SIZE);
      PutHeader(FRAME_SIZE, |p.data|);
      PutHeader(FLAGS, 2);
      PutHeader(MOTION_THRESHOLD, 0);
      PutHeader(KEYFRAME_INTERVAL, 0);
    }

    method DescribeTimes(ghost number: nat, p: Picture)
      requires Mirrors() && frameId == Low32(number)
      modifies timing, this`log
      ensures Mirrors() && log == old(log) + Described(number, p)[6..13]
    {
      hide Mirrors, Value;
      PutTiming(0, TIMING_MAGIC);
      PutTiming(1, frameId);
      PutTiming(2, p.cameraSequence);
      PutTiming(3, p.cameraFlags);
      PutTiming(4, p.driverUs);
      PutTiming(5, p.dequeuedUs);
      PutTiming(6, p.publishedUs);
    }

    method DescribeIdentity(ghost number: nat, p: Picture)
      requires Mirrors() && frameId == Low32(number)
      modifies header, this`log
      ensures Mirrors() && log == old(log) + Described(number, p)[13..]
    {
      PutHeader(LAST_FEEDBACK_TIME, p.publishedUs / 1000);
      PutHeader(FRAME_ID, frameId);
    }

    method StoreBody(ghost number: nat, p: Picture)
      requires Mirrors() && frameId == Low32(number)
      modifies this`log, header, payload, timing
      ensures Mirrors()
      ensures log == old(log) + Copied(p.data)
        + Described(number, p)[..6] + Described(number, p)[6..13] + Described(number, p)[13..]
    {
      hide Mirrors, Value, Described, Copied, Low32;
      CopyPayload(p.data);
      DescribeFrame(number, p);
      DescribeTimes(number, p);
      DescribeIdentity(number, p);
    }

    /** The stores of one publication, from the odd write index to the even one. */
    method StoreAll(ghost number: nat, p: Picture)
      requires Mirrors() && writeSeq == Low32(number) && frameId == Low32(number)
      modifies this, header, payload, timing
      ensures Mirrors() && log == old(log) + Stores(number, p) && pictures == old(pictures)
      ensures writeSeq == Low32(number + 1) && frameId == Low32(number)
    {
      hide Mirrors, Value, Described, Copied, Low32, Stores;
      NextWords(number);
      OneByOne(log, number, p);
      PutHeader(WRITE_IDX, writeSeq * 2 % 0x1_0000_0000 + 1);
      StoreBody(number, p);
      writeSeq := (writeSeq + 1) % 0x1_0000_0000;
      PutHeader(WRITE_IDX, writeSeq * 2 % 0x1_0000_0000);
    }

    /** One publication more, and nothing else. */
    method Publish(p: Picture)
      requires Valid()
      modifies this, header, payload, timing
      ensures Valid() && pictures == old(pictures) + [p]
    {
      hide Mirrors, Value, All, Low32, Stores;
      ghost var number := |pictures|;
      AllGrows(pictures, p);
      StoreAll(number, p);
      NextNumber(number);
      frameId := (frameId + 1) % 0x1_0000_0000;
      pictures := pictures + [p];
    }
  }

  lemma NextNumber(number: nat)
    ensures (Low32(number) + 1) % 0x1_0000_0000 == Low32(number + 1)
  {
    Added32(number, 1);
  }

  lemma StoredOne(log: seq<Store>, s: Store)
    ensures forall c :: Value(log + [s], c) == if c == s.cell then s.value else Value(log, c)
  {
    assert (log + [s])[..|log|] == log;
  }

  /** The parts of a publication, in order, are the publication. */
  lemma OneByOne(log: seq<Store>, number: nat, p: Picture)
    ensures var d := Described(number, p);
      log + [Store(Header(WRITE_IDX), Low32(2 * number + 1))] + Copied(p.data) + d[..6] + d[6..13] + d[13..]
      + [Store(Header(WRITE_IDX), Low32(2 * (number + 1)))] == log + Stores(number, p)
  {
    hide Described, Copied, Low32;
    var d := Described(number, p);
    assert d[..6] + d[6..13] + d[13..] == d;
  }

  lemma AllGrows(pictures: seq<Picture>, p: Picture)
    ensures All(pictures + [p]) == All(pictures) + Stores(|pictures|, p)
  {
    assert (pictures + [p])[..|pictures|] == pictures;
  }

  /** The counters keep 32 bits; the write index is twice the counter, in 32 bits, and its low bit is free. */
  lemma NextWords(number: nat)
    ensures Low32(number) * 2 % 0x1_0000_0000 + 1 == Low32(2 * number + 1)
    ensures (Low32(number) + 1) % 0x1_0000_0000 == Low32(number + 1)
    ensures (Low32(number) + 1) % 0x1_0000_0000 * 2 % 0x1_0000_0000 == Low32(2 * (number + 1))
  {
    Doubled32(number);
    Doubled32(number + 1);
    Added32(number, 1);
    DoubledLow(number);
    DoubledLow(number + 1);
  }

  lemma DoubledLow(n: nat)
    ensures Low32(n) * 2 % 0x1_0000_0000 == 2 * (n % 0x8000_0000)
  {
    var q, r := n / 0x8000_0000, n % 0x8000_0000;
    var p, b := q / 2, q % 2;
    Of32(n, p, b * 0x8000_0000 + r);
    Of32(Low32(n) * 2, b, 2 * r);
  }
}
