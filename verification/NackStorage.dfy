/** The packets kept for retransmission: a linked list from the oldest to the newest, and a map into it. */
module NackStorage {
  import opened Wrappers
  import opened NackCoding
  import opened MachineWords

  datatype Packet = Packet(sequenceNumber: U16, data: seq<int>)

  class Element {
    const packet: Packet
    const sequenceNumber: U16
    var next: Element?

    constructor (packet: Packet)
      ensures this.packet == packet && sequenceNumber == packet.sequenceNumber && next == null
    {
      this.packet, sequenceNumber, next := packet, packet.sequenceNumber, null;
    }
  }

  // ---- what is kept, as values ----

  /** The packets of the list, from the oldest on, and those the map leads to. */
  datatype Kept = Kept(packets: seq<Packet>, index: map<U16, Packet>)

  /** Emplacing does not replace; the oldest packet goes, with its number, when the map has grown too large. */
  function Stored(k: Kept, p: Packet, maxSize: nat): Kept {
    var packets := if k.index == map[] then [p] else k.packets + [p];
    var index := if p.sequenceNumber in k.index then k.index else k.index[p.sequenceNumber := p];
    if |index| > maxSize then Kept(packets[1..], index - {packets[0].sequenceNumber}) else Kept(packets, index)
  }

  function StoredAll(history: seq<Packet>, maxSize: nat): Kept {
    if history == [] then Kept([], map[])
    else Stored(StoredAll(history[..|history| - 1], maxSize), history[|history| - 1], maxSize)
  }

  /** The packets resent for a list of requested numbers, in the order of the requests. */
  function Resent(index: map<U16, Packet>, missing: seq<U16>): seq<Packet> {
    if missing == [] then []
    else
      var n := missing[|missing| - 1];
      Resent(index, missing[..|missing| - 1]) + (if n in index then [index[n]] else [])
  }

  // ---- the object ----

  class Storage {
    const maxSize: nat
    var storage: map<U16, Element>
    var oldest: Element?
    var newest: Element?
    ghost var list: seq<Element>

    /** The list runs from the oldest element to the newest one, and the map leads to elements of it. */
    ghost predicate Valid()
      reads this, list
    {
      && 0 < maxSize && Chained(list) && Leads(storage, list)
      && (if list == [] then oldest == null && newest == null else oldest == list[0] && newest == list[|list| - 1])
      && (list != [] ==> storage != map[])
    }

    ghost function Value(): Kept
      reads `list, `storage
    {
      Kept(Packets(list), Index(storage))
    }

    constructor (maxSize: nat)
      requires 0 < maxSize
      ensures Valid() && Value() == Kept([], map[]) && this.maxSize == maxSize
    {
      this.maxSize := maxSize;
      storage, oldest, newest, list := map[], null, null, [];
    }

    method Get(n: U16) returns (r: Option<Packet>)
      ensures r == if n in Value().index then Some(Value().index[n]) else None
    {
      if n in storage { return Some(storage[n].packet); }
      return None;
    }

    /** Adds to the end of the list. */
    method Link(current: Element)
      requires Valid() && current !in list && current.next == null
      modifies `oldest, `newest, `list, list
      ensures list == old(list) + [current] && Chained(list) && oldest == list[0] && newest == current
    {
      assert |storage| == 0 <==> list == [] by { LeadsNowhere(storage, list); }
      hide Leads;
      if |storage| == 0 {
        newest := current;
        oldest := newest;
      } else {
        newest.next := current;
        newest := current;
      }
      list := list + [current];
    }

    /** Drops the oldest element. */
    method DropOldest()
      requires Chained(list) && |list| > 1 && oldest == list[0] && newest == list[|list| - 1] && Leads(storage, list)
      requires 0 < maxSize < |storage|
      modifies `storage, `oldest, `list
      ensures Valid() && list == old(list)[1..] && storage == old(storage) - {old(list)[0].sequenceNumber}
    {
      hide Chained, Leads;
      LeadsOn(storage, list);
      ChainTail(list);
      OneGone(storage, oldest.sequenceNumber);
      ghost var rest := list[1..];
      storage := storage - {oldest.sequenceNumber};
      Shorten(rest);
    }

    method Shorten(ghost rest: seq<Element>)
      requires rest != [] && Chained(rest) && oldest != null && oldest.next == rest[0] && newest == rest[|rest| - 1]
      requires 0 < maxSize && Leads(storage, rest) && storage != map[]
      modifies `oldest, `list
      ensures list == rest && Valid()
    {
      hide Chained, Leads;
      oldest := oldest.next;
      list := rest;
    }

    /** The map keeps the element it already has under the same number. */
    method Emplace(ghost before: seq<Element>)
      requires newest != null && list == before + [newest] && newest.sequenceNumber == newest.packet.sequenceNumber
      requires Leads(storage, before) && (before == [] <==> storage == map[])
      modifies `storage
      ensures Leads(storage, list) && storage != map[]
      ensures Stored(Kept(Packets(before), Index(old(storage))), newest.packet, maxSize) ==
        if |storage| > maxSize then Kept(Packets(list[1..]), Index(storage - {list[0].sequenceNumber})) else Value()
    {
      LeadsMore(storage, before, newest);
      StoredLinks(storage, before, newest, maxSize);
      hide Leads, Packets, Index, Stored;
      if newest.sequenceNumber !in storage { storage := storage[newest.sequenceNumber := newest]; }
    }

    method Append(packet: Packet)
      requires Valid()
      modifies `oldest, `newest, `list, `storage, list
      ensures Chained(list) && Leads(storage, list) && |list| == |old(list)| + 1
      ensures oldest == list[0] && newest == list[|list| - 1] && storage != map[]
      ensures Stored(old(Value()), packet, maxSize) ==
        if |storage| > maxSize then Kept(Packets(list[1..]), Index(storage - {list[0].sequenceNumber})) else Value()
    {
      hide Leads, Packets, Index, Stored, Chained;
      LeadsNowhere(storage, list);
      ghost var before := list;
      var current := new Element(packet);
      Link(current);
      Emplace(before);
    }

    method Store(packet: Packet)
      requires Valid()
      modifies this, list
      ensures Valid() && Value() == Stored(old(Value()), packet, maxSize)
    {
      assert 0 < maxSize;
      hide *;
      Append(packet);
      if |storage| > maxSize {
        AtLeastTwo(storage, list);
        DropOldest();
      }
    }

    /** Answers a request: exactly the packets the map leads to among the requested ones are resent. */
    method Respond(parts: seq<Part>) returns (sent: seq<Packet>)
      ensures sent == Resent(Value().index, AllNumbers(parts))
    {
      hide Numbers, Packets, Index;
      var missing := [];
      for i := 0 to |parts|
        invariant missing == AllNumbers(parts[..i])
      {
        assert parts[..i + 1][..i] == parts[..i];
        var numbers := GetSequenceNumbers(parts[i]);
        missing := missing + numbers;
      }
      assert parts[..|parts|] == parts;
      sent := [];
      for i := 0 to |missing|
        invariant sent == Resent(Value().index, missing[..i])
      {
        assert missing[..i + 1][..i] == missing[..i];
        var packet := Get(missing[i]);
        if packet.Some? { sent := sent + [packet.value]; }
      }
      assert missing[..|missing|] == missing;
    }
  }

  // ---- list and map ----

  function Packets(list: seq<Element>): (r: seq<Packet>)
    ensures |r| == |list| && forall i :: 0 <= i < |r| ==> r[i] == list[i].packet
  {
    seq(|list|, i requires 0 <= i < |list| => list[i].packet)
  }

  function Index(storage: map<U16, Element>): map<U16, Packet> {
    map n | n in storage :: storage[n].packet
  }

  /** Distinct elements, each leading to the next and carrying the number of its packet. */
  ghost predicate Chained(list: seq<Element>)
    reads list
  {
    && (forall i, j :: 0 <= i < j < |list| ==> list[i] != list[j])
    && (forall i :: 0 <= i < |list| - 1 ==> list[i].next == list[i + 1])
    && (list != [] ==> list[|list| - 1].next == null)
  }

  ghost predicate Leads(storage: map<U16, Element>, list: seq<Element>) {
    && (forall n :: n in storage ==> storage[n] in list && storage[n].sequenceNumber == n)
    && (forall e :: e in list ==> e.sequenceNumber == e.packet.sequenceNumber)
  }

  lemma ChainTail(list: seq<Element>)
    requires Chained(list) && |list| > 1
    ensures Chained(list[1..]) && list[0].next == list[1]
  {
    var rest := list[1..];
    forall i | 0 <= i < |rest| - 1 ensures rest[i].next == rest[i + 1] {
      assert rest[i] == list[i + 1] && rest[i + 1] == list[i + 2];
    }
    assert list[0].next == list[1];
  }

  lemma LeadsNowhere(storage: map<U16, Element>, list: seq<Element>)
    requires Leads(storage, list) && (list != [] ==> storage != map[])
    ensures list == [] <==> storage == map[]
  {
  }

  lemma LeadsMore(storage: map<U16, Element>, list: seq<Element>, e: Element)
    requires Leads(storage, list) && e.sequenceNumber == e.packet.sequenceNumber
    ensures Leads(if e.sequenceNumber in storage then storage else storage[e.sequenceNumber := e], list + [e])
  {
  }

  lemma LeadsOn(storage: map<U16, Element>, list: seq<Element>)
    requires Leads(storage, list) && list != []
    ensures Leads(storage - {list[0].sequenceNumber}, list[1..])
  {
    forall n | n in storage && n != list[0].sequenceNumber ensures storage[n] in list[1..] {
      var i :| 0 <= i < |list| && list[i] == storage[n];
      assert i > 0 && list[1..][i - 1] == list[i];
    }
  }

  lemma AtLeastTwo(storage: map<U16, Element>, list: seq<Element>)
    requires Leads(storage, list) && |storage| > 1
    ensures |list| > 1
  {
    if |list| <= 1 {
      var numbers := if list == [] then {} else {list[0].sequenceNumber};
      assert storage.Keys <= numbers;
      SmallerSet(storage.Keys, numbers);
    }
  }

  lemma {:induction false} SmallerSet<T>(a: set<T>, b: set<T>)
    requires a <= b
    ensures |a| <= |b|
  {
    if a != {} {
      var x :| x in a;
      SmallerSet(a - {x}, b - {x});
    }
  }

  lemma OneGone<T, U>(m: map<T, U>, n: T)
    ensures |m - {n}| == |m| - (if n in m then 1 else 0)
  {
    assert (m - {n}).Keys == m.Keys - {n};
  }

  lemma IndexMore(storage: map<U16, Element>, e: Element)
    ensures Index(storage[e.sequenceNumber := e]) == Index(storage)[e.sequenceNumber := e.packet]
  {
  }

  lemma IndexLess(storage: map<U16, Element>, n: U16)
    ensures Index(storage - {n}) == Index(storage) - {n}
  {
  }

  lemma IndexSize(storage: map<U16, Element>)
    ensures |Index(storage)| == |storage| && Index(storage).Keys == storage.Keys
    ensures Index(storage) == map[] <==> storage == map[]
  {
    assert Index(storage).Keys == storage.Keys;
    assert |Index(storage)| == |Index(storage).Keys| && |storage| == |storage.Keys|;
  }

  /** What linking and emplacing, and dropping if it comes to that, make of the values. */
  lemma StoredLinks(storage: map<U16, Element>, list: seq<Element>, e: Element, maxSize: nat)
    requires (list == [] <==> storage == map[]) && e.sequenceNumber == e.packet.sequenceNumber
    requires forall x :: x in list ==> x.sequenceNumber == x.packet.sequenceNumber
    ensures var more := list + [e];
      var next := if e.sequenceNumber in storage then storage else storage[e.sequenceNumber := e];
      Stored(Kept(Packets(list), Index(storage)), e.packet, maxSize) ==
        if |next| > maxSize then Kept(Packets(more[1..]), Index(next - {more[0].sequenceNumber}))
        else Kept(Packets(more), Index(next))
  {
    var more := list + [e];
    var next := if e.sequenceNumber in storage then storage else storage[e.sequenceNumber := e];
    assert Packets(more) == (if list == [] then [e.packet] else Packets(list) + [e.packet]);
    assert Packets(more[1..]) == Packets(more)[1..] && more[0] in more;
    assert Packets(more)[0].sequenceNumber == more[0].sequenceNumber;
    hide Packets, Index;
    IndexSize(storage);
    IndexSize(next);
    IndexMore(storage, e);
    IndexLess(next, more[0].sequenceNumber);
  }

  // ---- when exactly the last packets are kept ----

  /** The last packets of a history. */
  function Last(history: seq<Packet>, size: nat): (r: seq<Packet>)
    ensures |r| == Min(|history|, size)
  {
    history[|history| - Min(|history|, size)..]
  }

  ghost predicate Carried(packets: seq<Packet>, n: U16) {
    exists i :: 0 <= i < |packets| && packets[i].sequenceNumber == n
  }

  ghost predicate Distinct(packets: seq<Packet>) {
    forall i, j :: 0 <= i < j < |packets| ==> packets[i].sequenceNumber != packets[j].sequenceNumber
  }

  /** The numbers are distinct, and the map leads to each packet and to nothing else. */
  ghost predicate Indexed(packets: seq<Packet>, index: map<U16, Packet>) {
    && Distinct(packets) && |index| == |packets|
    && (forall i :: 0 <= i < |packets| ==>
          packets[i].sequenceNumber in index && index[packets[i].sequenceNumber] == packets[i])
    && (forall n :: n in index ==> Carried(packets, n))
  }

  /** The list holds the last packets of the history, and the map leads to exactly those. */
  ghost predicate Exact(k: Kept, history: seq<Packet>, size: nat) {
    k.packets == Last(history, size) && Indexed(k.packets, k.index)
  }

  /** One packet more, and one fewer when there were as many as permitted. */
  lemma LastMore(history: seq<Packet>, size: nat, packet: Packet)
    requires size > 0
    ensures var next := Last(history, size) + [packet];
      Last(history + [packet], size) == if |history| >= size then next[1..] else next
  {
    var next := Last(history, size) + [packet];
    var skipped := |history| - Min(|history|, size);
    assert next == (history + [packet])[skipped..];
  }

  /** A packet with a number that is not kept leaves exactly the last packets kept; one with a number that is kept
      is not found afterwards, the older one is. */
  lemma StoredExactly(k: Kept, history: seq<Packet>, size: nat, p: Packet)
    requires Exact(k, history, size) && size > 0
    ensures Exact(Stored(k, p, size), history + [p], size) <==> p.sequenceNumber !in k.index
    ensures p.sequenceNumber in k.index ==> Stored(k, p, size).index == k.index
  {
    EmptyTogether(k);
    assert |k.index| == |k.packets| <= size;
    if p.sequenceNumber in k.index {
      Repeated(k.packets, k.index, p);
      hide Last, Distinct;
      assert Stored(k, p, size) == Kept(k.packets + [p], k.index);
    } else {
      IndexedMore(k.packets, k.index, p);
      hide Indexed;
      FreshStored(k, history, size, p);
    }
  }

  lemma EmptyTogether(k: Kept)
    requires Indexed(k.packets, k.index)
    ensures k.index == map[] <==> k.packets == []
  {
    if k.packets != [] { assert k.packets[0].sequenceNumber in k.index; }
  }

  /** Storing a new number, without and with the oldest packet going. */
  lemma StoredUnfold(k: Kept, size: nat, p: Packet)
    requires p.sequenceNumber !in k.index && (k.index == map[] <==> k.packets == [])
    ensures var next, index := k.packets + [p], k.index[p.sequenceNumber := p];
      && (|k.index| < size ==> Stored(k, p, size) == Kept(next, index))
      && (|k.index| >= size ==> Stored(k, p, size) == Kept(next[1..], index - {next[0].sequenceNumber}))
  {
    OneMore(k.index, p.sequenceNumber, p);
    assert k.packets == [] ==> k.packets + [p] == [p];
  }

  lemma FreshStored(k: Kept, history: seq<Packet>, size: nat, p: Packet)
    requires size > 0 && p.sequenceNumber !in k.index && k.packets == Last(history, size)
    requires |k.index| == |k.packets| <= size && (k.index == map[] <==> k.packets == [])
    requires Indexed(k.packets + [p], k.index[p.sequenceNumber := p])
    ensures Exact(Stored(k, p, size), history + [p], size)
  {
    hide Indexed, Stored;
    StoredUnfold(k, size, p);
    LastMore(history, size, p);
    hide Last;
    assert |k.index| == Min(|history|, size);
    var next, index := k.packets + [p], k.index[p.sequenceNumber := p];
    if |k.index| < size {
      assert Last(history + [p], size) == next;
    } else {
      IndexedLess(next, index);
      assert Last(history + [p], size) == next[1..];
    }
  }

  lemma Repeated(packets: seq<Packet>, index: map<U16, Packet>, p: Packet)
    requires Indexed(packets, index) && p.sequenceNumber in index
    ensures !Distinct(packets + [p])
  {
    assert Carried(packets, p.sequenceNumber);
    var i :| 0 <= i < |packets| && packets[i].sequenceNumber == p.sequenceNumber;
    var next := packets + [p];
    assert next[i].sequenceNumber == next[|packets|].sequenceNumber;
  }

  lemma OneMore<T, U>(m: map<T, U>, n: T, x: U)
    requires n !in m
    ensures |m[n := x]| == |m| + 1
  {
    assert m[n := x].Keys == m.Keys + {n};
  }

  lemma IndexedMore(packets: seq<Packet>, index: map<U16, Packet>, p: Packet)
    requires Indexed(packets, index) && p.sequenceNumber !in index
    ensures Indexed(packets + [p], index[p.sequenceNumber := p])
  {
    OneMore(index, p.sequenceNumber, p);
    var next := packets + [p];
    forall n | n in index[p.sequenceNumber := p] ensures Carried(next, n) {
      if n == p.sequenceNumber {
        assert next[|packets|].sequenceNumber == n;
      } else {
        assert Carried(packets, n);
        var i :| 0 <= i < |packets| && packets[i].sequenceNumber == n;
        assert next[i].sequenceNumber == n;
      }
    }
  }

  lemma DistinctTail(packets: seq<Packet>)
    requires Distinct(packets) && packets != []
    ensures Distinct(packets[1..])
    ensures forall i :: 0 < i < |packets| ==> packets[i].sequenceNumber != packets[0].sequenceNumber
  {
  }

  lemma IndexedLess(packets: seq<Packet>, index: map<U16, Packet>)
    requires Indexed(packets, index) && packets != []
    ensures Indexed(packets[1..], index - {packets[0].sequenceNumber})
  {
    OneGone(index, packets[0].sequenceNumber);
    DistinctTail(packets);
    var rest := packets[1..];
    hide Distinct;
    assert forall i :: 0 <= i < |rest| ==> rest[i] == packets[i + 1];
    forall n | n in index - {packets[0].sequenceNumber} ensures Carried(rest, n) {
      assert Carried(packets, n);
      var i :| 0 <= i < |packets| && packets[i].sequenceNumber == n;
      assert rest[i - 1].sequenceNumber == n;
    }
  }

  // ---- consecutive packets ----

  /** Packets with consecutive true numbers from `base` on. */
  ghost predicate NumberedFrom(history: seq<Packet>, base: nat) {
    forall i :: 0 <= i < |history| ==> history[i].sequenceNumber == Low16(base + i)
  }

  lemma ApartNumbers(m: nat, n: nat)
    requires m < n < m + 0x1_0000
    ensures Low16(m) != Low16(n)
  {
    Apart16(m, n);
  }

  /** The number after the last packets, fewer than 2^16 of them, is new. */
  lemma NextIsNew(history: seq<Packet>, base: nat, size: nat, k: Kept, p: Packet)
    requires NumberedFrom(history + [p], base) && Exact(k, history, size) && (size <= 0xffff || |history| <= 0xffff)
    ensures p.sequenceNumber !in k.index
  {
    hide Low16;
    assert (history + [p])[|history|].sequenceNumber == Low16(base + |history|);
    if p.sequenceNumber in k.index {
      assert Carried(k.packets, p.sequenceNumber);
      var i :| 0 <= i < |k.packets| && k.packets[i].sequenceNumber == p.sequenceNumber;
      var j := |history| - |k.packets| + i;
      assert k.packets[i] == (history + [p])[j];
      ApartNumbers(base + j, base + |history|);
    }
  }

  lemma NothingKept(size: nat)
    ensures Exact(Kept([], map[]), [], size)
  {
  }

  lemma {:induction false} ConsecutiveKept(history: seq<Packet>, base: nat, size: nat)
    requires NumberedFrom(history, base) && 0 < size && (size <= 0xffff || |history| <= 0x1_0000)
    ensures Exact(StoredAll(history, size), history, size)
  {
    hide Low16, Exact, Stored;
    if history == [] {
      NothingKept(size);
    } else {
      var front, p := history[..|history| - 1], history[|history| - 1];
      ConsecutiveKept(front, base, size);
      assert history == front + [p];
      hide NumberedFrom;
      NextIsNew(front, base, size, StoredAll(front, size), p);
      StoredExactly(StoredAll(front, size), front, size, p);
    }
  }

  lemma {:induction false} WordsBelow(s: set<int>, n: nat)
    requires forall x :: x in s ==> 0 <= x < n
    ensures |s| <= n
  {
    if n > 0 {
      WordsBelow(s - {n - 1}, n - 1);
    } else {
      assert forall x :: x !in s;
      assert s == {};
    }
  }

  lemma AtMostAllWords<T>(m: map<U16, T>)
    ensures |m| <= 0x1_0000
  {
    var s: set<int> := set n: U16 | n in m :: n as int;
    assert forall n: U16 :: n in m.Keys ==> (n as int) in s;
    WordsBelow(s, 0x1_0000);
    assert m.Keys == s;
  }

  /** With room for a whole round of numbers, nothing ever goes. */
  lemma {:induction false} NothingGoes(history: seq<Packet>, size: nat)
    requires size > 0xffff
    ensures StoredAll(history, size).packets == history
    ensures StoredAll(history, size).index == map[] <==> history == []
  {
    if history != [] {
      var front, p := history[..|history| - 1], history[|history| - 1];
      NothingGoes(front, size);
      var k := StoredAll(front, size);
      var index := if p.sequenceNumber in k.index then k.index else k.index[p.sequenceNumber := p];
      AtMostAllWords(index);
      assert p.sequenceNumber in index && history == front + [p];
    }
  }

  /** Of consecutive packets exactly the last ones are kept, if and only if fewer than 2^16 are to be kept or the
      numbers have not come round yet. */
  lemma ConsecutiveKeptExactly(history: seq<Packet>, base: nat, size: nat)
    requires NumberedFrom(history, base) && size > 0
    ensures Exact(StoredAll(history, size), history, size) <==> size <= 0xffff || |history| <= 0x1_0000
  {
    if size <= 0xffff || |history| <= 0x1_0000 {
      ConsecutiveKept(history, base, size);
    } else {
      NothingGoes(history, size);
      AtMostAllWords(StoredAll(history, size).index);
    }
  }

  // ---- requests ----

  /** The packets with these true numbers, as far as they are among the last ones. */
  function Wanted(history: seq<Packet>, base: nat, size: nat, numbers: seq<nat>): seq<Packet> {
    if numbers == [] then []
    else
      var n := numbers[|numbers| - 1];
      var first := base + |history| - Min(|history|, size);
      Wanted(history, base, size, numbers[..|numbers| - 1])
      + (if first <= n < base + |history| then [history[n - base]] else [])
  }

  lemma FindByNumber(history: seq<Packet>, base: nat, size: nat, k: Kept, n: nat)
    requires NumberedFrom(history, base) && Exact(k, history, size) && size <= 0xffff
    requires base + |history| - 0x1_0000 <= n < base + |history|
    ensures var first := base + |history| - Min(|history|, size);
      if first <= n then Low16(n) in k.index && k.index[Low16(n)] == history[n - base] else Low16(n) !in k.index
  {
    hide Low16, Distinct;
    var first := base + |history| - |k.packets|;
    if first <= n {
      assert k.packets[n - first] == history[n - base];
    } else if Low16(n) in k.index {
      assert Carried(k.packets, Low16(n));
      var i :| 0 <= i < |k.packets| && k.packets[i].sequenceNumber == Low16(n);
      assert k.packets[i] == history[first + i - base];
      ApartNumbers(n, first + i);
    }
  }

  /** Of the last 2^16 numbers before `end`. */
  ghost predicate Recent(numbers: seq<nat>, end: nat) {
    forall i :: 0 <= i < |numbers| ==> end - 0x1_0000 <= numbers[i] < end
  }

  lemma {:induction false} WantedIsResent(history: seq<Packet>, base: nat, size: nat, k: Kept, numbers: seq<nat>)
    requires NumberedFrom(history, base) && size <= 0xffff && Exact(k, history, size)
    requires Recent(numbers, base + |history|)
    ensures Resent(k.index, Wrapped(numbers)) == Wanted(history, base, size, numbers)
    decreases |numbers|
  {
    if numbers != [] {
      hide Exact, Last, NumberedFrom, Low16, Min;
      var n := |numbers| - 1;
      WantedIsResent(history, base, size, k, numbers[..n]);
      FindByNumber(history, base, size, k, numbers[n]);
      WrappedMore(numbers);
      assert Wrapped(numbers)[..n] == Wrapped(numbers[..n]);
      hide Wrapped, Recent;
    }
  }

  /** Request and storage together: a peer that lists the packets it misses, of the last 2^16 sent, gets exactly
      those that are still kept, in the order of the request. */
  lemma RequestedAreResent(history: seq<Packet>, base: nat, size: nat, numbers: seq<nat>)
    requires NumberedFrom(history, base) && 0 < size <= 0xffff && Increasing(numbers)
    requires Recent(numbers, base + |history|)
    ensures var parts := Encode(Wrapped(numbers));
      && parts.Some?
      && Resent(StoredAll(history, size).index, AllNumbers(parts.value)) == Wanted(history, base, size, numbers)
  {
    MissingListRoundTrip(numbers);
    ConsecutiveKept(history, base, size);
    hide Exact, NumberedFrom, Recent;
    WantedIsResent(history, base, size, StoredAll(history, size), numbers);
  }
}
