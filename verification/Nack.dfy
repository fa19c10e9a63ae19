/** Generic negative acknowledgements, section 6.2.1 of RFC 4585: a list of missing packets coded into parts of
    one packet identifier and a mask for the sixteen after it. */
module NackCoding {
  import opened Wrappers
  import opened MachineWords

  datatype Part = Part(pid: U16, blp: U16)

  /** The mask with one bit set. */
  function WithBit(mask: nat, bit: nat): nat {
    if mask / Power2(bit) % 2 == 1 then mask else mask + Power2(bit)
  }

  // ---- coding ----

  predicate StartsPart(parts: seq<Part>, missing: U16) {
    parts == [] || missing < parts[|parts| - 1].pid || missing > parts[|parts| - 1].pid as int + 16
  }

  /** A number that fits the last part sets its bit; one equal to its identifier is not coded again. */
  function Add(parts: seq<Part>, missing: U16): seq<Part>
    requires parts != [] ==> missing != parts[|parts| - 1].pid
  {
    if StartsPart(parts, missing) then parts + [Part(missing, 0)]
    else
      var last := parts[|parts| - 1];
      parts[..|parts| - 1] + [last.(blp := Low16(WithBit(last.blp, missing - (1 + last.pid as int))))]
  }

  // ---- decoding ----

  function Bits(mask: nat, i: int): seq<U16> {
    if mask == 0 then [] else (if mask % 2 == 1 then [Low16(i)] else []) + Bits(mask / 2, i + 1)
  }

  function Numbers(p: Part): seq<U16> { [p.pid] + Bits(p.blp, p.pid as int + 1) }

  function AllNumbers(parts: seq<Part>): seq<U16> {
    if parts == [] then [] else AllNumbers(parts[..|parts| - 1]) + Numbers(parts[|parts| - 1])
  }

  /** The loop over the mask; the number it keeps has sixteen bits. */
  method GetSequenceNumbers(p: Part) returns (result: seq<U16>)
    ensures result == Numbers(p)
  {
    result := [p.pid];
    var bitmask: nat := p.blp;
    var i := Low16(p.pid as int + 1);
    ghost var n := p.pid as int + 1;
    assert Bits(0, n) == [];
    while bitmask > 0
      invariant i == Low16(n) && result + Bits(bitmask, n) == Numbers(p)
      decreases bitmask
    {
      BitsFirst(bitmask, n);
      Added16(n, 1);
      if bitmask % 2 == 1 { result := result + [i]; }
      i := Low16(i as int + 1);
      n := n + 1;
      bitmask := bitmask / 2;
    }
  }

  // ---- proofs ----

  lemma {:induction false} TopBit(mask: nat, bit: nat, i: int)
    requires mask < Power2(bit)
    ensures Bits(mask + Power2(bit), i) == Bits(mask, i) + [Low16(i + bit)]
    decreases bit
  {
    if bit == 0 {
      OneBit(i);
    } else {
      var half := Power2(bit - 1);
      assert (mask + 2 * half) / 2 == mask / 2 + half && (mask + 2 * half) % 2 == mask % 2;
      TopBit(mask / 2, bit - 1, i + 1);
      hide Low16;
      BitsFirst(mask, i);
      BitsFirst(mask + 2 * half, i);
    }
  }

  lemma OneBit(i: int)
    ensures Bits(1, i) == [Low16(i)] && Bits(0, i) == []
  {
    assert Bits(0, i + 1) == [];
  }

  lemma BitsFirst(mask: nat, i: int)
    ensures Bits(mask, i) == (if mask % 2 == 1 then [Low16(i)] else []) + Bits(mask / 2, i + 1)
  {
    if mask == 0 { OneBit(i + 1); }
  }

  lemma NewBit(mask: nat, bit: nat)
    requires mask < Power2(bit)
    ensures WithBit(mask, bit) == mask + Power2(bit)
  {
    Small(mask, Power2(bit));
  }

  lemma Small(a: nat, b: nat)
    requires a < b
    ensures a / b == 0
  {
  }

  lemma {:induction false} PowerGrows(a: nat, b: nat)
    requires a <= b
    ensures Power2(a) <= Power2(b)
  {
    if a < b { PowerGrows(a, b - 1); }
  }

  /** True numbers of a list that increases by less than one round of the sixteen-bit counter. */
  ghost predicate Increasing(numbers: seq<nat>) {
    && (forall i, j :: 0 <= i < j < |numbers| ==> numbers[i] < numbers[j])
    && (forall i, j :: 0 <= i < |numbers| && 0 <= j < |numbers| ==> numbers[j] < numbers[i] + 0x1_0000)
  }

  function Wrapped(numbers: seq<nat>): (r: seq<U16>)
    ensures |r| == |numbers| && forall i :: 0 <= i < |r| ==> r[i] == Low16(numbers[i])
  {
    seq(|numbers|, i requires 0 <= i < |numbers| => Low16(numbers[i]))
  }

  /** The last part began with the number `base` and has no bit beyond the number `last`. */
  ghost predicate Open(parts: seq<Part>, base: nat, last: nat) {
    && parts != [] && base <= last && parts[|parts| - 1].pid == Low16(base)
    && (last - base <= 16 ==> parts[|parts| - 1].blp < Power2(last - base))
  }

  /** A number that fits the last part goes to its true distance from it. */
  lemma FitsWhere(pid: U16, base: nat, n: nat)
    requires pid == Low16(base) && base < n < base + 0x1_0000
    ensures Low16(n) != pid
    ensures Low16(n) > pid ==> Low16(n) - pid == n - base
  {
    Apart16(base, n);
  }

  /** The bit of the next number extends what the part lists by that number. */
  lemma SetBit(p: Part, base: nat, last: nat, n: nat)
    requires p.pid == Low16(base) && base <= last < n <= base + 16 && p.blp < Power2(last - base) && Low16(n) > p.pid
    ensures var q := p.(blp := Low16(WithBit(p.blp, n - base - 1)));
      Numbers(q) == Numbers(p) + [Low16(n)] && q.blp < Power2(n - base)
  {
    var bit := n - base - 1;
    FitsWhere(p.pid, base, n);
    PowerGrows(last - base, bit);
    PowerGrows(bit + 1, 16);
    PowersOfTwo();
    assert Power2(bit + 1) == 2 * Power2(bit);
    Added16(base, 1 + bit);
    hide Power2, WithBit, Bits;
    NewBit(p.blp, bit);
    TopBit(p.blp, bit, p.pid as int + 1);
    assert Low16(p.pid as int + 1 + bit) == Low16(n);
    Of16(p.blp + Power2(bit), 0, p.blp + Power2(bit));
    hide Low16;
    assert [p.pid] + (Bits(p.blp, p.pid as int + 1) + [Low16(n)]) == Numbers(p) + [Low16(n)];
  }

  lemma AddOne(parts: seq<Part>, base: nat, last: nat, n: nat) returns (base': nat)
    requires Open(parts, base, last) && last < n < base + 0x1_0000
    ensures Low16(n) != parts[|parts| - 1].pid
    ensures var r := Add(parts, Low16(n));
      AllNumbers(r) == AllNumbers(parts) + [Low16(n)] && Open(r, base', n) && base <= base' <= n
  {
    var p := parts[|parts| - 1];
    var x := Low16(n);
    FitsWhere(p.pid, base, n);
    var r := Add(parts, x);
    if StartsPart(parts, x) {
      base' := n;
      assert r[..|parts|] == parts;
      assert Numbers(Part(x, 0)) == [x] by { assert Bits(0, x as int + 1) == []; }
      assert Power2(0) == 1;
    } else {
      base' := base;
      SetBit(p, base, last, n);
      hide Numbers, Low16, WithBit, Power2;
      assert r[..|parts| - 1] == parts[..|parts| - 1];
      assert AllNumbers(parts[..|parts| - 1]) + (Numbers(p) + [x]) == AllNumbers(parts) + [x];
    }
  }

  function Encode(missing: seq<U16>): Option<seq<Part>> {
    if missing == [] then Some([])
    else
      var before := Encode(missing[..|missing| - 1]);
      var x := missing[|missing| - 1];
      if before.None? then None
      else
        var parts := before.value;
        if parts != [] && x == parts[|parts| - 1].pid then None else Some(Add(parts, x))
  }

  lemma {:induction false} EncodeOpen(numbers: seq<nat>) returns (base: nat)
    requires Increasing(numbers) && numbers != []
    ensures var e := Encode(Wrapped(numbers));
      && e.Some? && AllNumbers(e.value) == Wrapped(numbers)
      && Open(e.value, base, numbers[|numbers| - 1]) && numbers[0] <= base <= numbers[|numbers| - 1]
  {
    hide Low16, Add, AllNumbers, Open, Encode, Wrapped;
    var k := |numbers| - 1;
    if k == 0 {
      base := OneOpen(numbers);
    } else {
      WithinOneRound(numbers);
      hide Increasing;
      var b := EncodeOpen(numbers[..k]);
      var parts := Encode(Wrapped(numbers[..k])).value;
      OpenIsNotEmpty(parts, b, numbers[k - 1]);
      base := AddOne(parts, b, numbers[k - 1], numbers[k]);
      EncodeMore(Wrapped(numbers[..k]), parts, Low16(numbers[k]));
      WrappedMore(numbers);
    }
  }

  lemma WrappedMore(numbers: seq<nat>)
    requires numbers != []
    ensures var k := |numbers| - 1; Wrapped(numbers) == Wrapped(numbers[..k]) + [Low16(numbers[k])]
  {
    hide Low16;
  }

  lemma OneOpen(numbers: seq<nat>) returns (base: nat)
    requires |numbers| == 1
    ensures base == numbers[0] && Encode(Wrapped(numbers)).Some?
    ensures var e := Encode(Wrapped(numbers)).value; AllNumbers(e) == Wrapped(numbers) && Open(e, base, base)
  {
    base := numbers[0];
    EncodeFirst(Low16(base));
    assert Wrapped(numbers) == [Low16(base)];
    hide Low16, AllNumbers, Encode, Wrapped;
    assert Power2(0) == 1;
  }

  lemma WithinOneRound(numbers: seq<nat>)
    requires Increasing(numbers) && |numbers| > 1
    ensures numbers[|numbers| - 2] < numbers[|numbers| - 1] < numbers[0] + 0x1_0000
    ensures Increasing(numbers[..|numbers| - 1])
  {
  }

  lemma OpenIsNotEmpty(parts: seq<Part>, base: nat, last: nat)
    requires Open(parts, base, last)
    ensures parts != []
  {
  }

  lemma EncodeMore(missing: seq<U16>, parts: seq<Part>, x: U16)
    requires Encode(missing) == Some(parts) && (parts != [] ==> x != parts[|parts| - 1].pid)
    ensures Encode(missing + [x]) == Some(Add(parts, x))
  {
    hide Add;
    assert (missing + [x])[..|missing|] == missing;
  }

  lemma EncodeFirst(x: U16)
    ensures Encode([x]) == Some([Part(x, 0)]) && AllNumbers([Part(x, 0)]) == [x]
  {
    var missing := [x];
    assert missing[..0] == [] && Encode(missing[..0]) == Some([]);
    assert Add([], x) == [Part(x, 0)];
    assert Encode(missing) == Some(Add([], x));
    assert [Part(x, 0)][..0] == [];
    assert Bits(0, x as int + 1) == [];
  }

  /** The round trip: missing packets listed in the order of their true numbers, spanning less than one round of
      the counter and wrapping where they may, are coded into parts that list exactly them, in that order. */
  lemma MissingListRoundTrip(numbers: seq<nat>)
    requires Increasing(numbers)
    ensures Encode(Wrapped(numbers)).Some? && AllNumbers(Encode(Wrapped(numbers)).value) == Wrapped(numbers)
  {
    if numbers == [] {
      assert Wrapped(numbers) == [];
    } else {
      var _ := EncodeOpen(numbers);
    }
  }

  /** No part more than needed: each identifier is out of reach of the part before it. */
  lemma {:induction false} PartsApart(missing: seq<U16>)
    requires Encode(missing).Some?
    ensures var parts := Encode(missing).value;
      forall i :: 0 < i < |parts| ==> parts[i].pid < parts[i - 1].pid || parts[i].pid > parts[i - 1].pid + 16
    decreases |missing|
  {
    if missing != [] {
      PartsApart(missing[..|missing| - 1]);
      hide WithBit;
    }
  }

  /** The message under construction. */
  class NackBuilder {
    var parts: seq<Part>
    var pid: U16

    ghost predicate Valid()
      reads this
    {
      parts != [] ==> pid == parts[|parts| - 1].pid
    }

    constructor ()
      ensures Valid() && parts == []
    {
      parts, pid := [], 0;
    }

    method AddMissingPacket(missing: U16) returns (added: bool)
      requires Valid() && (parts != [] ==> missing != pid)
      modifies this
      ensures Valid() && parts == Add(old(parts), missing) && (added <==> |parts| == |old(parts)| + 1)
    {
      if parts == [] || missing < pid || missing > pid as int + 16 {
        parts := parts + [Part(missing, 0)];
        pid := missing;
        return true;
      }
      var last := parts[|parts| - 1];
      var bit := missing - (1 + pid as int);
      parts := parts[..|parts| - 1] + [last.(blp := Low16(WithBit(last.blp, bit)))];
      return false;
    }
  }
}
