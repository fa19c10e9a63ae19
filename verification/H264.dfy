/** H.264 over RTP: length-prefixed units are split out of a message, cut into FU-A fragments where they are too
    long, and put together again. Byte layouts are those of sections 5.3 and 5.8 of RFC 6184. */
module H264 {
  import opened Wrappers
  import opened Octets
  import opened MachineWords

  const STAP_A := 24
  const FU_A := 28

  function TypeOf(header: Byte): (t: nat)
    ensures t < 0x20
  {
    header % 0x20
  }

  /** The importance bits, in place. */
  function Idc(header: Byte): nat { header / 0x20 % 4 * 0x20 }

  // ---- splitting a message ----

  /** Four bytes of length, then the unit; what is incomplete at the end is ignored. */
  function Split(message: seq<Byte>): seq<seq<Byte>>
    decreases |message|
  {
    if |message| <= 4 then []
    else
      var length := FromBigEndian(message[..4]);
      if 4 + length > |message| then [] else [message[4..4 + length]] + Split(message[4 + length..])
  }

  function Prefixed(units: seq<seq<Byte>>): seq<Byte> {
    if units == [] then [] else BigEndian(|units[0]|, 4) + units[0] + Prefixed(units[1..])
  }

  ghost predicate Units(units: seq<seq<Byte>>) {
    forall i :: 0 <= i < |units| ==> 0 < |units[i]| < 0x1_0000_0000
  }

  lemma {:induction false} SplitRoundTrip(units: seq<seq<Byte>>)
    requires Units(units)
    ensures Split(Prefixed(units)) == units
  {
    if units != [] {
      var u, rest := units[0], Prefixed(units[1..]);
      var message := BigEndian(|u|, 4) + u + rest;
      assert Power(4) == 0x1_0000_0000;
      BigEndianRoundTrip(|u|, 4);
      hide BigEndian, FromBigEndian;
      assert message[..4] == BigEndian(|u|, 4) && message[4..4 + |u|] == u && message[4 + |u|..] == rest;
      SplitRoundTrip(units[1..]);
    }
  }

  /** The first unit behind an index, if it is complete. */
  lemma SplitFirst(message: seq<Byte>, index: nat)
    requires index <= |message|
    ensures if index + 4 < |message| && index + 4 + FromBigEndian(message[index..index + 4]) <= |message| then
        var end := index + 4 + FromBigEndian(message[index..index + 4]);
        Split(message[index..]) == [message[index + 4..end]] + Split(message[end..])
      else Split(message[index..]) == []
  {
    var rest := message[index..];
    if |rest| > 4 {
      assert rest[..4] == message[index..index + 4];
      var end := 4 + FromBigEndian(rest[..4]);
      hide FromBigEndian;
      if end <= |rest| {
        assert rest[4..end] == message[index + 4..index + end] && rest[end..] == message[index + end..];
      }
    }
  }

  /** The loop over a message. */
  method SplitMessage(message: seq<Byte>) returns (units: seq<seq<Byte>>)
    ensures units == Split(message)
  {
    hide FromBigEndian, Split;
    units := [];
    var index := 0;
    assert message[0..] == message;
    while index < |message|
      invariant index <= |message| && units + Split(message[index..]) == Split(message)
    {
      SplitFirst(message, index);
      if index + 4 >= |message| { break; }
      var length := FromBigEndian(message[index..index + 4]);
      var end := index + 4 + length;
      if end > |message| { break; }
      units := units + [message[index + 4..end]];
      index := end;
    }
    SplitFirst(message, index);
  }

  // ---- fragmentation ----

  /** Payload bytes in each fragment: the unit is divided evenly, less two bytes of fragment headers, all in
      sixteen bits. */
  function Chunk(size: nat, max: U16): U16
    requires 0 < max < size
  {
    CeilDivBounds(size, max);
    Low16(CeilDiv(size, CeilDiv(size, max)) - 2)
  }

  /** The limits that leave room for the two header bytes and more. */
  predicate Fits(size: nat, max: U16) { max >= 4 || (max == 3 && size != 4) }

  /** The limits for which the fragmenting loop comes to an end within the unit. */
  predicate Advances(size: nat, max: U16) { Fits(size, max) || (max == 1 && size > 0xffff) }

  /** How far the even share of a unit is from the limit. */
  lemma ShareBounds(size: nat, max: U16)
    requires 0 < max < size
    ensures CeilDiv(size, max) > 0
    ensures var share := CeilDiv(size, CeilDiv(size, max));
      && 0 < share <= max && share <= size && (share >= 3 <==> Fits(size, max)) && (max == 2 ==> share == 2)
      && (Fits(size, max) ==> share < size)
  {
    var q := CeilDiv(size, max);
    CeilDivBounds(size, max);
    CeilDivBounds(size, q);
    var r := CeilDiv(size, q);
    assert max < q * max && q * max < size + max && (q - 1) * max == q * max - max;
    Exceeds(q, 1, max);
    assert (max as int + 1) * q == q * max + q && (r - 1) * q == r * q - q && r * q < size + q;
    Exceeds(max as int + 1, r, q);
    if max >= 4 {
      Scale(4, max, q - 1);
      Exceeds(r, 2, q);
    } else if max == 3 {
      if size != 4 { Exceeds(r, 2, q); }
    } else {
      Scale(max, 2, q);
      Exceeds(3, r, q);
      if max == 2 { Exceeds(r, 1, q); }
    }
  }

  lemma Exceeds(a: nat, b: nat, k: nat)
    requires b * k < a * k
    ensures b < a
  {
    if a <= b { Scale(a, b, k); }
  }

  /** When the fragmenting loop ends, and when its fragments are within the limit: always with a limit of four or
      more, and with three but for a unit of four bytes. With two, and with three and four bytes, it makes no
      progress; with one the size wraps round to 65535, which ends the loop for long units only. */
  lemma ChunkExactly(size: nat, max: U16)
    requires 0 < max < size
    ensures 0 < Chunk(size, max) <= size - 1 <==> Advances(size, max)
    ensures 0 < Chunk(size, max) && Chunk(size, max) as int + 2 <= max <==> Fits(size, max)
    ensures Fits(size, max) ==> Chunk(size, max) < size - 1
    ensures max == 1 ==> Chunk(size, max) == 0xffff
  {
    ShareBounds(size, max);
    var share := CeilDiv(size, CeilDiv(size, max));
    hide CeilDiv;
    var rest: int := share as int - 2;
    if share >= 2 { Of16(rest, 0, rest); } else { Of16(rest, -1, 0xffff); }
  }

  lemma Scale(a: nat, b: nat, k: nat)
    requires a <= b
    ensures a * k <= b * k && k * a <= k * b
  {
  }

  datatype Kind = Start | Middle | End

  function FragmentHeader(kind: Kind, unitType: nat): Byte
    requires unitType < 0x20
  {
    (match kind case Start => 0x80 case Middle => 0 case End => 0x40) + unitType
  }

  function Indicator(header: Byte): Byte { header / 0x80 * 0x80 + Idc(header) + FU_A }

  function KindAt(offset: nat, chunk: nat, size: nat): Kind {
    if offset == 0 then Start else if offset + chunk < size then Middle else End
  }

  /** The fragments of a unit from an offset into its payload on. */
  function FragmentsAt(unit: seq<Byte>, chunk: nat, offset: nat): seq<seq<Byte>>
    requires unit != [] && chunk > 0 && offset <= |unit| - 1
    decreases |unit| - offset
  {
    var payload := unit[1..];
    if offset == |payload| then []
    else
      var end := Min(offset + chunk, |payload|);
      [[Indicator(unit[0]), FragmentHeader(KindAt(offset, chunk, |payload|), TypeOf(unit[0]))] + payload[offset..end]]
      + FragmentsAt(unit, chunk, end)
  }

  predicate Sendable(unit: seq<Byte>, max: U16) { |unit| <= max || Advances(|unit|, max) }

  /** What is sent of one unit. */
  function Pieces(unit: seq<Byte>, max: U16): seq<seq<Byte>>
    requires Sendable(unit, max)
  {
    if |unit| <= max then [unit]
    else
      ChunkExactly(|unit|, max);
      FragmentsAt(unit, Chunk(|unit|, max), 0)
  }

  /** The loop over one unit that is too long. */
  method FragmentsFrom(unit: seq<Byte>, max: U16) returns (result: seq<seq<Byte>>)
    requires |unit| > max && Advances(|unit|, max)
    ensures result == Pieces(unit, max)
  {
    hide FragmentsAt, Indicator, FragmentHeader, TypeOf, CeilDiv, Chunk, Pieces, Advances, Low16;
    PieceSize(unit, max);
    var size := Low16(CeilDiv(|unit|, CeilDiv(|unit|, max)) - 2);
    ghost var chunk := size;
    var payload := unit[1..];
    result := [];
    var offset := 0;
    while offset < |payload|
      invariant offset <= |payload| && 0 < size <= chunk && (offset < |payload| ==> size == chunk)
      invariant result + FragmentsAt(unit, chunk, offset) == FragmentsAt(unit, chunk, 0)
    {
      var kind: Kind;
      if offset == 0 {
        kind := Start;
      } else if offset + size < |payload| {
        kind := Middle;
      } else {
        if offset + size > |payload| { size := |payload| - offset; }
        kind := End;
      }
      FragmentFirst(unit, chunk, offset);
      var fragment := [Indicator(unit[0]), FragmentHeader(kind, TypeOf(unit[0]))] + payload[offset..offset + size];
      result := result + [fragment];
      offset := offset + size;
    }
    NoFragments(unit, chunk);
  }

  /** What the loop starts from. */
  lemma PieceSize(unit: seq<Byte>, max: U16)
    requires |unit| > max && Advances(|unit|, max)
    ensures max > 0 && CeilDiv(|unit|, max) > 0
    ensures var size := Low16(CeilDiv(|unit|, CeilDiv(|unit|, max)) - 2);
      0 < size <= |unit| - 1 && Pieces(unit, max) == FragmentsAt(unit, size, 0)
  {
    hide FragmentsAt, CeilDiv;
    ShareBounds(|unit|, max);
    ChunkExactly(|unit|, max);
  }

  lemma FragmentFirst(unit: seq<Byte>, chunk: nat, offset: nat)
    requires unit != [] && chunk > 0 && offset < |unit| - 1
    ensures var payload := unit[1..];
      var end := Min(offset + chunk, |payload|);
      FragmentsAt(unit, chunk, offset) ==
        [[Indicator(unit[0]), FragmentHeader(KindAt(offset, chunk, |payload|), TypeOf(unit[0]))] + payload[offset..end]]
        + FragmentsAt(unit, chunk, end)
  {
    hide Indicator, FragmentHeader, TypeOf;
  }

  lemma NoFragments(unit: seq<Byte>, chunk: nat)
    requires unit != [] && chunk > 0
    ensures FragmentsAt(unit, chunk, |unit| - 1) == []
  {
  }

  ghost predicate Fragment(piece: seq<Byte>, kind: Kind, unit: seq<Byte>, max: U16) {
    && unit != [] && 2 < |piece| <= max && piece[0] == Indicator(unit[0])
    && piece[1] == FragmentHeader(kind, TypeOf(unit[0]))
  }

  lemma {:induction false} FragmentsAtShape(unit: seq<Byte>, chunk: nat, offset: nat, max: U16)
    requires unit != [] && chunk > 0 && offset < |unit| - 1 && chunk + 2 <= max && (offset == 0 ==> chunk < |unit| - 1)
    ensures var f := FragmentsAt(unit, chunk, offset);
      && |f| >= (if offset == 0 then 2 else 1)
      && Fragment(f[|f| - 1], End, unit, max)
      && Fragment(f[0], KindAt(offset, chunk, |unit| - 1), unit, max)
      && (forall i :: 0 < i < |f| - 1 ==> Fragment(f[i], Middle, unit, max))
    decreases |unit| - offset
  {
    var size := |unit| - 1;
    var end := Min(offset + chunk, size);
    var f := FragmentsAt(unit, chunk, offset);
    if end < size {
      FragmentsAtShape(unit, chunk, end, max);
      var rest := FragmentsAt(unit, chunk, end);
      assert f == [f[0]] + rest;
      if KindAt(end, chunk, size) == End {
        LastIsOnly(unit, chunk, end);
      } else {
        forall i | 0 < i < |f| - 1 ensures Fragment(f[i], Middle, unit, max) { assert f[i] == rest[i - 1]; }
      }
    } else {
      assert FragmentsAt(unit, chunk, size) == [];
    }
  }

  lemma LastIsOnly(unit: seq<Byte>, chunk: nat, offset: nat)
    requires unit != [] && chunk > 0 && 0 < offset < |unit| - 1 && offset + chunk >= |unit| - 1
    ensures |FragmentsAt(unit, chunk, offset)| == 1
  {
    assert FragmentsAt(unit, chunk, |unit| - 1) == [];
  }

  /** A unit that is too long is sent in at least two fragments, of which the first alone is marked as the start
      and the last alone as the end, none longer than the limit. */
  lemma PiecesShape(unit: seq<Byte>, max: U16)
    requires |unit| > max && Fits(|unit|, max)
    ensures var f := Pieces(unit, max);
      && |f| >= 2 && Fragment(f[0], Start, unit, max) && Fragment(f[|f| - 1], End, unit, max)
      && forall i :: 0 < i < |f| - 1 ==> Fragment(f[i], Middle, unit, max)
  {
    ChunkExactly(|unit|, max);
    FragmentsAtShape(unit, Chunk(|unit|, max), 0, max);
  }

  predicate AllSendable(units: seq<seq<Byte>>, max: U16) {
    forall i :: 0 <= i < |units| ==> Sendable(units[i], max)
  }

  function AllPieces(units: seq<seq<Byte>>, max: U16): seq<seq<Byte>>
    requires AllSendable(units, max)
  {
    if units == [] then [] else Pieces(units[0], max) + AllPieces(units[1..], max)
  }

  /** The loop over the units of a message. */
  method GenerateFragments(units: seq<seq<Byte>>, max: U16) returns (result: seq<seq<Byte>>)
    requires AllSendable(units, max)
    ensures result == AllPieces(units, max)
  {
    hide Pieces, Advances, AllPieces;
    result := [];
    assert units[0..] == units;
    for i := 0 to |units|
      invariant result + AllPieces(units[i..], max) == AllPieces(units, max)
    {
      assert Sendable(units[i], max);
      AllPiecesFirst(units, i, max);
      ghost var was := result;
      if |units[i]| > max {
        var fragments := FragmentsFrom(units[i], max);
        result := result + fragments;
      } else {
        ShortUnit(units[i], max);
        result := result + [units[i]];
      }
      assert was + (Pieces(units[i], max) + AllPieces(units[i + 1..], max)) == result + AllPieces(units[i + 1..], max);
    }
    NoPieces(max);
  }

  lemma NoPieces(max: U16)
    ensures AllPieces([], max) == []
  {
  }

  lemma AllPiecesFirst(units: seq<seq<Byte>>, i: nat, max: U16)
    requires i < |units| && AllSendable(units, max)
    ensures AllPieces(units[i..], max) == Pieces(units[i], max) + AllPieces(units[i + 1..], max)
  {
    hide Pieces, Advances;
    assert units[i..][1..] == units[i + 1..];
  }

  lemma ShortUnit(unit: seq<Byte>, max: U16)
    requires |unit| <= max
    ensures Pieces(unit, max) == [unit]
  {
  }

  // ---- putting an access unit together ----

  datatype Result<T> = Ok(value: T) | Err(error: string)

  /** Units aggregated in one packet, each with two bytes of length. */
  function Aggregated(data: seq<Byte>, separator: seq<Byte>): Result<seq<Byte>>
    decreases |data|
  {
    if |data| <= 2 then Ok([])
    else
      var high: nat := data[0];
      var size := high * 0x100 + data[1];
      if |data| < 2 + size then Err("H264 STAP-A declared size is larger than buffer")
      else
        match Aggregated(data[2 + size..], separator)
        case Err(e) => Err(e)
        case Ok(rest) => Ok(separator + data[2..2 + size] + rest)
  }

  /** One packet's payload is added to the access unit. */
  function Absorb(unit: seq<Byte>, payload: seq<Byte>, separator: seq<Byte>): Result<seq<Byte>> {
    if payload == [] then Ok(unit)
    else if TypeOf(payload[0]) == FU_A then
      if |payload| < 2 then Err("out of range")
      else
        var begun := if payload[1] >= 0x80 || unit == []
                      then unit + separator + [Idc(payload[0]) + TypeOf(payload[1])] else unit;
        Ok(begun + payload[2..])
    else if 0 < TypeOf(payload[0]) < 24 then Ok(unit + separator + payload)
    else if TypeOf(payload[0]) == STAP_A then
      match Aggregated(payload[1..], separator)
      case Err(e) => Err(e)
      case Ok(data) => Ok(unit + data)
    else Err("Unknown H264 RTP Packetization")
  }

  function Build(unit: seq<Byte>, payloads: seq<seq<Byte>>, separator: seq<Byte>): Result<seq<Byte>>
    decreases |payloads|
  {
    if payloads == [] then Ok(unit)
    else
      match Absorb(unit, payloads[0], separator)
      case Err(e) => Err(e)
      case Ok(more) => Build(more, payloads[1..], separator)
  }

  lemma {:induction false} BuildConcat(
      unit: seq<Byte>, a: seq<seq<Byte>>, b: seq<seq<Byte>>, separator: seq<Byte>, mid: seq<Byte>)
    requires Build(unit, a, separator) == Ok(mid)
    ensures Build(unit, a + b, separator) == Build(mid, b, separator)
    decreases |a|
  {
    hide Absorb;
    if a == [] {
      assert a + b == b;
    } else {
      assert (a + b)[1..] == a[1..] + b;
      BuildConcat(Absorb(unit, a[0], separator).value, a[1..], b, separator, mid);
    }
  }

  lemma HeaderParts(header: Byte)
    ensures header == header / 0x80 * 0x80 + header / 0x20 % 4 * 0x20 + header % 0x20
    ensures header % 0x80 == header / 0x20 % 4 * 0x20 + header % 0x20
  {
  }

  /** Header bytes survive the split into indicator and fragment header, but for the forbidden bit. */
  lemma HeaderRebuilt(header: Byte, kind: Kind)
    ensures TypeOf(Indicator(header)) == FU_A
    ensures Idc(Indicator(header)) + TypeOf(FragmentHeader(kind, TypeOf(header))) == header % 0x80
    ensures FragmentHeader(kind, TypeOf(header)) >= 0x80 <==> kind == Start
  {
    var f, n, t := header / 0x80, header / 0x20 % 4, header % 0x20;
    HeaderParts(header);
    assert Indicator(header) == 0x80 * f + 0x20 * n + FU_A;
  }

  /** Fragments from an offset on are appended to what has been put together. */
  lemma {:induction false} FragmentsBuild(before: seq<Byte>, unit: seq<Byte>, chunk: nat, offset: nat,
                                          separator: seq<Byte>)
    requires unit != [] && chunk > 0 && 0 < offset <= |unit| - 1 && before != []
    ensures Build(before, FragmentsAt(unit, chunk, offset), separator) == Ok(before + unit[1 + offset..])
    decreases |unit| - offset
  {
    var payload := unit[1..];
    if offset == |payload| {
      assert before + unit[1 + offset..] == before;
    } else {
      var end := Min(offset + chunk, |payload|);
      var f := FragmentsAt(unit, chunk, offset);
      HeaderRebuilt(unit[0], KindAt(offset, chunk, |payload|));
      assert f[0][2..] == payload[offset..end];
      assert f[1..] == FragmentsAt(unit, chunk, end);
      hide Indicator, FragmentHeader, TypeOf, Idc;
      assert Absorb(before, f[0], separator) == Ok(before + payload[offset..end]);
      FragmentsBuild(before + payload[offset..end], unit, chunk, end, separator);
      assert payload[offset..end] + unit[1 + end..] == unit[1 + offset..];
      assert before + payload[offset..end] + unit[1 + end..] == before + unit[1 + offset..];
    }
  }

  /** A unit as it comes out: only the forbidden bit of a fragmented one is lost. */
  function Rebuilt(unit: seq<Byte>, max: U16): seq<Byte> {
    if |unit| <= max || unit == [] then unit else [unit[0] % 0x80] + unit[1..]
  }

  lemma PiecesBuild(before: seq<Byte>, unit: seq<Byte>, max: U16, separator: seq<Byte>)
    requires unit != [] && Sendable(unit, max) && 0 < TypeOf(unit[0]) < 24
    ensures Build(before, Pieces(unit, max), separator) == Ok(before + separator + Rebuilt(unit, max))
  {
    if |unit| <= max {
      assert Build(before, [unit], separator) == Ok(before + separator + unit);
    } else {
      ChunkExactly(|unit|, max);
      hide Chunk, Absorb, FragmentsAt;
      FragmentedBuild(before, unit, Chunk(|unit|, max), separator);
    }
  }

  lemma FragmentedBuild(before: seq<Byte>, unit: seq<Byte>, chunk: nat, separator: seq<Byte>)
    requires unit != [] && 0 < chunk <= |unit| - 1
    ensures Build(before, FragmentsAt(unit, chunk, 0), separator)
      == Ok(before + separator + ([unit[0] % 0x80] + unit[1..]))
  {
    var payload := unit[1..];
    var f := FragmentsAt(unit, chunk, 0);
    assert f[0][0] == Indicator(unit[0]) && f[0][1] == FragmentHeader(Start, TypeOf(unit[0]));
    assert f[0][2..] == payload[..chunk];
    assert f == [f[0]] + FragmentsAt(unit, chunk, chunk);
    hide FragmentsAt;
    HeaderRebuilt(unit[0], Start);
    hide Indicator, FragmentHeader, TypeOf, Idc;
    var first := before + separator + [unit[0] % 0x80] + payload[..chunk];
    assert Absorb(before, f[0], separator) == Ok(first);
    hide Absorb;
    FragmentsBuild(first, unit, chunk, chunk, separator);
    assert Build(before, [f[0]], separator) == Ok(first);
    BuildConcat(before, [f[0]], FragmentsAt(unit, chunk, chunk), separator, first);
    assert payload[..chunk] + unit[1 + chunk..] == unit[1..];
    assert first + unit[1 + chunk..] == before + separator + ([unit[0] % 0x80] + unit[1..]);
  }

  /** Units of types 1 to 23. */
  ghost predicate AllPlain(units: seq<seq<Byte>>) {
    forall i :: 0 <= i < |units| ==> units[i] != [] && 0 < TypeOf(units[i][0]) < 24
  }

  function Separated(units: seq<seq<Byte>>, separator: seq<Byte>, max: U16): seq<Byte> {
    if units == [] then [] else separator + Rebuilt(units[0], max) + Separated(units[1..], separator, max)
  }

  lemma {:induction false} AllPiecesBuild(before: seq<Byte>, units: seq<seq<Byte>>, max: U16, separator: seq<Byte>)
    requires AllSendable(units, max) && AllPlain(units)
    ensures Build(before, AllPieces(units, max), separator) == Ok(before + Separated(units, separator, max))
    decreases |units|
  {
    if units == [] {
      assert before + [] == before;
    } else {
      assert AllSendable(units[1..], max) && AllPlain(units[1..]);
      hide Absorb, Pieces, Rebuilt, Advances, Build, AllPlain, AllSendable;
      var mid := before + separator + Rebuilt(units[0], max);
      PiecesBuild(before, units[0], max, separator);
      BuildConcat(before, Pieces(units[0], max), AllPieces(units[1..], max), separator, mid);
      AllPiecesBuild(mid, units[1..], max, separator);
      Regroup(before, separator, Rebuilt(units[0], max), Separated(units[1..], separator, max));
    }
  }

  lemma Regroup(a: seq<Byte>, b: seq<Byte>, c: seq<Byte>, d: seq<Byte>)
    ensures a + b + c + d == a + (b + c + d)
  {
  }

  /** End to end: a message of units of types 1 to 23 with the forbidden bit clear, split, fragmented and put
      together again, gives the same units, each behind a separator. */
  lemma UnitsSurvive(units: seq<seq<Byte>>, max: U16, separator: seq<Byte>)
    requires Units(units) && max >= 4
    requires forall i :: 0 <= i < |units| ==> 0 < TypeOf(units[i][0]) < 24 && units[i][0] < 0x80
    ensures Split(Prefixed(units)) == units && AllSendable(units, max)
    ensures Build([], AllPieces(Split(Prefixed(units)), max), separator) == Ok(SeparatedUnits(units, separator))
  {
    SplitRoundTrip(units);
    assert AllSendable(units, max) && AllPlain(units);
    AllPiecesBuild([], units, max, separator);
    SeparatedUnchanged(units, separator, max);
    hide Split, Prefixed;
    assert [] + Separated(units, separator, max) == Separated(units, separator, max);
  }

  function SeparatedUnits(units: seq<seq<Byte>>, separator: seq<Byte>): seq<Byte> {
    if units == [] then [] else separator + units[0] + SeparatedUnits(units[1..], separator)
  }

  lemma {:induction false} SeparatedUnchanged(units: seq<seq<Byte>>, separator: seq<Byte>, max: U16)
    requires Units(units) && forall i :: 0 <= i < |units| ==> units[i][0] < 0x80
    ensures Separated(units, separator, max) == SeparatedUnits(units, separator)
  {
    if units != [] {
      SeparatedUnchanged(units[1..], separator, max);
      RebuiltWhole(units[0], max);
      hide Rebuilt, Units;
    }
  }

  lemma RebuiltWhole(unit: seq<Byte>, max: U16)
    requires unit != [] && unit[0] < 0x80
    ensures Rebuilt(unit, max) == unit
  {
    assert [unit[0]] + unit[1..] == unit;
  }

  /** Several units in one packet, as section 5.7.1 of RFC 6184 puts them: each behind two bytes of length. */
  function Packed(units: seq<seq<Byte>>): seq<Byte>
    requires forall i :: 0 <= i < |units| ==> |units[i]| <= 0xffff
  {
    if units == [] then [] else [|units[0]| / 0x100, |units[0]| % 0x100] + units[0] + Packed(units[1..])
  }

  ghost predicate Packable(units: seq<seq<Byte>>) {
    forall i :: 0 <= i < |units| ==> 0 < |units[i]| <= 0xffff
  }

  lemma {:induction false} AggregatedUnits(units: seq<seq<Byte>>, rest: seq<Byte>, separator: seq<Byte>)
    requires Packable(units)
    ensures var data := Packed(units) + rest;
      && (|rest| <= 2 ==> Aggregated(data, separator) == Ok(SeparatedUnits(units, separator)))
      && (|rest| > 2 && rest[0] * 0x100 + rest[1] > |rest| - 2 ==> Aggregated(data, separator).Err?)
    decreases |units|
  {
    var data := Packed(units) + rest;
    if units == [] {
      assert data == rest;
    } else {
      var more := Packed(units[1..]) + rest;
      assert data == [|units[0]| / 0x100, |units[0]| % 0x100] + units[0] + more;
      hide Packed;
      AggregatedUnits(units[1..], rest, separator);
      AggregatedFirst(units[0], more, separator);
      hide Aggregated;
      assert separator + units[0] + SeparatedUnits(units[1..], separator) == SeparatedUnits(units, separator);
    }
  }

  lemma AggregatedFirst(unit: seq<Byte>, more: seq<Byte>, separator: seq<Byte>)
    requires 0 < |unit| <= 0xffff
    ensures Aggregated([|unit| / 0x100, |unit| % 0x100] + unit + more, separator) ==
      match Aggregated(more, separator)
      case Err(e) => Err(e)
      case Ok(data) => Ok(separator + unit + data)
  {
    var data := [|unit| / 0x100, |unit| % 0x100] + unit + more;
    assert data[2..2 + |unit|] == unit && data[2 + |unit|..] == more;
  }

  /** A packet of several units adds them all to the access unit, each behind a separator; up to two bytes after the
      last are ignored, and a declared length that goes beyond the packet is refused. */
  lemma AggregatesArrive(unit: seq<Byte>, header: Byte, units: seq<seq<Byte>>, rest: seq<Byte>, separator: seq<Byte>)
    requires Packable(units) && header % 0x20 == 24
    ensures var r := Absorb(unit, [header] + Packed(units) + rest, separator);
      && (|rest| <= 2 ==> r == Ok(unit + SeparatedUnits(units, separator)))
      && (|rest| > 2 && rest[0] * 0x100 + rest[1] > |rest| - 2 ==> r.Err?)
  {
    var front := Packed(units);
    hide *;
    AbsorbsAggregate(unit, header, front, rest, separator);
    AggregatedUnits(units, rest, separator);
  }

  lemma AbsorbsAggregate(unit: seq<Byte>, header: Byte, front: seq<Byte>, rest: seq<Byte>, separator: seq<Byte>)
    requires header % 0x20 == 24
    ensures Absorb(unit, [header] + front + rest, separator) ==
      match Aggregated(front + rest, separator)
      case Err(e) => Err(e)
      case Ok(more) => Ok(unit + more)
  {
    assert ([header] + front + rest)[1..] == front + rest;
    hide Aggregated;
  }

  /** Any other packet is refused exactly if its type is not known or a fragment lacks its second header byte. */
  lemma RefusedPayloads(unit: seq<Byte>, payload: seq<Byte>, separator: seq<Byte>)
    requires payload != [] && payload[0] % 0x20 != 24
    ensures Absorb(unit, payload, separator).Err? <==>
      payload[0] % 0x20 in {0, 25, 26, 27, 29, 30, 31} || (payload[0] % 0x20 == 28 && |payload| == 1)
  {
  }
}
