/** WebSocket frames as bytes: sections 5.2 and 5.3 of RFC 6455, as sendFrame writes and parseFrame reads them. */
module WebSocketFrames {
  import opened Wrappers
  import opened Octets
  import opened MachineWords

  type Opcode = x: int | 0 <= x < 0x10
  type Key = k: seq<Byte> | |k| == 4 witness [0, 0, 0, 0]

  const CONTINUATION: Opcode := 0
  const TEXT_FRAME: Opcode := 1
  const BINARY_FRAME: Opcode := 2
  const CLOSE: Opcode := 8
  const PING: Opcode := 9
  const PONG: Opcode := 10

  const MAX_CONTROL_FRAME := 125
  /** The top bit of a 64-bit length is always clear. */
  const LENGTH_LIMIT := 0x8000_0000_0000_0000

  datatype Frame = Frame(opcode: Opcode, payload: seq<Byte>, fin: bool, mask: bool)

  /** Frames longer than this are cut on arrival. */
  function MaxFrame(max: nat): nat { if max > MAX_CONTROL_FRAME then max else MAX_CONTROL_FRAME }

  // ---- masking ----

  /** Exclusive or of the low bits. */
  function Xor(a: nat, b: nat, bits: nat): (r: nat)
    ensures bits == 8 ==> r < 0x100
    ensures r < Power2(bits)
  {
    if bits == 0 then 0
    else
      var rest := Xor(a / 2, b / 2, bits - 1);
      assert Power2(8) == 0x100 by { PowersOfTwo(); }
      (if a % 2 == b % 2 then 0 else 1) + 2 * rest
  }

  lemma {:induction false} XorTwice(a: nat, b: nat, bits: nat)
    requires a < Power2(bits)
    ensures Xor(Xor(a, b, bits), b, bits) == a
  {
    if bits > 0 {
      var x := Xor(a, b, bits);
      assert x / 2 == Xor(a / 2, b / 2, bits - 1);
      XorTwice(a / 2, b / 2, bits - 1);
    }
  }

  /** Each byte with the key byte of its position. */
  function Masked(payload: seq<Byte>, key: Key): (r: seq<Byte>)
    ensures |r| == |payload|
    ensures forall i :: 0 <= i < |r| ==> r[i] == Xor(payload[i], key[i % 4], 8)
  {
    seq(|payload|, i requires 0 <= i < |payload| => Xor(payload[i], key[i % 4], 8))
  }

  lemma MaskedTwice(payload: seq<Byte>, key: Key)
    ensures Masked(Masked(payload, key), key) == payload
  {
    PowersOfTwo();
    forall i | 0 <= i < |payload| ensures Masked(Masked(payload, key), key)[i] == payload[i] {
      XorTwice(payload[i], key[i % 4], 8);
    }
  }

  // ---- sending ----

  function LengthBytes(length: nat): seq<Byte>
    requires length < LENGTH_LIMIT
  {
    if length < 0x7e then [] else if length <= 0xffff then BigEndian(length, 2) else BigEndian(length, 8)
  }

  function LengthCode(length: nat): (c: nat)
    ensures c < 0x80
  {
    if length < 0x7e then length else if length <= 0xffff then 0x7e else 0x7f
  }

  function Head(f: Frame, key: Key): (r: seq<Byte>)
    requires |f.payload| < LENGTH_LIMIT
    ensures |r| >= 2
  {
    [f.opcode + (if f.fin then 0x80 else 0), LengthCode(|f.payload|) + (if f.mask then 0x80 else 0)]
    + LengthBytes(|f.payload|) + (if f.mask then key else [])
  }

  function Body(f: Frame, key: Key): seq<Byte> { if f.mask then Masked(f.payload, key) else f.payload }

  function Serialize(f: Frame, key: Key): seq<Byte>
    requires |f.payload| < LENGTH_LIMIT
  {
    Head(f, key) + Body(f, key)
  }

  // ---- receiving ----

  /** A frame header: `size` bytes long, announcing `length` bytes of payload. */
  datatype Header = Header(opcode: Opcode, fin: bool, mask: bool, length: nat, key: Key, size: nat)

  function LengthSize(code: nat): nat { if code == 0x7e then 2 else if code == 0x7f then 8 else 0 }

  function ParseHeader(b: seq<Byte>): (r: Option<Header>)
    ensures r.Some? ==> 2 <= r.value.size <= |b|
  {
    if |b| < 2 then None
    else
      var code, mask := b[1] % 0x80, b[1] >= 0x80;
      var start := 2 + LengthSize(code);
      if |b| < start then None
      else
        var length := if code < 0x7e then code else FromBigEndian(b[2..start]);
        var size := start + (if mask then 4 else 0);
        if |b| < size then None
        else Some(Header(b[0] % 0x10, b[0] >= 0x80, mask, length, if mask then b[start..size] else [0, 0, 0, 0], size))
  }

  datatype Parsed = Parsed(frame: Frame, length: nat)

  /** The first frame of the buffer; its length can be more than the buffer holds when the payload is cut. */
  function Parse(b: seq<Byte>, max: nat): (r: Option<Parsed>)
    ensures r.Some? ==> r.value.length >= 2
  {
    var header := ParseHeader(b);
    if header.None? then None
    else
      var h := header.value;
      var kept := Min(h.length, MaxFrame(max));
      if |b| - h.size < kept then None
      else
        Some(Parsed(Frame(h.opcode, Unmasked(h, b[h.size..h.size + kept]), h.fin, h.mask), h.size + h.length))
  }

  function Unmasked(h: Header, bytes: seq<Byte>): seq<Byte> { if h.mask then Masked(bytes, h.key) else bytes }

  /** What the receiver keeps of a frame. */
  function Cut(f: Frame, max: nat): Frame {
    f.(payload := f.payload[..Min(|f.payload|, MaxFrame(max))])
  }

  lemma LengthParses(length: nat)
    requires length < LENGTH_LIMIT
    ensures |LengthBytes(length)| == LengthSize(LengthCode(length))
    ensures LengthCode(length) < 0x7e ==> length == LengthCode(length)
    ensures LengthCode(length) >= 0x7e ==> FromBigEndian(LengthBytes(length)) == length
  {
    assert Power(2) == 0x1_0000;
    assert Power(4) == 0x1_0000_0000;
    assert Power(8) == 0x1_0000_0000_0000_0000 by { assert Power(6) == 0x1_0000_0000_0000; }
    if 0x7e <= length <= 0xffff { BigEndianRoundTrip(length, 2); }
    if length > 0xffff { BigEndianRoundTrip(length, 8); }
  }

  lemma HeadParses(f: Frame, key: Key, rest: seq<Byte>)
    requires |f.payload| < LENGTH_LIMIT
    ensures ParseHeader(Head(f, key) + rest) ==
      Some(Header(f.opcode, f.fin, f.mask, |f.payload|, if f.mask then key else [0, 0, 0, 0], |Head(f, key)|))
  {
    LengthParses(|f.payload|);
    var b := Head(f, key) + rest;
    var start := 2 + LengthSize(LengthCode(|f.payload|));
    assert b[2..start] == LengthBytes(|f.payload|);
    assert f.mask ==> b[start..start + 4] == key;
  }

  /** A frame at the front of the buffer is parsed whole, whatever follows it, cut to the permitted size. */
  lemma FrameParses(f: Frame, key: Key, rest: seq<Byte>, max: nat)
    requires |f.payload| < LENGTH_LIMIT
    ensures Parse(Serialize(f, key) + rest, max) == Some(Parsed(Cut(f, max), |Serialize(f, key)|))
  {
    var b := Serialize(f, key) + rest;
    assert b == Head(f, key) + (Body(f, key) + rest);
    HeadParses(f, key, Body(f, key) + rest);
    hide Head, ParseHeader;
    var kept, size := Min(|f.payload|, MaxFrame(max)), |Head(f, key)|;
    assert b[size..size + kept] == Body(f, key)[..kept];
    if f.mask {
      MaskedTwice(f.payload, key);
      assert Masked(Body(f, key)[..kept], key) == Masked(Body(f, key), key)[..kept];
    }
  }

  /** More input never changes a frame that has been recognised. */
  lemma ParseIsStable(b: seq<Byte>, more: seq<Byte>, max: nat)
    requires Parse(b, max).Some?
    ensures Parse(b + more, max) == Parse(b, max)
  {
    HeaderIsStable(b, more);
    var h := ParseHeader(b).value;
    var kept := Min(h.length, MaxFrame(max));
    hide ParseHeader, Unmasked, MaxFrame, Min;
    assert (b + more)[h.size..h.size + kept] == b[h.size..h.size + kept];
  }

  lemma HeaderIsStable(b: seq<Byte>, more: seq<Byte>)
    requires ParseHeader(b).Some?
    ensures ParseHeader(b + more) == ParseHeader(b)
  {
    var start := 2 + LengthSize(b[1] % 0x80);
    assert (b + more)[2..start] == b[2..start];
    if b[1] >= 0x80 { assert (b + more)[start..start + 4] == b[start..start + 4]; }
  }
}
