/** H.264 frames over RTP: the packets of one timestamp make one frame, which comes out when the next one begins. */
module H264Frames {
  import opened Octets
  import opened H264
  import opened MachineWords

  /** What follows the header of a packet, and how many bytes of it the packet says are padding. */
  datatype Packet = Packet(timestamp: U32, body: seq<Byte>, padding: nat)

  datatype Frame = Frame(timestamp: U32, data: seq<Byte>)

  /** Padding makes a packet empty when there is nothing else; otherwise it is taken for payload. */
  function AbsorbPacket(unit: seq<Byte>, p: Packet, separator: seq<Byte>): Result<seq<Byte>> {
    if |p.body| == p.padding then Ok(unit)
    else if p.body == [] then Err("out of range")
    else Absorb(unit, p.body, separator)
  }

  function BuildPackets(unit: seq<Byte>, packets: seq<Packet>, separator: seq<Byte>): Result<seq<Byte>>
    decreases |packets|
  {
    if packets == [] then Ok(unit)
    else
      match AbsorbPacket(unit, packets[0], separator)
      case Err(e) => Err(e)
      case Ok(more) => BuildPackets(more, packets[1..], separator)
  }

  /** The packets counted for the first timestamp, which zero stands for as long as it is not known. */
  function Leading(packets: seq<Packet>, current: U32): (n: nat)
    ensures n <= |packets|
  {
    if packets == [] || (current != 0 && packets[0].timestamp != current) then 0
    else 1 + Leading(packets[1..], if current == 0 then packets[0].timestamp else current)
  }

  function FirstTimestamp(packets: seq<Packet>): U32 {
    if packets == [] then 0
    else if packets[0].timestamp != 0 then packets[0].timestamp else FirstTimestamp(packets[1..])
  }

  /** The frames that come out, the packets held back, and whether a packet could not be made sense of. */
  datatype Drained = Drained(frames: seq<Frame>, buffer: seq<Packet>, failed: bool)

  function Drain(buffer: seq<Packet>, separator: seq<Byte>): Drained
    decreases |buffer|
  {
    var n := Leading(buffer, 0);
    if n == |buffer| then Drained([], buffer, false)
    else
      match BuildPackets([], buffer[..n], separator)
      case Err(_) => Drained([], buffer, true)
      case Ok(data) =>
        var rest := Drain(buffer[n..], separator);
        Drained((if data == [] then [] else [Frame(FirstTimestamp(buffer[..n]), data)]) + rest.frames,
                rest.buffer, rest.failed)
  }

  class Depacketizer {
    const separator: seq<Byte>
    var buffer: seq<Packet>

    constructor (separator: seq<Byte>)
      ensures buffer == [] && this.separator == separator
    {
      this.separator, buffer := separator, [];
    }

    /** The access unit of some packets. */
    method BuildFrame(packets: seq<Packet>) returns (r: Result<seq<Byte>>)
      ensures r == BuildPackets([], packets, separator)
    {
      var accessUnit := [];
      for i := 0 to |packets|
        invariant BuildPackets(accessUnit, packets[i..], separator) == BuildPackets([], packets, separator)
      {
        hide Absorb;
        assert packets[i..][1..] == packets[i + 1..];
        var p := packets[i];
        if |p.body| != p.padding {
          if p.body == [] { return Err("out of range"); }
          var more := Absorb(accessUnit, p.body, separator);
          if more.Err? { return more; }
          accessUnit := more.value;
        }
      }
      return Ok(accessUnit);
    }

    method CountLeading() returns (n: nat, timestamp: U32)
      ensures n == Leading(buffer, 0) && (n <= |buffer| && timestamp == FirstTimestamp(buffer[..n]))
    {
      n, timestamp := 0, 0;
      LeadingFrom(buffer, 0, 0);
      while n < |buffer|
        invariant n <= |buffer| && Leading(buffer, 0) == n + Leading(buffer[n..], timestamp)
        invariant timestamp == FirstTimestamp(buffer[..n])
      {
        LeadingFrom(buffer, n, timestamp);
        if timestamp == 0 {
          timestamp := buffer[n].timestamp;
        } else if timestamp != buffer[n].timestamp {
          return;
        }
        n := n + 1;
      }
    }

    /** Packets are buffered; whole frames come out. An exception leaves the frame it was thrown for in the buffer. */
    method Incoming(packets: seq<Packet>) returns (frames: seq<Frame>, failed: bool)
      modifies this
      ensures Drained(frames, buffer, failed) == Drain(old(buffer) + packets, separator)
    {
      hide BuildPackets, Leading, FirstTimestamp, Drain;
      buffer := buffer + packets;
      frames, failed := [], false;
      ghost var whole := Drain(buffer, separator);
      assert [] + whole.frames == whole.frames;
      while buffer != []
        invariant After(frames, Drain(buffer, separator)) == whole
        decreases |buffer|
      {
        var n, timestamp := CountLeading();
        DrainOnce(frames, buffer, separator);
        if n == |buffer| { return; }
        var data := BuildFrame(buffer[..n]);
        if data.Err? {
          failed := true;
          return;
        }
        if data.value != [] { frames := frames + [Frame(timestamp, data.value)]; }
        buffer := buffer[n..];
      }
      DrainNone(frames, separator);
    }
  }

  /** Frames that came out before. */
  function After(frames: seq<Frame>, rest: Drained): Drained { rest.(frames := frames + rest.frames) }

  lemma DrainNone(frames: seq<Frame>, separator: seq<Byte>)
    ensures After(frames, Drain([], separator)) == Drained(frames, [], false)
  {
    assert frames + [] == frames;
  }

  /** One turn of the loop. */
  lemma DrainOnce(frames: seq<Frame>, buffer: seq<Packet>, separator: seq<Byte>)
    requires buffer != []
    ensures var n := Leading(buffer, 0);
      && n > 0
      && if n == |buffer| then After(frames, Drain(buffer, separator)) == Drained(frames, buffer, false)
         else
           match BuildPackets([], buffer[..n], separator)
           case Err(_) => After(frames, Drain(buffer, separator)) == Drained(frames, buffer, true)
           case Ok(data) =>
             var more := if data == [] then frames else frames + [Frame(FirstTimestamp(buffer[..n]), data)];
             After(frames, Drain(buffer, separator)) == After(more, Drain(buffer[n..], separator))
  {
    LeadingTakes(buffer);
    hide BuildPackets, Leading, FirstTimestamp;
    var n, d := Leading(buffer, 0), Drain(buffer, separator);
    var data := if n < |buffer| then BuildPackets([], buffer[..n], separator) else Err("");
    assert data.Err? ==> d.frames == [] && d.buffer == buffer && (d.failed <==> n < |buffer|);
    if data.Ok? {
      var one := if data.value == [] then [] else [Frame(FirstTimestamp(buffer[..n]), data.value)];
      var rest := Drain(buffer[n..], separator);
      assert d == Drained(one + rest.frames, rest.buffer, rest.failed);
      hide Drain;
      Regrouped(frames, one, rest.frames);
    } else {
      hide Drain;
      Regrouped(frames, [], []);
    }
  }

  lemma Regrouped<T>(a: seq<T>, b: seq<T>, c: seq<T>)
    ensures a + (b + c) == (a + b) + c && a + [] == a && (b == [] ==> a + b == a)
  {
  }

  lemma NoneBefore<T>(a: seq<T>)
    ensures [] + a == a
  {
  }

  lemma LeadingFrom(buffer: seq<Packet>, n: nat, current: U32)
    requires n <= |buffer|
    ensures buffer[0..] == buffer && buffer[..0] == []
    ensures n < |buffer| ==> buffer[n..][1..] == buffer[n + 1..] && buffer[n..][0] == buffer[n]
    ensures n < |buffer| ==>
      FirstTimestamp(buffer[..n + 1])
        == if FirstTimestamp(buffer[..n]) != 0 then FirstTimestamp(buffer[..n]) else buffer[n].timestamp
  {
    if n < |buffer| {
      assert buffer[..n + 1] == buffer[..n] + [buffer[n]];
      FirstOfMore(buffer[..n], buffer[n]);
    }
  }

  lemma {:induction false} FirstOfMore(packets: seq<Packet>, p: Packet)
    ensures FirstTimestamp(packets + [p]) ==
      if FirstTimestamp(packets) != 0 then FirstTimestamp(packets) else p.timestamp
  {
    if packets == [] {
      assert packets + [p] == [p] && [p][1..] == [];
    } else {
      assert (packets + [p])[1..] == packets[1..] + [p];
      FirstOfMore(packets[1..], p);
    }
  }

  lemma LeadingTakes(buffer: seq<Packet>)
    requires buffer != []
    ensures Leading(buffer, 0) > 0
  {
  }

  // ---- packets in any portions ----

  lemma {:induction false} LeadingStable(b: seq<Packet>, more: seq<Packet>, current: U32)
    requires Leading(b, current) < |b|
    ensures Leading(b + more, current) == Leading(b, current)
  {
    assert (b + more)[0] == b[0] && (b + more)[1..] == b[1..] + more;
    if current == 0 || b[0].timestamp == current {
      LeadingStable(b[1..], more, if current == 0 then b[0].timestamp else current);
    }
  }

  /** What comes out of some packets does not depend on what follows them, except for the frame held back. */
  lemma {:induction false} DrainMore(b: seq<Packet>, more: seq<Packet>, separator: seq<Byte>)
    ensures var d := Drain(b, separator);
      Drain(b + more, separator) ==
        if d.failed then d.(buffer := d.buffer + more)
        else
          var e := Drain(d.buffer + more, separator);
          Drained(d.frames + e.frames, e.buffer, e.failed)
    decreases |b|
  {
    hide BuildPackets, Leading, FirstTimestamp;
    var n := Leading(b, 0);
    if n == |b| {
      NoneBefore(Drain(b + more, separator).frames);
    } else {
      LeadingStable(b, more, 0);
      LeadingTakes(b);
      assert (b + more)[..n] == b[..n] && (b + more)[n..] == b[n..] + more;
      var data := BuildPackets([], b[..n], separator);
      if data.Ok? {
        DrainMore(b[n..], more, separator);
        var one := if data.value == [] then [] else [Frame(FirstTimestamp(b[..n]), data.value)];
        var rest := Drain(b[n..], separator);
        Regrouped(one, rest.frames, Drain(rest.buffer + more, separator).frames);
      }
    }
  }

  /** A packet that cannot be made sense of is never got rid of: whatever follows, no frame comes out any more. */
  lemma {:induction false} FailedForever(b: seq<Packet>, more: seq<Packet>, separator: seq<Byte>)
    requires Drain(b, separator).failed
    ensures var held := Drain(b, separator).buffer;
      Drain(held + more, separator) == Drained([], held + more, true)
    decreases |b|
  {
    hide BuildPackets, Leading, FirstTimestamp;
    LeadingTakes(b);
    var n := Leading(b, 0);
    if BuildPackets([], b[..n], separator).Ok? {
      FailedForever(b[n..], more, separator);
    } else {
      DrainMore(b, more, separator);
    }
  }

  function Flatten(chunks: seq<seq<Packet>>): seq<Packet> {
    if chunks == [] then [] else Flatten(chunks[..|chunks| - 1]) + chunks[|chunks| - 1]
  }

  /** The object's calls one after another, until one fails. */
  function ReceiveAll(chunks: seq<seq<Packet>>, separator: seq<Byte>): Drained {
    if chunks == [] then Drained([], [], false)
    else
      var before := ReceiveAll(chunks[..|chunks| - 1], separator);
      if before.failed then before.(buffer := before.buffer + chunks[|chunks| - 1])
      else
        var last := Drain(before.buffer + chunks[|chunks| - 1], separator);
        Drained(before.frames + last.frames, last.buffer, last.failed)
  }

  lemma {:induction false} ChunkingIsInvisible(chunks: seq<seq<Packet>>, separator: seq<Byte>)
    ensures ReceiveAll(chunks, separator) == Drain(Flatten(chunks), separator)
  {
    if chunks != [] {
      var before, last := chunks[..|chunks| - 1], chunks[|chunks| - 1];
      hide Drain;
      ChunkingIsInvisible(before, separator);
      DrainMore(Flatten(before), last, separator);
    }
  }

  // ---- one frame for each timestamp ----

  ghost predicate Stamped(packets: seq<Packet>, timestamp: U32) {
    forall i :: 0 <= i < |packets| ==> packets[i].timestamp == timestamp
  }

  lemma {:induction false} LeadingStamped(a: seq<Packet>, b: seq<Packet>, timestamp: U32, current: U32)
    requires Stamped(a, timestamp) && timestamp != 0 && current in {0, timestamp} && (a == [] ==> current != 0)
    requires b == [] || b[0].timestamp != timestamp
    ensures Leading(a + b, current) == |a|
  {
    if a == [] {
      assert a + b == b;
    } else {
      assert (a + b)[0] == a[0] && (a + b)[1..] == a[1..] + b;
      LeadingStamped(a[1..], b, timestamp, timestamp);
    }
  }

  lemma {:induction false} LeadingZero(a: seq<Packet>, b: seq<Packet>)
    requires Stamped(a, 0)
    ensures Leading(a + b, 0) == |a| + Leading(b, 0)
  {
    if a == [] {
      assert a + b == b;
    } else {
      assert (a + b)[0] == a[0] && (a + b)[1..] == a[1..] + b;
      LeadingZero(a[1..], b);
    }
  }

  /** The packets of one timestamp are told apart from those of the next if and only if it is not zero. */
  lemma LeadingExactly(a: seq<Packet>, b: seq<Packet>, timestamp: U32)
    requires a != [] && Stamped(a, timestamp) && b != [] && b[0].timestamp != timestamp
    ensures Leading(a + b, 0) == |a| <==> timestamp != 0
  {
    if timestamp != 0 {
      LeadingStamped(a, b, timestamp, 0);
    } else {
      LeadingZero(a, b);
      LeadingTakes(b);
    }
  }

  // ---- whole messages ----

  /** The units of one message and the timestamp its packets are given. */
  datatype Message = Message(timestamp: U32, units: seq<seq<Byte>>) {
    ghost predicate Sound() {
      && timestamp != 0 && units != [] && Units(units)
      && forall i :: 0 <= i < |units| ==> 0 < TypeOf(units[i][0]) < 24 && units[i][0] < 0x80
    }
  }

  ghost predicate Conversation(messages: seq<Message>) {
    && (forall i :: 0 <= i < |messages| ==> messages[i].Sound())
    && (forall i :: 0 < i < |messages| ==> messages[i].timestamp != messages[i - 1].timestamp)
  }

  function Packets(pieces: seq<seq<Byte>>, timestamp: U32): (r: seq<Packet>)
    ensures |r| == |pieces| && forall i :: 0 <= i < |r| ==> r[i] == Packet(timestamp, pieces[i], 0)
  {
    seq(|pieces|, i requires 0 <= i < |pieces| => Packet(timestamp, pieces[i], 0))
  }

  lemma LimitFits(units: seq<seq<Byte>>, max: U16)
    requires max >= 4
    ensures AllSendable(units, max)
  {
  }

  /** What the packetizer makes of a message. */
  ghost function PacketsOf(m: Message, max: U16): (r: seq<Packet>)
    requires max >= 4
    ensures Stamped(r, m.timestamp)
  {
    LimitFits(m.units, max);
    Packets(AllPieces(m.units, max), m.timestamp)
  }

  ghost function AllPackets(messages: seq<Message>, max: U16): seq<Packet>
    requires max >= 4
  {
    if messages == [] then [] else PacketsOf(messages[0], max) + AllPackets(messages[1..], max)
  }

  function FrameOf(m: Message, separator: seq<Byte>): Frame { Frame(m.timestamp, SeparatedUnits(m.units, separator)) }

  function FramesOf(messages: seq<Message>, separator: seq<Byte>): seq<Frame> {
    if messages == [] then [] else [FrameOf(messages[0], separator)] + FramesOf(messages[1..], separator)
  }

  lemma {:induction false} PacketsBuild(unit: seq<Byte>, pieces: seq<seq<Byte>>, timestamp: U32, separator: seq<Byte>)
    ensures BuildPackets(unit, Packets(pieces, timestamp), separator) == Build(unit, pieces, separator)
    decreases |pieces|
  {
    if pieces != [] {
      var p := Packets(pieces, timestamp);
      assert p[1..] == Packets(pieces[1..], timestamp);
      assert AbsorbPacket(unit, p[0], separator) == Absorb(unit, pieces[0], separator);
      hide Absorb, AbsorbPacket, Packets;
      match Absorb(unit, pieces[0], separator)
      case Err(_) =>
      case Ok(more) => PacketsBuild(more, pieces[1..], timestamp, separator);
    }
  }

  lemma {:induction false} FirstStamped(packets: seq<Packet>, timestamp: U32)
    requires Stamped(packets, timestamp) && packets != []
    ensures FirstTimestamp(packets) == timestamp
  {
    if packets[0].timestamp == 0 && |packets| > 1 { FirstStamped(packets[1..], timestamp); }
  }

  lemma MessageBuilds(m: Message, max: U16, separator: seq<Byte>)
    requires m.Sound() && max >= 4
    ensures PacketsOf(m, max) != []
    ensures BuildPackets([], PacketsOf(m, max), separator) == Ok(SeparatedUnits(m.units, separator))
    ensures SeparatedUnits(m.units, separator) != []
  {
    UnitsSurvive(m.units, max, separator);
    LimitFits(m.units, max);
    hide Split, Prefixed, Build;
    PacketsBuild([], AllPieces(m.units, max), m.timestamp, separator);
    PiecesExist(m.units[0], max);
  }

  lemma PiecesExist(unit: seq<Byte>, max: U16)
    requires max >= 4
    ensures Pieces(unit, max) != []
  {
    if |unit| > max { PiecesShape(unit, max); }
  }

  lemma {:induction false} FramesComeOut(messages: seq<Message>, max: U16, separator: seq<Byte>)
    requires Conversation(messages) && messages != [] && max >= 4
    ensures var last := |messages| - 1;
      Drain(AllPackets(messages, max), separator)
        == Drained(FramesOf(messages[..last], separator), PacketsOf(messages[last], max), false)
  {
    var m, first := messages[0], PacketsOf(messages[0], max);
    MessageBuilds(m, max, separator);
    hide BuildPackets, SeparatedUnits, PacketsOf, Leading, FirstTimestamp;
    if |messages| == 1 {
      assert AllPackets(messages[1..], max) == [] && first + [] == first;
      LeadingStamped(first, [], m.timestamp, 0);
    } else {
      var rest := AllPackets(messages[1..], max);
      MessageBuilds(messages[1], max, separator);
      assert rest[0] == PacketsOf(messages[1], max)[0];
      LeadingStamped(first, rest, m.timestamp, 0);
      FirstStamped(first, m.timestamp);
      assert (first + rest)[..|first|] == first && (first + rest)[|first|..] == rest;
      FramesComeOut(messages[1..], max, separator);
      assert messages[..|messages| - 1][1..] == messages[1..][..|messages| - 2];
    }
  }

  /** End to end: messages with timestamps that differ from one to the next and are not zero, cut into packets and
      received in any portions, come out as one frame each, in order, with their timestamps and their units
      unchanged, each behind a separator; the last one is held back until the next begins. */
  lemma MessagesSurvive(messages: seq<Message>, max: U16, separator: seq<Byte>, chunks: seq<seq<Packet>>)
    requires Conversation(messages) && messages != [] && max >= 4 && Flatten(chunks) == AllPackets(messages, max)
    ensures var last := |messages| - 1;
      ReceiveAll(chunks, separator)
        == Drained(FramesOf(messages[..last], separator), PacketsOf(messages[last], max), false)
  {
    ChunkingIsInvisible(chunks, separator);
    FramesComeOut(messages, max, separator);
  }

  /** No empty frame is passed on. */
  lemma {:induction false} NoEmptyFrames(buffer: seq<Packet>, separator: seq<Byte>)
    ensures forall f :: f in Drain(buffer, separator).frames ==> f.data != []
    decreases |buffer|
  {
    var n := Leading(buffer, 0);
    if n < |buffer| && BuildPackets([], buffer[..n], separator).Ok? {
      NoEmptyFrames(buffer[n..], separator);
      hide BuildPackets, FirstTimestamp;
    }
  }
}
