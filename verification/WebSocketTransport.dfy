/** The WebSocket transport object: buffers grow and shrink in place, payloads are masked in place. */
module WebSocketTransport {
  import opened Wrappers
  import opened Octets
  import opened WebSocketFrames
  import opened WebSocketStream
  import Spec = WebSocketMessages
  import opened WebSocketMessages
  import opened MachineWords

  /** Exclusive or of a stretch of a buffer with the masking key; masking and unmasking are the same loop. */
  method MaskInPlace(buffer: array<Byte>, start: nat, length: nat, key: Key)
    requires start + length <= buffer.Length
    modifies buffer
    ensures buffer[..] ==
      old(buffer[..start]) + Masked(old(buffer[start..start + length]), key) + old(buffer[start + length..])
  {
    var i := 0;
    while i < length
      invariant i <= length
      invariant forall k :: 0 <= k < i ==> buffer[start + k] == Xor(old(buffer[start + k]), key[k % 4], 8)
      invariant forall k :: 0 <= k < buffer.Length && !(start <= k < start + i) ==> buffer[k] == old(buffer[k])
    {
      buffer[start + i] := Xor(buffer[start + i], key[i % 4], 8);
      i := i + 1;
    }
    ghost var masked := Masked(old(buffer[start..start + length]), key);
    forall k | start <= k < start + length ensures buffer[k] == masked[k - start] {
      assert buffer[start + (k - start)] == masked[k - start];
    }
  }

  class WsTransport {
    const client: bool
    const maxMessageSize: nat
    const maxOutstandingPings: int
    /** The length of the handshake at the start of the bytes, zero while it is incomplete, None if it is refused. */
    const handshake: seq<Byte> -> Option<nat>
    var connecting: bool
    var buffer: seq<Byte>
    var ignoreLength: nat
    var partial: seq<Byte>
    var partialOpcode: Opcode
    var outstandingPings: nat
    var connected: bool
    var closeSent: bool
    /** Messages handed to the receiver's callback, and frames handed to the lower transport as bytes. */
    var received: seq<Message>
    ghost var replies: seq<Frame>
    var output: seq<seq<Byte>>

    ghost function Endpoint(): Spec.Endpoint
      reads this
    {
      Spec.Endpoint.Endpoint(partial, partialOpcode, received, replies, outstandingPings, connected, closeSent)
    }

    ghost function Receiver(): WebSocketStream.Receiver
      reads this
    {
      WebSocketStream.Receiver(buffer, ignoreLength)
    }

    ghost predicate Parses() {
      && handshake([]) == Some(0)
      && forall b :: handshake(b).Some? ==> handshake(b).value <= |b|
    }

    ghost predicate Valid()
      reads this
    {
      && Parses() && !(connecting && connected)
      && (connecting ==> handshake(buffer) == Some(0) && ignoreLength == 0)
      && (connected ==> Settled(Receiver(), maxMessageSize))
    }

    constructor (client: bool, maxMessageSize: nat, maxOutstandingPings: int, handshake: seq<Byte> -> Option<nat>)
      requires handshake([]) == Some(0) && forall b :: handshake(b).Some? ==> handshake(b).value <= |b|
      ensures Valid() && connecting && Receiver() == WebSocketStream.Receiver([], 0)
      ensures Endpoint() == Spec.Endpoint.Endpoint([], CONTINUATION, [], [], 0, false, false)
      ensures this.client == client && this.maxMessageSize == maxMessageSize && this.handshake == handshake
      ensures this.maxOutstandingPings == maxOutstandingPings
    {
      this.client, this.maxMessageSize, this.maxOutstandingPings := client, maxMessageSize, maxOutstandingPings;
      this.handshake := handshake;
      buffer, ignoreLength, partial, partialOpcode := [], 0, [], CONTINUATION;
      outstandingPings, connecting, connected, closeSent := 0, true, false, false;
      received, replies, output := [], [], [];
    }

    /** The key is random; what goes out is the frame, masked with some key. */
    method SendFrame(f: Frame)
      requires |f.payload| < LENGTH_LIMIT
      modifies `output, `replies
      ensures replies == old(replies) + [f]
      ensures exists key :: output == old(output) + [Serialize(f, key)]
    {
      var k0: Byte, k1: Byte, k2: Byte, k3: Byte := *, *, *, *;
      var key := [k0, k1, k2, k3];
      var body := f.payload;
      if f.mask {
        var a := new Byte[|f.payload|](i requires 0 <= i < |f.payload| => f.payload[i]);
        assert a[..] == f.payload;
        MaskInPlace(a, 0, a.Length, key);
        body := a[..];
        assert body == Masked(f.payload, key);
      }
      output := output + [Head(f, key) + body];
      replies := replies + [f];
      assert output == old(output) + [Serialize(f, key)];
    }

    method Close()
      modifies `closeSent, `output, `replies
      ensures Endpoint() == Closing(old(Endpoint()), client) && Receiver() == old(Receiver())
    {
      if !connected || closeSent { return; }
      closeSent := true;
      SendFrame(Frame(CLOSE, [], true, client));
    }

    method Recv(opcode: Opcode, data: seq<Byte>)
      modifies `received
      ensures Endpoint() == Deliver(old(Endpoint()), opcode, data)
    {
      received := received + [Message(opcode == TEXT_FRAME, data)];
    }

    method RecvData(f: Frame)
      requires f.opcode == TEXT_FRAME || f.opcode == BINARY_FRAME
      modifies `partial, `partialOpcode, `received, `replies, `output, `outstandingPings, `connected, `closeSent
      ensures Endpoint() == Receive(old(Endpoint()), f, maxMessageSize, client) && Receiver() == old(Receiver())
    {
      var size := |f.payload|;
      if size > maxMessageSize { size := maxMessageSize; }
      if partial != [] {
        Recv(partialOpcode, partial);
        partial := [];
      }
      partialOpcode := f.opcode;
      if f.fin {
        Recv(f.opcode, f.payload[..size]);
      } else {
        partial := partial + f.payload[..size];
      }
    }

    method RecvContinuation(f: Frame)
      requires f.opcode == CONTINUATION
      modifies `partial, `partialOpcode, `received, `replies, `output, `outstandingPings, `connected, `closeSent
      ensures Endpoint() == Receive(old(Endpoint()), f, maxMessageSize, client) && Receiver() == old(Receiver())
    {
      partial := partial + f.payload;
      assert partial[..|partial|] == partial;
      if |partial| > maxMessageSize { partial := partial[..maxMessageSize]; }
      if f.fin {
        Recv(partialOpcode, partial);
        partial := [];
      }
    }

    method RecvFrame(f: Frame)
      requires |f.payload| < LENGTH_LIMIT
      modifies `partial, `partialOpcode, `received, `replies, `output, `outstandingPings, `connected, `closeSent
      ensures Endpoint() == Receive(old(Endpoint()), f, maxMessageSize, client) && Receiver() == old(Receiver())
    {
      if f.opcode == TEXT_FRAME || f.opcode == BINARY_FRAME {
        RecvData(f);
      } else if f.opcode == CONTINUATION {
        RecvContinuation(f);
      } else if f.opcode == PING {
        SendFrame(Frame(PONG, f.payload, true, client));
      } else if f.opcode == PONG {
        outstandingPings := 0;
      } else if f.opcode == CLOSE {
        Close();
        connected := false;
      } else {
        Close();
      }
    }

    /** The connection is idle: a ping is sent, and too many without an answer end it. */
    ghost predicate Pinged(e: Spec.Endpoint)
      reads this
    {
      && replies == e.replies + [Frame(PING, [0, 0, 0, 0], true, client)]
      && outstandingPings == e.outstandingPings + 1
      && connected == (maxOutstandingPings <= 0 || outstandingPings <= maxOutstandingPings)
      && received == e.received && partial == e.partial && partialOpcode == e.partialOpcode && closeSent == e.closeSent
    }

    method Idle()
      requires connected
      modifies `replies, `output, `outstandingPings, `connected
      ensures Pinged(old(Endpoint()))
    {
      SendFrame(Frame(PING, [0, 0, 0, 0], true, client));
      outstandingPings := outstandingPings + 1;
      if maxOutstandingPings > 0 && outstandingPings > maxOutstandingPings { connected := false; }
    }

    /** What is in the buffer is skipped or taken off frame by frame. */
    method Process()
      requires connected && maxMessageSize < LENGTH_LIMIT
      modifies this
      ensures var fed := Feed(old(Receiver()), [], maxMessageSize);
        && Receiver() == fed.state && Settled(Receiver(), maxMessageSize)
        && Endpoint() == ReceiveAll(old(Endpoint()), fed.frames, maxMessageSize, client)
      ensures connecting == old(connecting)
    {
      assert buffer + [] == buffer;
      NothingReceived(Endpoint(), maxMessageSize, client);
      if ignoreLength > 0 {
        var len := Min(ignoreLength, |buffer|);
        buffer := buffer[len..];
        ignoreLength := ignoreLength - len;
      }
      if ignoreLength == 0 {
        DrainSettles(buffer, maxMessageSize);
        DrainBuffer();
      } else {
        EmptyHasNoFrame(maxMessageSize);
      }
    }

    /** A chunk that was received; an empty one says that the connection is idle. While connecting, the bytes go to
        the handshake, and what it leaves over is the beginning of the stream of frames. */
    method Incoming(chunk: seq<Byte>)
      requires Valid() && maxMessageSize < LENGTH_LIMIT
      modifies this
      ensures Valid()
      ensures !old(connecting) && !old(connected) ==> Receiver() == old(Receiver()) && Endpoint() == old(Endpoint())
      ensures old(connected) && chunk == [] ==> Receiver() == old(Receiver()) && Pinged(old(Endpoint()))
      ensures old(connected) && chunk != [] ==>
        var fed := Feed(old(Receiver()), chunk, maxMessageSize);
        Receiver() == fed.state && Endpoint() == ReceiveAll(old(Endpoint()), fed.frames, maxMessageSize, client)
      ensures old(connecting) ==>
        var bytes := old(buffer) + chunk;
        var parsed := handshake(bytes);
        if parsed == Some(0) then connecting && buffer == bytes && Endpoint() == old(Endpoint())
        else if parsed.None? then !connecting && Endpoint() == old(Endpoint())
        else
          var fed := Feed(WebSocketStream.Receiver(bytes[parsed.value..], 0), [], maxMessageSize);
          && !connecting && Receiver() == fed.state
          && Endpoint() == ReceiveAll(old(Endpoint()).(connected := true), fed.frames, maxMessageSize, client)
    {
      hide Settled, Feed, ReceiveAll, Pinged;
      if connecting { Connecting(chunk); } else if connected { Connected(chunk); }
    }

    method Connected(chunk: seq<Byte>)
      requires Valid() && connected && maxMessageSize < LENGTH_LIMIT
      modifies this
      ensures Valid() && !connecting
      ensures chunk == [] ==> Receiver() == old(Receiver()) && Pinged(old(Endpoint()))
      ensures chunk != [] ==>
        var fed := Feed(old(Receiver()), chunk, maxMessageSize);
        Receiver() == fed.state && Endpoint() == ReceiveAll(old(Endpoint()), fed.frames, maxMessageSize, client)
    {
      hide Settled, Feed, ReceiveAll;
      if chunk == [] {
        Idle();
        return;
      }
      SameFeed(buffer, ignoreLength, chunk, maxMessageSize);
      buffer := buffer + chunk;
      Process();
    }

    method Connecting(chunk: seq<Byte>)
      requires Valid() && connecting && maxMessageSize < LENGTH_LIMIT
      modifies this
      ensures Valid()
      ensures var bytes := old(buffer) + chunk;
        var parsed := handshake(bytes);
        if parsed == Some(0) then connecting && buffer == bytes && Endpoint() == old(Endpoint())
        else if parsed.None? then !connecting && Endpoint() == old(Endpoint())
        else
          var fed := Feed(WebSocketStream.Receiver(bytes[parsed.value..], 0), [], maxMessageSize);
          && !connecting && Receiver() == fed.state
          && Endpoint() == ReceiveAll(old(Endpoint()).(connected := true), fed.frames, maxMessageSize, client)
    {
      hide Settled, Feed, ReceiveAll;
      assert buffer + [] == buffer;
      buffer := buffer + chunk;
      Shake();
      if connected { Process(); }
    }

    /** The handshake takes its part of the buffer once it is complete, or is refused. */
    method Shake()
      requires connecting && !connected && Parses()
      modifies `connecting, `connected, `buffer
      ensures var parsed := handshake(old(buffer));
        && connecting == (parsed == Some(0)) && connected == (parsed.Some? && parsed.value > 0)
        && buffer == (if connected then old(buffer)[parsed.value..] else old(buffer))
    {
      var parsed := handshake(buffer);
      connecting := parsed == Some(0);
      if parsed.Some? && parsed.value > 0 {
        connected := true;
        buffer := buffer[parsed.value..];
      }
    }

    /** Takes the frames off the buffer, one by one. */
    method DrainBuffer()
      requires ignoreLength == 0 && maxMessageSize < LENGTH_LIMIT
      modifies `buffer, `ignoreLength, `partial, `partialOpcode, `received, `replies, `output, `outstandingPings,
        `connected, `closeSent
      ensures var drained := Drain(old(buffer), maxMessageSize);
        Receiver() == drained.state && Endpoint() == ReceiveAll(old(Endpoint()), drained.frames, maxMessageSize, client)
    {
      hide Parse, Receive, ReceiveAll, Drain;
      ghost var done: seq<Frame> := [];
      NothingReceived(Endpoint(), maxMessageSize, client);
      ghost var whole := Drain(buffer, maxMessageSize);
      assert [] + whole.frames == whole.frames;
      var next := Parse(buffer, maxMessageSize);
      while next.Some?
        invariant ignoreLength == 0 && next == Parse(buffer, maxMessageSize)
        invariant Endpoint() == ReceiveAll(old(Endpoint()), done, maxMessageSize, client)
        invariant var rest := Drain(buffer, maxMessageSize);
          Drain(old(buffer), maxMessageSize) == Drained(done + rest.frames, rest.state)
        decreases |buffer|
      {
        var frame, len := next.value.frame, next.value.length;
        ParsedIsShort(buffer, maxMessageSize);
        DrainOnce(buffer, done, maxMessageSize);
        ReceiveOnce(Endpoint(), frame, maxMessageSize, client);
        ReceiveConcat(old(Endpoint()), done, [frame], maxMessageSize, client);
        RecvFrame(frame);
        done := done + [frame];
        if len > |buffer| {
          ignoreLength := len - |buffer|;
          buffer := [];
          return;
        }
        buffer := buffer[len..];
        next := Parse(buffer, maxMessageSize);
      }
      DrainNone(buffer, done, maxMessageSize);
    }
  }

  lemma SameFeed(buffer: seq<Byte>, ignore: nat, chunk: seq<Byte>, max: nat)
    ensures Feed(WebSocketStream.Receiver(buffer + chunk, ignore), [], max)
      == Feed(WebSocketStream.Receiver(buffer, ignore), chunk, max)
  {
    assert buffer + chunk + [] == buffer + chunk;
  }

  lemma NothingReceived(e: Spec.Endpoint, max: nat, client: bool)
    ensures ReceiveAll(e, [], max, client) == e
  {
  }

  lemma ReceiveOnce(e: Spec.Endpoint, f: Frame, max: nat, client: bool)
    ensures ReceiveAll(e, [f], max, client) == Receive(e, f, max, client)
  {
  }

  lemma DrainNone(b: seq<Byte>, done: seq<Frame>, max: nat)
    requires Parse(b, max).None?
    ensures var rest := Drain(b, max);
      Drained(done + rest.frames, rest.state) == Drained(done, WebSocketStream.Receiver(b, 0))
  {
    assert done + [] == done;
  }

  /** Taking one frame off the buffer. */
  lemma DrainOnce(b: seq<Byte>, done: seq<Frame>, max: nat)
    requires Parse(b, max).Some?
    ensures var p, whole := Parse(b, max).value, Drain(b, max);
      Drained(done + whole.frames, whole.state) ==
        if p.length > |b| then Drained(done + [p.frame], WebSocketStream.Receiver([], p.length - |b|))
        else
          var rest := Drain(b[p.length..], max);
          Drained(done + [p.frame] + rest.frames, rest.state)
  {
    hide Parse;
    var p := Parse(b, max).value;
    if p.length <= |b| {
      var rest := Drain(b[p.length..], max);
      assert done + ([p.frame] + rest.frames) == done + [p.frame] + rest.frames;
    }
  }

  lemma ParsedIsShort(b: seq<Byte>, max: nat)
    requires Parse(b, max).Some? && max < LENGTH_LIMIT
    ensures |Parse(b, max).value.frame.payload| < LENGTH_LIMIT
  {
  }
}
