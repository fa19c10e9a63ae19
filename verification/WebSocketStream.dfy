/** The receive buffer: bytes arrive in chunks cut anywhere, frames come out. */
module WebSocketStream {
  import opened Wrappers
  import opened Octets
  import opened WebSocketFrames
  import opened MachineWords

  /** `ignore` bytes of a cut frame's payload are still to come and to be thrown away. */
  datatype Receiver = Receiver(buffer: seq<Byte>, ignore: nat)

  datatype Drained = Drained(frames: seq<Frame>, state: Receiver)

  /** Frames are taken off the front of the buffer as long as one is recognised. */
  function Drain(b: seq<Byte>, max: nat): Drained
    decreases |b|
  {
    match Parse(b, max)
    case None => Drained([], Receiver(b, 0))
    case Some(p) =>
      if p.length > |b| then Drained([p.frame], Receiver([], p.length - |b|))
      else
        var rest := Drain(b[p.length..], max);
        Drained([p.frame] + rest.frames, rest.state)
  }

  /** One chunk of input. */
  function Feed(r: Receiver, chunk: seq<Byte>, max: nat): Drained {
    var b := r.buffer + chunk;
    var skipped := Min(r.ignore, |b|);
    if r.ignore > skipped then Drained([], Receiver([], r.ignore - skipped))
    else Drain(b[skipped..], max)
  }

  function FeedAll(r: Receiver, chunks: seq<seq<Byte>>, max: nat): Drained {
    if chunks == [] then Drained([], r)
    else
      var before := FeedAll(r, chunks[..|chunks| - 1], max);
      var last := Feed(before.state, chunks[|chunks| - 1], max);
      Drained(before.frames + last.frames, last.state)
  }

  /** Between chunks no whole frame is left in the buffer, and nothing at all while a payload is being skipped. */
  ghost predicate Settled(r: Receiver, max: nat) {
    Parse(r.buffer, max).None? && (r.ignore > 0 ==> r.buffer == [])
  }

  lemma {:induction false} DrainSettles(b: seq<Byte>, max: nat)
    ensures Settled(Drain(b, max).state, max)
    decreases |b|
  {
    hide Parse;
    match Parse(b, max)
    case None =>
    case Some(p) =>
      if p.length > |b| { EmptyHasNoFrame(max); } else { DrainSettles(b[p.length..], max); }
  }

  lemma EmptyHasNoFrame(max: nat)
    ensures Parse([], max).None?
  {
  }

  /** Draining, then feeding more, is draining everything at once. */
  lemma {:induction false} DrainThenFeed(b: seq<Byte>, more: seq<Byte>, max: nat)
    ensures var first := Drain(b, max);
      var second := Feed(first.state, more, max);
      Drain(b + more, max) == Drained(first.frames + second.frames, second.state)
    decreases |b|
  {
    hide Parse;
    match Parse(b, max)
    case None =>
      assert (b + more)[0..] == b + more;
      assert [] + Drain(b + more, max).frames == Drain(b + more, max).frames;
    case Some(p) =>
      ParseIsStable(b, more, max);
      if p.length > |b| {
        CutThenFeed(b, more, p, max);
      } else {
        DrainThenFeed(b[p.length..], more, max);
        assert (b + more)[p.length..] == b[p.length..] + more;
        var rest := Drain(b[p.length..], max);
        assert [p.frame] + (rest.frames + Feed(rest.state, more, max).frames)
            == [p.frame] + rest.frames + Feed(rest.state, more, max).frames;
      }
  }

  /** The part of a cut frame that has not arrived yet is skipped when it does. */
  lemma CutThenFeed(b: seq<Byte>, more: seq<Byte>, p: Parsed, max: nat)
    requires Parse(b, max) == Some(p) == Parse(b + more, max) && p.length > |b|
    ensures var second := Feed(Receiver([], p.length - |b|), more, max);
      Drain(b + more, max) == Drained([p.frame] + second.frames, second.state)
  {
    hide Parse;
    var missing := p.length - |b|;
    assert [] + more == more;
    if missing > |more| {
      assert [p.frame] + [] == [p.frame];
    } else {
      assert (b + more)[p.length..] == more[missing..];
      if missing == |more| { assert (b + more)[p.length..] == []; }
    }
  }

  /** However a stream is cut into chunks, the same frames come out and the same state is left. */
  lemma {:induction false} ChunkingIsInvisible(chunks: seq<seq<Byte>>, max: nat)
    ensures FeedAll(Receiver([], 0), chunks, max) == Drain(Flatten(chunks), max)
  {
    if chunks == [] {
      EmptyHasNoFrame(max);
    } else {
      var front := chunks[..|chunks| - 1];
      ChunkingIsInvisible(front, max);
      DrainThenFeed(Flatten(front), chunks[|chunks| - 1], max);
      assert chunks == front + [chunks[|chunks| - 1]];
      FlattenAppend(front, chunks[|chunks| - 1]);
    }
  }

  // ---- whole streams of frames ----

  ghost predicate Sendable(frames: seq<Frame>) { forall i :: 0 <= i < |frames| ==> |frames[i].payload| < LENGTH_LIMIT }

  /** The bytes a sender puts out, with a masking key for each frame. */
  function Sent(frames: seq<Frame>, keys: seq<Key>): seq<Byte>
    requires Sendable(frames) && |keys| == |frames|
  {
    if frames == [] then [] else Serialize(frames[0], keys[0]) + Sent(frames[1..], keys[1..])
  }

  function CutAll(frames: seq<Frame>, max: nat): (r: seq<Frame>)
    ensures |r| == |frames| && forall i :: 0 <= i < |r| ==> r[i] == Cut(frames[i], max)
  {
    seq(|frames|, i requires 0 <= i < |frames| => Cut(frames[i], max))
  }

  lemma CutFirst(frames: seq<Frame>, max: nat)
    requires frames != []
    ensures CutAll(frames, max) == [Cut(frames[0], max)] + CutAll(frames[1..], max)
  {
    hide Cut;
  }

  /** One frame at the front of the bytes comes out first. */
  lemma DrainFirst(first: seq<Byte>, rest: seq<Byte>, f: Frame, max: nat)
    requires Parse(first + rest, max) == Some(Parsed(f, |first|)) && first != []
    ensures Drain(first + rest, max) == (var d := Drain(rest, max); Drained([f] + d.frames, d.state))
  {
    hide Parse;
    assert (first + rest)[|first|..] == rest;
  }

  lemma {:induction false} SentDrains(frames: seq<Frame>, keys: seq<Key>, max: nat)
    requires Sendable(frames) && |keys| == |frames|
    ensures Drain(Sent(frames, keys), max) == Drained(CutAll(frames, max), Receiver([], 0))
  {
    if frames == [] {
      EmptyHasNoFrame(max);
    } else {
      var first, rest := Serialize(frames[0], keys[0]), Sent(frames[1..], keys[1..]);
      assert Sent(frames, keys) == first + rest && first != [];
      FrameParses(frames[0], keys[0], rest, max);
      assert Sendable(frames[1..]);
      hide *;
      DrainFirst(first, rest, Cut(frames[0], max), max);
      SentDrains(frames[1..], keys[1..], max);
      CutFirst(frames, max);
    }
  }

  /** The round trip: any frames, any masking, cut into chunks anywhere, arrive in order with their payloads
      unmasked, cut to the permitted size, and leave nothing behind. */
  lemma FramesArrive(frames: seq<Frame>, keys: seq<Key>, chunks: seq<seq<Byte>>, max: nat)
    requires Sendable(frames) && |keys| == |frames| && Flatten(chunks) == Sent(frames, keys)
    ensures FeedAll(Receiver([], 0), chunks, max) == Drained(CutAll(frames, max), Receiver([], 0))
  {
    ChunkingIsInvisible(chunks, max);
    SentDrains(frames, keys, max);
  }
}
