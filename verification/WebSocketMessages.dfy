/** From frames to messages: fragments are joined and cut, pings are answered. */
module WebSocketMessages {
  import opened Wrappers
  import opened Octets
  import opened WebSocketFrames
  import opened WebSocketStream
  import opened MachineWords

  datatype Message = Message(text: bool, data: seq<Byte>)

  /** `received` are the messages handed up, `replies` the frames sent in answer to frames. */
  datatype Endpoint = Endpoint(
    partial: seq<Byte>, partialOpcode: Opcode, received: seq<Message>, replies: seq<Frame>,
    outstandingPings: nat, connected: bool, closeSent: bool)

  function Take(s: seq<Byte>, n: nat): seq<Byte> { s[..Min(|s|, n)] }

  function Deliver(e: Endpoint, opcode: Opcode, data: seq<Byte>): Endpoint {
    e.(received := e.received + [Message(opcode == TEXT_FRAME, data)])
  }

  /** A close frame is sent at most once, and only while connected. */
  function Closing(e: Endpoint, client: bool): Endpoint {
    if !e.connected || e.closeSent then e
    else e.(closeSent := true, replies := e.replies + [Frame(CLOSE, [], true, client)])
  }

  function Receive(e: Endpoint, f: Frame, max: nat, client: bool): Endpoint {
    if f.opcode == TEXT_FRAME || f.opcode == BINARY_FRAME then
      var flushed := (if e.partial != [] then Deliver(e, e.partialOpcode, e.partial).(partial := []) else e)
                     .(partialOpcode := f.opcode);
      if f.fin then Deliver(flushed, f.opcode, Take(f.payload, max))
      else flushed.(partial := flushed.partial + Take(f.payload, max))
    else if f.opcode == CONTINUATION then
      var joined := Take(e.partial + f.payload, max);
      if f.fin then Deliver(e, e.partialOpcode, joined).(partial := []) else e.(partial := joined)
    else if f.opcode == PING then e.(replies := e.replies + [Frame(PONG, f.payload, true, client)])
    else if f.opcode == PONG then e.(outstandingPings := 0)
    else if f.opcode == CLOSE then Closing(e, client).(connected := false)
    else Closing(e, client)
  }

  function ReceiveAll(e: Endpoint, frames: seq<Frame>, max: nat, client: bool): Endpoint
    decreases |frames|
  {
    if frames == [] then e else ReceiveAll(Receive(e, frames[0], max, client), frames[1..], max, client)
  }

  lemma {:induction false} ReceiveConcat(e: Endpoint, a: seq<Frame>, b: seq<Frame>, max: nat, client: bool)
    ensures ReceiveAll(e, a + b, max, client) == ReceiveAll(ReceiveAll(e, a, max, client), b, max, client)
    decreases |a|
  {
    if a == [] {
      assert a + b == b;
    } else {
      hide Receive;
      assert (a + b)[1..] == a[1..] + b;
      ReceiveConcat(Receive(e, a[0], max, client), a[1..], b, max, client);
    }
  }

  // ---- what a peer sends ----

  predicate Known(opcode: Opcode) { opcode in {CONTINUATION, TEXT_FRAME, BINARY_FRAME, CLOSE, PING, PONG} }

  /** A short frame between fragments: a ping, a pong, or one with an opcode that means nothing. */
  datatype Control = Ping(data: seq<Byte>) | Pong(data: seq<Byte>) | Stray(opcode: Opcode, data: seq<Byte>) {
    predicate Short() { |data| <= MAX_CONTROL_FRAME && (Stray? ==> !Known(opcode)) }
  }

  /** One fragment of a message and the control frames sent after it. */
  datatype Part = Part(data: seq<Byte>, controls: seq<Control>) {
    ghost predicate Sound() { |data| < LENGTH_LIMIT && forall c :: c in controls ==> c.Short() }
  }

  datatype Letter = Letter(text: bool, parts: seq<Part>) {
    ghost predicate Sound() { parts != [] && forall p :: p in parts ==> p.Sound() }
  }

  function ControlFrame(c: Control, mask: bool): Frame {
    Frame(match c case Ping(_) => PING case Pong(_) => PONG case Stray(opcode, _) => opcode, c.data, true, mask)
  }

  function ControlFrames(controls: seq<Control>, mask: bool): seq<Frame> {
    if controls == [] then []
    else [ControlFrame(controls[0], mask)] + ControlFrames(controls[1..], mask)
  }

  /** Fragments after the first; the last one is marked final. */
  function Continued(parts: seq<Part>, mask: bool): seq<Frame> {
    if parts == [] then []
    else [Frame(CONTINUATION, parts[0].data, |parts| == 1, mask)] + ControlFrames(parts[0].controls, mask)
         + Continued(parts[1..], mask)
  }

  function FirstFrame(l: Letter, mask: bool): Frame
    requires l.parts != []
  {
    Frame(if l.text then TEXT_FRAME else BINARY_FRAME, l.parts[0].data, |l.parts| == 1, mask)
  }

  function LetterFrames(l: Letter, mask: bool): seq<Frame> {
    if l.parts == [] then []
    else [FirstFrame(l, mask)] + ControlFrames(l.parts[0].controls, mask) + Continued(l.parts[1..], mask)
  }

  ghost predicate AllSound(letters: seq<Letter>) { forall l :: l in letters ==> l.Sound() }

  function AllFrames(letters: seq<Letter>, mask: bool): seq<Frame> {
    if letters == [] then [] else LetterFrames(letters[0], mask) + AllFrames(letters[1..], mask)
  }

  /** The peer may end with a close frame. */
  function Farewell(closing: bool, reason: seq<Byte>, mask: bool): seq<Frame> {
    if closing then [Frame(CLOSE, reason, true, mask)] else []
  }

  // ---- what it amounts to ----

  function Joined(parts: seq<Part>): seq<Byte> { if parts == [] then [] else parts[0].data + Joined(parts[1..]) }

  function PartControls(parts: seq<Part>): seq<Control> {
    if parts == [] then [] else parts[0].controls + PartControls(parts[1..])
  }

  function AllControls(letters: seq<Letter>): seq<Control> {
    if letters == [] then [] else PartControls(letters[0].parts) + AllControls(letters[1..])
  }

  predicate HasStray(controls: seq<Control>) { exists i :: 0 <= i < |controls| && controls[i].Stray? }

  /** Every ping is answered; the first stray frame is answered by closing, if that has not been done. */
  function Reply(c: Control, open: bool, client: bool): seq<Frame> {
    match c
    case Ping(data) => [Frame(PONG, data, true, client)]
    case Pong(_) => []
    case Stray(_, _) => if open then [Frame(CLOSE, [], true, client)] else []
  }

  function Replies(controls: seq<Control>, open: bool, client: bool): seq<Frame> {
    if controls == [] then []
    else Reply(controls[0], open, client) + Replies(controls[1..], open && !controls[0].Stray?, client)
  }

  function Messages(letters: seq<Letter>, max: nat): seq<Message> {
    if letters == [] then []
    else [Message(letters[0].text, Take(Joined(letters[0].parts), max))] + Messages(letters[1..], max)
  }

  predicate Open(e: Endpoint) { e.connected && !e.closeSent }

  /** The endpoint has received these messages and answered these control frames, and is otherwise as before. */
  ghost predicate Handled(e: Endpoint, r: Endpoint, messages: seq<Message>, controls: seq<Control>, client: bool) {
    && r.received == e.received + messages && r.replies == e.replies + Replies(controls, Open(e), client)
    && r.connected == e.connected && (Open(r) <==> Open(e) && !HasStray(controls))
  }

  // ---- proofs ----

  lemma {:induction false} RepliesConcat(a: seq<Control>, b: seq<Control>, open: bool, client: bool)
    ensures Replies(a + b, open, client) == Replies(a, open, client) + Replies(b, open && !HasStray(a), client)
    decreases |a|
  {
    if a == [] {
      assert a + b == b;
    } else {
      assert (a + b)[1..] == a[1..] + b && (a + b)[0] == a[0];
      StrayFirst(a);
      hide HasStray, Reply;
      var rest := open && !a[0].Stray?;
      RepliesConcat(a[1..], b, rest, client);
      assert Reply(a[0], open, client) + (Replies(a[1..], rest, client) + Replies(b, rest && !HasStray(a[1..]), client))
        == Reply(a[0], open, client) + Replies(a[1..], rest, client) + Replies(b, rest && !HasStray(a[1..]), client);
    }
  }

  lemma StrayFirst(a: seq<Control>)
    requires a != []
    ensures HasStray(a) <==> a[0].Stray? || HasStray(a[1..])
  {
    if HasStray(a) && !a[0].Stray? {
      var i :| 0 <= i < |a| && a[i].Stray?;
      assert a[1..][i - 1].Stray?;
    }
    if HasStray(a[1..]) {
      var i :| 0 <= i < |a| - 1 && a[1..][i].Stray?;
      assert a[i + 1].Stray?;
    }
  }

  lemma {:induction false} StrayEither(a: seq<Control>, b: seq<Control>)
    ensures HasStray(a + b) <==> HasStray(a) || HasStray(b)
  {
    if a == [] {
      assert a + b == b;
    } else {
      assert (a + b)[1..] == a[1..] + b && (a + b)[0] == a[0];
      StrayFirst(a);
      StrayFirst(a + b);
      hide HasStray;
      StrayEither(a[1..], b);
    }
  }

  lemma HandledTwice(e: Endpoint, h: Endpoint, r: Endpoint, a: seq<Message>, b: seq<Message>, p: seq<Control>,
                     q: seq<Control>, client: bool)
    requires Handled(e, h, a, p, client) && Handled(h, r, b, q, client)
    ensures Handled(e, r, a + b, p + q, client)
  {
    hide Replies, HasStray, Open;
    RepliesConcat(p, q, Open(e), client);
    StrayEither(p, q);
    assert e.received + a + b == e.received + (a + b);
  }

  lemma ControlHandled(e: Endpoint, c: Control, mask: bool, max: nat, client: bool)
    requires c.Short()
    ensures var r := ReceiveAll(e, CutAll([ControlFrame(c, mask)], max), max, client);
      Handled(e, r, [], [c], client) && r.partial == e.partial && r.partialOpcode == e.partialOpcode
  {
    var f := ControlFrame(c, mask);
    assert Cut(f, max) == f;
    assert CutAll([f], max) == [f];
    assert ReceiveAll(e, [f], max, client) == Receive(e, f, max, client);
    hide Cut, CutAll, ReceiveAll;
    StrayFirst([c]);
    assert [c][1..] == [] && !HasStray([]);
    assert Replies([c], Open(e), client) ==
      if c.Ping? then [Frame(PONG, c.data, true, client)]
      else if c.Stray? && Open(e) then [Frame(CLOSE, [], true, client)] else [];
    hide Replies, HasStray;
    assert e.received + [] == e.received && e.replies + [] == e.replies;
  }

  lemma NothingHandled(e: Endpoint, client: bool)
    ensures Handled(e, e, [], [], client)
  {
    assert e.received + [] == e.received && e.replies + [] == e.replies;
  }

  lemma {:induction false} ControlsHandled(e: Endpoint, controls: seq<Control>, mask: bool, max: nat, client: bool)
    requires forall c :: c in controls ==> c.Short()
    ensures var r := ReceiveAll(e, CutAll(ControlFrames(controls, mask), max), max, client);
      Handled(e, r, [], controls, client) && r.partial == e.partial && r.partialOpcode == e.partialOpcode
    decreases |controls|
  {
    if controls == [] {
      NothingHandled(e, client);
    } else {
      hide Receive, ReceiveAll, CutAll, Cut, Handled;
      var c, rest := controls[0], controls[1..];
      assert c.Short() && forall d :: d in rest ==> d.Short();
      ControlHandled(e, c, mask, max, client);
      Continues(e, [ControlFrame(c, mask)], ControlFrames(rest, mask), max, client);
      var h := ReceiveAll(e, CutAll([ControlFrame(c, mask)], max), max, client);
      ControlsHandled(h, rest, mask, max, client);
      HandledTwice(e, h, ReceiveAll(h, CutAll(ControlFrames(rest, mask), max), max, client), [], [], [c], rest, client);
      assert [c] + rest == controls;
    }
  }

  /** Cutting every fragment on arrival and the joined message again is cutting the joined message once. */
  lemma CutTwice(a: seq<Byte>, b: seq<Byte>, max: nat)
    ensures Take(Take(a, max) + Take(b, MaxFrame(max)), max) == Take(a + b, max)
  {
  }

  lemma CutAllConcat(a: seq<Frame>, b: seq<Frame>, max: nat)
    ensures CutAll(a + b, max) == CutAll(a, max) + CutAll(b, max)
  {
  }

  /** One frame and the control frames behind it. */
  lemma FrameAndControls(e: Endpoint, f: Frame, controls: seq<Control>, mask: bool, max: nat, client: bool)
    requires forall c :: c in controls ==> c.Short()
    ensures var h := Receive(e, Cut(f, max), max, client);
      var r := ReceiveAll(e, CutAll([f] + ControlFrames(controls, mask), max), max, client);
      Handled(h, r, [], controls, client) && r.partial == h.partial && r.partialOpcode == h.partialOpcode
  {
    var frames := [f] + ControlFrames(controls, mask);
    assert CutAll(frames, max)[0] == Cut(f, max);
    assert CutAll(frames, max)[1..] == CutAll(ControlFrames(controls, mask), max);
    ControlsHandled(Receive(e, Cut(f, max), max, client), controls, mask, max, client);
    hide Receive, Cut, CutAll, Handled;
  }

  /** What has been handed up by the frame itself comes before what its control frames bring. */
  lemma HandedUp(e: Endpoint, h: Endpoint, r: Endpoint, messages: seq<Message>, controls: seq<Control>, client: bool)
    requires h.received == e.received + messages && h.replies == e.replies
    requires h.connected == e.connected && h.closeSent == e.closeSent && Handled(h, r, [], controls, client)
    ensures Handled(e, r, messages, controls, client)
  {
    hide Replies, HasStray;
    assert e.received + messages + [] == e.received + messages;
  }

  /** A fragment of a message whose data so far is `before`. */
  lemma FragmentHandled(e: Endpoint, p: Part, last: bool, before: seq<Byte>, mask: bool, max: nat, client: bool)
    requires p.Sound() && e.partial == Take(before, max)
    ensures var frames := [Frame(CONTINUATION, p.data, last, mask)] + ControlFrames(p.controls, mask);
      var r := ReceiveAll(e, CutAll(frames, max), max, client);
      && Handled(e, r, if last then [Message(e.partialOpcode == TEXT_FRAME, Take(before + p.data, max))] else [],
                 p.controls, client)
      && r.partial == (if last then [] else Take(before + p.data, max)) && r.partialOpcode == e.partialOpcode
  {
    var f := Frame(CONTINUATION, p.data, last, mask);
    CutTwice(before, p.data, max);
    var h := Receive(e, Cut(f, max), max, client);
    var message := Message(e.partialOpcode == TEXT_FRAME, Take(before + p.data, max));
    assert h == if last then Deliver(e, e.partialOpcode, message.data).(partial := []) else e.(partial := message.data);
    FrameAndControls(e, f, p.controls, mask, max, client);
    hide Receive, Cut, CutAll, ReceiveAll, Handled, Take;
    HandedUp(e, h, ReceiveAll(e, CutAll([f] + ControlFrames(p.controls, mask), max), max, client),
      if last then [message] else [], p.controls, client);
  }

  lemma {:induction false} ContinuedHandled(e: Endpoint, parts: seq<Part>, before: seq<Byte>, mask: bool, max: nat,
                                            client: bool)
    requires parts != [] && (forall p :: p in parts ==> p.Sound()) && e.partial == Take(before, max)
    ensures var r := ReceiveAll(e, CutAll(Continued(parts, mask), max), max, client);
      && Handled(e, r, [Message(e.partialOpcode == TEXT_FRAME, Take(before + Joined(parts), max))], PartControls(parts),
                 client)
      && r.partial == []
    decreases |parts|
  {
    hide Receive, Take, ReceiveAll, CutAll, ControlFrames, MaxFrame, Cut, Handled;
    var first := [Frame(CONTINUATION, parts[0].data, |parts| == 1, mask)] + ControlFrames(parts[0].controls, mask);
    assert parts[0].Sound();
    FragmentHandled(e, parts[0], |parts| == 1, before, mask, max, client);
    Continues(e, first, Continued(parts[1..], mask), max, client);
    var h := ReceiveAll(e, CutAll(first, max), max, client);
    if |parts| == 1 {
      OnePart(parts);
      EmptyTail(h, mask, max, client);
    } else {
      assert forall p :: p in parts[1..] ==> p in parts;
      ContinuedHandled(h, parts[1..], before + parts[0].data, mask, max, client);
      assert before + parts[0].data + Joined(parts[1..]) == before + Joined(parts);
      var message := Message(e.partialOpcode == TEXT_FRAME, Take(before + Joined(parts), max));
      HandledTwice(e, h, ReceiveAll(h, CutAll(Continued(parts[1..], mask), max), max, client), [], [message],
        parts[0].controls, PartControls(parts[1..]), client);
      assert [] + [message] == [message];
    }
  }

  lemma OnePart(parts: seq<Part>)
    requires |parts| == 1
    ensures Joined(parts) == parts[0].data && PartControls(parts) == parts[0].controls
  {
    assert parts[0].data + [] == parts[0].data && parts[0].controls + [] == parts[0].controls;
  }

  lemma EmptyTail(h: Endpoint, mask: bool, max: nat, client: bool)
    ensures ReceiveAll(h, CutAll(Continued([], mask), max), max, client) == h
  {
  }

  /** Receiving one list after another. */
  lemma Continues(e: Endpoint, a: seq<Frame>, b: seq<Frame>, max: nat, client: bool)
    ensures ReceiveAll(e, CutAll(a + b, max), max, client)
         == ReceiveAll(ReceiveAll(e, CutAll(a, max), max, client), CutAll(b, max), max, client)
  {
    hide ReceiveAll;
    CutAllConcat(a, b, max);
    ReceiveConcat(e, CutAll(a, max), CutAll(b, max), max, client);
  }

  /** The first fragment of a message, when nothing is left over from the one before. */
  lemma FirstHandled(e: Endpoint, l: Letter, mask: bool, max: nat, client: bool)
    requires l.Sound() && e.partial == []
    ensures var p, last := l.parts[0], |l.parts| == 1;
      var r := ReceiveAll(e, CutAll([FirstFrame(l, mask)] + ControlFrames(p.controls, mask), max), max, client);
      && Handled(e, r, if last then [Message(l.text, Take(p.data, max))] else [], p.controls, client)
      && r.partial == (if last then [] else Take(p.data, max))
      && r.partialOpcode == (if l.text then TEXT_FRAME else BINARY_FRAME)
  {
    var p, f, last := l.parts[0], FirstFrame(l, mask), |l.parts| == 1;
    assert p.Sound();
    CutTwice([], p.data, max);
    assert Take([], max) + Take(p.data, MaxFrame(max)) == Take(p.data, MaxFrame(max)) && [] + p.data == p.data;
    var h := Receive(e, Cut(f, max), max, client);
    var begun := e.(partialOpcode := f.opcode);
    assert h == if last then Deliver(begun, f.opcode, Take(p.data, max)) else begun.(partial := Take(p.data, max));
    FrameAndControls(e, f, p.controls, mask, max, client);
    hide Receive, Cut, CutAll, ReceiveAll, Handled, Take;
    HandedUp(e, h, ReceiveAll(e, CutAll([f] + ControlFrames(p.controls, mask), max), max, client),
      if last then [Message(l.text, Take(p.data, max))] else [], p.controls, client);
  }

  lemma LetterHandled(e: Endpoint, l: Letter, mask: bool, max: nat, client: bool)
    requires l.Sound() && e.partial == []
    ensures var r := ReceiveAll(e, CutAll(LetterFrames(l, mask), max), max, client);
      && Handled(e, r, [Message(l.text, Take(Joined(l.parts), max))], PartControls(l.parts), client)
      && r.partial == []
  {
    hide Receive, Take, ReceiveAll, CutAll, ControlFrames, FirstFrame, Handled;
    var p := l.parts[0];
    var first := [FirstFrame(l, mask)] + ControlFrames(p.controls, mask);
    FirstHandled(e, l, mask, max, client);
    Continues(e, first, Continued(l.parts[1..], mask), max, client);
    var h := ReceiveAll(e, CutAll(first, max), max, client);
    if |l.parts| == 1 {
      OnePart(l.parts);
      EmptyTail(h, mask, max, client);
    } else {
      ContinuedHandled(h, l.parts[1..], p.data, mask, max, client);
      assert h.partialOpcode == TEXT_FRAME <==> l.text;
      var message := Message(l.text, Take(Joined(l.parts), max));
      HandledTwice(e, h, ReceiveAll(h, CutAll(Continued(l.parts[1..], mask), max), max, client), [], [message],
        p.controls, PartControls(l.parts[1..]), client);
      assert [] + [message] == [message];
    }
  }

  lemma {:induction false} LettersHandled(e: Endpoint, letters: seq<Letter>, mask: bool, max: nat, client: bool)
    requires AllSound(letters) && e.partial == []
    ensures var r := ReceiveAll(e, CutAll(AllFrames(letters, mask), max), max, client);
      Handled(e, r, Messages(letters, max), AllControls(letters), client) && r.partial == []
    decreases |letters|
  {
    hide Receive, CutAll, LetterFrames, PartControls, Handled;
    if letters == [] {
      NothingHandled(e, client);
    } else {
      hide ReceiveAll;
      var first, rest := LetterFrames(letters[0], mask), AllFrames(letters[1..], mask);
      assert letters[0].Sound();
      LetterHandled(e, letters[0], mask, max, client);
      Continues(e, first, rest, max, client);
      var h := ReceiveAll(e, CutAll(first, max), max, client);
      LettersHandled(h, letters[1..], mask, max, client);
      HandledTwice(e, h, ReceiveAll(h, CutAll(rest, max), max, client),
        [Message(letters[0].text, Take(Joined(letters[0].parts), max))], Messages(letters[1..], max),
        PartControls(letters[0].parts), AllControls(letters[1..]), client);
    }
  }

  lemma FarewellHandled(h: Endpoint, closing: bool, reason: seq<Byte>, mask: bool, max: nat, client: bool)
    ensures var r := ReceiveAll(h, CutAll(Farewell(closing, reason, mask), max), max, client);
      && r.received == h.received && (r.connected <==> h.connected && !closing)
      && r.replies == h.replies + (if closing && Open(h) then [Frame(CLOSE, [], true, client)] else [])
  {
    if closing {
      var f := Frame(CLOSE, reason, true, mask);
      assert CutAll([f], max) == [Cut(f, max)];
      assert ReceiveAll(h, [Cut(f, max)], max, client) == Receive(h, Cut(f, max), max, client);
    }
    assert h.replies + [] == h.replies;
  }

  lemma {:induction false} ContinuedSendable(parts: seq<Part>, mask: bool)
    requires forall p :: p in parts ==> p.Sound()
    ensures Sendable(Continued(parts, mask))
  {
    if parts != [] {
      assert parts[0].Sound();
      ControlsSendable(parts[0].controls, mask);
      ContinuedSendable(parts[1..], mask);
    }
  }

  lemma {:induction false} ControlsSendable(controls: seq<Control>, mask: bool)
    requires forall c :: c in controls ==> c.Short()
    ensures Sendable(ControlFrames(controls, mask))
  {
    if controls != [] {
      assert controls[0].Short();
      ControlsSendable(controls[1..], mask);
    }
  }

  lemma {:induction false} LettersSendable(letters: seq<Letter>, mask: bool)
    requires AllSound(letters)
    ensures Sendable(AllFrames(letters, mask))
  {
    if letters != [] {
      var l := letters[0];
      assert l.Sound() && l.parts[0].Sound();
      ControlsSendable(l.parts[0].controls, mask);
      ContinuedSendable(l.parts[1..], mask);
      LettersSendable(letters[1..], mask);
    }
  }

  function Stream(letters: seq<Letter>, closing: bool, reason: seq<Byte>, mask: bool): seq<Frame> {
    AllFrames(letters, mask) + Farewell(closing, reason, mask)
  }

  /** What the sender puts on the wire. */
  ghost function Wire(letters: seq<Letter>, closing: bool, reason: seq<Byte>, mask: bool, keys: seq<Key>): seq<Byte>
    requires AllSound(letters) && |reason| < LENGTH_LIMIT && |keys| == |Stream(letters, closing, reason, mask)|
  {
    LettersSendable(letters, mask);
    Sent(Stream(letters, closing, reason, mask), keys)
  }

  /** End to end: messages cut into fragments with pings, pongs and stray frames in between, and a close frame at
      the end or none, masked with any keys, sent, and received in chunks cut anywhere, arrive in order, whole up to
      the permitted size. Every ping is answered, and the first stray or close frame by one close frame, if none
      was sent before; only the peer's close frame ends the connection. */
  lemma MessagesArrive(e: Endpoint, letters: seq<Letter>, closing: bool, reason: seq<Byte>, mask: bool, keys: seq<Key>,
                       chunks: seq<seq<Byte>>, max: nat, client: bool)
    requires AllSound(letters) && |reason| < LENGTH_LIMIT && e.partial == [] && e.connected
    requires |keys| == |Stream(letters, closing, reason, mask)|
    requires Flatten(chunks) == Wire(letters, closing, reason, mask, keys)
    ensures var fed := FeedAll(Receiver([], 0), chunks, max);
      var r := ReceiveAll(e, fed.frames, max, client);
      var controls := AllControls(letters);
      && fed.state == Receiver([], 0) && r.received == e.received + Messages(letters, max)
      && r.replies == e.replies + Replies(controls, Open(e), client)
           + (if closing && Open(e) && !HasStray(controls) then [Frame(CLOSE, [], true, client)] else [])
      && (r.connected <==> !closing)
  {
    LettersSendable(letters, mask);
    FramesArrive(Stream(letters, closing, reason, mask), keys, chunks, max);
    hide FeedAll, CutAll, Receive, ReceiveAll, AllFrames, Messages, Replies, HasStray, AllControls;
    LettersHandled(e, letters, mask, max, client);
    Continues(e, AllFrames(letters, mask), Farewell(closing, reason, mask), max, client);
    var h := ReceiveAll(e, CutAll(AllFrames(letters, mask), max), max, client);
    FarewellHandled(h, closing, reason, mask, max, client);
    hide Stream, Farewell;
  }
}
