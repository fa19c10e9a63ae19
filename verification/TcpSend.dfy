/** The TCP send path: messages are written out as far as the socket takes them, the rest is queued. */
module TcpSend {
  import opened Wrappers
  import opened Octets
  import opened Queues

  /** What the operating system says to one write. */
  datatype Answer = Wrote(count: nat) | WouldBlock | Broken

  /** What became of one message, or of the whole queue. */
  datatype Progress = Done | Blocked | Failed

  class TcpTransport {
    const sendQueue: Queue<seq<Byte>>
    var bufferedAmount: nat
    /** Bytes the socket has taken, and bytes submitted by the caller. */
    ghost var wire: seq<Byte>
    ghost var submitted: seq<Byte>
    /** How often the socket has refused a write. */
    ghost var refusals: nat

    ghost predicate Sane()
      reads this, sendQueue
    {
      && sendQueue.limit == 0 && !sendQueue.stopping && sendQueue.Accounted()
      && (forall m: seq<Byte> :: sendQueue.amountOf(m) == 1)
    }

    /** Nothing is lost, repeated or reordered, and the buffered amount is what is queued. */
    ghost predicate Valid()
      reads this, sendQueue
    {
      Sane() && submitted == wire + Flatten(sendQueue.items) && bufferedAmount == |Flatten(sendQueue.items)|
    }

    constructor ()
      ensures Valid() && fresh(sendQueue) && submitted == []
    {
      sendQueue := new Queue(0, _ => 1);
      bufferedAmount := 0;
      wire, submitted, refusals := [], [], 0;
    }

    /** One write: the socket takes some of the data, or none. */
    method SocketSend(data: seq<Byte>) returns (a: Answer)
      requires data != []
      modifies `wire, `refusals
      ensures refusals == old(refusals) + (if a.Wrote? then 0 else 1)
      ensures a.Wrote? ==> 1 <= a.count <= |data| && wire == old(wire) + data[..a.count]
      ensures !a.Wrote? ==> wire == old(wire)
    {
      var count: nat, refused: bool, blocked: bool := *, *, *;
      if refused {
        refusals := refusals + 1;
        return if blocked then WouldBlock else Broken;
      }
      if count < 1 || count > |data| { count := |data|; }
      wire := wire + data[..count];
      return Wrote(count);
    }

    /** Writes until the message is out or the socket refuses, and stops for no other reason; what is left is
        returned. */
    method TrySendMessage(message: seq<Byte>) returns (r: Progress, rest: seq<Byte>)
      modifies `wire, `refusals
      ensures refusals == old(refusals) + (if r.Done? then 0 else 1)
      ensures r.Done? ==> rest == [] && wire == old(wire) + message
      ensures r.Blocked? ==> wire + rest == old(wire) + message && |rest| <= |message|
      ensures r.Failed? ==> rest == message && old(wire) <= wire <= old(wire) + message
    {
      rest := message;
      while rest != []
        invariant wire + rest == old(wire) + message && |rest| <= |message| && refusals == old(refusals)
        decreases |rest|
      {
        var a := SocketSend(rest);
        match a
        case Wrote(count) => rest := rest[count..];
        case WouldBlock => return Blocked, rest;
        case Broken =>
          assert (old(wire) + message)[..|wire|] == wire && |old(wire)| <= |wire|;
          return Failed, message;
      }
      assert wire + [] == wire;
      return Done, [];
    }

    /** The amount never needs to be held at zero. */
    method UpdateBufferedAmount(delta: int)
      requires bufferedAmount + delta >= 0
      modifies `bufferedAmount
      ensures bufferedAmount == old(bufferedAmount) + delta
    {
      if delta == 0 { return; }
      bufferedAmount := if bufferedAmount + delta > 0 then bufferedAmount + delta else 0;
    }

    /** The queue is written out from the front, until it is empty or the socket refuses. */
    method TrySendQueue() returns (r: Progress)
      requires Valid()
      modifies this, sendQueue
      ensures refusals == old(refusals) + (if r.Done? then 0 else 1)
      ensures submitted == old(submitted) && Sane()
      ensures r.Failed? ==> old(wire) <= wire <= submitted
      ensures !r.Failed? ==> Valid()
      ensures r.Done? ==> sendQueue.items == []
    {
      while true
        invariant Valid() && submitted == old(submitted) && old(wire) <= wire && refusals == old(refusals)
        decreases |sendQueue.items|
      {
        var next := sendQueue.Peek();
        if next.None? { return Done; }
        var message := next.value;
        ghost var before, later := wire, Flatten(sendQueue.items[1..]);
        var rest;
        r, rest := TrySendMessage(message);
        if r.Failed? {
          assert submitted == before + message + later;
          return;
        }
        if r.Blocked? {
          PutBack(rest, before);
          return;
        }
        DropFront(before);
      }
    }

    /** The front message has been written in part; its rest takes its place. */
    method PutBack(rest: seq<Byte>, ghost before: seq<Byte>)
      requires Sane() && sendQueue.items != [] && submitted == before + Flatten(sendQueue.items)
      requires bufferedAmount == |Flatten(sendQueue.items)|
      requires wire + rest == before + sendQueue.items[0] && |rest| <= |sendQueue.items[0]|
      modifies `bufferedAmount, sendQueue
      ensures Valid()
    {
      ghost var message, later := sendQueue.items[0], Flatten(sendQueue.items[1..]);
      assert before + (message + later) == wire + (rest + later) by {
        assert before + (message + later) == before + message + later;
        assert wire + (rest + later) == wire + rest + later;
      }
      var front := sendQueue.Exchange(rest);
      UpdateBufferedAmount(-|front.value| + |rest|);
    }

    /** The front message has been written. */
    method DropFront(ghost before: seq<Byte>)
      requires Sane() && sendQueue.items != [] && submitted == before + Flatten(sendQueue.items)
      requires bufferedAmount == |Flatten(sendQueue.items)|
      requires wire == before + sendQueue.items[0]
      modifies `bufferedAmount, sendQueue
      ensures Valid() && sendQueue.items == old(sendQueue.items[1..])
    {
      ghost var message, later := sendQueue.items[0], Flatten(sendQueue.items[1..]);
      assert before + (message + later) == before + message + later;
      var front := sendQueue.Pop();
      UpdateBufferedAmount(-|front.value|);
    }

    /** A message is written out behind the queue, or what is left of it queued when the socket refuses. */
    method Outgoing(message: seq<Byte>) returns (r: Progress)
      requires Valid()
      modifies this, sendQueue
      ensures refusals == old(refusals) + (if r.Done? then 0 else 1)
      ensures submitted == old(submitted) + message && Sane()
      ensures r.Failed? ==> old(wire) <= wire <= submitted
      ensures !r.Failed? ==> Valid()
      ensures r.Done? ==> sendQueue.items == [] && wire == submitted
    {
      r := TrySendQueue();
      submitted := submitted + message;
      if r.Failed? { return; }
      var rest := message;
      if r.Done? {
        assert wire == old(submitted);
        r, rest := TrySendMessage(message);
        if !r.Blocked? { return; }
      }
      FlattenAppend(sendQueue.items, rest);
      sendQueue.Push(rest);
      UpdateBufferedAmount(|rest|);
    }
  }
}
