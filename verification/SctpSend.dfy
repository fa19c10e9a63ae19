/** The SCTP send path: whole messages and stream resets, in the order they were submitted, with an account of
    what is buffered for each stream. The size a message counts for is left open; a reset counts for nothing. */
module SctpSend {
  import opened Wrappers
  import opened Octets
  import opened Queues

  type Stream = x: int | 0 <= x < 0x1_0000

  datatype Kind = Binary | Text | Control | Reset

  datatype Message = Message(kind: Kind, stream: Stream, data: seq<Byte>)

  function Buffered(size: Message -> nat, items: seq<Message>, stream: Stream): nat {
    if items == [] then 0
    else (if items[0].stream == stream then size(items[0]) else 0) + Buffered(size, items[1..], stream)
  }

  lemma {:induction false} BufferedAppend(size: Message -> nat, items: seq<Message>, m: Message, stream: Stream)
    ensures Buffered(size, items + [m], stream)
      == Buffered(size, items, stream) + (if m.stream == stream then size(m) else 0)
  {
    if items == [] {
      assert items + [m] == [m];
    } else {
      assert (items + [m])[1..] == items[1..] + [m];
      BufferedAppend(size, items[1..], m, stream);
    }
  }

  lemma BufferedAppendAll(size: Message -> nat, items: seq<Message>, m: Message)
    ensures forall stream ::
      Buffered(size, items + [m], stream) == Buffered(size, items, stream) + (if m.stream == stream then size(m) else 0)
  {
    forall stream: Stream
      ensures Buffered(size, items + [m], stream)
        == Buffered(size, items, stream) + (if m.stream == stream then size(m) else 0)
    {
      BufferedAppend(size, items, m, stream);
    }
  }

  lemma ShareOfFirst(size: Message -> nat, items: seq<Message>, stream: Stream)
    requires items != []
    ensures Buffered(size, items, stream) == (if items[0].stream == stream then size(items[0]) else 0)
                                             + Buffered(size, items[1..], stream)
  {
  }

  /** Failed and TooLarge are exceptions. */
  datatype Progress = Done | Blocked | Failed | TooLarge

  class SctpTransport {
    const size: Message -> nat
    const maxMessageSize: nat
    const sendQueue: Queue<Message>
    var connected: bool
    var shutdown: bool
    var bufferedAmount: map<Stream, nat>
    /** Messages and resets the socket has taken, those submitted before the queue was stopped, and those that
        the stopped queue has dropped. */
    ghost var handed: seq<Message>
    ghost var submitted: seq<Message>
    ghost var dropped: seq<Message>
    /** How often the socket has refused a message. */
    ghost var refusals: nat

    ghost predicate Sane()
      reads this, sendQueue
    {
      && sendQueue.limit == 0 && sendQueue.amountOf == size && sendQueue.Accounted()
      && (forall m: Message :: m.kind == Reset ==> size(m) == 0)
      && (dropped != [] ==> sendQueue.stopping) && (shutdown ==> sendQueue.stopping && sendQueue.items == [])
    }

    /** Every stream's account is what these messages add up to; empty accounts are removed. */
    ghost predicate Accounts(items: seq<Message>)
      reads this
    {
      forall stream: Stream ::
        && (stream in bufferedAmount <==> Buffered(size, items, stream) > 0)
        && (stream in bufferedAmount ==> bufferedAmount[stream] == Buffered(size, items, stream))
    }

    /** What was submitted is what was handed over, followed by what is queued, in order. What a stopped queue has
        dropped stays in the accounts for good. */
    ghost predicate Valid()
      reads this, sendQueue
    {
      Sane() && submitted == handed + sendQueue.items && Accounts(sendQueue.items + dropped)
    }

    constructor (size: Message -> nat, maxMessageSize: nat)
      requires forall m: Message :: m.kind == Reset ==> size(m) == 0
      ensures Valid() && fresh(sendQueue) && submitted == [] && dropped == [] && connected && !shutdown
    {
      this.size, this.maxMessageSize, connected, shutdown, bufferedAmount := size, maxMessageSize, true, false, map[];
      sendQueue := new Queue(0, size);
      handed, submitted, dropped, refusals := [], [], [], 0;
    }

    /** The message is handed over unless there is no connection or the socket refuses it. */
    method TrySendMessage(m: Message) returns (r: Progress)
      modifies `handed, `refusals
      ensures r.Done? <==> connected && refusals == old(refusals)
      ensures refusals == old(refusals) + (if connected && !r.Done? then 1 else 0)
      ensures handed == if r.Done? then old(handed) + [m] else old(handed)
      ensures (!connected ==> r.Blocked?) && !r.TooLarge?
      ensures connected && m.kind == Reset ==> r.Done?
    {
      if !connected { return Blocked; }
      if m.kind != Reset {
        // the socket takes the whole message, would block, or reports an error
        var refused: bool, blocked: bool := *, *;
        if refused {
          refusals := refusals + 1;
          return if blocked then Blocked else Failed;
        }
      }
      handed := handed + [m];
      return Done;
    }

    /** The account never has to be held at zero. */
    method UpdateBufferedAmount(stream: Stream, delta: int)
      requires (if stream in bufferedAmount then bufferedAmount[stream] else 0) + delta >= 0
      requires forall s :: s in bufferedAmount ==> bufferedAmount[s] > 0
      modifies `bufferedAmount
      ensures var was := if stream in old(bufferedAmount) then old(bufferedAmount)[stream] else 0;
        bufferedAmount ==
          if was + delta == 0 then old(bufferedAmount) - {stream} else old(bufferedAmount)[stream := was + delta]
    {
      var was := if stream in bufferedAmount then bufferedAmount[stream] else 0;
      if delta == 0 {
        assert was == 0 ==> bufferedAmount - {stream} == bufferedAmount;
        assert was > 0 ==> bufferedAmount[stream := was] == bufferedAmount;
        return;
      }
      var amount := if was + delta > 0 then was + delta else 0;
      bufferedAmount := if amount == 0 then bufferedAmount - {stream} else bufferedAmount[stream := amount];
    }

    /** The front of the queue has been handed over. */
    method PopFront()
      requires Sane() && sendQueue.items != [] && Accounts(sendQueue.items + dropped)
      modifies `bufferedAmount, sendQueue
      ensures sendQueue.items == old(sendQueue.items)[1..] && sendQueue.stopping == old(sendQueue.stopping)
      ensures sendQueue.Accounted() && Accounts(sendQueue.items + dropped)
    {
      ghost var all := sendQueue.items + dropped;
      var next := sendQueue.Pop();
      assert all[1..] == sendQueue.items + dropped && all[0] == next.value;
      var counted: int := size(next.value);
      ghost var was := bufferedAmount;
      assert Buffered(size, all, next.value.stream) >= size(next.value);
      UpdateBufferedAmount(next.value.stream, -counted);
      forall stream: Stream ensures Buffered(size, all, stream)
        == (if next.value.stream == stream then size(next.value) else 0) + Buffered(size, all[1..], stream)
      {
        ShareOfFirst(size, all, stream);
      }
      hide Buffered;
    }

    /** Once a stopped queue is empty the socket is shut down, once. */
    method ShutDown()
      requires Valid() && sendQueue.items == []
      modifies `shutdown, `connected
      ensures Valid() && (connected ==> old(connected)) && (!old(sendQueue.stopping) ==> connected == old(connected))
      ensures shutdown <==> sendQueue.stopping
    {
      hide Buffered;
      if sendQueue.stopping && !shutdown {
        shutdown := true;
        var failed: bool := *;
        if failed { connected := false; }
      }
    }

    /** The queue is handed over from the front until it is empty or a message is refused; only a queue that is
        stopped and empty shuts the connection down. */
    method TrySendQueue() returns (r: Progress)
      requires Valid()
      modifies this, sendQueue
      ensures old(connected) ==> refusals == old(refusals) + (if r.Done? then 0 else 1)
      ensures !old(connected) ==> refusals == old(refusals) && (r.Done? <==> old(sendQueue.items) == [])
      ensures Valid() && submitted == old(submitted) && dropped == old(dropped) && old(handed) <= handed
      ensures sendQueue.stopping == old(sendQueue.stopping) && (connected ==> old(connected)) && !r.TooLarge?
      ensures !sendQueue.stopping ==> connected == old(connected)
      ensures r.Done? ==> sendQueue.items == [] && (sendQueue.stopping ==> shutdown)
      ensures !old(connected) && old(sendQueue.items) != [] ==> r.Blocked?
    {
      while true
        invariant Valid() && submitted == old(submitted) && dropped == old(dropped) && old(handed) <= handed
        invariant sendQueue.stopping == old(sendQueue.stopping) && connected == old(connected)
        invariant !connected ==> sendQueue.items == old(sendQueue.items)
        invariant refusals == old(refusals)
        decreases |sendQueue.items|
      {
        var next := sendQueue.Peek();
        hide Accounts, Queue<Message>.Accounted;
        if next.None? {
          ShutDown();
          return Done;
        }
        r := TrySendMessage(next.value);
        if !r.Done? { return; }
        PopFront();
      }
    }

    /** Of a message the connection takes, and of one the queue takes, the place is the next one in the order; a
        stopped queue drops it. Nothing comes of a call that is not connected, or with a message too large. */
    method Send(m: Option<Message>) returns (r: Progress)
      requires Valid()
      modifies this, sendQueue
      ensures Valid() && old(handed) <= handed && sendQueue.stopping == old(sendQueue.stopping)
      ensures !old(connected) ==> r.Blocked?
      ensures r.TooLarge? <==> old(connected) && m.Some? && |m.value.data| > maxMessageSize
      ensures !old(connected) || r.TooLarge? ==> handed == old(handed) && bufferedAmount == old(bufferedAmount)
      ensures submitted == if old(connected) && m.Some? && (r.Done? || (r.Blocked? && !sendQueue.stopping))
        then old(submitted) + [m.value] else old(submitted)
      ensures dropped == if old(connected) && m.Some? && r.Blocked? && sendQueue.stopping
        then old(dropped) + [m.value] else old(dropped)
      ensures r.Done? ==> handed == submitted
      ensures old(connected) && connected ==> refusals == old(refusals) + (if r.Blocked? || r.Failed? then 1 else 0)
    {
      if !connected { return Blocked; }
      hide Accounts, Sane;
      if m.None? {
        r := TrySendQueue();
        return;
      }
      if |m.value.data| > maxMessageSize { return TooLarge; }
      r := TrySendQueue();
      if r.Failed? { return; }
      if r.Done? {
        r := TrySendMessage(m.value);
        if r.Failed? { return; }
        if r.Done? {
          submitted := submitted + [m.value];
          return;
        }
      }
      Enqueue(m.value);
    }

    /** The account grows whether the queue takes the message or not. */
    method Enqueue(m: Message)
      requires Valid()
      modifies this, sendQueue
      ensures Valid() && handed == old(handed) && sendQueue.stopping == old(sendQueue.stopping)
      ensures refusals == old(refusals) && connected == old(connected)
      ensures submitted == if sendQueue.stopping then old(submitted) else old(submitted) + [m]
      ensures dropped == if sendQueue.stopping then old(dropped) + [m] else old(dropped)
    {
      ghost var all := sendQueue.items + dropped;
      BufferedAppendAll(size, all, m);
      Place(m);
      assert sendQueue.items + dropped == all + [m];
      UpdateBufferedAmount(m.stream, size(m));
      hide Buffered, Queue<Message>.Accounted;
    }

    method Place(m: Message)
      requires Sane() && submitted == handed + sendQueue.items
      modifies `submitted, `dropped, sendQueue
      ensures Sane() && submitted == handed + sendQueue.items && sendQueue.stopping == old(sendQueue.stopping)
      ensures submitted == if sendQueue.stopping then old(submitted) else old(submitted) + [m]
      ensures dropped == if sendQueue.stopping then old(dropped) + [m] else old(dropped)
      ensures sendQueue.items + dropped == old(sendQueue.items + dropped) + [m]
    {
      sendQueue.Push(m);
      if sendQueue.stopping { dropped := dropped + [m]; } else { submitted := submitted + [m]; }
    }

    /** A reset takes its place in the queue; it does not change any account. */
    method CloseStream(stream: Stream)
      requires Valid()
      modifies this, sendQueue
      ensures Valid() && handed == old(handed) && bufferedAmount == old(bufferedAmount)
      ensures sendQueue.stopping == old(sendQueue.stopping)
      ensures var m := Message(Reset, stream, []);
        && submitted == (if sendQueue.stopping then old(submitted) else old(submitted) + [m])
        && dropped == (if sendQueue.stopping then old(dropped) + [m] else old(dropped))
    {
      var m := Message(Reset, stream, []);
      BufferedAppendAll(size, sendQueue.items + dropped, m);
      Place(m);
      hide Buffered, Queue<Message>.Accounted;
    }

    method Flush() returns (ok: bool)
      requires Valid()
      modifies this, sendQueue
      ensures Valid() && submitted == old(submitted) && dropped == old(dropped) && old(handed) <= handed
    {
      if !connected { return false; }
      var r := TrySendQueue();
      return !r.Failed?;
    }

    /** From now on the queue drops what is pushed; what it holds is still handed over. */
    method Close()
      requires Valid()
      modifies sendQueue
      ensures Valid() && sendQueue.stopping && sendQueue.items == old(sendQueue.items)
    {
      sendQueue.Stop();
    }

    /** The accounts are those of the queue alone if and only if nothing with a size was dropped. */
    lemma AccountsOfQueueExactly()
      requires Valid()
      ensures Accounts(sendQueue.items) <==> forall m :: m in dropped ==> size(m) == 0
    {
      forall stream: Stream
        ensures Buffered(size, sendQueue.items + dropped, stream)
          == Buffered(size, sendQueue.items, stream) + Buffered(size, dropped, stream)
      {
        BufferedBoth(size, sendQueue.items, dropped, stream);
      }
      if forall m :: m in dropped ==> size(m) == 0 {
        forall stream: Stream ensures Buffered(size, dropped, stream) == 0 { BufferedNothing(size, dropped, stream); }
      } else {
        var i :| 0 <= i < |dropped| && size(dropped[i]) > 0;
        BufferedSomething(size, dropped, i);
      }
      hide Buffered;
    }
  }

  lemma {:induction false} BufferedBoth(size: Message -> nat, a: seq<Message>, b: seq<Message>, stream: Stream)
    ensures Buffered(size, a + b, stream) == Buffered(size, a, stream) + Buffered(size, b, stream)
  {
    if a == [] {
      assert a + b == b;
    } else {
      assert (a + b)[1..] == a[1..] + b;
      BufferedBoth(size, a[1..], b, stream);
    }
  }

  lemma {:induction false} BufferedNothing(size: Message -> nat, items: seq<Message>, stream: Stream)
    requires forall m :: m in items ==> size(m) == 0
    ensures Buffered(size, items, stream) == 0
  {
    if items != [] { BufferedNothing(size, items[1..], stream); }
  }

  lemma {:induction false} BufferedSomething(size: Message -> nat, items: seq<Message>, i: nat)
    requires i < |items| && size(items[i]) > 0
    ensures Buffered(size, items, items[i].stream) > 0
  {
    if i > 0 { BufferedSomething(size, items[1..], i - 1); }
  }
}
