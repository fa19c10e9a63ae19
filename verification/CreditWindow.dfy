/** The fallback video session: frames are sent while acknowledgements leave credit. The pump is a coroutine,
    suspended while a read, a send or a sleep is going on; every step runs from one suspension to the next. */
module CreditWindow {
  import opened Wrappers
  import opened Ordered

  datatype Phase = Idle | Reading | Sending | Sleeping

  /** `sent` and `acked` are the history of stamps sent and acknowledged; `noticed` says that the pump ran last
      up to a wait or error notice. */
  datatype Session = Session(
    closed: bool, open: bool, busy: bool, phase: Phase, deadline: real,
    lastSent: nat, window: nat, started: bool, inflight: set<nat>,
    sent: seq<nat>, acked: set<nat>, noticed: bool)

  const WAIT_MS := 1000.0

  function Attached(): Session {
    Session(false, true, false, Idle, 0.0, 0, 1, false, {}, [], {}, false)
  }

  datatype Message =
    | Unacceptable
    | ClockRequest
    | FrameRequest(after: nat, window: Option<int>)

  datatype Event =
    | MessageArrives(message: Message, now: real)
    | ReadEnds(frame: Option<nat>, now: real)
    | ReadFails
    | SendEnds(now: real)
    | SendFails
    | SleepEnds
    | SocketCloses
    | CloseEvent

  // ---- the pump, from one suspension to the next ----

  function Leave(s: Session): Session { s.(busy := false, phase := Idle) }

  function Notice(s: Session): Session { Leave(s).(noticed := true) }

  /** The head of the loop. */
  function Loop(s: Session): Session {
    if !s.closed && s.open && |s.inflight| < s.window then s.(phase := Reading) else Leave(s)
  }

  function Pump(s: Session, now: real): Session {
    if s.closed || s.busy then s else Loop(s.(busy := true, noticed := false, deadline := now + WAIT_MS))
  }

  function Answered(s: Session, frame: Option<nat>, now: real): Session {
    if s.closed || !s.open then Leave(s)
    else
      match frame
      case Some(published) =>
        s.(lastSent := published, inflight := s.inflight + {published}, sent := s.sent + [published], phase := Sending)
      case None => if now >= s.deadline then Notice(s) else s.(phase := Sleeping)
  }

  // ---- the message handler ----

  function Refuse(s: Session): Session { s.(open := false) }

  function Request(s: Session, after: nat, window: Option<int>, now: real): Session {
    if !s.started then
      var asked := if window.Some? then window.value else 1;
      if after != 0 || asked !in {1, 2} then Refuse(s) else Pump(s.(window := asked, started := true), now)
    else if after in s.inflight then Pump(s.(inflight := s.inflight - {after}, acked := s.acked + {after}), now)
    else if s.inflight == {} && after == s.lastSent then Pump(s, now)
    else s
  }

  function Step(s: Session, e: Event): Session {
    match e
    case MessageArrives(message, now) =>
      if s.closed then s
      else
        (match message
         case Unacceptable => Refuse(s)
         case ClockRequest => s
         case FrameRequest(after, window) => Request(s, after, window, now))
    case ReadEnds(frame, now) => Answered(s, frame, now)
    case ReadFails => Notice(s)
    case SendEnds(now) => Loop(s.(deadline := now + WAIT_MS))
    case SendFails => Notice(s)
    case SleepEnds => Loop(s)
    case SocketCloses => Refuse(s)
    case CloseEvent => s.(closed := true, inflight := {})
  }

  /** What can happen next; a read returns nothing, or a frame published after the last one sent. */
  ghost predicate Enabled(s: Session, e: Event) {
    match e
    case ReadEnds(frame, _) => s.phase == Reading && (frame.Some? ==> frame.value > s.lastSent)
    case ReadFails => s.phase == Reading
    case SendEnds(_) => s.phase == Sending
    case SendFails => s.phase == Sending
    case SleepEnds => s.phase == Sleeping
    case _ => true
  }

  ghost predicate Increasing(sent: seq<nat>) { forall i, j :: 0 <= i < j < |sent| ==> sent[i] < sent[j] }

  /** Stamps increase, and each is in flight or acknowledged, never both. */
  ghost predicate Ledger(s: Session) {
    && Increasing(s.sent) && (forall x :: x in s.sent ==> x <= s.lastSent)
    && (!s.closed ==> Elements(s.sent) == s.inflight + s.acked)
    && s.inflight !! s.acked && s.acked <= Elements(s.sent)
  }

  ghost predicate Control(s: Session) {
    && (s.busy <==> s.phase != Idle)
    && s.window in {1, 2} && |s.inflight| <= s.window
    && (!s.started ==> s.inflight == {} && s.phase == Idle)
    // a suspended read or sleep still has credit
    && (s.phase in {Reading, Sleeping} && !s.closed ==> |s.inflight| < s.window)
    // an idle open session has no credit left, or has said that it waits
    && (s.phase == Idle && s.started && s.open && !s.closed ==> |s.inflight| == s.window || s.noticed)
  }

  ghost predicate Inv(s: Session) { Ledger(s) && Control(s) }

  lemma Acknowledged(s: Session, after: nat)
    requires Inv(s) && !s.closed && after in s.inflight
    ensures var t := s.(inflight := s.inflight - {after}, acked := s.acked + {after});
      Ledger(t) && |t.inflight| == |s.inflight| - 1
  {
    var t := s.(inflight := s.inflight - {after}, acked := s.acked + {after});
    hide Increasing, Elements, Control;
    assert t.inflight + t.acked == s.inflight + s.acked;
  }

  /** The pump only moves the control state. */
  lemma PumpKeeps(s: Session, t: Session, now: real)
    requires Ledger(t) && Control(s) && s.started && t == s.(inflight := t.inflight, acked := t.acked)
    requires |t.inflight| <= |s.inflight|
    ensures Inv(Pump(t, now))
  {
    hide Increasing, Elements, Ledger;
    LedgerIgnoresControl(t, Pump(t, now));
  }

  lemma LedgerIgnoresControl(s: Session, r: Session)
    requires Ledger(s) && r.sent == s.sent && r.inflight == s.inflight && r.acked == s.acked
    requires r.lastSent == s.lastSent && r.closed == s.closed
    ensures Ledger(r)
  {
    hide Increasing, Elements;
  }

  lemma RequestKeeps(s: Session, after: nat, window: Option<int>, now: real)
    requires Inv(s) && !s.closed
    ensures Inv(Request(s, after, window, now))
  {
    hide Increasing, Elements, Ledger;
    if !s.started {
      var asked := if window.Some? then window.value else 1;
      if after != 0 || asked !in {1, 2} {
        LedgerIgnoresControl(s, Refuse(s));
      } else {
        LedgerIgnoresControl(s, Pump(s.(window := asked, started := true), now));
      }
    } else if after in s.inflight {
      Acknowledged(s, after);
      hide Control, Pump;
      PumpKeeps(s, s.(inflight := s.inflight - {after}, acked := s.acked + {after}), now);
    } else {
      hide Control, Pump;
      PumpKeeps(s, s, now);
    }
  }

  lemma SentOneMore(s: Session, x: nat)
    requires Ledger(s) && !s.closed && x > s.lastSent
    ensures Ledger(s.(lastSent := x, inflight := s.inflight + {x}, sent := s.sent + [x])) && x !in s.inflight
  {
    ElementsGrow(s.sent, x);
    NextStamp(s.sent, s.lastSent, x);
    hide Elements, Increasing;
    var r := s.(lastSent := x, inflight := s.inflight + {x}, sent := s.sent + [x]);
    assert forall y :: y in r.sent ==> y in s.sent || y == x;
    SetsGrow(Elements(s.sent), s.inflight, s.acked, x);
  }

  lemma SetsGrow(all: set<nat>, inflight: set<nat>, acked: set<nat>, x: nat)
    requires all == inflight + acked && inflight !! acked && x !in all
    ensures all + {x} == (inflight + {x}) + acked && (inflight + {x}) !! acked && acked <= all + {x} && x !in inflight
  {
  }

  lemma NextStamp(sent: seq<nat>, last: nat, x: nat)
    requires Increasing(sent) && (forall y :: y in sent ==> y <= last) && last < x
    ensures Increasing(sent + [x]) && x !in Elements(sent)
  {
    hide Elements;
    var r := sent + [x];
    forall i, j | 0 <= i < j < |r| ensures r[i] < r[j] {
      if j == |sent| { assert sent[i] in sent; }
    }
  }

  lemma ElementsGrow(sent: seq<nat>, x: nat)
    ensures Elements(sent + [x]) == Elements(sent) + {x}
  {
    assert (sent + [x])[..|sent|] == sent;
  }

  lemma AnsweredKeeps(s: Session, frame: Option<nat>, now: real)
    requires Inv(s) && s.phase == Reading && (frame.Some? ==> frame.value > s.lastSent)
    ensures Inv(Answered(s, frame, now))
  {
    hide Increasing, Elements, Ledger;
    if !s.closed && s.open && frame.Some? {
      SentOneMore(s, frame.value);
      LedgerIgnoresControl(
        s.(lastSent := frame.value, inflight := s.inflight + {frame.value}, sent := s.sent + [frame.value]),
        Answered(s, frame, now));
    } else {
      LedgerIgnoresControl(s, Answered(s, frame, now));
    }
  }

  lemma StepKeeps(s: Session, e: Event)
    requires Inv(s) && Enabled(s, e)
    ensures Inv(Step(s, e))
  {
    hide Ledger, Request, Answered;
    match e
    case MessageArrives(message, now) =>
      if !s.closed && message.FrameRequest? {
        RequestKeeps(s, message.after, message.window, now);
      } else {
        LedgerIgnoresControl(s, Step(s, e));
      }
    case ReadEnds(frame, now) =>
      hide Inv;
      AnsweredKeeps(s, frame, now);
    case CloseEvent =>
      hide Inv;
      CloseKeeps(s);
    case _ =>
      hide Inv;
      ControlKeeps(s, e);
  }

  lemma CloseKeeps(s: Session)
    requires Inv(s)
    ensures Inv(Step(s, CloseEvent))
  {
    hide Increasing, Elements;
  }

  lemma ControlKeeps(s: Session, e: Event)
    requires Inv(s) && Enabled(s, e) && !e.MessageArrives? && !e.ReadEnds? && !e.CloseEvent?
    ensures Inv(Step(s, e))
  {
    hide Ledger, Request, Answered;
    LedgerIgnoresControl(s, Step(s, e));
  }

  function After(events: seq<Event>): Session {
    if events == [] then Attached() else Step(After(events[..|events| - 1]), events[|events| - 1])
  }

  ghost predicate Possible(events: seq<Event>) {
    events == [] || (Possible(events[..|events| - 1]) && Enabled(After(events[..|events| - 1]), events[|events| - 1]))
  }

  lemma {:induction false} PossibleInv(events: seq<Event>)
    requires Possible(events)
    ensures Inv(After(events))
  {
    if events != [] {
      hide Step, Enabled, Inv;
      PossibleInv(events[..|events| - 1]);
      StepKeeps(After(events[..|events| - 1]), events[|events| - 1]);
    }
  }

  lemma {:induction false} IncreasingCounts(sent: seq<nat>)
    requires Increasing(sent)
    ensures |Elements(sent)| == |sent|
  {
    if sent != [] {
      var n := |sent| - 1;
      IncreasingCounts(sent[..n]);
      assert sent[n] !in sent[..n];
    }
  }

  /** Over every interleaving of acknowledgements with the suspended pump: the frames not acknowledged never
      exceed the window, every frame sent is in flight or acknowledged but not both, and the stamps increase. */
  lemma CreditIsKept(events: seq<Event>)
    requires Possible(events) && !After(events).closed
    ensures var s := After(events);
      && |s.sent| == |s.inflight| + |s.acked| && |s.inflight| <= s.window <= 2
      && Increasing(s.sent) && forall x: nat :: x in s.sent <==> x in s.inflight || x in s.acked
  {
    PossibleInv(events);
    var s := After(events);
    hide After, Possible;
    IncreasingCounts(s.sent);
    assert |s.inflight + s.acked| == |s.inflight| + |s.acked|;
  }

  /** No stall: a session that is open and has spare credit is running, or has said that it waits or failed. */
  lemma NoSilentStall(events: seq<Event>)
    requires Possible(events)
    ensures var s := After(events);
      s.started && s.open && !s.closed && |s.inflight| < s.window ==> s.busy || s.noticed
  {
    PossibleInv(events);
    hide After, Possible;
  }

  /** An acknowledgement makes room for exactly one frame, and only the first time: whatever is repeated or
      made up leaves the room there is. */
  lemma ForgedCreditIsNone(events: seq<Event>, after: nat, window: Option<int>, now: real)
    requires Possible(events) && After(events).started && !After(events).closed
    ensures var s := After(events);
      var r := Step(s, MessageArrives(FrameRequest(after, window), now));
      && r.window == s.window && r.sent == s.sent
      && r.window - |r.inflight| == s.window - |s.inflight| + (if after in s.sent && after !in s.acked then 1 else 0)
  {
    hide Ledger, Control, After, Possible;
    PossibleInv(events);
    var s := After(events);
    NotYetAcknowledged(s, after);
    if after in s.inflight { assert |s.inflight - {after}| == |s.inflight| - 1; }
  }

  lemma NotYetAcknowledged(s: Session, x: nat)
    requires Ledger(s) && !s.closed
    ensures x in s.sent && x !in s.acked <==> x in s.inflight
  {
    assert x in s.sent <==> x in s.inflight + s.acked;
  }

  // ---- when the pump gives up, and what sets it going again ----

  /** The moment the pump last was set going or finished sending a frame, told by the events alone but for whether
      it was busy. */
  function Since(events: seq<Event>): real {
    if events == [] then 0.0
    else
      var before, e := events[..|events| - 1], events[|events| - 1];
      match e
      case SendEnds(now) => now
      case MessageArrives(_, now) =>
        if !After(before).busy && After(events).busy then now else Since(before)
      case _ => Since(before)
  }

  function LastStamp(sent: seq<nat>): nat { if sent == [] then 0 else sent[|sent| - 1] }

  /** A busy pump waits for one second from then on and has not given up; the last stamp is remembered. */
  ghost predicate Timed(s: Session, since: real) {
    && (s.busy ==> s.deadline == since + 1000.0 && !s.noticed)
    && s.lastSent == LastStamp(s.sent)
  }

  lemma {:induction false} PumpTimed(events: seq<Event>)
    requires Possible(events)
    ensures Timed(After(events), Since(events))
  {
    if events != [] {
      var before, e := events[..|events| - 1], events[|events| - 1];
      PumpTimed(before);
      PossibleInv(before);
      hide Step, Enabled, Ledger, Timed;
      StepTimed(After(before), e, Since(before));
    }
  }

  function Later(s: Session, e: Event, since: real): real {
    if e.SendEnds? then e.now else if e.MessageArrives? && !s.busy && Step(s, e).busy then e.now else since
  }

  lemma StepTimed(s: Session, e: Event, since: real)
    requires (s.busy <==> s.phase != Idle) && Enabled(s, e) && Timed(s, since)
    ensures Timed(Step(s, e), Later(s, e, since))
  {
    if e.MessageArrives? {
      hide Enabled;
      MessageTimed(s, e.message, e.now, since);
    } else if e.ReadEnds? {
      AnsweredTimed(s, e.frame, e.now, since);
      hide Answered, LastStamp;
    } else {
      hide LastStamp;
    }
  }

  lemma AnsweredTimed(s: Session, frame: Option<nat>, now: real, since: real)
    requires s.busy && Timed(s, since)
    ensures Timed(Answered(s, frame, now), since)
  {
  }

  lemma MessageTimed(s: Session, message: Message, now: real, since: real)
    requires Timed(s, since)
    ensures var e := MessageArrives(message, now); Timed(Step(s, e), Later(s, e, since))
  {
    hide LastStamp;
    if message.FrameRequest? && !s.closed {
      RequestTimed(s, message.after, message.window, now, since);
      hide Request;
    }
  }

  lemma RequestTimed(s: Session, after: nat, window: Option<int>, now: real, since: real)
    requires Timed(s, since)
    ensures var r := Request(s, after, window, now); Timed(r, if !s.busy && r.busy then now else since)
  {
    hide LastStamp;
  }

  /** How a read ends, over every possible run: a frame is sent; without one, the pump sleeps and reads again until
      a second has passed since it was set going or last sent a frame, and only then gives notice and stops. A session
      that is no longer open just stops. */
  lemma ReadsUntilDeadline(events: seq<Event>, frame: Option<nat>, now: real)
    requires Possible(events) && Enabled(After(events), ReadEnds(frame, now))
    ensures var s := After(events);
      var r := Step(s, ReadEnds(frame, now));
      if s.closed || !s.open then !r.busy && !r.noticed && r.sent == s.sent
      else if frame.Some? then r.phase == Sending && r.sent == s.sent + [frame.value] && !r.noticed
      else if now < Since(events) + 1000.0 then
        && r == s.(phase := Sleeping) && !r.noticed && Step(r, SleepEnds) == s
      else !r.busy && r.noticed && r.sent == s.sent
  {
    hide After, Since, Possible, Ledger;
    PumpTimed(events);
    PossibleInv(events);
    AnswersExactly(After(events), frame, now, Since(events));
  }

  lemma AnswersExactly(s: Session, frame: Option<nat>, now: real, since: real)
    requires Control(s) && Timed(s, since) && s.phase == Reading
    ensures var r := Step(s, ReadEnds(frame, now));
      if s.closed || !s.open then !r.busy && !r.noticed && r.sent == s.sent
      else if frame.Some? then r.phase == Sending && r.sent == s.sent + [frame.value] && !r.noticed
      else if now < since + 1000.0 then
        && r == s.(phase := Sleeping) && !r.noticed && Step(r, SleepEnds) == s
      else !r.busy && r.noticed && r.sent == s.sent
  {
    hide LastStamp;
  }

  /** What a request does to an open session, told by the stamps sent and acknowledged: the first must ask for
      stamp 0 and a window of one or two, or the connection is closed; a later one sets a resting pump going exactly
      if it acknowledges a frame in flight, or repeats the last stamp when none is. A busy pump it never touches. */
  lemma RequestsExactly(events: seq<Event>, after: nat, window: Option<int>, now: real)
    requires Possible(events) && After(events).open && !After(events).closed
    ensures var s := After(events);
      var r := Step(s, MessageArrives(FrameRequest(after, window), now));
      var asked := if window.Some? then window.value else 1;
      && (!s.started ==>
           if after == 0 && 1 <= asked <= 2 then r.open && r.started && r.window == asked && r.phase == Reading
           else !r.open && !r.started && !r.busy)
      && (s.started ==>
           var first := after in s.sent && after !in s.acked;
           var again := (forall x :: x in s.sent ==> x in s.acked) && after == LastStamp(s.sent);
           && r.open && r.window == s.window && r.acked == (if first then s.acked + {after} else s.acked)
           && (s.busy ==> r.phase == s.phase)
           && (!s.busy ==> r.phase == if first || again then Reading else Idle))
  {
    hide After, Since, Possible, Ledger;
    PumpTimed(events);
    PossibleInv(events);
    var s := After(events);
    NotYetAcknowledged(s, after);
    NoneInFlight(s);
    if s.started { RequestsLater(s, after, window, now); } else { RequestsFirst(s, after, window, now); }
    hide Step, Control, Timed;
  }

  lemma RequestsFirst(s: Session, after: nat, window: Option<int>, now: real)
    requires Control(s) && s.open && !s.closed && !s.started
    ensures var r := Step(s, MessageArrives(FrameRequest(after, window), now));
      var asked := if window.Some? then window.value else 1;
      if after == 0 && 1 <= asked <= 2 then r.open && r.started && r.window == asked && r.phase == Reading
      else !r.open && !r.started && !r.busy
  {
  }

  lemma RequestsLater(s: Session, after: nat, window: Option<int>, now: real)
    requires Control(s) && s.open && !s.closed && s.started && s.lastSent == LastStamp(s.sent)
    ensures var r := Step(s, MessageArrives(FrameRequest(after, window), now));
      && r.open && r.window == s.window && r.acked == (if after in s.inflight then s.acked + {after} else s.acked)
      && (s.busy ==> r.phase == s.phase)
      && (!s.busy ==>
           r.phase == if after in s.inflight || (s.inflight == {} && after == LastStamp(s.sent)) then Reading else Idle)
  {
    if after in s.inflight { assert |s.inflight - {after}| == |s.inflight| - 1; }
    hide LastStamp;
  }

  lemma NoneInFlight(s: Session)
    requires Ledger(s) && !s.closed
    ensures s.inflight == {} <==> forall x :: x in s.sent ==> x in s.acked
  {
    assert forall x :: x in s.sent <==> x in s.inflight || x in s.acked by {
      forall x ensures x in s.sent <==> x in s.inflight || x in s.acked {
        assert x in s.sent <==> x in s.inflight + s.acked;
      }
    }
    if s.inflight != {} {
      var y :| y in s.inflight;
      assert y in s.sent && y !in s.acked;
    }
  }
}
