/** The session object: each handler, and each stretch of the pump between two suspensions, changes the
    variables the handlers share, and is tied to its specification. */
module CreditSession {
  import opened Wrappers
  import Spec = CreditWindow
  import opened CreditWindow

  class LatestSession {
    var closed: bool
    var open: bool
    var busy: bool
    var phase: Phase
    var deadline: real
    var lastSent: nat
    var window: nat
    var started: bool
    var inflight: set<nat>
    ghost var sent: seq<nat>
    ghost var acked: set<nat>
    var noticed: bool

    /** The variables and the history as one value. */
    ghost function Value(): Session
      reads this
    {
      Session(closed, open, busy, phase, deadline, lastSent, window, started, inflight, sent, acked, noticed)
    }

    constructor ()
      ensures Value() == Attached()
    {
      closed, open, busy, phase, deadline := false, true, false, Idle, 0.0;
      lastSent, window, started, inflight := 0, 1, false, {};
      sent, acked, noticed := [], {}, false;
    }

    method Leave()
      modifies this
      ensures Value() == Spec.Leave(old(Value()))
    {
      busy, phase := false, Idle;
    }

    method Notice()
      modifies this
      ensures Value() == Spec.Notice(old(Value()))
    {
      noticed := true;
      Leave();
    }

    method Loop()
      modifies this
      ensures Value() == Spec.Loop(old(Value()))
    {
      if !closed && open && |inflight| < window { phase := Reading; } else { Leave(); }
    }

    method Pump(now: real)
      modifies this
      ensures Value() == Spec.Pump(old(Value()), now)
    {
      if closed || busy { return; }
      busy, noticed := true, false;
      deadline := now + WAIT_MS;
      Loop();
    }

    method ReadEnds(frame: Option<nat>, now: real)
      modifies this
      ensures Value() == Step(old(Value()), Event.ReadEnds(frame, now))
    {
      if closed || !open {
        Leave();
      } else if frame.Some? {
        lastSent := frame.value;
        inflight := inflight + {lastSent};
        sent := sent + [lastSent];
        phase := Sending;
      } else if now >= deadline {
        Notice();
      } else {
        phase := Sleeping;
      }
    }

    method SendEnds(now: real)
      modifies this
      ensures Value() == Step(old(Value()), Event.SendEnds(now))
    {
      deadline := now + WAIT_MS;
      Loop();
    }

    method SleepEnds()
      modifies this
      ensures Value() == Step(old(Value()), Event.SleepEnds)
    {
      Loop();
    }

    /** A failed read or a failed send. */
    method Fails()
      modifies this
      ensures Value() == Step(old(Value()), ReadFails) == Step(old(Value()), SendFails)
    {
      Notice();
    }

    method OnMessage(message: Message, now: real)
      modifies this
      ensures Value() == Step(old(Value()), MessageArrives(message, now))
    {
      if closed { return; }
      match message
      case Unacceptable => open := false;
      case ClockRequest =>
      case FrameRequest(after, asked) =>
        if !started {
          var credit := if asked.Some? then asked.value else 1;
          if after != 0 || credit !in {1, 2} {
            open := false;
            return;
          }
          window, started := credit, true;
        } else if after in inflight {
          inflight := inflight - {after};
          acked := acked + {after};
        } else if !(inflight == {} && after == lastSent) {
          return;
        }
        Pump(now);
    }

    method OnClose()
      modifies this
      ensures Value() == Step(old(Value()), CloseEvent)
    {
      closed := true;
      inflight := {};
    }
  }
}
