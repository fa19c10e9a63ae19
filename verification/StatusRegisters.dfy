/** The forty status registers: what the station writes into them and what the gateway reads out again. */
module StatusRegisters {
  import opened Wrappers
  import opened Protocol
  import opened MachineWords

  const VERSION := 2
  const STATUS_COUNT := 40

  function StateCode(s: State): int {
    match s
    case IDLE => 1 case EXTENDING => 2 case EXTENDED => 3 case RETRACTING => 4 case FAULT => 5 case STOPPED => 6
  }

  function StateOf(code: int): Option<State> {
    if code == 1 then Some(IDLE) else if code == 2 then Some(EXTENDING) else if code == 3 then Some(EXTENDED)
    else if code == 4 then Some(RETRACTING) else if code == 5 then Some(State.FAULT)
    else if code == 6 then Some(STOPPED) else None
  }

  function ModeCode(m: Mode): int { match m case MANUAL => 1 case AUTO => 2 }

  function FaultCode(f: Fault): int {
    match f
    case NO_FAULT => 0 case TARGET_LIMIT_MISSING => 1 case BOTH_LIMITS => 2
    case SLOW_MOTION => 3 case COMM_SILENT => 4 case FROZEN_HEARTBEAT => 5
  }

  function ResultCode(r: Result): int {
    match r case NO_RESULT => 0 case ACCEPTED => 1 case COMPLETED => 2 case REJECTED => 3 case FAILED => 4
  }

  function ResultOf(code: int): Option<Result> {
    if code == 0 then Some(NO_RESULT) else if code == 1 then Some(ACCEPTED) else if code == 2 then Some(COMPLETED)
    else if code == 3 then Some(REJECTED) else if code == 4 then Some(FAILED) else None
  }

  function ReasonCode(r: Reason): int {
    match r
    case NO_REASON => 0 case BOOT => 1 case SESSION => 2 case EXPIRED => 3 case SEQUENCE => 4 case BUSY => 5
    case INTERLOCK => 6 case PARAMETER => 7 case ACTION_TIMEOUT => 8 case LIMIT_CONFLICT => 9
    case COMM_TIMEOUT => 10 case STOP_REQUESTED => 11 case FAULT_ACTIVE => 12
  }

  function ReasonOf(code: int): Option<Reason> {
    if code == 0 then Some(NO_REASON) else if code == 1 then Some(BOOT) else if code == 2 then Some(SESSION)
    else if code == 3 then Some(EXPIRED) else if code == 4 then Some(SEQUENCE) else if code == 5 then Some(BUSY)
    else if code == 6 then Some(INTERLOCK) else if code == 7 then Some(PARAMETER)
    else if code == 8 then Some(ACTION_TIMEOUT)
    else if code == 9 then Some(LIMIT_CONFLICT) else if code == 10 then Some(COMM_TIMEOUT)
    else if code == 11 then Some(STOP_REQUESTED) else if code == 12 then Some(FAULT_ACTIVE) else None
  }

  function Outputs(s: State): int { if s == EXTENDING then 1 else if s == RETRACTING then 2 else 0 }

  function Bit(b: bool): int { if b then 1 else 0 }

  /** What the station writes into one register; values of 32 bits take two, high word first. */
  function Register(s: Sample, i: nat): int
    requires i < STATUS_COUNT
  {
    if i < 12 then
      if i == 0 then VERSION else if i == 1 then StateCode(s.state) else if i == 2 then ModeCode(s.mode)
      else if i == 3 then Bit(s.home) + 2 * Bit(s.extended) + 4 else if i == 4 then Outputs(s.state)
      else if i == 5 then ReasonCode(s.alarm) else if i == 6 then High(s.cycles) else if i == 7 then Low(s.cycles)
      else if i == 8 then High(s.lastActionMs) else if i == 9 then Low(s.lastActionMs) else if i == 10 then 0 else 3
    else if i < 26 then
      if i == 12 then High(s.heartbeat) else if i == 13 then Low(s.heartbeat)
      else if i == 14 then High(s.statusSequence) else if i == 15 then Low(s.statusSequence)
      else if i == 16 then High(s.boot) else if i == 17 then Low(s.boot)
      else if i == 18 then High(s.owner) else if i == 19 then Low(s.owner)
      else if i == 20 then High(s.uptime) else if i == 21 then Low(s.uptime)
      else if i == 22 then High(s.activeSequence) else if i == 23 then Low(s.activeSequence)
      else if i == 24 then High(s.ackSequence) else Low(s.ackSequence)
    else
      if i == 26 then ResultCode(s.ackResult) else if i == 27 then ReasonCode(s.ackReason)
      else if i == 28 then s.permille else if i == 29 then FaultCode(s.fault)
      else if i == 30 then High(s.motionStarts) else if i == 31 then Low(s.motionStarts)
      else if i == 32 then High(s.finishedSequence) else if i == 33 then Low(s.finishedSequence)
      else if i == 34 then ResultCode(s.finishedResult) else if i == 35 then ReasonCode(s.finishedReason)
      else if i == 36 then High(s.finishedDuration) else if i == 37 then Low(s.finishedDuration)
      else if i == 38 then s.lease else 0
  }

  function Encode(s: Sample): (r: seq<int>)
    ensures |r| == STATUS_COUNT && forall i :: 0 <= i < |r| ==> r[i] == Register(s, i)
  {
    seq(STATUS_COUNT, i requires 0 <= i < STATUS_COUNT => Register(s, i))
  }

  /** Two registers, high word first. */
  function Joined(r: seq<int>, offset: nat): U32
    requires offset + 1 < |r|
  {
    (r[offset] * 0x1_0000 + r[offset + 1]) % 0x1_0000_0000
  }

  /** What the gateway knows of a status: the sample, the bits that follow from the state, and the fixed ones. */
  datatype Status = Status(sample: Sample, permit: bool, extendOutput: bool, retractOutput: bool, quality: int)

  /** The right length and version, and a device that says it is simulated. */
  predicate Compatible(r: seq<int>) { |r| == STATUS_COUNT && r[0] == VERSION && r[11] % 2 == 1 }

  /** Every register that holds a code holds a known one. */
  predicate KnownCodes(r: seq<int>)
    requires |r| == STATUS_COUNT
  {
    && StateOf(r[1]).Some? && ModeOf(r[2]).Some? && ReasonOf(r[5]).Some? && ResultOf(r[26]).Some?
    && ReasonOf(r[27]).Some? && FaultOf(r[29]).Some? && ResultOf(r[34]).Some? && ReasonOf(r[35]).Some?
  }

  /** Refused unless the device is compatible and every code is known. */
  function Decode(r: seq<int>): (s: Option<Status>)
    ensures s.Some? <==> Compatible(r) && KnownCodes(r)
  {
    if |r| != STATUS_COUNT || r[0] != VERSION || r[11] % 2 != 1 then None
    else if StateOf(r[1]).None? || ModeOf(r[2]).None? || ReasonOf(r[5]).None? || ResultOf(r[26]).None?
            || ReasonOf(r[27]).None? || FaultOf(r[29]).None? || ResultOf(r[34]).None? || ReasonOf(r[35]).None? then None
    else
      var sample := Sample(
        StateOf(r[1]).value, ModeOf(r[2]).value, r[3] % 2 == 1, r[3] / 2 % 2 == 1, ReasonOf(r[5]).value,
        Joined(r, 6), Joined(r, 8), Joined(r, 12), Joined(r, 14), Joined(r, 16), Joined(r, 18), Joined(r, 20),
        Joined(r, 22), Joined(r, 24), ResultOf(r[26]).value, ReasonOf(r[27]).value, r[28], FaultOf(r[29]).value,
        Joined(r, 30), Joined(r, 32), ResultOf(r[34]).value, ReasonOf(r[35]).value, Joined(r, 36), r[38]);
      Some(Status(sample, r[3] / 4 % 2 == 1, r[4] % 2 == 1, r[4] / 2 % 2 == 1, r[11]))
  }

  lemma WordRead(r: seq<int>, offset: nat, value: U32)
    requires offset + 1 < |r| && r[offset] == High(value) && r[offset + 1] == Low(value)
    ensures Joined(r, offset) == value
  {
    assert High(value) == value / 0x1_0000;
  }

  lemma CodesRead(s: State, m: Mode, f: Fault, a: Result, b: Reason)
    ensures StateOf(StateCode(s)) == Some(s) && ModeOf(ModeCode(m)) == Some(m) && FaultOf(FaultCode(f)) == Some(f)
    ensures ResultOf(ResultCode(a)) == Some(a) && ReasonOf(ReasonCode(b)) == Some(b)
  {
  }

  lemma CountersRead(s: Sample)
    ensures |Encode(s)| == STATUS_COUNT
    ensures Joined(Encode(s), 6) == s.cycles
    ensures Joined(Encode(s), 8) == s.lastActionMs
    ensures Joined(Encode(s), 12) == s.heartbeat
    ensures Joined(Encode(s), 14) == s.statusSequence
  {
    hide StateCode, ModeCode, FaultCode, ResultCode, ReasonCode, Outputs, Bit, High, Low, Joined;
    WordRead(Encode(s), 6, s.cycles);
    WordRead(Encode(s), 8, s.lastActionMs);
    WordRead(Encode(s), 12, s.heartbeat);
    WordRead(Encode(s), 14, s.statusSequence);
  }

  lemma IdentitiesRead(s: Sample)
    ensures |Encode(s)| == STATUS_COUNT
    ensures Joined(Encode(s), 16) == s.boot
    ensures Joined(Encode(s), 18) == s.owner
    ensures Joined(Encode(s), 20) == s.uptime
    ensures Joined(Encode(s), 22) == s.activeSequence
  {
    hide StateCode, ModeCode, FaultCode, ResultCode, ReasonCode, Outputs, Bit, High, Low, Joined;
    WordRead(Encode(s), 16, s.boot);
    WordRead(Encode(s), 18, s.owner);
    WordRead(Encode(s), 20, s.uptime);
    WordRead(Encode(s), 22, s.activeSequence);
  }

  lemma SequencesRead(s: Sample)
    ensures |Encode(s)| == STATUS_COUNT
    ensures Joined(Encode(s), 24) == s.ackSequence
    ensures Joined(Encode(s), 30) == s.motionStarts
    ensures Joined(Encode(s), 32) == s.finishedSequence
    ensures Joined(Encode(s), 36) == s.finishedDuration
  {
    hide StateCode, ModeCode, FaultCode, ResultCode, ReasonCode, Outputs, Bit, High, Low, Joined;
    WordRead(Encode(s), 24, s.ackSequence);
    WordRead(Encode(s), 30, s.motionStarts);
    WordRead(Encode(s), 32, s.finishedSequence);
    WordRead(Encode(s), 36, s.finishedDuration);
  }

  /** Every field of a status, as the gateway knows it, is what the station put in; the outputs say which way it
      moves. A status is refused exactly when the device is not compatible or a code is unknown. */
  lemma StatusRoundTrip(s: Sample, r: seq<int>)
    ensures Decode(Encode(s)) == Some(Status(s, true, s.state == EXTENDING, s.state == RETRACTING, 3))
    ensures Decode(r).None? <==> |r| != STATUS_COUNT || r[0] != VERSION || r[11] % 2 == 0 || !KnownCodes(r)
  {
    CodesRead(s.state, s.mode, s.fault, s.ackResult, s.ackReason);
    CodesRead(s.state, s.mode, s.fault, s.finishedResult, s.finishedReason);
    CodesRead(s.state, s.mode, s.fault, s.finishedResult, s.alarm);
    CountersRead(s);
    IdentitiesRead(s);
    SequencesRead(s);
    hide StateCode, StateOf, ModeCode, ModeOf, FaultCode, FaultOf, ResultCode, ResultOf, ReasonCode, ReasonOf,
      High, Low, Joined;
  }
}
