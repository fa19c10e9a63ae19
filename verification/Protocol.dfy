/** Registers and command blocks shared by the station and the gateway. */
module Protocol {
  import opened Wrappers
  import opened MachineWords

  type Word = U16

  /** One atomic write of twelve registers. */
  type Block = b: seq<Word> | |b| == 12 witness seq(12, _ => 0)

  datatype State = IDLE | EXTENDING | EXTENDED | RETRACTING | FAULT | STOPPED
  datatype Mode = MANUAL | AUTO
  datatype Action = EXTEND | RETRACT | STOP | RESET | MODE | INJECT | CYCLE | ARM
  datatype Result = NO_RESULT | ACCEPTED | COMPLETED | REJECTED | FAILED
  datatype Reason =
    | NO_REASON | BOOT | SESSION | EXPIRED | SEQUENCE | BUSY | INTERLOCK | PARAMETER
    | ACTION_TIMEOUT | LIMIT_CONFLICT | COMM_TIMEOUT | STOP_REQUESTED | FAULT_ACTIVE
  datatype Fault =
    | NO_FAULT | TARGET_LIMIT_MISSING | BOTH_LIMITS | SLOW_MOTION | COMM_SILENT | FROZEN_HEARTBEAT

  function ActionCode(a: Action): Word {
    match a
    case EXTEND => 1 case RETRACT => 2 case STOP => 3 case RESET => 4
    case MODE => 5 case INJECT => 6 case CYCLE => 7 case ARM => 8
  }

  function ActionOf(code: int): Option<Action> {
    if code == 1 then Some(EXTEND) else if code == 2 then Some(RETRACT)
    else if code == 3 then Some(STOP) else if code == 4 then Some(RESET)
    else if code == 5 then Some(MODE) else if code == 6 then Some(INJECT)
    else if code == 7 then Some(CYCLE) else if code == 8 then Some(ARM) else None
  }

  function ModeOf(code: int): Option<Mode> {
    if code == 1 then Some(MANUAL) else if code == 2 then Some(AUTO) else None
  }

  function FaultOf(code: int): Option<Fault> {
    if code == 0 then Some(NO_FAULT) else if code == 1 then Some(TARGET_LIMIT_MISSING)
    else if code == 2 then Some(BOTH_LIMITS) else if code == 3 then Some(SLOW_MOTION)
    else if code == 4 then Some(COMM_SILENT) else if code == 5 then Some(FROZEN_HEARTBEAT) else None
  }

  /** High word first; values above 32 bits are truncated. */
  function Words(value: nat): seq<Word> {
    [High(value), Low(value)]
  }

  function High(value: nat): Word { value / 0x1_0000 % 0x1_0000 }

  function Low(value: nat): Word { value % 0x1_0000 }

  function U32At(registers: seq<Word>, offset: nat): U32
    requires offset + 1 < |registers|
  {
    var high: int := registers[offset];
    high * 0x1_0000 + registers[offset + 1]
  }

  function Command(action: Action, sequence: U32, parameter: Word, boot: U32, session: U32, deadline: U32): Block {
    [ActionCode(action)] + Words(sequence) + [parameter] + Words(boot) + Words(session) + Words(deadline) + [0, 0]
  }

  // The fields a station reads back out of a block.
  function Sequence(b: Block): U32 { U32At(b, 1) }
  function Parameter(b: Block): Word { b[3] }
  function Boot(b: Block): U32 { U32At(b, 4) }
  function Session(b: Block): U32 { U32At(b, 6) }
  function Deadline(b: Block): U32 { U32At(b, 8) }

  /** What the gateway encodes is what the station decodes, for every field. */
  lemma CommandRoundTrip(action: Action, sequence: U32, parameter: Word, boot: U32, session: U32, deadline: U32)
    ensures var b := Command(action, sequence, parameter, boot, session, deadline);
      && ActionOf(b[0]) == Some(action)
      && Sequence(b) == sequence && Parameter(b) == parameter && Boot(b) == boot
      && Session(b) == session && Deadline(b) == deadline && b[10..] == [0, 0]
  {
    var b := Command(action, sequence, parameter, boot, session, deadline);
    assert b[1..3] == Words(sequence) && b[4..6] == Words(boot);
    assert b[6..8] == Words(session) && b[8..10] == Words(deadline);
  }

  /** The fields of the forty status registers. */
  datatype Sample = Sample(
    state: State, mode: Mode, home: bool, extended: bool, alarm: Reason,
    cycles: U32, lastActionMs: U32, heartbeat: U32, statusSequence: U32, boot: U32,
    owner: U32, uptime: U32, activeSequence: U32, ackSequence: U32, ackResult: Result, ackReason: Reason,
    permille: int, fault: Fault, motionStarts: U32,
    finishedSequence: U32, finishedResult: Result, finishedReason: Reason, finishedDuration: U32, lease: int)
}
