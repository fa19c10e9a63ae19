# Verified model of the video and industrial control system

This project models, in Dafny 4.11, the parts of the repository whose correctness depends on many steps, on both
ends of a link, or on threads that interleave, and proves what they are for.

- **Industrial command protocol** (`Protocol`, `StatusRegisters`, `Station*`, `Gateway*`, `LossyLink`, `OrderedLink`,
  `ArmReport`, `MisreadArming`). The actuator station with its sessions, leases, retired sessions, sequence floor,
  de-duplication cache, command deadlines and motion machine; the gateway with its record store; and both joined by a
  link. What every command, keepalive, tick, sample and failure does is told in numbers of the registers and the clock
  (`StationTicks`, `StationCommands`, `StationCounters`, `GatewayExchanges`). The central result, that no command
  block takes effect twice, rests on the command deadline (at most 5000 ms ahead) being no longer than the time a
  session stays retired (5000 ms), and on the sequence floor within a session. A second one covers the link: blocks
  may be lost, repeated, delayed and reordered, the gateway restarted and the station rebooted, and every motion still
  belongs to a record of its own. On a link that keeps the order, final records tell the station's real outcome; an
  arming is the exception, and exactly when it goes wrong is proved over all runs too.
- **Latest-frame memory** (`Seqlock*`). The writer's stores one by one, and the three readers with every load preceded
  by any number of them.
- **Video frames** (`Video*`). Fragments from the gateway's loop to the browser's assembler, with serial-number
  comparison as in section 3.2 of RFC 1982, bounded tables, restarts of the capture, and lossy transport.
- **Fallback session** (`Credit*`) and **clock-offset estimator** (`Latency*`, `Percentile`; formulas of section 8 of
  RFC 5905).
- **libdatachannel engines**: the incremental WebSocket parser (sections 5.2 and 5.3 of RFC 6455, `WebSocket*`), H.264
  FU-A fragmentation, aggregates and frames over RTP (sections 5.7.1 and 5.8 of RFC 6184, `H264`, `H264Frames`), the
  TCP and SCTP send queues (`Queues`, `TcpSend`, `SctpSend`), the serial processor (`Processor`), and generic NACK
  with its retransmission storage (section 6.2.1 of RFC 4585, `Nack`, `NackStorage`).

`MachineWords`, `Octets`, `Ordered` and `Wrappers` hold what they share: words and residues, bytes, insertion-ordered
dictionaries, options.

Each stateful part comes in two forms: a specification on values, about which the theorems are proved, and a class
whose methods update fields, maps and arrays in place as the original does. Every operation's contract equates the new
state with the specification's, so that a theorem about the specification is one about the object. Whole histories are
sequences of events with a clock that does not go back.

Where the code does not do what might be expected, the exact condition is proved instead:

- an arming's record says what happened if and only if it has no duration, which only a finished motion gives
  (`ArmReport.ArmingsToldExactly`, and `ArmReport.ArmingReadExactly` in terms of the registers); a run that goes wrong
  is `MisreadArming.ArmingMisread`;
- the fragmenting loop ends if and only if the limit is at least four, or three with a unit that is not four bytes
  long, or one with a unit of more than 65535 bytes, and fragments are within the limit if and only if one of the
  first two holds (`H264.ChunkExactly`);
- two equal even readings of the write index mean that nothing was stored in between, unless a positive multiple of
  2^31 frames was published meanwhile (`SharedMemory.AgreeExactly`);
- a frame of more than 8192 fragments is sent by the gateway but refused by the browser
  (`VideoPacket.FragmentRoundTrip`);
- a queue's amount survives the replacement of its front if and only if both count the same (`Queues.Queue.Exchange`);
- the packets of one timestamp are told apart from those of the next if and only if it is not zero
  (`H264Frames.LeadingExactly`), and one packet that cannot be made sense of stops all frames
  (`H264Frames.FailedForever`);
- a processor can get stuck if and only if it has a limit, and an enqueue does when it meets a full queue behind a
  pending task (`ProcessorModel.StuckExactly`, `ProcessorModel.EnqueueGetsStuck`, `ProcessorModel.StuckForever`);
  every processor in the repository is built without a limit (`impl/peerconnection.hpp:140`,
  `impl/sctptransport.hpp:104`);
- the retransmission storage keeps exactly the last packets if and only if no number comes back while it is kept
  (`NackStorage.StoredExactly`, `NackStorage.ConsecutiveKeptExactly`);
- after a close the SCTP accounts are those of the queue if and only if nothing with a size was dropped
  (`SctpSend.SctpTransport.AccountsOfQueueExactly`).

What is taken as given: one clock sample for each call of the station; random session and boot numbers that do not
recur; one writer lifetime on fresh memory, loads and stores in one global order, and fewer than 2^31 publications
during one read; published frames that differ in number or in publication millisecond.

`dafny verify dfyconfig.toml` checks the whole project.

## Model

| member | source | states |
|---|---|---|
| `Protocol.CommandRoundTrip` | industrial_station/protocol.py:70-80 | every field the gateway encodes into the twelve words is what the station reads back |
| `StatusRegisters.StatusRoundTrip` | industrial_station/protocol.py:83-101 | every status field, permit and output bit the gateway decodes is what the station encoded, and a reply is refused iff its length, version or simulation mark is wrong or a code is unknown |
| `StationRuns.NoBlockTakesEffectTwice` | industrial_station/model.py:117-200 | over every timed run of one boot no command block takes effect twice, after eviction, lease loss and re-arming of the same session too |
| `StationRuns.EffectsExpireFirst` | industrial_station/model.py:135-161 | if two effects share session and sequence, the first one's deadline had passed when the second took place |
| `StationRuns.EffectIsSpent` | industrial_station/model.py:148-161 | a block that takes effect does so before its deadline, at most five seconds ahead, and is spent from then on: below the floor of its owner, or retired longer than it lives |
| `StationRuns.SpentStep` | industrial_station/model.py:66-200 | a spent block stays spent under every call |
| `StationInvariant.TickInv` | industrial_station/model.py:66-103 | whatever time has passed, one tick restores the whole invariant: moving state iff active motion in that direction, owner with a live lease, entry cached as ACCEPTED, bounded cache below the floor, FAULT iff alarm, resting states pin the position, motions conserved |
| `StationInvariant.KeepaliveInv` | industrial_station/model.py:109-115 | a keepalive keeps the invariant, whatever it carries |
| `StationInvariant.ExecuteInv` | industrial_station/model.py:117-200 | any twelve words keep the invariant |
| `StationInvariant.EvictBounds` | industrial_station/model.py:45-50 | eviction stops at 128 entries and changes none that it keeps |
| `StationInvariant.RememberBounds` | industrial_station/model.py:45-50 | the entry of the active motion survives every eviction |
| `StationInvariant.PositionBounds` | industrial_station/model.py:83-86 | the position stays on the stroke and is the target exactly when the leg's duration is over |
| `StationRuns.RunInv` | industrial_station/model.py:66-200 | the invariant holds after every run from every consistent state |
| `StationMotion.NoEffectNoChange` | industrial_station/model.py:117-161 | a block that does not take effect moves nothing, owns nothing and sets nothing |
| `StationMotion.MotionStartsCounted` | industrial_station/model.py:184-197 | motion_starts goes up by one for exactly the blocks that start a motion |
| `StationMotion.TimesOutExactly` | industrial_station/model.py:83-103 | a motion times out iff its time is up and a missing limit or slow motion kept it from its target |
| `StationMotion.CompletesExactly` | industrial_station/model.py:87-101 | a motion completes iff its last leg is over; cycles change with completions only |
| `StationMotion.MotionEndsWithinTwoTimeouts` | industrial_station/model.py:79-107 | a motion is over after one call at or past the first leg's timeout and one more a timeout later, whatever else is asked meanwhile |
| `StationMotion.NoTimeoutWithoutFault` | industrial_station/model.py:84-103 | without SLOW_MOTION or TARGET_LIMIT_MISSING no motion of any run times out |
| `StationMotion.MissingLimitNeverCompletes` | industrial_station/model.py:38-43 | under TARGET_LIMIT_MISSING, injected again or not, no motion completes and no cycle is counted |
| `StationTicks.TickedSettings` | industrial_station/model.py:66-78 | a tick counts itself, drops the owner iff its lease has run out and retires it for 5000 ms, lets a communication fault pass iff its time is up, forgets retired sessions iff theirs is, and beats unless frozen; mode, floor, keepalive and motion counters stay |
| `StationTicks.RestsOn` | industrial_station/model.py:79-82 | time moves nothing that rests; contradicting limits alone put it in FAULT, with LIMIT_CONFLICT |
| `StationTicks.MotionFares` | industrial_station/model.py:52-107 | how a motion fares in a tick, by clock and fault alone: COMM_TIMEOUT iff the lease has run out, else arrival iff the leg has had its time and the limit is seen, else ACTION_TIMEOUT iff the time is up, else on its way at an even pace; each end is told with the time since it began |
| `StationCommands.TakesEffectExactly` | industrial_station/model.py:117-161 | a block takes effect iff every one of its conditions holds, in whatever order they are checked, in numbers: boot, session, sequence above the floor, reserved words, action code, deadline window, parameter, motion under way, ownership or retirement |
| `StationCommands.NotLookedAt` | industrial_station/model.py:127-156 | a block refused before the sequence floor is raised changes only the acknowledgement; a repeated one is answered with the result remembered, any other is refused for a reason that is true of it, BOOT first |
| `StationCommands.UnfittingIsDeclined` | industrial_station/model.py:157-161 | a parameter that does not belong, or a motion under way, refuses the block with PARAMETER or BUSY, which is remembered, and changes nothing else |
| `StationCommands.RemembersNewest` | industrial_station/model.py:45-50 | a new entry is kept and no other changes |
| `StationCommands.ForgetsOldest` | industrial_station/model.py:47-49 | at 128 entries the oldest makes room, or the second oldest if the oldest is the motion's |
| `StationCommands.ArmsExactly` | industrial_station/model.py:150-163 | arming gives the session the station and a whole lease; a new owner starts with no cache, counters or finished motion of the last one |
| `StationCommands.SetsModeExactly` | industrial_station/model.py:179-183 | MODE 1 sets MANUAL and 2 AUTO, and nothing else changes; any other parameter is refused |
| `StationCommands.InjectsExactly` | industrial_station/model.py:168-173 | INJECT sets the fault its number stands for, for the configured time, BOTH_LIMITS stopping the machine at once; an unknown number is refused and changes nothing |
| `StationCommands.ResetsExactly` | industrial_station/model.py:174-178 | RESET under an injected fault is refused with FAULT_ACTIVE; otherwise it clears the alarm and the state becomes the position's |
| `StationCommands.StopsExactly` | industrial_station/model.py:164-167 | STOP at rest changes nothing; a motion under way fails with STOP_REQUESTED and its duration, and the state becomes the position's |
| `StationCommands.MovesExactly` | industrial_station/model.py:184-197 | a motion command that takes effect is refused with FAULT_ACTIVE under an alarm, with INTERLOCK when mode or state do not suit it, and otherwise starts its motion from where the machine stands |
| `StationCommands.KeepsAliveExactly` | industrial_station/model.py:109-115 | a keepalive is obeyed iff it names boot, owner and a higher counter; iff obeyed the owner has a whole lease from now on |
| `StationCounters.RunTallied` | industrial_station/model.py:66-200 | over every run the mode is the one the last effective MODE block set, the motion counter the number of blocks carried out as motions, and the cycle counter how often home was reached next after the far end |
| `StationCounters.MotionsSuitTheMode` | industrial_station/model.py:184-197 | over every run a block starts a motion iff it takes effect, no alarm stands, and it is EXTEND or RETRACT from a fitting state while MANUAL was set last, or CYCLE at home while AUTO was |
| `StationCounters.RegistersTell` | industrial_station/model.py:202-215 | after every run the decoded registers hold that mode, those counters modulo 2^32, the time after which the owner would lose its lease, both limit switches, and the position to the nearest thousandth |
| `StationHistory.TickedIsTruthful` | industrial_station/model.py:52-103 | a tick keeps the acknowledgement and finished registers equal to the real outcomes of the session whose numbers they use |
| `StationHistory.RespondedIsTruthful` | industrial_station/model.py:117-200 | so does executing a block not executed before, whose outcome becomes the one recorded under its boot, session and sequence |
| `StationHistory.RespondedGrows` | industrial_station/model.py:117-200 | outcomes are only added or settled, never changed |
| `StationObject.Station.constructor` | industrial_station/model.py:14-29 | the fields start as the specification's initial state |
| `StationObject.Station.Limits` | industrial_station/model.py:34-43 | the limit switches as the specification gives them |
| `StationObject.Station.Shrink` | industrial_station/model.py:47-49 | the nested eviction loop keeps exactly what the specification's eviction keeps |
| `StationObject.Station.Finish` | industrial_station/model.py:52-60 | ending a motion in place is the specification's |
| `StationObject.Station.Tick` | industrial_station/model.py:66-103 | a tick in place is the specification's, field by field |
| `StationObject.Station.Keepalive` | industrial_station/model.py:109-115 | state and answer of a keepalive are the specification's |
| `StationObject.Station.Execute` | industrial_station/model.py:117-200 | state and acknowledgement of a command are the specification's |
| `StationObject.Station.Registers` | industrial_station/model.py:202-215 | the forty registers read after a tick are the encoding of the specification's report |
| `GatewayRuns.StepInv` | industrial_station/gateway.py:46-198 | every poll, submission, close and restart keeps: failures imply nothing pending and not armed; pending records are the session's; one pending command at most is not a STOP; a settled record never changes |
| `GatewayRuns.Run` | industrial_station/gateway.py:68-198 | the same over whole histories, for any device and any link |
| `GatewayRuns.FailInv` | industrial_station/gateway.py:68-81 | the first failure disarms, draws a new session and leaves nothing pending |
| `GatewayRuns.ObserveInv` | industrial_station/gateway.py:95-123 | observing any sample keeps the invariant and settled records |
| `GatewayRuns.SubmitIssues` | industrial_station/gateway.py:143-191 | a written block belongs to one new record of the very request and actor, carries its action, parameter and numbers, and the deadline of the sampled uptime plus the validity left; a refusal costs at most a sequence number |
| `GatewayRuns.WrittenExactly` | industrial_station/gateway.py:143-191 | a command is written iff every condition on request, freshness, arming, pending records, time left and 32-bit deadline holds; exactly the admissible requests use up a number; a known id is answered with its record iff the request is the same |
| `GatewayRuns.StartedInv` | industrial_station/store.py:21-22 | a new process on the same database finds nothing pending |
| `GatewayExchanges.FailsExactly` | industrial_station/gateway.py:68-81 | the first failure takes the new session, counts afresh, disarms and makes exactly the pending records UNKNOWN; further ones change only what is shown, OFFLINE from the third |
| `GatewayExchanges.ClosesExactly` | industrial_station/gateway.py:46-55 | closing disarms, makes exactly the pending records UNKNOWN, and changes nothing else |
| `GatewayExchanges.StartsExactly` | industrial_station/store.py:21-22 | a new process makes exactly the pending records UNKNOWN and knows nothing of the device |
| `GatewayExchanges.ObservesExactly` | industrial_station/gateway.py:95-123 | a sample is refused iff the heartbeat has stood still for more than 400 ms, disarms iff boot or owner are others, and otherwise is taken and settles exactly the pending records of this boot whose numbers it names, with result, reason and duration |
| `GatewayExchanges.ShownQuality` | industrial_station/gateway.py:57-62 | the quality shown is GOOD iff it was left so and the last good sample is at most 300 ms old, and OFFLINE iff it was left so, there is none, or it is older than 750 ms |
| `GatewayExchanges.PollKeepsArmed` | industrial_station/gateway.py:125-138 | a polling turn leaves the gateway armed iff it was, the device answered with the same boot, a beating heartbeat and the gateway's session, and the keepalive was written |
| `GatewayExchanges.ConfirmArms` | industrial_station/gateway.py:192-197 | a read-back arms the gateway iff it answers its own ARM as COMPLETED and names its session as owner |
| `LossyLink.StepKeepsInv` | industrial_station/gateway.py:125-198 | what both ends and the link keep over every step, with blocks lost, repeated, delayed and reordered, gateway restarts and station reboots |
| `LossyLink.MotionsHaveTheirOwnRecords` | industrial_station/gateway.py:143-198 | each command id is written at most once, with its record's action, parameter, boot, session and sequence, and a deadline at most its validity past the sampled uptime; whatever takes effect was so written, in time and once; motions map one to one into stored records that asked for them |
| `OrderedLink.StepKeeps` | industrial_station/gateway.py:95-198 | what gateway, link and station keep over every step of an in-order link with losses, failures, restarts and reboots |
| `OrderedLink.RecordsTellTheTruth` | industrial_station/gateway.py:115-123 | every record of anything but an arming that ends COMPLETED, FAILED or REJECTED carries the station's real outcome and reason for its boot, session and sequence |
| `ArmReport.ArmingsToldExactly` | industrial_station/gateway.py:115-123 | in every reachable state a reported arming was executed as one, and its record carries the station's outcome iff it has no duration, that is, iff it was not settled from a finished motion; a granted arming is never misreported |
| `ArmReport.StepArms` | industrial_station/gateway.py:95-198 | what every step of the in-order link keeps about armings, pending and reported |
| `ArmReport.ArmingReadExactly` | industrial_station/gateway.py:118-123 | read back, an executed arming is settled wrongly iff the finished motion carries its number, though refused; otherwise rightly once the acknowledgement carries it, or not yet |
| `MisreadArming.ArmingMisread` | industrial_station/gateway.py:119 | a run of gateway and station, no block lost, that ends with a refused arming recorded as COMPLETED |
| `GatewayObject.Store.Update` | industrial_station/store.py:33-45 | a row changes as specified, and not at all when status and reason stay |
| `GatewayObject.Store.Abandon` | industrial_station/gateway.py:73-74 | the loop turns exactly the pending rows UNKNOWN |
| `GatewayObject.Store.Match` | industrial_station/gateway.py:115-123 | the loop settles exactly the rows the sample speaks of |
| `GatewayObject.Gateway.Fail` | industrial_station/gateway.py:68-81 | failure in place is the specification's |
| `GatewayObject.Gateway.Observe` | industrial_station/gateway.py:95-123 | observation in place is the specification's, refusal included |
| `GatewayObject.Gateway.Poll` | industrial_station/gateway.py:125-138 | one turn of the polling loop is the specification's |
| `GatewayObject.Gateway.Dispatch` | industrial_station/gateway.py:143-191 | a submission up to the write is the specification's, error by error |
| `GatewayObject.Gateway.Confirm` | industrial_station/gateway.py:192-197 | the read-back is the specification's |
| `GatewayObject.Gateway.Close` | industrial_station/gateway.py:46-55 | closing disarms and settles what is pending |
| `SharedMemory.Certified` | project_0321plus/video-processor/src/main.cpp:293-314 | two equal even readings of write_idx with fewer than 2^31 publications between them mean that the writer stored nothing between them |
| `SharedMemory.AgreeExactly` | project_0321plus/video-processor/src/main.cpp:293-314 | two even readings agree iff the publications between them are a multiple of 2^31 |
| `SharedMemory.EvenBetween` | project_0321plus/video-processor/src/main.cpp:293-314 | an even write_idx is seen only between publications and counts them |
| `SharedMemory.HeldAfter` | project_0321plus/video-processor/src/main.cpp:281-315 | after a publication header, payload and timing record hold exactly it |
| `SeqlockWriter.Publisher.StoreAll` | project_0321plus/video-processor/src/main.cpp:281-315 | publishFrame makes exactly the stores of one publication, in order, from the odd index to the even one |
| `SeqlockWriter.Publisher.Publish` | project_0321plus/video-processor/src/main.cpp:281-315 | memory after any number of calls is what the stores of the published pictures leave, counters wrapping at 32 bits |
| `SeqlockReaders.DoubleRead` | signaling-server/latest-source.js:40-67 | two equal headers read word by word are the last complete publication's, though neither read is atomic: fields up to write_idx are certified by the second pass, those after it by the first |
| `SeqlockReaders.ReadIsWhole` | signaling-server/latest-source.js:40-74 | for every interleaving, equal headers around payload and timing record yield one publication, whole |
| `SeqlockReaders.ReadLatest` | signaling-server/latest-source.js:40-74 | an accepted packet is one publication, newer than the last; an undisturbed one is refused only for size or age |
| `SeqlockReaders.BracketedRead` | project_0321plus/webrtc-gateway/src/main.cpp:73-93 | a header between two equal even indices is the last complete publication's |
| `SeqlockReaders.RecheckedRead` | project_0321plus/webrtc-gateway/src/main.cpp:487-491 | a payload copied before the index is read unchanged once more belongs to that header |
| `SeqlockReaders.ReadStableHeader` | project_0321plus/webrtc-gateway/src/main.cpp:73-93 | what the three attempts return is a whole header; undisturbed they return one iff no publication is under way |
| `SeqlockReaders.NextFrame` | project_0321plus/webrtc-gateway/src/main.cpp:428-491 | a frame the gateway sends is one publication, whole, not the last one sent, at most 100 ms old, with at most 128 KiB waiting; an undisturbed current publication is sent iff all that holds and it has at most 65535 parts, and dropped iff it has more |
| `SeqlockReaders.ReadingIsWhole` | monitoring/sensors.py:30-61 | the monitor's reading, image and timing included, is of one publication |
| `SeqlockReaders.ReadCapture` | monitoring/sensors.py:30-61 | the same for the call, with either choice about the image; an undisturbed publication is seen iff its size and time are acceptable and the clock has reached it |
| `VideoPacket.FragmentRoundTrip` | signaling-server/public/video-frames.js:5-23 | the browser reads back every fragment the gateway packs, unless the frame has more than 8192 parts, which it refuses |
| `VideoDelivery.SendFragments` | project_0321plus/webrtc-gateway/src/main.cpp:510-527 | the loop sends exactly the slices of the frame, in order |
| `VideoDelivery.SlicesJoin` | project_0321plus/webrtc-gateway/src/main.cpp:510-527 | the slices in index order are the frame's bytes |
| `VideoRuns.ShownIsPublished` | signaling-server/public/video-frames.js:53-87 | over any loss, repetition and reordering, across capture restarts, whatever may be shown is one published frame, byte for byte |
| `VideoRuns.AllFragmentsShow` | signaling-server/public/video-frames.js:53-87 | once every fragment of an awaited frame has arrived in time, in any order and with repetitions, finishing it shows it whole, though fragments of one other frame, announcements, pruning and the showing of the other frame, if older, come in between |
| `VideoRuns.RestartShows` | signaling-server/public/video-frames.js:55-60 | a restarted capture is followed at once, whatever was shown before: if every fragment of a frame published later than everything seen, under another number that is not newer, arrives in time, finishing it shows it whole |
| `VideoRuns.OneCaptureUndisturbed` | signaling-server/public/video-frames.js:55-62 | any two different frames of the capture seen so far meet that statement's condition on publication order |
| `VideoRuns.NoSpuriousReset` | signaling-server/public/video-frames.js:55-60 | within one capture no fragment ever resets the assembler |
| `VideoRuns.EarlierCaptureIgnored` | signaling-server/public/video-frames.js:61-62 | after a reset fragments published before the restart change nothing |
| `VideoRuns.NewerExactly` | signaling-server/public/video-frames.js:3 | for numbers less than 2^31 apart serial comparison is the comparison of the numbers |
| `VideoRuns.ShownInOrder` | signaling-server/public/video-frames.js:79-87 | the numbers of the frames shown since a reset increase strictly |
| `VideoRuns.HistoryInv` | signaling-server/public/video-frames.js:25-88 | over every history tables are disjoint, held frames newer than the shown one, counters count, at most 2 frames and 130 entries in all, and each shown id newer than the last |
| `VideoFrames.AcceptInv` | signaling-server/public/video-frames.js:53-78 | accepting any fragment keeps the table invariant |
| `VideoFrames.FinishInv` | signaling-server/public/video-frames.js:79-87 | a complete frame is always newer than the one shown, so finishing it always shows it |
| `VideoFrames.PruneKeeps` | signaling-server/public/video-frames.js:37-43 | pruning bounds both tables and only gives frames up whole, remembering them |
| `VideoFrames.PruneExactly` | signaling-server/public/video-frames.js:37-43 | pruning gives up exactly the frames older than 120 ms and counts them, and forgets exactly the numbers given up more than 2000 ms ago while no more than 128 are to be remembered |
| `VideoFrames.ContradictionCosts` | signaling-server/public/video-frames.js:64-75 | a fragment that contradicts the number of fragments or the publication time of its frame, or makes it larger than 8 MiB, costs the whole frame, and no other |
| `VideoAssembler.Assembler.Prune` | signaling-server/public/video-frames.js:37-43 | the four pruning loops are the specification's |
| `VideoAssembler.Assembler.EnsureFrame` | signaling-server/public/video-frames.js:44-52 | a frame is held iff it is welcome |
| `VideoAssembler.Assembler.Accept` | signaling-server/public/video-frames.js:53-78 | accepting in place is the specification's |
| `VideoAssembler.Assembler.Finish` | signaling-server/public/video-frames.js:79-87 | finishing in place is the specification's |
| `CreditWindow.CreditIsKept` | signaling-server/latest-session.js:14-68 | over every interleaving with the suspended pump: unacknowledged frames within the window, every sent frame in flight or acknowledged but not both, stamps increasing |
| `CreditWindow.NoSilentStall` | signaling-server/latest-session.js:19-40 | an open session with spare credit is running or has attempted a wait or error notice |
| `CreditWindow.ForgedCreditIsNone` | signaling-server/latest-session.js:53-61 | an acknowledgement makes room for one frame and only the first time; repeated or made-up ones add none |
| `CreditWindow.ReadsUntilDeadline` | signaling-server/latest-session.js:19-36 | over every run a read without a frame gives notice iff a second has passed since the pump was set going or last sent; before that it sleeps and reads again; a frame is sent |
| `CreditWindow.RequestsExactly` | signaling-server/latest-session.js:53-62 | over every run the first request is accepted iff it asks for stamp 0 and a window of one or two; a later one sets a resting pump going iff it acknowledges a frame in flight or repeats the last stamp when none is |
| `CreditWindow.StepKeeps` | signaling-server/latest-session.js:14-70 | what every event keeps |
| `CreditSession.LatestSession.OnMessage` | signaling-server/latest-session.js:43-68 | the message handler in place is the specification's |
| `CreditSession.LatestSession.ReadEnds` | signaling-server/latest-session.js:20-34 | the pump from the end of a read to its next suspension is the specification's |
| `CreditSession.LatestSession.Loop` | signaling-server/latest-session.js:19 | the head of the pump's loop is the specification's |
| `Latency.OffsetError` | signaling-server/public/latency.js:44-54 | the offset's error is half the difference of the two delays: within half the round trip, and equal to it iff one delay is zero |
| `Latency.OffsetsAreSound` | signaling-server/public/latency.js:33-58 | after any history, replies lost, late, repeated or reordered, every stored offset is within half its round trip of the true one |
| `Latency.SnapshotIsRight` | signaling-server/public/latency.js:96-121 | reported delay and age are right within the reported uncertainty, which is the least any stored round trip gives |
| `Latency.MeanIsRight` | signaling-server/public/latency.js:104-115 | the mean delay is within half the best round trip of the true mean of the same frames |
| `Latency.P95IsRight` | signaling-server/public/latency.js:112-116 | so is the 95th percentile |
| `Percentile.P95Splits` | signaling-server/public/latency.js:116 | at least 95 of 100 values are at most the percentile, which is one of them, and fewer than 95 of 100 are less |
| `Latency.BestIsLeast` | signaling-server/public/latency.js:103 | the reduction picks a stored measurement with the least round trip |
| `LatencyRules.RepliesUsedExactly` | signaling-server/public/latency.js:44-58 | a reply is used iff its request is known and at most ten seconds old, both times are numbers in order and fit into the exchange; then it is the newest measurement, and no reply counts twice |
| `LatencyRules.PruneForgets` | signaling-server/public/latency.js:19-31 | requests are forgotten after ten seconds, measurements after thirty or behind 64 younger ones, and no other |
| `LatencyRules.FramesForgotten` | signaling-server/public/latency.js:25-31 | frames are forgotten after thirty seconds or beyond 512, and no other, the latest never |
| `LatencyRules.PublicationNoted` | signaling-server/public/latency.js:66-68 | a publication time is noted iff it is positive |
| `LatencyRules.LatestDecoded` | signaling-server/public/latency.js:63-74 | the latest frame is replaced iff the new one was decoded no earlier |
| `LatencyRules.ShowsExactly` | signaling-server/public/latency.js:96-121 | each state of a snapshot is shown under exactly its condition, and each value exactly in the states that have it |
| `LatencyObject.LatencyTracker.Prune` | signaling-server/public/latency.js:19-31 | the pruning loops are the specification's |
| `LatencyObject.LatencyTracker.AcceptClock` | signaling-server/public/latency.js:44-58 | accepting a reply in place is the specification's, refusals included |
| `LatencyObject.LatencyTracker.TakeSnapshot` | signaling-server/public/latency.js:96-122 | the snapshot, taken by loops over clocks, frames and delays, is the specification's on the pruned tables |
| `WebSocketFrames.MaskedTwice` | project_0321plus/webrtc-gateway/libdatachannel/src/impl/wstransport.cpp:294-296 | masking twice with one key gives the payload back |
| `WebSocketFrames.FrameParses` | project_0321plus/webrtc-gateway/libdatachannel/src/impl/wstransport.cpp:246-299 | a frame at the front of the buffer is parsed whole, unmasked and cut to the permitted size, whatever follows it |
| `WebSocketFrames.ParseIsStable` | project_0321plus/webrtc-gateway/libdatachannel/src/impl/wstransport.cpp:246-299 | more input never changes a frame once recognised |
| `WebSocketStream.ChunkingIsInvisible` | project_0321plus/webrtc-gateway/libdatachannel/src/impl/wstransport.cpp:143-168 | however a stream is cut, the same frames come out and the same state is left, cut frames included |
| `WebSocketStream.FramesArrive` | project_0321plus/webrtc-gateway/libdatachannel/src/impl/wstransport.cpp:143-168 | any frames, any keys, any chunks arrive in order and leave nothing behind |
| `WebSocketMessages.MessagesArrive` | project_0321plus/webrtc-gateway/libdatachannel/src/impl/wstransport.cpp:301-370 | messages in fragments, with pings, pongs and unknown opcodes between them and a close frame at the end or none, arrive in order, whole up to the permitted size; every ping is answered, and closing by one close frame |
| `WebSocketTransport.MaskInPlace` | project_0321plus/webrtc-gateway/libdatachannel/src/impl/wstransport.cpp:402-403 | the in-place loop masks exactly the stretch it is given |
| `WebSocketTransport.WsTransport.SendFrame` | project_0321plus/webrtc-gateway/libdatachannel/src/impl/wstransport.cpp:372-413 | what goes out is the frame, serialised with some key |
| `WebSocketTransport.WsTransport.RecvFrame` | project_0321plus/webrtc-gateway/libdatachannel/src/impl/wstransport.cpp:301-370 | receiving a frame in place is the specification's |
| `WebSocketTransport.WsTransport.Incoming` | project_0321plus/webrtc-gateway/libdatachannel/src/impl/wstransport.cpp:114-168 | a chunk goes to the handshake first, then to the frames as specified; an idle notice sends a ping and may fail the connection; a closed connection drops it |
| `H264.SplitRoundTrip` | project_0321plus/webrtc-gateway/libdatachannel/src/h264rtppacketizer.cpp:26-51 | length-prefixed units are split back out exactly |
| `H264.SplitMessage` | project_0321plus/webrtc-gateway/libdatachannel/src/h264rtppacketizer.cpp:26-51 | the loop splits as specified, incomplete ends ignored |
| `H264.ChunkExactly` | project_0321plus/webrtc-gateway/libdatachannel/src/nalunit.cpp:32-37 | in sixteen bits, the loop ends within the unit iff the limit is at least 4, or 3 with a unit that is not 4 bytes long, or 1 with one longer than 65535; fragments are within the limit iff one of the first two holds |
| `H264.PiecesShape` | project_0321plus/webrtc-gateway/libdatachannel/src/nalunit.cpp:30-64 | a long unit gives at least two fragments, the first alone a start, the last alone an end, none over the limit |
| `H264.FragmentsFrom` | project_0321plus/webrtc-gateway/libdatachannel/src/nalunit.cpp:30-64 | whenever the loop ends, it has made exactly the specified fragments |
| `H264.GenerateFragments` | project_0321plus/webrtc-gateway/libdatachannel/src/nalunit.cpp:83-95 | the loop over units, empty ones included, is the specification's |
| `H264.AllPiecesBuild` | project_0321plus/webrtc-gateway/libdatachannel/src/h264rtpdepacketizer.cpp:43-117 | rebuilding loses nothing of any unit but the forbidden bit of fragmented ones |
| `H264.UnitsSurvive` | project_0321plus/webrtc-gateway/libdatachannel/src/h264rtpdepacketizer.cpp:43-117 | units of types 1 to 23, forbidden bit clear, limit at least 4, survive splitting, fragmenting and rebuilding, each behind a separator |
| `H264.AggregatesArrive` | project_0321plus/webrtc-gateway/libdatachannel/src/h264rtpdepacketizer.cpp:87-107 | a packet of several units adds each behind a separator; up to two bytes after the last are ignored, and a length beyond the packet is refused |
| `H264.RefusedPayloads` | project_0321plus/webrtc-gateway/libdatachannel/src/h264rtpdepacketizer.cpp:67-110 | any other packet is refused iff its type is none of 1 to 23 and 28, or a fragment ends before its second header byte |
| `H264Frames.Depacketizer.BuildFrame` | project_0321plus/webrtc-gateway/libdatachannel/src/h264rtpdepacketizer.cpp:43-117 | the loop over the packets of one access unit is the specification's, padding and errors included |
| `H264Frames.Depacketizer.Incoming` | project_0321plus/webrtc-gateway/libdatachannel/src/h264rtpdepacketizer.cpp:119-167 | buffering, grouping by timestamp and building in place are the specification's; what an exception leaves behind is told |
| `H264Frames.ChunkingIsInvisible` | project_0321plus/webrtc-gateway/libdatachannel/src/h264rtpdepacketizer.cpp:137-166 | in whatever portions packets arrive, the same frames come out and the same packets are held back |
| `H264Frames.FailedForever` | project_0321plus/webrtc-gateway/libdatachannel/src/h264rtpdepacketizer.cpp:163-165 | once a packet cannot be made sense of, no frame comes out any more, whatever follows |
| `H264Frames.NoEmptyFrames` | project_0321plus/webrtc-gateway/libdatachannel/src/h264rtpdepacketizer.cpp:111-114 | no empty frame is passed on |
| `H264Frames.LeadingExactly` | project_0321plus/webrtc-gateway/libdatachannel/src/h264rtpdepacketizer.cpp:142-154 | the packets of one timestamp are told apart from those of the next iff it is not zero |
| `H264Frames.MessagesSurvive` | project_0321plus/webrtc-gateway/libdatachannel/src/h264rtpdepacketizer.cpp:43-167 | messages cut into packets with non-zero timestamps that differ from one to the next come out as one frame each, in order, units unchanged; the last is held back |
| `Queues.Queue.Push` | project_0321plus/webrtc-gateway/libdatachannel/src/impl/queue.hpp:90-98 | contents and amount after a push; a stopped queue drops it |
| `Queues.Queue.Pop` | project_0321plus/webrtc-gateway/libdatachannel/src/impl/queue.hpp:100-110 | contents and amount after a pop |
| `Queues.Queue.Exchange` | project_0321plus/webrtc-gateway/libdatachannel/src/impl/queue.hpp:117-124 | the amount stays the sum iff the new front counts as much as the old one |
| `TcpSend.TcpTransport.TrySendMessage` | project_0321plus/webrtc-gateway/libdatachannel/src/impl/tcptransport.cpp:361-388 | for every pattern of partial writes, written bytes followed by the rest are the message, and only a refusal of the socket leaves a rest; an error leaves a prefix written |
| `TcpSend.TcpTransport.UpdateBufferedAmount` | project_0321plus/webrtc-gateway/libdatachannel/src/impl/tcptransport.cpp:390-400 | called only where the clamp at zero does not act |
| `TcpSend.TcpTransport.TrySendQueue` | project_0321plus/webrtc-gateway/libdatachannel/src/impl/tcptransport.cpp:343-359 | written bytes followed by queued ones stay the submitted ones, and the buffered amount their size; the queue empties unless the socket refuses |
| `TcpSend.TcpTransport.Outgoing` | project_0321plus/webrtc-gateway/libdatachannel/src/impl/tcptransport.cpp:127-137 | the same with one message more; after success nothing is queued, and only a refusal prevents it |
| `SctpSend.SctpTransport.TrySendQueue` | project_0321plus/webrtc-gateway/libdatachannel/src/impl/sctptransport.cpp:567-592 | messages handed over followed by queued ones stay the submitted ones, and each stream's account what is queued or was dropped, for every blocking pattern; the queue empties unless a message is refused; a stopped queue, once empty, shuts the socket down |
| `SctpSend.SctpTransport.Send` | project_0321plus/webrtc-gateway/libdatachannel/src/impl/sctptransport.cpp:369-389 | the same with one message more: handed over, queued, dropped by a stopped queue, or refused as too large or unconnected with nothing changed |
| `SctpSend.SctpTransport.Close` | project_0321plus/webrtc-gateway/libdatachannel/src/impl/sctptransport.cpp:418-432 | from then on pushes are dropped; what is queued stays |
| `SctpSend.SctpTransport.AccountsOfQueueExactly` | project_0321plus/webrtc-gateway/libdatachannel/src/impl/sctptransport.cpp:386-387 | the accounts are the queue's alone iff nothing with a size was dropped |
| `SctpSend.SctpTransport.CloseStream` | project_0321plus/webrtc-gateway/libdatachannel/src/impl/sctptransport.cpp:406-412 | a reset takes its place in the order, if the queue is not stopped, and changes no account |
| `SctpSend.SctpTransport.UpdateBufferedAmount` | project_0321plus/webrtc-gateway/libdatachannel/src/impl/sctptransport.cpp:692-707 | no zero entries, and the clamp never acts |
| `ProcessorModel.TasksRunInOrder` | project_0321plus/webrtc-gateway/libdatachannel/src/impl/processor.hpp:58-72 | whatever the limit and whatever workers do, no two tasks run at once, tasks begin in the order accepted, each once; pending iff one is outstanding |
| `ProcessorModel.JoinWaitsForAll` | project_0321plus/webrtc-gateway/libdatachannel/src/impl/processor.cpp:17-20 | a join returns only when every accepted task is done |
| `ProcessorModel.NothingIsLost` | project_0321plus/webrtc-gateway/libdatachannel/src/impl/processor.hpp:58-72 | told by the calls alone: the tasks done, outstanding and queued are together exactly the tasks enqueued, each once and in the order of the calls, always without a limit and with one until a caller gets stuck |
| `ProcessorModel.NothingIsForgotten` | project_0321plus/webrtc-gateway/libdatachannel/src/impl/processor.cpp:22-31 | when the workers have nothing left to do, every task enqueued has been done |
| `ProcessorModel.StuckExactly` | project_0321plus/webrtc-gateway/libdatachannel/src/impl/processor.hpp:58-72 | some run gets stuck, in an enqueue that waits for room while it holds the lock that would make room, iff there is a limit, whatever it is |
| `ProcessorModel.EnqueueGetsStuck` | project_0321plus/webrtc-gateway/libdatachannel/src/impl/processor.hpp:58-72 | in every reachable state an enqueue gets stuck iff a task is pending and the limited queue is full, which can be seen before the call |
| `ProcessorModel.StuckForever` | project_0321plus/webrtc-gateway/libdatachannel/src/impl/processor.hpp:58-72 | over every continuation of a run the stuck caller stays, no queued task is handed over, no other accepted, and no join returns |
| `ProcessorObject.TaskProcessor.AddTask` | project_0321plus/webrtc-gateway/libdatachannel/src/impl/processor.hpp:58-72 | enqueueing in place is the specification's |
| `ProcessorObject.TaskProcessor.ScheduleNext` | project_0321plus/webrtc-gateway/libdatachannel/src/impl/processor.cpp:22-31 | chaining the next task in place is the specification's |
| `NackCoding.GetSequenceNumbers` | project_0321plus/webrtc-gateway/libdatachannel/src/rtp.cpp:597-612 | the loop over the mask lists exactly the numbers of the part |
| `NackCoding.MissingListRoundTrip` | project_0321plus/webrtc-gateway/libdatachannel/src/rtp.cpp:626-640 | a list increasing by less than a round of the 16-bit counter, wrapping where it may, is coded into parts that list exactly it |
| `NackCoding.PartsApart` | project_0321plus/webrtc-gateway/libdatachannel/src/rtp.cpp:626-640 | no part more than needed: each identifier is out of reach of the part before it |
| `NackCoding.NackBuilder.AddMissingPacket` | project_0321plus/webrtc-gateway/libdatachannel/src/rtp.cpp:626-640 | coding in place is the specification's, and says whether a part was added |
| `NackStorage.Storage.Store` | project_0321plus/webrtc-gateway/libdatachannel/src/rtcpnackresponder.cpp:82-110 | for any packet, linked list and map become what the specification stores: a number already mapped keeps its older packet |
| `NackStorage.StoredExactly` | project_0321plus/webrtc-gateway/libdatachannel/src/rtcpnackresponder.cpp:93-108 | the last maxSize packets stay exactly what is kept iff the new number is not among the kept ones; otherwise the older packet is found |
| `NackStorage.ConsecutiveKeptExactly` | project_0321plus/webrtc-gateway/libdatachannel/src/rtcpnackresponder.cpp:82-110 | after any consecutively numbered packets exactly the last maxSize are kept iff maxSize is below 2^16 or the numbers have not come round |
| `NackStorage.Storage.Get` | project_0321plus/webrtc-gateway/libdatachannel/src/rtcpnackresponder.cpp:75-80 | the packet the map leads to, or none |
| `NackStorage.Storage.Respond` | project_0321plus/webrtc-gateway/libdatachannel/src/rtcpnackresponder.cpp:39-52 | the loops resend exactly what the map leads to of the numbers in all parts |
| `NackStorage.RequestedAreResent` | project_0321plus/webrtc-gateway/libdatachannel/src/rtcpnackresponder.cpp:39-52 | coded request and storage together: of consecutive packets exactly the still-kept ones asked for are resent, in the order asked |

## Left out

- Transport security, certificates, hashing, connectivity agents, the SCTP and TCP stacks, sockets and poll services: their results are nondeterministic choices of the model.
- The Modbus server's dispatch, HTTP routes, authentication tokens, SQLite itself (a map stands for the table), audit events and time stamps of records, the command-line programs.
- The browser's user interface, the monitor page, alarm debouncing, evidence retention, the other sensors, and the offline experiments.
- Drawing session, boot and masking numbers at random: they are parameters or free choices, and session and boot numbers are taken not to recur.
- Reading the clock several times within one station or assembler call: one sample stands for all of them.
- Command sequence numbers above 32 bits within one session: the link theorems stop at that many submissions.
- Floating-point rounding: positions, delays and clocks are real numbers, and the quotient rounded up in fragmentation is exact.
- Weak memory ordering, a payload left in shared memory by an earlier writer process, and 64-bit header words torn in two.
- Reopening the shared-memory file after its inode changes, short file reads, log output and send statistics.
- OrderedLink.RecordsTellTheTruth: excludes armings, because the finished sequence number is compared without a session; `ArmReport.ArmingsToldExactly` says when they are right.
- VideoRuns.ShownIsPublished: the timing record of the 64-byte fragment header feeds the latency display and is not part of the packet.
- VideoAssembler.Assembler.Accept: frames are values in the table; that the caller keeps a reference to the frame it was given is not captured.
- WebSocketTransport.WsTransport.Incoming: the payload is unmasked on a value of the buffer, not in the buffer's own bytes; the HTTP handshake is a parameter that says how many bytes it takes or that it is refused, and its requests, responses and the closing time-out are not modelled.
- WebSocketStream.FramesArrive: payloads are shorter than 2^63 bytes.
- WebSocketMessages.MessagesArrive: frames with unknown opcodes are short and final, and nothing follows a close frame.
- H264.SplitMessage: length-prefixed mode only; the matcher for start-code separators is in a header that is not part of this model.
- H264.FragmentsFrom: required to end; outside the condition of `H264.ChunkExactly` the original does not terminate or reads past the unit.
- H264Frames.Depacketizer.Incoming: packets shorter than a header are not passed in, and headers with their extensions are taken off beforehand.
- SctpSend.SctpTransport.Send: the socket's shutdown and the state changes it causes later are free choices.
- TcpSend.TcpTransport.Outgoing: after an error the connection is given up, and only that a prefix has been written is claimed.
- NackCoding.NackBuilder.AddMissingPacket: a number equal to the current identifier is not coded, since the original shifts by a negative amount.
- NackStorage.Storage.Store: a storage for no packets is excluded, as in the original's own assertion; packets shorter than a header, which the original ignores, are not passed in, and the walk over compound control packets is not modelled.
- Latency.SnapshotIsRight: the stage breakdown is not modelled.
- CreditWindow.CreditIsKept: a read returns frames newer than the last one sent, which `SeqlockReaders.ReadLatest` proves of the source; JSON parsing is reduced to whether a message is acceptable.
