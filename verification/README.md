# Verified model of the robot control runtime

This project models the control path of the robot control runtime in Dafny 4.11 and proves what it keeps over
whole runs. `dafny verify dfyconfig.toml` checks everything.

An application publishes an output command. Admission checks mode, session, sequence and deadline; a latest-wins
mailbox holds the newest; the I/O thread converts it to a CAN V1 frame and sends it; a node judges it and, if it
applies it, drives outputs under a lease that expires; the node's answer comes back through a bounded event queue
and the supervisor and closes the single in-flight slot. A six-mode state machine, a command watchdog, an
acknowledgement timeout, heartbeat supervision and gated recovery surround this. Beside it stand the containers the
system relies on (event ring, trace ring, lock-free ring, flash session log), the remote workbench's resynchronising
frame parser, and the absolute-deadline scheduler.

## How the model is built

- Code that updates objects is a class whose methods are proved against specification functions on values
  (`ensures View() == Spec(old(View()), ...)`). Whole-run theorems are lemmas about those functions. The lemmas named
  `...Exactly` and `...Of` say what such a function computes without it: conditions, numbers, tables or a definition of
  another kind (`CrcDivision` divides polynomials where the code shifts a register).
- `Protocol` is a step system. Its labels are the API thread, the periodic thread, the I/O thread, the node and the
  operator's `clear_fault` call. One acquisition of the runtime's state lock, one socket call or one action of the
  supervisor is one step, so any other thread may act between two of them. Popping an event and updating the
  supervisor's own fields is one step, because only the periodic thread touches them outside `clear_fault`.
  The bus may drop, delay, duplicate and reorder what was sent, and carry other stations' traffic.
- `Daemon` ties the two together: an object's tick, pump, read or clear call that nobody interrupts is a run of
  those steps with the same result.
- `Spsc` takes each load and store as one step, under sequential consistency.
- Clock samples, send outcomes, lock-attempt outcomes and power failures are inputs of the operations, so every
  theorem is about all of them. Times are unbounded integers; where the firmware's clock wraps at 2^32 ms, the wrap
  is modelled.

## What turned out differently from a first reading

- Decoding ignores identifier bits 11 to 29 of a standard frame. `CanV1.DecodeAcceptsExactlyEncodings` gives the exact
  set of accepted frames and `CanV1.IgnoredIdentifierBit` an instance.
- The two nodes treat one kind of extended frame differently (ignored or counted as malformed); neither acts on it.
  `Firmware.FramesSortedAlike` says exactly which.
- `clear_fault` checks before it acts, in steps that other threads may interleave. `Recovery.RecoveryIsGated` says what
  held at the acknowledgement and `Recovery.RecoveryExactly` exactly when everything is still sound when the fault is
  cleared. Runs from the initial state show it broken: the call looked when an I/O failure had not come, or had come but
  not yet turned into Fault (`Races.FaultAfterTheLook`, `Races.FaultPendingAtTheLook`); the I/O thread fails after the
  call looked at it (`Races.FailureAfterTheLook`); or the link is lost after the acknowledgement
  (`Races.LossAfterTheAcknowledgement`), one of the three things the exact condition excludes from there on, beside a
  refused event and a reported node fault.
  Without interference the call is exact (`Daemon.UninterruptedClearIsExact`).
- Session ids completed in flash are consecutive unless power fails between the erase of a full page and its first
  complete record (`SessionFlash.SuccessorExactly`, `SessionFlash.EraseCanLoseHistory`). The ids that boots return also skip
  those whose boot completed its record but died or was refused before it returned
  (`SessionFlash.ReturnedSuccessorExactly`, `SessionFlash.UnreportedBootSkipsAnId`).
- An acknowledgement names only session and sequence, and a new Active episode may start again at sequence 1. If the
  pair was transmitted before, an old answer or the answer to an old, delayed frame can close the slot of a command that
  the node refused or never saw (`Witnesses.OldAnswerClosesTheSlot`, `Witnesses.OldFrameClosesTheSlot`). If it was not,
  the acknowledgement can only answer this transmission (`Freshness.AcknowledgedAfterSend`).
- A command that the socket would not take stays pending across episodes and can be sent in the next one, out of order
  (`Witnesses.SentOutOfOrder`). Only the first send of an episode can be out of order (`SendOrder.OnlyFirstOutOfOrder`),
  and none is if the episode begins with nothing pending (`SendOrder.SentInOrder`).
- Wire sequence numbers live in 1..65535 but are compared modulo 65536, so a gap of 32767 is newer only if the fold is
  not crossed (`CanV1.WireGapBound`).
- A lease first checked 2^31 ms or more after its end looks alive to the firmware (`Firmware.WindowIsTight`).

## Model

| member | source | states |
|---|---|---|
| `CanV1.RoundTrip` | linux/src/can/can_v1.cpp:104-300 | every legal message, encoded, decodes to itself, through the general and the command decoder |
| `CanV1.DecodeAcceptsExactlyEncodings` | linux/src/can/can_v1.cpp:188-362 | a frame decodes to a message if and only if it is a standard data frame that is that message's encoding up to the ignored identifier bits |
| `CanV1.DecodedIsEncoding` | linux/src/can/can_v1.cpp:188-300 | whatever decodes re-encodes to the same frame with the ignored bits cleared |
| `WireFormat.WireLayout` | linux/src/can/can_v1.cpp:188-299 | for every node and payload of version 1, which bytes carry which field, high byte first, which number stands for which result, and exactly which payloads each of the four decoders refuses |
| `WireFormat.RejectedLayers` | linux/src/can/can_v1.cpp:35-66 | remote, extended and short frames, other versions, and every identifier of node 0 or of an unknown function are refused whatever they hold |
| `CanV1.IgnoredIdentifierBit` | linux/src/can/can_v1.cpp:301-320 | setting identifier bit 11 of any encoding goes unnoticed |
| `CanV1.IdUnpackOfPack` | linux/include/rcr/can_v1.hpp:81-95 | function and node come back out of a packed identifier |
| `CanV1.IdPackOfUnpack` | linux/include/rcr/can_v1.hpp:81-95 | an identifier is rebuilt from its function and node |
| `CanV1.NewerIsRfc1982` | linux/include/rcr/can_v1.hpp:97-102 | the Linux and the firmware comparison are both the one of section 3.2 of RFC 1982 with 16 bits |
| `CanV1.WireNewerExactly` | linux/src/linux/can_io_loop.cpp:34-37 | for every sequence and gap, exactly when the later one is newer on the wire, across any number of folds |
| `CanV1.WireGapBound` | linux/src/linux/can_io_loop.cpp:34-37 | gaps up to 32766 are always newer; 32767 fails exactly when the fold is crossed |
| `CanV1.ValidityExact` | linux/src/can/can_v1.cpp:88-102 | a deadline is encodable exactly when 10 to 2500 ms remain, and rounding adds less than 10 ms and removes nothing |
| `NodeLogic.CanNodeLogic.SetInterlockReady` | linux/src/sim/node_sim.cpp:23-32 | the new node state; losing the interlock neutralises output and lease |
| `NodeLogic.CanNodeLogic.Restart` | linux/src/sim/node_sim.cpp:42-53 | boot and session move to their nonzero successors, output, lease and accepted sequence are forgotten |
| `NodeLogic.CanNodeLogic.MakeHeartbeat` | linux/src/sim/node_sim.cpp:55-64 | the message carries the current ids and only the heartbeat counter advances |
| `NodeLogic.CanNodeLogic.ExpireLease` | linux/src/sim/node_sim.cpp:76-86 | output and lease go neutral exactly when the lease is due |
| `NodeLogic.CanNodeLogic.Apply` | linux/src/sim/node_sim.cpp:88-139 | node state and reply are those of the specification, for every command and clock sample |
| `NodeLogic.CanNodeLogic.HandleFrame` | linux/src/sim/node_sim.cpp:141-164 | foreign frames are silent, undecodable commands only counted, commands applied |
| `NodeLogic.RefusalChangesNothing` | linux/src/sim/node_sim.cpp:88-139 | the answer names the first reason that applies, each given by session, interlock, sequence distance and time in full; a refusal changes nothing but a due expiry, an application exactly output, lease and last sequence |
| `NodeLogic.FreshExactly` | linux/src/sim/node_sim.cpp:11-16 | a node comes up with its ids, 0 read as 1, and drives, counts and remembers nothing |
| `NodeLogic.RestartExactly` | linux/src/sim/node_sim.cpp:42-53 | boot and session become their remainder by 65535 plus one, the heartbeat count restarts, and everything else the node keeps is named |
| `NodeLogic.HeartbeatsCount` | linux/src/sim/node_sim.cpp:55-64 | the k-th heartbeat carries the ids of the node and the count k modulo 65536, and nothing else moves |
| `NodeLogic.FrameExactly` | linux/src/sim/node_sim.cpp:141-164 | by identifier number and decodability: which frames are silent, counted or answered, and the state each leaves |
| `NodeLogic.LeaseWindow` | linux/src/sim/node_sim.cpp:88-164 | deadline D sent at s and received at T gives a lease ending in [D+(T-s), D+(T-s)+10 ms) and at most 2.5 s after T |
| `NodeLogic.RunKeepsOrder` | linux/src/sim/node_sim.cpp:88-139 | in every run the accepted sequence numbers of one boot, unwrapped, strictly increase |
| `NodeLogic.NeverReplayed` | linux/src/sim/node_sim.cpp:102-135 | in every run a sequence number is accepted again in one boot only after the accepted numbers moved on by 65536 |
| `NodeLogic.SessionFollowsRestarts` | linux/src/sim/node_sim.cpp:18-53 | after k restarts the session is the k-th successor in the cycle 1..65535 |
| `NodeLogic.OldSessionRefused` | linux/src/sim/node_sim.cpp:42-110 | a command of an older session is refused for it exactly when the restarts since are no multiple of 65535 |
| `NodeLogic.RunKeepsLease` | linux/src/sim/node_sim.cpp:23-139 | in every run the output is the fold of the writes since it was last neutral, and the lease is the last write's |
| `NodeLogic.AuthorityIsBounded` | linux/src/sim/node_sim.cpp:76-139 | after any run ending in a poll, nonzero output means interlock ready and the last applied command's deadline still ahead |
| `NodeLogic.FoldIsLatestPerBit` | linux/src/sim/node_sim.cpp:124-137 | each output line shows the value of the latest write whose mask named it |
| `Firmware.DecodersAgree` | firmware/stm32f103/src/can_v1.c:74-102 | for every node id the C command decoder accepts what the C++ one accepts for this node, with the same fields; ids outside 1..31 accept nothing |
| `Firmware.RcrNode.BusReady` | firmware/stm32f103/src/node.c:38-47 | losing the bus neutralises the output |
| `Firmware.RcrNode.LatchInternalFault` | firmware/stm32f103/src/node.c:49-55 | the fault latches and neutralises the output |
| `Firmware.RcrNode.ExpireLease` | firmware/stm32f103/src/node.c:72-80 | neutral exactly when the wrapped comparison says the lease is due |
| `Firmware.RcrNode.Apply` | firmware/stm32f103/src/node.c:82-129 | node state and reply are those of the wrapping specification |
| `Firmware.RcrNode.HandleFrame` | firmware/stm32f103/src/node.c:131-150 | ignored, malformed and answered frames, and the state each leaves |
| `Firmware.WrappedOrder` | firmware/stm32f103/src/node.c:7-9 | the wrapped comparison is the true one for instants less than 2^31 ms apart |
| `Firmware.WindowIsTight` | firmware/stm32f103/src/node.c:7-9 | up to one full wrap late, it is true exactly while less than 2^31 ms have passed |
| `Firmware.StepAgrees` | firmware/stm32f103/src/node.c:38-129 | one operation shows the same on both nodes and keeps them related |
| `Firmware.BootIsRelated` | firmware/stm32f103/src/node.c:17-36 | the node at power-up field by field, and the simulation holds from there for every node id, whatever the session log reported |
| `Firmware.FirmwareSimulatesNode` | firmware/stm32f103/src/node.c:7-129 | on every paced run, across any number of clock wraps, result codes, outputs and lease activity equal the C++ node's on unbounded time |
| `Firmware.FramesSortedAlike` | firmware/stm32f103/src/node.c:131-150 | both nodes sort every received frame alike except one exactly described family of extended frames |
| `Firmware.FrameExactly` | firmware/stm32f103/src/node.c:131-150 | by identifier number and decodability: which frames are ignored, counted with wrap-around or answered, and the state each leaves |
| `Firmware.AnswerExactly` | firmware/stm32f103/src/node.c:82-129 | an answer names the node, its session and the command's sequence with the resulting output; no command touches identity or gates |
| `Firmware.NeutralExactly` | firmware/stm32f103/src/node.c:38-80 | a lost bus, a latched fault and a lease that ended less than 2^31 ms ago leave output and lease neutral and nothing else changed |
| `StateMachine.RuntimeStateMachine.Submit` | linux/src/core/state_machine.cpp:56-186 | the branches accept exactly what the tables accept and leave the tabled mode, interlock and fault; a refused event changes nothing; the transition is reported |
| `StateMachine.HandleFollowsTable` | linux/src/core/state_machine.cpp:56-186 | an event is accepted exactly when the transition table or one of two global rules allows it, leads to the tabled mode, and changes nothing if refused |
| `StateMachine.FaultAfter` | linux/src/core/state_machine.cpp:41-186 | for every mode and event, the fault left behind, from a table of its own; a refused event leaves the old one |
| `StateMachine.HandleExactly` | linux/src/core/state_machine.cpp:41-186 | the whole machine after any event is the one of the tables: mode, interlock and fault |
| `RuntimeCore.CommandMailbox.Publish` | linux/src/core/mailbox.cpp:7-14 | latest wins, and an overwritten command is counted dropped |
| `RuntimeCore.CommandMailbox.TryConsume` | linux/src/core/mailbox.cpp:16-27 | hands out the slot once |
| `RuntimeCore.MonotonicWatchdog.Check` | linux/src/core/watchdog.cpp:30-44 | newly expired exactly if armed, not expired before and a full timeout has passed since the last kick; the latch follows |
| `RuntimeCore.LinuxRuntime.Submit` | linux/src/runtime/linux_runtime.cpp:48-81 | the whole new runtime state; a transition into or out of Active clears the output path |
| `RuntimeCore.LinuxRuntime.Raise` | linux/src/runtime/linux_runtime.cpp:83-105 | the whole new runtime state after a fault; never Active, interlock untouched |
| `RuntimeCore.LinuxRuntime.SetInterlockReady` | linux/src/runtime/linux_runtime.cpp:107-123 | the whole new runtime state after an interlock change; the report is recorded, and after a loss the mode is not Active |
| `RuntimeCore.LinuxRuntime.PublishCommand` | linux/src/runtime/linux_runtime.cpp:130-181 | admitted exactly when all checks pass; then mailbox, session, sequence and watchdog follow |
| `RuntimeCore.LinuxRuntime.TryConsume` | linux/src/runtime/linux_runtime.cpp:183-211 | hands out nothing outside Active, while an answer is awaited or after the deadline |
| `RuntimeCore.LinuxRuntime.CommandSendable` | linux/src/runtime/linux_runtime.cpp:213-223 | true exactly when the command may still be sent now |
| `RuntimeCore.LinuxRuntime.NoteCommandSent` | linux/src/runtime/linux_runtime.cpp:225-253 | fills the in-flight slot or says why not |
| `RuntimeCore.LinuxRuntime.ObserveStatus` | linux/src/runtime/linux_runtime.cpp:255-285 | only a matching applied answer closes the slot; others are counted |
| `RuntimeCore.LinuxRuntime.OnTick` | linux/src/runtime/linux_runtime.cpp:319-376 | acknowledgement timeout first, then the command watchdog; a working runtime leaves Active exactly when one of the two, written out, is due |
| `RuntimeCore.LinuxRuntime.Stop` | linux/src/runtime/linux_runtime.cpp:30-46 | leaves a stopped runtime with a closed output path |
| `RuntimeRuns.EveryStateKeepsInv` | linux/src/runtime/linux_runtime.cpp:48-394 | in every reachable state nothing of a command survives outside Active, Active means ready and fault free, and a full mailbox holds the bound session's newest sequence under an armed, unexpired watchdog |
| `RuntimeRuns.EveryEpisodeKeepsInv` | linux/src/runtime/linux_runtime.cpp:130-223 | the same for the history of each Active episode: admitted and consumed commands stay in order |
| `RuntimeRuns.ConsumedInOrder` | linux/src/runtime/linux_runtime.cpp:130-211 | consumed commands are a strictly increasing subsequence of those admitted in the episode, each the newest when taken, never taken before and unexpired |
| `RuntimeRuns.TickBoundsResponse` | linux/src/runtime/linux_runtime.cpp:340-369 | after any tick still Active, a pending answer and an unconsumed command are younger than their timeouts; never both timeouts in one tick |
| `RuntimeRuns.OnlyActivationEntersActive` | linux/src/core/state_machine.cpp:87-96 | Active is entered only by an activation from Idle with interlock ready and scheduler running |
| `RuntimeRuns.ActiveHasAnOrigin` | linux/src/core/state_machine.cpp:56-186 | every Active state of every run goes back to such an activation without leaving Active |
| `RuntimeRuns.EStopHoldsUntilReset` | linux/src/core/state_machine.cpp:56-186 | between a latched emergency stop and any later other mode lies a reset with the interlock ready, or the end of the run |
| `RuntimeRuns.ResumeExactlyWhenReady` | linux/src/core/state_machine.cpp:56-186 | in every reachable Hold, Resume is accepted exactly when the interlock is ready |
| `RuntimeExact.TickExactly` | linux/src/runtime/linux_runtime.cpp:319-376 | in every reachable state a tick acts exactly when Active and an answer was sent ackTimeout ago or more, or the watchdog kicked commandTimeout ago or more; it then leaves Hold with that fault and a closed path, and otherwise changes nothing |
| `RuntimeExact.DogMeasuresNewest` | linux/src/runtime/linux_runtime.cpp:130-181 | in every run the kick that the command timeout is measured from is the admission of the newest command of the episode |
| `RuntimeExact.SubmitExactly` | linux/src/runtime/linux_runtime.cpp:48-81 | in every reachable state, which events are accepted and the whole machine and output path after them |
| `RuntimeExact.RaiseOf` | linux/src/runtime/linux_runtime.cpp:83-105 | an escalation records its code in every mode, takes Idle, Active and Hold to Fault and closes the path |
| `RuntimeExact.InterlockOf` | linux/src/runtime/linux_runtime.cpp:107-123 | the interlock becomes the reported one in every mode; a loss takes Active, and nothing else, to Hold |
| `RuntimeExact.StopExactly` | linux/src/runtime/linux_runtime.cpp:30-46 | after a stop the machine is as new, nothing runs and the path is closed; counters stay |
| `RuntimeExact.PublishExactly` | linux/src/runtime/linux_runtime.cpp:130-181 | in every reachable state a command is admitted exactly when all conditions, written out, hold; a refused one leaves no trace |
| `RuntimeExact.PublishOf` | linux/src/runtime/linux_runtime.cpp:130-181 | the same in any state whatever: only a stale first command of a session leaves a trace, the session it bound |
| `RuntimeExact.ConsumeExactly` | linux/src/runtime/linux_runtime.cpp:183-211 | in every reachable state, when a command is handed out, dropped as expired or left, and the state after each |
| `RuntimeExact.NoteExactly` | linux/src/runtime/linux_runtime.cpp:225-253 | each refusal of a sent frame, in order, and the slot it fills otherwise |
| `RuntimeExact.ObserveExactly` | linux/src/runtime/linux_runtime.cpp:255-285 | the slot closes exactly on an applied answer with the tracked pair; any other answer is only counted |
| `RuntimeExact.MailboxConserves` | linux/src/core/mailbox.cpp:7-27 | along every history the slot holds the newest command put since it was emptied, and commands put equal consumed plus overwritten plus cleared plus waiting |
| `Rings.BoundedInputQueue.TryPush` | linux/src/core/bounded_input_queue.cpp:38-52 | the array ring appends to the queue it represents, or refuses, counts and latches |
| `Rings.BoundedInputQueue.TryPop` | linux/src/core/bounded_input_queue.cpp:54-63 | the oldest element comes out, the rest keep their order |
| `Rings.QueueKeepsEveryAcceptedItem` | linux/src/core/bounded_input_queue.cpp:38-63 | in every run the queue is a suffix of the accepted items, so none is overwritten or reordered, and the latch is set exactly when some push was refused |
| `Rings.EveryPushIsCounted` | linux/src/core/bounded_input_queue.cpp:38-52 | along every run accepted plus refused equals the pushes |
| `Rings.TraceBuffer.Record` | linux/src/core/trace.cpp:10-26 | one more recorded event, or one more drop when there is no room at all or the lock is taken |
| `Rings.TraceBuffer.Snapshot` | linux/src/core/trace.cpp:28-40 | the last min(n, capacity) recorded events, oldest first |
| `Supervision.NodeSupervisor.AcknowledgeFaultClear` | linux/src/supervision/node_supervisor.cpp:41-81 | accepted exactly when queue, link, liveness and node fault have all recovered |
| `Supervision.NodeSupervisor.NoteNodeRestart` | linux/src/supervision/node_supervisor.cpp:147-160 | rebinds the node's ids, then escalates a node fault |
| `Supervision.NodeSupervisor.ApplyHeartbeat` | linux/src/supervision/node_supervisor.cpp:162-200 | a known node with new ids is a restart; otherwise liveness is refreshed |
| `Supervision.NodeSupervisor.ApplyStatus` | linux/src/supervision/node_supervisor.cpp:162-254 | restart, interlock report and node fault in that order, on both objects; afterwards the runtime's interlock is the reported one, and after a reported loss it is not Active |
| `Supervision.NodeSupervisor.ApplyEvent` | linux/src/supervision/node_supervisor.cpp:162-254 | supervisor and runtime end as the specification's list of actions says, for every event; the interlock changes by a status of this node only, to what it reports |
| `Supervision.NodeSupervisor.ApplyCommLoss` | linux/src/supervision/node_supervisor.cpp:122-145 | a seen node silent for a full timeout goes offline, and the loss is escalated once |
| `Supervision.NodeSupervisor.ApplyOverflowFault` | linux/src/supervision/node_supervisor.cpp:107-120 | the overflow is escalated once |
| `Supervision.NodeSupervisor.DrainQueue` | linux/src/supervision/node_supervisor.cpp:83-105 | exactly the first events within the budget are digested, in order, and the rest stay queued |
| `Supervision.NodeSupervisor.OnTick` | linux/src/supervision/node_supervisor.cpp:83-105 | a whole tick on supervisor, runtime and queue |
| `Supervision.StatusExactly` | linux/src/supervision/node_supervisor.cpp:205-236 | for every supervisor, runtime and status of this node: interlock, mode, fault code, output path and supervisor afterwards, written out |
| `Supervision.ReportedLossClosesPath` | linux/src/supervision/node_supervisor.cpp:205-236 | after a status that reports the interlock lost, the runtime is not Active and its output path is closed |
| `Supervision.HeartbeatExactly` | linux/src/supervision/node_supervisor.cpp:175-204 | for every heartbeat of this node: a restart exactly when a known node names new ids, with its escalation; otherwise only liveness moves |
| `Supervision.OthersExactly` | linux/src/supervision/node_supervisor.cpp:170-254 | answers, rejects, I/O errors and other nodes' events: what each leaves on both sides |
| `Supervision.OverflowExactly` | linux/src/supervision/node_supervisor.cpp:107-120 | the first tick that finds the queue latched escalates, no later one does |
| `Supervision.CommLossExactly` | linux/src/supervision/node_supervisor.cpp:122-145 | the link is lost exactly when a known, online node has been silent for a full positive timeout, and escalated unless latched |
| `CanIo.WireSaysTheSame` | linux/src/linux/can_io_loop.cpp:18-41 | a converted command is encodable, decodes to itself, and keeps session, folded sequence, mask, values and remaining time rounded up to 10 ms |
| `CanIo.WireFormExactly` | linux/src/linux/can_io_loop.cpp:18-41 | a command has a wire form exactly when session, sequence and low mask bits are nonzero, the session fits and 10 ms to 2.5 s remain |
| `CanIo.TranslatesExactly` | linux/src/linux/can_io_loop.cpp:256-305 | which event each received frame becomes, field by field; only a command becomes none |
| `CanIo.SendExactly` | linux/src/linux/can_io_loop.cpp:318-360 | for every command, clock and socket outcome: what is dropped, queued, counted, sent or kept pending, by the command's own numbers |
| `CanIo.ReadsExactly` | linux/src/linux/can_io_loop.cpp:235-305 | a wake-up queues exactly the frames at the front of the inbox within the budget, once each and in order, and the failure after them if there is one |
| `CanIo.CanIoLoop.HandleFrame` | linux/src/linux/can_io_loop.cpp:256-305 | one received frame becomes at most one queued event |
| `CanIo.CanIoLoop.HandleCanReady` | linux/src/linux/can_io_loop.cpp:235-305 | reading stops at the budget, at an empty socket or at a failure, which is queued and stops the loop |
| `CanIo.CanIoLoop.SendPending` | linux/src/linux/can_io_loop.cpp:318-360 | the send attempt's new state, queued event and frame, for every clock and socket outcome |
| `CanIo.CanIoLoop.PumpPending` | linux/src/linux/can_io_loop.cpp:318-378 | sends and enters the frame in the in-flight slot, or stops the loop |
| `CanIo.CanIoLoop.PumpOutput` | linux/src/linux/can_io_loop.cpp:307-378 | a whole pump call on I/O loop, runtime and queue, and the frame it put on the bus |
| `Daemon.RuntimeDaemon.Boot` | linux/src/daemon/runtime_daemon.cpp:328-339 | booting an idle daemon succeeds and changes nothing; otherwise it is the Boot event |
| `Daemon.RuntimeDaemon.ClearFault` | linux/src/daemon/runtime_daemon.cpp:365-388 | the new supervisor and runtime and the answer of an uninterrupted call |
| `Daemon.UninterruptedClearIsExact` | linux/src/daemon/runtime_daemon.cpp:365-388 | from Fault it succeeds exactly when the I/O thread has not failed and the supervisor has recovered, leaves Idle with no fault and the interlock as it was, and changes nothing otherwise |
| `Daemon.WholeClearIsARun` | linux/src/daemon/runtime_daemon.cpp:365-388 | the object's clear call is a run of the protocol's steps |
| `Daemon.WholeTickIsARun` | linux/src/supervision/node_supervisor.cpp:83-105 | the object's tick is a run of the protocol's steps |
| `Daemon.WholePumpIsARun` | linux/src/linux/can_io_loop.cpp:307-378 | the object's pump call is a run of the protocol's steps, and puts the same frame on the bus |
| `Daemon.ReadsAreARun` | linux/src/linux/can_io_loop.cpp:235-305 | handling a readable socket is a run of the protocol's steps |
| `Acknowledgements.StepMakesOneCall` | linux/src/runtime/linux_runtime.cpp:48-376 | every protocol step is at most one critical section of the runtime |
| `Acknowledgements.RuntimeStaysValid` | linux/src/runtime/linux_runtime.cpp:48-394 | the runtime and episode invariants hold in every reachable system state |
| `Acknowledgements.RunKeepsGenuine` | linux/src/supervision/node_supervisor.cpp:162-254 | every applied answer on the bus, in the queue or being digested is one the node gave |
| `Acknowledgements.NoPhantomAcknowledgement` | linux/src/runtime/linux_runtime.cpp:225-285 | in every interleaving over the lossy, duplicating, reordering bus, the slot closes with the runtime Active only if the node earlier applied exactly the tracked session and sequence |
| `Freshness.TrackedWasAdmitted` | linux/src/linux/can_io_loop.cpp:307-378 | in every state that awaits an answer, the slot tracks the last transmission, which was sent for a command admitted before it |
| `Freshness.AppliedWasTransmitted` | linux/src/sim/node_sim.cpp:88-164 | whatever the node applies under a session and sequence is a frame that an earlier step transmitted under them |
| `Freshness.AcknowledgedAfterSend` | linux/src/runtime/linux_runtime.cpp:225-285 | the slot that closes tracks the last transmission, of an admitted command; if its session and sequence were never transmitted before, every application of them is of this very frame, after this transmission |
| `Witnesses.OldAnswerClosesTheSlot` | linux/src/runtime/linux_runtime.cpp:255-285 | the condition is needed: a run from the initial state in which a new episode reuses a sequence, the node refuses it, and the late answer to the old command closes the slot |
| `Witnesses.OldFrameClosesTheSlot` | linux/src/runtime/linux_runtime.cpp:255-285 | a pair transmitted but never applied before is no better: a run in which all the node ever receives is the old frame, and its answer closes the slot of a command the node never saw |
| `Acknowledgements.EveryFrameIsTrackedOrStops` | linux/src/linux/can_io_loop.cpp:307-378 | frames sent equal frames tracked, plus the one being entered, plus at most one that stopped the loop with a send failure; entering a frame leaves exactly it in flight |
| `SendOrder.SentInOrder` | linux/src/linux/can_io_loop.cpp:307-378 | in an episode that began with nothing pending, sequences reach the bus strictly increasing and all were consumed in it |
| `SendOrder.OnlyFirstOutOfOrder` | linux/src/linux/can_io_loop.cpp:307-378 | in every Active episode, however it began, all sends but possibly the first are of commands consumed in it, and the sends are strictly increasing exactly if the first is below the second |
| `Witnesses.SentOutOfOrder` | linux/src/linux/can_io_loop.cpp:307-318 | the clean start is needed: a run from the initial state whose second episode, begun with a command still pending, sends sequence 5 and then sequence 2 |
| `Provenance.EveryFrameWasSent` | linux/src/linux/can_io_loop.cpp:307-360 | in every run each frame on the bus was put there by an earlier send step, with its command and clock sample, for a command admitted before that step |
| `Provenance.NodeHearsOnlyAdmitted` | linux/src/linux/can_io_loop.cpp:18-41 | each frame the bus can deliver to the node decodes to the command of its send step, unchanged in session, mask and values, with the time remaining at that step's clock sample |
| `Provenance.AppliedWasAdmitted` | linux/src/sim/node_sim.cpp:88-139 | whatever the node applies was sent at an earlier step for a command admitted before it; it writes exactly the published bits, and the lease ends within 10 ms after the published deadline shifted by the time from that send to the reception |
| `Provenance.CheckExactly` | linux/src/linux/can_io_loop.cpp:307-318 | the check before a send passes exactly when running, Active, interlock ready, no answer awaited, session bound and the deadline ahead; otherwise the command is dropped |
| `Provenance.SendingWasCleared` | linux/src/linux/can_io_loop.cpp:307-360 | in every run, whenever a command is about to be sent, the I/O thread's last step was a check that found all of that true of this very command |
| `Provenance.FailureIsFinal` | linux/src/linux/can_io_loop.cpp:235-378 | in every run an I/O thread that failed has stopped for good: no further frame, no further command taken, failure and cause kept |
| `Provenance.StopIsFinal` | linux/src/linux/can_io_loop.cpp:235-378 | in every run a stop requested between two pump calls is final: no further frame is sent and no further command taken |
| `InterlockRuns.ReadyAfterCall` | linux/src/runtime/linux_runtime.cpp:48-376 | which critical sections change the interlock, and to what |
| `InterlockRuns.ReportedInterlockHolds` | linux/src/supervision/node_supervisor.cpp:205-236 | in every run, after a status is digested and until another status or interlock event comes, as soon as no action is left to do the runtime's interlock is the reported one; a reported loss means not Active and a closed path |
| `InterlockRuns.DigestedWasSaid` | linux/src/linux/can_io_loop.cpp:235-305 | in every run, over the lossy, duplicating, reordering bus, a digested status or heartbeat of the node was sent by it at an earlier step with the interlock, fault and ids it had there |
| `InterlockRuns.SaidIsOnTheBus` | linux/src/sim/node_sim.cpp:55-74 | a heartbeat or status of a node with legal ids is on the bus under a frame that decodes to it |
| `InterlockRuns.FaultIsReported` | linux/src/sim/node_sim.cpp:66-74 | a fault code that comes up in the node is in its next status, with interlock, session and inputs as they were |
| `InterlockRuns.ReadyWasReported` | linux/src/supervision/node_supervisor.cpp:205-236 | in every run without an interlock_ready request, the runtime's interlock is ready only after the node reported its own ready |
| `Authority.RunDrives` | linux/src/sim/node_sim.cpp:23-164 | in every run of the whole system the node's outputs and lease are exactly those of the application steps since it was last neutral |
| `Authority.SystemAuthorityIsBounded` | linux/src/sim/node_sim.cpp:76-139 | in every run ending in a poll the outputs are the fold of writes of admitted commands, and while any output is on the time is before the last one's deadline plus its transit time plus 10 ms |
| `SupervisedRuns.RunKeepsWatch` | linux/src/supervision/node_supervisor.cpp:83-254 | in every reachable state a healthy-start episode is still healthy or an escalation is already queued |
| `SupervisedRuns.ActiveEpisodeIsStable` | linux/src/supervision/node_supervisor.cpp:83-254 | after every completed tick still Active: same boot and session, no node fault, heartbeat younger than the timeout; a seen node is online exactly when no loss is latched |
| `Recovery.RecoveryIsGated` | linux/src/daemon/runtime_daemon.cpp:365-388 | when a clear call passes acknowledgement, no event was ever refused, a seen node is online and the latest reported fault is zero; this call's own look found the I/O thread sound, and it is sound now exactly if it did not fail since |
| `Recovery.StepMoves` | linux/src/supervision/node_supervisor.cpp:41-254 | for every step, from its guard alone, whether an I/O failure, a refused event, a lost link or a node fault arises or is lifted |
| `Recovery.SoundExactly` | linux/src/supervision/node_supervisor.cpp:41-81 | from a sound look and a passed check on, everything stays recovered exactly as long as no such step stands unlifted |
| `Recovery.RecoveryExactly` | linux/src/daemon/runtime_daemon.cpp:365-388 | for every clear step of every run that leaves Fault: which looks its call made, and exactly when the system is sound at that moment: undisturbed since those looks if the call saw the fault, undisturbed since the start of the run if it saw another mode |
| `Races.FaultAfterTheLook` | linux/src/daemon/runtime_daemon.cpp:370-373 | a run from the initial state: I/O fails and the fault comes after the call saw another mode, and is cleared unchecked |
| `Races.FaultPendingAtTheLook` | linux/src/daemon/runtime_daemon.cpp:370-373 | a run from the initial state: I/O has already failed at the look but its event is not yet digested, and the fault it then causes is cleared unchecked |
| `Races.FailureAfterTheLook` | linux/src/daemon/runtime_daemon.cpp:374-388 | a run from the initial state: I/O fails after the call's look at it, and the call is acknowledged and clears |
| `Races.LossAfterTheAcknowledgement` | linux/src/daemon/runtime_daemon.cpp:379-388 | a run from the initial state: the link is lost and a new fault raised after the acknowledgement, and the call clears it |
| `Spsc.OrderAndOccupancy` | experiments/realtime_segmented/apps/rcr_rt6_segments.cpp:137-168 | under every interleaving of loads and stores, popped values are a prefix of pushed ones, at most capacity - 1 are inside, and they are the slots from tail to head |
| `Spsc.NeverTheSameSlot` | firmware/stm32f103/src/platform_stm32f103.c:222-242 | the slot about to be written is never the slot about to be read |
| `Spsc.RefusedExactly` | experiments/realtime_segmented/apps/rcr_rt6_segments.cpp:142-161 | a push is refused exactly when the ring is full at the load of tail, a pop exactly when it is empty at the load of head |
| `Spsc.PushCompletes` | experiments/realtime_segmented/apps/rcr_rt6_segments.cpp:142-151 | a push is over after its own three further accesses, whatever the consumer does between them, with its item appended or refused for a full ring |
| `Spsc.PopCompletes` | experiments/realtime_segmented/apps/rcr_rt6_segments.cpp:153-161 | a pop is over after its own three further accesses, whatever the producer does between them, with the oldest element or nothing from an empty ring |
| `Spsc.SpscQueue.TryPush` | experiments/realtime_segmented/apps/rcr_rt6_segments.cpp:142-151 | appends, or refuses exactly at capacity - 1 elements |
| `Spsc.SpscQueue.TryPop` | experiments/realtime_segmented/apps/rcr_rt6_segments.cpp:153-161 | takes the oldest element, or nothing exactly when empty |
| `SessionFlash.SessionLog.NextSession` | firmware/stm32f103/src/platform_stm32f103.c:434-474 | the page and the reported id after one boot, however far it got |
| `SessionFlash.RecordExactly` | firmware/stm32f103/src/platform_stm32f103.c:434-474 | a record counts exactly when its id is nonzero and its half-words add up to 65535; what a reporting boot writes; the successor as a remainder |
| `SessionFlash.TornIsNotComplete` | firmware/stm32f103/src/platform_stm32f103.c:451-455 | whatever half-words a cut-short boot leaves, they count as a record only if they are the complete one |
| `SessionFlash.BootMovesLastId` | firmware/stm32f103/src/platform_stm32f103.c:434-474 | the last id in the log moves to its successor on a complete record, to nothing on an interrupted recycle, else not at all |
| `SessionFlash.SuccessorExactly` | firmware/stm32f103/src/platform_stm32f103.c:434-474 | in every life of the page the next completed id is nonzero and is the successor of the last completed one exactly when no interrupted recycle lies between, or the count was about to restart |
| `SessionFlash.LiveReturns` | firmware/stm32f103/src/platform_stm32f103.c:470-474 | the history of returned ids grows by exactly what a boot returns |
| `SessionFlash.ReturnedSuccessorExactly` | firmware/stm32f103/src/platform_stm32f103.c:434-474 | in every life the next returned id is the successor of the one returned last exactly by the number of completed but unreported boots since, counted from the last interrupted recycle if there was one |
| `SessionFlash.SessionsCountUp` | firmware/stm32f103/src/platform_stm32f103.c:434-474 | with power lost anywhere but across an erase, completed records count 1, 2, ..., 65535, 1, ... over any number of recycles, ids less than 65535 commits apart differ, and returned ids are a subsequence, consecutive if and only if the completed but unreported boots between are a multiple of 65535 |
| `SessionFlash.UnreportedBootSkipsAnId` | firmware/stm32f103/src/platform_stm32f103.c:468-474 | such a boot is possible: the first id ever returned can be 2, with no erase involved |
| `SessionFlash.EraseCanLoseHistory` | firmware/stm32f103/src/platform_stm32f103.c:460-471 | power lost right after the erase of any full page with a history restarts the count at 1 |
| `CrcDivision.RemoteCrc16` | linux/src/workbench/application/remote_frame.cpp:32-47 | the nested loop returns the register of the specification, which is the remainder of the division below |
| `CrcDivision.CrcIsRemainder` | linux/src/workbench/application/remote_frame.cpp:32-47 | for every message the CRC is the remainder of schoolbook division over GF(2) by x^16+x^15+x^2+1, bits low end first, after a preset of sixteen ones (section 2.5.1.2 of MODBUS over Serial Line V1.02) |
| `CrcDivision.CheckValue` | linux/src/workbench/application/remote_frame.cpp:32-47 | the CRC of the nine digits "123456789" is 0x4B37 |
| `Crc16.BitBijective` | linux/src/workbench/application/remote_frame.cpp:39-43 | one register step has a two-sided inverse |
| `Crc16.OneByteIsSeen` | linux/src/workbench/application/remote_frame.cpp:32-47 | messages of any length differing in one byte have different CRCs (the CRC of section 2.5.1.2 of MODBUS over Serial Line V1.02) |
| `RemoteFrames.EncodeRemoteFrame` | linux/src/workbench/application/remote_frame.cpp:49-72 | appends the encoding exactly when the version is 1 and the payload at most 512 bytes, else appends nothing |
| `RemoteFrames.EncodingLayout` | linux/src/workbench/application/remote_frame.cpp:49-72 | the encoding byte by byte, words low byte first, and its last two bytes as the remainder of dividing what stands before them |
| `RemoteFrames.RemoteFrameParser.Append` | linux/src/workbench/application/remote_frame.cpp:74-85 | keeps all bytes, or drops everything exactly when they do not fit |
| `RemoteFrames.RemoteFrameParser.TryPop` | linux/src/workbench/application/remote_frame.cpp:87-141 | status, frame and bytes removed, for every buffer |
| `RemoteFrames.FrontExactly` | linux/src/workbench/application/remote_frame.cpp:87-141 | for every buffer, from its bytes alone: when more is needed, what is skipped, refused or returned, and how many bytes go |
| `RemoteFrames.Drain` | linux/src/workbench/application/remote_control_protocol.cpp:138-152 | draining ends, and what is left needs more bytes and is shorter than a maximal frame |
| `RemoteFrames.VerdictIsFinal` | linux/src/workbench/application/remote_frame.cpp:87-141 | later bytes change neither what was recognised nor its length |
| `RemoteFrames.ChunkingDoesNotMatter` | linux/src/workbench/application/remote_frame.cpp:74-141 | items and residue of a stream that never overflows do not depend on how it is cut |
| `RemoteFrames.SmallChunksFit` | linux/src/workbench/application/remote_frame.cpp:74-85 | chunks of up to 527 bytes never overflow a drained buffer |
| `RemoteFrames.EncodingIsParsed` | linux/src/workbench/application/remote_frame.cpp:49-141 | an encoding, whatever follows, is parsed as its frame and removed exactly |
| `RemoteFrames.AcceptedIsAnEncoding` | linux/src/workbench/application/remote_frame.cpp:87-141 | what is accepted is the encoding of the returned frame, up to the unchecked reserved byte |
| `RemoteFrames.StreamIsDelivered` | linux/src/workbench/application/remote_frame.cpp:49-141 | encodings laid end to end are delivered as exactly those frames |
| `RemoteFrames.CorruptionIsContained` | linux/src/workbench/application/remote_frame.cpp:116-127 | one wrong byte outside magic, version and length gives BadCrc and discards exactly that frame |
| `RemoteFrames.OthersAreDelivered` | linux/src/workbench/application/remote_frame.cpp:116-141 | in a stream with one such byte, that frame is BadCrc and every other frame is delivered |
| `RemoteFrames.Resynchronises` | linux/src/workbench/application/remote_frame.cpp:87-98 | whatever bytes precede a stream of frames, if the magic does not begin inside them, each costs one InvalidMagic and then every frame is delivered |
| `RemoteEndpoint.RemoteControlEndpoint.HandleFrame` | linux/src/workbench/application/remote_control_protocol.cpp:155-221 | counters, session and reply for every frame; established exactly after a HELLO or if it was; the reply is the tabled one if established, else an error |
| `RemoteEndpoint.RemoteControlEndpoint.PushBytes` | linux/src/workbench/application/remote_control_protocol.cpp:128-153 | the drain loop ends and digests exactly the items of the buffered bytes; an overflow faults the session |
| `RemoteEndpoint.ReadsDoNotMatter` | linux/src/workbench/application/remote_control_protocol.cpp:128-153 | however the peer's bytes are cut into reads, state and replies are those of the whole stream |
| `RemoteEndpoint.OverflowFaults` | linux/src/workbench/application/remote_control_protocol.cpp:128-153 | a read that would buffer more than 1052 bytes drops the buffer, faults the session and sends one error; any other only drains |
| `RemoteEndpoint.EveryItemIsCounted` | linux/src/workbench/application/remote_control_protocol.cpp:138-221 | each good frame is counted accepted and gets at most one reply, each bad one is counted malformed and gets none; the counters of greetings, heartbeats, status replies and rejects are the numbers of such items |
| `RemoteEndpoint.NothingBeforeHello` | linux/src/workbench/application/remote_control_protocol.cpp:155-221 | without a HELLO no session is established and the replies are exactly one error per good frame, in order, under its number |
| `RemoteEndpoint.EstablishedAnswersEach` | linux/src/workbench/application/remote_control_protocol.cpp:155-221 | an established session stays established and answers the good frames in order with the tabled kind and the frame's own number; with echo off heartbeats are silent |
| `RemoteEndpoint.FirstHelloEstablishes` | linux/src/workbench/application/remote_control_protocol.cpp:155-221 | from any state, a faulted session included, a stream with a HELLO ends established; replies are errors before the first one and the tabled answers from it on |
| `Scheduling.PeriodicScheduler.Run` | linux/src/linux/scheduler.cpp:182-256 | for all wake-up and finish times: next boundary = start + (completed + misses + 1) * period, after the finish; ticks are numbered from 1 and carry wake-up time and lateness; least, greatest and total lateness are exact |
| `Scheduling.PeriodicScheduler.RecordWakeup` | linux/src/linux/scheduler.cpp:209-229 | the lateness counters stay the least, greatest and sum of all ticks |
| `Scheduling.RunPlusMissed` | linux/src/linux/scheduler.cpp:182-256 | the next boundary's index counts every completed turn and every miss once |
| `Scheduling.NextIsInTheFuture` | linux/src/linux/scheduler.cpp:246-255 | the next boundary lies strictly after the last finish |
| `Scheduling.EveryBoundaryOnce` | linux/src/linux/scheduler.cpp:182-256 | each past boundary belongs to exactly one turn, and one that was not run had passed when that turn finished |

## Left out

- Sockets, epoll, eventfd and signals, clocks, thread start-up and affinity: they enter as outcomes and samples.
- STM32 registers, PWM, the hardware watchdog and the arbitration probe: hardware access.
- The Qt workbench, result writer, command lines, deployment scripts and test drivers: user interface and tooling.
- Mock actuator kinematics and percentile statistics: floating point.
- CEL1 framing, the Modbus agent and register map: the frame parser's shape without resynchronisation.
- CellReady mapping, the mock Modbus profile, the multi-bus observer and input debouncing: would only add easy members.
- The daemon's activate, deactivate and resume: each forwards one event that `RuntimeCore.LinuxRuntime.Submit` models.
- A daemon that has not been started: it refuses every call before any object exists.
- Trace recording inside runtime transitions, copies kept for diagnostics (last acknowledgement, heartbeat number, input
  bits, output mirror, supervisor counters) and message strings: they feed no decision.
- Memory-order annotations: the rings are modelled under sequential consistency.
- NULL-pointer checks in the C code: the model has no such values.
- 64-bit overflow of nanosecond times and counters: integers are unbounded except where the firmware wraps.
- A flash erase that is itself cut short, or a page that never was blank: an erase is all or nothing and lives start blank.
- Payloads of the remote endpoint's replies: kind and sequence are modelled.
- Commands from other stations: only frames this runtime sent reach the node, so no other station addresses it.
- Overlapping `clear_fault` calls: at most one is in progress.
- Firmware.FirmwareSimulatesNode: clock samples may run back by a bounded amount but must stay less than 2^31 ms apart,
  which is where `Firmware.WindowIsTight` shows the comparison to fail.
