/**
 The whole supervised output protocol as a step system: API thread, I/O thread, periodic
 thread, node and bus, interleaved in any order. Every acquisition of a lock is one step;
 the bus may drop, delay, duplicate and reorder, and may carry other nodes' traffic.
 */
module Protocol {
  import opened Bytes
  import opened CanV1
  import opened StateMachine
  import opened RuntimeCore
  import opened RuntimeRuns
  import opened Rings
  import opened Supervision
  import opened CanIo
  import N = NodeLogic

  datatype SystemConfig = SystemConfig(rt: Config, sup: SupervisorConfig, capacity: nat)

  /** What the daemon checks before it starts anything. */
  predicate ValidSystem(cfg: SystemConfig) {
    && ValidConfig(cfg.rt) && 1 <= cfg.sup.nodeId <= MAX_NODE_ID
    && cfg.sup.heartbeatTimeout > 0 && cfg.sup.maxEventsPerTick > 0 && cfg.capacity > 0
  }

  /** Where the periodic thread is within one supervision tick. */
  datatype Phase = Resting | CheckOverflow(now: int) | Draining(now: int, budget: nat) | CheckComm(now: int)

  /** Where the I/O thread is within one pump call. */
  datatype PumpPc = AtRest | Checking | Sending | Noting(wire: WireCommand, at: int)

  /** Where an operator's clear_fault call is, and what it saw on the way. */
  datatype ClearPc =
    | NotClearing
    | SawFault
    | SawNoFault
    | IoChecked(reason: StopReason)
    | Acknowledged(reason: StopReason, sup: Supervisor, refused: nat)

  /** What happened so far, kept only to state properties. */
  datatype Log = Log(
    applied: set<(u16, u16)>,          // wire (session, sequence) pairs the node applied
    tracked: nat, untracked: nat,      // frames entered in the in-flight slot, or not
    cleanStart: bool, sent: seq<nat>,  // this episode: began with nothing pending; sequences put on the bus
    healthyStart: bool, startBoot: u16, startSession: u16,
    reportedFault: u16, lastTick: int)

  datatype System = System(
    ep: Traced, sup: Supervisor, queue: Fifo<InputEvent>, phase: Phase, todo: seq<Action>,
    io: Io, pc: PumpPc, clear: ClearPc,
    node: N.Node, down: set<CanFrame>, up: set<CanFrame>, log: Log)

  function Initial(cfg: SystemConfig, node: N.Node): System {
    System(START, UNSEEN, Fifo([], cfg.capacity, 0, 0, false), Resting, [], IO_START, AtRest, NotClearing,
           node, {}, {}, Log({}, 0, 0, false, [], false, 0, 0, 0, 0))
  }

  datatype Label =
    // API thread
    | Request(event: Event)
    | PublishStep(cmd: OutputCommand, clock: Option<int>)
    | ClearFault
    // periodic thread
    | TickStart(now: int)
    | TickAdvance
    | SchedulerDies
    // I/O thread
    | PumpStep(clock: Option<int>, outcome: SendOutcome)
    | Receive(frame: CanFrame, now: int)
    | IoFails(queued: bool, now: int)
    | IoStops
    // node
    | NodeReceives(frame: CanFrame, now: int)
    | NodePolls(now: int)
    | NodeInterlock(ready: bool)
    | NodeReboots
    | NodeBeats
    | NodeReports
    | NodeFaults(code: u16)

  /** One critical section of the runtime; entering Active opens a new episode in the log. */
  function OnRuntime(cfg: SystemConfig, s: System, call: Call): System {
    var ep := TraceStep(cfg.rt, s.ep, call);
    if Enters(s.ep.rt, ep.rt) then
      s.(ep := ep,
         log := s.log.(cleanStart := s.io.pending.None?, sent := [],
                       healthyStart := s.sup.everSeen && s.sup.online && s.sup.nodeFault == 0,
                       startBoot := s.sup.bootId, startSession := s.sup.sessionId))
    else s.(ep := ep)
  }

  function CallOf(a: Action): Option<Call> {
    match a
    case Escalate(code) => Some(Raise(code))
    case Report(ready) => Some(Interlock(ready))
    case Acknowledge(session, sequence, result) => Some(Call.Status(session, sequence, result))
    case _ => None
  }

  /** The next action of the current event or check. */
  function DoNext(cfg: SystemConfig, s: System): System
    requires s.todo != []
  {
    var a := s.todo[0];
    var s' := s.(todo := s.todo[1..], sup := Local(s.sup, a));
    if CallOf(a).Some? then OnRuntime(cfg, s', CallOf(a).value) else s'
  }

  function ReportedBy(cfg: SystemConfig, log: Log, ev: InputEvent): Log {
    if ev.StatusEvent? && (ev.node == 0 || ev.node == cfg.sup.nodeId) then log.(reportedFault := ev.fault) else log
  }

  function NextPhase(cfg: SystemConfig, s: System): System {
    match s.phase
    case Resting => s
    case CheckOverflow(now) =>
      var (sup, todo) := Overflowed(s.sup, s.queue.latched);
      s.(sup := sup, todo := todo, phase := Draining(now, cfg.sup.maxEventsPerTick))
    case Draining(now, budget) =>
      if budget == 0 || s.queue.items == [] then s.(phase := CheckComm(now))
      else
        var ev := s.queue.items[0];
        var (sup, todo) := Digest(cfg.sup, s.sup, ev, now);
        s.(sup := sup, todo := todo, queue := Popped(s.queue), phase := Draining(now, budget - 1),
           log := ReportedBy(cfg, s.log, ev))
    case CheckComm(now) =>
      var (sup, todo) := CommCheck(cfg.sup, s.sup, now);
      s.(sup := sup, todo := todo, phase := Resting, log := s.log.(lastTick := now))
  }

  function Pump(cfg: SystemConfig, s: System, clock: Option<int>, outcome: SendOutcome): System {
    match s.pc
    case AtRest =>
      if s.io.stopRequested then s
      else
        var io := AfterConsume(s.io, Consume(s.ep.rt, clock).1);
        OnRuntime(cfg, s, ConsumeCall(clock)).(io := io, pc := if io.pending.None? then AtRest else Checking)
    case Checking =>
      if s.io.pending.None? then s.(pc := AtRest)
      else
        var ok := Sendable(s.ep.rt, s.io.pending.value, clock);
        s.(io := AfterCheck(s.io, ok), pc := if ok then Sending else AtRest)
    case Sending =>
      if s.io.pending.None? then s.(pc := AtRest)
      else
        var cmd := s.io.pending.value;
        var d := Send(s.io, cmd, cfg.sup.nodeId, clock, outcome);
        var s' := s.(io := d.io, queue := Enqueue(s.queue, d.event));
        if d.wire.None? then s'.(pc := AtRest)
        else s'.(pc := Noting(d.wire.value, clock.value), down := s.down + {FrameOf(d.wire.value)},
                 log := s.log.(sent := s.log.sent + [cmd.sequence]))
    case Noting(wire, at) =>
      var ok := NoteSent(s.ep.rt, wire.sessionId, wire.sequence, at).1.Ok?;
      OnRuntime(cfg, s, Note(wire.sessionId, wire.sequence, at)).(
        io := AfterNote(s.io, ok), pc := AtRest,
        queue := if ok then s.queue else Push(s.queue, IoErrorEvent(at, cfg.sup.nodeId)),
        log := if ok then s.log.(tracked := s.log.tracked + 1) else s.log.(untracked := s.log.untracked + 1))
  }

  /** Frames our node produces; anything else on the bus is foreign to the supervisor. */
  predicate SpokenByNode(cfg: SystemConfig, f: CanFrame) {
    Decode(f).Ok? && Decode(f).value.node == cfg.sup.nodeId && !Decode(f).value.Command?
  }

  /** The bus delivers anything sent, any number of times, and whatever other stations send. */
  predicate Deliverable(cfg: SystemConfig, s: System, f: CanFrame) { f in s.up || !SpokenByNode(cfg, f) }

  function ClearStep(cfg: SystemConfig, s: System): System {
    match s.clear
    case NotClearing => s.(clear := if s.ep.rt.machine.mode.Fault? then SawFault else SawNoFault)
    case SawFault =>
      if HasFailed(s.io) then s.(clear := NotClearing) else s.(clear := IoChecked(s.io.reason))
    case IoChecked(reason) =>
      var (sup, ok) := AcknowledgeClear(s.sup, s.queue.latched);
      if ok then s.(sup := sup, clear := Acknowledged(reason, sup, s.queue.refused)) else s.(clear := NotClearing)
    case SawNoFault => OnRuntime(cfg, s, Submit(FaultCleared)).(clear := NotClearing)
    case Acknowledged(_, _, _) => OnRuntime(cfg, s, Submit(FaultCleared)).(clear := NotClearing)
  }

  function Answered(s: System, node: N.Node, reply: N.Reply): System {
    if reply.Answer? && Encode(reply.status).Ok? then
      s.(node := node, up := s.up + {FrameOf(reply.status)},
         log := if reply.status.result.Applied?
                then s.log.(applied := s.log.applied + {(reply.status.sessionId, reply.status.sequence)})
                else s.log)
    else s.(node := node)
  }

  function Speak(s: System, m: Message): System {
    if Encode(m).Ok? then s.(up := s.up + {FrameOf(m)}) else s
  }

  /** One step; a step that is not enabled leaves the system as it is. */
  function Step(cfg: SystemConfig, s: System, l: Label): System {
    match l
    case Request(e) => OnRuntime(cfg, s, Submit(e))
    case PublishStep(cmd, clock) => OnRuntime(cfg, s, PublishCall(cmd, clock))
    case ClearFault => ClearStep(cfg, s)
    case TickStart(now) =>
      if s.phase.Resting? && s.todo == [] && s.ep.rt.running
      then OnRuntime(cfg, s, TickCall(now)).(phase := CheckOverflow(now)) else s
    case TickAdvance => if s.todo != [] then DoNext(cfg, s) else NextPhase(cfg, s)
    case SchedulerDies => OnRuntime(cfg, s, SchedulerExit)
    case PumpStep(clock, outcome) => Pump(cfg, s, clock, outcome)
    case Receive(f, now) =>
      if s.pc.AtRest? && !s.io.stopRequested && Deliverable(cfg, s, f)
      then s.(queue := Enqueue(s.queue, Translate(cfg.sup.nodeId, f, now))) else s
    case IoFails(queued, now) =>
      if s.pc.AtRest? && !HasFailed(s.io) then
        s.(io := s.io.(stopRequested := true, reason := IoError),
           queue := if queued then Push(s.queue, IoErrorEvent(now, cfg.sup.nodeId)) else s.queue)
      else s
    case IoStops =>
      if s.io.stopRequested then s else s.(io := s.io.(stopRequested := true, reason := EventFd))
    case NodeReceives(f, now) =>
      if f in s.down then var (n, reply) := N.OnFrame(s.node, f, now); Answered(s, n, reply) else s
    case NodePolls(now) => s.(node := N.Expire(s.node, now))
    case NodeInterlock(ready) => s.(node := N.SetInterlock(s.node, ready))
    case NodeReboots => s.(node := N.SoftRestart(s.node))
    case NodeBeats => Speak(s.(node := N.AfterHeartbeat(s.node)), N.HeartbeatOf(s.node))
    case NodeReports => Speak(s, N.StatusOf(s.node))
    case NodeFaults(code) => s.(node := s.node.(faultCode := code))
  }

  /** The state after the first n steps of a run. */
  function After(cfg: SystemConfig, node: N.Node, run: seq<Label>, n: nat): System
    requires n <= |run|
  {
    if n == 0 then Initial(cfg, node) else Step(cfg, After(cfg, node, run, n - 1), run[n - 1])
  }

  /** The state that some steps lead to. */
  function Steps(cfg: SystemConfig, s: System, labels: seq<Label>): System
    decreases |labels|
  {
    if labels == [] then s else Steps(cfg, Step(cfg, s, labels[0]), labels[1..])
  }

  /** The state at the end of a run. */
  function End(cfg: SystemConfig, node: N.Node, run: seq<Label>): System { After(cfg, node, run, |run|) }

  lemma {:induction false} AfterPrefix(cfg: SystemConfig, node: N.Node, run: seq<Label>, more: seq<Label>, n: nat)
    requires n <= |run|
    ensures After(cfg, node, run + more, n) == After(cfg, node, run, n)
    decreases n
  {
    hide Step;
    if n > 0 { AfterPrefix(cfg, node, run, more, n - 1); }
  }

  /** Prolonging a run by one step. */
  lemma Then(cfg: SystemConfig, node: N.Node, run: seq<Label>, l: Label)
    ensures End(cfg, node, run + [l]) == Step(cfg, End(cfg, node, run), l)
    ensures After(cfg, node, run + [l], |run|) == End(cfg, node, run)
  {
    hide Step;
    AfterPrefix(cfg, node, run, [l], |run|);
  }
}
