/** What supervision guarantees about an Active episode, and what recovery from Fault demands. */
module SupervisedRuns {
  import opened Bytes
  import opened CanV1
  import opened StateMachine
  import opened RuntimeCore
  import opened RuntimeRuns
  import opened Rings
  import opened Supervision
  import opened CanIo
  import opened Protocol
  import opened Acknowledgements
  import N = NodeLogic

  // ---------- an Active episode stays healthy, or an escalation is on its way ----------

  /** Still the node the episode started with: online, fault free, same boot and session. */
  predicate Healthy(s: System) {
    && s.sup.everSeen && s.sup.online && s.sup.nodeFault == 0
    && s.sup.bootId == s.log.startBoot && s.sup.sessionId == s.log.startSession
  }

  ghost predicate Escalating(todo: seq<Action>) { exists i :: 0 <= i < |todo| && todo[i].Escalate? }

  /** A rebind is always followed by its escalation, and escalations carry a real fault. */
  ghost predicate WellFormed(sup: Supervisor, todo: seq<Action>) {
    && (forall i :: 0 <= i < |todo| && todo[i].Rebind? ==>
          sup.everSeen && i + 1 < |todo| && todo[i + 1].Escalate?)
    && (forall i :: 0 <= i < |todo| && todo[i].Escalate? ==> !todo[i].code.NoFault?)
  }

  ghost predicate Watched(cfg: SystemConfig, s: System) {
    && (s.sup.everSeen ==> (s.sup.online <==> !s.sup.commLoss))
    && WellFormed(s.sup, s.todo)
    && (s.log.healthyStart && s.ep.rt.machine.mode.Active? ==> Healthy(s) || Escalating(s.todo))
    && (s.phase.Resting? && s.sup.everSeen && s.sup.online ==>
          s.log.lastTick - s.sup.lastHeartbeat < cfg.sup.heartbeatTimeout)
    && (s.phase.Resting? ==> forall i :: 0 <= i < |s.todo| ==> s.todo[i].Escalate?)
  }

  /** A call of another thread: it can open an episode, but then records how that episode starts. */
  lemma CallKeepsWatch(cfg: SystemConfig, s: System, call: Call)
    requires Watched(cfg, s)
    ensures Watched(cfg, OnRuntime(cfg, s, call))
  {
    hide TraceStep, Escalating, WellFormed;
    TraceAppliesCall(cfg.rt, s.ep, Some(call));
  }

  lemma EscalationLeavesActive(cfg: Config, t: Traced, code: FaultCode)
    requires !code.NoFault?
    ensures !TraceStep(cfg, t, Raise(code)).rt.machine.mode.Active?
  {
    MachineFacts(t.rt.machine.(fault := code), FaultDetected);
  }

  lemma TailIsWellFormed(sup: Supervisor, todo: seq<Action>)
    requires WellFormed(sup, todo) && todo != []
    ensures WellFormed(sup, todo[1..])
    ensures WellFormed(Local(sup, todo[0]), todo[1..])
    ensures todo[0].Rebind? ==> sup.everSeen && Escalating(todo[1..])
    ensures !todo[0].Escalate? && Escalating(todo) ==> Escalating(todo[1..])
  {
    var rest := todo[1..];
    if todo[0].Rebind? { assert rest[0] == todo[1] && rest[0].Escalate?; }
    if !todo[0].Escalate? && Escalating(todo) {
      var i :| 0 <= i < |todo| && todo[i].Escalate?;
      assert rest[i - 1] == todo[i];
    }
    forall i | 0 <= i < |rest| && rest[i].Rebind?
      ensures sup.everSeen && i + 1 < |rest| && rest[i + 1].Escalate?
    {
      assert todo[i + 1].Rebind? && rest[i + 1] == todo[i + 2];
    }
  }

  lemma ActionKeepsWatch(cfg: SystemConfig, s: System)
    requires Watched(cfg, s) && s.todo != []
    ensures Watched(cfg, DoNext(cfg, s))
  {
    hide OnRuntime, WellFormed, Escalating, TraceStep;
    var a := s.todo[0];
    var s1 := s.(todo := s.todo[1..], sup := Local(s.sup, a));
    TailIsWellFormed(s.sup, s.todo);
    if a.Escalate? {
      EscalationDone(cfg, s, s1);
    } else {
      assert Watched(cfg, s1);
      if CallOf(a).Some? { CallKeepsWatch(cfg, s1, CallOf(a).value); }
    }
  }

  lemma EscalationDone(cfg: SystemConfig, s: System, s1: System)
    requires Watched(cfg, s) && s.todo != [] && s.todo[0].Escalate?
    requires s1 == s.(todo := s.todo[1..]) && WellFormed(s1.sup, s1.todo)
    ensures Watched(cfg, OnRuntime(cfg, s1, Raise(s.todo[0].code)))
  {
    hide TraceStep, Escalating;
    EscalationLeavesActive(cfg.rt, s.ep, s.todo[0].code);
  }

  lemma DigestKeepsWatch(cfg: SystemConfig, s: System, ev: InputEvent, now: int)
    requires Watched(cfg, s) && s.todo == []
    ensures var (sup, todo) := Digest(cfg.sup, s.sup, ev, now);
            && (sup.everSeen ==> (sup.online <==> !sup.commLoss))
            && WellFormed(sup, todo)
            && (Healthy(s) ==> Healthy(s.(sup := sup)) || Escalating(todo))
  {
    var (sup, todo) := Digest(cfg.sup, s.sup, ev, now);
    if ev.node == 0 || ev.node == cfg.sup.nodeId {
      match ev
      case HeartbeatEvent(_, _, boot, session) =>
        if s.sup.everSeen && (boot != s.sup.bootId || session != s.sup.sessionId) { assert todo[1].Escalate?; }
      case StatusEvent(_, _, session, ready, fault) =>
        var restart := s.sup.everSeen && session != 0 && session != s.sup.sessionId;
        if restart { assert todo[1].Escalate?; }
        if fault != 0 { assert todo[|todo| - 1].Escalate?; }
      case _ =>
    }
  }

  lemma PhaseKeepsWatch(cfg: SystemConfig, s: System)
    requires Watched(cfg, s) && s.todo == [] && cfg.sup.heartbeatTimeout > 0
    ensures Watched(cfg, NextPhase(cfg, s))
  {
    hide Digest;
    assert !Escalating(s.todo);
    match s.phase
    case Resting =>
    case CheckOverflow(now) =>
      var todo := Overflowed(s.sup, s.queue.latched).1;
      if todo != [] { assert todo[0].Escalate?; }
    case Draining(now, budget) =>
      if budget != 0 && s.queue.items != [] { DigestKeepsWatch(cfg, s, s.queue.items[0], now); }
    case CheckComm(now) =>
      var todo := CommCheck(cfg.sup, s.sup, now).1;
      if todo != [] { assert todo[0].Escalate?; }
  }

  /** What a step must leave alone for the watch to carry over. */
  predicate SameWatch(s: System, s': System) {
    && s'.ep == s.ep && s'.todo == s.todo && s'.phase == s.phase
    && s'.sup == s.sup.(restartLatched := s'.sup.restartLatched)
    && s'.log.healthyStart == s.log.healthyStart && s'.log.startBoot == s.log.startBoot
    && s'.log.startSession == s.log.startSession && s'.log.lastTick == s.log.lastTick
  }

  lemma SameWatchKeeps(cfg: SystemConfig, s: System, s': System)
    requires Watched(cfg, s) && SameWatch(s, s')
    ensures Watched(cfg, s')
  {
  }

  lemma PumpKeepsWatch(cfg: SystemConfig, s: System, clock: Option<int>, outcome: SendOutcome)
    requires Watched(cfg, s)
    ensures Watched(cfg, Pump(cfg, s, clock, outcome))
  {
    hide Watched, OnRuntime, Consume, Sendable, Send, NoteSent;
    match s.pc
    case AtRest =>
      OnRuntimeFrame(cfg, s, ConsumeCall(clock));
      CallKeepsWatch(cfg, s, ConsumeCall(clock));
      if !s.io.stopRequested {
        SameWatchKeeps(cfg, OnRuntime(cfg, s, ConsumeCall(clock)), Pump(cfg, s, clock, outcome));
      }
    case Noting(wire, at) =>
      var call := Note(wire.sessionId, wire.sequence, at);
      CallKeepsWatch(cfg, s, call);
      NoteOpensNoEpisode(cfg, s, wire, at);
      SameWatchKeeps(cfg, OnRuntime(cfg, s, call), Pump(cfg, s, clock, outcome));
    case _ =>
      PumpOutsideRuntime(cfg, s, clock, outcome);
      SameWatchKeeps(cfg, s, Pump(cfg, s, clock, outcome));
  }

  lemma PumpOutsideRuntime(cfg: SystemConfig, s: System, clock: Option<int>, outcome: SendOutcome)
    requires s.pc.Checking? || s.pc.Sending?
    ensures SameWatch(s, Pump(cfg, s, clock, outcome))
  {
    hide Sendable, Send, Enqueue;
  }

  lemma NoteOpensNoEpisode(cfg: SystemConfig, s: System, wire: WireCommand, at: int)
    ensures OnRuntime(cfg, s, Note(wire.sessionId, wire.sequence, at)).log == s.log
  {
  }

  lemma StepKeepsWatch(cfg: SystemConfig, s: System, l: Label)
    requires Watched(cfg, s) && cfg.sup.heartbeatTimeout > 0
    ensures Watched(cfg, Step(cfg, s, l))
  {
    hide Watched, OnRuntime, Pump, NextPhase, DoNext, ClearStep, Answered, Speak, Enqueue, Deliverable;
    match l
    case Request(e) => CallKeepsWatch(cfg, s, Submit(e));
    case PublishStep(cmd, clock) => CallKeepsWatch(cfg, s, PublishCall(cmd, clock));
    case ClearFault => ClearKeepsWatch(cfg, s);
    case TickStart(now) => TickStartKeepsWatch(cfg, s, now);
    case TickAdvance => if s.todo != [] { ActionKeepsWatch(cfg, s); } else { PhaseKeepsWatch(cfg, s); }
    case SchedulerDies => CallKeepsWatch(cfg, s, SchedulerExit);
    case PumpStep(clock, outcome) => PumpKeepsWatch(cfg, s, clock, outcome);
    case _ =>
      OutsideRuntime(cfg, s, l);
      SameWatchKeeps(cfg, s, Step(cfg, s, l));
  }

  /** Steps of the bus, the node and the receive side leave what supervision looks at alone. */
  lemma OutsideRuntime(cfg: SystemConfig, s: System, l: Label)
    requires l.Receive? || l.IoFails? || l.IoStops? || l.NodeReceives? || l.NodePolls? || l.NodeInterlock?
             || l.NodeReboots? || l.NodeBeats? || l.NodeReports? || l.NodeFaults?
    ensures SameWatch(s, Step(cfg, s, l))
  {
    hide N.OnFrame, Encode, Translate, Deliverable, Enqueue;
  }

  lemma TickStartKeepsWatch(cfg: SystemConfig, s: System, now: int)
    requires Watched(cfg, s)
    ensures Watched(cfg, Step(cfg, s, TickStart(now)))
  {
    hide OnRuntime, Escalating, WellFormed;
    CallKeepsWatch(cfg, s, TickCall(now));
  }

  lemma ClearKeepsWatch(cfg: SystemConfig, s: System)
    requires Watched(cfg, s)
    ensures Watched(cfg, ClearStep(cfg, s))
  {
    hide Watched, OnRuntime;
    var moved := OnRuntime(cfg, s, Submit(FaultCleared));
    if s.clear.SawNoFault? || s.clear.Acknowledged? {
      CallKeepsWatch(cfg, s, Submit(FaultCleared));
      SameWatchKeeps(cfg, moved, ClearStep(cfg, s));
    } else {
      SameWatchKeeps(cfg, s, ClearStep(cfg, s));
    }
  }

  lemma {:induction false} RunKeepsWatch(cfg: SystemConfig, node: N.Node, run: seq<Label>, n: nat)
    requires n <= |run| && cfg.sup.heartbeatTimeout > 0
    ensures Watched(cfg, After(cfg, node, run, n))
  {
    if n > 0 {
      hide Step, Watched;
      RunKeepsWatch(cfg, node, run, n - 1);
      StepKeepsWatch(cfg, After(cfg, node, run, n - 1), run[n - 1]);
    }
  }

  /**
   Active-episode stability: along every interleaving, in an episode that began with the node
   online and fault free, every completed supervision tick that leaves the runtime Active
   finds the same boot and session, no node fault, and a heartbeat younger than the timeout at
   that tick. Liveness bookkeeping backs it: a node once seen is online exactly when no
   communication loss is latched.
   */
  lemma ActiveEpisodeIsStable(cfg: SystemConfig, node: N.Node, run: seq<Label>, n: nat)
    requires n <= |run| && cfg.sup.heartbeatTimeout > 0
    ensures var s := After(cfg, node, run, n);
            && (s.sup.everSeen ==> (s.sup.online <==> !s.sup.commLoss))
            && (s.phase.Resting? && s.todo == [] && s.log.healthyStart && s.ep.rt.machine.mode.Active? ==>
                  && s.sup.online && s.sup.nodeFault == 0
                  && s.sup.bootId == s.log.startBoot && s.sup.sessionId == s.log.startSession
                  && s.log.lastTick - s.sup.lastHeartbeat < cfg.sup.heartbeatTimeout)
  {
    RunKeepsWatch(cfg, node, run, n);
  }

  // ---------- recovery from Fault ----------

  predicate Gated(s: System) {
    && (s.queue.latched <==> s.queue.refused > 0)
    && s.sup.nodeFault == s.log.reportedFault
    && (s.clear.IoChecked? ==> !s.clear.reason.IoError? && !s.clear.reason.SendFailure?)
    && (s.clear.Acknowledged? ==>
          && !s.clear.reason.IoError? && !s.clear.reason.SendFailure?
          && s.clear.refused == 0
          && (s.clear.sup.everSeen ==> s.clear.sup.online)
          && s.clear.sup.nodeFault == 0 && !s.clear.sup.commLoss && !s.clear.sup.overflowLatched)
  }

  lemma PushKeepsGate(q: Fifo<InputEvent>, ev: Option<InputEvent>)
    requires q.latched <==> q.refused > 0
    ensures Enqueue(q, ev).latched <==> Enqueue(q, ev).refused > 0
  {
  }

  lemma PumpKeepsGate(cfg: SystemConfig, s: System, clock: Option<int>, outcome: SendOutcome)
    requires Gated(s)
    ensures Gated(Pump(cfg, s, clock, outcome))
  {
    hide OnRuntime, Send, Consume, Sendable, NoteSent, Enqueue;
    match s.pc
    case AtRest => OnRuntimeFrame(cfg, s, ConsumeCall(clock));
    case Sending =>
      if s.io.pending.Some? {
        PushKeepsGate(s.queue, Send(s.io, s.io.pending.value, cfg.sup.nodeId, clock, outcome).event);
      }
    case Noting(wire, at) => OnRuntimeFrame(cfg, s, Note(wire.sessionId, wire.sequence, at));
    case _ =>
  }

  lemma TickKeepsGate(cfg: SystemConfig, s: System)
    requires Gated(s)
    ensures Gated(Step(cfg, s, TickAdvance))
  {
    hide OnRuntime, Digest, Overflowed, CommCheck, Local;
    if s.todo != [] {
      ActionKeepsReport(s.sup, s.todo[0]);
      if CallOf(s.todo[0]).Some? {
        OnRuntimeFrame(cfg, s.(todo := s.todo[1..], sup := Local(s.sup, s.todo[0])), CallOf(s.todo[0]).value);
      }
    } else {
      ChecksKeepReport(cfg.sup, s.sup, s.queue.latched, if s.phase.CheckComm? then s.phase.now else 0);
      if s.phase.Draining? && s.queue.items != [] {
        DigestTakesReport(cfg.sup, s.sup, s.queue.items[0], s.phase.now);
      }
    }
  }

  lemma ActionKeepsReport(sup: Supervisor, a: Action)
    ensures Local(sup, a).nodeFault == sup.nodeFault
  {
  }

  lemma ChecksKeepReport(cfg: SupervisorConfig, sup: Supervisor, latched: bool, now: int)
    ensures Overflowed(sup, latched).0.nodeFault == CommCheck(cfg, sup, now).0.nodeFault == sup.nodeFault
  {
  }

  lemma DigestTakesReport(cfg: SupervisorConfig, sup: Supervisor, ev: InputEvent, now: int)
    ensures Digest(cfg, sup, ev, now).0.nodeFault ==
              if ev.StatusEvent? && (ev.node == 0 || ev.node == cfg.nodeId) then ev.fault else sup.nodeFault
  {
  }

  lemma ClearKeepsGate(cfg: SystemConfig, s: System)
    requires Gated(s)
    ensures Gated(ClearStep(cfg, s))
  {
    hide OnRuntime;
    OnRuntimeFrame(cfg, s, Submit(FaultCleared));
  }

  lemma StepKeepsGate(cfg: SystemConfig, s: System, l: Label)
    requires Gated(s)
    ensures Gated(Step(cfg, s, l))
  {
    hide OnRuntime, N.OnFrame, Encode, Pump, DoNext, NextPhase, ClearStep, Enqueue, Translate, Deliverable;
    match l
    case Request(e) => OnRuntimeFrame(cfg, s, Submit(e));
    case PublishStep(cmd, clock) => OnRuntimeFrame(cfg, s, PublishCall(cmd, clock));
    case ClearFault => ClearKeepsGate(cfg, s);
    case TickStart(now) => OnRuntimeFrame(cfg, s, TickCall(now));
    case TickAdvance => TickKeepsGate(cfg, s);
    case SchedulerDies => OnRuntimeFrame(cfg, s, SchedulerExit);
    case PumpStep(clock, outcome) => PumpKeepsGate(cfg, s, clock, outcome);
    case Receive(f, now) => PushKeepsGate(s.queue, Translate(cfg.sup.nodeId, f, now));
    case _ =>
  }

  lemma {:induction false} RunKeepsGate(cfg: SystemConfig, node: N.Node, run: seq<Label>, n: nat)
    requires n <= |run|
    ensures Gated(After(cfg, node, run, n))
  {
    if n > 0 {
      hide Step;
      RunKeepsGate(cfg, node, run, n - 1);
      StepKeepsGate(cfg, After(cfg, node, run, n - 1), run[n - 1]);
    }
  }

  /** Step i is the call's look at the I/O thread, which had not failed. */
  predicate IoSoundAt(cfg: SystemConfig, node: N.Node, run: seq<Label>, i: nat)
    requires i < |run|
  {
    run[i] == ClearFault && After(cfg, node, run, i).clear.SawFault? && !HasFailed(After(cfg, node, run, i).io)
  }

  /** No clear_fault step after i and before n, so the look at i belongs to the call in progress at n. */
  ghost predicate NoClearBetween(run: seq<Label>, i: nat, n: nat)
    requires i < n <= |run|
  {
    forall j :: i < j < n ==> run[j] != ClearFault
  }

  lemma AcknowledgingStep(cfg: SystemConfig, s: System, l: Label)
    ensures !s.clear.Acknowledged? && Step(cfg, s, l).clear.Acknowledged? ==>
              l == ClearFault && s.clear.IoChecked? && Recovered(s.sup, s.queue.latched)
    ensures !s.clear.IoChecked? && Step(cfg, s, l).clear.IoChecked? ==>
              l == ClearFault && s.clear.SawFault? && !HasFailed(s.io)
  {
    hide OnRuntime, N.OnFrame, Encode, Send, Consume, Sendable, NoteSent, Translate, Deliverable, Digest,
      Overflowed, CommCheck;
    match l
    case Request(e) => OnRuntimeFrame(cfg, s, Submit(e));
    case PublishStep(cmd, clock) => OnRuntimeFrame(cfg, s, PublishCall(cmd, clock));
    case ClearFault => OnRuntimeFrame(cfg, s, Submit(FaultCleared));
    case TickStart(now) => OnRuntimeFrame(cfg, s, TickCall(now));
    case TickAdvance =>
      if s.todo != [] && CallOf(s.todo[0]).Some? {
        OnRuntimeFrame(cfg, s.(todo := s.todo[1..], sup := Local(s.sup, s.todo[0])), CallOf(s.todo[0]).value);
      }
    case SchedulerDies => OnRuntimeFrame(cfg, s, SchedulerExit);
    case PumpStep(clock, outcome) =>
      OnRuntimeFrame(cfg, s, ConsumeCall(clock));
      if s.pc.Noting? { OnRuntimeFrame(cfg, s, Note(s.pc.wire.sessionId, s.pc.wire.sequence, s.pc.at)); }
    case _ =>
  }
}
