/** Runs from the initial state in which a call of clear_fault ends with something it was meant to check broken. */
module Races {
  import opened Bytes
  import opened CanV1
  import opened StateMachine
  import opened RuntimeCore
  import opened RuntimeRuns
  import opened Rings
  import opened Supervision
  import opened CanIo
  import opened Protocol
  import opened Acknowledgements
  import opened SupervisedRuns
  import opened Recovery
  import N = NodeLogic

  // ---------- single stages ----------

  /** Nothing is under way: idle, quiet, I/O thread running. */
  predicate Quiet(s: System) {
    && s.ep.rt.machine.mode.Idle? && s.ep.rt.running
    && s.phase.Resting? && s.todo == [] && s.queue.items == [] && !s.queue.latched && s.queue.capacity > 0
    && s.pc.AtRest? && s.io == IO_START && s.clear.NotClearing?
  }

  lemma Booted(cfg: SystemConfig, node: N.Node)
    requires ValidSystem(cfg)
    ensures var s := Step(cfg, Initial(cfg, node), Request(Boot)); Quiet(s) && s.sup == UNSEEN && s.node == node
  {
  }

  /** Everything but the runtime's mode and the named parts stays. */
  predicate Same(s: System, s': System) {
    s'.io == s.io && s'.pc == s.pc && s'.clear == s.clear && s'.node == s.node && s'.up == s.up && s'.down == s.down
  }

  /** Within an episode, what it has sent. */
  predicate SameSent(s: System, s': System) {
    s.ep.rt.machine.mode.Active? ==> s'.log.sent == s.log.sent && s'.log.cleanStart == s.log.cleanStart
  }

  lemma OnRuntimeSent(cfg: SystemConfig, s: System, call: Call)
    ensures SameSent(s, OnRuntime(cfg, s, call))
  {
    hide TraceStep;
  }

  lemma TickOutsideActive(cfg: Config, r: State, t: int)
    requires !r.machine.mode.Active?
    ensures Tick(cfg, r, t).machine == r.machine && Tick(cfg, r, t).running == r.running
  {
  }

  /** The periodic thread opens a tick and finds no overflow. */
  lemma Opens(cfg: SystemConfig, s: System, now: int)
    requires s.phase.Resting? && s.todo == [] && s.ep.rt.running && !s.queue.latched
    ensures var s' := Step(cfg, Step(cfg, s, TickStart(now)), TickAdvance);
            && Same(s, s') && s'.phase == Draining(now, cfg.sup.maxEventsPerTick) && s'.todo == []
            && s'.queue == s.queue && s'.sup == s.sup && SameSent(s, s')
            && s'.ep.rt == Tick(cfg.rt, s.ep.rt, now)
  {
    hide Tick, OnRuntime;
    OnRuntimeFrame(cfg, s, TickCall(now));
    OnRuntimeApplies(cfg, s, TickCall(now));
    OnRuntimeSent(cfg, s, TickCall(now));
  }

  lemma OnRuntimeApplies(cfg: SystemConfig, s: System, call: Call)
    ensures OnRuntime(cfg, s, call).ep.rt == Apply(cfg.rt, s.ep.rt, call)
  {
    hide Apply;
  }

  /** It digests the only event queued. */
  lemma DigestsOne(cfg: SystemConfig, s: System, ev: InputEvent)
    requires s.phase.Draining? && s.phase.budget > 0 && s.todo == [] && s.queue.items == [ev]
    ensures var s' := Step(cfg, s, TickAdvance);
            && Same(s, s') && s'.phase == Draining(s.phase.now, s.phase.budget - 1)
            && s'.queue == s.queue.(items := []) && s'.ep == s.ep && SameSent(s, s')
            && (s'.sup, s'.todo) == Digest(cfg.sup, s.sup, ev, s.phase.now)
  {
    hide Digest;
  }

  /** It finds the queue empty and turns to the communication check. */
  lemma TurnsToCheck(cfg: SystemConfig, s: System)
    requires s.phase.Draining? && s.todo == [] && s.queue.items == []
    ensures Step(cfg, s, TickAdvance) == s.(phase := CheckComm(s.phase.now))
  {
  }

  lemma ChecksComm(cfg: SystemConfig, s: System)
    requires s.phase.CheckComm? && s.todo == []
    ensures var s' := Step(cfg, s, TickAdvance);
            && Same(s, s') && s'.phase.Resting? && s'.queue == s.queue && s'.ep == s.ep
            && SameSent(s, s')
            && (s'.sup, s'.todo) == CommCheck(cfg.sup, s.sup, s.phase.now)
  {
    hide CommCheck;
  }

  /** It carries out one action of the supervisor. */
  lemma Acts(cfg: SystemConfig, s: System)
    requires s.todo != []
    ensures var s' := Step(cfg, s, TickAdvance);
            && Same(s, s') && s'.phase == s.phase && s'.queue == s.queue && s'.todo == s.todo[1..]
            && SameSent(s, s')
            && s'.sup == Local(s.sup, s.todo[0]) && s'.ep.rt == Remote(s.ep.rt, s.todo[0])
  {
    hide OnRuntime, RaiseFault, SetInterlock, Observe;
    var s1 := s.(todo := s.todo[1..], sup := Local(s.sup, s.todo[0]));
    if CallOf(s.todo[0]).Some? {
      OnRuntimeFrame(cfg, s1, CallOf(s.todo[0]).value);
      OnRuntimeApplies(cfg, s1, CallOf(s.todo[0]).value);
      OnRuntimeSent(cfg, s1, CallOf(s.todo[0]).value);
    }
  }

  /** An escalation outside the emergency stop and Disabled ends in Fault. */
  lemma RaisesFault(r: State, code: FaultCode)
    requires !code.NoFault? && (r.machine.mode.Idle? || r.machine.mode.Fault?)
    ensures RaiseFault(r, code).machine.mode.Fault? && RaiseFault(r, code).running == r.running
  {
  }

  /** A message of the node crosses the bus into the queue. */
  lemma Delivered(cfg: SystemConfig, s: System, m: Message)
    requires FrameOf(m) in s.up && Legal(m) && s.pc.AtRest? && !s.io.stopRequested
    requires s.queue.items == [] && s.queue.capacity > 0 && !m.Command?
    ensures var s' := Step(cfg, s, Receive(FrameOf(m), 1));
            && Translate(cfg.sup.nodeId, FrameOf(m), 1).Some?
            && s' == s.(queue := s.queue.(items := [EventOf(m)], pushes := s.queue.pushes + 1))
  {
    hide FrameOf, Decode, Legal, Encode;
    EncodedIsLegal(m);
    RoundTrip(m);
  }

  function EventOf(m: Message): InputEvent
    requires !m.Command?
  {
    match m
    case Heartbeat(n, boot, session, _) => HeartbeatEvent(1, n, boot, session)
    case Status(n, ready, session, _, fault) => StatusEvent(1, n, session, ready, fault)
    case OutputStatus(n, result, session, sequence, _) => OutputEvent(1, n, session, sequence, result)
  }

  // ---------- a node that restarts ----------

  predicate Speaks(cfg: SystemConfig, n: N.Node) { n.nodeId == cfg.sup.nodeId && n.bootId != 0 && n.sessionId != 0 }

  lemma Beats(cfg: SystemConfig, s: System)
    requires ValidSystem(cfg) && Speaks(cfg, s.node)
    ensures var s' := Step(cfg, s, NodeBeats);
            && s' == s.(node := s'.node, up := s'.up)
            && FrameOf(N.HeartbeatOf(s.node)) in s'.up && Legal(N.HeartbeatOf(s.node))
            && Speaks(cfg, s'.node) && s'.node.bootId == s.node.bootId && s'.node.sessionId == s.node.sessionId
  {
    hide FrameOf;
  }

  lemma Reboots(cfg: SystemConfig, s: System)
    requires Speaks(cfg, s.node)
    ensures var s' := Step(cfg, s, NodeReboots);
            s' == s.(node := s'.node) && Speaks(cfg, s'.node) && s'.node.bootId != s.node.bootId
  {
  }

  /** The node sends a heartbeat, a tick starts at now and digests it. */
  lemma HearsBeat(cfg: SystemConfig, node: N.Node, run: seq<Label>, now: int) returns (run': seq<Label>)
    requires ValidSystem(cfg) && Quiet(End(cfg, node, run)) && Speaks(cfg, End(cfg, node, run).node)
    ensures var s, s' := End(cfg, node, run), End(cfg, node, run');
            && s'.io == s.io && s'.pc == s.pc && s'.clear == s.clear && Speaks(cfg, s'.node)
            && s'.node.bootId == s.node.bootId
            && s'.phase == Draining(now, cfg.sup.maxEventsPerTick - 1)
            && s'.queue == s.queue.(pushes := s'.queue.pushes)
            && s'.ep.rt.machine == s.ep.rt.machine && s'.ep.rt.running
            && (s'.sup, s'.todo) == Digest(cfg.sup, s.sup, EventOf(N.HeartbeatOf(s.node)), now)
  {
    hide Step, After, Digest, Translate, FrameOf, Legal, Tick;
    var s := End(cfg, node, run);
    var f := FrameOf(N.HeartbeatOf(s.node));
    Beats(cfg, s);
    Then(cfg, node, run, NodeBeats);
    var r1 := run + [NodeBeats];
    var s1 := End(cfg, node, r1);
    Delivered(cfg, s1, N.HeartbeatOf(s.node));
    Then(cfg, node, r1, Receive(f, 1));
    var r2 := r1 + [Receive(f, 1)];
    var s2 := End(cfg, node, r2);
    Opens(cfg, s2, now);
    TickOutsideActive(cfg.rt, s2.ep.rt, now);
    Then(cfg, node, r2, TickStart(now));
    var r3 := r2 + [TickStart(now)];
    Then(cfg, node, r3, TickAdvance);
    var r4 := r3 + [TickAdvance];
    DigestsOne(cfg, End(cfg, node, r4), EventOf(N.HeartbeatOf(s.node)));
    Then(cfg, node, r4, TickAdvance);
    run' := r4 + [TickAdvance];
  }

  /** A node is heard, and the tick ends quietly. */
  lemma KnowsNode(cfg: SystemConfig, node: N.Node) returns (run: seq<Label>)
    requires ValidSystem(cfg) && Speaks(cfg, node)
    ensures var s := End(cfg, node, run);
            && Quiet(s) && Speaks(cfg, s.node) && s.sup.everSeen && s.sup.bootId == s.node.bootId
            && s.sup.nodeFault == 0 && !s.sup.overflowLatched && !s.sup.commLoss
  {
    hide Step, After;
    BootedEnd(cfg, node);
    var r0 := [Request(Boot)];
    var r1 := HearsBeat(cfg, node, r0, 1);
    var s1 := End(cfg, node, r1);
    TurnsToCheck(cfg, s1);
    Then(cfg, node, r1, TickAdvance);
    var r2 := r1 + [TickAdvance];
    ChecksComm(cfg, End(cfg, node, r2));
    Then(cfg, node, r2, TickAdvance);
    run := r2 + [TickAdvance];
  }

  lemma InitialEnd(cfg: SystemConfig, node: N.Node)
    ensures End(cfg, node, []) == Initial(cfg, node)
  {
  }

  /** In Fault because the node restarted, otherwise recovered, late in a tick at time now. */
  predicate Restarted(cfg: SystemConfig, s: System, now: int) {
    && s.ep.rt.machine.mode.Fault? && s.ep.rt.running && s.phase.Draining? && s.phase.now == now && s.todo == []
    && s.queue.items == [] && !s.queue.latched && s.queue.capacity > 0
    && s.pc.AtRest? && s.io == IO_START && s.clear.NotClearing?
    && s.sup.everSeen && s.sup.online && !s.sup.commLoss && !s.sup.overflowLatched && s.sup.nodeFault == 0
    && s.sup.lastHeartbeat == 1
  }

  /** The known node restarts and is heard again in a tick a full heartbeat timeout later. */
  lemma SeesRestart(cfg: SystemConfig, node: N.Node) returns (run: seq<Label>)
    requires ValidSystem(cfg) && Speaks(cfg, node)
    ensures Restarted(cfg, End(cfg, node, run), 1 + cfg.sup.heartbeatTimeout)
  {
    hide Step, After, RaiseFault;
    var r0 := KnowsNode(cfg, node);
    var s0 := End(cfg, node, r0);
    Reboots(cfg, s0);
    Then(cfg, node, r0, NodeReboots);
    var r1 := r0 + [NodeReboots];
    var r2 := HearsBeat(cfg, node, r1, 1 + cfg.sup.heartbeatTimeout);
    var s2 := End(cfg, node, r2);
    assert s2.todo == [Rebind(s2.todo[0].bootId, s2.todo[0].newSession), Escalate(NodeFault), Stamp(1)];
    Acts(cfg, s2);
    Then(cfg, node, r2, TickAdvance);
    var r3 := r2 + [TickAdvance];
    Acts(cfg, End(cfg, node, r3));
    RaisesFault(End(cfg, node, r3).ep.rt, NodeFault);
    Then(cfg, node, r3, TickAdvance);
    var r4 := r3 + [TickAdvance];
    Acts(cfg, End(cfg, node, r4));
    Then(cfg, node, r4, TickAdvance);
    run := r4 + [TickAdvance];
  }

  // ---------- the call's own steps ----------

  lemma ClearChecks(cfg: SystemConfig, s: System)
    requires !s.clear.Acknowledged? && !s.clear.SawNoFault?
    ensures var s' := Step(cfg, s, ClearFault);
            && s'.ep == s.ep && s'.io == s.io && s'.queue == s.queue && s'.phase == s.phase && s'.todo == s.todo
            && s'.pc == s.pc && s'.sup == s.sup.(restartLatched := s'.sup.restartLatched)
  {
    hide Recovered;
  }

  lemma FailsToRead(cfg: SystemConfig, s: System)
    requires s.pc.AtRest? && !HasFailed(s.io) && s.queue.items == [] && s.queue.capacity > 0
    ensures var s' := Step(cfg, s, IoFails(true, 1));
            && s' == s.(io := s.io.(stopRequested := true, reason := IoError), queue := s'.queue)
            && s'.queue == s.queue.(items := [IoErrorEvent(1, cfg.sup.nodeId)], pushes := s.queue.pushes + 1)
  {
  }

  /** The last step of a run clears the fault in an unsound system. */
  ghost predicate ClearsUnsound(cfg: SystemConfig, node: N.Node, run: seq<Label>) {
    && run != [] && run[|run| - 1] == ClearFault
    && var s, s' := After(cfg, node, run, |run| - 1), End(cfg, node, run);
       s.ep.rt.machine.mode.Fault? && s'.ep.rt.machine.mode.Idle? && !Sound(s)
  }

  lemma ClearsNow(cfg: SystemConfig, node: N.Node, run: seq<Label>) returns (run': seq<Label>)
    requires var s := End(cfg, node, run);
             && s.ep.rt.machine.mode.Fault? && (s.clear.Acknowledged? || s.clear.SawNoFault?) && !Sound(s)
    ensures run' == run + [ClearFault] && ClearsUnsound(cfg, node, run')
    ensures After(cfg, node, run', |run'| - 1) == End(cfg, node, run)
  {
    hide Step, After, Sound;
    ClearingStep(cfg, End(cfg, node, run));
    Then(cfg, node, run, ClearFault);
    run' := run + [ClearFault];
  }

  /** The call has seen no fault, and an I/O failure waits in the queue. */
  predicate Blind(cfg: SystemConfig, s: System) {
    && s.ep.rt.machine.mode.Idle? && s.ep.rt.running && s.phase.Resting? && s.todo == []
    && s.queue.items == [IoErrorEvent(1, cfg.sup.nodeId)] && !s.queue.latched
    && s.clear.SawNoFault? && HasFailed(s.io)
  }

  /** A tick turns the failure into Fault, and the call clears it. */
  lemma ClearsBlindly(cfg: SystemConfig, node: N.Node, run: seq<Label>) returns (run': seq<Label>)
    requires ValidSystem(cfg) && Blind(cfg, End(cfg, node, run))
    ensures run' == run + [TickStart(1), TickAdvance, TickAdvance, TickAdvance, ClearFault]
    ensures ClearsUnsound(cfg, node, run')
    ensures var s := After(cfg, node, run', |run'| - 1); s.clear.SawNoFault? && HasFailed(s.io)
  {
    hide Step, After, RaiseFault, Tick;
    Opens(cfg, End(cfg, node, run), 1);
    TickOutsideActive(cfg.rt, End(cfg, node, run).ep.rt, 1);
    Then(cfg, node, run, TickStart(1));
    var r1 := run + [TickStart(1)];
    Then(cfg, node, r1, TickAdvance);
    var r2 := r1 + [TickAdvance];
    DigestsOne(cfg, End(cfg, node, r2), IoErrorEvent(1, cfg.sup.nodeId));
    Then(cfg, node, r2, TickAdvance);
    var r3 := r2 + [TickAdvance];
    Acts(cfg, End(cfg, node, r3));
    RaisesFault(End(cfg, node, r3).ep.rt, Internal);
    Then(cfg, node, r3, TickAdvance);
    run' := ClearsNow(cfg, node, r3 + [TickAdvance]);
  }

  lemma BootedEnd(cfg: SystemConfig, node: N.Node)
    requires ValidSystem(cfg)
    ensures var s := End(cfg, node, [Request(Boot)]); Quiet(s) && s.sup == UNSEEN && s.node == node
  {
    hide Step, After;
    Booted(cfg, node);
    InitialEnd(cfg, node);
    Then(cfg, node, [], Request(Boot));
    assert [] + [Request(Boot)] == [Request(Boot)];
  }

  /** The fault is raised after the call's look at the mode, and nothing was checked. */
  lemma FaultAfterTheLook(cfg: SystemConfig, node: N.Node) returns (run: seq<Label>)
    requires ValidSystem(cfg)
    ensures ClearsUnsound(cfg, node, run)
    ensures var s := After(cfg, node, run, |run| - 1); s.clear.SawNoFault? && HasFailed(s.io)
  {
    hide Step, After;
    BootedEnd(cfg, node);
    var r0 := [Request(Boot)];
    var s0 := End(cfg, node, r0);
    ClearMovesCall(cfg, s0);
    ClearChecks(cfg, s0);
    Then(cfg, node, r0, ClearFault);
    var r1 := r0 + [ClearFault];
    FailsToRead(cfg, End(cfg, node, r1));
    Then(cfg, node, r1, IoFails(true, 1));
    run := ClearsBlindly(cfg, node, r1 + [IoFails(true, 1)]);
  }

  /** The failure comes even before the look, but its event is digested only after it: no step since has failed. */
  lemma FaultPendingAtTheLook(cfg: SystemConfig, node: N.Node) returns (run: seq<Label>)
    requires ValidSystem(cfg)
    ensures ClearsUnsound(cfg, node, run)
    ensures 6 <= |run| && LookedAt(cfg, node, run, |run| - 6) && HasFailed(After(cfg, node, run, |run| - 6).io)
    ensures After(cfg, node, run, |run| - 6).ep.rt.machine.mode.Idle?
    ensures forall k :: |run| - 6 < k < |run| - 1 ==> run[k].TickStart? || run[k].TickAdvance?
  {
    hide Step, After;
    BootedEnd(cfg, node);
    var r0 := [Request(Boot)];
    FailsToRead(cfg, End(cfg, node, r0));
    Then(cfg, node, r0, IoFails(true, 1));
    var r1 := r0 + [IoFails(true, 1)];
    ClearMovesCall(cfg, End(cfg, node, r1));
    ClearChecks(cfg, End(cfg, node, r1));
    Then(cfg, node, r1, ClearFault);
    var r2 := r1 + [ClearFault];
    run := ClearsBlindly(cfg, node, r2);
    assert run == r1 + run[|r1|..];
    AfterPrefix(cfg, node, r1, run[|r1|..], |r1|);
  }

  /** The call sees the fault and a sound I/O thread. */
  lemma Looks(cfg: SystemConfig, node: N.Node) returns (run: seq<Label>)
    requires ValidSystem(cfg) && Speaks(cfg, node)
    ensures var s := End(cfg, node, run);
            s.clear.IoChecked? && Restarted(cfg, s.(clear := NotClearing), 1 + cfg.sup.heartbeatTimeout)
  {
    hide Step, After;
    var r0 := SeesRestart(cfg, node);
    var s0 := End(cfg, node, r0);
    ClearMovesCall(cfg, s0);
    ClearChecks(cfg, s0);
    Then(cfg, node, r0, ClearFault);
    var r1 := r0 + [ClearFault];
    ClearMovesCall(cfg, End(cfg, node, r1));
    ClearChecks(cfg, End(cfg, node, r1));
    Then(cfg, node, r1, ClearFault);
    run := r1 + [ClearFault];
  }

  /** The I/O thread fails after the call's look at it, and the acknowledgement does not notice. */
  lemma FailureAfterTheLook(cfg: SystemConfig, node: N.Node) returns (run: seq<Label>)
    requires ValidSystem(cfg) && Speaks(cfg, node)
    ensures ClearsUnsound(cfg, node, run)
    ensures var s := After(cfg, node, run, |run| - 1);
            s.clear.Acknowledged? && HasFailed(s.io) && Recovered(s.sup, s.queue.latched)
  {
    hide Step, After;
    var r0 := Looks(cfg, node);
    FailsToRead(cfg, End(cfg, node, r0));
    Then(cfg, node, r0, IoFails(true, 1));
    var r1 := r0 + [IoFails(true, 1)];
    ClearMovesCall(cfg, End(cfg, node, r1));
    ClearChecks(cfg, End(cfg, node, r1));
    Then(cfg, node, r1, ClearFault);
    run := ClearsNow(cfg, node, r1 + [ClearFault]);
  }

  /** The link is lost, and a new fault raised, after the acknowledgement. */
  lemma LossAfterTheAcknowledgement(cfg: SystemConfig, node: N.Node) returns (run: seq<Label>)
    requires ValidSystem(cfg) && Speaks(cfg, node)
    ensures ClearsUnsound(cfg, node, run)
    ensures var s := After(cfg, node, run, |run| - 1);
            s.clear.Acknowledged? && s.sup.commLoss && !HasFailed(s.io)
  {
    hide Step, After, RaiseFault;
    var r0 := Looks(cfg, node);
    ClearMovesCall(cfg, End(cfg, node, r0));
    ClearChecks(cfg, End(cfg, node, r0));
    Then(cfg, node, r0, ClearFault);
    var r1 := r0 + [ClearFault];
    TurnsToCheck(cfg, End(cfg, node, r1));
    Then(cfg, node, r1, TickAdvance);
    var r2 := r1 + [TickAdvance];
    ChecksComm(cfg, End(cfg, node, r2));
    Then(cfg, node, r2, TickAdvance);
    var r3 := r2 + [TickAdvance];
    Acts(cfg, End(cfg, node, r3));
    RaisesFault(End(cfg, node, r3).ep.rt, CommLoss);
    Then(cfg, node, r3, TickAdvance);
    run := ClearsNow(cfg, node, r3 + [TickAdvance]);
  }
}
