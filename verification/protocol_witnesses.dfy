/** Runs from the initial state that show the conditions on acknowledgements and on send order to be needed. */
module Witnesses {
  import opened Bytes
  import opened CanV1
  import opened StateMachine
  import opened RuntimeCore
  import opened RuntimeRuns
  import opened Rings
  import opened Supervision
  import opened CanIo
  import opened Protocol
  import opened Acknowledgements
  import opened Races
  import opened Freshness
  import N = NodeLogic

  // ---------- the commands ----------

  const PUMP := PumpStep(Some(1), Sent)

  /** A command with 10 ms left at time 1. */
  function Cmd(session: u16, sequence: u16, mask: u8): OutputCommand {
    OutputCommand(session, sequence, 10_000_001, mask, 1)
  }

  function Wire(cfg: SystemConfig, session: u16, sequence: u16, mask: u8): Message {
    Command(cfg.sup.nodeId, BitsOf(mask), session, sequence, BitsOf(1), 1)
  }

  lemma Converts(cfg: SystemConfig, session: u16, sequence: u16, mask: u8)
    requires ValidSystem(cfg) && session != 0 && sequence != 0 && mask != 0
    ensures ToWire(Cmd(session, sequence, mask), cfg.sup.nodeId, 1) == Ok(Wire(cfg, session, sequence, mask))
    ensures var w := Wire(cfg, session, sequence, mask); Legal(w) && Encode(w) == Ok(FrameOf(w))
  {
    hide BitsOf, FrameOf, WireSequence, Validity10ms;
    OwnImage(sequence);
    BitsNonzero(mask);
    OneUnit();
    SmallByte(mask);
    SmallByte(1);
  }

  lemma OneUnit()
    ensures Validity10ms(1, 10_000_001) == Ok(1)
  {
  }

  lemma SmallByte(b: u8)
    ensures b % 256 == b
  {
  }

  lemma OwnImage(sequence: u16)
    requires sequence != 0
    ensures WireSequence(sequence) == sequence
  {
  }

  lemma BitsNonzero(mask: u8)
    requires mask != 0
    ensures BitsOf(mask) != 0
  {
    assert ValueOf(0) == 0;
  }

  lemma MasksDiffer(cfg: SystemConfig, session: u16, sequence: u16)
    ensures FrameOf(Wire(cfg, session, sequence, 1)) != FrameOf(Wire(cfg, session, sequence, 2))
  {
    hide MakeId, HighByte, LowByte;
    assert ValueOf(BitsOf(1)) != ValueOf(BitsOf(2));
  }

  // ---------- the runtime's side ----------

  /** What publishing and pumping leave alone. */
  predicate Beside(s: System, s': System) {
    && s'.sup == s.sup && s'.queue == s.queue && s'.phase == s.phase && s'.todo == s.todo && s'.clear == s.clear
    && s'.node == s.node && s'.up == s.up
  }

  predicate Working(r: State) { r.machine.mode.Active? && r.machine.ready && r.running }

  /** The output path is open, empty, and admits the next command of a session. */
  predicate Admits(s: System, session: u16, sequence: u16) {
    var r := s.ep.rt;
    && Working(r) && (r.session.None? || r.session == Some(session)) && r.lastSequence < sequence
    && r.mailbox.slot.None? && !r.ackPending && s.pc.AtRest? && !s.io.stopRequested
  }

  /** The pump holds a command and is about to check it; earlier the session admitted up to last. */
  predicate Holds(s: System, session: u16, sequence: u16, mask: u8, last: nat) {
    var r := s.ep.rt;
    && Working(r) && r.session == Some(session) && r.lastSequence == last && r.mailbox.slot.None? && !r.ackPending
    && (r.dog.armed ==> r.dog == Armed(1))
    && s.pc.Checking? && s.io.pending == Some(Cmd(session, sequence, mask)) && !s.io.stopRequested
  }

  /** The command awaits its answer; the clock has not moved. */
  predicate Awaits(s: System, session: u16, sequence: u16, last: nat) {
    var r := s.ep.rt;
    && Working(r) && r.session == Some(session) && r.lastSequence == last && r.mailbox.slot.None?
    && r.ackPending && r.sentSession == session && r.sentSequence == sequence && r.sentTime == 1
    && (r.dog.armed ==> r.dog == Armed(1))
    && s.pc.AtRest? && s.io.pending.None? && !s.io.stopRequested
  }

  lemma Calls(cfg: SystemConfig, s: System, call: Call)
    ensures var s' := OnRuntime(cfg, s, call);
            && Beside(s, s') && s'.down == s.down && s'.io == s.io && s'.pc == s.pc && SameSent(s, s')
            && s'.ep.rt == Apply(cfg.rt, s.ep.rt, call)
  {
    hide OnRuntime, Apply;
    OnRuntimeFrame(cfg, s, call);
    OnRuntimeApplies(cfg, s, call);
    OnRuntimeSent(cfg, s, call);
  }

  /** A command is published at time 1 and consumed. */
  lemma Fetches(cfg: SystemConfig, s: System, session: u16, sequence: u16, mask: u8)
    requires Admits(s, session, sequence) && session != 0 && sequence != 0 && mask != 0
    ensures var s' := Step(cfg, Step(cfg, s, PublishStep(Cmd(session, sequence, mask), Some(1))), PUMP);
            Holds(s', session, sequence, mask, sequence) && Beside(s, s') && s'.down == s.down && SameSent(s, s')
  {
    hide OnRuntime;
    var s1 := Step(cfg, s, PublishStep(Cmd(session, sequence, mask), Some(1)));
    Calls(cfg, s, PublishCall(Cmd(session, sequence, mask), Some(1)));
    Calls(cfg, s1, ConsumeCall(Some(1)));
  }

  lemma Checks(cfg: SystemConfig, s: System, session: u16, sequence: u16, mask: u8, last: nat)
    requires Holds(s, session, sequence, mask, last)
    ensures Step(cfg, s, PUMP) == s.(pc := Sending)
  {
  }

  lemma Puts(cfg: SystemConfig, s: System, session: u16, sequence: u16, mask: u8)
    requires ValidSystem(cfg) && session != 0 && sequence != 0 && mask != 0
    requires s.pc.Sending? && s.io.pending == Some(Cmd(session, sequence, mask))
    ensures var s', wire := Step(cfg, s, PUMP), Wire(cfg, session, sequence, mask);
            && Beside(s, s') && s'.ep == s.ep && s'.io == s.io.(framesSent := s.io.framesSent + 1)
            && s'.pc == Noting(wire, 1) && s'.down == s.down + {FrameOf(wire)}
            && s'.log.sent == s.log.sent + [sequence as nat] && s'.log.cleanStart == s.log.cleanStart
  {
    hide FrameOf, ToWire, Encode;
    Converts(cfg, session, sequence, mask);
  }

  /** The socket would block: the command stays pending. */
  lemma Blocks(cfg: SystemConfig, s: System, session: u16, sequence: u16, mask: u8)
    requires ValidSystem(cfg) && session != 0 && sequence != 0 && mask != 0
    requires s.pc.Sending? && s.io.pending == Some(Cmd(session, sequence, mask))
    ensures Step(cfg, s, PumpStep(Some(1), WouldBlock)) == s.(pc := AtRest)
  {
    hide ToWire, Encode;
    Converts(cfg, session, sequence, mask);
  }

  lemma Notes(cfg: SystemConfig, s: System, session: u16, sequence: u16, mask: u8)
    requires session != 0 && sequence != 0 && s.pc == Noting(Wire(cfg, session, sequence, mask), 1)
    requires Working(s.ep.rt) && s.ep.rt.session == Some(session) && !s.ep.rt.ackPending
    ensures var s' := Step(cfg, s, PUMP);
            && Beside(s, s') && s'.down == s.down && s'.pc.AtRest? && s'.io == s.io.(pending := None)
            && s'.log.sent == s.log.sent && s'.log.cleanStart == s.log.cleanStart
            && s'.ep.rt == s.ep.rt.(ackPending := true, sentSession := session, sentSequence := sequence, sentTime := 1)
  {
    hide OnRuntime;
    Calls(cfg, s, Note(session, sequence, 1));
  }

  /** The command held is sent and tracked. */
  lemma SendsHeld(cfg: SystemConfig, node: N.Node, run: seq<Label>, session: u16, sequence: u16, mask: u8, last: nat)
    returns (run': seq<Label>)
    requires ValidSystem(cfg) && session != 0 && sequence != 0 && mask != 0
    requires Holds(End(cfg, node, run), session, sequence, mask, last)
    ensures run' == run + [PUMP] + [PUMP] + [PUMP]
    ensures End(cfg, node, run + [PUMP]).pc.Sending?
    ensures End(cfg, node, run + [PUMP] + [PUMP]).pc == Noting(Wire(cfg, session, sequence, mask), 1)
    ensures var s, s' := End(cfg, node, run), End(cfg, node, run');
            && Beside(s, s') && Awaits(s', session, sequence, last)
            && s'.down == s.down + {FrameOf(Wire(cfg, session, sequence, mask))}
            && s'.log.sent == s.log.sent + [sequence as nat] && s'.log.cleanStart == s.log.cleanStart
  {
    hide Step, After, FrameOf, Wire, Cmd;
    Checks(cfg, End(cfg, node, run), session, sequence, mask, last);
    Then(cfg, node, run, PUMP);
    var r1 := run + [PUMP];
    Puts(cfg, End(cfg, node, r1), session, sequence, mask);
    Then(cfg, node, r1, PUMP);
    var r2 := r1 + [PUMP];
    Notes(cfg, End(cfg, node, r2), session, sequence, mask);
    Then(cfg, node, r2, PUMP);
    run' := r2 + [PUMP];
  }

  /** A command is published, sent and tracked; sending is the run up to the transmission. */
  lemma PublishesAndSends(cfg: SystemConfig, node: N.Node, run: seq<Label>, session: u16, sequence: u16, mask: u8)
    returns (sending: seq<Label>, run': seq<Label>)
    requires ValidSystem(cfg) && session != 0 && sequence != 0 && mask != 0
    requires Admits(End(cfg, node, run), session, sequence)
    ensures sending == run + [PublishStep(Cmd(session, sequence, mask), Some(1))] + [PUMP] + [PUMP]
    ensures run' == sending + [PUMP] + [PUMP]
    ensures End(cfg, node, sending).pc.Sending?
    ensures End(cfg, node, sending + [PUMP]).pc == Noting(Wire(cfg, session, sequence, mask), 1)
    ensures var s, s' := End(cfg, node, run), End(cfg, node, run');
            && Beside(s, s') && Awaits(s', session, sequence, sequence)
            && s'.down == s.down + {FrameOf(Wire(cfg, session, sequence, mask))}
            && s'.log.sent == s.log.sent + [sequence as nat] && s'.log.cleanStart == s.log.cleanStart
  {
    hide Step, After, FrameOf, Wire, Cmd, Holds;
    var p := PublishStep(Cmd(session, sequence, mask), Some(1));
    Fetches(cfg, End(cfg, node, run), session, sequence, mask);
    Then(cfg, node, run, p);
    Then(cfg, node, run + [p], PUMP);
    var held := run + [p] + [PUMP];
    run' := SendsHeld(cfg, node, held, session, sequence, mask, sequence);
    sending := held + [PUMP];
  }

  lemma Activates(cfg: SystemConfig, s: System)
    requires s.ep.rt.machine.mode.Idle? && s.ep.rt.machine.ready && s.ep.rt.running
    requires s.pc.AtRest? && !s.io.stopRequested
    ensures var s' := Step(cfg, s, Request(ActivateRequest));
            && Working(s'.ep.rt) && PathClosed(s'.ep.rt) && Beside(s, s') && s'.down == s.down
            && s'.pc == s.pc && s'.io == s.io
            && s'.log.sent == [] && s'.log.cleanStart == s.io.pending.None?
  {
    hide HandleEvent;
    ActivationOpens(s.ep.rt);
    Calls(cfg, s, Submit(ActivateRequest));
  }

  lemma ActivationOpens(r: State)
    requires r.machine.mode.Idle? && r.machine.ready && r.running
    ensures var r' := HandleEvent(r, ActivateRequest).0; Working(r') && PathClosed(r')
  {
  }

  lemma Deactivates(cfg: SystemConfig, s: System)
    requires Working(s.ep.rt)
    ensures var s' := Step(cfg, s, Request(DeactivateRequest));
            && s'.ep.rt.machine.mode.Idle? && s'.ep.rt.machine.ready && s'.ep.rt.running
            && Beside(s, s') && s'.down == s.down && s'.io == s.io && s'.pc == s.pc
  {
    hide OnRuntime;
    Calls(cfg, s, Submit(DeactivateRequest));
  }

  /** The output path is closed and opened again: a new episode, with whatever the pump still holds. */
  lemma Reopens(cfg: SystemConfig, node: N.Node, run: seq<Label>) returns (run': seq<Label>)
    requires var s := End(cfg, node, run); Working(s.ep.rt) && s.pc.AtRest? && !s.io.stopRequested
    ensures run' == run + [Request(DeactivateRequest)] + [Request(ActivateRequest)]
    ensures var s, s' := End(cfg, node, run), End(cfg, node, run');
            && Working(s'.ep.rt) && PathClosed(s'.ep.rt) && Beside(s, s') && s'.down == s.down
            && s'.pc == s.pc && s'.io == s.io
            && s'.log.sent == [] && s'.log.cleanStart == s.io.pending.None?
  {
    hide Step, After, PathClosed;
    Deactivates(cfg, End(cfg, node, run));
    Then(cfg, node, run, Request(DeactivateRequest));
    var r1 := run + [Request(DeactivateRequest)];
    Activates(cfg, End(cfg, node, r1));
    Then(cfg, node, r1, Request(ActivateRequest));
    run' := r1 + [Request(ActivateRequest)];
  }

  // ---------- the node's side ----------

  /** A node of ours, interlock ready, no fault, nothing accepted yet. */
  predicate Willing(cfg: SystemConfig, n: N.Node) {
    Speaks(cfg, n) && N.Idle(n) && n.interlock && n.faultCode == 0
  }

  lemma NodeHears(cfg: SystemConfig, n: N.Node, sequence: u16, mask: u8)
    requires ValidSystem(cfg) && Speaks(cfg, n) && sequence != 0 && mask != 0
    ensures var w := Wire(cfg, n.sessionId, sequence, mask);
            var h := N.ApplyCommand(n, w, 1, 1);
            N.OnFrame(n, FrameOf(w), 1) == (h.node, N.Answer(h.status))
  {
    hide FrameOf, DecodeCommand, N.ApplyCommand, Encode, Legal, Wire, FrameLayerOk, StandardId, FunctionOfId, NodeOfId;
    var w := Wire(cfg, n.sessionId, sequence, mask);
    Converts(cfg, n.sessionId, sequence, mask);
    WireIs(cfg, n.sessionId, sequence, mask);
    RoundTrip(w);
    LegalFrameLayer(w);
  }

  lemma WireIs(cfg: SystemConfig, session: u16, sequence: u16, mask: u8)
    ensures var w := Wire(cfg, session, sequence, mask);
            && w.Command? && w.node == cfg.sup.nodeId && w.sessionId == session && w.sequence == sequence
            && w.validity == 1
  {
    hide BitsOf;
  }

  function AnswerTo(n: N.Node, w: Message): Message
    requires w.Command?
  {
    OutputStatus(n.nodeId, Applied, n.sessionId, w.sequence, N.Merge(n.output, w.mask, w.values))
  }

  lemma Accepts(cfg: SystemConfig, n: N.Node, sequence: u16, mask: u8)
    requires ValidSystem(cfg) && Willing(cfg, n)
    ensures var w := Wire(cfg, n.sessionId, sequence, mask);
            var h := N.ApplyCommand(n, w, 1, 1);
            && h.status == AnswerTo(n, w) && Legal(AnswerTo(n, w)) && Speaks(cfg, h.node)
            && h.node.sessionId == n.sessionId && h.node.interlock
            && h.node.hasAccepted && h.node.lastAccepted == sequence && h.node.leaseDeadline > 1
  {
    hide N.Merge, BitsOf, SeqNewer;
  }

  /** The node applies the command, and its answer is on the bus. */
  lemma NodeTakes(cfg: SystemConfig, s: System, sequence: u16, mask: u8)
    requires ValidSystem(cfg) && Willing(cfg, s.node) && sequence != 0 && mask != 0
    requires FrameOf(Wire(cfg, s.node.sessionId, sequence, mask)) in s.down
    ensures var w := Wire(cfg, s.node.sessionId, sequence, mask);
            var s' := Step(cfg, s, NodeReceives(FrameOf(w), 1));
            && s' == s.(node := s'.node, up := s'.up, log := s'.log)
            && s'.log.sent == s.log.sent && s'.log.cleanStart == s.log.cleanStart
            && FrameOf(AnswerTo(s.node, w)) in s'.up && Legal(AnswerTo(s.node, w))
            && Speaks(cfg, s'.node) && s'.node.sessionId == s.node.sessionId && s'.node.interlock
            && s'.node.hasAccepted && s'.node.lastAccepted == sequence && s'.node.leaseDeadline > 1
  {
    hide FrameOf, N.OnFrame, N.ApplyCommand, N.Merge, Wire, Encode, Legal, Willing, Speaks;
    var w := Wire(cfg, s.node.sessionId, sequence, mask);
    WillingSpeaks(cfg, s.node);
    WireIs(cfg, s.node.sessionId, sequence, mask);
    NodeHears(cfg, s.node, sequence, mask);
    Accepts(cfg, s.node, sequence, mask);
    EncodedIsLegal(AnswerTo(s.node, w));
  }

  lemma WillingSpeaks(cfg: SystemConfig, n: N.Node)
    requires Willing(cfg, n)
    ensures Speaks(cfg, n)
  {
  }

  /** It refuses a sequence it accepted last. */
  lemma NodeRefuses(cfg: SystemConfig, s: System, sequence: u16, mask: u8)
    requires ValidSystem(cfg) && Speaks(cfg, s.node) && s.node.interlock && sequence != 0 && mask != 0
    requires s.node.hasAccepted && s.node.lastAccepted == sequence && s.node.leaseDeadline > 1
    requires FrameOf(Wire(cfg, s.node.sessionId, sequence, mask)) in s.down
    ensures var f := FrameOf(Wire(cfg, s.node.sessionId, sequence, mask));
            var s', reply := Step(cfg, s, NodeReceives(f, 1)), N.OnFrame(s.node, f, 1).1;
            && s' == s.(node := s'.node, up := s'.up, log := s'.log) && s.up <= s'.up
            && reply.Answer? && reply.status.result.StaleSequence?
  {
    hide FrameOf, N.OnFrame, N.Merge, BitsOf, Encode;
    NodeHears(cfg, s.node, sequence, mask);
  }

  lemma Reports(cfg: SystemConfig, s: System)
    requires ValidSystem(cfg) && Speaks(cfg, s.node)
    ensures var s' := Step(cfg, s, NodeReports);
            s' == s.(up := s'.up) && FrameOf(N.StatusOf(s.node)) in s'.up && Legal(N.StatusOf(s.node))
  {
    hide FrameOf;
  }

  // ---------- the periodic thread's side ----------

  /** Between ticks, nothing queued, the node never heard. */
  predicate Rests(s: System) {
    && s.ep.rt.running && s.phase.Resting? && s.todo == []
    && s.queue.items == [] && !s.queue.latched && s.queue.capacity > 0 && !s.sup.everSeen
  }

  lemma EarlyTick(cfg: SystemConfig, r: State)
    requires ValidSystem(cfg) && (r.ackPending ==> r.sentTime == 1) && (r.dog.armed ==> r.dog == Armed(1))
    ensures Tick(cfg.rt, r, 1) == r
  {
  }

  lemma BecomesReady(r: State)
    requires r.machine.mode.Idle?
    ensures var r' := SetInterlock(r, true); r'.machine.mode.Idle? && r'.machine.ready && r'.running == r.running
  {
  }

  lemma Closes(r: State, session: u16, sequence: u16)
    requires r.ackPending && r.sentSession == session && r.sentSequence == sequence
    ensures var r' := Observe(r, session, sequence, Applied);
            && !r'.ackPending && r'.machine == r.machine && r'.running == r.running && r'.session == r.session
            && r'.lastSequence == r.lastSequence && r'.mailbox == r.mailbox
  {
  }

  ghost predicate NoReception(run: seq<Label>) { forall k :: 0 <= k < |run| ==> !run[k].NodeReceives? }

  /** The node's status makes the interlock ready. */
  lemma GetsReady(cfg: SystemConfig, node: N.Node) returns (run: seq<Label>)
    requires ValidSystem(cfg) && Willing(cfg, node)
    ensures NoReception(run)
    ensures var s := End(cfg, node, run);
            && s.ep.rt.machine.mode.Idle? && s.ep.rt.machine.ready && Rests(s)
            && s.pc.AtRest? && s.io == IO_START && s.node == node
  {
    hide Step, After, FrameOf, Translate, Tick, SetInterlock, Legal;
    BootedEnd(cfg, node);
    var r0, m := [Request(Boot)], N.StatusOf(node);
    Reports(cfg, End(cfg, node, r0));
    Then(cfg, node, r0, NodeReports);
    var r1 := r0 + [NodeReports];
    Races.Delivered(cfg, End(cfg, node, r1), m);
    Then(cfg, node, r1, Receive(FrameOf(m), 1));
    var r2 := r1 + [Receive(FrameOf(m), 1)];
    Opens(cfg, End(cfg, node, r2), 1);
    TickOutsideActive(cfg.rt, End(cfg, node, r2).ep.rt, 1);
    Then(cfg, node, r2, TickStart(1));
    var r3 := r2 + [TickStart(1)];
    Then(cfg, node, r3, TickAdvance);
    var r4 := r3 + [TickAdvance];
    DigestsOne(cfg, End(cfg, node, r4), EventOf(m));
    Then(cfg, node, r4, TickAdvance);
    var r5 := r4 + [TickAdvance];
    assert End(cfg, node, r5).todo == [Report(true)];
    Acts(cfg, End(cfg, node, r5));
    BecomesReady(End(cfg, node, r5).ep.rt);
    Then(cfg, node, r5, TickAdvance);
    run := EndsTick(cfg, node, r5 + [TickAdvance]);
  }

  /** The tick ends without a node to check. */
  lemma EndsTick(cfg: SystemConfig, node: N.Node, run: seq<Label>) returns (run': seq<Label>)
    requires var s := End(cfg, node, run);
             s.phase.Draining? && s.todo == [] && s.queue.items == [] && !s.sup.everSeen
    ensures run' == run + [TickAdvance] + [TickAdvance]
    ensures var s, s' := End(cfg, node, run), End(cfg, node, run');
            && Same(s, s') && s'.phase.Resting? && s'.todo == [] && s'.queue == s.queue && s'.sup == s.sup
            && s'.ep == s.ep && SameSent(s, s')
  {
    hide Step, After;
    TurnsToCheck(cfg, End(cfg, node, run));
    Then(cfg, node, run, TickAdvance);
    var r1 := run + [TickAdvance];
    ChecksComm(cfg, End(cfg, node, r1));
    Then(cfg, node, r1, TickAdvance);
    run' := r1 + [TickAdvance];
  }

  /** The path is open for the first command of the node's session. */
  lemma Starts(cfg: SystemConfig, node: N.Node) returns (run: seq<Label>)
    requires ValidSystem(cfg) && Willing(cfg, node)
    ensures NoReception(run)
    ensures var s := End(cfg, node, run);
            && Working(s.ep.rt) && PathClosed(s.ep.rt) && Rests(s) && s.pc.AtRest? && s.io == IO_START && s.node == node
  {
    hide Step, After, PathClosed, Willing;
    var r0 := GetsReady(cfg, node);
    Activates(cfg, End(cfg, node, r0));
    Then(cfg, node, r0, Request(ActivateRequest));
    run := r0 + [Request(ActivateRequest)];
  }

  const ANSWERING := [TickStart(1), TickAdvance, TickAdvance, TickAdvance]

  /** An applied answer with the tracked pair is delivered and closes the slot at the last step. */
  lemma Answers(cfg: SystemConfig, node: N.Node, run: seq<Label>, m: Message, last: nat) returns (run': seq<Label>)
    requires ValidSystem(cfg) && m.OutputStatus? && m.result.Applied? && m.node == cfg.sup.nodeId && Legal(m)
    requires var s := End(cfg, node, run);
             Awaits(s, m.sessionId, m.sequence, last) && Rests(s) && FrameOf(m) in s.up
    ensures run' == run + [Receive(FrameOf(m), 1)] + ANSWERING
    ensures ClosesAt(cfg, node, run', |run'| - 1)
    ensures var before := After(cfg, node, run', |run'| - 1).ep.rt;
            before.sentSession == m.sessionId && before.sentSequence == m.sequence
    ensures var s, s' := End(cfg, node, run), End(cfg, node, run');
            && Working(s'.ep.rt) && !s'.ep.rt.ackPending && s'.ep.rt.session == s.ep.rt.session
            && s'.ep.rt.lastSequence == last && s'.ep.rt.mailbox == s.ep.rt.mailbox
            && Same(s, s') && SameSent(s, s')
  {
    hide Step, After, FrameOf, Legal, Translate, Tick, Observe;
    Races.Delivered(cfg, End(cfg, node, run), m);
    Then(cfg, node, run, Receive(FrameOf(m), 1));
    var r1 := run + [Receive(FrameOf(m), 1)];
    var s1 := End(cfg, node, r1);
    Opens(cfg, s1, 1);
    EarlyTick(cfg, s1.ep.rt);
    Then(cfg, node, r1, TickStart(1));
    var r2 := r1 + [TickStart(1)];
    Then(cfg, node, r2, TickAdvance);
    var r3 := r2 + [TickAdvance];
    DigestsOne(cfg, End(cfg, node, r3), EventOf(m));
    Then(cfg, node, r3, TickAdvance);
    var r4 := r3 + [TickAdvance];
    Acts(cfg, End(cfg, node, r4));
    Closes(End(cfg, node, r4).ep.rt, m.sessionId, m.sequence);
    Then(cfg, node, r4, TickAdvance);
    run' := r4 + [TickAdvance];
    assert run' == run + [Receive(FrameOf(m), 1)] + ANSWERING;
  }

  /** A longer run keeps the states of a shorter one. */
  lemma Within(cfg: SystemConfig, node: N.Node, run: seq<Label>, all: seq<Label>)
    requires run <= all
    ensures After(cfg, node, all, |run|) == End(cfg, node, run)
  {
    hide After;
    assert all == run + all[|run|..];
    AfterPrefix(cfg, node, run, all[|run|..], |run|);
  }

  lemma TransmitsWithin(cfg: SystemConfig, node: N.Node, sending: seq<Label>, all: seq<Label>,
                        session: u16, sequence: u16, mask: u8)
    requires sending + [PUMP] <= all
    requires End(cfg, node, sending).pc.Sending?
    requires End(cfg, node, sending + [PUMP]).pc == Noting(Wire(cfg, session, sequence, mask), 1)
    ensures Transmits(cfg, node, all, |sending|, session, sequence)
    ensures FrameAt(cfg, node, all, |sending|) == FrameOf(Wire(cfg, session, sequence, mask))
  {
    hide After, FrameOf, Wire;
    WireIs(cfg, session, sequence, mask);
    Within(cfg, node, sending, all);
    Within(cfg, node, sending + [PUMP], all);
  }

  // ---------- an old answer ----------

  /** The session's first command was applied and answered, and given up unanswered; a new episode has begun. */
  lemma LeavesAnAnswer(cfg: SystemConfig, node: N.Node) returns (run: seq<Label>)
    requires ValidSystem(cfg) && Willing(cfg, node)
    ensures var s, w := End(cfg, node, run), Wire(cfg, node.sessionId, 1, 1);
            && Admits(s, node.sessionId, 1) && Rests(s)
            && FrameOf(AnswerTo(node, w)) in s.up && Legal(AnswerTo(node, w))
            && Speaks(cfg, s.node) && s.node.sessionId == node.sessionId && s.node.interlock
            && s.node.hasAccepted && s.node.lastAccepted == 1 && s.node.leaseDeadline > 1
  {
    hide Step, After, FrameOf, Legal, Wire, AnswerTo, Willing;
    WillingSpeaks(cfg, node);
    WireIs(cfg, node.sessionId, 1, 1);
    var w := Wire(cfg, node.sessionId, 1, 1);
    var r0 := Starts(cfg, node);
    var _, r1 := PublishesAndSends(cfg, node, r0, node.sessionId, 1, 1);
    NodeTakes(cfg, End(cfg, node, r1), 1, 1);
    Then(cfg, node, r1, NodeReceives(FrameOf(w), 1));
    run := Reopens(cfg, node, r1 + [NodeReceives(FrameOf(w), 1)]);
  }

  /**
   A pair that was applied before. The node applies the first command of one episode; a second episode sends the same
   sequence at step j, the node refuses it as stale at step i, and the late answer to the first closes the slot.
   */
  lemma OldAnswerClosesTheSlot(cfg: SystemConfig, node: N.Node) returns (run: seq<Label>, j: nat, i: nat)
    requires ValidSystem(cfg) && Willing(cfg, node)
    ensures j < i < |run| - 1 && Transmits(cfg, node, run, j, node.sessionId, 1)
    ensures run[i] == NodeReceives(FrameAt(cfg, node, run, j), 1)
    ensures var reply := N.OnFrame(After(cfg, node, run, i).node, run[i].frame, 1).1;
            reply.Answer? && reply.status.result.StaleSequence?
    ensures forall k :: j <= k < |run| && k != i ==> !run[k].NodeReceives?
    ensures ClosesAt(cfg, node, run, |run| - 1)
    ensures After(cfg, node, run, |run| - 1).ep.rt.sentSession == node.sessionId
         && After(cfg, node, run, |run| - 1).ep.rt.sentSequence == 1
  {
    hide Step, After, FrameOf, Legal, N.OnFrame, N.Merge, Wire, Willing, ClosesAt;
    WireIs(cfg, node.sessionId, 1, 1);
    WillingSpeaks(cfg, node);
    var w := Wire(cfg, node.sessionId, 1, 1);
    var r0 := LeavesAnAnswer(cfg, node);
    var sending, r1 := PublishesAndSends(cfg, node, r0, node.sessionId, 1, 1);
    NodeRefuses(cfg, End(cfg, node, r1), 1, 1);
    Then(cfg, node, r1, NodeReceives(FrameOf(w), 1));
    run := Answers(cfg, node, r1 + [NodeReceives(FrameOf(w), 1)], AnswerTo(node, w), 1);
    j, i := |sending|, |r1|;
    TransmitsWithin(cfg, node, sending, run, node.sessionId, 1, 1);
    Within(cfg, node, r1, run);
  }

  // ---------- an old frame ----------

  /**
   A pair that was transmitted before but never applied. The first episode's frame is delayed; the second episode sends
   another command with the same sequence at step j. All that the node ever receives is the old frame, at step i, after
   j, and its answer closes the slot of a command that the node has not seen.
   */
  lemma OldFrameClosesTheSlot(cfg: SystemConfig, node: N.Node) returns (run: seq<Label>, j: nat, i: nat)
    requires ValidSystem(cfg) && Willing(cfg, node)
    ensures j < i < |run| - 1 && Transmits(cfg, node, run, j, node.sessionId, 1)
    ensures run[i].NodeReceives? && run[i].frame != FrameAt(cfg, node, run, j)
    ensures forall k :: 0 <= k < |run| && k != i ==> !run[k].NodeReceives?
    ensures ClosesAt(cfg, node, run, |run| - 1)
    ensures After(cfg, node, run, |run| - 1).ep.rt.sentSession == node.sessionId
         && After(cfg, node, run, |run| - 1).ep.rt.sentSequence == 1
  {
    hide Step, After, FrameOf, Legal, N.Merge, Wire, Willing, ClosesAt;
    WireIs(cfg, node.sessionId, 1, 1);
    WillingSpeaks(cfg, node);
    MasksDiffer(cfg, node.sessionId, 1);
    var w := Wire(cfg, node.sessionId, 1, 1);
    var r0 := Starts(cfg, node);
    var _, r1 := PublishesAndSends(cfg, node, r0, node.sessionId, 1, 1);
    var r2 := Reopens(cfg, node, r1);
    var sending, r3 := PublishesAndSends(cfg, node, r2, node.sessionId, 1, 2);
    NodeTakes(cfg, End(cfg, node, r3), 1, 1);
    Then(cfg, node, r3, NodeReceives(FrameOf(w), 1));
    run := Answers(cfg, node, r3 + [NodeReceives(FrameOf(w), 1)], AnswerTo(node, w), 1);
    j, i := |sending|, |r3|;
    TransmitsWithin(cfg, node, sending, run, node.sessionId, 1, 2);
  }

  // ---------- sends out of order ----------

  /** A command published at time 0 and expired at time 1. */
  function Short(session: u16): OutputCommand { OutputCommand(session, 1, 1, 1, 1) }

  /** It binds the session and is dropped; the pump goes on with what it held before. */
  lemma DropsExpired(cfg: SystemConfig, s: System, session: u16)
    requires Working(s.ep.rt) && PathClosed(s.ep.rt) && s.pc.AtRest? && !s.io.stopRequested && session != 0
    requires s.io.pending == Some(Cmd(session, 5, 1))
    ensures var s' := Step(cfg, Step(cfg, s, PublishStep(Short(session), Some(0))), PUMP);
            Holds(s', session, 5, 1, 1) && Beside(s, s') && s'.down == s.down && SameSent(s, s')
  {
    hide OnRuntime;
    Calls(cfg, s, PublishCall(Short(session), Some(0)));
    Calls(cfg, Step(cfg, s, PublishStep(Short(session), Some(0))), ConsumeCall(Some(1)));
  }

  /** Sequence 5 is consumed but the socket would block; a new episode begins with it still pending. */
  lemma KeepsPending(cfg: SystemConfig, node: N.Node) returns (run: seq<Label>)
    requires ValidSystem(cfg) && Willing(cfg, node)
    ensures var s := End(cfg, node, run);
            && Working(s.ep.rt) && PathClosed(s.ep.rt) && Rests(s) && s.pc.AtRest? && !s.io.stopRequested
            && s.io.pending == Some(Cmd(node.sessionId, 5, 1)) && s.node == node
            && s.log.sent == [] && !s.log.cleanStart
  {
    hide Step, After, Willing, Cmd;
    WillingSpeaks(cfg, node);
    var session := node.sessionId;
    var r0 := Starts(cfg, node);
    Fetches(cfg, End(cfg, node, r0), session, 5, 1);
    var p := PublishStep(Cmd(session, 5, 1), Some(1));
    Then(cfg, node, r0, p);
    Then(cfg, node, r0 + [p], PUMP);
    var r1 := r0 + [p] + [PUMP];
    Checks(cfg, End(cfg, node, r1), session, 5, 1, 5);
    Then(cfg, node, r1, PUMP);
    var r2 := r1 + [PUMP];
    Blocks(cfg, End(cfg, node, r2), session, 5, 1);
    Then(cfg, node, r2, PumpStep(Some(1), WouldBlock));
    run := Reopens(cfg, node, r2 + [PumpStep(Some(1), WouldBlock)]);
  }

  /** The old command is sent in the new episode, applied and acknowledged. */
  lemma SendsOldPending(cfg: SystemConfig, node: N.Node) returns (run: seq<Label>)
    requires ValidSystem(cfg) && Willing(cfg, node)
    ensures var s := End(cfg, node, run);
            Admits(s, node.sessionId, 2) && s.log.sent == [5] && !s.log.cleanStart
  {
    hide Step, After, FrameOf, Legal, Wire, Cmd, Willing, Holds, PathClosed, ClosesAt;
    WillingSpeaks(cfg, node);
    var session, w := node.sessionId, Wire(cfg, node.sessionId, 5, 1);
    WireIs(cfg, session, 5, 1);
    var r0 := KeepsPending(cfg, node);
    DropsExpired(cfg, End(cfg, node, r0), session);
    var p := PublishStep(Short(session), Some(0));
    Then(cfg, node, r0, p);
    Then(cfg, node, r0 + [p], PUMP);
    var r1 := SendsHeld(cfg, node, r0 + [p] + [PUMP], session, 5, 1, 1);
    NodeTakes(cfg, End(cfg, node, r1), 5, 1);
    Then(cfg, node, r1, NodeReceives(FrameOf(w), 1));
    run := Answers(cfg, node, r1 + [NodeReceives(FrameOf(w), 1)], AnswerTo(node, w), 1);
  }

  /**
   The clean start of an episode is needed for its send order: with a command of the previous episode still pending,
   this Active episode sends sequence 5 and then sequence 2.
   */
  lemma SentOutOfOrder(cfg: SystemConfig, node: N.Node) returns (run: seq<Label>)
    requires ValidSystem(cfg) && Willing(cfg, node)
    ensures var s := End(cfg, node, run);
            s.ep.rt.machine.mode.Active? && !s.log.cleanStart && s.log.sent == [5, 2]
  {
    hide Step, After, FrameOf, Willing;
    WillingSpeaks(cfg, node);
    var r0 := SendsOldPending(cfg, node);
    var _, r1 := PublishesAndSends(cfg, node, r0, node.sessionId, 2, 1);
    run := r1;
  }
}
