/** The interlock that the node reports is the interlock that the runtime acts on. */
module InterlockRuns {
  import opened Bytes
  import opened CanV1
  import opened StateMachine
  import opened RuntimeCore
  import opened RuntimeExact
  import opened RuntimeRuns
  import opened Rings
  import opened Supervision
  import opened CanIo
  import opened Protocol
  import opened Acknowledgements
  import opened Recovery
  import N = NodeLogic

  /** The interlock after a call: only an interlock report, an interlock event or the end of the run changes it. */
  lemma ReadyAfterCall(cfg: Config, r: State, c: Call)
    requires Inv(r)
    ensures Apply(cfg, r, c).machine.ready ==
              match c
              case Interlock(ready) => ready
              case Submit(InterlockReady) => true
              case Submit(InterlockLost) => false
              case StopCall => false
              case _ => r.machine.ready
  {
    hide Handle, HandleEvent, RaiseFault, SetInterlock, Inv;
    match c
    case Submit(e) =>
      SubmitOf(r, e);
      if Informative(e) { InformativeIsAccepted(r.machine, e); }
    case Raise(code) => RaiseOf(r, code);
    case Interlock(ready) => InterlockOf(r, ready);
    case TickCall(t) => TickKeepsReady(cfg, r, t);
    case PublishCall(_, _) =>
    case ConsumeCall(_) =>
    case Note(_, _, _) =>
    case Status(_, _, _) =>
    case SchedulerExit =>
    case StopCall =>
  }

  lemma TickKeepsReady(cfg: Config, r: State, t: int)
    ensures Tick(cfg, r, t).machine.ready == r.machine.ready
  {
    hide Handle;
    HandleExactly(r.machine.(fault := AckTimeout), HoldRequest);
    HandleExactly(r.machine, CommandTimeout);
    HandleExactly(Handle(r.machine.(fault := AckTimeout), HoldRequest).machine, CommandTimeout);
  }

  /** The last reported interlock is on its way to the runtime, or has arrived there. */
  ghost predicate Carried(s: System, ready: bool) {
    && (forall i :: 0 <= i < |s.todo| && s.todo[i].Report? ==> s.todo[i].ready == ready)
    && (s.ep.rt.machine.ready == ready || exists i :: 0 <= i < |s.todo| && s.todo[i].Report?)
  }

  /** The step digests no status of this node, and nobody posts an interlock event. */
  predicate Silent(cfg: SystemConfig, s: System, l: Label) {
    && !(Digested(cfg, s, l).Some? && Digested(cfg, s, l).value.StatusEvent?)
    && !(l.Request? && Informative(l.event))
  }

  lemma DigestingCarries(cfg: SystemConfig, s: System, l: Label)
    requires Digested(cfg, s, l).Some? && Digested(cfg, s, l).value.StatusEvent?
    ensures Carried(Step(cfg, s, l), Digested(cfg, s, l).value.ready)
  {
    var ev := s.queue.items[0];
    var todo := Digest(cfg.sup, s.sup, ev, s.phase.now).1;
    var restart := NamesNewSession(s.sup, ev);
    assert todo[if restart then 2 else 0] == Report(ev.ready);
  }

  lemma ActionCarries(cfg: SystemConfig, s: System, ready: bool)
    requires Carried(s, ready) && EpisodeInv(s.ep) && s.todo != []
    ensures Carried(Step(cfg, s, TickAdvance), ready)
  {
    hide Step, Apply, EpisodeInv, TraceStep;
    StepMakesOneCall(cfg, s, TickAdvance);
    var call := CallMade(cfg, s, TickAdvance);
    TraceAppliesCall(cfg.rt, s.ep, call);
    ActionTodo(cfg, s);
    EpisodeMeansInv(s.ep);
    if call.Some? { ReadyAfterCall(cfg.rt, s.ep.rt, call.value); }
    if s.ep.rt.machine.ready != ready && !s.todo[0].Report? {
      var i :| 0 <= i < |s.todo| && s.todo[i].Report?;
      assert s.todo[1..][i - 1] == s.todo[i];
    }
  }

  lemma ActionTodo(cfg: SystemConfig, s: System)
    requires s.todo != []
    ensures Step(cfg, s, TickAdvance).todo == s.todo[1..]
  {
    hide OnRuntime;
    var s1 := s.(todo := s.todo[1..], sup := Local(s.sup, s.todo[0]));
    if CallOf(s.todo[0]).Some? { OnRuntimeFrame(cfg, s1, CallOf(s.todo[0]).value); }
  }

  /** A silent phase of the tick queues no interlock report. */
  lemma PhaseCarries(cfg: SystemConfig, s: System, ready: bool)
    requires Carried(s, ready) && s.todo == [] && Silent(cfg, s, TickAdvance)
    ensures Carried(Step(cfg, s, TickAdvance), ready)
  {
  }

  lemma TodoStays(cfg: SystemConfig, s: System, l: Label)
    requires !l.TickAdvance?
    ensures Step(cfg, s, l).todo == s.todo
  {
    hide TraceStep, Consume, NoteSent, Sendable, Send, Encode, Decode, N.OnFrame, Translate, AcknowledgeClear,
      Deliverable;
  }

  lemma OtherStepCarries(cfg: SystemConfig, s: System, l: Label, ready: bool)
    requires Carried(s, ready) && EpisodeInv(s.ep) && !l.TickAdvance? && Silent(cfg, s, l)
    ensures Carried(Step(cfg, s, l), ready)
  {
    hide Step, Apply, EpisodeInv, TraceStep;
    StepMakesOneCall(cfg, s, l);
    var call := CallMade(cfg, s, l);
    TraceAppliesCall(cfg.rt, s.ep, call);
    TodoStays(cfg, s, l);
    EpisodeMeansInv(s.ep);
    if call.Some? {
      ReadyAfterCall(cfg.rt, s.ep.rt, call.value);
      CallsBesideReports(cfg, s, l);
    }
  }

  lemma CallsBesideReports(cfg: SystemConfig, s: System, l: Label)
    requires !l.TickAdvance? && CallMade(cfg, s, l).Some?
    ensures var c := CallMade(cfg, s, l).value;
            !c.Interlock? && !c.StopCall? && (c.Submit? && Informative(c.event) ==> l.Request? && l.event == c.event)
  {
  }

  lemma SilentStepCarries(cfg: SystemConfig, s: System, l: Label, ready: bool)
    requires Carried(s, ready) && EpisodeInv(s.ep) && Silent(cfg, s, l)
    ensures Carried(Step(cfg, s, l), ready)
  {
    hide Step, Carried, EpisodeInv, Silent;
    if !l.TickAdvance? { OtherStepCarries(cfg, s, l, ready); }
    else if s.todo != [] { ActionCarries(cfg, s, ready); }
    else { PhaseCarries(cfg, s, ready); }
  }

  ghost predicate SilentBetween(cfg: SystemConfig, node: N.Node, run: seq<Label>, k: nat, n: nat)
    requires n <= |run|
  {
    forall m :: k < m < n ==> Silent(cfg, After(cfg, node, run, m), run[m])
  }

  lemma {:induction false} RunCarries(cfg: SystemConfig, node: N.Node, run: seq<Label>, k: nat, n: nat)
    requires k < n <= |run| && SilentBetween(cfg, node, run, k, n)
    requires var ev := Digested(cfg, After(cfg, node, run, k), run[k]); ev.Some? && ev.value.StatusEvent?
    ensures Carried(After(cfg, node, run, n), Digested(cfg, After(cfg, node, run, k), run[k]).value.ready)
    decreases n
  {
    hide Step, Carried, Silent, Digested, EpisodeInv;
    if n == k + 1 {
      DigestingCarries(cfg, After(cfg, node, run, k), run[k]);
    } else {
      RunCarries(cfg, node, run, k, n - 1);
      RuntimeStaysValid(cfg, node, run, n - 1);
      var ready := Digested(cfg, After(cfg, node, run, k), run[k]).value.ready;
      SilentStepCarries(cfg, After(cfg, node, run, n - 1), run[n - 1], ready);
    }
  }

  /**
   In every run: let step k digest a status of the node, and let no other status of it and no interlock event come
   until n. As soon as the supervisor has no action left to do, the runtime's interlock is the one reported at k; if
   that was a loss, the runtime is not Active and its output path is closed.
   */
  lemma ReportedInterlockHolds(cfg: SystemConfig, node: N.Node, run: seq<Label>, k: nat, n: nat)
    requires k < n <= |run| && SilentBetween(cfg, node, run, k, n) && After(cfg, node, run, n).todo == []
    requires var ev := Digested(cfg, After(cfg, node, run, k), run[k]); ev.Some? && ev.value.StatusEvent?
    ensures var r, ready := After(cfg, node, run, n).ep.rt, Digested(cfg, After(cfg, node, run, k), run[k]).value.ready;
            r.machine.ready == ready && (!ready ==> !r.machine.mode.Active? && PathClosed(r))
  {
    hide After, Digested;
    RunCarries(cfg, node, run, k, n);
    RuntimeStaysValid(cfg, node, run, n);
    EpisodeMeansInv(After(cfg, node, run, n).ep);
  }

  // ---------- what the supervisor hears was said by the node ----------

  /** What the node says in a step besides its answers to commands. */
  function SaidIn(s: System, l: Label): set<Message> {
    if l.NodeBeats? then {Heartbeat(s.node.nodeId, s.node.bootId, s.node.sessionId, s.node.hbSeq)}
    else if l.NodeReports? then
      {Message.Status(s.node.nodeId, s.node.interlock, s.node.sessionId, s.node.inputBits, s.node.faultCode)}
    else {}
  }

  function SaidBy(cfg: SystemConfig, node: N.Node, run: seq<Label>, n: nat): set<Message>
    requires n <= |run|
  {
    if n == 0 then {} else SaidBy(cfg, node, run, n - 1) + SaidIn(After(cfg, node, run, n - 1), run[n - 1])
  }

  /** An answer to a command, or something the node said. */
  predicate FrameWasSaid(f: CanFrame, said: set<Message>) {
    Decode(f).Ok? && (Decode(f).value.Heartbeat? || Decode(f).value.Status?) ==> Decode(f).value in said
  }

  ghost predicate EventWasSaid(cfg: SystemConfig, ev: InputEvent, said: set<Message>) {
    ev.node == 0 || ev.node == cfg.sup.nodeId ==>
      && (ev.HeartbeatEvent? ==> exists hb: u16 :: Heartbeat(ev.node, ev.bootId, ev.sessionId, hb) in said)
      && (ev.StatusEvent? ==>
            exists inputs: u16 :: Message.Status(ev.node, ev.ready, ev.sessionId, inputs, ev.fault) in said)
  }

  ghost predicate AllSaid(cfg: SystemConfig, s: System, said: set<Message>) {
    && (forall f :: f in s.up ==> FrameWasSaid(f, said))
    && (forall i :: 0 <= i < |s.queue.items| ==> EventWasSaid(cfg, s.queue.items[i], said))
  }

  lemma ReceivedWasSaid(cfg: SystemConfig, s: System, f: CanFrame, now: int, said: set<Message>)
    requires AllSaid(cfg, s, said) && Deliverable(cfg, s, f)
    ensures var ev := Translate(cfg.sup.nodeId, f, now); ev.Some? ==> EventWasSaid(cfg, ev.value, said)
  {
    hide Decode, Translate;
    DecodedNodeIsLegal(f);
    TranslatesExactly(cfg.sup.nodeId, f, now);
    var d, ev := Decode(f), Translate(cfg.sup.nodeId, f, now);
    if d.Ok? && f in s.up {
      if d.value.Heartbeat? {
        assert d.value == Heartbeat(ev.value.node, ev.value.bootId, ev.value.sessionId, d.value.hbSeq);
      } else if d.value.Status? {
        assert d.value == Message.Status(ev.value.node, ev.value.ready, ev.value.sessionId, d.value.inputBits,
                                         ev.value.fault);
      }
    }
  }

  lemma MoreSaid(cfg: SystemConfig, s: System, said: set<Message>, more: set<Message>)
    requires AllSaid(cfg, s, said)
    ensures AllSaid(cfg, s, said + more)
  {
    hide Decode;
    forall i | 0 <= i < |s.queue.items| ensures EventWasSaid(cfg, s.queue.items[i], said + more) {
      MoreSaidOf(cfg, s.queue.items[i], said, more);
    }
  }

  lemma MoreSaidOf(cfg: SystemConfig, ev: InputEvent, said: set<Message>, more: set<Message>)
    requires EventWasSaid(cfg, ev, said)
    ensures EventWasSaid(cfg, ev, said + more)
  {
    if ev.node == 0 || ev.node == cfg.sup.nodeId {
      if ev.HeartbeatEvent? {
        var hb: u16 :| Heartbeat(ev.node, ev.bootId, ev.sessionId, hb) in said;
        assert Heartbeat(ev.node, ev.bootId, ev.sessionId, hb) in said + more;
      } else if ev.StatusEvent? {
        var inputs: u16 :| Message.Status(ev.node, ev.ready, ev.sessionId, inputs, ev.fault) in said;
        assert Message.Status(ev.node, ev.ready, ev.sessionId, inputs, ev.fault) in said + more;
      }
    }
  }

  lemma SpeakingIsSaid(cfg: SystemConfig, s: System, m: Message, said: set<Message>)
    requires AllSaid(cfg, s, said) && (m in said || m.OutputStatus?)
    ensures AllSaid(cfg, Speak(s, m), said)
  {
    hide Encode, Decode, EventWasSaid;
    if Encode(m).Ok? {
      EncodedIsLegal(m);
      RoundTrip(m);
    }
  }

  lemma AnswerIsSaid(cfg: SystemConfig, s: System, n: N.Node, reply: N.Reply, said: set<Message>)
    requires AllSaid(cfg, s, said)
    ensures AllSaid(cfg, Answered(s, n, reply), said)
  {
    hide Encode, Decode, EventWasSaid;
    if reply.Answer? { SpeakingIsSaid(cfg, s, reply.status, said); }
  }

  /** The other events that reach the queue tell of the host itself. */
  lemma PumpSaysNothing(cfg: SystemConfig, s: System, clock: Option<int>, outcome: SendOutcome, said: set<Message>)
    requires AllSaid(cfg, s, said)
    ensures AllSaid(cfg, Pump(cfg, s, clock, outcome), said)
  {
    hide OnRuntime, Send, Decode, Consume, Sendable, NoteSent;
    match s.pc
    case AtRest => OnRuntimeFrame(cfg, s, ConsumeCall(clock));
    case Checking =>
    case Sending =>
      if s.io.pending.Some? { SendTellsOfHost(s.io, s.io.pending.value, cfg.sup.nodeId, clock, outcome); }
    case Noting(wire, at) => OnRuntimeFrame(cfg, s, Note(wire.sessionId, wire.sequence, at));
  }

  lemma SendTellsOfHost(io: Io, cmd: OutputCommand, node: u8, now: Option<int>, outcome: SendOutcome)
    ensures var ev := Send(io, cmd, node, now, outcome).event;
            ev.Some? ==> ev.value.RejectEvent? || ev.value.IoErrorEvent?
  {
  }

  lemma TickSaysNothing(cfg: SystemConfig, s: System, said: set<Message>)
    requires AllSaid(cfg, s, said)
    ensures AllSaid(cfg, Step(cfg, s, TickAdvance), said)
  {
    hide OnRuntime, Digest, Decode, EventWasSaid, Overflowed, CommCheck;
    if s.todo != [] && CallOf(s.todo[0]).Some? {
      OnRuntimeFrame(cfg, s.(todo := s.todo[1..], sup := Local(s.sup, s.todo[0])), CallOf(s.todo[0]).value);
    }
  }

  lemma StepIsSaid(cfg: SystemConfig, s: System, l: Label, said: set<Message>)
    requires AllSaid(cfg, s, said)
    ensures AllSaid(cfg, Step(cfg, s, l), said + SaidIn(s, l))
  {
    hide OnRuntime, Pump, NextPhase, DoNext, Answered, Speak, Translate, Deliverable, FrameWasSaid, N.OnFrame,
      AcknowledgeClear;
    MoreSaid(cfg, s, said, SaidIn(s, l));
    match l
    case Request(e) => OnRuntimeFrame(cfg, s, Submit(e));
    case PublishStep(cmd, clock) => OnRuntimeFrame(cfg, s, PublishCall(cmd, clock));
    case ClearFault => OnRuntimeFrame(cfg, s, Submit(FaultCleared));
    case TickStart(now) => OnRuntimeFrame(cfg, s, TickCall(now));
    case TickAdvance => TickSaysNothing(cfg, s, said + SaidIn(s, l));
    case SchedulerDies => OnRuntimeFrame(cfg, s, SchedulerExit);
    case PumpStep(clock, outcome) => PumpSaysNothing(cfg, s, clock, outcome, said + SaidIn(s, l));
    case Receive(f, now) =>
      if Deliverable(cfg, s, f) { ReceivedWasSaid(cfg, s, f, now, said + SaidIn(s, l)); }
    case NodeReceives(f, now) =>
      var (n, reply) := N.OnFrame(s.node, f, now);
      AnswerIsSaid(cfg, s, n, reply, said + SaidIn(s, l));
    case NodeBeats =>
      SpeakingIsSaid(cfg, s.(node := N.AfterHeartbeat(s.node)), N.HeartbeatOf(s.node), said + SaidIn(s, l));
    case NodeReports => SpeakingIsSaid(cfg, s, N.StatusOf(s.node), said + SaidIn(s, l));
    case _ =>
  }

  lemma {:induction false} RunIsSaid(cfg: SystemConfig, node: N.Node, run: seq<Label>, n: nat)
    requires n <= |run|
    ensures AllSaid(cfg, After(cfg, node, run, n), SaidBy(cfg, node, run, n))
  {
    hide Step, SaidIn, FrameWasSaid, EventWasSaid;
    if n > 0 {
      RunIsSaid(cfg, node, run, n - 1);
      StepIsSaid(cfg, After(cfg, node, run, n - 1), run[n - 1], SaidBy(cfg, node, run, n - 1));
    }
  }

  lemma {:induction false} SaidWhen(cfg: SystemConfig, node: N.Node, run: seq<Label>, n: nat, m: Message)
    returns (j: nat)
    requires n <= |run| && m in SaidBy(cfg, node, run, n)
    ensures j < n && m in SaidIn(After(cfg, node, run, j), run[j])
  {
    hide Step, SaidIn;
    if m in SaidIn(After(cfg, node, run, n - 1), run[n - 1]) { j := n - 1; }
    else { j := SaidWhen(cfg, node, run, n - 1, m); }
  }

  /**
   In every run, whatever the bus drops, delays, repeats or adds: a status that the supervisor digests was reported
   by the node at some earlier step, with the session, interlock and fault code the node had there; a heartbeat was
   sent by it with the boot and session it had there.
   */
  lemma DigestedWasSaid(cfg: SystemConfig, node: N.Node, run: seq<Label>, k: nat) returns (j: nat)
    requires k < |run|
    requires var ev := Digested(cfg, After(cfg, node, run, k), run[k]);
             ev.Some? && (ev.value.StatusEvent? || ev.value.HeartbeatEvent?)
    ensures j < k
    ensures var ev := Digested(cfg, After(cfg, node, run, k), run[k]).value;
            var n := After(cfg, node, run, j).node;
            && n.nodeId == ev.node && n.sessionId == ev.sessionId
            && (if ev.StatusEvent? then run[j].NodeReports? && n.interlock == ev.ready && n.faultCode == ev.fault
                else run[j].NodeBeats? && n.bootId == ev.bootId)
  {
    hide Step, After;
    RunIsSaid(cfg, node, run, k);
    var ev := Digested(cfg, After(cfg, node, run, k), run[k]).value;
    var said := SaidBy(cfg, node, run, k);
    assert EventWasSaid(cfg, ev, said);
    if ev.StatusEvent? {
      var inputs: u16 :| Message.Status(ev.node, ev.ready, ev.sessionId, inputs, ev.fault) in said;
      j := SaidWhen(cfg, node, run, k, Message.Status(ev.node, ev.ready, ev.sessionId, inputs, ev.fault));
    } else {
      var hb: u16 :| Heartbeat(ev.node, ev.bootId, ev.sessionId, hb) in said;
      j := SaidWhen(cfg, node, run, k, Heartbeat(ev.node, ev.bootId, ev.sessionId, hb));
    }
  }

  /** What a node with legal ids says is on the bus, under an encoding that says the same. */
  lemma SaidIsOnTheBus(cfg: SystemConfig, s: System, l: Label, m: Message)
    requires m in SaidIn(s, l) && Legal(m)
    ensures FrameOf(m) in Step(cfg, s, l).up && Decode(FrameOf(m)) == Ok(m)
  {
    hide Decode, FrameOf, Legal;
    EncodedIsLegal(m);
    RoundTrip(m);
  }

  /** A fault that comes up in the node is what it reports next, with everything else as it was. */
  lemma FaultIsReported(cfg: SystemConfig, s: System, code: u16)
    requires 1 <= s.node.nodeId <= 31 && s.node.sessionId != 0
    ensures var s' := Step(cfg, Step(cfg, s, NodeFaults(code)), NodeReports);
            var m := Message.Status(s.node.nodeId, s.node.interlock, s.node.sessionId, s.node.inputBits, code);
            FrameOf(m) in s'.up && Decode(FrameOf(m)) == Ok(m)
  {
    hide Decode, FrameOf, Encode;
    var m := Message.Status(s.node.nodeId, s.node.interlock, s.node.sessionId, s.node.inputBits, code);
    SaidIsOnTheBus(cfg, Step(cfg, s, NodeFaults(code)), NodeReports, m);
  }

  // ---------- a ready interlock was reported ----------

  /** The runtime believes the interlock ready, or is about to. */
  ghost predicate Believed(s: System) {
    s.ep.rt.machine.ready || Report(true) in s.todo
  }

  lemma BelievingTakesAReport(cfg: SystemConfig, s: System, l: Label)
    requires EpisodeInv(s.ep) && !Believed(s) && Believed(Step(cfg, s, l)) && l != Request(InterlockReady)
    ensures var ev := Digested(cfg, s, l); ev.Some? && ev.value.StatusEvent? && ev.value.ready
  {
    hide Step, Apply, EpisodeInv, TraceStep, Digest, Overflowed, CommCheck;
    StepMakesOneCall(cfg, s, l);
    var call := CallMade(cfg, s, l);
    TraceAppliesCall(cfg.rt, s.ep, call);
    EpisodeMeansInv(s.ep);
    if call.Some? { ReadyAfterCall(cfg.rt, s.ep.rt, call.value); }
    if !l.TickAdvance? {
      TodoStays(cfg, s, l);
    } else if s.todo != [] {
      ActionTodo(cfg, s);
    } else {
      PhaseReports(cfg, s);
    }
  }

  lemma PhaseReports(cfg: SystemConfig, s: System)
    requires s.todo == []
    ensures Report(true) in Step(cfg, s, TickAdvance).todo ==>
              var ev := Digested(cfg, s, TickAdvance); ev.Some? && ev.value.StatusEvent? && ev.value.ready
  {
  }

  /**
   In every run in which nobody posts interlock_ready through the API, the runtime's interlock is ready only after the
   node, asked at some earlier step, reported its own interlock ready.
   */
  lemma {:induction false} ReadyWasReported(cfg: SystemConfig, node: N.Node, run: seq<Label>, n: nat)
    returns (j: nat)
    requires n <= |run| && Believed(After(cfg, node, run, n))
    requires forall i :: 0 <= i < n ==> run[i] != Request(InterlockReady)
    ensures j < n && run[j].NodeReports? && After(cfg, node, run, j).node.interlock
  {
    hide Step, Digested, EpisodeInv;
    if n == 0 {
      StartIsNotBelieved(cfg, node);
      assert false;
    } else if Believed(After(cfg, node, run, n - 1)) {
      j := ReadyWasReported(cfg, node, run, n - 1);
    } else {
      RuntimeStaysValid(cfg, node, run, n - 1);
      BelievingTakesAReport(cfg, After(cfg, node, run, n - 1), run[n - 1]);
      j := DigestedWasSaid(cfg, node, run, n - 1);
    }
  }

  lemma StartIsNotBelieved(cfg: SystemConfig, node: N.Node)
    ensures !Believed(Initial(cfg, node))
  {
  }
}
