/** Which runtime call each protocol step makes, and why no acknowledgement is ever a phantom. */
module Acknowledgements {
  import opened Bytes
  import opened CanV1
  import opened StateMachine
  import opened RuntimeCore
  import opened RuntimeRuns
  import opened Rings
  import opened Supervision
  import opened CanIo
  import opened Protocol
  import N = NodeLogic

  // ---------- every step is at most one critical section ----------

  function CallMade(cfg: SystemConfig, s: System, l: Label): Option<Call> {
    match l
    case Request(e) => Some(Submit(e))
    case PublishStep(cmd, clock) => Some(PublishCall(cmd, clock))
    case ClearFault => if s.clear.SawNoFault? || s.clear.Acknowledged? then Some(Submit(FaultCleared)) else None
    case TickStart(now) =>
      if s.phase.Resting? && s.todo == [] && s.ep.rt.running then Some(TickCall(now)) else None
    case TickAdvance => if s.todo != [] then CallOf(s.todo[0]) else None
    case SchedulerDies => Some(SchedulerExit)
    case PumpStep(clock, _) =>
      if s.pc.AtRest? && !s.io.stopRequested then Some(ConsumeCall(clock))
      else if s.pc.Noting? then Some(Note(s.pc.wire.sessionId, s.pc.wire.sequence, s.pc.at))
      else None
    case _ => None
  }

  lemma StepMakesOneCall(cfg: SystemConfig, s: System, l: Label)
    ensures Step(cfg, s, l).ep ==
              if CallMade(cfg, s, l).Some? then TraceStep(cfg.rt, s.ep, CallMade(cfg, s, l).value) else s.ep
  {
    hide TraceStep, Consume, NoteSent, Sendable, Send, Digest, Encode, Decode, N.OnFrame, Translate;
  }

  /** The runtime's own invariants hold in every reachable system state. */
  lemma {:induction false} RuntimeStaysValid(cfg: SystemConfig, node: N.Node, run: seq<Label>, n: nat)
    requires n <= |run|
    ensures EpisodeInv(After(cfg, node, run, n).ep)
  {
    hide EpisodeInv, Step, TraceStep;
    if n == 0 {
      StartIsValid();
    } else {
      RuntimeStaysValid(cfg, node, run, n - 1);
      var s := After(cfg, node, run, n - 1);
      StepMakesOneCall(cfg, s, run[n - 1]);
      if CallMade(cfg, s, run[n - 1]).Some? {
        StepKeepsEpisode(cfg.rt, s.ep, CallMade(cfg, s, run[n - 1]).value);
      }
    }
  }

  // ---------- acknowledgements in flight all come from the node ----------

  predicate Genuine(applied: set<(u16, u16)>, session: u16, sequence: u16, result: OutputResult) {
    result.Applied? ==> (session, sequence) in applied
  }

  predicate GenuineFrame(f: CanFrame, applied: set<(u16, u16)>) {
    Decode(f).Ok? && Decode(f).value.OutputStatus? ==>
      Genuine(applied, Decode(f).value.sessionId, Decode(f).value.sequence, Decode(f).value.result)
  }

  predicate GenuineEvent(cfg: SystemConfig, ev: InputEvent, applied: set<(u16, u16)>) {
    ev.OutputEvent? && (ev.node == 0 || ev.node == cfg.sup.nodeId) ==>
      Genuine(applied, ev.sessionId, ev.sequence, ev.result)
  }

  predicate GenuineAction(a: Action, applied: set<(u16, u16)>) {
    a.Acknowledge? ==> Genuine(applied, a.sessionId, a.sequence, a.result)
  }

  ghost predicate AllGenuine(cfg: SystemConfig, s: System) {
    && (forall f :: f in s.up ==> GenuineFrame(f, s.log.applied))
    && (forall i :: 0 <= i < |s.queue.items| ==> GenuineEvent(cfg, s.queue.items[i], s.log.applied))
    && (forall i :: 0 <= i < |s.todo| ==> GenuineAction(s.todo[i], s.log.applied))
  }

  lemma OnRuntimeFrame(cfg: SystemConfig, s: System, call: Call)
    ensures var s' := OnRuntime(cfg, s, call);
            && s'.up == s.up && s'.down == s.down && s'.queue == s.queue && s'.todo == s.todo && s'.node == s.node
            && s'.sup == s.sup && s'.phase == s.phase && s'.io == s.io && s'.pc == s.pc && s'.clear == s.clear
            && s'.log.applied == s.log.applied && s'.log.tracked == s.log.tracked
            && s'.log.untracked == s.log.untracked && s'.log.reportedFault == s.log.reportedFault
            && s'.log.lastTick == s.log.lastTick
  {
  }

  lemma DecodedNodeIsLegal(f: CanFrame)
    ensures Decode(f).Ok? ==> Legal(Decode(f).value)
  {
    hide Decode, Legal, Encode;
    if Decode(f).Ok? {
      DecodedIsEncoding(f, Decode(f).value);
      EncodedIsLegal(Decode(f).value);
    }
  }

  lemma EncodedIsLegal(m: Message)
    ensures Encode(m).Ok? <==> Legal(m)
    ensures Encode(m).Ok? ==> Encode(m).value == FrameOf(m)
  {
  }

  lemma ReceivedEventIsGenuine(cfg: SystemConfig, s: System, f: CanFrame, now: int)
    requires AllGenuine(cfg, s) && Deliverable(cfg, s, f)
    ensures var ev := Translate(cfg.sup.nodeId, f, now);
            ev.Some? ==> GenuineEvent(cfg, ev.value, s.log.applied)
  {
    hide Decode;
    DecodedNodeIsLegal(f);
  }

  lemma SpokenFrameIsGenuine(m: Message, applied: set<(u16, u16)>)
    requires Encode(m).Ok?
    requires m.OutputStatus? ==> Genuine(applied, m.sessionId, m.sequence, m.result)
    ensures GenuineFrame(FrameOf(m), applied)
  {
    hide Decode, Encode;
    EncodedIsLegal(m);
    RoundTrip(m);
  }

  lemma DigestIsGenuine(cfg: SystemConfig, s: Supervisor, ev: InputEvent, now: int, applied: set<(u16, u16)>)
    requires GenuineEvent(cfg, ev, applied)
    ensures var todo := Digest(cfg.sup, s, ev, now).1;
            forall i :: 0 <= i < |todo| ==> GenuineAction(todo[i], applied)
  {
  }

  lemma TickKeepsGenuine(cfg: SystemConfig, s: System)
    requires AllGenuine(cfg, s)
    ensures AllGenuine(cfg, Step(cfg, s, TickAdvance))
  {
    hide OnRuntime, Digest, GenuineFrame, GenuineEvent, GenuineAction, Overflowed, CommCheck;
    if s.todo != [] {
      var a := s.todo[0];
      if CallOf(a).Some? {
        OnRuntimeFrame(cfg, s.(todo := s.todo[1..], sup := Local(s.sup, a)), CallOf(a).value);
      }
    } else {
      ChecksAreGenuine(cfg, s);
      if s.phase.Draining? && s.queue.items != [] {
        DigestIsGenuine(cfg, s.sup, s.queue.items[0], s.phase.now, s.log.applied);
      }
    }
  }

  lemma ChecksAreGenuine(cfg: SystemConfig, s: System)
    ensures forall a :: a in Overflowed(s.sup, s.queue.latched).1 ==> GenuineAction(a, s.log.applied)
    ensures s.phase.CheckComm? ==>
              forall a :: a in CommCheck(cfg.sup, s.sup, s.phase.now).1 ==> GenuineAction(a, s.log.applied)
  {
  }

  lemma PumpKeepsGenuine(cfg: SystemConfig, s: System, clock: Option<int>, outcome: SendOutcome)
    requires AllGenuine(cfg, s)
    ensures AllGenuine(cfg, Pump(cfg, s, clock, outcome))
  {
    hide OnRuntime, Send, GenuineFrame, Consume, Sendable, NoteSent;
    match s.pc
    case AtRest => OnRuntimeFrame(cfg, s, ConsumeCall(clock));
    case Checking =>
    case Sending =>
      if s.io.pending.Some? { SendQueuesNoStatus(s.io, s.io.pending.value, cfg.sup.nodeId, clock, outcome); }
    case Noting(wire, at) => OnRuntimeFrame(cfg, s, Note(wire.sessionId, wire.sequence, at));
  }

  lemma SendQueuesNoStatus(io: Io, cmd: OutputCommand, node: u8, now: Option<int>, outcome: SendOutcome)
    ensures var d := Send(io, cmd, node, now, outcome); d.event.Some? ==> !d.event.value.OutputEvent?
  {
  }

  lemma NodeKeepsGenuine(cfg: SystemConfig, s: System, n: N.Node, reply: N.Reply)
    requires AllGenuine(cfg, s)
    ensures AllGenuine(cfg, Answered(s, n, reply))
  {
    hide Encode, Decode;
    if reply.Answer? && Encode(reply.status).Ok? {
      SpokenFrameIsGenuine(reply.status, Answered(s, n, reply).log.applied);
    }
  }

  lemma SpeakKeepsGenuine(cfg: SystemConfig, s: System, m: Message)
    requires AllGenuine(cfg, s) && !m.OutputStatus?
    ensures AllGenuine(cfg, Speak(s, m))
  {
    hide Encode, Decode;
    if Encode(m).Ok? { SpokenFrameIsGenuine(m, s.log.applied); }
  }

  lemma StepKeepsGenuine(cfg: SystemConfig, s: System, l: Label)
    requires AllGenuine(cfg, s)
    ensures AllGenuine(cfg, Step(cfg, s, l))
  {
    hide OnRuntime, Pump, NextPhase, DoNext, Answered, Speak, Translate, Deliverable, GenuineFrame, N.OnFrame,
      AcknowledgeClear;
    match l
    case Request(e) => OnRuntimeFrame(cfg, s, Submit(e));
    case PublishStep(cmd, clock) => OnRuntimeFrame(cfg, s, PublishCall(cmd, clock));
    case ClearFault => OnRuntimeFrame(cfg, s, Submit(FaultCleared));
    case TickStart(now) => OnRuntimeFrame(cfg, s, TickCall(now));
    case TickAdvance => TickKeepsGenuine(cfg, s);
    case SchedulerDies => OnRuntimeFrame(cfg, s, SchedulerExit);
    case PumpStep(clock, outcome) => PumpKeepsGenuine(cfg, s, clock, outcome);
    case Receive(f, now) =>
      if Deliverable(cfg, s, f) { ReceivedEventIsGenuine(cfg, s, f, now); }
    case NodeReceives(f, now) =>
      var (n, reply) := N.OnFrame(s.node, f, now);
      NodeKeepsGenuine(cfg, s, n, reply);
    case NodeBeats => SpeakKeepsGenuine(cfg, s.(node := N.AfterHeartbeat(s.node)), N.HeartbeatOf(s.node));
    case NodeReports => SpeakKeepsGenuine(cfg, s, N.StatusOf(s.node));
    case _ =>
  }

  lemma {:induction false} RunKeepsGenuine(cfg: SystemConfig, node: N.Node, run: seq<Label>, n: nat)
    requires n <= |run|
    ensures AllGenuine(cfg, After(cfg, node, run, n))
  {
    if n > 0 {
      hide Step;
      RunKeepsGenuine(cfg, node, run, n - 1);
      StepKeepsGenuine(cfg, After(cfg, node, run, n - 1), run[n - 1]);
    }
  }

  // ---------- the log of applied commands is the node's own history ----------

  /** Step i is the node applying a command with this wire session and sequence. */
  predicate AppliedAt(cfg: SystemConfig, node: N.Node, run: seq<Label>, i: nat, session: u16, sequence: u16)
    requires i < |run|
  {
    var s := After(cfg, node, run, i);
    && run[i].NodeReceives? && run[i].frame in s.down
    && var reply := N.OnFrame(s.node, run[i].frame, run[i].now).1;
       && reply.Answer? && reply.status.result.Applied?
       && reply.status.sessionId == session && reply.status.sequence == sequence
  }

  lemma StepLogsApplied(cfg: SystemConfig, s: System, l: Label, p: (u16, u16))
    requires p in Step(cfg, s, l).log.applied && p !in s.log.applied
    ensures l.NodeReceives? && l.frame in s.down
    ensures var reply := N.OnFrame(s.node, l.frame, l.now).1;
            reply.Answer? && reply.status.result.Applied? && (reply.status.sessionId, reply.status.sequence) == p
  {
    hide OnRuntime, N.OnFrame, Encode, Send, Digest, Consume, Sendable, NoteSent, Translate;
    match l
    case Request(e) => OnRuntimeFrame(cfg, s, Submit(e));
    case PublishStep(cmd, clock) => OnRuntimeFrame(cfg, s, PublishCall(cmd, clock));
    case ClearFault => OnRuntimeFrame(cfg, s, Submit(FaultCleared));
    case TickStart(now) => OnRuntimeFrame(cfg, s, TickCall(now));
    case TickAdvance =>
      if s.todo != [] && CallOf(s.todo[0]).Some? {
        OnRuntimeFrame(cfg, s.(todo := s.todo[1..], sup := Local(s.sup, s.todo[0])), CallOf(s.todo[0]).value);
      }
    case SchedulerDies => OnRuntimeFrame(cfg, s, SchedulerExit);
    case PumpStep(clock, outcome) =>
      OnRuntimeFrame(cfg, s, ConsumeCall(clock));
      if s.pc.Noting? { OnRuntimeFrame(cfg, s, Note(s.pc.wire.sessionId, s.pc.wire.sequence, s.pc.at)); }
    case _ =>
  }

  lemma {:induction false} LoggedWasApplied(cfg: SystemConfig, node: N.Node, run: seq<Label>, n: nat,
                                            session: u16, sequence: u16)
    requires n <= |run| && (session, sequence) in After(cfg, node, run, n).log.applied
    ensures exists i :: 0 <= i < n && AppliedAt(cfg, node, run, i, session, sequence)
  {
    hide Step;
    var p := (session, sequence);
    if p in After(cfg, node, run, n - 1).log.applied {
      LoggedWasApplied(cfg, node, run, n - 1, session, sequence);
    } else {
      StepLogsApplied(cfg, After(cfg, node, run, n - 1), run[n - 1], p);
      assert AppliedAt(cfg, node, run, n - 1, session, sequence);
    }
  }

  // ---------- the in-flight slot ----------

  lemma OnlyAMatchClosesTheSlot(cfg: Config, r: State, c: Call)
    requires Inv(r) && r.ackPending && !Apply(cfg, r, c).ackPending && Apply(cfg, r, c).machine.mode.Active?
    ensures c == Call.Status(r.sentSession, r.sentSequence, Applied)
  {
    hide Handle;
    match c
    case Submit(e) => MachineFacts(r.machine, e);
    case Raise(code) => MachineFacts(r.machine.(fault := code), FaultDetected);
    case Interlock(ready) => MachineFacts(r.machine, if ready then InterlockReady else InterlockLost);
    case TickCall(t) =>
      MachineFacts(r.machine.(fault := AckTimeout), HoldRequest);
      MachineFacts(r.machine, CommandTimeout);
    case _ =>
  }

  /**
   No phantom acknowledgement: along every interleaving, over a bus that loses, delays,
   repeats and reorders, the in-flight slot closes with the runtime still Active only if, at
   some earlier step, the node applied a command with exactly the tracked wire session and
   sequence.
   */
  lemma NoPhantomAcknowledgement(cfg: SystemConfig, node: N.Node, run: seq<Label>, n: nat)
    requires n < |run|
    requires var before, after := After(cfg, node, run, n).ep.rt, After(cfg, node, run, n + 1).ep.rt;
             before.ackPending && !after.ackPending && after.machine.mode.Active?
    ensures var rt := After(cfg, node, run, n).ep.rt;
            exists i :: 0 <= i < n && AppliedAt(cfg, node, run, i, rt.sentSession, rt.sentSequence)
  {
    hide Step, Apply, AppliedAt;
    var s := After(cfg, node, run, n);
    RuntimeStaysValid(cfg, node, run, n);
    RunKeepsGenuine(cfg, node, run, n);
    StepMakesOneCall(cfg, s, run[n]);
    TraceAppliesCall(cfg.rt, s.ep, CallMade(cfg, s, run[n]));
    OnlyAMatchClosesTheSlot(cfg.rt, s.ep.rt, CallMade(cfg, s, run[n]).value);
    assert s.todo[0] == Acknowledge(s.ep.rt.sentSession, s.ep.rt.sentSequence, Applied);
    assert GenuineAction(s.todo[0], s.log.applied);
    LoggedWasApplied(cfg, node, run, n, s.ep.rt.sentSession, s.ep.rt.sentSequence);
  }

  lemma TraceAppliesCall(cfg: Config, t: Traced, c: Option<Call>)
    ensures c.Some? ==> TraceStep(cfg, t, c.value).rt == Apply(cfg, t.rt, c.value)
  {
  }

  // ---------- every frame sent is tracked, or stops the loop ----------

  predicate Accounted(s: System) {
    && s.io.framesSent == s.log.tracked + s.log.untracked + (if s.pc.Noting? then 1 else 0)
    && (s.log.untracked > 0 ==> s.log.untracked == 1 && s.pc.AtRest? && s.io.stopRequested && s.io.reason.SendFailure?)
    && (!s.pc.AtRest? ==> s.io.pending.Some?)
  }

  lemma PumpKeepsAccounts(cfg: SystemConfig, s: System, clock: Option<int>, outcome: SendOutcome)
    requires Accounted(s)
    ensures Accounted(Pump(cfg, s, clock, outcome))
  {
    hide OnRuntime, Encode, ToWire, Consume, Sendable, NoteSent;
    if s.pc.AtRest? { OnRuntimeFrame(cfg, s, ConsumeCall(clock)); }
    if s.pc.Noting? { OnRuntimeFrame(cfg, s, Note(s.pc.wire.sessionId, s.pc.wire.sequence, s.pc.at)); }
  }

  lemma StepKeepsAccounts(cfg: SystemConfig, s: System, l: Label)
    requires Accounted(s)
    ensures Accounted(Step(cfg, s, l))
  {
    hide OnRuntime, Pump, N.OnFrame, Encode, Digest, Translate, Overflowed, CommCheck;
    match l
    case Request(e) => OnRuntimeFrame(cfg, s, Submit(e));
    case PublishStep(cmd, clock) => OnRuntimeFrame(cfg, s, PublishCall(cmd, clock));
    case ClearFault => OnRuntimeFrame(cfg, s, Submit(FaultCleared));
    case TickStart(now) => OnRuntimeFrame(cfg, s, TickCall(now));
    case TickAdvance =>
      if s.todo != [] && CallOf(s.todo[0]).Some? {
        OnRuntimeFrame(cfg, s.(todo := s.todo[1..], sup := Local(s.sup, s.todo[0])), CallOf(s.todo[0]).value);
      }
    case SchedulerDies => OnRuntimeFrame(cfg, s, SchedulerExit);
    case PumpStep(clock, outcome) => PumpKeepsAccounts(cfg, s, clock, outcome);
    case _ =>
  }

  /**
   Conservation of frames: in every reachable state, every frame that went out is either the
   one being entered in the slot right now, or was entered, or was the last frame of a loop
   that stopped with SendFailure. The step that enters a frame leaves exactly it in flight.
   */
  lemma {:induction false} EveryFrameIsTrackedOrStops(cfg: SystemConfig, node: N.Node, run: seq<Label>, n: nat)
    requires n <= |run|
    ensures Accounted(After(cfg, node, run, n))
    ensures n < |run| ==>
              var before, after := After(cfg, node, run, n), After(cfg, node, run, n + 1);
              after.log.tracked > before.log.tracked ==>
                && before.pc.Noting? && after.ep.rt.ackPending
                && after.ep.rt.sentSession == before.pc.wire.sessionId
                && after.ep.rt.sentSequence == before.pc.wire.sequence && after.ep.rt.sentTime == before.pc.at
  {
    hide Step;
    if n > 0 {
      EveryFrameIsTrackedOrStops(cfg, node, run, n - 1);
      StepKeepsAccounts(cfg, After(cfg, node, run, n - 1), run[n - 1]);
    }
    if n < |run| { TrackingStep(cfg, After(cfg, node, run, n), run[n]); }
  }

  lemma TrackingStep(cfg: SystemConfig, s: System, l: Label)
    ensures var r := Step(cfg, s, l).ep.rt;
            Step(cfg, s, l).log.tracked > s.log.tracked ==>
              && s.pc.Noting? && r.ackPending
              && r.sentSession == s.pc.wire.sessionId && r.sentSequence == s.pc.wire.sequence && r.sentTime == s.pc.at
  {
  }
}
