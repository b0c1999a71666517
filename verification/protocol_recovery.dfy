/**
 Recovery from Fault through clear_fault: what the call has checked by the time it acts, and exactly when that still
 holds then.
 */
module Recovery {
  import opened Bytes
  import opened CanV1
  import opened StateMachine
  import opened RuntimeCore
  import opened RuntimeRuns
  import opened Rings
  import opened Supervision
  import opened CanIo
  import opened Protocol
  import opened Acknowledgements
  import opened SupervisedRuns
  import N = NodeLogic

  /** Everything clear_fault is meant to make sure of. */
  predicate Sound(s: System) { Recovered(s.sup, s.queue.latched) && !HasFailed(s.io) }

  // ---------- the steps that set or lift a blocker, by their guards ----------

  predicate Convertible(cfg: SystemConfig, cmd: OutputCommand, t: int) {
    var wire := ToWire(cmd, cfg.sup.nodeId, t);
    wire.Ok? && Encode(wire.value).Ok?
  }

  predicate NoteRefused(s: System) {
    s.pc.Noting? && NoteSent(s.ep.rt, s.pc.wire.sessionId, s.pc.wire.sequence, s.pc.at).1.Err?
  }

  /** The pump step reaches the send with a command and a clock sample. */
  predicate Attempts(s: System, clock: Option<int>) { s.pc.Sending? && s.io.pending.Some? && clock.Some? }

  /** A read, a send or the tracking of a sent frame fails. */
  predicate FailsIo(cfg: SystemConfig, s: System, l: Label) {
    match l
    case IoFails(_, _) => s.pc.AtRest? && !HasFailed(s.io)
    case PumpStep(clock, outcome) =>
      || (Attempts(s, clock) && outcome.Failed? && Convertible(cfg, s.io.pending.value, clock.value))
      || NoteRefused(s)
    case _ => false
  }

  /** The I/O thread offers the queue an event. */
  predicate Offers(cfg: SystemConfig, s: System, l: Label) {
    match l
    case Receive(f, now) =>
      s.pc.AtRest? && !s.io.stopRequested && Deliverable(cfg, s, f) && Translate(cfg.sup.nodeId, f, now).Some?
    case IoFails(queued, _) => queued && s.pc.AtRest? && !HasFailed(s.io)
    case PumpStep(clock, outcome) =>
      || (Attempts(s, clock) && (outcome.Failed? || !Convertible(cfg, s.io.pending.value, clock.value)))
      || NoteRefused(s)
    case _ => false
  }

  predicate Refuses(cfg: SystemConfig, s: System, l: Label) {
    Offers(cfg, s, l) && |s.queue.items| >= s.queue.capacity
  }

  /** The event about this node that the step digests, if it digests one. */
  function Digested(cfg: SystemConfig, s: System, l: Label): Option<InputEvent> {
    if l.TickAdvance? && s.todo == [] && s.phase.Draining? && s.phase.budget > 0 && s.queue.items != []
       && (s.queue.items[0].node == 0 || s.queue.items[0].node == cfg.sup.nodeId)
    then Some(s.queue.items[0]) else None
  }

  /** A node once heard is online; one never heard has not reported a status either. */
  predicate LinkUp(sup: Supervisor) { if sup.everSeen then sup.online else sup.statusUpdates == 0 }

  /** The communication check finds the heartbeat overdue, or a status arrives from a node never heard. */
  predicate LosesLink(cfg: SystemConfig, s: System, l: Label) {
    || (&& l.TickAdvance? && s.todo == [] && s.phase.CheckComm? && s.sup.everSeen && s.sup.online
        && 0 < cfg.sup.heartbeatTimeout <= s.phase.now - s.sup.lastHeartbeat)
    || (!s.sup.everSeen && Digested(cfg, s, l).Some? && Digested(cfg, s, l).value.StatusEvent?)
  }

  /** A heartbeat of the known node arrives, or a restarted node is bound anew. */
  predicate GainsLink(cfg: SystemConfig, s: System, l: Label) {
    || (l.TickAdvance? && s.todo != [] && s.todo[0].Rebind?)
    || (var ev := Digested(cfg, s, l);
        && ev.Some? && ev.value.HeartbeatEvent?
        && (s.sup.everSeen ==> ev.value.bootId == s.sup.bootId && ev.value.sessionId == s.sup.sessionId))
  }

  predicate ReportsFault(cfg: SystemConfig, s: System, l: Label) {
    var ev := Digested(cfg, s, l);
    ev.Some? && ev.value.StatusEvent? && ev.value.fault != 0
  }

  predicate ReportsClean(cfg: SystemConfig, s: System, l: Label) {
    var ev := Digested(cfg, s, l);
    ev.Some? && ev.value.StatusEvent? && ev.value.fault == 0
  }

  // ---------- how one step moves the blockers ----------

  /** The supervisor's own bookkeeping. */
  predicate KeptSup(sup: Supervisor) {
    && (sup.everSeen ==> (sup.online <==> !sup.commLoss))
    && (!sup.everSeen ==> !sup.online && !sup.commLoss && !sup.restartLatched)
  }

  /** Bookkeeping that every reachable state keeps. */
  ghost predicate Kept(s: System) {
    && KeptSup(s.sup)
    && (s.sup.overflowLatched ==> s.queue.latched)
    && (HasFailed(s.io) ==> s.io.stopRequested)
    && (forall i :: 0 <= i < |s.todo| && s.todo[i].Rebind? ==> s.sup.everSeen)
  }

  lemma SoundMeans(s: System)
    requires Kept(s)
    ensures Sound(s) <==> !HasFailed(s.io) && !s.queue.latched && LinkUp(s.sup) && s.sup.nodeFault == 0
  {
  }

  /** The four blockers after a step, each from its own guard. */
  predicate Moved(cfg: SystemConfig, s: System, l: Label, s': System) {
    && (HasFailed(s'.io) <==> HasFailed(s.io) || FailsIo(cfg, s, l))
    && (s'.queue.latched <==> s.queue.latched || Refuses(cfg, s, l))
    && (LinkUp(s'.sup) <==> GainsLink(cfg, s, l) || (LinkUp(s.sup) && !LosesLink(cfg, s, l)))
    && (s'.sup.nodeFault != 0 <==> ReportsFault(cfg, s, l) || (s.sup.nodeFault != 0 && !ReportsClean(cfg, s, l)))
    && !(GainsLink(cfg, s, l) && LosesLink(cfg, s, l))
  }

  lemma ActionMoves(cfg: SystemConfig, s: System)
    requires Kept(s) && s.todo != []
    ensures var s' := Step(cfg, s, TickAdvance); Kept(s') && Moved(cfg, s, TickAdvance, s')
  {
    hide OnRuntime;
    var s1 := s.(todo := s.todo[1..], sup := Local(s.sup, s.todo[0]));
    if CallOf(s.todo[0]).Some? { OnRuntimeFrame(cfg, s1, CallOf(s.todo[0]).value); }
  }

  lemma DigestFacts(cfg: SupervisorConfig, sup: Supervisor, ev: InputEvent, now: int)
    requires KeptSup(sup)
    ensures var (sup', todo) := Digest(cfg, sup, ev, now);
            var ours := ev.node == 0 || ev.node == cfg.nodeId;
            var heard := ours && ev.HeartbeatEvent?
                      && (sup.everSeen ==> ev.bootId == sup.bootId && ev.sessionId == sup.sessionId);
            && KeptSup(sup') && sup'.overflowLatched == sup.overflowLatched
            && (LinkUp(sup') <==> heard || (LinkUp(sup) && !(ours && ev.StatusEvent? && !sup.everSeen)))
            && sup'.nodeFault == (if ours && ev.StatusEvent? then ev.fault else sup.nodeFault)
            && (forall i :: 0 <= i < |todo| && todo[i].Rebind? ==> sup'.everSeen)
  {
  }

  lemma DigestMoves(cfg: SystemConfig, s: System)
    requires Kept(s) && s.todo == [] && s.phase.Draining?
    ensures var s' := Step(cfg, s, TickAdvance); Kept(s') && Moved(cfg, s, TickAdvance, s')
  {
    hide Digest, LinkUp;
    if s.phase.budget > 0 && s.queue.items != [] {
      DigestFacts(cfg.sup, s.sup, s.queue.items[0], s.phase.now);
    }
  }

  lemma CheckMoves(cfg: SystemConfig, s: System)
    requires Kept(s) && s.todo == [] && !s.phase.Draining?
    ensures var s' := Step(cfg, s, TickAdvance); Kept(s') && Moved(cfg, s, TickAdvance, s')
  {
  }

  lemma SendMoves(cfg: SystemConfig, s: System, clock: Option<int>, outcome: SendOutcome)
    requires Kept(s) && s.pc.Sending?
    ensures var s' := Pump(cfg, s, clock, outcome); Kept(s') && Moved(cfg, s, PumpStep(clock, outcome), s')
  {
    hide ToWire, Encode, LinkUp;
  }

  lemma NoteMoves(cfg: SystemConfig, s: System, clock: Option<int>, outcome: SendOutcome)
    requires Kept(s) && s.pc.Noting?
    ensures var s' := Pump(cfg, s, clock, outcome); Kept(s') && Moved(cfg, s, PumpStep(clock, outcome), s')
  {
    hide OnRuntime, NoteSent, LinkUp;
    OnRuntimeFrame(cfg, s, Note(s.pc.wire.sessionId, s.pc.wire.sequence, s.pc.at));
  }

  lemma FetchMoves(cfg: SystemConfig, s: System, clock: Option<int>, outcome: SendOutcome)
    requires Kept(s) && (s.pc.AtRest? || s.pc.Checking?)
    ensures var s' := Pump(cfg, s, clock, outcome); Kept(s') && Moved(cfg, s, PumpStep(clock, outcome), s')
  {
    hide OnRuntime, Consume, Sendable, LinkUp;
    OnRuntimeFrame(cfg, s, ConsumeCall(clock));
  }

  lemma PumpMoves(cfg: SystemConfig, s: System, clock: Option<int>, outcome: SendOutcome)
    requires Kept(s)
    ensures var s' := Pump(cfg, s, clock, outcome); Kept(s') && Moved(cfg, s, PumpStep(clock, outcome), s')
  {
    hide Pump, Kept, Moved;
    if s.pc.Sending? { SendMoves(cfg, s, clock, outcome); }
    else if s.pc.Noting? { NoteMoves(cfg, s, clock, outcome); }
    else { FetchMoves(cfg, s, clock, outcome); }
  }

  lemma IoMoves(cfg: SystemConfig, s: System, l: Label)
    requires Kept(s) && (l.Receive? || l.IoFails? || l.IoStops?)
    ensures var s' := Step(cfg, s, l); Kept(s') && Moved(cfg, s, l, s')
  {
    hide Deliverable, Translate;
  }

  /** All other steps touch none of the blockers. */
  predicate Untouched(s: System, s': System) {
    && s'.io == s.io && s'.queue == s.queue && s'.todo == s.todo
    && s'.sup == s.sup.(restartLatched := s'.sup.restartLatched)
    && (s'.sup.restartLatched ==> s.sup.restartLatched)
  }

  lemma OthersTouchNothing(cfg: SystemConfig, s: System, l: Label)
    requires !l.TickAdvance? && !l.PumpStep? && !l.Receive? && !l.IoFails? && !l.IoStops?
    ensures Untouched(s, Step(cfg, s, l))
  {
    hide OnRuntime, N.OnFrame, Encode;
    match l
    case Request(e) => OnRuntimeFrame(cfg, s, Submit(e));
    case PublishStep(cmd, clock) => OnRuntimeFrame(cfg, s, PublishCall(cmd, clock));
    case ClearFault => OnRuntimeFrame(cfg, s, Submit(FaultCleared));
    case TickStart(now) => OnRuntimeFrame(cfg, s, TickCall(now));
    case SchedulerDies => OnRuntimeFrame(cfg, s, SchedulerExit);
    case _ =>
  }

  lemma StepMoves(cfg: SystemConfig, s: System, l: Label)
    requires Kept(s)
    ensures Kept(Step(cfg, s, l)) && Moved(cfg, s, l, Step(cfg, s, l))
  {
    hide Step, Kept, Moved;
    if l.TickAdvance? {
      if s.todo != [] { ActionMoves(cfg, s); }
      else if s.phase.Draining? { DigestMoves(cfg, s); }
      else { CheckMoves(cfg, s); }
    } else if l.PumpStep? {
      PumpMoves(cfg, s, l.clock, l.outcome);
      PumpIsStep(cfg, s, l.clock, l.outcome);
    } else if l.Receive? || l.IoFails? || l.IoStops? {
      IoMoves(cfg, s, l);
    } else {
      OthersTouchNothing(cfg, s, l);
      UntouchedMoves(cfg, s, l, Step(cfg, s, l));
    }
  }

  lemma PumpIsStep(cfg: SystemConfig, s: System, clock: Option<int>, outcome: SendOutcome)
    ensures Step(cfg, s, PumpStep(clock, outcome)) == Pump(cfg, s, clock, outcome)
  {
    hide Pump;
  }

  lemma UntouchedMoves(cfg: SystemConfig, s: System, l: Label, s': System)
    requires Kept(s) && Untouched(s, s')
    requires !l.TickAdvance? && !l.PumpStep? && !l.Receive? && !l.IoFails? && !l.IoStops?
    ensures Kept(s') && Moved(cfg, s, l, s')
  {
  }

  lemma {:induction false} RunKeeps(cfg: SystemConfig, node: N.Node, run: seq<Label>, n: nat)
    requires n <= |run|
    ensures Kept(After(cfg, node, run, n))
  {
    if n > 0 {
      hide Step, Kept, Moved;
      RunKeeps(cfg, node, run, n - 1);
      StepMoves(cfg, After(cfg, node, run, n - 1), run[n - 1]);
    }
  }

  // ---------- which blocker stands, from the steps since ----------

  ghost predicate FailedSince(cfg: SystemConfig, node: N.Node, run: seq<Label>, first: nat, n: nat)
    requires n <= |run|
  {
    exists k :: first <= k < n && FailsIo(cfg, After(cfg, node, run, k), run[k])
  }

  ghost predicate RefusedSince(cfg: SystemConfig, node: N.Node, run: seq<Label>, first: nat, n: nat)
    requires n <= |run|
  {
    exists k :: first <= k < n && Refuses(cfg, After(cfg, node, run, k), run[k])
  }

  predicate GainsAt(cfg: SystemConfig, node: N.Node, run: seq<Label>, k: nat)
    requires k < |run|
  {
    GainsLink(cfg, After(cfg, node, run, k), run[k])
  }

  predicate LosesAt(cfg: SystemConfig, node: N.Node, run: seq<Label>, k: nat)
    requires k < |run|
  {
    LosesLink(cfg, After(cfg, node, run, k), run[k])
  }

  /** The link was lost at some step since and not regained after it. */
  ghost predicate LinkLostSince(cfg: SystemConfig, node: N.Node, run: seq<Label>, first: nat, n: nat)
    requires n <= |run|
  {
    exists k :: first <= k < n && LosesAt(cfg, node, run, k) && forall m :: k < m < n ==> !GainsAt(cfg, node, run, m)
  }

  predicate CleanAt(cfg: SystemConfig, node: N.Node, run: seq<Label>, k: nat)
    requires k < |run|
  {
    ReportsClean(cfg, After(cfg, node, run, k), run[k])
  }

  predicate FaultAt(cfg: SystemConfig, node: N.Node, run: seq<Label>, k: nat)
    requires k < |run|
  {
    ReportsFault(cfg, After(cfg, node, run, k), run[k])
  }

  /** The node reported a fault at some step since and no clean status after it. */
  ghost predicate FaultStandsSince(cfg: SystemConfig, node: N.Node, run: seq<Label>, first: nat, n: nat)
    requires n <= |run|
  {
    exists k :: first <= k < n && FaultAt(cfg, node, run, k) && forall m :: k < m < n ==> !CleanAt(cfg, node, run, m)
  }

  lemma MovesAt(cfg: SystemConfig, node: N.Node, run: seq<Label>, n: nat)
    requires n < |run|
    ensures Moved(cfg, After(cfg, node, run, n), run[n], After(cfg, node, run, n + 1))
  {
    hide Step, Kept, Moved;
    RunKeeps(cfg, node, run, n);
    StepMoves(cfg, After(cfg, node, run, n), run[n]);
  }

  lemma {:induction false} IoExactly(cfg: SystemConfig, node: N.Node, run: seq<Label>, first: nat, n: nat)
    requires first <= n <= |run| && !HasFailed(After(cfg, node, run, first).io)
    ensures HasFailed(After(cfg, node, run, n).io) <==> FailedSince(cfg, node, run, first, n)
    decreases n
  {
    hide After, FailsIo, Refuses, GainsLink, LosesLink, ReportsFault, ReportsClean, LinkUp;
    if first < n {
      IoExactly(cfg, node, run, first, n - 1);
      MovesAt(cfg, node, run, n - 1);
    }
  }

  lemma {:induction false} QueueExactly(cfg: SystemConfig, node: N.Node, run: seq<Label>, first: nat, n: nat)
    requires first <= n <= |run| && !After(cfg, node, run, first).queue.latched
    ensures After(cfg, node, run, n).queue.latched <==> RefusedSince(cfg, node, run, first, n)
    decreases n
  {
    hide After, FailsIo, Refuses, GainsLink, LosesLink, ReportsFault, ReportsClean, LinkUp;
    if first < n {
      QueueExactly(cfg, node, run, first, n - 1);
      MovesAt(cfg, node, run, n - 1);
    }
  }

  lemma {:induction false} LinkExactly(cfg: SystemConfig, node: N.Node, run: seq<Label>, first: nat, n: nat)
    requires first <= n <= |run| && LinkUp(After(cfg, node, run, first).sup)
    ensures LinkUp(After(cfg, node, run, n).sup) <==> !LinkLostSince(cfg, node, run, first, n)
    decreases n
  {
    hide After, FailsIo, Refuses, GainsLink, LosesLink, ReportsFault, ReportsClean, LinkUp;
    if first < n {
      LinkExactly(cfg, node, run, first, n - 1);
      MovesAt(cfg, node, run, n - 1);
      LinkUnfolds(cfg, node, run, first, n);
    }
  }

  lemma LinkUnfolds(cfg: SystemConfig, node: N.Node, run: seq<Label>, first: nat, n: nat)
    requires first < n <= |run|
    ensures LinkLostSince(cfg, node, run, first, n) <==>
              || LosesAt(cfg, node, run, n - 1)
              || (LinkLostSince(cfg, node, run, first, n - 1) && !GainsAt(cfg, node, run, n - 1))
  {
    hide LosesAt, GainsAt;
    if LinkLostSince(cfg, node, run, first, n - 1) && !GainsAt(cfg, node, run, n - 1) {
      var k :| first <= k < n - 1 && LosesAt(cfg, node, run, k)
            && forall m :: k < m < n - 1 ==> !GainsAt(cfg, node, run, m);
      assert forall m :: k < m < n ==> !GainsAt(cfg, node, run, m);
    }
  }

  lemma {:induction false} FaultExactly(cfg: SystemConfig, node: N.Node, run: seq<Label>, first: nat, n: nat)
    requires first <= n <= |run| && After(cfg, node, run, first).sup.nodeFault == 0
    ensures After(cfg, node, run, n).sup.nodeFault != 0 <==> FaultStandsSince(cfg, node, run, first, n)
    decreases n
  {
    hide After, FailsIo, Refuses, GainsLink, LosesLink, ReportsFault, ReportsClean, LinkUp;
    if first < n {
      FaultExactly(cfg, node, run, first, n - 1);
      MovesAt(cfg, node, run, n - 1);
      FaultUnfolds(cfg, node, run, first, n);
    }
  }

  lemma FaultUnfolds(cfg: SystemConfig, node: N.Node, run: seq<Label>, first: nat, n: nat)
    requires first < n <= |run|
    ensures FaultStandsSince(cfg, node, run, first, n) <==>
              || FaultAt(cfg, node, run, n - 1)
              || (FaultStandsSince(cfg, node, run, first, n - 1) && !CleanAt(cfg, node, run, n - 1))
  {
    hide FaultAt, CleanAt;
    if FaultStandsSince(cfg, node, run, first, n - 1) && !CleanAt(cfg, node, run, n - 1) {
      var k :| first <= k < n - 1 && FaultAt(cfg, node, run, k)
            && forall m :: k < m < n - 1 ==> !CleanAt(cfg, node, run, m);
      assert forall m :: k < m < n ==> !CleanAt(cfg, node, run, m);
    }
  }

  /** Nothing that blocks recovery happened since, or it was lifted again; I/O is counted from an earlier point. */
  ghost predicate Undisturbed(cfg: SystemConfig, node: N.Node, run: seq<Label>, look: nat, first: nat, n: nat)
    requires n <= |run|
  {
    && !FailedSince(cfg, node, run, look, n) && !RefusedSince(cfg, node, run, first, n)
    && !LinkLostSince(cfg, node, run, first, n) && !FaultStandsSince(cfg, node, run, first, n)
  }

  /** From a sound look and a passed check on, the system is sound exactly as long as it is undisturbed. */
  lemma SoundExactly(cfg: SystemConfig, node: N.Node, run: seq<Label>, look: nat, first: nat, n: nat)
    requires look <= first <= n <= |run| && !HasFailed(After(cfg, node, run, look).io)
    requires var s := After(cfg, node, run, first); Recovered(s.sup, s.queue.latched)
    ensures Sound(After(cfg, node, run, n)) <==> Undisturbed(cfg, node, run, look, first, n)
  {
    hide After, FailedSince, RefusedSince, LinkLostSince, FaultStandsSince;
    RunKeeps(cfg, node, run, first);
    RunKeeps(cfg, node, run, n);
    SoundMeans(After(cfg, node, run, n));
    IoExactly(cfg, node, run, look, n);
    QueueExactly(cfg, node, run, first, n);
    LinkExactly(cfg, node, run, first, n);
    FaultExactly(cfg, node, run, first, n);
  }

  // ---------- the call in progress ----------

  /** Step i is a call's first look at the mode. */
  predicate LookedAt(cfg: SystemConfig, node: N.Node, run: seq<Label>, i: nat)
    requires i < |run|
  {
    run[i] == ClearFault && After(cfg, node, run, i).clear.NotClearing?
  }

  predicate SawFaultAt(cfg: SystemConfig, node: N.Node, run: seq<Label>, i: nat)
    requires i < |run|
  {
    LookedAt(cfg, node, run, i) && After(cfg, node, run, i).ep.rt.machine.mode.Fault?
  }

  /** Step a is the supervisor accepting the acknowledgement. */
  predicate AcceptedAt(cfg: SystemConfig, node: N.Node, run: seq<Label>, a: nat)
    requires a < |run|
  {
    var s := After(cfg, node, run, a);
    run[a] == ClearFault && s.clear.IoChecked? && Recovered(s.sup, s.queue.latched)
  }

  /** One call's steps so far: i its look at the mode, look its look at the I/O thread, a its acknowledgement. */
  ghost predicate CallSoFar(cfg: SystemConfig, node: N.Node, run: seq<Label>, n: nat, i: nat, look: nat, a: nat)
    requires n <= |run|
  {
    match After(cfg, node, run, n).clear
    case NotClearing => true
    case SawNoFault =>
      i < n && LookedAt(cfg, node, run, i) && !SawFaultAt(cfg, node, run, i) && NoClearBetween(run, i, n)
    case SawFault => i < n && SawFaultAt(cfg, node, run, i) && NoClearBetween(run, i, n)
    case IoChecked(_) =>
      && i < look < n && SawFaultAt(cfg, node, run, i) && NoClearBetween(run, i, look)
      && IoSoundAt(cfg, node, run, look) && NoClearBetween(run, look, n)
    case Acknowledged(_, _, _) => Checked(cfg, node, run, n, i, look, a)
  }

  /** The call saw the fault, then a sound I/O thread, then was acknowledged; these are all its steps before n. */
  ghost predicate Checked(cfg: SystemConfig, node: N.Node, run: seq<Label>, n: nat, i: nat, look: nat, a: nat)
    requires n <= |run|
  {
    && i < look < a < n && SawFaultAt(cfg, node, run, i) && NoClearBetween(run, i, look)
    && IoSoundAt(cfg, node, run, look) && NoClearBetween(run, look, a)
    && AcceptedAt(cfg, node, run, a) && NoClearBetween(run, a, n)
  }

  lemma OnlyClearMovesCall(cfg: SystemConfig, s: System, l: Label)
    requires l != ClearFault
    ensures Step(cfg, s, l).clear == s.clear
  {
    hide OnRuntime, N.OnFrame, Encode, Send, Consume, Sendable, NoteSent, Translate, Deliverable, Digest,
      Overflowed, CommCheck;
    match l
    case Request(e) => OnRuntimeFrame(cfg, s, Submit(e));
    case PublishStep(cmd, clock) => OnRuntimeFrame(cfg, s, PublishCall(cmd, clock));
    case TickStart(now) => OnRuntimeFrame(cfg, s, TickCall(now));
    case TickAdvance =>
      if s.todo != [] && CallOf(s.todo[0]).Some? {
        OnRuntimeFrame(cfg, s.(todo := s.todo[1..], sup := Local(s.sup, s.todo[0])), CallOf(s.todo[0]).value);
      }
    case SchedulerDies => OnRuntimeFrame(cfg, s, SchedulerExit);
    case PumpStep(clock, outcome) =>
      OnRuntimeFrame(cfg, s, ConsumeCall(clock));
      if s.pc.Noting? { OnRuntimeFrame(cfg, s, Note(s.pc.wire.sessionId, s.pc.wire.sequence, s.pc.at)); }
    case _ =>
  }

  /** What the call's own steps do to it. */
  lemma ClearMovesCall(cfg: SystemConfig, s: System)
    ensures var c := Step(cfg, s, ClearFault).clear;
            && (c.SawFault? <==> s.clear.NotClearing? && s.ep.rt.machine.mode.Fault?)
            && (c.SawNoFault? <==> s.clear.NotClearing? && !s.ep.rt.machine.mode.Fault?)
            && (c.IoChecked? <==> s.clear.SawFault? && !HasFailed(s.io))
            && (c.Acknowledged? <==> s.clear.IoChecked? && Recovered(s.sup, s.queue.latched))
  {
    hide OnRuntime;
  }

  lemma {:induction false} CallHistory(cfg: SystemConfig, node: N.Node, run: seq<Label>, n: nat)
    returns (i: nat, look: nat, a: nat)
    requires n <= |run|
    ensures CallSoFar(cfg, node, run, n, i, look, a)
    decreases n
  {
    hide Step, HasFailed, Recovered;
    i, look, a := 0, 0, 0;
    if n > 0 {
      var s := After(cfg, node, run, n - 1);
      i, look, a := CallHistory(cfg, node, run, n - 1);
      if run[n - 1] != ClearFault {
        OnlyClearMovesCall(cfg, s, run[n - 1]);
      } else {
        ClearMovesCall(cfg, s);
        match After(cfg, node, run, n).clear
        case NotClearing =>
        case SawNoFault => i := n - 1;
        case SawFault => i := n - 1;
        case IoChecked(_) => look := n - 1;
        case Acknowledged(_, _, _) => a := n - 1;
      }
    }
  }

  lemma ClearingStep(cfg: SystemConfig, s: System)
    requires s.ep.rt.machine.mode.Fault?
    ensures var mode := Step(cfg, s, ClearFault).ep.rt.machine.mode;
            if s.clear.Acknowledged? || s.clear.SawNoFault? then mode.Idle? else mode.Fault?
  {
    hide AcknowledgeClear, TraceStep;
    TraceAppliesCall(cfg.rt, s.ep, Some(Submit(FaultCleared)));
  }

  /**
   Gated recovery: whenever a clear_fault call that found the runtime in Fault passes acknowledgement at step n, no
   event has ever been refused by the queue, a node ever seen is online and the latest fault the node reported is
   zero, whatever fault code was recorded last. This call found the I/O thread sound at its look, and it is sound at n
   exactly if it did not fail since.
   */
  lemma RecoveryIsGated(cfg: SystemConfig, node: N.Node, run: seq<Label>, n: nat) returns (look: nat)
    requires n < |run|
    requires !After(cfg, node, run, n).clear.Acknowledged? && After(cfg, node, run, n + 1).clear.Acknowledged?
    ensures var s := After(cfg, node, run, n);
            && s.queue.refused == 0 && (s.sup.everSeen ==> s.sup.online) && s.log.reportedFault == 0
            && look < n && IoSoundAt(cfg, node, run, look) && NoClearBetween(run, look, n)
            && (HasFailed(s.io) <==> FailedSince(cfg, node, run, look, n))
  {
    hide Step, FailedSince;
    RunKeepsGate(cfg, node, run, n);
    AcknowledgingStep(cfg, After(cfg, node, run, n), run[n]);
    var i, a;
    i, look, a := CallHistory(cfg, node, run, n);
    IoExactly(cfg, node, run, look, n);
  }

  /**
   Gated recovery, exactly. Whenever, in any run, a clear_fault step takes the runtime out of Fault, it goes to Idle,
   and that call looked at the mode at some step i before. Either it found another mode there; then it checked
   nothing, and the system is sound now exactly if it was undisturbed ever since the start, or since i if it was sound
   there. Or it found the fault,
   then at a later step a sound I/O thread, then at a step a everything recovered. At a the I/O thread is sound exactly
   if it did not fail since the look at it, and the system is sound at the moment the fault is cleared exactly if it
   was undisturbed: no I/O failure since that look, and since a no event refused by the queue, no link lost and not
   regained, and no node fault reported and not withdrawn.
   */
  lemma RecoveryExactly(cfg: SystemConfig, node: N.Node, run: seq<Label>, n: nat)
    returns (i: nat, look: nat, a: nat)
    requires n < |run| && run[n] == ClearFault
    requires After(cfg, node, run, n).ep.rt.machine.mode.Fault?
    requires !After(cfg, node, run, n + 1).ep.rt.machine.mode.Fault?
    ensures After(cfg, node, run, n + 1).ep.rt.machine.mode.Idle?
    ensures i < n && LookedAt(cfg, node, run, i)
    ensures !SawFaultAt(cfg, node, run, i) ==>
              && NoClearBetween(run, i, n)
              && (Sound(After(cfg, node, run, n)) <==> Undisturbed(cfg, node, run, 0, 0, n))
              && (Sound(After(cfg, node, run, i)) ==>
                    (Sound(After(cfg, node, run, n)) <==> Undisturbed(cfg, node, run, i, i, n)))
    ensures SawFaultAt(cfg, node, run, i) ==>
              && Checked(cfg, node, run, n, i, look, a)
              && (HasFailed(After(cfg, node, run, a).io) <==> FailedSince(cfg, node, run, look, a))
              && (Sound(After(cfg, node, run, n)) <==> Undisturbed(cfg, node, run, look, a, n))
  {
    hide Step, Undisturbed, FailedSince;
    var s := After(cfg, node, run, n);
    ClearingStep(cfg, s);
    i, look, a := CallHistory(cfg, node, run, n);
    if s.clear.Acknowledged? {
      IoExactly(cfg, node, run, look, a);
      SoundExactly(cfg, node, run, look, a, n);
    } else {
      StartIsSound(cfg, node, run);
      SoundExactly(cfg, node, run, 0, 0, n);
      if Sound(After(cfg, node, run, i)) { SoundExactly(cfg, node, run, i, i, n); }
    }
  }

  lemma StartIsSound(cfg: SystemConfig, node: N.Node, run: seq<Label>)
    ensures Sound(After(cfg, node, run, 0))
  {
  }
}
