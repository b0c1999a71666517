/** The daemon's operator calls, and the proof that the objects' methods are runs of the protocol. */
module Daemon {
  import opened Bytes
  import opened CanV1
  import opened StateMachine
  import opened RuntimeCore
  import opened RuntimeRuns
  import opened Rings
  import opened Supervision
  import opened CanIo
  import opened Protocol

  /** A whole clear_fault call when no other thread intervenes. */
  function WholeClear(io: Io, p: Pair, latched: bool): (Pair, bool) {
    if !p.rt.machine.mode.Fault? then
      var (rt, ok) := HandleEvent(p.rt, FaultCleared); (Pair(p.sup, rt), ok)
    else if HasFailed(io) then (p, false)
    else
      var (sup, ok) := AcknowledgeClear(p.sup, latched);
      if !ok then (p, false)
      else var (rt, cleared) := HandleEvent(p.rt, FaultCleared); (Pair(sup, rt), cleared)
  }

  class RuntimeDaemon {
    const runtime: LinuxRuntime
    const supervisor: NodeSupervisor
    const io: CanIoLoop

    constructor (rt: LinuxRuntime, sup: NodeSupervisor, loop: CanIoLoop)
      ensures runtime == rt && supervisor == sup && io == loop
    {
      runtime, supervisor, io := rt, sup, loop;
    }

    /** Booting twice is harmless: an idle daemon reports success and stays idle. */
    method Boot() returns (accepted: bool)
      modifies runtime, runtime.machine, runtime.mailbox, runtime.watchdog
      ensures if old(runtime.machine.mode).Idle? then accepted && runtime.View() == old(runtime.View())
              else (runtime.View(), accepted) == HandleEvent(old(runtime.View()), Event.Boot)
    {
      if runtime.machine.mode.Idle? {
        return true;
      }
      var t := runtime.Submit(Event.Boot);
      return t.accepted;
    }

    method ClearFault() returns (accepted: bool)
      requires supervisor.queue.Valid()
      modifies supervisor, runtime, runtime.machine, runtime.mailbox, runtime.watchdog
      ensures (Pair(supervisor.View(), runtime.View()), accepted)
           == WholeClear(io.View(), old(Pair(supervisor.View(), runtime.View())), supervisor.queue.View().latched)
    {
      hide HandleEvent;
      if !runtime.machine.mode.Fault? {
        var t := runtime.Submit(FaultCleared);
        return t.accepted;
      }
      if io.reason.IoError? || io.reason.SendFailure? {
        return false;
      }
      var recovered := supervisor.AcknowledgeFaultClear();
      if !recovered {
        return false;
      }
      var t := runtime.Submit(FaultCleared);
      return t.accepted;
    }
  }

  /** Without interference, clear_fault leaves Fault exactly when everything it must check has recovered. */
  lemma UninterruptedClearIsExact(io: Io, p: Pair, latched: bool)
    requires p.rt.machine.mode.Fault?
    ensures var (p', ok) := WholeClear(io, p, latched);
            && (ok <==> !HasFailed(io) && Recovered(p.sup, latched))
            && (ok ==> p'.rt.machine == Machine(Idle, p.rt.machine.ready, NoFault) && !p'.sup.restartLatched)
            && (!ok ==> p' == p)
  {
  }

  /** It is the run of its four steps. */
  lemma WholeClearIsARun(cfg: SystemConfig, s: System)
    requires s.clear.NotClearing?
    ensures var s1 := ClearStep(cfg, s);
            var s2 := if s1.clear.NotClearing? then s1 else ClearStep(cfg, s1);
            var s3 := if s2.clear.NotClearing? then s2 else ClearStep(cfg, s2);
            var s4 := if s3.clear.NotClearing? then s3 else ClearStep(cfg, s3);
            && s4.clear.NotClearing?
            && Pair(s4.sup, s4.ep.rt) == WholeClear(s.io, Pair(s.sup, s.ep.rt), s.queue.latched).0
  {
    hide HandleEvent, AcknowledgeClear;
  }

  // ---------- a supervision tick ----------

  /** k further steps of the periodic thread. */
  function Advance(cfg: SystemConfig, s: System, k: nat): System
    decreases k
  {
    if k == 0 then s else Advance(cfg, Step(cfg, s, TickAdvance), k - 1)
  }

  lemma {:induction false} AdvanceFurther(cfg: SystemConfig, s: System, j: nat, k: nat)
    ensures Advance(cfg, Advance(cfg, s, j), k) == Advance(cfg, s, j + k)
    decreases j
  {
    hide Step;
    if j > 0 { AdvanceFurther(cfg, Step(cfg, s, TickAdvance), j - 1, k); }
  }

  function PairOf(s: System): Pair { Pair(s.sup, s.ep.rt) }

  /** What a step of the periodic thread outside the queue keeps. */
  predicate SameQueue(s: System, s': System) { s'.queue == s.queue && s'.phase == s.phase }

  lemma ActionIsDo(cfg: SystemConfig, s: System)
    requires s.todo != []
    ensures var s' := Step(cfg, s, TickAdvance);
            PairOf(s') == Do(PairOf(s), s.todo[0]) && SameQueue(s, s') && s'.todo == s.todo[1..]
  {
    hide RaiseFault, SetInterlock, Observe;
  }

  lemma {:induction false} FinishTodo(cfg: SystemConfig, s: System)
    ensures var s' := Advance(cfg, s, |s.todo|);
            PairOf(s') == Perform(PairOf(s), s.todo) && SameQueue(s, s') && s'.todo == []
    decreases |s.todo|
  {
    hide Step, Do;
    if s.todo != [] {
      ActionIsDo(cfg, s);
      FinishTodo(cfg, Step(cfg, s, TickAdvance));
    }
  }

  lemma {:induction false} FinishDrain(cfg: SystemConfig, s: System) returns (k: nat)
    requires s.todo == [] && s.phase.Draining?
    ensures var s' := Advance(cfg, s, k);
            && s'.todo == [] && s'.phase == CheckComm(s.phase.now)
            && s'.queue == Remaining(s.queue, s.phase.budget)
            && PairOf(s') == Drain(cfg.sup, PairOf(s), s.queue.items, s.phase.budget, s.phase.now)
    decreases s.phase.budget
  {
    hide Perform, Digest;
    var s1 := Step(cfg, s, TickAdvance);
    if s.phase.budget == 0 || s.queue.items == [] {
      k := 1;
      assert Advance(cfg, s, 1) == Advance(cfg, s1, 0) == s1;
    } else {
      hide Step;
      DrainStep(cfg, s);
      var n := |s1.todo|;
      FinishTodo(cfg, s1);
      var s2 := Advance(cfg, s1, n);
      var j := FinishDrain(cfg, s2);
      AdvanceFurther(cfg, s1, n, j);
      k := 1 + n + j;
      assert Advance(cfg, s, k) == Advance(cfg, s1, n + j);
      assert s2.queue == Popped(s.queue);
      assert s2.queue.items == s.queue.items[1..];
    }
  }

  lemma DrainStep(cfg: SystemConfig, s: System)
    requires s.todo == [] && s.phase.Draining? && s.phase.budget > 0 && s.queue.items != []
    ensures var s1 := Step(cfg, s, TickAdvance);
            && s1.phase == Draining(s.phase.now, s.phase.budget - 1) && s1.queue == Popped(s.queue)
            && s1.ep == s.ep
            && (s1.sup, s1.todo) == Digest(cfg.sup, s.sup, s.queue.items[0], s.phase.now)
  {
    hide Digest;
  }

  /**
   A supervision tick that no other thread interrupts is a run of the protocol: some number of
   periodic-thread steps computes exactly what the supervisor object's OnTick computes.
   */
  lemma WholeTickIsARun(cfg: SystemConfig, s: System, now: int) returns (k: nat)
    requires s.phase.Resting? && s.todo == [] && s.ep.rt.running
    ensures var s' := Advance(cfg, Step(cfg, s, TickStart(now)), k);
            && s'.phase.Resting? && s'.todo == []
            && s'.queue == Remaining(s.queue, cfg.sup.maxEventsPerTick)
            && PairOf(s') == WholeTick(cfg.sup, Pair(s.sup, Tick(cfg.rt, s.ep.rt, now)), s.queue, now)
  {
    hide Step, Tick, Drain, CommCheck, Overflowed, Perform, Remaining;
    TickOpens(cfg, s, now);
    var s0 := Step(cfg, s, TickStart(now));
    var s1 := Step(cfg, s0, TickAdvance);
    var n1 := |s1.todo|;
    FinishTodo(cfg, s1);
    var s2 := Advance(cfg, s1, n1);
    var j := FinishDrain(cfg, s2);
    var s3 := Advance(cfg, s2, j);
    CommStep(cfg, s3);
    var s4 := Step(cfg, s3, TickAdvance);
    var n2 := |s4.todo|;
    FinishTodo(cfg, s4);
    k := 1 + n1 + (j + (1 + n2));
    OneMore(cfg, s3, n2);
    AdvanceFurther(cfg, s2, j, 1 + n2);
    AdvanceFurther(cfg, s1, n1, j + (1 + n2));
    OneMore(cfg, s0, n1 + (j + (1 + n2)));
  }

  lemma OneMore(cfg: SystemConfig, s: System, k: nat)
    ensures Advance(cfg, s, 1 + k) == Advance(cfg, Step(cfg, s, TickAdvance), k)
  {
    hide Step;
  }

  lemma TickOpens(cfg: SystemConfig, s: System, now: int)
    requires s.phase.Resting? && s.todo == [] && s.ep.rt.running
    ensures var s0 := Step(cfg, s, TickStart(now));
            var s1 := Step(cfg, s0, TickAdvance);
            && s1.phase == Draining(now, cfg.sup.maxEventsPerTick) && s1.queue == s.queue
            && s1.ep.rt == Tick(cfg.rt, s.ep.rt, now)
            && (s1.sup, s1.todo) == Overflowed(s.sup, s.queue.latched)
  {
    hide Tick, Overflowed;
  }

  lemma CommStep(cfg: SystemConfig, s: System)
    requires s.phase.CheckComm? && s.todo == []
    ensures var s1 := Step(cfg, s, TickAdvance);
            && s1.phase.Resting? && s1.queue == s.queue && s1.ep == s.ep
            && (s1.sup, s1.todo) == CommCheck(cfg.sup, s.sup, s.phase.now)
  {
    hide CommCheck;
  }

  // ---------- a pump call ----------

  /** One more pump step, unless the call is over. */
  function PumpOn(cfg: SystemConfig, s: System, clock: Option<int>, outcome: SendOutcome): System {
    if s.pc.AtRest? then s else Pump(cfg, s, clock, outcome)
  }

  /** The frame of a command that went out. */
  function OnBus(wire: Option<WireCommand>): set<CanFrame> { if wire.Some? then {FrameOf(wire.value)} else {} }

  lemma SendAndNoteIsARun(cfg: SystemConfig, s: System, t3: Option<int>, outcome: SendOutcome)
    requires s.pc.Sending? && s.io.pending.Some?
    ensures var s' := PumpOn(cfg, Pump(cfg, s, t3, outcome), t3, outcome);
            var whole := SendAndTrack(Loop(s.io, s.ep.rt, s.queue), s.io.pending.value, cfg.sup.nodeId, t3, outcome);
            && s'.pc.AtRest?
            && Loop(s'.io, s'.ep.rt, s'.queue) == whole.0 && s'.down == s.down + OnBus(whole.1)
  {
    hide Send, NoteSent, Enqueue;
    SentHasTime(s.io, s.io.pending.value, cfg.sup.nodeId, t3, outcome);
  }

  /** A pump call that no other thread interrupts is a run of the protocol, frame included. */
  lemma WholePumpIsARun(cfg: SystemConfig, s: System,
                        t1: Option<int>, t2: Option<int>, t3: Option<int>, outcome: SendOutcome)
    requires s.pc.AtRest? && !s.io.stopRequested
    ensures var s1 := Pump(cfg, s, t1, outcome);
            var s2 := PumpOn(cfg, s1, t2, outcome);
            var s3 := PumpOn(cfg, s2, t3, outcome);
            var s4 := PumpOn(cfg, s3, t3, outcome);
            var whole := WholePump(Loop(s.io, s.ep.rt, s.queue), cfg.sup.nodeId, t1, t2, t3, outcome);
            && s4.pc.AtRest?
            && Loop(s4.io, s4.ep.rt, s4.queue) == whole.0 && s4.down == s.down + OnBus(whole.1)
  {
    hide Consume, Sendable, SendAndTrack, Send, NoteSent, Enqueue;
    var s1 := Pump(cfg, s, t1, outcome);
    if s1.pc.Checking? {
      var s2 := Pump(cfg, s1, t2, outcome);
      if s2.pc.Sending? { SendAndNoteIsARun(cfg, s2, t3, outcome); }
    }
  }

  // ---------- a wake-up of the receive side ----------

  ghost predicate AllDeliverable(cfg: SystemConfig, s: System, inbox: seq<Reading>) {
    forall i :: 0 <= i < |inbox| && inbox[i].Got? ==> Deliverable(cfg, s, inbox[i].frame)
  }

  lemma ReceiveStep(cfg: SystemConfig, s: System, f: CanFrame, now: int)
    requires s.pc.AtRest? && !s.io.stopRequested && Deliverable(cfg, s, f)
    ensures Step(cfg, s, Receive(f, now)) == s.(queue := Enqueue(s.queue, Translate(cfg.sup.nodeId, f, now)))
  {
    hide Deliverable, Translate;
  }

  lemma ReadFailStep(cfg: SystemConfig, s: System, now: int)
    requires s.pc.AtRest? && !HasFailed(s.io)
    ensures Step(cfg, s, IoFails(true, now))
         == s.(io := s.io.(stopRequested := true, reason := IoError),
               queue := Push(s.queue, IoErrorEvent(now, cfg.sup.nodeId)))
  {
  }

  /** Handling a readable socket is a run of receive steps, ended by a failure step if a read fails. */
  lemma {:induction false} ReadsAreARun(cfg: SystemConfig, s: System, inbox: seq<Reading>, budget: nat)
    returns (labels: seq<Label>)
    requires s.pc.AtRest? && (HasFailed(s.io) ==> s.io.stopRequested) && AllDeliverable(cfg, s, inbox)
    ensures var (io, q) := Reads(s.io, s.queue, cfg.sup.nodeId, inbox, budget);
            Steps(cfg, s, labels) == s.(io := io, queue := q)
    decreases budget
  {
    hide Step, Deliverable, Translate;
    if budget == 0 || s.io.stopRequested || inbox == [] || inbox[0].NoFrame? {
      labels := [];
    } else if inbox[0].ReadFailed? {
      ReadFailStep(cfg, s, inbox[0].now);
      labels := [IoFails(true, inbox[0].now)];
      assert labels[1..] == [];
    } else {
      var first := Receive(inbox[0].frame, inbox[0].now);
      ReceiveStep(cfg, s, inbox[0].frame, inbox[0].now);
      var s1 := Step(cfg, s, first);
      SameBus(cfg, s, s1, inbox);
      var rest := ReadsAreARun(cfg, s1, inbox[1..], budget - 1);
      labels := [first] + rest;
      assert labels[1..] == rest;
    }
  }

  lemma SameBus(cfg: SystemConfig, s: System, s1: System, inbox: seq<Reading>)
    requires AllDeliverable(cfg, s, inbox) && s1.up == s.up && inbox != []
    ensures AllDeliverable(cfg, s1, inbox[1..])
  {
    hide SpokenByNode;
  }
}
