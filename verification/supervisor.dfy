/**
 Supervision of the one node: it drains the event queue, keeps the node's identity and
 liveness, and drives the runtime's fault path.
 */
module Supervision {
  import opened Bytes
  import opened StateMachine
  import opened RuntimeCore
  import opened RuntimeExact
  import opened Rings
  import RuntimeRuns
  import CanV1

  /** What the I/O thread queues; time 0 means the clock could not be read. */
  datatype InputEvent =
    | HeartbeatEvent(time: int, node: u8, bootId: u16, sessionId: u16)
    | StatusEvent(time: int, node: u8, sessionId: u16, ready: bool, fault: u16)
    | OutputEvent(time: int, node: u8, sessionId: u16, sequence: u16, result: CanV1.OutputResult)
    | RejectEvent(time: int, node: u8)
    | IoErrorEvent(time: int, node: u8)

  datatype SupervisorConfig = SupervisorConfig(nodeId: u8, heartbeatTimeout: int, maxEventsPerTick: nat)

  datatype Supervisor = Supervisor(
    everSeen: bool, online: bool, restartLatched: bool, overflowLatched: bool, commLoss: bool,
    bootId: u16, sessionId: u16, nodeFault: u16, lastHeartbeat: int, statusUpdates: nat)

  const UNSEEN := Supervisor(false, false, false, false, false, 0, 0, 0, 0, 0)

  /**
   One lock acquisition each: a call into the runtime, or an update of the supervisor's own
   fields. An event is digested into the actions it causes, which then run in order; other
   threads may take either lock in between.
   */
  datatype Action =
    | Escalate(code: FaultCode)
    | Report(ready: bool)
    | Acknowledge(sessionId: u16, sequence: u16, result: CanV1.OutputResult)
    | Rebind(bootId: u16, newSession: u16)
    | Stamp(time: int)

  function TimeOf(ev: InputEvent, now: int): int { if ev.time != 0 then ev.time else now }

  function Digest(cfg: SupervisorConfig, s: Supervisor, ev: InputEvent, now: int): (Supervisor, seq<Action>) {
    if ev.node != 0 && ev.node != cfg.nodeId then (s, [])
    else match ev
      case HeartbeatEvent(_, _, boot, session) =>
        if s.everSeen && (boot != s.bootId || session != s.sessionId) then
          (s, [Rebind(boot, session), Escalate(NodeFault), Stamp(TimeOf(ev, now))])
        else
          (s.(everSeen := true, online := true, bootId := boot, sessionId := session,
              lastHeartbeat := TimeOf(ev, now), commLoss := false), [])
      case StatusEvent(_, _, session, ready, fault) =>
        var restart := s.everSeen && session != 0 && session != s.sessionId;
        (s.(statusUpdates := s.statusUpdates + 1, nodeFault := fault),
         (if restart then [Rebind(s.bootId, session), Escalate(NodeFault)] else [])
         + [Report(ready)]
         + (if fault != 0 then [Escalate(NodeFault)] else []))
      case OutputEvent(_, _, session, sequence, result) => (s, [Acknowledge(session, sequence, result)])
      case RejectEvent(_, _) => (s, [])
      case IoErrorEvent(_, _) => (s, [Escalate(Internal)])
  }

  /** The supervisor's share of an action. */
  function Local(s: Supervisor, a: Action): Supervisor {
    match a
    case Rebind(boot, session) =>
      s.(bootId := boot, sessionId := session, restartLatched := true, online := true, commLoss := false)
    case Stamp(time) => s.(lastHeartbeat := time)
    case _ => s
  }

  /** The runtime's share of an action. */
  function Remote(r: State, a: Action): State {
    match a
    case Escalate(code) => RaiseFault(r, code)
    case Report(ready) => SetInterlock(r, ready)
    case Acknowledge(session, sequence, result) => Observe(r, session, sequence, result)
    case _ => r
  }

  datatype Pair = Pair(sup: Supervisor, rt: State)

  function Do(p: Pair, a: Action): Pair { Pair(Local(p.sup, a), Remote(p.rt, a)) }

  function Perform(p: Pair, todo: seq<Action>): Pair
    decreases |todo|
  {
    if todo == [] then p else Perform(Do(p, todo[0]), todo[1..])
  }

  lemma PerformOne(p: Pair, a: Action)
    ensures Perform(p, [a]) == Do(p, a)
  {
    assert [a][1..] == [];
  }

  lemma {:induction false} PerformAppend(p: Pair, first: seq<Action>, second: seq<Action>)
    ensures Perform(p, first + second) == Perform(Perform(p, first), second)
    decreases |first|
  {
    if first == [] {
      assert first + second == second;
    } else {
      assert (first + second)[1..] == first[1..] + second;
      PerformAppend(Do(p, first[0]), first[1..], second);
    }
  }

  lemma PerformTwo(p: Pair, a: Action, b: Action)
    ensures Perform(p, [a, b]) == Do(Do(p, a), b)
  {
    assert [a, b] == [a] + [b];
    PerformAppend(p, [a], [b]);
    PerformOne(p, a);
    PerformOne(Do(p, a), b);
  }

  function DigestAll(cfg: SupervisorConfig, p: Pair, ev: InputEvent, now: int): Pair {
    var (s, todo) := Digest(cfg, p.sup, ev, now);
    Perform(Pair(s, p.rt), todo)
  }

  function Overflowed(s: Supervisor, latched: bool): (Supervisor, seq<Action>) {
    if latched && !s.overflowLatched then (s.(overflowLatched := true), [Escalate(Internal)]) else (s, [])
  }

  function CommCheck(cfg: SupervisorConfig, s: Supervisor, now: int): (Supervisor, seq<Action>) {
    if !s.everSeen || !s.online || cfg.heartbeatTimeout <= 0 || now - s.lastHeartbeat < cfg.heartbeatTimeout
    then (s, [])
    else (s.(online := false, commLoss := true), if s.commLoss then [] else [Escalate(CommLoss)])
  }

  function Drain(cfg: SupervisorConfig, p: Pair, items: seq<InputEvent>, budget: nat, now: int): Pair
    decreases budget
  {
    if budget == 0 || items == [] then p
    else Drain(cfg, DigestAll(cfg, p, items[0], now), items[1..], budget - 1, now)
  }

  /** A whole supervision tick when no other thread intervenes. */
  function WholeTick(cfg: SupervisorConfig, p: Pair, q: Fifo<InputEvent>, now: int): Pair {
    var (s, todo) := Overflowed(p.sup, q.latched);
    var drained := Drain(cfg, Perform(Pair(s, p.rt), todo), q.items, cfg.maxEventsPerTick, now);
    var (s', todo') := CommCheck(cfg, drained.sup, now);
    Perform(Pair(s', drained.rt), todo')
  }

  function Remaining<T>(q: Fifo<T>, budget: nat): Fifo<T> {
    q.(items := if budget <= |q.items| then q.items[budget..] else [])
  }

  /** Everything that must hold before an operator may clear a fault. */
  predicate Recovered(s: Supervisor, queueLatched: bool) {
    && !s.overflowLatched && !queueLatched
    && !s.commLoss
    && (s.everSeen || s.statusUpdates != 0 || s.restartLatched ==> s.online)
    && s.nodeFault == 0
  }

  function AcknowledgeClear(s: Supervisor, queueLatched: bool): (Supervisor, bool) {
    if Recovered(s, queueLatched) then (s.(restartLatched := false), true) else (s, false)
  }

  class NodeSupervisor {
    const cfg: SupervisorConfig
    const queue: BoundedInputQueue<InputEvent>
    var everSeen: bool
    var online: bool
    var restartLatched: bool
    var overflowLatched: bool
    var commLoss: bool
    var bootId: u16
    var sessionId: u16
    var nodeFault: u16
    var lastHeartbeat: int
    var statusUpdates: nat

    ghost function View(): Supervisor reads this {
      Supervisor(everSeen, online, restartLatched, overflowLatched, commLoss, bootId, sessionId,
                 nodeFault, lastHeartbeat, statusUpdates)
    }

    constructor (config: SupervisorConfig, events: BoundedInputQueue<InputEvent>)
      ensures cfg == config && queue == events && View() == UNSEEN
    {
      cfg, queue := config, events;
      everSeen, online, restartLatched, overflowLatched, commLoss := false, false, false, false, false;
      bootId, sessionId, nodeFault, lastHeartbeat, statusUpdates := 0, 0, 0, 0, 0;
    }

    method AcknowledgeFaultClear() returns (ok: bool)
      requires queue.Valid()
      modifies this
      ensures (View(), ok) == AcknowledgeClear(old(View()), queue.View().latched)
    {
      if overflowLatched || queue.overflowLatched {
        return false;
      }
      if commLoss {
        return false;
      }
      if (everSeen || statusUpdates != 0 || restartLatched) && !online {
        return false;
      }
      if nodeFault != 0 {
        return false;
      }
      restartLatched := false;
      return true;
    }

    method NoteNodeRestart(runtime: LinuxRuntime, boot: u16, session: u16)
      modifies this, runtime, runtime.machine, runtime.mailbox, runtime.watchdog
      ensures View() == Local(old(View()), Rebind(boot, session))
      ensures runtime.View() == RaiseFault(old(runtime.View()), NodeFault)
      ensures runtime.machine.interlockReady == old(runtime.machine.interlockReady)
    {
      hide RaiseFault, LinuxRuntime.View;
      bootId, sessionId, restartLatched, online, commLoss := boot, session, true, true, false;
      runtime.Raise(NodeFault);
    }

    method ApplyHeartbeat(runtime: LinuxRuntime, ev: InputEvent, now: int)
      requires ev.HeartbeatEvent? && (ev.node == 0 || ev.node == cfg.nodeId)
      modifies this, runtime, runtime.machine, runtime.mailbox, runtime.watchdog
      ensures Pair(View(), runtime.View()) == DigestAll(cfg, old(Pair(View(), runtime.View())), ev, now)
      ensures runtime.machine.interlockReady == old(runtime.machine.interlockReady)
    {
      hide RaiseFault, Perform, TimeOf, LinuxRuntime.View;
      ghost var p := Pair(View(), runtime.View());
      if everSeen && (ev.bootId != bootId || ev.sessionId != sessionId) {
        NoteNodeRestart(runtime, ev.bootId, ev.sessionId);
        lastHeartbeat := TimeOf(ev, now);
        PerformThree(p, Rebind(ev.bootId, ev.sessionId), Escalate(NodeFault), Stamp(TimeOf(ev, now)));
      } else {
        everSeen, online, bootId, sessionId := true, true, ev.bootId, ev.sessionId;
        lastHeartbeat, commLoss := TimeOf(ev, now), false;
        PerformNothing(Pair(View(), runtime.View()));
      }
    }

    method ApplyStatus(runtime: LinuxRuntime, ev: InputEvent, now: int)
      requires ev.StatusEvent? && (ev.node == 0 || ev.node == cfg.nodeId)
      modifies this, runtime, runtime.machine, runtime.mailbox, runtime.watchdog
      ensures Pair(View(), runtime.View()) == DigestAll(cfg, old(Pair(View(), runtime.View())), ev, now)
      ensures runtime.machine.interlockReady == ev.ready && (!ev.ready ==> !runtime.machine.mode.Active?)
    {
      hide DigestAll, RaiseFault, SetInterlock, Local, LinuxRuntime.View;
      StatusMeans(cfg, Pair(View(), runtime.View()), ev, now);
      statusUpdates, nodeFault := statusUpdates + 1, ev.fault;
      if everSeen && ev.sessionId != 0 && ev.sessionId != sessionId {
        NoteNodeRestart(runtime, bootId, ev.sessionId);
      }
      runtime.SetInterlockReady(ev.ready);
      if ev.fault != 0 {
        runtime.Raise(NodeFault);
      }
    }

    method ApplyEvent(runtime: LinuxRuntime, ev: InputEvent, now: int)
      modifies this, runtime, runtime.machine, runtime.mailbox, runtime.watchdog
      ensures Pair(View(), runtime.View()) == DigestAll(cfg, old(Pair(View(), runtime.View())), ev, now)
      ensures runtime.machine.interlockReady
           == if ev.StatusEvent? && (ev.node == 0 || ev.node == cfg.nodeId) then ev.ready
              else old(runtime.machine.interlockReady)
    {
      hide RaiseFault, SetInterlock, Observe;
      if ev.node != 0 && ev.node != cfg.nodeId {
        return;
      }
      ghost var p := Pair(View(), runtime.View());
      match ev {
        case HeartbeatEvent(_, _, boot, session) =>
          ApplyHeartbeat(runtime, ev, now);
        case StatusEvent(_, _, session, ready, fault) =>
          ApplyStatus(runtime, ev, now);
        case OutputEvent(_, _, session, sequence, result) =>
          runtime.ObserveStatus(session, sequence, result);
          PerformOne(p, Acknowledge(session, sequence, result));
        case RejectEvent(_, _) =>
        case IoErrorEvent(_, _) =>
          runtime.Raise(Internal);
          PerformOne(p, Escalate(Internal));
      }
    }

    method ApplyOverflowFault(runtime: LinuxRuntime)
      modifies this, runtime, runtime.machine, runtime.mailbox, runtime.watchdog
      ensures var (s, todo) := Overflowed(old(View()), true);
              Pair(View(), runtime.View()) == Perform(Pair(s, old(runtime.View())), todo)
    {
      hide RaiseFault;
      if overflowLatched {
        return;
      }
      overflowLatched := true;
      PerformOne(Pair(View(), runtime.View()), Escalate(Internal));
      runtime.Raise(Internal);
    }

    method ApplyCommLoss(runtime: LinuxRuntime, now: int)
      modifies this, runtime, runtime.machine, runtime.mailbox, runtime.watchdog
      ensures var (s, todo) := CommCheck(cfg, old(View()), now);
              Pair(View(), runtime.View()) == Perform(Pair(s, old(runtime.View())), todo)
    {
      hide RaiseFault;
      if !everSeen || !online || cfg.heartbeatTimeout <= 0 || now - lastHeartbeat < cfg.heartbeatTimeout {
        return;
      }
      online := false;
      if !commLoss {
        commLoss := true;
        PerformOne(Pair(View(), runtime.View()), Escalate(CommLoss));
        runtime.Raise(CommLoss);
      }
    }

    method DrainQueue(runtime: LinuxRuntime, now: int)
      requires queue.Valid()
      modifies this, queue, runtime, runtime.machine, runtime.mailbox, runtime.watchdog
      ensures queue.Valid() && queue.View() == Remaining(old(queue.View()), cfg.maxEventsPerTick)
      ensures Pair(View(), runtime.View())
           == Drain(cfg, old(Pair(View(), runtime.View())), old(queue.View()).items, cfg.maxEventsPerTick, now)
    {
      hide DigestAll, Drain, Remaining;
      ghost var q0, p0 := queue.View(), Pair(View(), runtime.View());
      var budget := cfg.maxEventsPerTick;
      RemainingFacts(q0, 0);
      while budget > 0
        invariant 0 <= budget <= cfg.maxEventsPerTick
        invariant queue.Valid()
        invariant queue.View() == Remaining(q0, cfg.maxEventsPerTick - budget)
        invariant Drain(cfg, Pair(View(), runtime.View()), queue.View().items, budget, now)
               == Drain(cfg, p0, q0.items, cfg.maxEventsPerTick, now)
      {
        DrainUnfolds(cfg, Pair(View(), runtime.View()), queue.View().items, budget, now);
        RemainingFacts(q0, cfg.maxEventsPerTick - budget);
        var ev := queue.TryPop();
        if ev.None? {
          RemainingStays(q0, cfg.maxEventsPerTick - budget, cfg.maxEventsPerTick);
          break;
        }
        ApplyEvent(runtime, ev.value, now);
        budget := budget - 1;
      }
      DrainUnfolds(cfg, Pair(View(), runtime.View()), queue.View().items, budget, now);
    }

    method OnTick(runtime: LinuxRuntime, now: int)
      requires queue.Valid()
      modifies this, queue, runtime, runtime.machine, runtime.mailbox, runtime.watchdog
      ensures queue.Valid() && queue.View() == Remaining(old(queue.View()), cfg.maxEventsPerTick)
      ensures Pair(View(), runtime.View())
           == WholeTick(cfg, old(Pair(View(), runtime.View())), old(queue.View()), now)
    {
      hide Drain, CommCheck, Perform, Remaining;
      if queue.overflowLatched {
        ApplyOverflowFault(runtime);
      } else {
        PerformNothing(Pair(View(), runtime.View()));
      }
      DrainQueue(runtime, now);
      ApplyCommLoss(runtime, now);
    }
  }

  lemma PerformThree(p: Pair, a: Action, b: Action, c: Action)
    ensures Perform(p, [a, b, c]) == Do(Do(Do(p, a), b), c)
  {
    hide Do, Perform;
    assert [a, b, c] == [a, b] + [c];
    PerformTwo(p, a, b);
    PerformAppend(p, [a, b], [c]);
    PerformOne(Do(Do(p, a), b), c);
  }

  lemma DrainUnfolds(cfg: SupervisorConfig, p: Pair, items: seq<InputEvent>, budget: nat, now: int)
    ensures Drain(cfg, p, items, budget, now) ==
              if budget == 0 || items == [] then p
              else Drain(cfg, DigestAll(cfg, p, items[0], now), items[1..], budget - 1, now)
  {
    hide DigestAll;
  }

  lemma RemainingFacts<T>(q: Fifo<T>, n: nat)
    ensures Remaining(q, 0) == q && Remaining(q, n + 1) == Popped(Remaining(q, n))
  {
  }

  lemma RemainingStays<T>(q: Fifo<T>, m: nat, n: nat)
    requires m <= n && Remaining(q, m).items == []
    ensures Remaining(q, n) == Remaining(q, m)
  {
  }

  lemma PerformNothing(p: Pair)
    ensures Perform(p, []) == p
  {
  }

  // ---------- what each event and check does, exactly ----------

  /** An escalation as everybody sees it: the code recorded, Fault unless disabled or stopped, the path closed. */
  predicate Escalated(r: State, r': State, ready: bool, code: FaultCode) {
    && r'.machine == Machine(if r.machine.mode.Disabled? || r.machine.mode.EStop? then r.machine.mode else Fault,
                             ready, code)
    && ClosedFrom(r, r') && r'.ackTimeouts == r.ackTimeouts
  }

  lemma EscalateIs(r: State, code: FaultCode)
    requires !code.NoFault?
    ensures Escalated(r, RaiseFault(r, code), r.machine.ready, code)
  {
    hide RaiseFault;
    RaiseOf(r, code);
  }

  /** A status of this node names a session other than the known one. */
  predicate NamesNewSession(s: Supervisor, ev: InputEvent) {
    s.everSeen && ev.StatusEvent? && ev.sessionId != 0 && ev.sessionId != s.sessionId
  }

  function Perform2(p: Pair, a: Action, b: Action): Pair { Do(Do(p, a), b) }

  /**
   A status of this node. The interlock it reports is the runtime's interlock afterwards, whatever else it says. A node
   fault or a new session escalates NodeFault; otherwise a lost interlock takes Active to Hold, and nothing else moves.
   */
  lemma StatusExactly(cfg: SupervisorConfig, p: Pair, ev: InputEvent, now: int)
    requires ev.StatusEvent? && (ev.node == 0 || ev.node == cfg.nodeId)
    ensures var p' := DigestAll(cfg, p, ev, now);
            var m := p.rt.machine;
            && p'.rt.machine.ready == ev.ready && (!ev.ready ==> !p'.rt.machine.mode.Active?)
            && (if NamesNewSession(p.sup, ev) || ev.fault != 0 then Escalated(p.rt, p'.rt, ev.ready, NodeFault)
                else
                  && p'.rt.machine == (if m.mode.Active? && !ev.ready then Machine(Hold, false, InterlockOpen)
                                       else Machine(m.mode, ev.ready, m.fault))
                  && PathFollows(p.rt, p'.rt))
            && p'.sup == (if NamesNewSession(p.sup, ev)
                          then p.sup.(sessionId := ev.sessionId, restartLatched := true, online := true,
                                      commLoss := false, statusUpdates := p.sup.statusUpdates + 1,
                                      nodeFault := ev.fault)
                          else p.sup.(statusUpdates := p.sup.statusUpdates + 1, nodeFault := ev.fault))
  {
    hide RaiseFault, SetInterlock, Perform;
    var s1 := p.sup.(statusUpdates := p.sup.statusUpdates + 1, nodeFault := ev.fault);
    var q := Pair(s1, p.rt);
    var a, b, c := Rebind(p.sup.bootId, ev.sessionId), Escalate(NodeFault), Report(ev.ready);
    var restart := NamesNewSession(p.sup, ev);
    var q1 := if restart then Perform2(q, a, b) else q;
    var q2 := Do(q1, c);
    var q3 := if ev.fault != 0 then Do(q2, b) else q2;
    StatusActions(q, a, b, c, restart, ev.fault != 0);
    EscalateIs(q.rt, NodeFault);
    EscalateIs(q2.rt, NodeFault);
    InterlockOf(q1.rt, ev.ready);
  }

  /** A reported loss leaves no output path in any state that keeps the runtime's invariant. */
  lemma ReportedLossClosesPath(cfg: SupervisorConfig, p: Pair, ev: InputEvent, now: int)
    requires ev.StatusEvent? && (ev.node == 0 || ev.node == cfg.nodeId) && !ev.ready && RuntimeRuns.Inv(p.rt)
    ensures var r := DigestAll(cfg, p, ev, now).rt;
            !r.machine.mode.Active? && !r.machine.ready && RuntimeRuns.PathClosed(r)
  {
    hide DigestAll;
    StatusExactly(cfg, p, ev, now);
  }

  /** The actions of a status one after the other. */
  lemma StatusMeans(cfg: SupervisorConfig, p: Pair, ev: InputEvent, now: int)
    requires ev.StatusEvent? && (ev.node == 0 || ev.node == cfg.nodeId)
    ensures var q := Pair(p.sup.(statusUpdates := p.sup.statusUpdates + 1, nodeFault := ev.fault), p.rt);
            var q1 := if NamesNewSession(p.sup, ev)
                      then Pair(Local(q.sup, Rebind(p.sup.bootId, ev.sessionId)), RaiseFault(p.rt, NodeFault)) else q;
            var r := SetInterlock(q1.rt, ev.ready);
            DigestAll(cfg, p, ev, now) == Pair(q1.sup, if ev.fault != 0 then RaiseFault(r, NodeFault) else r)
  {
    hide Perform, RaiseFault, SetInterlock;
    var q := Pair(p.sup.(statusUpdates := p.sup.statusUpdates + 1, nodeFault := ev.fault), p.rt);
    var a, b, c := Rebind(p.sup.bootId, ev.sessionId), Escalate(NodeFault), Report(ev.ready);
    StatusActions(q, a, b, c, NamesNewSession(p.sup, ev), ev.fault != 0);
  }

  lemma StatusActions(q: Pair, a: Action, b: Action, c: Action, restart: bool, faulty: bool)
    ensures Perform(q, (if restart then [a, b] else []) + [c] + (if faulty then [b] else []))
         == (var q1 := if restart then Perform2(q, a, b) else q;
             if faulty then Do(Do(q1, c), b) else Do(q1, c))
  {
    hide Do, Perform;
    var first, last := if restart then [a, b] else [], if faulty then [b] else [];
    var q1 := if restart then Perform2(q, a, b) else q;
    PerformTwo(q, a, b);
    PerformNothing(q);
    PerformAppend(q, first, [c]);
    PerformOne(q1, c);
    PerformAppend(q, first + [c], last);
    PerformOne(Do(q1, c), b);
    PerformNothing(Do(q1, c));
  }

  /** A heartbeat carries ids other than the known node's. */
  predicate NamesNewIds(s: Supervisor, ev: InputEvent) {
    s.everSeen && ev.HeartbeatEvent? && (ev.bootId != s.bootId || ev.sessionId != s.sessionId)
  }

  /**
   A heartbeat of this node refreshes liveness, with the time it was received if the clock could be read then. Ids other
   than the known ones are a restart: latched, and escalated as NodeFault.
   */
  lemma HeartbeatExactly(cfg: SupervisorConfig, p: Pair, ev: InputEvent, now: int)
    requires ev.HeartbeatEvent? && (ev.node == 0 || ev.node == cfg.nodeId)
    ensures var p' := DigestAll(cfg, p, ev, now);
            && p'.sup == p.sup.(everSeen := true, online := true, commLoss := false, bootId := ev.bootId,
                                sessionId := ev.sessionId, lastHeartbeat := if ev.time == 0 then now else ev.time,
                                restartLatched := p.sup.restartLatched || NamesNewIds(p.sup, ev))
            && (if NamesNewIds(p.sup, ev) then Escalated(p.rt, p'.rt, p.rt.machine.ready, NodeFault) else p'.rt == p.rt)
  {
    hide RaiseFault, Perform;
    if NamesNewIds(p.sup, ev) {
      PerformThree(p, Rebind(ev.bootId, ev.sessionId), Escalate(NodeFault), Stamp(TimeOf(ev, now)));
      EscalateIs(p.rt, NodeFault);
    } else {
      PerformNothing(DigestAll(cfg, p, ev, now));
      PerformNothing(Pair(Digest(cfg, p.sup, ev, now).0, p.rt));
    }
  }

  /** The other events: answers reach the slot, I/O errors escalate, rejects and other nodes' events do nothing. */
  lemma OthersExactly(cfg: SupervisorConfig, p: Pair, ev: InputEvent, now: int)
    ensures var p', ours := DigestAll(cfg, p, ev, now), ev.node == 0 || ev.node == cfg.nodeId;
            && (!ours || ev.RejectEvent? ==> p' == p)
            && (ours && ev.IoErrorEvent? ==>
                  p'.sup == p.sup && Escalated(p.rt, p'.rt, p.rt.machine.ready, Internal))
            && (ours && ev.OutputEvent? ==>
                  p' == Pair(p.sup, Observe(p.rt, ev.sessionId, ev.sequence, ev.result)))
  {
    hide RaiseFault, Observe, Perform;
    PerformNothing(p);
    PerformOne(p, Escalate(Internal));
    EscalateIs(p.rt, Internal);
    if ev.OutputEvent? { PerformOne(p, Acknowledge(ev.sessionId, ev.sequence, ev.result)); }
  }

  /** A queue that has refused an event is escalated as Internal at the next check, once. */
  lemma OverflowExactly(p: Pair, latched: bool)
    ensures var (s, todo) := Overflowed(p.sup, latched);
            var p' := Perform(Pair(s, p.rt), todo);
            if latched && !p.sup.overflowLatched then
              p'.sup == p.sup.(overflowLatched := true) && Escalated(p.rt, p'.rt, p.rt.machine.ready, Internal)
            else p' == p
  {
    hide RaiseFault, Perform;
    PerformNothing(p);
    PerformOne(Pair(p.sup.(overflowLatched := true), p.rt), Escalate(Internal));
    EscalateIs(p.rt, Internal);
  }

  /** A known, online node silent for a full timeout goes offline, and the loss is escalated unless already latched. */
  lemma CommLossExactly(cfg: SupervisorConfig, p: Pair, now: int)
    ensures var (s, todo) := CommCheck(cfg, p.sup, now);
            var p' := Perform(Pair(s, p.rt), todo);
            if p.sup.everSeen && p.sup.online && 0 < cfg.heartbeatTimeout <= now - p.sup.lastHeartbeat then
              && p'.sup == p.sup.(online := false, commLoss := true)
              && (if p.sup.commLoss then p'.rt == p.rt
                  else Escalated(p.rt, p'.rt, p.rt.machine.ready, CommLoss))
            else p' == p
  {
    hide RaiseFault, Perform;
    var lost := Pair(p.sup.(online := false, commLoss := true), p.rt);
    PerformNothing(p);
    PerformNothing(lost);
    PerformOne(lost, Escalate(CommLoss));
    EscalateIs(p.rt, CommLoss);
  }
}
