/**
 Whole runs of the runtime: any sequence of critical sections, in any order the threads
 happen to take the lock, starting from a started runtime.
 */
module RuntimeRuns {
  import opened Bytes
  import opened StateMachine
  import opened RuntimeCore
  import CanV1

  datatype Call =
    | Submit(event: Event)
    | Raise(code: FaultCode)
    | Interlock(ready: bool)
    | PublishCall(cmd: OutputCommand, now: Option<int>)
    | ConsumeCall(now: Option<int>)
    | Note(session: u16, sequence: u16, time: int)
    | Status(session: u16, sequence: u16, result: CanV1.OutputResult)
    | TickCall(t: int)
    | SchedulerExit
    | StopCall

  function Apply(cfg: Config, r: State, c: Call): State {
    match c
    case Submit(e) => HandleEvent(r, e).0
    case Raise(code) => RaiseFault(r, code)
    case Interlock(ready) => SetInterlock(r, ready)
    case PublishCall(cmd, now) => Publish(r, cmd, now).0
    case ConsumeCall(now) => Consume(r, now).0
    case Note(session, sequence, time) => NoteSent(r, session, sequence, time).0
    case Status(session, sequence, result) => Observe(r, session, sequence, result)
    case TickCall(t) => Tick(cfg, r, t)
    case SchedulerExit => r.(running := false)
    case StopCall => Stopped(r)
  }

  /** The state after the first n calls. */
  function At(cfg: Config, calls: seq<Call>, n: nat): State
    requires n <= |calls|
  {
    if n == 0 then INITIAL_STATE else Apply(cfg, At(cfg, calls, n - 1), calls[n - 1])
  }

  // ---------- the output-path invariant ----------

  /** Nothing of a command survives outside Active. */
  predicate PathClosed(r: State) {
    r.mailbox.slot.None? && r.session.None? && r.lastSequence == 0 && !r.ackPending && !r.dog.armed
  }

  predicate Inv(r: State) {
    && (!r.machine.mode.Active? ==> PathClosed(r))
    && (r.machine.mode.Active? ==> r.machine.ready && r.machine.fault.NoFault?)
    && (r.machine.mode.Hold? ==> Resumable(r.machine.fault))
    && (r.mailbox.slot.Some? ==>
          && r.session == Some(r.mailbox.slot.value.session)
          && r.lastSequence == r.mailbox.slot.value.sequence
          && r.dog.armed)
    && !r.dog.expired
    && (r.session.None? ==> r.lastSequence == 0 && !r.ackPending)
    && (r.session.Some? ==> r.lastSequence > 0)
    && (r.ackPending ==>
          r.sentSession != 0 && r.sentSequence != 0 && r.session.value % 0x1_0000 == r.sentSession)
    && r.mailbox.published >= r.mailbox.consumed + r.mailbox.dropped + (if r.mailbox.slot.Some? then 1 else 0)
  }

  lemma SubmitKeepsInv(r: State, e: Event)
    requires Inv(r)
    ensures Inv(HandleEvent(r, e).0)
  {
    hide Handle;
    MachineFacts(r.machine, e);
  }

  lemma RaiseKeepsInv(r: State, code: FaultCode)
    requires Inv(r)
    ensures Inv(RaiseFault(r, code))
  {
    hide Handle;
    MachineFacts(r.machine.(fault := code), FaultDetected);
  }

  lemma InterlockKeepsInv(r: State, ready: bool)
    requires Inv(r)
    ensures Inv(SetInterlock(r, ready))
  {
    hide Handle;
    MachineFacts(r.machine, if ready then InterlockReady else InterlockLost);
  }

  lemma TickKeepsInv(cfg: Config, r: State, t: int)
    requires Inv(r)
    ensures Inv(Tick(cfg, r, t))
  {
    hide Handle;
    MachineFacts(r.machine.(fault := AckTimeout), HoldRequest);
    MachineFacts(r.machine, CommandTimeout);
  }

  lemma CallKeepsInv(cfg: Config, r: State, c: Call)
    requires Inv(r)
    ensures Inv(Apply(cfg, r, c))
  {
    hide HandleEvent, RaiseFault, SetInterlock, Tick;
    match c
    case Submit(e) => SubmitKeepsInv(r, e);
    case Raise(code) => RaiseKeepsInv(r, code);
    case Interlock(ready) => InterlockKeepsInv(r, ready);
    case TickCall(t) => TickKeepsInv(cfg, r, t);
    case _ =>
  }

  lemma MachineFacts(m: Machine, e: Event)
    ensures var o := Handle(m, e);
            && (o.accepted <==> Accepts(m, e))
            && (o.accepted ==> o.machine.mode == Target(m, e))
            && (!o.accepted ==> o.machine == m)
            && o.machine.ready == (if Informative(e) then e.InterlockReady? else m.ready)
            && (o.machine.mode.Active? ==> (m.mode.Active? && o.machine.fault == m.fault) || o.machine.fault.NoFault?)
            && (o.machine.mode.Hold? ==>
                  (m.mode.Hold? && o.machine.fault == m.fault) || (m.mode.Active? &&
                    o.machine.fault ==
                      if e.CommandTimeout? then Watchdog else if e.InterlockLost? then InterlockOpen else m.fault))
  {
    HandleFollowsTable(m, e);
    FaultAfter(m, e);
  }

  /**
   Output-path invariant of every reachable state: outside Active the path is empty, unbound,
   unacknowledged and unwatched; in Active the interlock is ready and no fault is recorded; a
   full mailbox holds the bound session and the last admitted sequence under an armed,
   unexpired watchdog; Hold only ever carries a fault that Resume acknowledges.
   */
  lemma {:induction false} EveryStateKeepsInv(cfg: Config, calls: seq<Call>, n: nat)
    requires n <= |calls|
    ensures Inv(At(cfg, calls, n))
  {
    if n > 0 {
      EveryStateKeepsInv(cfg, calls, n - 1);
      CallKeepsInv(cfg, At(cfg, calls, n - 1), calls[n - 1]);
    }
  }

  // ---------- episodes: from one entry into Active to the next ----------

  /** A command admitted in this episode, and the clock sample it was admitted with. */
  datatype Admitted = Admitted(cmd: OutputCommand, at: int)

  /** The runtime with what this episode admitted and which of those, by position, were consumed. */
  datatype Traced = Traced(rt: State, admitted: seq<Admitted>, taken: seq<nat>)

  const START := Traced(INITIAL_STATE, [], [])

  predicate Enters(before: State, after: State) { !before.machine.mode.Active? && after.machine.mode.Active? }

  function TraceStep(cfg: Config, t: Traced, c: Call): Traced {
    var rt := Apply(cfg, t.rt, c);
    if Enters(t.rt, rt) then Traced(rt, [], [])
    else match c
      case PublishCall(cmd, now) =>
        if Publish(t.rt, cmd, now).1 then t.(rt := rt, admitted := t.admitted + [Admitted(cmd, now.value)])
        else t.(rt := rt)
      case ConsumeCall(now) =>
        if Consume(t.rt, now).1.Some? && t.admitted != []
        then t.(rt := rt, taken := t.taken + [|t.admitted| - 1])
        else t.(rt := rt)
      case _ => t.(rt := rt)
  }

  function Trace(cfg: Config, calls: seq<Call>, n: nat): Traced
    requires n <= |calls|
  {
    if n == 0 then START else TraceStep(cfg, Trace(cfg, calls, n - 1), calls[n - 1])
  }

  function Newest(t: Traced): Admitted
    requires t.admitted != []
  {
    t.admitted[|t.admitted| - 1]
  }

  ghost predicate EpisodeInv(t: Traced) {
    && Inv(t.rt)
    && (forall i, j :: 0 <= i < j < |t.admitted| ==> t.admitted[i].cmd.sequence < t.admitted[j].cmd.sequence)
    && (forall i, j :: 0 <= i < j < |t.taken| ==> t.taken[i] < t.taken[j])
    && (forall i :: 0 <= i < |t.taken| ==> t.taken[i] < |t.admitted|)
    && (t.rt.machine.mode.Active? ==>
          && (t.rt.session.Some? <==> t.admitted != [])
          && (t.admitted != [] ==> t.rt.lastSequence == Newest(t).cmd.sequence))
    && (t.rt.mailbox.slot.Some? ==>
          && t.admitted != [] && t.rt.mailbox.slot.value == Newest(t).cmd
          && t.rt.dog.lastKick == Newest(t).at
          && (t.taken != [] ==> t.taken[|t.taken| - 1] < |t.admitted| - 1))
  }

  /** What a call other than publish and consume does to the episode's commands: keep them or clear them. */
  predicate Frame(r: State, r': State) {
    && (r'.machine.mode.Active? ==>
          r.machine.mode.Active? && r'.session == r.session && r'.lastSequence == r.lastSequence)
    && (r'.mailbox.slot.Some? ==> r'.mailbox.slot == r.mailbox.slot && r'.dog.lastKick == r.dog.lastKick)
  }

  lemma OtherCallsFrame(cfg: Config, r: State, c: Call)
    requires Inv(r) && !c.PublishCall? && !c.ConsumeCall? && !Enters(r, Apply(cfg, r, c))
    ensures Frame(r, Apply(cfg, r, c))
  {
    hide Handle;
    match c
    case Submit(e) => MachineFacts(r.machine, e);
    case Raise(code) => MachineFacts(r.machine.(fault := code), FaultDetected);
    case Interlock(ready) => MachineFacts(r.machine, if ready then InterlockReady else InterlockLost);
    case TickCall(t) =>
      MachineFacts(r.machine.(fault := AckTimeout), HoldRequest);
      MachineFacts(r.machine, CommandTimeout);
    case _ =>
  }

  lemma EnteringClears(cfg: Config, r: State, c: Call)
    requires Inv(r) && Enters(r, Apply(cfg, r, c))
    ensures PathClosed(Apply(cfg, r, c))
  {
    OnlyActivationEntersActive(cfg, r, c);
  }

  lemma StepKeepsEpisode(cfg: Config, t: Traced, c: Call)
    requires EpisodeInv(t)
    ensures EpisodeInv(TraceStep(cfg, t, c))
  {
    hide Apply;
    CallKeepsInv(cfg, t.rt, c);
    if !c.PublishCall? && !c.ConsumeCall? {
      if !Enters(t.rt, Apply(cfg, t.rt, c)) {
        OtherCallsFrame(cfg, t.rt, c);
      } else {
        EnteringClears(cfg, t.rt, c);
      }
    } else if c.PublishCall? {
      PublishKeepsEpisode(cfg, t, c);
    } else {
      ConsumeKeepsEpisode(cfg, t, c);
    }
  }

  lemma PublishKeepsEpisode(cfg: Config, t: Traced, c: Call)
    requires EpisodeInv(t) && c.PublishCall? && Inv(Apply(cfg, t.rt, c))
    ensures EpisodeInv(TraceStep(cfg, t, c))
  {
    var t' := TraceStep(cfg, t, c);
    if !Publish(t.rt, c.cmd, c.now).1 {
      assert t' == t;
    } else {
      assert t'.admitted == t.admitted + [Admitted(c.cmd, c.now.value)] && t'.taken == t.taken;
      assert Newest(t') == Admitted(c.cmd, c.now.value);
    }
  }

  lemma SlotIsNewest(t: Traced)
    requires EpisodeInv(t)
    ensures t.rt.mailbox.slot.Some? ==> t.rt.machine.mode.Active? && t.admitted != []
  {
  }

  lemma ConsumeFacts(r: State, now: Option<int>)
    ensures var (r', out) := Consume(r, now);
            && r'.machine == r.machine && r'.session == r.session && r'.lastSequence == r.lastSequence
            && (r'.mailbox.slot.Some? ==> r' == r && out.None?)
            && (out.Some? ==> out == r.mailbox.slot && now.Some? && now.value < out.value.deadline)
  {
  }

  lemma ConsumeKeepsEpisode(cfg: Config, t: Traced, c: Call)
    requires EpisodeInv(t) && c.ConsumeCall? && Inv(Apply(cfg, t.rt, c))
    ensures EpisodeInv(TraceStep(cfg, t, c))
  {
    hide Consume, Inv;
    ConsumeFacts(t.rt, c.now);
    SlotIsNewest(t);
    var t' := TraceStep(cfg, t, c);
    assert t'.admitted == t.admitted;
    if Consume(t.rt, c.now).1.Some? {
      assert t'.taken == t.taken + [|t.admitted| - 1] && t'.rt.mailbox.slot.None?;
    } else {
      assert t'.taken == t.taken && (t'.rt.mailbox.slot.Some? ==> t'.rt == t.rt);
    }
  }

  lemma {:induction false} EveryEpisodeKeepsInv(cfg: Config, calls: seq<Call>, n: nat)
    requires n <= |calls|
    ensures EpisodeInv(Trace(cfg, calls, n)) && Trace(cfg, calls, n).rt == At(cfg, calls, n)
  {
    hide Apply, TraceStep, EpisodeInv;
    if n == 0 {
      StartIsValid();
    } else {
      EveryEpisodeKeepsInv(cfg, calls, n - 1);
      StepKeepsEpisode(cfg, Trace(cfg, calls, n - 1), calls[n - 1]);
      TraceApplies(cfg, Trace(cfg, calls, n - 1), calls[n - 1]);
    }
  }

  lemma StartIsValid()
    ensures EpisodeInv(START)
  {
  }

  lemma TraceApplies(cfg: Config, t: Traced, c: Call)
    ensures TraceStep(cfg, t, c).rt == Apply(cfg, t.rt, c)
  {
    hide Apply, Publish, Consume;
  }

  /**
   Consumption order, over every run: the commands consumed in the current episode are a
   subsequence of those admitted in it, in strictly increasing sequence order; and a command
   handed out by the next call is the newest one admitted, was never handed out before, and
   has not expired at that moment.
   */
  lemma ConsumedInOrder(cfg: Config, calls: seq<Call>, n: nat, now: Option<int>)
    requires n <= |calls|
    ensures var t := Trace(cfg, calls, n);
            && (forall i, j :: 0 <= i < j < |t.taken| ==>
                  && t.taken[i] < t.taken[j] < |t.admitted|
                  && t.admitted[t.taken[i]].cmd.sequence < t.admitted[t.taken[j]].cmd.sequence)
            && var out := Consume(t.rt, now).1;
               (out.Some? ==>
                 && t.admitted != [] && out.value == Newest(t).cmd
                 && (forall i :: 0 <= i < |t.taken| ==>
                       t.taken[i] < |t.admitted| && t.admitted[t.taken[i]].cmd.sequence < out.value.sequence)
                 && now.Some? && now.value < out.value.deadline)
  {
    hide Consume, Inv, Trace;
    EveryEpisodeKeepsInv(cfg, calls, n);
    var t := Trace(cfg, calls, n);
    var out := Consume(t.rt, now).1;
    ConsumeFacts(t.rt, now);
    if out.Some? && t.taken != [] {
      forall i | 0 <= i < |t.taken| ensures t.taken[i] < |t.admitted| - 1 {
        if i < |t.taken| - 1 { assert t.taken[i] < t.taken[|t.taken| - 1]; }
      }
    }
  }

  // ---------- bounded response ----------

  /**
   Whenever a tick at time t leaves the runtime Active: a pending acknowledgement is younger
   than the acknowledgement timeout, an unconsumed command was admitted less than the command
   timeout ago. And a tick never charges both timeouts: if it counted an acknowledgement
   timeout, it ended in Hold with exactly that fault.
   */
  lemma TickBoundsResponse(cfg: Config, calls: seq<Call>, n: nat, t: int)
    requires n <= |calls| && cfg.commandTimeout > 0 && cfg.ackTimeout > 0
    ensures var before := Trace(cfg, calls, n);
            var after := Tick(cfg, before.rt, t);
            && (after.machine.mode.Active? ==>
                  && (after.ackPending ==> t - after.sentTime < cfg.ackTimeout)
                  && (after.mailbox.slot.Some? ==>
                        && before.admitted != [] && after.mailbox.slot.value == Newest(before).cmd
                        && t - Newest(before).at < cfg.commandTimeout))
            && after.ackTimeouts <= before.rt.ackTimeouts + 1
            && (after.ackTimeouts == before.rt.ackTimeouts + 1 ==>
                  after.machine.mode.Hold? && after.machine.fault.AckTimeout?)
            && (after.machine.mode.Hold? && after.machine.fault.Watchdog? && before.rt.machine.mode.Active? ==>
                  after.ackTimeouts == before.rt.ackTimeouts)
  {
    EveryEpisodeKeepsInv(cfg, calls, n);
  }

  // ---------- safety of whole event runs ----------

  lemma OnlyActivationEntersActive(cfg: Config, r: State, c: Call)
    requires Enters(r, Apply(cfg, r, c))
    ensures c == Submit(ActivateRequest) && r.machine.mode.Idle? && r.machine.ready && r.running
  {
    hide Handle;
    match c
    case Submit(e) => MachineFacts(r.machine, e);
    case Raise(code) => MachineFacts(r.machine.(fault := code), FaultDetected);
    case Interlock(ready) => MachineFacts(r.machine, if ready then InterlockReady else InterlockLost);
    case TickCall(t) =>
      MachineFacts(r.machine.(fault := AckTimeout), HoldRequest);
      MachineFacts(r.machine, CommandTimeout);
    case _ =>
  }

  /** Call i opened the output path, from Idle with the interlock ready and the scheduler running. */
  predicate OpenedAt(cfg: Config, calls: seq<Call>, i: nat)
    requires i < |calls|
  {
    && calls[i] == Submit(ActivateRequest)
    && At(cfg, calls, i).machine.mode.Idle? && At(cfg, calls, i).machine.ready && At(cfg, calls, i).running
  }

  /** Active at every point after call i, up to n. */
  ghost predicate ActiveSince(cfg: Config, calls: seq<Call>, i: nat, n: nat)
    requires i <= n <= |calls|
  {
    forall k :: i < k <= n ==> At(cfg, calls, k).machine.mode.Active?
  }

  /** Every Active state goes back, without leaving Active, to an accepted activation from Idle. */
  lemma {:induction false} ActiveHasAnOrigin(cfg: Config, calls: seq<Call>, n: nat)
    requires n <= |calls| && At(cfg, calls, n).machine.mode.Active?
    ensures exists i :: 0 <= i < n && OpenedAt(cfg, calls, i) && ActiveSince(cfg, calls, i, n)
  {
    if At(cfg, calls, n - 1).machine.mode.Active? {
      ActiveHasAnOrigin(cfg, calls, n - 1);
      var i :| 0 <= i < n - 1 && OpenedAt(cfg, calls, i) && ActiveSince(cfg, calls, i, n - 1);
      assert ActiveSince(cfg, calls, i, n);
    } else {
      OnlyActivationEntersActive(cfg, At(cfg, calls, n - 1), calls[n - 1]);
      assert OpenedAt(cfg, calls, n - 1) && ActiveSince(cfg, calls, n - 1, n);
    }
  }

  /** Call i released a latched emergency stop: a reset with the interlock ready, or the end of the run. */
  predicate ReleasedAt(cfg: Config, calls: seq<Call>, i: nat)
    requires i < |calls|
  {
    && At(cfg, calls, i).machine.mode.EStop?
    && (calls[i].StopCall? || (calls[i] == Submit(EStopReset) && At(cfg, calls, i).machine.ready))
  }

  lemma OnlyResetLeavesEStop(cfg: Config, r: State, c: Call)
    requires r.machine.mode.EStop? && !Apply(cfg, r, c).machine.mode.EStop?
    ensures c.StopCall? || (c == Submit(EStopReset) && r.machine.ready)
  {
    hide Handle;
    match c
    case Submit(e) => MachineFacts(r.machine, e);
    case Raise(code) => MachineFacts(r.machine.(fault := code), FaultDetected);
    case Interlock(ready) => MachineFacts(r.machine, if ready then InterlockReady else InterlockLost);
    case _ =>
  }

  /** A latched emergency stop holds until some call between the two points releases it. */
  lemma {:induction false} EStopHoldsUntilReset(cfg: Config, calls: seq<Call>, first: nat, last: nat)
    requires first <= last <= |calls|
    requires At(cfg, calls, first).machine.mode.EStop? && !At(cfg, calls, last).machine.mode.EStop?
    ensures exists i :: first <= i < last && ReleasedAt(cfg, calls, i)
    decreases last
  {
    if At(cfg, calls, last - 1).machine.mode.EStop? {
      OnlyResetLeavesEStop(cfg, At(cfg, calls, last - 1), calls[last - 1]);
      assert ReleasedAt(cfg, calls, last - 1);
    } else {
      EStopHoldsUntilReset(cfg, calls, first, last - 1);
    }
  }

  /** In every reachable Hold, Resume is accepted exactly when the interlock is ready, and leads to Idle. */
  lemma ResumeExactlyWhenReady(cfg: Config, calls: seq<Call>, n: nat)
    requires n <= |calls| && At(cfg, calls, n).machine.mode.Hold?
    ensures var r := At(cfg, calls, n);
            && (HandleEvent(r, Resume).1 <==> r.machine.ready)
            && (r.machine.ready ==> HandleEvent(r, Resume).0.machine == Machine(Idle, true, NoFault))
  {
    EveryStateKeepsInv(cfg, calls, n);
  }
}
