/** The order in which commands reach the bus within one Active episode. */
module SendOrder {
  import opened Bytes
  import opened CanV1
  import opened StateMachine
  import opened RuntimeCore
  import opened RuntimeRuns
  import opened Rings
  import opened Supervision
  import opened CanIo
  import opened Protocol
  import opened Acknowledgements
  import N = NodeLogic

  /** The command most recently handed to the I/O thread in this episode. */
  function LastTaken(t: Traced): OutputCommand
    requires t.taken != [] && t.taken[|t.taken| - 1] < |t.admitted|
  {
    t.admitted[t.taken[|t.taken| - 1]].cmd
  }

  predicate HasTaken(t: Traced) { t.taken != [] && t.taken[|t.taken| - 1] < |t.admitted| }

  /** Sequence q belongs to a command consumed in this episode. */
  predicate WasTaken(t: Traced, q: nat) {
    exists i :: 0 <= i < |t.taken| && t.taken[i] < |t.admitted| && t.admitted[t.taken[i]].cmd.sequence == q
  }

  ghost predicate Increasing(s: seq<nat>) { forall i, j :: 0 <= i < j < |s| ==> s[i] < s[j] }

  /** While an episode that began with nothing pending lasts, sends follow consumption. */
  ghost predicate Follows(s: System) {
    s.log.cleanStart && s.ep.rt.machine.mode.Active? ==>
      && Increasing(s.log.sent)
      && (forall k :: 0 <= k < |s.log.sent| ==> WasTaken(s.ep, s.log.sent[k]))
      && (s.io.pending.Some? ==> HasTaken(s.ep) && s.io.pending.value == LastTaken(s.ep))
      && (s.log.sent != [] ==>
            HasTaken(s.ep) && s.log.sent[|s.log.sent| - 1] <= LastTaken(s.ep).sequence)
      && (s.log.sent != [] && s.io.pending.Some? && !s.pc.Noting? ==>
            s.log.sent[|s.log.sent| - 1] < LastTaken(s.ep).sequence)
  }

  /** A call that neither publishes nor consumes keeps the episode's history, or opens a new episode. */
  lemma OtherCallKeepsFollows(cfg: SystemConfig, s: System, call: Call)
    requires Follows(s) && !call.ConsumeCall? && !call.PublishCall?
    ensures Follows(OnRuntime(cfg, s, call))
  {
    hide Apply;
  }

  lemma PublishKeepsFollows(cfg: SystemConfig, s: System, call: Call)
    requires Follows(s) && call.PublishCall?
    ensures Follows(OnRuntime(cfg, s, call))
  {
    hide Publish;
    var s' := OnRuntime(cfg, s, call);
    PublishKeepsMode(s.ep.rt, call.cmd, call.now);
    forall k | 0 <= k < |s'.log.sent| && s.log.cleanStart && s.ep.rt.machine.mode.Active?
      ensures WasTaken(s'.ep, s'.log.sent[k])
    {
      TakenStays(s.ep, s'.ep, s.log.sent[k]);
    }
  }

  lemma PublishKeepsMode(r: State, cmd: OutputCommand, now: Option<int>)
    ensures Publish(r, cmd, now).0.machine == r.machine
  {
  }

  lemma TakenStays(t: Traced, t': Traced, q: nat)
    requires t.admitted <= t'.admitted && t.taken <= t'.taken && WasTaken(t, q)
    ensures WasTaken(t', q)
  {
    var i :| 0 <= i < |t.taken| && t.taken[i] < |t.admitted| && t.admitted[t.taken[i]].cmd.sequence == q;
    assert t'.taken[i] == t.taken[i] && t'.admitted[t'.taken[i]].cmd.sequence == q;
  }

  /** The pump's first step consumes at most the newest admitted command and sends nothing. */
  lemma FetchFacts(cfg: SystemConfig, s: System, clock: Option<int>, outcome: SendOutcome)
    requires EpisodeInv(s.ep) && s.pc.AtRest? && !s.io.stopRequested
    ensures var s', got := Pump(cfg, s, clock, outcome), Consume(s.ep.rt, clock).1;
            && s'.log == s.log && s'.ep.rt.machine == s.ep.rt.machine && s'.ep.admitted == s.ep.admitted
            && (s'.pc.AtRest? || s'.pc.Checking?)
            && s'.io.pending == (if got.Some? then got else s.io.pending)
            && (got.None? ==> s'.ep.taken == s.ep.taken)
            && (got.Some? ==> s.ep.admitted != [] && got.value == Newest(s.ep).cmd)
            && (got.Some? ==> s'.ep.taken == s.ep.taken + [|s.ep.admitted| - 1])
            && (got.Some? && s.ep.taken != [] ==> s.ep.taken[|s.ep.taken| - 1] < |s.ep.admitted| - 1)
  {
    hide Consume, Inv;
    ConsumeFacts(s.ep.rt, clock);
    SlotIsNewest(s.ep);
  }

  lemma NewestGrows(t: Traced)
    requires EpisodeInv(t) && HasTaken(t) && t.taken[|t.taken| - 1] < |t.admitted| - 1
    ensures LastTaken(t).sequence < Newest(t).cmd.sequence
  {
    hide Inv;
  }

  lemma ConsumeKeepsFollows(cfg: SystemConfig, s: System, clock: Option<int>, outcome: SendOutcome)
    requires Follows(s) && EpisodeInv(s.ep)
    requires s.pc.AtRest? && !s.io.stopRequested
    ensures Follows(Pump(cfg, s, clock, outcome))
  {
    hide Consume, Pump, EpisodeInv, WasTaken;
    FetchFacts(cfg, s, clock, outcome);
    var s', got := Pump(cfg, s, clock, outcome), Consume(s.ep.rt, clock).1;
    if s.log.cleanStart && s.ep.rt.machine.mode.Active? {
      forall k | 0 <= k < |s'.log.sent| ensures WasTaken(s'.ep, s'.log.sent[k]) {
        TakenStays(s.ep, s'.ep, s.log.sent[k]);
      }
      if got.Some? && s.log.sent != [] { NewestGrows(s.ep); }
    }
  }

  lemma SendKeepsFollows(cfg: SystemConfig, s: System, clock: Option<int>, outcome: SendOutcome)
    requires Follows(s) && s.pc.Sending? && s.io.pending.Some?
    ensures Follows(Pump(cfg, s, clock, outcome))
  {
    hide Send;
    var cmd := s.io.pending.value;
    SendFacts(s.io, cmd, cfg.sup.nodeId, clock, outcome);
    if s.log.cleanStart && s.ep.rt.machine.mode.Active? {
      var i := |s.ep.taken| - 1;
      assert s.ep.admitted[s.ep.taken[i]].cmd.sequence == cmd.sequence;
      assert WasTaken(s.ep, cmd.sequence);
    }
  }

  lemma SendFacts(io: Io, cmd: OutputCommand, node: u8, now: Option<int>, outcome: SendOutcome)
    requires io.pending == Some(cmd)
    ensures var d := Send(io, cmd, node, now, outcome);
            && (d.io.pending.Some? ==> d.io.pending == io.pending)
            && (d.wire.Some? ==> d.io.pending == io.pending)
  {
  }

  lemma NoteKeepsFollows(cfg: SystemConfig, s: System, clock: Option<int>, outcome: SendOutcome)
    requires Follows(s) && s.pc.Noting?
    ensures Follows(Pump(cfg, s, clock, outcome))
  {
    hide NoteSent;
    NoteKeepsMode(s.ep.rt, s.pc.wire.sessionId, s.pc.wire.sequence, s.pc.at);
  }

  lemma NoteKeepsMode(r: State, session: u16, sequence: u16, time: int)
    ensures NoteSent(r, session, sequence, time).0.machine == r.machine
  {
  }

  lemma CheckKeepsFollows(cfg: SystemConfig, s: System, clock: Option<int>, outcome: SendOutcome)
    requires Follows(s) && (s.pc.Checking? || (s.pc.Sending? && s.io.pending.None?))
    ensures Follows(Pump(cfg, s, clock, outcome))
  {
    hide Sendable;
  }

  lemma StoppedPump(cfg: SystemConfig, s: System, clock: Option<int>, outcome: SendOutcome)
    requires s.pc.AtRest? && s.io.stopRequested
    ensures Pump(cfg, s, clock, outcome) == s
  {
  }

  lemma PumpKeepsFollows(cfg: SystemConfig, s: System, clock: Option<int>, outcome: SendOutcome)
    requires Follows(s) && EpisodeInv(s.ep)
    ensures Follows(Pump(cfg, s, clock, outcome))
  {
    hide EpisodeInv, Pump, Follows;
    match s.pc
    case AtRest =>
      if s.io.stopRequested { StoppedPump(cfg, s, clock, outcome); }
      else { ConsumeKeepsFollows(cfg, s, clock, outcome); }
    case Checking => CheckKeepsFollows(cfg, s, clock, outcome);
    case Sending =>
      if s.io.pending.Some? { SendKeepsFollows(cfg, s, clock, outcome); }
      else { CheckKeepsFollows(cfg, s, clock, outcome); }
    case Noting(_, _) => NoteKeepsFollows(cfg, s, clock, outcome);
  }

  /** Steps that leave the episode, the pump and the sends alone. */
  predicate SameSends(s: System, s': System) {
    && s'.ep == s.ep && s'.pc == s.pc && s'.io.pending == s.io.pending
    && s'.log.sent == s.log.sent && s'.log.cleanStart == s.log.cleanStart
  }

  lemma SameSendsKeepsFollows(s: System, s': System)
    requires Follows(s) && SameSends(s, s')
    ensures Follows(s')
  {
  }

  lemma TickKeepsFollows(cfg: SystemConfig, s: System)
    requires Follows(s)
    ensures Follows(Step(cfg, s, TickAdvance))
  {
    hide Follows, OnRuntime, Digest, Overflowed, CommCheck;
    if s.todo != [] {
      var s1 := s.(todo := s.todo[1..], sup := Local(s.sup, s.todo[0]));
      SameSendsKeepsFollows(s, s1);
      if CallOf(s.todo[0]).Some? { OtherCallKeepsFollows(cfg, s1, CallOf(s.todo[0]).value); }
    } else {
      SameSendsKeepsFollows(s, NextPhase(cfg, s));
    }
  }

  lemma StepKeepsFollows(cfg: SystemConfig, s: System, l: Label)
    requires Follows(s) && EpisodeInv(s.ep)
    ensures Follows(Step(cfg, s, l))
  {
    hide EpisodeInv, Follows, OnRuntime, Pump, NextPhase, DoNext, N.OnFrame, Encode, Translate, Deliverable,
      AcknowledgeClear;
    match l
    case Request(e) => OtherCallKeepsFollows(cfg, s, Submit(e));
    case PublishStep(cmd, clock) => PublishKeepsFollows(cfg, s, PublishCall(cmd, clock));
    case ClearFault =>
      OtherCallKeepsFollows(cfg, s, Submit(FaultCleared));
      ClearFrame(cfg, s);
    case TickStart(now) =>
      OtherCallKeepsFollows(cfg, s, TickCall(now));
      var ticked := OnRuntime(cfg, s, TickCall(now));
      SameSendsKeepsFollows(ticked, ticked.(phase := CheckOverflow(now)));
    case TickAdvance => TickKeepsFollows(cfg, s);
    case SchedulerDies => OtherCallKeepsFollows(cfg, s, SchedulerExit);
    case PumpStep(clock, outcome) => PumpKeepsFollows(cfg, s, clock, outcome);
    case _ => SameSendsKeepsFollows(s, Step(cfg, s, l));
  }

  lemma ClearFrame(cfg: SystemConfig, s: System)
    requires Follows(s) && Follows(OnRuntime(cfg, s, Submit(FaultCleared)))
    ensures Follows(ClearStep(cfg, s))
  {
    hide Follows, OnRuntime, AcknowledgeClear;
    var moved := OnRuntime(cfg, s, Submit(FaultCleared));
    if s.clear.SawNoFault? || s.clear.Acknowledged? {
      SameSendsKeepsFollows(moved, ClearStep(cfg, s));
    } else {
      SameSendsKeepsFollows(s, ClearStep(cfg, s));
    }
  }

  /**
   Send order: along every run, in an Active episode that began with nothing pending in the
   I/O thread, the sequences put on the bus are those of commands consumed in that episode,
   in strictly increasing order.
   */
  lemma {:induction false} SentInOrder(cfg: SystemConfig, node: N.Node, run: seq<Label>, n: nat)
    requires n <= |run|
    ensures Follows(After(cfg, node, run, n))
    ensures var s := After(cfg, node, run, n);
            s.log.cleanStart && s.ep.rt.machine.mode.Active? ==>
              && Increasing(s.log.sent)
              && forall k :: 0 <= k < |s.log.sent| ==> WasTaken(s.ep, s.log.sent[k])
  {
    hide Step, EpisodeInv;
    if n > 0 {
      SentInOrder(cfg, node, run, n - 1);
      RuntimeStaysValid(cfg, node, run, n - 1);
      StepKeepsFollows(cfg, After(cfg, node, run, n - 1), run[n - 1]);
    }
  }

  // ---------- episodes that begin with a command still pending ----------

  /** The episode as if it had begun cleanly after its first k sends. */
  function Shifted(s: System, k: nat): System
    requires k <= |s.log.sent|
  {
    s.(log := s.log.(cleanStart := true, sent := s.log.sent[k..]))
  }

  ghost predicate FollowsFrom(s: System, k: nat) { k <= |s.log.sent| && Follows(Shifted(s, k)) }

  /** The command left over from an earlier episode is still pending, and nothing of this episode was consumed. */
  predicate Leftover(s: System) {
    s.io.pending.Some? && s.ep.taken == [] && (s.log.sent == [] || (|s.log.sent| == 1 && s.pc.Noting?))
  }

  ghost predicate AlmostFollows(s: System) {
    s.ep.rt.machine.mode.Active? ==> Leftover(s) || FollowsFrom(s, 0) || FollowsFrom(s, 1)
  }

  /** A call within an episode does not look at what the episode has sent. */
  lemma CallCommutes(cfg: SystemConfig, s: System, call: Call, k: nat)
    requires k <= |s.log.sent| && !Enters(s.ep.rt, OnRuntime(cfg, s, call).ep.rt)
    ensures OnRuntime(cfg, s, call).log == s.log
    ensures OnRuntime(cfg, Shifted(s, k), call) == Shifted(OnRuntime(cfg, s, call), k)
  {
    hide TraceStep;
  }

  lemma PumpCommutes(cfg: SystemConfig, s: System, clock: Option<int>, outcome: SendOutcome, k: nat)
    requires k <= |s.log.sent| && !Enters(s.ep.rt, Pump(cfg, s, clock, outcome).ep.rt)
    ensures var s' := Pump(cfg, s, clock, outcome);
            && k <= |s'.log.sent| && Pump(cfg, Shifted(s, k), clock, outcome) == Shifted(s', k)
  {
    hide OnRuntime, Consume, Sendable, Send, NoteSent, Enqueue;
    match s.pc
    case AtRest => if !s.io.stopRequested { CallCommutes(cfg, s, ConsumeCall(clock), k); }
    case Checking =>
    case Sending =>
      if s.io.pending.Some? {
        assert (s.log.sent + [s.io.pending.value.sequence])[k..] == s.log.sent[k..] + [s.io.pending.value.sequence];
      }
    case Noting(wire, at) => CallCommutes(cfg, s, Note(wire.sessionId, wire.sequence, at), k);
  }

  /** Outside the pump, a step within an episode leaves pump, pending command and sends alone. */
  lemma BesidePump(cfg: SystemConfig, s: System, l: Label)
    requires !l.PumpStep?
    ensures var s' := Step(cfg, s, l);
            && s'.pc == s.pc && s'.io.pending == s.io.pending
            && (!Enters(s.ep.rt, s'.ep.rt) ==> s'.log.sent == s.log.sent)
            && (Enters(s.ep.rt, s'.ep.rt) ==> s'.log.sent == [])
  {
    hide TraceStep, Digest, Encode, N.OnFrame, Translate, AcknowledgeClear, Overflowed, CommCheck, Deliverable;
  }

  lemma OtherCallsBesidePump(cfg: SystemConfig, s: System, l: Label)
    requires !l.PumpStep?
    ensures CallMade(cfg, s, l).Some? ==> !CallMade(cfg, s, l).value.ConsumeCall?
  {
  }

  lemma StepKeepsShifted(cfg: SystemConfig, s: System, l: Label, k: nat)
    requires FollowsFrom(s, k) && EpisodeInv(s.ep) && !Enters(s.ep.rt, Step(cfg, s, l).ep.rt)
    ensures FollowsFrom(Step(cfg, s, l), k)
  {
    hide Follows, EpisodeInv, TraceStep;
    var t, s' := Shifted(s, k), Step(cfg, s, l);
    if l.PumpStep? {
      hide Pump;
      PumpCommutes(cfg, s, l.clock, l.outcome, k);
      PumpKeepsFollows(cfg, t, l.clock, l.outcome);
    } else {
      hide Step;
      BesidePump(cfg, s, l);
      StepMakesOneCall(cfg, s, l);
      OtherCallsBesidePump(cfg, s, l);
      var call := CallMade(cfg, s, l);
      if call.None? {
        SameSendsKeepsFollows(t, Shifted(s', k));
      } else {
        if call.value.PublishCall? { PublishKeepsFollows(cfg, t, call.value); }
        else { OtherCallKeepsFollows(cfg, t, call.value); }
        CallTraces(cfg, t, call.value);
        SameSendsKeepsFollows(OnRuntime(cfg, t, call.value), Shifted(s', k));
      }
    }
  }

  lemma CallTraces(cfg: SystemConfig, s: System, call: Call)
    ensures var s' := OnRuntime(cfg, s, call);
            && s'.ep == TraceStep(cfg.rt, s.ep, call) && s'.pc == s.pc && s'.io == s.io
            && (!Enters(s.ep.rt, s'.ep.rt) ==> s'.log == s.log)
  {
    hide TraceStep;
  }

  lemma EmptyFollows(s: System)
    requires s.log.sent == [] && s.io.pending.None?
    ensures FollowsFrom(s, 0)
  {
  }

  lemma FetchKeepsLeftover(cfg: SystemConfig, s: System, clock: Option<int>, outcome: SendOutcome)
    requires Leftover(s) && EpisodeInv(s.ep) && s.pc.AtRest? && !s.io.stopRequested
    ensures var s' := Pump(cfg, s, clock, outcome); Leftover(s') || FollowsFrom(s', 0)
  {
    hide Pump, EpisodeInv;
    FetchFacts(cfg, s, clock, outcome);
  }

  lemma NoteEndsLeftover(cfg: SystemConfig, s: System, clock: Option<int>, outcome: SendOutcome)
    requires Leftover(s) && s.pc.Noting?
    ensures var s' := Pump(cfg, s, clock, outcome); FollowsFrom(s', 0) || FollowsFrom(s', 1)
  {
    hide OnRuntime, NoteSent, WasTaken;
    CallTraces(cfg, s, Note(s.pc.wire.sessionId, s.pc.wire.sequence, s.pc.at));
    NoteKeepsMode(s.ep.rt, s.pc.wire.sessionId, s.pc.wire.sequence, s.pc.at);
  }

  lemma SendKeepsLeftover(cfg: SystemConfig, s: System, clock: Option<int>, outcome: SendOutcome)
    requires Leftover(s) && (s.pc.Checking? || s.pc.Sending?)
    ensures var s' := Pump(cfg, s, clock, outcome); Leftover(s') || FollowsFrom(s', 0)
  {
    hide Send, Sendable, Enqueue, Follows;
    if s.pc.Sending? { SendFacts(s.io, s.io.pending.value, cfg.sup.nodeId, clock, outcome); }
    var s' := Pump(cfg, s, clock, outcome);
    if s'.io.pending.None? { EmptyFollows(s'); }
  }

  /** The pump gives the leftover up for a newer command, drops it, or sends it as the episode's first. */
  lemma PumpKeepsLeftover(cfg: SystemConfig, s: System, clock: Option<int>, outcome: SendOutcome)
    requires Leftover(s) && EpisodeInv(s.ep)
    ensures var s' := Pump(cfg, s, clock, outcome); Leftover(s') || FollowsFrom(s', 0) || FollowsFrom(s', 1)
  {
    hide Pump, FollowsFrom, EpisodeInv;
    match s.pc
    case AtRest =>
      if s.io.stopRequested { StoppedPump(cfg, s, clock, outcome); }
      else { FetchKeepsLeftover(cfg, s, clock, outcome); }
    case Noting(_, _) => NoteEndsLeftover(cfg, s, clock, outcome);
    case _ => SendKeepsLeftover(cfg, s, clock, outcome);
  }

  lemma OtherCallTakesNothing(cfg: Config, t: Traced, c: Call)
    requires !c.ConsumeCall?
    ensures var t' := TraceStep(cfg, t, c); t'.taken == if Enters(t.rt, t'.rt) then [] else t.taken
  {
    hide Apply, Publish;
  }

  lemma PumpEntersNothing(cfg: SystemConfig, s: System, clock: Option<int>, outcome: SendOutcome)
    ensures Pump(cfg, s, clock, outcome).ep.rt.machine == s.ep.rt.machine
  {
    hide OnRuntime, Consume, NoteSent, Send, Sendable, Enqueue;
    if s.pc.AtRest? {
      CallTraces(cfg, s, ConsumeCall(clock));
      TraceApplies(cfg.rt, s.ep, ConsumeCall(clock));
      ConsumeFacts(s.ep.rt, clock);
    } else if s.pc.Noting? {
      var call := Note(s.pc.wire.sessionId, s.pc.wire.sequence, s.pc.at);
      CallTraces(cfg, s, call);
      TraceApplies(cfg.rt, s.ep, call);
      NoteKeepsMode(s.ep.rt, s.pc.wire.sessionId, s.pc.wire.sequence, s.pc.at);
    }
  }

  lemma LeftoverStep(cfg: SystemConfig, s: System, l: Label)
    requires EpisodeInv(s.ep) && Step(cfg, s, l).ep.rt.machine.mode.Active?
    requires Leftover(s) || Enters(s.ep.rt, Step(cfg, s, l).ep.rt)
    ensures AlmostFollows(Step(cfg, s, l))
  {
    hide EpisodeInv, FollowsFrom, TraceStep;
    if l.PumpStep? {
      hide Pump;
      PumpEntersNothing(cfg, s, l.clock, l.outcome);
      PumpKeepsLeftover(cfg, s, l.clock, l.outcome);
    } else {
      hide Step;
      BesidePump(cfg, s, l);
      StepMakesOneCall(cfg, s, l);
      OtherCallsBesidePump(cfg, s, l);
      if CallMade(cfg, s, l).Some? { OtherCallTakesNothing(cfg.rt, s.ep, CallMade(cfg, s, l).value); }
      if Step(cfg, s, l).io.pending.None? { EmptyFollows(Step(cfg, s, l)); }
    }
  }

  lemma StepAlmostFollows(cfg: SystemConfig, s: System, l: Label)
    requires AlmostFollows(s) && EpisodeInv(s.ep)
    ensures AlmostFollows(Step(cfg, s, l))
  {
    hide EpisodeInv, FollowsFrom, Step;
    var s' := Step(cfg, s, l);
    if s'.ep.rt.machine.mode.Active? {
      if Leftover(s) || Enters(s.ep.rt, s'.ep.rt) { LeftoverStep(cfg, s, l); }
      else if FollowsFrom(s, 0) { StepKeepsShifted(cfg, s, l, 0); }
      else { StepKeepsShifted(cfg, s, l, 1); }
    }
  }

  lemma StartAlmostFollows(cfg: SystemConfig, node: N.Node)
    ensures AlmostFollows(Initial(cfg, node))
  {
    hide FollowsFrom;
  }

  lemma {:induction false} RunAlmostFollows(cfg: SystemConfig, node: N.Node, run: seq<Label>, n: nat)
    requires n <= |run|
    ensures AlmostFollows(After(cfg, node, run, n))
  {
    hide Step, AlmostFollows, EpisodeInv;
    if n == 0 {
      StartAlmostFollows(cfg, node);
    } else {
      RunAlmostFollows(cfg, node, run, n - 1);
      RuntimeStaysValid(cfg, node, run, n - 1);
      StepAlmostFollows(cfg, After(cfg, node, run, n - 1), run[n - 1]);
    }
  }

  /**
   Send order without a clean start: along every run, in every Active episode, all sends but possibly the first are of
   commands consumed in that episode, in strictly increasing order. So the episode's sends are in order exactly if the
   first is below the second.
   */
  lemma OnlyFirstOutOfOrder(cfg: SystemConfig, node: N.Node, run: seq<Label>, n: nat)
    requires n <= |run|
    ensures var s := After(cfg, node, run, n);
            s.ep.rt.machine.mode.Active? ==>
              && (forall k :: 0 < k < |s.log.sent| ==> WasTaken(s.ep, s.log.sent[k]))
              && (Increasing(s.log.sent) <==> |s.log.sent| < 2 || s.log.sent[0] < s.log.sent[1])
  {
    hide After, WasTaken;
    RunAlmostFollows(cfg, node, run, n);
    var s := After(cfg, node, run, n);
    if s.ep.rt.machine.mode.Active? {
      if FollowsFrom(s, 0) { RestFollows(s, 0); }
      else if FollowsFrom(s, 1) { RestFollows(s, 1); }
    }
  }

  lemma RestFollows(s: System, k: nat)
    requires s.ep.rt.machine.mode.Active? && FollowsFrom(s, k) && k <= 1
    ensures forall i :: 0 < i < |s.log.sent| ==> WasTaken(s.ep, s.log.sent[i])
    ensures Increasing(s.log.sent) <==> |s.log.sent| < 2 || s.log.sent[0] < s.log.sent[1]
  {
    hide WasTaken;
    var sent := s.log.sent;
    forall i | k <= i < |sent| ensures WasTaken(s.ep, sent[i]) { assert sent[k..][i - k] == sent[i]; }
    forall i, j | k <= i < j < |sent| ensures sent[i] < sent[j] {
      assert sent[k..][i - k] == sent[i] && sent[k..][j - k] == sent[j];
    }
  }
}
