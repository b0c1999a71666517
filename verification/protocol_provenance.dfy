/** Where the frames on the bus come from: nothing reaches the node that admission did not accept. */
module Provenance {
  import opened Bytes
  import opened CanV1
  import opened StateMachine
  import opened RuntimeCore
  import opened RuntimeRuns
  import opened Rings
  import opened Supervision
  import opened CanIo
  import opened Protocol
  import opened Acknowledgements
  import N = NodeLogic

  /** The command that a step gets admitted, if any. */
  function AdmittedIn(s: System, l: Label): set<OutputCommand> {
    if l.PublishStep? && Publish(s.ep.rt, l.cmd, l.clock).1 then {l.cmd} else {}
  }

  /** All commands that publish_output_command accepted in the first n steps. */
  function AdmittedBy(cfg: SystemConfig, node: N.Node, run: seq<Label>, n: nat): set<OutputCommand>
    requires n <= |run|
  {
    if n == 0 then {}
    else AdmittedBy(cfg, node, run, n - 1) + AdmittedIn(After(cfg, node, run, n - 1), run[n - 1])
  }

  function WireFrame(cfg: SystemConfig, c: OutputCommand, t: int): Option<CanFrame> {
    var wire := ToWire(c, cfg.sup.nodeId, t);
    if wire.Ok? then Some(FrameOf(wire.value)) else None
  }

  predicate Traceable(s: System, admitted: set<OutputCommand>) {
    && (s.ep.rt.mailbox.slot.Some? ==> s.ep.rt.mailbox.slot.value in admitted)
    && (s.io.pending.Some? ==> s.io.pending.value in admitted)
  }

  lemma SlotComesFromPublish(cfg: Config, r: State, c: Call)
    ensures var slot := Apply(cfg, r, c).mailbox.slot;
            || slot.None? || slot == r.mailbox.slot
            || (c.PublishCall? && Publish(r, c.cmd, c.now).1 && slot == Some(c.cmd))
  {
    hide Handle;
  }

  lemma ConsumedWasInSlot(r: State, now: Option<int>)
    ensures Consume(r, now).1.Some? ==> Consume(r, now).1 == r.mailbox.slot
  {
  }

  lemma RuntimeStepKeepsSlot(cfg: SystemConfig, s: System, l: Label)
    ensures var slot := Step(cfg, s, l).ep.rt.mailbox.slot;
            slot.Some? ==> slot == s.ep.rt.mailbox.slot || slot.value in AdmittedIn(s, l)
  {
    hide Step, Publish, Apply;
    StepMakesOneCall(cfg, s, l);
    var call := CallMade(cfg, s, l);
    TraceAppliesCall(cfg.rt, s.ep, call);
    if call.Some? { SlotComesFromPublish(cfg.rt, s.ep.rt, call.value); }
  }

  /** Only the pump touches what is pending and what is on the bus. */
  lemma OnlyPumpSends(cfg: SystemConfig, s: System, l: Label)
    requires !l.PumpStep?
    ensures Step(cfg, s, l).io.pending == s.io.pending && Step(cfg, s, l).down == s.down
  {
    hide TraceStep, Consume, NoteSent, Sendable, Send, Digest, Encode, Decode, N.OnFrame, Translate, AcknowledgeClear,
      Overflowed, CommCheck;
  }

  /** The step puts the wire form of c, made at time t, on the bus as f. */
  predicate Sends(cfg: SystemConfig, s: System, l: Label, c: OutputCommand, t: int, f: CanFrame) {
    && l == PumpStep(Some(t), Sent) && s.pc.Sending? && s.io.pending == Some(c)
    && WireFrame(cfg, c, t) == Some(f)
  }

  lemma PumpSendsPending(cfg: SystemConfig, s: System, clock: Option<int>, outcome: SendOutcome)
    ensures var s' := Pump(cfg, s, clock, outcome);
            && (s'.io.pending.Some? ==> s'.io.pending == s.io.pending || s'.io.pending == s.ep.rt.mailbox.slot)
            && (forall f :: f in s'.down && f !in s.down ==>
                  && s.io.pending.Some? && clock.Some?
                  && Sends(cfg, s, PumpStep(clock, outcome), s.io.pending.value, clock.value, f))
  {
    hide OnRuntime, Consume, NoteSent, Sendable, ToWire, Encode, FrameOf;
    ConsumedWasInSlot(s.ep.rt, clock);
    if s.pc.AtRest? {
      OnRuntimeFrame(cfg, s, ConsumeCall(clock));
    } else if s.pc.Noting? {
      OnRuntimeFrame(cfg, s, Note(s.pc.wire.sessionId, s.pc.wire.sequence, s.pc.at));
    }
  }

  lemma StepKeepsTraceable(cfg: SystemConfig, s: System, l: Label, admitted: set<OutputCommand>)
    requires Traceable(s, admitted)
    ensures Traceable(Step(cfg, s, l), admitted + AdmittedIn(s, l))
  {
    hide AdmittedIn;
    RuntimeStepKeepsSlot(cfg, s, l);
    if l.PumpStep? {
      hide Pump, Sends;
      PumpSendsPending(cfg, s, l.clock, l.outcome);
    } else {
      OnlyPumpSends(cfg, s, l);
      hide Step;
    }
  }

  lemma {:induction false} RunKeepsTraceable(cfg: SystemConfig, node: N.Node, run: seq<Label>, n: nat)
    requires n <= |run|
    ensures Traceable(After(cfg, node, run, n), AdmittedBy(cfg, node, run, n))
  {
    hide Step, AdmittedIn;
    if n > 0 {
      RunKeepsTraceable(cfg, node, run, n - 1);
      StepKeepsTraceable(cfg, After(cfg, node, run, n - 1), run[n - 1], AdmittedBy(cfg, node, run, n - 1));
    }
  }

  /** Step j sent f as the wire form of c, with clock sample t. */
  predicate SentAt(cfg: SystemConfig, node: N.Node, run: seq<Label>, j: nat, c: OutputCommand, t: int, f: CanFrame)
    requires j < |run|
  {
    Sends(cfg, After(cfg, node, run, j), run[j], c, t, f)
  }

  /** Every frame on the bus was sent at some step, for a command admitted before that step. */
  lemma {:induction false} EveryFrameWasSent(cfg: SystemConfig, node: N.Node, run: seq<Label>, n: nat, f: CanFrame)
    returns (j: nat, c: OutputCommand, t: int)
    requires n <= |run| && f in After(cfg, node, run, n).down
    ensures j < n && SentAt(cfg, node, run, j, c, t, f) && c in AdmittedBy(cfg, node, run, j)
    decreases n
  {
    hide Step, AdmittedBy;
    var s, l := After(cfg, node, run, n - 1), run[n - 1];
    if f in s.down {
      j, c, t := EveryFrameWasSent(cfg, node, run, n - 1, f);
    } else {
      SendingStep(cfg, s, l, f);
      RunKeepsTraceable(cfg, node, run, n - 1);
      j, c, t := n - 1, s.io.pending.value, l.clock.value;
    }
  }

  lemma SendingStep(cfg: SystemConfig, s: System, l: Label, f: CanFrame)
    requires f in Step(cfg, s, l).down && f !in s.down
    ensures l.PumpStep? && s.io.pending.Some? && l.clock.Some?
    ensures Sends(cfg, s, l, s.io.pending.value, l.clock.value, f)
  {
    if l.PumpStep? {
      hide Pump, Sends;
      PumpSendsPending(cfg, s, l.clock, l.outcome);
    } else {
      hide Step, Sends;
      OnlyPumpSends(cfg, s, l);
    }
  }

  /** A wire command that asks for what the published command asked for, for as long, rounded up to 10 ms. */
  predicate SaysTheSame(w: Message, c: OutputCommand, t: int) {
    && w.Command? && c.sequence > 0 && w.sessionId == c.session && w.sequence == WireSequence(c.sequence)
    && ValueOf(w.mask) == c.mask % 256 && ValueOf(w.values) == c.values % 256
    && c.deadline - t <= w.validity * VALIDITY_UNIT_NS < c.deadline - t + VALIDITY_UNIT_NS
  }

  /**
   End-to-end integrity: along every run, every frame the bus can deliver to the node was sent at an earlier step j for
   a command that admission had accepted by then. It decodes to that command unchanged in session, mask and values,
   with the time that remained at the clock sample t of step j.
   */
  lemma NodeHearsOnlyAdmitted(cfg: SystemConfig, node: N.Node, run: seq<Label>, n: nat, f: CanFrame)
    returns (j: nat, c: OutputCommand, t: int)
    requires 1 <= cfg.sup.nodeId <= 31 && n <= |run| && f in After(cfg, node, run, n).down
    ensures j < n && SentAt(cfg, node, run, j, c, t, f) && c in AdmittedBy(cfg, node, run, j)
    ensures DecodeCommand(f).Ok? && SaysTheSame(DecodeCommand(f).value, c, t)
  {
    hide After, AdmittedBy;
    j, c, t := EveryFrameWasSent(cfg, node, run, n, f);
    SentSaysTheSame(cfg, c, t, f);
  }

  lemma SentSaysTheSame(cfg: SystemConfig, c: OutputCommand, t: int, f: CanFrame)
    requires 1 <= cfg.sup.nodeId <= 31 && WireFrame(cfg, c, t) == Some(f)
    ensures DecodeCommand(f).Ok? && SaysTheSame(DecodeCommand(f).value, c, t)
  {
    hide ToWire, FrameOf, DecodeCommand, WireSequence;
    WireSaysTheSame(c, cfg.sup.nodeId, t);
    EncodedIsLegal(ToWire(c, cfg.sup.nodeId, t).value);
  }

  lemma TakenCommand(n: N.Node, f: CanFrame, now: int)
    requires var reply := N.OnFrame(n, f, now).1; reply.Answer? && reply.status.result.Applied?
    ensures DecodeCommand(f).Ok?
    ensures var w, reply := DecodeCommand(f).value, N.OnFrame(n, f, now).1;
            && N.OnFrame(n, f, now).0 == N.Take(N.Expire(n, now), w, now)
            && reply.status.sessionId == w.sessionId && reply.status.sequence == w.sequence
  {
    hide DecodeCommand, StandardId, FunctionOfId, NodeOfId, N.Merge;
  }

  /**
   Whatever the node applies at step i was sent at an earlier step j, at clock sample t, for a command admitted before
   that, under the same session and sequence. The node writes exactly the published bits, and its lease ends no earlier
   than the published deadline shifted by the transit time from t to the reception, and less than 10 ms later.
   */
  lemma AppliedWasAdmitted(cfg: SystemConfig, node: N.Node, run: seq<Label>, i: nat, session: u16, sequence: u16)
    returns (j: nat, c: OutputCommand, t: int)
    requires 1 <= cfg.sup.nodeId <= 31 && i < |run| && AppliedAt(cfg, node, run, i, session, sequence)
    ensures j < i && SentAt(cfg, node, run, j, c, t, run[i].frame) && c in AdmittedBy(cfg, node, run, j)
    ensures c.session == session && c.sequence > 0 && WireSequence(c.sequence) == sequence
    ensures var before, after, now := After(cfg, node, run, i).node, After(cfg, node, run, i + 1).node, run[i].now;
            && after.output == N.Merge(N.Expire(before, now).output, BitsOf(c.mask % 256), BitsOf(c.values % 256))
            && after.leaseActive
            && c.deadline + (now - t) <= after.leaseDeadline < c.deadline + (now - t) + VALIDITY_UNIT_NS
  {
    hide AdmittedBy, WireSequence, DecodeCommand, N.OnFrame, N.Merge, BitsOf, ValueOf, SentAt;
    var s, f, now := After(cfg, node, run, i), run[i].frame, run[i].now;
    j, c, t := NodeHearsOnlyAdmitted(cfg, node, run, i, f);
    TakenCommand(s.node, f, now);
    var w := DecodeCommand(f).value;
    BitsOfValue(w.mask);
    BitsOfValue(w.values);
    ReceivingMovesNode(cfg, s, f, now);
  }

  lemma ReceivingMovesNode(cfg: SystemConfig, s: System, f: CanFrame, now: int)
    requires f in s.down
    ensures Step(cfg, s, NodeReceives(f, now)).node == N.OnFrame(s.node, f, now).0
  {
    hide N.OnFrame, Encode;
  }

  // ---------- nothing is sent unchecked ----------

  /** The runtime would let c out at t: running, Active, interlock ready, nothing in flight, c's session, in time. */
  predicate Cleared(r: State, c: OutputCommand, t: int) {
    && r.running && r.machine.mode.Active? && r.machine.ready && !r.ackPending
    && r.session == Some(c.session) && t < c.deadline
  }

  /** The check before sending lets a command pass exactly when it is cleared, and drops it otherwise. */
  lemma CheckExactly(cfg: SystemConfig, s: System, clock: Option<int>, outcome: SendOutcome)
    requires s.pc.Checking? && s.io.pending.Some?
    ensures var s' := Step(cfg, s, PumpStep(clock, outcome));
            if clock.Some? && Cleared(s.ep.rt, s.io.pending.value, clock.value)
            then s' == s.(pc := Sending) else s' == s.(pc := AtRest, io := s.io.(pending := None))
  {
  }

  lemma OnlyChecksOpenSending(cfg: SystemConfig, s: System, l: Label)
    ensures Step(cfg, s, l).pc.Sending? ==>
              if l.PumpStep? then s.pc.Checking? && s.io.pending.Some?
              else s.pc.Sending? && Step(cfg, s, l).io.pending == s.io.pending
  {
    hide TraceStep, Consume, NoteSent, Sendable, Send, Digest, Encode, Decode, N.OnFrame, Translate, AcknowledgeClear,
      Overflowed, CommCheck;
  }

  /**
   In every run, whenever the I/O thread is about to send, its last step was a check at some step m, and at that
   moment the runtime had cleared the very command that is pending now; what happens after m, happens to others.
   */
  lemma {:induction false} SendingWasCleared(cfg: SystemConfig, node: N.Node, run: seq<Label>, n: nat)
    returns (m: nat)
    requires n <= |run| && After(cfg, node, run, n).pc.Sending?
    ensures m < n && run[m].PumpStep? && run[m].clock.Some? && After(cfg, node, run, m).io.pending.Some?
    ensures After(cfg, node, run, n).io.pending == After(cfg, node, run, m).io.pending
    ensures Cleared(After(cfg, node, run, m).ep.rt, After(cfg, node, run, m).io.pending.value, run[m].clock.value)
    ensures forall i :: m < i < n ==> !run[i].PumpStep?
  {
    hide Step, Cleared;
    assert n > 0;
    var s, l := After(cfg, node, run, n - 1), run[n - 1];
    OnlyChecksOpenSending(cfg, s, l);
    if l.PumpStep? {
      CheckExactly(cfg, s, l.clock, l.outcome);
      m := n - 1;
    } else {
      m := SendingWasCleared(cfg, node, run, n - 1);
    }
  }

  // ---------- a failed I/O thread is out of the game ----------

  predicate FailedIsStopped(s: System) { HasFailed(s.io) ==> s.io.stopRequested && s.pc.AtRest? }

  lemma FailureStep(cfg: SystemConfig, s: System, l: Label)
    requires FailedIsStopped(s)
    ensures var s' := Step(cfg, s, l);
            FailedIsStopped(s') && (HasFailed(s.io) ==> s'.io == s.io && s'.down == s.down)
  {
    hide TraceStep, Consume, NoteSent, Sendable, ToWire, Digest, Encode, Decode, N.OnFrame, Translate,
      AcknowledgeClear, Overflowed, CommCheck;
  }

  lemma {:induction false} FailedIsAlwaysStopped(cfg: SystemConfig, node: N.Node, run: seq<Label>, n: nat)
    requires n <= |run|
    ensures FailedIsStopped(After(cfg, node, run, n))
  {
    hide Step;
    if n > 0 {
      FailedIsAlwaysStopped(cfg, node, run, n - 1);
      FailureStep(cfg, After(cfg, node, run, n - 1), run[n - 1]);
    }
  }

  /**
   In every run, an I/O thread that has failed, by a read or by a send, has stopped, and nothing changes that: from
   then on it sends no frame, takes no command and forgets neither the failure nor its cause.
   */
  lemma {:induction false} FailureIsFinal(cfg: SystemConfig, node: N.Node, run: seq<Label>, m: nat, n: nat)
    requires m <= n <= |run| && HasFailed(After(cfg, node, run, m).io)
    ensures After(cfg, node, run, m).io.stopRequested
    ensures After(cfg, node, run, n).io == After(cfg, node, run, m).io
    ensures After(cfg, node, run, n).down == After(cfg, node, run, m).down
    decreases n
  {
    hide Step;
    FailedIsAlwaysStopped(cfg, node, run, m);
    if m < n {
      FailureIsFinal(cfg, node, run, m, n - 1);
      FailedIsAlwaysStopped(cfg, node, run, n - 1);
      FailureStep(cfg, After(cfg, node, run, n - 1), run[n - 1]);
    }
  }

  /** Asked to stop, and no pump call left to finish. */
  predicate Halted(s: System) { s.io.stopRequested && s.pc.AtRest? }

  lemma HaltedStep(cfg: SystemConfig, s: System, l: Label)
    requires Halted(s) || (l.IoStops? && s.pc.AtRest?)
    ensures var s' := Step(cfg, s, l);
            && Halted(s') && s'.down == s.down
            && s'.io.pending == s.io.pending && s'.io.framesSent == s.io.framesSent
  {
    hide TraceStep, Consume, NoteSent, Sendable, Send, Digest, Encode, Decode, N.OnFrame, Translate,
      AcknowledgeClear, Overflowed, CommCheck;
  }

  /** In every run, a stop requested between two pump calls is final: no further frame is sent or command taken. */
  lemma {:induction false} StopIsFinal(cfg: SystemConfig, node: N.Node, run: seq<Label>, m: nat, n: nat)
    requires m < n <= |run| && run[m].IoStops? && After(cfg, node, run, m).pc.AtRest?
    ensures var s, s' := After(cfg, node, run, m), After(cfg, node, run, n);
            && Halted(s') && s'.down == s.down
            && s'.io.pending == s.io.pending && s'.io.framesSent == s.io.framesSent
    decreases n
  {
    hide Step;
    if n > m + 1 { StopIsFinal(cfg, node, run, m, n - 1); }
    HaltedStep(cfg, After(cfg, node, run, n - 1), run[n - 1]);
  }
}
