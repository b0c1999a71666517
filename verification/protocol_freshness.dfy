/** Which transmission the in-flight slot tracks, and when the acknowledgement that closes it must answer that one. */
module Freshness {
  import opened Bytes
  import opened CanV1
  import opened StateMachine
  import opened RuntimeCore
  import opened RuntimeRuns
  import opened Rings
  import opened Supervision
  import opened CanIo
  import opened Protocol
  import opened Acknowledgements
  import opened Provenance
  import N = NodeLogic

  // ---------- the transmission that the in-flight slot tracks ----------

  predicate TransmitsAny(cfg: SystemConfig, node: N.Node, run: seq<Label>, j: nat)
    requires j < |run|
  {
    After(cfg, node, run, j).pc.Sending? && After(cfg, node, run, j + 1).pc.Noting?
  }

  /** Step j puts a command with this wire session and sequence on the bus. */
  predicate Transmits(cfg: SystemConfig, node: N.Node, run: seq<Label>, j: nat, session: u16, sequence: u16)
    requires j < |run|
  {
    && TransmitsAny(cfg, node, run, j)
    && After(cfg, node, run, j + 1).pc.wire.sessionId == session
    && After(cfg, node, run, j + 1).pc.wire.sequence == sequence
  }

  /** Step j is the last transmission before n, and of this pair. */
  ghost predicate LastSent(cfg: SystemConfig, node: N.Node, run: seq<Label>, n: nat, j: nat,
                           session: u16, sequence: u16)
    requires n <= |run|
  {
    && j < n && Transmits(cfg, node, run, j, session, sequence)
    && forall m :: j < m < n ==> !TransmitsAny(cfg, node, run, m)
  }

  lemma AckComesFromNote(cfg: Config, r: State, c: Call)
    ensures var r' := Apply(cfg, r, c);
            r'.ackPending ==>
              || (r.ackPending && r'.sentSession == r.sentSession && r'.sentSequence == r.sentSequence)
              || (!r.ackPending && c.Note? && r'.sentSession == c.session && r'.sentSequence == c.sequence)
  {
    hide Handle;
  }

  lemma OnlyPumpMovesPump(cfg: SystemConfig, s: System, l: Label)
    requires !l.PumpStep?
    ensures Step(cfg, s, l).pc == s.pc
  {
    hide TraceStep, Digest, Encode, N.OnFrame, Translate, AcknowledgeClear, Overflowed, CommCheck, Deliverable;
  }

  lemma PumpMovesPump(cfg: SystemConfig, s: System, clock: Option<int>, outcome: SendOutcome)
    ensures var s' := Pump(cfg, s, clock, outcome);
            && (s'.pc.Noting? ==> s.pc.Sending?)
            && (s'.pc.Sending? ==> s.pc.Checking? && !s.ep.rt.ackPending)
            && (s.pc.Checking? || s.pc.Sending? ==> s'.ep == s.ep)
  {
    hide OnRuntime, Consume, NoteSent, Send;
  }

  /** While an answer is awaited the pump neither sends nor notes. */
  predicate Waits(s: System) { s.ep.rt.ackPending ==> !s.pc.Sending? && !s.pc.Noting? }

  lemma SlotStep(cfg: SystemConfig, s: System, l: Label)
    requires Waits(s)
    ensures var s' := Step(cfg, s, l);
            && Waits(s')
            && (s'.pc.Noting? ==> s'.pc == s.pc || s.pc.Sending?)
            && (s'.ep.rt.ackPending ==>
                  || (s.ep.rt.ackPending && s'.ep.rt.sentSession == s.ep.rt.sentSession
                      && s'.ep.rt.sentSequence == s.ep.rt.sentSequence)
                  || (s.pc.Noting? && s'.ep.rt.sentSession == s.pc.wire.sessionId
                      && s'.ep.rt.sentSequence == s.pc.wire.sequence))
  {
    hide Step, Apply, Pump;
    StepMakesOneCall(cfg, s, l);
    var call := CallMade(cfg, s, l);
    TraceAppliesCall(cfg.rt, s.ep, call);
    if call.Some? { AckComesFromNote(cfg.rt, s.ep.rt, call.value); }
    if l.PumpStep? {
      PumpMovesPump(cfg, s, l.clock, l.outcome);
      PumpSteps(cfg, s, l.clock, l.outcome);
    } else {
      OnlyPumpMovesPump(cfg, s, l);
      OnlyNotesInPump(cfg, s, l);
    }
  }

  lemma PumpSteps(cfg: SystemConfig, s: System, clock: Option<int>, outcome: SendOutcome)
    ensures Step(cfg, s, PumpStep(clock, outcome)) == Pump(cfg, s, clock, outcome)
  {
    hide Pump;
  }

  lemma OnlyNotesInPump(cfg: SystemConfig, s: System, l: Label)
    requires !l.PumpStep?
    ensures CallMade(cfg, s, l).Some? ==> !CallMade(cfg, s, l).value.Note?
  {
  }

  /** The slot, and a note about to be made, belong to the last transmission. */
  lemma {:induction false} TrackedWasSent(cfg: SystemConfig, node: N.Node, run: seq<Label>, n: nat) returns (j: nat)
    requires n <= |run|
    ensures var s := After(cfg, node, run, n);
            && Waits(s)
            && (s.pc.Noting? ==> LastSent(cfg, node, run, n, j, s.pc.wire.sessionId, s.pc.wire.sequence))
            && (s.ep.rt.ackPending ==>
                  LastSent(cfg, node, run, n, j, s.ep.rt.sentSession, s.ep.rt.sentSequence))
    decreases n
  {
    hide Step;
    j := 0;
    if n > 0 {
      j := TrackedWasSent(cfg, node, run, n - 1);
      var s, s' := After(cfg, node, run, n - 1), After(cfg, node, run, n);
      SlotStep(cfg, s, run[n - 1]);
      if s'.pc.Noting? && s.pc.Sending? { j := n - 1; }
    }
  }

  // ---------- the command behind a transmission ----------

  /** A transmission is the sending of what was pending, and the other way round. */
  lemma TransmissionSends(cfg: SystemConfig, s: System, l: Label)
    requires s.pc.Sending? && Step(cfg, s, l).pc.Noting?
    ensures l.PumpStep? && l.clock.Some? && s.io.pending.Some?
    ensures Sends(cfg, s, l, s.io.pending.value, l.clock.value, FrameOf(Step(cfg, s, l).pc.wire))
    ensures ToWire(s.io.pending.value, cfg.sup.nodeId, l.clock.value) == Ok(Step(cfg, s, l).pc.wire)
  {
    hide ToWire, Encode, FrameOf;
    if !l.PumpStep? {
      hide Step;
      OnlyPumpMovesPump(cfg, s, l);
    }
  }

  lemma SendTransmits(cfg: SystemConfig, s: System, l: Label, c: OutputCommand, t: int, f: CanFrame)
    requires 1 <= cfg.sup.nodeId <= 31 && Sends(cfg, s, l, c, t, f)
    ensures var s' := Step(cfg, s, l);
            && s'.pc.Noting? && FrameOf(s'.pc.wire) == f && c.sequence > 0
            && s'.pc.wire.sessionId == c.session && s'.pc.wire.sequence == WireSequence(c.sequence)
  {
    hide ToWire, Encode, FrameOf, DecodeCommand, WireSequence;
    WireSaysTheSame(c, cfg.sup.nodeId, t);
  }

  /** Some step before j already transmitted this pair. */
  ghost predicate TransmittedBefore(cfg: SystemConfig, node: N.Node, run: seq<Label>, j: nat,
                                    session: u16, sequence: u16)
    requires j <= |run|
  {
    exists m :: 0 <= m < j && Transmits(cfg, node, run, m, session, sequence)
  }

  /** The frame that step j transmits. */
  function FrameAt(cfg: SystemConfig, node: N.Node, run: seq<Label>, j: nat): CanFrame
    requires j < |run| && TransmitsAny(cfg, node, run, j)
  {
    FrameOf(After(cfg, node, run, j + 1).pc.wire)
  }

  /** The slot closes at step n, with the runtime still Active. */
  predicate ClosesAt(cfg: SystemConfig, node: N.Node, run: seq<Label>, n: nat)
    requires n < |run|
  {
    var before, after := After(cfg, node, run, n).ep.rt, After(cfg, node, run, n + 1).ep.rt;
    before.ackPending && !after.ackPending && after.machine.mode.Active?
  }

  /**
   While an answer is awaited, the slot tracks the last transmission j, which was sent for a command c that admission
   had accepted before.
   */
  lemma TrackedWasAdmitted(cfg: SystemConfig, node: N.Node, run: seq<Label>, n: nat)
    returns (j: nat, c: OutputCommand, t: int)
    requires 1 <= cfg.sup.nodeId <= 31 && n <= |run| && After(cfg, node, run, n).ep.rt.ackPending
    ensures var rt := After(cfg, node, run, n).ep.rt;
            && LastSent(cfg, node, run, n, j, rt.sentSession, rt.sentSequence)
            && SentAt(cfg, node, run, j, c, t, FrameAt(cfg, node, run, j)) && c in AdmittedBy(cfg, node, run, j)
            && c.session == rt.sentSession && c.sequence > 0 && WireSequence(c.sequence) == rt.sentSequence
  {
    hide Step, AdmittedBy, FrameOf, WireSequence, Sends, ToWire;
    j := TrackedWasSent(cfg, node, run, n);
    var s := After(cfg, node, run, j);
    TransmissionSends(cfg, s, run[j]);
    c, t := s.io.pending.value, run[j].clock.value;
    RunKeepsTraceable(cfg, node, run, j);
    SendTransmits(cfg, s, run[j], c, t, FrameAt(cfg, node, run, j));
  }

  /** An application of a pair is of a frame that some earlier step transmitted under that pair. */
  lemma AppliedWasTransmitted(cfg: SystemConfig, node: N.Node, run: seq<Label>, i: nat, session: u16, sequence: u16)
    returns (m: nat)
    requires 1 <= cfg.sup.nodeId <= 31 && i < |run| && AppliedAt(cfg, node, run, i, session, sequence)
    ensures m < i && Transmits(cfg, node, run, m, session, sequence)
    ensures run[i].NodeReceives? && run[i].frame == FrameAt(cfg, node, run, m)
  {
    hide Step, AdmittedBy, FrameOf, WireSequence, Sends, N.OnFrame, N.Merge, N.Expire, BitsOf;
    var c, t;
    m, c, t := AppliedWasAdmitted(cfg, node, run, i, session, sequence);
    SendTransmits(cfg, After(cfg, node, run, m), run[m], c, t, run[i].frame);
    NowSending(cfg, After(cfg, node, run, m), run[m], c, t, run[i].frame);
  }

  lemma NowSending(cfg: SystemConfig, s: System, l: Label, c: OutputCommand, t: int, f: CanFrame)
    requires Sends(cfg, s, l, c, t, f)
    ensures s.pc.Sending?
  {
    hide WireFrame;
  }

  /**
   Whose answer closes the slot. The slot that closes tracks the last transmission j, sent for an admitted command. If
   no earlier step transmitted the same session and sequence, which holds if the publisher does not reuse a number of
   the session whose wire image is the same, then whatever the node applied under that pair was this very frame,
   received after j: the acknowledgement can only answer this transmission.
   */
  lemma AcknowledgedAfterSend(cfg: SystemConfig, node: N.Node, run: seq<Label>, n: nat)
    returns (j: nat, c: OutputCommand, t: int)
    requires 1 <= cfg.sup.nodeId <= 31 && n < |run| && ClosesAt(cfg, node, run, n)
    ensures var rt := After(cfg, node, run, n).ep.rt;
            && LastSent(cfg, node, run, n, j, rt.sentSession, rt.sentSequence)
            && SentAt(cfg, node, run, j, c, t, FrameAt(cfg, node, run, j)) && c in AdmittedBy(cfg, node, run, j)
            && c.session == rt.sentSession && c.sequence > 0 && WireSequence(c.sequence) == rt.sentSequence
            && (exists i :: 0 <= i < n && AppliedAt(cfg, node, run, i, rt.sentSession, rt.sentSequence))
            && (!TransmittedBefore(cfg, node, run, j, rt.sentSession, rt.sentSequence) ==>
                  forall i :: 0 <= i < n && AppliedAt(cfg, node, run, i, rt.sentSession, rt.sentSequence) ==>
                    j < i && run[i].frame == FrameAt(cfg, node, run, j))
  {
    hide After, AppliedAt, TransmitsAny, Transmits, FrameAt, SentAt, AdmittedBy, WireSequence;
    j, c, t := TrackedWasAdmitted(cfg, node, run, n);
    NoPhantomAcknowledgement(cfg, node, run, n);
    var rt := After(cfg, node, run, n).ep.rt;
    TransmitsSome(cfg, node, run, j, rt.sentSession, rt.sentSequence);
    if !TransmittedBefore(cfg, node, run, j, rt.sentSession, rt.sentSequence) {
      forall i | 0 <= i < n && AppliedAt(cfg, node, run, i, rt.sentSession, rt.sentSequence)
        ensures j < i && run[i].NodeReceives? && run[i].frame == FrameAt(cfg, node, run, j)
      {
        var m := AppliedWasTransmitted(cfg, node, run, i, rt.sentSession, rt.sentSequence);
        TransmitsSome(cfg, node, run, m, rt.sentSession, rt.sentSequence);
        assert m == j;
      }
    }
  }

  lemma TransmitsSome(cfg: SystemConfig, node: N.Node, run: seq<Label>, m: nat, session: u16, sequence: u16)
    requires m < |run| && Transmits(cfg, node, run, m, session, sequence)
    ensures TransmitsAny(cfg, node, run, m)
  {
    hide After;
  }
}
