/**
 What each critical section of the runtime answers and leaves, exactly, in every reachable state: conditions and
 machine values are written out, not taken from the code's own functions.
 */
module RuntimeExact {
  import opened Bytes
  import opened StateMachine
  import opened RuntimeCore
  import opened RuntimeRuns
  import CanV1

  /** The output path is closed and nothing but the machine moved otherwise. */
  predicate ClosedFrom(r: State, r': State) {
    && PathClosed(r') && !r'.dog.expired && r'.dog.lastKick == r.dog.lastKick && r'.running == r.running
    && r'.mailbox == r.mailbox.(slot := None)
    && r'.sentSession == r.sentSession && r'.sentSequence == r.sentSequence && r'.sentTime == r.sentTime
    && r'.unexpectedAcks == r.unexpectedAcks
  }

  predicate Working(r: State) { r.machine.mode.Active? && r.machine.ready && r.running }

  // ---------- timeouts ----------

  /** An answer awaited for a full acknowledgement timeout. */
  predicate AckDue(cfg: Config, r: State, t: int) {
    r.ackPending && r.sentTime <= t && t - r.sentTime >= cfg.ackTimeout
  }

  /** An armed watchdog last kicked a full command timeout ago; a timeout that is not positive is always due. */
  predicate DogDue(cfg: Config, r: State, t: int) {
    r.dog.armed && (t - r.dog.lastKick >= cfg.commandTimeout || cfg.commandTimeout <= 0)
  }

  /**
   A tick acts exactly when a timeout is due, never earlier: it then leaves Active for Hold, closes the output path and
   records AckTimeout if the answer is overdue, Watchdog otherwise. In every other case it changes nothing.
   */
  lemma TickExactly(cfg: Config, calls: seq<Call>, n: nat, t: int)
    requires n <= |calls|
    ensures var r := At(cfg, calls, n);
            var r' := Tick(cfg, r, t);
            if r.machine.mode.Active? && AckDue(cfg, r, t) then
              && r'.machine == Machine(Hold, true, AckTimeout) && ClosedFrom(r, r')
              && r'.ackTimeouts == r.ackTimeouts + 1
            else if r.machine.mode.Active? && DogDue(cfg, r, t) then
              && r'.machine == Machine(Hold, true, Watchdog) && ClosedFrom(r, r')
              && r'.ackTimeouts == r.ackTimeouts
            else r' == r
  {
    EveryStateKeepsInv(cfg, calls, n);
    TickOf(cfg, At(cfg, calls, n), t);
  }

  lemma TickOf(cfg: Config, r: State, t: int)
    requires Inv(r)
    ensures var r' := Tick(cfg, r, t);
            if r.machine.mode.Active? && AckDue(cfg, r, t) then
              && r'.machine == Machine(Hold, true, AckTimeout) && ClosedFrom(r, r')
              && r'.ackTimeouts == r.ackTimeouts + 1
            else if r.machine.mode.Active? && DogDue(cfg, r, t) then
              && r'.machine == Machine(Hold, true, Watchdog) && ClosedFrom(r, r')
              && r'.ackTimeouts == r.ackTimeouts
            else r' == r
  {
    hide Handle;
    HandleExactly(r.machine.(fault := AckTimeout), HoldRequest);
    HandleExactly(r.machine, CommandTimeout);
  }

  /** The watchdog's last kick is the admission of the episode's newest command, so that is what DogDue measures. */
  ghost predicate KickedByNewest(t: Traced) {
    t.rt.machine.mode.Active? && t.rt.dog.armed ==> t.admitted != [] && t.rt.dog.lastKick == Newest(t).at
  }

  lemma KeepsKick(cfg: Config, t: Traced, c: Call)
    requires EpisodeInv(t) && KickedByNewest(t)
    ensures KickedByNewest(TraceStep(cfg, t, c))
  {
    hide Handle, EpisodeInv, Inv;
    EpisodeMeansInv(t);
    if c.Submit? { SubmitOf(t.rt, c.event); }
    if c.Raise? { RaiseOf(t.rt, c.code); }
    if c.Interlock? { InterlockOf(t.rt, c.ready); }
  }

  lemma EpisodeMeansInv(t: Traced)
    requires EpisodeInv(t)
    ensures Inv(t.rt)
  {
    hide Inv;
  }

  lemma {:induction false} DogMeasuresNewest(cfg: Config, calls: seq<Call>, n: nat)
    requires n <= |calls|
    ensures KickedByNewest(Trace(cfg, calls, n))
  {
    hide TraceStep, EpisodeInv, KickedByNewest;
    if n == 0 {
      StartIsUnkicked();
    } else {
      DogMeasuresNewest(cfg, calls, n - 1);
      EveryEpisodeKeepsInv(cfg, calls, n - 1);
      KeepsKick(cfg, Trace(cfg, calls, n - 1), calls[n - 1]);
    }
  }

  lemma StartIsUnkicked()
    ensures KickedByNewest(START)
  {
  }

  // ---------- events, faults and the interlock ----------

  /** How the output path follows a machine transition: closed across the border of Active, untouched on either side. */
  predicate PathFollows(r: State, r': State) {
    if r.machine.mode.Active? != r'.machine.mode.Active?
    then ClosedFrom(r, r') && r'.ackTimeouts == r.ackTimeouts
    else r' == r.(machine := r'.machine)
  }

  lemma SubmitOf(r: State, e: Event)
    requires Inv(r)
    ensures var (r', ok) := HandleEvent(r, e);
            && (ok <==> !e.FaultDetected? && (e.ActivateRequest? ==> r.running) && Accepts(r.machine, e))
            && (ok ==> r'.machine == Machine(Target(r.machine, e), ReadyAfter(r.machine, e), FaultLeft(r.machine, e)))
            && (ok ==> PathFollows(r, r')) && (!ok ==> r' == r)
  {
    hide Handle, Accepts, Target, FaultLeft;
    HandleExactly(r.machine, e);
  }

  /** An event posted to the runtime, in every reachable state: the table, the scheduler condition and the path. */
  lemma SubmitExactly(cfg: Config, calls: seq<Call>, n: nat, e: Event)
    requires n <= |calls|
    ensures var r := At(cfg, calls, n);
            var (r', ok) := HandleEvent(r, e);
            && (ok <==> !e.FaultDetected? && (e.ActivateRequest? ==> r.running) && Accepts(r.machine, e))
            && (ok ==> r'.machine == Machine(Target(r.machine, e), ReadyAfter(r.machine, e), FaultLeft(r.machine, e)))
            && (ok ==> PathFollows(r, r')) && (!ok ==> r' == r)
  {
    hide Inv, HandleEvent, Accepts, Target, FaultLeft, At;
    EveryStateKeepsInv(cfg, calls, n);
    SubmitOf(At(cfg, calls, n), e);
  }

  /** An escalation records its code in every mode, takes Idle, Active and Hold to Fault, and closes the path. */
  lemma RaiseOf(r: State, code: FaultCode)
    ensures var r' := RaiseFault(r, code);
            if code.NoFault? then r' == r
            else
              && r'.machine == Machine(
                   if r.machine.mode.Idle? || r.machine.mode.Active? || r.machine.mode.Hold? then Fault
                   else r.machine.mode, r.machine.ready, code)
              && ClosedFrom(r, r') && r'.ackTimeouts == r.ackTimeouts
  {
    hide Handle;
    HandleExactly(r.machine.(fault := code), FaultDetected);
  }

  /** The reported interlock is recorded in every mode; its loss takes Active, and nothing else, to Hold. */
  lemma InterlockOf(r: State, ready: bool)
    ensures var r' := SetInterlock(r, ready);
            && r'.machine == (if r.machine.mode.Active? && !ready then Machine(Hold, false, InterlockOpen)
                              else Machine(r.machine.mode, ready, r.machine.fault))
            && PathFollows(r, r')
  {
    hide Handle;
    HandleExactly(r.machine, if ready then InterlockReady else InterlockLost);
  }

  /** The end of a run: the machine as new, nothing running, the path closed. */
  lemma StopExactly(r: State)
    ensures var r' := Stopped(r);
            && r'.machine == Machine(Disabled, false, NoFault) && !r'.running
            && ClosedFrom(r.(running := false), r') && r'.ackTimeouts == r.ackTimeouts
  {
  }

  // ---------- admission, consumption and acknowledgement ----------

  /** What admission asks of a command, in full. */
  predicate Deserves(r: State, cmd: OutputCommand, now: Option<int>) {
    && Working(r) && now.Some? && now.value < cmd.deadline
    && cmd.session != 0 && cmd.sequence != 0 && cmd.mask != 0
    && (r.session.None? || r.session.value == cmd.session)
    && cmd.sequence > r.lastSequence
  }

  /** In any state at all, only a stale first command of a session leaves a trace: the session it bound. */
  lemma PublishOf(r: State, cmd: OutputCommand, now: Option<int>)
    ensures var (r', ok) := Publish(r, cmd, now);
            && (ok <==> Deserves(r, cmd, now))
            && (!ok ==> r' == if r.session.None? && cmd.sequence <= r.lastSequence
                              && Deserves(r.(lastSequence := 0), cmd, now)
                              then r.(session := Some(cmd.session)) else r)
  {
  }

  /** A command is admitted exactly when it deserves to be, and a refused one leaves no trace in any reachable state. */
  lemma PublishExactly(cfg: Config, calls: seq<Call>, n: nat, cmd: OutputCommand, now: Option<int>)
    requires n <= |calls|
    ensures var r := At(cfg, calls, n);
            var (r', ok) := Publish(r, cmd, now);
            && (ok <==> Deserves(r, cmd, now))
            && (!ok ==> r' == r)
            && (ok ==> r' == r.(session := Some(cmd.session), lastSequence := cmd.sequence,
                                dog := Dog(true, false, now.value),
                                mailbox := Mailbox(Some(cmd), r.mailbox.published + 1, r.mailbox.consumed,
                                                   r.mailbox.dropped + if r.mailbox.slot.Some? then 1 else 0)))
  {
    EveryStateKeepsInv(cfg, calls, n);
  }

  /**
   A command is handed out exactly when the runtime works, no answer is awaited and the slot holds it unexpired. An
   expired one is dropped and the idle watchdog disarmed; a runtime that does not work empties the slot.
   */
  lemma ConsumeExactly(cfg: Config, calls: seq<Call>, n: nat, now: Option<int>)
    requires n <= |calls|
    ensures var r := At(cfg, calls, n);
            var (r', out) := Consume(r, now);
            var slot := r.mailbox.slot;
            var taken := r.mailbox.(slot := None, consumed := r.mailbox.consumed + 1);
            if now.None? then r' == r && out.None?
            else if !Working(r) then r' == r.(mailbox := r.mailbox.(slot := None)) && out.None?
            else if r.ackPending || slot.None? then r' == r && out.None?
            else if now.value < slot.value.deadline then r' == r.(mailbox := taken) && out == slot
            else r' == r.(mailbox := taken, dog := Dog(false, false, r.dog.lastKick)) && out.None?
  {
    EveryStateKeepsInv(cfg, calls, n);
  }

  /** A sent frame is entered exactly when its numbers are real, the session is still bound and the slot is free. */
  lemma NoteExactly(r: State, session: u16, sequence: u16, time: int)
    ensures var (r', out) := NoteSent(r, session, sequence, time);
            var bound := Working(r) && r.session.Some? && r.session.value % 65536 == session;
            if session == 0 || sequence == 0 || time <= 0 then out == Err(InvalidArgument) && r' == r
            else if !bound then out == Err(Rejected) && r' == r
            else if r.ackPending then out == Err(Busy) && r' == r
            else
              && out == Ok(())
              && r' == r.(ackPending := true, sentSession := session, sentSequence := sequence, sentTime := time)
  {
  }

  /** Only an applied answer with the tracked pair closes the slot; any other is counted and changes nothing else. */
  lemma ObserveExactly(r: State, session: u16, sequence: u16, result: CanV1.OutputResult)
    ensures var r' := Observe(r, session, sequence, result);
            if r.ackPending && session == r.sentSession && sequence == r.sentSequence && result == CanV1.Applied then
              r' == r.(ackPending := false,
                       dog := if r.mailbox.slot.None? then Dog(false, false, r.dog.lastKick) else r.dog)
            else r' == r.(unexpectedAcks := r.unexpectedAcks + 1)
  {
  }

  // ---------- the mailbox over whole histories ----------

  datatype MailOp = PutOp(cmd: OutputCommand) | TakeOp | ClearOp

  function MailStep(b: Mailbox, op: MailOp): Mailbox {
    match op
    case PutOp(cmd) => Put(b, cmd)
    case TakeOp => Taken(b)
    case ClearOp => b.(slot := None)
  }

  function MailRun(ops: seq<MailOp>): Mailbox {
    if ops == [] then Mailbox(None, 0, 0, 0) else MailStep(MailRun(ops[..|ops| - 1]), ops[|ops| - 1])
  }

  /** The newest command put since the slot was last emptied. */
  function Latest(ops: seq<MailOp>): Option<OutputCommand> {
    if ops == [] then None
    else match ops[|ops| - 1]
      case PutOp(cmd) => Some(cmd)
      case _ => None
  }

  /** How many operations of a kind found the slot full, and how many commands were put. */
  function Hits(ops: seq<MailOp>, op: MailOp -> bool): nat {
    if ops == [] then 0
    else
      var init := ops[..|ops| - 1];
      Hits(init, op) + if op(ops[|ops| - 1]) && Latest(init).Some? then 1 else 0
  }

  function Puts(ops: seq<MailOp>): nat {
    if ops == [] then 0 else Puts(ops[..|ops| - 1]) + if ops[|ops| - 1].PutOp? then 1 else 0
  }

  /**
   Along every history the slot holds the newest command put since it was emptied, and every command put is consumed,
   overwritten, cleared or still there, once: the three counters count exactly that.
   */
  lemma {:induction false} MailboxConserves(ops: seq<MailOp>)
    ensures var b := MailRun(ops);
            && b.slot == Latest(ops) && b.published == Puts(ops)
            && b.consumed == Hits(ops, (op: MailOp) => op.TakeOp?) && b.dropped == Hits(ops, (op: MailOp) => op.PutOp?)
            && b.published == b.consumed + b.dropped + Hits(ops, (op: MailOp) => op.ClearOp?)
                            + (if b.slot.Some? then 1 else 0)
  {
    if ops != [] { MailboxConserves(ops[..|ops| - 1]); }
  }
}
