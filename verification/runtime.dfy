/**
 The runtime's output path: admission, the latest-wins mailbox, the single in-flight slot,
 the command watchdog and the acknowledgement timeout, all under one state lock. Each
 function below is one critical section of that lock.
 */
module RuntimeCore {
  import opened Bytes
  import opened StateMachine
  import CanV1

  /** A command as applications publish it; session and sequence are 64-bit and never wrap here. */
  datatype OutputCommand = OutputCommand(session: nat, sequence: nat, deadline: int, mask: u32, values: u32)

  datatype Mailbox = Mailbox(slot: Option<OutputCommand>, published: nat, consumed: nat, dropped: nat)

  datatype Dog = Dog(armed: bool, expired: bool, lastKick: int)

  datatype Config = Config(commandTimeout: int, ackTimeout: int)

  /** What start() demands before any thread exists. */
  predicate ValidConfig(cfg: Config) { cfg.commandTimeout > 0 && cfg.ackTimeout > 0 }

  datatype State = State(
    machine: Machine, running: bool, mailbox: Mailbox, dog: Dog,
    session: Option<nat>, lastSequence: nat,
    ackPending: bool, sentSession: u16, sentSequence: u16, sentTime: int,
    ackTimeouts: nat, unexpectedAcks: nat)

  const INITIAL_STATE := State(INITIAL, true, Mailbox(None, 0, 0, 0), Dog(false, false, 0),
                               None, 0, false, 0, 0, 0, 0, 0)

  // ---------- mailbox ----------

  function Put(b: Mailbox, cmd: OutputCommand): Mailbox {
    Mailbox(Some(cmd), b.published + 1, b.consumed, b.dropped + if b.slot.Some? then 1 else 0)
  }

  function Taken(b: Mailbox): Mailbox {
    if b.slot.None? then b else b.(slot := None, consumed := b.consumed + 1)
  }

  class CommandMailbox {
    var slot: Option<OutputCommand>
    var published: nat
    var consumed: nat
    var dropped: nat

    ghost function View(): Mailbox reads this { Mailbox(slot, published, consumed, dropped) }

    constructor ()
      ensures View() == Mailbox(None, 0, 0, 0)
    {
      slot, published, consumed, dropped := None, 0, 0, 0;
    }

    method Publish(cmd: OutputCommand)
      modifies this
      ensures View() == Put(old(View()), cmd)
    {
      if slot.Some? {
        dropped := dropped + 1;
      }
      slot, published := Some(cmd), published + 1;
    }

    method TryConsume() returns (cmd: Option<OutputCommand>)
      modifies this
      ensures cmd == old(slot) && View() == Taken(old(View()))
    {
      cmd := slot;
      if cmd.Some? {
        slot, consumed := None, consumed + 1;
      }
    }

    method Clear()
      modifies this
      ensures View() == old(View()).(slot := None)
    {
      slot := None;
    }
  }

  // ---------- watchdog ----------

  function Disarmed(d: Dog): Dog { d.(armed := false, expired := false) }

  function Armed(now: int): Dog { Dog(true, false, now) }

  /** An armed dog whose last kick is a full timeout old. */
  predicate Overdue(d: Dog, timeout: int, now: int) { d.armed && Max(now - d.lastKick, 0) >= timeout }

  class MonotonicWatchdog {
    const timeout: int
    var armed: bool
    var expired: bool
    var lastKick: int

    ghost function View(): Dog reads this { Dog(armed, expired, lastKick) }

    constructor (limit: int)
      ensures timeout == limit && View() == Dog(false, false, 0)
    {
      timeout := limit;
      armed, expired, lastKick := false, false, 0;
    }

    method Arm(now: int)
      modifies this
      ensures View() == Armed(now)
    {
      lastKick := now;
      expired := false;
      armed := true;
    }

    method Disarm()
      modifies this
      ensures View() == Disarmed(old(View()))
    {
      armed := false;
      expired := false;
    }

    /** Only the first check past the timeout reports a new expiry. */
    method Check(now: int) returns (newlyExpired: bool)
      modifies this
      ensures newlyExpired <==> old(armed) && !old(expired) && (now - old(lastKick) >= timeout || timeout <= 0)
      ensures View() == old(View()).(expired := old(expired) || Overdue(old(View()), timeout, now))
    {
      if !armed {
        return false;
      }
      var age := Max(now - lastKick, 0);
      if age < timeout {
        return false;
      }
      newlyExpired := !expired;
      expired := true;
    }
  }

  // ---------- critical sections ----------

  function Clear(r: State): State {
    r.(dog := Disarmed(r.dog), mailbox := r.mailbox.(slot := None), session := None,
       lastSequence := 0, ackPending := false)
  }

  function MaybeDisarm(r: State): State {
    if r.mailbox.slot.None? && !r.ackPending then r.(dog := Disarmed(r.dog)) else r
  }

  /** A machine transition that opens or closes the output path clears it on the way. */
  function Moved(r: State, m: Machine): State {
    if r.machine.mode.Active? != m.mode.Active? then Clear(r).(machine := m) else r.(machine := m)
  }

  function HandleEvent(r: State, e: Event): (State, bool) {
    if e.FaultDetected? || (e.ActivateRequest? && !r.running) then (r, false)
    else var o := Handle(r.machine, e); if o.accepted then (Moved(r, o.machine), true) else (r, false)
  }

  function RaiseFault(r: State, code: FaultCode): State {
    if code.NoFault? then r
    else Clear(r).(machine := Handle(r.machine.(fault := code), FaultDetected).machine)
  }

  function SetInterlock(r: State, ready: bool): State {
    var m := Handle(r.machine, if ready then InterlockReady else InterlockLost).machine;
    if r.machine.mode.Active? && !m.mode.Active? then Clear(r).(machine := m) else r.(machine := m)
  }

  predicate Admissible(r: State, cmd: OutputCommand, now: int) {
    && r.running && CanAcceptOutput(r.machine)
    && cmd.session != 0 && cmd.sequence != 0 && cmd.mask != 0
    && now < cmd.deadline
    && (r.session.Some? ==> r.session.value == cmd.session)
    && r.lastSequence < cmd.sequence
  }

  function Publish(r: State, cmd: OutputCommand, now: Option<int>): (State, bool) {
    if now.None? then (r, false)
    else if Admissible(r, cmd, now.value) then
      (r.(session := Some(cmd.session), lastSequence := cmd.sequence,
          mailbox := Put(r.mailbox, cmd), dog := Armed(now.value)), true)
    else if r.session.None? && Admissible(r.(lastSequence := 0), cmd, now.value) then
      // The session is bound before the sequence is compared.
      (r.(session := Some(cmd.session)), false)
    else (r, false)
  }

  function Consume(r: State, now: Option<int>): (State, Option<OutputCommand>) {
    if now.None? then (r, None)
    else if !r.running || !CanAcceptOutput(r.machine) then (r.(mailbox := r.mailbox.(slot := None)), None)
    else if r.ackPending then (r, None)
    else
      var r' := r.(mailbox := Taken(r.mailbox));
      if r.mailbox.slot.Some? && r.mailbox.slot.value.deadline <= now.value then (MaybeDisarm(r'), None)
      else (r', r.mailbox.slot)
  }

  predicate Sendable(r: State, cmd: OutputCommand, now: Option<int>) {
    && now.Some? && r.running && CanAcceptOutput(r.machine) && !r.ackPending
    && r.session == Some(cmd.session) && now.value < cmd.deadline
  }

  function NoteSent(r: State, session: u16, sequence: u16, time: int): (State, Result<()>) {
    if session == 0 || sequence == 0 || time <= 0 then (r, Err(InvalidArgument))
    else if !r.running || !CanAcceptOutput(r.machine) || r.session.None?
            || r.session.value % 0x1_0000 != session then (r, Err(Rejected))
    else if r.ackPending then (r, Err(Busy))
    else (r.(ackPending := true, sentSession := session, sentSequence := sequence, sentTime := time), Ok(()))
  }

  function Observe(r: State, session: u16, sequence: u16, result: CanV1.OutputResult): State {
    if r.ackPending && session == r.sentSession && sequence == r.sentSequence && result.Applied?
    then MaybeDisarm(r.(ackPending := false))
    else r.(unexpectedAcks := r.unexpectedAcks + 1)
  }

  predicate AckOverdue(cfg: Config, r: State, t: int) {
    CanAcceptOutput(r.machine) && r.ackPending && r.sentTime <= t && t - r.sentTime >= cfg.ackTimeout
  }

  function AckExpired(r: State): State {
    Clear(r).(machine := Handle(r.machine.(fault := AckTimeout), HoldRequest).machine,
              ackTimeouts := r.ackTimeouts + 1)
  }

  function CommandExpired(r: State): State {
    Clear(r).(machine := Handle(r.machine, CommandTimeout).machine)
  }

  /** The locked part of a periodic tick: acknowledgement timeout first, then the command watchdog. */
  function Tick(cfg: Config, r0: State, t: int): State {
    var r := if AckOverdue(cfg, r0, t) then AckExpired(r0) else r0;
    if CanAcceptOutput(r.machine) && Overdue(r.dog, cfg.commandTimeout, t) then
      (if r.dog.expired then r else CommandExpired(r))
    else r
  }

  function Stopped(r: State): State { Clear(r).(machine := INITIAL, running := false) }

  // ---------- the runtime object ----------

  class LinuxRuntime {
    const cfg: Config
    const machine: RuntimeStateMachine
    const mailbox: CommandMailbox
    const watchdog: MonotonicWatchdog
    var running: bool
    var activeSession: Option<nat>
    var lastSequence: nat
    var ackPending: bool
    var sentSession: u16
    var sentSequence: u16
    var sentTime: int
    var ackTimeouts: nat
    var unexpectedAcks: nat

    ghost predicate Wired() { watchdog.timeout == cfg.commandTimeout }

    ghost function View(): State
      reads this, machine, mailbox, watchdog
    {
      State(machine.View(), running, mailbox.View(), watchdog.View(), activeSession, lastSequence,
            ackPending, sentSession, sentSequence, sentTime, ackTimeouts, unexpectedAcks)
    }

    constructor (config: Config)
      ensures cfg == config && Wired() && View() == INITIAL_STATE
      ensures fresh(machine) && fresh(mailbox) && fresh(watchdog)
    {
      cfg := config;
      machine := new RuntimeStateMachine();
      mailbox := new CommandMailbox();
      watchdog := new MonotonicWatchdog(config.commandTimeout);
      running, activeSession, lastSequence := true, None, 0;
      ackPending, sentSession, sentSequence, sentTime := false, 0, 0, 0;
      ackTimeouts, unexpectedAcks := 0, 0;
    }

    method ClearOutputPath()
      modifies this, mailbox, watchdog
      ensures View() == Clear(old(View()))
    {
      watchdog.Disarm();
      mailbox.Clear();
      activeSession, lastSequence, ackPending := None, 0, false;
    }

    method MaybeDisarmIdleWatchdog()
      modifies watchdog
      ensures View() == MaybeDisarm(old(View()))
    {
      if mailbox.slot.None? && !ackPending {
        watchdog.Disarm();
      }
    }

    method Submit(e: Event) returns (t: Transition)
      modifies this, machine, mailbox, watchdog
      ensures (View(), t.accepted) == HandleEvent(old(View()), e)
      ensures t.from == old(machine.mode) && t.to == machine.mode
    {
      if e.FaultDetected? || (e.ActivateRequest? && !running) {
        return Transition(false, machine.mode, machine.mode);
      }
      ghost var before := View();
      HandleFollowsTable(before.machine, e);
      t := machine.Submit(e);
      if t.accepted {
        if t.to.Active? && !t.from.Active? {
          ClearOutputPath();
        } else if t.from.Active? && !t.to.Active? {
          ClearOutputPath();
        }
      }
    }

    method Raise(code: FaultCode)
      modifies this, machine, mailbox, watchdog
      ensures View() == RaiseFault(old(View()), code)
      ensures machine.interlockReady == old(machine.interlockReady)
      ensures !code.NoFault? ==> !machine.mode.Active?
    {
      if code.NoFault? {
        return;
      }
      machine.SetFault(code);
      var _ := machine.Submit(FaultDetected);
      ClearOutputPath();
    }

    method SetInterlockReady(ready: bool)
      modifies this, machine, mailbox, watchdog
      ensures View() == SetInterlock(old(View()), ready)
      ensures machine.interlockReady == ready && (!ready ==> !machine.mode.Active?)
    {
      var before := machine.mode;
      var _ := machine.Submit(if ready then InterlockReady else InterlockLost);
      if before.Active? && !machine.mode.Active? {
        ClearOutputPath();
      }
    }

    method PublishCommand(cmd: OutputCommand, now: Option<int>) returns (ok: bool)
      modifies this, mailbox, watchdog
      ensures (View(), ok) == Publish(old(View()), cmd, now)
    {
      if now.None? || !running || !(machine.mode.Active? && machine.interlockReady) {
        return false;
      }
      if cmd.session == 0 || cmd.sequence == 0 || cmd.mask == 0 || cmd.deadline <= now.value {
        return false;
      }
      if activeSession.None? {
        activeSession := Some(cmd.session);
      } else if activeSession.value != cmd.session {
        return false;
      }
      if cmd.sequence <= lastSequence {
        return false;
      }
      lastSequence := cmd.sequence;
      mailbox.Publish(cmd);
      watchdog.Arm(now.value);
      return true;
    }

    method TryConsume(now: Option<int>) returns (cmd: Option<OutputCommand>)
      modifies mailbox, watchdog
      ensures (View(), cmd) == Consume(old(View()), now)
    {
      if now.None? {
        return None;
      }
      if !running || !(machine.mode.Active? && machine.interlockReady) {
        mailbox.Clear();
        return None;
      }
      if ackPending {
        return None;
      }
      cmd := mailbox.TryConsume();
      if cmd.Some? && cmd.value.deadline <= now.value {
        MaybeDisarmIdleWatchdog();
        return None;
      }
    }

    method CommandSendable(cmd: OutputCommand, now: Option<int>) returns (ok: bool)
      ensures ok == Sendable(View(), cmd, now)
    {
      if now.None? {
        return false;
      }
      return running && machine.mode.Active? && machine.interlockReady && !ackPending
             && activeSession.Some? && activeSession.value == cmd.session && cmd.deadline > now.value;
    }

    method NoteCommandSent(session: u16, sequence: u16, time: int) returns (r: Result<()>)
      modifies this
      ensures (View(), r) == NoteSent(old(View()), session, sequence, time)
    {
      if session == 0 || sequence == 0 || time <= 0 {
        return Err(InvalidArgument);
      }
      if !running || !(machine.mode.Active? && machine.interlockReady) || activeSession.None?
         || activeSession.value % 0x1_0000 != session {
        return Err(Rejected);
      }
      if ackPending {
        return Err(Busy);
      }
      ackPending, sentSession, sentSequence, sentTime := true, session, sequence, time;
      return Ok(());
    }

    method ObserveStatus(session: u16, sequence: u16, result: CanV1.OutputResult)
      modifies this, watchdog
      ensures View() == Observe(old(View()), session, sequence, result)
    {
      if ackPending && session == sentSession && sequence == sentSequence && result.Applied? {
        ackPending := false;
        MaybeDisarmIdleWatchdog();
        return;
      }
      unexpectedAcks := unexpectedAcks + 1;
    }

    method OnTick(t: int)
      requires Wired()
      modifies this, machine, mailbox, watchdog
      ensures View() == Tick(cfg, old(View()), t)
      ensures old(machine.mode.Active? && machine.interlockReady) ==>
                (!machine.mode.Active? <==>
                   || old(ackPending && sentTime <= t && t - sentTime >= cfg.ackTimeout)
                   || old(watchdog.armed && !watchdog.expired
                          && (t - watchdog.lastKick >= cfg.commandTimeout || cfg.commandTimeout <= 0)))
    {
      if machine.mode.Active? && machine.interlockReady && ackPending
         && t >= sentTime && t - sentTime >= cfg.ackTimeout {
        ackTimeouts := ackTimeouts + 1;
        machine.SetFault(AckTimeout);
        var _ := machine.Submit(HoldRequest);
        ClearOutputPath();
      }
      if machine.mode.Active? && machine.interlockReady {
        var newly := watchdog.Check(t);
        if newly {
          var _ := machine.Submit(CommandTimeout);
          ClearOutputPath();
        }
      }
    }

    method Stop()
      modifies this, machine, mailbox, watchdog
      ensures View() == Stopped(old(View()))
    {
      running := false;
      ClearOutputPath();
      machine.Reset();
    }
  }
}
