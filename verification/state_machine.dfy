/** The six-mode software state machine that holds the only permission to drive outputs. */
module StateMachine {
  import opened Bytes

  datatype Mode = Disabled | Idle | Active | Hold | Fault | EStop

  datatype Event =
    | Boot | ActivateRequest | DeactivateRequest | CommandTimeout | InterlockLost | InterlockReady
    | FaultDetected | FaultCleared | EStopTrigger | EStopReset | Resume | HoldRequest

  datatype FaultCode =
    | NoFault | Watchdog | InputFault | CommLoss | NodeFault | ProtocolReject | InterlockOpen | Internal
    | AckTimeout

  datatype Machine = Machine(mode: Mode, ready: bool, fault: FaultCode)

  const INITIAL := Machine(Disabled, false, NoFault)

  datatype Transition = Transition(accepted: bool, from: Mode, to: Mode)

  predicate CanAcceptOutput(m: Machine) { m.mode.Active? && m.ready }

  // ---------- the reference: which mode each accepted event leads to ----------

  /** Faults a Hold may carry, all of which a Resume acknowledges. */
  predicate Resumable(f: FaultCode) {
    f.NoFault? || f.Watchdog? || f.InterlockOpen? || f.AckTimeout?
  }

  /** Mode changes by (mode, event); pairs that are absent are refused or only informative. */
  function Tabled(mode: Mode, e: Event): Option<Mode> {
    match (mode, e)
    case (Disabled, Boot) => Some(Idle)
    case (Disabled, DeactivateRequest) => Some(Disabled)
    case (Idle, ActivateRequest) => Some(Active)
    case (Idle, DeactivateRequest) => Some(Disabled)
    case (Idle, FaultDetected) => Some(Fault)
    case (Active, DeactivateRequest) => Some(Idle)
    case (Active, CommandTimeout) => Some(Hold)
    case (Active, InterlockLost) => Some(Hold)
    case (Active, FaultDetected) => Some(Fault)
    case (Active, HoldRequest) => Some(Hold)
    case (Hold, Resume) => Some(Idle)
    case (Hold, DeactivateRequest) => Some(Disabled)
    case (Hold, FaultDetected) => Some(Fault)
    case (Fault, FaultCleared) => Some(Idle)
    case (Fault, DeactivateRequest) => Some(Disabled)
    case (EStop, EStopReset) => Some(Idle)
    case _ => None
  }

  /** The extra condition three of the rows carry. */
  predicate Guarded(m: Machine, e: Event) {
    && (e.ActivateRequest? ==> m.ready)
    && (e.Resume? ==> m.ready && Resumable(m.fault))
    && (e.EStopReset? ==> m.ready)
  }

  predicate Informative(e: Event) { e.InterlockReady? || e.InterlockLost? }

  function Target(m: Machine, e: Event): Mode {
    if e.EStopTrigger? then EStop
    else if Tabled(m.mode, e).Some? then Tabled(m.mode, e).value
    else m.mode
  }

  function ReadyAfter(m: Machine, e: Event): bool { if Informative(e) then e.InterlockReady? else m.ready }

  /** The fault an accepted event leaves: recoveries, activation and the emergency stop clear it, two drops set it. */
  function FaultLeft(m: Machine, e: Event): FaultCode {
    match (m.mode, e)
    case (_, EStopTrigger) => NoFault
    case (Idle, ActivateRequest) => NoFault
    case (Hold, Resume) => NoFault
    case (Hold, DeactivateRequest) => NoFault
    case (Fault, FaultCleared) => NoFault
    case (Fault, DeactivateRequest) => NoFault
    case (EStop, EStopReset) => NoFault
    case (Active, CommandTimeout) => Watchdog
    case (Active, InterlockLost) => InterlockOpen
    case _ => m.fault
  }

  predicate Accepts(m: Machine, e: Event) {
    e.EStopTrigger? || Informative(e) || (Tabled(m.mode, e).Some? && Guarded(m, e))
  }

  // ---------- the machine as the code branches ----------

  datatype Outcome = Outcome(machine: Machine, accepted: bool)

  function Refuse(m: Machine): Outcome { Outcome(m, false) }
  function Go(m: Machine, next: Mode): Outcome { Outcome(m.(mode := next), true) }

  function Handle(m0: Machine, e: Event): Outcome {
    var m :=
      if e.InterlockReady? then m0.(ready := true)
      else if e.InterlockLost? then m0.(ready := false)
      else m0;
    var rest := if Informative(e) then Go(m, m.mode) else Refuse(m);
    if e.EStopTrigger? then Go(m.(fault := NoFault), EStop)
    else match m.mode
      case Disabled =>
        if e.Boot? then Go(m, Idle) else if e.DeactivateRequest? then Go(m, Disabled) else rest
      case Idle =>
        if e.ActivateRequest? then (if m.ready then Go(m.(fault := NoFault), Active) else Refuse(m))
        else if e.DeactivateRequest? then Go(m, Disabled)
        else if e.FaultDetected? then Go(m, Fault)
        else rest
      case Active =>
        if e.DeactivateRequest? then Go(m, Idle)
        else if e.CommandTimeout? then Go(m.(fault := Watchdog), Hold)
        else if e.InterlockLost? then Go(m.(fault := InterlockOpen), Hold)
        else if e.FaultDetected? then Go(m, Fault)
        else if e.HoldRequest? then Go(m, Hold)
        else rest
      case Hold =>
        if e.Resume? then
          (if !m.ready then Refuse(m)
           else if Resumable(m.fault) then Go(m.(fault := NoFault), Idle)
           else Refuse(m))
        else if e.DeactivateRequest? then Go(m.(fault := NoFault), Disabled)
        else if e.FaultDetected? then Go(m, Fault)
        else rest
      case Fault =>
        if e.FaultCleared? then Go(m.(fault := NoFault), Idle)
        else if e.DeactivateRequest? then Go(m.(fault := NoFault), Disabled)
        else rest
      case EStop =>
        if e.EStopReset? then (if m.ready then Go(m.(fault := NoFault), Idle) else Refuse(m))
        else rest
  }

  class RuntimeStateMachine {
    var mode: Mode
    var interlockReady: bool
    var fault: FaultCode

    ghost function View(): Machine reads this { Machine(mode, interlockReady, fault) }

    constructor ()
      ensures View() == INITIAL
    {
      mode, interlockReady, fault := Disabled, false, NoFault;
    }

    method Reset()
      modifies this
      ensures View() == INITIAL
    {
      mode, interlockReady, fault := Disabled, false, NoFault;
    }

    method SetFault(code: FaultCode)
      modifies this
      ensures View() == old(View()).(fault := code)
    {
      fault := code;
    }

    method Accept(next: Mode) returns (t: Transition)
      modifies this`mode
      ensures mode == next && t == Transition(true, old(mode), next)
    {
      t := Transition(true, mode, next);
      mode := next;
    }

    method Submit(e: Event) returns (t: Transition)
      modifies this
      ensures Outcome(View(), t.accepted) == Handle(old(View()), e)
      ensures t.from == old(mode) && t.to == mode
      ensures t.accepted <==> Accepts(old(View()), e)
      ensures var m := old(View());
              View() == if t.accepted then Machine(Target(m, e), ReadyAfter(m, e), FaultLeft(m, e)) else m
    {
      HandleExactly(View(), e);
      hide Accepts, Target, ReadyAfter, FaultLeft;
      if e.InterlockReady? {
        interlockReady := true;
      } else if e.InterlockLost? {
        interlockReady := false;
      }
      if e.EStopTrigger? {
        fault := NoFault;
        t := Accept(EStop);
        return;
      }
      match mode {
        case Disabled =>
          if e.Boot? { t := Accept(Idle); return; }
          if e.DeactivateRequest? { t := Accept(Disabled); return; }
        case Idle =>
          if e.ActivateRequest? {
            if !interlockReady { return Transition(false, mode, mode); }
            fault := NoFault;
            t := Accept(Active);
            return;
          }
          if e.DeactivateRequest? { t := Accept(Disabled); return; }
          if e.FaultDetected? { t := Accept(Fault); return; }
        case Active =>
          if e.DeactivateRequest? { t := Accept(Idle); return; }
          if e.CommandTimeout? { fault := Watchdog; t := Accept(Hold); return; }
          if e.InterlockLost? { fault := InterlockOpen; t := Accept(Hold); return; }
          if e.FaultDetected? { t := Accept(Fault); return; }
          if e.HoldRequest? { t := Accept(Hold); return; }
        case Hold =>
          if e.Resume? {
            if !interlockReady || !Resumable(fault) { return Transition(false, mode, mode); }
            fault := NoFault;
            t := Accept(Idle);
            return;
          }
          if e.DeactivateRequest? { fault := NoFault; t := Accept(Disabled); return; }
          if e.FaultDetected? { t := Accept(Fault); return; }
        case Fault =>
          if e.FaultCleared? { fault := NoFault; t := Accept(Idle); return; }
          if e.DeactivateRequest? { fault := NoFault; t := Accept(Disabled); return; }
        case EStop =>
          if e.EStopReset? {
            if !interlockReady { return Transition(false, mode, mode); }
            fault := NoFault;
            t := Accept(Idle);
            return;
          }
      }
      if e.InterlockReady? || e.InterlockLost? {
        t := Accept(mode);
        return;
      }
      return Transition(false, mode, mode);
    }
  }

  /**
   The branches implement the table: an event is accepted exactly when the table or its two
   global rules allow it, it then leads to the tabled mode, and a refused event changes nothing.
   */
  lemma HandleFollowsTable(m: Machine, e: Event)
    ensures var o := Handle(m, e);
            && (o.accepted <==> Accepts(m, e))
            && (o.accepted ==> o.machine.mode == Target(m, e))
            && (!o.accepted ==> o.machine == m)
            && o.machine.ready == (if Informative(e) then e.InterlockReady? else m.ready)
  {
    match m.mode
    case Disabled =>
    case Idle =>
    case Active =>
    case Hold =>
    case Fault =>
    case EStop =>
  }

  /** An accepted event leaves exactly the tabled fault, a refused one the fault that was there. */
  lemma FaultAfter(m: Machine, e: Event)
    ensures Handle(m, e).machine.fault == if Accepts(m, e) then FaultLeft(m, e) else m.fault
  {
    match m.mode
    case Disabled =>
    case Idle =>
    case Active =>
    case Hold =>
    case Fault =>
    case EStop =>
  }

  /** The whole machine after any event, from the tables alone. */
  lemma HandleExactly(m: Machine, e: Event)
    ensures var o := Handle(m, e);
            && (o.accepted <==> Accepts(m, e))
            && o.machine == if Accepts(m, e) then Machine(Target(m, e), ReadyAfter(m, e), FaultLeft(m, e)) else m
  {
    hide Handle, Accepts, Target, FaultLeft;
    HandleFollowsTable(m, e);
    FaultAfter(m, e);
    if Informative(e) { InformativeIsAccepted(m, e); }
  }

  lemma InformativeIsAccepted(m: Machine, e: Event)
    requires Informative(e)
    ensures Accepts(m, e)
  {
  }
}
