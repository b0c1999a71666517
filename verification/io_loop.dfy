/**
 The CAN I/O thread: it turns received frames into queued events and pumps the latest command
 onto the bus, tracking each frame it manages to send.
 */
module CanIo {
  import opened Bytes
  import opened CanV1
  import opened RuntimeCore
  import opened Rings
  import opened Supervision

  datatype StopReason = NotStopped | EventFd | Signal | IoError | SendFailure

  datatype SendOutcome = Sent | WouldBlock | Failed

  datatype Io = Io(pending: Option<OutputCommand>, stopRequested: bool, reason: StopReason, framesSent: nat)

  const IO_START := Io(None, false, NotStopped, 0)

  predicate HasFailed(io: Io) { io.reason.IoError? || io.reason.SendFailure? }

  /** The wire form of a command: fields narrowed, deadline made relative. */
  function ToWire(cmd: OutputCommand, node: u8, now: int): (r: Result<Message>)
    ensures r.Ok? ==> r.value.Command?
  {
    if cmd.session == 0 || cmd.session > 0xFFFF || cmd.sequence == 0 || cmd.mask % 256 == 0
    then Err(Errc.Rejected)
    else
      var validity := Validity10ms(now, cmd.deadline);
      if validity.Err? then Err(validity.code)
      else Ok(Command(node, BitsOf(cmd.mask % 256), cmd.session, WireSequence(cmd.sequence),
                      BitsOf(cmd.values % 256), validity.value))
  }

  /**
   A command has a wire form exactly when its session fits 16 bits and is not 0, its sequence is not 0, its mask has a
   line among the low eight and its deadline lies 10 ms to 2.5 s ahead.
   */
  lemma WireFormExactly(cmd: OutputCommand, node: u8, now: int)
    ensures ToWire(cmd, node, now).Ok? <==>
              && 1 <= cmd.session <= 65535 && 1 <= cmd.sequence && cmd.mask % 256 != 0
              && 10_000_000 <= cmd.deadline - now <= 2_500_000_000
    ensures ToWire(cmd, node, now).Ok? ==> ToWire(cmd, node, now).value.node == node
  {
    hide BitsOf, WireSequence;
    ValidityExact(now, cmd.deadline);
  }

  /** Everything that reaches the bus is legal there and still says what was asked for. */
  lemma WireSaysTheSame(cmd: OutputCommand, node: u8, now: int)
    requires 1 <= node <= MAX_NODE_ID && ToWire(cmd, node, now).Ok?
    ensures var w := ToWire(cmd, node, now).value;
            && Encode(w).Ok? && DecodeCommand(Encode(w).value) == Ok(w)
            && w.sessionId == cmd.session && cmd.sequence > 0 && w.sequence == WireSequence(cmd.sequence)
            && ValueOf(w.mask) == cmd.mask % 256 && ValueOf(w.values) == cmd.values % 256
            && cmd.deadline - now <= w.validity * VALIDITY_UNIT_NS < cmd.deadline - now + VALIDITY_UNIT_NS
  {
    hide BitsOf, WireSequence, FrameOf;
    var w := ToWire(cmd, node, now).value;
    ValidityExact(now, cmd.deadline);
    ZeroByte(w.mask);
    RoundTrip(w);
  }

  /** The event a received frame turns into; the runtime's own commands are not echoed back. */
  function Translate(node: u8, f: CanFrame, now: int): Option<InputEvent> {
    var decoded := Decode(f);
    if decoded.Err? then Some(RejectEvent(now, node))
    else match decoded.value
      case Heartbeat(n, boot, session, _) => Some(HeartbeatEvent(now, n, boot, session))
      case Status(n, ready, session, _, fault) => Some(StatusEvent(now, n, session, ready, fault))
      case OutputStatus(n, result, session, sequence, _) => Some(OutputEvent(now, n, session, sequence, result))
      case Command(_, _, _, _, _, _) => None
  }

  /** Every frame but a command becomes one event stamped with its arrival; nothing the supervisor needs is lost. */
  lemma TranslatesExactly(node: u8, f: CanFrame, now: int)
    ensures var d, ev := Decode(f), Translate(node, f, now);
            && (ev.None? <==> d.Ok? && d.value.Command?)
            && (ev.Some? ==> ev.value.time == now && ev.value.node == if d.Ok? then d.value.node else node)
            && (ev.Some? && ev.value.RejectEvent? <==> d.Err?)
            && (ev.Some? && ev.value.HeartbeatEvent? <==> d.Ok? && d.value.Heartbeat?)
            && (ev.Some? && ev.value.StatusEvent? <==> d.Ok? && d.value.Status?)
            && (d.Ok? && d.value.Heartbeat? ==>
                  ev.value.bootId == d.value.bootId && ev.value.sessionId == d.value.sessionId)
            && (d.Ok? && d.value.Status? ==>
                  && ev.value.sessionId == d.value.sessionId && ev.value.ready == d.value.interlockReady
                  && ev.value.fault == d.value.faultCode)
            && (d.Ok? && d.value.OutputStatus? ==>
                  && ev.value.OutputEvent? && ev.value.sessionId == d.value.sessionId
                  && ev.value.sequence == d.value.sequence && ev.value.result == d.value.result)
  {
    hide Decode;
  }

  function Enqueue(q: Fifo<InputEvent>, ev: Option<InputEvent>): Fifo<InputEvent> {
    if ev.None? then q else Push(q, ev.value)
  }

  /** What one non-blocking read of the socket brings. */
  datatype Reading = Got(frame: CanFrame, now: int) | NoFrame | ReadFailed(now: int)

  /** A wake-up of the receive side: read until the socket is empty, the budget is spent or a read fails. */
  function Reads(io: Io, q: Fifo<InputEvent>, node: u8, inbox: seq<Reading>, budget: nat): (Io, Fifo<InputEvent>)
    decreases budget
  {
    if budget == 0 || io.stopRequested || inbox == [] then (io, q)
    else match inbox[0]
      case NoFrame => (io, q)
      case ReadFailed(now) => (io.(reason := IoError, stopRequested := true), Push(q, IoErrorEvent(now, node)))
      case Got(f, now) => Reads(io, Enqueue(q, Translate(node, f, now)), node, inbox[1..], budget - 1)
  }

  function EnqueueAll(q: Fifo<InputEvent>, node: u8, inbox: seq<Reading>): Fifo<InputEvent>
    requires forall i :: 0 <= i < |inbox| ==> inbox[i].Got?
    decreases |inbox|
  {
    if inbox == [] then q else EnqueueAll(Enqueue(q, Translate(node, inbox[0].frame, inbox[0].now)), node, inbox[1..])
  }

  /**
   A wake-up takes the frames at the front of the inbox, all of them if the budget allows, each once and in order;
   k is their number. A failed read after them is queued too and stops the thread; a stopped thread reads nothing.
   */
  lemma {:induction false} ReadsExactly(io: Io, q: Fifo<InputEvent>, node: u8, inbox: seq<Reading>, budget: nat, k: nat)
    requires k <= budget && k <= |inbox| && forall i :: 0 <= i < k ==> inbox[i].Got?
    requires k == budget || k == |inbox| || !inbox[k].Got?
    ensures var q' := EnqueueAll(q, node, inbox[..k]);
            Reads(io, q, node, inbox, budget) ==
              if io.stopRequested then (io, q)
              else if k < budget && k < |inbox| && inbox[k].ReadFailed?
              then (io.(reason := IoError, stopRequested := true), Push(q', IoErrorEvent(inbox[k].now, node)))
              else (io, q')
    decreases k
  {
    hide Translate;
    if k > 0 && !io.stopRequested {
      assert inbox[..k][1..] == inbox[1..][..k - 1];
      ReadsExactly(io, Enqueue(q, Translate(node, inbox[0].frame, inbox[0].now)), node, inbox[1..], budget - 1, k - 1);
    }
  }

  // ---------- the pump, one lock acquisition or socket call at a time ----------

  function AfterConsume(io: Io, got: Option<OutputCommand>): Io {
    if got.Some? then io.(pending := got) else io
  }

  function AfterCheck(io: Io, sendable: bool): Io { if sendable then io else io.(pending := None) }

  /** What the send attempt leaves behind: the new state, an event to queue, the frame if it went out. */
  datatype Dispatch = Dispatch(io: Io, event: Option<InputEvent>, wire: Option<WireCommand>)

  function Send(io: Io, cmd: OutputCommand, node: u8, now: Option<int>, outcome: SendOutcome): Dispatch {
    var dropped := io.(pending := None);
    if now.None? then Dispatch(dropped, None, None)
    else
      var wire := ToWire(cmd, node, now.value);
      if wire.Err? || Encode(wire.value).Err? then
        Dispatch(dropped, Some(RejectEvent(now.value, node)), None)
      else match outcome
        case WouldBlock => Dispatch(io, None, None)
        case Failed =>
          Dispatch(dropped.(stopRequested := true, reason := SendFailure), Some(IoErrorEvent(now.value, node)), None)
        case Sent => Dispatch(io.(framesSent := io.framesSent + 1), None, Some(wire.value))
  }

  function AfterNote(io: Io, tracked: bool): Io {
    if tracked then io.(pending := None)
    else io.(pending := None, stopRequested := true, reason := SendFailure)
  }

  /** The three things a pump call touches. */
  datatype Loop = Loop(io: Io, rt: State, queue: Fifo<InputEvent>)

  function Fetch(l: Loop, now: Option<int>): Loop {
    var (rt, got) := Consume(l.rt, now);
    Loop(AfterConsume(l.io, got), rt, l.queue)
  }

  function Track(l: Loop, node: u8, wire: WireCommand, at: int): Loop {
    var (rt, noted) := NoteSent(l.rt, wire.sessionId, wire.sequence, at);
    Loop(AfterNote(l.io, noted.Ok?), rt, if noted.Ok? then l.queue else Push(l.queue, IoErrorEvent(at, node)))
  }

  function SendAndTrack(l: Loop, cmd: OutputCommand, node: u8, now: Option<int>, outcome: SendOutcome):
    (Loop, Option<WireCommand>)
  {
    var d := Send(l.io, cmd, node, now, outcome);
    var sent := Loop(d.io, l.rt, Enqueue(l.queue, d.event));
    if d.wire.None? then (sent, None) else (Track(sent, node, d.wire.value, now.value), d.wire)
  }

  /** A whole pump call when no other thread intervenes, with the frame that went out, if any. */
  function WholePump(l: Loop, node: u8, t1: Option<int>, t2: Option<int>, t3: Option<int>, outcome: SendOutcome):
    (Loop, Option<WireCommand>)
  {
    var l1 := Fetch(l, t1);
    if l1.io.pending.None? then (l1, None)
    else if !Sendable(l1.rt, l1.io.pending.value, t2) then (l1.(io := AfterCheck(l1.io, false)), None)
    else SendAndTrack(l1, l1.io.pending.value, node, t3, outcome)
  }

  class CanIoLoop {
    const nodeId: u8
    const runtime: LinuxRuntime
    const queue: BoundedInputQueue<InputEvent>
    var pending: Option<OutputCommand>
    var stopRequested: bool
    var reason: StopReason
    var framesSent: nat

    ghost function View(): Io reads this { Io(pending, stopRequested, reason, framesSent) }

    ghost function Whole(): Loop
      reads this, runtime, runtime.machine, runtime.mailbox, runtime.watchdog, queue, queue.storage
      requires queue.Valid()
    {
      Loop(View(), runtime.View(), queue.View())
    }

    constructor (node: u8, rt: LinuxRuntime, events: BoundedInputQueue<InputEvent>)
      ensures nodeId == node && runtime == rt && queue == events && View() == IO_START
    {
      nodeId, runtime, queue := node, rt, events;
      pending, stopRequested, reason, framesSent := None, false, NotStopped, 0;
    }

    /** One frame of the receive loop. */
    method HandleFrame(f: CanFrame, now: int)
      requires queue.Valid()
      modifies queue, queue.storage
      ensures queue.Valid() && queue.View() == Enqueue(old(queue.View()), Translate(nodeId, f, now))
    {
      var ev := Translate(nodeId, f, now);
      if ev.Some? {
        var _ := queue.TryPush(ev.value);
      }
    }

    /** An inbox that ends is a socket that would block. */
    method HandleCanReady(inbox: seq<Reading>, maxFrames: nat)
      requires queue.Valid()
      modifies this, queue, queue.storage
      ensures queue.Valid()
      ensures (View(), queue.View()) == Reads(old(View()), old(queue.View()), nodeId, inbox, maxFrames)
    {
      hide Translate;
      var budget, next := maxFrames, 0;
      while budget > 0 && !stopRequested
        invariant next <= |inbox| && queue.Valid()
        invariant Reads(View(), queue.View(), nodeId, inbox[next..], budget)
               == Reads(old(View()), old(queue.View()), nodeId, inbox, maxFrames)
        decreases budget
      {
        if next == |inbox| || inbox[next].NoFrame? {
          return;
        }
        assert inbox[next..][1..] == inbox[next + 1..];
        var reading := inbox[next];
        if reading.ReadFailed? {
          var _ := queue.TryPush(IoErrorEvent(reading.now, nodeId));
          reason, stopRequested := IoError, true;
          return;
        }
        HandleFrame(reading.frame, reading.now);
        budget, next := budget - 1, next + 1;
      }
    }

    method FailSend(at: int)
      requires queue.Valid()
      modifies this, queue, queue.storage
      ensures queue.Valid() && queue.View() == Push(old(queue.View()), IoErrorEvent(at, nodeId))
      ensures View() == old(View()).(pending := None, stopRequested := true, reason := SendFailure)
    {
      var _ := queue.TryPush(IoErrorEvent(at, nodeId));
      reason, stopRequested, pending := SendFailure, true, None;
    }

    method SendPending(now: Option<int>, outcome: SendOutcome) returns (wire: Option<WireCommand>)
      requires queue.Valid() && pending.Some?
      modifies this, queue, queue.storage
      ensures queue.Valid()
      ensures var d := Send(old(View()), old(pending).value, nodeId, now, outcome);
              View() == d.io && wire == d.wire && queue.View() == Enqueue(old(queue.View()), d.event)
    {
      hide ToWire, Encode;
      if now.None? {
        pending := None;
        return None;
      }
      var w := ToWire(pending.value, nodeId, now.value);
      if w.Err? {
        var _ := queue.TryPush(RejectEvent(now.value, nodeId));
        pending := None;
        return None;
      }
      var encoded := Encode(w.value);
      if encoded.Err? {
        var _ := queue.TryPush(RejectEvent(now.value, nodeId));
        pending := None;
        return None;
      }
      match outcome {
        case WouldBlock =>
          return None;
        case Failed =>
          FailSend(now.value);
          return None;
        case Sent =>
          framesSent := framesSent + 1;
          return Some(w.value);
      }
    }

    method FetchPending(now: Option<int>)
      requires queue.Valid()
      modifies this, runtime.mailbox, runtime.watchdog
      ensures queue.Valid() && Whole() == Fetch(old(Whole()), now)
    {
      hide Consume;
      var latest := runtime.TryConsume(now);
      if latest.Some? {
        pending := latest;
      }
    }

    method TrackSent(wire: WireCommand, at: int)
      requires queue.Valid()
      modifies this, runtime, queue, queue.storage
      ensures queue.Valid() && Whole() == Track(old(Whole()), nodeId, wire, at)
    {
      hide NoteSent;
      var tracked := runtime.NoteCommandSent(wire.sessionId, wire.sequence, at);
      if tracked.Err? {
        FailSend(at);
      } else {
        pending := None;
      }
    }

    method PumpPending(now: Option<int>, outcome: SendOutcome) returns (wire: Option<WireCommand>)
      requires queue.Valid() && pending.Some?
      modifies this, runtime, queue, queue.storage
      ensures queue.Valid()
      ensures (Whole(), wire) == SendAndTrack(old(Whole()), old(pending).value, nodeId, now, outcome)
    {
      hide Send, Track;
      SentHasTime(View(), pending.value, nodeId, now, outcome);
      wire := SendPending(now, outcome);
      if wire.Some? {
        TrackSent(wire.value, now.value);
      }
    }

    method PumpOutput(t1: Option<int>, t2: Option<int>, t3: Option<int>, outcome: SendOutcome)
      returns (wire: Option<WireCommand>)
      requires queue.Valid()
      modifies this, runtime, runtime.mailbox, runtime.watchdog, queue, queue.storage
      ensures queue.Valid()
      ensures (Whole(), wire) == WholePump(old(Whole()), nodeId, t1, t2, t3, outcome)
    {
      hide Fetch, Sendable, SendAndTrack;
      FetchPending(t1);
      if pending.None? {
        return None;
      }
      var sendable := runtime.CommandSendable(pending.value, t2);
      if !sendable {
        pending := None;
        return None;
      }
      wire := PumpPending(t3, outcome);
    }
  }

  /** What is sent is what has a wire form now; w is that form. */
  predicate HasWire(cmd: OutputCommand, now: int) {
    && 1 <= cmd.session <= 65535 && 1 <= cmd.sequence && cmd.mask % 256 != 0
    && 10_000_000 <= cmd.deadline - now <= 2_500_000_000
  }

  /**
   A send attempt: without a clock, or without a wire form, the command is dropped, in the second case with a reject;
   a full socket changes nothing; a broken one drops the command, queues the failure and stops the thread; otherwise
   the frame is out, counted, and stays pending until it is tracked.
   */
  lemma SendExactly(io: Io, cmd: OutputCommand, node: u8, now: Option<int>, outcome: SendOutcome)
    requires 1 <= node <= 31
    ensures var d := Send(io, cmd, node, now, outcome);
            if now.None? then d == Dispatch(io.(pending := None), None, None)
            else if !HasWire(cmd, now.value) then
              d == Dispatch(io.(pending := None), Some(RejectEvent(now.value, node)), None)
            else match outcome
              case WouldBlock => d == Dispatch(io, None, None)
              case Failed => d == Dispatch(Io(None, true, SendFailure, io.framesSent),
                                           Some(IoErrorEvent(now.value, node)), None)
              case Sent => d.wire.Some? && ToWire(cmd, node, now.value) == Ok(d.wire.value)
                           && d == Dispatch(io.(framesSent := io.framesSent + 1), None, d.wire)
  {
    hide ToWire, Encode;
    if now.Some? {
      WireFormExactly(cmd, node, now.value);
      if HasWire(cmd, now.value) { WireSaysTheSame(cmd, node, now.value); }
    }
  }

  lemma SentHasTime(io: Io, cmd: OutputCommand, node: u8, now: Option<int>, outcome: SendOutcome)
    ensures var d := Send(io, cmd, node, now, outcome);
            d.wire.Some? ==>
              && now.Some? && d.event.None? && d.io == io.(framesSent := io.framesSent + 1)
              && ToWire(cmd, node, now.value) == Ok(d.wire.value) && Encode(d.wire.value).Ok?
  {
  }
}
