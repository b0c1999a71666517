/**
 The CAN node's business logic: session check, sequence freshness, relative expiry and the
 lease that bounds every applied output. Times are nanoseconds on the node's own clock.
 */
module NodeLogic {
  import opened Bytes
  import opened CanV1

  datatype Node = Node(
    nodeId: u8, bootId: u16, sessionId: u16, hbSeq: u16,
    interlock: bool, inputBits: u16, faultCode: u16,
    output: bv8, leaseActive: bool, leaseDeadline: int,
    hasAccepted: bool, lastAccepted: u16, rejects: nat)

  datatype Handled = Handled(node: Node, status: WireStatus)

  /** What a node puts on the bus after one frame. */
  datatype Reply = Silent | Malformed | Answer(status: WireStatus)

  function NextNonzero(v: u16): u16 { if v == 0xFFFF then 1 else v + 1 }

  function Fresh(nodeId: u8, boot: u16, session: u16, interlock: bool): Node {
    Node(nodeId, if boot == 0 then 1 else boot, if session == 0 then 1 else session, 0,
         interlock, 0, 0, 0, false, 0, false, 0, 0)
  }

  function Neutral(n: Node): Node { n.(output := 0, leaseActive := false, leaseDeadline := 0) }

  function SetInterlock(n: Node, ready: bool): Node {
    if ready then n.(interlock := true) else Neutral(n).(interlock := false)
  }

  function SoftRestart(n: Node): Node {
    Node(n.nodeId, NextNonzero(n.bootId), NextNonzero(n.sessionId), 0,
         n.interlock, n.inputBits, n.faultCode, 0, false, 0, false, 0, n.rejects)
  }

  function Expire(n: Node, now: int): Node {
    if n.leaseActive && n.leaseDeadline <= now then Neutral(n) else n
  }

  /** Mask bits take the new value, all others keep the old one. */
  function Merge(output: bv8, mask: bv8, values: bv8): bv8 { (output & !mask) | (values & mask) }

  /** The first refusal reason in contract order, or Applied; n is already expired at now. */
  function Verdict(n: Node, cmd: WireCommand, receive: int, now: int): OutputResult {
    if cmd.sessionId != n.sessionId then SessionMismatch
    else if !n.interlock then NotReady
    else if n.hasAccepted && !SeqNewer(cmd.sequence, n.lastAccepted) then StaleSequence
    else if DeadlineOf(receive, cmd.validity) <= now then Expired
    else Applied
  }

  function Take(n: Node, cmd: WireCommand, receive: int): Node {
    n.(output := Merge(n.output, cmd.mask, cmd.values),
       leaseActive := true, leaseDeadline := DeadlineOf(receive, cmd.validity),
       hasAccepted := true, lastAccepted := cmd.sequence)
  }

  function ApplyCommand(n: Node, cmd: WireCommand, receive: int, now: int): Handled {
    var e := Expire(n, now);
    var result := Verdict(e, cmd, receive, now);
    var n' := if result.Applied? then Take(e, cmd, receive) else e;
    Handled(n', OutputStatus(n.nodeId, result, n.sessionId, cmd.sequence, n'.output))
  }

  /** One frame off the bus: foreign identifiers are silent, undecodable commands only counted. */
  function OnFrame(n: Node, f: CanFrame, now: int): (Node, Reply) {
    var raw := StandardId(f.canId);
    if FunctionOfId(raw) != COMMAND_FUNCTION || NodeOfId(raw) != n.nodeId then (n, Silent)
    else
      var decoded := DecodeCommand(f);
      if decoded.Err? then (n.(rejects := n.rejects + 1), Malformed)
      else
        var h := ApplyCommand(n, decoded.value, now, now);
        (h.node, Answer(h.status))
  }

  function HeartbeatOf(n: Node): Message { Heartbeat(n.nodeId, n.bootId, n.sessionId, n.hbSeq) }

  function AfterHeartbeat(n: Node): Node { n.(hbSeq := (n.hbSeq + 1) % 0x1_0000) }

  function StatusOf(n: Node): Message {
    Status(n.nodeId, n.interlock, n.sessionId, n.inputBits, n.faultCode)
  }

  // ---------- the node object ----------

  class CanNodeLogic {
    var nodeId: u8
    var interlockReady: bool
    var inputBits: u16
    var faultCode: u16
    var bootId: u16
    var sessionId: u16
    var hbSeq: u16
    var outputBits: bv8
    var leaseActive: bool
    var leaseDeadline: int
    var hasAccepted: bool
    var lastAccepted: u16
    var rejects: nat

    ghost function View(): Node reads this {
      Node(nodeId, bootId, sessionId, hbSeq, interlockReady, inputBits, faultCode,
           outputBits, leaseActive, leaseDeadline, hasAccepted, lastAccepted, rejects)
    }

    constructor (node: u8, boot: u16, session: u16, interlock: bool)
      ensures View() == Fresh(node, boot, session, interlock)
    {
      nodeId, interlockReady, inputBits, faultCode := node, interlock, 0, 0;
      bootId := if boot == 0 then 1 else boot;
      sessionId := if session == 0 then 1 else session;
      hbSeq, outputBits, leaseActive, leaseDeadline := 0, 0, false, 0;
      hasAccepted, lastAccepted, rejects := false, 0, 0;
    }

    method SetInterlockReady(ready: bool)
      modifies this
      ensures View() == SetInterlock(old(View()), ready)
    {
      interlockReady := ready;
      if !ready {
        outputBits, leaseActive, leaseDeadline := 0, false, 0;
      }
    }

    method Restart()
      modifies this
      ensures View() == SoftRestart(old(View()))
    {
      bootId, sessionId := NextNonzero(bootId), NextNonzero(sessionId);
      hbSeq, outputBits, leaseActive, leaseDeadline := 0, 0, false, 0;
      hasAccepted, lastAccepted := false, 0;
    }

    method MakeHeartbeat() returns (m: Message)
      modifies this
      ensures m == HeartbeatOf(old(View())) && View() == AfterHeartbeat(old(View()))
    {
      m := Heartbeat(nodeId, bootId, sessionId, hbSeq);
      hbSeq := (hbSeq + 1) % 0x1_0000;
    }

    method ExpireLease(now: int) returns (expired: bool)
      modifies this
      ensures View() == Expire(old(View()), now)
      ensures expired <==> old(leaseActive) && !leaseActive
    {
      if !leaseActive || now < leaseDeadline {
        return false;
      }
      outputBits, leaseActive, leaseDeadline := 0, false, 0;
      return true;
    }

    method Apply(cmd: WireCommand, receive: int, now: int) returns (status: WireStatus)
      modifies this
      ensures Handled(View(), status) == ApplyCommand(old(View()), cmd, receive, now)
    {
      hide Merge, SeqNewer, DeadlineOf;
      var _ := ExpireLease(now);
      status := OutputStatus(nodeId, Applied, sessionId, cmd.sequence, outputBits);
      if cmd.sessionId != sessionId {
        return status.(result := SessionMismatch);
      }
      if !interlockReady {
        return status.(result := NotReady);
      }
      if hasAccepted && !SeqNewer(cmd.sequence, lastAccepted) {
        return status.(result := StaleSequence);
      }
      var deadline := DeadlineOf(receive, cmd.validity);
      if now >= deadline {
        return status.(result := Expired);
      }
      outputBits := Merge(outputBits, cmd.mask, cmd.values);
      leaseActive, leaseDeadline := true, deadline;
      hasAccepted, lastAccepted := true, cmd.sequence;
      return status.(mirror := outputBits);
    }

    method HandleFrame(f: CanFrame, now: int) returns (reply: Reply)
      modifies this
      ensures (View(), reply) == OnFrame(old(View()), f, now)
    {
      var raw := StandardId(f.canId);
      if FunctionOfId(raw) != COMMAND_FUNCTION || NodeOfId(raw) != nodeId {
        return Silent;
      }
      var decoded := DecodeCommand(f);
      if decoded.Err? {
        rejects := rejects + 1;
        return Malformed;
      }
      var status := Apply(decoded.value, now, now);
      return Answer(status);
    }
  }

  // ---------- one command ----------

  /**
   A refused command leaves nothing behind but an expiry that was due anyway, and the answer names the first reason
   in contract order; an applied one moves the named lines, the lease and the last sequence number, nothing else.
   */
  lemma RefusalChangesNothing(n: Node, cmd: WireCommand, receive: int, now: int)
    ensures var h := ApplyCommand(n, cmd, receive, now);
            var due := n.leaseActive && n.leaseDeadline <= now;
            var ours := cmd.sessionId == n.sessionId;
            var newer := n.hasAccepted ==> 1 <= (cmd.sequence - n.lastAccepted) % 65536 < 32768;
            var end := receive + cmd.validity * 10_000_000;
            && h.status == OutputStatus(n.nodeId, h.status.result, n.sessionId, cmd.sequence, h.node.output)
            && (h.status.result.SessionMismatch? <==> !ours)
            && (h.status.result.NotReady? <==> ours && !n.interlock)
            && (h.status.result.StaleSequence? <==> ours && n.interlock && !newer)
            && (h.status.result.Expired? <==> ours && n.interlock && newer && end <= now)
            && (h.status.result.Applied? <==> ours && n.interlock && newer && now < end)
            && (!h.status.result.Applied? ==>
                  h.node == if due then n.(output := 0, leaseActive := false, leaseDeadline := 0) else n)
            && (h.status.result.Applied? ==>
                  h.node == n.(output := Merge(if due then 0 else n.output, cmd.mask, cmd.values),
                               leaseActive := true, leaseDeadline := end,
                               hasAccepted := true, lastAccepted := cmd.sequence))
  {
    hide Merge;
  }

  /** A node comes up with its ids, 0 read as 1, and drives, counts and remembers nothing. */
  lemma FreshExactly(nodeId: u8, boot: u16, session: u16, interlock: bool)
    ensures var n := Fresh(nodeId, boot, session, interlock);
            && n == Node(nodeId, Max(boot, 1), Max(session, 1), 0, interlock, 0, 0, 0, false, 0, false, 0, 0)
            && Idle(n)
  {
  }

  /** A restart moves boot and session to their successors in 1..65535, counts heartbeats anew and drives nothing. */
  lemma RestartExactly(n: Node)
    ensures SoftRestart(n) == n.(bootId := n.bootId % 65535 + 1, sessionId := n.sessionId % 65535 + 1, hbSeq := 0,
                                 output := 0, leaseActive := false, leaseDeadline := 0,
                                 hasAccepted := false, lastAccepted := 0)
  {
  }

  function Beaten(n: Node, k: nat): Node {
    if k == 0 then n else AfterHeartbeat(Beaten(n, k - 1))
  }

  /** The k-th heartbeat carries the node's identity and counts from the first one, in 16 bits. */
  lemma {:induction false} HeartbeatsCount(n: Node, k: nat)
    ensures Beaten(n, k) == n.(hbSeq := (n.hbSeq + k) % 65536)
    ensures HeartbeatOf(Beaten(n, k)) == Heartbeat(n.nodeId, n.bootId, n.sessionId, (n.hbSeq + k) % 65536)
  {
    if k > 0 { HeartbeatsCount(n, k - 1); }
  }

  /**
   A frame concerns the node exactly when its low eleven identifier bits are 96 plus the node id. Of those, the ones
   that decode as commands are answered, taken at the moment they are handled; the others are counted.
   */
  lemma FrameExactly(n: Node, f: CanFrame, now: int)
    requires n.nodeId <= 31
    ensures var (n', reply) := OnFrame(n, f, now);
            var cmd := DecodeCommand(f);
            && (reply.Silent? <==> f.canId % 2048 != 96 + n.nodeId)
            && (reply.Answer? <==> f.canId % 2048 == 96 + n.nodeId && cmd.Ok?)
            && (reply.Silent? ==> n' == n)
            && (reply.Malformed? ==> n' == n.(rejects := n.rejects + 1))
            && (reply.Answer? ==> Handled(n', reply.status) == ApplyCommand(n, cmd.value, now, now))
  {
    hide ApplyCommand, DecodeCommand;
    var id := f.canId % 2048;
    assert id == 32 * (id / 32) + id % 32 && id / 32 < 64;
  }

  /**
   The authority a runtime command buys, end to end: the deadline D it was sent with at time s
   becomes, at a node receiving it at T on the same clock, a lease that ends no earlier than
   D + (T - s), less than 10 ms later than that, and at most 2.5 s after T.
   */
  lemma LeaseWindow(n: Node, cmd: WireCommand, sent: int, deadline: int, received: int)
    requires Validity10ms(sent, deadline) == Ok(cmd.validity)
    requires Legal(cmd) && cmd.node == n.nodeId
    ensures var after := OnFrame(n, FrameOf(cmd), received);
            && after.1.Answer?
            && (after.1.status.result.Applied? ==>
                  && after.0.leaseActive
                  && deadline + (received - sent) <= after.0.leaseDeadline < deadline + (received - sent) + 10_000_000
                  && received < after.0.leaseDeadline <= received + 2_500_000_000)
  {
    hide FrameOf, DecodeCommand;
    ValidityExact(sent, deadline);
    RoundTrip(cmd);
    LegalFrameLayer(cmd);
  }

  // ---------- whole runs ----------

  datatype Op =
    | Poll(now: int)
    | Deliver(cmd: WireCommand, receive: int, now: int)
    | Interlock(ready: bool)
    | Reboot

  /** A sequence number the node accepted, with the boot it was accepted in and its unwrapped value. */
  datatype Accepted = Accepted(epoch: nat, sequence: u16, unwrapped: int)

  datatype Write = Write(mask: bv8, values: bv8, deadline: int)

  /** The node together with what it accepted and the writes since its output was last neutral. */
  datatype History = History(node: Node, epoch: nat, accepted: seq<Accepted>, writes: seq<Write>)

  function Start(n: Node): History { History(n, 0, [], []) }

  /** A node that has accepted nothing and drives nothing. */
  predicate Idle(n: Node) {
    !n.hasAccepted && !n.leaseActive && n.output == 0 && 1 <= n.sessionId
  }

  function Expired'(h: History, now: int): History {
    h.(node := Expire(h.node, now),
       writes := if h.node.leaseActive && h.node.leaseDeadline <= now then [] else h.writes)
  }

  /** Distance, in serial-number steps, that accepting `sequence` moves the node forward. */
  function Advance(n: Node, sequence: u16): nat { (sequence - n.lastAccepted) % 0x1_0000 }

  function Unwrap(h: History, sequence: u16): int {
    if h.node.hasAccepted && h.accepted != []
    then h.accepted[|h.accepted| - 1].unwrapped + Advance(h.node, sequence)
    else sequence
  }

  function Step(h: History, op: Op): History {
    match op
    case Poll(now) => Expired'(h, now)
    case Deliver(cmd, receive, now) =>
      var e := Expired'(h, now);
      var out := ApplyCommand(h.node, cmd, receive, now);
      if out.status.result.Applied? then
        History(out.node, e.epoch,
                e.accepted + [Accepted(e.epoch, cmd.sequence, Unwrap(e, cmd.sequence))],
                e.writes + [Write(cmd.mask, cmd.values, DeadlineOf(receive, cmd.validity))])
      else e.(node := out.node)
    case Interlock(ready) =>
      h.(node := SetInterlock(h.node, ready), writes := if ready then h.writes else [])
    case Reboot =>
      h.(node := SoftRestart(h.node), epoch := h.epoch + 1, writes := [])
  }

  function Run(h: History, ops: seq<Op>): History
    decreases |ops|
  {
    if ops == [] then h else Step(Run(h, ops[..|ops| - 1]), ops[|ops| - 1])
  }

  // ---------- no sequence number is accepted twice ----------

  ghost predicate Ordered(h: History) {
    && (forall i :: 0 <= i < |h.accepted| ==>
          h.accepted[i].epoch <= h.epoch && h.accepted[i].unwrapped % 0x1_0000 == h.accepted[i].sequence)
    && (forall i, j :: 0 <= i < j < |h.accepted| && h.accepted[i].epoch == h.accepted[j].epoch ==>
          h.accepted[i].unwrapped < h.accepted[j].unwrapped)
    && (h.node.hasAccepted ==>
          && h.accepted != []
          && h.accepted[|h.accepted| - 1].epoch == h.epoch
          && h.accepted[|h.accepted| - 1].sequence == h.node.lastAccepted)
    && (!h.node.hasAccepted ==> forall i :: 0 <= i < |h.accepted| ==> h.accepted[i].epoch < h.epoch)
  }

  lemma UnwrapIsCongruent(h: History, sequence: u16)
    requires Ordered(h)
    ensures Unwrap(h, sequence) % 0x1_0000 == sequence
    ensures h.node.hasAccepted && SeqNewer(sequence, h.node.lastAccepted) ==>
              h.accepted[|h.accepted| - 1].unwrapped < Unwrap(h, sequence)
  {
    if h.node.hasAccepted {
      var last := h.accepted[|h.accepted| - 1];
      assert (last.unwrapped + (sequence - last.sequence) % 0x1_0000) % 0x1_0000 == sequence by {
        ModSum(last.unwrapped, sequence);
      }
    }
  }

  lemma ModSum(u: int, s: u16)
    ensures (u + (s - u % 0x1_0000) % 0x1_0000) % 0x1_0000 == s
  {
    var d := (s - u % 0x1_0000) % 0x1_0000;
    assert u == 0x1_0000 * (u / 0x1_0000) + u % 0x1_0000;
    if s >= u % 0x1_0000 {
      assert d == s - u % 0x1_0000;
      assert u + d == 0x1_0000 * (u / 0x1_0000) + s;
    } else {
      assert d == s - u % 0x1_0000 + 0x1_0000;
      assert u + d == 0x1_0000 * (u / 0x1_0000 + 1) + s;
    }
  }

  lemma AppendKeepsOrder(h: History, n: Node, sequence: u16, writes: seq<Write>)
    requires Ordered(h)
    requires h.node.hasAccepted ==> SeqNewer(sequence, h.node.lastAccepted)
    requires n.hasAccepted && n.lastAccepted == sequence
    ensures Ordered(History(n, h.epoch, h.accepted + [Accepted(h.epoch, sequence, Unwrap(h, sequence))], writes))
  {
    hide SeqNewer, Unwrap;
    UnwrapIsCongruent(h, sequence);
    var a, last := h.accepted, |h.accepted| - 1;
    var u := Unwrap(h, sequence);
    forall i | 0 <= i <= last && a[i].epoch == h.epoch ensures a[i].unwrapped < u {
      if i < last { assert a[i].epoch == a[last].epoch; }
    }
  }

  lemma StepKeepsOrder(h: History, op: Op)
    requires Ordered(h)
    ensures Ordered(Step(h, op))
  {
    hide SeqNewer, Unwrap, Merge;
    if op.Deliver? {
      var e := Expired'(h, op.now);
      var out := ApplyCommand(h.node, op.cmd, op.receive, op.now);
      assert Ordered(e);
      if out.status.result.Applied? {
        AppendKeepsOrder(e, out.node, op.cmd.sequence, Step(h, op).writes);
      }
    }
  }

  lemma {:induction false} RunKeepsOrder(n: Node, ops: seq<Op>)
    requires Idle(n)
    ensures Ordered(Run(Start(n), ops))
  {
    if ops != [] {
      RunKeepsOrder(n, ops[..|ops| - 1]);
      StepKeepsOrder(Run(Start(n), ops[..|ops| - 1]), ops[|ops| - 1]);
    }
  }

  /**
   Replay safety: within one boot the node accepts the same sequence number again only after
   the accepted numbers have moved forward by a full 65536.
   */
  lemma NeverReplayed(n: Node, ops: seq<Op>, i: nat, j: nat)
    requires Idle(n)
    requires var a := Run(Start(n), ops).accepted;
             i < j < |a| && a[i].epoch == a[j].epoch && a[i].sequence == a[j].sequence
    ensures var a := Run(Start(n), ops).accepted;
            a[j].unwrapped - a[i].unwrapped >= 0x1_0000
  {
    RunKeepsOrder(n, ops);
    var a := Run(Start(n), ops).accepted;
    CongruentGap(a[i].unwrapped, a[j].unwrapped);
  }

  lemma CongruentGap(u: int, v: int)
    requires u < v && u % 0x1_0000 == v % 0x1_0000
    ensures v - u >= 0x1_0000
  {
    assert v - u == 0x1_0000 * (v / 0x1_0000 - u / 0x1_0000);
  }

  // ---------- an old session stays refused ----------

  function Restarts(ops: seq<Op>): nat {
    if ops == [] then 0
    else Restarts(ops[..|ops| - 1]) + (if ops[|ops| - 1].Reboot? then 1 else 0)
  }

  /** The session id k restarts after s: a cycle through 1..65535. */
  function SessionAfter(s: u16, k: nat): u16
    requires 1 <= s
  {
    (s - 1 + k) % 0xFFFF + 1
  }

  lemma {:induction false} SessionFollowsRestarts(n: Node, ops: seq<Op>)
    requires 1 <= n.sessionId
    ensures Run(Start(n), ops).node.sessionId == SessionAfter(n.sessionId, Restarts(ops))
  {
    hide SessionAfter, Merge, SeqNewer;
    if ops == [] {
      SessionStart(n.sessionId);
    } else {
      var init := ops[..|ops| - 1];
      SessionFollowsRestarts(n, init);
      if ops[|ops| - 1].Reboot? { SessionStep(n.sessionId, Restarts(init)); }
    }
  }

  lemma SessionStart(s: u16)
    requires 1 <= s
    ensures SessionAfter(s, 0) == s
  {
  }

  lemma SessionStep(s: u16, k: nat)
    requires 1 <= s
    ensures NextNonzero(SessionAfter(s, k)) == SessionAfter(s, k + 1)
  {
    var t := s - 1 + k;
    assert t == 0xFFFF * (t / 0xFFFF) + t % 0xFFFF;
    if t % 0xFFFF == 0xFFFE {
      assert t + 1 == 0xFFFF * (t / 0xFFFF + 1);
    } else {
      assert t + 1 == 0xFFFF * (t / 0xFFFF) + (t % 0xFFFF + 1);
    }
  }

  /**
   After a run with r restarts, a command stamped with the session the run started in is
   refused as SESSION_MISMATCH exactly when r is not a multiple of 65535; in particular for
   every r from 1 to 65534. The refusal changes nothing but a due expiry.
   */
  lemma OldSessionRefused(n: Node, ops: seq<Op>, cmd: WireCommand, receive: int, now: int)
    requires 1 <= n.sessionId && cmd.sessionId == n.sessionId
    ensures var later := Run(Start(n), ops).node;
            var h := ApplyCommand(later, cmd, receive, now);
            && (h.status.result.SessionMismatch? <==> Restarts(ops) % 0xFFFF != 0)
            && (1 <= Restarts(ops) <= 65534 ==>
                  h.status.result.SessionMismatch? && h.node == Expire(later, now))
  {
    hide SeqNewer, Merge, Restarts, Run;
    SessionFollowsRestarts(n, ops);
    var s, r := n.sessionId, Restarts(ops);
    assert (s - 1 + r) % 0xFFFF == s - 1 <==> r % 0xFFFF == 0 by { CycleHome(s - 1, r); }
  }

  lemma CycleHome(p: nat, r: nat)
    requires p < 0xFFFF
    ensures (p + r) % 0xFFFF == p <==> r % 0xFFFF == 0
  {
    var q := r % 0xFFFF;
    assert p + r == 0xFFFF * (r / 0xFFFF) + (p + q);
    if p + q >= 0xFFFF {
      assert p + r == 0xFFFF * (r / 0xFFFF + 1) + (p + q - 0xFFFF);
    }
  }

  // ---------- output is the writes since the last neutral point, under the last deadline ----------

  function Fold(writes: seq<Write>): bv8 {
    if writes == [] then 0
    else var w := writes[|writes| - 1]; Merge(Fold(writes[..|writes| - 1]), w.mask, w.values)
  }

  ghost predicate Leased(h: History) {
    && h.node.output == Fold(h.writes)
    && (h.node.leaseActive <==> h.writes != [])
    && (h.node.leaseActive ==> h.node.leaseDeadline == h.writes[|h.writes| - 1].deadline)
    && (!h.node.interlock ==> h.writes == [])
  }

  lemma FoldGrows(writes: seq<Write>, w: Write)
    ensures Fold([]) == 0 && Fold(writes + [w]) == Merge(Fold(writes), w.mask, w.values)
  {
    hide Merge;
    assert (writes + [w])[..|writes|] == writes;
  }

  lemma ExpiryKeepsLease(h: History, now: int)
    requires Leased(h)
    ensures Leased(Expired'(h, now))
  {
    hide Fold;
    FoldGrows([], Write(0, 0, 0));
  }

  lemma DeliverKeepsLease(h: History, op: Op)
    requires Leased(h) && op.Deliver?
    ensures Leased(Step(h, op))
  {
    hide SeqNewer, Fold, Merge, Unwrap;
    ExpiryKeepsLease(h, op.now);
    FoldGrows(Expired'(h, op.now).writes, Write(op.cmd.mask, op.cmd.values, DeadlineOf(op.receive, op.cmd.validity)));
  }

  lemma StepKeepsLease(h: History, op: Op)
    requires Leased(h)
    ensures Leased(Step(h, op))
  {
    hide Fold, Merge;
    FoldGrows([], Write(0, 0, 0));
    if op.Deliver? {
      DeliverKeepsLease(h, op);
    } else if op.Poll? {
      ExpiryKeepsLease(h, op.now);
    }
  }

  lemma {:induction false} RunKeepsLease(n: Node, ops: seq<Op>)
    requires Idle(n)
    ensures Leased(Run(Start(n), ops))
  {
    if ops != [] {
      RunKeepsLease(n, ops[..|ops| - 1]);
      StepKeepsLease(Run(Start(n), ops[..|ops| - 1]), ops[|ops| - 1]);
    }
  }

  /**
   Bounded authority: after any run ending in a poll, the output is exactly the masked writes
   applied since it was last neutral, and if it is not neutral the lease of the last applied
   command is still running and the interlock is ready.
   */
  lemma AuthorityIsBounded(n: Node, ops: seq<Op>, now: int)
    requires Idle(n)
    ensures var h := Run(Start(n), ops + [Poll(now)]);
            && h.node.output == Fold(h.writes)
            && (h.node.output != 0 ==>
                  && h.node.interlock && h.node.leaseActive && h.writes != []
                  && now < h.writes[|h.writes| - 1].deadline == h.node.leaseDeadline)
  {
    var all := ops + [Poll(now)];
    assert all[..|all| - 1] == ops && all[|all| - 1] == Poll(now);
    RunKeepsLease(n, all);
    assert Run(Start(n), all) == Expired'(Run(Start(n), ops), now);
  }

  /** The value bit of the latest write that touched `bit`, or 0 if none did. */
  function LatestValue(writes: seq<Write>, bit: bv8): bv8 {
    if writes == [] then 0
    else
      var w := writes[|writes| - 1];
      if w.mask & bit != 0 then w.values & bit else LatestValue(writes[..|writes| - 1], bit)
  }

  predicate SingleBit(bit: bv8) { bit != 0 && bit & (bit - 1) == 0 }

  lemma MergeBit(output: bv8, mask: bv8, values: bv8, bit: bv8)
    requires SingleBit(bit)
    ensures Merge(output, mask, values) & bit == if mask & bit != 0 then values & bit else output & bit
  {
  }

  /** Reading the fold bit by bit: each output line shows the latest command that named it. */
  lemma {:induction false} FoldIsLatestPerBit(writes: seq<Write>, bit: bv8)
    requires SingleBit(bit)
    ensures Fold(writes) & bit == LatestValue(writes, bit)
  {
    if writes != [] {
      var w, init := writes[|writes| - 1], writes[..|writes| - 1];
      FoldIsLatestPerBit(init, bit);
      MergeBit(Fold(init), w.mask, w.values, bit);
    }
  }
}
