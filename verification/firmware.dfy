/**
 The microcontroller node: the same contract written a second time in C, on a 32-bit
 millisecond clock that wraps every 49.7 days. Its runs are shown to be runs of NodeLogic.
 */
module Firmware {
  import opened Bytes
  import opened CanV1
  import N = NodeLogic

  const WRAP := 0x1_0000_0000
  const HALF := 0x8000_0000

  datatype Mcu = Mcu(
    nodeId: u8, bootId: u16, sessionId: u16, output: bv8,
    hasAccepted: bool, lastAccepted: u16, leaseActive: bool, leaseDeadline: u32, rejects: u32,
    identityReady: bool, busReady: bool, fatal: bool)

  // ---------- frames ----------

  datatype McuFrame = McuFrame(canId: u32, dlc: nat, data: Data, extended: bool, rtr: bool, receiveMs: u32)

  /** What the receive interrupt can store: 11-bit standard or 29-bit extended identifiers. */
  predicate FromController(f: McuFrame) {
    f.canId < if f.extended then 0x2000_0000 else 0x800
  }

  /** The same frame as the Linux side would see it, with the flags folded into the identifier word. */
  function ToLinux(f: McuFrame): CanFrame
    requires FromController(f)
  {
    CanFrame(f.canId + (if f.extended then 0x8000_0000 else 0) + (if f.rtr then 0x4000_0000 else 0),
             f.dlc, f.data)
  }

  function McuDecode(f: McuFrame, expected: u8): Option<WireCommand> {
    if expected == 0 || expected > 31 || f.extended || f.rtr || f.dlc != 8
       || f.canId != MakeId(COMMAND_FUNCTION, expected)
       || f.data.b0 != PROTOCOL_VERSION || f.data.b1 == 0
    then None
    else
      var session, sequence := Join(f.data.b2, f.data.b3), Join(f.data.b4, f.data.b5);
      if session == 0 || sequence == 0 || f.data.b7 == 0 || f.data.b7 > 250 then None
      else Some(Command(expected, BitsOf(f.data.b1), session, sequence, BitsOf(f.data.b6), f.data.b7))
  }

  /** The two independently written command decoders accept the same frames and read them alike. */
  lemma DecodersAgree(f: McuFrame, node: u8)
    requires FromController(f)
    ensures McuDecode(f, node) ==
              var r := DecodeCommand(ToLinux(f));
              if r.Ok? && r.value.node == node then Some(r.value) else None
    ensures McuDecode(f, node).Some? ==> 1 <= node <= 31
  {
    hide BitsOf, Join;
    if !f.extended && !f.rtr && 1 <= node <= MAX_NODE_ID {
      assert ToLinux(f).canId == f.canId < 0x800;
      SmallId(f.canId);
      IdPackOfUnpack(f.canId);
      IdUnpackOfPack(COMMAND_FUNCTION, node);
    }
  }

  // ---------- the node ----------

  function Boot(node: u8, boot: u16, session: u16, identityReady: bool): Mcu {
    Mcu(if node == 0 then 1 else node, if boot == 0 then 1 else boot, if session == 0 then 1 else session,
        0, false, 0, false, 0, 0, identityReady, true, !identityReady)
  }

  function Neutral(m: Mcu): Mcu { m.(output := 0, leaseActive := false, leaseDeadline := 0) }

  predicate InterlockReady(m: Mcu) { m.identityReady && m.busReady && !m.fatal }

  function SetBusReady(m: Mcu, ready: bool): Mcu {
    if ready then m.(busReady := true) else Neutral(m).(busReady := false)
  }

  function LatchFault(m: Mcu): Mcu { Neutral(m).(fatal := true) }

  /** Signed reading of the wrapped difference: now is at or after the deadline. */
  predicate AfterOrEqual(now: u32, deadline: u32) { (now - deadline) % WRAP < HALF }

  function Expire(m: Mcu, now: u32): Mcu {
    if m.leaseActive && AfterOrEqual(now, m.leaseDeadline) then Neutral(m) else m
  }

  function LeaseEnd(receive: u32, validity: u8): u32 { (receive + validity * 10) % WRAP }

  function Verdict(m: Mcu, cmd: WireCommand, receive: u32, now: u32): OutputResult {
    if cmd.sessionId != m.sessionId then SessionMismatch
    else if !InterlockReady(m) then NotReady
    else if m.hasAccepted && !McuSeqNewer(cmd.sequence, m.lastAccepted) then StaleSequence
    else if AfterOrEqual(now, LeaseEnd(receive, cmd.validity)) then Expired
    else Applied
  }

  function Take(m: Mcu, cmd: WireCommand, receive: u32): Mcu {
    m.(output := N.Merge(m.output, cmd.mask, cmd.values), hasAccepted := true, lastAccepted := cmd.sequence,
       leaseActive := true, leaseDeadline := LeaseEnd(receive, cmd.validity))
  }

  datatype Handled = Handled(mcu: Mcu, status: WireStatus)

  function ApplyCommand(m: Mcu, cmd: WireCommand, receive: u32, now: u32): Handled {
    var e := Expire(m, now);
    var result := Verdict(e, cmd, receive, now);
    var m' := if result.Applied? then Take(e, cmd, receive) else e;
    Handled(m', OutputStatus(m.nodeId, result, m.sessionId, cmd.sequence, m'.output))
  }

  datatype FrameResult = Ignored | Rejected | StatusReady(status: WireStatus)

  function OnFrame(m: Mcu, f: McuFrame, now: u32): (Mcu, FrameResult) {
    if f.canId != MakeId(COMMAND_FUNCTION, m.nodeId) then (m, Ignored)
    else
      var cmd := McuDecode(f, m.nodeId);
      if cmd.None? then (m.(rejects := (m.rejects + 1) % WRAP), FrameResult.Rejected)
      else
        var h := ApplyCommand(m, cmd.value, f.receiveMs, now);
        (h.mcu, StatusReady(h.status))
  }

  /** The node structure that the firmware updates through a pointer. */
  class RcrNode {
    var nodeId: u8
    var bootId: u16
    var sessionId: u16
    var outputBits: bv8
    var hasAccepted: bool
    var lastAccepted: u16
    var leaseActive: bool
    var leaseDeadline: u32
    var rejects: u32
    var identityReady: bool
    var busReady: bool
    var fatal: bool

    ghost function View(): Mcu reads this {
      Mcu(nodeId, bootId, sessionId, outputBits, hasAccepted, lastAccepted, leaseActive, leaseDeadline,
          rejects, identityReady, busReady, fatal)
    }

    constructor (node: u8, boot: u16, session: u16, identity: bool)
      ensures View() == Boot(node, boot, session, identity)
    {
      nodeId := if node == 0 then 1 else node;
      bootId := if boot == 0 then 1 else boot;
      sessionId := if session == 0 then 1 else session;
      outputBits, hasAccepted, lastAccepted := 0, false, 0;
      leaseActive, leaseDeadline, rejects := false, 0, 0;
      identityReady, busReady, fatal := identity, true, !identity;
    }

    method NeutralizeOutput()
      modifies this`outputBits, this`leaseActive, this`leaseDeadline
      ensures outputBits == 0 && !leaseActive && leaseDeadline == 0
    {
      outputBits, leaseActive, leaseDeadline := 0, false, 0;
    }

    method BusReady(ready: bool)
      modifies this
      ensures View() == SetBusReady(old(View()), ready)
    {
      busReady := ready;
      if !ready {
        NeutralizeOutput();
      }
    }

    method LatchInternalFault()
      modifies this
      ensures View() == LatchFault(old(View()))
    {
      fatal := true;
      NeutralizeOutput();
    }

    method ExpireLease(now: u32) returns (expired: bool)
      modifies this
      ensures View() == Expire(old(View()), now)
      ensures expired <==> old(leaseActive) && !leaseActive
    {
      if !leaseActive || !AfterOrEqual(now, leaseDeadline) {
        return false;
      }
      NeutralizeOutput();
      return true;
    }

    method Apply(cmd: WireCommand, receive: u32, now: u32) returns (status: WireStatus)
      modifies this
      ensures Handled(View(), status) == ApplyCommand(old(View()), cmd, receive, now)
    {
      hide N.Merge, McuSeqNewer, LeaseEnd, AfterOrEqual;
      var _ := ExpireLease(now);
      status := OutputStatus(nodeId, Applied, sessionId, cmd.sequence, outputBits);
      if cmd.sessionId != sessionId {
        return status.(result := SessionMismatch);
      }
      if !(identityReady && busReady && !fatal) {
        return status.(result := NotReady);
      }
      if hasAccepted && !McuSeqNewer(cmd.sequence, lastAccepted) {
        return status.(result := StaleSequence);
      }
      var deadline := LeaseEnd(receive, cmd.validity);
      if AfterOrEqual(now, deadline) {
        return status.(result := Expired);
      }
      outputBits := N.Merge(outputBits, cmd.mask, cmd.values);
      lastAccepted, hasAccepted := cmd.sequence, true;
      leaseActive, leaseDeadline := true, deadline;
      return status.(mirror := outputBits);
    }

    method HandleFrame(f: McuFrame, now: u32) returns (r: FrameResult)
      modifies this
      ensures (View(), r) == OnFrame(old(View()), f, now)
    {
      hide ApplyCommand, McuDecode, MakeId;
      if f.canId != MakeId(COMMAND_FUNCTION, nodeId) {
        return Ignored;
      }
      var cmd := McuDecode(f, nodeId);
      if cmd.None? {
        rejects := (rejects + 1) % WRAP;
        return FrameResult.Rejected;
      }
      var status := Apply(cmd.value, f.receiveMs, now);
      return StatusReady(status);
    }
  }

  /** What a command's answer says, and what a frame that is not one leaves behind: at most a counted reject. */
  lemma FrameExactly(m: Mcu, f: McuFrame, now: u32)
    requires 1 <= m.nodeId <= 31
    ensures var (m', r) := OnFrame(m, f, now);
            var cmd := McuDecode(f, m.nodeId);
            && (r.Ignored? <==> f.canId != 96 + m.nodeId)
            && (r.StatusReady? <==> cmd.Some?)
            && (r.Ignored? ==> m' == m)
            && (r.Rejected? ==> m' == m.(rejects := if m.rejects == 0xFFFF_FFFF then 0 else m.rejects + 1))
            && (r.StatusReady? ==> Handled(m', r.status) == ApplyCommand(m, cmd.value, f.receiveMs, now))
  {
    hide ApplyCommand, BitsOf, Join;
  }

  /** An answer names this node, its session and the command's sequence; no command touches identity or gates. */
  lemma AnswerExactly(m: Mcu, cmd: WireCommand, receive: u32, now: u32)
    ensures var h := ApplyCommand(m, cmd, receive, now);
            && h.status == OutputStatus(m.nodeId, h.status.result, m.sessionId, cmd.sequence, h.mcu.output)
            && h.mcu == m.(output := h.mcu.output, hasAccepted := h.mcu.hasAccepted,
                           lastAccepted := h.mcu.lastAccepted, leaseActive := h.mcu.leaseActive,
                           leaseDeadline := h.mcu.leaseDeadline)
  {
    hide N.Merge, McuSeqNewer, LeaseEnd, AfterOrEqual, Verdict;
  }

  /** What neutralises: a lost bus, a latched fault, and a lease whose end lies less than 2^31 ms back. */
  lemma NeutralExactly(m: Mcu, ready: bool, now: u32)
    ensures var off := m.(output := 0, leaseActive := false, leaseDeadline := 0);
            && LatchFault(m) == off.(fatal := true)
            && SetBusReady(m, ready) == (if ready then m.(busReady := true) else off.(busReady := false))
            && Expire(m, now) == if m.leaseActive && (now - m.leaseDeadline) % 0x1_0000_0000 < 0x8000_0000
                                 then off else m
  {
  }

  // ---------- runs on an unbounded clock ----------

  /** Firmware operations stamped with true, unwrapped milliseconds. */
  datatype Op =
    | Poll(now: nat)
    | Deliver(cmd: WireCommand, receive: nat, now: nat)
    | Bus(ready: bool)
    | Latch

  /** What an observer of either node sees after one operation. */
  datatype Observation = Observation(result: Option<OutputResult>, output: bv8, lease: bool)

  function McuStep(m: Mcu, op: Op): (Mcu, Observation) {
    match op
    case Poll(now) => var m' := Expire(m, now % WRAP); (m', Observation(None, m'.output, m'.leaseActive))
    case Deliver(cmd, receive, now) =>
      var h := ApplyCommand(m, cmd, receive % WRAP, now % WRAP);
      (h.mcu, Observation(Some(h.status.result), h.status.mirror, h.mcu.leaseActive))
    case Bus(ready) => var m' := SetBusReady(m, ready); (m', Observation(None, m'.output, m'.leaseActive))
    case Latch => var m' := LatchFault(m); (m', Observation(None, m'.output, m'.leaseActive))
  }

  /** The gates that make up the interlock the other node keeps as one flag. */
  datatype Gates = Gates(identity: bool, bus: bool, fatal: bool)

  function GatesAfter(g: Gates, op: Op): Gates {
    match op
    case Bus(ready) => g.(bus := ready)
    case Latch => g.(fatal := true)
    case _ => g
  }

  const NS_PER_MS := 1_000_000

  function NodeStep(n: N.Node, g: Gates, op: Op): (N.Node, Observation) {
    var g' := GatesAfter(g, op);
    match op
    case Poll(now) => var n' := N.Expire(n, now * NS_PER_MS); (n', Observation(None, n'.output, n'.leaseActive))
    case Deliver(cmd, receive, now) =>
      var h := N.ApplyCommand(n, cmd, receive * NS_PER_MS, now * NS_PER_MS);
      (h.node, Observation(Some(h.status.result), h.status.mirror, h.node.leaseActive))
    case _ =>
      var n' := N.SetInterlock(n, g'.identity && g'.bus && !g'.fatal);
      (n', Observation(None, n'.output, n'.leaseActive))
  }

  function McuTrace(m: Mcu, ops: seq<Op>): seq<Observation>
    decreases |ops|
  {
    if ops == [] then [] else var (m', o) := McuStep(m, ops[0]); [o] + McuTrace(m', ops[1..])
  }

  function NodeTrace(n: N.Node, g: Gates, ops: seq<Op>): seq<Observation>
    decreases |ops|
  {
    if ops == [] then [] else
      var (n', o) := NodeStep(n, g, ops[0]); [o] + NodeTrace(n', GatesAfter(g, ops[0]), ops[1..])
  }

  const MAX_LEASE_MS := 2550

  /** Clock samples stay in step: at most `back` ms behind the latest, less than 2^31 - back ahead of it. */
  predicate InStep(high: int, back: nat, now: int) { high - back <= now < high + HALF - back }

  predicate PacedOp(high: int, back: nat, op: Op) {
    match op
    case Poll(now) => InStep(high, back, now)
    case Deliver(_, receive, now) => InStep(high, back, now) && receive <= now < receive + HALF
    case _ => true
  }

  function HighAfter(high: int, op: Op): int {
    match op
    case Poll(now) => Max(high, now)
    case Deliver(_, _, now) => Max(high, now)
    case _ => high
  }

  predicate Paced(high: int, back: nat, ops: seq<Op>)
    decreases |ops|
  {
    ops == [] || (PacedOp(high, back, ops[0]) && Paced(HighAfter(high, ops[0]), back, ops[1..]))
  }

  /** Both nodes agree on everything observable, and a running lease ends at the same instant. */
  predicate Related(m: Mcu, n: N.Node, g: Gates, high: int, back: nat) {
    && m.nodeId == n.nodeId && m.sessionId == n.sessionId && m.output == n.output
    && m.hasAccepted == n.hasAccepted && m.lastAccepted == n.lastAccepted
    && m.leaseActive == n.leaseActive
    && n.interlock == InterlockReady(m)
    && g == Gates(m.identityReady, m.busReady, m.fatal)
    && (!InterlockReady(m) ==> !m.leaseActive && m.output == 0)
    && (m.leaseActive ==> SameEnd(m.leaseDeadline, n.leaseDeadline, high, back))
  }

  predicate SameEnd(wrapped: u32, ns: int, high: int, back: nat) {
    && ns % NS_PER_MS == 0
    && wrapped == ns / NS_PER_MS % WRAP
    && high - back < ns / NS_PER_MS <= high + MAX_LEASE_MS
  }

  /** Wrapped comparison is true comparison whenever the two instants are less than 2^31 ms apart. */
  lemma WrappedOrder(now: int, deadline: int)
    requires -HALF <= now - deadline < HALF
    ensures AfterOrEqual(now % WRAP, deadline % WRAP) <==> deadline <= now
  {
    WrappedDifference(now, deadline);
    var d := now - deadline;
    if d >= 0 { assert d % WRAP == d; } else { assert d % WRAP == d + WRAP; }
  }

  lemma WrappedDifference(a: int, b: int)
    ensures (a % WRAP - b % WRAP) % WRAP == (a - b) % WRAP
  {
    var k := a / WRAP - b / WRAP;
    assert a - b == (a % WRAP - b % WRAP) + WRAP * k;
    ModPlusMultiple(a % WRAP - b % WRAP, k);
  }

  lemma ModPlusMultiple(x: int, k: int)
    ensures (x + WRAP * k) % WRAP == x % WRAP
  {
    assert x + WRAP * k == WRAP * (x / WRAP + k) + x % WRAP;
  }

  /** Beyond that window the comparison is wrong: for the next 2^31 ms an overdue lease looks alive. */
  lemma WindowIsTight(now: int, deadline: int)
    requires deadline <= now < deadline + WRAP
    ensures AfterOrEqual(now % WRAP, deadline % WRAP) <==> now - deadline < HALF
  {
    WrappedDifference(now, deadline);
    assert (now - deadline) % WRAP == now - deadline;
  }

  lemma ExpireAgrees(m: Mcu, n: N.Node, g: Gates, high: int, back: nat, now: nat)
    requires back <= HALF - MAX_LEASE_MS
    requires Related(m, n, g, high, back) && InStep(high, back, now)
    ensures Related(Expire(m, now % WRAP), N.Expire(n, now * NS_PER_MS), g, Max(high, now), back)
  {
    if m.leaseActive {
      var d := n.leaseDeadline / NS_PER_MS;
      assert n.leaseDeadline == d * NS_PER_MS;
      WrappedOrder(now, d);
    }
  }

  lemma LeaseEndAgrees(receive: nat, validity: u8)
    ensures LeaseEnd(receive % WRAP, validity) == (receive + validity * 10) % WRAP
    ensures DeadlineOf(receive * NS_PER_MS, validity) == (receive + validity * 10) * NS_PER_MS
  {
    var x := receive % WRAP + validity * 10;
    assert receive + validity * 10 == x + WRAP * (receive / WRAP);
    ModPlusMultiple(x, receive / WRAP);
  }

  lemma DeliverAgrees(m: Mcu, n: N.Node, g: Gates, high: int, back: nat, cmd: WireCommand, receive: nat, now: nat)
    requires back <= HALF - MAX_LEASE_MS
    requires Related(m, n, g, high, back) && PacedOp(high, back, Deliver(cmd, receive, now))
    ensures var a := McuStep(m, Deliver(cmd, receive, now));
            var b := NodeStep(n, g, Deliver(cmd, receive, now));
            a.1 == b.1 && Related(a.0, b.0, g, Max(high, now), back)
  {
    hide N.Merge, SeqNewer, McuSeqNewer, LeaseEnd, DeadlineOf, AfterOrEqual;
    ExpireAgrees(m, n, g, high, back, now);
    NewerIsRfc1982(cmd.sequence, m.lastAccepted);
    var d := receive + cmd.validity * 10;
    LeaseEndAgrees(receive, cmd.validity);
    WrappedOrder(now, d);
    MsOrder(d, now);
  }

  lemma MsOrder(d: int, now: int)
    ensures d * NS_PER_MS <= now * NS_PER_MS <==> d <= now
    ensures d * NS_PER_MS / NS_PER_MS == d && d * NS_PER_MS % NS_PER_MS == 0
  {
  }

  lemma StepAgrees(m: Mcu, n: N.Node, g: Gates, high: int, back: nat, op: Op)
    requires back <= HALF - MAX_LEASE_MS
    requires Related(m, n, g, high, back) && PacedOp(high, back, op)
    ensures var a, b := McuStep(m, op), NodeStep(n, g, op);
            a.1 == b.1 && Related(a.0, b.0, GatesAfter(g, op), HighAfter(high, op), back)
  {
    match op
    case Poll(now) => ExpireAgrees(m, n, g, high, back, now);
    case Deliver(cmd, receive, now) => DeliverAgrees(m, n, g, high, back, cmd, receive, now);
    case Bus(ready) =>
    case Latch =>
  }

  /**
   Refinement: on every run whose clock samples stay in step and whose frames wait less than
   2^31 ms in the receive queue, the firmware shows the same result codes, output bits and
   lease activity as the nanosecond node on unbounded time, however often its clock wraps.
   */
  lemma {:induction false} FirmwareSimulatesNode(m: Mcu, n: N.Node, g: Gates, high: int, back: nat, ops: seq<Op>)
    requires back <= HALF - MAX_LEASE_MS
    requires Related(m, n, g, high, back) && Paced(high, back, ops)
    ensures McuTrace(m, ops) == NodeTrace(n, g, ops)
    decreases |ops|
  {
    if ops != [] {
      var op := ops[0];
      StepAgrees(m, n, g, high, back, op);
      FirmwareSimulatesNode(McuStep(m, op).0, NodeStep(n, g, op).0, GatesAfter(g, op),
                            HighAfter(high, op), back, ops[1..]);
    }
  }

  /** The refinement applies from power-up, whatever the identity log reported; node id 0 is read as 1. */
  lemma BootIsRelated(node: u8, boot: u16, session: u16, identity: bool, high: int, back: nat)
    ensures Related(Boot(node, boot, session, identity),
                    N.Fresh(if node == 0 then 1 else node, boot, session, identity),
                    Gates(identity, true, !identity), high, back)
    ensures Boot(node, boot, session, identity)
         == Mcu(Max(node, 1), Max(boot, 1), Max(session, 1), 0, false, 0, false, 0, 0, identity, true, !identity)
  {
  }

  /**
   The two nodes sort frames alike, with one exception: an extended frame whose low eleven
   bits spell the command identifier but whose full identifier differs is ignored by the
   firmware and counted as malformed by the other node. Neither node acts on it.
   */
  lemma FramesSortedAlike(m: Mcu, n: N.Node, f: McuFrame, nowMs: u32, now: int)
    requires FromController(f) && m.nodeId == n.nodeId && 1 <= m.nodeId <= MAX_NODE_ID
    ensures var a, b := OnFrame(m, f, nowMs).1, N.OnFrame(n, ToLinux(f), now).1;
            && (a.StatusReady? <==> b.Answer?)
            && (a.Ignored? <==> b.Silent?) ==
               !(f.extended && StandardId(f.canId) == MakeId(COMMAND_FUNCTION, m.nodeId) != f.canId)
  {
    hide ApplyCommand, N.ApplyCommand, McuDecode, DecodeCommand, MakeId, StandardId, NodeOfId, FunctionOfId;
    DecodersAgree(f, m.nodeId);
    IdUnpackOfPack(COMMAND_FUNCTION, m.nodeId);
    SameLowBits(f);
    IdPackOfUnpack(f.canId);
    if !f.extended { SmallId(f.canId); }
    SmallId(MakeId(COMMAND_FUNCTION, m.nodeId));
    CommandPassesLayer(ToLinux(f));
  }

  lemma CommandPassesLayer(f: CanFrame)
    ensures DecodeCommand(f).Ok? ==>
              FrameLayerOk(f, COMMAND_FUNCTION) && DecodeCommand(f).value.node == NodeOfId(StandardId(f.canId))
  {
  }

  lemma SameLowBits(f: McuFrame)
    requires FromController(f)
    ensures StandardId(ToLinux(f).canId) == StandardId(f.canId)
    ensures f.extended ==> !IsStandardData(ToLinux(f).canId)
  {
  }
}
