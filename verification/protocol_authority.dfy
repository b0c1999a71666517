/** Bounded authority of the whole system: what the node drives, who asked for it, and for how long. */
module Authority {
  import opened Bytes
  import opened CanV1
  import opened RuntimeCore
  import opened RuntimeRuns
  import opened Supervision
  import opened CanIo
  import opened Protocol
  import opened Acknowledgements
  import opened Provenance
  import N = NodeLogic

  /** The node answers the frame, and applies it. */
  predicate Answers(s: System, l: Label) {
    l.NodeReceives? && l.frame in s.down && N.OnFrame(s.node, l.frame, l.now).1.Answer?
  }

  predicate Applies(s: System, l: Label) {
    Answers(s, l) && N.OnFrame(s.node, l.frame, l.now).1.status.result.Applied?
  }

  predicate Due(n: N.Node, now: int) { n.leaseActive && n.leaseDeadline <= now }

  /** The steps, among the first n, whose writes are on the node's outputs: all applied since it was last neutral. */
  function Writers(cfg: SystemConfig, node: N.Node, run: seq<Label>, n: nat): (ws: seq<nat>)
    requires n <= |run|
    ensures forall k :: 0 <= k < |ws| ==> ws[k] < n
  {
    if n == 0 then [] else
      var s, l, ws := After(cfg, node, run, n - 1), run[n - 1], Writers(cfg, node, run, n - 1);
      match l
      case NodeReceives(_, now) =>
        if !Answers(s, l) then ws
        else (if Due(s.node, now) then [] else ws) + (if Applies(s, l) then [n - 1] else [])
      case NodePolls(now) => if Due(s.node, now) then [] else ws
      case NodeInterlock(ready) => if ready then ws else []
      case NodeReboots => []
      case _ => ws
  }

  /** What a received command writes, and until when. */
  function WriteOf(l: Label): N.Write {
    if l.NodeReceives? && DecodeCommand(l.frame).Ok? then
      var w := DecodeCommand(l.frame).value;
      N.Write(w.mask, w.values, DeadlineOf(l.now, w.validity))
    else N.Write(0, 0, 0)
  }

  function WritesOf(run: seq<Label>, ws: seq<nat>): (r: seq<N.Write>)
    requires forall k :: 0 <= k < |ws| ==> ws[k] < |run|
    ensures |r| == |ws| && forall k :: 0 <= k < |ws| ==> r[k] == WriteOf(run[ws[k]])
  {
    seq(|ws|, k requires 0 <= k < |ws| => WriteOf(run[ws[k]]))
  }

  /** Outputs and lease of the node are those of these writes. */
  ghost predicate Drives(n: N.Node, writes: seq<N.Write>) {
    && n.output == N.Fold(writes)
    && (n.leaseActive <==> writes != [])
    && (writes != [] ==> n.interlock && n.leaseDeadline == writes[|writes| - 1].deadline)
  }

  lemma NeutralDrivesNothing(n: N.Node)
    requires n.output == 0 && !n.leaseActive
    ensures Drives(n, [])
  {
  }

  lemma TakenDrives(n: N.Node, writes: seq<N.Write>, w: WireCommand, now: int)
    requires Drives(n, writes) && n.interlock
    ensures Drives(N.Take(n, w, now), writes + [N.Write(w.mask, w.values, DeadlineOf(now, w.validity))])
  {
    hide N.Merge;
    var all := writes + [N.Write(w.mask, w.values, DeadlineOf(now, w.validity))];
    assert all[..|all| - 1] == writes;
  }

  /** A refused but answered command leaves only a due expiry; an unanswered frame leaves outputs alone. */
  lemma RefusedDrives(n: N.Node, f: CanFrame, now: int, writes: seq<N.Write>)
    requires Drives(n, writes)
    ensures Drives(N.Expire(n, now), if Due(n, now) then [] else writes)
    ensures var (n', reply) := N.OnFrame(n, f, now);
            && (!reply.Answer? ==> Drives(n', writes))
            && (reply.Answer? && !reply.status.result.Applied? ==> n' == N.Expire(n, now))
            && (reply.Answer? && reply.status.result.Applied? ==> N.Expire(n, now).interlock)
  {
    hide DecodeCommand, StandardId, FunctionOfId, NodeOfId, N.Fold, N.Merge;
    assert N.Fold([]) == 0 by { EmptyFold(); }
  }

  lemma EmptyFold()
    ensures N.Fold([]) == 0
  {
  }

  lemma ReceivingDrives(cfg: SystemConfig, s: System, l: Label, writes: seq<N.Write>)
    requires Drives(s.node, writes) && l.NodeReceives? && l.frame in s.down
    ensures var kept := if Answers(s, l) && Due(s.node, l.now) then [] else writes;
            Drives(Step(cfg, s, l).node, if Applies(s, l) then kept + [WriteOf(l)] else kept)
  {
    hide Step, Drives, N.OnFrame, N.Take, DecodeCommand;
    ReceivingMovesNode(cfg, s, l.frame, l.now);
    RefusedDrives(s.node, l.frame, l.now, writes);
    if Applies(s, l) {
      TakenCommand(s.node, l.frame, l.now);
      var kept := if Due(s.node, l.now) then [] else writes;
      TakenDrives(N.Expire(s.node, l.now), kept, DecodeCommand(l.frame).value, l.now);
    }
  }

  /** The other steps leave outputs, lease and interlock alone, or make the outputs neutral. */
  lemma OtherStepsDrive(cfg: SystemConfig, s: System, l: Label, writes: seq<N.Write>)
    requires Drives(s.node, writes) && !(l.NodeReceives? && l.frame in s.down)
    ensures Drives(Step(cfg, s, l).node,
                   match l
                   case NodePolls(now) => if Due(s.node, now) then [] else writes
                   case NodeInterlock(ready) => if ready then writes else []
                   case NodeReboots => []
                   case _ => writes)
  {
    hide Drives;
    NodeAlone(cfg, s, l);
    if l.NodePolls? {
      RefusedDrives(s.node, CanFrame(0, 0, Data(0, 0, 0, 0, 0, 0, 0, 0)), l.now, writes);
    } else {
      MovedDrives(s.node, Step(cfg, s, l).node, l, writes);
    }
  }

  lemma MovedDrives(n: N.Node, n': N.Node, l: Label, writes: seq<N.Write>)
    requires Drives(n, writes) && NodeMoves(n, n', l) && !l.NodePolls?
    ensures Drives(n', if l.NodeReboots? || (l.NodeInterlock? && !l.ready) then [] else writes)
  {
    hide N.Fold;
    EmptyFold();
  }

  /** How a step other than an accepted frame moves the node. */
  predicate NodeMoves(n: N.Node, n': N.Node, l: Label) {
    match l
    case NodePolls(now) => n' == N.Expire(n, now)
    case NodeInterlock(ready) => n' == N.SetInterlock(n, ready)
    case NodeReboots => n' == N.SoftRestart(n)
    case _ =>
      && n'.output == n.output && n'.leaseActive == n.leaseActive && n'.leaseDeadline == n.leaseDeadline
      && n'.interlock == n.interlock
  }

  lemma NodeAlone(cfg: SystemConfig, s: System, l: Label)
    requires !(l.NodeReceives? && l.frame in s.down)
    ensures NodeMoves(s.node, Step(cfg, s, l).node, l)
  {
    hide TraceStep, Consume, NoteSent, Sendable, Send, Digest, Encode, Decode, N.OnFrame, Translate, AcknowledgeClear,
      Overflowed, CommCheck;
  }

  lemma {:induction false} RunDrives(cfg: SystemConfig, node: N.Node, run: seq<Label>, n: nat)
    requires n <= |run| && N.Idle(node)
    ensures Drives(After(cfg, node, run, n).node, WritesOf(run, Writers(cfg, node, run, n)))
    ensures forall k :: 0 <= k < |Writers(cfg, node, run, n)| ==>
              var i := Writers(cfg, node, run, n)[k]; Applies(After(cfg, node, run, i), run[i])
  {
    hide Step, Drives, Answers, Applies, Due, WriteOf;
    if n == 0 {
      NeutralDrivesNothing(node);
      assert WritesOf(run, []) == [];
    } else {
      RunDrives(cfg, node, run, n - 1);
      var s, l, ws := After(cfg, node, run, n - 1), run[n - 1], Writers(cfg, node, run, n - 1);
      var writes := WritesOf(run, ws);
      if l.NodeReceives? && l.frame in s.down {
        ReceivingDrives(cfg, s, l, writes);
        AppliesAnswers(s, l);
        var kept := if Answers(s, l) && Due(s.node, l.now) then [] else ws;
        assert WritesOf(run, kept + [n - 1]) == WritesOf(run, kept) + [WriteOf(l)];
        assert WritesOf(run, []) == [];
        assert kept + [] == kept;
      } else {
        OtherStepsDrive(cfg, s, l, writes);
        AppliesAnswers(s, l);
        assert WritesOf(run, []) == [];
      }
    }
  }

  lemma AppliesAnswers(s: System, l: Label)
    ensures Applies(s, l) ==> Answers(s, l)
    ensures Answers(s, l) ==> l.NodeReceives? && l.frame in s.down
  {
  }

  /** Step i writes the bits of c, admitted before it was sent at step j with clock sample t, for the time granted. */
  predicate Authorised(cfg: SystemConfig, node: N.Node, run: seq<Label>, i: nat, j: nat, c: OutputCommand, t: int) {
    && j < i < |run| && run[i].NodeReceives?
    && SentAt(cfg, node, run, j, c, t, run[i].frame) && c in AdmittedBy(cfg, node, run, j)
    && WriteOf(run[i]).mask == BitsOf(c.mask % 256) && WriteOf(run[i]).values == BitsOf(c.values % 256)
    && c.deadline + (run[i].now - t) <= WriteOf(run[i]).deadline < c.deadline + (run[i].now - t) + VALIDITY_UNIT_NS
  }

  /** Some admitted and sent command explains step i. */
  ghost predicate HasOrigin(cfg: SystemConfig, node: N.Node, run: seq<Label>, i: nat) {
    exists j, c, t :: Authorised(cfg, node, run, i, j, c, t)
  }

  lemma WriterIsAuthorised(cfg: SystemConfig, node: N.Node, run: seq<Label>, i: nat)
    requires 1 <= cfg.sup.nodeId <= 31 && i < |run| && Applies(After(cfg, node, run, i), run[i])
    ensures HasOrigin(cfg, node, run, i)
  {
    hide After, AdmittedBy, SentAt, DecodeCommand, BitsOf, ValueOf, WireSequence, N.OnFrame;
    var j, c, t := NodeHearsOnlyAdmitted(cfg, node, run, i, run[i].frame);
    var w := DecodeCommand(run[i].frame).value;
    BitsOfValue(w.mask);
    BitsOfValue(w.values);
    assert Authorised(cfg, node, run, i, j, c, t);
  }

  /**
   Bounded authority, end to end: in every run of the whole system that ends in a poll of the node, its outputs are
   exactly the masked writes applied since they were last neutral, each carries the bits of a command that admission
   had accepted before it was sent, and while any output is on, the time is before the last such command's deadline
   shifted by its own transit time, rounded up by less than 10 ms.
   */
  lemma SystemAuthorityIsBounded(cfg: SystemConfig, node: N.Node, run: seq<Label>, n: nat)
    requires 1 <= cfg.sup.nodeId <= 31 && N.Idle(node) && 0 < n <= |run| && run[n - 1].NodePolls?
    ensures After(cfg, node, run, n).node.output == N.Fold(WritesOf(run, Writers(cfg, node, run, n)))
    ensures var ws := Writers(cfg, node, run, n);
            forall k :: 0 <= k < |ws| ==> HasOrigin(cfg, node, run, ws[k])
    ensures var s, ws := After(cfg, node, run, n), Writers(cfg, node, run, n);
            s.node.output != 0 ==>
              ws != [] && s.node.interlock && WithinGrant(cfg, node, run, ws[|ws| - 1], run[n - 1].now)
  {
    hide After, Writers, Applies, Answers, HasOrigin, WithinGrant, WriteOf, N.Fold;
    RunDrives(cfg, node, run, n);
    EmptyFold();
    var s, ws := After(cfg, node, run, n), Writers(cfg, node, run, n);
    forall k | 0 <= k < |ws| ensures HasOrigin(cfg, node, run, ws[k]) {
      WriterIsAuthorised(cfg, node, run, ws[k]);
    }
    PolledLeaseIsAhead(cfg, node, run, n);
    if s.node.output != 0 {
      var last := ws[|ws| - 1];
      AppliesAnswers(After(cfg, node, run, last), run[last]);
      GrantCovers(cfg, node, run, last, run[n - 1].now);
    }
  }

  /** The time is before what any command that can have caused step i was granted. */
  ghost predicate WithinGrant(cfg: SystemConfig, node: N.Node, run: seq<Label>, i: nat, now: int) {
    forall j, c, t :: Authorised(cfg, node, run, i, j, c, t) ==>
      now < c.deadline + (run[i].now - t) + VALIDITY_UNIT_NS
  }

  lemma GrantCovers(cfg: SystemConfig, node: N.Node, run: seq<Label>, i: nat, now: int)
    requires i < |run| && now < WriteOf(run[i]).deadline
    ensures WithinGrant(cfg, node, run, i, now)
  {
    hide WriteOf, SentAt, AdmittedBy;
  }

  lemma PolledLeaseIsAhead(cfg: SystemConfig, node: N.Node, run: seq<Label>, n: nat)
    requires 0 < n <= |run| && run[n - 1].NodePolls?
    ensures var after := After(cfg, node, run, n).node; after.leaseActive ==> run[n - 1].now < after.leaseDeadline
  {
  }
}
