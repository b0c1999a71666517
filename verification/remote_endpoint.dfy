/** The remote control endpoint: the drain loop, the session it keeps and the replies it queues. */
module RemoteEndpoint {
  import opened Bytes
  import opened RemoteFrames

  const HELLO: bv8 := 1
  const HEARTBEAT: bv8 := 3
  const GET_STATUS: bv8 := 5

  datatype SessionState = WaitingHello | Established | Faulted

  /** A reply, without its payload. */
  datatype Reply = HelloAck(sequence: u16) | HeartbeatAck(sequence: u16) | Status(sequence: u16) | Error(sequence: u16)

  datatype Endpoint = Endpoint(
    session: SessionState,
    echo: bool,
    malformed: nat,
    rejected: nat,
    accepted: nat,
    hellos: nat,
    heartbeats: nat,
    statusReplies: nat
  )

  const WAITING := Endpoint(WaitingHello, true, 0, 0, 0, 0, 0, 0)

  /** One good frame. */
  function Handle(e: Endpoint, f: RemoteFrame): (Endpoint, seq<Reply>) {
    var e := e.(accepted := e.accepted + 1);
    if f.kind == HELLO then (e.(hellos := e.hellos + 1, session := Established), [HelloAck(f.sequence)])
    else if f.kind == HEARTBEAT then
      if !e.session.Established? then (e, [Error(f.sequence)])
      else (e.(heartbeats := e.heartbeats + 1), if e.echo then [HeartbeatAck(f.sequence)] else [])
    else if f.kind == GET_STATUS then
      if !e.session.Established? then (e, [Error(f.sequence)])
      else (e.(statusReplies := e.statusReplies + 1), [Status(f.sequence)])
    else (e.(rejected := e.rejected + 1), [Error(f.sequence)])
  }

  function Digest(e: Endpoint, item: Item): (Endpoint, seq<Reply>) {
    if item.Popped? then Handle(e, item.frame)
    else (e.(malformed := e.malformed + 1, rejected := e.rejected + 1), [])
  }

  function DigestAll(e: Endpoint, items: seq<Item>): (Endpoint, seq<Reply>)
    decreases |items|
  {
    if items == [] then (e, [])
    else
      var (e1, now) := Digest(e, items[0]);
      var (e2, later) := DigestAll(e1, items[1..]);
      (e2, now + later)
  }

  class RemoteControlEndpoint {
    const parser: RemoteFrameParser
    var session: SessionState
    var heartbeatRepliesEnabled: bool
    var malformed: nat
    var framesRejected: nat
    var framesAccepted: nat
    var hellos: nat
    var heartbeats: nat
    var statusReplies: nat

    ghost function View(): Endpoint reads this {
      Endpoint(session, heartbeatRepliesEnabled, malformed, framesRejected, framesAccepted, hellos, heartbeats,
               statusReplies)
    }

    constructor ()
      ensures fresh(parser) && parser.buffer == [] && View() == WAITING
    {
      parser := new RemoteFrameParser();
      session, heartbeatRepliesEnabled := WaitingHello, true;
      malformed, framesRejected, framesAccepted, hellos, heartbeats, statusReplies := 0, 0, 0, 0, 0, 0;
    }

    method HandleFrame(f: RemoteFrame) returns (outbound: seq<Reply>)
      modifies this
      ensures (View(), outbound) == Handle(old(View()), f)
      ensures session.Established? <==> f.kind == 1 || old(session).Established?
      ensures outbound == if session.Established? then Answer(View().echo, f) else [Error(f.sequence)]
    {
      framesAccepted := framesAccepted + 1;
      if f.kind == HELLO {
        hellos := hellos + 1;
        session := Established;
        return [HelloAck(f.sequence)];
      } else if f.kind == HEARTBEAT {
        if !session.Established? {
          return [Error(f.sequence)];
        }
        heartbeats := heartbeats + 1;
        if !heartbeatRepliesEnabled {
          return [];
        }
        return [HeartbeatAck(f.sequence)];
      } else if f.kind == GET_STATUS {
        if !session.Established? {
          return [Error(f.sequence)];
        }
        statusReplies := statusReplies + 1;
        return [Status(f.sequence)];
      } else {
        framesRejected := framesRejected + 1;
        return [Error(f.sequence)];
      }
    }

    method DigestItem(item: Item) returns (replies: seq<Reply>)
      modifies this
      ensures (View(), replies) == Digest(old(View()), item)
    {
      if !item.Popped? {
        malformed, framesRejected := malformed + 1, framesRejected + 1;
        return [];
      }
      replies := HandleFrame(item.frame);
    }

    /** The loop ends because everything it pops takes bytes out of the buffer. */
    method PushBytes(inbound: seq<bv8>) returns (outbound: seq<Reply>)
      modifies this, parser
      ensures var before := old(parser.buffer);
              if Overflows(before, inbound) then
                && parser.buffer == [] && outbound == [Error(0)]
                && View() == old(View()).(malformed := old(malformed) + 1, session := Faulted)
              else
                var drained := Drain(before + inbound);
                parser.buffer == drained.1 && (View(), outbound) == DigestAll(old(View()), drained.0)
    {
      hide Front, Digest, DigestAll, Drain;
      var overflow := parser.Append(inbound);
      if overflow {
        malformed, session := malformed + 1, Faulted;
        return [Error(0)];
      }
      outbound := [];
      ghost var whole, done: seq<Item>, before := Drain(parser.buffer), [], View();
      DigestNothing(before);
      while true
        invariant whole.0 == done + Drain(parser.buffer).0 && whole.1 == Drain(parser.buffer).1
        invariant (View(), outbound) == DigestAll(before, done)
        decreases |parser.buffer|
      {
        FrontBounds(parser.buffer);
        DrainUnfolds(parser.buffer);
        var item := parser.TryPop();
        if item.None? {
          break;
        }
        var replies := DigestItem(item.value);
        outbound := outbound + replies;
        DigestOneMore(before, done, item.value);
        done := done + [item.value];
      }
      assert done == whole.0;
    }
  }

  // ---------- whole conversations ----------

  lemma {:induction false} DigestInTwo(e: Endpoint, a: seq<Item>, b: seq<Item>)
    ensures var (e1, r1) := DigestAll(e, a);
            var (e2, r2) := DigestAll(e1, b);
            DigestAll(e, a + b) == (e2, r1 + r2)
    decreases |a|
  {
    hide Digest;
    if a == [] {
      assert a + b == b;
      assert [] + DigestAll(e, b).1 == DigestAll(e, b).1;
    } else {
      var (e1, now) := Digest(e, a[0]);
      DigestInTwo(e1, a[1..], b);
      assert (a + b)[1..] == a[1..] + b;
      var (e2, later) := DigestAll(e1, a[1..]);
      assert now + (later + DigestAll(e2, b).1) == (now + later) + DigestAll(e2, b).1;
    }
  }

  lemma DigestNothing(e: Endpoint)
    ensures DigestAll(e, []) == (e, [])
  {
  }

  lemma DigestOneMore(e: Endpoint, items: seq<Item>, item: Item)
    ensures var (e1, r1) := DigestAll(e, items);
            var (e2, r2) := Digest(e1, item);
            DigestAll(e, items + [item]) == (e2, r1 + r2)
  {
    hide Digest;
    DigestInTwo(e, items, [item]);
    var (e1, r1) := DigestAll(e, items);
    var (e2, r2) := Digest(e1, item);
    assert [item][1..] == [];
    assert DigestAll(e1, [item]) == (e2, r2 + []);
    assert r2 + [] == r2;
  }

  /** The endpoint, its parser's residue and all replies so far. */
  datatype Conversation = Conversation(e: Endpoint, residue: seq<bv8>, sent: seq<Reply>)

  /** One push_bytes call. */
  function Push(c: Conversation, chunk: seq<bv8>): Conversation {
    if Overflows(c.residue, chunk) then
      Conversation(c.e.(malformed := c.e.malformed + 1, session := Faulted), [], c.sent + [Error(0)])
    else
      var drained := Drain(c.residue + chunk);
      var (e, replies) := DigestAll(c.e, drained.0);
      Conversation(e, drained.1, c.sent + replies)
  }

  /** A chunk that would make more than 1052 buffered bytes costs the residue and the session, with one error. */
  lemma OverflowFaults(c: Conversation, chunk: seq<bv8>)
    ensures var c' := Push(c, chunk);
            && (chunk != [] && |c.residue| + |chunk| > 1052 ==>
                  && c'.e == c.e.(malformed := c.e.malformed + 1, session := Faulted)
                  && c'.residue == [] && c'.sent == c.sent + [Error(0)])
            && (chunk == [] || |c.residue| + |chunk| <= 1052 ==>
                  var (items, rest) := Drain(c.residue + chunk);
                  c'.residue == rest && (c'.e, c'.sent) == (DigestAll(c.e, items).0, c.sent + DigestAll(c.e, items).1))
  {
    hide Drain, DigestAll;
  }

  function PushAll(c: Conversation, chunks: seq<seq<bv8>>): Conversation
    decreases |chunks|
  {
    if chunks == [] then c else PushAll(Push(c, chunks[0]), chunks[1..])
  }

  /**
   However the peer's bytes are cut into reads, the endpoint ends in the state, and sends the replies, that
   digesting the whole stream's items once would give. Reads of at most 527 bytes always fit.
   */
  lemma {:induction false} ReadsDoNotMatter(c: Conversation, chunks: seq<seq<bv8>>)
    requires Front(c.residue).None? && Fits(c.residue, chunks)
    ensures var whole := Drain(c.residue + Flatten(chunks));
            var (e, replies) := DigestAll(c.e, whole.0);
            PushAll(c, chunks) == Conversation(e, whole.1, c.sent + replies)
    decreases |chunks|
  {
    hide Digest, DigestAll, Front, Drain;
    if chunks == [] {
      DrainUnfolds(c.residue);
      DigestNothing(c.e);
      assert c.residue + Flatten(chunks) == c.residue;
      assert c.sent + [] == c.sent;
    } else {
      var now := Drain(c.residue + chunks[0]);
      var c1 := Push(c, chunks[0]);
      ReadsDoNotMatter(c1, chunks[1..]);
      DrainInTwo(c.residue + chunks[0], Flatten(chunks[1..]));
      assert c.residue + Flatten(chunks) == (c.residue + chunks[0]) + Flatten(chunks[1..]);
      var later := Drain(now.1 + Flatten(chunks[1..]));
      DigestInTwo(c.e, now.0, later.0);
      var (e1, r1) := DigestAll(c.e, now.0);
      var (e2, r2) := DigestAll(e1, later.0);
      assert c.sent + (r1 + r2) == (c.sent + r1) + r2;
    }
  }

  /** How many good frames are of a kind. */
  function OfKind(items: seq<Item>, kind: bv8): nat {
    if items == [] then 0
    else (if items[0].Popped? && items[0].frame.kind == kind then 1 else 0) + OfKind(items[1..], kind)
  }

  function Good(items: seq<Item>): nat {
    if items == [] then 0 else (if items[0].Popped? then 1 else 0) + Good(items[1..])
  }

  /**
   Every item is counted once: good ones as accepted, bad ones as malformed and rejected, good ones of unknown kind as
   rejected too. HELLOs are counted always, heartbeats and status requests in a session that is established.
   */
  lemma {:induction false} EveryItemIsCounted(e: Endpoint, items: seq<Item>)
    ensures var (e', sent) := DigestAll(e, items);
            var known := OfKind(items, 1) + OfKind(items, 3) + OfKind(items, 5);
            && known <= Good(items) <= |items|
            && e'.accepted == e.accepted + Good(items)
            && e'.malformed == e.malformed + (|items| - Good(items))
            && e'.rejected == e.rejected + (|items| - known)
            && e'.hellos == e.hellos + OfKind(items, 1)
            && e'.echo == e.echo && |sent| <= Good(items) && (e.echo ==> |sent| == Good(items))
            && (e.session.Established? ==>
                  && e'.heartbeats == e.heartbeats + OfKind(items, 3)
                  && e'.statusReplies == e.statusReplies + OfKind(items, 5))
    decreases |items|
  {
    if items != [] {
      hide Digest;
      ItemIsCounted(e, items[0]);
      EveryItemIsCounted(Digest(e, items[0]).0, items[1..]);
    }
  }

  lemma ItemIsCounted(e: Endpoint, item: Item)
    ensures var (e', sent) := Digest(e, item);
            var good := item.Popped?;
            && e'.accepted == e.accepted + (if good then 1 else 0)
            && e'.malformed == e.malformed + (if good then 0 else 1)
            && e'.rejected == e.rejected
                 + (if good && (item.frame.kind == 1 || item.frame.kind == 3 || item.frame.kind == 5) then 0 else 1)
            && e'.hellos == e.hellos + (if good && item.frame.kind == 1 then 1 else 0)
            && e'.echo == e.echo && |sent| <= (if good then 1 else 0) && (e.echo && good ==> |sent| == 1)
            && (e.session.Established? ==>
                  && e'.session.Established?
                  && e'.heartbeats == e.heartbeats + (if good && item.frame.kind == 3 then 1 else 0)
                  && e'.statusReplies == e.statusReplies + (if good && item.frame.kind == 5 then 1 else 0))
  {
  }

  /** What an established session answers to a frame: 1 is HELLO, 3 HEARTBEAT, 5 GET_STATUS. */
  function Answer(echo: bool, f: RemoteFrame): seq<Reply> {
    if f.kind == 1 then [HelloAck(f.sequence)]
    else if f.kind == 3 then (if echo then [HeartbeatAck(f.sequence)] else [])
    else if f.kind == 5 then [Status(f.sequence)]
    else [Error(f.sequence)]
  }

  function Answers(echo: bool, items: seq<Item>): seq<Reply> {
    if items == [] then []
    else (if items[0].Popped? then Answer(echo, items[0].frame) else []) + Answers(echo, items[1..])
  }

  /** One error for each good frame. */
  function Errors(items: seq<Item>): seq<Reply> {
    if items == [] then []
    else (if items[0].Popped? then [Error(items[0].frame.sequence)] else []) + Errors(items[1..])
  }

  predicate IsHello(item: Item) { item.Popped? && item.frame.kind == 1 }

  /**
   Once established, a session stays so and answers every good frame in order under its own number; a heartbeat is
   answered exactly if echoing is on.
   */
  lemma {:induction false} EstablishedAnswersEach(e: Endpoint, items: seq<Item>)
    requires e.session.Established?
    ensures var (e', sent) := DigestAll(e, items);
            e'.session.Established? && e'.echo == e.echo && sent == Answers(e.echo, items)
    decreases |items|
  {
    if items != [] {
      EstablishedAnswersEach(Digest(e, items[0]).0, items[1..]);
    }
  }

  /** Before the first HELLO nothing is established and every good frame gets an error. */
  lemma {:induction false} NothingBeforeHello(e: Endpoint, items: seq<Item>)
    requires !e.session.Established?
    requires forall i :: 0 <= i < |items| ==> !IsHello(items[i])
    ensures var (e', sent) := DigestAll(e, items);
            e'.session == e.session && e'.echo == e.echo && sent == Errors(items)
    decreases |items|
  {
    if items != [] {
      NothingBeforeHello(Digest(e, items[0]).0, items[1..]);
    }
  }

  lemma HelloEstablishes(e: Endpoint, item: Item)
    requires IsHello(item)
    ensures var (e', sent) := Digest(e, item);
            e'.session.Established? && e'.echo == e.echo && sent == [HelloAck(item.frame.sequence)]
  {
  }

  /**
   The whole conversation: whatever the session was, faulted included, a stream whose first HELLO is item h ends
   established. Its replies are what came before, the acknowledgement of that HELLO, and from there on the answers of
   an established session. What came before is one error for each good frame if the session was not established.
   */
  lemma FirstHelloEstablishes(e: Endpoint, items: seq<Item>, h: nat)
    requires h < |items| && IsHello(items[h]) && forall i :: 0 <= i < h ==> !IsHello(items[i])
    ensures var (e', sent) := DigestAll(e, items);
            && e'.session.Established?
            && sent == (if e.session.Established? then Answers(e.echo, items[..h]) else Errors(items[..h]))
                     + ([HelloAck(items[h].frame.sequence)] + Answers(e.echo, items[h + 1..]))
  {
    hide Digest, DigestAll, IsHello, Answers, Errors;
    var before, rest := items[..h], items[h..];
    assert items == before + rest && rest[1..] == items[h + 1..];
    if e.session.Established? { EstablishedAnswersEach(e, before); } else { NothingBeforeHello(e, before); }
    FromHelloOn(DigestAll(e, before).0, rest);
    DigestInTwo(e, before, rest);
  }

  lemma FromHelloOn(e: Endpoint, items: seq<Item>)
    requires items != [] && IsHello(items[0])
    ensures var (e', sent) := DigestAll(e, items);
            && e'.session.Established?
            && sent == [HelloAck(items[0].frame.sequence)] + Answers(e.echo, items[1..])
  {
    hide Digest, IsHello, Answers;
    HelloEstablishes(e, items[0]);
    EstablishedAnswersEach(Digest(e, items[0]).0, items[1..]);
  }
}
