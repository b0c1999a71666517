/** The lock-free single-producer single-consumer ring, one memory access per step. */
module Spsc {
  import opened Bytes
  import opened Rings

  /** Where the producer stands inside try_push. The local copy of head is part of the position. */
  datatype Producer<T> =
    | Away
    | HeadLoaded(item: T, head: nat)
    | RoomSeen(item: T, head: nat)
    | Written(item: T, head: nat)

  /** Where the consumer stands inside try_pop. */
  datatype Consumer<T> =
    | Gone
    | TailLoaded(tail: nat)
    | ItemSeen(tail: nat)
    | Copied(tail: nat, item: T)

  /** pushed and popped are the histories of the two sides; a call enters its history when it stores its index. */
  datatype Ring<T> = Ring(
    slots: seq<T>,
    head: nat,
    tail: nat,
    producer: Producer<T>,
    consumer: Consumer<T>,
    pushed: seq<T>,
    popped: seq<T>,
    overflows: nat,
    misses: nat
  )

  datatype Access<T> = BeginPush(item: T) | PushAccess | BeginPop | PopAccess

  predicate Indexed<T>(s: Ring<T>) {
    && 0 < |s.slots| && s.head < |s.slots| && s.tail < |s.slots|
    && (s.producer.Away? || s.producer.head < |s.slots|)
    && (s.consumer.Gone? || s.consumer.tail < |s.slots|)
  }

  /** The next load or store of the producer. */
  function Produce<T>(s: Ring<T>): Ring<T>
    requires Indexed(s)
  {
    match s.producer
    case Away => s
    case HeadLoaded(x, h) =>
      if Wrap(h + 1, |s.slots|) == s.tail then s.(producer := Away, overflows := s.overflows + 1)
      else s.(producer := RoomSeen(x, h))
    case RoomSeen(x, h) => s.(slots := s.slots[h := x], producer := Written(x, h))
    case Written(x, h) => s.(head := Wrap(h + 1, |s.slots|), producer := Away, pushed := s.pushed + [x])
  }

  /** The next load or store of the consumer. */
  function Consume<T>(s: Ring<T>): Ring<T>
    requires Indexed(s)
  {
    match s.consumer
    case Gone => s
    case TailLoaded(t) =>
      if t == s.head then s.(consumer := Gone, misses := s.misses + 1) else s.(consumer := ItemSeen(t))
    case ItemSeen(t) => s.(consumer := Copied(t, s.slots[t]))
    case Copied(t, x) => s.(tail := Wrap(t + 1, |s.slots|), consumer := Gone, popped := s.popped + [x])
  }

  function Next<T>(s: Ring<T>, a: Access<T>): Ring<T>
    requires Indexed(s)
  {
    match a
    case BeginPush(x) => if s.producer.Away? then s.(producer := HeadLoaded(x, s.head)) else s
    case PushAccess => Produce(s)
    case BeginPop => if s.consumer.Gone? then s.(consumer := TailLoaded(s.tail)) else s
    case PopAccess => Consume(s)
  }

  function Empty<T>(slots: seq<T>): Ring<T> { Ring(slots, 0, 0, Away, Gone, [], [], 0, 0) }

  // ---------- the invariant of every interleaving ----------

  /** The slot that the k-th element of a history uses. */
  function SlotOf(k: nat, n: nat): (i: nat)
    requires 0 < n
    ensures i < n
  {
    if k == 0 then 0 else Wrap(SlotOf(k - 1, n) + 1, n)
  }

  lemma {:induction false} SlotsDiffer(i: nat, j: nat, n: nat)
    requires 0 < n && i <= j < i + n
    ensures SlotOf(j, n) == Wrap(SlotOf(i, n) + (j - i), n)
    ensures i != j ==> SlotOf(i, n) != SlotOf(j, n)
    decreases j - i
  {
    if i < j { SlotsDiffer(i, j - 1, n); }
  }

  lemma SlotAfter(k: nat, n: nat)
    requires 0 < n
    ensures SlotOf(k + 1, n) == Wrap(SlotOf(k, n) + 1, n)
  {
  }

  function Held<T>(s: Ring<T>): int { |s.pushed| - |s.popped| }

  ghost predicate Inv<T>(s: Ring<T>) {
    var n := |s.slots|;
    && Indexed(s)
    && s.popped <= s.pushed && Held(s) < n
    && s.head == SlotOf(|s.pushed|, n) && s.tail == SlotOf(|s.popped|, n)
    && (forall k :: |s.popped| <= k < |s.pushed| ==> s.slots[SlotOf(k, n)] == s.pushed[k])
    && ProducerKnows(s) && ConsumerKnows(s)
  }

  /** What the producer has learnt stays true whatever the consumer does. */
  ghost predicate ProducerKnows<T>(s: Ring<T>)
    requires Indexed(s)
  {
    s.producer.Away? ||
    (&& s.producer.head == s.head
     && (s.producer.RoomSeen? || s.producer.Written? ==> Held(s) < |s.slots| - 1)
     && (s.producer.Written? ==> s.slots[s.head] == s.producer.item))
  }

  /** What the consumer has learnt stays true whatever the producer does. */
  ghost predicate ConsumerKnows<T>(s: Ring<T>) {
    s.consumer.Gone? ||
    (&& s.consumer.tail == s.tail
     && (s.consumer.ItemSeen? || s.consumer.Copied? ==> |s.popped| < |s.pushed|)
     && (s.consumer.Copied? ==> |s.popped| < |s.pushed| && s.consumer.item == s.pushed[|s.popped|]))
  }

  /** The producer sees a full ring exactly when the ring is full. */
  lemma FullSeen<T>(s: Ring<T>)
    requires Inv(s)
    ensures Wrap(s.head + 1, |s.slots|) == s.tail <==> Held(s) == |s.slots| - 1
    ensures s.head == s.tail <==> Held(s) == 0
  {
    hide SlotOf;
    var n := |s.slots|;
    SlotAfter(|s.pushed|, n);
    SlotsDiffer(|s.popped|, |s.pushed|, n);
    if Held(s) + 1 < n {
      SlotsDiffer(|s.popped|, |s.pushed| + 1, n);
    }
  }

  lemma ProduceKeepsInv<T>(s: Ring<T>)
    requires Inv(s)
    ensures Inv(Produce(s))
  {
    hide SlotOf, Wrap;
    FullSeen(s);
    SlotAfter(|s.pushed|, |s.slots|);
    var s', n := Produce(s), |s.slots|;
    if s.producer.RoomSeen? {
      forall k | |s.popped| <= k < |s.pushed| ensures s'.slots[SlotOf(k, n)] == s.pushed[k] {
        SlotsDiffer(k, |s.pushed|, n);
      }
    }
  }

  lemma ConsumeKeepsInv<T>(s: Ring<T>)
    requires Inv(s)
    ensures Inv(Consume(s))
  {
    hide SlotOf, Wrap;
    FullSeen(s);
    SlotAfter(|s.popped|, |s.slots|);
  }

  lemma {:induction false} RunKeepsInv<T>(s: Ring<T>, run: seq<Access<T>>)
    requires Inv(s)
    ensures Inv(Run(s, run)) && |Run(s, run).slots| == |s.slots|
    decreases |run|
  {
    if run != [] {
      StepKeepsInv(s, run[0]);
      RunKeepsInv(Next(s, run[0]), run[1..]);
    }
  }

  lemma KeepsSize<T>(s: Ring<T>)
    requires Indexed(s)
    ensures |Produce(s).slots| == |Consume(s).slots| == |s.slots|
  {
  }

  lemma StepKeepsInv<T>(s: Ring<T>, a: Access<T>)
    requires Inv(s)
    ensures Inv(Next(s, a)) && |Next(s, a).slots| == |s.slots|
  {
    hide SlotOf, Wrap, Produce, Consume;
    KeepsSize(s);
    ProduceKeepsInv(s);
    ConsumeKeepsInv(s);
  }

  function Run<T>(s: Ring<T>, run: seq<Access<T>>): Ring<T>
    decreases |run|
  {
    if run == [] || !Indexed(s) then s else Run(Next(s, run[0]), run[1..])
  }

  // ---------- what every interleaving guarantees ----------

  /**
   Whatever the interleaving of loads and stores: what comes out is a prefix of what went in, at most
   capacity - 1 elements are inside, and those are exactly the window between tail and head.
   */
  lemma OrderAndOccupancy<T>(slots: seq<T>, run: seq<Access<T>>)
    requires 0 < |slots|
    ensures var s := Run(Empty(slots), run);
            && s.popped <= s.pushed && Held(s) <= |slots| - 1
            && Indexed(s) && |s.slots| == |slots|
            && Unroll(s.slots, s.tail, Held(s)) == s.pushed[|s.popped|..]
  {
    RunKeepsInv(Empty(slots), run);
    WindowIsTheQueue(Run(Empty(slots), run));
  }

  lemma WindowIsTheQueue<T>(s: Ring<T>)
    requires Inv(s)
    ensures Unroll(s.slots, s.tail, Held(s)) == s.pushed[|s.popped|..]
  {
    var window := Unroll(s.slots, s.tail, Held(s));
    forall i | 0 <= i < Held(s) ensures window[i] == s.pushed[|s.popped|..][i] {
      SlotsDiffer(|s.popped|, |s.popped| + i, |s.slots|);
      assert window[i] == s.slots[Wrap(s.tail + i, |s.slots|)];
    }
  }

  /** The slot about to be written is never the slot about to be read. */
  lemma NeverTheSameSlot<T>(slots: seq<T>, run: seq<Access<T>>)
    requires 0 < |slots|
    ensures var s := Run(Empty(slots), run);
            s.producer.RoomSeen? && s.consumer.ItemSeen? ==> s.producer.head != s.consumer.tail
  {
    RunKeepsInv(Empty(slots), run);
    FullSeen(Run(Empty(slots), run));
  }

  /** A push is refused exactly if the ring is full when tail is loaded, a pop exactly if it is empty when head is. */
  lemma RefusedExactly<T>(slots: seq<T>, run: seq<Access<T>>)
    requires 0 < |slots|
    ensures var s := Run(Empty(slots), run);
            && Indexed(s)
            && (s.producer.HeadLoaded? ==> (Produce(s).overflows == s.overflows + 1 <==> Held(s) == |slots| - 1))
            && (s.consumer.TailLoaded? ==> (Consume(s).misses == s.misses + 1 <==> s.pushed == s.popped))
  {
    RunKeepsInv(Empty(slots), run);
    FullSeen(Run(Empty(slots), run));
  }

  // ---------- nobody waits for the other side ----------

  ghost predicate OnlyPops<T>(run: seq<Access<T>>) {
    forall i :: 0 <= i < |run| ==> run[i].BeginPop? || run[i].PopAccess?
  }

  ghost predicate OnlyPushes<T>(run: seq<Access<T>>) {
    forall i :: 0 <= i < |run| ==> run[i].BeginPush? || run[i].PushAccess?
  }

  lemma {:induction false} PopsLeaveProducer<T>(s: Ring<T>, run: seq<Access<T>>)
    requires Inv(s) && OnlyPops(run)
    ensures var s' := Run(s, run);
            && Inv(s') && s'.producer == s.producer && s'.pushed == s.pushed && s'.overflows == s.overflows
            && |s'.slots| == |s.slots|
    decreases |run|
  {
    hide SlotOf, Wrap;
    if run != [] {
      StepKeepsInv(s, run[0]);
      PopsLeaveProducer(Next(s, run[0]), run[1..]);
    }
  }

  lemma {:induction false} PushesLeaveConsumer<T>(s: Ring<T>, run: seq<Access<T>>)
    requires Inv(s) && OnlyPushes(run)
    ensures var s' := Run(s, run);
            && Inv(s') && s'.consumer == s.consumer && s'.popped == s.popped && s'.misses == s.misses
            && s.pushed <= s'.pushed && |s'.slots| == |s.slots|
    decreases |run|
  {
    hide SlotOf, Wrap;
    if run != [] {
      StepKeepsInv(s, run[0]);
      PushesLeaveConsumer(Next(s, run[0]), run[1..]);
    }
  }

  /**
   A push is over after its three further accesses, whatever the consumer does between them: refused if the ring was
   full at the load of tail, otherwise with exactly its item appended.
   */
  lemma PushCompletes<T>(s: Ring<T>, x: T, a: seq<Access<T>>, b: seq<Access<T>>, c: seq<Access<T>>)
    requires Inv(s) && s.producer.Away? && OnlyPops(a) && OnlyPops(b) && OnlyPops(c)
    ensures var s1 := Run(Next(s, BeginPush(x)), a);
            && Indexed(s1)
            && var s2 := Run(Produce(s1), b);
            && Indexed(s2)
            && var s3 := Run(Produce(s2), c);
            && Indexed(s3)
            && var s4 := Produce(s3);
            && s4.producer.Away?
            && (if Held(s1) == |s.slots| - 1 then s4.pushed == s.pushed && s4.overflows == s.overflows + 1
                else s4.pushed == s.pushed + [x] && s4.overflows == s.overflows)
  {
    hide SlotOf, Wrap, Run;
    StepKeepsInv(s, BeginPush(x));
    PopsLeaveProducer(Next(s, BeginPush(x)), a);
    var s1 := Run(Next(s, BeginPush(x)), a);
    FullSeen(s1);
    StepKeepsInv(s1, PushAccess);
    PopsLeaveProducer(Produce(s1), b);
    var s2 := Run(Produce(s1), b);
    StepKeepsInv(s2, PushAccess);
    PopsLeaveProducer(Produce(s2), c);
  }

  /** The same for a pop: it finds the ring empty at the load of head, or takes the oldest element. */
  lemma PopCompletes<T>(s: Ring<T>, a: seq<Access<T>>, b: seq<Access<T>>, c: seq<Access<T>>)
    requires Inv(s) && s.consumer.Gone? && OnlyPushes(a) && OnlyPushes(b) && OnlyPushes(c)
    ensures var s1 := Run(Next(s, BeginPop), a);
            && Indexed(s1) && s.popped <= s1.pushed
            && var s2 := Run(Consume(s1), b);
            && Indexed(s2)
            && var s3 := Run(Consume(s2), c);
            && Indexed(s3)
            && var s4 := Consume(s3);
            && s4.consumer.Gone?
            && (if s1.pushed == s.popped then s4.popped == s.popped && s4.misses == s.misses + 1
                else s4.popped == s.popped + [s1.pushed[|s.popped|]] && s4.misses == s.misses)
  {
    hide SlotOf, Wrap, Run;
    StepKeepsInv(s, BeginPop);
    PushesLeaveConsumer(Next(s, BeginPop), a);
    var s1 := Run(Next(s, BeginPop), a);
    FullSeen(s1);
    StepKeepsInv(s1, PopAccess);
    PushesLeaveConsumer(Consume(s1), b);
    var s2 := Run(Consume(s1), b);
    StepKeepsInv(s2, PopAccess);
    PushesLeaveConsumer(Consume(s2), c);
  }

  // ---------- the object ----------

  class SpscQueue<T(0)> {
    const storage: array<T>
    var head: nat
    var tail: nat

    ghost predicate Valid()
      reads this, storage
    {
      head < storage.Length && tail < storage.Length
    }

    ghost function Count(): nat
      reads this, storage
      requires Valid()
    {
      if tail <= head then head - tail else head + storage.Length - tail
    }

    ghost function Contents(): seq<T>
      reads this, storage
      requires Valid()
    {
      Unroll(storage[..], tail, Count())
    }

    constructor (capacity: nat)
      requires 0 < capacity
      ensures Valid() && fresh(storage) && storage.Length == capacity && Contents() == []
    {
      storage := new T[capacity];
      head, tail := 0, 0;
    }

    method TryPush(x: T) returns (ok: bool)
      requires Valid()
      modifies this`head, storage
      ensures Valid()
      ensures ok <==> |old(Contents())| < storage.Length - 1
      ensures Contents() == if ok then old(Contents()) + [x] else old(Contents())
    {
      var next := Wrap(head + 1, storage.Length);
      if next == tail {
        return false;
      }
      UnrollPush(storage[..], tail, Count(), x);
      storage[head] := x;
      head := next;
      return true;
    }

    method TryPop() returns (x: Option<T>)
      requires Valid()
      modifies this`tail
      ensures Valid()
      ensures old(Contents()) == (if x.Some? then [x.value] else []) + Contents()
      ensures x.None? <==> old(Contents()) == []
    {
      if tail == head {
        return None;
      }
      UnrollPop(storage[..], tail, Count());
      x := Some(storage[tail]);
      tail := Wrap(tail + 1, storage.Length);
    }
  }
}
