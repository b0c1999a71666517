/** Two fixed rings: the event queue that never overwrites, and the trace that always does. */
module Rings {
  import opened Bytes

  lemma WrapOnce(x: nat, n: nat)
    requires 0 < n && x < 2 * n
    ensures x % n == if x < n then x else x - n
  {
    var q := x / n;
    assert x == n * q + x % n;
    if q >= 2 { MulMonotone(n, 2, q); }
    if q <= -1 { MulMonotone(n, q, -1); }
  }

  lemma MulMonotone(n: nat, a: int, b: int)
    requires a <= b
    ensures n * a <= n * b
  {
  }

  /** An index into a ring of n cells. */
  function Wrap(x: nat, n: nat): (r: nat)
    requires 0 < n && x < 2 * n
    ensures r == if x < n then x else x - n
  {
    WrapOnce(x, n);
    x % n
  }

  /** The size elements of a ring starting at head, oldest first. */
  ghost function Unroll<T>(cells: seq<T>, head: nat, size: nat): (s: seq<T>)
    requires head < |cells| && size <= |cells|
    ensures |s| == size
  {
    seq(size, i requires 0 <= i < size => cells[Wrap(head + i, |cells|)])
  }

  lemma UnrollPush<T>(cells: seq<T>, head: nat, size: nat, x: T)
    requires head < |cells| && size < |cells|
    ensures Unroll(cells[Wrap(head + size, |cells|) := x], head, size + 1) == Unroll(cells, head, size) + [x]
  {
    hide Wrap;
    var after := Unroll(cells[Wrap(head + size, |cells|) := x], head, size + 1);
    forall i | 0 <= i <= size ensures after[i] == (Unroll(cells, head, size) + [x])[i] {
      assert after[i] == cells[Wrap(head + size, |cells|) := x][Wrap(head + i, |cells|)];
    }
  }

  lemma UnrollPop<T>(cells: seq<T>, head: nat, size: nat)
    requires head < |cells| && 0 < size <= |cells|
    ensures Unroll(cells, head, size) == [cells[head]] + Unroll(cells, Wrap(head + 1, |cells|), size - 1)
  {
    hide Wrap;
    var rest := Unroll(cells, Wrap(head + 1, |cells|), size - 1);
    forall i | 0 <= i < size ensures Unroll(cells, head, size)[i] == ([cells[head]] + rest)[i] {
      assert Wrap(head, |cells|) == head;
      assert i > 0 ==> Wrap(head + i, |cells|) == Wrap(Wrap(head + 1, |cells|) + (i - 1), |cells|);
    }
  }

  // ---------- the event queue ----------

  /** A bounded first-in first-out queue that refuses when full and remembers that it did. */
  datatype Fifo<T> = Fifo(items: seq<T>, capacity: nat, pushes: nat, refused: nat, latched: bool)

  function Push<T>(q: Fifo<T>, x: T): Fifo<T> {
    if |q.items| >= q.capacity then q.(refused := q.refused + 1, latched := true)
    else q.(items := q.items + [x], pushes := q.pushes + 1)
  }

  function Popped<T>(q: Fifo<T>): Fifo<T> {
    if q.items == [] then q else q.(items := q.items[1..])
  }

  class BoundedInputQueue<T(0)> {
    const capacity: nat
    const storage: array<T>
    var head: nat
    var size: nat
    var pushCount: nat
    var dropCount: nat
    var overflowLatched: bool

    ghost predicate Valid()
      reads this, storage
    {
      0 < capacity == storage.Length && head < capacity && size <= capacity
    }

    ghost function View(): Fifo<T>
      reads this, storage
      requires Valid()
    {
      Fifo(Unroll(storage[..], head, size), capacity, pushCount, dropCount, overflowLatched)
    }

    constructor (requested: nat)
      ensures Valid() && fresh(storage)
      ensures View() == Fifo([], if requested == 0 then 1 else requested, 0, 0, false)
    {
      capacity := if requested == 0 then 1 else requested;
      storage := new T[if requested == 0 then 1 else requested];
      head, size, pushCount, dropCount, overflowLatched := 0, 0, 0, 0, false;
    }

    method TryPush(x: T) returns (ok: bool)
      requires Valid()
      modifies this, storage
      ensures Valid() && View() == Push(old(View()), x)
      ensures ok <==> |old(View()).items| < capacity
    {
      if size >= capacity {
        dropCount, overflowLatched := dropCount + 1, true;
        return false;
      }
      UnrollPush(storage[..], head, size, x);
      storage[Wrap(head + size, capacity)] := x;
      size, pushCount := size + 1, pushCount + 1;
      return true;
    }

    method TryPop() returns (x: Option<T>)
      requires Valid()
      modifies this
      ensures Valid() && View() == Popped(old(View()))
      ensures x == var items := old(View()).items; if items == [] then None else Some(items[0])
    {
      if size == 0 {
        return None;
      }
      UnrollPop(storage[..], head, size);
      x := Some(storage[head]);
      head, size := Wrap(head + 1, capacity), size - 1;
    }
  }

  datatype QueueOp<T> = PushOp(item: T) | PopOp

  function QueueRun<T>(q: Fifo<T>, ops: seq<QueueOp<T>>): Fifo<T>
    decreases |ops|
  {
    if ops == [] then q
    else
      var before := QueueRun(q, ops[..|ops| - 1]);
      match ops[|ops| - 1] case PushOp(x) => Push(before, x) case PopOp => Popped(before)
  }

  /** The items of the pushes that were accepted along a run, in order. */
  function AcceptedItems<T>(q: Fifo<T>, ops: seq<QueueOp<T>>): seq<T>
    decreases |ops|
  {
    if ops == [] then []
    else
      var init, last := ops[..|ops| - 1], ops[|ops| - 1];
      AcceptedItems(q, init) +
      (if last.PushOp? && |QueueRun(q, init).items| < QueueRun(q, init).capacity then [last.item] else [])
  }

  function PushesIn<T>(ops: seq<QueueOp<T>>): nat {
    if ops == [] then 0 else PushesIn(ops[..|ops| - 1]) + (if ops[|ops| - 1].PushOp? then 1 else 0)
  }

  /** Every push of a run is counted once, as accepted or as refused. */
  lemma {:induction false} EveryPushIsCounted<T>(capacity: nat, ops: seq<QueueOp<T>>)
    ensures var q := QueueRun(Fifo([], capacity, 0, 0, false), ops); q.pushes + q.refused == PushesIn(ops)
    decreases |ops|
  {
    if ops != [] { EveryPushIsCounted(capacity, ops[..|ops| - 1]); }
  }

  /** The queue holds a suffix of everything accepted, and remembers exactly whether anything was refused. */
  predicate HoldsSuffix<T(==)>(q: Fifo<T>, all: seq<T>, capacity: nat) {
    && |q.items| <= |all| && q.items == all[|all| - |q.items|..]
    && q.pushes == |all| && q.capacity == capacity && |q.items| <= capacity
    && (q.latched <==> q.refused > 0)
  }

  lemma PushKeepsSuffix<T>(q: Fifo<T>, all: seq<T>, capacity: nat, x: T)
    requires HoldsSuffix(q, all, capacity)
    ensures HoldsSuffix(Push(q, x), if |q.items| < capacity then all + [x] else all, capacity)
  {
    if |q.items| < capacity {
      assert (all + [x])[|all| - |q.items|..] == q.items + [x];
    }
  }

  lemma PopKeepsSuffix<T>(q: Fifo<T>, all: seq<T>, capacity: nat)
    requires HoldsSuffix(q, all, capacity)
    ensures HoldsSuffix(Popped(q), all, capacity)
  {
  }

  /**
   Nothing accepted is ever overwritten or reordered: along every run the queue holds a
   suffix of the accepted items, so the removed ones are exactly the prefix before it; and the
   overflow latch is set exactly when some push was refused.
   */
  lemma {:induction false} QueueKeepsEveryAcceptedItem<T>(capacity: nat, ops: seq<QueueOp<T>>)
    ensures var q0: Fifo<T> := Fifo([], capacity, 0, 0, false);
            HoldsSuffix(QueueRun(q0, ops), AcceptedItems(q0, ops), capacity)
    decreases |ops|
  {
    if ops != [] {
      hide Push, Popped;
      var q0: Fifo<T> := Fifo([], capacity, 0, 0, false);
      var init, last := ops[..|ops| - 1], ops[|ops| - 1];
      QueueKeepsEveryAcceptedItem(capacity, init);
      var q, all := QueueRun(q0, init), AcceptedItems(q0, init);
      assert all + [] == all;
      if last.PushOp? {
        PushKeepsSuffix(q, all, capacity, last.item);
      } else {
        PopKeepsSuffix(q, all, capacity);
      }
    }
  }

  // ---------- the trace ----------

  /** The last k elements of a sequence, or all of it if it is shorter. */
  function LastOf<T>(s: seq<T>, k: nat): seq<T> { if |s| <= k then s else s[|s| - k..] }

  /** The cells of a trace hold the newest recorded events, oldest at next once the ring is full. */
  ghost predicate Keeps<T>(cells: seq<T>, next: nat, size: nat, recorded: seq<T>) {
    && size == |LastOf(recorded, |cells|)|
    && (cells == [] ==> recorded == [])
    && (cells != [] ==>
          && next < |cells| && (size < |cells| ==> next == size)
          && Unroll(cells, if size == |cells| then next else 0, size) == LastOf(recorded, |cells|))
  }

  lemma KeepsSize<T>(cells: seq<T>, next: nat, size: nat, recorded: seq<T>)
    requires Keeps(cells, next, size, recorded)
    ensures size == |LastOf(recorded, |cells|)| <= |cells| && (cells != [] ==> next < |cells|)
  {
    hide Unroll;
  }

  lemma KeepsAt<T>(cells: seq<T>, next: nat, size: nat, recorded: seq<T>, i: nat)
    requires Keeps(cells, next, size, recorded) && i < size == |LastOf(recorded, |cells|)| <= |cells|
    ensures next < |cells|
    ensures cells[Wrap((if size == |cells| then next else 0) + i, |cells|)] == LastOf(recorded, |cells|)[i]
  {
    hide LastOf, Wrap;
  }

  lemma KeepsMore<T>(cells: seq<T>, next: nat, size: nat, recorded: seq<T>, event: T)
    requires cells != [] && Keeps(cells, next, size, recorded)
    ensures next < |cells|
    ensures Keeps(cells[next := event], Wrap(next + 1, |cells|), if size + 1 < |cells| then size + 1 else |cells|,
                  recorded + [event])
  {
    hide Unroll, LastOf;
    LastOfMore(recorded, event, |cells|);
    if size < |cells| {
      UnrollPush(cells, 0, size, event);
    } else {
      OverwriteOldest(cells, next, event);
    }
  }

  class TraceBuffer<T(0)> {
    const capacity: nat
    const storage: array<T>
    var next: nat
    var size: nat
    var dropped: nat
    /** Every event ever written, oldest first. */
    ghost var recorded: seq<T>

    ghost predicate Valid()
      reads this, storage
    {
      storage.Length == capacity && Keeps(storage[..], next, size, recorded)
    }

    constructor (limit: nat)
      ensures Valid() && fresh(storage) && capacity == limit && recorded == [] && dropped == 0
    {
      capacity := limit;
      storage := new T[limit];
      next, size, dropped, recorded := 0, 0, 0, [];
    }

    /** lockFree is the outcome of the non-blocking lock attempt. */
    method Record(event: T, lockFree: bool)
      requires Valid()
      modifies this, storage
      ensures Valid()
      ensures if capacity > 0 && lockFree
              then recorded == old(recorded) + [event] && dropped == old(dropped)
              else recorded == old(recorded) && dropped == old(dropped) + 1
    {
      if capacity == 0 || !lockFree {
        dropped := dropped + 1;
        return;
      }
      hide Keeps;
      KeepsMore(storage[..], next, size, recorded, event);
      ghost var cells := storage[..];
      storage[next] := event;
      next := Wrap(next + 1, capacity);
      size := if size + 1 < capacity then size + 1 else capacity;
      recorded := recorded + [event];
      assert storage[..] == cells[old(next) := event];
    }

    /** The newest min(n, capacity) events, oldest first. */
    method Snapshot() returns (events: seq<T>)
      requires Valid()
      ensures events == LastOf(recorded, capacity)
    {
      hide Keeps, LastOf;
      events := [];
      var oldest := if size == capacity then next else 0;
      ghost var newest := LastOf(recorded, capacity);
      KeepsSize(storage[..], next, size, recorded);
      for offset := 0 to size
        invariant events == newest[..offset]
      {
        KeepsAt(storage[..], next, size, recorded, offset);
        events := events + [storage[Wrap(oldest + offset, capacity)]];
      }
    }
  }

  lemma LastOfMore<T>(s: seq<T>, x: T, k: nat)
    ensures |LastOf(s, k)| == if |s| <= k then |s| else k
    ensures 0 < k ==> LastOf(s + [x], k) == (if |s| < k then LastOf(s, k) else LastOf(s, k)[1..]) + [x]
  {
  }

  lemma OverwriteOldest<T>(cells: seq<T>, next: nat, x: T)
    requires next < |cells|
    ensures Unroll(cells[next := x], Wrap(next + 1, |cells|), |cells|)
              == Unroll(cells, next, |cells|)[1..] + [x]
  {
    hide Wrap;
    var h := Wrap(next + 1, |cells|);
    UnrollPop(cells, next, |cells|);
    assert Wrap(h + (|cells| - 1), |cells|) == next;
    UnrollPush(cells, h, |cells| - 1, x);
  }
}
