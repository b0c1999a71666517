/** The periodic thread: absolute boundaries, skipped boundaries and lateness statistics. */
module Scheduling {
  import opened Bytes

  /**
   One turn of the loop as the clock and the callback decide it: the wait fails, or the thread wakes at some
   time and then either finishes at some time or ends early (the callback threw, or the clock failed).
   */
  datatype Turn = WaitFailed | Woke(actual: int, finished: Option<int>)

  datatype Tick = Tick(sequence: nat, scheduled: int, actual: int, lateness: int)

  predicate Completed(t: Turn) { t.Woke? && t.finished.Some? }

  ghost predicate AllCompleted(turns: seq<Turn>) { forall i :: 0 <= i < |turns| ==> Completed(turns[i]) }

  // ---------- boundaries ----------

  function Boundary(start: int, period: int, k: nat): int { start + k * period }

  lemma BoundaryStep(start: int, period: int, k: nat, d: nat)
    ensures Boundary(start, period, k + d) == Boundary(start, period, k) + d * period
  {
  }

  /** How many later boundaries had passed when a callback scheduled at next finished. */
  function Missed(next: int, period: int, finished: int): nat
    requires 0 < period
  {
    if finished >= next + period then (finished - next) / period else 0
  }

  lemma MissedExactly(next: int, period: int, finished: int)
    requires 0 < period
    ensures var m := Missed(next, period, finished);
            finished < next + (m + 1) * period && (m > 0 ==> next + m * period <= finished)
  {
    if finished >= next + period {
      var d := finished - next;
      assert d == period * (d / period) + d % period;
    }
  }

  /** The index of the boundary that the next turn waits for, after some completed turns. */
  function NextIndex(start: int, period: int, turns: seq<Turn>): (k: nat)
    requires 0 < period && AllCompleted(turns)
    ensures 0 < k
  {
    if turns == [] then 1
    else
      var k, last := NextIndex(start, period, turns[..|turns| - 1]), turns[|turns| - 1];
      k + 1 + Missed(Boundary(start, period, k), period, last.finished.value)
  }

  function TotalMissed(start: int, period: int, turns: seq<Turn>): nat
    requires 0 < period && AllCompleted(turns)
  {
    if turns == [] then 0
    else
      var k, last := NextIndex(start, period, turns[..|turns| - 1]), turns[|turns| - 1];
      TotalMissed(start, period, turns[..|turns| - 1]) + Missed(Boundary(start, period, k), period, last.finished.value)
  }

  /** Every boundary so far was run or missed: the next index counts both. */
  lemma {:induction false} RunPlusMissed(start: int, period: int, turns: seq<Turn>)
    requires 0 < period && AllCompleted(turns)
    ensures NextIndex(start, period, turns) == |turns| + TotalMissed(start, period, turns) + 1
  {
    if turns != [] { RunPlusMissed(start, period, turns[..|turns| - 1]); }
  }

  /** The next boundary lies strictly after the moment the last callback finished. */
  lemma NextIsInTheFuture(start: int, period: int, turns: seq<Turn>)
    requires 0 < period && AllCompleted(turns) && turns != []
    ensures turns[|turns| - 1].finished.value < Boundary(start, period, NextIndex(start, period, turns))
  {
    hide Missed;
    var k := NextIndex(start, period, turns[..|turns| - 1]);
    var finished := turns[|turns| - 1].finished.value;
    var m := Missed(Boundary(start, period, k), period, finished);
    MissedExactly(Boundary(start, period, k), period, finished);
    BoundaryStep(start, period, k, m + 1);
    assert NextIndex(start, period, turns) == k + (m + 1);
  }

  /** Turn i accounts for boundary k: it ran k, or it ran an earlier one and skipped k. */
  ghost predicate AccountsFor(start: int, period: int, turns: seq<Turn>, i: nat, k: nat)
    requires 0 < period && AllCompleted(turns) && i < |turns|
  {
    NextIndex(start, period, turns[..i]) <= k < NextIndex(start, period, turns[..i + 1])
  }

  lemma {:induction false} SomeTurnAccounts(start: int, period: int, turns: seq<Turn>, k: nat) returns (i: nat)
    requires 0 < period && AllCompleted(turns)
    requires 1 <= k < NextIndex(start, period, turns)
    ensures i < |turns| && AccountsFor(start, period, turns, i, k)
    decreases |turns|
  {
    var n := |turns| - 1;
    var prior := turns[..n];
    assert turns[..n + 1] == turns;
    if k < NextIndex(start, period, prior) {
      i := SomeTurnAccounts(start, period, prior, k);
      assert prior[..i] == turns[..i] && prior[..i + 1] == turns[..i + 1];
    } else {
      i := n;
    }
  }

  /**
   Every boundary so far is accounted for by exactly one turn, and one that was not run had passed when that
   turn's callback finished: no boundary is run twice, run and missed, forgotten, or skipped early.
   */
  lemma EveryBoundaryOnce(start: int, period: int, turns: seq<Turn>, k: nat) returns (i: nat)
    requires 0 < period && AllCompleted(turns)
    requires 1 <= k < NextIndex(start, period, turns)
    ensures i < |turns| && AccountsFor(start, period, turns, i, k)
    ensures k == NextIndex(start, period, turns[..i]) || Boundary(start, period, k) <= turns[i].finished.value
    ensures forall j :: 0 <= j < |turns| && j != i ==> !AccountsFor(start, period, turns, j, k)
  {
    hide NextIndex, Boundary;
    i := SomeTurnAccounts(start, period, turns, k);
    if k > NextIndex(start, period, turns[..i]) {
      assert turns[..i + 1][..i] == turns[..i];
      PassedBoundary(start, period, turns[..i + 1], k);
    }
    forall j | 0 <= j < |turns| && j != i ensures !AccountsFor(start, period, turns, j, k) {
      if j < i { IndexGrows(start, period, turns, j + 1, i); } else { IndexGrows(start, period, turns, i + 1, j); }
    }
  }

  lemma PassedBoundary(start: int, period: int, turns: seq<Turn>, k: nat)
    requires 0 < period && AllCompleted(turns) && turns != []
    requires NextIndex(start, period, turns[..|turns| - 1]) < k < NextIndex(start, period, turns)
    ensures Boundary(start, period, k) <= turns[|turns| - 1].finished.value
  {
    hide Missed;
    var first, finished := NextIndex(start, period, turns[..|turns| - 1]), turns[|turns| - 1].finished.value;
    var m := Missed(Boundary(start, period, first), period, finished);
    MissedExactly(Boundary(start, period, first), period, finished);
    BoundaryStep(start, period, first, k - first);
    MoreIsLater(period, k - first, m);
  }

  lemma MoreIsLater(period: int, a: nat, b: nat)
    requires 0 < period && a <= b
    ensures a * period <= b * period
  {
  }

  lemma {:induction false} IndexGrows(start: int, period: int, turns: seq<Turn>, i: nat, j: nat)
    requires 0 < period && AllCompleted(turns) && i <= j <= |turns|
    ensures NextIndex(start, period, turns[..i]) <= NextIndex(start, period, turns[..j])
    decreases j - i
  {
    if i < j {
      IndexGrows(start, period, turns, i, j - 1);
      assert turns[..j][..j - 1] == turns[..j - 1];
    }
  }

  // ---------- statistics ----------

  function TotalLateness(ticks: seq<Tick>): int {
    if ticks == [] then 0 else TotalLateness(ticks[..|ticks| - 1]) + ticks[|ticks| - 1].lateness
  }

  ghost predicate IsLeast(m: int, ticks: seq<Tick>) {
    && (ticks == [] ==> m == 0)
    && (forall i :: 0 <= i < |ticks| ==> m <= ticks[i].lateness)
    && (ticks != [] ==> exists i :: 0 <= i < |ticks| && m == ticks[i].lateness)
  }

  ghost predicate IsGreatest(m: int, ticks: seq<Tick>) {
    && (ticks == [] ==> m == 0)
    && (forall i :: 0 <= i < |ticks| ==> ticks[i].lateness <= m)
    && (ticks != [] ==> exists i :: 0 <= i < |ticks| && m == ticks[i].lateness)
  }

  lemma LeastOfMore(m: int, ticks: seq<Tick>, t: Tick)
    requires IsLeast(m, ticks)
    ensures IsLeast(if ticks == [] || t.lateness < m then t.lateness else m, ticks + [t])
  {
    var m' := if ticks == [] || t.lateness < m then t.lateness else m;
    if m' == t.lateness {
      assert (ticks + [t])[|ticks|].lateness == m';
    } else {
      var i :| 0 <= i < |ticks| && m == ticks[i].lateness;
      assert (ticks + [t])[i].lateness == m';
    }
  }

  lemma GreatestOfMore(m: int, ticks: seq<Tick>, t: Tick)
    requires IsGreatest(m, ticks) && 0 <= t.lateness
    ensures IsGreatest(if t.lateness > m then t.lateness else m, ticks + [t])
  {
    var m' := if t.lateness > m then t.lateness else m;
    if m' == t.lateness {
      assert (ticks + [t])[|ticks|].lateness == m';
    } else {
      var i :| 0 <= i < |ticks| && m == ticks[i].lateness;
      assert (ticks + [t])[i].lateness == m';
    }
  }

  // ---------- the loop ----------

  /** The tick that a turn delivers after some completed turns. */
  function TickOf(start: int, period: int, before: seq<Turn>, actual: int): Tick
    requires 0 < period && AllCompleted(before)
  {
    var scheduled := Boundary(start, period, NextIndex(start, period, before));
    Tick(|before| + 1, scheduled, actual, Max(actual - scheduled, 0))
  }

  /** The i-th tick is the one that the i-th turn delivers. */
  ghost predicate Delivered(start: int, period: int, turns: seq<Turn>, ticks: seq<Tick>)
    requires 0 < period
  {
    && |ticks| <= |turns|
    && (forall i :: 0 <= i < |ticks| ==> turns[i].Woke?)
    && (forall i :: 0 <= i < |ticks| ==> AllCompleted(turns[..i]))
    && (forall i :: 0 <= i < |ticks| ==> ticks[i] == TickOf(start, period, turns[..i], turns[i].actual))
  }

  lemma DeliveredMore(start: int, period: int, turns: seq<Turn>, ticks: seq<Tick>)
    requires 0 < period && Delivered(start, period, turns, ticks)
    requires |ticks| < |turns| && AllCompleted(turns[..|ticks|]) && turns[|ticks|].Woke?
    ensures Delivered(start, period, turns,
                      ticks + [TickOf(start, period, turns[..|ticks|], turns[|ticks|].actual)])
  {
    hide TickOf;
  }

  /** Ticks are numbered from 1, carry the wake-up time and never claim to be early. */
  ghost predicate Numbered(start: int, period: int, turns: seq<Turn>, ticks: seq<Tick>)
    requires |ticks| <= |turns|
  {
    && (forall i :: 0 <= i < |ticks| ==> turns[i].Woke?)
    && (forall i :: 0 <= i < |ticks| ==> ticks[i].sequence == i + 1 && ticks[i].actual == turns[i].actual)
    && (forall i :: 0 <= i < |ticks| ==> ticks[i].lateness == Max(ticks[i].actual - ticks[i].scheduled, 0))
    && (ticks != [] ==> ticks[0].scheduled == start + period)
  }

  lemma DeliveredIsNumbered(start: int, period: int, turns: seq<Turn>, ticks: seq<Tick>)
    requires 0 < period && Delivered(start, period, turns, ticks)
    ensures Numbered(start, period, turns, ticks)
  {
    if ticks != [] { assert turns[..0] == []; }
  }

  class PeriodicScheduler {
    const period: int
    var cycles: nat
    var deadlineMisses: nat
    var minLateness: int
    var maxLateness: int
    var totalLateness: int

    constructor (periodNs: int)
      ensures period == periodNs
    {
      period := periodNs;
      cycles, deadlineMisses, minLateness, maxLateness, totalLateness := 0, 0, 0, 0, 0;
    }

    ghost predicate Summarises(ticks: seq<Tick>) reads this {
      && cycles == |ticks| && totalLateness == TotalLateness(ticks)
      && IsLeast(minLateness, ticks) && IsGreatest(maxLateness, ticks)
    }

    /** The counters that a wake-up changes. */
    method RecordWakeup(lateness: int, ghost ticks: seq<Tick>, ghost tick: Tick)
      requires Summarises(ticks) && tick.lateness == lateness >= 0
      modifies this
      ensures Summarises(ticks + [tick]) && deadlineMisses == old(deadlineMisses)
    {
      hide IsLeast, IsGreatest;
      LeastOfMore(minLateness, ticks, tick);
      GreatestOfMore(maxLateness, ticks, tick);
      assert (ticks + [tick])[..|ticks|] == ticks;
      cycles := cycles + 1;
      if cycles == 1 || lateness < minLateness {
        minLateness := lateness;
      }
      if lateness > maxLateness {
        maxLateness := lateness;
      }
      totalLateness := totalLateness + lateness;
    }

    /**
     Runs until a stop is requested, which is where the turns end, or until a turn cannot complete. n is the number of
     completed turns and next the boundary that the thread would wait for after them.
     */
    method Run(start: int, turns: seq<Turn>) returns (ticks: seq<Tick>, n: nat, next: int)
      requires 0 < period
      modifies this
      ensures n <= |turns| && AllCompleted(turns[..n]) && (n < |turns| ==> !Completed(turns[n]))
      ensures next == Boundary(start, period, n + deadlineMisses + 1)
      ensures deadlineMisses == TotalMissed(start, period, turns[..n])
      ensures n > 0 ==> turns[n - 1].finished.value < next
      ensures |ticks| == n + (if n < |turns| && turns[n].Woke? then 1 else 0)
      ensures Delivered(start, period, turns, ticks) && Numbered(start, period, turns, ticks) && Summarises(ticks)
    {
      hide Missed, NextIndex, TotalMissed, Boundary, Delivered, Numbered, IsLeast, IsGreatest;
      cycles, deadlineMisses, minLateness, maxLateness, totalLateness := 0, 0, 0, 0, 0;
      ticks, n, next := [], 0, start + period;
      Beginning(start, period, turns);
      while n < |turns|
        invariant n <= |turns| && AllCompleted(turns[..n]) && |ticks| == n
        invariant next == Boundary(start, period, NextIndex(start, period, turns[..n]))
        invariant deadlineMisses == TotalMissed(start, period, turns[..n])
        invariant Delivered(start, period, turns, ticks) && Summarises(ticks)
      {
        var turn := turns[n];
        if turn.WaitFailed? {
          break;
        }
        var lateness := if turn.actual > next then turn.actual - next else 0;
        var tick := Tick(n + 1, next, turn.actual, lateness);
        DeliveredMore(start, period, turns, ticks);
        RecordWakeup(lateness, ticks, tick);
        ticks := ticks + [tick];
        if turn.finished.None? {
          break;
        }
        var missed := Missed(next, period, turn.finished.value);
        deadlineMisses := deadlineMisses + missed;
        OneTurn(start, period, turns, n);
        next := next + (missed + 1) * period;
        n := n + 1;
      }
      RunPlusMissed(start, period, turns[..n]);
      DeliveredIsNumbered(start, period, turns, ticks);
      if n > 0 { NextIsInTheFuture(start, period, turns[..n]); }
    }
  }

  lemma Beginning(start: int, period: int, turns: seq<Turn>)
    requires 0 < period
    ensures IsLeast(0, []) && IsGreatest(0, []) && Delivered(start, period, turns, [])
    ensures NextIndex(start, period, turns[..0]) == 1 && TotalMissed(start, period, turns[..0]) == 0
    ensures Boundary(start, period, 1) == start + period
  {
  }

  lemma OneTurn(start: int, period: int, turns: seq<Turn>, n: nat)
    requires 0 < period && n < |turns| && AllCompleted(turns[..n]) && Completed(turns[n])
    ensures var k := NextIndex(start, period, turns[..n]);
            var m := Missed(Boundary(start, period, k), period, turns[n].finished.value);
            && AllCompleted(turns[..n + 1])
            && NextIndex(start, period, turns[..n + 1]) == k + (m + 1)
            && Boundary(start, period, k + (m + 1)) == Boundary(start, period, k) + (m + 1) * period
            && TotalMissed(start, period, turns[..n + 1]) == TotalMissed(start, period, turns[..n]) + m
  {
    hide Missed;
    assert turns[..n + 1][..n] == turns[..n];
    var k := NextIndex(start, period, turns[..n]);
    BoundaryStep(start, period, k, Missed(Boundary(start, period, k), period, turns[n].finished.value) + 1);
  }
}
