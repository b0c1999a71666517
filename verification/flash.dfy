/** The session counter kept as a log of records in one flash page. */
module SessionFlash {
  import opened Bytes

  const SESSION_RECORD_COUNT := 256
  const LAST_ID: u16 := 0xFFFF

  /** One word of the page: an id in the low half-word, its complement in the high one. */
  datatype Record = Record(value: u16, complement: u16)

  const BLANK := Record(0xFFFF, 0xFFFF)

  function Complement(x: u16): u16 { 0xFFFF - x }

  predicate Complete(r: Record) { r.value != 0 && r.complement == Complement(r.value) }

  function Successor(id: u16): u16 { if id == LAST_ID then 1 else id + 1 }

  /** The last complete id in the page, 0 when there is none. */
  function LastId(page: seq<Record>): u16 {
    if page == [] then 0
    else if Complete(page[|page| - 1]) then page[|page| - 1].value
    else LastId(page[..|page| - 1])
  }

  /** The first blank record, or the length of a page that has none. */
  function FirstBlank(page: seq<Record>): (k: nat)
    ensures k <= |page|
    ensures k < |page| ==> page[k] == BLANK
    ensures forall i :: 0 <= i < k ==> page[i] != BLANK
  {
    if page == [] then 0
    else
      var k := FirstBlank(page[..|page| - 1]);
      if k < |page| - 1 then k else if page[|page| - 1] == BLANK then |page| - 1 else |page|
  }

  predicate Full(page: seq<Record>) { FirstBlank(page) == |page| }

  /**
   How far one boot gets. Power may fail, or programming may be refused, before anything is written,
   with any half-word left in the value, or with any half-word left in the complement.
   */
  datatype Outcome = Reported | NothingWritten | ValueLeft(left: u16) | ComplementLeft(left: u16)

  function Written(id: u16, o: Outcome): Record
    requires !o.NothingWritten?
  {
    match o
    case Reported => Record(id, Complement(id))
    case ValueLeft(left) => Record(left, 0xFFFF)
    case ComplementLeft(left) => Record(id, left)
  }

  /** The page a boot writes into: a full page is erased first. */
  function Prepared(page: seq<Record>): seq<Record> {
    if Full(page) then seq(|page|, _ => BLANK) else page
  }

  function Slot(page: seq<Record>): nat { if Full(page) then 0 else FirstBlank(page) }

  /** One call of rcr_platform_next_session: the page it leaves and the id it reports, if it reports. */
  function Boot(page: seq<Record>, o: Outcome): (seq<Record>, Option<u16>)
    requires 0 < |page|
  {
    if o.NothingWritten? then (page, None)
    else
      var id := Successor(LastId(page));
      (Prepared(page)[Slot(page) := Written(id, o)], if o.Reported? then Some(id) else None)
  }

  /** A record counts exactly when its id is not 0 and its half-words add up to 65535; a reported one always does. */
  lemma RecordExactly(r: Record, id: u16)
    ensures Complete(r) <==> r.value != 0 && r.value + r.complement == 65535
    ensures Written(id, Reported) == Record(id, 65535 - id)
    ensures Successor(id) == id % 65535 + 1
  {
  }

  class SessionLog {
    const page: array<Record>

    constructor ()
      ensures fresh(page) && page.Length == 256 && forall i :: 0 <= i < 256 ==> page[i] == Record(0xFFFF, 0xFFFF)
    {
      page := new Record[SESSION_RECORD_COUNT](_ => BLANK);
    }

    method NextSession(o: Outcome) returns (id: Option<u16>)
      requires 0 < page.Length
      modifies page
      ensures (page[..], id) == Boot(old(page[..]), o)
    {
      var last: u16, empty := 0, page.Length;
      for index := 0 to page.Length
        invariant last == LastId(page[..index])
        invariant empty == if FirstBlank(page[..index]) < index then FirstBlank(page[..index]) else page.Length
        invariant page[..] == old(page[..])
      {
        assert page[..index + 1][..index] == page[..index];
        if page[index] == BLANK {
          if empty == page.Length {
            empty := index;
          }
          continue;
        }
        if Complete(page[index]) {
          last := page[index].value;
        }
      }
      assert page[..page.Length] == page[..];
      var next := Successor(last);
      if o.NothingWritten? {
        return None;
      }
      if empty == page.Length {
        forall i | 0 <= i < page.Length {
          page[i] := BLANK;
        }
        empty := 0;
        assert page[..] == Prepared(old(page[..]));
      }
      page[empty] := Written(next, o);
      id := if o.Reported? then Some(next) else None;
    }
  }

  // ---------- what one boot does to the log ----------

  /** Written records first, blanks after: the shape every boot keeps. */
  predicate Tidy(page: seq<Record>) {
    0 < |page| && forall i :: FirstBlank(page) <= i < |page| ==> page[i] == BLANK
  }

  /** The boot leaves a complete record, whether or not it lived to report it. */
  predicate Commits(page: seq<Record>, o: Outcome) {
    o.Reported? || o == ComplementLeft(Complement(Successor(LastId(page))))
  }

  /** The boot erased the page and left no complete record in it. */
  predicate LosesHistory(page: seq<Record>, o: Outcome) {
    Full(page) && !o.NothingWritten? && !Commits(page, o)
  }

  lemma {:induction false} BlankTail(page: seq<Record>, k: nat)
    requires k <= |page| && forall i :: k <= i < |page| ==> page[i] == BLANK
    ensures LastId(page) == LastId(page[..k])
    decreases |page| - k
  {
    if k < |page| {
      assert page[..|page| - 1][..k] == page[..k];
      BlankTail(page[..|page| - 1], k);
    } else {
      assert page[..k] == page;
    }
  }

  /** A half-written record is never taken for a complete one. */
  lemma TornIsNotComplete(page: seq<Record>, o: Outcome)
    requires !o.NothingWritten?
    ensures var id := Successor(LastId(page)); id != 0 && (Complete(Written(id, o)) <==> Commits(page, o))
  {
  }

  /** The prepared page has one more record after the boot. */
  lemma BootAppends(page: seq<Record>, o: Outcome)
    requires Tidy(page) && !o.NothingWritten?
    ensures var k := Slot(page);
            var after := Boot(page, o).0;
            && k < |page| == |after|
            && after[..k + 1] == Prepared(page)[..k] + [Written(Successor(LastId(page)), o)]
            && (forall i :: k < i < |page| ==> after[i] == BLANK)
            && (forall i :: 0 <= i < k ==> after[i] == page[i] && after[i] != BLANK)
            && LastId(Prepared(page)[..k]) == if Full(page) then 0 else LastId(page)
  {
    if !Full(page) { BlankTail(page, FirstBlank(page)); }
  }

  lemma BootKeepsTidy(page: seq<Record>, o: Outcome)
    requires Tidy(page)
    ensures Tidy(Boot(page, o).0) && |Boot(page, o).0| == |page|
  {
    if !o.NothingWritten? {
      BootAppends(page, o);
    }
  }

  lemma BootMovesLastId(page: seq<Record>, o: Outcome)
    requires Tidy(page)
    ensures LastId(Boot(page, o).0)
         == if Commits(page, o) then Successor(LastId(page)) else if LosesHistory(page, o) then 0 else LastId(page)
  {
    if !o.NothingWritten? {
      hide FirstBlank;
      BootAppends(page, o);
      TornIsNotComplete(page, o);
      var k, after := Slot(page), Boot(page, o).0;
      BlankTail(after, k + 1);
      assert after[..k + 1][..k] == Prepared(page)[..k];
    }
  }

  // ---------- whole lives of the page ----------

  /**
   What happened to a page since the factory. committed: ids with a complete record, in order; told: the positions in
   committed of the ids that a boot returned; lost: the history was erased since the last commit. For the next boot:
   erased says whether the history was erased since the last id was returned, and burned counts the commits that
   nobody was told about since the later of the two.
   */
  datatype Life = Life(
    page: seq<Record>, committed: seq<u16>, told: seq<nat>, lost: bool, erased: bool, burned: nat)

  const FACTORY := Life(seq(SESSION_RECORD_COUNT, _ => BLANK), [], [], false, false, 0)

  function Live(l: Life, o: Outcome): Life
    requires 0 < |l.page|
  {
    var (page, id) := Boot(l.page, o);
    if Commits(l.page, o) then
      var committed := l.committed + [Successor(LastId(l.page))];
      if id.Some? then Life(page, committed, l.told + [|l.committed|], false, false, 0)
      else Life(page, committed, l.told, false, l.erased, l.burned + 1)
    else if LosesHistory(l.page, o) then l.(page := page, lost := true, erased := true, burned := 0)
    else l.(page := page)
  }

  function Lives(l: Life, os: seq<Outcome>): Life
    decreases |os|
  {
    if os == [] || l.page == [] then l else Lives(Live(l, os[0]), os[1..])
  }

  /** The ids that boots returned, in order. */
  function Returned(l: Life): (ids: seq<u16>)
    requires forall k :: 0 <= k < |l.told| ==> l.told[k] < |l.committed|
  {
    seq(|l.told|, k requires 0 <= k < |l.told| => l.committed[l.told[k]])
  }

  /** The id that m commits from nothing lead to; none for 0. */
  function IdOf(m: nat): u16 { if m == 0 then 0 else (m - 1) % 65535 + 1 }

  lemma IdSteps(m: nat)
    ensures IdOf(m + 1) == Successor(IdOf(m))
  {
  }

  lemma IdsEqual(m: nat, n: nat)
    requires 0 < m <= n
    ensures IdOf(m) == IdOf(n) <==> (n - m) % 65535 == 0
  {
  }

  lemma OwnId(id: u16)
    requires id != 0
    ensures IdOf(id) == id
  {
  }

  /** The count goes on from the id last returned, or from nothing after an erase. */
  function Base(l: Life): nat
    requires l.told != [] ==> l.told[|l.told| - 1] < |l.committed|
  {
    if l.told == [] || l.erased then 0 else l.committed[l.told[|l.told| - 1]]
  }

  ghost predicate Positioned(l: Life) {
    && (forall k :: 0 <= k < |l.told| ==> l.told[k] < |l.committed|)
    && (forall j, k :: 0 <= j < k < |l.told| ==> l.told[j] < l.told[k])
  }

  ghost predicate Inv(l: Life) {
    && Tidy(l.page) && Positioned(l)
    && LastId(l.page) == (if l.lost || l.committed == [] then 0 else l.committed[|l.committed| - 1])
    && LastId(l.page) == IdOf(Base(l) + l.burned)
    && (forall k :: 0 <= k < |l.committed| ==> l.committed[k] != 0)
  }

  lemma LiveKeepsInv(l: Life, o: Outcome)
    requires Inv(l)
    ensures Inv(Live(l, o))
  {
    hide LastId, FirstBlank, IdOf;
    BootKeepsTidy(l.page, o);
    BootMovesLastId(l.page, o);
    IdSteps(Base(l) + l.burned);
    OwnId(Successor(LastId(l.page)));
    NoId();
  }

  /** Returned grows by exactly what a boot returns. */
  lemma LiveReturns(l: Life, o: Outcome)
    requires Inv(l)
    ensures Inv(Live(l, o))
    ensures var id := Boot(l.page, o).1;
            Returned(Live(l, o)) == Returned(l) + if id.Some? then [id.value] else []
  {
    hide LastId, FirstBlank, IdOf, Prepared, Slot, Written;
    LiveKeepsInv(l, o);
  }

  lemma NoId()
    ensures IdOf(0) == 0
  {
  }

  lemma {:induction false} LivesKeepInv(l: Life, os: seq<Outcome>)
    requires Inv(l)
    ensures Inv(Lives(l, os))
    decreases |os|
  {
    hide Live, LastId, FirstBlank, IdOf;
    if os != [] {
      LiveKeepsInv(l, os[0]);
      LivesKeepInv(Live(l, os[0]), os[1..]);
    }
  }

  lemma {:induction false} BlankPage(n: nat)
    ensures var page := seq(n, _ => BLANK); LastId(page) == 0 && FirstBlank(page) == 0
    ensures 0 < n ==> Tidy(seq(n, _ => BLANK))
  {
    if n > 0 {
      BlankPage(n - 1);
      assert seq(n, _ => BLANK)[..n - 1] == seq(n - 1, _ => BLANK);
    }
  }

  lemma FactoryIsInv()
    ensures Inv(FACTORY)
  {
    hide LastId, FirstBlank;
    BlankPage(SESSION_RECORD_COUNT);
  }

  /**
   In every life of the page, whatever the power failures, the next committed id is never 0, and it is the
   successor of the last committed id exactly when no erase has lost the history since, or the count was
   about to start again at 1 anyway.
   */
  lemma SuccessorExactly(os: seq<Outcome>, o: Outcome)
    ensures var l := Lives(FACTORY, os);
            && 0 < |l.page|
            && (Commits(l.page, o) && l.committed != [] ==>
                  var last, l' := l.committed[|l.committed| - 1], Live(l, o);
                  && |l'.committed| == |l.committed| + 1 && l'.committed[|l.committed|] != 0
                  && (l'.committed[|l.committed|] == Successor(last) <==> !l.lost || last == LAST_ID))
  {
    hide LastId, FirstBlank, IdOf;
    FactoryIsInv();
    LivesKeepInv(FACTORY, os);
  }

  /**
   The same for what boots return, in every life: the next returned id is the successor of the one returned last
   exactly when, since then, no history was lost and the completed but unreported boots number a multiple of 65535
   (none, in practice), or the history was lost and the unreported boots since happen to have caught up with it.
   */
  lemma ReturnedSuccessorExactly(os: seq<Outcome>)
    ensures var l := Lives(FACTORY, os);
            && 0 < |l.page| && Positioned(l)
            && (Returned(l) != [] ==>
                  var last, id := Returned(l)[|l.told| - 1], Boot(l.page, Reported).1;
                  && id.Some? && id.value != 0
                  && (id.value == Successor(last) <==>
                        if l.erased then l.burned % 65535 == last % 65535 else l.burned % 65535 == 0))
  {
    hide LastId, FirstBlank, IdOf;
    FactoryIsInv();
    LivesKeepInv(FACTORY, os);
    var l := Lives(FACTORY, os);
    if l.told != [] {
      var last := Returned(l)[|l.told| - 1];
      var b := Base(l) + l.burned;
      IdSteps(b);
      IdSteps(last);
      OwnId(last);
      NextEqualsExactly(b, last);
      if l.erased { CaughtUp(l.burned, last); }
    }
  }

  lemma NextEqualsExactly(b: nat, last: nat)
    ensures IdOf(b + 1) == IdOf(last + 1) <==> (if b <= last then (last - b) % 65535 == 0 else (b - last) % 65535 == 0)
  {
    if b <= last { IdsEqual(b + 1, last + 1); } else { IdsEqual(last + 1, b + 1); }
  }

  lemma CaughtUp(burned: nat, last: nat)
    ensures (if burned <= last then (last - burned) % 65535 == 0 else (burned - last) % 65535 == 0)
       <==> burned % 65535 == last % 65535
  {
    var d := burned / 65535 - last / 65535;
    var r := burned % 65535 - last % 65535;
    assert burned - last == 65535 * d + r;
    if burned <= last { MultipleExactly(last - burned, -d, -r); } else { MultipleExactly(burned - last, d, r); }
  }

  lemma MultipleExactly(x: nat, q: int, r: int)
    requires x == 65535 * q + r && -65535 < r < 65535
    ensures x % 65535 == 0 <==> r == 0
  {
  }

  // ---------- lives that keep their history ----------

  /** No boot is cut short between the erase of a full page and its first complete record. */
  ghost predicate KeepsHistory(l: Life, os: seq<Outcome>)
    decreases |os|
  {
    os == [] || l.page == [] || (!LosesHistory(l.page, os[0]) && KeepsHistory(Live(l, os[0]), os[1..]))
  }

  ghost predicate Counting(l: Life) {
    && Inv(l) && !l.lost && !l.erased
    && (forall k :: 0 <= k < |l.committed| ==> l.committed[k] == IdOf(k + 1))
  }

  lemma LiveKeepsCounting(l: Life, o: Outcome)
    requires Counting(l) && !LosesHistory(l.page, o)
    ensures Counting(Live(l, o))
  {
    hide LastId, FirstBlank, IdOf;
    LiveKeepsInv(l, o);
    IdSteps(|l.committed|);
    NoId();
  }

  lemma {:induction false} LivesKeepCounting(l: Life, os: seq<Outcome>)
    requires Counting(l) && KeepsHistory(l, os)
    ensures Counting(Lives(l, os))
    decreases |os|
  {
    hide Live, LastId, FirstBlank, IdOf, LosesHistory;
    if os != [] {
      LiveKeepsCounting(l, os[0]);
      LivesKeepCounting(Live(l, os[0]), os[1..]);
    }
  }

  /**
   With power lost at any point of any boot except across an erase, the completed records count 1, 2, ..., 65535,
   1, ... without a gap, however often the page is recycled, and ids less than 65535 commits apart differ. The
   returned ids are a subsequence of them, so those too differ; two returned in a row are consecutive if and only if
   the completed but unreported boots between them number a multiple of 65535.
   */
  lemma SessionsCountUp(os: seq<Outcome>)
    requires KeepsHistory(FACTORY, os)
    ensures var l := Lives(FACTORY, os);
            && Positioned(l)
            && (forall k :: 0 <= k < |l.committed| ==> l.committed[k] == IdOf(k + 1))
            && (forall j, k :: 0 <= j < k < |l.committed| && k - j < 65535 ==> l.committed[j] != l.committed[k])
            && (forall k :: 0 < k < |l.told| ==>
                  (Returned(l)[k] == Successor(Returned(l)[k - 1]) <==> (l.told[k] - l.told[k - 1] - 1) % 65535 == 0))
  {
    hide LastId, FirstBlank, Lives, KeepsHistory, IdOf;
    FactoryIsInv();
    LivesKeepCounting(FACTORY, os);
    var l := Lives(FACTORY, os);
    forall j, k | 0 <= j < k < |l.committed| && k - j < 65535 ensures l.committed[j] != l.committed[k] {
      IdsEqual(j + 1, k + 1);
    }
    forall k | 0 < k < |l.told|
      ensures Returned(l)[k] == Successor(Returned(l)[k - 1]) <==> (l.told[k] - l.told[k - 1] - 1) % 65535 == 0
    {
      IdSteps(l.told[k - 1] + 1);
      IdsEqual(l.told[k - 1] + 2, l.told[k] + 1);
    }
  }

  /** Such an unreported boot is possible without any erase: the first id ever returned can be 2. */
  lemma UnreportedBootSkipsAnId()
    ensures var l := Lives(FACTORY, [ComplementLeft(Complement(1)), Reported]);
            Positioned(l) && Returned(l) == [2] && l.committed == [1, 2]
  {
    hide FirstBlank, LastId, IdOf, Prepared, Slot, Written;
    BlankPage(SESSION_RECORD_COUNT);
    FactoryIsInv();
    var o := ComplementLeft(Complement(1));
    LiveKeepsInv(FACTORY, o);
    var l1 := Live(FACTORY, o);
    assert l1.committed == [1] && l1.told == [] && !l1.lost;
    assert [o, Reported][1..] == [Reported] && [Reported][1..] == [];
    assert Lives(FACTORY, [o, Reported]) == Live(l1, Reported);
  }

  /** The exception is real: power lost right after the erase of a full page restarts the count at 1. */
  lemma EraseCanLoseHistory(page: seq<Record>)
    requires Tidy(page) && Full(page) && LastId(page) != 0
    ensures var after := Boot(page, ValueLeft(0xFFFF)).0;
            LastId(after) == 0 && Boot(after, Reported).1 == Some(1)
  {
    hide FirstBlank, LastId;
    BootMovesLastId(page, ValueLeft(0xFFFF));
  }
}
