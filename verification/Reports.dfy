/** What the initiator learns from one message. */
module Reports {
  import opened Types
  import opened SortedItems
  import opened Wire
  import opened Splits
  import opened Coverage
  import opened Replies
  import opened FrameLimits

  /** The two sides agree on what an id stands for: no id belongs to two different items. */
  ghost predicate SameIds(a: seq<Item>, b: seq<Item>) {
    forall x, y :: x in a + b && y in a + b && x.id == y.id ==> x == y
  }

  ghost predicate HasId(items: seq<Item>, id: Id) {
    exists x :: x in items && x.id == id
  }

  /** A count of one or none. */
  function Once(b: bool): nat {
    if b then 1 else 0
  }

  lemma {:induction false} CompareLeft(mine: seq<Item>, theirs: set<Id>)
    ensures forall id :: id in Compare(mine, theirs).left <==> id in theirs && !HasId(mine, id)
  {
    if mine != [] {
      assert mine == [mine[0]] + mine[1..];
      CompareLeft(mine[1..], theirs - {mine[0].id});
      CompareLeft(mine[1..], theirs);
      forall id ensures HasId(mine, id) <==> id == mine[0].id || HasId(mine[1..], id) {
        if id == mine[0].id {
          assert mine[0] in mine;
        }
        if HasId(mine[1..], id) {
          var x :| x in mine[1..] && x.id == id;
          assert x in mine;
        }
      }
    }
  }

  ghost predicate DistinctIds(items: seq<Item>) {
    forall i, j :: 0 <= i < j < |items| ==> items[i].id != items[j].id
  }

  lemma {:induction false} CompareHave(mine: seq<Item>, theirs: set<Id>, id: Id)
    requires DistinctIds(mine)
    ensures multiset(Compare(mine, theirs).have)[id] == Once(HasId(mine, id) && id !in theirs)
  {
    if mine != [] {
      var x, rest := mine[0], mine[1..];
      assert mine == [x] + rest;
      assert !HasId(rest, x.id);
      assert HasId(mine, id) <==> id == x.id || HasId(rest, id) by {
        assert x in mine;
        if HasId(rest, id) {
          var y :| y in rest && y.id == id;
          assert y in mine;
        }
      }
      if x.id in theirs {
        CompareHave(rest, theirs - {x.id}, id);
      } else {
        CompareHave(rest, theirs, id);
        var more := Compare(rest, theirs).have;
        assert multiset([x.id] + more) == multiset{x.id} + multiset(more);
      }
    }
  }

  // ---------- Sections of both sides ----------

  lemma SectionIds(a: seq<Item>, b: seq<Item>, lo: int, hi: int, x: Item)
    requires AscendingItems(a) && AscendingItems(b) && lo <= hi && SameIds(a, b) && x in a + b
    ensures HasId(Within(a, lo, hi), x.id) <==> x in a && lo <= Rank(x) < hi
    ensures HasId(Within(b, lo, hi), x.id) <==> x in b && lo <= Rank(x) < hi
  {
    hide Rank, LowerBound, Within;
    WithinItems(a, lo, hi);
    WithinItems(b, lo, hi);
    if HasId(Within(a, lo, hi), x.id) {
      var y :| y in Within(a, lo, hi) && y.id == x.id;
      assert y in a + b;
    }
    if HasId(Within(b, lo, hi), x.id) {
      var y :| y in Within(b, lo, hi) && y.id == x.id;
      assert y in a + b;
    }
  }

  lemma IdsOf(items: seq<Item>, id: Id)
    ensures id in IdSet(Ids(items)) <==> HasId(items, id)
  {
    if id in Ids(items) {
      var i :| 0 <= i < |items| && Ids(items)[i] == id;
      assert items[i] in items;
    }
    if HasId(items, id) {
      var x :| x in items && x.id == id;
      var i :| 0 <= i < |items| && items[i] == x;
      assert Ids(items)[i] == id;
    }
  }

  lemma SectionDistinct(a: seq<Item>, b: seq<Item>, lo: int, hi: int)
    requires AscendingItems(a) && lo <= hi && SameIds(a, b)
    ensures DistinctIds(Within(a, lo, hi))
  {
    hide LowerBound;
    WithinItems(a, lo, hi);
    var w := Within(a, lo, hi);
    forall i, j | 0 <= i < j < |w| ensures w[i].id != w[j].id {
      assert w[i] in a + b && w[j] in a + b;
      assert Rank(w[i]) < Rank(w[j]);
    }
  }

  /** Comparing one listed range reports exactly the differences inside it, each once. */
  lemma RangeReported(a: seq<Item>, b: seq<Item>, lo: int, hi: int, x: Item)
    requires AscendingItems(a) && AscendingItems(b) && lo <= hi && SameIds(a, b) && x in a + b
    ensures var d := Compare(Within(a, lo, hi), IdSet(Ids(Within(b, lo, hi))));
            && multiset(d.have)[x.id] == Once(lo <= Rank(x) < hi && x in a && x !in b)
            && multiset(d.left)[x.id] == Once(lo <= Rank(x) < hi && x in b && x !in a)
  {
    hide Rank, LowerBound, Within, Compare, IdSet, Ids, HasId;
    SectionDistinct(a, b, lo, hi);
    SectionIds(a, b, lo, hi, x);
    IdsOf(Within(b, lo, hi), x.id);
    CompareHave(Within(a, lo, hi), IdSet(Ids(Within(b, lo, hi))), x.id);
    CompareLeft(Within(a, lo, hi), IdSet(Ids(Within(b, lo, hi))));
  }

  /** Comparing one listed range reports nothing but ids of the two sides. */
  lemma RangeReportsIds(a: seq<Item>, b: seq<Item>, lo: int, hi: int, id: Id)
    requires AscendingItems(a) && AscendingItems(b) && lo <= hi && SameIds(a, b)
    requires var d := Compare(Within(a, lo, hi), IdSet(Ids(Within(b, lo, hi)))); id in d.have || id in d.left
    ensures HasId(a + b, id)
  {
    hide Rank, LowerBound, Within, Compare, IdSet, Ids;
    SectionDistinct(a, b, lo, hi);
    IdsOf(Within(b, lo, hi), id);
    CompareHave(Within(a, lo, hi), IdSet(Ids(Within(b, lo, hi))), id);
    CompareLeft(Within(a, lo, hi), IdSet(Ids(Within(b, lo, hi))));
    WithinItems(a, lo, hi);
    WithinItems(b, lo, hi);
    if HasId(Within(a, lo, hi), id) {
      var y :| y in Within(a, lo, hi) && y.id == id;
      assert y in a + b;
    } else {
      var y :| y in Within(b, lo, hi) && y.id == id;
      assert y in a + b;
    }
  }

  // ---------- A message ----------

  /** Rank `r` lies in a range with an id list. */
  ghost predicate ListedAt(q: seq<Range>, r: int) {
    CellAt(0, q, r).Some? && CellAt(0, q, r).value.range.payload.IdList?
  }

  /** Reports so far: the differences in listed ranges, each once, and nothing else. `q` are the ranges that were
      looked at. */
  ghost predicate ReportsExactly(a: seq<Item>, b: seq<Item>, q: seq<Range>, st: State) {
    && (forall x :: x in a + b ==> ReportsItem(a, b, q, st, x))
    && (forall id :: id in st.have || id in st.need ==> HasId(a + b, id))
  }

  ghost predicate ReportsItem(a: seq<Item>, b: seq<Item>, q: seq<Range>, st: State, x: Item) {
    && multiset(st.have)[x.id] == Once(ListedAt(q, Rank(x)) && x in a && x !in b)
    && st.need[x.id] == Once(ListedAt(q, Rank(x)) && x in b && x !in a)
  }

  /** A message the other side wrote about its items. */
  ghost predicate FromOther(b: seq<Item>, q: seq<Range>) {
    All(Ordered, 0, q) && All(Listed(b), 0, q)
  }

  lemma ListedSnoc(q: seq<Range>, r: Range, x: int)
    requires All(Ordered, 0, q) && EndOf(0, q) <= BoundRank(r.upper) && 0 <= x
    ensures ListedAt(q + [r], x) <==> ListedAt(q, x) || (r.payload.IdList? && EndOf(0, q) <= x < BoundRank(r.upper))
    ensures ListedAt(q, x) ==> x < EndOf(0, q)
  {
    hide All, CellAt, BoundRank;
    CellConcat(0, q, [r], x);
    CellOfOne(EndOf(0, q), r, x);
    CellSpan(0, q, x);
  }

  /** What one more range does to the reports, in terms of the section of own items it covers. */
  lemma StepReports(p: Party, st: State, r: Range, mine: seq<Item>)
    requires st.prevIndex <= |p.items| && !st.stopped && !st.failed && !Backward(p, st, r)
             && p.initiator && mine == Section(p, st, r)
    ensures var st' := Step(p, st, r);
            if r.payload.IdList? then
              var d := Compare(mine, IdSet(r.payload.ids));
              st'.have == st.have + d.have && st'.need == st.need + multiset(d.left)
            else st'.have == st.have && st'.need == st.need
  {
    hide Section, Compare, IdSet, FingerprintOf, SplitRange, Size, ListCount, Backward;
  }

  lemma RangeReports(p: Party, b: seq<Item>, q: seq<Range>, st: State, r: Range, st': State)
    requires AscendingItems(p.items) && AscendingItems(b) && SameIds(p.items, b) && p.initiator
    requires All(Ordered, 0, q) && Meets(Ordered, EndOf(0, q), r) && Meets(Listed(b), EndOf(0, q), r)
    requires ReportsExactly(p.items, b, q, st)
    requires if r.payload.IdList? then
               var d := Compare(Within(p.items, EndOf(0, q), BoundRank(r.upper)), IdSet(r.payload.ids));
               st'.have == st.have + d.have && st'.need == st.need + multiset(d.left)
             else st'.have == st.have && st'.need == st.need
    ensures ReportsExactly(p.items, b, q + [r], st')
  {
    hide Rank, LowerBound, Within, Compare, IdSet, All, BoundRank, HasId, ListedAt, Ids, AscendingItems, SameIds;
    var a, lo, hi := p.items, EndOf(0, q), BoundRank(r.upper);
    forall x | x in a + b ensures ReportsItem(a, b, q + [r], st', x) {
      assert ReportsItem(a, b, q, st, x);
      ListedSnoc(q, r, Rank(x));
      if r.payload.IdList? {
        RangeReported(a, b, lo, hi, x);
        var d := Compare(Within(a, lo, hi), IdSet(r.payload.ids));
        assert multiset(st'.have) == multiset(st.have) + multiset(d.have);
      }
    }
    forall id | id in st'.have || id in st'.need ensures HasId(a + b, id) {
      if r.payload.IdList? && !(id in st.have || id in st.need) {
        RangeReportsIds(a, b, lo, hi, id);
      }
    }
  }

  lemma NothingReported(a: seq<Item>, b: seq<Item>)
    ensures ReportsExactly(a, b, [], START)
  {
  }

  /** A message from the other side is reported range by range: exactly the differences in its listed ranges, each once.
      If the frame fills up, the ranges after that point are not looked at; `seen` are those that were. */
  lemma {:induction false} MessageReports(p: Party, b: seq<Item>, q: seq<Range>) returns (seen: seq<Range>)
    requires LimitOk(p.frameSizeLimit) && AscendingItems(p.items) && AscendingItems(b) && SameIds(p.items, b)
             && p.initiator
    requires FromOther(b, q)
    ensures seen <= q && ReportsExactly(p.items, b, seen, Run(p, q))
    ensures !Run(p, q).stopped ==> seen == q
    decreases |q|
  {
    hide Rank, LowerBound, BoundRank, All, Step, Answered, AnsweredStrictly, AscendingItems, SameIds, ReportsExactly,
         Meets, Section, Run, Backward;
    if q == [] {
      StartRun(p);
      NothingReported(p.items, b);
      return [];
    }
    var front, r := q[..|q| - 1], q[|q| - 1];
    assert q == front + [r];
    AllSnoc(Ordered, front, r);
    AllSnoc(Listed(b), front, r);
    MeetsOrder(EndOf(0, front), r);
    RunSnoc(p, front, r);
    seen := MessageReports(p, b, front);
    var st := Run(p, front);
    if !st.stopped {
      UnstoppedIsUnlimited(p, front);
      ReplyTiles(Unlimited(p), front);
      AnsweredLikewise(p, front, st);
      SectionAt(p, front, st, r);
      AnsweredBasics(p, front, st);
      StepReports(p, st, r, Section(p, st, r));
      RangeReports(p, b, front, st, r, Step(p, st, r));
      seen := q;
    }
  }
}
