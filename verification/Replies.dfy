/** How a party answers a message: the reply is built range by range. */
module Replies {
  import opened Types
  import opened SortedItems
  import opened Wire
  import opened Splits
  import opened Coverage

  /** One side of a reconciliation. A frame size limit of 0 means no limit. Its items are kept in a tree or in an
      array. */
  datatype Party = Party(items: seq<Item>, hash: Hash, frameSizeLimit: nat, initiator: bool, tree: bool)

  /** The variables of the reconciliation loop. `need` is filled from an unordered set, so only its elements matter. The
      loop has `stopped` when the frame was full, and `failed` when a storage refused a range of positions; what was
      written for that range is `lost`. */
  datatype State = State(out: seq<Range>, prevIndex: nat, prevBound: Bound, skip: bool,
                         have: seq<Id>, need: multiset<Id>, stopped: bool, failed: bool,
                         lost: seq<Range>)

  const START := State([], 0, Bound(0, []), false, [], multiset{}, false, false, [])

  function Size(out: seq<Range>): nat {
    |MessageBytes(out)|
  }

  predicate Exceeded(limit: nat, n: nat) {
    limit != 0 && n > limit - 200
  }

  // ---------- Comparing id lists ----------

  /** Own ids the other side lacks, and the ids of the other side that were not matched. */
  datatype Difference = Difference(have: seq<Id>, left: set<Id>)

  function Compare(mine: seq<Item>, theirs: set<Id>): Difference {
    if mine == [] then Difference([], theirs)
    else if mine[0].id in theirs then Compare(mine[1..], theirs - {mine[0].id})
    else
      var d := Compare(mine[1..], theirs);
      Difference([mine[0].id] + d.have, d.left)
  }

  function IdSet(ids: seq<Id>): set<Id> {
    set id | id in ids
  }

  /** How many of `n` ids are listed, `i` being listed already: up to the first that finds the frame full. */
  function ListCount(limit: nat, size: nat, n: nat, i: nat): (k: nat)
    requires i <= n
    ensures i <= k <= n
    decreases n - i
  {
    if i == n || Exceeded(limit, size + ID_SIZE * i) then i else ListCount(limit, size, n, i + 1)
  }

  // ---------- One range ----------

  /** What the storage finds for the upper bound of a range. A tree may find a place before the one reached. */
  ghost function Upper(p: Party, st: State, r: Range): (upper: nat)
    requires st.prevIndex <= |p.items|
    ensures upper <= |p.items|
  {
    if p.tree then TreeLowerBound(p.items, st.prevIndex, |p.items|, BoundRank(r.upper))
    else ClampedLowerBound(p.items, st.prevIndex, |p.items|, BoundRank(r.upper))
  }

  ghost predicate Backward(p: Party, st: State, r: Range)
    requires st.prevIndex <= |p.items|
  {
    Upper(p, st, r) < st.prevIndex
  }

  /** A skipped stretch is announced only when something follows it. */
  function PendingSkip(st: State): seq<Range> {
    if st.skip then [Range(st.prevBound, Skip)] else []
  }

  /** Appends `o` unless that fills the frame; then the rest of the space is closed with one fingerprint. */
  function Finish(p: Party, st: State, o: seq<Range>, upper: nat, bound: Bound): State
    requires upper <= |p.items|
  {
    if Exceeded(p.frameSizeLimit, Size(st.out + o)) then
      st.(out := st.out + [Range(INFINITY, Print(FingerprintOf(p.hash, p.items[upper..])))], stopped := true)
    else
      st.(out := st.out + o, prevIndex := upper, prevBound := bound)
  }

  /** The ids a responder lists for a range: all it has, or as many as the frame takes, up to the first item left
      out. */
  function Listing(p: Party, st: State, mine: seq<Item>, bound: Bound): (listing: Range)
    ensures listing.payload.IdList?
  {
    var n := ListCount(p.frameSizeLimit, Size(st.out), |mine|, 0);
    Range(if n < |mine| then ItemBound(mine[n]) else bound, IdList(Ids(mine[..n])))
  }

  /** The initiator reports the differences to a list. */
  function Reported(st: State, mine: seq<Item>, ids: seq<Id>): State {
    var d := Compare(mine, IdSet(ids));
    st.(have := st.have + d.have, need := st.need + multiset(d.left))
  }

  /** What one range makes of the state: the new state, what is to be appended, and the item the next range starts
      at. */
  datatype Effect = Effect(st: State, o: seq<Range>, upper: nat)

  function Answer(p: Party, st: State, r: Range, mine: seq<Item>): (e: Effect)
    ensures st.prevIndex <= e.upper <= st.prevIndex + |mine| && e.st.prevIndex == st.prevIndex
    ensures e.st.stopped == st.stopped && e.st.failed == st.failed && e.st.prevBound == st.prevBound
  {
    var upper := st.prevIndex + |mine|;
    match r.payload
    case Skip => Effect(st.(skip := true), [], upper)
    case Print(f) =>
      if f == FingerprintOf(p.hash, mine) then Effect(st.(skip := true), [], upper)
      else Effect(st.(skip := false), PendingSkip(st) + SplitRange(p.hash, mine, r.upper), upper)
    case IdList(ids) =>
      if p.initiator then Effect(Reported(st.(skip := true), mine, ids), [], upper)
      else
        var listing := Listing(p, st, mine, r.upper);
        Effect(st.(skip := false, out := st.out + PendingSkip(st) + [listing]), [],
               st.prevIndex + |listing.payload.ids|)
  }

  /** The items between the places reached before and after the range. */
  ghost function Section(p: Party, st: State, r: Range): (mine: seq<Item>)
    requires st.prevIndex <= |p.items|
    ensures st.prevIndex + |mine| <= |p.items|
  {
    if Backward(p, st, r) then [] else p.items[st.prevIndex..Upper(p, st, r)]
  }

  /** The storage refuses a range of positions that ends before it starts; only a Skip asks for none. */
  ghost predicate Refused(p: Party, st: State, r: Range)
    requires st.prevIndex <= |p.items|
  {
    Backward(p, st, r) && !r.payload.Skip?
  }

  /** What was written for a refused range: a responder announces a pending skip before it asks for its items. */
  function Lost(p: Party, st: State, r: Range): seq<Range> {
    if r.payload.IdList? && !p.initiator then PendingSkip(st) else []
  }

  /** The timestamp written last. */
  function LastWritten(st: State): (t: uint64)
    ensures !st.failed ==> t == if st.out == [] then 0 else st.out[|st.out| - 1].upper.timestamp
  {
    LastTimestamp(0, if st.failed then st.out + st.lost else st.out)
  }

  /** The item the next range starts at. */
  ghost function Place(p: Party, st: State, r: Range): (upper: nat)
    requires st.prevIndex <= |p.items|
    ensures upper <= |p.items|
  {
    if Backward(p, st, r) then Upper(p, st, r) else Answer(p, st, r, Section(p, st, r)).upper
  }

  ghost function Step(p: Party, st: State, r: Range): (st': State)
    requires st.prevIndex <= |p.items|
    ensures st'.prevIndex <= |p.items|
    ensures st.stopped || st.failed ==> st' == st
  {
    if st.stopped || st.failed then st
    else if Refused(p, st, r) then st.(failed := true, lost := Lost(p, st, r))
    else
      var e := Answer(p, st, r, Section(p, st, r));
      Finish(p, e.st, e.o, Place(p, st, r), r.upper)
  }

  ghost function Run(p: Party, q: seq<Range>): (st: State)
    ensures st.prevIndex <= |p.items|
  {
    if q == [] then START else Step(p, Run(p, q[..|q| - 1]), q[|q| - 1])
  }

  lemma RunSnoc(p: Party, q: seq<Range>, r: Range)
    ensures Run(p, q + [r]) == Step(p, Run(p, q), r)
  {
    hide Step;
    assert (q + [r])[..|q|] == q;
  }

  /** Once the frame is full or the storage refused a range, the rest of the message is not looked at. */
  lemma {:induction false} StoppedStays(p: Party, q: seq<Range>, more: seq<Range>)
    requires Run(p, q).stopped || Run(p, q).failed
    ensures Run(p, q + more) == Run(p, q)
  {
    hide Step, Run;
    if more == [] {
      assert q + more == q;
    } else {
      var n := |more| - 1;
      StoppedStays(p, q, more[..n]);
      assert q + more == (q + more[..n]) + [more[n]];
      RunSnoc(p, q + more[..n], more[n]);
    }
  }

  /** The range asks for an answer: its fingerprint differs, or it lists ids to a responder. */
  ghost predicate NeedsAnswer(p: Party, c: Cell) {
    match c.range.payload
    case Skip => false
    case Print(f) => f != FingerprintOf(p.hash, Within(p.items, c.lower, BoundRank(c.range.upper)))
    case IdList(_) => !p.initiator
  }

  ghost predicate Asks(p: Party, q: seq<Range>, r: int) {
    CellAt(0, q, r).Some? && NeedsAnswer(p, CellAt(0, q, r).value)
  }

  // ---------- Replies without a limit ----------

  /** A Skip is followed by a range that is not one. */
  ghost predicate SkipsApart(rs: seq<Range>) {
    forall i :: 0 <= i < |rs| && rs[i].payload.Skip? ==> i + 1 < |rs| && !rs[i + 1].payload.Skip?
  }

  /** What the loop has answered after the ranges `q`. */
  ghost predicate Answered(p: Party, q: seq<Range>, st: State) {
    && !st.stopped && !st.failed
    && BoundRank(st.prevBound) == EndOf(0, q) && st.prevIndex == LowerBound(p.items, EndOf(0, q))
    && Tiling(p, st.out) && SkipsApart(st.out)
    && (if st.skip then EndOf(0, st.out) <= EndOf(0, q) else EndOf(0, st.out) == EndOf(0, q))
    && (forall r :: 0 <= r ==> (Live(0, st.out, r) <==> Asks(p, q, r)))
  }

  ghost predicate Tiling(p: Party, out: seq<Range>) {
    All(Ordered, 0, out) && All(Exact(p.hash, p.items), 0, out)
  }

  /** The strict form, for messages without empty ranges. */
  ghost predicate AnsweredStrictly(q: seq<Range>, st: State) {
    All(NotEmpty, 0, st.out) && (st.skip ==> EndOf(0, st.out) < EndOf(0, q))
  }

  lemma SectionAt(p: Party, q: seq<Range>, st: State, r: Range)
    requires AscendingItems(p.items) && Answered(p, q, st) && st.prevIndex <= |p.items|
    requires EndOf(0, q) <= BoundRank(r.upper)
    ensures !Backward(p, st, r)
    ensures st.prevIndex + |Section(p, st, r)| == LowerBound(p.items, BoundRank(r.upper))
    ensures Section(p, st, r) == Within(p.items, EndOf(0, q), BoundRank(r.upper))
  {
    hide Rank, LowerBound, BoundRank, Tiling, SkipsApart, AscendingItems, TreeLowerBound;
    LowerBoundMonotone(p.items, EndOf(0, q), BoundRank(r.upper));
    TreeGoesBack(p.items, st.prevIndex, |p.items|, BoundRank(r.upper));
  }

  /** A range that needs no answer only makes the skipped stretch longer. */
  lemma Quiet(p: Party, q: seq<Range>, st: State, r: Range, st': State)
    requires All(Ordered, 0, q) && Answered(p, q, st) && EndOf(0, q) <= BoundRank(r.upper)
    requires !NeedsAnswer(p, Cell(EndOf(0, q), r))
    requires st'.out == st.out && st'.skip && !st'.stopped && !st'.failed && st'.prevBound == r.upper
    requires st'.prevIndex == LowerBound(p.items, BoundRank(r.upper))
    ensures Answered(p, q + [r], st')
    ensures AnsweredStrictly(q, st) && EndOf(0, q) < BoundRank(r.upper) ==> AnsweredStrictly(q + [r], st')
  {
    hide Rank, LowerBound, BoundRank, NeedsAnswer, All, CellAt, SkipsApart;
    assert EndOf(0, q + [r]) == BoundRank(r.upper);
    forall x | 0 <= x ensures Live(0, st'.out, x) <==> Asks(p, q + [r], x) {
      CellSpan(0, st.out, x);
      CellSpan(0, q, x);
      CellConcat(0, q, [r], x);
      CellOfOne(EndOf(0, q), r, x);
    }
  }

  lemma CellOfOne(lo: int, r: Range, x: int)
    ensures CellAt(lo, [r], x) == if x < BoundRank(r.upper) then Some(Cell(lo, r)) else None
  {
    assert [r][1..] == [];
  }

  /** An answer: the skipped stretch is announced if there is one, and ranges that cover the asked range follow. */
  lemma Loud(p: Party, q: seq<Range>, st: State, r: Range, rs: seq<Range>, st': State)
    requires All(Ordered, 0, q) && Answered(p, q, st) && EndOf(0, q) <= BoundRank(r.upper)
    requires NeedsAnswer(p, Cell(EndOf(0, q), r))
    requires var lo := EndOf(0, q);
             rs != [] && Unskipped(rs) && All(Ordered, lo, rs) && All(Exact(p.hash, p.items), lo, rs)
               && EndOf(lo, rs) == BoundRank(r.upper)
    requires st'.out == st.out + PendingSkip(st) + rs && !st'.skip && !st'.stopped && !st'.failed
             && st'.prevBound == r.upper
    requires st'.prevIndex == LowerBound(p.items, BoundRank(r.upper))
    ensures Answered(p, q + [r], st')
    ensures AnsweredStrictly(q, st) && All(NotEmpty, EndOf(0, q), rs) ==> AnsweredStrictly(q + [r], st')
  {
    hide Rank, LowerBound, BoundRank, NeedsAnswer, All, CellAt, SkipsApart;
    var lo := EndOf(0, q);
    var mid := st.out + PendingSkip(st);
    assert EndOf(0, q + [r]) == BoundRank(r.upper);
    SkipAppended(p, q, st);
    forall claim ensures All(claim, 0, mid + rs) <==> All(claim, 0, mid) && All(claim, lo, rs) {
      AllConcat(claim, 0, mid, rs);
    }
    assert EndOf(0, mid + rs) == BoundRank(r.upper);
    SkipsStayApart(mid, rs, st);
    forall x | 0 <= x ensures Live(0, st'.out, x) <==> Asks(p, q + [r], x) {
      CellSpan(0, mid, x);
      CellSpan(0, q, x);
      CellConcat(0, q, [r], x);
      CellOfOne(lo, r, x);
      CellConcat(0, mid, rs, x);
      assert Live(0, mid, x) <==> Live(0, st.out, x);
      if lo <= x {
        CellSpan(lo, rs, x);
      }
    }
  }

  /** Announcing the skipped stretch closes the gap to the place reached and leaves what is live alone. */
  lemma SkipAppended(p: Party, q: seq<Range>, st: State)
    requires Answered(p, q, st)
    ensures var mid := st.out + PendingSkip(st);
            && Tiling(p, mid) && EndOf(0, mid) == EndOf(0, q)
            && (AnsweredStrictly(q, st) ==> All(NotEmpty, 0, mid))
            && (forall x :: 0 <= x ==> (Live(0, mid, x) <==> Live(0, st.out, x)))
  {
    hide Rank, LowerBound, BoundRank, NeedsAnswer, All, CellAt, SkipsApart, Asks;
    var mid := st.out + PendingSkip(st);
    if st.skip {
      var skip := Range(st.prevBound, Skip);
      forall claim ensures All(claim, 0, mid) <==> All(claim, 0, st.out) && Meets(claim, EndOf(0, st.out), skip) {
        AllConcat(claim, 0, st.out, [skip]);
        AllOne(claim, EndOf(0, st.out), skip);
      }
      forall x | 0 <= x ensures Live(0, mid, x) <==> Live(0, st.out, x) {
        CellConcat(0, st.out, [skip], x);
        CellOfOne(EndOf(0, st.out), skip, x);
        CellSpan(0, st.out, x);
      }
    } else {
      assert mid == st.out;
    }
  }

  lemma SkipsStayApart(mid: seq<Range>, rs: seq<Range>, st: State)
    requires SkipsApart(st.out) && mid == st.out + PendingSkip(st) && rs != [] && Unskipped(rs)
    ensures SkipsApart(mid + rs)
  {
    var all := mid + rs;
    forall i | 0 <= i < |all| && all[i].payload.Skip? ensures i + 1 < |all| && !all[i + 1].payload.Skip? {
      if i < |st.out| {
        assert st.out[i] == all[i] && st.out[i + 1] == all[i + 1];
      } else {
        assert i < |mid|;
        assert all[i + 1] == rs[0] && rs[0] in rs;
      }
    }
  }

  /** Without a limit nothing is dropped. */
  lemma StepUnlimited(p: Party, st: State, r: Range)
    requires p.frameSizeLimit == 0 && st.prevIndex <= |p.items| && !st.stopped && !st.failed && !Backward(p, st, r)
    ensures var e := Answer(p, st, r, Section(p, st, r));
            Step(p, st, r) == e.st.(out := e.st.out + e.o, prevIndex := e.upper, prevBound := r.upper)
  {
    hide Answer, Section, Backward;
  }

  lemma AnswersQuietly(p: Party, st: State, r: Range, mine: seq<Item>, lo: int)
    requires mine == Within(p.items, lo, BoundRank(r.upper)) && !NeedsAnswer(p, Cell(lo, r))
    ensures var e := Answer(p, st, r, mine); e.st.out + e.o == st.out && e.st.skip && e.upper == st.prevIndex + |mine|
  {
    hide Rank, LowerBound, BoundRank, FingerprintOf, SplitRange, Compare, IdSet, Within, ListCount, Size;
  }

  /** The ranges that answer a range tile it. */
  lemma AnswersLoudly(p: Party, st: State, r: Range, mine: seq<Item>, lo: int) returns (rs: seq<Range>)
    requires AscendingItems(p.items) && p.frameSizeLimit == 0 && lo <= BoundRank(r.upper)
    requires mine == Within(p.items, lo, BoundRank(r.upper)) && NeedsAnswer(p, Cell(lo, r))
    ensures var e := Answer(p, st, r, mine);
            e.st.out + e.o == st.out + PendingSkip(st) + rs && !e.st.skip && e.upper == st.prevIndex + |mine|
    ensures rs != [] && Unskipped(rs) && All(Ordered, lo, rs) && All(Exact(p.hash, p.items), lo, rs)
            && EndOf(lo, rs) == BoundRank(r.upper)
    ensures lo < BoundRank(r.upper) ==> All(NotEmpty, lo, rs)
    ensures if r.payload.Print? then rs == SplitRange(p.hash, mine, r.upper) else |rs| == 1 && rs[0].payload.IdList?
  {
    hide Rank, LowerBound, BoundRank, FingerprintOf, SplitRange, Compare, IdSet, Within, ListCount, Size, All,
         AscendingItems;
    if r.payload.Print? {
      SplitTiles(p.hash, p.items, lo, r.upper);
      rs := SplitRange(p.hash, mine, r.upper);
      assert st.out + (PendingSkip(st) + rs) == st.out + PendingSkip(st) + rs;
    } else {
      var listing := Listing(p, st, mine, r.upper);
      NoLimitListsAll(Size(st.out), |mine|, 0);
      assert mine[..|mine|] == mine;
      rs := [listing];
      forall claim ensures All(claim, lo, rs) <==> Meets(claim, lo, listing) {
        AllOne(claim, lo, listing);
      }
      assert st.out + PendingSkip(st) + rs + [] == st.out + PendingSkip(st) + rs;
    }
  }

  lemma StepAnswers(p: Party, q: seq<Range>, st: State, r: Range)
    requires AscendingItems(p.items) && p.frameSizeLimit == 0 && st.prevIndex <= |p.items|
    requires All(Ordered, 0, q) && Answered(p, q, st) && EndOf(0, q) <= BoundRank(r.upper)
    ensures Answered(p, q + [r], Step(p, st, r))
    ensures AnsweredStrictly(q, st) && EndOf(0, q) < BoundRank(r.upper) ==> AnsweredStrictly(q + [r], Step(p, st, r))
  {
    hide Rank, LowerBound, BoundRank, All, CellAt, Answered, AnsweredStrictly, Within, Answer, Step, NeedsAnswer,
         Section, AscendingItems, Backward;
    var lo := EndOf(0, q);
    AnsweredBasics(p, q, st);
    SectionAt(p, q, st, r);
    StepUnlimited(p, st, r);
    var mine := Section(p, st, r);
    if !NeedsAnswer(p, Cell(lo, r)) {
      AnswersQuietly(p, st, r, mine, lo);
      Quiet(p, q, st, r, Step(p, st, r));
    } else {
      var rs := AnswersLoudly(p, st, r, mine, lo);
      Loud(p, q, st, r, rs, Step(p, st, r));
    }
  }

  lemma AnsweredBasics(p: Party, q: seq<Range>, st: State)
    requires Answered(p, q, st)
    ensures !st.stopped && !st.failed && st.prevIndex == LowerBound(p.items, EndOf(0, q))
  {
  }

  lemma {:induction false} NoLimitListsAll(size: nat, n: nat, i: nat)
    requires i <= n
    ensures ListCount(0, size, n, i) == n
    decreases n - i
  {
    if i < n {
      NoLimitListsAll(size, n, i + 1);
    }
  }

  lemma AllSnoc(claim: Claim, q: seq<Range>, r: Range)
    ensures All(claim, 0, q + [r]) <==> All(claim, 0, q) && Meets(claim, EndOf(0, q), r)
  {
    hide Meets;
    AllConcat(claim, 0, q, [r]);
    AllOne(claim, EndOf(0, q), r);
  }

  /** Without a limit, the reply and the implicit final Skip tile the whole space: exactly the ranges that need an
      answer are covered by ranges that are not Skips, each of these describes exactly the own items inside it, and
      a Skip is neither last nor next to another Skip. */
  lemma {:induction false} ReplyTiles(p: Party, q: seq<Range>)
    requires AscendingItems(p.items) && p.frameSizeLimit == 0 && All(Ordered, 0, q)
    ensures Answered(p, q, Run(p, q))
    ensures All(NotEmpty, 0, q) ==> AnsweredStrictly(q, Run(p, q))
    decreases |q|
  {
    hide Rank, LowerBound, BoundRank, Answered, AnsweredStrictly, Step, Meets, All;
    if q == [] {
      NothingAnswered(p);
    } else {
      var front, r := q[..|q| - 1], q[|q| - 1];
      assert q == front + [r];
      AllSnoc(Ordered, front, r);
      AllSnoc(NotEmpty, front, r);
      assert Meets(Ordered, EndOf(0, front), r);
      MeetsOrder(EndOf(0, front), r);
      ReplyTiles(p, front);
      StepAnswers(p, front, Run(p, front), r);
    }
  }

  /** Each range of a query is answered on its own: if it needs an answer, exactly its section is tiled by ranges
      that are not Skips, after the announcement of the stretch skipped before it; otherwise nothing is added. */
  lemma RangeTiled(p: Party, q: seq<Range>, r: Range) returns (rs: seq<Range>)
    requires AscendingItems(p.items) && p.frameSizeLimit == 0 && All(Ordered, 0, q) && EndOf(0, q) <= BoundRank(r.upper)
    ensures var st, lo := Run(p, q), EndOf(0, q);
            Run(p, q + [r]).out == if NeedsAnswer(p, Cell(lo, r)) then st.out + PendingSkip(st) + rs else st.out
    ensures var lo := EndOf(0, q);
            Unskipped(rs) && All(Ordered, lo, rs) && All(Exact(p.hash, p.items), lo, rs)
            && (NeedsAnswer(p, Cell(lo, r)) ==> rs != [] && EndOf(lo, rs) == BoundRank(r.upper))
    ensures Run(p, q).skip ==>
            PendingSkip(Run(p, q)) == [Range(Run(p, q).prevBound, Skip)]
              && BoundRank(Run(p, q).prevBound) == EndOf(0, q)
    ensures !Run(p, q).skip ==> PendingSkip(Run(p, q)) == [] && EndOf(0, Run(p, q).out) == EndOf(0, q)
  {
    hide Rank, LowerBound, BoundRank, All, CellAt, AnsweredStrictly, Within, Answer, Step, NeedsAnswer, Section,
         AscendingItems, Run, Tiling, SkipsApart;
    var st, lo := Run(p, q), EndOf(0, q);
    ReplyTiles(p, q);
    RunSnoc(p, q, r);
    SectionAt(p, q, st, r);
    StepUnlimited(p, st, r);
    var mine := Section(p, st, r);
    rs := [];
    if NeedsAnswer(p, Cell(lo, r)) {
      rs := AnswersLoudly(p, st, r, mine, lo);
    } else {
      AnswersQuietly(p, st, r, mine, lo);
      NothingToClaim(Ordered, lo);
      NothingToClaim(Exact(p.hash, p.items), lo);
    }
  }

  // ---------- Ranges the storage refuses ----------

  /** An array never refuses a range. */
  lemma {:induction false} ArrayNeverFails(p: Party, q: seq<Range>)
    requires !p.tree
    ensures !Run(p, q).failed
    decreases |q|
  {
    hide Answer, Section, Size, LowerBound, BoundRank;
    if q != [] {
      ArrayNeverFails(p, q[..|q| - 1]);
    }
  }

  /** A tree refuses ranges that come out of order: after both of two items, a fingerprint up to the second is asked
      for. */
  lemma TreeFailsExample(h: Hash, f: Fingerprint) returns (p: Party, q: seq<Range>)
    ensures AscendingItems(p.items) && p.tree && p.frameSizeLimit == 0
    ensures Run(p, q).failed && !Run(p.(tree := false), q).failed
  {
    hide Rank, LowerBound, BoundRank, Run, FingerprintOf, Size;
    var items := TreeGoesBackExample();
    p := Party(items, h, 0, false, true);
    var past, back := Range(Bound(3, []), Skip), Range(ItemBound(items[1]), Print(f));
    q := [past] + [back];
    PastBoth(items, past.upper);
    assert [] + [past] == [past];
    RunSnoc(p, [], past);
    RunSnoc(p, [past], back);
    BoundRankFacts(items[1]);
    StartRun(p);
    var st := Step(p, START, past);
    assert st.prevIndex == 2 && !st.failed && !st.stopped;
    assert Refused(p, st, back);
    ArrayNeverFails(p.(tree := false), q);
  }

  lemma StartRun(p: Party)
    ensures Run(p, []) == START
  {
  }

  /** A bound at a later time than all items. */
  lemma PastBoth(items: seq<Item>, b: Bound)
    requires AscendingItems(items) && forall x :: x in items ==> x.timestamp < b.timestamp
    ensures LowerBound(items, BoundRank(b)) == |items| && forall i :: 0 <= i < |items| ==> Rank(items[i]) < BoundRank(b)
  {
    hide Rank, LowerBound, BoundRank;
    forall i | 0 <= i < |items| ensures Rank(items[i]) < BoundRank(b) {
      assert items[i] in items;
      RankOfBound(items[i], b);
    }
    LowerBoundUnique(items, BoundRank(b), |items|);
  }

  lemma RankOfBound(x: Item, b: Bound)
    requires x.timestamp < b.timestamp
    ensures Rank(x) < BoundRank(b)
  {
    InTimeOrder(x, BoundItem(b));
  }

  lemma NothingToClaim(claim: Claim, lo: int)
    ensures All(claim, lo, [])
  {
  }

  lemma MeetsOrder(lo: int, r: Range)
    ensures Meets(Ordered, lo, r) <==> lo <= BoundRank(r.upper)
    ensures Meets(NotEmpty, lo, r) <==> lo < BoundRank(r.upper)
  {
  }

  lemma NothingAnswered(p: Party)
    ensures Answered(p, [], START) && AnsweredStrictly([], START)
  {
    BoundRankFacts(ZERO_ITEM);
    LowerBoundStart(p.items);
  }
}
