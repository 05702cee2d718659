/** What a list of ranges says about the timestamp/id space.

    Ranges follow each other without gaps: a range starts where the one before it ends, and whatever lies past the last
    range is skipped. Places in the space are ranks, so a range covers the ranks from its lower end up to, and not
    including, its upper bound. */
module Coverage {
  import opened Types
  import opened SortedItems
  import opened Wire
  import opened Splits

  // ---------- Sections of a storage ----------

  /** The items with ranks from `lo` up to `hi`. */
  ghost function Within(items: seq<Item>, lo: int, hi: int): seq<Item> {
    var a, b := LowerBound(items, lo), LowerBound(items, hi);
    if a <= b then items[a..b] else []
  }

  lemma LowerBoundMonotone(items: seq<Item>, r: int, s: int)
    requires AscendingItems(items) && r <= s
    ensures LowerBound(items, r) <= LowerBound(items, s)
  {
    hide Rank, LowerBound;
    LowerBoundSplits(items, r);
    LowerBoundSplits(items, s);
    var a, b := LowerBound(items, r), LowerBound(items, s);
    assert b < a ==> IsBelow(items, r, b);
    assert !IsBelow(items, s, b);
  }

  lemma LowerBoundStart(items: seq<Item>)
    ensures LowerBound(items, 0) == 0
  {
  }

  lemma WithinItems(items: seq<Item>, lo: int, hi: int)
    requires AscendingItems(items) && lo <= hi
    ensures LowerBound(items, lo) <= LowerBound(items, hi)
    ensures Within(items, lo, hi) == items[LowerBound(items, lo)..LowerBound(items, hi)]
    ensures forall x :: x in Within(items, lo, hi) <==> x in items && lo <= Rank(x) < hi
  {
    hide Rank, LowerBound;
    LowerBoundMonotone(items, lo, hi);
    LowerBoundSplits(items, lo);
    LowerBoundSplits(items, hi);
    var a, b := LowerBound(items, lo), LowerBound(items, hi);
    forall x | x in items && lo <= Rank(x) < hi ensures x in items[a..b] {
      var i :| 0 <= i < |items| && items[i] == x;
      assert items[a..b][i - a] == x;
    }
  }

  /** A section of a section is no larger. */
  lemma WithinShrinks(items: seq<Item>, lo: int, hi: int, lo': int, hi': int)
    requires AscendingItems(items) && lo <= lo' <= hi' <= hi
    ensures |Within(items, lo', hi')| <= |Within(items, lo, hi)|
  {
    hide Rank, LowerBound;
    LowerBoundMonotone(items, lo, lo');
    LowerBoundMonotone(items, lo', hi');
    LowerBoundMonotone(items, hi', hi);
  }

  // ---------- Claims about ranges ----------

  /** What a list of ranges may claim, range by range. NotEmpty: every range covers some rank. Ordered: no range
      ends before it starts. Exact: payloads describe exactly the given items inside the range. Listed: id lists do.
      Small: every range with a fingerprint covers at most `most` of the given items. Printless: there is no such
      range. */
  datatype Claim = NotEmpty | Ordered | Exact(h: Hash, items: seq<Item>) | Listed(items: seq<Item>)
                 | Small(items: seq<Item>, most: nat) | Printless

  ghost predicate Meets(claim: Claim, lo: int, r: Range) {
    var hi := BoundRank(r.upper);
    match claim
    case NotEmpty => lo < hi
    case Ordered => lo <= hi
    case Exact(h, items) =>
      (match r.payload
       case Skip => true
       case Print(f) => f == FingerprintOf(h, Within(items, lo, hi))
       case IdList(ids) => ids == Ids(Within(items, lo, hi)))
    case Listed(items) => r.payload.IdList? ==> r.payload.ids == Ids(Within(items, lo, hi))
    case Small(items, most) => r.payload.Print? ==> |Within(items, lo, hi)| <= most
    case Printless => !r.payload.Print?
  }

  ghost predicate All(claim: Claim, lo: int, rs: seq<Range>)
    decreases |rs|
  {
    rs == [] || (Meets(claim, lo, rs[0]) && All(claim, BoundRank(rs[0].upper), rs[1..]))
  }

  /** The rank at which some ranges end. */
  ghost function EndOf(lo: int, rs: seq<Range>): int {
    if rs == [] then lo else BoundRank(rs[|rs| - 1].upper)
  }

  lemma {:induction false} AllConcat(claim: Claim, lo: int, a: seq<Range>, b: seq<Range>)
    ensures All(claim, lo, a + b) <==> All(claim, lo, a) && All(claim, EndOf(lo, a), b)
    decreases |a|
  {
    hide Meets, BoundRank;
    if a == [] {
      assert a + b == b;
    } else {
      assert (a + b)[1..] == a[1..] + b;
      AllConcat(claim, BoundRank(a[0].upper), a[1..], b);
    }
  }

  lemma AllOne(claim: Claim, lo: int, r: Range)
    ensures All(claim, lo, [r]) <==> Meets(claim, lo, r)
  {
    hide Meets, BoundRank;
    assert [r][1..] == [];
  }

  lemma {:induction false} NotEmptyIsOrdered(lo: int, rs: seq<Range>)
    requires All(NotEmpty, lo, rs)
    ensures All(Ordered, lo, rs)
    decreases |rs|
  {
    hide BoundRank;
    if rs != [] {
      NotEmptyIsOrdered(BoundRank(rs[0].upper), rs[1..]);
    }
  }

  lemma {:induction false} ExactIsListed(h: Hash, items: seq<Item>, lo: int, rs: seq<Range>)
    requires All(Exact(h, items), lo, rs)
    ensures All(Listed(items), lo, rs)
    decreases |rs|
  {
    hide BoundRank;
    if rs != [] {
      ExactIsListed(h, items, BoundRank(rs[0].upper), rs[1..]);
    }
  }

  lemma {:induction false} OrderedEnd(lo: int, rs: seq<Range>)
    requires All(Ordered, lo, rs)
    ensures lo <= EndOf(lo, rs)
    decreases |rs|
  {
    hide BoundRank;
    if rs != [] {
      OrderedEnd(BoundRank(rs[0].upper), rs[1..]);
      assert EndOf(lo, rs) == EndOf(BoundRank(rs[0].upper), rs[1..]);
    }
  }

  // ---------- Cells ----------

  /** A range with the rank it starts at. */
  datatype Cell = Cell(lower: int, range: Range)

  /** The range that covers rank `r`; past the last range there is none. */
  ghost function CellAt(lo: int, rs: seq<Range>, r: int): Option<Cell>
    decreases |rs|
  {
    if rs == [] then None
    else if r < BoundRank(rs[0].upper) then Some(Cell(lo, rs[0]))
    else CellAt(BoundRank(rs[0].upper), rs[1..], r)
  }

  lemma {:induction false} CellConcat(lo: int, a: seq<Range>, b: seq<Range>, r: int)
    requires All(Ordered, lo, a)
    ensures CellAt(lo, a + b, r) == if a != [] && r < EndOf(lo, a) then CellAt(lo, a, r) else CellAt(EndOf(lo, a), b, r)
    decreases |a|
  {
    hide BoundRank;
    if a == [] {
      assert a + b == b;
    } else {
      assert (a + b)[1..] == a[1..] + b;
      CellConcat(BoundRank(a[0].upper), a[1..], b, r);
      OrderedEnd(BoundRank(a[0].upper), a[1..]);
    }
  }

  /** A cell covers the rank it is found for, and it lies inside the ranges. */
  lemma {:induction false} CellSpan(lo: int, rs: seq<Range>, r: int)
    requires All(Ordered, lo, rs) && lo <= r
    ensures CellAt(lo, rs, r).Some? <==> r < EndOf(lo, rs)
    ensures CellAt(lo, rs, r).Some? ==>
      var c := CellAt(lo, rs, r).value;
      c.range in rs && lo <= c.lower <= r < BoundRank(c.range.upper) <= EndOf(lo, rs)
    decreases |rs|
  {
    hide BoundRank;
    if rs != [] {
      OrderedEnd(BoundRank(rs[0].upper), rs[1..]);
      if r >= BoundRank(rs[0].upper) {
        CellSpan(BoundRank(rs[0].upper), rs[1..], r);
      }
    }
  }

  lemma {:induction false} CellMeets(claim: Claim, lo: int, rs: seq<Range>, r: int)
    requires All(claim, lo, rs) && CellAt(lo, rs, r).Some?
    ensures var c := CellAt(lo, rs, r).value; Meets(claim, c.lower, c.range)
    decreases |rs|
  {
    hide BoundRank, Meets;
    if r >= BoundRank(rs[0].upper) {
      CellMeets(claim, BoundRank(rs[0].upper), rs[1..], r);
    }
  }

  /** The sender wants an answer about rank `r`: a range other than a Skip covers it. */
  ghost predicate Live(lo: int, rs: seq<Range>, r: int) {
    CellAt(lo, rs, r).Some? && !CellAt(lo, rs, r).value.range.payload.Skip?
  }

  ghost predicate Unskipped(rs: seq<Range>) {
    forall r :: r in rs ==> !r.payload.Skip?
  }

  // ---------- Splits ----------

  /** The rank at which bucket `i` starts. */
  ghost function BucketStart(items: seq<Item>, lo: int, upper: Bound, i: nat): int
    requires i <= BUCKETS && |items| >= 2 * BUCKETS
  {
    if i == 0 then lo else BoundRank(BucketBound(items, upper, i - 1))
  }

  /** A separator between two neighbouring items is where the later one starts. */
  lemma SeparatorAt(all: seq<Item>, k: nat)
    requires AscendingItems(all) && 0 < k < |all|
    ensures var r := BoundRank(MinimalBound(all[k - 1], all[k]));
            LowerBound(all, r) == k && Rank(all[k - 1]) < r <= Rank(all[k])
  {
    hide Rank, LowerBound, BoundRank, MinimalBound;
    SeparatorSeparates(all[k - 1], all[k]);
    LowerBoundUnique(all, BoundRank(MinimalBound(all[k - 1], all[k])), k);
  }

  lemma SeparatorPlace(all: seq<Item>, lo: int, hi: int, e: nat)
    requires AscendingItems(all) && lo <= hi && 0 < e < |Within(all, lo, hi)|
    ensures var items := Within(all, lo, hi);
            var r := BoundRank(MinimalBound(items[e - 1], items[e]));
            LowerBound(all, r) == LowerBound(all, lo) + e && Rank(items[e - 1]) < r <= Rank(items[e])
  {
    hide Rank, LowerBound, BoundRank, MinimalBound, Within, AscendingItems;
    WithinAt(all, lo, hi, e - 1);
    WithinAt(all, lo, hi, e);
    SeparatorAt(all, LowerBound(all, lo) + e);
  }

  lemma WithinAt(all: seq<Item>, lo: int, hi: int, i: nat)
    requires i < |Within(all, lo, hi)|
    ensures LowerBound(all, lo) + i < |all| && Within(all, lo, hi)[i] == all[LowerBound(all, lo) + i]
  {
    hide Rank, LowerBound;
  }

  /** Bucket `i` starts above the items before it and at or below its own. */
  lemma BucketStarts(all: seq<Item>, lo: int, upper: Bound, i: nat)
    requires AscendingItems(all) && lo <= BoundRank(upper)
    requires var items := Within(all, lo, BoundRank(upper)); |items| >= 2 * BUCKETS && i <= BUCKETS
    ensures var items := Within(all, lo, BoundRank(upper));
            var start, e := BucketStart(items, lo, upper, i), BucketEnd(|items|, i);
            && LowerBound(all, start) == LowerBound(all, lo) + e && e <= |items|
            && (i < BUCKETS ==> e < |items| && lo <= start <= Rank(items[e]))
            && (i > 0 ==> e > 0 && Rank(items[e - 1]) < start <= BoundRank(upper))
  {
    hide Rank, LowerBound, BoundRank, BucketEnd, Within, MinimalBound;
    var items := Within(all, lo, BoundRank(upper));
    BucketStartsAtZero(|items|);
    BucketsAscend(|items|, 0, i);
    SectionItem(all, lo, BoundRank(upper), 0);
    if i > 0 {
      BucketFits(|items|, i - 1);
      var e := BucketEnd(|items|, i);
      SectionItem(all, lo, BoundRank(upper), e - 1);
      if i < BUCKETS {
        SectionItem(all, lo, BoundRank(upper), e);
        SeparatorPlace(all, lo, BoundRank(upper), e);
      } else {
        WithinItems(all, lo, BoundRank(upper));
      }
    }
  }

  lemma NextBucket(n: nat, i: nat)
    ensures BucketEnd(n, i + 1) == BucketEnd(n, i) + BucketSize(n, i)
  {
  }

  lemma BucketStartsAtZero(n: nat)
    ensures BucketEnd(n, 0) == 0
  {
  }

  /** Sections cut at two places of a section. */
  lemma CutSection(all: seq<Item>, lo: int, hi: int, start: int, end: int, s: nat, e: nat)
    requires AscendingItems(all) && lo <= hi && s <= e <= |Within(all, lo, hi)|
    requires LowerBound(all, start) == LowerBound(all, lo) + s && LowerBound(all, end) == LowerBound(all, lo) + e
    ensures Within(all, start, end) == Within(all, lo, hi)[s..e]
  {
    hide Rank, LowerBound, AscendingItems;
    WithinItems(all, lo, hi);
    SliceOfSlice(all, LowerBound(all, lo), LowerBound(all, hi), s, e);
  }

  lemma SliceOfSlice(items: seq<Item>, a: nat, b: nat, i: nat, j: nat)
    requires a <= b <= |items| && i <= j <= b - a
    ensures items[a..b][i..j] == items[a + i..a + j]
  {
    var x, y := items[a..b][i..j], items[a + i..a + j];
    assert |x| == |y|;
    forall k | 0 <= k < |x| ensures x[k] == y[k] {
      assert x[k] == items[a..b][i + k];
    }
  }

  lemma SectionAscends(all: seq<Item>, lo: int, hi: int, i: nat, j: nat)
    requires AscendingItems(all) && lo <= hi && i <= j < |Within(all, lo, hi)|
    ensures Rank(Within(all, lo, hi)[i]) <= Rank(Within(all, lo, hi)[j])
  {
    hide Rank, LowerBound;
  }

  /** Each bucket covers exactly its own items. */
  lemma BucketCovers(all: seq<Item>, lo: int, upper: Bound, i: nat)
    requires AscendingItems(all) && lo <= BoundRank(upper) && i < BUCKETS
    requires var items := Within(all, lo, BoundRank(upper)); |items| >= 2 * BUCKETS
    ensures var items := Within(all, lo, BoundRank(upper));
            var start, end := BucketStart(items, lo, upper, i), BucketStart(items, lo, upper, i + 1);
            && start < end && Within(all, start, end) == Bucket(items, i)
            && |Bucket(items, i)| == BucketSize(|items|, i)
            && lo <= start && end <= BoundRank(upper)
  {
    hide Rank, LowerBound, BoundRank, Within, AscendingItems, BucketEnd, BucketStart, BucketSize;
    var items := Within(all, lo, BoundRank(upper));
    NextBucket(|items|, i);
    BucketStarts(all, lo, upper, i);
    BucketStarts(all, lo, upper, i + 1);
    BucketFits(|items|, i);
    var s, e := BucketEnd(|items|, i), BucketEnd(|items|, i + 1);
    SectionAscends(all, lo, BoundRank(upper), s, e - 1);
    CutSection(all, lo, BoundRank(upper), BucketStart(items, lo, upper, i), BucketStart(items, lo, upper, i + 1), s, e);
  }

  lemma SectionItem(all: seq<Item>, lo: int, hi: int, i: nat)
    requires AscendingItems(all) && lo <= hi && i < |Within(all, lo, hi)|
    ensures lo <= Rank(Within(all, lo, hi)[i]) < hi
  {
    hide Rank, LowerBound;
    WithinItems(all, lo, hi);
    assert Within(all, lo, hi)[i] in Within(all, lo, hi);
  }

  lemma {:induction false} BucketsCover(h: Hash, all: seq<Item>, lo: int, upper: Bound, i: nat)
    requires AscendingItems(all) && lo <= BoundRank(upper) && i <= BUCKETS
    requires var items := Within(all, lo, BoundRank(upper)); |items| >= 2 * BUCKETS
    ensures var items := Within(all, lo, BoundRank(upper));
            var start, rest := BucketStart(items, lo, upper, i), SplitRange(h, items, upper)[i..];
            && All(NotEmpty, start, rest) && All(Exact(h, all), start, rest)
            && All(Small(all, (|items| + 15) / 16), start, rest)
    decreases BUCKETS - i
  {
    hide Rank, LowerBound, BoundRank, FingerprintOf, Within, BucketBound, Bucket;
    var items := Within(all, lo, BoundRank(upper));
    if i < BUCKETS {
      BucketsCover(h, all, lo, upper, i + 1);
      BucketCovers(all, lo, upper, i);
      BucketSizes(|items|, i, i);
      var rs := SplitRange(h, items, upper);
      assert rs[i..][1..] == rs[i + 1..] && rs[i..][0] == BucketRange(h, items, upper, i);
    }
  }

  /** Splitting the section from `lo` to `upper` yields ranges that tile it, each describing exactly the items
      inside it. */
  lemma SplitTiles(h: Hash, all: seq<Item>, lo: int, upper: Bound)
    requires AscendingItems(all) && lo <= BoundRank(upper)
    ensures var items := Within(all, lo, BoundRank(upper));
            var rs := SplitRange(h, items, upper);
            && EndOf(lo, rs) == BoundRank(upper) && Unskipped(rs)
            && All(Ordered, lo, rs) && All(Exact(h, all), lo, rs)
            && (lo < BoundRank(upper) ==> All(NotEmpty, lo, rs))
            && All(Small(all, (|items| + 15) / 16), lo, rs)
            && (|items| < 2 * BUCKETS <==> rs == [Range(upper, IdList(Ids(items)))])
            && (|items| >= 2 * BUCKETS ==> forall r :: r in rs ==> r.payload.Print?)
  {
    hide Rank, LowerBound, BoundRank, FingerprintOf, Within, BucketBound, Bucket;
    var items := Within(all, lo, BoundRank(upper));
    var rs := SplitRange(h, items, upper);
    if |items| < 2 * BUCKETS {
      forall claim ensures All(claim, lo, rs) <==> Meets(claim, lo, rs[0]) {
        AllOne(claim, lo, rs[0]);
      }
    } else {
      BucketsCover(h, all, lo, upper, 0);
      assert rs[0..] == rs;
      LastBucket(items, upper);
      SplitSection(all, lo, upper);
      NotEmptyIsOrdered(lo, rs);
    }
  }

  lemma LastBucket(items: seq<Item>, upper: Bound)
    requires |items| >= 2 * BUCKETS
    ensures BucketBound(items, upper, BUCKETS - 1) == upper
  {
    hide BucketEnd;
    BucketFits(|items|, BUCKETS - 1);
  }

  lemma SplitSection(all: seq<Item>, lo: int, upper: Bound)
    requires AscendingItems(all) && lo <= BoundRank(upper) && Within(all, lo, BoundRank(upper)) != []
    ensures lo < BoundRank(upper)
  {
    hide Rank, LowerBound;
    SectionItem(all, lo, BoundRank(upper), 0);
  }
}
