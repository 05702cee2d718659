/** Replies under a frame size limit: they keep to the limit, and what they list stays exact when they are cut short. */
module FrameLimits {
  import opened Types
  import opened Encoding
  import opened SortedItems
  import opened Wire
  import opened Splits
  import opened Coverage
  import opened Replies

  const MIN_FRAME_SIZE_LIMIT := 4096

  ghost predicate LimitOk(limit: nat) {
    limit == 0 || limit >= MIN_FRAME_SIZE_LIMIT
  }

  ghost predicate BelowInfinity(items: seq<Item>) {
    forall x :: x in items ==> x.timestamp < MAX_U64
  }

  function Unlimited(p: Party): Party {
    p.(frameSizeLimit := 0)
  }

  // ---------- Sizes ----------

  lemma SizeOfAppended(out: seq<Range>, o: seq<Range>)
    ensures Size(out + o) == Size(out) + |RangesBytes(LastTimestamp(0, out), o)|
  {
    RangesBytesConcat(0, out, o);
  }

  lemma BoundSize(last: uint64, b: Bound)
    ensures |BoundBytes(last, b)| <= 11 + |b.prefix| <= 43
    ensures b.timestamp == MAX_U64 ==> |BoundBytes(last, b)| == 2 + |b.prefix|
  {
    hide VarInt;
    VarIntAtMostTen(0);
    VarIntAtMostTen(((b.timestamp - last) % U64 + 1) % U64);
    VarIntAtMostTen(|b.prefix|);
  }

  lemma RangeSize(last: uint64, r: Range)
    ensures r.payload.Skip? ==> |RangeBytes(last, r)| <= 44
    ensures r.payload.Print? ==> |RangeBytes(last, r)| <= 60
    ensures r.payload.IdList? ==> 32 * |r.payload.ids| <= |RangeBytes(last, r)| <= 54 + 32 * |r.payload.ids|
    ensures r.upper == INFINITY && r.payload.Print? ==> |RangeBytes(last, r)| == 19
    ensures r.upper == INFINITY && r.payload.IdList? && |r.payload.ids| < 128 ==>
            |RangeBytes(last, r)| == 4 + 32 * |r.payload.ids|
  {
    hide VarInt, BoundBytes, IdBytes;
    BoundSize(last, r.upper);
    VarIntAtMostTen(0);
    VarIntAtMostTen(1);
    VarIntAtMostTen(2);
    if r.payload.IdList? {
      VarIntAtMostTen(Word(|r.payload.ids|));
    }
  }

  lemma {:induction false} PrintsSize(last: uint64, rs: seq<Range>)
    requires forall r :: r in rs ==> r.payload.Print?
    ensures |RangesBytes(last, rs)| <= 60 * |rs|
    decreases |rs|
  {
    hide RangeBytes;
    if rs != [] {
      assert rs[0] in rs;
      RangeSize(last, rs[0]);
      forall r | r in rs[1..] ensures r in rs {
      }
      PrintsSize(rs[0].upper.timestamp, rs[1..]);
    }
  }

  /** The first message always fits the smallest allowed frame. */
  lemma OpeningFits(h: Hash, items: seq<Item>, last: uint64)
    ensures 1 + |RangesBytes(last, SplitRange(h, items, INFINITY))| <= 997 < MIN_FRAME_SIZE_LIMIT
  {
    hide RangeBytes, RangesBytes, BucketRange, Ids;
    var rs := SplitRange(h, items, INFINITY);
    if |items| < 2 * BUCKETS {
      RangesBytesOne(last, rs[0]);
      RangeSize(last, rs[0]);
    } else {
      BucketsArePrints(h, items, INFINITY);
      PrintsSize(last, rs);
    }
  }

  lemma BucketsArePrints(h: Hash, items: seq<Item>, upper: Bound)
    requires |items| >= 2 * BUCKETS
    ensures forall r :: r in SplitRange(h, items, upper) ==> r.payload.Print?
  {
    hide BucketBound, Bucket, FingerprintOf;
  }

  // ---------- The steps before the frame is full ----------

  ghost predicate Roomy(p: Party, st: State) {
    !st.stopped ==> !Exceeded(p.frameSizeLimit, Size(st.out))
  }

  lemma {:induction false} RunRoomy(p: Party, q: seq<Range>)
    requires LimitOk(p.frameSizeLimit)
    ensures Roomy(p, Run(p, q))
  {
    hide Answer, Section, Size, Place, Refused;
    if q == [] {
      StartSize();
    } else {
      RunRoomy(p, q[..|q| - 1]);
    }
  }

  lemma StartSize()
    ensures Size(START.out) == 1
  {
  }

  /** When the frame takes everything, ids are not held back either. */
  lemma {:induction false} ListsAllOrFull(limit: nat, size: nat, n: nat, i: nat)
    requires i <= n
    ensures var k := ListCount(limit, size, n, i); k < n ==> Exceeded(limit, size + ID_SIZE * k)
    ensures var k := ListCount(limit, size, n, i); k > i ==> !Exceeded(limit, size + ID_SIZE * (k - 1))
    decreases n - i
  {
    if i < n && !Exceeded(limit, size + ID_SIZE * i) {
      ListsAllOrFull(limit, size, n, i + 1);
    }
  }

  lemma ListingSize(p: Party, st: State, mine: seq<Item>, bound: Bound)
    ensures var listing := Listing(p, st, mine, bound);
            var size := Size(st.out + PendingSkip(st) + [listing]);
            Size(st.out) + 32 * |listing.payload.ids| <= size <= Size(st.out) + 98 + 32 * |listing.payload.ids|
  {
    hide RangeBytes, RangesBytes, Size, Ids;
    var listing := Listing(p, st, mine, bound);
    var mid := st.out + PendingSkip(st);
    SizeOfAppended(mid, [listing]);
    RangesBytesOne(LastTimestamp(0, mid), listing);
    RangeSize(LastTimestamp(0, mid), listing);
    SizeOfAppended(st.out, PendingSkip(st));
    if st.skip {
      var skip := Range(st.prevBound, Skip);
      RangesBytesOne(LastTimestamp(0, st.out), skip);
      RangeSize(LastTimestamp(0, st.out), skip);
    } else {
      NoBytes(LastTimestamp(0, st.out));
    }
  }

  lemma NoBytes(last: uint64)
    ensures RangesBytes(last, []) == []
  {
  }

  /** A list that is cut short fills the frame, so the loop always leaves after it; it has at least one id, and it is
      exactly the items from the previous bound up to the bound it ends with. It is not cut before the frame and its ids
      come within 200 bytes of the limit, and it has no id more than that. */
  lemma TruncatedListing(p: Party, st: State, mine: seq<Item>, bound: Bound)
    requires Roomy(p, st) && !st.stopped && |Listing(p, st, mine, bound).payload.ids| < |mine|
    ensures var listing := Listing(p, st, mine, bound);
            var n := |listing.payload.ids|;
            && n >= 1 && listing.payload.ids == Ids(mine[..n]) && listing.upper == ItemBound(mine[n])
            && p.frameSizeLimit != 0 && |MessageBytes(st.out)| + 32 * n > p.frameSizeLimit - 200
            && |MessageBytes(st.out)| + 32 * (n - 1) <= p.frameSizeLimit - 200
            && Exceeded(p.frameSizeLimit, Size(st.out + PendingSkip(st) + [listing]))
  {
    hide MessageBytes, Ids, PendingSkip;
    ListsAllOrFull(p.frameSizeLimit, Size(st.out), |mine|, 0);
    ListingSize(p, st, mine, bound);
  }

  /** Up to the step that fills the frame a limited party does exactly what an unlimited one does. */
  lemma StepLikeUnlimited(p: Party, st: State, r: Range)
    requires Roomy(p, st) && st.prevIndex <= |p.items| && !Step(p, st, r).stopped
    ensures Step(p, st, r) == Step(Unlimited(p), st, r)
  {
    hide Size, SplitRange, FingerprintOf, Compare, ListCount, Rank, LowerBound, BoundRank, Ids, ClampedLowerBound,
         TreeLowerBound;
    assert !st.stopped && Upper(p, st, r) == Upper(Unlimited(p), st, r);
    var mine := Section(p, st, r);
    assert mine == Section(Unlimited(p), st, r);
    if r.payload.IdList? && !p.initiator {
      var listing := Listing(p, st, mine, r.upper);
      var n := ListCount(p.frameSizeLimit, Size(st.out), |mine|, 0);
      var mid := st.out + PendingSkip(st) + [listing];
      assert mid + [] == mid;
      if n < |mine| {
        TruncatedListing(p, st, mine, r.upper);
      }
      NoLimitListsAll(Size(st.out), |mine|, 0);
    }
  }

  lemma {:induction false} UnstoppedIsUnlimited(p: Party, q: seq<Range>)
    requires LimitOk(p.frameSizeLimit) && !Run(p, q).stopped
    ensures Run(p, q) == Run(Unlimited(p), q)
  {
    hide Step, Roomy;
    if q != [] {
      var front := q[..|q| - 1];
      UnstoppedIsUnlimited(p, front);
      RunRoomy(p, front);
      StepLikeUnlimited(p, Run(p, front), q[|q| - 1]);
    }
  }

  // ---------- When the frame is full ----------

  /** Without a limit a reply only grows. */
  lemma UnlimitedGrows(p: Party, st: State, r: Range)
    requires p.frameSizeLimit == 0 && st.prevIndex <= |p.items|
    ensures Size(Step(p, st, r).out) >= Size(st.out) && Step(p, st, r).stopped == st.stopped
  {
    hide Size, SplitRange, FingerprintOf, Compare, Section, RangesBytes, Upper, Ids, ListCount, Listing;
    if !st.stopped && !st.failed && !Refused(p, st, r) {
      var e := Answer(p, st, r, Section(p, st, r));
      SizeOfAppended(e.st.out, e.o);
      if r.payload.IdList? && !p.initiator {
        ListingSize(p, st, Section(p, st, r), r.upper);
      } else {
        assert e.st.out == st.out;
      }
    }
  }

  lemma {:induction false} NeverFull(p: Party, q: seq<Range>)
    requires p.frameSizeLimit == 0
    ensures !Run(p, q).stopped
  {
    hide Step;
    if q != [] {
      NeverFull(p, q[..|q| - 1]);
      UnlimitedGrows(p, Run(p, q[..|q| - 1]), q[|q| - 1]);
    }
  }

  /** A frame that is full is closed with a range, so the message is not empty. */
  lemma {:induction false} FullIsClosed(p: Party, q: seq<Range>)
    requires Run(p, q).stopped
    ensures Run(p, q).out != []
  {
    hide Answer, Section, Size, Refused, Place;
    if q != [] && Run(p, q[..|q| - 1]).stopped {
      FullIsClosed(p, q[..|q| - 1]);
    }
  }

  /** What a step makes of the frame unless the storage refuses the range. */
  lemma StepOut(p: Party, st: State, r: Range)
    requires st.prevIndex <= |p.items| && !st.stopped && !st.failed && !Refused(p, st, r)
    ensures var e := Answer(p, st, r, Section(p, st, r));
            && Step(p, st, r).stopped == Exceeded(p.frameSizeLimit, Size(e.st.out + e.o))
            && (!Step(p, st, r).stopped ==> Step(p, st, r).out == e.st.out + e.o)
  {
    hide Answer, Section, Size, Exceeded, Place;
  }

  lemma SameSection(p: Party, st: State, r: Range)
    requires st.prevIndex <= |p.items|
    ensures Section(p, st, r) == Section(Unlimited(p), st, r) && Refused(p, st, r) == Refused(Unlimited(p), st, r)
  {
    hide ClampedLowerBound, TreeLowerBound, BoundRank;
  }

  /** A step that fills the frame has more to say than the frame takes. */
  lemma StopsWhenFull(p: Party, st: State, r: Range)
    requires st.prevIndex <= |p.items| && !st.stopped && Step(p, st, r).stopped && Roomy(p, st)
    ensures Size(Step(Unlimited(p), st, r).out) > p.frameSizeLimit - 200
  {
    hide Answer, Section, Size, Refused, Place, Roomy;
    if !st.failed && !Refused(p, st, r) {
      SameSection(p, st, r);
      StepOut(p, st, r);
      StepOut(Unlimited(p), st, r);
      AnswerWhenFull(p, st, r, Section(p, st, r));
    }
  }

  lemma AnswerWhenFull(p: Party, st: State, r: Range, mine: seq<Item>)
    requires !st.stopped && Roomy(p, st)
    requires var e := Answer(p, st, r, mine); Exceeded(p.frameSizeLimit, Size(e.st.out + e.o))
    ensures var e := Answer(Unlimited(p), st, r, mine); Size(e.st.out + e.o) > p.frameSizeLimit - 200
  {
    hide MessageBytes, SplitRange, FingerprintOf, Compare, ListCount, Ids, PendingSkip;
    if r.payload.IdList? && !p.initiator {
      ListingSize(Unlimited(p), st, mine, r.upper);
      NoLimitListsAll(Size(st.out), |mine|, 0);
      var all := st.out + PendingSkip(st) + [Listing(Unlimited(p), st, mine, r.upper)];
      assert all + [] == all;
      var out := st.out + PendingSkip(st) + [Listing(p, st, mine, r.upper)];
      assert out + [] == out;
      if |Listing(p, st, mine, r.upper).payload.ids| < |mine| {
        TruncatedListing(p, st, mine, r.upper);
      }
    }
  }

  /** Whatever a party is asked, its frame is declared full exactly if the reply without a limit would come within 200
      bytes of the limit. */
  lemma {:induction false} FullExactly(p: Party, q: seq<Range>)
    requires p.frameSizeLimit >= 4096
    ensures Run(p, q).stopped <==> |MessageBytes(Run(Unlimited(p), q).out)| > p.frameSizeLimit - 200
  {
    hide Step, Roomy, MessageBytes;
    if q == [] {
      StartSize();
    } else {
      var front, r := q[..|q| - 1], q[|q| - 1];
      FullExactly(p, front);
      UnlimitedGrows(Unlimited(p), Run(Unlimited(p), front), r);
      if !Run(p, q).stopped {
        UnstoppedIsUnlimited(p, q);
        FrameBound(p, q);
      } else if !Run(p, front).stopped {
        UnstoppedIsUnlimited(p, front);
        RunRoomy(p, front);
        StopsWhenFull(p, Run(p, front), r);
      }
    }
  }

  // ---------- The step that fills the frame ----------

  lemma InfinityIsLast(items: seq<Item>, i: nat)
    requires BelowInfinity(items) && i < |items|
    ensures Rank(items[i]) < BoundRank(INFINITY)
  {
    BoundRankFacts(items[i]);
  }

  /** Whatever is in the frame when it is full is in order and lists exactly the items inside each range. */
  ghost predicate Honest(p: Party, out: seq<Range>) {
    All(Ordered, 0, out) && All(Listed(p.items), 0, out) && EndOf(0, out) <= BoundRank(INFINITY)
  }

  lemma TilingIsHonest(p: Party, q: seq<Range>, st: State)
    requires Answered(p, q, st) && EndOf(0, q) <= BoundRank(INFINITY)
    ensures Honest(p, st.out)
  {
    hide Rank, LowerBound, BoundRank, All;
    ExactIsListed(p.hash, p.items, 0, st.out);
  }

  /** Appending a range to an honest frame. */
  lemma HonestSnoc(p: Party, out: seq<Range>, r: Range)
    requires Honest(p, out) && EndOf(0, out) <= BoundRank(r.upper) <= BoundRank(INFINITY)
    requires r.payload.IdList? ==> r.payload.ids == Ids(Within(p.items, EndOf(0, out), BoundRank(r.upper)))
    ensures Honest(p, out + [r])
  {
    hide Rank, LowerBound, BoundRank, All;
    AllSnoc(Ordered, out, r);
    AllSnoc(Listed(p.items), out, r);
  }

  /** The list of a responder, cut short or not. */
  lemma ListingIsHonest(p: Party, q: seq<Range>, st: State, r: Range)
    requires AscendingItems(p.items) && BelowInfinity(p.items) && st.prevIndex <= |p.items|
    requires Answered(p, q, st) && EndOf(0, q) <= BoundRank(r.upper) <= BoundRank(INFINITY)
    ensures Honest(p, st.out + PendingSkip(st) + [Listing(p, st, Section(p, st, r), r.upper)])
  {
    hide Rank, LowerBound, BoundRank, All, ListCount, Size, Section, Within, AscendingItems, BelowInfinity;
    var lo := EndOf(0, q);
    SectionAt(p, q, st, r);
    var mine := Section(p, st, r);
    var listing := Listing(p, st, mine, r.upper);
    var mid := st.out + PendingSkip(st);
    SkipAppended(p, q, st);
    ExactIsListed(p.hash, p.items, 0, mid);
    var n := |listing.payload.ids|;
    if n < |mine| {
      CutAtItem(p.items, lo, BoundRank(r.upper), n);
      SectionItem(p.items, lo, BoundRank(r.upper), n);
      BoundRankFacts(mine[n]);
    } else {
      assert mine[..n] == mine;
    }
    HonestSnoc(p, mid, listing);
  }

  /** Cutting a section at one of its items. */
  lemma CutAtItem(items: seq<Item>, lo: int, hi: int, n: nat)
    requires AscendingItems(items) && lo <= hi && n < |Within(items, lo, hi)|
    ensures var x := Within(items, lo, hi)[n]; Within(items, lo, BoundRank(ItemBound(x))) == Within(items, lo, hi)[..n]
  {
    hide Rank, LowerBound, BoundRank;
    WithinItems(items, lo, hi);
    var x := Within(items, lo, hi)[n];
    BoundRankFacts(x);
    var a, b := LowerBound(items, lo), LowerBound(items, hi);
    LowerBoundUnique(items, BoundRank(ItemBound(x)), a + n);
    assert items[a..b][..n] == items[a..a + n];
  }

  /** From one of its items on, a storage holds what lies between that item and infinity. */
  lemma RestAfterItem(items: seq<Item>, lo: int, hi: int, n: nat)
    requires AscendingItems(items) && BelowInfinity(items) && lo <= hi && n < |Within(items, lo, hi)|
    ensures var x := Within(items, lo, hi)[n];
            LowerBound(items, lo) + n <= |items|
              && Within(items, BoundRank(ItemBound(x)), BoundRank(INFINITY)) == items[LowerBound(items, lo) + n..]
  {
    hide Rank, LowerBound, BoundRank;
    WithinItems(items, lo, hi);
    var x, k := Within(items, lo, hi)[n], LowerBound(items, lo) + n;
    assert x == items[k];
    BoundRankFacts(x);
    LowerBoundUnique(items, BoundRank(ItemBound(x)), k);
    NothingAtInfinity(items);
    assert items[k..|items|] == items[k..];
  }

  /** The step of a list that is cut short: the first `k` ids of the section and a closing fingerprint of everything
      behind them. */
  lemma TruncatedStep(p: Party, st: State, r: Range, mine: seq<Item>, k: nat)
    requires st.prevIndex <= |p.items| && Roomy(p, st) && !p.initiator && r.payload.IdList?
    requires !st.stopped && !st.failed && !Backward(p, st, r)
    requires mine == Section(p, st, r) && k == |Listing(p, st, mine, r.upper).payload.ids| < |mine|
    ensures var st' := Step(p, st, r);
            && 1 <= k && st'.stopped && st.prevIndex + k <= |p.items|
            && st'.out == st.out + PendingSkip(st) + [Range(ItemBound(mine[k]), IdList(Ids(mine[..k])))]
                          + [Range(INFINITY, Print(FingerprintOf(p.hash, p.items[st.prevIndex + k..])))]
  {
    hide ListCount, Size, Section, FingerprintOf, Roomy, Backward, Ids, MessageBytes;
    TruncatedListing(p, st, mine, r.upper);
    var out := st.out + PendingSkip(st) + [Listing(p, st, mine, r.upper)];
    assert out + [] == out;
  }

  /** A reply that describes all items of the party and ends with a nonempty list and a fingerprint up to infinity. */
  ghost predicate CutShort(p: Party, out: seq<Range>) {
    var n := |out|;
    && n >= 2 && Tiling(p, out)
    && out[n - 1].upper == INFINITY && out[n - 1].payload.Print?
    && out[n - 2].payload.IdList? && out[n - 2].payload.ids != []
  }

  /** A tiling goes on with the first items of a section and a fingerprint of all items behind them. */
  lemma TruncatedTiling(p: Party, mid: seq<Range>, lo: int, hi: int, k: nat, out: seq<Range>)
    requires AscendingItems(p.items) && BelowInfinity(p.items) && Tiling(p, mid) && EndOf(0, mid) == lo <= hi
    requires 1 <= k < |Within(p.items, lo, hi)| && LowerBound(p.items, lo) + k <= |p.items|
    requires var w := Within(p.items, lo, hi);
             out == mid + [Range(ItemBound(w[k]), IdList(Ids(w[..k])))]
                    + [Range(INFINITY, Print(FingerprintOf(p.hash, p.items[LowerBound(p.items, lo) + k..])))]
    ensures CutShort(p, out)
  {
    hide Rank, LowerBound, BoundRank, All, Within, AscendingItems, BelowInfinity, FingerprintOf, Tiling, Ids;
    CutAtItem(p.items, lo, hi, k);
    SectionItem(p.items, lo, hi, k);
    var x := Within(p.items, lo, hi)[k];
    BoundRankFacts(x);
    RestAfterItem(p.items, lo, hi, k);
    SectionOrder(p.items, lo, hi, k);
    var listing := Range(ItemBound(x), IdList(Ids(Within(p.items, lo, hi)[..k])));
    IdsNotEmpty(Within(p.items, lo, hi)[..k]);
    TilingSnoc(p, mid, listing);
    TilingSnoc(p, mid + [listing],
               Range(INFINITY, Print(FingerprintOf(p.hash, p.items[LowerBound(p.items, lo) + k..]))));
  }

  /** When the frame cuts a responder's list short, the reply still describes the responder's items exactly: the list up
      to the item it stopped at, and a closing fingerprint of everything from that item on. */
  lemma TruncatedReply(p: Party, q: seq<Range>, st: State, r: Range)
    requires AscendingItems(p.items) && BelowInfinity(p.items) && st.prevIndex <= |p.items| && Roomy(p, st)
             && !p.initiator
    requires Answered(p, q, st) && EndOf(0, q) <= BoundRank(r.upper) <= BoundRank(INFINITY) && r.payload.IdList?
    requires |Listing(p, st, Section(p, st, r), r.upper).payload.ids| < |Section(p, st, r)|
    ensures Step(p, st, r).stopped && CutShort(p, Step(p, st, r).out)
  {
    hide Rank, LowerBound, BoundRank, All, ListCount, Size, Section, Within, AscendingItems, BelowInfinity,
         FingerprintOf, Tiling, SkipsApart, Roomy, Backward, Step, Ids, Answered, Listing, EndOf, PendingSkip, CutShort;
    SectionAt(p, q, st, r);
    AnsweredBasics(p, q, st);
    var mine := Section(p, st, r);
    var k := |Listing(p, st, mine, r.upper).payload.ids|;
    TruncatedStep(p, st, r, mine, k);
    SkipTiles(p, q, st);
    TruncatedTiling(p, st.out + PendingSkip(st), EndOf(0, q), BoundRank(r.upper), k, Step(p, st, r).out);
  }

  lemma SkipTiles(p: Party, q: seq<Range>, st: State)
    requires Answered(p, q, st)
    ensures var mid := st.out + PendingSkip(st); Tiling(p, mid) && EndOf(0, mid) == EndOf(0, q)
  {
    hide Answered, PendingSkip, Tiling, EndOf;
    SkipAppended(p, q, st);
  }

  lemma IdsNotEmpty(items: seq<Item>)
    requires items != []
    ensures Ids(items) != []
  {
  }

  lemma NothingAtInfinity(items: seq<Item>)
    requires AscendingItems(items) && BelowInfinity(items)
    ensures LowerBound(items, BoundRank(INFINITY)) == |items|
  {
    hide Rank, LowerBound, BoundRank;
    forall i | 0 <= i < |items| ensures Rank(items[i]) < BoundRank(INFINITY) {
      InfinityIsLast(items, i);
    }
    LowerBoundUnique(items, BoundRank(INFINITY), |items|);
  }

  lemma SectionOrder(items: seq<Item>, lo: int, hi: int, n: nat)
    requires AscendingItems(items) && BelowInfinity(items) && lo <= hi && n < |Within(items, lo, hi)|
    ensures Rank(Within(items, lo, hi)[n]) < BoundRank(INFINITY)
  {
    hide Rank, LowerBound, BoundRank;
    WithinItems(items, lo, hi);
    InfinityIsLast(items, LowerBound(items, lo) + n);
  }

  lemma TilingSnoc(p: Party, out: seq<Range>, r: Range)
    requires Tiling(p, out) && EndOf(0, out) <= BoundRank(r.upper) && Meets(Exact(p.hash, p.items), EndOf(0, out), r)
    ensures Tiling(p, out + [r]) && EndOf(0, out + [r]) == BoundRank(r.upper)
  {
    hide All, BoundRank, Within, FingerprintOf;
    AllSnoc(Ordered, out, r);
    AllSnoc(Exact(p.hash, p.items), out, r);
  }

  lemma StepIsHonest(p: Party, q: seq<Range>, st: State, r: Range)
    requires LimitOk(p.frameSizeLimit) && AscendingItems(p.items) && BelowInfinity(p.items) && st.prevIndex <= |p.items|
    requires Answered(p, q, st) && EndOf(0, q) <= BoundRank(r.upper) <= BoundRank(INFINITY)
    requires Step(p, st, r).stopped
    ensures Honest(p, Step(p, st, r).out)
  {
    hide Rank, LowerBound, BoundRank, All, ListCount, Size, Section, Within, AscendingItems, BelowInfinity, Answered,
         Honest, SplitRange, FingerprintOf, Compare, Listing;
    AnsweredBasics(p, q, st);
    SectionAt(p, q, st, r);
    var e := Answer(p, st, r, Section(p, st, r));
    if r.payload.IdList? && !p.initiator {
      ListingIsHonest(p, q, st, r);
    } else {
      TilingIsHonest(p, q, st);
      assert e.st.out == st.out;
    }
    HonestEnd(p, e.st.out);
    HonestSnoc(p, e.st.out, Range(INFINITY, Print(FingerprintOf(p.hash, p.items[e.upper..]))));
  }

  lemma HonestEnd(p: Party, out: seq<Range>)
    requires Honest(p, out)
    ensures EndOf(0, out) <= BoundRank(INFINITY)
  {
  }

  /** Under any limit a reply to an ordered message is ordered, and each of its id lists is exactly the items of the
      responder between the two bounds around it. */
  lemma {:induction false} RepliesHonestly(p: Party, q: seq<Range>)
    requires LimitOk(p.frameSizeLimit) && AscendingItems(p.items) && BelowInfinity(p.items)
    requires All(Ordered, 0, q) && EndOf(0, q) <= BoundRank(INFINITY)
    ensures Honest(p, Run(p, q).out)
    decreases |q|
  {
    hide Rank, LowerBound, BoundRank, All, Step, Answered, AscendingItems, BelowInfinity, AnsweredStrictly, Honest,
         Run;
    if !Run(p, q).stopped {
      UnstoppedIsUnlimited(p, q);
      ReplyTiles(Unlimited(p), q);
      TilingIsHonest(Unlimited(p), q, Run(p, q));
      HonestLikewise(p, Run(p, q).out);
    } else {
      NotStoppedAtStart(p);
      var front, r := q[..|q| - 1], q[|q| - 1];
      assert q == front + [r];
      AllSnoc(Ordered, front, r);
      MeetsOrder(EndOf(0, front), r);
      RunSnoc(p, front, r);
      assert EndOf(0, q) == BoundRank(r.upper);
      if Run(p, front).stopped {
        RepliesHonestly(p, front);
      } else {
        UnstoppedIsUnlimited(p, front);
        ReplyTiles(Unlimited(p), front);
        AnsweredLikewise(p, front, Run(p, front));
        StepIsHonest(p, front, Run(p, front), r);
      }
    }
  }

  /** Where the ranges asked about are in order, no storage refuses one. */
  lemma {:induction false} OrderedNeverFails(p: Party, q: seq<Range>)
    requires LimitOk(p.frameSizeLimit) && AscendingItems(p.items) && All(Ordered, 0, q)
    ensures !Run(p, q).failed
    decreases |q|
  {
    hide Rank, LowerBound, BoundRank, All, Answered, AscendingItems, AnsweredStrictly, Run, Answer, Section, Backward;
    if q == [] {
      NotStoppedAtStart(p);
    } else {
      var front, r := q[..|q| - 1], q[|q| - 1];
      assert q == front + [r];
      AllSnoc(Ordered, front, r);
      MeetsOrder(EndOf(0, front), r);
      RunSnoc(p, front, r);
      OrderedNeverFails(p, front);
      if !Run(p, front).stopped {
        UnstoppedIsUnlimited(p, front);
        ReplyTiles(Unlimited(p), front);
        AnsweredLikewise(p, front, Run(p, front));
        SectionAt(p, front, Run(p, front), r);
      }
    }
  }

  lemma NotStoppedAtStart(p: Party)
    ensures !Run(p, []).stopped && !Run(p, []).failed
  {
  }

  lemma HonestLikewise(p: Party, out: seq<Range>)
    requires Honest(Unlimited(p), out)
    ensures Honest(p, out)
  {
    hide All, BoundRank;
  }

  /** The limit does not matter to what counts as answered. */
  lemma AnsweredLikewise(p: Party, q: seq<Range>, st: State)
    requires Answered(Unlimited(p), q, st)
    ensures Answered(p, q, st)
  {
    hide All, BoundRank, LowerBound, CellAt, Within, FingerprintOf;
    forall x | 0 <= x ensures Live(0, st.out, x) <==> Asks(p, q, x) {
      assert Asks(p, q, x) == Asks(Unlimited(p), q, x);
    }
  }

  /** A message never exceeds the limit: when the frame is found full at most a skip, a bound, a count and one id stand
      beyond the point where room was last found, and the closing fingerprint fits in what is left of the slack. */
  lemma {:induction false} FrameBound(p: Party, q: seq<Range>)
    requires p.frameSizeLimit >= MIN_FRAME_SIZE_LIMIT
    ensures Size(Run(p, q).out) <= p.frameSizeLimit - 51
    ensures !Run(p, q).stopped ==> Size(Run(p, q).out) <= p.frameSizeLimit - 200
    decreases |q|
  {
    hide Step, Size, Roomy;
    if q == [] {
      StartSize();
    } else {
      var front, r := q[..|q| - 1], q[|q| - 1];
      FrameBound(p, front);
      RunRoomy(p, front);
      StepInFrame(p, Run(p, front), r);
    }
  }

  lemma StepInFrame(p: Party, st: State, r: Range)
    requires p.frameSizeLimit >= MIN_FRAME_SIZE_LIMIT && st.prevIndex <= |p.items| && Roomy(p, st)
    requires st.stopped ==> Size(st.out) <= p.frameSizeLimit - 51
    ensures var st' := Step(p, st, r);
            && Size(st'.out) <= p.frameSizeLimit - 51
            && (!st'.stopped ==> Size(st'.out) <= p.frameSizeLimit - 200)
  {
    hide Size, SplitRange, FingerprintOf, Compare, ListCount, Section, RangeBytes, RangesBytes, Listing, Upper;
    if !st.stopped && !st.failed && !Refused(p, st, r) {
      var mine := Section(p, st, r);
      var e := Answer(p, st, r, mine);
      if r.payload.IdList? && !p.initiator {
        ListingInFrame(p, st, mine, r.upper);
      } else {
        assert e.st.out == st.out;
      }
      var close := Range(INFINITY, Print(FingerprintOf(p.hash, p.items[Place(p, st, r)..])));
      SizeOfAppended(e.st.out, [close]);
      RangesBytesOne(LastTimestamp(0, e.st.out), close);
      RangeSize(LastTimestamp(0, e.st.out), close);
    }
  }

  lemma ListingInFrame(p: Party, st: State, mine: seq<Item>, bound: Bound)
    requires p.frameSizeLimit >= MIN_FRAME_SIZE_LIMIT && Roomy(p, st) && !st.stopped
    ensures Size(st.out + PendingSkip(st) + [Listing(p, st, mine, bound)]) <= p.frameSizeLimit - 70
  {
    hide Size;
    ListsAllOrFull(p.frameSizeLimit, Size(st.out), |mine|, 0);
    ListingSize(p, st, mine, bound);
  }
}
