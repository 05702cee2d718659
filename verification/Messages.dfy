/** Messages as bytes: everything a party sends is read back by the other side as it was meant. */
module Messages {
  import opened Types
  import opened Encoding
  import opened SortedItems
  import opened Wire
  import opened Splits
  import opened Coverage
  import opened Replies
  import opened FrameLimits

  // ---------- Timestamps never go back ----------

  lemma {:induction false} ChronologicalConcat(last: uint64, a: seq<Range>, b: seq<Range>)
    ensures Chronological(last, a + b) <==> Chronological(last, a) && Chronological(LastTimestamp(last, a), b)
    decreases |a|
  {
    if a == [] {
      assert a + b == b;
    } else {
      assert (a + b)[1..] == a[1..] + b;
      ChronologicalConcat(a[0].upper.timestamp, a[1..], b);
    }
  }

  lemma ChronologicalOne(last: uint64, r: Range)
    ensures Chronological(last, [r]) <==> last <= r.upper.timestamp
  {
    assert [r][1..] == [];
  }

  /** Items in rank order with timestamps from `first` to `last`. */
  ghost predicate Between(items: seq<Item>, first: uint64, last: uint64) {
    && (forall i, j :: 0 <= i < j < |items| ==> items[i].timestamp <= items[j].timestamp)
    && (forall i :: 0 <= i < |items| ==> first <= items[i].timestamp <= last)
  }

  lemma {:induction false} BucketsChronological(h: Hash, items: seq<Item>, upper: Bound, first: uint64, i: nat,
          prev: uint64)
    requires |items| >= 2 * BUCKETS && Between(items, first, upper.timestamp) && i <= BUCKETS
    requires i < BUCKETS ==> BucketEnd(|items|, i) < |items| && prev <= items[BucketEnd(|items|, i)].timestamp
    requires i == BUCKETS ==> prev == upper.timestamp
    ensures Chronological(prev, SplitRange(h, items, upper)[i..])
    decreases BUCKETS - i
  {
    hide FingerprintOf, Bucket, BucketEnd;
    var rs := SplitRange(h, items, upper);
    if i < BUCKETS {
      BucketFits(|items|, i);
      var t := BucketBound(items, upper, i).timestamp;
      assert rs[i..][0] == BucketRange(h, items, upper, i) && rs[i..][1..] == rs[i + 1..];
      BucketsChronological(h, items, upper, first, i + 1, t);
    }
  }

  lemma SplitChronological(h: Hash, items: seq<Item>, upper: Bound, first: uint64)
    requires Between(items, first, upper.timestamp) && first <= upper.timestamp
    ensures Chronological(first, SplitRange(h, items, upper))
    ensures LastTimestamp(first, SplitRange(h, items, upper)) == upper.timestamp
  {
    hide FingerprintOf, Bucket, BucketEnd, BucketBound, Between;
    var rs := SplitRange(h, items, upper);
    if |items| < 2 * BUCKETS {
      ChronologicalOne(first, rs[0]);
    } else {
      BucketStartsAtZero(|items|);
      FirstTimestamp(items, first, upper.timestamp);
      BucketsChronological(h, items, upper, first, 0, first);
      assert rs[0..] == rs;
      LastBucket(items, upper);
    }
  }

  lemma FirstTimestamp(items: seq<Item>, first: uint64, last: uint64)
    requires Between(items, first, last) && items != []
    ensures first <= items[0].timestamp
  {
  }

  // ---------- Sections in time ----------

  lemma RankInTime(x: Item, b: Bound)
    ensures Rank(x) < BoundRank(b) ==> x.timestamp <= b.timestamp
    ensures BoundRank(b) <= Rank(x) ==> b.timestamp <= x.timestamp
  {
    var y := BoundItem(b);
    RankAtOrder(x.timestamp, x.id, y.timestamp, y.id);
    RankAtOrder(y.timestamp, y.id, x.timestamp, x.id);
  }

  /** All items from position `i` on are at or after a time. */
  ghost predicate NotBefore(items: seq<Item>, i: nat, t: uint64) {
    forall j :: i <= j < |items| ==> t <= items[j].timestamp
  }

  lemma SectionInTime(p: Party, st: State, r: Range)
    requires AscendingItems(p.items) && st.prevIndex <= |p.items|
             && NotBefore(p.items, st.prevIndex, st.prevBound.timestamp)
    ensures Between(Section(p, st, r), st.prevBound.timestamp, r.upper.timestamp)
    ensures NotBefore(p.items, Upper(p, st, r), r.upper.timestamp)
    ensures !Backward(p, st, r) ==> Upper(p, st, r) == st.prevIndex + |Section(p, st, r)|
  {
    hide Rank, LowerBound, BoundRank, TreeLowerBound;
    LowerBoundSplits(p.items, BoundRank(r.upper));
    TreeGoesBack(p.items, st.prevIndex, |p.items|, BoundRank(r.upper));
    var upper := Upper(p, st, r);
    forall j | 0 <= j < |p.items|
      ensures st.prevIndex <= j < upper ==> p.items[j].timestamp <= r.upper.timestamp
      ensures upper <= j ==> r.upper.timestamp <= p.items[j].timestamp
    {
      RankInTime(p.items[j], r.upper);
    }
    forall i, j | 0 <= i < j < |p.items| ensures p.items[i].timestamp <= p.items[j].timestamp {
      InTime(p.items[i], p.items[j]);
    }
  }

  lemma InTime(x: Item, y: Item)
    requires Rank(x) < Rank(y)
    ensures x.timestamp <= y.timestamp
  {
    RankAtOrder(y.timestamp, y.id, x.timestamp, x.id);
  }

  // ---------- Replies in time ----------

  /** The frame is in time and has not passed the place reached. */
  ghost predicate Timely(p: Party, st: State) {
    && Chronological(0, st.out) && st.prevIndex <= |p.items|
    && (!st.stopped ==>
        LastTimestamp(0, st.out) <= st.prevBound.timestamp && NotBefore(p.items, st.prevIndex, st.prevBound.timestamp))
  }

  /** Appending the pending skip and ranges that go on from there. */
  lemma TimelyAnswer(out: seq<Range>, pending: seq<Range>, prev: Bound, rs: seq<Range>)
    requires Chronological(0, out) && LastTimestamp(0, out) <= prev.timestamp
             && Chronological(prev.timestamp, rs) && rs != []
    requires pending == [] || pending == [Range(prev, Skip)]
    ensures Chronological(0, out + pending + rs)
    ensures LastTimestamp(0, out + pending + rs) == LastTimestamp(prev.timestamp, rs)
  {
    hide Chronological;
    ChronologicalConcat(0, out + pending, rs);
    ChronologicalConcat(0, out, pending);
    ChronologicalOne(LastTimestamp(0, out), Range(prev, Skip));
    assert out + [] == out;
    NothingInTime(LastTimestamp(0, out));
    EarlierStart(LastTimestamp(0, out), prev.timestamp, rs);
  }

  lemma NothingInTime(last: uint64)
    ensures Chronological(last, [])
  {
  }

  lemma EarlierStart(last: uint64, later: uint64, rs: seq<Range>)
    requires last <= later && Chronological(later, rs)
    ensures Chronological(last, rs)
  {
  }

  lemma ListingInTime(p: Party, st: State, mine: seq<Item>, bound: Bound)
    requires Between(mine, st.prevBound.timestamp, bound.timestamp) && st.prevBound.timestamp <= bound.timestamp
    ensures st.prevBound.timestamp <= Listing(p, st, mine, bound).upper.timestamp <= bound.timestamp
  {
    hide Size, Ids;
  }

  lemma StepTimely(p: Party, st: State, r: Range)
    requires AscendingItems(p.items) && Timely(p, st)
    requires !st.stopped && !st.failed ==> st.prevBound.timestamp <= r.upper.timestamp
    ensures Timely(p, Step(p, st, r))
  {
    hide Rank, Size, SplitRange, FingerprintOf, Compare, Section, Listing, Chronological, NotBefore, Between, Upper;
    if !st.stopped && !st.failed && !Refused(p, st, r) {
      SectionInTime(p, st, r);
      var mine := Section(p, st, r);
      var e := Answer(p, st, r, mine);
      assert st.out + [] == st.out;
      if r.payload.Print? && e.o != [] {
        SplitChronological(p.hash, mine, r.upper, st.prevBound.timestamp);
        var rs := SplitRange(p.hash, mine, r.upper);
        assert st.out + e.o == st.out + PendingSkip(st) + rs;
        TimelyAnswer(st.out, PendingSkip(st), st.prevBound, rs);
      } else if r.payload.IdList? && !p.initiator {
        var listing := Listing(p, st, mine, r.upper);
        ListingInTime(p, st, mine, r.upper);
        ChronologicalOne(st.prevBound.timestamp, listing);
        TimelyAnswer(st.out, PendingSkip(st), st.prevBound, [listing]);
        assert st.out + PendingSkip(st) + [listing] + [] == st.out + PendingSkip(st) + [listing];
        ListedPart(p, st, mine, r.upper);
      }
      CloseInTime(e.st.out, Print(FingerprintOf(p.hash, p.items[Place(p, st, r)..])));
    }
  }

  /** A list that is not cut short covers the section; after one that is, the loop ends. */
  lemma ListedPart(p: Party, st: State, mine: seq<Item>, bound: Bound)
    ensures var listing := Listing(p, st, mine, bound);
            |listing.payload.ids| < |mine| ==> Exceeded(p.frameSizeLimit, Size(st.out + PendingSkip(st) + [listing]))
  {
    hide Size;
    ListsAllOrFull(p.frameSizeLimit, Size(st.out), |mine|, 0);
    ListingSize(p, st, mine, bound);
  }

  lemma CloseInTime(out: seq<Range>, payload: Payload)
    requires Chronological(0, out)
    ensures Chronological(0, out + [Range(INFINITY, payload)])
  {
    ChronologicalConcat(0, out, [Range(INFINITY, payload)]);
    ChronologicalOne(LastTimestamp(0, out), Range(INFINITY, payload));
  }

  /** Whatever ranges a party is asked about, its reply never goes back in time. */
  lemma {:induction false} RepliesInTime(p: Party, q: seq<Range>)
    requires AscendingItems(p.items) && Chronological(0, q)
    ensures Timely(p, Run(p, q))
    ensures !Run(p, q).stopped && !Run(p, q).failed ==> Run(p, q).prevBound.timestamp == LastTimestamp(0, q)
    decreases |q|
  {
    hide Step, Timely, AscendingItems, Rank, Chronological;
    if q == [] {
      StartTimely(p);
    } else {
      var front, r := q[..|q| - 1], q[|q| - 1];
      assert q == front + [r];
      ChronologicalConcat(0, front, [r]);
      ChronologicalOne(LastTimestamp(0, front), r);
      RepliesInTime(p, front);
      StepTimely(p, Run(p, front), r);
      StepBound(p, Run(p, front), r);
    }
  }

  lemma StartTimely(p: Party)
    ensures Timely(p, START)
  {
  }

  lemma StepBound(p: Party, st: State, r: Range)
    requires st.prevIndex <= |p.items|
    ensures !Step(p, st, r).stopped && !Step(p, st, r).failed ==>
            Step(p, st, r).prevBound == r.upper && !st.stopped && !st.failed
  {
    hide Answer, Section, Size, Upper;
  }

  // ---------- Counts ----------

  lemma {:induction false} RepliesCountably(p: Party, q: seq<Range>)
    requires |p.items| < U64
    ensures Countable(Run(p, q).out)
    decreases |q|
  {
    hide Step, Countable;
    if q == [] {
      NothingToCount();
    } else {
      RepliesCountably(p, q[..|q| - 1]);
      StepCountable(p, Run(p, q[..|q| - 1]), q[|q| - 1]);
    }
  }

  lemma NothingToCount()
    ensures Countable([])
  {
  }

  lemma CountableMore(out: seq<Range>, more: seq<Range>)
    requires Countable(out) && Countable(more)
    ensures Countable(out + more)
  {
  }

  lemma StepCountable(p: Party, st: State, r: Range)
    requires |p.items| < U64 && st.prevIndex <= |p.items| && Countable(st.out)
    ensures Countable(Step(p, st, r).out)
  {
    hide Section, Size, Upper, Countable, FingerprintOf, Place;
    if !st.stopped && !st.failed && !Refused(p, st, r) {
      var e := Answer(p, st, r, Section(p, st, r));
      AnswerCountable(p, st, r, Section(p, st, r));
      CountableMore(e.st.out, e.o);
      var close := Range(INFINITY, Print(FingerprintOf(p.hash, p.items[Place(p, st, r)..])));
      PrintCountable(close);
      CountableMore(e.st.out, [close]);
    }
  }

  lemma PrintCountable(r: Range)
    requires !r.payload.IdList?
    ensures Countable([r])
  {
  }

  lemma AnswerCountable(p: Party, st: State, r: Range, mine: seq<Item>)
    requires |mine| < U64 && Countable(st.out)
    ensures var e := Answer(p, st, r, mine); Countable(e.st.out) && Countable(e.o)
  {
    hide SplitRange, FingerprintOf, Compare, Size, ListCount, Countable;
    NothingToCount();
    SplitCountable(p.hash, mine, r.upper);
    PrintCountable(Range(st.prevBound, Skip));
    CountableMore(PendingSkip(st), SplitRange(p.hash, mine, r.upper));
    var listing := Listing(p, st, mine, r.upper);
    assert Countable([listing]) by {
      ListCountable(listing);
    }
    CountableMore(st.out, PendingSkip(st));
    CountableMore(st.out + PendingSkip(st), [listing]);
  }

  lemma ListCountable(r: Range)
    requires r.payload.IdList? && |r.payload.ids| < U64
    ensures Countable([r])
  {
  }

  lemma SplitCountable(h: Hash, items: seq<Item>, upper: Bound)
    ensures Countable(SplitRange(h, items, upper))
  {
    hide FingerprintOf, Bucket, BucketBound;
  }

  // ---------- Round trips ----------

  lemma EmptyMessage(out: seq<Range>)
    ensures |MessageBytes(out)| == 1 <==> out == []
  {
    hide PayloadBytes;
    if out != [] {
      RangeNotEmpty(0, out[0]);
    }
  }

  lemma RangeNotEmpty(last: uint64, r: Range)
    ensures |RangeBytes(last, r)| >= 1
  {
    hide BoundBytes;
    match r.payload
    case Skip => RangeSize(last, r);
    case Print(f) =>
    case IdList(ids) => RangeSize(last, r);
  }

  /** The bytes of any reply are read back as the ranges that were meant, and all of them are consumed. This holds for
      replies to any message, whatever the frame size limit and wherever a filled frame was closed. */
  lemma ReplyRoundTrip(p: Party, q: seq<Range>)
    requires AscendingItems(p.items) && |p.items| < U64 && Chronological(0, q)
    ensures var out := Run(p, q).out;
            MessageBytes(out)[0] == PROTOCOL_VERSION && ParseRanges(0, MessageBytes(out)[1..]) == Parse(out, None)
  {
    hide AscendingItems, RangesBytes, ParseRanges, Run;
    RepliesInTime(p, q);
    RepliesCountably(p, q);
    var out := Run(p, q).out;
    RangesRoundTrip(0, out);
    assert MessageBytes(out)[1..] == RangesBytes(0, out);
  }

  /** Whatever bytes arrive, the ranges read from them are in chronological order. */
  lemma {:induction false} ParsedInTime(last: uint64, s: seq<byte>)
    ensures Chronological(last, ParseRanges(last, s).ranges)
    decreases |s|
  {
    hide ReadVarInt, ReadPayload, Resumed;
    if s != [] && ReadRange(last, s).Ok? {
      var r := ReadRange(last, s).value;
      ReadRangeShrinks(last, s);
      ParsedInTime(r.value.upper.timestamp, r.rest);
      var more := ParseRanges(r.value.upper.timestamp, r.rest).ranges;
      assert ParseRanges(last, s).ranges[1..] == more;
      BoundInTime(last, s);
    }
  }

  lemma BoundInTime(last: uint64, s: seq<byte>)
    requires ReadBound(last, s).Ok?
    ensures last <= ReadBound(last, s).value.value.timestamp
  {
    hide ReadVarInt;
  }

  /** The bytes of a party's first message, when `last` was the timestamp written last before it. */
  function OpeningBytes(last: uint64, h: Hash, items: seq<Item>): seq<byte> {
    [PROTOCOL_VERSION] + RangesBytes(last, SplitRange(h, items, INFINITY))
  }

  lemma AllBetween(items: seq<Item>)
    requires AscendingItems(items)
    ensures Between(items, 0, MAX_U64)
  {
    hide Rank;
    forall i, j | 0 <= i < j < |items| ensures items[i].timestamp <= items[j].timestamp {
      InTime(items[i], items[j]);
    }
  }

  lemma OpeningInTime(h: Hash, items: seq<Item>)
    requires AscendingItems(items) && |items| < U64
    ensures Chronological(0, SplitRange(h, items, INFINITY)) && Countable(SplitRange(h, items, INFINITY))
  {
    AllBetween(items);
    SplitChronological(h, items, INFINITY, 0);
    SplitCountable(h, items, INFINITY);
  }

  /** A bound written against another last timestamp than the reader starts from is read shifted, unless it is
      infinite. */
  lemma ShiftedTimestamp(last: uint64, t: uint64)
    ensures var code := if t == MAX_U64 then 0 else ((t - last) % U64 + 1) % U64;
            Resumed(0, code) == t <==> last == 0 || t == MAX_U64
  {
  }

  lemma ShiftedBound(last: uint64, b: Bound, rest: seq<byte>)
    ensures var r := ReadBound(0, BoundBytes(last, b) + rest);
            r.Ok? && (r.value.value == b <==> last == 0 || b.timestamp == MAX_U64) && r.value.rest == rest
  {
    hide ReadVarInt, VarInt, Resumed;
    var code := if b.timestamp == MAX_U64 then 0 else ((b.timestamp - last) % U64 + 1) % U64;
    var n := VarInt(|b.prefix|);
    assert BoundBytes(last, b) + rest == VarInt(code) + (n + (b.prefix + rest));
    VarIntRoundTrip(code, n + (b.prefix + rest));
    VarIntRoundTrip(|b.prefix|, b.prefix + rest);
    ReadBytesBack(b.prefix, rest);
    ShiftedTimestamp(last, b.timestamp);
  }

  lemma FirstRangeRead(last: uint64, rs: seq<Range>)
    requires rs != [] && !(last == 0 || rs[0].upper.timestamp == MAX_U64)
    ensures ParseRanges(0, RangesBytes(last, rs)) != Parse(rs, None)
  {
    hide ReadVarInt, VarInt, BoundBytes, ReadBound, ReadPayload;
    var rest := PayloadBytes(rs[0].payload) + RangesBytes(rs[0].upper.timestamp, rs[1..]);
    var s := RangesBytes(last, rs);
    assert s == BoundBytes(last, rs[0].upper) + rest;
    ShiftedBound(last, rs[0].upper, rest);
    if s == [] {
    } else if ReadRange(0, s).Ok? {
      assert ParseRanges(0, s).ranges[0] == ReadRange(0, s).value.value;
    }
  }

  /** The first message is read as it was meant exactly when nothing was written before it, or the party has so few
      items that the message is a single id list up to infinity. */
  lemma OpeningRoundTrip(last: uint64, h: Hash, items: seq<Item>)
    requires AscendingItems(items) && BelowInfinity(items) && |items| < U64
    ensures ParseRanges(0, OpeningBytes(last, h, items)[1..]) == Parse(SplitRange(h, items, INFINITY), None)
       <==> last == 0 || |items| < 2 * BUCKETS
  {
    hide Rank, AscendingItems, RangesBytes, ParseRanges, FingerprintOf, Bucket, Ids;
    var rs := SplitRange(h, items, INFINITY);
    assert OpeningBytes(last, h, items)[1..] == RangesBytes(last, rs);
    OpeningInTime(h, items);
    if last == 0 {
      RangesRoundTrip(0, rs);
    } else if |items| < 2 * BUCKETS {
      RangesRoundTrip(0, rs);
      InfinityBytes(last, rs[0]);
    } else {
      BucketFits(|items|, 0);
      assert rs[0].upper.timestamp == items[BucketEnd(|items|, 1)].timestamp;
      FirstRangeRead(last, rs);
    }
  }

  lemma InfinityBytes(last: uint64, r: Range)
    requires r.upper == INFINITY
    ensures RangesBytes(last, [r]) == RangesBytes(0, [r])
  {
    RangesBytesOne(last, r);
    RangesBytesOne(0, r);
  }
}
