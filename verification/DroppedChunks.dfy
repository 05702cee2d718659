/** What becomes of a reply when its last chunk is dropped because the frame is full. The closing fingerprint starts
    after the dropped range, while the receiver takes it to start at the last bound that was sent. */
module DroppedChunks {
  import opened Types
  import opened Encoding
  import opened SortedItems
  import opened Wire
  import opened Splits
  import opened Coverage
  import opened Replies
  import opened FrameLimits

  /** The chunk that answers a range is dropped exactly if the frame fills up over anything but a responder's list. */
  ghost predicate Dropped(p: Party, q: seq<Range>, r: Range) {
    !Run(p, q).stopped && Run(p, q + [r]).stopped && !(r.payload.IdList? && !p.initiator)
  }

  /** The own items between the last bound that was sent and the end of the dropped range. */
  ghost function Gap(p: Party, q: seq<Range>, r: Range): seq<Item> {
    Within(p.items, EndOf(0, Run(p, q).out), BoundRank(r.upper))
  }

  lemma PlaceBefore(p: Party, q: seq<Range>, r: Range)
    requires LimitOk(p.frameSizeLimit) && AscendingItems(p.items) && All(Ordered, 0, q + [r]) && !Run(p, q).stopped
    ensures All(Ordered, 0, q) && EndOf(0, q) <= BoundRank(r.upper)
    ensures Answered(p, q, Run(p, q))
  {
    hide Rank, LowerBound, BoundRank, All, Run, Answered, AnsweredStrictly, AscendingItems;
    AllSnoc(Ordered, q, r);
    MeetsOrder(EndOf(0, q), r);
    UnstoppedIsUnlimited(p, q);
    ReplyTiles(Unlimited(p), q);
    AnsweredLikewise(p, q, Run(p, q));
  }

  /** The step that drops a chunk. */
  lemma DroppingStep(p: Party, st: State, r: Range)
    requires st.prevIndex <= |p.items| && !st.stopped && !Backward(p, st, r) && Step(p, st, r).stopped
    requires !(r.payload.IdList? && !p.initiator)
    ensures Step(p, st, r).out == st.out + [Range(INFINITY, Print(FingerprintOf(p.hash, p.items[Upper(p, st, r)..])))]
  {
    hide Upper, FingerprintOf, SplitRange, Compare, Size;
  }

  /** Two final parts of a sequence are the same exactly if nothing lies between their starts. */
  lemma SameTails(items: seq<Item>, a: nat, b: nat)
    requires a <= b <= |items|
    ensures items[b..] == items[a..] <==> items[a..b] == []
  {
    assert |items[b..]| == |items| - b && |items[a..]| == |items| - a;
  }

  lemma GapBetween(items: seq<Item>, sent: int, end: int)
    requires AscendingItems(items) && BelowInfinity(items) && sent <= end <= BoundRank(INFINITY)
    ensures items[LowerBound(items, end)..] == Within(items, sent, BoundRank(INFINITY))
            <==> Within(items, sent, end) == []
  {
    hide Rank, LowerBound, BoundRank, AscendingItems, BelowInfinity, Within;
    WithinItems(items, sent, end);
    WithinItems(items, sent, BoundRank(INFINITY));
    NothingAtInfinity(items);
    var a, b := LowerBound(items, sent), LowerBound(items, end);
    SameTails(items, a, b);
    assert items[a..|items|] == items[a..];
  }

  lemma ClosedTiling(p: Party, out: seq<Range>, f: Fingerprint)
    requires Tiling(p, out) && EndOf(0, out) <= BoundRank(INFINITY)
    ensures Tiling(p, out + [Range(INFINITY, Print(f))])
       <==> f == FingerprintOf(p.hash, Within(p.items, EndOf(0, out), BoundRank(INFINITY)))
  {
    hide All, BoundRank, Within, FingerprintOf;
    AllSnoc(Ordered, out, Range(INFINITY, Print(f)));
    AllSnoc(Exact(p.hash, p.items), out, Range(INFINITY, Print(f)));
  }

  /** When a chunk is dropped, the reply is what was sent before and one closing fingerprint, of the items from the
      end of the dropped range on. The receiver takes it for that of the items from the last bound sent on. These
      are the same items exactly if the sender has none in the gap between the two places; if it has some, the reply
      describes its items only if the two fingerprints collide. */
  lemma ClosingAfterDrop(p: Party, q: seq<Range>, r: Range)
    requires LimitOk(p.frameSizeLimit) && AscendingItems(p.items) && BelowInfinity(p.items)
    requires All(Ordered, 0, q + [r]) && BoundRank(r.upper) <= BoundRank(INFINITY) && Dropped(p, q, r)
    ensures var sent, final := Run(p, q).out, Run(p, q + [r]).out;
            var read := Within(p.items, EndOf(0, sent), BoundRank(INFINITY));
            var meant := p.items[LowerBound(p.items, BoundRank(r.upper))..];
            && Tiling(p, sent) && final == sent + [Range(INFINITY, Print(FingerprintOf(p.hash, meant)))]
            && (meant == read <==> Gap(p, q, r) == [])
            && (Tiling(p, final) <==> FingerprintOf(p.hash, meant) == FingerprintOf(p.hash, read))
  {
    hide Rank, LowerBound, BoundRank, All, AscendingItems, BelowInfinity, FingerprintOf, Tiling, SkipsApart, Within,
         Run, Step, Backward, Section, Upper;
    PlaceBefore(p, q, r);
    RunSnoc(p, q, r);
    var st := Run(p, q);
    SectionAt(p, q, st, r);
    UpperIsPlace(p, st, r);
    AnsweredBasics(p, q, st);
    DroppingStep(p, st, r);
    GapBetween(p.items, EndOf(0, st.out), BoundRank(r.upper));
    ClosedTiling(p, st.out, FingerprintOf(p.hash, p.items[LowerBound(p.items, BoundRank(r.upper))..]));
  }

  lemma UpperIsPlace(p: Party, st: State, r: Range)
    requires st.prevIndex <= |p.items| && !Backward(p, st, r)
    ensures Upper(p, st, r) == st.prevIndex + |Section(p, st, r)|
  {
    hide Upper;
  }

  // ---------- An input that shows it ----------

  const ITEMS := 416

  /** A responder with a frame size limit of 4096 and one item per second. */
  ghost function Sender(h: Hash): Party {
    Party(Ticks(ITEMS), h, MIN_FRAME_SIZE_LIMIT, false, false)
  }

  function OtherPrint(f: Fingerprint): (g: Fingerprint)
    ensures g != f
  {
    [if f[0] == 0 then 1 else 0] + f[1..]
  }

  function TimeBound(t: uint64): Bound {
    Bound(t, [])
  }

  /** A range of 32 items with a fingerprint that is not theirs. */
  ghost function Mismatch(h: Hash, i: nat): Range
    requires 32 * i + 32 <= ITEMS
  {
    Range(TimeBound(32 * i + 32), Print(OtherPrint(FingerprintOf(h, Ticks(ITEMS)[32 * i..32 * i + 32]))))
  }

  ghost function Mismatches(h: Hash, k: nat): seq<Range>
    requires 32 * k <= ITEMS
  {
    if k == 0 then [] else Mismatches(h, k - 1) + [Mismatch(h, k - 1)]
  }

  lemma {:induction false} MismatchesOrdered(h: Hash, k: nat)
    requires 32 * k <= ITEMS
    ensures All(Ordered, 0, Mismatches(h, k)) && EndOf(0, Mismatches(h, k)) == BoundRank(TimeBound(32 * k))
  {
    hide Rank, BoundRank, All, FingerprintOf;
    if k == 0 {
      BoundRankFacts(ZERO_ITEM);
      NothingToClaim(Ordered, 0);
    } else {
      MismatchesOrdered(h, k - 1);
      AllSnoc(Ordered, Mismatches(h, k - 1), Mismatch(h, k - 1));
      MeetsOrder(EndOf(0, Mismatches(h, k - 1)), Mismatch(h, k - 1));
      BoundsInTime(TimeBound(32 * k - 32), TimeBound(32 * k));
    }
  }

  lemma BoundsInTime(a: Bound, b: Bound)
    requires a.timestamp < b.timestamp
    ensures BoundRank(a) < BoundRank(b)
  {
    RankOfBound(BoundItem(a), b);
  }

  /** The items asked about by one range. */
  lemma MismatchItems(i: nat)
    requires 32 * i + 32 <= ITEMS
    ensures Within(Ticks(ITEMS), BoundRank(TimeBound(32 * i)), BoundRank(TimeBound(32 * i + 32)))
            == Ticks(ITEMS)[32 * i..32 * i + 32]
  {
    hide Rank, LowerBound, BoundRank;
    TicksBelow(ITEMS, 32 * i);
    TicksBelow(ITEMS, 32 * i + 32);
  }

  lemma PrintSizeAtLeast(last: uint64, r: Range)
    requires r.payload.Print?
    ensures |RangeBytes(last, r)| >= 19
  {
    hide VarInt;
    VarIntAtMostTen(0);
    VarIntAtMostTen(1);
    VarIntAtMostTen(((r.upper.timestamp - last) % U64 + 1) % U64);
    VarIntAtMostTen(|r.upper.prefix|);
  }

  lemma {:induction false} PrintsSizeAtLeast(last: uint64, rs: seq<Range>)
    requires forall r :: r in rs ==> r.payload.Print?
    ensures |RangesBytes(last, rs)| >= 19 * |rs|
    decreases |rs|
  {
    hide RangeBytes;
    if rs != [] {
      assert rs[0] in rs;
      PrintSizeAtLeast(last, rs[0]);
      forall r | r in rs[1..] ensures r in rs {
      }
      PrintsSizeAtLeast(rs[0].upper.timestamp, rs[1..]);
    }
  }

  /** A step that answers a mismatch over 32 items without filling the frame appends sixteen fingerprints. */
  lemma MismatchGrows(p: Party, st: State, r: Range, mine: seq<Item>)
    requires st.prevIndex <= |p.items| && !st.stopped && !st.failed && !Backward(p, st, r) && !Step(p, st, r).stopped
    requires mine == Section(p, st, r) && |mine| >= 2 * BUCKETS
    requires r.payload.Print? && r.payload.fingerprint != FingerprintOf(p.hash, mine)
    ensures Size(Step(p, st, r).out) >= Size(st.out) + 304
  {
    hide Upper, Section, FingerprintOf, SplitRange, RangesBytes, Backward;
    var rs := SplitRange(p.hash, mine, r.upper);
    assert Step(p, st, r).out == st.out + (PendingSkip(st) + rs);
    SizeOfAppended(st.out, PendingSkip(st) + rs);
    RangesBytesConcat(LastTimestamp(0, st.out), PendingSkip(st), rs);
    BucketsArePrints(p.hash, mine, r.upper);
    PrintsSizeAtLeast(LastTimestamp(LastTimestamp(0, st.out), PendingSkip(st)), rs);
  }

  lemma SenderOk(h: Hash)
    ensures LimitOk(Sender(h).frameSizeLimit) && AscendingItems(Sender(h).items) && BelowInfinity(Sender(h).items)
  {
    hide AscendingItems;
    TicksAscend(ITEMS);
  }

  /** As long as the frame is not full, each mismatch takes at least 304 bytes. */
  lemma {:induction false} MismatchesGrow(h: Hash, k: nat)
    requires 32 * k <= ITEMS && !Run(Sender(h), Mismatches(h, k)).stopped
    ensures Size(Run(Sender(h), Mismatches(h, k)).out) >= 1 + 304 * k
  {
    hide Rank, LowerBound, BoundRank, Run, Step, FingerprintOf, AscendingItems, BelowInfinity, Within, Backward,
         Section, Size, All, Ticks, Tiling, SkipsApart;
    var p := Sender(h);
    if k == 0 {
      StartRun(p);
      StartSize();
    } else {
      var q, r := Mismatches(h, k - 1), Mismatch(h, k - 1);
      RunSnoc(p, q, r);
      assert !Run(p, q).stopped;
      MismatchesGrow(h, k - 1);
      SenderOk(h);
      MismatchesOrdered(h, k - 1);
      MismatchesOrdered(h, k);
      PlaceBefore(p, q, r);
      var st := Run(p, q);
      SectionAt(p, q, st, r);
      AnsweredBasics(p, q, st);
      MismatchItems(k - 1);
      TicksAscend(ITEMS);
      MismatchGrows(p, st, r, Section(p, st, r));
    }
  }

  /** The frame fills up over one of thirteen mismatches. */
  lemma {:induction false} FirstDrop(h: Hash, n: nat) returns (k: nat)
    requires 32 * n <= ITEMS && Run(Sender(h), Mismatches(h, n)).stopped
    ensures k < n && !Run(Sender(h), Mismatches(h, k)).stopped && Run(Sender(h), Mismatches(h, k + 1)).stopped
  {
    hide Run, Mismatch, Sender;
    if n == 0 {
      NotStoppedAtStart(Sender(h));
    } else if Run(Sender(h), Mismatches(h, n - 1)).stopped {
      k := FirstDrop(h, n - 1);
    } else {
      k := n - 1;
    }
  }

  /** For every hash function, a query of at most thirteen ranges in order makes the sender drop a chunk with own
      items in the gap, so that the closing fingerprint is not that of the items the receiver takes it for. */
  lemma DropExample(h: Hash) returns (q: seq<Range>, r: Range)
    ensures var p := Sender(h);
            && LimitOk(p.frameSizeLimit) && AscendingItems(p.items) && BelowInfinity(p.items)
            && All(Ordered, 0, q + [r]) && BoundRank(r.upper) <= BoundRank(INFINITY) && |q| < 13
            && Dropped(p, q, r) && Gap(p, q, r) != []
            && p.items[LowerBound(p.items, BoundRank(r.upper))..]
               != Within(p.items, EndOf(0, Run(p, q).out), BoundRank(INFINITY))
  {
    hide Rank, LowerBound, BoundRank, Run, FingerprintOf, AscendingItems, BelowInfinity, Within, Size, All, Ticks,
         Tiling, SkipsApart;
    var p := Sender(h);
    SenderOk(h);
    if !Run(p, Mismatches(h, 13)).stopped {
      MismatchesGrow(h, 13);
      FrameBound(p, Mismatches(h, 13));
      assert false;
    }
    var k := FirstDrop(h, 13);
    q, r := Mismatches(h, k), Mismatch(h, k);
    MismatchesOrdered(h, k);
    MismatchesOrdered(h, k + 1);
    MismatchesLength(h, k);
    BoundsInTime(r.upper, INFINITY);
    GapHasItem(p, q, r, k);
    ClosingAfterDrop(p, q, r);
  }

  lemma {:induction false} MismatchesLength(h: Hash, k: nat)
    requires 32 * k <= ITEMS
    ensures |Mismatches(h, k)| == k
  {
    if k > 0 {
      MismatchesLength(h, k - 1);
    }
  }

  /** The first item of the dropped range lies in the gap. */
  lemma GapHasItem(p: Party, q: seq<Range>, r: Range, k: nat)
    requires LimitOk(p.frameSizeLimit) && AscendingItems(p.items) && p.items == Ticks(ITEMS) && 32 * k + 32 <= ITEMS
    requires All(Ordered, 0, q + [r]) && !Run(p, q).stopped
    requires EndOf(0, q) == BoundRank(TimeBound(32 * k)) && r.upper == TimeBound(32 * k + 32)
    ensures Gap(p, q, r) != []
  {
    hide Rank, LowerBound, BoundRank, Run, AscendingItems, Within, All, Tiling, SkipsApart;
    PlaceBefore(p, q, r);
    var sent, x := EndOf(0, Run(p, q).out), p.items[32 * k];
    TickRank(32 * k);
    BoundsInTime(TimeBound(32 * k), r.upper);
    WithinItems(p.items, sent, BoundRank(r.upper));
    assert x in p.items && sent <= Rank(x) < BoundRank(r.upper);
  }
}
