/** When a storage refuses a range of positions, so that a query fails although it can be read. */
module RefusedRanges {
  import opened Types
  import opened SortedItems
  import opened Wire
  import opened Splits
  import opened Replies
  import opened FrameLimits

  /** The place a tree has reached after some ranges: where it found the last of their bounds that has items below
      it. */
  ghost function Reached(items: seq<Item>, q: seq<Range>): nat {
    if q == [] then 0
    else
      var n := LowerBound(items, BoundRank(q[|q| - 1].upper));
      if n > 0 then n else Reached(items, q[..|q| - 1])
  }

  /** Range `i` is more than a Skip, and its bound has items below it but fewer than the place reached. */
  ghost predicate RefusedAt(items: seq<Item>, q: seq<Range>, i: nat)
    requires i < |q|
  {
    !q[i].payload.Skip? && 0 < LowerBound(items, BoundRank(q[i].upper)) < Reached(items, q[..i])
  }

  /** A range is refused while the frame is not full. */
  ghost predicate SomeRefused(p: Party, q: seq<Range>) {
    exists i :: 0 <= i < |q| && RefusedAt(p.items, q, i) && !Run(p, q[..i]).stopped
  }

  lemma UpperInTree(p: Party, st: State, r: Range)
    requires p.tree && st.prevIndex <= |p.items|
    ensures var n := LowerBound(p.items, BoundRank(r.upper));
            Upper(p, st, r) == if n > 0 then n else st.prevIndex
  {
    hide Rank, BoundRank;
  }

  /** A range that does not fill the frame is covered up to the place the storage finds. */
  lemma StepReaches(p: Party, st: State, r: Range)
    requires st.prevIndex <= |p.items| && Roomy(p, st) && !st.stopped && !st.failed && !Refused(p, st, r)
    requires !Step(p, st, r).stopped
    ensures !Step(p, st, r).failed && Step(p, st, r).prevIndex == Upper(p, st, r)
  {
    hide Upper, Size, FingerprintOf, SplitRange, Compare, ListCount, Roomy;
    if !Backward(p, st, r) && r.payload.IdList? && !p.initiator {
      var mine := Section(p, st, r);
      var listing := Listing(p, st, mine, r.upper);
      if |listing.payload.ids| < |mine| {
        TruncatedStep(p, st, r, mine, |listing.payload.ids|);
      }
    }
  }

  /** The query so far decides whether the next range is refused. */
  lemma RefusedNext(p: Party, q: seq<Range>, r: Range)
    requires p.tree && Run(p, q).prevIndex == Reached(p.items, q)
    ensures Refused(p, Run(p, q), r) <==> RefusedAt(p.items, q + [r], |q|)
  {
    hide Upper, Reached, LowerBound, BoundRank, Run;
    UpperInTree(p, Run(p, q), r);
    assert (q + [r])[..|q|] == q;
  }

  lemma SomeRefusedSnoc(p: Party, q: seq<Range>, r: Range)
    ensures SomeRefused(p, q + [r])
       <==> SomeRefused(p, q) || (RefusedAt(p.items, q + [r], |q|) && !Run(p, q).stopped)
  {
    hide Reached, LowerBound, BoundRank, Run;
    var all := q + [r];
    assert all[..|q|] == q;
    forall i | 0 <= i < |q|
      ensures all[..i] == q[..i] && (RefusedAt(p.items, all, i) <==> RefusedAt(p.items, q, i))
    {
      assert all[..i] == q[..i];
    }
    if SomeRefused(p, q) {
      var i :| 0 <= i < |q| && RefusedAt(p.items, q, i) && !Run(p, q[..i]).stopped;
      assert RefusedAt(p.items, all, i);
    }
    if SomeRefused(p, all) {
      var i :| 0 <= i < |all| && RefusedAt(p.items, all, i) && !Run(p, all[..i]).stopped;
      assert i < |q| ==> RefusedAt(p.items, q, i);
    }
  }

  /** A tree refuses a query exactly if, before its frame is full, one of its ranges is more than a Skip and has a
      bound with items below it but fewer than the place reached. Otherwise the query goes on from where the last
      bound with items below it was found, which may be further back. */
  lemma {:induction false} TreeFailsExactly(p: Party, q: seq<Range>)
    requires p.tree && LimitOk(p.frameSizeLimit)
    ensures Run(p, q).failed <==> SomeRefused(p, q)
    ensures !Run(p, q).failed && !Run(p, q).stopped ==> Run(p, q).prevIndex == Reached(p.items, q)
    decreases |q|
  {
    hide Run, RefusedAt, Refused, Step, LowerBound, BoundRank, SomeRefused, Roomy;
    if q == [] {
      NothingRefused(p);
    } else {
      var front, r := q[..|q| - 1], q[|q| - 1];
      assert q == front + [r];
      TreeFailsExactly(p, front);
      RunSnoc(p, front, r);
      SomeRefusedSnoc(p, front, r);
      RunRoomy(p, front);
      NextRange(p, front, r);
    }
  }

  lemma NothingRefused(p: Party)
    ensures !SomeRefused(p, []) && Run(p, []) == START
  {
    StartRun(p);
  }

  lemma NextRange(p: Party, q: seq<Range>, r: Range)
    requires p.tree && Roomy(p, Run(p, q))
    requires !Run(p, q).failed && !Run(p, q).stopped ==> Run(p, q).prevIndex == Reached(p.items, q)
    ensures var st, st' := Run(p, q), Step(p, Run(p, q), r);
            && (st'.failed <==> st.failed || (!st.stopped && RefusedAt(p.items, q + [r], |q|)))
            && (!st'.failed && !st'.stopped ==> st'.prevIndex == Reached(p.items, q + [r]))
  {
    hide Run, RefusedAt, Refused, LowerBound, BoundRank, Roomy, Answer, Section, Size, Place;
    var st := Run(p, q);
    if !st.stopped && !st.failed {
      RefusedNext(p, q, r);
      if !Refused(p, st, r) && !Step(p, st, r).stopped {
        StepReaches(p, st, r);
        UpperInTree(p, st, r);
        assert (q + [r])[..|q|] == q;
      }
    }
  }

  /** Without a frame limit nothing is cut short, so the bounds alone decide. */
  lemma TreeFailsUnlimited(p: Party, q: seq<Range>)
    requires p.tree && p.frameSizeLimit == 0
    ensures Run(p, q).failed <==> exists i :: 0 <= i < |q| && RefusedAt(p.items, q, i)
  {
    hide Run, RefusedAt;
    TreeFailsExactly(p, q);
    forall i | 0 <= i < |q| ensures !Run(p, q[..i]).stopped {
      NeverStops(p, q[..i]);
    }
  }

  lemma {:induction false} NeverStops(p: Party, q: seq<Range>)
    requires p.frameSizeLimit == 0
    ensures !Run(p, q).stopped
    decreases |q|
  {
    hide Answer, Section, Size, Place, Refused;
    if q != [] {
      NeverStops(p, q[..|q| - 1]);
    }
  }

  // ---------- What was written before a refusal ----------

  /** A responder that lists announces a pending skip before the storage refuses the range; otherwise nothing is written
      for the refused range. The timestamp written last remembers it. */
  lemma {:induction false} RefusedTimestamp(p: Party, q: seq<Range>) returns (i: nat)
    requires Run(p, q).failed
    ensures i < |q| && !Run(p, q[..i]).failed && Run(p, q[..i + 1]) == Run(p, q)
    ensures var before := Run(p, q[..i]);
            LastWritten(Run(p, q)) == if q[i].payload.IdList? && !p.initiator && before.skip
                                      then before.prevBound.timestamp else LastTimestamp(0, before.out)
    decreases |q|
  {
    hide Step, Answer, Section, Size;
    var n := |q| - 1;
    var front := q[..n];
    if Run(p, front).failed {
      i := RefusedTimestamp(p, front);
      assert front[..i] == q[..i] && front[..i + 1] == q[..i + 1];
    } else {
      i := n;
      assert q[..n + 1] == q;
      StepFails(p, Run(p, front), q[n]);
    }
  }

  lemma StepFails(p: Party, st: State, r: Range)
    requires st.prevIndex <= |p.items| && !st.failed && Step(p, st, r).failed
    ensures LastWritten(Step(p, st, r)) == if r.payload.IdList? && !p.initiator && st.skip
                                           then st.prevBound.timestamp else LastTimestamp(0, st.out)
  {
    hide Answer, Section, Size, Refused, Place;
    assert st.out + [] == st.out;
  }
}
