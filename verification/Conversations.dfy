/** Whole runs of the protocol between a client and a server whose items do not change meanwhile. */
module Conversations {
  import opened Types
  import opened SortedItems
  import opened Wire
  import opened Splits
  import opened Coverage
  import opened Replies
  import opened FrameLimits
  import opened Reports

  datatype Setup = Setup(client: Party, server: Party)

  ghost predicate PartyOk(p: Party) {
    AscendingItems(p.items) && BelowInfinity(p.items) && LimitOk(p.frameSizeLimit)
  }

  ghost predicate SetupOk(s: Setup) {
    PartyOk(s.client) && PartyOk(s.server) && s.client.initiator && !s.server.initiator
  }

  /** The message the client is about to send, and what it has reported before. An empty message is not sent: the
      run is over. */
  datatype Round = Round(message: seq<Range>, have: seq<Id>, need: multiset<Id>)

  ghost function Opening(p: Party): seq<Range> {
    SplitRange(p.hash, p.items, INFINITY)
  }

  ghost function Next(s: Setup, before: Round): Round {
    var st := Run(s.client, Run(s.server, before.message).out);
    Round(st.out, before.have + st.have, before.need + st.need)
  }

  ghost function After(s: Setup, n: nat): Round {
    if n == 0 then Round(Opening(s.client), [], multiset{})
    else
      var before := After(s, n - 1);
      if before.message == [] then before else Next(s, before)
  }

  lemma WholeSection(p: Party)
    requires PartyOk(p)
    ensures Within(p.items, 0, BoundRank(INFINITY)) == p.items && 0 < BoundRank(INFINITY)
  {
    hide Rank, LowerBound, BoundRank;
    BoundRankFacts(ZERO_ITEM);
    BoundRankFacts(Item(0, Zeros(32)));
    LowerBoundStart(p.items);
    LowerBoundSplits(p.items, BoundRank(INFINITY));
    var n := LowerBound(p.items, BoundRank(INFINITY));
    if n < |p.items| {
      InfinityIsLast(p.items, n);
      assert false;
    }
  }

  /** The first message tiles the whole space. */
  lemma OpeningTiles(p: Party)
    requires PartyOk(p)
    ensures Tiling(p, Opening(p)) && All(NotEmpty, 0, Opening(p)) && EndOf(0, Opening(p)) == BoundRank(INFINITY)
    ensures All(Small(p.items, (|p.items| + 15) / 16), 0, Opening(p))
    ensures |p.items| < 2 * BUCKETS ==> All(Printless, 0, Opening(p))
    ensures Unskipped(Opening(p))
  {
    hide Rank, LowerBound, BoundRank, Within, SplitRange, All;
    WholeSection(p);
    SplitTiles(p.hash, p.items, 0, INFINITY);
    if |p.items| < 2 * BUCKETS {
      AllOne(Printless, 0, Opening(p)[0]);
    }
  }

  // ---------- Soundness ----------

  /** Everything reported is a difference. */
  ghost predicate Sound(s: Setup, have: seq<Id>, need: multiset<Id>) {
    && (forall id :: id in have ==> HasId(s.client.items, id) && !HasId(s.server.items, id))
    && (forall id :: id in need ==> HasId(s.server.items, id) && !HasId(s.client.items, id))
  }

  lemma ReportsAreSound(s: Setup, q: seq<Range>, st: State)
    requires SameIds(s.client.items, s.server.items) && ReportsExactly(s.client.items, s.server.items, q, st)
    ensures Sound(s, st.have, st.need)
  {
    hide Rank, ListedAt;
    var a, b := s.client.items, s.server.items;
    forall id | id in st.have || id in st.need
      ensures id in st.have ==> HasId(a, id) && !HasId(b, id)
      ensures id in st.need ==> HasId(b, id) && !HasId(a, id)
    {
      assert HasId(a + b, id);
      var x: Item :| x in a + b && x.id == id;
      assert ReportsItem(a, b, q, st, x);
      OnlyItemOf(a, b, x);
    }
  }

  lemma OnlyItemOf(a: seq<Item>, b: seq<Item>, x: Item)
    requires SameIds(a, b) && x in a + b
    ensures HasId(a, x.id) <==> x in a
    ensures HasId(b, x.id) <==> x in b
  {
    if HasId(a, x.id) {
      var y :| y in a && y.id == x.id;
      assert y in a + b;
    }
    if HasId(b, x.id) {
      var y :| y in b && y.id == x.id;
      assert y in a + b;
    }
  }

  /** Under any frame limits on either side and for any fingerprint function, every id reported as `have` is held by the
      client and not by the server, and every id reported as `need` the reverse, at any point of a run. */
  lemma {:induction false} RunIsSound(s: Setup, n: nat)
    requires SetupOk(s) && SameIds(s.client.items, s.server.items)
    ensures Sound(s, After(s, n).have, After(s, n).need)
    ensures Honest(s.client, After(s, n).message)
  {
    hide Rank, LowerBound, BoundRank, All, AscendingItems, BelowInfinity, Run, ReportsExactly, SameIds, HasId, Opening;
    if n == 0 {
      OpeningTiles(s.client);
      ExactIsListed(s.client.hash, s.client.items, 0, Opening(s.client));
    } else {
      RunIsSound(s, n - 1);
      var before := After(s, n - 1);
      if before.message != [] {
        RepliesHonestly(s.server, before.message);
        var q := Run(s.server, before.message).out;
        RepliesHonestly(s.client, q);
        var seen := MessageReports(s.client, s.server.items, q);
        ReportsAreSound(s, seen, Run(s.client, q));
      }
    }
  }

  // ---------- Exactness ----------

  ghost predicate CollisionFreeAt(s: Setup, lo: int, hi: int) {
    var a, b := Within(s.client.items, lo, hi), Within(s.server.items, lo, hi);
    FingerprintOf(s.client.hash, a) == FingerprintOf(s.server.hash, b) ==> a == b
  }

  /** Fingerprints tell the two sides apart wherever they differ. */
  ghost predicate CollisionFree(s: Setup) {
    forall lo, hi :: lo <= hi ==> CollisionFreeAt(s, lo, hi)
  }

  /** Places covered by a range other than a Skip are wholly unreported, all others are fully reported. */
  ghost predicate Settled(s: Setup, m: seq<Range>, have: seq<Id>, need: multiset<Id>) {
    forall x :: x in s.client.items + s.server.items ==> SettledItem(s, m, have, need, x)
  }

  ghost predicate SettledItem(s: Setup, m: seq<Range>, have: seq<Id>, need: multiset<Id>, x: Item) {
    && multiset(have)[x.id] == Once(!Live(0, m, Rank(x)) && x in s.client.items && x !in s.server.items)
    && need[x.id] == Once(!Live(0, m, Rank(x)) && x in s.server.items && x !in s.client.items)
  }

  /** Where a live range needs no answer and is not a list, both sides hold the same items. */
  lemma MatchedIsSame(s: Setup, p: Party, other: Party, q: seq<Range>, x: Item)
    requires SetupOk(s) && CollisionFree(s) && (s == Setup(p, other) || s == Setup(other, p))
    requires Tiling(other, q) && Live(0, q, Rank(x)) && !ListedAt(q, Rank(x)) && !Asks(p, q, Rank(x))
    ensures x in p.items <==> x in other.items
  {
    hide Rank, LowerBound, BoundRank, All, AscendingItems, FingerprintOf, Within, CellAt;
    var c := CellAt(0, q, Rank(x)).value;
    var lo, hi := c.lower, BoundRank(c.range.upper);
    CellMeets(Exact(other.hash, other.items), 0, q, Rank(x));
    CellSpan(0, q, Rank(x));
    assert CollisionFreeAt(s, lo, hi);
    WithinItems(p.items, lo, hi);
    WithinItems(other.items, lo, hi);
    assert x in p.items <==> x in Within(p.items, lo, hi);
    assert x in other.items <==> x in Within(other.items, lo, hi);
  }

  lemma ServerKeepsSettled(s: Setup, m: seq<Range>, have: seq<Id>, need: multiset<Id>)
    requires SetupOk(s) && CollisionFree(s) && s.server.frameSizeLimit == 0
    requires Tiling(s.client, m) && Settled(s, m, have, need)
    ensures var st := Run(s.server, m); Tiling(s.server, st.out) && Settled(s, st.out, have, need)
  {
    hide Rank, LowerBound, BoundRank, All, AscendingItems, FingerprintOf, Within, CellAt, Run, AnsweredStrictly,
         CollisionFree, SkipsApart;
    var st := Run(s.server, m);
    ReplyTiles(s.server, m);
    forall x | x in s.client.items + s.server.items ensures SettledItem(s, st.out, have, need, x) {
      assert SettledItem(s, m, have, need, x);
      assert Live(0, st.out, Rank(x)) <==> Asks(s.server, m, Rank(x));
      if Live(0, m, Rank(x)) && !Live(0, st.out, Rank(x)) {
        MatchedIsSame(s, s.server, s.client, m, x);
      }
    }
  }

  lemma ClientKeepsSettled(s: Setup, q: seq<Range>, have: seq<Id>, need: multiset<Id>)
    requires SetupOk(s) && CollisionFree(s) && SameIds(s.client.items, s.server.items) && s.client.frameSizeLimit == 0
    requires Tiling(s.server, q) && Settled(s, q, have, need)
    ensures var st := Run(s.client, q); Tiling(s.client, st.out) && Settled(s, st.out, have + st.have, need + st.need)
  {
    hide Rank, LowerBound, BoundRank, All, AscendingItems, FingerprintOf, Within, CellAt, Run, AnsweredStrictly,
         CollisionFree, SkipsApart, SameIds, HasId;
    var st := Run(s.client, q);
    var a, b := s.client.items, s.server.items;
    ReplyTiles(s.client, q);
    ExactIsListed(s.server.hash, b, 0, q);
    var seen := MessageReports(s.client, b, q);
    forall x | x in a + b ensures SettledItem(s, st.out, have + st.have, need + st.need, x) {
      assert SettledItem(s, q, have, need, x);
      assert ReportsItem(a, b, q, st, x);
      assert multiset(have + st.have) == multiset(have) + multiset(st.have);
      assert Live(0, st.out, Rank(x)) <==> Asks(s.client, q, Rank(x));
      if Live(0, q, Rank(x)) && !Live(0, st.out, Rank(x)) && !ListedAt(q, Rank(x)) {
        MatchedIsSame(s, s.client, s.server, q, x);
      }
    }
  }

  lemma OpeningSettled(s: Setup)
    requires SetupOk(s)
    ensures Tiling(s.client, Opening(s.client)) && Settled(s, Opening(s.client), [], multiset{})
  {
    hide Rank, LowerBound, BoundRank, All, AscendingItems, CellAt, Opening;
    OpeningTiles(s.client);
    var m := Opening(s.client);
    forall x | x in s.client.items + s.server.items ensures SettledItem(s, m, [], multiset{}, x) {
      BoundRankFacts(x);
      CellSpan(0, m, Rank(x));
    }
  }

  /** The invariant of a run without frame limits: what is skipped is fully reported, everything else is wholly
      unreported. */
  lemma {:induction false} RunSettles(s: Setup, n: nat)
    requires SetupOk(s) && CollisionFree(s) && SameIds(s.client.items, s.server.items)
    requires s.client.frameSizeLimit == 0 && s.server.frameSizeLimit == 0
    ensures var r := After(s, n); Tiling(s.client, r.message) && Settled(s, r.message, r.have, r.need)
  {
    hide PartyOk, Tiling, Settled, CollisionFree, SameIds, Run, Opening;
    if n == 0 {
      OpeningSettled(s);
    } else {
      RunSettles(s, n - 1);
      var before := After(s, n - 1);
      if before.message != [] {
        ServerKeepsSettled(s, before.message, before.have, before.need);
        ClientKeepsSettled(s, Run(s.server, before.message).out, before.have, before.need);
      }
    }
  }

  /** When a run without frame limits is over, the client has reported exactly the ids only it holds and exactly the ids
      only the server holds, each once. */
  lemma RunIsExact(s: Setup, n: nat)
    requires SetupOk(s) && CollisionFree(s) && SameIds(s.client.items, s.server.items)
    requires s.client.frameSizeLimit == 0 && s.server.frameSizeLimit == 0
    requires After(s, n).message == []
    ensures forall id :: multiset(After(s, n).have)[id] == Once(HasId(s.client.items, id) && !HasId(s.server.items, id))
    ensures forall id :: After(s, n).need[id] == Once(HasId(s.server.items, id) && !HasId(s.client.items, id))
  {
    hide PartyOk, CollisionFree, SameIds, After, Rank;
    RunSettles(s, n);
    RunIsSound(s, n);
    var a, b, r := s.client.items, s.server.items, After(s, n);
    forall id
      ensures multiset(r.have)[id] == Once(HasId(a, id) && !HasId(b, id))
      ensures r.need[id] == Once(HasId(b, id) && !HasId(a, id))
    {
      if HasId(a + b, id) {
        var x: Item :| x in a + b && x.id == id;
        assert SettledItem(s, [], r.have, r.need, x);
        OnlyItemOf(a, b, x);
      } else {
        NoIdOfSum(a, b, id);
        assert id !in r.have && id !in r.need;
      }
    }
  }

  lemma NoIdOfSum(a: seq<Item>, b: seq<Item>, id: Id)
    requires !HasId(a + b, id)
    ensures !HasId(a, id) && !HasId(b, id)
  {
    assert forall x :: x in a ==> x in a + b;
    assert forall x :: x in b ==> x in a + b;
  }

  // ---------- Termination ----------

  ghost predicate AboutPrints(claim: Claim) {
    claim.Small? || claim.Printless?
  }

  lemma {:induction false} NoPrints(claim: Claim, lo: int, rs: seq<Range>)
    requires AboutPrints(claim) && forall r :: r in rs ==> !r.payload.Print?
    ensures All(claim, lo, rs)
    decreases |rs|
  {
    hide BoundRank;
    if rs != [] {
      assert rs[0] in rs;
      forall r | r in rs[1..] ensures r in rs {
      }
      NoPrints(claim, BoundRank(rs[0].upper), rs[1..]);
    }
  }

  /** What is claimed about fingerprints stays true if it is true of every split. */
  lemma StepKeeps(p: Party, q: seq<Range>, st: State, r: Range, claim: Claim)
    requires AscendingItems(p.items) && p.frameSizeLimit == 0 && st.prevIndex <= |p.items|
    requires Answered(p, q, st) && EndOf(0, q) <= BoundRank(r.upper) && AboutPrints(claim) && All(claim, 0, st.out)
    requires r.payload.Print? ==>
             All(claim, EndOf(0, q), SplitRange(p.hash, Within(p.items, EndOf(0, q), BoundRank(r.upper)), r.upper))
    ensures All(claim, 0, Step(p, st, r).out)
  {
    hide Rank, LowerBound, BoundRank, All, AscendingItems, Within, SplitRange, Answered, Section, AnsweredStrictly,
         Answer, NeedsAnswer, Tiling, Step, Backward;
    var lo := EndOf(0, q);
    AnsweredBasics(p, q, st);
    SectionAt(p, q, st, r);
    StepUnlimited(p, st, r);
    var mine := Section(p, st, r);
    if !NeedsAnswer(p, Cell(lo, r)) {
      AnswersQuietly(p, st, r, mine, lo);
    } else {
      var rs := AnswersLoudly(p, st, r, mine, lo);
      var mid := st.out + PendingSkip(st);
      SkipAppended(p, q, st);
      AllConcat(claim, 0, st.out, PendingSkip(st));
      NoPrints(claim, EndOf(0, st.out), PendingSkip(st));
      AllConcat(claim, 0, mid, rs);
      if !r.payload.Print? {
        NoPrints(claim, lo, rs);
      }
    }
  }

  /** If every fingerprint range of a message splits into ranges with the claim, the reply has the claim. */
  lemma {:induction false} RunKeeps(p: Party, q: seq<Range>, premise: Claim, claim: Claim)
    requires AscendingItems(p.items) && p.frameSizeLimit == 0 && All(Ordered, 0, q) && All(premise, 0, q)
             && AboutPrints(claim)
    requires forall lo, r :: SplitKeeps(p, premise, claim, lo, r)
    ensures All(claim, 0, Run(p, q).out)
    decreases |q|
  {
    hide Rank, LowerBound, BoundRank, Step, Answered, AnsweredStrictly, AscendingItems, All, Meets, Within, SplitRange,
         AboutPrints;
    if q == [] {
      NoPrints(claim, 0, Run(p, q).out);
    } else {
      var front, r := q[..|q| - 1], q[|q| - 1];
      assert q == front + [r];
      AllSnoc(Ordered, front, r);
      AllSnoc(premise, front, r);
      MeetsOrder(EndOf(0, front), r);
      RunKeeps(p, front, premise, claim);
      ReplyTiles(p, front);
      assert SplitKeeps(p, premise, claim, EndOf(0, front), r);
      StepKeeps(p, front, Run(p, front), r, claim);
    }
  }

  ghost predicate SplitKeeps(p: Party, premise: Claim, claim: Claim, lo: int, r: Range) {
    (lo <= BoundRank(r.upper) && r.payload.Print? && Meets(premise, lo, r)) ==>
      All(claim, lo, SplitRange(p.hash, Within(p.items, lo, BoundRank(r.upper)), r.upper))
  }

  /** Ranges inside a section cover no more items than the section. */
  lemma {:induction false} NestedIsSmall(items: seq<Item>, lo: int, hi: int, most: nat, start: int, rs: seq<Range>)
    requires AscendingItems(items) && lo <= start && All(Ordered, start, rs) && EndOf(start, rs) <= hi
    requires |Within(items, lo, hi)| <= most
    ensures All(Small(items, most), start, rs)
    decreases |rs|
  {
    hide Rank, LowerBound, BoundRank, Within;
    if rs != [] {
      var next := BoundRank(rs[0].upper);
      OrderedEnd(next, rs[1..]);
      assert EndOf(next, rs[1..]) == EndOf(start, rs);
      WithinShrinks(items, lo, hi, start, next);
      NestedIsSmall(items, lo, hi, most, next, rs[1..]);
    }
  }

  lemma {:induction false} SmallGrows(items: seq<Item>, most: nat, more: nat, lo: int, rs: seq<Range>)
    requires All(Small(items, most), lo, rs) && most <= more
    ensures All(Small(items, more), lo, rs)
    decreases |rs|
  {
    hide BoundRank;
    if rs != [] {
      SmallGrows(items, most, more, BoundRank(rs[0].upper), rs[1..]);
    }
  }

  /** The other side splits within the ranges it is asked about. */
  lemma ServerStaysInside(p: Party, q: seq<Range>, items: seq<Item>, most: nat)
    requires AscendingItems(p.items) && AscendingItems(items) && p.frameSizeLimit == 0
    requires All(Ordered, 0, q) && All(Small(items, most), 0, q)
    ensures All(Small(items, most), 0, Run(p, q).out)
  {
    hide Rank, LowerBound, BoundRank, AscendingItems, All, Within, SplitRange, Run;
    forall lo, r ensures SplitKeeps(p, Small(items, most), Small(items, most), lo, r) {
      if lo <= BoundRank(r.upper) && r.payload.Print? && Meets(Small(items, most), lo, r) {
        SplitTiles(p.hash, p.items, lo, r.upper);
        NestedIsSmall(items, lo, BoundRank(r.upper), most, lo, SplitRange(p.hash, Within(p.items, lo,
                      BoundRank(r.upper)), r.upper));
      }
    }
    RunKeeps(p, q, Small(items, most), Small(items, most));
  }

  /** The client's next fingerprints cover a sixteenth of its items, and there are none if there is little to split. */
  lemma ClientShrinks(p: Party, q: seq<Range>, most: nat)
    requires AscendingItems(p.items) && p.frameSizeLimit == 0
    requires All(Ordered, 0, q) && All(Small(p.items, most), 0, q)
    ensures All(Small(p.items, (most + 15) / 16), 0, Run(p, q).out)
    ensures most < 2 * BUCKETS ==> All(Printless, 0, Run(p, q).out)
  {
    hide Rank, LowerBound, BoundRank, AscendingItems, All, Within, SplitRange, Run;
    var premise, claim := Small(p.items, most), Small(p.items, (most + 15) / 16);
    forall lo, r
      ensures SplitKeeps(p, premise, claim, lo, r)
              && (most < 2 * BUCKETS ==> SplitKeeps(p, premise, Printless, lo, r))
    {
      if lo <= BoundRank(r.upper) && r.payload.Print? && Meets(premise, lo, r) {
        SplitTiles(p.hash, p.items, lo, r.upper);
        var mine := Within(p.items, lo, BoundRank(r.upper));
        var rs := SplitRange(p.hash, mine, r.upper);
        SmallGrows(p.items, (|mine| + 15) / 16, (most + 15) / 16, lo, rs);
        if most < 2 * BUCKETS {
          AllOne(Printless, lo, rs[0]);
        }
      }
    }
    RunKeeps(p, q, premise, claim);
    if most < 2 * BUCKETS {
      RunKeeps(p, q, premise, Printless);
    }
  }

  /** Without fingerprints a reply has none either. */
  lemma PrintlessStays(p: Party, q: seq<Range>)
    requires AscendingItems(p.items) && p.frameSizeLimit == 0 && All(Ordered, 0, q) && All(Printless, 0, q)
    ensures All(Printless, 0, Run(p, q).out)
  {
    hide Rank, LowerBound, BoundRank, AscendingItems, All, Within, SplitRange, Run;
    RunKeeps(p, q, Printless, Printless);
  }

  /** A client has nothing more to say to a message without fingerprints. */
  lemma {:induction false} ClientFinishes(p: Party, q: seq<Range>)
    requires p.initiator && p.frameSizeLimit == 0 && All(Printless, 0, q)
    ensures Run(p, q).out == [] && !Run(p, q).stopped
    decreases |q|
  {
    hide All, Step;
    if q != [] {
      var front, r := q[..|q| - 1], q[|q| - 1];
      assert q == front + [r];
      AllSnoc(Printless, front, r);
      ClientFinishes(p, front);
      NothingToSay(p, Run(p, front), r);
    }
  }

  lemma NothingToSay(p: Party, st: State, r: Range)
    requires p.initiator && p.frameSizeLimit == 0 && !r.payload.Print? && !st.stopped
    requires st.out == [] && st.prevIndex <= |p.items|
    ensures Step(p, st, r).out == [] && !Step(p, st, r).stopped
  {
    hide Refused, Section, Place, Compare, Size, Lost;
  }

  /** At most this many client items are covered by a fingerprint of message `n`. */
  ghost function Share(size: nat, n: nat): nat {
    if n == 0 then size else (Share(size, n - 1) + 15) / 16
  }

  function Pow16(n: nat): (p: int)
    ensures p >= 1
  {
    if n == 0 then 1 else 16 * Pow16(n - 1)
  }

  lemma {:induction false} ShareBound(size: nat, n: nat)
    requires Share(size, n) >= 2 * BUCKETS
    ensures size > 31 * Pow16(n)
    ensures forall i :: 0 <= i <= n ==> Share(size, i) >= 2 * BUCKETS
  {
    ShareAbove(size, n, 31);
    if n > 0 {
      ShareBound(size, n - 1);
    }
  }

  lemma {:induction false} ShareAbove(size: nat, n: nat, m: nat)
    requires Share(size, n) > m
    ensures size > m * Pow16(n)
  {
    if n > 0 {
      ShareAbove(size, n - 1, 16 * m);
      MulSixteen(m, Pow16(n - 1));
    }
  }

  lemma MulSixteen(m: int, p: int)
    ensures 16 * m * p == m * (16 * p)
  {
  }

  ghost predicate HasPrint(rs: seq<Range>) {
    exists r :: r in rs && r.payload.Print?
  }

  lemma NothingPrinted()
    ensures !HasPrint([])
  {
  }

  lemma {:induction false} PrintlessHasNone(lo: int, rs: seq<Range>)
    ensures All(Printless, lo, rs) <==> !HasPrint(rs)
    decreases |rs|
  {
    hide BoundRank;
    if rs != [] {
      PrintlessHasNone(BoundRank(rs[0].upper), rs[1..]);
      assert rs == [rs[0]] + rs[1..];
      if HasPrint(rs[1..]) {
        var r :| r in rs[1..] && r.payload.Print?;
        assert r in rs;
      }
      if HasPrint(rs) && !rs[0].payload.Print? {
        var r :| r in rs && r.payload.Print?;
        assert r in rs[1..];
      }
    }
  }

  ghost predicate Shrunk(s: Setup, m: seq<Range>, n: nat) {
    && All(Small(s.client.items, Share(|s.client.items|, n + 1)), 0, m)
    && (Share(|s.client.items|, n) < 2 * BUCKETS ==> All(Printless, 0, m))
  }

  /** The ranges of message `n` are in order and shrink by sixteen each round. */
  lemma {:induction false} RunShrinks(s: Setup, n: nat)
    requires SetupOk(s) && s.client.frameSizeLimit == 0 && s.server.frameSizeLimit == 0
    ensures All(Ordered, 0, After(s, n).message) && Shrunk(s, After(s, n).message, n)
  {
    hide Rank, LowerBound, BoundRank, All, AscendingItems, Run, Opening, AnsweredStrictly, SkipsApart;
    if n == 0 {
      OpeningTiles(s.client);
    } else {
      RunShrinks(s, n - 1);
      var before := After(s, n - 1);
      if before.message != [] {
        ReplyTiles(s.server, before.message);
        var q := Run(s.server, before.message).out;
        ReplyTiles(s.client, q);
        ServerStaysInside(s.server, before.message, s.client.items, Share(|s.client.items|, n));
        ClientShrinks(s.client, q, Share(|s.client.items|, n));
      } else {
        NoPrints(Small(s.client.items, Share(|s.client.items|, n + 1)), 0, []);
        NoPrints(Printless, 0, []);
      }
    }
  }

  /** Without frame limits and for any fingerprint function: if message `n` of the client, counted from 0, has a
      fingerprint, so had all before it and the client has more than 31 * 16^n items; if it has none, nothing follows
      the server's answer to it. */
  lemma {:induction false} RunIsShort(s: Setup, n: nat)
    requires SetupOk(s) && s.client.frameSizeLimit == 0 && s.server.frameSizeLimit == 0
    ensures HasPrint(After(s, n).message) ==> |s.client.items| > 31 * Pow16(n)
    ensures HasPrint(After(s, n).message) ==> forall i :: 0 <= i <= n ==> HasPrint(After(s, i).message)
    ensures !HasPrint(After(s, n).message) ==> After(s, n + 1).message == []
  {
    hide Rank, LowerBound, BoundRank, All, AscendingItems, Run, Opening, AnsweredStrictly, SkipsApart, HasPrint;
    RunShrinks(s, n);
    var m := After(s, n).message;
    PrintlessHasNone(0, m);
    if n > 0 {
      RunIsShort(s, n - 1);
      NothingPrinted();
    }
    if HasPrint(m) {
      ShareBound(|s.client.items|, n);
    } else if m != [] {
      ReplyTiles(s.server, m);
      PrintlessStays(s.server, m);
      ClientFinishes(s.client, Run(s.server, m).out);
    }
  }

  /** Every run without frame limits ends, after a number of messages logarithmic in the number of client items. */
  lemma {:induction false} RunEnds(s: Setup, n: nat) returns (last: nat)
    requires SetupOk(s) && s.client.frameSizeLimit == 0 && s.server.frameSizeLimit == 0
    ensures last >= n && After(s, last).message == []
    ensures last == n || last == n + 1 || |s.client.items| > 31 * Pow16(last - 2)
    decreases |s.client.items| - n
  {
    hide SetupOk, After, HasPrint;
    RunIsShort(s, n);
    if After(s, n).message == [] {
      last := n;
    } else if HasPrint(After(s, n).message) {
      PowAbove(n);
      last := RunEnds(s, n + 1);
    } else {
      last := n + 1;
    }
  }

  lemma {:induction false} PowAbove(n: nat)
    ensures Pow16(n) > n
  {
    if n > 0 {
      PowAbove(n - 1);
    }
  }
}
