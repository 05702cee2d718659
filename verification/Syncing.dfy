/** A client and a server that exchange messages as bytes until the client has nothing more to ask. */
module Syncing {
  import opened Types
  import opened SortedItems
  import opened Encoding
  import opened Wire
  import opened Grammar
  import opened Coverage
  import opened Splits
  import opened Replies
  import opened FrameLimits
  import opened Reports
  import opened Conversations
  import opened Messages
  import opened Storages
  import opened Negentropies

  /** A message that is read back as it was meant. */
  ghost predicate Sendable(m: seq<Range>) {
    All(Ordered, 0, m) && EndOf(0, m) <= BoundRank(INFINITY) && Chronological(0, m) && Countable(m)
  }

  lemma SentAndRead(initiator: bool, m: seq<Range>)
    requires Sendable(m)
    ensures QueryRanges(initiator, MessageBytes(m)) == Parse(m, None)
  {
    hide All, BoundRank, Chronological, Countable, ParseRanges, RangesBytes;
    RangesRoundTrip(0, m);
    assert MessageBytes(m)[1..] == RangesBytes(0, m);
  }

  lemma ReplySendable(p: Party, m: seq<Range>)
    requires PartyOk(p) && |p.items| < U64 && Sendable(m)
    ensures Sendable(Run(p, m).out)
  {
    hide All, BoundRank, Chronological, Countable, AscendingItems, BelowInfinity, Run;
    RepliesHonestly(p, m);
    RepliesInTime(p, m);
    RepliesCountably(p, m);
  }

  lemma OpeningSendable(p: Party)
    requires PartyOk(p) && |p.items| < U64
    ensures Sendable(Opening(p)) && OpeningBytes(0, p.hash, p.items) == MessageBytes(Opening(p)) && Opening(p) != []
  {
    hide All, BoundRank, Chronological, Countable, AscendingItems, BelowInfinity, SplitRange, RangesBytes;
    OpeningTiles(p);
    OpeningInTime(p.hash, p.items);
    SplitEnds(p.hash, p.items, INFINITY);
  }

  /** An answer to a message that is read back as it was meant. */
  lemma AnswerIs(p: Party, m: seq<Range>)
    requires Sendable(m) && PartyOk(p)
    ensures ReplyTo(p, true, MessageBytes(m)) == Ok(MessageBytes(Run(p, m).out))
    ensures FinalState(p, true, MessageBytes(m)) == Run(p, m)
  {
    hide Run, Sendable, RangesBytes, ParseRanges, AscendingItems, BelowInfinity;
    SentAndRead(p.initiator, m);
    SendableOrdered(m);
    OrderedNeverFails(p, m);
  }

  /** The two objects of a run: the client has started it, the server answers. */
  ghost predicate Running(client: Negentropy, server: Negentropy, s: Setup)
    reads client, server, client.storage.Objects(), server.storage.Objects()
  {
    && client.Valid() && server.Valid() && client.storage.IsOpen() && server.storage.IsOpen()
    && client != server && client !in server.storage.Objects() && server !in client.storage.Objects()
    && s == Setup(client.Self(), server.Self()) && SetupOk(s)
  }

  /** The bytes of the message of a round, and its reports. */
  ghost predicate Holds(msg: seq<byte>, have: seq<Id>, need: seq<Id>, r: Round) {
    msg == MessageBytes(r.message) && Sendable(r.message) && have == r.have && multiset(need) == r.need
  }

  /** One exchange: the server answers the client's message, the client answers that. */
  method ExchangeOnce(client: Negentropy, server: Negentropy, msg: seq<byte>, have: seq<Id>, need: seq<Id>,
          ghost s: Setup, ghost before: Round)
      returns (next: Option<seq<byte>>, have': seq<Id>, need': seq<Id>)
    requires Running(client, server, s) && Holds(msg, have, need, before)
    modifies client`lastTimestampIn, client`lastTimestampOut, server`lastTimestampIn, server`lastTimestampOut
    ensures Running(client, server, s)
    ensures var after := Next(s, before);
            && (next == None <==> after.message == [])
            && Holds(if next.Some? then next.value else MessageBytes([]), have', need', after)
  {
    hide Run, Sendable, ReplyTo, FinalState, SetupOk, QueryRanges, RangesBytes, Storage.Valid, LimitOk, RangesAt,
         ErrorAt, LastTimestamp, Decimal;
    RunningSizes(client, server, s);
    var q := before.message;
    AnswerIs(s.server, q);
    var response := server.Reconcile(msg);
    ghost var m := Run(s.server, q).out;
    ReplySendable(s.server, q);
    AnswerIs(s.client, m);
    ReplySendable(s.client, m);
    EmptyMessage(Run(s.client, m).out);
    var r;
    r, have', need' := client.ReconcileIds(response.value, have, need);
    next := r.value;
  }

  lemma SendableOrdered(m: seq<Range>)
    requires Sendable(m)
    ensures All(Ordered, 0, m)
  {
  }

  lemma RunningSizes(client: Negentropy, server: Negentropy, s: Setup)
    requires Running(client, server, s)
    ensures PartyOk(s.client) && PartyOk(s.server) && |s.client.items| < U64 && |s.server.items| < U64
    ensures s.client.initiator && !s.server.initiator
  {
  }

  /** The first message of a client that has not written anything before. */
  method Start(client: Negentropy, server: Negentropy) returns (msg: seq<byte>, ghost s: Setup)
    requires client.Valid() && server.Valid() && client.storage.IsOpen() && server.storage.IsOpen()
    requires client != server && client !in server.storage.Objects() && server !in client.storage.Objects()
    requires !client.isInitiator && !server.isInitiator && client.lastTimestampOut == 0
    requires BelowInfinity(client.storage.Contents()) && BelowInfinity(server.storage.Contents())
    modifies client`isInitiator, client`lastTimestampOut
    ensures Running(client, server, s) && s == Setup(old(client.Self()).(initiator := true), old(server.Self()))
    ensures Holds(msg, [], [], After(s, 0)) && After(s, 0).message != []
  {
    hide Sendable, RangesBytes, LimitOk, Opening, Storage.Valid, SplitRange, OpeningBytes, AscendingItems,
         BelowInfinity;
    client.ContentsAscend();
    server.ContentsAscend();
    s := Setup(client.Self().(initiator := true), server.Self());
    var r := client.Initiate();
    OpeningSendable(s.client);
    msg := r.value;
  }

  /** Without frame limits the loop ends, and then the reports are exactly the differences, each once. */
  method Sync(client: Negentropy, server: Negentropy) returns (have: seq<Id>, need: seq<Id>)
    requires client.Valid() && server.Valid() && client.storage.IsOpen() && server.storage.IsOpen()
    requires client != server && client !in server.storage.Objects() && server !in client.storage.Objects()
    requires !client.isInitiator && !server.isInitiator && client.lastTimestampOut == 0
    requires BelowInfinity(client.storage.Contents()) && BelowInfinity(server.storage.Contents())
    requires client.frameSizeLimit == 0 && server.frameSizeLimit == 0
    requires SameIds(client.storage.Contents(), server.storage.Contents())
    requires CollisionFree(Setup(client.Self().(initiator := true), server.Self()))
    modifies client, server
    ensures client.storage.Contents() == old(client.storage.Contents())
            && server.storage.Contents() == old(server.storage.Contents())
    ensures forall id ::
              multiset(have)[id] == Once(HasId(client.storage.Contents(), id) && !HasId(server.storage.Contents(), id))
    ensures forall id ::
              multiset(need)[id] == Once(HasId(server.storage.Contents(), id) && !HasId(client.storage.Contents(), id))
  {
    hide Holds, After, SameIds, CollisionFree, BelowInfinity, Running, Next, Negentropy.Valid, Storage.Contents;
    var msg, s := Start(client, server);
    have, need := [], [];
    RunningSetup(client, server, s);
    ghost var last := RunEnds(s, 0);
    ghost var n := 0;
    while true
      invariant Running(client, server, s) && Holds(msg, have, need, After(s, n))
      invariant n <= last && After(s, n).message != []
      decreases last - n
    {
      RunGoesOn(s, n, last);
      var next;
      next, have, need := ExchangeOnce(client, server, msg, have, need, s, After(s, n));
      n := n + 1;
      RunningSetup(client, server, s);
      if next == None {
        break;
      }
      msg := next.value;
    }
    RunIsExact(s, n);
    HoldsReports(MessageBytes([]), have, need, After(s, n));
  }

  lemma HoldsReports(msg: seq<byte>, have: seq<Id>, need: seq<Id>, r: Round)
    requires Holds(msg, have, need, r)
    ensures have == r.have && multiset(need) == r.need
  {
  }

  lemma RunningSetup(client: Negentropy, server: Negentropy, s: Setup)
    requires Running(client, server, s)
    ensures SetupOk(s) && s == Setup(client.Self(), server.Self())
  {
    hide SetupOk;
  }

  /** A message that is not empty is followed by another round, and an empty one stays. */
  lemma {:induction false} RunGoesOn(s: Setup, n: nat, last: nat)
    requires n <= last && After(s, n).message != [] && After(s, last).message == []
    ensures n < last && After(s, n + 1) == Next(s, After(s, n))
  {
    hide Next;
  }

  /** Under any frame limits, after any number of exchanges: only differences have been reported. The loop goes on until
      the client has nothing more to ask or all exchanges are made, and has what the run has reported by then. */
  method SyncFor(client: Negentropy, server: Negentropy, rounds: nat)
      returns (have: seq<Id>, need: seq<Id>, done: bool, ghost n: nat)
    requires client.Valid() && server.Valid() && client.storage.IsOpen() && server.storage.IsOpen()
    requires client != server && client !in server.storage.Objects() && server !in client.storage.Objects()
    requires !client.isInitiator && !server.isInitiator && client.lastTimestampOut == 0
    requires BelowInfinity(client.storage.Contents()) && BelowInfinity(server.storage.Contents())
    requires SameIds(client.storage.Contents(), server.storage.Contents())
    modifies client, server
    ensures client.storage.Contents() == old(client.storage.Contents())
            && server.storage.Contents() == old(server.storage.Contents())
    ensures forall id :: id in have ==> HasId(client.storage.Contents(), id) && !HasId(server.storage.Contents(), id)
    ensures forall id :: id in need ==> HasId(server.storage.Contents(), id) && !HasId(client.storage.Contents(), id)
    ensures n <= rounds && (done || n == rounds)
    ensures var last := After(Setup(old(client.Self()).(initiator := true), old(server.Self())), n);
            have == last.have && multiset(need) == last.need && (done <==> last.message == [])
  {
    hide Holds, After, SameIds, BelowInfinity, Running, Next;
    var msg, s := Start(client, server);
    have, need, done := [], [], false;
    RunningSetup(client, server, s);
    RunIsSound(s, 0);
    HoldsReports(msg, have, need, After(s, 0));
    n := 0;
    var i := 0;
    while i < rounds && !done
      invariant Running(client, server, s) && s == Setup(client.Self(), server.Self()) && SetupOk(s)
      invariant n == i <= rounds
      invariant !done ==> Holds(msg, have, need, After(s, n))
      invariant have == After(s, n).have && multiset(need) == After(s, n).need
                && (done <==> After(s, n).message == [])
      invariant Sound(s, have, multiset(need))
    {
      NextRound(s, n);
      var next;
      next, have, need := ExchangeOnce(client, server, msg, have, need, s, After(s, n));
      i, n := i + 1, n + 1;
      RunningSetup(client, server, s);
      RunIsSound(s, n);
      HoldsReports(if next.Some? then next.value else MessageBytes([]), have, need, After(s, n));
      if next == None {
        done := true;
      } else {
        msg := next.value;
      }
    }
  }

  lemma NextRound(s: Setup, n: nat)
    requires After(s, n).message != []
    ensures After(s, n + 1) == Next(s, After(s, n))
  {
    hide Next;
  }

  // ---------- Messages that do not arrive whole ----------

  /** A message followed by bytes that are no range: its ranges are looked at, and then the bytes are refused unless the
      frame was full before. */
  lemma BrokenMessage(p: Party, m: seq<Range>, tail: seq<byte>, e: string)
    requires LimitOk(p.frameSizeLimit) && AscendingItems(p.items) && Sendable(m)
    requires tail != [] && ErrorAt(LastTimestamp(0, m), tail, e)
    ensures FinalState(p, true, MessageBytes(m) + tail) == Run(p, m)
    ensures ReplyTo(p, true, MessageBytes(m) + tail)
         == if Run(p, m).stopped then Ok(MessageBytes(Run(p, m).out)) else Err(e)
  {
    hide Run, ParseRanges, RangesBytes, ErrorAt, LastTimestamp, All, BoundRank, Chronological, Countable, LimitOk,
         AscendingItems;
    BrokenTail(m, tail, e);
    OrderedNeverFails(p, m);
  }

  /** A party of either role that is sent a message followed by bytes that are no range fails with the error these bytes
      show, unless its frame was full before. */
  method AnswerBroken(n: Negentropy, query: seq<byte>, ghost m: seq<Range>, ghost tail: seq<byte>, ghost e: string)
      returns (error: Option<string>)
    requires n.Valid() && n.storage.IsOpen() && Sendable(m) && query == MessageBytes(m) + tail
    requires tail != [] && ErrorAt(LastTimestamp(0, m), tail, e)
    modifies n`lastTimestampIn, n`lastTimestampOut
    ensures n.Valid() && n.Self() == old(n.Self())
    ensures error == if Run(old(n.Self()), m).stopped then None else Some(e)
    ensures n.frameSizeLimit == 0 ==> error == Some(e)
  {
    hide Run, Sendable, ErrorAt, LastTimestamp, ReplyTo, FinalState, MessageBytes, AscendingItems, RangesAt, LimitOk,
         Storage.Valid;
    n.ContentsAscend();
    BrokenMessage(n.Self(), m, tail, e);
    if n.frameSizeLimit == 0 {
      NeverFull(n.Self(), m);
    }
    if n.isInitiator {
      var r, have, need := n.ReconcileIds(query, [], []);
      error := if r.Err? then Some(r.error) else None;
    } else {
      var r := n.Reconcile(query);
      error := if r.Err? then Some(r.error) else None;
    }
  }

  /** A message that is cut off inside its last range. */
  lemma CutIsBroken(query: seq<byte>, m: seq<Range>, r: Range) returns (tail: seq<byte>)
    requires MessageBytes(m) < query < MessageBytes(m + [r]) && Countable([r])
    ensures query == MessageBytes(m) + tail && tail != []
    ensures ErrorAt(LastTimestamp(0, m), tail, CutError(LastTimestamp(0, m), r, |query| - |MessageBytes(m)|))
  {
    hide RangeBytes, RangesBytes, MessageBytes, ErrorAt, ReadRange, LastTimestamp, CutError, Countable;
    var last := LastTimestamp(0, m);
    MessageGrows(m, [r]);
    RangesBytesOne(last, r);
    tail := CutInside(query, MessageBytes(m), RangeBytes(last, r));
    CutRange(last, r, |tail|);
    RangeUnread(last, tail, CutError(last, r, |tail|));
  }

  lemma CutInside(s: seq<byte>, a: seq<byte>, b: seq<byte>) returns (tail: seq<byte>)
    requires a < s < a + b
    ensures s == a + tail && tail != [] && |tail| < |b| && tail == b[..|tail|]
  {
    tail := s[|a|..];
    assert s == (a + b)[..|s|];
  }

  /** A party of either role that is sent a message cut off inside its last range fails with the error of that cut,
      unless its frame was full before. */
  method AnswerCut(n: Negentropy, query: seq<byte>, ghost m: seq<Range>, ghost r: Range)
      returns (error: Option<string>)
    requires n.Valid() && n.storage.IsOpen() && Sendable(m) && Countable([r])
    requires MessageBytes(m) < query < MessageBytes(m + [r])
    modifies n`lastTimestampIn, n`lastTimestampOut
    ensures n.Valid() && n.Self() == old(n.Self())
    ensures var e := CutError(LastTimestamp(0, m), r, |query| - |MessageBytes(m)|);
            && error == (if Run(old(n.Self()), m).stopped then None else Some(e))
            && (n.frameSizeLimit == 0 ==> error == Some(e))
  {
    hide Run, Sendable, Countable, ErrorAt, LastTimestamp, MessageBytes, RangeBytes, LimitOk, Storage.Valid, CutError;
    ghost var tail := CutIsBroken(query, m, r);
    error := AnswerBroken(n, query, m, tail, CutError(LastTimestamp(0, m), r, |query| - |MessageBytes(m)|));
  }

  // ---------- One object in both roles ----------

  /** A first message that is read as the split of all items. */
  ghost predicate ReadAsMeant(h: Hash, items: seq<Item>, msg: seq<byte>) {
    msg != [] && ParseRanges(0, msg[1..]) == Parse(SplitRange(h, items, INFINITY), None)
  }

  /** An object that answers a query and then starts a run of its own writes the first message against the timestamp it
      wrote last. The message is read as it was meant exactly if that was 0 or the object has so few items that it lists
      them up to infinity. */
  method AnswerThenInitiate(n: Negentropy, query: seq<byte>) returns (reply: Result<seq<byte>>, msg: seq<byte>)
    requires n.Valid() && !n.isInitiator && n.storage.IsOpen() && BelowInfinity(n.storage.Contents())
    modifies n`isInitiator, n`lastTimestampIn, n`lastTimestampOut
    ensures reply == ReplyTo(old(n.Self()), true, query)
    ensures var last := LastWritten(FinalState(old(n.Self()), true, query));
            var items := old(n.storage.Contents());
            ReadAsMeant(n.hash, items, msg) <==> last == 0 || |items| < 32
  {
    hide ReplyTo, FinalState, LimitOk, Storage.Valid, AscendingItems, BelowInfinity, SplitRange, RangesBytes,
         ParseRanges;
    n.ContentsAscend();
    reply := n.Reconcile(query);
    ghost var last := n.lastTimestampOut;
    var opening := n.Initiate();
    msg := opening.value;
    OpeningRoundTrip(last, n.hash, n.storage.Contents());
  }

  /** The last timestamp written in a reply to a single list. */
  lemma ListReplyEnds(p: Party, r: Range)
    requires LimitOk(p.frameSizeLimit) && !p.initiator && r.payload.IdList?
    ensures var st := Run(p, [r]);
            !st.failed && LastTimestamp(0, st.out) == if st.stopped then MAX_U64 else r.upper.timestamp
  {
    hide Upper, Size, FingerprintOf, Listing, Run, Section;
    assert [] + [r] == [r];
    RunSnoc(p, [], r);
    StartRun(p);
    StartSize();
    assert !Backward(p, START, r);
    var mine := Section(p, START, r);
    ListingEnds(p, START, mine, r.upper);
    var out := START.out + PendingSkip(START) + [Listing(p, START, mine, r.upper)];
    assert out + [] == out;
  }

  /** A list that does not fill the frame ends at the bound that was asked for. */
  lemma ListingEnds(p: Party, st: State, mine: seq<Item>, bound: Bound)
    requires Roomy(p, st) && !st.stopped
    ensures var listing := Listing(p, st, mine, bound);
            !Exceeded(p.frameSizeLimit, Size(st.out + PendingSkip(st) + [listing])) ==> listing.upper == bound
  {
    hide Size, Ids;
    if |Listing(p, st, mine, bound).payload.ids| < |mine| {
      TruncatedListing(p, st, mine, bound);
    }
  }

  /** Every object with at least 32 items gets there: asked for its items before second 5, and then started, it
      sends a first message that is not read as it was meant. */
  method StaleOpening(n: Negentropy) returns (msg: seq<byte>)
    requires n.Valid() && !n.isInitiator && n.storage.IsOpen() && BelowInfinity(n.storage.Contents())
    requires |n.storage.Contents()| >= 32
    modifies n`isInitiator, n`lastTimestampIn, n`lastTimestampOut
    ensures !ReadAsMeant(n.hash, old(n.storage.Contents()), msg)
  {
    hide LimitOk, Storage.Valid, AscendingItems, BelowInfinity, SplitRange, RangesBytes, ParseRanges, ReadAsMeant, Run;
    var r := Range(Bound(5, []), IdList([]));
    ListReplyEnds(n.Self(), r);
    RangesRoundTrip(0, [r]);
    assert MessageBytes([r])[1..] == RangesBytes(0, [r]);
    var reply;
    reply, msg := AnswerThenInitiate(n, MessageBytes([r]));
  }
}
