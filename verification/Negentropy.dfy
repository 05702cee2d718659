/** The protocol object: it turns messages into replies over a storage, byte by byte. */
module Negentropies {
  import opened Types
  import opened Accumulators
  import opened Encoding
  import opened SortedItems
  import opened Wire
  import opened Grammar
  import opened Splits
  import opened Coverage
  import opened Replies
  import opened FrameLimits
  import opened Messages
  import opened Storages

  // ---------- What a call answers ----------

  const FIRST_VERSION: byte := 0x60
  const LAST_VERSION: byte := 0x6F

  function DigitChar(d: nat): (c: char)
    requires d < 10
    ensures '0' <= c <= '9' && c as int == '0' as int + d
  {
    "0123456789"[d]
  }

  function Decimal(n: nat): (s: string)
    requires n < 100
    ensures |s| == if n < 10 then 1 else 2
    ensures forall i :: 0 <= i < |s| ==> '0' <= s[i] <= '9'
    ensures n == if |s| == 1 then s[0] as int - 48 else 10 * (s[0] as int - 48) + s[1] as int - 48
  {
    if n < 10 then [DigitChar(n)] else [DigitChar(n / 10), DigitChar(n % 10)]
  }

  /** The version byte is looked at first: a finished answer or an error, or nothing if the ranges are to be read. */
  function VersionAnswer(initiator: bool, query: seq<byte>): Option<Result<seq<byte>>> {
    if query == [] then Some(Err("parse ends prematurely"))
    else if query[0] < FIRST_VERSION || query[0] > LAST_VERSION
      then Some(Err("invalid negentropy protocol version byte"))
    else if query[0] == PROTOCOL_VERSION then None
    else if initiator
      then Some(Err("unsupported negentropy protocol version requested" + Decimal(query[0] - FIRST_VERSION)))
    else Some(Ok([PROTOCOL_VERSION]))
  }

  /** The ranges that are read from a query. */
  ghost function QueryRanges(initiator: bool, query: seq<byte>): Parse {
    if VersionAnswer(initiator, query).Some? then Parse([], None) else ParseRanges(0, query[1..])
  }

  /** The state in which the loop over a query ends. */
  ghost function FinalState(p: Party, open: bool, query: seq<byte>): State {
    if open then Run(p, QueryRanges(p.initiator, query).ranges) else START
  }

  function Outcome(parse: Parse, st: State): Result<seq<byte>> {
    if st.failed then Err("bad range")
    else if parse.error.Some? && !st.stopped then Err(parse.error.value)
    else Ok(MessageBytes(st.out))
  }

  /** The answer of a party. The storage may refuse a range; an error of the input counts unless the frame was full,
      or the storage refused a range, before it was reached. */
  ghost function ReplyTo(p: Party, open: bool, query: seq<byte>): Result<seq<byte>> {
    if VersionAnswer(p.initiator, query).Some? then VersionAnswer(p.initiator, query).value
    else if !open then Err("not sealed")
    else
      Outcome(QueryRanges(p.initiator, query), FinalState(p, open, query))
  }

  /** What is answered to ranges: all that stand at the front of the query are looked at, up to its end or up to what is
      no range. */
  lemma ReplyMeans(p: Party, query: seq<byte>) returns (rs: seq<Range>, rest: seq<byte>)
    requires query != [] && query[0] == 0x61
    ensures RangesAt(0, query[1..], rs, rest) && FinalState(p, true, query) == Run(p, rs)
    ensures var r := ReplyTo(p, true, query);
            if Run(p, rs).failed then r == Err("bad range")
            else if rest == [] || Run(p, rs).stopped then r == Ok(MessageBytes(Run(p, rs).out))
            else r.Err? && ErrorAt(LastTimestamp(0, rs), rest, r.error)
  {
    hide Run, ParseRanges, RangesAt, ErrorAt, LastTimestamp, MessageBytes;
    var parse := ParseRanges(0, query[1..]);
    rs := parse.ranges;
    ParseIs(0, query[1..], rs, parse.error);
    rest :| RangesAt(0, query[1..], rs, rest) && EndsWith(LastTimestamp(0, rs), rest, parse.error);
  }

  lemma ReadAll(p: Party, query: seq<byte>, rs: seq<Range>)
    requires query != [] && query[0] == 0x61 && ParseRanges(0, query[1..]) == Parse(rs, None) && !Run(p, rs).failed
    ensures ReplyTo(p, true, query) == Ok(MessageBytes(Run(p, rs).out))
  {
    hide Run, ParseRanges, MessageBytes;
  }

  /** Without a limit a query is answered exactly if it is ranges to its end and none is refused. */
  lemma SuccessMeans(p: Party, query: seq<byte>)
    requires query != [] && query[0] == 0x61 && p.frameSizeLimit == 0
    ensures ReplyTo(p, true, query).Ok? <==> exists rs :: RangesAt(0, query[1..], rs, []) && !Run(p, rs).failed
  {
    hide Run, ParseRanges, RangesAt, ErrorAt, LastTimestamp, MessageBytes, ReplyTo;
    var rs, rest := ReplyMeans(p, query);
    NeverFull(p, rs);
    forall rs' | RangesAt(0, query[1..], rs', []) && !Run(p, rs').failed ensures ReplyTo(p, true, query).Ok? {
      EndsParse(0, query[1..], rs', [], None);
      ReadAll(p, query, rs');
    }
  }

  /** A reply is empty exactly if it is the version byte alone, and a frame that is full is not. */
  lemma EmptyReplies(p: Party)
    ensures forall rs :: |MessageBytes(Run(p, rs).out)| == 1 <==> Run(p, rs).out == []
    ensures forall rs :: Run(p, rs).stopped ==> Run(p, rs).out != []
  {
    hide Run, MessageBytes;
    forall rs ensures |MessageBytes(Run(p, rs).out)| == 1 <==> Run(p, rs).out == [] {
      EmptyMessage(Run(p, rs).out);
    }
    forall rs | Run(p, rs).stopped ensures Run(p, rs).out != [] {
      FullIsClosed(p, rs);
    }
  }

  /** Whatever a party is asked, its answer keeps to its frame size limit. */
  lemma ReplyFits(p: Party, open: bool, query: seq<byte>)
    requires LimitOk(p.frameSizeLimit) && p.frameSizeLimit != 0
    ensures ReplyTo(p, open, query).Ok? ==> |ReplyTo(p, open, query).value| <= p.frameSizeLimit
  {
    hide Run, ParseRanges, RangesBytes;
    FrameBound(p, QueryRanges(p.initiator, query).ranges);
  }

  // ---------- Lemmas for the loops ----------

  lemma RangesBytesSnoc(last: uint64, rs: seq<Range>, i: nat)
    requires i < |rs|
    ensures RangesBytes(last, rs[..i + 1])
            == RangesBytes(last, rs[..i]) + RangeBytes(LastTimestamp(last, rs[..i]), rs[i])
    ensures LastTimestamp(last, rs[..i + 1]) == rs[i].upper.timestamp
  {
    hide RangeBytes, RangesBytes;
    assert rs[..i + 1] == rs[..i] + [rs[i]];
    RangesBytesConcat(last, rs[..i], [rs[i]]);
    RangesBytesOne(LastTimestamp(last, rs[..i]), rs[i]);
  }

  function Prepend(ids: seq<Id>, r: Result<Parsed<seq<Id>>>): Result<Parsed<seq<Id>>> {
    if r.Err? then r else Ok(Parsed(ids + r.value.value, r.value.rest))
  }

  lemma PrependTwice(a: seq<Id>, b: seq<Id>, r: Result<Parsed<seq<Id>>>)
    ensures Prepend(a, Prepend(b, r)) == Prepend(a + b, r)
  {
    if r.Ok? {
      assert a + (b + r.value.value) == a + b + r.value.value;
    }
  }

  lemma PrependNothing(r: Result<Parsed<seq<Id>>>)
    ensures Prepend([], r) == r
  {
    if r.Ok? {
      assert [] + r.value.value == r.value.value;
    }
  }

  lemma IdSetGrows()
    ensures IdSet([]) == {}
    ensures forall ids, id :: IdSet(ids + [id]) == IdSet(ids) + {id}
  {
  }

  /** Skips or keeps `n` ids. */
  method ReadIdList(s: seq<byte>, n: nat, keep: bool) returns (r: Result<Parsed<set<Id>>>)
    ensures r.Err? <==> ReadIds(s, n).Err?
    ensures r.Err? ==> r.error == ReadIds(s, n).error
    ensures r.Ok? ==> r.value == Parsed(if keep then IdSet(ReadIds(s, n).value.value) else {}, ReadIds(s, n).value.rest)
  {
    hide IdSet;
    IdSetGrows();
    PrependNothing(ReadIds(s, n));
    var elems: set<Id> := {};
    ghost var done: seq<Id> := [];
    var left := s;
    var i := 0;
    while i < n
      invariant 0 <= i <= n && elems == if keep then IdSet(done) else {}
      invariant ReadIds(s, n) == Prepend(done, ReadIds(left, n - i))
    {
      var id := ReadBytes(left, ID_SIZE);
      if id.Err? {
        return Err(id.error);
      }
      PrependTwice(done, [id.value.value], ReadIds(id.value.rest, n - i - 1));
      if keep {
        elems := elems + {id.value.value};
      }
      done := done + [id.value.value];
      left := id.value.rest;
      i := i + 1;
    }
    assert done + [] == done;
    r := Ok(Parsed(elems, left));
  }

  method EncodeIds(items: seq<Item>) returns (o: seq<byte>)
    ensures o == IdBytes(Ids(items))
  {
    o := [];
    var i := 0;
    while i < |items|
      invariant 0 <= i <= |items| && o == IdBytes(Ids(items[..i]))
    {
      assert Ids(items[..i + 1]) == Ids(items[..i]) + [items[i].id];
      IdBytesSnoc(Ids(items[..i]), items[i].id);
      o := o + items[i].id;
      i := i + 1;
    }
    assert items[..i] == items;
  }

  /** Sorts out which own ids the other side lacks and which of its ids remain. */
  method MatchIds(mine: seq<Item>, theirs: set<Id>, haveIds: seq<Id>) returns (have: seq<Id>, left: set<Id>)
    ensures have == haveIds + Compare(mine, theirs).have && left == Compare(mine, theirs).left
  {
    have, left := haveIds, theirs;
    var i := 0;
    while i < |mine|
      invariant 0 <= i <= |mine|
      invariant have + Compare(mine[i..], left).have == haveIds + Compare(mine, theirs).have
      invariant Compare(mine[i..], left).left == Compare(mine, theirs).left
    {
      assert mine[i..][1..] == mine[i + 1..];
      var k := mine[i].id;
      if k !in left {
        assert have + ([k] + Compare(mine[i + 1..], left).have) == have + [k] + Compare(mine[i + 1..], left).have;
        have := have + [k];
      } else {
        left := left - {k};
      }
      i := i + 1;
    }
    assert have + [] == have;
  }

  /** Appends the elements of a set in some order. */
  method AppendAll(ids: seq<Id>, elems: set<Id>) returns (all: seq<Id>)
    ensures multiset(all) == multiset(ids) + multiset(elems)
  {
    all := ids;
    var left := elems;
    while left != {}
      invariant left <= elems && multiset(all) == multiset(ids) + multiset(elems - left)
      decreases left
    {
      var k :| k in left;
      all := all + [k];
      assert elems - (left - {k}) == (elems - left) + {k};
      left := left - {k};
    }
    assert elems - left == elems;
  }

  lemma SplitEnds(h: Hash, items: seq<Item>, upper: Bound)
    ensures var rs := SplitRange(h, items, upper); rs != [] && rs[|rs| - 1].upper == upper
  {
    hide BucketBound, Bucket, FingerprintOf;
    if |items| >= 2 * BUCKETS {
      LastBucket(items, upper);
    }
  }

  lemma BucketAt(h: Hash, items: seq<Item>, upper: Bound, i: nat)
    requires |items| >= 2 * BUCKETS && i < BUCKETS
    ensures var s, e := BucketEnd(|items|, i), BucketEnd(|items|, i + 1);
            && s <= e <= |items| && e > 0
            && SplitRange(h, items, upper)[i]
               == Range(if e == |items| then upper else MinimalBound(items[e - 1], items[e]),
                                                       Print(FingerprintOf(h, items[s..e])))
  {
    hide BucketEnd, FingerprintOf, MinimalBound;
    BucketFits(|items|, i);
  }

  /** A frame, a pending skip and one more range. */
  lemma ListedBytes(out: seq<Range>, pending: seq<Range>, r: Range)
    ensures MessageBytes(out + pending + [r])
         == MessageBytes(out)
           + (RangesBytes(LastTimestamp(0, out), pending) + RangeBytes(LastTimestamp(0, out + pending), r))
  {
    hide RangeBytes, RangesBytes, MessageBytes, LastTimestamp;
    MessageGrows(out + pending, [r]);
    MessageGrows(out, pending);
    RangesBytesOne(LastTimestamp(0, out + pending), r);
  }

  lemma MessageGrows(out: seq<Range>, more: seq<Range>)
    ensures MessageBytes(out + more) == MessageBytes(out) + RangesBytes(LastTimestamp(0, out), more)
  {
    hide RangesBytes, LastTimestamp;
    RangesBytesConcat(0, out, more);
  }

  // ---------- The variables of the loop ----------

  /** The local variables of the loop: `o` is the chunk that is about to be appended. */
  datatype Locals = Locals(fullOutput: seq<byte>, o: seq<byte>, prevIndex: nat, prevBound: Bound, skip: bool,
                           have: seq<Id>, need: seq<Id>)

  /** The variables stand for a state of the reply and ranges `o` about to be appended; `last` was written last. */
  ghost predicate Mirrors(v: Locals, st: State, o: seq<Range>, haveIds: seq<Id>, needIds: seq<Id>, last: uint64) {
    && v.fullOutput == MessageBytes(st.out) && v.o == RangesBytes(LastTimestamp(0, st.out), o)
    && last == LastTimestamp(0, st.out + o)
    && v.prevIndex == st.prevIndex && v.prevBound == st.prevBound && v.skip == st.skip
    && v.have == haveIds + st.have && multiset(v.need) == multiset(needIds) + st.need
  }

  lemma NoRanges(p: Party, haveIds: seq<Id>, needIds: seq<Id>)
    ensures Run(p, []) == START && haveIds + START.have == haveIds
            && multiset(needIds) + START.need == multiset(needIds)
    ensures Mirrors(Locals([PROTOCOL_VERSION], [], 0, Bound(0, []), false, haveIds, needIds), START, [], haveIds,
                    needIds, 0)
  {
    assert haveIds + [] == haveIds;
    assert [PROTOCOL_VERSION] + [] == [PROTOCOL_VERSION];
  }

  lemma MirrorsIndex(v: Locals, st: State, haveIds: seq<Id>, needIds: seq<Id>, last: uint64)
    requires Mirrors(v, st, [], haveIds, needIds, last)
    ensures v.prevIndex == st.prevIndex && v.fullOutput == MessageBytes(st.out)
    ensures v.have == haveIds + st.have && multiset(v.need) == multiset(needIds) + st.need
    ensures last == LastTimestamp(0, st.out)
  {
    assert st.out + [] == st.out;
  }

  /** A section that is skipped: nothing is to be appended. */
  lemma SkipMirrored(v: Locals, st: State, haveIds: seq<Id>, needIds: seq<Id>, last: uint64)
    requires Mirrors(v, st, [], haveIds, needIds, last)
    ensures Mirrors(v.(skip := true), st.(skip := true), [], haveIds, needIds, last) && v.prevIndex == st.prevIndex
  {
  }

  /** Appending a chunk to the bytes appends its ranges to the frame. */
  lemma ChunkAppended(v: Locals, st: State, o: seq<Range>, haveIds: seq<Id>, needIds: seq<Id>, last: uint64)
    requires Mirrors(v, st, o, haveIds, needIds, last)
    ensures v.fullOutput + v.o == MessageBytes(st.out + o) && |v.fullOutput| + |v.o| == Size(st.out + o)
    ensures Mirrors(v.(fullOutput := v.fullOutput + v.o, o := []), st.(out := st.out + o), [], haveIds, needIds, last)
  {
    hide RangeBytes;
    RangesBytesConcat(0, st.out, o);
    assert st.out + o + [] == st.out + o;
  }

  /** The closing range has the same bytes whatever timestamp was written before it. */
  lemma ClosingBytes(out: seq<Range>, last: uint64, payload: Payload)
    ensures MessageBytes(out + [Range(INFINITY, payload)])
         == MessageBytes(out) + BoundBytes(last, INFINITY) + PayloadBytes(payload)
  {
    hide PayloadBytes;
    RangesBytesConcat(0, out, [Range(INFINITY, payload)]);
    RangesBytesOne(LastTimestamp(0, out), Range(INFINITY, payload));
  }

  /** The ranges `q` have been read from the front of a query; `last` is the timestamp read last. */
  ghost predicate ReadSoFar(query0: seq<byte>, q: seq<Range>, last: uint64, query: seq<byte>) {
    var more := ParseRanges(last, query);
    ParseRanges(0, query0) == Parse(q + more.ranges, more.error)
  }

  lemma NothingRead(query: seq<byte>)
    ensures ReadSoFar(query, [], 0, query)
  {
    assert [] + ParseRanges(0, query).ranges == ParseRanges(0, query).ranges;
  }

  lemma ReadOneMore(query0: seq<byte>, q: seq<Range>, last: uint64, query: seq<byte>, r: Range, rest: seq<byte>)
    requires ReadSoFar(query0, q, last, query) && query != [] && ReadRange(last, query) == Ok(Parsed(r, rest))
    ensures ReadSoFar(query0, q + [r], r.upper.timestamp, rest) && |rest| < |query|
  {
    hide ReadRange;
    ReadRangeShrinks(last, query);
    var more := ParseRanges(r.upper.timestamp, rest);
    assert q + ([r] + more.ranges) == q + [r] + more.ranges;
  }

  lemma ReadEnds(query0: seq<byte>, q: seq<Range>, last: uint64, query: seq<byte>)
    requires ReadSoFar(query0, q, last, query)
    ensures query == [] ==> ParseRanges(0, query0) == Parse(q, None)
    ensures query != [] && ReadRange(last, query).Err? ==>
            ParseRanges(0, query0) == Parse(q, Some(ReadRange(last, query).error))
    ensures q <= ParseRanges(0, query0).ranges
  {
    hide ReadRange;
    assert q + [] == q;
  }

  /** A range is done and the frame is not full: the variables stand for the state after it. */
  lemma RangeDone(p: Party, q: seq<Range>, r: Range, last: uint64, st: State, e: Effect, v: Locals, haveIds: seq<Id>,
          needIds: seq<Id>)
    requires Mirrors(v, e.st, e.o, haveIds, needIds, last)
    requires st == Run(p, q) && !st.stopped && !st.failed && !Refused(p, st, r)
             && e == Answer(p, st, r, Section(p, st, r))
    requires !Exceeded(p.frameSizeLimit, Size(e.st.out + e.o))
    ensures var v' := v.(fullOutput := v.fullOutput + v.o, o := [], prevIndex := Place(p, st, r), prevBound := r.upper);
            var st' := Run(p, q + [r]);
            !st'.stopped && !st'.failed && Mirrors(v', st', [], haveIds, needIds, last)
  {
    hide Answer, Section, Size, MessageBytes, RangesBytes, Run, Refused, Place;
    RunSnoc(p, q, r);
    ChunkAppended(v, e.st, e.o, haveIds, needIds, last);
  }

  /** The frame is full: the rest of the query does not matter, and the message is closed. */
  lemma FrameFull(p: Party, query0: seq<byte>, q: seq<Range>, query: seq<byte>, r: Range, last: uint64, st: State,
          e: Effect, v: Locals, haveIds: seq<Id>, needIds: seq<Id>)
    requires ReadSoFar(query0, q + [r], r.upper.timestamp, query) && Mirrors(v, e.st, e.o, haveIds, needIds, last)
    requires st == Run(p, q) && !st.stopped && !st.failed && !Refused(p, st, r)
             && e == Answer(p, st, r, Section(p, st, r))
    requires Exceeded(p.frameSizeLimit, Size(e.st.out + e.o))
    ensures var final := Run(p, ParseRanges(0, query0).ranges);
            && final.stopped && !final.failed && LastTimestamp(0, final.out) == MAX_U64
            && v.have == haveIds + final.have && multiset(v.need) == multiset(needIds) + final.need
            && MessageBytes(final.out) == v.fullOutput + BoundBytes(last, INFINITY)
                                         + (VarInt(1) + FingerprintOf(p.hash, p.items[Place(p, st, r)..]))
  {
    hide Refused, Place, Answer, Section, Size, MessageBytes, BoundBytes, RangesBytes, ReadRange, FingerprintOf,
         ReadSoFar, Run;
    RunSnoc(p, q, r);
    ReadEnds(query0, q + [r], r.upper.timestamp, query);
    var all := ParseRanges(0, query0).ranges;
    assert all == q + [r] + all[|q| + 1..];
    StoppedStays(p, q + [r], all[|q| + 1..]);
    ClosingBytes(e.st.out, last, Print(FingerprintOf(p.hash, p.items[Place(p, st, r)..])));
  }

  /** The storage refuses a range: the rest of the query does not matter. */
  lemma RangeRefused(p: Party, query0: seq<byte>, q: seq<Range>, query: seq<byte>, r: Range, st: State)
    requires ReadSoFar(query0, q + [r], r.upper.timestamp, query)
    requires st == Run(p, q) && !st.stopped && !st.failed && Refused(p, st, r)
    ensures Run(p, ParseRanges(0, query0).ranges) == st.(failed := true, lost := Lost(p, st, r))
  {
    hide Lost, Answer, Section, Size, ReadRange, ReadSoFar, Run, Refused;
    RunSnoc(p, q, r);
    ReadEnds(query0, q + [r], r.upper.timestamp, query);
    var all := ParseRanges(0, query0).ranges;
    assert all == q + [r] + all[|q| + 1..];
    StoppedStays(p, q + [r], all[|q| + 1..]);
  }

  /** The next range cannot be read, or the storage refuses it. */
  lemma RangeFails(p: Party, query0: seq<byte>, q: seq<Range>, last: uint64, query: seq<byte>, r: Range, st: State)
    requires ReadSoFar(query0, q, last, query) && query != [] && st == Run(p, q) && !st.stopped && !st.failed
    requires ReadRange(last, query).Ok? ==> r == ReadRange(last, query).value.value && Refused(p, st, r)
    ensures var parse := ParseRanges(0, query0);
            if ReadRange(last, query).Ok? then Run(p, parse.ranges) == st.(failed := true, lost := Lost(p, st, r))
            else Run(p, parse.ranges) == st && parse.error == Some(ReadRange(last, query).error)
  {
    hide Lost, Answer, Section, Size, ReadRange, ReadSoFar, Run, Refused;
    if ReadRange(last, query).Ok? {
      var rest := ReadRange(last, query).value.rest;
      ReadOneMore(query0, q, last, query, r, rest);
      RangeRefused(p, query0, q, rest, r, st);
    } else {
      ReadEnds(query0, q, last, query);
    }
  }

  /** The items at a range of positions, if it is one. */
  function Part(items: seq<Item>, begin: nat, end: nat): seq<Item> {
    if begin <= end <= |items| then items[begin..end] else []
  }

  class Negentropy {
    const storage: Storage
    const hash: Hash
    const frameSizeLimit: uint64
    var isInitiator: bool
    var lastTimestampIn: uint64
    var lastTimestampOut: uint64

    ghost predicate Valid()
      reads this, storage.Objects()
    {
      && this !in storage.Objects() && storage.Valid()
      && LimitOk(frameSizeLimit) && |storage.Contents()| < U64
    }

    /** This object as a party of the protocol. */
    ghost function Self(): Party
      reads this, storage.Objects()
    {
      Party(storage.Contents(), hash, frameSizeLimit, isInitiator, storage.TreeStorage?)
    }

    constructor (storage: Storage, hash: Hash, frameSizeLimit: uint64)
      requires storage.Valid() && |storage.Contents()| < U64 && LimitOk(frameSizeLimit)
      ensures Valid() && this.storage == storage && this.hash == hash && this.frameSizeLimit == frameSizeLimit
      ensures !isInitiator && lastTimestampIn == lastTimestampOut == 0
    {
      this.storage, this.hash, this.frameSizeLimit := storage, hash, frameSizeLimit;
      isInitiator, lastTimestampIn, lastTimestampOut := false, 0, 0;
    }

    static method Create(storage: Storage, hash: Hash, frameSizeLimit: uint64) returns (r: Result<Negentropy>)
      requires storage.Valid() && |storage.Contents()| < U64
      ensures r.Ok? <==> frameSizeLimit == 0 || frameSizeLimit >= 4096
      ensures r.Err? ==> r.error == "frameSizeLimit too small"
      ensures r.Ok? ==> fresh(r.value) && r.value.Valid() && !r.value.isInitiator && r.value.lastTimestampOut == 0
      ensures r.Ok? ==> r.value.storage == storage && r.value.hash == hash && r.value.frameSizeLimit == frameSizeLimit
    {
      if frameSizeLimit != 0 && frameSizeLimit < MIN_FRAME_SIZE_LIMIT {
        return Err("frameSizeLimit too small");
      }
      var n := new Negentropy(storage, hash, frameSizeLimit);
      r := Ok(n);
    }

    // ---------- Interface ----------

    /** The first message. It starts from the timestamp that was written last, which is not reset here. */
    method Initiate() returns (r: Result<seq<byte>>)
      requires Valid()
      modifies this`isInitiator, this`lastTimestampOut
      ensures Valid() && isInitiator
      ensures old(isInitiator) ==> r == Err("already initiated") && lastTimestampOut == old(lastTimestampOut)
      ensures !old(isInitiator) && !storage.IsOpen() ==> r == Err("not sealed")
      ensures !old(isInitiator) && storage.IsOpen() ==>
        r == Ok(OpeningBytes(old(lastTimestampOut), hash, storage.Contents())) && lastTimestampOut == MAX_U64
      ensures r.Ok? ==>
        && r.value != [] && r.value[0] == 0x61
        && RangesSpelled(old(lastTimestampOut), SplitRange(hash, storage.Contents(), INFINITY), r.value[1..])
      ensures r.Ok? && frameSizeLimit != 0 ==> |r.value| <= frameSizeLimit
    {
      hide SplitRange, RangesBytes, RangesSpelled;
      OpeningFits(hash, storage.Contents(), lastTimestampOut);
      ghost var rs := SplitRange(hash, storage.Contents(), INFINITY);
      RangesSpelling(lastTimestampOut, rs, RangesBytes(lastTimestampOut, rs));
      if isInitiator {
        return Err("already initiated");
      }
      isInitiator := true;
      var size := storage.Size();
      if size.Err? {
        return Err(size.error);
      }
      var o := EncodeSplit(0, size.value, INFINITY);
      assert storage.Contents()[0..|storage.Contents()|] == storage.Contents();
      r := Ok([PROTOCOL_VERSION] + o);
    }

    method SetInitiator()
      modifies this`isInitiator
      ensures isInitiator
    {
      isInitiator := true;
    }

    /** The responder's answer. */
    method Reconcile(query: seq<byte>) returns (r: Result<seq<byte>>)
      requires Valid()
      modifies this`lastTimestampIn, this`lastTimestampOut
      ensures Valid() && Self() == old(Self())
      ensures lastTimestampOut == if isInitiator then old(lastTimestampOut)
                                  else LastWritten(FinalState(Self(), storage.IsOpen(), query))
      ensures isInitiator ==> r == Err("initiator not asking for have/need IDs")
      ensures !isInitiator && query == [] ==> r == Err("parse ends prematurely")
      ensures !isInitiator && query != [] && !(0x60 <= query[0] <= 0x6F) ==>
                r == Err("invalid negentropy protocol version byte")
      ensures !isInitiator && query != [] && 0x60 <= query[0] <= 0x6F && query[0] != 0x61 ==> r == Ok([0x61])
      ensures !isInitiator && query != [] && query[0] == 0x61 && !storage.IsOpen() ==> r == Err("not sealed")
      ensures !isInitiator && query != [] && query[0] == 0x61 && storage.IsOpen() ==>
        exists rs, rest ::
          && RangesAt(0, query[1..], rs, rest)
          && if Run(Self(), rs).failed then r == Err("bad range")
             else if rest == [] || Run(Self(), rs).stopped then r == Ok(MessageBytes(Run(Self(), rs).out))
             else r.Err? && ErrorAt(LastTimestamp(0, rs), rest, r.error)
      ensures !isInitiator && query != [] && query[0] == 0x61 && storage.IsOpen() && frameSizeLimit == 0 ==>
        (r.Ok? <==> exists rs :: RangesAt(0, query[1..], rs, []) && !Run(Self(), rs).failed)
      ensures !isInitiator ==> r == ReplyTo(Self(), storage.IsOpen(), query)
      ensures r.Ok? && frameSizeLimit != 0 ==> |r.value| <= frameSizeLimit
    {
      hide ReplyTo, FinalState, QueryRanges, Run, RangesAt, ErrorAt, MessageBytes, LastTimestamp, Decimal, LimitOk,
           Storage.Valid, Storage.Contents;
      if frameSizeLimit != 0 {
        ReplyFits(Self(), storage.IsOpen(), query);
      } else if query != [] && query[0] == 0x61 {
        SuccessMeans(Self(), query);
      }
      if isInitiator {
        return Err("initiator not asking for have/need IDs");
      }
      var have, need;
      r, have, need := ReconcileAux(query, [], []);
    }

    /** The initiator's answer, with the differences it learned added to `haveIds` and `needIds`. No message means
        the end. */
    method ReconcileIds(query: seq<byte>, haveIds: seq<Id>, needIds: seq<Id>)
        returns (r: Result<Option<seq<byte>>>, have: seq<Id>, need: seq<Id>)
      requires Valid()
      modifies this`lastTimestampIn, this`lastTimestampOut
      ensures Valid() && Self() == old(Self())
      ensures lastTimestampOut == if isInitiator then LastWritten(FinalState(Self(), storage.IsOpen(), query))
                                  else old(lastTimestampOut)
      ensures !isInitiator ==> r == Err("non-initiator asking for have/need IDs") && have == haveIds && need == needIds
      ensures isInitiator ==>
        && r == (match ReplyTo(Self(), storage.IsOpen(), query)
                 case Err(e) => Err(e)
                 case Ok(m) => Ok(if |m| == 1 then None else Some(m)))
        && have == haveIds + FinalState(Self(), storage.IsOpen(), query).have
        && multiset(need) == multiset(needIds) + FinalState(Self(), storage.IsOpen(), query).need
      ensures isInitiator && query == [] ==> r == Err("parse ends prematurely")
      ensures isInitiator && query != [] && !(0x60 <= query[0] <= 0x6F) ==>
                r == Err("invalid negentropy protocol version byte")
      ensures isInitiator && query != [] && 0x60 <= query[0] <= 0x6F && query[0] != 0x61 ==>
                r == Err("unsupported negentropy protocol version requested" + Decimal(query[0] - 0x60))
      ensures isInitiator && query != [] && query[0] == 0x61 && !storage.IsOpen() ==> r == Err("not sealed")
      ensures isInitiator && query != [] && query[0] == 0x61 && storage.IsOpen() ==>
        exists rs, rest ::
          && RangesAt(0, query[1..], rs, rest)
          && if Run(Self(), rs).failed then r == Err("bad range")
             else if rest != [] && !Run(Self(), rs).stopped then
               r.Err? && ErrorAt(LastTimestamp(0, rs), rest, r.error)
             else if Run(Self(), rs).out == [] then r == Ok(None)
             else r == Ok(Some(MessageBytes(Run(Self(), rs).out)))
      ensures isInitiator && query != [] && query[0] == 0x61 && storage.IsOpen() && frameSizeLimit == 0 ==>
        (r.Ok? <==> exists rs :: RangesAt(0, query[1..], rs, []) && !Run(Self(), rs).failed)
      ensures r == Ok(None) ==>
        && query != [] && query[0] == 0x61 && storage.IsOpen()
        && exists rs :: RangesAt(0, query[1..], rs, []) && Run(Self(), rs).out == [] && !Run(Self(), rs).failed
      ensures r.Ok? && r.value.Some? && frameSizeLimit != 0 ==> |r.value.value| <= frameSizeLimit
    {
      hide ReplyTo, FinalState, QueryRanges, Run, RangesAt, ErrorAt, MessageBytes, LastTimestamp, Decimal, LimitOk,
           Storage.Valid, Storage.Contents;
      if frameSizeLimit != 0 {
        ReplyFits(Self(), storage.IsOpen(), query);
      } else if query != [] && query[0] == 0x61 {
        SuccessMeans(Self(), query);
      }
      EmptyReplies(Self());
      if !isInitiator {
        return Err("non-initiator asking for have/need IDs"), haveIds, needIds;
      }
      var output;
      output, have, need := ReconcileAux(query, haveIds, needIds);
      if output.Err? {
        r := Err(output.error);
      } else if |output.value| == 1 {
        r := Ok(None);
      } else {
        r := Ok(Some(output.value));
      }
    }

    // ---------- Writing ----------

    method EncodeTimestampOut(timestamp: uint64) returns (o: seq<byte>)
      modifies this`lastTimestampOut
      ensures timestamp == 0xFFFF_FFFF_FFFF_FFFF ==> Spells(o, 0)
      ensures old(lastTimestampOut) <= timestamp < 0xFFFF_FFFF_FFFF_FFFF ==>
                Spells(o, 1 + (timestamp - old(lastTimestampOut)))
      ensures timestamp < old(lastTimestampOut) && timestamp < 0xFFFF_FFFF_FFFF_FFFF ==>
                Spells(o, (1 + timestamp - old(lastTimestampOut)) % 0x1_0000_0000_0000_0000)
      ensures o == TimestampBytes(old(lastTimestampOut), timestamp) && lastTimestampOut == timestamp
    {
      hide Spells, VarInt;
      if timestamp == MAX_U64 {
        lastTimestampOut := MAX_U64;
        o := EncodeVarInt(0);
        return;
      }
      var offset := (timestamp - lastTimestampOut) % U64;
      lastTimestampOut := timestamp;
      o := EncodeVarInt((offset + 1) % U64);
    }

    method EncodeBound(b: Bound) returns (o: seq<byte>)
      modifies this`lastTimestampOut
      ensures exists t, n ::
        && o == t + n + b.prefix && Spells(n, |b.prefix|)
        && Spells(t, if b.timestamp == 0xFFFF_FFFF_FFFF_FFFF then 0
                     else (1 + b.timestamp - old(lastTimestampOut)) % 0x1_0000_0000_0000_0000)
      ensures o == BoundBytes(old(lastTimestampOut), b) && lastTimestampOut == b.timestamp
    {
      hide Spells, VarInt;
      var t := EncodeTimestampOut(b.timestamp);
      var n := EncodeVarInt(|b.prefix|);
      o := t + n + b.prefix;
    }

    /** A skipped stretch is announced before something else follows. */
    method DoSkip(skip: bool, prevBound: Bound) returns (o: seq<byte>)
      modifies this`lastTimestampOut
      ensures var pending := if skip then [Range(prevBound, Skip)] else [];
              o == RangesBytes(old(lastTimestampOut), pending)
                && lastTimestampOut == LastTimestamp(old(lastTimestampOut), pending)
    {
      hide VarInt, Spells;
      if skip {
        RangesBytesOne(lastTimestampOut, Range(prevBound, Skip));
        o := EncodeBound(prevBound);
        var mode := EncodeVarInt(0);
        o := o + mode;
      } else {
        o := [];
      }
    }

    /** The ranges sent about the items at `lower..upper`. */
    method EncodeSplit(lower: nat, upper: nat, upperBound: Bound) returns (o: seq<byte>)
      requires Valid() && storage.IsOpen() && lower <= upper <= |storage.Contents()|
      modifies this`lastTimestampOut
      ensures var rs := SplitRange(hash, storage.Contents()[lower..upper], upperBound);
              o == RangesBytes(old(lastTimestampOut), rs) && lastTimestampOut == upperBound.timestamp
    {
      hide RangeBytes, RangesBytes, LimitOk, FingerprintOf, BucketRange, Storage.Valid;
      var numElems := upper - lower;
      ghost var items := storage.Contents()[lower..upper];
      ghost var rs := SplitRange(hash, items, upperBound);
      if numElems < 2 * BUCKETS {
        RangesBytesOne(lastTimestampOut, rs[0]);
        o := EncodeList(lower, upper, upperBound);
      } else {
        o := EncodeBuckets(lower, upper, upperBound);
      }
    }

    /** All ids at `lower..upper` as one range. */
    method EncodeList(lower: nat, upper: nat, upperBound: Bound) returns (o: seq<byte>)
      requires Valid() && storage.IsOpen() && lower <= upper <= |storage.Contents()| && upper - lower < 2 * BUCKETS
      modifies this`lastTimestampOut
      ensures o == RangeBytes(old(lastTimestampOut), Range(upperBound, IdList(Ids(storage.Contents()[lower..upper]))))
      ensures lastTimestampOut == upperBound.timestamp
    {
      hide VarInt, LimitOk, BoundBytes, IdBytes, Storage.Valid, Spells;
      var bound := EncodeBound(upperBound);
      var mode := EncodeVarInt(2);
      var count := EncodeVarInt(upper - lower);
      var section := storage.Slice(lower, upper);
      var ids := EncodeIds(section.value);
      o := bound + (mode + count + ids);
    }

    static lemma TwoOfSection(all: seq<Item>, lower: nat, upper: nat, end: nat, around: seq<Item>)
      requires lower < end < upper <= |all| && around == all[end - 1..end + 1]
      ensures around[0] == all[lower..upper][end - lower - 1] && around[1] == all[lower..upper][end - lower]
    {
      assert around[0] == all[end - 1] && around[1] == all[end];
    }

    /** Where a bucket that ends at `end` is bounded: before the next item, or where the section ends. */
    method BoundAfter(lower: nat, upper: nat, end: nat, upperBound: Bound) returns (bound: Bound)
      requires Valid() && storage.IsOpen() && lower < end <= upper <= |storage.Contents()|
      ensures var items := storage.Contents()[lower..upper];
              bound == if end == upper then upperBound else MinimalBound(items[end - lower - 1], items[end - lower])
    {
      hide LimitOk, MinimalBound, Storage.Valid;
      if end == upper {
        return upperBound;
      }
      var slice := storage.Slice(end - 1, end + 1);
      var around := slice.value;
      TwoOfSection(storage.Contents(), lower, upper, end, around);
      bound := GetMinimalBound(around[0], around[1]);
    }

    /** The bucket at `start..end` of the section `lower..upper`: its fingerprint and the bound to the next bucket. */
    method EncodeBucket(lower: nat, upper: nat, start: nat, end: nat, upperBound: Bound) returns (o: seq<byte>)
      requires Valid() && storage.IsOpen() && lower <= start < end <= upper <= |storage.Contents()|
      modifies this`lastTimestampOut
      ensures var items := storage.Contents()[lower..upper];
              var bound := if end == upper then upperBound
                else MinimalBound(items[end - lower - 1], items[end - lower]);
              && o == RangeBytes(old(lastTimestampOut),
                                 Range(bound, Print(FingerprintOf(hash, items[start - lower..end - lower]))))
              && lastTimestampOut == bound.timestamp
    {
      hide VarInt, LimitOk, FingerprintOf, MinimalBound, BoundBytes, Storage.Valid, Spells, IdSum, LeNum;
      ghost var items := storage.Contents()[lower..upper];
      assert items[start - lower..end - lower] == storage.Contents()[start..end];
      var ours := storage.Fingerprint(start, end, hash);
      var nextBound := BoundAfter(lower, upper, end, upperBound);
      var bound := EncodeBound(nextBound);
      var mode := EncodeVarInt(1);
      o := bound + (mode + ours.value);
    }

    method EncodeBuckets(lower: nat, upper: nat, upperBound: Bound) returns (o: seq<byte>)
      requires Valid() && storage.IsOpen() && lower <= upper <= |storage.Contents()| && upper - lower >= 2 * BUCKETS
      modifies this`lastTimestampOut
      ensures var rs := SplitRange(hash, storage.Contents()[lower..upper], upperBound);
              o == RangesBytes(old(lastTimestampOut), rs) && lastTimestampOut == upperBound.timestamp
    {
      hide RangeBytes, RangesBytes, LimitOk, FingerprintOf, BucketEnd, MinimalBound, Storage.Valid, SplitRange,
           Storage.Contents;
      ghost var items := storage.Contents()[lower..upper];
      ghost var rs := SplitRange(hash, items, upperBound);
      ghost var last := lastTimestampOut;
      var numElems := upper - lower;
      var itemsPerBucket, bucketsWithExtra := numElems / BUCKETS, numElems % BUCKETS;
      var curr := lower;
      o := [];
      BucketStartsAtZero(numElems);
      NoBytes(last);
      SplitEnds(hash, items, upperBound);
      assert rs[..0] == [];
      var i := 0;
      while i < BUCKETS
        invariant 0 <= i <= BUCKETS && Valid() && storage.IsOpen()
        invariant curr == lower + BucketEnd(numElems, i) && curr <= upper
        invariant o == RangesBytes(last, rs[..i]) && lastTimestampOut == LastTimestamp(last, rs[..i])
      {
        var bucketSize := itemsPerBucket + if i < bucketsWithExtra then 1 else 0;
        NextBucket(numElems, i);
        BucketFits(numElems, i);
        BucketAt(hash, items, upperBound, i);
        var bucket := EncodeBucket(lower, upper, curr, curr + bucketSize, upperBound);
        RangesBytesSnoc(last, rs, i);
        o := o + bucket;
        curr := curr + bucketSize;
        i := i + 1;
      }
      assert rs[..i] == rs;
    }

    // ---------- Reading ----------

    method DecodeTimestampIn(encoded: seq<byte>) returns (r: Result<Parsed<uint64>>)
      modifies this`lastTimestampIn
      ensures r.Ok? <==> HasNumber(encoded)
      ensures r.Ok? ==> exists c: nat ::
        && NumberAt(encoded, c, r.value.rest)
        && r.value.value == if c == 0 || old(lastTimestampIn) + c - 1 > 0xFFFF_FFFF_FFFF_FFFF
                            then 0xFFFF_FFFF_FFFF_FFFF else old(lastTimestampIn) + c - 1
      ensures r.Err? ==> r.error == "premature end of varint"
      ensures r == ReadTimestamp(old(lastTimestampIn), encoded)
      ensures lastTimestampIn == if r.Ok? then r.value.value else old(lastTimestampIn)
    {
      hide NumberAt, HasNumber, ReadVarInt;
      var code := DecodeVarInt(encoded);
      if code.Err? {
        return Err(code.error);
      }
      var timestamp := if code.value.value == 0 then MAX_U64 else code.value.value - 1;
      timestamp := (timestamp + lastTimestampIn) % U64;
      if timestamp < lastTimestampIn {
        timestamp := MAX_U64;
      }
      lastTimestampIn := timestamp;
      r := Ok(Parsed(timestamp, code.value.rest));
    }

    method DecodeBound(encoded: seq<byte>) returns (r: Result<Parsed<Bound>>)
      modifies this`lastTimestampIn
      ensures forall b, rest :: r == Ok(Parsed(b, rest)) <==> BoundAt(old(lastTimestampIn), encoded, b, rest)
      ensures forall e :: r == Err(e) <==> BoundErrorAt(encoded, e)
      ensures r == ReadBound(old(lastTimestampIn), encoded)
      ensures r.Ok? ==> lastTimestampIn == r.value.value.timestamp
    {
      hide ReadVarInt, Resumed, BoundAt, BoundErrorAt;
      ghost var last := lastTimestampIn;
      forall b, rest ensures ReadBound(last, encoded) == Ok(Parsed(b, rest)) <==> BoundAt(last, encoded, b, rest) {
        BoundRead(last, encoded, b, rest);
      }
      forall e ensures ReadBound(last, encoded) == Err(e) <==> BoundErrorAt(encoded, e) {
        BoundUnread(last, encoded, e);
      }
      var timestamp := DecodeTimestampIn(encoded);
      if timestamp.Err? {
        return Err(timestamp.error);
      }
      var len := DecodeVarInt(timestamp.value.rest);
      if len.Err? {
        return Err(len.error);
      }
      var prefix := ReadBytes(len.value.rest, len.value.value);
      if prefix.Err? {
        return Err(prefix.error);
      }
      if |prefix.value.value| > ID_SIZE {
        return Err("bad id size for Bound");
      }
      r := Ok(Parsed(Bound(timestamp.value.value, prefix.value.value), prefix.value.rest));
    }

    // ---------- One range ----------

    /** A fingerprint: split the section if it differs. */
    method AnswerPrint(query: seq<byte>, upper: nat, bound: Bound, v: Locals, ghost st: State, ghost haveIds: seq<Id>,
            ghost needIds: seq<Id>)
        returns (rest: Result<seq<byte>>, v': Locals, ghost payload: Payload)
      requires Valid() && storage.IsOpen()
      requires upper <= |storage.Contents()|
      requires Mirrors(v, st, [], haveIds, needIds, lastTimestampOut)
      modifies this`lastTimestampOut
      ensures Valid() && Self() == old(Self())
      ensures rest.Ok? <==> ReadPayload(1, query).Ok? && v.prevIndex <= upper
      ensures ReadPayload(1, query).Err? ==> rest == Err(ReadPayload(1, query).error) && v' == v
      ensures ReadPayload(1, query).Ok? ==> payload == ReadPayload(1, query).value.value
      ensures ReadPayload(1, query).Ok? && rest.Err? ==> rest == Err("bad range") && v' == v
      ensures rest.Err? ==> lastTimestampOut == old(lastTimestampOut)
      ensures rest.Ok? ==>
        var e := Answer(Self(), st, Range(bound, payload), Part(storage.Contents(), v.prevIndex, upper));
        && rest.value == ReadPayload(1, query).value.rest
        && Mirrors(v', e.st, e.o, haveIds, needIds, lastTimestampOut) && e.upper == upper
    {
      hide SplitRange, FingerprintOf, LimitOk, Storage.Valid, Listing, Compare, IdSet, Reported, Mirrors,
           PendingSkip, Spells, IdSum, LeNum;
      MirrorsIndex(v, st, haveIds, needIds, lastTimestampOut);
      v', payload := v, Skip;
      var theirs := ReadBytes(query, FINGERPRINT_SIZE);
      if theirs.Err? {
        return Err(theirs.error), v', payload;
      }
      payload := Print(theirs.value.value);
      rest := Ok(theirs.value.rest);
      var ours := storage.Fingerprint(v.prevIndex, upper, hash);
      if ours.Err? {
        return Err(ours.error), v', payload;
      }
      if theirs.value.value != ours.value {
        v' := SkipAndSplit(upper, bound, v, st, haveIds, needIds);
      } else {
        SkipMirrored(v, st, haveIds, needIds, lastTimestampOut);
        v' := v.(skip := true);
      }
    }

    /** The pending skip and the split of the section are the chunk to be appended. */
    method SkipAndSplit(upper: nat, bound: Bound, v: Locals, ghost st: State, ghost haveIds: seq<Id>,
            ghost needIds: seq<Id>)
        returns (v': Locals)
      requires Valid() && storage.IsOpen() && v.prevIndex <= upper <= |storage.Contents()|
      requires Mirrors(v, st, [], haveIds, needIds, lastTimestampOut)
      modifies this`lastTimestampOut
      ensures Valid() && Self() == old(Self())
      ensures var rs := SplitRange(hash, storage.Contents()[v.prevIndex..upper], bound);
              Mirrors(v', st.(skip := false), PendingSkip(st) + rs, haveIds, needIds, lastTimestampOut)
    {
      hide SplitRange, RangesBytes, LimitOk, Storage.Valid, MessageBytes;
      assert st.out + [] == st.out;
      ghost var pending := PendingSkip(st);
      var skipped := DoSkip(v.skip, v.prevBound);
      var split := EncodeSplit(v.prevIndex, upper, bound);
      ghost var rs := SplitRange(hash, storage.Contents()[v.prevIndex..upper], bound);
      RangesBytesConcat(LastTimestamp(0, st.out), pending, rs);
      SplitEnds(hash, storage.Contents()[v.prevIndex..upper], bound);
      v' := v.(o := skipped + split, skip := false);
    }

    /** A list of ids at the initiator: report the differences. */
    method CompareIds(query: seq<byte>, upper: nat, bound: Bound, v: Locals, ghost st: State, ghost haveIds: seq<Id>,
            ghost needIds: seq<Id>)
        returns (rest: Result<seq<byte>>, v': Locals, ghost payload: Payload)
      requires Valid() && storage.IsOpen() && isInitiator
      requires upper <= |storage.Contents()|
      requires Mirrors(v, st, [], haveIds, needIds, lastTimestampOut)
      ensures rest.Ok? <==> ReadPayload(2, query).Ok? && v.prevIndex <= upper
      ensures ReadPayload(2, query).Err? ==> rest == Err(ReadPayload(2, query).error) && v' == v
      ensures ReadPayload(2, query).Ok? ==> payload == ReadPayload(2, query).value.value
      ensures ReadPayload(2, query).Ok? && rest.Err? ==> rest == Err("bad range") && v' == v
      ensures rest.Ok? ==>
        var e := Answer(Self(), st, Range(bound, payload), Part(storage.Contents(), v.prevIndex, upper));
        && rest.value == ReadPayload(2, query).value.rest
        && Mirrors(v', e.st, e.o, haveIds, needIds, lastTimestampOut) && e.upper == upper
    {
      hide RangesBytes, FingerprintOf, LimitOk, ReadVarInt, ReadIds, Compare, IdSet, Storage.Valid, MessageBytes,
           Listing, SplitRange, PendingSkip, NumberAt, HasNumber;
      v', payload := v, Skip;
      var numIds := DecodeVarInt(query);
      if numIds.Err? {
        return Err(numIds.error), v', payload;
      }
      var theirs := ReadIdList(numIds.value.rest, numIds.value.value, true);
      if theirs.Err? {
        return Err(theirs.error), v', payload;
      }
      payload := ReadPayload(2, query).value.value;
      rest := Ok(theirs.value.rest);
      var section := storage.Slice(v.prevIndex, upper);
      if section.Err? {
        return Err(section.error), v', payload;
      }
      var mine := section.value;
      var have, left := MatchIds(mine, theirs.value.value, v.have);
      var need := AppendAll(v.need, left);
      ghost var d := Compare(mine, theirs.value.value);
      assert haveIds + st.have + d.have == haveIds + (st.have + d.have);
      v' := v.(skip := true, have := have, need := need);
    }

    /** Reads past the ids of the other side; a responder has no use for them. */
    method PassIds(query: seq<byte>) returns (rest: Result<seq<byte>>, ghost payload: Payload)
      ensures match ReadPayload(2, query)
              case Ok(p) => rest == Ok(p.rest) && payload == p.value && payload.IdList?
              case Err(error) => rest == Err(error)
    {
      hide ReadVarInt, ReadIds, NumberAt, HasNumber;
      payload := Skip;
      var numIds := DecodeVarInt(query);
      if numIds.Err? {
        return Err(numIds.error), payload;
      }
      var theirs := ReadIdList(numIds.value.rest, numIds.value.value, false);
      if theirs.Err? {
        return Err(theirs.error), payload;
      }
      payload := ReadPayload(2, query).value.value;
      rest := Ok(theirs.value.rest);
    }

    /** A list of ids at the responder: list the own ids, as many as the frame takes. */
    method ListIds(query: seq<byte>, upper: nat, bound: Bound, v: Locals, ghost st: State, ghost haveIds: seq<Id>,
            ghost needIds: seq<Id>)
        returns (rest: Result<seq<byte>>, v': Locals, upper': nat, ghost payload: Payload)
      requires Valid() && storage.IsOpen() && !isInitiator
      requires upper <= |storage.Contents()|
      requires Mirrors(v, st, [], haveIds, needIds, lastTimestampOut)
      modifies this`lastTimestampOut
      ensures Valid() && Self() == old(Self())
      ensures rest.Ok? <==> ReadPayload(2, query).Ok? && v.prevIndex <= upper
      ensures ReadPayload(2, query).Err? ==> rest == Err(ReadPayload(2, query).error) && v' == v
      ensures ReadPayload(2, query).Err? ==> lastTimestampOut == old(lastTimestampOut)
      ensures ReadPayload(2, query).Ok? ==> payload == ReadPayload(2, query).value.value
      ensures ReadPayload(2, query).Ok? && rest.Err? ==> rest == Err("bad range") && v' == v
      ensures ReadPayload(2, query).Ok? && rest.Err? ==>
        lastTimestampOut == LastTimestamp(0, st.out + PendingSkip(st))
          == if v.skip then v.prevBound.timestamp else old(lastTimestampOut)
      ensures rest.Ok? ==>
        var e := Answer(Self(), st, Range(bound, payload), Part(storage.Contents(), v.prevIndex, upper));
        && rest.value == ReadPayload(2, query).value.rest
        && Mirrors(v', e.st, e.o, haveIds, needIds, lastTimestampOut) && e.upper == upper'
    {
      hide RangesBytes, FingerprintOf, LimitOk, ReadVarInt, ReadIds, Compare, IdSet, VarInt, Storage.Valid, Listing,
           MessageBytes, ReadPayload;
      v', upper', payload := v, upper, Skip;
      rest, payload := PassIds(query);
      if rest.Err? {
        return;
      }
      assert st.out + [] == st.out;
      var skipped := DoSkip(v.skip, v.prevBound);
      var section := storage.Slice(v.prevIndex, upper);
      if section.Err? {
        return Err(section.error), v', upper', payload;
      }
      var mine := section.value;
      var o, n := EncodeListing(v, mine, bound, skipped, st);
      upper' := v.prevIndex + n;
      ghost var out := st.out + PendingSkip(st) + [Listing(Self(), st, mine, bound)];
      NoBytes(LastTimestamp(0, st.out));
      NoBytes(LastTimestamp(0, out));
      assert out + [] == out;
      v' := v.(fullOutput := v.fullOutput + o, skip := false);
    }

    /** The pending skip and the own ids of a range. */
    method EncodeListing(v: Locals, mine: seq<Item>, bound: Bound, skipped: seq<byte>, ghost st: State)
        returns (o: seq<byte>, n: nat)
      requires Valid() && v.fullOutput == MessageBytes(st.out)
      requires skipped == RangesBytes(LastTimestamp(0, st.out), PendingSkip(st))
      requires lastTimestampOut == LastTimestamp(0, st.out + PendingSkip(st))
      modifies this`lastTimestampOut
      ensures var listing := Listing(Self(), st, mine, bound);
              && v.fullOutput + o == MessageBytes(st.out + PendingSkip(st) + [listing])
              && n == |listing.payload.ids| && lastTimestampOut == listing.upper.timestamp
    {
      hide RangesBytes, LimitOk, VarInt, Storage.Valid, BoundBytes, IdBytes, ListCount, MessageBytes, Spells;
      ghost var last := lastTimestampOut;
      var endBound, responseIds;
      endBound, n, responseIds := CollectIds(mine, bound, |v.fullOutput|);
      ghost var listing := Listing(Self(), st, mine, bound);
      assert listing == Range(endBound, IdList(Ids(mine[..n])));
      ListedBytes(st.out, PendingSkip(st), listing);
      var b := EncodeBound(endBound);
      var mode := EncodeVarInt(2);
      var count := EncodeVarInt(Word(n));
      o := skipped + (b + (mode + count + responseIds));
      assert b + (mode + count + responseIds) == RangeBytes(last, listing);
    }

    /** The ids of the items in order, up to the first that finds the frame full; that one becomes the bound. */
    method CollectIds(mine: seq<Item>, bound: Bound, size: nat) returns (endBound: Bound, n: nat,
            responseIds: seq<byte>)
      ensures n <= |mine|
      ensures n < |mine| ==> frameSizeLimit != 0 && size + 32 * n > frameSizeLimit - 200
      ensures n > 0 && frameSizeLimit != 0 ==> size + 32 * (n - 1) <= frameSizeLimit - 200
      ensures n == ListCount(frameSizeLimit, size, |mine|, 0)
      ensures endBound == if n < |mine| then ItemBound(mine[n]) else bound
      ensures responseIds == IdBytes(Ids(mine[..n]))
    {
      endBound, n, responseIds := bound, 0, [];
      while n < |mine|
        invariant 0 <= n <= |mine| && endBound == bound
        invariant n > 0 && frameSizeLimit != 0 ==> size + 32 * (n - 1) <= frameSizeLimit - 200
        invariant ListCount(frameSizeLimit, size, |mine|, 0) == ListCount(frameSizeLimit, size, |mine|, n)
        invariant responseIds == IdBytes(Ids(mine[..n]))
      {
        if Exceeded(frameSizeLimit, size + |responseIds|) {
          endBound := ItemBound(mine[n]);
          break;
        }
        assert Ids(mine[..n + 1]) == Ids(mine[..n]) + [mine[n].id];
        IdBytesSnoc(Ids(mine[..n]), mine[n].id);
        responseIds := responseIds + mine[n].id;
        n := n + 1;
      }
    }

    /** Reads the payload and answers it. */
    method OnePayload(mode: int, query: seq<byte>, upper: nat, bound: Bound, v: Locals, ghost st: State,
            ghost haveIds: seq<Id>, ghost needIds: seq<Id>)
        returns (rest: Result<seq<byte>>, v': Locals, upper': nat, ghost payload: Payload)
      requires Valid() && storage.IsOpen()
      requires upper <= |storage.Contents()|
      requires Mirrors(v, st, [], haveIds, needIds, lastTimestampOut)
      modifies this`lastTimestampOut
      ensures Valid() && Self() == old(Self())
      ensures ReadPayload(mode, query).Err? ==> rest == Err(ReadPayload(mode, query).error) && v' == v
      ensures ReadPayload(mode, query).Ok? ==> payload == ReadPayload(mode, query).value.value
      ensures ReadPayload(mode, query).Err? ==> lastTimestampOut == old(lastTimestampOut)
      ensures ReadPayload(mode, query).Ok? && upper < v.prevIndex && !payload.Skip? ==>
              && rest == Err("bad range") && v' == v
              && lastTimestampOut == LastTimestamp(0, st.out + Lost(Self(), st, Range(bound, payload)))
      ensures ReadPayload(mode, query).Ok? && (v.prevIndex <= upper || payload.Skip?) ==>
        var e := Answer(Self(), st, Range(bound, payload), Part(storage.Contents(), v.prevIndex, upper));
        && rest == Ok(ReadPayload(mode, query).value.rest)
        && Mirrors(v', e.st, e.o, haveIds, needIds, lastTimestampOut)
        && upper' == if upper < v.prevIndex then upper else e.upper
    {
      hide LimitOk, FingerprintOf, Compare, IdSet, SplitRange, ReadIds, ReadVarInt, ListCount, Mirrors, Storage.Valid,
           Reported, Listing, PendingSkip, Storage.Contents, LastTimestamp;
      v', upper', payload := v, upper, Skip;
      MirrorsIndex(v, st, haveIds, needIds, lastTimestampOut);
      assert st.out + [] == st.out;
      if mode == 0 {
        SkipMirrored(v, st, haveIds, needIds, lastTimestampOut);
        rest := Ok(query);
        v' := v.(skip := true);
      } else if mode == 1 {
        rest, v', payload := AnswerPrint(query, upper, bound, v, st, haveIds, needIds);
      } else if mode == 2 {
        if isInitiator {
          rest, v', payload := CompareIds(query, upper, bound, v, st, haveIds, needIds);
        } else {
          rest, v', upper', payload := ListIds(query, upper, bound, v, st, haveIds, needIds);
        }
      } else {
        rest := Err("unexpected mode");
      }
    }

    lemma UpperFound(p: Party, st: State, r: Range, upper: nat)
      requires st.prevIndex <= |p.items| && upper == Upper(p, st, r)
      ensures upper <= |p.items| && Part(p.items, st.prevIndex, upper) == Section(p, st, r)
      ensures Backward(p, st, r) <==> upper < st.prevIndex
      ensures Place(p, st, r) == if upper < st.prevIndex then upper else Answer(p, st, r, Section(p, st, r)).upper
    {
      hide Upper, Answer;
    }

    /** Reads a range and works out what it makes of the variables. Over a tree the storage may refuse the range. */
    method OneRange(query: seq<byte>, size: nat, v: Locals, ghost st: State, ghost haveIds: seq<Id>,
            ghost needIds: seq<Id>)
        returns (rest: Result<seq<byte>>, v': Locals, upper: nat, currBound: Bound, ghost range: Range)
      requires Valid() && storage.IsOpen() && size == |storage.Contents()| && st.prevIndex <= size
      requires Mirrors(v, st, [], haveIds, needIds, lastTimestampOut)
      modifies this`lastTimestampIn, this`lastTimestampOut
      ensures Valid() && Self() == old(Self())
      ensures ReadRange(old(lastTimestampIn), query).Err? ==>
              && rest == Err(ReadRange(old(lastTimestampIn), query).error) && v' == v
              && lastTimestampOut == old(lastTimestampOut)
      ensures ReadRange(old(lastTimestampIn), query).Ok? ==>
        && range == ReadRange(old(lastTimestampIn), query).value.value
        && lastTimestampIn == range.upper.timestamp && currBound == range.upper
        && if Refused(Self(), st, range) then
             && rest == Err("bad range") && v' == v
             && lastTimestampOut == LastTimestamp(0, st.out + Lost(Self(), st, range))
           else rest == Ok(ReadRange(old(lastTimestampIn), query).value.rest)
      ensures rest.Ok? ==>
        var e := Answer(Self(), st, range, Section(Self(), st, range));
        Mirrors(v', e.st, e.o, haveIds, needIds, lastTimestampOut) && upper == Place(Self(), st, range)
    {
      hide Mirrors, ReadVarInt, ReadBound, ReadPayload, LimitOk, Answer, BoundRank, LowerBound, Place,
           Storage.Valid, Storage.Contents, NumberAt, HasNumber, BoundAt, BoundErrorAt;
      v', upper, currBound, range := v, 0, Bound(0, []), Range(Bound(0, []), Skip);
      ghost var lastIn := lastTimestampIn;
      assert v.prevIndex == st.prevIndex && v.prevIndex <= size by {
        MirrorsIndex(v, st, haveIds, needIds, lastTimestampOut);
      }
      var bound := DecodeBound(query);
      if bound.Err? {
        return Err(bound.error), v', upper, currBound, range;
      }
      currBound := bound.value.value;
      var mode := DecodeVarInt(bound.value.rest);
      if mode.Err? {
        return Err(mode.error), v', upper, currBound, range;
      }
      var found := storage.FindLowerBound(v.prevIndex, size, currBound);
      upper := found.value;
      if ReadRange(lastIn, query).Ok? {
        UpperFound(Self(), st, ReadRange(lastIn, query).value.value, upper);
      }
      ghost var payload;
      rest, v', upper, payload :=
        OnePayload(ModeOf(mode.value.value), mode.value.rest, upper, currBound, v, st, haveIds, needIds);
      range := Range(currBound, payload);
    }

    /** The range that closes a full frame: a fingerprint of everything from `upper` on. */
    method EncodeRest(upper: nat, size: nat) returns (o: seq<byte>)
      requires Valid() && storage.IsOpen() && upper <= size == |storage.Contents()|
      modifies this`lastTimestampOut
      ensures o == BoundBytes(old(lastTimestampOut), INFINITY)
                   + (VarInt(1) + FingerprintOf(hash, storage.Contents()[upper..]))
      ensures lastTimestampOut == MAX_U64
    {
      hide VarInt, BoundBytes, FingerprintOf, Storage.Valid, Spells, IdSum, LeNum;
      var remaining := storage.Fingerprint(upper, size, hash);
      assert storage.Contents()[upper..size] == storage.Contents()[upper..];
      var bound := EncodeBound(INFINITY);
      var mode := EncodeVarInt(1);
      o := bound + (mode + remaining.value);
    }

    lemma ContentsAscend()
      requires Valid() && storage.IsOpen()
      ensures AscendingItems(storage.Contents())
    {
      storage.OpenAscends();
    }

    /** What the loop over a query has read and done. */
    ghost predicate Tracks(p: Party, q: seq<Range>, query0: seq<byte>, query: seq<byte>, v: Locals, haveIds: seq<Id>,
            needIds: seq<Id>)
      reads this
    {
      && !Run(p, q).stopped && !Run(p, q).failed && Mirrors(v, Run(p, q), [], haveIds, needIds, lastTimestampOut)
      && ReadSoFar(query0, q, lastTimestampIn, query)
    }

    method ReconcileAux(query: seq<byte>, haveIds: seq<Id>, needIds: seq<Id>)
        returns (r: Result<seq<byte>>, have: seq<Id>, need: seq<Id>)
      requires Valid()
      modifies this`lastTimestampIn, this`lastTimestampOut
      ensures Valid() && Self() == old(Self())
      ensures query == [] ==> r == Err("parse ends prematurely")
      ensures query != [] && !(0x60 <= query[0] <= 0x6F) ==> r == Err("invalid negentropy protocol version byte")
      ensures query != [] && 0x60 <= query[0] <= 0x6F && query[0] != 0x61 ==>
        r == if isInitiator then Err("unsupported negentropy protocol version requested" + Decimal(query[0] - 0x60))
             else Ok([0x61])
      ensures query != [] && query[0] == 0x61 && !storage.IsOpen() ==> r == Err("not sealed")
      ensures query != [] && query[0] == 0x61 && storage.IsOpen() ==>
        exists rs, rest ::
          && RangesAt(0, query[1..], rs, rest)
          && if Run(Self(), rs).failed then r == Err("bad range")
             else if rest == [] || Run(Self(), rs).stopped then r == Ok(MessageBytes(Run(Self(), rs).out))
             else r.Err? && ErrorAt(LastTimestamp(0, rs), rest, r.error)
      ensures r == ReplyTo(Self(), storage.IsOpen(), query)
      ensures lastTimestampOut == LastWritten(FinalState(Self(), storage.IsOpen(), query))
      ensures have == haveIds + FinalState(Self(), storage.IsOpen(), query).have
      ensures multiset(need) == multiset(needIds) + FinalState(Self(), storage.IsOpen(), query).need
    {
      hide Run, ParseRanges, LimitOk, RangesBytes, Decimal, Storage.Valid, RangesAt, ErrorAt;
      lastTimestampIn, lastTimestampOut := 0, 0;
      if query != [] && query[0] == 0x61 {
        ghost var rs, rest := ReplyMeans(Self(), query);
      }
      have, need := haveIds, needIds;
      NoRanges(Self(), haveIds, needIds);
      var answer := VersionAnswer(isInitiator, query);
      if answer.Some? {
        return answer.value, have, need;
      }
      var size := storage.Size();
      if size.Err? {
        return Err(size.error), have, need;
      }
      r, have, need := ReconcileRanges(query[1..], size.value, haveIds, needIds);
    }

    /** The loop over the ranges of a query. */
    method ReconcileRanges(query0: seq<byte>, size: nat, haveIds: seq<Id>, needIds: seq<Id>)
        returns (r: Result<seq<byte>>, have: seq<Id>, need: seq<Id>)
      requires Valid() && storage.IsOpen() && size == |storage.Contents()|
      requires lastTimestampIn == 0 && lastTimestampOut == 0
      modifies this`lastTimestampIn, this`lastTimestampOut
      ensures Valid() && Self() == old(Self())
      ensures var parse := ParseRanges(0, query0);
              var final := Run(Self(), parse.ranges);
              && r == (if final.failed then Err("bad range")
                       else if parse.error == None || final.stopped then Ok(MessageBytes(final.out))
                       else Err(parse.error.value))
              && lastTimestampOut == LastWritten(final)
              && have == haveIds + final.have && multiset(need) == multiset(needIds) + final.need
    {
      hide Run, ParseRanges, LimitOk, RangesBytes, ReadSoFar, FingerprintOf, Mirrors, Answer, Section, BoundRank,
           ReadRange, MessageBytes, BoundBytes, VarInt, Storage.Valid, Refused, Place;
      ghost var p := Self();
      NoRanges(p, haveIds, needIds);
      var query := query0;
      var v := Locals([PROTOCOL_VERSION], [], 0, Bound(0, []), false, haveIds, needIds);
      ghost var q: seq<Range> := [];
      NothingRead(query);
      while |query| > 0
        invariant Valid() && Self() == p && storage.IsOpen() && Tracks(p, q, query0, query, v, haveIds, needIds)
        decreases |query|
      {
        ghost var st := Run(p, q);
        ghost var lastIn, lastOut := lastTimestampIn, lastTimestampOut;
        var rest, v', upper, currBound, range := OneRange(query, size, v, st, haveIds, needIds);
        if rest.Err? {
          MirrorsIndex(v, st, haveIds, needIds, lastOut);
          RangeFails(p, query0, q, lastIn, query, range, st);
          return Err(rest.error), v'.have, v'.need;
        }
        ReadOneMore(query0, q, lastIn, query, range, rest.value);
        ghost var e := Answer(p, st, range, Section(p, st, range));
        ChunkAppended(v', e.st, e.o, haveIds, needIds, lastTimestampOut);
        if Exceeded(frameSizeLimit, |v'.fullOutput| + |v'.o|) {
          FrameFull(p, query0, q, rest.value, range, lastTimestampOut, st, e, v', haveIds, needIds);
          have, need := v'.have, v'.need;
          ghost var last := lastTimestampOut;
          var closing := EncodeRest(upper, size);
          assert v'.fullOutput + closing == v'.fullOutput + BoundBytes(last, INFINITY)
                                            + (VarInt(1) + FingerprintOf(hash, p.items[upper..]));
          r := Ok(v'.fullOutput + closing);
          return;
        }
        RangeDone(p, q, range, lastTimestampOut, st, e, v', haveIds, needIds);
        v := v'.(fullOutput := v'.fullOutput + v'.o, o := [], prevIndex := upper, prevBound := currBound);
        q := q + [range];
        query := rest.value;
      }
      ReadEnds(query0, q, lastTimestampIn, query);
      MirrorsIndex(v, Run(p, q), haveIds, needIds, lastTimestampOut);
      have, need := v.have, v.need;
      r := Ok(v.fullOutput);
    }
  }
}
