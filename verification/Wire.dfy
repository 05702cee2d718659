/** Messages: what they mean, how they are written as bytes and how bytes are read.

    A message is a version byte followed by ranges. A range is an upper bound and a payload; its lower bound is the
    upper bound of the range before it. Timestamps are written as differences to the one written before. */
module Wire {
  import opened Types
  import opened Accumulators
  import opened Encoding
  import opened SortedItems

  datatype Payload = Skip | Print(fingerprint: Fingerprint) | IdList(ids: seq<Id>)

  datatype Range = Range(upper: Bound, payload: Payload)

  // ---------- Fingerprints ----------

  /** The first 16 bytes of SHA-256. */
  type Hash = seq<byte> -> Fingerprint

  /** A size as a 64-bit word. */
  function Word(n: nat): uint64 {
    n % U64
  }

  function FingerprintOfSum(h: Hash, sum: Sum, count: uint64): Fingerprint {
    PowOf32();
    h(LeBytes(sum, 32) + VarInt(count))
  }

  function FingerprintOf(h: Hash, items: seq<Item>): Fingerprint {
    FingerprintOfSum(h, IdSum(items), Word(|items|))
  }

  /** What is hashed: the 32 bytes of the sum, and the count in as few digits as possible. */
  lemma PrintInput(h: Hash, items: seq<Item>) returns (s: seq<byte>, c: seq<byte>)
    ensures |s| == 32 && LeNum(s) == IdSum(items) && Spells(c, |items| % 0x1_0000_0000_0000_0000)
    ensures FingerprintOf(h, items) == h(s + c)
  {
    hide Spells, IdSum;
    PowOf32();
    VarIntSpells(Word(|items|));
    s, c := LeBytes(IdSum(items), 32), VarInt(Word(|items|));
  }

  /** Two fingerprints are hashes of the same input exactly if the sums and the counts, as 64-bit words, are the
      same. */
  lemma PrintInputs(h: Hash, a: seq<Item>, b: seq<Item>) returns (x: seq<byte>, y: seq<byte>)
    ensures FingerprintOf(h, a) == h(x) && FingerprintOf(h, b) == h(y)
    ensures x == y <==> IdSum(a) == IdSum(b) && |a| % 0x1_0000_0000_0000_0000 == |b| % 0x1_0000_0000_0000_0000
  {
    hide Spells, IdSum, FingerprintOf, VarInt, LeNum;
    var s, c := PrintInput(h, a);
    var t, d := PrintInput(h, b);
    x, y := s + c, t + d;
    var m, n := Word(|a|), Word(|b|);
    SpellsOne(c, m, n);
    SpellsExactly(c, m);
    SpellsExactly(d, n);
    assert x[..32] == s && y[..32] == t && x[32..] == c && y[32..] == d;
    if IdSum(a) == IdSum(b) {
      LeNumInjective(s, t);
    }
  }

  lemma SpellsOne(s: seq<byte>, m: nat, n: nat)
    ensures Spells(s, m) && Spells(s, n) ==> m == n
  {
  }

  function Ids(items: seq<Item>): (ids: seq<Id>)
    ensures |ids| == |items| && forall i :: 0 <= i < |items| ==> ids[i] == items[i].id
  {
    seq(|items|, i requires 0 <= i < |items| => items[i].id)
  }

  // ---------- Writing ----------

  function TimestampBytes(last: uint64, timestamp: uint64): seq<byte> {
    if timestamp == MAX_U64 then VarInt(0) else VarInt(((timestamp - last) % U64 + 1) % U64)
  }

  function BoundBytes(last: uint64, b: Bound): seq<byte> {
    TimestampBytes(last, b.timestamp) + VarInt(|b.prefix|) + b.prefix
  }

  function IdBytes(ids: seq<Id>): (s: seq<byte>)
    ensures |s| == 32 * |ids|
  {
    if ids == [] then [] else ids[0] + IdBytes(ids[1..])
  }

  function PayloadBytes(p: Payload): seq<byte> {
    match p
    case Skip => VarInt(0)
    case Print(f) => VarInt(1) + f
    case IdList(ids) => VarInt(2) + VarInt(Word(|ids|)) + IdBytes(ids)
  }

  function RangeBytes(last: uint64, r: Range): seq<byte> {
    BoundBytes(last, r.upper) + PayloadBytes(r.payload)
  }

  /** The timestamp written last after some ranges. */
  function LastTimestamp(last: uint64, rs: seq<Range>): uint64 {
    if rs == [] then last else rs[|rs| - 1].upper.timestamp
  }

  function RangesBytes(last: uint64, rs: seq<Range>): seq<byte>
    decreases |rs|
  {
    if rs == [] then [] else RangeBytes(last, rs[0]) + RangesBytes(rs[0].upper.timestamp, rs[1..])
  }

  function MessageBytes(rs: seq<Range>): seq<byte> {
    [PROTOCOL_VERSION] + RangesBytes(0, rs)
  }

  lemma {:induction false} RangesBytesConcat(last: uint64, a: seq<Range>, b: seq<Range>)
    ensures RangesBytes(last, a + b) == RangesBytes(last, a) + RangesBytes(LastTimestamp(last, a), b)
    decreases |a|
  {
    hide RangeBytes;
    if a == [] {
      assert a + b == b;
    } else {
      assert (a + b)[1..] == a[1..] + b;
      RangesBytesConcat(a[0].upper.timestamp, a[1..], b);
    }
  }

  lemma RangesBytesOne(last: uint64, r: Range)
    ensures RangesBytes(last, [r]) == RangeBytes(last, r)
  {
    assert [r][1..] == [];
    assert RangeBytes(last, r) + [] == RangeBytes(last, r);
  }

  lemma {:induction false} IdBytesSnoc(ids: seq<Id>, id: Id)
    ensures IdBytes(ids + [id]) == IdBytes(ids) + id
  {
    if ids == [] {
      assert ([] + [id])[1..] == [];
    } else {
      assert (ids + [id])[1..] == ids[1..] + [id];
      IdBytesSnoc(ids[1..], id);
    }
  }

  // ---------- Reading ----------

  /** Adds a difference to the last timestamp; the sum sticks at infinity. */
  function Resumed(last: uint64, code: uint64): (t: uint64)
    ensures last <= t
  {
    var offset := if code == 0 then MAX_U64 else code - 1;
    var t := (offset + last) % U64;
    if t < last then MAX_U64 else t
  }

  function ReadTimestamp(last: uint64, s: seq<byte>): Result<Parsed<uint64>> {
    var code :- ReadVarInt(0, s);
    Ok(Parsed(Resumed(last, code.value), code.rest))
  }

  function ReadBound(last: uint64, s: seq<byte>): Result<Parsed<Bound>> {
    var timestamp :- ReadTimestamp(last, s);
    var len :- ReadVarInt(0, timestamp.rest);
    var prefix :- ReadBytes(len.rest, len.value);
    if |prefix.value| > ID_SIZE then Err("bad id size for Bound")
    else Ok(Parsed(Bound(timestamp.value, prefix.value), prefix.rest))
  }

  function ReadIds(s: seq<byte>, n: nat): Result<Parsed<seq<Id>>> {
    if n == 0 then Ok(Parsed([], s))
    else
      var id :- ReadBytes(s, ID_SIZE);
      var more :- ReadIds(id.rest, n - 1);
      Ok(Parsed([id.value] + more.value, more.rest))
  }

  /** The mode is kept in 32 bits. */
  function ModeOf(code: uint64): int {
    code % 0x1_0000_0000
  }

  function ReadPayload(mode: int, s: seq<byte>): Result<Parsed<Payload>> {
    if mode == 0 then Ok(Parsed(Skip, s))
    else if mode == 1 then
      var f :- ReadBytes(s, FINGERPRINT_SIZE);
      Ok(Parsed(Print(f.value), f.rest))
    else if mode == 2 then
      var n :- ReadVarInt(0, s);
      var ids :- ReadIds(n.rest, n.value);
      Ok(Parsed(IdList(ids.value), ids.rest))
    else Err("unexpected mode")
  }

  function ReadRange(last: uint64, s: seq<byte>): Result<Parsed<Range>> {
    var upper :- ReadBound(last, s);
    var mode :- ReadVarInt(0, upper.rest);
    var payload :- ReadPayload(ModeOf(mode.value), mode.rest);
    Ok(Parsed(Range(upper.value, payload.value), payload.rest))
  }

  /** The ranges up to the end of the input or up to the first error. */
  datatype Parse = Parse(ranges: seq<Range>, error: Option<string>)

  lemma ReadVarIntShrinks(s: seq<byte>)
    requires ReadVarInt(0, s).Ok?
    ensures |ReadVarInt(0, s).value.rest| < |s|
  {
    ReadBelow(0, s, 0);
  }

  lemma {:induction false} ReadIdsShrinks(s: seq<byte>, n: nat)
    requires ReadIds(s, n).Ok?
    ensures |ReadIds(s, n).value.rest| <= |s|
  {
    if n > 0 {
      ReadIdsShrinks(ReadBytes(s, ID_SIZE).value.rest, n - 1);
    }
  }

  lemma ReadRangeShrinks(last: uint64, s: seq<byte>)
    requires ReadRange(last, s).Ok?
    ensures |ReadRange(last, s).value.rest| < |s|
  {
    hide ReadVarInt, ReadIds;
    var upper := ReadBound(last, s).value;
    ReadVarIntShrinks(s);
    ReadVarIntShrinks(ReadTimestamp(last, s).value.rest);
    ReadVarIntShrinks(upper.rest);
    var mode := ReadVarInt(0, upper.rest).value;
    if ModeOf(mode.value) == 2 {
      ReadVarIntShrinks(mode.rest);
      var n := ReadVarInt(0, mode.rest).value;
      ReadIdsShrinks(n.rest, n.value);
    }
  }

  function ParseRanges(last: uint64, s: seq<byte>): Parse
    decreases |s|
  {
    if s == [] then Parse([], None)
    else
      var r := ReadRange(last, s);
      if r.Err? then Parse([], Some(r.error))
      else
        ReadRangeShrinks(last, s);
        var more := ParseRanges(r.value.value.upper.timestamp, r.value.rest);
        Parse([r.value.value] + more.ranges, more.error)
  }

  // ---------- Round trips ----------

  lemma TimestampResumes(last: uint64, t: uint64)
    ensures var code := if t == MAX_U64 then 0 else ((t - last) % U64 + 1) % U64;
            Resumed(last, code) == if last <= t then t else MAX_U64
  {
  }

  lemma TimestampRoundTrip(last: uint64, t: uint64, rest: seq<byte>)
    ensures ReadTimestamp(last, TimestampBytes(last, t) + rest) == Ok(Parsed(if last <= t then t else MAX_U64, rest))
  {
    hide ReadVarInt, VarInt, Resumed;
    VarIntRoundTrip(if t == MAX_U64 then 0 else ((t - last) % U64 + 1) % U64, rest);
    TimestampResumes(last, t);
  }

  /** A bound is read back exactly when its timestamp is not below the one before; otherwise it is read as infinity. */
  lemma BoundRoundTrip(last: uint64, b: Bound, rest: seq<byte>)
    ensures ReadBound(last, BoundBytes(last, b) + rest)
            == Ok(Parsed(Bound(if last <= b.timestamp then b.timestamp else MAX_U64, b.prefix), rest))
    ensures ReadBound(last, BoundBytes(last, b) + rest) == Ok(Parsed(b, rest)) <==> last <= b.timestamp
  {
    hide ReadVarInt, VarInt, ReadTimestamp, TimestampBytes;
    var t, n := TimestampBytes(last, b.timestamp), VarInt(|b.prefix|);
    assert BoundBytes(last, b) + rest == t + (n + (b.prefix + rest));
    TimestampRoundTrip(last, b.timestamp, n + (b.prefix + rest));
    VarIntRoundTrip(|b.prefix|, b.prefix + rest);
    ReadBytesBack(b.prefix, rest);
  }

  /** A bound with a timestamp below the last one is not read back. */
  lemma BoundBackInTime()
    ensures var b := Bound(3, []); ReadBound(5, BoundBytes(5, b)) != Ok(Parsed(b, []))
  {
    hide ReadBound, BoundBytes;
    var b := Bound(3, []);
    assert BoundBytes(5, b) + [] == BoundBytes(5, b);
    BoundRoundTrip(5, b, []);
  }

  lemma {:induction false} VarIntError(res: uint64, s: seq<byte>)
    requires ReadVarInt(res, s).Err?
    ensures ReadVarInt(res, s).error == "premature end of varint"
    decreases |s|
  {
    if s != [] {
      VarIntError(Shifted(res, s[0]), s[1..]);
    }
  }

  lemma {:induction false} IdsError(s: seq<byte>, n: nat)
    requires ReadIds(s, n).Err?
    ensures ReadIds(s, n).error == "parse ends prematurely"
  {
    if n > 0 && ReadBytes(s, ID_SIZE).Ok? {
      IdsError(ReadBytes(s, ID_SIZE).value.rest, n - 1);
    }
  }

  /** A mode is refused exactly if its lowest 32 bits are not those of a known mode. */
  lemma ModeRefused(last: uint64, s: seq<byte>)
    requires ReadBound(last, s).Ok? && ReadVarInt(0, ReadBound(last, s).value.rest).Ok?
    ensures var mode := ReadVarInt(0, ReadBound(last, s).value.rest).value.value;
            ReadRange(last, s) == Err("unexpected mode") <==> mode % 0x1_0000_0000 > 2
  {
    hide ReadVarInt, ReadBound, ReadIds;
    var mode := ReadVarInt(0, ReadBound(last, s).value.rest).value;
    assert "unexpected mode"[0] == 'u' && "premature end of varint"[0] == "parse ends prematurely"[0] == 'p';
    if ModeOf(mode.value) == 2 {
      if ReadVarInt(0, mode.rest).Err? {
        VarIntError(0, mode.rest);
      } else {
        var n := ReadVarInt(0, mode.rest).value;
        if ReadIds(n.rest, n.value).Err? {
          IdsError(n.rest, n.value);
        }
      }
    }
  }

  /** The number 2^32 is taken for a Skip. */
  lemma WideModeExample(b: Bound)
    ensures ReadRange(0, BoundBytes(0, b) + VarInt(0x1_0000_0000)) == Ok(Parsed(Range(b, Skip), []))
  {
    hide ReadVarInt, ReadBound, BoundBytes, VarInt;
    BoundRoundTrip(0, b, VarInt(0x1_0000_0000));
    VarIntRoundTrip(0x1_0000_0000, []);
    assert VarInt(0x1_0000_0000) + [] == VarInt(0x1_0000_0000);
  }

  lemma ReadBytesBack(s: seq<byte>, rest: seq<byte>)
    ensures ReadBytes(s + rest, |s|) == Ok(Parsed(s, rest))
  {
    assert (s + rest)[..|s|] == s && (s + rest)[|s|..] == rest;
  }

  lemma {:induction false} IdsRoundTrip(ids: seq<Id>, rest: seq<byte>)
    ensures ReadIds(IdBytes(ids) + rest, |ids|) == Ok(Parsed(ids, rest))
  {
    if ids == [] {
      assert IdBytes(ids) + rest == rest;
    } else {
      assert IdBytes(ids) + rest == ids[0] + (IdBytes(ids[1..]) + rest);
      ReadBytesBack(ids[0], IdBytes(ids[1..]) + rest);
      IdsRoundTrip(ids[1..], rest);
      assert [ids[0]] + ids[1..] == ids;
    }
  }

  /** Lists are short enough for a 64-bit count. */
  ghost predicate Countable(rs: seq<Range>) {
    forall r :: r in rs && r.payload.IdList? ==> |r.payload.ids| < U64
  }

  /** Timestamps do not decrease. */
  ghost predicate Chronological(last: uint64, rs: seq<Range>)
    decreases |rs|
  {
    rs == [] || (last <= rs[0].upper.timestamp && Chronological(rs[0].upper.timestamp, rs[1..]))
  }

  lemma RangeRoundTrip(last: uint64, r: Range, rest: seq<byte>)
    requires last <= r.upper.timestamp && Countable([r])
    ensures ReadRange(last, RangeBytes(last, r) + rest) == Ok(Parsed(r, rest))
  {
    hide ReadVarInt, VarInt, ReadBound, BoundBytes, ReadIds, IdBytes;
    assert r in [r];
    assert RangeBytes(last, r) + rest == BoundBytes(last, r.upper) + (PayloadBytes(r.payload) + rest);
    BoundRoundTrip(last, r.upper, PayloadBytes(r.payload) + rest);
    match r.payload
    case Skip =>
      VarIntRoundTrip(0, rest);
    case Print(f) =>
      assert PayloadBytes(r.payload) + rest == VarInt(1) + (f + rest);
      VarIntRoundTrip(1, f + rest);
      ReadBytesBack(f, rest);
    case IdList(ids) =>
      assert PayloadBytes(r.payload) + rest == VarInt(2) + (VarInt(|ids|) + (IdBytes(ids) + rest));
      VarIntRoundTrip(2, VarInt(|ids|) + (IdBytes(ids) + rest));
      VarIntRoundTrip(|ids|, IdBytes(ids) + rest);
      IdsRoundTrip(ids, rest);
  }

  /** Ranges in chronological order are read back exactly, and all input is consumed. */
  lemma {:induction false} RangesRoundTrip(last: uint64, rs: seq<Range>)
    requires Chronological(last, rs) && Countable(rs)
    ensures ParseRanges(last, RangesBytes(last, rs)) == Parse(rs, None)
    decreases |rs|
  {
    hide RangeBytes, ReadRange;
    if rs != [] {
      var rest := RangesBytes(rs[0].upper.timestamp, rs[1..]);
      assert rs[0] in rs;
      assert Countable(rs[1..]) by {
        forall r | r in rs[1..] && r.payload.IdList? ensures |r.payload.ids| < U64 {
          assert r in rs;
        }
      }
      RangeRoundTrip(last, rs[0], rest);
      ReadRangeShrinks(last, RangeBytes(last, rs[0]) + rest);
      RangesRoundTrip(rs[0].upper.timestamp, rs[1..]);
      assert [rs[0]] + rs[1..] == rs;
    }
  }
}
