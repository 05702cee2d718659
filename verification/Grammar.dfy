/** The wire format, stated by itself: what stands at the front of a byte string, how ranges are spelled, and what is
    wrong with bytes that are no range. The readers and writers are proved to agree with it, both ways. */
module Grammar {
  import opened Types
  import opened Encoding
  import opened Wire

  // ---------- What stands at the front ----------

  /** A number `c` for a timestamp: 0 stands for infinity, any other for `c - 1` after the timestamp before, or for
      infinity if that is too late. */
  ghost predicate TimestampAt(last: uint64, s: seq<byte>, t: uint64, rest: seq<byte>) {
    exists c: nat :: NumberAt(s, c, rest) && Means(last, c, t)
  }

  ghost predicate Means(last: uint64, c: nat, t: uint64) {
    t == if c == 0 || last + c - 1 > 0xFFFF_FFFF_FFFF_FFFF then 0xFFFF_FFFF_FFFF_FFFF else last + c - 1
  }

  /** A timestamp, the length of a prefix, and the prefix. */
  ghost predicate BoundAt(last: uint64, s: seq<byte>, b: Bound, rest: seq<byte>) {
    exists more :: TimestampAt(last, s, b.timestamp, more) && NumberAt(more, |b.prefix|, b.prefix + rest)
  }

  /** Ids of 32 bytes, one after the other. */
  ghost predicate IdsAt(s: seq<byte>, ids: seq<Id>, rest: seq<byte>) {
    && |s| == 32 * |ids| + |rest| && s[32 * |ids|..] == rest
    && forall i :: 0 <= i < |ids| ==> s[32 * i..32 * i + 32] == ids[i]
  }

  ghost predicate PayloadAt(mode: int, s: seq<byte>, p: Payload, rest: seq<byte>) {
    match p
    case Skip => mode == 0 && s == rest
    case Print(f) => mode == 1 && s == f + rest
    case IdList(ids) => mode == 2 && exists more :: NumberAt(s, |ids|, more) && IdsAt(more, ids, rest)
  }

  /** An upper bound, a mode of which the lowest 32 bits count, and the payload. */
  ghost predicate RangeAt(last: uint64, s: seq<byte>, r: Range, rest: seq<byte>) {
    exists s1, mode: nat, s2 :: BoundAt(last, s, r.upper, s1) && ModeAt(s1, mode, s2)
                             && PayloadAt(mode, s2, r.payload, rest)
  }

  ghost predicate ModeAt(s: seq<byte>, mode: nat, rest: seq<byte>) {
    exists c: nat :: NumberAt(s, c, rest) && mode == c % 0x1_0000_0000
  }

  ghost predicate RangesAt(last: uint64, s: seq<byte>, rs: seq<Range>, rest: seq<byte>)
    decreases |rs|
  {
    if rs == [] then s == rest
    else exists more :: RangeAt(last, s, rs[0], more) && RangesAt(rs[0].upper.timestamp, more, rs[1..], rest)
  }

  // ---------- What is wrong ----------

  /** The length of a prefix of a bound, and what follows it. */
  ghost predicate LengthAt(s: seq<byte>, n: nat, rest: seq<byte>) {
    exists c: nat, more :: NumberAt(s, c, more) && NumberAt(more, n, rest)
  }

  /** Bytes that do not start with a bound, and the error they are refused with. */
  ghost predicate BoundErrorAt(s: seq<byte>, e: string) {
    || (e == "premature end of varint" && (!HasNumber(s) || exists c: nat, s1 :: NumberAt(s, c, s1) && !HasNumber(s1)))
    || (e == "parse ends prematurely" && exists n: nat, s1 :: LengthAt(s, n, s1) && |s1| < n)
    || (e == "bad id size for Bound" && exists n: nat, s1 :: LengthAt(s, n, s1) && 32 < n <= |s1|)
  }

  /** Bytes that do not start with the payload of a mode, and the error they are refused with. */
  ghost predicate PayloadErrorAt(mode: int, s: seq<byte>, e: string) {
    || (e == "premature end of varint" && mode == 2 && !HasNumber(s))
    || (e == "parse ends prematurely" && mode == 1 && |s| < 16)
    || (e == "parse ends prematurely" && mode == 2 && exists n: nat, s1 :: NumberAt(s, n, s1) && |s1| < 32 * n)
    || (e == "unexpected mode" && mode > 2)
  }

  /** Bytes that do not start with a range, and the error they are refused with. */
  ghost predicate ErrorAt(last: uint64, s: seq<byte>, e: string) {
    || BoundErrorAt(s, e)
    || (e == "premature end of varint" && exists b, s1 :: BoundAt(last, s, b, s1) && !HasNumber(s1))
    || exists b, s1, mode: nat, s2 :: BoundAt(last, s, b, s1) && ModeAt(s1, mode, s2) && PayloadErrorAt(mode, s2, e)
  }

  /** Where the ranges of a message end: at the end of the input, or before bytes that are no range. */
  ghost predicate EndsWith(last: uint64, rest: seq<byte>, e: Option<string>) {
    if rest == [] then e == None else e.Some? && ErrorAt(last, rest, e.value)
  }

  // ---------- How ranges are spelled ----------

  ghost predicate PayloadSpelled(p: Payload, s: seq<byte>) {
    match p
    case Skip => Spells(s, 0)
    case Print(f) => exists mode :: s == mode + f && Spells(mode, 1)
    case IdList(ids) =>
      exists mode, c, raw ::
        s == mode + (c + raw) && Spells(mode, 2) && Spells(c, |ids| % 0x1_0000_0000_0000_0000) && IdsAt(raw, ids, [])
  }

  /** Every number has as few digits as possible. The number for a timestamp is 0 for infinity, and otherwise one more
      than what has to be added to the timestamp before, in 64 bits. */
  ghost predicate BoundSpelled(last: uint64, b: Bound, s: seq<byte>) {
    exists t, n ::
      && s == t + n + b.prefix && Spells(n, |b.prefix|)
      && Spells(t, if b.timestamp == 0xFFFF_FFFF_FFFF_FFFF then 0
                   else (1 + b.timestamp - last) % 0x1_0000_0000_0000_0000)
  }

  ghost predicate RangeSpelled(last: uint64, r: Range, s: seq<byte>) {
    exists b, p :: s == b + p && BoundSpelled(last, r.upper, b) && PayloadSpelled(r.payload, p)
  }

  ghost predicate RangesSpelled(last: uint64, rs: seq<Range>, s: seq<byte>)
    decreases |rs|
  {
    if rs == [] then s == []
    else exists front, back :: s == front + back && RangeSpelled(last, rs[0], front)
                            && RangesSpelled(rs[0].upper.timestamp, rs[1..], back)
  }

  // ---------- The readers agree ----------

  lemma Numbers(s: seq<byte>)
    ensures forall n: nat, rest ::
              NumberAt(s, n, rest) <==> ReadVarInt(0, s).Ok? && ReadVarInt(0, s).value == Parsed(n, rest)
    ensures ReadVarInt(0, s).Ok? <==> HasNumber(s)
    ensures ReadVarInt(0, s).Err? ==> ReadVarInt(0, s).error == "premature end of varint"
  {
    hide ReadVarInt, NumberAt, HasNumber;
    NumberRead(s);
    forall n: nat, rest
      ensures NumberAt(s, n, rest) <==> ReadVarInt(0, s).Ok? && ReadVarInt(0, s).value == Parsed(n, rest)
    {
      NumberIs(s, n, rest);
    }
  }

  lemma TimestampRead(last: uint64, s: seq<byte>, t: uint64, rest: seq<byte>)
    ensures ReadTimestamp(last, s) == Ok(Parsed(t, rest)) <==> TimestampAt(last, s, t, rest)
    ensures ReadTimestamp(last, s).Ok? <==> HasNumber(s)
    ensures ReadTimestamp(last, s).Err? ==> ReadTimestamp(last, s).error == "premature end of varint"
  {
    hide ReadVarInt, NumberAt, HasNumber, Means, Resumed;
    Numbers(s);
    if ReadVarInt(0, s).Ok? {
      CodeMeans(last, ReadVarInt(0, s).value.value);
    }
  }

  lemma CodeMeans(last: uint64, c: uint64)
    ensures forall t :: Means(last, c, t) <==> t == Resumed(last, c)
  {
  }

  lemma BoundRead(last: uint64, s: seq<byte>, b: Bound, rest: seq<byte>)
    ensures ReadBound(last, s) == Ok(Parsed(b, rest)) <==> BoundAt(last, s, b, rest)
  {
    hide ReadVarInt, NumberAt, HasNumber, ReadTimestamp, TimestampAt, ReadBytes;
    if BoundAt(last, s, b, rest) {
      var more :| TimestampAt(last, s, b.timestamp, more) && NumberAt(more, |b.prefix|, b.prefix + rest);
      TimestampRead(last, s, b.timestamp, more);
      NumberIs(more, |b.prefix|, b.prefix + rest);
      ReadBytesBack(b.prefix, rest);
    }
    if ReadBound(last, s) == Ok(Parsed(b, rest)) {
      var t := ReadTimestamp(last, s).value;
      TimestampRead(last, s, t.value, t.rest);
      var n := ReadVarInt(0, t.rest).value;
      NumberIs(t.rest, n.value, n.rest);
      assert ReadBytes(n.rest, n.value) == Ok(Parsed(b.prefix, rest));
      BytesRead(n.rest, n.value, b.prefix, rest);
    }
  }

  lemma BytesRead(s: seq<byte>, n: nat, front: seq<byte>, rest: seq<byte>)
    ensures ReadBytes(s, n) == Ok(Parsed(front, rest)) <==> s == front + rest && |front| == n
  {
    if s == front + rest && |front| == n {
      ReadBytesBack(front, rest);
    }
  }

  lemma BoundUnread(last: uint64, s: seq<byte>, e: string)
    ensures ReadBound(last, s) == Err(e) <==> BoundErrorAt(s, e)
  {
    hide ReadVarInt, NumberAt, HasNumber, Resumed;
    Numbers(s);
    var time := ReadVarInt(0, s);
    if time.Err? {
      assert forall n: nat, rest :: !LengthAt(s, n, rest);
    } else {
      Numbers(time.value.rest);
      var len := ReadVarInt(0, time.value.rest);
      assert forall n: nat, rest :: LengthAt(s, n, rest) <==> len.Ok? && len.value == Parsed(n, rest);
    }
  }

  lemma {:induction false} IdsRead(s: seq<byte>, ids: seq<Id>, rest: seq<byte>)
    ensures ReadIds(s, |ids|) == Ok(Parsed(ids, rest)) <==> IdsAt(s, ids, rest)
  {
    if ids == [] {
    } else if |s| >= 32 {
      var id := ReadBytes(s, 32).value;
      IdsRead(id.rest, ids[1..], rest);
      IdsMore(s, ids, rest);
      assert [ids[0]] + ids[1..] == ids;
      IdsCount(id.rest, |ids| - 1);
    }
  }

  lemma {:induction false} IdsCount(s: seq<byte>, n: nat)
    ensures ReadIds(s, n).Ok? <==> |s| >= 32 * n
    ensures ReadIds(s, n).Ok? ==> |ReadIds(s, n).value.value| == n
    ensures ReadIds(s, n).Err? ==> ReadIds(s, n).error == "parse ends prematurely"
  {
    if n > 0 && |s| >= 32 {
      IdsCount(s[32..], n - 1);
    }
  }

  lemma IdsMore(s: seq<byte>, ids: seq<Id>, rest: seq<byte>)
    requires |s| >= 32 && ids != []
    ensures IdsAt(s, ids, rest) <==> s[..32] == ids[0] && IdsAt(s[32..], ids[1..], rest)
  {
    var more, t := ids[1..], s[32..];
    if IdsAt(s, ids, rest) {
      IdAt(s, ids, rest, 0);
      forall i | 0 <= i < |more| ensures t[32 * i..32 * i + 32] == more[i] {
        IdShifted(s, i);
        IdAt(s, ids, rest, i + 1);
      }
      assert t[32 * |more|..] == rest;
    }
    if s[..32] == ids[0] && IdsAt(t, more, rest) {
      forall i | 0 <= i < |ids| ensures s[32 * i..32 * i + 32] == ids[i] {
        if i > 0 {
          IdShifted(s, i - 1);
          IdAt(t, more, rest, i - 1);
        }
      }
      assert s[32 * |ids|..] == rest;
    }
  }

  lemma IdAt(s: seq<byte>, ids: seq<Id>, rest: seq<byte>, i: nat)
    requires IdsAt(s, ids, rest) && i < |ids|
    ensures s[32 * i..32 * i + 32] == ids[i]
  {
  }

  lemma IdShifted(s: seq<byte>, i: nat)
    requires 32 * i + 64 <= |s|
    ensures s[32..][32 * i..32 * i + 32] == s[32 * (i + 1)..32 * (i + 1) + 32]
  {
  }

  lemma PayloadRead(mode: nat, s: seq<byte>, p: Payload, rest: seq<byte>)
    ensures ReadPayload(mode, s) == Ok(Parsed(p, rest)) <==> PayloadAt(mode, s, p, rest)
  {
    hide ReadVarInt, NumberAt, HasNumber, IdsAt, ReadIds, ReadBytes;
    Numbers(s);
    if p.Print? {
      BytesRead(s, 16, p.fingerprint, rest);
    } else if p.IdList? && ReadVarInt(0, s).Ok? {
      var n := ReadVarInt(0, s).value;
      IdsCount(n.rest, n.value);
      IdsRead(n.rest, p.ids, rest);
    }
  }

  lemma PayloadUnread(mode: nat, s: seq<byte>, e: string)
    ensures ReadPayload(mode, s) == Err(e) <==> PayloadErrorAt(mode, s, e)
  {
    hide ReadVarInt, NumberAt, HasNumber, ReadIds;
    Numbers(s);
    if ReadVarInt(0, s).Ok? {
      var n := ReadVarInt(0, s).value;
      IdsCount(n.rest, n.value);
    }
  }

  lemma Modes(s: seq<byte>)
    ensures forall mode: nat, rest :: ModeAt(s, mode, rest) <==>
              var c := ReadVarInt(0, s);
              c.Ok? && ModeOf(c.value.value) == mode && c.value.rest == rest
  {
    hide ReadVarInt, NumberAt, HasNumber;
    Numbers(s);
  }

  /** A range is read exactly if it stands at the front. */
  lemma RangeRead(last: uint64, s: seq<byte>, r: Range, rest: seq<byte>)
    ensures ReadRange(last, s) == Ok(Parsed(r, rest)) <==> RangeAt(last, s, r, rest)
  {
    hide ReadVarInt, ReadBound, ReadPayload, BoundAt, ModeAt, PayloadAt;
    if RangeAt(last, s, r, rest) {
      var s1, mode: nat, s2 :| BoundAt(last, s, r.upper, s1) && ModeAt(s1, mode, s2)
                               && PayloadAt(mode, s2, r.payload, rest);
      BoundRead(last, s, r.upper, s1);
      Modes(s1);
      PayloadRead(mode, s2, r.payload, rest);
    }
    if ReadRange(last, s) == Ok(Parsed(r, rest)) {
      var s1 := ReadBound(last, s).value.rest;
      BoundRead(last, s, r.upper, s1);
      Modes(s1);
      var mode := ReadVarInt(0, s1).value;
      PayloadRead(ModeOf(mode.value), mode.rest, r.payload, rest);
      assert ModeAt(s1, ModeOf(mode.value), mode.rest);
    }
  }

  /** A range is refused with an error exactly if the bytes show it. */
  lemma RangeUnread(last: uint64, s: seq<byte>, e: string)
    ensures ReadRange(last, s) == Err(e) <==> ErrorAt(last, s, e)
  {
    hide ReadVarInt, ReadBound, ReadPayload, BoundAt, ModeAt, PayloadErrorAt, BoundErrorAt, HasNumber;
    BoundUnread(last, s, e);
    var upper := ReadBound(last, s);
    forall b, s1 ensures BoundAt(last, s, b, s1) <==> upper == Ok(Parsed(b, s1)) {
      BoundRead(last, s, b, s1);
    }
    if upper.Ok? {
      var s1 := upper.value.rest;
      Numbers(s1);
      Modes(s1);
      if ReadVarInt(0, s1).Ok? {
        var mode := ReadVarInt(0, s1).value;
        PayloadUnread(ModeOf(mode.value), mode.rest, e);
        assert ModeAt(s1, ModeOf(mode.value), mode.rest);
      }
    }
  }

  /** The ranges of a message are those that stand at its front, up to its end or up to what is no range. */
  lemma ParseIs(last: uint64, s: seq<byte>, rs: seq<Range>, e: Option<string>)
    ensures ParseRanges(last, s) == Parse(rs, e)
       <==> exists rest :: RangesAt(last, s, rs, rest) && EndsWith(LastTimestamp(last, rs), rest, e)
  {
    hide ParseRanges, RangesAt, EndsWith, LastTimestamp;
    var rest := ParseEnds(last, s);
    forall rest' | RangesAt(last, s, rs, rest') && EndsWith(LastTimestamp(last, rs), rest', e)
      ensures ParseRanges(last, s) == Parse(rs, e)
    {
      EndsParse(last, s, rs, rest', e);
    }
  }

  lemma {:induction false} ParseEnds(last: uint64, s: seq<byte>) returns (rest: seq<byte>)
    ensures var p := ParseRanges(last, s);
            RangesAt(last, s, p.ranges, rest) && EndsWith(LastTimestamp(last, p.ranges), rest, p.error)
    decreases |s|
  {
    hide ReadRange, RangeAt, ErrorAt, RangesAt, LastTimestamp;
    rest := s;
    NothingAt(last, s);
    if s != [] {
      var r := ReadRange(last, s);
      if r.Err? {
        RangeUnread(last, s, r.error);
      } else {
        ReadRangeShrinks(last, s);
        rest := ParseEnds(r.value.value.upper.timestamp, r.value.rest);
        RangeRead(last, s, r.value.value, r.value.rest);
        RangeBefore(last, s, r.value.value, r.value.rest,
                    ParseRanges(r.value.value.upper.timestamp, r.value.rest).ranges, rest);
      }
    }
  }

  lemma NothingAt(last: uint64, s: seq<byte>)
    ensures RangesAt(last, s, [], s) && LastTimestamp(last, []) == last
  {
  }

  lemma RangeBefore(last: uint64, s: seq<byte>, r: Range, more: seq<byte>, rs: seq<Range>, rest: seq<byte>)
    requires RangeAt(last, s, r, more) && RangesAt(r.upper.timestamp, more, rs, rest)
    ensures RangesAt(last, s, [r] + rs, rest) && LastTimestamp(last, [r] + rs) == LastTimestamp(r.upper.timestamp, rs)
  {
    hide RangeAt;
    var all := [r] + rs;
    assert all[1..] == rs;
    assert RangeAt(last, s, all[0], more) && RangesAt(all[0].upper.timestamp, more, all[1..], rest);
  }

  lemma {:induction false} EndsParse(last: uint64, s: seq<byte>, rs: seq<Range>, rest: seq<byte>, e: Option<string>)
    requires RangesAt(last, s, rs, rest) && EndsWith(LastTimestamp(last, rs), rest, e)
    ensures ParseRanges(last, s) == Parse(rs, e)
    decreases |rs|
  {
    hide ReadRange, RangeAt, ErrorAt;
    if rs == [] {
      if s != [] {
        RangeUnread(last, s, e.value);
      }
    } else {
      var more :| RangeAt(last, s, rs[0], more) && RangesAt(rs[0].upper.timestamp, more, rs[1..], rest);
      RangeRead(last, s, rs[0], more);
      NoRangeInNothing(last);
      EndsParse(rs[0].upper.timestamp, more, rs[1..], rest, e);
      assert [rs[0]] + rs[1..] == rs;
    }
  }

  lemma NoRangeInNothing(last: uint64)
    ensures ReadRange(last, []).Err?
  {
  }

  // ---------- The writers agree ----------

  lemma {:induction false} IdsSpelled(s: seq<byte>, ids: seq<Id>)
    ensures IdsAt(s, ids, []) <==> s == IdBytes(ids)
  {
    if ids != [] {
      var id := ids[0];
      if |s| >= 32 {
        IdsMore(s, ids, []);
        IdsSpelled(s[32..], ids[1..]);
        assert s == s[..32] + s[32..];
      }
    }
  }

  lemma PayloadSpelling(p: Payload, s: seq<byte>)
    ensures s == PayloadBytes(p) <==> PayloadSpelled(p, s)
  {
    hide Spells, VarInt, IdsAt, IdBytes;
    forall t, n: uint64 ensures Spells(t, n) <==> t == VarInt(n) {
      SpellsExactly(t, n);
    }
    match p
    case Skip =>
    case Print(f) =>
    case IdList(ids) =>
      forall raw ensures IdsAt(raw, ids, []) <==> raw == IdBytes(ids) {
        IdsSpelled(raw, ids);
      }
      var count := VarInt(Word(|ids|));
      assert VarInt(2) + count + IdBytes(ids) == VarInt(2) + (count + IdBytes(ids));
  }

  lemma BoundSpelling(last: uint64, b: Bound, s: seq<byte>)
    ensures s == BoundBytes(last, b) <==> BoundSpelled(last, b, s)
  {
    hide Spells, VarInt;
    var code := if b.timestamp == MAX_U64 then 0 else (1 + b.timestamp - last) % U64;
    CodeWritten(last, b.timestamp);
    forall t ensures Spells(t, code) <==> t == VarInt(code) {
      SpellsExactly(t, code);
    }
    forall t ensures Spells(t, |b.prefix|) <==> t == VarInt(|b.prefix|) {
      SpellsExactly(t, |b.prefix|);
    }
  }

  lemma CodeWritten(last: uint64, t: uint64)
    ensures ((t - last) % U64 + 1) % U64 == (1 + t - last) % U64
  {
  }

  /** A range is written exactly as it is spelled. */
  lemma RangeSpelling(last: uint64, r: Range, s: seq<byte>)
    ensures s == RangeBytes(last, r) <==> RangeSpelled(last, r, s)
  {
    hide BoundBytes, PayloadBytes, BoundSpelled, PayloadSpelled;
    forall b ensures b == BoundBytes(last, r.upper) <==> BoundSpelled(last, r.upper, b) {
      BoundSpelling(last, r.upper, b);
    }
    forall t ensures t == PayloadBytes(r.payload) <==> PayloadSpelled(r.payload, t) {
      PayloadSpelling(r.payload, t);
    }
  }

  lemma {:induction false} RangesSpelling(last: uint64, rs: seq<Range>, s: seq<byte>)
    ensures s == RangesBytes(last, rs) <==> RangesSpelled(last, rs, s)
    decreases |rs|
  {
    hide RangeBytes, RangeSpelled;
    if rs != [] {
      forall front ensures front == RangeBytes(last, rs[0]) <==> RangeSpelled(last, rs[0], front) {
        RangeSpelling(last, rs[0], front);
      }
      var next := rs[0].upper.timestamp;
      forall back ensures back == RangesBytes(next, rs[1..]) <==> RangesSpelled(next, rs[1..], back) {
        RangesSpelling(next, rs[1..], back);
      }
      if s == RangesBytes(last, rs) {
        assert s == RangeBytes(last, rs[0]) + RangesBytes(next, rs[1..]);
      }
    }
  }

  /** A message is written exactly as it is spelled: the version byte and its ranges. */
  lemma MessageSpelling(rs: seq<Range>, s: seq<byte>)
    ensures s == MessageBytes(rs) <==> s != [] && s[0] == 0x61 && RangesSpelled(0, rs, s[1..])
  {
    hide RangesBytes, RangesSpelled;
    if s != [] {
      RangesSpelling(0, rs, s[1..]);
      assert s == [s[0]] + s[1..];
    }
  }

  // ---------- Ranges that are cut off ----------

  /** How many bytes of a payload are no numbers. */
  function RawBytes(p: Payload): nat {
    match p
    case Skip => 0
    case Print(_) => 16
    case IdList(ids) => 32 * |ids|
  }

  /** The error a range is refused with when only its first `k` bytes arrive. */
  function CutError(last: uint64, r: Range, k: nat): string {
    var bound, all := |BoundBytes(last, r.upper)|, |RangeBytes(last, r)|;
    if bound - |r.upper.prefix| <= k < bound || all - RawBytes(r.payload) <= k then "parse ends prematurely"
    else "premature end of varint"
  }

  lemma CutNumber(n: uint64, k: nat)
    requires k < |VarInt(n)|
    ensures ReadVarInt(0, VarInt(n)[..k]) == Err("premature end of varint")
  {
    hide Spelled, Digits;
    VarIntSpells(n);
    Numbers(VarInt(n)[..k]);
  }

  lemma CutBound(last: uint64, b: Bound, k: nat)
    requires k < |BoundBytes(last, b)|
    ensures ReadBound(last, BoundBytes(last, b)[..k])
         == Err(if k < |BoundBytes(last, b)| - |b.prefix| then "premature end of varint" else "parse ends prematurely")
  {
    hide ReadVarInt, VarInt, Resumed;
    var code := if b.timestamp == MAX_U64 then 0 else ((b.timestamp - last) % U64 + 1) % U64;
    var t, n, s := VarInt(code), VarInt(|b.prefix|), BoundBytes(last, b)[..k];
    if k < |t| {
      assert s == t[..k];
      CutNumber(code, k);
    } else if k < |t| + |n| {
      assert s == t + n[..k - |t|];
      VarIntRoundTrip(code, n[..k - |t|]);
      CutNumber(|b.prefix|, k - |t|);
    } else {
      var front := b.prefix[..k - |t| - |n|];
      assert s == t + (n + front);
      VarIntRoundTrip(code, n + front);
      VarIntRoundTrip(|b.prefix|, front);
    }
  }

  lemma CutPayload(p: Payload, k: nat)
    requires k < |PayloadBytes(p)| && (p.IdList? ==> |p.ids| < U64)
    ensures var mode := ReadVarInt(0, PayloadBytes(p)[..k]);
            if k < |PayloadBytes(p)| - RawBytes(p) then
              mode == Err("premature end of varint")
              || (mode.Ok? && ReadPayload(ModeOf(mode.value.value), mode.value.rest) == Err("premature end of varint"))
            else
              mode.Ok? && ReadPayload(ModeOf(mode.value.value), mode.value.rest) == Err("parse ends prematurely")
  {
    hide ReadVarInt, VarInt, ReadPayload, IdBytes;
    match p
    case Skip =>
      assert VarInt(0)[..k] == PayloadBytes(p)[..k];
      CutNumber(0, k);
    case Print(f) =>
      CutMode(1, f, k);
      if k >= |VarInt(1)| {
        CutPrint(f[..k - |VarInt(1)|]);
      }
    case IdList(ids) =>
      assert PayloadBytes(p) == VarInt(2) + (VarInt(|ids|) + IdBytes(ids));
      CutMode(2, VarInt(|ids|) + IdBytes(ids), k);
      if k >= |VarInt(2)| {
        CutList(ids, k - |VarInt(2)|);
      }
  }

  /** The mode is read, or it is cut off. */
  lemma CutMode(mode: uint64, body: seq<byte>, k: nat)
    requires k < |VarInt(mode) + body|
    ensures ReadVarInt(0, (VarInt(mode) + body)[..k])
         == if k < |VarInt(mode)| then Err("premature end of varint")
            else Ok(Parsed(mode, body[..k - |VarInt(mode)|]))
  {
    hide ReadVarInt, VarInt;
    var m := VarInt(mode);
    if k < |m| {
      assert (m + body)[..k] == m[..k];
      CutNumber(mode, k);
    } else {
      assert (m + body)[..k] == m + body[..k - |m|];
      VarIntRoundTrip(mode, body[..k - |m|]);
    }
  }

  lemma CutPrint(s: seq<byte>)
    requires |s| < 16
    ensures ReadPayload(1, s) == Err("parse ends prematurely")
  {
  }

  lemma CutList(ids: seq<Id>, k: nat)
    requires |ids| < U64 && k < |VarInt(|ids|)| + 32 * |ids|
    ensures ReadPayload(2, (VarInt(|ids|) + IdBytes(ids))[..k])
         == Err(if k < |VarInt(|ids|)| then "premature end of varint" else "parse ends prematurely")
  {
    hide ReadVarInt, VarInt, ReadIds, IdBytes;
    var c, raw := VarInt(|ids|), IdBytes(ids);
    if k < |c| {
      assert (c + raw)[..k] == c[..k];
      CutNumber(|ids|, k);
    } else {
      assert (c + raw)[..k] == c + raw[..k - |c|];
      VarIntRoundTrip(|ids|, raw[..k - |c|]);
      IdsCount(raw[..k - |c|], |ids|);
    }
  }

  /** A range that is cut off is refused. The error depends on what is cut: bytes that are announced by a length or a
      count, or a number. */
  lemma CutRange(last: uint64, r: Range, k: nat)
    requires k < |RangeBytes(last, r)| && Countable([r])
    ensures ReadRange(last, RangeBytes(last, r)[..k]) == Err(CutError(last, r, k))
  {
    hide ReadVarInt, VarInt, ReadBound, BoundBytes, PayloadBytes, ReadPayload, ModeOf;
    var b, p, s := BoundBytes(last, r.upper), PayloadBytes(r.payload), RangeBytes(last, r)[..k];
    assert r in [r];
    RawWithin(r.payload);
    if k < |b| {
      assert s == b[..k];
      CutBound(last, r.upper, k);
    } else {
      assert s == b + p[..k - |b|];
      BoundRoundTrip(last, r.upper, p[..k - |b|]);
      CutPayload(r.payload, k - |b|);
    }
  }

  lemma RawWithin(p: Payload)
    ensures RawBytes(p) < |PayloadBytes(p)|
  {
    hide VarInt, IdBytes;
    VarIntAtMostTen(0);
    VarIntAtMostTen(1);
    VarIntAtMostTen(2);
  }

  // ---------- Messages that are broken off ----------

  /** Ranges that are written in chronological order stand at the front of what was written, whatever follows. */
  lemma {:induction false} WrittenStands(last: uint64, rs: seq<Range>, rest: seq<byte>)
    requires Chronological(last, rs) && Countable(rs)
    ensures RangesAt(last, RangesBytes(last, rs) + rest, rs, rest)
    decreases |rs|
  {
    hide RangeBytes, RangeAt;
    if rs == [] {
      assert RangesBytes(last, rs) + rest == rest;
    } else {
      var next := rs[0].upper.timestamp;
      var more := RangesBytes(next, rs[1..]) + rest;
      assert RangesBytes(last, rs) + rest == RangeBytes(last, rs[0]) + more;
      assert rs[0] in rs && forall r :: r in rs[1..] ==> r in rs;
      WrittenStands(next, rs[1..], rest);
      RangeRoundTrip(last, rs[0], more);
      RangeRead(last, RangeBytes(last, rs[0]) + more, rs[0], more);
    }
  }

  /** A message that is followed by bytes that are no range is read up to there. */
  lemma BrokenTail(rs: seq<Range>, tail: seq<byte>, e: string)
    requires Chronological(0, rs) && Countable(rs) && tail != [] && ErrorAt(LastTimestamp(0, rs), tail, e)
    ensures ParseRanges(0, (MessageBytes(rs) + tail)[1..]) == Parse(rs, Some(e))
  {
    hide RangesBytes, RangesAt, ErrorAt, ParseRanges, LastTimestamp, Chronological;
    WrittenStands(0, rs, tail);
    assert (MessageBytes(rs) + tail)[1..] == RangesBytes(0, rs) + tail;
    EndsParse(0, RangesBytes(0, rs) + tail, rs, tail, Some(e));
  }
}
