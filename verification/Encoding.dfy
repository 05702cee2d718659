/** Variable-length integers: base-128 digits, most significant first, bit eight set on all but the last. */
module Encoding {
  import opened Types

  /** What a decoder read, and the bytes it left. */
  datatype Parsed<+T> = Parsed(value: T, rest: seq<byte>)

  type Digit = x: int | 0 <= x < 128

  /** The base-128 digits of a number, most significant first; none for zero. */
  function Digits(n: nat): seq<Digit> {
    if n == 0 then [] else Digits(n / 128) + [n % 128]
  }

  /** A digit with bit eight set. */
  function Flag(d: Digit): byte {
    128 + d
  }

  /** Marks every digit but the last as followed by another. */
  function Flagged(digits: seq<Digit>): (s: seq<byte>)
    ensures |s| == |digits|
    ensures forall i :: 0 <= i < |s| ==> s[i] == if i + 1 < |s| then Flag(digits[i]) else digits[i]
  {
    seq(|digits|, i requires 0 <= i < |digits| => if i + 1 < |digits| then Flag(digits[i]) else digits[i])
  }

  function VarInt(n: uint64): seq<byte> {
    if n == 0 then [0] else Flagged(Digits(n))
  }

  /** The low 64 bits of a number shifted by seven bits, with a digit shifted in. */
  function Shifted(res: uint64, b: byte): (next: uint64)
    ensures next <= res * 128 + b % 128
    ensures res * 128 + b % 128 < U64 ==> next == res * 128 + b % 128
  {
    res * 128 % U64 + b % 128
  }

  /** Reads digits until one without bit eight. The value is shifted in a 64-bit word, so high bits fall off. */
  function ReadVarInt(res: uint64, s: seq<byte>): Result<Parsed<uint64>>
    decreases |s|
  {
    if s == [] then Err("premature end of varint")
    else
      var next := Shifted(res, s[0]);
      if s[0] < 128 then Ok(Parsed(next, s[1..])) else ReadVarInt(next, s[1..])
  }

  function ReadBytes(s: seq<byte>, n: nat): (r: Result<Parsed<seq<byte>>>)
    ensures r.Ok? <==> n <= |s|
    ensures r.Ok? ==> r.value.value + r.value.rest == s && |r.value.value| == n
  {
    if |s| < n then Err("parse ends prematurely") else Ok(Parsed(s[..n], s[n..]))
  }

  // ---------- What the bytes spell ----------

  /** The number spelled by the lower seven bits of each byte, most significant first. */
  ghost function Spelled(s: seq<byte>): nat {
    if s == [] then 0 else 128 * Spelled(s[..|s| - 1]) + s[|s| - 1] % 128
  }

  /** Bit eight is set on all bytes but the last. */
  ghost predicate OneNumber(s: seq<byte>) {
    && |s| > 0 && s[|s| - 1] < 128
    && forall i :: 0 <= i < |s| - 1 ==> s[i] >= 128
  }

  /** The bytes spell a number with as few digits as possible: the first of several is not zero. */
  ghost predicate Spells(s: seq<byte>, n: nat) {
    OneNumber(s) && Spelled(s) == n && (|s| > 1 ==> s[0] != 128)
  }

  /** At the front of `s` stands one number, cut to 64 bits, and `rest` is what follows it. */
  ghost predicate NumberAt(s: seq<byte>, n: nat, rest: seq<byte>) {
    && |rest| < |s| && rest == s[|s| - |rest|..]
    && OneNumber(s[..|s| - |rest|]) && n == Spelled(s[..|s| - |rest|]) % 0x1_0000_0000_0000_0000
  }

  /** Some byte ends a number. */
  ghost predicate HasNumber(s: seq<byte>) {
    exists i :: 0 <= i < |s| && s[i] < 128
  }

  /** The lower seven bits are the digits of the number they spell. */
  lemma {:induction false} DigitsSpelled(s: seq<byte>)
    requires s != [] && s[0] % 128 != 0
    ensures Spelled(s) > 0 && |Digits(Spelled(s))| == |s|
    ensures forall i :: 0 <= i < |s| ==> Digits(Spelled(s))[i] == s[i] % 128
  {
    hide Spelled, Digits;
    var front, last := s[..|s| - 1], s[|s| - 1] % 128;
    SpelledMore(s);
    if front == [] {
      NothingSpelled();
      NoDigits();
    } else {
      DigitsSpelled(front);
    }
    MoreDigits(Spelled(front), last);
  }

  lemma SpelledMore(s: seq<byte>)
    requires s != []
    ensures Spelled(s) == 128 * Spelled(s[..|s| - 1]) + s[|s| - 1] % 128
  {
  }

  lemma NothingSpelled()
    ensures Spelled([]) == 0
  {
  }

  lemma MoreDigits(n: nat, d: Digit)
    requires n > 0 || d > 0
    ensures Digits(128 * n + d) == Digits(n) + [d]
  {
    assert (128 * n + d) / 128 == n && (128 * n + d) % 128 == d;
  }

  lemma {:induction false} SpelledDigits(digits: seq<Digit>, s: seq<byte>)
    requires |s| == |digits| && forall i :: 0 <= i < |s| ==> s[i] % 128 == digits[i]
    ensures Spelled(s) == Value(0, digits)
  {
    if digits != [] {
      var n := |digits| - 1;
      SpelledDigits(digits[..n], s[..n]);
      ValueSnoc(0, digits[..n], digits[n]);
      assert digits[..n] + [digits[n]] == digits;
    } else {
      assert s == [];
    }
  }

  lemma {:induction false} FirstDigit(n: nat)
    requires n > 0
    ensures Digits(n) != [] && Digits(n)[0] != 0
  {
    if n / 128 > 0 {
      FirstDigit(n / 128);
    }
  }

  /** What is written is the only way to spell a number with as few digits as possible. */
  lemma SpellsExactly(s: seq<byte>, n: uint64)
    ensures Spells(s, n) <==> s == VarInt(n)
  {
    hide Spelled, Digits, Value;
    VarIntSpells(n);
    if Spells(s, n) {
      if |s| > 1 || s[0] != 0 {
        DigitsSpelled(s);
        NoDigits();
        assert s == Flagged(Digits(n));
      } else {
        SpelledOne(s[0]);
        assert s == [0];
      }
    }
  }

  lemma NoDigits()
    ensures Digits(0) == []
  {
  }

  lemma SpelledOne(b: byte)
    ensures Spelled([b]) == b % 128
  {
    assert [b][..0] == [];
  }

  lemma VarIntSpells(n: uint64)
    ensures Spells(VarInt(n), n)
  {
    hide Spelled, Digits, Value;
    SpelledOne(0);
    if n > 0 {
      FirstDigit(n);
      SpelledDigits(Digits(n), VarInt(n));
      DigitsValue(n);
    }
  }

  /** The reader stops at the first byte below 128 and keeps 64 bits of what is spelled up to there. */
  lemma {:induction false} ReadFrom(s: seq<byte>, m: nat)
    requires m <= |s| && forall i :: 0 <= i < m ==> s[i] >= 128
    ensures var r := ReadVarInt(Spelled(s[..m]) % U64, s[m..]);
            if r.Ok? then NumberAt(s, r.value.value, r.value.rest) && |r.value.rest| < |s| - m
            else r.error == "premature end of varint" && forall i :: 0 <= i < |s| ==> s[i] >= 128
    decreases |s| - m
  {
    hide Spelled, Shifted;
    if m < |s| {
      var done, more := s[..m], s[..m + 1];
      assert more[..m] == done && s[m..][1..] == s[m + 1..];
      SpelledMore(more);
      ShiftedWord(Spelled(done), s[m]);
      if s[m] >= 128 {
        ReadFrom(s, m + 1);
      } else {
        assert s[..|s| - |s[m + 1..]|] == more;
      }
    }
  }

  lemma ShiftedWord(n: nat, b: byte)
    ensures Shifted(n % U64, b) == (128 * n + b % 128) % U64
  {
    var high := n / U64;
    assert 128 * n + b % 128 == 128 * (n % U64) + b % 128 + 128 * high * U64;
    WordOnly(128 * (n % U64) + b % 128, 128 * high);
    WordOnly(Shifted(n % U64, b), (128 * (n % U64)) / U64);
  }

  lemma WordOnly(n: nat, k: nat)
    ensures (n + k * U64) % U64 == n % U64
  {
  }

  lemma NumberRead(s: seq<byte>)
    ensures var r := ReadVarInt(0, s);
            && (r.Ok? <==> HasNumber(s)) && (r.Ok? ==> NumberAt(s, r.value.value, r.value.rest))
            && (r.Err? ==> r.error == "premature end of varint")
  {
    hide ReadVarInt;
    assert s[..0] == [] && s[0..] == s;
    ReadFrom(s, 0);
    var r := ReadVarInt(0, s);
    if r.Ok? {
      var n := |s| - |r.value.rest| - 1;
      assert s[n] == s[..n + 1][n];
    }
  }

  /** There is only one number at the front of a string. */
  lemma NumberIs(s: seq<byte>, n: nat, rest: seq<byte>)
    ensures NumberAt(s, n, rest) <==> ReadVarInt(0, s).Ok? && ReadVarInt(0, s).value == Parsed(n, rest)
    ensures NumberAt(s, n, rest) ==> HasNumber(s)
  {
    hide ReadVarInt, Spelled;
    NumberRead(s);
    if NumberAt(s, n, rest) {
      var k := |s| - |rest| - 1;
      assert s[..k + 1][k] == s[k] < 128;
      var other := ReadVarInt(0, s).value.rest;
      EndOfNumber(s, |s| - |other|, k);
      EndOfNumber(s, k + 1, |s| - |other| - 1);
    }
  }

  lemma EndOfNumber(s: seq<byte>, m: nat, k: nat)
    requires m <= |s| && OneNumber(s[..m]) && k < |s| && s[k] < 128
    ensures k >= m - 1
  {
    assert k < m ==> s[..m][k] == s[k];
  }

  // ---------- Loops ----------

  function Reverse(s: seq<Digit>): (r: seq<Digit>)
    ensures |r| == |s|
  {
    if s == [] then [] else Reverse(s[1..]) + [s[0]]
  }

  lemma {:induction false} ReverseSnoc(s: seq<Digit>, x: Digit)
    ensures Reverse(s + [x]) == [x] + Reverse(s)
  {
    if s != [] {
      assert (s + [x])[1..] == s[1..] + [x];
      ReverseSnoc(s[1..], x);
    }
  }

  method EncodeVarInt(n: uint64) returns (o: seq<byte>)
    ensures Spells(o, n)
    ensures o == VarInt(n)
  {
    hide Spells, Digits, Flagged;
    VarIntSpells(n);
    NoDigits();
    if n == 0 {
      return [0];
    }
    var digits: seq<Digit> := [];
    var left: nat := n;
    while left > 0
      invariant Digits(n) == Digits(left) + Reverse(digits)
      decreases left
    {
      ReverseSnoc(digits, left % 128);
      MoreDigits(left / 128, left % 128);
      digits := digits + [left % 128];
      left := left / 128;
    }
    assert Digits(n) == Reverse(digits);
    o := FlagDigits(Reverse(digits));
  }

  /** Sets bit eight on all digits but the last. */
  method FlagDigits(digits: seq<Digit>) returns (o: seq<byte>)
    ensures o == Flagged(digits)
  {
    o := digits;
    var i := 0;
    while i < |o| - 1
      invariant 0 <= i && (i < |digits| || i == 0) && |o| == |digits|
      invariant forall j :: 0 <= j < |o| ==> o[j] == if j < i then Flag(digits[j]) else digits[j]
    {
      o := o[i := Flag(o[i])];
      i := i + 1;
    }
  }

  method DecodeVarInt(encoded: seq<byte>) returns (r: Result<Parsed<uint64>>)
    ensures r.Ok? <==> HasNumber(encoded)
    ensures r.Ok? ==> NumberAt(encoded, r.value.value, r.value.rest)
    ensures r.Err? ==> r.error == "premature end of varint"
    ensures r == ReadVarInt(0, encoded)
  {
    hide NumberAt, HasNumber;
    NumberRead(encoded);
    var res: uint64 := 0;
    var left := encoded;
    while true
      invariant ReadVarInt(0, encoded) == ReadVarInt(res, left)
      decreases |left|
    {
      if |left| == 0 {
        return Err("premature end of varint");
      }
      var b := left[0];
      left := left[1..];
      res := Shifted(res, b);
      if b < 128 {
        break;
      }
    }
    r := Ok(Parsed(res, left));
  }

  // ---------- Round trip and size ----------

  function Value(res: nat, digits: seq<Digit>): (v: nat)
    ensures v >= res
    decreases |digits|
  {
    if digits == [] then res else Value(res * 128 + digits[0], digits[1..])
  }

  lemma {:induction false} ValueSnoc(res: nat, digits: seq<Digit>, d: Digit)
    ensures Value(res, digits + [d]) == Value(res, digits) * 128 + d
    decreases |digits|
  {
    if digits == [] {
      assert (digits + [d])[1..] == [];
    } else {
      assert (digits + [d])[1..] == digits[1..] + [d];
      ValueSnoc(res * 128 + digits[0], digits[1..], d);
    }
  }

  lemma {:induction false} DigitsValue(n: nat)
    ensures Value(0, Digits(n)) == n
  {
    if n > 0 {
      DigitsValue(n / 128);
      ValueSnoc(0, Digits(n / 128), n % 128);
    }
  }

  lemma {:induction false} ReadDigits(res: uint64, digits: seq<Digit>, rest: seq<byte>)
    requires digits != [] && Value(res, digits) < U64
    ensures ReadVarInt(res, Flagged(digits) + rest) == Ok(Parsed(Value(res, digits), rest))
    decreases |digits|
  {
    hide Shifted;
    var s := Flagged(digits) + rest;
    var next := res * 128 + digits[0];
    assert s[0] % 128 == digits[0] && next <= Value(next, digits[1..]) == Value(res, digits);
    if |digits| == 1 {
      assert s[1..] == rest;
      assert digits[1..] == [];
    } else {
      assert s[1..] == Flagged(digits[1..]) + rest;
      ReadDigits(next, digits[1..], rest);
    }
  }

  /** Every 64-bit number is read back, whatever follows it. */
  lemma VarIntRoundTrip(n: uint64, rest: seq<byte>)
    ensures ReadVarInt(0, VarInt(n) + rest) == Ok(Parsed(n, rest))
  {
    DigitsValue(n);
    if n == 0 {
      assert ([0] + rest)[1..] == rest;
    } else {
      ReadDigits(0, Digits(n), rest);
    }
  }

  function Pow128(k: nat): (p: int)
    ensures p >= 1
  {
    if k == 0 then 1 else Pow128(k - 1) * 128
  }

  lemma {:induction false} DigitCount(n: nat, k: nat)
    requires n < Pow128(k)
    ensures |Digits(n)| <= k
  {
    if n > 0 {
      assert k > 0;
      DigitCount(n / 128, k - 1);
    }
  }

  lemma VarIntLength(n: uint64, k: nat)
    requires n < Pow128(k) && k > 0
    ensures 1 <= |VarInt(n)| <= k
  {
    DigitCount(n, k);
  }

  lemma VarIntAtMostTen(n: uint64)
    ensures 1 <= |VarInt(n)| <= 10
    ensures n < 128 ==> |VarInt(n)| == 1
  {
    assert Pow128(3) == Pow128(2) * 128 == 2097152;
    assert Pow128(6) == Pow128(5) * 128 == Pow128(4) * 16384 == 4398046511104;
    assert Pow128(10) == Pow128(9) * 128 == Pow128(8) * 16384 == Pow128(7) * 2097152 == Pow128(6) * 268435456;
    VarIntLength(n, 10);
    if n < 128 {
      assert Pow128(1) == 128;
      VarIntLength(n, 1);
    }
  }

  lemma {:induction false} ReadBelow(res: uint64, s: seq<byte>, k: nat)
    requires ReadVarInt(res, s).Ok? && res < Pow128(k)
    ensures |ReadVarInt(res, s).value.rest| < |s|
    ensures ReadVarInt(res, s).value.value < Pow128(k + |s| - |ReadVarInt(res, s).value.rest|)
    decreases |s|
  {
    hide Shifted;
    var next := Shifted(res, s[0]);
    assert next < Pow128(k + 1);
    if s[0] >= 128 {
      ReadBelow(next, s[1..], k + 1);
    }
  }

  /** No encoding of a number is shorter than the one that is written. */
  lemma VarIntShortest(s: seq<byte>)
    requires ReadVarInt(0, s).Ok?
    ensures var p := ReadVarInt(0, s).value; |VarInt(p.value)| <= |s| - |p.rest|
  {
    ReadBelow(0, s, 0);
    var p := ReadVarInt(0, s).value;
    VarIntLength(p.value, |s| - |p.rest|);
  }
}
