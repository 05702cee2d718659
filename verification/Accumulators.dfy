/** Sums of ids modulo 2^256.

    The first half is the abelian group of sums that the storages and fingerprints use. The second
    half is the byte buffer that computes it, with its carry loops, and the proof that the buffer
    holds the group's value. */
module Accumulators {
  import opened Types

  // ---------- The group of sums ----------

  type Sum = x: nat | x < 0x1_0000_0000_0000_0000_0000_0000_0000_0000_0000_0000_0000_0000_0000_0000_0000_0000

  function AddMod(a: Sum, b: Sum): (r: Sum)
    ensures r == (a + b) % TWO_256
  {
    if a + b < TWO_256 then a + b else a + b - TWO_256
  }

  function NegMod(a: Sum): (r: Sum)
    ensures AddMod(a, r) == 0
  {
    if a == 0 then 0 else TWO_256 - a
  }

  function SubMod(a: Sum, b: Sum): (r: Sum)
    ensures AddMod(r, b) == a
  {
    AddMod(a, NegMod(b))
  }

  lemma AddModLaws(a: Sum, b: Sum, c: Sum)
    ensures AddMod(a, b) == AddMod(b, a)
    ensures AddMod(AddMod(a, b), c) == AddMod(a, AddMod(b, c))
    ensures SubMod(AddMod(a, b), b) == a
  {
  }

  // ---------- Byte strings as little-endian numbers ----------

  function LeNum(s: seq<byte>): (n: nat)
    ensures n < Pow256(|s|)
  {
    if |s| == 0 then 0 else s[0] + 256 * LeNum(s[1..])
  }

  /** The number an id stands for in a sum. */
  function IdNum(id: Id): Sum {
    PowOf32();
    LeNum(id)
  }

  lemma {:induction false} LeNumAppend(a: seq<byte>, b: seq<byte>)
    ensures LeNum(a + b) == LeNum(a) + Pow256(|a|) * LeNum(b)
  {
    if |a| == 0 {
      assert a + b == b;
    } else {
      LeNumAppend(a[1..], b);
      assert (a + b)[1..] == a[1..] + b;
      MulAssoc(256, Pow256(|a| - 1), LeNum(b));
    }
  }

  lemma MulAssoc(x: int, y: int, z: int)
    ensures x * (y * z) == (x * y) * z
  {
  }

  lemma {:induction false} LeNumInjective(a: seq<byte>, b: seq<byte>)
    requires |a| == |b| && LeNum(a) == LeNum(b)
    ensures a == b
  {
    if |a| > 0 {
      LeNumInjective(a[1..], b[1..]);
      assert a == [a[0]] + a[1..] && b == [b[0]] + b[1..];
    }
  }

  /** The `width`-byte little-endian digits of a number. */
  function LeBytes(n: nat, width: nat): (s: seq<byte>)
    requires n < Pow256(width)
    ensures |s| == width && LeNum(s) == n
  {
    if width == 0 then [] else [n % 256] + LeBytes(n / 256, width - 1)
  }

  // ---------- Sums of changes ----------

  /** What can be done to an accumulator. */
  datatype Change = Added(id: Id) | Removed(id: Id)

  function EffectOf(c: Change): Sum {
    match c
    case Added(id) => IdNum(id)
    case Removed(id) => NegMod(IdNum(id))
  }

  /** What a sequence of additions and subtractions adds up to. */
  function Net(changes: seq<Change>): Sum {
    if changes == [] then 0 else AddMod(EffectOf(changes[0]), Net(changes[1..]))
  }

  lemma {:induction false} NetConcat(a: seq<Change>, b: seq<Change>)
    ensures Net(a + b) == AddMod(Net(a), Net(b))
  {
    hide AddMod, EffectOf;
    if a == [] {
      assert a + b == b;
      AddModLaws(Net(b), 0, 0);
      AddZero(Net(b));
    } else {
      assert (a + b)[1..] == a[1..] + b;
      NetConcat(a[1..], b);
      AddModLaws(EffectOf(a[0]), Net(a[1..]), Net(b));
    }
  }

  lemma AddZero(x: Sum)
    ensures AddMod(0, x) == x && AddMod(x, 0) == x
  {
  }

  /** Where the first of some changes is in another order of them; taking it out of both leaves the same changes. */
  lemma PlaceOf(a: seq<Change>, b: seq<Change>) returns (i: nat)
    requires multiset(a) == multiset(b) && a != [] && a[0] in multiset(a)
    ensures i < |b| && b[i] == a[0] && multiset(a[1..]) == multiset(b[..i] + b[i + 1..])
  {
    i := IndexOf(b, a[0]);
    FirstTakenOut(a);
    TakenOut(b, i);
  }

  lemma FirstTakenOut(s: seq<Change>)
    requires s != []
    ensures multiset(s[1..]) == multiset(s) - multiset{s[0]}
  {
    assert s == [s[0]] + s[1..];
  }

  lemma IndexOf(s: seq<Change>, c: Change) returns (i: nat)
    requires c in multiset(s)
    ensures i < |s| && s[i] == c
  {
    i :| 0 <= i < |s| && s[i] == c;
  }

  lemma TakenOut(s: seq<Change>, i: nat)
    requires i < |s|
    ensures multiset(s[..i] + s[i + 1..]) == multiset(s) - multiset{s[i]}
  {
    var front, back := s[..i], s[i + 1..];
    assert s == front + [s[i]] + back;
    assert multiset(s) == multiset(front) + multiset{s[i]} + multiset(back);
    assert multiset(front + back) == multiset(front) + multiset(back);
  }

  lemma NetTakenOut(s: seq<Change>, i: nat)
    requires i < |s|
    ensures Net(s) == AddMod(EffectOf(s[i]), Net(s[..i] + s[i + 1..]))
  {
    hide AddMod, EffectOf, Net;
    var front, back := s[..i], s[i + 1..];
    assert s == front + ([s[i]] + back);
    NetConcat(front, [s[i]] + back);
    NetConcat(front, back);
    NetFirst(s[i], back);
    AddModLaws(Net(front), EffectOf(s[i]), Net(back));
    AddModLaws(EffectOf(s[i]), Net(front), Net(back));
  }

  lemma NetFirst(c: Change, rest: seq<Change>)
    ensures Net([c] + rest) == AddMod(EffectOf(c), Net(rest))
  {
    hide AddMod, EffectOf;
    assert ([c] + rest)[1..] == rest;
  }

  /** The same additions and subtractions in any order have the same result. */
  lemma {:induction false} ChangesInAnyOrder(a: seq<Change>, b: seq<Change>)
    requires multiset(a) == multiset(b)
    ensures Net(a) == Net(b)
    decreases |a|
  {
    hide AddMod, EffectOf;
    if a == [] {
      assert |multiset(b)| == 0;
    } else {
      assert a[0] in multiset(a);
      var i := PlaceOf(a, b);
      ChangesInAnyOrder(a[1..], b[..i] + b[i + 1..]);
      NetTakenOut(b, i);
    }
  }

  /** Taking out what was put in leaves nothing behind, whatever happened in between. */
  lemma RemovalUndoesAddition(a: seq<Change>, b: seq<Change>, c: seq<Change>, id: Id)
    ensures Net(a + [Added(id)] + b + [Removed(id)] + c) == Net(a + b + c)
  {
    var pair := [Added(id), Removed(id)];
    var mixed := a + [Added(id)] + b + [Removed(id)] + c;
    assert multiset(mixed) == multiset(a) + multiset{Added(id)} + multiset(b) + multiset{Removed(id)} + multiset(c);
    assert multiset(pair + (a + b + c)) == multiset{Added(id), Removed(id)} + (multiset(a) + multiset(b) + multiset(c));
    ChangesInAnyOrder(mixed, pair + (a + b + c));
    NetConcat(pair, a + b + c);
    PairCancels(id);
    AddZero(Net(a + b + c));
  }

  lemma PairCancels(id: Id)
    ensures Net([Added(id), Removed(id)]) == 0
  {
    var pair := [Added(id), Removed(id)];
    var last := [Removed(id)];
    assert pair[1..] == last && last[1..] == [];
    AddZero(EffectOf(Removed(id)));
    assert Net(last) == NegMod(IdNum(id));
  }

  // ---------- The buffer ----------

  /** One limb of an addition with carry: what `add` does to the limb at byte offset `lo`. */
  lemma LimbStep(before: seq<byte>, other: seq<byte>, done: seq<byte>, lo: nat, width: nat,
                 carry: int, next: nat, carryOut: int)
    requires lo + width <= |before| && |other| == |before| && |done| == lo
    requires next < Pow256(width)
    requires LeNum(done) + carry * Pow256(lo) == LeNum(before[..lo]) + LeNum(other[..lo])
    requires next + carryOut * Pow256(width)
          == LeNum(before[lo..lo + width]) + LeNum(other[lo..lo + width]) + carry
    ensures LeNum(done + LeBytes(next, width)) + carryOut * Pow256(lo + width)
         == LeNum(before[..lo + width]) + LeNum(other[..lo + width])
  {
    assert before[..lo + width] == before[..lo] + before[lo..lo + width];
    assert other[..lo + width] == other[..lo] + other[lo..lo + width];
    LeNumAppend(before[..lo], before[lo..lo + width]);
    LeNumAppend(other[..lo], other[lo..lo + width]);
    LeNumAppend(done, LeBytes(next, width));
    PowAdd(lo, width);
    CarryArithmetic(LeNum(done), LeNum(before[..lo]), LeNum(other[..lo]), carry,
                    next, LeNum(before[lo..lo + width]), LeNum(other[lo..lo + width]), carryOut,
                    Pow256(lo), Pow256(width));
  }

  lemma CarryArithmetic(done: int, a: int, b: int, carry: int,
                        next: int, x: int, y: int, carryOut: int, p: int, w: int)
    requires done + carry * p == a + b
    requires next + carryOut * w == x + y + carry
    ensures done + p * next + carryOut * (p * w) == a + p * x + (b + p * y)
  {
    assert p * next + p * (carryOut * w) == p * x + p * y + p * carry by {
      Distribute(p, next, carryOut * w);
      Distribute(p, x + y, carry);
      Distribute(p, x, y);
    }
    assert p * (carryOut * w) == carryOut * (p * w) by {
      MulAssoc(p, carryOut, w);
      MulAssoc(carryOut, p, w);
    }
  }

  lemma Distribute(p: int, x: int, y: int)
    ensures p * (x + y) == p * x + p * y
  {
  }

  lemma {:induction false} PowAdd(a: nat, b: nat)
    ensures Pow256(a + b) == Pow256(a) * Pow256(b)
  {
    if b > 0 {
      PowAdd(a, b - 1);
      MulAssoc(Pow256(a), Pow256(b - 1), 256);
    }
  }

  /** Progress of a carry loop: below byte `lo` the buffer and the carry hold the sum, above it the
      buffer is untouched. */
  ghost predicate CarryLoop(cur: seq<byte>, before: seq<byte>, other: seq<byte>, lo: nat, carry: int) {
    && |cur| == |before| == |other| && lo <= |cur|
    && cur[lo..] == before[lo..]
    && LeNum(cur[..lo]) + carry * Pow256(lo) == LeNum(before[..lo]) + LeNum(other[..lo])
  }

  lemma CarryLoopStep(cur: seq<byte>, before: seq<byte>, other: seq<byte>, lo: nat, carry: int,
                      width: nat, next: nat, carryOut: int, cur': seq<byte>)
    requires CarryLoop(cur, before, other, lo, carry) && lo + width <= |cur|
    requires next < Pow256(width)
    requires next + carryOut * Pow256(width)
          == LeNum(cur[lo..lo + width]) + LeNum(other[lo..lo + width]) + carry
    requires cur' == cur[..lo] + LeBytes(next, width) + cur[lo + width..]
    ensures CarryLoop(cur', before, other, lo + width, carryOut)
  {
    assert cur[lo..lo + width] == before[lo..lo + width] by {
      assert cur[lo..lo + width] == cur[lo..][..width];
      assert before[lo..lo + width] == before[lo..][..width];
    }
    LimbStep(before, other, cur[..lo], lo, width, carry, next, carryOut);
    assert cur'[..lo + width] == cur[..lo] + LeBytes(next, width);
    assert cur[lo + width..] == cur[lo..][width..] && before[lo + width..] == before[lo..][width..];
    assert cur'[lo + width..] == cur[lo + width..];
  }

  /** When the loop has passed all 32 bytes, the last carry is lost. */
  lemma CarryLoopEnd(cur: seq<byte>, before: seq<byte>, other: seq<byte>, carry: int)
    requires |cur| == 32 && 0 <= carry <= 1 && CarryLoop(cur, before, other, 32, carry)
    ensures IdNum(cur) == AddMod(IdNum(before), IdNum(other))
  {
    assert cur[..32] == cur && before[..32] == before && other[..32] == other;
    PowOf32();
  }

  class Accumulator {
    const buf: array<byte>

    ghost predicate Valid()
      reads this, buf
    {
      buf.Length == 32
    }

    function Value(): (v: Sum)
      requires Valid()
      reads this, buf
    {
      IdNum(buf[..])
    }

    constructor ()
      ensures Valid() && fresh(buf) && Value() == 0
    {
      buf := new byte[32](_ => 0);
      new;
      assert buf[..] == Zeros(32);
      LeNumZeros(32);
    }

    method SetToZero()
      requires Valid()
      modifies buf
      ensures Value() == 0
    {
      forall i | 0 <= i < 32 {
        buf[i] := 0;
      }
      assert buf[..] == Zeros(32);
      LeNumZeros(32);
    }

    function Limb(i: nat): uint64
      requires Valid() && i < 4
      reads this, buf
    {
      LimbAt(buf[..], i)
    }

    method StoreLimb(i: nat, v: uint64)
      requires Valid() && i < 4
      modifies buf
      ensures buf[..] == old(buf[..8 * i]) + LimbBytes(v) + old(buf[8 * i + 8..])
    {
      var digits := LimbBytes(v);
      forall j | 0 <= j < 8 {
        buf[8 * i + j] := digits[j];
      }
    }

    /** Adds one 64-bit limb; it carries out when either wrapping addition wrapped. */
    method AddLimb(i: nat, other: Id, currCarry: uint64) returns (nextCarry: uint64)
      requires Valid() && i < 4 && currCarry <= 1
      modifies buf
      ensures nextCarry <= 1
      ensures forall before: seq<byte> :: old(CarryLoop(buf[..], before, other, 8 * i, currCarry))
                ==> CarryLoop(buf[..], before, other, 8 * i + 8, nextCarry)
    {
      hide LeNum, Pow256, LeBytes, CarryLoop;
      var orig, otherV := Limb(i), LimbAt(other, i);
      nextCarry := 0;
      var next: uint64 := orig;
      next := Wrap(next + currCarry);
      if next < orig {
        nextCarry := 1;
      }
      next := Wrap(next + otherV);
      if next < otherV {
        nextCarry := 1;
      }
      WrapCarries(orig, currCarry, otherV);
      ghost var cur := buf[..];
      StoreLimb(i, next);
      ghost var cur' := buf[..];
      LimbIsStored(cur, other, i, next, cur');
      assert next + nextCarry * Pow256(8)
          == LeNum(cur[8 * i..8 * i + 8]) + LeNum(other[8 * i..8 * i + 8]) + currCarry;
      forall before: seq<byte> | CarryLoop(cur, before, other, 8 * i, currCarry)
        ensures CarryLoop(cur', before, other, 8 * i + 8, nextCarry)
      {
        CarryLoopStep(cur, before, other, 8 * i, currCarry, 8, next, nextCarry, cur');
      }
    }

    /** Adds limb by limb and drops the last carry. */
    method Add(other: Id)
      requires Valid()
      modifies buf
      ensures Value() == AddMod(old(Value()), IdNum(other))
    {
      ghost var before := buf[..];
      var currCarry: uint64 := 0;
      assert CarryLoop(buf[..], before, other, 0, 0);
      var i := 0;
      while i < 4
        invariant 0 <= i <= 4 && currCarry <= 1
        invariant CarryLoop(buf[..], before, other, 8 * i, currCarry)
      {
        currCarry := AddLimb(i, other, currCarry);
        i := i + 1;
      }
      CarryLoopEnd(buf[..], before, other, currCarry);
    }

    /** Two's complement: flip every bit, then add one. */
    method Negate()
      requires Valid()
      modifies buf
      ensures Value() == NegMod(old(Value()))
    {
      ghost var before := buf[..];
      var i := 0;
      while i < 32
        invariant 0 <= i <= 32
        invariant forall j :: 0 <= j < i ==> buf[j] == 255 - before[j]
        invariant forall j :: i <= j < 32 ==> buf[j] == before[j]
      {
        buf[i] := 255 - buf[i];
        i := i + 1;
      }
      ComplementNum(before, buf[..]);
      PowOf32();
      var one: Id := [1] + Zeros(31);
      assert one[1..] == Zeros(31);
      LeNumZeros(31);
      Add(one);
    }

    method Sub(other: Id)
      requires Valid()
      modifies buf
      ensures Value() == SubMod(old(Value()), IdNum(other))
    {
      var neg := new Accumulator();
      forall i | 0 <= i < 32 {
        neg.buf[i] := other[i];
      }
      assert neg.buf[..] == other;
      neg.Negate();
      Add(neg.buf[..]);
    }
  }

  /** 64-bit wrap-around of a sum of two 64-bit values. */
  function Wrap(x: nat): (r: uint64)
    requires x < 2 * U64
    ensures r == x % U64
  {
    if x < U64 then x else x - U64
  }

  /** At most one of the two wrapping additions wraps, and comparing with an operand detects it. */
  lemma WrapCarries(orig: uint64, carry: uint64, other: uint64)
    requires carry <= 1
    ensures var mid := Wrap(orig + carry);
            var next := Wrap(mid + other);
            next + (if mid < orig || next < other then U64 else 0) == orig + other + carry
  {
  }

  lemma LimbIsStored(cur: seq<byte>, other: Id, i: nat, next: uint64, cur': seq<byte>)
    requires |cur| == 32 && i < 4
    requires cur' == cur[..8 * i] + LimbBytes(next) + cur[8 * i + 8..]
    ensures Pow256(8) == U64 && LimbBytes(next) == LeBytes(next, 8)
    ensures LimbAt(cur, i) == LeNum(cur[8 * i..8 * i + 8]) && LimbAt(other, i) == LeNum(other[8 * i..8 * i + 8])
    ensures cur' == cur[..8 * i] + LeBytes(next, 8) + cur[8 * i + 8..]
  {
    PowOf8();
  }

  function LimbAt(s: seq<byte>, i: nat): uint64
    requires |s| == 32 && i < 4
  {
    PowOf8();
    LeNum(s[8 * i..8 * i + 8])
  }

  function LimbBytes(v: uint64): (s: seq<byte>)
    ensures |s| == 8
  {
    PowOf8();
    LeBytes(v, 8)
  }

  lemma PowOf8()
    ensures Pow256(8) == U64
  {
    PowPlus8(0);
  }

  lemma PowOf32()
    ensures Pow256(32) == TWO_256
  {
    PowPlus8(0);
    PowPlus8(8);
    PowPlus8(16);
    PowPlus8(24);
  }

  lemma {:induction false} LeNumZeros(n: nat)
    ensures LeNum(Zeros(n)) == 0
  {
    if n > 0 {
      assert Zeros(n)[1..] == Zeros(n - 1);
      LeNumZeros(n - 1);
    }
  }

  lemma {:induction false} ComplementNum(s: seq<byte>, t: seq<byte>)
    requires |s| == |t| && forall j :: 0 <= j < |s| ==> t[j] == 255 - s[j]
    ensures LeNum(t) == Pow256(|s|) - 1 - LeNum(s)
  {
    if |s| > 0 {
      ComplementNum(s[1..], t[1..]);
    }
  }

  // ---------- The JavaScript buffer ----------

  /** Adds one 32-bit limb held in a double; it carries out when the sum exceeds 2^32 - 1. */
  method AddWord(buf: array<byte>, i: nat, other: Id, currCarry: nat) returns (nextCarry: nat)
    requires buf.Length == 32 && i < 8 && currCarry <= 1
    modifies buf
    ensures nextCarry <= 1
    ensures forall before: seq<byte> :: old(CarryLoop(buf[..], before, other, 4 * i, currCarry))
              ==> CarryLoop(buf[..], before, other, 4 * i + 4, nextCarry)
  {
    hide LeNum, LeBytes, CarryLoop;
    var offset := 4 * i;
    assert Pow256(4) == 0x1_0000_0000;
    hide Pow256;
    var orig, otherV := LeNum(buf[offset..offset + 4]), LeNum(other[offset..offset + 4]);
    nextCarry := 0;
    var next := orig;
    next := next + currCarry;
    next := next + otherV;
    if next > 0xFFFF_FFFF {
      nextCarry := 1;
    }
    ghost var cur := buf[..];
    var digits := LeBytes(next % 0x1_0000_0000, 4);
    forall j | 0 <= j < 4 {
      buf[offset + j] := digits[j];
    }
    ghost var cur' := buf[..];
    assert cur' == cur[..offset] + digits + cur[offset + 4..];
    forall before: seq<byte> | CarryLoop(cur, before, other, offset, currCarry)
      ensures CarryLoop(cur', before, other, offset + 4, nextCarry)
    {
      CarryLoopStep(cur, before, other, offset, currCarry, 4, next % 0x1_0000_0000, nextCarry, cur');
    }
  }

  /** Adds in eight limbs and drops the last carry. */
  method AddWords(buf: array<byte>, other: Id)
    requires buf.Length == 32
    modifies buf
    ensures IdNum(buf[..]) == AddMod(old(IdNum(buf[..])), IdNum(other))
  {
    ghost var before := buf[..];
    var currCarry := 0;
    assert CarryLoop(buf[..], before, other, 0, 0);
    var i := 0;
    while i < 8
      invariant 0 <= i <= 8 && 0 <= currCarry <= 1
      invariant CarryLoop(buf[..], before, other, 4 * i, currCarry)
    {
      currCarry := AddWord(buf, i, other, currCarry);
      i := i + 1;
    }
    CarryLoopEnd(buf[..], before, other, currCarry);
  }
}
