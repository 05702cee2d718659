/** Items, bounds and their ordering.

    An item is a 64-bit timestamp and a 32-byte id. Items are ordered by timestamp and then by id,
    byte by byte. A bound is a timestamp and an id prefix whose omitted bytes count as zero. Every
    item and bound has an integer rank that agrees with this order, so the rest of the project can
    reason about positions in the timestamp/id space with plain integers. */
module Types {
  type byte = x: int | 0 <= x < 256
  const U64: int := 0x1_0000_0000_0000_0000
  const MAX_U64: uint64 := 0xFFFF_FFFF_FFFF_FFFF
  type uint64 = x: int | 0 <= x < 0x1_0000_0000_0000_0000
  const TWO_256: int := 0x1_0000_0000_0000_0000_0000_0000_0000_0000_0000_0000_0000_0000_0000_0000_0000_0000

  const ID_SIZE := 32
  const FINGERPRINT_SIZE := 16
  const PROTOCOL_VERSION: byte := 0x61

  type Id = s: seq<byte> | |s| == 32 witness seq(32, _ => 0)
  type Fingerprint = s: seq<byte> | |s| == 16 witness seq(16, _ => 0)

  datatype Item = Item(timestamp: uint64, id: Id)

  /** A bound keeps its prefix unpadded; PaddedId below is the 32-byte value that is compared. */
  datatype Bound = Bound(timestamp: uint64, prefix: Prefix)
  type Prefix = s: seq<byte> | |s| <= 32

  datatype Option<+T> = None | Some(value: T)
  datatype Result<+T> = Ok(value: T) | Err(error: string) {
    predicate IsFailure() {
      Err?
    }

    function PropagateFailure<U>(): Result<U>
      requires Err?
    {
      Err(error)
    }

    function Extract(): T
      requires Ok?
    {
      value
    }
  }

  function Zeros(n: nat): (z: seq<byte>)
    ensures |z| == n && forall i :: 0 <= i < n ==> z[i] == 0
  {
    seq(n, _ => 0)
  }

  const ZERO_ITEM := Item(0, Zeros(32))
  const INFINITY := Bound(MAX_U64, [])

  function PaddedId(p: Prefix): (id: Id)
    ensures id[..|p|] == p
    ensures forall i :: |p| <= i < 32 ==> id[i] == 0
  {
    p + Zeros(32 - |p|)
  }

  // ---------- Order on ids ----------

  /** `a` comes before `b`: they agree up to some byte, and that byte is smaller in `a`. */
  ghost predicate LexLess(a: seq<byte>, b: seq<byte>)
    requires |a| == |b|
  {
    exists i :: DiffersAt(a, b, i)
  }

  ghost predicate DiffersAt(a: seq<byte>, b: seq<byte>, i: int)
    requires |a| == |b|
  {
    0 <= i < |a| && a[..i] == b[..i] && a[i] < b[i]
  }

  /** The number a byte string spells, most significant byte first. */
  ghost function Num(s: seq<byte>): nat {
    if |s| == 0 then 0 else Num(s[..|s| - 1]) * 256 + s[|s| - 1]
  }

  lemma {:induction false} NumEqual(a: seq<byte>, b: seq<byte>)
    requires |a| == |b| && Num(a) == Num(b)
    ensures a == b
  {
    if |a| == 0 {
    } else {
      var n := |a| - 1;
      NumEqual(a[..n], b[..n]);
      assert a == a[..n] + [a[n]] && b == b[..n] + [b[n]];
    }
  }

  lemma {:induction false} LexIsNumeric(a: seq<byte>, b: seq<byte>)
    requires |a| == |b|
    ensures LexLess(a, b) <==> Num(a) < Num(b)
  {
    if |a| == 0 {
    } else {
      var n := |a| - 1;
      var a', b' := a[..n], b[..n];
      LexIsNumeric(a', b');
      if Num(a') < Num(b') {
        var i :| DiffersAt(a', b', i);
        assert a[..i] == a'[..i] && b[..i] == b'[..i];
        assert DiffersAt(a, b, i);
      } else if Num(a') == Num(b') {
        NumEqual(a', b');
        if a[n] < b[n] {
          assert DiffersAt(a, b, n);
        } else {
          forall i ensures !DiffersAt(a, b, i) {
            if 0 <= i < n {
              assert a[i] == a'[i] && b[i] == b'[i];
            }
          }
        }
      } else {
        forall i ensures !DiffersAt(a, b, i) {
          if 0 <= i < n {
            PrefixDiffers(a, b, n, i);
          } else if i == n {
            assert a' != b';
          }
        }
      }
    }
  }

  lemma PrefixDiffers(a: seq<byte>, b: seq<byte>, n: nat, i: nat)
    requires |a| == |b| && i < n <= |a|
    ensures DiffersAt(a[..n], b[..n], i) <==> DiffersAt(a, b, i)
  {
    assert a[..n][..i] == a[..i] && b[..n][..i] == b[..i];
  }

  function Pow256(n: nat): (p: int)
    ensures p >= 1
  {
    if n == 0 then 1 else Pow256(n - 1) * 256
  }

  lemma PowPlus8(n: nat)
    ensures Pow256(n + 8) == Pow256(n) * U64
  {
    assert Pow256(n + 2) == Pow256(n + 1) * 256 == Pow256(n) * 65536;
    assert Pow256(n + 4) == Pow256(n + 3) * 256 == Pow256(n + 2) * 65536;
    assert Pow256(n + 6) == Pow256(n + 5) * 256 == Pow256(n + 4) * 65536;
    assert Pow256(n + 8) == Pow256(n + 7) * 256 == Pow256(n + 6) * 65536;
  }

  lemma {:induction false} NumBelow(s: seq<byte>)
    ensures Num(s) < Pow256(|s|)
  {
    if |s| == 0 {
    } else {
      NumBelow(s[..|s| - 1]);
    }
  }

  lemma IdNumBelow(id: Id)
    ensures Num(id) < TWO_256
  {
    NumBelow(id);
    PowPlus8(0);
    PowPlus8(8);
    PowPlus8(16);
    PowPlus8(24);
  }

  // ---------- Ranks ----------

  /** Position of a timestamp and a 32-byte id in the timestamp/id space. */
  ghost function RankAt(timestamp: uint64, id: Id): nat {
    timestamp * TWO_256 + Num(id)
  }

  ghost function Rank(item: Item): nat {
    RankAt(item.timestamp, item.id)
  }

  /** The item a bound is compared as: its prefix padded with zero bytes. */
  function BoundItem(b: Bound): Item {
    Item(b.timestamp, PaddedId(b.prefix))
  }

  ghost function BoundRank(b: Bound): nat {
    Rank(BoundItem(b))
  }

  /** The bound that is exactly an item. */
  function ItemBound(item: Item): Bound {
    Bound(item.timestamp, item.id)
  }

  /** Byte-string comparison from position `i` on: the first differing byte decides. */
  predicate BytesLess(a: seq<byte>, b: seq<byte>, i: nat)
    requires |a| == |b| && i <= |a|
    decreases |a| - i
  {
    i < |a| && (if a[i] != b[i] then a[i] < b[i] else BytesLess(a, b, i + 1))
  }

  lemma FirstDifference(a: seq<byte>, b: seq<byte>, i: nat, j: nat)
    requires |a| == |b| && i <= |a| && a[..i] == b[..i]
    requires DiffersAt(a, b, j)
    ensures i <= j
    ensures i < |a| && a[i] != b[i] ==> i == j
  {
    forall t | 0 <= t < i ensures a[t] == b[t] {
      assert a[..i][t] == b[..i][t];
    }
    forall t | 0 <= t < j ensures a[t] == b[t] {
      assert a[..j][t] == b[..j][t];
    }
  }

  lemma {:induction false} BytesLessIsLex(a: seq<byte>, b: seq<byte>, i: nat)
    requires |a| == |b| && i <= |a| && a[..i] == b[..i]
    ensures BytesLess(a, b, i) <==> LexLess(a, b)
    decreases |a| - i
  {
    if i < |a| && a[i] == b[i] {
      assert a[..i + 1] == a[..i] + [a[i]] && b[..i + 1] == b[..i] + [b[i]];
      BytesLessIsLex(a, b, i + 1);
    } else {
      if i < |a| && a[i] < b[i] {
        assert DiffersAt(a, b, i);
      }
      if LexLess(a, b) {
        var j :| DiffersAt(a, b, j);
        FirstDifference(a, b, i, j);
      }
    }
  }

  /** Item order: timestamps first, then ids byte by byte. */
  predicate ItemLess(a: Item, b: Item) {
    if a.timestamp != b.timestamp then a.timestamp < b.timestamp else BytesLess(a.id, b.id, 0)
  }

  lemma RankAtOrder(t1: uint64, id1: Id, t2: uint64, id2: Id)
    ensures t1 < t2 ==> RankAt(t1, id1) < RankAt(t2, id2)
    ensures t1 == t2 ==> (LexLess(id1, id2) <==> RankAt(t1, id1) < RankAt(t2, id2))
    ensures RankAt(t1, id1) == RankAt(t2, id2) ==> t1 == t2 && id1 == id2
  {
    IdNumBelow(id1);
    IdNumBelow(id2);
    LexIsNumeric(id1, id2);
    if RankAt(t1, id1) == RankAt(t2, id2) {
      NumEqual(id1, id2);
    }
  }

  /** The item order is the integer order of ranks, and a rank determines its item. */
  lemma ItemOrder(a: Item, b: Item)
    ensures ItemLess(a, b) <==> Rank(a) < Rank(b)
    ensures Rank(a) == Rank(b) <==> a == b
  {
    RankAtOrder(a.timestamp, a.id, b.timestamp, b.id);
    RankAtOrder(b.timestamp, b.id, a.timestamp, a.id);
    BytesLessIsLex(a.id, b.id, 0);
  }

  lemma {:induction false} NumZeros(n: nat)
    ensures Num(Zeros(n)) == 0
  {
    if n > 0 {
      assert Zeros(n)[..n - 1] == Zeros(n - 1);
      NumZeros(n - 1);
    }
  }

  lemma BoundRankFacts(item: Item)
    ensures BoundRank(ItemBound(item)) == Rank(item)
    ensures BoundRank(Bound(0, [])) == 0
    ensures Rank(ZERO_ITEM) == 0
    ensures item.timestamp < MAX_U64 ==> Rank(item) < BoundRank(INFINITY)
  {
    assert PaddedId(item.id) == item.id;
    assert PaddedId([]) == Zeros(32);
    NumZeros(32);
    IdNumBelow(item.id);
  }
}
