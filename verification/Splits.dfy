/** Splitting a range: what a party sends about one section of its items, and the bounds it picks between items. */
module Splits {
  import opened Types
  import opened Wire

  // ---------- Separators ----------

  /** Length of the common prefix of two ids, from byte `i` on. */
  function SharedPrefix(a: Id, b: Id, i: nat): (n: nat)
    requires i <= 32
    ensures i <= n <= 32 && a[i..n] == b[i..n]
    ensures n < 32 ==> a[n] != b[n]
    decreases 32 - i
  {
    if i == 32 || a[i] != b[i] then i
    else
      var n := SharedPrefix(a, b, i + 1);
      assert a[i..n] == [a[i]] + a[i + 1..n] && b[i..n] == [b[i]] + b[i + 1..n];
      n
  }

  function MinimalBound(prev: Item, curr: Item): Bound {
    if curr.timestamp != prev.timestamp then Bound(curr.timestamp, [])
    else
      var n := SharedPrefix(curr.id, prev.id, 0);
      Bound(curr.timestamp, if n < 32 then curr.id[..n + 1] else curr.id)
  }

  method GetMinimalBound(prev: Item, curr: Item) returns (b: Bound)
    ensures b == MinimalBound(prev, curr)
  {
    if curr.timestamp != prev.timestamp {
      return Bound(curr.timestamp, []);
    }
    var shared := 0;
    while shared < 32 && curr.id[shared] == prev.id[shared]
      invariant 0 <= shared <= 32 && SharedPrefix(curr.id, prev.id, 0) == SharedPrefix(curr.id, prev.id, shared)
    {
      shared := shared + 1;
    }
    b := Bound(curr.timestamp, if shared < 32 then curr.id[..shared + 1] else curr.id);
  }

  lemma {:induction false} NumSplit(s: seq<byte>, k: nat)
    requires k <= |s|
    ensures Num(s) == Num(s[..k]) * Pow256(|s| - k) + Num(s[k..])
  {
    if k == |s| {
      assert s[..k] == s && s[k..] == [];
    } else {
      var t := s[..|s| - 1];
      NumSplit(t, k);
      assert t[..k] == s[..k] && t[k..] == s[k..][..|s| - k - 1];
      SplitArithmetic(Num(s[..k]), Pow256(|t| - k), Num(t[k..]), s[|s| - 1]);
    }
  }

  lemma SplitArithmetic(a: int, p: int, b: int, d: int)
    ensures (a * p + b) * 256 + d == a * (p * 256) + (b * 256 + d)
  {
  }

  lemma {:induction false} ZeroNum(s: seq<byte>)
    requires forall i :: 0 <= i < |s| ==> s[i] == 0
    ensures Num(s) == 0
  {
    if s != [] {
      ZeroNum(s[..|s| - 1]);
    }
  }

  /** Two ids with the same leading bytes are ordered by the rest. */
  lemma TailOrder(a: Id, b: Id, k: nat)
    requires k <= 32 && a[..k] == b[..k]
    ensures Num(a) <= Num(b) <==> Num(a[k..]) <= Num(b[k..])
  {
    hide Num, Pow256;
    NumSplit(a, k);
    NumSplit(b, k);
  }

  /** An id between two ids shares their common leading bytes. */
  lemma MiddleShares(a: Id, x: Id, b: Id, k: nat)
    requires k <= 32 && a[..k] == b[..k] && Num(a) <= Num(x) <= Num(b)
    ensures x[..k] == a[..k]
  {
    hide Num, Pow256;
    NumSplit(a, k);
    NumSplit(x, k);
    NumSplit(b, k);
    NumBelow(a[k..]);
    NumBelow(x[k..]);
    NumBelow(b[k..]);
    Squeeze(Num(a[..k]), Num(x[..k]), Pow256(32 - k), Num(a[k..]), Num(x[k..]), Num(b[k..]));
    NumEqual(x[..k], a[..k]);
  }

  lemma Squeeze(a: int, x: int, p: int, ra: int, rx: int, rb: int)
    requires 0 <= ra < p && 0 <= rx < p && 0 <= rb < p && a * p + ra <= x * p + rx <= a * p + rb
    ensures x == a
  {
    if x < a {
      Multiples(a, x, p);
    } else if x > a {
      Multiples(x, a, p);
    }
  }

  lemma Multiples(a: int, b: int, p: int)
    requires a > b && p > 0
    ensures a * p >= b * p + p
  {
    ProductNotNegative(a - b - 1, p);
    assert (a - b - 1) * p == a * p - b * p - p;
  }

  lemma {:induction false} ProductNotNegative(x: int, p: int)
    requires x >= 0 && p >= 0
    ensures x * p >= 0
    decreases x
  {
    if x > 0 {
      ProductNotNegative(x - 1, p);
      assert x * p == (x - 1) * p + p;
    }
  }

  lemma PrefixPadding(id: Id, n: nat)
    requires n <= 32
    ensures var p := PaddedId(id[..n]); p[..n] == id[..n] && Num(p[n..]) == 0 && Num(p) <= Num(id)
  {
    var p := PaddedId(id[..n]);
    ZeroNum(p[n..]);
    TailOrder(p, id, n);
  }

  lemma SharesAll(a: Id, b: Id, n: nat)
    requires n <= 32 && a[..n] == b[..n]
    ensures n == 32 ==> a == b
  {
    assert a[..32] == a && b[..32] == b;
  }

  /** Between two items of the same timestamp the separator is the shortest prefix of the later id that tells them
      apart. */
  lemma SameTimestampSeparates(prev: Item, curr: Item)
    requires prev.timestamp == curr.timestamp && Rank(prev) < Rank(curr)
    ensures var b := MinimalBound(prev, curr); Rank(prev) < BoundRank(b) <= Rank(curr)
    ensures var n := SharedPrefix(curr.id, prev.id, 0); n < 32 && MinimalBound(prev, curr).prefix == curr.id[..n + 1]
  {
    var n := SharedPrefix(curr.id, prev.id, 0);
    assert curr.id[0..n] == curr.id[..n] && prev.id[0..n] == prev.id[..n];
    SharesAll(curr.id, prev.id, n);
    var p := PaddedId(curr.id[..n + 1]);
    PrefixPadding(curr.id, n + 1);
    assert p[..n] == p[..n + 1][..n] == curr.id[..n];
    TailOrder(curr.id, prev.id, n);
    TailOrder(p, prev.id, n);
    assert p[n] == p[..n + 1][n] == curr.id[n];
    FirstByte(curr.id[n..], prev.id[n..]);
    FirstByte(prev.id[n..], p[n..]);
  }

  /** Different first bytes decide the order of equally long strings. */
  lemma FirstByte(a: seq<byte>, b: seq<byte>)
    requires |a| == |b| > 0 && a[0] != b[0]
    ensures Num(a) < Num(b) <==> a[0] < b[0]
  {
    LexIsNumeric(a, b);
    if a[0] < b[0] {
      assert DiffersAt(a, b, 0);
    } else {
      assert DiffersAt(b, a, 0);
      LexIsNumeric(b, a);
    }
  }

  /** The separator lies above the earlier item and at or below the later one. */
  lemma SeparatorSeparates(prev: Item, curr: Item)
    requires Rank(prev) < Rank(curr)
    ensures var b := MinimalBound(prev, curr);
            Rank(prev) < BoundRank(b) <= Rank(curr) && b.timestamp == curr.timestamp
  {
    if prev.timestamp == curr.timestamp {
      SameTimestampSeparates(prev, curr);
    } else {
      assert PaddedId([]) == Zeros(32);
      NumZeros(32);
      IdNumBelow(prev.id);
      IdNumBelow(curr.id);
      RankAtOrder(curr.timestamp, curr.id, prev.timestamp, prev.id);
      RankAtOrder(prev.timestamp, prev.id, curr.timestamp, PaddedId([]));
    }
  }

  /** No bound with the later item's timestamp and a shorter prefix separates the two items. */
  lemma SeparatorIsMinimal(prev: Item, curr: Item, prefix: Prefix)
    requires Rank(prev) < Rank(curr) && |prefix| < |MinimalBound(prev, curr).prefix|
    ensures !(Rank(prev) < BoundRank(Bound(curr.timestamp, prefix)) <= Rank(curr))
  {
    assert prev.timestamp == curr.timestamp;
    SameTimestampSeparates(prev, curr);
    var n := SharedPrefix(curr.id, prev.id, 0);
    assert curr.id[0..n] == curr.id[..n] && prev.id[0..n] == prev.id[..n];
    var p := PaddedId(prefix);
    if Rank(prev) < BoundRank(Bound(curr.timestamp, prefix)) <= Rank(curr) {
      MiddleShares(prev.id, p, curr.id, n);
      ZeroNum(p[n..]);
      TailOrder(p, prev.id, n);
    }
  }

  // ---------- Splitting ----------

  const BUCKETS := 16

  /** The first `n % 16` buckets have one item more than the others. */
  function BucketSize(n: nat, i: nat): nat {
    n / BUCKETS + if i < n % BUCKETS then 1 else 0
  }

  function BucketEnd(n: nat, i: nat): nat {
    if i == 0 then 0 else BucketEnd(n, i - 1) + BucketSize(n, i - 1)
  }

  lemma {:induction false} BucketEndClosed(n: nat, i: nat)
    ensures BucketEnd(n, i) == i * (n / BUCKETS) + if i < n % BUCKETS then i else n % BUCKETS
  {
    if i > 0 {
      BucketEndClosed(n, i - 1);
    }
  }

  /** Sixteen buckets hold all items, no bucket holds more than its share rounded up, and sizes differ by at most
      one. */
  lemma BucketSizes(n: nat, i: nat, j: nat)
    requires i < 16 && j < 16
    ensures BucketSize(n, i) - BucketSize(n, j) <= 1 && BucketSize(n, i) <= (n + 15) / 16
    ensures BucketEnd(n, 16) == n
  {
    BucketEndClosed(n, BUCKETS);
  }

  lemma {:induction false} BucketsAscend(n: nat, i: nat, j: nat)
    requires i <= j
    ensures BucketEnd(n, i) <= BucketEnd(n, j)
    ensures n >= BUCKETS && i < j ==> BucketEnd(n, i) < BucketEnd(n, j)
    decreases j
  {
    if i < j {
      BucketsAscend(n, i, j - 1);
    }
  }

  lemma BucketFits(n: nat, i: nat)
    requires i < BUCKETS
    ensures BucketEnd(n, i) <= BucketEnd(n, i + 1) <= n
    ensures n >= BUCKETS ==> (BucketEnd(n, i) < BucketEnd(n, i + 1) && (BucketEnd(n, i + 1) == n <==> i == BUCKETS - 1))
  {
    BucketsAscend(n, i, i + 1);
    BucketsAscend(n, i + 1, BUCKETS);
    BucketSizes(n, i, i);
  }

  /** Where bucket `i` of the items ends: the separator to the next bucket, or the given upper bound after the last. */
  function BucketBound(items: seq<Item>, upper: Bound, i: nat): Bound
    requires i < BUCKETS && |items| >= 2 * BUCKETS
  {
    BucketFits(|items|, i);
    var e := BucketEnd(|items|, i + 1);
    if e == |items| then upper else MinimalBound(items[e - 1], items[e])
  }

  function Bucket(items: seq<Item>, i: nat): seq<Item>
    requires i < BUCKETS
  {
    BucketFits(|items|, i);
    items[BucketEnd(|items|, i)..BucketEnd(|items|, i + 1)]
  }

  function BucketRange(h: Hash, items: seq<Item>, upper: Bound, i: nat): Range
    requires i < BUCKETS && |items| >= 2 * BUCKETS
  {
    Range(BucketBound(items, upper, i), Print(FingerprintOf(h, Bucket(items, i))))
  }

  /** The ranges sent about `items`, which are all the sender has below `upper` in the section at hand. */
  function SplitRange(h: Hash, items: seq<Item>, upper: Bound): (rs: seq<Range>)
    ensures if |items| < 32 then rs == [Range(upper, IdList(Ids(items)))] else |rs| == 16
  {
    if |items| < 2 * BUCKETS then [Range(upper, IdList(Ids(items)))]
    else seq(BUCKETS, i requires 0 <= i < BUCKETS => BucketRange(h, items, upper, i))
  }
}
