/** What a storage stands for: an ascending sequence of items, with lower bounds and id sums. The array
    storage and the tree are both proved against these definitions, and the protocol is proved over them. */
module SortedItems {
  import opened Types
  import opened Accumulators

  ghost predicate AscendingItems(items: seq<Item>) {
    forall i, j :: 0 <= i < j < |items| ==> Rank(items[i]) < Rank(items[j])
  }

  /** Items may be equal, but none comes before its predecessor. */
  ghost predicate InOrder(items: seq<Item>) {
    forall i, j :: 0 <= i < j < |items| ==> Rank(items[i]) <= Rank(items[j])
  }

  /** Number of leading items below rank `r`. */
  ghost function LowerBound(items: seq<Item>, r: int): (n: nat)
    ensures n <= |items|
  {
    if items == [] || Rank(items[0]) >= r then 0 else 1 + LowerBound(items[1..], r)
  }

  /** In a sorted sequence the lower bound splits the items into those below `r` and the others. */
  lemma {:induction false} InOrderSplits(items: seq<Item>, r: int)
    requires InOrder(items)
    ensures forall i :: 0 <= i < LowerBound(items, r) ==> Rank(items[i]) < r
    ensures forall i :: LowerBound(items, r) <= i < |items| ==> r <= Rank(items[i])
  {
    hide Rank;
    if items != [] && Rank(items[0]) < r {
      InOrderSplits(items[1..], r);
      assert forall i :: 1 <= i < |items| ==> items[i] == items[1..][i - 1];
    }
  }

  lemma LowerBoundSplits(items: seq<Item>, r: int)
    requires AscendingItems(items)
    ensures forall i :: 0 <= i < LowerBound(items, r) ==> Rank(items[i]) < r
    ensures forall i :: LowerBound(items, r) <= i < |items| ==> r <= Rank(items[i])
  {
    hide Rank, LowerBound;
    InOrderSplits(items, r);
  }

  lemma LowerBoundUnique(items: seq<Item>, r: int, n: nat)
    requires AscendingItems(items) && n <= |items|
    requires forall i :: 0 <= i < n ==> Rank(items[i]) < r
    requires forall i :: n <= i < |items| ==> r <= Rank(items[i])
    ensures n == LowerBound(items, r)
  {
    hide Rank;
    LowerBoundSplits(items, r);
    var m := LowerBound(items, r);
    assert !IsBelow(items, r, n) && !IsBelow(items, r, m);
    assert n < m ==> IsBelow(items, r, n);
    assert m < n ==> IsBelow(items, r, m);
  }

  ghost predicate IsBelow(items: seq<Item>, r: int, i: int) {
    0 <= i < |items| && Rank(items[i]) < r
  }

  /** The answer of a binary search of `begin..end`. */
  ghost function ClampedLowerBound(items: seq<Item>, begin: nat, end: nat, r: int): (n: nat)
    requires begin <= end <= |items|
    ensures begin <= n <= end
  {
    var n := LowerBound(items, r);
    if n < begin then begin else if n < end then n else end
  }

  /** The answer of the tree for a range of positions. It is not clamped up to `begin`. */
  ghost function TreeLowerBound(items: seq<Item>, begin: nat, end: nat, r: int): (n: nat)
    requires begin <= end <= |items|
    ensures n <= end
  {
    if items == [] then end
    else if r <= Rank(items[0]) then begin
    else if LowerBound(items, r) < end then LowerBound(items, r) else end
  }

  /** The tree agrees with the array exactly when no item before `begin` reaches the bound, or none is below it. */
  lemma TreeMatchesArray(items: seq<Item>, begin: nat, end: nat, r: int)
    requires AscendingItems(items) && begin <= end <= |items|
    ensures TreeLowerBound(items, begin, end, r) == ClampedLowerBound(items, begin, end, r)
       <==> ((forall i :: 0 <= i < begin ==> Rank(items[i]) < r)
             || (forall i :: 0 <= i < |items| ==> r <= Rank(items[i])))
  {
    hide Rank, LowerBound;
    LowerBoundSplits(items, r);
    var n := LowerBound(items, r);
    if n < begin && n > 0 {
      assert r <= Rank(items[n]) && Rank(items[0]) < r;
    }
    if n == 0 && items != [] {
      assert r <= Rank(items[0]);
    }
  }

  /** Where the two differ, the tree's answer lies before the range. */
  lemma TreeGoesBack(items: seq<Item>, begin: nat, end: nat, r: int)
    requires begin <= end <= |items|
    ensures var n := TreeLowerBound(items, begin, end, r);
            if n < begin then n == LowerBound(items, r) else n == ClampedLowerBound(items, begin, end, r)
  {
    hide Rank;
  }

  /** An input on which they differ: after both of two items, the tree still finds the second one. */
  lemma TreeGoesBackExample() returns (items: seq<Item>)
    ensures AscendingItems(items) && |items| == 2 && items[0].timestamp < 3 && items[1].timestamp < 3
    ensures TreeLowerBound(items, 2, 2, Rank(items[1])) == 1 && ClampedLowerBound(items, 2, 2, Rank(items[1])) == 2
  {
    hide Rank;
    items := [Item(1, Zeros(32)), Item(2, Zeros(32))];
    ItemOrder(items[0], items[1]);
    LowerBoundUnique(items, Rank(items[1]), 1);
  }

  // ---------- Items one second apart ----------

  /** Items with the timestamps 0, 1, 2 and so on. */
  function Ticks(n: uint64): (items: seq<Item>)
    ensures |items| == n
  {
    seq(n, i requires 0 <= i < n => Item(i, Zeros(32)))
  }

  lemma TickRank(t: uint64)
    ensures Rank(Item(t, Zeros(32))) == BoundRank(Bound(t, []))
  {
    assert PaddedId([]) == Zeros(32);
  }

  lemma TicksAscend(n: uint64)
    ensures AscendingItems(Ticks(n))
  {
    hide Rank;
    var items := Ticks(n);
    forall i, j | 0 <= i < j < |items| ensures Rank(items[i]) < Rank(items[j]) {
      InTimeOrder(items[i], items[j]);
    }
  }

  lemma InTimeOrder(x: Item, y: Item)
    requires x.timestamp < y.timestamp
    ensures Rank(x) < Rank(y)
  {
    RankAtOrder(x.timestamp, x.id, y.timestamp, y.id);
  }

  /** As many of them lie below a time. */
  lemma TicksBelow(n: uint64, t: uint64)
    requires t <= n
    ensures LowerBound(Ticks(n), BoundRank(Bound(t, []))) == t
  {
    hide Rank, BoundRank, LowerBound;
    TicksAscend(n);
    TickRank(t);
    forall i | 0 <= i < n
      ensures i < t ==> Rank(Ticks(n)[i]) < BoundRank(Bound(t, []))
      ensures t <= i ==> BoundRank(Bound(t, [])) <= Rank(Ticks(n)[i])
    {
      if i < t {
        InTimeOrder(Ticks(n)[i], Item(t, Zeros(32)));
      } else if t < i {
        InTimeOrder(Item(t, Zeros(32)), Ticks(n)[i]);
      }
    }
    LowerBoundUnique(Ticks(n), BoundRank(Bound(t, [])), t);
  }

  /** Sum of the ids of some items. */
  function IdSum(items: seq<Item>): Sum {
    if items == [] then 0 else AddMod(IdNum(items[0].id), IdSum(items[1..]))
  }

  /** The ids read as little-endian numbers, added up. */
  ghost function IdTotal(items: seq<Item>): nat {
    if items == [] then 0 else LeNum(items[0].id) + IdTotal(items[1..])
  }

  lemma {:induction false} IdSumIsTotal(items: seq<Item>)
    ensures IdSum(items) == IdTotal(items)
                            % 0x1_0000_0000_0000_0000_0000_0000_0000_0000_0000_0000_0000_0000_0000_0000_0000_0000
  {
    hide LeNum, IdNum, AddMod;
    if items != [] {
      IdSumIsTotal(items[1..]);
      IdNumIs(items[0].id);
      TotalMore(IdNum(items[0].id), IdTotal(items[1..]));
    }
  }

  lemma IdNumIs(id: Id)
    ensures IdNum(id) == LeNum(id)
  {
  }

  lemma TotalMore(a: Sum, n: nat)
    ensures AddMod(a, n % TWO_256) == (a + n) % TWO_256
  {
    assert a + n == a + n % TWO_256 + n / TWO_256 * TWO_256;
  }

  lemma {:induction false} IdSumConcat(a: seq<Item>, b: seq<Item>)
    ensures IdSum(a + b) == AddMod(IdSum(a), IdSum(b))
  {
    if a == [] {
      assert a + b == b;
    } else {
      assert (a + b)[1..] == a[1..] + b;
      IdSumConcat(a[1..], b);
      AddModLaws(IdNum(a[0].id), IdSum(a[1..]), IdSum(b));
    }
  }

  lemma IdSumOne(item: Item)
    ensures IdSum([item]) == IdNum(item.id)
  {
    AddModLaws(IdNum(item.id), 0, 0);
  }

  ghost predicate NoTwins(items: seq<Item>) {
    forall i, j :: 0 <= i < j < |items| ==> items[i] != items[j]
  }

  lemma AscendingMeans(items: seq<Item>)
    ensures AscendingItems(items) <==> InOrder(items) && NoTwins(items)
  {
    hide Rank;
    forall i, j | 0 <= i < j < |items| ensures Rank(items[i]) == Rank(items[j]) <==> items[i] == items[j] {
      ItemOrder(items[i], items[j]);
    }
  }

  /** Exactly the items of `begin..end` up to and including the first one at which the callback stops. */
  ghost predicate Visited(contents: seq<Item>, begin: nat, end: nat, cb: (Item, nat) -> bool, visited: seq<Item>)
    requires begin <= end <= |contents|
  {
    && |visited| <= end - begin && visited == contents[begin..begin + |visited|]
    && (forall i :: begin <= i < begin + |visited| - 1 ==> cb(contents[i], i))
    && (begin + |visited| < end ==> |visited| > 0 && !cb(contents[begin + |visited| - 1], begin + |visited| - 1))
  }

  ghost predicate AllGoOn(contents: seq<Item>, begin: nat, end: nat, cb: (Item, nat) -> bool)
    requires end <= |contents|
  {
    forall i :: begin <= i < end ==> cb(contents[i], i)
  }

  lemma VisitedNone(contents: seq<Item>, begin: nat, cb: (Item, nat) -> bool)
    requires begin <= |contents|
    ensures Visited(contents, begin, begin, cb, []) && AllGoOn(contents, begin, begin, cb)
  {
  }

  /** One more item is visited after all before it were. */
  lemma VisitedOne(contents: seq<Item>, begin: nat, n: nat, end: nat, cb: (Item, nat) -> bool, visited: seq<Item>)
    requires begin <= n < end <= |contents| && |visited| == n - begin && Visited(contents, begin, n, cb, visited)
    requires AllGoOn(contents, begin, n, cb)
    ensures var more := visited + [contents[n]];
            && Visited(contents, begin, n + 1, cb, more)
            && (cb(contents[n], n) ==> AllGoOn(contents, begin, n + 1, cb))
            && (!cb(contents[n], n) ==> Visited(contents, begin, end, cb, more))
  {
    assert contents[begin..n + 1] == contents[begin..n] + [contents[n]];
  }

  /** The sum of some items is what adding them one by one gives, in any order (see ChangesInAnyOrder). */
  lemma {:induction false} IdSumIsNet(items: seq<Item>)
    ensures IdSum(items) == Net(seq(|items|, i requires 0 <= i < |items| => Added(items[i].id)))
  {
    var changes := seq(|items|, i requires 0 <= i < |items| => Added(items[i].id));
    if items != [] {
      var rest := items[1..];
      IdSumIsNet(rest);
      assert changes[1..] == seq(|rest|, i requires 0 <= i < |rest| => Added(rest[i].id));
    }
  }
}
