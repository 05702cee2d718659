/** The array storage: a list of items that is sorted when it is sealed. */
module Vectors {
  import opened Types
  import opened Accumulators
  import opened Encoding
  import opened SortedItems
  import opened Wire
  import opened Fingerprints

  // ---------- Sorting ----------

  function InsertSorted(x: Item, items: seq<Item>): (s: seq<Item>)
    ensures multiset(s) == multiset(items) + multiset{x}
  {
    if items == [] then [x]
    else if ItemLess(items[0], x) then
      assert items == [items[0]] + items[1..];
      [items[0]] + InsertSorted(x, items[1..])
    else [x] + items
  }

  function Sorted(items: seq<Item>): (s: seq<Item>)
    ensures multiset(s) == multiset(items)
  {
    if items == [] then []
    else
      assert items == [items[0]] + items[1..];
      InsertSorted(items[0], Sorted(items[1..]))
  }

  lemma {:induction false} InsertKeepsOrder(x: Item, items: seq<Item>)
    requires InOrder(items)
    ensures InOrder(InsertSorted(x, items))
  {
    hide Rank;
    var s := InsertSorted(x, items);
    if items != [] {
      ItemOrder(items[0], x);
      if ItemLess(items[0], x) {
        InsertKeepsOrder(x, items[1..]);
        var rest := InsertSorted(x, items[1..]);
        forall j | 0 <= j < |rest| ensures Rank(items[0]) <= Rank(rest[j]) {
          assert rest[j] in multiset(rest);
          if rest[j] != x {
            assert rest[j] in items[1..];
          }
        }
      } else {
        forall j | 0 <= j < |items| ensures Rank(x) <= Rank(items[j]) {
        }
      }
    }
  }

  lemma {:induction false} SortedInOrder(items: seq<Item>)
    ensures InOrder(Sorted(items))
  {
    hide Rank;
    if items != [] {
      SortedInOrder(items[1..]);
      InsertKeepsOrder(items[0], Sorted(items[1..]));
    }
  }

  lemma OneHasNoTwin(items: seq<Item>)
    ensures 1 <= |items| ==> NoTwins(items[..1])
    ensures 1 >= |items| ==> NoTwins(items)
  {
  }

  /** In sorted items an item that differs from the one before it differs from all before it. */
  lemma OneMoreNoTwin(items: seq<Item>, i: nat)
    requires InOrder(items) && 0 < i < |items| && NoTwins(items[..i]) && items[i - 1] != items[i]
    ensures NoTwins(items[..i + 1]) && (i + 1 == |items| ==> NoTwins(items))
  {
    hide Rank;
    var more := items[..i + 1];
    forall j, k | 0 <= j < k < |more| ensures more[j] != more[k] {
      if k < i {
        assert items[..i][j] != items[..i][k];
      } else {
        ItemOrder(items[i - 1], items[i]);
        ItemOrder(items[j], items[i]);
      }
    }
    assert i + 1 == |items| ==> more == items;
  }

  lemma TwinsFound(items: seq<Item>, i: nat)
    requires 0 < i < |items| && items[i - 1] == items[i]
    ensures !NoTwins(items)
  {
  }

  class Vector {
    var items: seq<Item>
    var isSealed: bool

    ghost predicate Valid()
      reads this
    {
      isSealed ==> InOrder(items)
    }

    constructor ()
      ensures Valid() && items == [] && !isSealed
    {
      items, isSealed := [], false;
    }

    method Insert(createdAt: uint64, id: seq<byte>) returns (r: Result<()>)
      requires Valid()
      modifies this`items
      ensures Valid()
      ensures r == if isSealed then Err("already sealed")
                   else if |id| != ID_SIZE then Err("bad id size for added item")
                   else Ok(())
      ensures items == if r.Ok? then old(items) + [Item(createdAt, id)] else old(items)
    {
      if isSealed {
        return Err("already sealed");
      }
      if |id| != ID_SIZE {
        return Err("bad id size for added item");
      }
      items := items + [Item(createdAt, id)];
      r := Ok(());
    }

    /** Sorts the items. The storage stays sealed even when two items turn out to be equal. */
    method Seal() returns (r: Result<()>)
      requires Valid()
      modifies this
      ensures Valid() && isSealed && multiset(items) == multiset(old(items))
      ensures old(isSealed) ==> r == Err("already sealed") && items == old(items)
      ensures !old(isSealed) ==> r == if AscendingItems(items) then Ok(()) else Err("duplicate item inserted")
    {
      hide Rank, AscendingItems, InOrder, NoTwins;
      if isSealed {
        return Err("already sealed");
      }
      isSealed := true;
      SortedInOrder(items);
      items := Sorted(items);
      AscendingMeans(items);
      OneHasNoTwin(items);
      var i := 1;
      while i < |items|
        invariant i >= 1 && (i <= |items| ==> NoTwins(items[..i])) && (i >= |items| ==> NoTwins(items))
        modifies {}
      {
        if items[i - 1] == items[i] {
          TwinsFound(items, i);
          return Err("duplicate item inserted");
        }
        OneMoreNoTwin(items, i);
        i := i + 1;
      }
      r := Ok(());
    }

    method Unseal()
      modifies this`isSealed
      ensures !isSealed && Valid()
    {
      isSealed := false;
    }

    method Size() returns (r: Result<nat>)
      ensures r == if isSealed then Ok(|items|) else Err("not sealed")
    {
      if !isSealed {
        return Err("not sealed");
      }
      r := Ok(|items|);
    }

    method GetItem(i: nat) returns (r: Result<Item>)
      ensures r == if !isSealed then Err("not sealed") else if i < |items| then Ok(items[i]) else Err("out of range")
    {
      if !isSealed {
        return Err("not sealed");
      }
      if i >= |items| {
        return Err("out of range");
      }
      r := Ok(items[i]);
    }

    /** Whether a range of positions can be used, and the error otherwise. */
    function RangeError(begin: nat, end: nat): (e: Option<string>)
      reads this
      ensures e == None <==> isSealed && begin <= end <= |items|
    {
      if !isSealed then Some("not sealed")
      else if begin > end || end > |items| then Some("bad range")
      else None
    }

    method Iterate(begin: nat, end: nat, cb: (Item, nat) -> bool) returns (r: Result<seq<Item>>)
      ensures r.Ok? <==> RangeError(begin, end) == None
      ensures r.Err? ==> RangeError(begin, end) == Some(r.error)
      ensures r.Ok? ==> Visited(items, begin, end, cb, r.value)
    {
      var e := RangeError(begin, end);
      if e.Some? {
        return Err(e.value);
      }
      var visited: seq<Item> := [];
      var i := begin;
      while i < end
        invariant begin <= i <= end && visited == items[begin..i]
        invariant forall j :: begin <= j < i ==> cb(items[j], j)
      {
        visited := visited + [items[i]];
        if !cb(items[i], i) {
          break;
        }
        i := i + 1;
      }
      r := Ok(visited);
    }

    /** The first position in `begin..end` whose item is not below the bound, by halving. */
    method FindLowerBound(begin: nat, end: nat, value: Bound) returns (r: Result<nat>)
      requires Valid()
      ensures r.Ok? <==> RangeError(begin, end) == None
      ensures r.Err? ==> RangeError(begin, end) == Some(r.error)
      ensures r.Ok? ==> r.value == ClampedLowerBound(items, begin, end, BoundRank(value))
    {
      hide Rank, BoundRank, LowerBound;
      var e := RangeError(begin, end);
      if e.Some? {
        return Err(e.value);
      }
      var item := BoundItem(value);
      assert BoundRank(value) == Rank(item) by {
        BoundRankIs(value);
      }
      var first, count := begin, end - begin;
      while count > 0
        invariant begin <= first && 0 <= count && first + count <= end
        invariant forall j :: begin <= j < first ==> Rank(items[j]) < Rank(item)
        invariant forall j :: first + count <= j < end ==> Rank(item) <= Rank(items[j])
        decreases count
      {
        var step := count / 2;
        var it := first + step;
        ItemOrder(items[it], item);
        if ItemLess(items[it], item) {
          first := it + 1;
          count := count - step - 1;
        } else {
          count := step;
        }
      }
      LowerBoundWithin(items, begin, end, Rank(item), first);
      r := Ok(first);
    }

    method Fingerprint(begin: nat, end: nat, h: Hash) returns (r: Result<Fingerprint>)
      ensures r.Ok? <==> RangeError(begin, end) == None
      ensures r.Err? ==> RangeError(begin, end) == Some(r.error)
      ensures r.Ok? ==>
        exists s: seq<byte>, c ::
          && |s| == 32 && LeNum(s) == IdSum(items[begin..end]) && Spells(c, (end - begin) % 0x1_0000_0000_0000_0000)
          && r.value == h(s + c)
      ensures r.Ok? ==> r.value == FingerprintOf(h, items[begin..end])
    {
      hide IdSum, Spells;
      var visited := Iterate(begin, end, (_, _) => true);
      if visited.Err? {
        return Err(visited.error);
      }
      assert visited.value == items[begin..end];
      var accum := Accumulate(visited.value);
      var f := GetFingerprint(accum, h, Word(end - begin));
      r := Ok(f);
    }
  }

  lemma BoundRankIs(b: Bound)
    ensures BoundRank(b) == Rank(BoundItem(b))
  {
  }

  /** A position that splits `begin..end` is the clamped lower bound. */
  lemma LowerBoundWithin(items: seq<Item>, begin: nat, end: nat, r: int, n: nat)
    requires InOrder(items) && begin <= n <= end <= |items|
    requires forall j :: begin <= j < n ==> Rank(items[j]) < r
    requires forall j :: n <= j < end ==> r <= Rank(items[j])
    ensures n == ClampedLowerBound(items, begin, end, r)
  {
    hide Rank, LowerBound;
    InOrderSplits(items, r);
    var m := LowerBound(items, r);
    assert begin < n && m < begin ==> IsBelow(items, r, begin);
    assert begin <= m < n ==> IsBelow(items, r, m);
    assert n < m && n < end ==> IsBelow(items, r, n);
  }
}
