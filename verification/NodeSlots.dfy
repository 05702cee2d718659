/** The fixed key slots of a B+tree node.

    A node has one slot more than MAX_ITEMS, and its unused slots are zero. The tree keeps the slots of all its
    nodes in a map and works on the slots of a node in place; the operations here are proved to do to the used keys
    what the tree is proved on, and to leave all unused slots zero. */
module NodeSlots {
  import opened Types
  import opened BTreeNodes
  import opened BTreeInsert
  import opened BTreeErase

  const ZERO_KEY := Key(ZERO_ITEM, 0)

  ghost predicate ZeroFrom(s: seq<Key>, n: nat) {
    forall i :: n <= i < |s| ==> s[i] == ZERO_KEY
  }

  function ZeroKeys(n: nat): (s: seq<Key>)
    ensures |s| == n && ZeroFrom(s, 0)
  {
    seq(n, _ => ZERO_KEY)
  }

  lemma SameTail(a: array<Key>, was: seq<Key>, n: nat)
    requires n <= a.Length == |was| && a[n..] == was[n..]
    ensures forall i :: n <= i < a.Length ==> a[i] == was[i]
  {
    forall i | n <= i < a.Length ensures a[i] == was[i] {
      assert a[i] == a[n..][i - n] && was[i] == was[n..][i - n];
    }
  }

  class Slots {
    const items: array<Key>
    var numItems: nat

    ghost predicate Valid()
      reads this, items
    {
      items.Length > 0 && numItems < items.Length && ZeroFrom(items[..], numItems)
    }

    function Used(): seq<Key>
      requires Valid()
      reads this, items
    {
      items[..numItems]
    }

    constructor (maxItems: nat)
      ensures Valid() && fresh(items) && items.Length == maxItems + 1 && Used() == []
    {
      items := new Key[maxItems + 1](_ => ZERO_KEY);
      numItems := 0;
    }

    /** The slots of a stored node. */
    constructor Load(slots: seq<Key>, n: nat)
      requires n < |slots| && ZeroFrom(slots, n)
      ensures Valid() && fresh(items) && items[..] == slots && numItems == n
    {
      items := new Key[|slots|](i requires 0 <= i < |slots| => slots[i]);
      numItems := n;
      new;
      assert items[..] == slots;
    }

    /** Puts a key into the first unused slot. */
    method Append(key: Key)
      requires Valid() && numItems + 1 < items.Length
      modifies this`numItems, items
      ensures Valid() && Used() == old(Used()) + [key]
    {
      items[numItems] := key;
      numItems := numItems + 1;
    }

    /** Overwrites a used slot. */
    method SetKey(index: nat, key: Key)
      requires Valid() && index < numItems
      modifies items
      ensures Valid() && Used() == old(Used())[index := key]
    {
      items[index] := key;
    }

    /** Puts a key behind `n` ascending keys and merges it in place: later keys move up one slot. */
    method MergeLast(n: nat, newKey: Key)
      requires n < items.Length && Ascending(items[..n])
      modifies items
      ensures items[..n + 1] == MergeKey(old(items[..n]), newKey)
      ensures items[n + 1..] == old(items[n + 1..])
    {
      hide Rank, MergeKey, Ascending;
      ghost var was := items[..];
      var j := n;
      while j > 0 && ItemLess(newKey.item, items[j - 1].item)
        invariant 0 <= j <= n
        invariant forall i :: 0 <= i < j ==> items[i] == was[i]
        invariant forall i :: j < i <= n ==> items[i] == was[i - 1]
        invariant forall i :: n < i < items.Length ==> items[i] == was[i]
        invariant forall i :: j <= i < n ==> Rank(newKey.item) < Rank(was[i].item)
        modifies items
      {
        ItemOrder(newKey.item, items[j - 1].item);
        items[j] := items[j - 1];
        j := j - 1;
      }
      items[j] := newKey;
      if j > 0 {
        ItemOrder(newKey.item, was[j - 1].item);
      }
      OneInserted(was, items[..], n, newKey, j);
      MergedAt(was[..n], newKey, j);
    }

    /** A node with room takes a key. */
    method Add(newKey: Key)
      requires Valid() && numItems + 1 < items.Length && Ascending(Used())
      modifies this`numItems, items
      ensures Valid() && Used() == MergeKey(old(Used()), newKey)
    {
      ghost var was := items[..];
      MergeLast(numItems, newKey);
      numItems := numItems + 1;
      SameTail(items, was, numItems);
    }

    /** Sets the slots from `n` on to zero. */
    method ZeroSlots(n: nat, end: nat)
      requires n <= end <= items.Length
      modifies items
      ensures items[..n] == old(items[..n]) && items[end..] == old(items[end..])
      ensures forall i :: n <= i < end ==> items[i] == ZERO_KEY
    {
      ghost var was := items[..];
      var i := n;
      while i < end
        invariant n <= i <= end
        invariant forall j :: n <= j < i ==> items[j] == ZERO_KEY
        invariant forall j :: 0 <= j < n || i <= j < items.Length ==> items[j] == was[j]
      {
        items[i] := ZERO_KEY;
        i := i + 1;
      }
    }

    /** A full node takes a key and gives its last keys to an empty node: one key if it is the right-most of its level,
        half of them otherwise. */
    method Split(newKey: Key, right: Slots, rightMost: bool)
      requires Valid() && numItems + 1 == items.Length && Ascending(Used()) && numItems % 2 == 0 && numItems > 0
      requires right != this && right.items != items && right.Valid() && right.items.Length == items.Length
               && right.numItems == 0
      modifies this`numItems, items, right`numItems, right.items
      ensures Valid() && right.Valid()
      ensures var all := MergeKey(old(Used()), newKey);
              var n := if rightMost then old(numItems) else old(numItems) / 2 + 1;
              Used() == all[..n] && right.Used() == all[n..]
    {
      hide MergeKey, Ascending, ZeroFrom;
      ghost var all := MergeKey(Used(), newKey);
      var maxItems := numItems;
      MergeLast(maxItems, newKey);
      assert items[..] == all;
      var n := if rightMost then maxItems else maxItems / 2 + 1;
      TakeTail(right, n);
      ZeroSlots(n, items.Length);
      ZeroBehind(items[..], n);
      numItems := n;
      assert items[..n] == all[..n];
    }

    /** All slots from `n` on are copied to an empty node. */
    method TakeTail(right: Slots, n: nat)
      requires right != this && right.items != items && right.Valid() && right.items.Length == items.Length
               && right.numItems == 0
      requires 0 < n <= items.Length
      modifies right`numItems, right.items
      ensures right.Valid() && right.Used() == items[n..]
    {
      hide ZeroFrom, Filled;
      ghost var was, tail := right.items[..], items[n..];
      FilledIs(right);
      CopyKeys(this, n, right, 0, items.Length - n);
      assert items[n..items.Length] == tail;
      FilledBehind(was, right.items[..], [], tail);
      right.numItems := items.Length - n;
      assert [] + tail == tail;
      FilledMeans(right, tail);
    }

    /** Takes out the key in one slot: later keys move down one slot. */
    method RemoveAtSlot(index: nat)
      requires Valid() && index < numItems
      modifies this`numItems, items
      ensures Valid() && Used() == RemovedAt(old(Used()), index)
    {
      hide ZeroFrom, RemovedAt;
      ghost var was, n := items[..], numItems;
      var i := index + 1;
      while i < numItems
        invariant index + 1 <= i <= numItems
        invariant forall j :: 0 <= j < index ==> items[j] == was[j]
        invariant forall j :: index <= j < i - 1 ==> items[j] == was[j + 1]
        invariant forall j :: i - 1 <= j < items.Length ==> items[j] == was[j]
        modifies items
      {
        items[i - 1] := items[i];
        i := i + 1;
      }
      numItems := numItems - 1;
      items[numItems] := ZERO_KEY;
      OneRemoved(was, items[..], n, index);
    }
  }

  /** Keys behind slot `index` moved down by one, and the last one zeroed. */
  lemma OneRemoved(was: seq<Key>, now: seq<Key>, n: nat, index: nat)
    requires |was| == |now| && index < n <= |was| && ZeroFrom(was, n)
    requires forall j :: 0 <= j < index ==> now[j] == was[j]
    requires forall j :: index <= j < n - 1 ==> now[j] == was[j + 1]
    requires forall j :: n <= j < |was| ==> now[j] == was[j]
    requires now[n - 1] == ZERO_KEY
    ensures now[..n - 1] == RemovedAt(was[..n], index) && ZeroFrom(now, n - 1)
  {
  }

  /** Keys from slot `j` on moved up by one to make place for a key. */
  lemma OneInserted(was: seq<Key>, now: seq<Key>, n: nat, newKey: Key, j: nat)
    requires |was| == |now| && j <= n < |was| && now[j] == newKey
    requires forall i :: 0 <= i < j ==> now[i] == was[i]
    requires forall i :: j < i <= n ==> now[i] == was[i - 1]
    requires forall i :: n < i < |was| ==> now[i] == was[i]
    ensures now[..n + 1] == was[..n][..j] + [newKey] + was[..n][j..] && now[n + 1..] == was[n + 1..]
  {
  }

  lemma MergedAt(keys: seq<Key>, newKey: Key, j: nat)
    requires Ascending(keys) && j <= |keys|
    requires j > 0 ==> Rank(keys[j - 1].item) <= Rank(newKey.item)
    requires forall i :: j <= i < |keys| ==> Rank(newKey.item) < Rank(keys[i].item)
    ensures MergeKey(keys, newKey) == keys[..j] + [newKey] + keys[j..]
  {
    hide Rank;
    MergeKeyAt(keys, newKey, j);
  }

  /** Two different nodes with the same number of slots. */
  ghost predicate TwoNodes(left: Slots, right: Slots)
    reads left, right, left.items, right.items
  {
    left.Valid() && right.Valid() && left != right && left.items != right.items
      && left.items.Length == right.items.Length
  }

  // ---------- Moves within and between slots ----------

  /** Copies `count` keys from slot `n` of one node to slot `m` of another. */
  method CopyKeys(source: Slots, n: nat, target: Slots, m: nat, count: nat)
    requires source.items != target.items && n + count <= source.items.Length && m + count <= target.items.Length
    modifies target.items
    ensures target.items[..]
         == old(target.items[..])[..m] + source.items[n..n + count] + old(target.items[..])[m + count..]
  {
    ghost var was, from := target.items[..], source.items[n..n + count];
    var i := 0;
    while i < count
      invariant 0 <= i <= count
      invariant forall j :: 0 <= j < i ==> target.items[m + j] == from[j]
      invariant forall j :: 0 <= j < target.items.Length && !(m <= j < m + i) ==> target.items[j] == was[j]
      modifies target.items
    {
      target.items[m + i] := source.items[n + i];
      i := i + 1;
    }
    CopiedKeys(was, target.items[..], from, m);
  }

  lemma CopiedKeys(was: seq<Key>, now: seq<Key>, from: seq<Key>, m: nat)
    requires |was| == |now| && m + |from| <= |was|
    requires forall j :: 0 <= j < |from| ==> now[m + j] == from[j]
    requires forall j :: 0 <= j < |was| && !(m <= j < m + |from|) ==> now[j] == was[j]
    ensures now == was[..m] + from + was[m + |from|..]
  {
    assert now[m..m + |from|] == from;
    assert now == now[..m] + now[m..m + |from|] + now[m + |from|..];
  }

  /** Moves the first `k` keys `n` slots up. */
  method ShiftUp(node: Slots, k: nat, n: nat)
    requires k + n <= node.items.Length
    modifies node.items
    ensures node.items[..][n..] == old(node.items[..])[..k] + old(node.items[..])[k + n..]
  {
    forall i | n <= i < n + k {
      node.items[i] := node.items[i - n];
    }
  }

  /** Moves the keys from slot `n` up to slot `k` to the front. */
  method ShiftDown(node: Slots, n: nat, k: nat)
    requires n <= k <= node.items.Length
    modifies node.items
    ensures node.items[..] == old(node.items[n..k] + node.items[k - n..])
  {
    forall i | 0 <= i < k - n {
      node.items[i] := node.items[n + i];
    }
  }

  /** Slots that hold `used` and are zero behind them. */
  ghost predicate Filled(s: seq<Key>, used: seq<Key>) {
    |used| < |s| && s[..|used|] == used && ZeroFrom(s, |used|)
  }

  lemma FilledIs(node: Slots)
    ensures node.Valid() <==> node.numItems < node.items.Length && Filled(node.items[..], node.items[..node.numItems])
  {
  }

  lemma UsedFills(node: Slots)
    requires node.Valid()
    ensures |node.Used()| == node.numItems < node.items.Length && Filled(node.items[..], node.Used())
    ensures node.Used() == node.items[..node.numItems]
  {
  }

  lemma FilledMeans(node: Slots, used: seq<Key>)
    requires Filled(node.items[..], used) && node.numItems == |used|
    ensures node.Valid() && node.Used() == used
  {
  }

  lemma ZeroBehind(s: seq<Key>, n: nat)
    requires forall i :: n <= i < |s| ==> s[i] == ZERO_KEY
    ensures ZeroFrom(s, n)
  {
  }

  /** Keys put behind the used ones. */
  lemma FilledBehind(was: seq<Key>, now: seq<Key>, used: seq<Key>, more: seq<Key>)
    requires Filled(was, used) && |used| + |more| < |was| && now == was[..|used|] + more + was[|used| + |more|..]
    ensures Filled(now, used + more)
  {
  }

  /** Keys put before the used ones after these were shifted up. */
  lemma FilledBefore(was: seq<Key>, shifted: seq<Key>, now: seq<Key>, used: seq<Key>, front: seq<Key>)
    requires Filled(was, used) && |used| + |front| < |was| && |shifted| == |was|
    requires shifted[|front|..] == was[..|used|] + was[|used| + |front|..]
    requires now == front + shifted[|front|..]
    ensures Filled(now, front + used)
  {
    assert now == front + used + was[|used| + |front|..];
  }

  /** Used keys cut off at the end and their slots set to zero. */
  lemma FilledCut(was: seq<Key>, now: seq<Key>, used: seq<Key>, n: nat)
    requires Filled(was, used) && n <= |used| && |now| == |was|
    requires now[..n] == was[..n] && now[|used|..] == was[|used|..]
    requires forall i :: n <= i < |used| ==> now[i] == ZERO_KEY
    ensures Filled(now, used[..n])
  {
    forall i | |used| <= i < |now| ensures now[i] == ZERO_KEY {
      assert now[|used|..][i - |used|] == was[|used|..][i - |used|];
    }
    assert was[..n] == was[..|used|][..n];
  }

  /** Used keys moved to the front, with copies left behind. */
  lemma ShiftedDown(was: seq<Key>, now: seq<Key>, used: seq<Key>, n: nat)
    requires Filled(was, used) && n <= |used| && now == was[n..|used|] + was[|used| - n..]
    ensures Filled(now, now[..|used|]) && now[..|used|][..|used| - n] == used[n..] && |now| == |was|
  {
    assert was[n..|used|] == used[n..];
    assert now[|used|..] == was[|used|..];
    forall i | |used| <= i < |now| ensures now[i] == ZERO_KEY {
      assert now[|used|..][i - |used|] == was[|used|..][i - |used|];
    }
  }

  // ---------- Two nodes ----------

  /** Moves all keys of the left node in front of those of the right node. */
  method MoveIntoRight(left: Slots, right: Slots)
    requires TwoNodes(left, right) && left.numItems + right.numItems < right.items.Length
    modifies right`numItems, right.items
    ensures right.Valid() && right.Used() == old(left.Used() + right.Used())
  {
    hide ZeroFrom;
    PutBefore(left, 0, right, left.numItems);
  }

  /** Moves all keys of the right node behind those of the left node. */
  method MoveIntoLeft(left: Slots, right: Slots)
    requires TwoNodes(left, right) && left.numItems + right.numItems < left.items.Length
    modifies left`numItems, left.items
    ensures left.Valid() && left.Used() == old(left.Used() + right.Used())
  {
    hide Filled, ZeroFrom;
    ghost var r := right.Used();
    PutBehind(left, right, right.numItems);
    assert r[..|r|] == r;
  }

  /** The first `numMove` keys of the right node go to the end of the left one. */
  method MoveLeft(left: Slots, right: Slots, numMove: nat)
    requires TwoNodes(left, right) && numMove <= right.numItems && left.numItems + numMove < left.items.Length
    modifies left`numItems, left.items, right`numItems, right.items
    ensures left.Valid() && right.Valid()
    ensures left.Used() == old(left.Used() + right.Used()[..numMove]) && right.Used() == old(right.Used()[numMove..])
  {
    hide Filled, ZeroFrom;
    PutBehind(left, right, numMove);
    CutFront(right, numMove);
  }

  /** Copies the first keys of the right node behind those of the left node. */
  method PutBehind(left: Slots, right: Slots, count: nat)
    requires TwoNodes(left, right) && count <= right.numItems && left.numItems + count < left.items.Length
    modifies left`numItems, left.items
    ensures left.Valid() && left.Used() == old(left.Used()) + right.Used()[..count]
  {
    hide Filled, ZeroFrom;
    ghost var l, front, was := left.Used(), right.Used()[..count], left.items[..];
    FilledIs(left);
    CopyKeys(right, 0, left, left.numItems, count);
    PartOfUsed(right, 0, count);
    FilledBehind(was, left.items[..], l, front);
    left.numItems := left.numItems + count;
    FilledMeans(left, l + front);
  }

  /** Drops the first `n` keys of a node: the others move to the front, and the slots they leave are zeroed. */
  method CutFront(node: Slots, n: nat)
    requires node.Valid() && n <= node.numItems
    modifies node`numItems, node.items
    ensures node.Valid() && node.Used() == old(node.Used())[n..]
  {
    hide Filled, ZeroFrom;
    ghost var used, was := node.Used(), node.items[..];
    FilledIs(node);
    var k := node.numItems;
    ShiftDown(node, n, k);
    ghost var moved := node.items[..];
    ShiftedDown(was, moved, used, n);
    node.ZeroSlots(k - n, k);
    FilledCut(moved, node.items[..], moved[..k], k - n);
    node.numItems := k - n;
    FilledMeans(node, used[n..]);
  }

  /** The last `numMove` keys of the left node go to the front of the right one. */
  method MoveRight(left: Slots, right: Slots, numMove: nat)
    requires TwoNodes(left, right) && numMove <= left.numItems && right.numItems + numMove < right.items.Length
    modifies left`numItems, left.items, right`numItems, right.items
    ensures left.Valid() && right.Valid()
    ensures var l := old(left.Used());
            left.Used() == l[..|l| - numMove] && right.Used() == l[|l| - numMove..] + old(right.Used())
  {
    hide Filled, ZeroFrom;
    ghost var l := left.Used();
    var n := left.numItems - numMove;
    assert l[n..n + numMove] == l[n..];
    PutBefore(left, n, right, numMove);
    CutBack(left, n);
  }

  /** Copies keys from slot `n` of the left node in front of those of the right node. */
  method PutBefore(left: Slots, n: nat, right: Slots, count: nat)
    requires TwoNodes(left, right) && n + count <= left.numItems && right.numItems + count < right.items.Length
    modifies right`numItems, right.items
    ensures right.Valid() && right.Used() == left.Used()[n..n + count] + old(right.Used())
  {
    hide Filled, ZeroFrom, Slots.Valid, Slots.Used;
    UsedFills(left);
    UsedFills(right);
    ghost var r, was, front := right.Used(), right.items[..], left.Used()[n..n + count];
    PartOfUsed(left, n, n + count);
    assert front == left.items[n..n + count];
    ShiftUp(right, right.numItems, count);
    ghost var shifted := right.items[..];
    assert |shifted| == |was| && shifted[count..] == was[..|r|] + was[|r| + count..];
    CopyKeys(left, n, right, 0, count);
    assert right.items[..] == shifted[..0] + front + shifted[0 + count..];
    Behind(shifted, right.items[..], front);
    FilledBefore(was, shifted, right.items[..], r, front);
    assert left.Used()[n..n + count] == front;
    right.numItems := right.numItems + count;
    FilledMeans(right, front + r);
  }

  lemma PartOfUsed(node: Slots, a: nat, b: nat)
    requires node.Valid() && a <= b <= node.numItems
    ensures node.items[a..b] == node.Used()[a..b] && node.Used()[0..b] == node.Used()[..b]
  {
    var used, all := node.Used(), node.items[a..b];
    forall i | 0 <= i < b - a ensures all[i] == used[a..b][i] {
      assert all[i] == node.items[a + i] && used[a + i] == node.items[a + i];
    }
  }

  lemma Behind(was: seq<Key>, now: seq<Key>, front: seq<Key>)
    requires |front| <= |was| && now == was[..0] + front + was[0 + |front|..]
    ensures now == front + was[|front|..]
  {
  }

  /** Drops the keys of a node from slot `n` on. */
  method CutBack(node: Slots, n: nat)
    requires node.Valid() && n <= node.numItems
    modifies node`numItems, node.items
    ensures node.Valid() && node.Used() == old(node.Used())[..n]
  {
    hide Filled, ZeroFrom;
    ghost var used, was := node.Used(), node.items[..];
    FilledIs(node);
    node.ZeroSlots(n, node.numItems);
    FilledCut(was, node.items[..], used, n);
    node.numItems := n;
    FilledMeans(node, used[..n]);
  }

  // ---------- The slots of all nodes ----------

  type SlotStore = map<nat, seq<Key>>

  /** A node's slots: one more than MAX_ITEMS, its keys first, and zero behind them. */
  ghost predicate NodeFilled(c: Config, slots: seq<Key>, items: seq<Key>) {
    |slots| == c.maxItems + 1 && Filled(slots, items)
  }

  /** Every node has its slots. */
  ghost predicate SlotsOk(c: Config, s: Store, slots: SlotStore) {
    s.Keys == slots.Keys && forall id :: id in s ==> NodeFilled(c, slots[id], s[id].items)
  }

  /** The same for all nodes but one, which is about to be stored or deleted. */
  ghost predicate SlotsOkBut(c: Config, s: Store, slots: SlotStore, x: nat) {
    s.Keys == slots.Keys && forall id :: id in s && id != x ==> NodeFilled(c, slots[id], s[id].items)
  }

  lemma SlotsOfAll(c: Config, s: Store, slots: SlotStore, x: nat)
    requires SlotsOk(c, s, slots)
    ensures SlotsOkBut(c, s, slots, x)
  {
    hide NodeFilled;
  }

  lemma SlotsOf(c: Config, s: Store, slots: SlotStore, id: nat)
    requires SlotsOk(c, s, slots) && id in s
    ensures id in slots && NodeFilled(c, slots[id], s[id].items)
    ensures |slots[id]| == c.maxItems + 1 && |s[id].items| <= c.maxItems
    ensures slots[id][..|s[id].items|] == s[id].items && ZeroFrom(slots[id], |s[id].items|)
  {
  }

  lemma SlotsPut(c: Config, s: Store, slots: SlotStore, id: nat, n: Node, sl: seq<Key>)
    requires SlotsOkBut(c, s, slots, id) && NodeFilled(c, sl, n.items)
    ensures SlotsOk(c, s[id := n], slots[id := sl])
  {
    hide NodeFilled;
  }

  lemma SlotsRelink(c: Config, s: Store, slots: SlotStore, id: nat, n: Node)
    requires SlotsOk(c, s, slots) && id in s && n.items == s[id].items
    ensures SlotsOk(c, s[id := n], slots)
  {
    hide NodeFilled;
  }

  lemma SlotsRelinkBut(c: Config, s: Store, slots: SlotStore, x: nat, id: nat, n: Node)
    requires SlotsOkBut(c, s, slots, x) && id in s && n.items == s[id].items
    ensures SlotsOkBut(c, s[id := n], slots, x)
  {
    hide NodeFilled;
  }

  /** The used keys of one node are given up without touching its slots. */
  lemma SlotsGivenUp(c: Config, s: Store, slots: SlotStore, x: nat, n: Node)
    requires SlotsOkBut(c, s, slots, x) && x in s
    ensures SlotsOkBut(c, s[x := n], slots, x)
  {
    hide NodeFilled;
  }

  lemma SlotsDrop(c: Config, s: Store, slots: SlotStore, x: nat)
    requires SlotsOkBut(c, s, slots, x)
    ensures SlotsOk(c, s - {x}, slots - {x})
  {
    hide NodeFilled;
  }

  lemma LoadedFilled(c: Config, node: Slots)
    requires node.Valid() && node.items.Length == c.maxItems + 1
    ensures NodeFilled(c, node.items[..], node.Used())
  {
  }

  lemma EmptyFilled(c: Config)
    ensures NodeFilled(c, ZeroKeys(c.maxItems + 1), [])
  {
  }

  /** The first slot of a node shows its first item, or the zero item if it has none. */
  lemma FirstSlot(c: Config, s: Store, slots: SlotStore, id: nat)
    requires SlotsOk(c, s, slots) && id in s
    ensures |slots[id]| > 0 && Key(slots[id][0].item, id) == KeyOf(s, id)
  {
    assert NodeFilled(c, slots[id], s[id].items);
  }
}
