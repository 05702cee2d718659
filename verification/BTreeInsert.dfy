/** One level of an insertion into the B+tree. */
module BTreeInsert {
  import opened Types
  import opened SortedItems
  import opened BTreeNodes
  import opened BTreeLevels
  import opened BTreeSearch

  /** Stable in-place merge of one key into ascending keys. */
  function MergeKey(keys: seq<Key>, k: Key): (r: seq<Key>)
    ensures |r| == |keys| + 1
  {
    if keys == [] || ItemLess(k.item, keys[0].item) then [k] + keys else [keys[0]] + MergeKey(keys[1..], k)
  }

  lemma {:induction false} MergeKeyAt(keys: seq<Key>, k: Key, j: nat)
    requires j <= |keys|
    requires forall i :: 0 <= i < j ==> Rank(keys[i].item) <= Rank(k.item)
    requires j < |keys| ==> Rank(k.item) < Rank(keys[j].item)
    ensures MergeKey(keys, k) == keys[..j] + [k] + keys[j..]
  {
    hide Rank;
    if keys != [] {
      ItemOrder(k.item, keys[0].item);
      if j > 0 {
        MergeKeyAt(keys[1..], k, j - 1);
        assert keys[..j] == [keys[0]] + keys[1..][..j - 1] && keys[j..] == keys[1..][j - 1..];
      }
    }
  }

  /** `refreshIndex`: the key in slot `i` takes the first item of the child it points to, if any. */
  function Refreshed(s: Store, items: seq<Key>, i: nat): (r: seq<Key>)
    requires i < |items|
    ensures |r| == |items|
  {
    var id := items[i].nodeId;
    if id != 0 && id in s then items[i := KeyOf(s, id)] else items
  }

  /** What node `ids[p]` should hold once the insertion has reached its level. */
  ghost function InsertedItems(s: Store, its0: seq<Key>, newKey: Key, needsMerge: bool): (r: seq<Key>)
    requires its0 != []
    ensures |r| == |its0| + if needsMerge then 1 else 0
  {
    Refreshed(s, if needsMerge then MergeKey(its0, newKey) else its0, 0)
  }

  /** The insertion of `x` has reached level `ids`: node `p` is the one it goes through, and its first
      item changes only on the left edge of the tree. */
  ghost predicate InsertPending(s0: Store, s: Store, ids: seq<nat>, below: seq<Key>, p: nat, x: Item, newKey: Key,
                                needsMerge: bool)
  {
    && p < |ids| && Items(s0, ids[p]) != []
    && var its0 := Items(s0, ids[p]);
       var its := InsertedItems(s, its0, newKey, needsMerge);
       && Pending(s0, s, ids, below, p, its, ItemWeight(x))
       && (p > 0 ==> its[0].item == its0[0].item)
       && (needsMerge ==> forall t :: 2 <= t < |its| ==> Rank(its0[0].item) < Rank(its[t].item))
  }

  // ---------- At the leaf ----------

  /** The contents with `x` added at its place. */
  ghost function WithItem(contents: seq<Item>, x: Item): seq<Item> {
    var g := LowerBound(contents, Rank(x));
    contents[..g] + [x] + contents[g..]
  }

  lemma WithItemAscending(contents: seq<Item>, x: Item)
    requires AscendingItems(contents) && x !in contents
    ensures AscendingItems(WithItem(contents, x)) && |WithItem(contents, x)| == |contents| + 1
  {
    hide Rank, LowerBound;
    var g := LowerBound(contents, Rank(x));
    LowerBoundSplits(contents, Rank(x));
    forall i | g <= i < |contents| ensures Rank(x) < Rank(contents[i]) {
      ItemOrder(x, contents[i]);
      assert contents[i] in contents;
    }
  }

  lemma WithItemOfNone(x: Item)
    ensures WithItem([], x) == [x]
  {
  }

  lemma SeeksLowerBound(contents: seq<Item>, x: Item, g: nat)
    requires AscendingItems(contents) && Seeks(LeafKeys(contents), Rank(x), g) && x !in contents
    ensures LowerBound(contents, Rank(x)) == if Rank(x) < Rank(contents[g]) then 0 else g + 1
    ensures Rank(x) < Rank(contents[g]) ==> g == 0
  {
    hide Rank, LowerBound;
    var keys := LeafKeys(contents);
    assert keys[g].item == contents[g];
    assert g + 1 < |contents| ==> keys[g + 1].item == contents[g + 1];
    ItemOrder(x, contents[g]);
    assert contents[g] in contents;
    LowerBoundUnique(contents, Rank(x), if Rank(x) < Rank(contents[g]) then 0 else g + 1);
  }

  lemma InsertStart(c: Config, s: Store, contents: seq<Item>, ids: seq<nat>, p: nat, index: nat, x: Item)
    requires AscendingItems(contents) && x !in contents && LevelOk(c, s, LeafKeys(contents), ids)
    requires p < |ids| && index < |Items(s, ids[p])|
    requires Seeks(LeafKeys(contents), Rank(x), KeyPos(s, ids, p, index))
    ensures InsertPending(s, s, ids, LeafKeys(WithItem(contents, x)), p, x, Key(x, 0), true)
  {
    hide Rank, Concat, Total, Plus, KeyWeight, Linked, Weighed, Sized, MergeKey, Items, LowerBound, Ascending,
         AscendingItems, KeyPos;
    var its0, k := Items(s, ids[p]), Key(x, 0);
    var left, right := Concat(s, ids[..p]), Concat(s, ids[p + 1..]);
    var j := LeafPlace(c, s, contents, ids, p, index, x);
    var its := InsertedItems(s, its0, k, true);
    ConcatAround(s, ids, p);
    assert its == its0[..j] + [k] + its0[j..] by {
      LeafKeyAt(contents, left, its0, right, 0);
    }
    LeafKeysAround(contents, x, left, its0, right, j);
    assert Total(s, its) == Plus(Total(s, its0), ItemWeight(x)) by {
      AddedKeyWeight(s, its0[..j], k, its0[j..]);
      assert its0 == its0[..j] + its0[j..];
      LeafKeyWeight(s, x);
    }
    forall t | 2 <= t < |its| ensures Rank(its0[0].item) < Rank(its[t].item) {
      LeafTail(its0, j, k, t);
    }
  }

  lemma LeafKeyAt(contents: seq<Item>, left: seq<Key>, its0: seq<Key>, right: seq<Key>, t: nat)
    requires LeafKeys(contents) == left + its0 + right && t < |its0|
    ensures |left| + t < |contents| && its0[t] == Key(contents[|left| + t], 0)
  {
    assert (left + its0 + right)[|left| + t] == its0[t];
  }

  lemma LeafKeysAround(contents: seq<Item>, x: Item, left: seq<Key>, its0: seq<Key>, right: seq<Key>, j: nat)
    requires LeafKeys(contents) == left + its0 + right && j <= |its0| && LowerBound(contents, Rank(x)) == |left| + j
    ensures LeafKeys(WithItem(contents, x)) == left + (its0[..j] + [Key(x, 0)] + its0[j..]) + right
  {
    hide Rank, LowerBound, LeafKeys;
    LeafKeysWith(contents, |left| + j, x);
    PutInside(LeafKeys(contents), left, its0, right, j, Key(x, 0));
  }

  lemma LeafKeysWith(contents: seq<Item>, n: nat, x: Item)
    requires n <= |contents|
    ensures LeafKeys(contents[..n] + [x] + contents[n..])
            == LeafKeys(contents)[..n] + [Key(x, 0)] + LeafKeys(contents)[n..]
  {
  }

  lemma PutInside(all: seq<Key>, left: seq<Key>, mid: seq<Key>, right: seq<Key>, j: nat, k: Key)
    requires all == left + mid + right && j <= |mid|
    ensures var n := |left| + j; all[..n] + [k] + all[n..] == left + (mid[..j] + [k] + mid[j..]) + right
  {
    var n := |left| + j;
    assert all[..n] == left + mid[..j];
    assert all[n..] == mid[j..] + right;
    Regroup(left, mid[..j], [k], mid[j..], right);
  }

  lemma Regroup(left: seq<Key>, a: seq<Key>, b: seq<Key>, c: seq<Key>, right: seq<Key>)
    ensures (left + a) + b + (c + right) == left + (a + b + c) + right
  {
  }

  lemma LeafTail(its0: seq<Key>, j: nat, k: Key, t: nat)
    requires Ascending(its0) && j <= |its0| && 2 <= t <= |its0|
    requires j == t ==> Rank(its0[t - 1].item) < Rank(k.item)
    ensures Rank(its0[0].item) < Rank((its0[..j] + [k] + its0[j..])[t].item)
  {
    hide Rank;
  }

  /** The place of `x` among the keys of its leaf: its lower bound in the whole tree, counted from the leaf. */
  lemma LeafPlace(c: Config, s: Store, contents: seq<Item>, ids: seq<nat>, p: nat, index: nat, x: Item) returns (j: nat)
    requires AscendingItems(contents) && x !in contents && LevelOk(c, s, LeafKeys(contents), ids)
    requires p < |ids| && index < |Items(s, ids[p])|
    requires Seeks(LeafKeys(contents), Rank(x), KeyPos(s, ids, p, index))
    ensures var its0 := Items(s, ids[p]);
            && j <= |its0| && (j == 0 ==> p == 0)
            && LowerBound(contents, Rank(x)) == |Concat(s, ids[..p])| + j
            && MergeKey(its0, Key(x, 0)) == its0[..j] + [Key(x, 0)] + its0[j..]
            && Ascending(its0)
            && (forall t :: 0 <= t < j ==> Rank(its0[t].item) < Rank(x))
  {
    hide Rank, Concat, Linked, Weighed, Sized, MergeKey, Items, LowerBound;
    var its0 := Items(s, ids[p]);
    var left, right := Concat(s, ids[..p]), Concat(s, ids[p + 1..]);
    var g := KeyPos(s, ids, p, index);
    ConcatAround(s, ids, p);
    LeafKeysAscending(contents);
    AscendingPart(left, its0, right);
    SeeksLowerBound(contents, x, g);
    LowerBoundSplits(contents, Rank(x));
    LeafKeyAt(contents, left, its0, right, index);
    j := if Rank(x) < Rank(its0[index].item) then 0 else index + 1;
    if p > 0 {
      FirstNodesNotEmpty(c, s, LeafKeys(contents), ids, p);
    } else {
      ConcatNil(s);
      assert ids[..0] == [];
    }
    forall t | 0 <= t < j ensures Rank(its0[t].item) < Rank(x) {
      LeafKeyAt(contents, left, its0, right, t);
    }
    if j < |its0| {
      LeafKeyAt(contents, left, its0, right, j);
      ItemOrder(x, its0[j].item);
      assert contents[|left| + j] in contents;
    }
    MergeKeyAt(its0, Key(x, 0), j);
  }

  lemma LeafKeyWeight(s: Store, x: Item)
    ensures KeyWeight(s, Key(x, 0)) == ItemWeight(x)
  {
  }

  lemma FirstNodesNotEmpty(c: Config, s: Store, below: seq<Key>, ids: seq<nat>, p: nat)
    requires LevelOk(c, s, below, ids) && 0 < p < |ids|
    ensures |Concat(s, ids[..p])| > 0
  {
    assert SizeOk(c, s, ids, 0);
    assert ids[..p][0] == ids[0];
  }

  lemma AddedKeyWeight(s: Store, a: seq<Key>, k: Key, b: seq<Key>)
    ensures Total(s, a + [k] + b) == Plus(Total(s, a + b), KeyWeight(s, k))
  {
    hide Total, Plus, KeyWeight;
    assert a + [k] + b == a + ([k] + b);
    TotalConcat(s, a, [k] + b);
    TotalConcat(s, [k], b);
    TotalConcat(s, a, b);
    TotalOne(s, k);
    PlusLaws(Total(s, a), Total(s, b), KeyWeight(s, k));
    PlusLaws(KeyWeight(s, k), Total(s, b), NOTHING);
  }

  // ---------- From one level to the next ----------

  /** The rewritten nodes: the node of the path, and after a split its new right neighbour. */
  ghost function PathNodes(id: nat, newKey: Key, needsMerge: bool): seq<nat> {
    if needsMerge then [id, newKey.nodeId] else [id]
  }

  lemma InsertLift(s0: Store, s1: Store, ids: seq<nat>, p: nat, up: seq<nat>, q: nat, i: nat, x: Item, newKey: Key,
          needsMerge: bool)
    requires p < |ids| && Present(s0, ids) && Concat(s0, up) == Index(s0, ids) && Ascending(Index(s0, ids))
    requires q < |up| && KeyPos(s0, up, q, i) == p && i < |Items(s0, up[q])|
    requires SameNodes(s0, s1, ids[..p]) && SameNodes(s0, s1, ids[p + 1..]) && ids[p] in s1
    requires var mid := PathNodes(ids[p], newKey, needsMerge);
             && Total(s1, Index(s1, mid)) == Plus(Total(s0, Index(s0, ids[p..p + 1])), ItemWeight(x))
             && Ascending(Index(s1, Spliced(ids, p, p + 1, mid)))
    requires p > 0 ==> KeyOf(s1, ids[p]) == KeyOf(s0, ids[p])
    requires needsMerge ==> newKey == KeyOf(s1, newKey.nodeId) && Rank(KeyOf(s0, ids[p]).item) < Rank(newKey.item)
    requires q > 0 ==> p > 0
    ensures var mid := PathNodes(ids[p], newKey, needsMerge);
            InsertPending(s0, s1, up, Index(s1, Spliced(ids, p, p + 1, mid)), q, x, newKey, needsMerge)
  {
    hide Rank, Concat, Total, Plus, KeyWeight, MergeKey, Items, KeyOf, Pending, SameNodes, Ascending, Index, Spliced,
         Present, InsertedItems, PathNodes, KeyPos;
    var mid := PathNodes(ids[p], newKey, needsMerge);
    KeyPlace(s0, up, q, i);
    Lift(s0, s1, ids, p, p + 1, mid, up, q, i, ItemWeight(x));
    var w := Items(s0, up[q]);
    LiftSlots(s0, s1, ids, p, up, q, i);
    if needsMerge {
      MergedAbove(s0, s1, ids, p, up, q, i, newKey);
    }
    PathIndex(s1, ids[p], newKey, needsMerge);
    ParentItems(s1, w, i, ids[p], newKey, needsMerge);
  }

  lemma KeyPlace(s: Store, ids: seq<nat>, q: nat, i: nat)
    requires q < |ids|
    ensures KeyPos(s, ids, q, i) == |Concat(s, ids[..q])| + i
  {
  }

  /** The keys of the nodes that take the place of the path's node. */
  lemma PathIndex(s1: Store, id: nat, newKey: Key, needsMerge: bool)
    requires needsMerge ==> newKey == KeyOf(s1, newKey.nodeId)
    ensures Index(s1, PathNodes(id, newKey, needsMerge)) == [KeyOf(s1, id)] + if needsMerge then [newKey] else []
  {
    hide KeyOf;
  }

  lemma MergedAbove(s0: Store, s1: Store, ids: seq<nat>, p: nat, up: seq<nat>, q: nat, i: nat, newKey: Key)
    requires p < |ids| && Present(s0, ids) && Concat(s0, up) == Index(s0, ids) && Ascending(Index(s0, ids))
    requires q < |up| && KeyPos(s0, up, q, i) == p && i < |Items(s0, up[q])|
    requires SameNodes(s0, s1, ids[p + 1..])
    requires newKey == KeyOf(s1, newKey.nodeId) && Rank(KeyOf(s0, ids[p]).item) < Rank(newKey.item)
    requires Ascending(Index(s1, Spliced(ids, p, p + 1, PathNodes(ids[p], newKey, true))))
    ensures var w := Items(s0, up[q]);
            MergeKey(w, newKey) == w[..i + 1] + [newKey] + w[i + 1..]
  {
    hide Rank, Concat, Items, KeyOf, Ascending, Index, Spliced, Present, SameNodes, MergeKey, KeyPos;
    NextKeyAbove(s0, s1, ids, p, up, q, i, newKey);
    MergeKeyAt(Items(s0, up[q]), newKey, i + 1);
  }

  /** Patching the path's slot and adding the new key after it is what merging and refreshing slot 0 does. */
  lemma ParentItems(s1: Store, w: seq<Key>, i: nat, id: nat, newKey: Key, needsMerge: bool)
    requires i < |w| && Ascending(w)
    requires id != 0 && id in s1 && w[i].nodeId == id && (i > 0 ==> KeyOf(s1, id) == w[i])
    requires i > 0 ==> w[0].nodeId != 0 && w[0].nodeId in s1 && KeyOf(s1, w[0].nodeId) == w[0]
    requires needsMerge ==>
             MergeKey(w, newKey) == w[..i + 1] + [newKey] + w[i + 1..] && Rank(w[i].item) < Rank(newKey.item)
    ensures var its := InsertedItems(s1, w, newKey, needsMerge);
            && its == w[..i] + ([KeyOf(s1, id)] + if needsMerge then [newKey] else []) + w[i + 1..]
            && (needsMerge ==> forall t :: 2 <= t < |its| ==> Rank(w[0].item) < Rank(its[t].item))
  {
    hide Rank, MergeKey, KeyOf;
    var its := InsertedItems(s1, w, newKey, needsMerge);
    assert its == w[..i] + ([KeyOf(s1, id)] + if needsMerge then [newKey] else []) + w[i + 1..];
    forall t | needsMerge && 2 <= t < |its| ensures Rank(w[0].item) < Rank(its[t].item) {
      if t == i + 1 {
        assert its[t] == newKey;
      } else if t > i + 1 {
        assert its[t] == w[t - 1];
      } else {
        assert its[t].item == w[t].item;
      }
    }
  }

  lemma NextKeyAbove(s0: Store, s1: Store, ids: seq<nat>, p: nat, up: seq<nat>, q: nat, i: nat, newKey: Key)
    requires p < |ids| && Present(s0, ids) && Concat(s0, up) == Index(s0, ids) && Ascending(Index(s0, ids))
    requires q < |up| && KeyPos(s0, up, q, i) == p && i < |Items(s0, up[q])|
    requires SameNodes(s0, s1, ids[p + 1..])
    requires newKey == KeyOf(s1, newKey.nodeId) && Rank(KeyOf(s0, ids[p]).item) < Rank(newKey.item)
    requires Ascending(Index(s1, Spliced(ids, p, p + 1, [ids[p], newKey.nodeId])))
    ensures var w := Items(s0, up[q]);
            && (forall t :: 0 <= t < i + 1 ==> Rank(w[t].item) <= Rank(newKey.item))
            && (i + 1 < |w| ==> Rank(newKey.item) < Rank(w[i + 1].item))
  {
    hide Rank, Concat, Items, KeyOf;
    var w := Items(s0, up[q]);
    ParentSlot(s0, ids, up, q, i);
    ParentAscending(s0, ids, up, q);
    if i + 1 < |w| {
      ParentSlot(s0, ids, up, q, i + 1);
      var ids1 := Spliced(ids, p, p + 1, [ids[p], newKey.nodeId]);
      assert ids1[p + 1] == newKey.nodeId && ids1[p + 2] == ids[p + 1];
      assert Rank(Index(s1, ids1)[p + 1].item) < Rank(Index(s1, ids1)[p + 2].item);
      assert ids[p + 1] == ids[p + 1..][0];
      SameNodesConcat(s0, s1, ids[p + 1..]);
      assert KeyOf(s0, ids[p + 1]) == Index(s0, ids[p + 1..])[0];
      assert KeyOf(s1, ids[p + 1]) == Index(s1, ids[p + 1..])[0];
    }
  }

  /** Slot `t` of a parent is the key of the child at the corresponding place in the level below. */
  lemma ParentSlot(s0: Store, ids: seq<nat>, up: seq<nat>, q: nat, t: nat)
    requires Concat(s0, up) == Index(s0, ids) && q < |up| && t < |Items(s0, up[q])|
    ensures KeyPos(s0, up, q, t) < |ids|
    ensures Items(s0, up[q])[t] == KeyOf(s0, ids[KeyPos(s0, up, q, t)])
  {
    hide Concat, Items, KeyOf;
    ConcatAt(s0, up, q, t);
  }

  lemma ParentAscending(s0: Store, ids: seq<nat>, up: seq<nat>, q: nat)
    requires Concat(s0, up) == Index(s0, ids) && Ascending(Index(s0, ids)) && q < |up|
    ensures Ascending(Items(s0, up[q]))
  {
    hide Rank, Concat, Items, KeyOf;
    ConcatAround(s0, up, q);
    AscendingPart(Concat(s0, up[..q]), Items(s0, up[q]), Concat(s0, up[q + 1..]));
  }

  /** The path's slot in the parent, and that slot 0 is up to date unless it is the path's slot. */
  lemma LiftSlots(s0: Store, s1: Store, ids: seq<nat>, p: nat, up: seq<nat>, q: nat, i: nat)
    requires p < |ids| && Present(s0, ids) && Concat(s0, up) == Index(s0, ids) && Ascending(Index(s0, ids))
    requires q < |up| && KeyPos(s0, up, q, i) == p && i < |Items(s0, up[q])|
    requires SameNodes(s0, s1, ids[..p])
    ensures var w := Items(s0, up[q]);
            && w[i] == KeyOf(s0, ids[p]) && w[i].nodeId == ids[p] != 0
            && (i > 0 ==> w[0].nodeId != 0 && w[0].nodeId in s1 && KeyOf(s1, w[0].nodeId) == w[0])
            && Ascending(w)
  {
    hide Rank, Concat, Items;
    ParentSlot(s0, ids, up, q, i);
    ParentAscending(s0, ids, up, q);
    if i > 0 {
      ParentSlot(s0, ids, up, q, 0);
      var off := KeyPos(s0, up, q, 0);
      assert ids[off] == ids[..p][off] && ids[off] in ids[..p];
      assert SameNode(s0, s1, ids[off]);
      SameNodesConcat(s0, s1, ids[..p]);
      assert KeyOf(s0, ids[off]) == Index(s0, ids[..p])[off] == Index(s1, ids[..p])[off] == KeyOf(s1, ids[off]);
    }
  }
}
