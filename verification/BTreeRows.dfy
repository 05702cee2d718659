/** The nodes of a tree row by row, from a node down to its leaves: what a walk of its subtree comes by, in order. */
module BTreeRows {
  import opened Types
  import opened SortedItems
  import opened BTreeNodes
  import opened BTreeLevels

  /** The children that some keys point to. */
  ghost function Kids(keys: seq<Key>): seq<nat> {
    if keys == [] then [] else (if keys[0].nodeId == 0 then [] else [keys[0].nodeId]) + Kids(keys[1..])
  }

  lemma {:induction false} KidsAppend(a: seq<Key>, b: seq<Key>)
    ensures Kids(a + b) == Kids(a) + Kids(b)
    decreases |a|
  {
    if a == [] {
      assert a + b == b;
    } else {
      assert (a + b)[1..] == a[1..] + b;
      KidsAppend(a[1..], b);
    }
  }

  lemma KidsOne(k: Key)
    ensures Kids([k]) == if k.nodeId == 0 then [] else [k.nodeId]
  {
    assert [k][1..] == [];
  }

  /** All keys point to nodes, or none does. */
  ghost predicate Full(keys: seq<Key>) {
    forall i :: 0 <= i < |keys| ==> keys[i].nodeId != 0
  }

  ghost predicate Bare(keys: seq<Key>) {
    forall i :: 0 <= i < |keys| ==> keys[i].nodeId == 0
  }

  lemma {:induction false} KidsOfFull(keys: seq<Key>)
    requires Full(keys)
    ensures |Kids(keys)| == |keys| && forall i :: 0 <= i < |keys| ==> Kids(keys)[i] == keys[i].nodeId
  {
    if keys != [] {
      KidsOfFull(keys[1..]);
      forall i | 0 <= i < |keys| ensures Kids(keys)[i] == keys[i].nodeId {
        if i > 0 {
          assert Kids(keys)[i] == Kids(keys[1..])[i - 1];
        }
      }
    }
  }

  ghost predicate AllInner(s: Store, ids: seq<nat>) {
    forall id :: id in ids ==> id in s && s[id].items != [] && s[id].items[0].nodeId != 0
  }

  ghost predicate AllBare(s: Store, ids: seq<nat>) {
    forall id :: id in ids ==> id in s && s[id].items != [] && Bare(s[id].items)
  }

  /** Below a row of inner nodes come their children, and the last row are leaves. */
  ghost predicate RowOk(s: Store, rows: seq<seq<nat>>, k: nat)
    requires k < |rows|
  {
    if k + 1 < |rows| then AllInner(s, rows[k]) && rows[k + 1] == Kids(Concat(s, rows[k])) else AllBare(s, rows[k])
  }

  ghost predicate RowsOk(s: Store, rows: seq<seq<nat>>) {
    |rows| > 0 && AllDistinct(rows) && forall k :: 0 <= k < |rows| ==> RowOk(s, rows, k)
  }

  ghost predicate Covers(rows: seq<seq<nat>>, ids: set<nat>) {
    forall id :: InLevels(rows, id) <==> id in ids
  }

  ghost function LastRow(rows: seq<seq<nat>>): seq<nat>
    requires |rows| > 0
  {
    rows[|rows| - 1]
  }

  /** Inner nodes hold no items of their own. */
  ghost predicate NoneLoose(s: Store, rows: seq<seq<nat>>) {
    forall k :: 0 <= k < |rows| - 1 ==> Full(Concat(s, rows[k]))
  }

  /** The count of a walk: at least the items of the leaves, and more if inner nodes hold items too. */
  ghost predicate Counted(s: Store, rows: seq<seq<nat>>, count: int)
    requires |rows| > 0
  {
    var n := |Concat(s, LastRow(rows))|;
    count >= n && (count == n ==> NoneLoose(s, rows))
  }

  // ---------- Putting rows together ----------

  /** The rows of two neighbouring subtrees. */
  ghost function Joined(a: seq<seq<nat>>, b: seq<seq<nat>>): (rows: seq<seq<nat>>)
    requires |a| == |b|
    ensures |rows| == |a| && forall k :: 0 <= k < |a| ==> rows[k] == a[k] + b[k]
  {
    seq(|a|, k requires 0 <= k < |a| => a[k] + b[k])
  }

  lemma JoinedRows(s: Store, a: seq<seq<nat>>, b: seq<seq<nat>>, left: set<nat>, right: set<nat>)
    requires |a| == |b| && RowsOk(s, a) && RowsOk(s, b) && Covers(a, left) && Covers(b, right) && left !! right
    ensures RowsOk(s, Joined(a, b)) && Covers(Joined(a, b), left + right)
  {
    hide Kids, Concat, Bare;
    var rows := Joined(a, b);
    JoinedCovers(a, b, left, right);
    JoinedDistinct(a, b, left, right);
    forall k | 0 <= k < |rows| ensures RowOk(s, rows, k) {
      assert RowOk(s, a, k) && RowOk(s, b, k);
      if k + 1 < |rows| {
        ConcatAppend(s, a[k], b[k]);
        KidsAppend(Concat(s, a[k]), Concat(s, b[k]));
      }
    }
  }

  lemma JoinedCovers(a: seq<seq<nat>>, b: seq<seq<nat>>, left: set<nat>, right: set<nat>)
    requires |a| == |b| && Covers(a, left) && Covers(b, right)
    ensures Covers(Joined(a, b), left + right)
  {
    var rows := Joined(a, b);
    forall id ensures InLevels(rows, id) <==> id in left + right {
      assert InLevels(a, id) <==> id in left;
      assert InLevels(b, id) <==> id in right;
      forall k | 0 <= k < |rows| ensures id in rows[k] <==> id in a[k] || id in b[k] {
      }
    }
  }

  lemma RowCovered(rows: seq<seq<nat>>, ids: set<nat>, k: nat, i: nat)
    requires Covers(rows, ids) && k < |rows| && i < |rows[k]|
    ensures rows[k][i] in ids
  {
    assert rows[k][i] in rows[k];
    assert InLevels(rows, rows[k][i]);
  }

  lemma JoinedDistinct(a: seq<seq<nat>>, b: seq<seq<nat>>, left: set<nat>, right: set<nat>)
    requires |a| == |b| && AllDistinct(a) && AllDistinct(b) && Covers(a, left) && Covers(b, right) && left !! right
    ensures AllDistinct(Joined(a, b))
  {
    hide Covers;
    var rows := Joined(a, b);
    forall l, m, i, j | 0 <= l < |rows| && 0 <= m < |rows| && 0 <= i < |a[l]| && 0 <= j < |b[m]|
      ensures a[l][i] != b[m][j]
    {
      RowCovered(a, left, l, i);
      RowCovered(b, right, m, j);
    }
    forall l | 0 <= l < |rows| ensures Distinct(rows[l]) {
      assert Distinct(a[l]) && Distinct(b[l]);
    }
    forall l, m | 0 <= l < m < |rows| ensures Apart(rows[l], rows[m]) {
      assert Apart(a[l], a[m]) && Apart(b[l], b[m]);
    }
  }

  lemma JoinedCount(s: Store, a: seq<seq<nat>>, b: seq<seq<nat>>, m: int, n: int)
    requires |a| == |b| > 0 && Counted(s, a, m) && Counted(s, b, n)
    ensures Counted(s, Joined(a, b), m + n)
    ensures |Concat(s, LastRow(Joined(a, b)))| == |Concat(s, LastRow(a))| + |Concat(s, LastRow(b))|
  {
    hide Concat;
    var rows := Joined(a, b);
    forall k | 0 <= k < |rows| ensures Concat(s, rows[k]) == Concat(s, a[k]) + Concat(s, b[k]) {
      ConcatAppend(s, a[k], b[k]);
    }
  }

  /** A node above the rows of its children. */
  lemma RowsUnder(s: Store, id: nat, rows: seq<seq<nat>>, ids: set<nat>)
    requires RowsOk(s, rows) && Covers(rows, ids) && id !in ids
    requires id in s && s[id].items != [] && s[id].items[0].nodeId != 0 && rows[0] == Kids(s[id].items)
    ensures RowsOk(s, [[id]] + rows) && Covers([[id]] + rows, ids + {id})
  {
    hide Kids, Concat, Bare, Covers, AllDistinct;
    var more := [[id]] + rows;
    CoversMore(rows, ids, id);
    DistinctMore(rows, ids, id);
    ConcatOne(s, id);
    forall k | 0 <= k < |more| ensures RowOk(s, more, k) {
      if k > 0 {
        assert RowOk(s, rows, k - 1);
      }
    }
  }

  lemma CoversMore(rows: seq<seq<nat>>, ids: set<nat>, id: nat)
    requires Covers(rows, ids)
    ensures Covers([[id]] + rows, ids + {id})
  {
    var more := [[id]] + rows;
    forall x ensures InLevels(more, x) <==> x in ids + {id} {
      assert InLevels(rows, x) <==> x in ids;
      assert more[0] == [id];
      assert forall k :: 0 <= k < |rows| ==> more[k + 1] == rows[k];
    }
  }

  lemma DistinctMore(rows: seq<seq<nat>>, ids: set<nat>, id: nat)
    requires Covers(rows, ids) && id !in ids && AllDistinct(rows)
    ensures AllDistinct([[id]] + rows)
  {
    hide Covers;
    var more := [[id]] + rows;
    forall l | 0 <= l < |more| ensures Distinct(more[l]) {
      assert l > 0 ==> Distinct(rows[l - 1]);
    }
    forall l, m | 0 <= l < m < |more| ensures Apart(more[l], more[m]) {
      if l > 0 {
        assert Apart(rows[l - 1], rows[m - 1]);
      } else {
        forall j | 0 <= j < |more[m]| ensures id != more[m][j] {
          RowCovered(rows, ids, m - 1, j);
        }
      }
    }
  }

  lemma CountUnder(s: Store, id: nat, rows: seq<seq<nat>>, count: int)
    requires |rows| > 0 && Counted(s, rows, count) && id in s
    requires count == |Concat(s, LastRow(rows))| ==> Full(s[id].items)
    ensures Counted(s, [[id]] + rows, count)
  {
    hide Concat, Full;
    var more := [[id]] + rows;
    ConcatOne(s, id);
    assert forall k :: 0 < k < |more| ==> more[k] == rows[k - 1];
  }

  lemma LeafRows(s: Store, id: nat)
    requires id in s && s[id].items != [] && Bare(s[id].items)
    ensures RowsOk(s, [[id]]) && Covers([[id]], {id}) && Counted(s, [[id]], |s[id].items|)
  {
    hide Concat, Bare;
    ConcatOne(s, id);
    assert [[id]][0] == [id];
    assert RowOk(s, [[id]], 0);
  }

  // ---------- From rows to levels ----------

  /** The first `n` keys show the first items of their children. */
  ghost predicate Indexed(s: Store, keys: seq<Key>, n: nat) {
    forall i :: 0 <= i < n && i < |keys| && keys[i].nodeId != 0 ==>
      Items(s, keys[i].nodeId) != [] && KeyOf(s, keys[i].nodeId) == keys[i]
  }

  /** The levels of a tree: what TreeOk says of its keys, apart from the sibling links of inner nodes, the order of ids
      and the two children of the root. */
  ghost predicate Shaped(s: Store, root: nat, contents: seq<Item>, levels: seq<seq<nat>>) {
    && |levels| > 0 && levels[|levels| - 1] == [root] && AscendingItems(contents) && AllDistinct(levels)
    && (forall id :: id in s <==> InLevels(levels, id))
    && forall l :: 0 <= l < |levels| ==> KeysAt(s, contents, levels, l)
  }

  ghost predicate KeysAt(s: Store, contents: seq<Item>, levels: seq<seq<nat>>, l: nat)
    requires l < |levels|
  {
    |levels[l]| > 0 && Present(s, levels[l]) && Concat(s, levels[l]) == Below(s, contents, levels, l)
  }

  /** The rows from the leaves up. */
  ghost function Flipped(rows: seq<seq<nat>>): (levels: seq<seq<nat>>)
    ensures |levels| == |rows| && forall l :: 0 <= l < |rows| ==> levels[l] == rows[|rows| - 1 - l]
  {
    seq(|rows|, l requires 0 <= l < |rows| => rows[|rows| - 1 - l])
  }

  ghost function ItemsIn(keys: seq<Key>): (items: seq<Item>)
    ensures |items| == |keys| && forall i :: 0 <= i < |keys| ==> items[i] == keys[i].item
  {
    seq(|keys|, i requires 0 <= i < |keys| => keys[i].item)
  }

  lemma RowsShape(s: Store, root: nat, rows: seq<seq<nat>>)
    requires RowsOk(s, rows) && rows[0] == [root] && Covers(rows, s.Keys) && NoneLoose(s, rows) && 0 !in s
    requires Ascending(Concat(s, LastRow(rows)))
    requires forall id :: id in s ==> s[id].items != [] && Indexed(s, s[id].items, |s[id].items|)
    ensures Shaped(s, root, ItemsIn(Concat(s, LastRow(rows))), Flipped(rows))
  {
    hide Concat, Covers, AllDistinct, RowOk, NoneLoose, Indexed, KeysAt, Kids;
    var levels, contents := Flipped(rows), ItemsIn(Concat(s, LastRow(rows)));
    FlippedDistinct(rows);
    FlippedCovers(rows, s.Keys);
    forall l | 0 <= l < |levels| ensures KeysAt(s, contents, levels, l) {
      LevelOfRow(s, root, rows, l);
    }
  }

  lemma FlippedDistinct(rows: seq<seq<nat>>)
    requires AllDistinct(rows)
    ensures AllDistinct(Flipped(rows))
  {
    var levels, top := Flipped(rows), |rows| - 1;
    forall l, m | 0 <= l < m < |levels| ensures Apart(levels[l], levels[m]) {
      assert Apart(rows[top - m], rows[top - l]);
    }
    assert forall l :: 0 <= l < |levels| ==> levels[l] == rows[top - l];
  }

  lemma FlippedCovers(rows: seq<seq<nat>>, ids: set<nat>)
    requires Covers(rows, ids)
    ensures forall id :: id in ids <==> InLevels(Flipped(rows), id)
  {
    var levels, top := Flipped(rows), |rows| - 1;
    forall id ensures id in ids <==> InLevels(levels, id) {
      assert id in ids <==> InLevels(rows, id);
      assert forall l :: 0 <= l < |levels| ==> levels[l] == rows[top - l];
      assert forall k :: 0 <= k < |levels| ==> rows[k] == levels[top - k];
    }
  }

  /** No row is empty: a row of inner nodes has children. */
  lemma {:induction false} RowNotEmpty(s: Store, root: nat, rows: seq<seq<nat>>, k: nat)
    requires RowsOk(s, rows) && rows[0] == [root] && k < |rows|
    ensures rows[k] != []
  {
    hide AllDistinct;
    if k > 0 {
      RowNotEmpty(s, root, rows, k - 1);
      assert RowOk(s, rows, k - 1);
      var id := rows[k - 1][0];
      assert id in rows[k - 1];
      KidsAppend(s[id].items, Concat(s, rows[k - 1][1..]));
    }
  }

  lemma LevelOfRow(s: Store, root: nat, rows: seq<seq<nat>>, l: nat)
    requires RowsOk(s, rows) && rows[0] == [root] && Covers(rows, s.Keys) && NoneLoose(s, rows) && 0 !in s
    requires forall id :: id in s ==> s[id].items != [] && Indexed(s, s[id].items, |s[id].items|)
    requires l < |rows|
    ensures KeysAt(s, ItemsIn(Concat(s, LastRow(rows))), Flipped(rows), l)
  {
    hide Concat, Covers, AllDistinct, Indexed, Kids;
    var k := |rows| - 1 - l;
    RowNotEmpty(s, root, rows, k);
    forall i | 0 <= i < |rows[k]| ensures rows[k][i] != 0 && rows[k][i] in s {
      RowCovered(rows, s.Keys, k, i);
    }
    assert RowOk(s, rows, k);
    if l == 0 {
      BareConcat(s, rows[k]);
      LeafKeysOf(Concat(s, rows[k]));
    } else {
      KidsIndex(s, rows[k]);
    }
  }

  lemma {:induction false} BareConcat(s: Store, ids: seq<nat>)
    requires AllBare(s, ids)
    ensures Bare(Concat(s, ids))
  {
    if ids != [] {
      assert ids[0] in ids && forall id :: id in ids[1..] ==> id in ids;
      BareConcat(s, ids[1..]);
    }
  }

  lemma LeafKeysOf(keys: seq<Key>)
    requires Bare(keys)
    ensures keys == LeafKeys(ItemsIn(keys))
  {
  }

  /** The keys of inner nodes are the index of their children. */
  lemma KidsIndex(s: Store, ids: seq<nat>)
    requires AllInner(s, ids) && Full(Concat(s, ids))
    requires forall id :: id in ids ==> Indexed(s, s[id].items, |s[id].items|)
    ensures Concat(s, ids) == Index(s, Kids(Concat(s, ids)))
  {
    hide Concat, Indexed, Kids, KeyOf;
    var keys := Concat(s, ids);
    KidsOfFull(keys);
    forall i | 0 <= i < |keys| ensures keys[i] == KeyOf(s, keys[i].nodeId) {
      IndexedIn(s, ids, i);
    }
  }

  lemma {:induction false} IndexedIn(s: Store, ids: seq<nat>, i: nat)
    requires i < |Concat(s, ids)| && Concat(s, ids)[i].nodeId != 0
    requires forall id :: id in ids ==> id in s && Indexed(s, s[id].items, |s[id].items|)
    ensures Concat(s, ids)[i] == KeyOf(s, Concat(s, ids)[i].nodeId)
  {
    hide KeyOf;
    assert ids[0] in ids && forall id :: id in ids[1..] ==> id in ids;
    var n := |s[ids[0]].items|;
    if i >= n {
      IndexedIn(s, ids[1..], i - n);
    }
  }
}
