/** The path from the root of the B+tree to the leaf slot where an item belongs. */
module BTreeSearch {
  import opened Types
  import opened SortedItems
  import opened BTreeNodes
  import opened BTreeLevels

  datatype Crumb = Crumb(index: nat, nodeId: nat)

  // ---------- Keys are ascending at every level ----------

  lemma {:induction false} IndexItems(s: Store, ids: seq<nat>, j: nat)
    requires j < |ids| && forall i :: 0 <= i < |ids| ==> Items(s, ids[i]) != []
    ensures exists t :: 0 <= t < |Concat(s, ids)| && Index(s, ids)[j].item == Concat(s, ids)[t].item
  {
    if j == 0 {
      assert Index(s, ids)[0].item == Concat(s, ids)[0].item;
    } else {
      var rest := ids[1..];
      IndexItems(s, rest, j - 1);
      var t :| 0 <= t < |Concat(s, rest)| && Index(s, rest)[j - 1].item == Concat(s, rest)[t].item;
      assert Concat(s, ids)[|Items(s, ids[0])| + t] == Concat(s, rest)[t];
      assert Index(s, ids)[j] == Index(s, rest)[j - 1];
    }
  }

  lemma FirstThenRest(first: seq<Key>, rest: seq<Key>)
    requires first != [] && Ascending(first + rest)
    ensures Ascending(rest) && forall i :: 0 <= i < |rest| ==> Rank(first[0].item) < Rank(rest[i].item)
  {
    hide Rank;
    var all := first + rest;
    assert forall i :: 0 <= i < |rest| ==> rest[i] == all[|first| + i];
    assert all[0] == first[0];
  }

  lemma AscendingFrom(k: Key, rest: seq<Key>)
    requires Ascending(rest) && forall i :: 0 <= i < |rest| ==> Rank(k.item) < Rank(rest[i].item)
    ensures Ascending([k] + rest)
  {
    hide Rank;
  }

  /** The index of an ascending level is ascending. */
  lemma {:induction false} IndexAscending(s: Store, ids: seq<nat>)
    requires Ascending(Concat(s, ids)) && forall i :: 0 <= i < |ids| ==> Items(s, ids[i]) != []
    ensures Ascending(Index(s, ids))
  {
    hide Rank;
    if ids != [] {
      var first, rest := Items(s, ids[0]), ids[1..];
      FirstThenRest(first, Concat(s, rest));
      IndexAscending(s, rest);
      forall j | 0 <= j < |rest| ensures Rank(first[0].item) < Rank(Index(s, rest)[j].item) {
        IndexItems(s, rest, j);
      }
      AscendingFrom(KeyOf(s, ids[0]), Index(s, rest));
      assert Index(s, ids) == [KeyOf(s, ids[0])] + Index(s, rest);
    }
  }

  lemma LeafKeysAscending(contents: seq<Item>)
    requires AscendingItems(contents)
    ensures Ascending(LeafKeys(contents))
  {
    hide Rank;
  }

  /** Keys of level `l` are ascending, and their items are items of the tree. */
  lemma {:induction false} BelowFacts(c: Config, s: Store, contents: seq<Item>, levels: seq<seq<nat>>, n: nat, l: nat)
    requires AscendingItems(contents) && l <= n <= |levels| && LevelsOk(c, s, contents, levels, n)
    ensures Ascending(Below(s, contents, levels, l))
    ensures forall j :: 0 <= j < |Below(s, contents, levels, l)| ==> Below(s, contents, levels, l)[j].item in contents
  {
    hide Rank, Linked, Weighed, Concat, Index;
    if l == 0 {
      LeafKeysAscending(contents);
    } else {
      BelowFacts(c, s, contents, levels, n, l - 1);
      var ids := levels[l - 1];
      assert LevelAt(c, s, contents, levels, l - 1);
      forall i | 0 <= i < |ids| ensures Items(s, ids[i]) != [] {
        assert SizeOk(c, s, ids, i);
      }
      IndexAscending(s, ids);
      forall j | 0 <= j < |ids| ensures Index(s, ids)[j].item in contents {
        IndexItems(s, ids, j);
      }
    }
  }

  lemma AscendingPart(a: seq<Key>, b: seq<Key>, c: seq<Key>)
    requires Ascending(a + b + c)
    ensures Ascending(b)
  {
    hide Rank;
    assert forall i :: 0 <= i < |b| ==> b[i] == (a + b + c)[|a| + i];
  }

  /** The keys of every node are ascending. */
  lemma NodeAscends(c: Config, s: Store, contents: seq<Item>, levels: seq<seq<nat>>, l: nat, p: nat)
    requires AscendingItems(contents) && LevelsOk(c, s, contents, levels, |levels|) && l < |levels| && p < |levels[l]|
    ensures Ascending(Items(s, levels[l][p]))
  {
    hide Rank, Concat, Items, Ascending, Sized, Linked, Weighed, LevelsOk, AscendingItems;
    BelowFacts(c, s, contents, levels, |levels|, l);
    assert LevelAt(c, s, contents, levels, l) by {
      LevelIn(c, s, contents, levels, l);
    }
    ConcatAround(s, levels[l], p);
    AscendingPart(Concat(s, levels[l][..p]), Items(s, levels[l][p]), Concat(s, levels[l][p + 1..]));
  }

  lemma LevelIn(c: Config, s: Store, contents: seq<Item>, levels: seq<seq<nat>>, l: nat)
    requires LevelsOk(c, s, contents, levels, |levels|) && l < |levels|
    ensures LevelAt(c, s, contents, levels, l)
  {
    hide LevelAt;
  }

  // ---------- Paths ----------

  /** Position of the key under crumb `i` among all keys of its level. */
  ghost function KeyPos(s: Store, ids: seq<nat>, p: nat, index: nat): nat
    requires p <= |ids|
  {
    |Concat(s, ids[..p])| + index
  }

  /** Crumb `i` (0 is the root) names node `pos[i]` of its level and a slot of that node. */
  ghost predicate CrumbOk(s: Store, levels: seq<seq<nat>>, crumbs: seq<Crumb>, pos: seq<nat>, i: nat)
    requires i < |crumbs| <= |pos| && |crumbs| <= |levels|
  {
    var ids := levels[|levels| - 1 - i];
    && pos[i] < |ids| && crumbs[i].nodeId == ids[pos[i]]
    && crumbs[i].index < |Items(s, ids[pos[i]])|
    && (i + 1 < |pos| ==> pos[i + 1] == KeyPos(s, ids, pos[i], crumbs[i].index))
  }

  /** The last key at or below rank `r` is at position `g`, or `r` is below all keys and `g` is 0. */
  ghost predicate Seeks(keys: seq<Key>, r: int, g: nat) {
    && g < |keys|
    && (g == 0 || Rank(keys[g].item) <= r)
    && (g + 1 < |keys| ==> r < Rank(keys[g + 1].item))
  }

  ghost predicate CrumbSeeks(s: Store, levels: seq<seq<nat>>, contents: seq<Item>, crumbs: seq<Crumb>, pos: seq<nat>,
                             x: Item, i: nat)
    requires i < |crumbs| <= |pos| && |crumbs| <= |levels|
  {
    var l := |levels| - 1 - i;
    pos[i] < |levels[l]| && Seeks(Below(s, contents, levels, l), Rank(x), KeyPos(s, levels[l], pos[i], crumbs[i].index))
  }

  ghost predicate PathOk(s: Store, levels: seq<seq<nat>>, contents: seq<Item>, crumbs: seq<Crumb>, pos: seq<nat>,
          x: Item)
    requires |crumbs| <= |pos| && |crumbs| <= |levels|
  {
    forall i :: 0 <= i < |crumbs| ==>
      CrumbOk(s, levels, crumbs, pos, i) && CrumbSeeks(s, levels, contents, crumbs, pos, x, i)
  }

  /** In the node reached so far the slot chosen by scanning its items seeks `r` in the whole level. */
  lemma SlotSeeks(c: Config, s: Store, ids: seq<nat>, p: nat, index: nat, r: int)
    requires Present(s, ids) && Sized(c, s, ids) && p < |ids|
    requires |ids| == 1 || Seeks(Index(s, ids), r, p)
    requires index < |Items(s, ids[p])|
    requires index == 0 || Rank(Items(s, ids[p])[index].item) <= r
    requires index + 1 < |Items(s, ids[p])| ==> r < Rank(Items(s, ids[p])[index + 1].item)
    ensures Seeks(Concat(s, ids), r, KeyPos(s, ids, p, index))
    ensures Concat(s, ids)[KeyPos(s, ids, p, index)] == Items(s, ids[p])[index]
  {
    hide Rank, Concat, Items, KeyOf;
    var its := Items(s, ids[p]);
    var g := KeyPos(s, ids, p, index);
    ConcatAt(s, ids, p, index);
    assert g == 0 || Rank(its[index].item) <= r by {
      if p == 0 {
        ConcatNil(s);
        assert ids[..0] == [];
      } else if index == 0 {
        KeyOfFirst(s, ids[p]);
      }
    }
    if index + 1 < |its| {
      ConcatAt(s, ids, p, index + 1);
    } else if g + 1 < |Concat(s, ids)| {
      NextNodeFirst(c, s, ids, p);
    }
  }

  lemma KeyOfFirst(s: Store, id: nat)
    requires Items(s, id) != []
    ensures KeyOf(s, id).item == Items(s, id)[0].item
  {
  }

  lemma ConcatAt(s: Store, ids: seq<nat>, p: nat, i: nat)
    requires p < |ids| && i < |Items(s, ids[p])|
    ensures KeyPos(s, ids, p, i) < |Concat(s, ids)|
    ensures Concat(s, ids)[KeyPos(s, ids, p, i)] == Items(s, ids[p])[i]
  {
    hide Concat, Items;
    ConcatAround(s, ids, p);
  }

  /** Past the items of node `p` comes the first item of node `p + 1`. */
  lemma NextNodeFirst(c: Config, s: Store, ids: seq<nat>, p: nat)
    requires Sized(c, s, ids) && p < |ids|
    requires |Concat(s, ids[..p])| + |Items(s, ids[p])| < |Concat(s, ids)|
    ensures p + 1 < |ids|
    ensures Concat(s, ids)[|Concat(s, ids[..p])| + |Items(s, ids[p])|].item == Index(s, ids)[p + 1].item
  {
    hide Concat;
    ConcatAround(s, ids, p);
    forall i | 0 <= i < |ids| ensures Items(s, ids[i]) != [] {
      assert SizeOk(c, s, ids, i);
    }
    ConcatRest(s, ids, p + 1);
  }

  /** Past node `p - 1` come the items of node `p`. */
  lemma ConcatRest(s: Store, ids: seq<nat>, p: nat)
    requires p <= |ids| && |Concat(s, ids[..p])| < |Concat(s, ids)|
    requires forall i :: 0 <= i < |ids| ==> Items(s, ids[i]) != []
    ensures p < |ids| && Concat(s, ids)[|Concat(s, ids[..p])|] == Items(s, ids[p])[0]
  {
    assert ids[..|ids|] == ids;
    if p < |ids| {
      ConcatAround(s, ids, p);
    }
  }

  /** At the leaves, seeking an item that is present finds it. */
  lemma SeeksFinds(contents: seq<Item>, x: Item, g: nat)
    requires AscendingItems(contents) && Seeks(LeafKeys(contents), Rank(x), g) && x in contents
    ensures contents[g] == x
  {
    hide Rank;
    var r :| 0 <= r < |contents| && contents[r] == x;
    assert LeafKeys(contents)[g].item == contents[g];
    if g + 1 < |contents| {
      assert LeafKeys(contents)[g + 1].item == contents[g + 1];
    }
  }

  /** The next node of the path: the child under the slot just chosen. */
  lemma ChildOnPath(c: Config, s: Store, contents: seq<Item>, levels: seq<seq<nat>>, l: nat, p: nat, index: nat)
    requires 0 < l < |levels| && LevelsOk(c, s, contents, levels, |levels|)
    requires p < |levels[l]| && index < |Items(s, levels[l][p])|
    ensures KeyPos(s, levels[l], p, index) < |levels[l - 1]|
    ensures Items(s, levels[l][p])[index] == KeyOf(s, levels[l - 1][KeyPos(s, levels[l], p, index)])
    ensures Items(s, levels[l][p])[index].nodeId != 0
  {
    hide Rank, Concat, Items, Weighed, Linked, Sized;
    assert LevelAt(c, s, contents, levels, l);
    assert LevelAt(c, s, contents, levels, l - 1);
    ConcatAt(s, levels[l], p, index);
  }

  lemma LeafOnPath(c: Config, s: Store, contents: seq<Item>, levels: seq<seq<nat>>, p: nat, index: nat)
    requires 0 < |levels| && LevelsOk(c, s, contents, levels, |levels|)
    requires p < |levels[0]| && index < |Items(s, levels[0][p])|
    ensures KeyPos(s, levels[0], p, index) < |contents|
    ensures Items(s, levels[0][p])[index] == Key(contents[KeyPos(s, levels[0], p, index)], 0)
  {
    hide Rank, Concat, Items, Weighed, Linked, Sized;
    assert LevelAt(c, s, contents, levels, 0);
    ConcatAt(s, levels[0], p, index);
  }

  /** Where a search stands: `crumbs` lead to node `cur`, which has yet to be scanned (0 past the leaf). */
  ghost predicate Searching(s: Store, levels: seq<seq<nat>>, contents: seq<Item>, crumbs: seq<Crumb>, pos: seq<nat>,
                            cur: nat, found: bool, x: Item)
  {
    && |crumbs| <= |levels| && |pos| == |crumbs| + 1
    && PathOk(s, levels, contents, crumbs, pos, x)
    && (found ==> x in contents)
    && if |crumbs| == |levels| then
         cur == 0 && (found <==> x in contents)
           && (found ==> pos[|crumbs|] < |contents| && contents[pos[|crumbs|]] == x)
       else
         var ids := levels[|levels| - 1 - |crumbs|];
         && pos[|crumbs|] < |ids| && cur != 0 && cur == ids[pos[|crumbs|]]
         && (|ids| == 1 || Seeks(Index(s, ids), Rank(x), pos[|crumbs|]))
  }

  lemma SearchStep(c: Config, s: Store, contents: seq<Item>, levels: seq<seq<nat>>, crumbs: seq<Crumb>, pos: seq<nat>,
                   cur: nat, found: bool, x: Item, index: nat)
    requires AscendingItems(contents) && LevelsOk(c, s, contents, levels, |levels|)
    requires Searching(s, levels, contents, crumbs, pos, cur, found, x) && |crumbs| < |levels|
    requires index < |Items(s, cur)|
    requires index == 0 || Rank(Items(s, cur)[index].item) <= Rank(x)
    requires index + 1 < |Items(s, cur)| ==> Rank(x) < Rank(Items(s, cur)[index + 1].item)
    ensures var l := |levels| - 1 - |crumbs|;
            Searching(s, levels, contents, crumbs + [Crumb(index, cur)],
                      pos + [KeyPos(s, levels[l], pos[|crumbs|], index)],
                      Items(s, cur)[index].nodeId, found || x == Items(s, cur)[index].item, x)
  {
    hide Rank, Concat, Index, LevelsOk, KeyPos, Items, Seeks, PathOk, AscendingItems, LeafKeys;
    var l, p := |levels| - 1 - |crumbs|, pos[|crumbs|];
    ScanFacts(c, s, contents, levels, l, p, index, x);
    var g := KeyPos(s, levels[l], p, index);
    if l == 0 {
      LeafOnPath(c, s, contents, levels, p, index);
      if x in contents {
        SeeksFinds(contents, x, g);
      }
    } else {
      ChildOnPath(c, s, contents, levels, l, p, index);
    }
    PathExtends(s, levels, contents, crumbs, pos, x, index, cur);
  }

  lemma ScanFacts(c: Config, s: Store, contents: seq<Item>, levels: seq<seq<nat>>, l: nat, p: nat, index: nat, x: Item)
    requires AscendingItems(contents) && LevelsOk(c, s, contents, levels, |levels|) && l < |levels|
    requires p < |levels[l]| && (|levels[l]| == 1 || Seeks(Index(s, levels[l]), Rank(x), p))
    requires index < |Items(s, levels[l][p])|
    requires index == 0 || Rank(Items(s, levels[l][p])[index].item) <= Rank(x)
    requires index + 1 < |Items(s, levels[l][p])| ==> Rank(x) < Rank(Items(s, levels[l][p])[index + 1].item)
    ensures Seeks(Below(s, contents, levels, l), Rank(x), KeyPos(s, levels[l], p, index))
    ensures Items(s, levels[l][p])[index].item in contents
  {
    hide Rank, Concat, Index, Linked, Weighed, Items, Ascending, Sized;
    var below := Below(s, contents, levels, l);
    assert LevelAt(c, s, contents, levels, l);
    SlotSeeks(c, s, levels[l], p, index, Rank(x));
    BelowFacts(c, s, contents, levels, |levels|, l);
    assert below[KeyPos(s, levels[l], p, index)].item in contents;
  }

  lemma PathExtends(s: Store, levels: seq<seq<nat>>, contents: seq<Item>, crumbs: seq<Crumb>, pos: seq<nat>, x: Item,
                    index: nat, cur: nat)
    requires |crumbs| < |levels| && |pos| == |crumbs| + 1 && PathOk(s, levels, contents, crumbs, pos, x)
    requires var l := |levels| - 1 - |crumbs|;
             && pos[|crumbs|] < |levels[l]| && cur == levels[l][pos[|crumbs|]] && index < |Items(s, cur)|
             && Seeks(Below(s, contents, levels, l), Rank(x), KeyPos(s, levels[l], pos[|crumbs|], index))
    ensures PathOk(s, levels, contents, crumbs + [Crumb(index, cur)],
                   pos + [KeyPos(s, levels[|levels| - 1 - |crumbs|], pos[|crumbs|], index)], x)
  {
    hide Rank, Concat, Index, KeyPos, Items, Seeks, Below;
    var l := |levels| - 1 - |crumbs|;
    var crumbs1, pos1 := crumbs + [Crumb(index, cur)], pos + [KeyPos(s, levels[l], pos[|crumbs|], index)];
    forall i | 0 <= i < |crumbs1|
      ensures CrumbOk(s, levels, crumbs1, pos1, i) && CrumbSeeks(s, levels, contents, crumbs1, pos1, x, i)
    {
      if i < |crumbs| {
        assert CrumbOk(s, levels, crumbs, pos, i) && CrumbSeeks(s, levels, contents, crumbs, pos, x, i);
      }
    }
  }

  lemma EmptyPath(s: Store, levels: seq<seq<nat>>, contents: seq<Item>, x: Item)
    ensures PathOk(s, levels, contents, [], [0], x)
  {
  }

  lemma NodeOnPath(c: Config, s: Store, contents: seq<Item>, levels: seq<seq<nat>>, l: nat, p: nat)
    requires l < |levels| && LevelsOk(c, s, contents, levels, |levels|) && p < |levels[l]|
    ensures levels[l][p] in s && levels[l][p] != 0 && Items(s, levels[l][p]) != []
  {
    hide Concat, Linked, Weighed;
    assert LevelAt(c, s, contents, levels, l);
    assert SizeOk(c, s, levels[l], p);
  }
}
