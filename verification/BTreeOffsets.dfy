/** Positions and prefix sums in the B+tree: what the counts and sums kept in its nodes mean for the
    sequence of items it stores. */
module BTreeOffsets {
  import opened Types
  import opened Accumulators
  import opened SortedItems
  import opened BTreeNodes
  import opened BTreeLevels
  import opened BTreeSearch

  /** The levels of a tree that stores `contents`. */
  ghost predicate Layered(c: Config, s: Store, contents: seq<Item>, levels: seq<seq<nat>>) {
    ConfigOk(c) && |levels| > 0 && AscendingItems(contents) && LevelsOk(c, s, contents, levels, |levels|)
  }

  /** What all the nodes before node `p` of a level weigh. */
  ghost function NodeStart(s: Store, ids: seq<nat>, p: nat): Weight
    requires p <= |ids|
  {
    Total(s, Concat(s, ids[..p]))
  }

  /** The weight of the first `n` items. */
  ghost function Prefix(contents: seq<Item>, n: nat): Weight
    requires n <= |contents|
  {
    Weight(IdSum(contents[..n]), n)
  }

  lemma {:induction false} LeafTotal(s: Store, items: seq<Item>)
    ensures Total(s, LeafKeys(items)) == Weight(IdSum(items), |items|)
  {
    if items != [] {
      LeafTotal(s, items[1..]);
      assert LeafKeys(items)[1..] == LeafKeys(items[1..]);
    }
  }

  lemma LevelFacts(c: Config, s: Store, contents: seq<Item>, levels: seq<seq<nat>>, l: nat, p: nat)
    requires Layered(c, s, contents, levels) && l < |levels| && p <= |levels[l]|
    ensures LevelOk(c, s, Below(s, contents, levels, l), levels[l])
    ensures Concat(s, levels[l]) == Below(s, contents, levels, l)
    ensures |Concat(s, levels[l][..p])| <= |Below(s, contents, levels, l)|
    ensures Concat(s, levels[l][..p]) == Below(s, contents, levels, l)[..|Concat(s, levels[l][..p])|]
    ensures Present(s, levels[l]) && Weighed(s, levels[l])
  {
    hide Concat, Sized, Linked, AscendingItems;
    assert LevelAt(c, s, contents, levels, l);
    assert levels[l] == levels[l][..p] + levels[l][p..];
    ConcatAppend(s, levels[l][..p], levels[l][p..]);
  }

  /** Nodes before position `g` of a level weigh what the keys before `g` one level up say. */
  lemma ChildStart(c: Config, s: Store, contents: seq<Item>, levels: seq<seq<nat>>, l: nat, p: nat, i: nat)
    requires Layered(c, s, contents, levels) && 0 < l < |levels| && p < |levels[l]| && i <= |Items(s, levels[l][p])|
    ensures var g := KeyPos(s, levels[l], p, i);
            g <= |levels[l - 1]|
            && NodeStart(s, levels[l - 1], g) == Plus(NodeStart(s, levels[l], p), Total(s, Items(s, levels[l][p])[..i]))
  {
    hide Concat, Sized, Linked, Items, Total, Plus, LevelsOk, AscendingItems, LevelOk, Index;
    var ids, up := levels[l - 1], levels[l];
    LevelFacts(c, s, contents, levels, l, p);
    LevelFacts(c, s, contents, levels, l - 1, |ids|);
    ConcatAround(s, up, p);
    var w, g := Items(s, up[p]), KeyPos(s, up, p, i);
    var before := Concat(s, up[..p]) + w[..i];
    assert Index(s, ids)[..g] == before;
    assert Index(s, ids[..g]) == before by {
      PrefixIndex(s, ids, g);
    }
    PrefixWeighed(s, ids, g);
    WeighedTotal(s, ids[..g]);
    TotalConcat(s, Concat(s, up[..p]), w[..i]);
  }

  lemma PrefixIndex(s: Store, ids: seq<nat>, g: nat)
    requires g <= |ids|
    ensures Index(s, ids[..g]) == Index(s, ids)[..g]
  {
  }

  lemma PrefixWeighed(s: Store, ids: seq<nat>, g: nat)
    requires g <= |ids| && Present(s, ids) && Weighed(s, ids)
    ensures Present(s, ids[..g]) && Weighed(s, ids[..g])
  {
  }

  /** At every level the nodes before a node stand for a prefix of the items. */
  lemma {:induction false} StartIsPrefix(c: Config, s: Store, contents: seq<Item>, levels: seq<seq<nat>>, l: nat,
          p: nat)
    requires Layered(c, s, contents, levels) && l < |levels| && p <= |levels[l]|
    ensures var n := NodeStart(s, levels[l], p).count;
            0 <= n <= |contents| && NodeStart(s, levels[l], p) == Prefix(contents, n)
    ensures l == 0 ==> NodeStart(s, levels[l], p).count == |Concat(s, levels[0][..p])|
    ensures p == |levels[l]| ==> NodeStart(s, levels[l], p).count == |contents|
  {
    hide Concat, Items, Total, Plus, LevelsOk, AscendingItems, LevelOk, LeafKeys, Index;
    LevelFacts(c, s, contents, levels, l, p);
    var off := |Concat(s, levels[l][..p])|;
    if l == 0 {
      LeafPrefix(contents, off);
      LeafTotal(s, contents[..off]);
      assert levels[0][..|levels[0]|] == levels[0];
    } else {
      var ids := levels[l - 1];
      LevelFacts(c, s, contents, levels, l - 1, |ids|);
      StartIsPrefix(c, s, contents, levels, l - 1, off);
      PrefixIndex(s, ids, off);
      PrefixWeighed(s, ids, off);
      WeighedTotal(s, ids[..off]);
      assert levels[l][..|levels[l]|] == levels[l];
    }
  }

  lemma LeafPrefix(contents: seq<Item>, n: nat)
    requires n <= |contents|
    ensures LeafKeys(contents)[..n] == LeafKeys(contents[..n])
  {
  }

  /** The node itself accounts for the items up to where the next node starts. */
  lemma NodeEnd(c: Config, s: Store, contents: seq<Item>, levels: seq<seq<nat>>, l: nat, p: nat)
    requires Layered(c, s, contents, levels) && l < |levels| && p < |levels[l]|
    ensures levels[l][p] in s && Items(s, levels[l][p]) == s[levels[l][p]].items
    ensures NodeStart(s, levels[l], p + 1) == Plus(NodeStart(s, levels[l], p), NodeWeight(s[levels[l][p]]))
    ensures NodeWeight(s[levels[l][p]]) == Total(s, s[levels[l][p]].items)
    ensures 1 <= |s[levels[l][p]].items| && (p + 1 < |levels[l]| ==> c.minItems <= |s[levels[l][p]].items|)
  {
    hide Concat, Total, Plus, LevelsOk, AscendingItems, Linked;
    LevelFacts(c, s, contents, levels, l, p);
    var ids := levels[l];
    assert WeightOk(s, ids[p]) && SizeOk(c, s, ids, p);
    ConcatAround(s, ids, p);
    TotalConcat(s, Concat(s, ids[..p]), Items(s, ids[p]));
  }

  /** The root accounts for everything. */
  lemma RootWeight(c: Config, s: Store, contents: seq<Item>, levels: seq<seq<nat>>)
    requires Layered(c, s, contents, levels) && |levels[|levels| - 1]| == 1
    ensures var root := levels[|levels| - 1][0];
            root in s && NodeWeight(s[root]) == Prefix(contents, |contents|) && s[root].items != []
    ensures NodeStart(s, levels[|levels| - 1], 0) == NOTHING
  {
    hide Concat, Total, LevelsOk, AscendingItems;
    var l := |levels| - 1;
    StartIsPrefix(c, s, contents, levels, l, 1);
    NodeEnd(c, s, contents, levels, l, 0);
    NothingBefore(s, levels[l]);
    PlusLaws(NodeWeight(s[levels[l][0]]), NOTHING, NOTHING);
  }

  lemma NothingBefore(s: Store, ids: seq<nat>)
    ensures NodeStart(s, ids, 0) == NOTHING
  {
    assert ids[..0] == [];
  }

  /** A child weighs what its key says, and its items start where the keys before it end. */
  lemma ChildSpan(c: Config, s: Store, contents: seq<Item>, levels: seq<seq<nat>>, l: nat, p: nat, i: nat)
    requires Layered(c, s, contents, levels) && 0 < l < |levels| && p < |levels[l]| && i < |Items(s, levels[l][p])|
    ensures var g := KeyPos(s, levels[l], p, i);
            var w := Items(s, levels[l][p]);
            && g < |levels[l - 1]| && w[i].nodeId == levels[l - 1][g] && w[i].nodeId != 0 && w[i].nodeId in s
            && KeyOf(s, w[i].nodeId) == w[i]
            && NodeStart(s, levels[l - 1], g) == Plus(NodeStart(s, levels[l], p), Total(s, w[..i]))
            && Total(s, w[..i + 1]) == Plus(Total(s, w[..i]), NodeWeight(s[w[i].nodeId]))
  {
    hide Concat, Items, Total, Plus, LevelsOk, AscendingItems;
    ChildStart(c, s, contents, levels, l, p, i);
    LevelFacts(c, s, contents, levels, l, p);
    LevelFacts(c, s, contents, levels, l - 1, 0);
    ConcatAt(s, levels[l], p, i);
    var w := Items(s, levels[l][p]);
    assert w[..i + 1] == w[..i] + [w[i]];
    TotalConcat(s, w[..i], [w[i]]);
    TotalOne(s, w[i]);
  }

  lemma LeafSpan(c: Config, s: Store, contents: seq<Item>, levels: seq<seq<nat>>, p: nat, i: nat)
    requires Layered(c, s, contents, levels) && p < |levels[0]| && i < |Items(s, levels[0][p])|
    ensures var n := NodeStart(s, levels[0], p).count + i;
            && 0 <= n < |contents| && Items(s, levels[0][p])[i] == Key(contents[n], 0)
  {
    hide Concat, Items, Total, Plus;
    StartIsPrefix(c, s, contents, levels, 0, p);
    LeafOnPath(c, s, contents, levels, p, i);
  }

  /** The key in slot `i` of any node shows the item at the position where the slot starts. */
  lemma {:induction false} SlotItem(c: Config, s: Store, contents: seq<Item>, levels: seq<seq<nat>>, l: nat, p: nat,
          i: nat)
    requires Layered(c, s, contents, levels) && l < |levels| && p < |levels[l]| && i < |Items(s, levels[l][p])|
    ensures var n := NodeStart(s, levels[l], p).count + Total(s, Items(s, levels[l][p])[..i]).count;
            0 <= n < |contents| && Items(s, levels[l][p])[i].item == contents[n]
  {
    hide Concat, Items, Total, LevelsOk, AscendingItems;
    if l == 0 {
      LeafSpan(c, s, contents, levels, p, i);
      LeafPartCount(c, s, contents, levels, p, i);
    } else {
      ChildSpan(c, s, contents, levels, l, p, i);
      var g := KeyPos(s, levels[l], p, i);
      NodeEnd(c, s, contents, levels, l - 1, g);
      SlotItem(c, s, contents, levels, l - 1, g, 0);
      EmptyTotal(s, Items(s, levels[l - 1][g]));
      KeyOfFirst(s, levels[l - 1][g]);
    }
  }

  lemma EmptyTotal(s: Store, keys: seq<Key>)
    ensures Total(s, keys[..0]) == NOTHING
  {
  }

  lemma LeafPartCount(c: Config, s: Store, contents: seq<Item>, levels: seq<seq<nat>>, p: nat, i: nat)
    requires Layered(c, s, contents, levels) && p < |levels[0]| && i <= |Items(s, levels[0][p])|
    ensures Total(s, Items(s, levels[0][p])[..i]).count == i
  {
    hide Concat, Items, LevelsOk, AscendingItems;
    var w := Items(s, levels[0][p]);
    forall j | 0 <= j < i ensures w[..i][j].nodeId == 0 {
      LeafSpan(c, s, contents, levels, p, j);
    }
    LeafCount(s, w[..i]);
  }

  lemma {:induction false} LeafCount(s: Store, keys: seq<Key>)
    requires forall j :: 0 <= j < |keys| ==> keys[j].nodeId == 0
    ensures Total(s, keys).count == |keys|
  {
    if keys != [] {
      LeafCount(s, keys[1..]);
    }
  }

  /** A node accounts for at least as many items as it has keys. */
  lemma {:induction false} CountAtLeast(c: Config, s: Store, contents: seq<Item>, levels: seq<seq<nat>>, l: nat,
          p: nat, i: nat)
    requires Layered(c, s, contents, levels) && l < |levels| && p < |levels[l]| && i <= |Items(s, levels[l][p])|
    ensures Total(s, Items(s, levels[l][p])[..i]).count >= i
    ensures l == 0 ==> Total(s, Items(s, levels[l][p])[..i]).count == i
    decreases l, i
  {
    hide Concat, Items, Total, LevelsOk, AscendingItems;
    if l == 0 {
      LeafPartCount(c, s, contents, levels, p, i);
    } else if i == 0 {
      EmptyTotal(s, Items(s, levels[l][p]));
    } else {
      CountAtLeast(c, s, contents, levels, l, p, i - 1);
      ChildSpan(c, s, contents, levels, l, p, i - 1);
      var g := KeyPos(s, levels[l], p, i - 1);
      NodeEnd(c, s, contents, levels, l - 1, g);
      var w := Items(s, levels[l - 1][g]);
      CountAtLeast(c, s, contents, levels, l - 1, g, |w|);
      assert w[..|w|] == w;
    }
  }

  /** If a node has as many keys as items, each of its keys stands for a single item. */
  lemma {:induction false} UnitKeys(c: Config, s: Store, contents: seq<Item>, levels: seq<seq<nat>>, l: nat, p: nat,
          i: nat)
    requires Layered(c, s, contents, levels) && l < |levels| && p < |levels[l]| && i <= |Items(s, levels[l][p])|
    requires Total(s, Items(s, levels[l][p])).count == |Items(s, levels[l][p])|
    ensures Total(s, Items(s, levels[l][p])[..i]).count == i
    decreases |Items(s, levels[l][p])| - i
  {
    hide Concat, Items, Total, LevelsOk, AscendingItems;
    var w := Items(s, levels[l][p]);
    CountAtLeast(c, s, contents, levels, l, p, i);
    if i == |w| {
      assert w[..i] == w;
    } else if l > 0 {
      UnitKeys(c, s, contents, levels, l, p, i + 1);
      ChildSpan(c, s, contents, levels, l, p, i);
      var g := KeyPos(s, levels[l], p, i);
      NodeEnd(c, s, contents, levels, l - 1, g);
      var v := Items(s, levels[l - 1][g]);
      CountAtLeast(c, s, contents, levels, l - 1, g, |v|);
      assert v[..|v|] == v;
    }
  }

  /** An interior node with as many keys as items has a single key and is the last of its level. */
  lemma LoneInterior(c: Config, s: Store, contents: seq<Item>, levels: seq<seq<nat>>, l: nat, p: nat)
    requires Layered(c, s, contents, levels) && 0 < l < |levels| && p < |levels[l]|
    requires Total(s, Items(s, levels[l][p])).count == |Items(s, levels[l][p])|
    ensures |Items(s, levels[l][p])| == 1 && p + 1 == |levels[l]|
    ensures NodeStart(s, levels[l], p).count + 1 == |contents|
  {
    hide Concat, Items, Total, LevelsOk, AscendingItems;
    NodeEnd(c, s, contents, levels, l, p);
    var w := Items(s, levels[l][p]);
    ChildSpan(c, s, contents, levels, l, p, 0);
    var g := KeyPos(s, levels[l], p, 0);
    UnitKeys(c, s, contents, levels, l, p, 1);
    EmptyTotal(s, w);
    NodeEnd(c, s, contents, levels, l - 1, g);
    var v := Items(s, levels[l - 1][g]);
    CountAtLeast(c, s, contents, levels, l - 1, g, |v|);
    assert v[..|v|] == v;
    assert g + 1 == |levels[l - 1]|;
    if |w| > 1 {
      ChildSpan(c, s, contents, levels, l, p, 1);
    }
    StartIsPrefix(c, s, contents, levels, l, p + 1);
  }

  /** Where a walk down to item number `target` ends: in node `nodeId`, `rem` slots in, with the ids of all items
      before the node summed up. The node is a leaf, or the right edge of the tree above its only remaining item. */
  ghost predicate Landing(s: Store, contents: seq<Item>, levels: seq<seq<nat>>, nodeId: nat, rem: nat, sum: Sum,
          target: nat) {
    && nodeId in s && rem <= |s[nodeId].items| && rem <= target && target - rem + |s[nodeId].items| <= |contents|
    && sum == IdSum(contents[..target - rem])
    && (forall i :: 0 <= i < |s[nodeId].items| ==> s[nodeId].items[i].item == contents[target - rem + i])
    && (OnLeaf(s, levels, nodeId, target - rem) || (|s[nodeId].items| == 1 && target - rem + 1 == |contents|))
  }

  /** Node `nodeId` is the leaf whose items start at position `start`. */
  ghost predicate OnLeaf(s: Store, levels: seq<seq<nat>>, nodeId: nat, start: nat) {
    && |levels| > 0
    && exists p :: 0 <= p < |levels[0]| && levels[0][p] == nodeId && NodeStart(s, levels[0], p).count == start
  }

  lemma Lands(c: Config, s: Store, contents: seq<Item>, levels: seq<seq<nat>>, l: nat, p: nat, rem: nat, sum: Sum)
    requires Layered(c, s, contents, levels) && l < |levels| && p < |levels[l]|
    requires var id := levels[l][p];
             id in s && |s[id].items| == s[id].accumCount && rem <= |s[id].items|
               && sum == NodeStart(s, levels[l], p).sum
    ensures NodeStart(s, levels[l], p).count >= 0
    ensures Landing(s, contents, levels, levels[l][p], rem, sum, NodeStart(s, levels[l], p).count + rem)
  {
    hide Concat, Total, LevelsOk, AscendingItems;
    var id := levels[l][p];
    NodeEnd(c, s, contents, levels, l, p);
    StartIsPrefix(c, s, contents, levels, l, p);
    StartIsPrefix(c, s, contents, levels, l, p + 1);
    var start := NodeStart(s, levels[l], p).count;
    forall i | 0 <= i < |s[id].items| ensures s[id].items[i].item == contents[start + i] {
      UnitKeys(c, s, contents, levels, l, p, i);
      SlotItem(c, s, contents, levels, l, p, i);
    }
    if l > 0 {
      LoneInterior(c, s, contents, levels, l, p);
    }
  }

  /** The leaf after a leaf. */
  lemma NextLeaf(c: Config, s: Store, contents: seq<Item>, levels: seq<seq<nat>>, nodeId: nat, start: nat)
    requires Layered(c, s, contents, levels) && OnLeaf(s, levels, nodeId, start)
    ensures nodeId in s && start + |s[nodeId].items| <= |contents| && s[nodeId].items != []
    ensures forall i :: 0 <= i < |s[nodeId].items| ==> s[nodeId].items[i].item == contents[start + i]
    ensures start + |s[nodeId].items| < |contents| ==>
      s[nodeId].nextSibling != 0 && OnLeaf(s, levels, s[nodeId].nextSibling, start + |s[nodeId].items|)
  {
    hide Concat, Total, LevelsOk, AscendingItems, Sized, Weighed, Distinct, IdSum, LeafKeys, Index, Layered, NodeStart;
    var p :| 0 <= p < |levels[0]| && levels[0][p] == nodeId && NodeStart(s, levels[0], p).count == start;
    LevelFacts(c, s, contents, levels, 0, p);
    NodeEnd(c, s, contents, levels, 0, p);
    var w := s[nodeId].items;
    CountAtLeast(c, s, contents, levels, 0, p, |w|);
    assert w[..|w|] == w;
    StartIsPrefix(c, s, contents, levels, 0, p + 1);
    forall i | 0 <= i < |w| ensures w[i].item == contents[start + i] {
      LeafSpan(c, s, contents, levels, p, i);
    }
    assert LinkOk(s, levels[0], p);
  }

  // ---------- Lower bounds ----------

  /** A walk down to the last key below rank `r`: the keys before the chosen slot are counted. */
  lemma SlotCounted(c: Config, s: Store, contents: seq<Item>, levels: seq<seq<nat>>, l: nat, p: nat, index: nat, r: int)
    requires Layered(c, s, contents, levels) && l < |levels| && p < |levels[l]|
    requires |levels[l]| == 1 || Seeks(Index(s, levels[l]), r, p)
    requires index < |Items(s, levels[l][p])|
    requires index == 0 || Rank(Items(s, levels[l][p])[index].item) <= r
    requires index + 1 < |Items(s, levels[l][p])| ==> r < Rank(Items(s, levels[l][p])[index + 1].item)
    ensures Seeks(Below(s, contents, levels, l), r, KeyPos(s, levels[l], p, index))
  {
    hide Rank, Concat, Items, Linked, Weighed, Index, Seeks;
    LevelFacts(c, s, contents, levels, l, p);
    SlotSeeks(c, s, levels[l], p, index, r);
  }

  /** At the leaves the slot after the last item below the bound is the lower bound. */
  lemma LowerBoundFound(contents: seq<Item>, r: int, g: nat)
    requires AscendingItems(contents) && Seeks(LeafKeys(contents), r - 1, g) && Rank(contents[0]) < r
    ensures g + 1 == LowerBound(contents, r)
  {
    hide Rank, LowerBound;
    var keys := LeafKeys(contents);
    assert keys[g].item == contents[g];
    assert g + 1 < |contents| ==> keys[g + 1].item == contents[g + 1];
    LowerBoundUnique(contents, r, g + 1);
  }

  // ---------- Facts the walks need ----------

  /** A node with fewer keys than items is not a leaf. */
  lemma NotALeaf(c: Config, s: Store, contents: seq<Item>, levels: seq<seq<nat>>, l: nat, p: nat)
    requires Layered(c, s, contents, levels) && l < |levels| && p < |levels[l]|
    requires levels[l][p] in s && |s[levels[l][p]].items| != s[levels[l][p]].accumCount
    ensures l > 0
  {
    hide Concat, Total, LevelsOk, AscendingItems;
    NodeEnd(c, s, contents, levels, l, p);
    var w := s[levels[l][p]].items;
    CountAtLeast(c, s, contents, levels, l, p, |w|);
    assert w[..|w|] == w;
  }

  /** An item is at hand: the walk ended before the end of the node. */
  ghost predicate AtItem(s: Store, nodeId: nat, rem: nat) {
    nodeId in s && rem < |s[nodeId].items|
  }

  /** How far a walk over the keys of a node has come. */
  ghost predicate Walked(s: Store, levels: seq<seq<nat>>, l: nat, p: nat, i: nat, index: nat, rem: nat, sum: Sum)
    requires l < |levels| && p < |levels[l]| && i <= |Items(s, levels[l][p])|
  {
    var part := Total(s, Items(s, levels[l][p])[..i]);
    part.count + rem == index && sum == AddMod(NodeStart(s, levels[l], p).sum, part.sum)
  }

  lemma WalkStarts(s: Store, levels: seq<seq<nat>>, l: nat, p: nat, index: nat, sum: Sum)
    requires l < |levels| && p < |levels[l]| && sum == NodeStart(s, levels[l], p).sum
    ensures Walked(s, levels, l, p, 0, index, index, sum)
  {
    hide NodeStart, Total;
    EmptyTotal(s, Items(s, levels[l][p]));
    AddModLaws(sum, 0, 0);
  }

  /** One key further: the child is entered if it holds the wanted item and passed over otherwise. */
  lemma WalkStep(c: Config, s: Store, contents: seq<Item>, levels: seq<seq<nat>>, l: nat, p: nat, i: nat, index: nat,
          rem: nat, sum: Sum)
    requires Layered(c, s, contents, levels) && 0 < l < |levels| && p < |levels[l]| && i < |Items(s, levels[l][p])|
    requires Walked(s, levels, l, p, i, index, rem, sum)
    ensures var g := KeyPos(s, levels[l], p, i);
            var child := Items(s, levels[l][p])[i].nodeId;
            && g < |levels[l - 1]| && child == levels[l - 1][g] && child in s && s[child].accumCount >= 0
            && sum == NodeStart(s, levels[l - 1], g).sum
            && NodeStart(s, levels[l - 1], g).count + rem == NodeStart(s, levels[l], p).count + index
            && (rem >= s[child].accumCount ==>
                Walked(s, levels, l, p, i + 1, index, rem - s[child].accumCount, AddMod(sum, s[child].accum)))
  {
    hide Total, NodeStart, LevelsOk, AscendingItems, Concat, Items, LevelOk;
    ChildSpan(c, s, contents, levels, l, p, i);
    SlotWeight(c, s, contents, levels, l, p, i);
    var w := Items(s, levels[l][p]);
    AddModLaws(NodeStart(s, levels[l], p).sum, Total(s, w[..i]).sum, s[w[i].nodeId].accum);
  }

  lemma WalkEnds(c: Config, s: Store, contents: seq<Item>, levels: seq<seq<nat>>, l: nat, p: nat, index: nat,
          rem: nat, sum: Sum)
    requires Layered(c, s, contents, levels) && l < |levels| && p < |levels[l]|
    requires levels[l][p] in s && index <= s[levels[l][p]].accumCount
    requires Walked(s, levels, l, p, |Items(s, levels[l][p])|, index, rem, sum)
    ensures index == s[levels[l][p]].accumCount && sum == NodeStart(s, levels[l], p + 1).sum
  {
    hide Total, NodeStart, LevelsOk, AscendingItems, Concat;
    NodeEnd(c, s, contents, levels, l, p);
    var w := Items(s, levels[l][p]);
    assert w[..|w|] == w;
  }

  /** An iteration stands at slot `index` of a node, which is item number `n`. */
  ghost predicate Walking(s: Store, contents: seq<Item>, levels: seq<seq<nat>>, nodeId: nat, index: nat, n: nat) {
    && nodeId in s && index < |s[nodeId].items| && index <= n < |contents| && s[nodeId].items[index].item == contents[n]
    && (OnLeaf(s, levels, nodeId, n - index) || n + 1 == |contents|)
  }

  lemma WalkingItem(s: Store, contents: seq<Item>, levels: seq<seq<nat>>, nodeId: nat, index: nat, n: nat)
    requires Walking(s, contents, levels, nodeId, index, n)
    ensures nodeId in s && index < |s[nodeId].items| && n < |contents| && s[nodeId].items[index].item == contents[n]
  {
    hide OnLeaf;
  }

  lemma WalkingFrom(s: Store, contents: seq<Item>, levels: seq<seq<nat>>, nodeId: nat, rem: nat, sum: Sum, target: nat)
    requires Landing(s, contents, levels, nodeId, rem, sum, target) && nodeId in s && rem < |s[nodeId].items|
    ensures Walking(s, contents, levels, nodeId, rem, target)
  {
    hide OnLeaf, IdSum;
  }

  /** The items of the node a walk landed in, up to the place it landed at. */
  lemma LandingItems(s: Store, contents: seq<Item>, levels: seq<seq<nat>>, nodeId: nat, rem: nat, sum: Sum, target: nat)
    requires Landing(s, contents, levels, nodeId, rem, sum, target)
    ensures nodeId in s && rem <= |s[nodeId].items| && rem <= target <= |contents|
            && sum == IdSum(contents[..target - rem])
    ensures forall i :: 0 <= i < rem ==> s[nodeId].items[i].item == contents[target - rem + i]
  {
    hide OnLeaf, IdSum;
  }

  lemma NextPrefixSum(contents: seq<Item>, n: nat)
    requires n < |contents|
    ensures IdSum(contents[..n + 1]) == AddMod(IdSum(contents[..n]), IdNum(contents[n].id))
  {
    hide IdSum, AddMod;
    assert contents[..n + 1] == contents[..n] + [contents[n]];
    IdSumConcat(contents[..n], [contents[n]]);
    IdSumOne(contents[n]);
  }

  /** The next slot, or the first slot of the next leaf, is the next item. */
  lemma WalkOn(c: Config, s: Store, root: nat, nextId: nat, contents: seq<Item>, levels: seq<seq<nat>>, nodeId: nat,
          index: nat, n: nat)
    requires TreeOk(c, s, root, nextId, contents, levels) && Walking(s, contents, levels, nodeId, index, n)
             && n + 1 < |contents|
    ensures var inside := index + 1 < |s[nodeId].items|;
            Walking(s, contents, levels, if inside then nodeId else s[nodeId].nextSibling,
                    if inside then index + 1 else 0, n + 1)
  {
    hide Rank, LevelsOk, AscendingItems, AllDistinct, OnLeaf;
    TreeLayered(c, s, root, nextId, contents, levels);
    NextLeaf(c, s, contents, levels, nodeId, n - index);
    if index + 1 >= |s[nodeId].items| {
      NextLeaf(c, s, contents, levels, s[nodeId].nextSibling, n + 1);
    }
  }

  lemma TreeLayered(c: Config, s: Store, root: nat, nextId: nat, contents: seq<Item>, levels: seq<seq<nat>>)
    requires TreeOk(c, s, root, nextId, contents, levels) && contents != []
    ensures Layered(c, s, contents, levels)
  {
    hide LevelsOk, AscendingItems, AllDistinct;
  }

  /** What a slot adds to the count: its child's count, or one in a leaf. */
  lemma SlotWeight(c: Config, s: Store, contents: seq<Item>, levels: seq<seq<nat>>, l: nat, p: nat, i: nat)
    requires Layered(c, s, contents, levels) && l < |levels| && p < |levels[l]| && i < |Items(s, levels[l][p])|
    ensures var w := Items(s, levels[l][p]);
            && (w[i].nodeId != 0 ==> w[i].nodeId in s && s[w[i].nodeId].accumCount >= 0)
            && Total(s, w[..i + 1]).count
               == Total(s, w[..i]).count + if w[i].nodeId != 0 then s[w[i].nodeId].accumCount else 1
  {
    hide Concat, Items, Total, LevelsOk, AscendingItems;
    if l == 0 {
      LeafSpan(c, s, contents, levels, p, i);
      LeafPartCount(c, s, contents, levels, p, i);
      LeafPartCount(c, s, contents, levels, p, i + 1);
    } else {
      ChildSpan(c, s, contents, levels, l, p, i);
      var g := KeyPos(s, levels[l], p, i);
      NodeEnd(c, s, contents, levels, l - 1, g);
      var v := Items(s, levels[l - 1][g]);
      CountAtLeast(c, s, contents, levels, l - 1, g, |v|);
      assert v[..|v|] == v;
    }
  }

  lemma LeafAnswer(c: Config, s: Store, contents: seq<Item>, levels: seq<seq<nat>>, l: nat, p: nat, i: nat, r: int)
    requires Layered(c, s, contents, levels) && l < |levels| && p < |levels[l]| && i < |Items(s, levels[l][p])|
    requires Items(s, levels[l][p])[i].nodeId == 0 && contents != [] && Rank(contents[0]) < r
    requires Seeks(Below(s, contents, levels, l), r - 1, KeyPos(s, levels[l], p, i))
    ensures NodeStart(s, levels[l], p).count + Total(s, Items(s, levels[l][p])[..i]).count + 1
            == LowerBound(contents, r)
  {
    hide Rank, Concat, Items, Total, LevelsOk, LowerBound, Seeks;
    if l > 0 {
      ChildSpan(c, s, contents, levels, l, p, i);
    }
    LeafPartCount(c, s, contents, levels, p, i);
    StartIsPrefix(c, s, contents, levels, 0, p);
    LowerBoundFound(contents, r, KeyPos(s, levels[0], p, i));
  }

  lemma InnerAnswer(c: Config, s: Store, contents: seq<Item>, levels: seq<seq<nat>>, l: nat, p: nat, i: nat)
    requires Layered(c, s, contents, levels) && l < |levels| && p < |levels[l]| && i < |Items(s, levels[l][p])|
    requires Items(s, levels[l][p])[i].nodeId != 0
    ensures l > 0
    ensures var g := KeyPos(s, levels[l], p, i);
            var w := Items(s, levels[l][p]);
            && g < |levels[l - 1]| && w[i].nodeId == levels[l - 1][g] && w[i].nodeId in s
            && NodeStart(s, levels[l - 1], g).count == NodeStart(s, levels[l], p).count + Total(s, w[..i]).count
            && Below(s, contents, levels, l) == Index(s, levels[l - 1])
  {
    hide Rank, Concat, Items, Total, LevelsOk, AscendingItems;
    if l == 0 {
      LeafSpan(c, s, contents, levels, p, i);
    }
    ChildSpan(c, s, contents, levels, l, p, i);
  }
}
