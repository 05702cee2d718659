/** The repository's own check of a tree: it walks all nodes and then the chain of leaves. A valid tree passes it, and
    whatever passes it has every node sized, weighed, ordered and indexed as the invariant says. */
module BTreeVerify {
  import opened Types
  import opened Accumulators
  import opened SortedItems
  import opened BTreeNodes
  import opened BTreeLevels
  import opened BTreeSearch
  import opened BTreeTask
  import opened BTreeOffsets
  import opened BTreeRows
  import opened NodeSlots
  import opened BTrees

  /** What the walk has seen. */
  datatype Context = Context(leafDepth: Option<nat>, allNodeIds: set<nat>, leafNodeIds: seq<nat>)

  /** How many nodes of level `m` lie below the first `p` nodes of level `l`. */
  ghost function Reach(s: Store, levels: seq<seq<nat>>, l: nat, p: nat, m: nat): nat
    requires m <= l < |levels| && p <= |levels[l]|
  {
    if m == l then p
    else
      var below := |Concat(s, levels[l][..p])|;
      if below <= |levels[l - 1]| then Reach(s, levels, l - 1, below, m) else 0
  }

  lemma {:induction false} ReachBounds(c: Config, s: Store, contents: seq<Item>, levels: seq<seq<nat>>, l: nat,
          p: nat, m: nat)
    requires Layered(c, s, contents, levels) && m <= l < |levels| && p <= |levels[l]|
    ensures Reach(s, levels, l, p, m) <= |levels[m]|
    ensures p == 0 ==> Reach(s, levels, l, p, m) == 0
    ensures p == |levels[l]| ==> Reach(s, levels, l, p, m) == |levels[m]|
  {
    hide Concat, LevelOk, LevelsOk, AscendingItems;
    if m < l {
      LevelFacts(c, s, contents, levels, l, p);
      assert levels[l][..|levels[l]|] == levels[l];
      NoKeysBefore(s, levels[l]);
      ReachBounds(c, s, contents, levels, l - 1, |Concat(s, levels[l][..p])|, m);
    }
  }

  lemma NoKeysBefore(s: Store, ids: seq<nat>)
    ensures |Concat(s, ids[..0])| == 0
  {
    assert ids[..0] == [];
  }

  /** Walking over the children of a node reaches what the node reaches. */
  lemma ReachChildren(c: Config, s: Store, contents: seq<Item>, levels: seq<seq<nat>>, l: nat, p: nat, m: nat)
    requires Layered(c, s, contents, levels) && m < l < |levels| && p < |levels[l]|
    ensures var g, n := KeyPos(s, levels[l], p, 0), |Items(s, levels[l][p])|;
            && g + n <= |levels[l - 1]|
            && Reach(s, levels, l, p, m) == Reach(s, levels, l - 1, g, m)
            && Reach(s, levels, l, p + 1, m) == Reach(s, levels, l - 1, g + n, m)
  {
    hide Concat, LevelOk, LevelsOk, AscendingItems, Items;
    LevelFacts(c, s, contents, levels, l, p);
    LevelFacts(c, s, contents, levels, l, p + 1);
    ConcatAround(s, levels[l], p);
  }

  // ---------- What has been seen ----------

  /** On level `m` exactly the nodes below the first `p` nodes of level `l` have been seen. */
  ghost predicate SeenAt(s: Store, levels: seq<seq<nat>>, l: nat, p: nat, ids: set<nat>, m: nat)
    requires m <= l < |levels| && p <= |levels[l]|
  {
    forall j :: 0 <= j < |levels[m]| ==> (levels[m][j] in ids <==> j < Reach(s, levels, l, p, m))
  }

  ghost predicate Seen(s: Store, levels: seq<seq<nat>>, l: nat, p: nat, ids: set<nat>)
    requires l < |levels| && p <= |levels[l]|
  {
    forall m :: 0 <= m <= l ==> SeenAt(s, levels, l, p, ids, m)
  }

  ghost predicate CtxOk(s: Store, levels: seq<seq<nat>>, l: nat, p: nat, ctx: Context)
    requires l < |levels| && p <= |levels[l]|
  {
    var n := Reach(s, levels, l, p, 0);
    && Seen(s, levels, l, p, ctx.allNodeIds) && n <= |levels[0]| && ctx.leafNodeIds == levels[0][..n]
    && ctx.leafDepth == if n == 0 then None else Some(|levels| - 1)
  }

  /** Nodes above level `l` have not been touched. */
  ghost predicate UpperKept(levels: seq<seq<nat>>, l: int, ids: set<nat>, ids': set<nat>)
    requires l < |levels|
  {
    forall id :: (forall m :: 0 <= m <= l ==> id !in levels[m]) ==> (id in ids <==> id in ids')
  }

  lemma NotSeenYet(s: Store, levels: seq<seq<nat>>, l: nat, p: nat, ctx: Context)
    requires l < |levels| && p < |levels[l]| && CtxOk(s, levels, l, p, ctx)
    ensures levels[l][p] !in ctx.allNodeIds
  {
    assert SeenAt(s, levels, l, p, ctx.allNodeIds, l);
  }

  /** Entering a node: its children's levels are as far as the node's. */
  lemma EnterNode(c: Config, s: Store, contents: seq<Item>, levels: seq<seq<nat>>, l: nat, p: nat, ctx: Context)
    requires Layered(c, s, contents, levels) && AllDistinct(levels) && 0 < l < |levels| && p < |levels[l]|
             && CtxOk(s, levels, l, p, ctx)
    ensures var g := KeyPos(s, levels[l], p, 0);
            g <= |levels[l - 1]| && CtxOk(s, levels, l - 1, g, ctx.(allNodeIds := ctx.allNodeIds + {levels[l][p]}))
  {
    hide Concat, LevelsOk, AscendingItems, Reach, KeyPos, Items;
    var g, ids := KeyPos(s, levels[l], p, 0), ctx.allNodeIds + {levels[l][p]};
    ReachChildren(c, s, contents, levels, l, p, 0);
    var below := l - 1;
    forall m | 0 <= m <= below ensures SeenAt(s, levels, below, g, ids, m) {
      ReachChildren(c, s, contents, levels, l, p, m);
      assert SeenAt(s, levels, l, p, ctx.allNodeIds, m) && Apart(levels[m], levels[l]);
    }
  }

  /** Leaving a node after all its children. */
  lemma LeaveNode(c: Config, s: Store, contents: seq<Item>, levels: seq<seq<nat>>, l: nat, p: nat, ctx: Context,
          ctx': Context)
    requires Layered(c, s, contents, levels) && AllDistinct(levels) && 0 < l < |levels| && p < |levels[l]|
             && CtxOk(s, levels, l, p, ctx)
    requires KeyPos(s, levels[l], p, |Items(s, levels[l][p])|) <= |levels[l - 1]|
    requires CtxOk(s, levels, l - 1, KeyPos(s, levels[l], p, |Items(s, levels[l][p])|), ctx')
    requires UpperKept(levels, l - 1, ctx.allNodeIds + {levels[l][p]}, ctx'.allNodeIds)
    ensures CtxOk(s, levels, l, p + 1, ctx') && UpperKept(levels, l, ctx.allNodeIds, ctx'.allNodeIds)
  {
    hide Concat, LevelsOk, AscendingItems, Items;
    ReachChildren(c, s, contents, levels, l, p, 0);
    var next := p + 1;
    forall m | 0 <= m <= l ensures SeenAt(s, levels, l, next, ctx'.allNodeIds, m) {
      if m < l {
        ReachChildren(c, s, contents, levels, l, p, m);
        assert SeenAt(s, levels, l - 1, KeyPos(s, levels[l], p, |Items(s, levels[l][p])|), ctx'.allNodeIds, m);
      } else {
        LeaveOwnLevel(s, levels, l, p, ctx, ctx');
      }
    }
  }

  lemma LeaveOwnLevel(s: Store, levels: seq<seq<nat>>, l: nat, p: nat, ctx: Context, ctx': Context)
    requires AllDistinct(levels) && 0 < l < |levels| && p < |levels[l]| && CtxOk(s, levels, l, p, ctx)
    requires UpperKept(levels, l - 1, ctx.allNodeIds + {levels[l][p]}, ctx'.allNodeIds)
    ensures SeenAt(s, levels, l, p + 1, ctx'.allNodeIds, l)
  {
    hide Concat;
    assert SeenAt(s, levels, l, p, ctx.allNodeIds, l);
    forall j | 0 <= j < |levels[l]| ensures levels[l][j] in ctx'.allNodeIds <==> j < p + 1 {
      forall m | 0 <= m <= l - 1 ensures levels[l][j] !in levels[m] {
        assert Apart(levels[m], levels[l]);
      }
      assert Distinct(levels[l]);
    }
  }

  /** A leaf is noted. */
  lemma LeaveLeaf(s: Store, levels: seq<seq<nat>>, p: nat, ctx: Context, ctx': Context)
    requires AllDistinct(levels) && |levels| > 0 && p < |levels[0]| && CtxOk(s, levels, 0, p, ctx)
    requires ctx' == Context(Some(|levels| - 1), ctx.allNodeIds + {levels[0][p]}, ctx.leafNodeIds + [levels[0][p]])
    ensures CtxOk(s, levels, 0, p + 1, ctx') && UpperKept(levels, 0, ctx.allNodeIds, ctx'.allNodeIds)
  {
    assert SeenAt(s, levels, 0, p, ctx.allNodeIds, 0) && Distinct(levels[0]);
    assert SeenAt(s, levels, 0, p + 1, ctx'.allNodeIds, 0);
  }

  // ---------- One node ----------

  /** Everything the walk checks about the node itself. */
  lemma NodePasses(c: Config, s: Store, contents: seq<Item>, levels: seq<seq<nat>>, l: nat, p: nat)
    requires Layered(c, s, contents, levels) && l < |levels| && p < |levels[l]|
    ensures levels[l][p] in s
    ensures var n := s[levels[l][p]];
            && 1 <= |n.items| <= c.maxItems && (n.nextSibling != 0 ==> |n.items| >= c.minItems)
            && (n.items[0].nodeId == 0 <==> l == 0) && NodeWeight(n) == Total(s, n.items)
            && Ascending(n.items)
  {
    hide Concat, LevelsOk, AscendingItems, Total, KeyPos;
    LevelFacts(c, s, contents, levels, l, p);
    NodeEnd(c, s, contents, levels, l, p);
    assert LinkOk(s, levels[l], p) && SizeOk(c, s, levels[l], p);
    if l == 0 {
      LeafSpan(c, s, contents, levels, p, 0);
    } else {
      ChildSpan(c, s, contents, levels, l, p, 0);
    }
    BelowFacts(c, s, contents, levels, |levels|, l);
    ConcatAround(s, levels[l], p);
    AscendingPart(Concat(s, levels[l][..p]), Items(s, levels[l][p]), Concat(s, levels[l][p + 1..]));
  }

  /** Everything it checks about one key, and what the key adds up to. */
  lemma KeyPasses(c: Config, s: Store, contents: seq<Item>, levels: seq<seq<nat>>, l: nat, p: nat, i: nat)
    requires Layered(c, s, contents, levels) && l < |levels| && p < |levels[l]| && levels[l][p] in s
             && i < |s[levels[l][p]].items|
    ensures var w := s[levels[l][p]].items;
            var k := w[i];
            && (k.nodeId == 0 <==> l == 0)
            && Total(s, w[..i + 1])
               == Plus(Total(s, w[..i]),
                       if k.nodeId == 0 || k.nodeId !in s then ItemWeight(k.item) else NodeWeight(s[k.nodeId]))
            && (l > 0 ==> k.nodeId in s && s[k.nodeId].items != [] && s[k.nodeId].items[0].item == k.item)
            && (l > 0 ==>
                KeyPos(s, levels[l], p, i) < |levels[l - 1]| && levels[l - 1][KeyPos(s, levels[l], p, i)] == k.nodeId)
  {
    hide Concat, LevelsOk, AscendingItems, Total, Plus;
    NodeEnd(c, s, contents, levels, l, p);
    var w := s[levels[l][p]].items;
    if l == 0 {
      LeafSpan(c, s, contents, levels, p, i);
      assert w[..i + 1] == w[..i] + [w[i]];
      TotalConcat(s, w[..i], [w[i]]);
      TotalOne(s, w[i]);
    } else {
      ChildSpan(c, s, contents, levels, l, p, i);
      NodeEnd(c, s, contents, levels, l - 1, KeyPos(s, levels[l], p, i));
    }
  }

  /** What the walk establishes about a node of any store. */
  ghost predicate NodeChecked(c: Config, s: Store, slots: SlotStore, id: nat) {
    && id in s && 1 <= |s[id].items| <= c.maxItems && (s[id].nextSibling != 0 ==> |s[id].items| >= c.minItems)
    && WeightOk(s, id) && Ascending(s[id].items) && Indexed(s, s[id].items, |s[id].items|)
    && id in slots && ZeroFrom(slots[id], |s[id].items|)
  }

  /** No key points nowhere. */
  ghost predicate Closed(s: Store) {
    forall id :: id in s ==>
      forall i :: 0 <= i < |s[id].items| && s[id].items[i].nodeId != 0 ==> s[id].items[i].nodeId in s
  }

  /** Every node has its slots, and its keys are what the used ones hold. */
  ghost predicate Shown(s: Store, slots: SlotStore) {
    forall id :: id in s ==> id in slots && (|s[id].items| <= |slots[id]| ==> slots[id][..|s[id].items|] == s[id].items)
  }

  // ---------- Leaves ----------

  ghost predicate IsLeaf(s: Store, id: nat) {
    id in s && s[id].items != [] && s[id].items[0].nodeId == 0
  }

  /** Subtrees with the roots `top` at some depth were walked: their nodes are `rows`, none of them seen before, and
      their leaves were listed in order. */
  ghost predicate Walked(s: Store, top: seq<nat>, depth: nat, ctx0: Context, ctx: Context, count: int,
                         rows: seq<seq<nat>>) {
    && RowsOk(s, rows) && rows[0] == top && Counted(s, rows, count)
    && ctx.leafDepth == Some(depth + |rows| - 1) && (ctx0.leafDepth.Some? ==> ctx.leafDepth == ctx0.leafDepth)
    && ctx.leafNodeIds == ctx0.leafNodeIds + LastRow(rows)
    && ctx0.allNodeIds <= ctx.allNodeIds && Covers(rows, ctx.allNodeIds - ctx0.allNodeIds)
  }

  /** A node was entered: a leaf is listed, and its depth is that of all leaves. */
  ghost predicate Entered(s: Store, id: nat, depth: nat, ctx0: Context, ctx: Context) {
    && id in s && s[id].items != [] && id !in ctx0.allNodeIds && ctx.allNodeIds == ctx0.allNodeIds + {id}
    && (ctx0.leafDepth.Some? ==> ctx.leafDepth == ctx0.leafDepth)
    && ctx.leafNodeIds == ctx0.leafNodeIds + (if IsLeaf(s, id) then [id] else [])
    && ctx.leafDepth == if IsLeaf(s, id) then Some(depth) else ctx0.leafDepth
  }

  /** The first `i` keys of a node were walked. In a leaf none of them has a child, as its leaves would be too deep. */
  ghost predicate KeysWalked(s: Store, id: nat, depth: nat, ctx0: Context, ctx: Context, i: nat, count: int,
                             rows: seq<seq<nat>>)
    requires id in s && i <= |s[id].items|
  {
    var keys := s[id].items[..i];
    if IsLeaf(s, id) || i == 0 then
      ctx == ctx0 && count == i && rows == [] && Bare(keys) && (IsLeaf(s, id) ==> ctx.leafDepth == Some(depth))
    else
      && Walked(s, Kids(keys), depth + 1, ctx0, ctx, count, rows)
      && (count == |Concat(s, LastRow(rows))| ==> Full(keys))
  }

  /** The rows below a node with those of one more key. */
  ghost function MoreRows(key: Key, rows: seq<seq<nat>>, below: seq<seq<nat>>): seq<seq<nat>> {
    if key.nodeId == 0 then rows else if |rows| == |below| then Joined(rows, below) else below
  }

  lemma NoKeysWalked(s: Store, id: nat, depth: nat, ctx0: Context, ctx: Context)
    requires Entered(s, id, depth, ctx0, ctx)
    ensures KeysWalked(s, id, depth, ctx, ctx, 0, 0, [])
  {
  }

  lemma KeyWalked(s: Store, id: nat, depth: nat, ctx0: Context, ctx: Context, ctx': Context, i: nat, count: int,
          n: int, rows: seq<seq<nat>>, below: seq<seq<nat>>)
    requires id in s && i < |s[id].items| && KeysWalked(s, id, depth, ctx0, ctx, i, count, rows)
    requires var key := s[id].items[i];
             if key.nodeId == 0 then ctx' == ctx && n == 1
             else Walked(s, [key.nodeId], depth + 1, ctx, ctx', n, below)
    ensures KeysWalked(s, id, depth, ctx0, ctx', i + 1, count + n, MoreRows(s[id].items[i], rows, below))
  {
    hide Walked, Concat, Kids, Joined;
    var keys, key := s[id].items[..i], s[id].items[i];
    assert s[id].items[..i + 1] == keys + [key];
    KidsAppend(keys, [key]);
    KidsOne(key);
    if IsLeaf(s, id) {
      if key.nodeId != 0 {
        WalkedDepth(s, [key.nodeId], depth + 1, ctx, ctx', n, below);
      }
    } else if i == 0 {
      assert keys + [key] == [key];
    } else if key.nodeId == 0 {
      assert Kids(keys) + [] == Kids(keys);
      WalkedOnce(s, Kids(keys), depth + 1, ctx0, ctx, count, rows);
    } else {
      WalkedTwice(s, Kids(keys), [key.nodeId], depth + 1, ctx0, ctx, ctx', count, n, rows, below);
    }
  }

  lemma WalkedDepth(s: Store, top: seq<nat>, depth: nat, ctx0: Context, ctx: Context, n: int, rows: seq<seq<nat>>)
    requires Walked(s, top, depth, ctx0, ctx, n, rows)
    ensures ctx.leafDepth.Some? && ctx.leafDepth.value >= depth
            && (ctx0.leafDepth.Some? ==> ctx.leafDepth == ctx0.leafDepth)
  {
  }

  /** An item of an inner node is counted, and does not belong to any leaf. */
  lemma WalkedOnce(s: Store, top: seq<nat>, depth: nat, ctx0: Context, ctx: Context, n: int, rows: seq<seq<nat>>)
    requires Walked(s, top, depth, ctx0, ctx, n, rows)
    ensures |rows| > 0 && Walked(s, top, depth, ctx0, ctx, n + 1, rows) && n + 1 > |Concat(s, LastRow(rows))|
  {
    hide RowOk, AllDistinct, Covers, NoneLoose, Concat;
  }

  /** One subtree after others. */
  lemma WalkedTwice(s: Store, a: seq<nat>, b: seq<nat>, depth: nat, ctx0: Context, ctx: Context, ctx': Context,
          m: int, n: int, rows: seq<seq<nat>>, below: seq<seq<nat>>)
    requires Walked(s, a, depth, ctx0, ctx, m, rows) && Walked(s, b, depth, ctx, ctx', n, below)
    ensures |rows| == |below| > 0 && Walked(s, a + b, depth, ctx0, ctx', m + n, Joined(rows, below))
    ensures m + n == |Concat(s, LastRow(Joined(rows, below)))| ==> m == |Concat(s, LastRow(rows))|
  {
    hide RowOk, Covers, NoneLoose, Concat, AllDistinct;
    var left, right := ctx.allNodeIds - ctx0.allNodeIds, ctx'.allNodeIds - ctx.allNodeIds;
    JoinedRows(s, rows, below, left, right);
    JoinedCount(s, rows, below, m, n);
    assert left + right == ctx'.allNodeIds - ctx0.allNodeIds;
  }

  /** The rows of a node with all its keys walked. */
  ghost function WithRoot(id: nat, rows: seq<seq<nat>>): seq<seq<nat>> {
    [[id]] + rows
  }

  lemma NodeWalked(s: Store, id: nat, depth: nat, ctx0: Context, entry: Context, ctx: Context, count: int,
          rows: seq<seq<nat>>)
    requires Entered(s, id, depth, ctx0, entry) && KeysWalked(s, id, depth, entry, ctx, |s[id].items|, count, rows)
    ensures Walked(s, [id], depth, ctx0, ctx, count, WithRoot(id, rows))
  {
    hide RowsOk, Covers, Concat, Kids;
    var items := s[id].items;
    assert items[..|items|] == items;
    if IsLeaf(s, id) {
      LeafRows(s, id);
      assert WithRoot(id, rows) == [[id]] && ctx.allNodeIds - ctx0.allNodeIds == {id};
    } else {
      var below := ctx.allNodeIds - entry.allNodeIds;
      WalkedRows(s, Kids(items), depth + 1, entry, ctx, count, rows);
      RowsUnder(s, id, rows, below);
      CountUnder(s, id, rows, count);
      assert below + {id} == ctx.allNodeIds - ctx0.allNodeIds;
    }
  }

  lemma WalkedRows(s: Store, top: seq<nat>, depth: nat, ctx0: Context, ctx: Context, n: int, rows: seq<seq<nat>>)
    requires Walked(s, top, depth, ctx0, ctx, n, rows)
    ensures |rows| > 0 && RowsOk(s, rows) && rows[0] == top && Counted(s, rows, n)
    ensures Covers(rows, ctx.allNodeIds - ctx0.allNodeIds)
  {
  }

  ghost predicate AllChecked(c: Config, s: Store, slots: SlotStore, before: set<nat>, ids: set<nat>) {
    before <= ids <= s.Keys && forall id :: id in ids && id !in before ==> NodeChecked(c, s, slots, id)
  }

  /** Node `p` of level `l` of a valid tree, with everything before it seen. */
  ghost predicate AtNode(tree: BTree, nodeId: nat, depth: nat, ctx: Context, l: nat, p: nat)
    reads tree
  {
    && Layered(tree.config, tree.nodes, tree.contents, tree.levels) && AllDistinct(tree.levels)
    && l < |tree.levels| && p < |tree.levels[l]| && nodeId == tree.levels[l][p] && depth + l + 1 == |tree.levels|
    && CtxOk(tree.nodes, tree.levels, l, p, ctx) && SlotsOk(tree.config, tree.nodes, tree.slots)
  }

  ghost predicate PastNode(tree: BTree, ctx0: Context, ctx: Context, l: nat, p: nat)
    reads tree
  {
    && l < |tree.levels| && p < |tree.levels[l]| && CtxOk(tree.nodes, tree.levels, l, p + 1, ctx)
    && UpperKept(tree.levels, l, ctx0.allNodeIds, ctx.allNodeIds)
  }

  /** Looks at the node itself: duplicates, sizes and leaf depth. */
  method CheckNode(tree: BTree, nodeId: nat, depth: nat, ctx0: Context, ghost valid: bool, ghost l: nat, ghost p: nat)
      returns (r: Result<()>, ctx: Context)
    requires nodeId in tree.nodes
    requires valid ==> AtNode(tree, nodeId, depth, ctx0, l, p)
    ensures r.Ok? ==> nodeId !in ctx0.allNodeIds && ctx.allNodeIds == ctx0.allNodeIds + {nodeId}
    ensures r.Ok? ==> Entered(tree.nodes, nodeId, depth, ctx0, ctx)
    ensures r.Ok? ==> var n := tree.nodes[nodeId];
      1 <= |n.items| <= tree.config.maxItems && (n.nextSibling != 0 ==> |n.items| >= tree.config.minItems)
    ensures valid ==> r.Ok? && (l == 0 ==> PastNode(tree, ctx0, ctx, l, p))
    ensures valid && l > 0 ==>
            p < |tree.levels[l]| && ReachedKey(tree.nodes, tree.levels, l, p, 0, ctx.allNodeIds, ctx)
  {
    hide Layered, AllDistinct, CtxOk, UpperKept, KeyPos, Total, SlotsOk;
    ctx := ctx0;
    if valid {
      NotSeenYet(tree.nodes, tree.levels, l, p, ctx);
      NodePasses(tree.config, tree.nodes, tree.contents, tree.levels, l, p);
    }
    if nodeId in ctx.allNodeIds {
      return Err("verify: saw node id again"), ctx;
    }
    ctx := ctx.(allNodeIds := ctx.allNodeIds + {nodeId});
    var node := tree.nodes[nodeId];
    if node.items == [] {
      return Err("verify: empty node"), ctx;
    }
    if node.nextSibling != 0 && |node.items| < tree.config.minItems {
      return Err("verify: too few items in node"), ctx;
    }
    if |node.items| > tree.config.maxItems {
      return Err("verify: too many items"), ctx;
    }
    if node.items[0].nodeId == 0 {
      if valid {
        LeafDepthKnown(tree.nodes, tree.levels, p, ctx0);
      }
      if ctx.leafDepth.Some? {
        if ctx.leafDepth.value != depth {
          return Err("verify: mismatch of leaf depth"), ctx;
        }
      } else {
        ctx := ctx.(leafDepth := Some(depth));
      }
      ctx := ctx.(leafNodeIds := ctx.leafNodeIds + [nodeId]);
      if valid {
        LeaveLeaf(tree.nodes, tree.levels, p, ctx0, ctx);
      }
    } else if valid {
      EnterNode(tree.config, tree.nodes, tree.contents, tree.levels, l, p, ctx0);
      KeptAtStart(tree.levels, l, ctx.allNodeIds);
    }
    r := Ok(());
  }

  /** The slots behind the used ones must be zero. */
  method CheckZeroed(tree: BTree, nodeId: nat) returns (r: Result<()>)
    requires nodeId in tree.nodes && nodeId in tree.slots && |tree.nodes[nodeId].items| <= |tree.slots[nodeId]|
    ensures r.Ok? <==> ZeroFrom(tree.slots[nodeId], |tree.nodes[nodeId].items|)
  {
    var slots := tree.slots[nodeId];
    var i := |tree.nodes[nodeId].items|;
    while i < |slots|
      invariant |tree.nodes[nodeId].items| <= i <= |slots|
      invariant forall j :: |tree.nodes[nodeId].items| <= j < i ==> slots[j] == ZERO_KEY
    {
      if slots[i] != ZERO_KEY {
        return Err("verify: memory not zeroed out");
      }
      i := i + 1;
    }
    r := Ok(());
  }

  /** A key must come before the next one. */
  method CheckOrder(tree: BTree, nodeId: nat, i: nat, ghost depth: nat, ghost ctx: Context, ghost valid: bool,
          ghost l: nat, ghost p: nat)
      returns (r: Result<()>)
    requires nodeId in tree.nodes && i < |tree.nodes[nodeId].items| && Ascending(tree.nodes[nodeId].items[..i + 1])
    requires valid ==> AtNode(tree, nodeId, depth, ctx, l, p)
    ensures var items := tree.nodes[nodeId].items;
      r.Ok? ==> Ascending(items[..if i + 1 < |items| then i + 2 else i + 1])
    ensures valid ==> r.Ok?
  {
    hide Rank, AtNode, Ascending;
    var items := tree.nodes[nodeId].items;
    if i < |items| - 1 {
      ItemOrder(items[i].item, items[i + 1].item);
      if !ItemLess(items[i].item, items[i + 1].item) {
        if valid {
          OrderInTree(tree, nodeId, depth, ctx, l, p, i);
        }
        return Err("verify: items out of order");
      }
      OrderedNext(items, i);
    }
    r := Ok(());
  }

  /** What is checked of a node after its keys. */
  method CheckTotals(tree: BTree, nodeId: nat, accum: Sum, accumCount: int) returns (r: Result<()>)
    requires SlotsGiven(tree) && nodeId in tree.nodes && |tree.nodes[nodeId].items| <= tree.config.maxItems
    ensures nodeId in tree.slots
    ensures r.Ok? <==> ZeroFrom(tree.slots[nodeId], |tree.nodes[nodeId].items|)
                       && Weight(accum, accumCount) == NodeWeight(tree.nodes[nodeId])
  {
    hide ZeroFrom;
    SlotsOfNode(tree, nodeId);
    r := CheckZeroed(tree, nodeId);
    if r.Err? {
      return;
    }
    if accumCount != tree.nodes[nodeId].accumCount {
      r := Err("verify: accumCount mismatch");
      return;
    }
    if accum != tree.nodes[nodeId].accum {
      r := Err("verify: accum mismatch");
      return;
    }
  }

  /** Walks the subtree of a node and adds up its items. It reports an error where the source throws one. In a valid
      tree it finds none; in any store, the nodes it has newly seen without an error are as NodeChecked says. */
  method VerifyNode(tree: BTree, nodeId: nat, depth: nat, ctx0: Context, ghost valid: bool, ghost l: nat, ghost p: nat)
      returns (r: Result<()>, ctx: Context, accum: Sum, accumCount: int, ghost rows: seq<seq<nat>>)
    requires nodeId in tree.nodes && Closed(tree.nodes) && 0 !in tree.nodes && ctx0.allNodeIds <= tree.nodes.Keys
    requires SlotsGiven(tree)
    requires valid ==> AtNode(tree, nodeId, depth, ctx0, l, p)
    ensures r.Ok? ==> nodeId in ctx.allNodeIds && Weight(accum, accumCount) == NodeWeight(tree.nodes[nodeId])
    ensures r.Ok? ==> AllChecked(tree.config, tree.nodes, tree.slots, ctx0.allNodeIds, ctx.allNodeIds)
    ensures r.Ok? ==> Walked(tree.nodes, [nodeId], depth, ctx0, ctx, accumCount, rows)
    ensures valid ==> r.Ok? && PastNode(tree, ctx0, ctx, l, p)
    decreases |tree.nodes.Keys - ctx0.allNodeIds|, 0
  {
    hide Rank, AtNode, PastNode, Total, NodeChecked, Ascending, Indexed, Closed, ReachedKey, WeightOk, AllChecked,
         KeyWeight, Entered, KeysWalked, Walked, WithRoot, MoreRows, ZeroFrom, SlotsGiven, Plus, AddMod;
    accum, accumCount, rows := 0, 0, [];
    if valid {
      AtSomeNode(tree, nodeId, depth, ctx0, l, p);
    }
    r, ctx := CheckNode(tree, nodeId, depth, ctx0, valid, l, p);
    if r.Err? {
      return;
    }
    var node := tree.nodes[nodeId];
    ghost var entry, ids := ctx, ctx.allNodeIds;
    StartsChecking(tree.config, tree.nodes, tree.slots, ids, node.items);
    SeenMore(tree.nodes.Keys, ctx0.allNodeIds, ids, nodeId);
    NoKeysWalked(tree.nodes, nodeId, depth, ctx0, ctx);
    var i := 0;
    while i < |node.items|
      invariant 0 <= i <= |node.items| && Weight(accum, accumCount) == Total(tree.nodes, node.items[..i])
      invariant Ascending(node.items[..if i < |node.items| then i + 1 else i]) && Indexed(tree.nodes, node.items, i)
      invariant ids <= ctx.allNodeIds <= tree.nodes.Keys
                && AllChecked(tree.config, tree.nodes, tree.slots, ids, ctx.allNodeIds)
      invariant KeysWalked(tree.nodes, nodeId, depth, entry, ctx, i, accumCount, rows)
      invariant valid ==> AtNode(tree, nodeId, depth, ctx0, l, p)
      invariant valid && l == 0 ==> PastNode(tree, ctx0, ctx, l, p)
      invariant valid && l > 0 ==>
                l < |tree.levels| && p < |tree.levels[l]| && ReachedKey(tree.nodes, tree.levels, l, p, i, ids, ctx)
    {
      SeenStill(tree.nodes.Keys, ids, ctx.allNodeIds);
      ghost var before := ctx;
      var keyAccum, keyCount;
      ghost var below;
      r, ctx, keyAccum, keyCount, below := VerifyKey(tree, nodeId, i, depth, ctx, valid, ctx0, l, p, ids);
      if r.Err? {
        return;
      }
      KeyWalked(tree.nodes, nodeId, depth, entry, before, ctx, i, accumCount, keyCount, rows, below);
      rows := MoreRows(node.items[i], rows, below);
      IndexedNext(tree.nodes, node.items, i);
      CheckedMore(tree.config, tree.nodes, tree.slots, ids, before.allNodeIds, ctx.allNodeIds);
      KeyAdded(tree.nodes, node.items, i, accum, accumCount, keyAccum, keyCount);
      accum := AddMod(accum, keyAccum);
      accumCount := accumCount + keyCount;
      r := CheckOrder(tree, nodeId, i, depth, ctx0, valid, l, p);
      if r.Err? {
        return;
      }
      i := i + 1;
    }
    assert node.items[..|node.items|] == node.items;
    if valid {
      WeightInTree(tree, nodeId, depth, ctx0, l, p);
    }
    r := CheckTotals(tree, nodeId, accum, accumCount);
    if r.Err? {
      return;
    }
    if valid && l > 0 {
      NodeDone(tree, nodeId, depth, ctx0, ctx, l, p, ids);
    }
    CheckedSelf(tree.config, tree.nodes, tree.slots, ctx0.allNodeIds, ctx.allNodeIds, nodeId);
    NodeWalked(tree.nodes, nodeId, depth, ctx0, entry, ctx, accumCount, rows);
    rows := WithRoot(nodeId, rows);
    r := Ok(());
  }

  /** One key of a node: what it adds up to, after the walk of its subtree if it has one. */
  method VerifyKey(tree: BTree, nodeId: nat, i: nat, depth: nat, ctx0: Context, ghost valid: bool,
          ghost entry: Context, ghost l: nat, ghost p: nat, ghost ids: set<nat>)
      returns (r: Result<()>, ctx: Context, accum: Sum, accumCount: int, ghost rows: seq<seq<nat>>)
    requires nodeId in tree.nodes && i < |tree.nodes[nodeId].items| && Closed(tree.nodes) && 0 !in tree.nodes
    requires ctx0.allNodeIds <= tree.nodes.Keys && SlotsGiven(tree)
    requires valid ==> AtNode(tree, nodeId, depth, entry, l, p)
    requires valid && l > 0 ==>
             l < |tree.levels| && p < |tree.levels[l]| && ReachedKey(tree.nodes, tree.levels, l, p, i, ids, ctx0)
    ensures var k := tree.nodes[nodeId].items[i];
      r.Ok? ==> && Weight(accum, accumCount) == KeyWeight(tree.nodes, k)
                && (k.nodeId != 0 ==>
                    Items(tree.nodes, k.nodeId) != [] && Items(tree.nodes, k.nodeId)[0].item == k.item)
    ensures r.Ok? ==>
            AllChecked(tree.config, tree.nodes, tree.slots, ctx0.allNodeIds, ctx.allNodeIds)
              && ctx0.allNodeIds <= ctx.allNodeIds <= tree.nodes.Keys
    ensures r.Ok? ==> if tree.nodes[nodeId].items[i].nodeId == 0 then ctx == ctx0 && accumCount == 1
                      else Walked(tree.nodes, [tree.nodes[nodeId].items[i].nodeId], depth + 1, ctx0, ctx, accumCount,
                                  rows)
    ensures valid ==> r.Ok? && (l == 0 ==> ctx == ctx0)
    ensures valid && l > 0 ==>
            l < |tree.levels| && p < |tree.levels[l]| && ReachedKey(tree.nodes, tree.levels, l, p, i + 1, ids, ctx)
    decreases |tree.nodes.Keys - ctx0.allNodeIds|, 1
  {
    hide Rank, AtNode, PastNode, Total, NodeChecked, Closed, ReachedKey, WeightOk, ChildPos, Walked,
         SlotsGiven;
    KeyIsClosed(tree.nodes, nodeId, i);
    if valid {
      KeyInTree(tree, nodeId, depth, entry, ctx0, l, p, i, ids);
    }
    ctx, rows := ctx0, [];
    var key := tree.nodes[nodeId].items[i];
    if key.nodeId == 0 {
      r, accum, accumCount := Ok(()), IdNum(key.item.id), 1;
    } else {
      var firstChild := tree.nodes[key.nodeId];
      if firstChild.items == [] || firstChild.items[0].item != key.item {
        r, accum, accumCount := Err("verify: key does not match child's first key"), 0, 0;
        return;
      }
      r, ctx, accum, accumCount, rows :=
        VerifyNode(tree, key.nodeId, depth + 1, ctx, valid, if l > 0 then l - 1 else 0, ChildPos(tree, valid, l, p, i));
      if valid {
        ChildDone(tree, nodeId, depth, entry, ctx0, ctx, l, p, i, ids);
      }
    }
  }

  // ---------- Facts about any store ----------

  /** Any store: every node has its slots, and the used ones hold its keys. */
  ghost predicate SlotsGiven(tree: BTree)
    reads tree
  {
    Shown(tree.nodes, tree.slots) && forall id :: id in tree.slots ==> |tree.slots[id]| == tree.config.maxItems + 1
  }

  lemma SlotsOfNode(tree: BTree, id: nat)
    requires SlotsGiven(tree) && id in tree.nodes && |tree.nodes[id].items| <= tree.config.maxItems
    ensures id in tree.slots && |tree.nodes[id].items| <= |tree.slots[id]|
  {
  }

  lemma StartsChecking(c: Config, s: Store, slots: SlotStore, ids: set<nat>, keys: seq<Key>)
    requires ids <= s.Keys && |keys| > 0
    ensures Total(s, keys[..0]) == Weight(0, 0) && Ascending(keys[..1]) && Indexed(s, keys, 0)
            && AllChecked(c, s, slots, ids, ids)
  {
  }

  lemma SeenMore(all: set<nat>, before: set<nat>, ids: set<nat>, id: nat)
    requires before <= all && id in all && id !in before && ids == before + {id}
    ensures ids <= all && |all - ids| < |all - before|
  {
    assert all - before == (all - ids) + {id};
  }

  lemma SeenStill(all: set<nat>, ids: set<nat>, more: set<nat>)
    requires ids <= more <= all
    ensures |all - more| <= |all - ids|
  {
    assert all - ids == (all - more) + (more - ids);
  }

  lemma KeyAdded(s: Store, keys: seq<Key>, i: nat, accum: Sum, count: int, keyAccum: Sum, keyCount: int)
    requires i < |keys| && Weight(accum, count) == Total(s, keys[..i])
    requires Weight(keyAccum, keyCount) == KeyWeight(s, keys[i])
    ensures Weight(AddMod(accum, keyAccum), count + keyCount) == Total(s, keys[..i + 1])
  {
    hide Total, KeyWeight;
    assert keys[..i + 1] == keys[..i] + [keys[i]];
    TotalConcat(s, keys[..i], [keys[i]]);
    TotalOne(s, keys[i]);
  }

  lemma KeyIsClosed(s: Store, id: nat, i: nat)
    requires Closed(s) && id in s && i < |s[id].items|
    ensures s[id].items[i].nodeId != 0 ==> s[id].items[i].nodeId in s
  {
  }

  lemma IndexedNext(s: Store, keys: seq<Key>, i: nat)
    requires i < |keys| && Indexed(s, keys, i)
    requires keys[i].nodeId != 0 ==> Items(s, keys[i].nodeId) != [] && Items(s, keys[i].nodeId)[0].item == keys[i].item
    ensures Indexed(s, keys, i + 1)
  {
  }

  lemma OrderedNext(keys: seq<Key>, i: nat)
    requires i + 1 < |keys| && Ascending(keys[..i + 1]) && Rank(keys[i].item) < Rank(keys[i + 1].item)
    ensures Ascending(keys[..i + 2])
  {
    hide Rank;
    var front, more := keys[..i + 1], keys[..i + 2];
    forall a, b | 0 <= a < b < |more| ensures Rank(more[a].item) < Rank(more[b].item) {
      assert a < i ==> Rank(front[a].item) < Rank(front[i].item);
      assert b <= i ==> Rank(front[a].item) < Rank(front[b].item);
    }
  }

  lemma CheckedMore(c: Config, s: Store, slots: SlotStore, ids: set<nat>, before: set<nat>, more: set<nat>)
    requires AllChecked(c, s, slots, ids, before) && AllChecked(c, s, slots, before, more)
    ensures AllChecked(c, s, slots, ids, more) && ids <= more <= s.Keys
  {
    hide NodeChecked;
  }

  lemma CheckedSelf(c: Config, s: Store, slots: SlotStore, before: set<nat>, ids: set<nat>, id: nat)
    requires AllChecked(c, s, slots, before + {id}, ids) && id in s
    requires 1 <= |s[id].items| <= c.maxItems && (s[id].nextSibling != 0 ==> |s[id].items| >= c.minItems)
    requires NodeWeight(s[id]) == Total(s, s[id].items) && Ascending(s[id].items)
             && Indexed(s, s[id].items, |s[id].items|)
    requires id in slots && ZeroFrom(slots[id], |s[id].items|)
    ensures AllChecked(c, s, slots, before, ids) && id in ids
  {
    hide Total, Ascending, Indexed, ZeroFrom;
    assert NodeChecked(c, s, slots, id);
    hide NodeChecked;
  }

  // ---------- Facts about a valid tree ----------

  ghost function ChildPos(tree: BTree, valid: bool, l: nat, p: nat, i: nat): nat
    reads tree
  {
    if valid && l < |tree.levels| && p < |tree.levels[l]| then KeyPos(tree.nodes, tree.levels[l], p, i) else 0
  }

  lemma AtSomeNode(tree: BTree, nodeId: nat, depth: nat, ctx: Context, l: nat, p: nat)
    requires AtNode(tree, nodeId, depth, ctx, l, p)
    ensures l < |tree.levels| && p < |tree.levels[l]|
  {
  }

  lemma KeyInTree(tree: BTree, nodeId: nat, depth: nat, ctx0: Context, ctx: Context, l: nat, p: nat, i: nat,
          ids: set<nat>)
    requires AtNode(tree, nodeId, depth, ctx0, l, p) && nodeId in tree.nodes && i < |tree.nodes[nodeId].items|
    requires l > 0 ==>
             l < |tree.levels| && p < |tree.levels[l]| && ReachedKey(tree.nodes, tree.levels, l, p, i, ids, ctx)
    ensures var k := tree.nodes[nodeId].items[i];
            && (k.nodeId == 0 <==> l == 0)
            && (l > 0 ==>
                k.nodeId in tree.nodes && tree.nodes[k.nodeId].items != []
                  && tree.nodes[k.nodeId].items[0].item == k.item)
            && (l > 0 ==> AtNode(tree, k.nodeId, depth + 1, ctx, l - 1, ChildPos(tree, true, l, p, i)))
  {
    hide Layered, AllDistinct, CtxOk, Total, Plus, KeyPos, SlotsOk;
    KeyPasses(tree.config, tree.nodes, tree.contents, tree.levels, l, p, i);
  }

  lemma ChildDone(tree: BTree, nodeId: nat, depth: nat, ctx0: Context, before: Context, ctx: Context, l: nat, p: nat,
          i: nat, ids: set<nat>)
    requires AtNode(tree, nodeId, depth, ctx0, l, p) && nodeId in tree.nodes && i < |tree.nodes[nodeId].items|
    requires 0 < l < |tree.levels| && p < |tree.levels[l]| && ReachedKey(tree.nodes, tree.levels, l, p, i, ids, before)
    requires PastNode(tree, before, ctx, l - 1, ChildPos(tree, true, l, p, i))
    ensures ReachedKey(tree.nodes, tree.levels, l, p, i + 1, ids, ctx)
  {
    hide Layered, AllDistinct, CtxOk, KeyPos, ReachedKey, SlotsOk;
    NextKeyReached(tree.nodes, tree.levels, l, p, i, ids, before, ctx);
  }

  lemma OrderInTree(tree: BTree, nodeId: nat, depth: nat, ctx: Context, l: nat, p: nat, i: nat)
    requires AtNode(tree, nodeId, depth, ctx, l, p) && nodeId in tree.nodes && i + 1 < |tree.nodes[nodeId].items|
    ensures Rank(tree.nodes[nodeId].items[i].item) < Rank(tree.nodes[nodeId].items[i + 1].item)
  {
    hide Rank, Layered, AllDistinct, CtxOk, Total, SlotsOk;
    NodePasses(tree.config, tree.nodes, tree.contents, tree.levels, l, p);
  }

  lemma WeightInTree(tree: BTree, nodeId: nat, depth: nat, ctx: Context, l: nat, p: nat)
    requires AtNode(tree, nodeId, depth, ctx, l, p) && nodeId in tree.nodes
    ensures NodeWeight(tree.nodes[nodeId]) == Total(tree.nodes, tree.nodes[nodeId].items)
    ensures nodeId in tree.slots && ZeroFrom(tree.slots[nodeId], |tree.nodes[nodeId].items|)
  {
    hide Rank, Layered, AllDistinct, CtxOk, Total, SlotsOk, ZeroFrom;
    SlotsOf(tree.config, tree.nodes, tree.slots, nodeId);
    NodePasses(tree.config, tree.nodes, tree.contents, tree.levels, l, p);
  }

  lemma NodeDone(tree: BTree, nodeId: nat, depth: nat, ctx0: Context, ctx: Context, l: nat, p: nat, ids: set<nat>)
    requires AtNode(tree, nodeId, depth, ctx0, l, p) && nodeId in tree.nodes && ids == ctx0.allNodeIds + {nodeId}
    requires 0 < l < |tree.levels| && p < |tree.levels[l]|
    requires ReachedKey(tree.nodes, tree.levels, l, p, |tree.nodes[nodeId].items|, ids, ctx)
    ensures PastNode(tree, ctx0, ctx, l, p)
  {
    hide Layered, AllDistinct, CtxOk, KeyPos, ReachedKey, UpperKept, SlotsOk;
    AllKeysReached(tree.config, tree.nodes, tree.contents, tree.levels, l, p, ids, ctx0, ctx);
  }

  lemma LeafDepthKnown(s: Store, levels: seq<seq<nat>>, p: nat, ctx: Context)
    requires |levels| > 0 && p <= |levels[0]| && CtxOk(s, levels, 0, p, ctx)
    ensures ctx.leafDepth == None || ctx.leafDepth == Some(|levels| - 1)
  {
  }

  lemma KeptAtStart(levels: seq<seq<nat>>, l: nat, ids: set<nat>)
    requires l < |levels|
    ensures UpperKept(levels, l - 1, ids, ids)
  {
  }

  /** The walk over the children of a node has reached key `i`. */
  ghost predicate ReachedKey(s: Store, levels: seq<seq<nat>>, l: nat, p: nat, i: nat, ids: set<nat>, ctx: Context)
    requires 0 < l < |levels| && p < |levels[l]|
  {
    && KeyPos(s, levels[l], p, i) <= |levels[l - 1]| && CtxOk(s, levels, l - 1, KeyPos(s, levels[l], p, i), ctx)
    && UpperKept(levels, l - 1, ids, ctx.allNodeIds)
  }

  lemma NextKeyReached(s: Store, levels: seq<seq<nat>>, l: nat, p: nat, i: nat, ids: set<nat>, before: Context,
          ctx: Context)
    requires 0 < l < |levels| && p < |levels[l]| && ReachedKey(s, levels, l, p, i, ids, before)
    requires KeyPos(s, levels[l], p, i) < |levels[l - 1]|
             && CtxOk(s, levels, l - 1, KeyPos(s, levels[l], p, i) + 1, ctx)
    requires UpperKept(levels, l - 1, before.allNodeIds, ctx.allNodeIds)
    ensures ReachedKey(s, levels, l, p, i + 1, ids, ctx)
  {
    hide CtxOk, Concat;
  }

  lemma AllKeysReached(c: Config, s: Store, contents: seq<Item>, levels: seq<seq<nat>>, l: nat, p: nat, ids: set<nat>,
          ctx: Context, ctx': Context)
    requires Layered(c, s, contents, levels) && AllDistinct(levels) && 0 < l < |levels| && p < |levels[l]|
             && CtxOk(s, levels, l, p, ctx)
    requires ids == ctx.allNodeIds + {levels[l][p]} && levels[l][p] in s
             && ReachedKey(s, levels, l, p, |s[levels[l][p]].items|, ids, ctx')
    ensures CtxOk(s, levels, l, p + 1, ctx') && UpperKept(levels, l, ctx.allNodeIds, ctx'.allNodeIds)
  {
    hide CtxOk, UpperKept, AllDistinct, Layered, KeyPos;
    LeaveNode(c, s, contents, levels, l, p, ctx, ctx');
  }

  // ---------- The whole tree ----------

  lemma NothingSeen(c: Config, s: Store, contents: seq<Item>, levels: seq<seq<nat>>)
    requires Layered(c, s, contents, levels)
    ensures CtxOk(s, levels, |levels| - 1, 0, Context(None, {}, []))
  {
    hide Concat, Layered, Reach;
    LayeredNotEmpty(c, s, contents, levels);
    var l := |levels| - 1;
    ReachBounds(c, s, contents, levels, l, 0, 0);
    forall m | 0 <= m <= l ensures SeenAt(s, levels, l, 0, {}, m) {
      ReachBounds(c, s, contents, levels, l, 0, m);
    }
  }

  lemma LayeredNotEmpty(c: Config, s: Store, contents: seq<Item>, levels: seq<seq<nat>>)
    requires Layered(c, s, contents, levels)
    ensures |levels| > 0
  {
  }

  /** After the walk over the whole tree all its nodes have been seen, and no others. */
  lemma AllSeen(c: Config, s: Store, root: nat, nextId: nat, contents: seq<Item>, levels: seq<seq<nat>>, ctx: Context)
    requires TreeOk(c, s, root, nextId, contents, levels) && contents != []
    requires CtxOk(s, levels, |levels| - 1, |levels[|levels| - 1]|, ctx)
             && UpperKept(levels, |levels| - 1, {}, ctx.allNodeIds)
    ensures ctx.leafNodeIds == levels[0] && forall id :: id in ctx.allNodeIds <==> id in s
  {
    hide Concat, Reach, AllDistinct, AscendingItems, LevelsOk;
    TreeLayered(c, s, root, nextId, contents, levels);
    var l := |levels| - 1;
    ReachBounds(c, s, contents, levels, l, |levels[l]|, 0);
    forall id ensures id in ctx.allNodeIds <==> id in s {
      if InLevels(levels, id) {
        var m :| 0 <= m < |levels| && id in levels[m];
        var j :| 0 <= j < |levels[m]| && levels[m][j] == id;
        ReachBounds(c, s, contents, levels, l, |levels[l]|, m);
        assert SeenAt(s, levels, l, |levels[l]|, ctx.allNodeIds, m);
        LevelFacts(c, s, contents, levels, m, 0);
      }
    }
  }

  /** Position `i` of the chain of leaves: its node, the one before it, and the items passed. */
  ghost predicate OnChain(s: Store, contents: seq<Item>, ids: seq<nat>, i: nat, nodeId: nat, prevSibling: nat,
          prevItem: Option<Item>, total: nat) {
    && i <= |ids| && nodeId == (if i < |ids| then ids[i] else 0) && prevSibling == (if i > 0 then ids[i - 1] else 0)
    && total == |Concat(s, ids[..i])| <= |contents|
    && prevItem == if total == 0 then None else Some(contents[total - 1])
  }

  lemma ChainStarts(s: Store, contents: seq<Item>, ids: seq<nat>)
    requires |ids| > 0
    ensures OnChain(s, contents, ids, 0, ids[0], 0, None, 0)
  {
    NoKeysBefore(s, ids);
  }

  /** A leaf on the chain shows the next items. */
  lemma ChainStep(c: Config, s: Store, contents: seq<Item>, levels: seq<seq<nat>>, i: nat, nodeId: nat,
          prevSibling: nat, prevItem: Option<Item>, total: nat)
    requires Layered(c, s, contents, levels)
             && OnChain(s, contents, levels[0], i, nodeId, prevSibling, prevItem, total) && i < |levels[0]|
    ensures nodeId in s && nodeId != 0 && s[nodeId].prevSibling == prevSibling && s[nodeId].items != []
    ensures total + |s[nodeId].items| <= |contents|
    ensures forall j :: 0 <= j < |s[nodeId].items| ==> s[nodeId].items[j].item == contents[total + j]
    ensures var n := total + |s[nodeId].items|;
            OnChain(s, contents, levels[0], i + 1, s[nodeId].nextSibling, nodeId, Some(contents[n - 1]), n)
  {
    hide Concat, LevelsOk, AscendingItems, Sized, Weighed, Distinct, LeafKeys;
    LevelFacts(c, s, contents, levels, 0, i);
    LevelFacts(c, s, contents, levels, 0, i + 1);
    NodeEnd(c, s, contents, levels, 0, i);
    assert LinkOk(s, levels[0], i);
    ConcatAround(s, levels[0], i);
    StartIsPrefix(c, s, contents, levels, 0, i);
    LeafLength(contents);
    forall j | 0 <= j < |s[nodeId].items| ensures s[nodeId].items[j].item == contents[total + j] {
      LeafSpan(c, s, contents, levels, i, j);
    }
  }

  lemma LeafLength(contents: seq<Item>)
    ensures |LeafKeys(contents)| == |contents|
  {
  }

  lemma ChainEnds(c: Config, s: Store, contents: seq<Item>, levels: seq<seq<nat>>, i: nat, nodeId: nat,
          prevSibling: nat, prevItem: Option<Item>, total: nat)
    requires Layered(c, s, contents, levels) && OnChain(s, contents, levels[0], i, nodeId, prevSibling, prevItem, total)
    ensures nodeId == 0 <==> i == |levels[0]|
    ensures i == |levels[0]| ==> total == |contents|
  {
    hide Concat, LevelsOk, AscendingItems, LeafKeys;
    LevelFacts(c, s, contents, levels, 0, i);
    assert levels[0][..|levels[0]|] == levels[0];
    LeafLength(contents);
  }

  /** What following the chain establishes about any store: it runs through the first `n` leaves and out of the store,
      and their items ascend. */
  ghost predicate ChainChecked(s: Store, ids: seq<nat>, n: nat, count: int) {
    && n <= |ids| && ChainTo(s, ids, n) && Ascending(Concat(s, ids[..n])) && |Concat(s, ids[..n])| == count
    && NextOnChain(s, ids, n) !in s
  }

  /** Each of the first `n` leaves points back to the one before it, and on to the next one. */
  ghost predicate ChainTo(s: Store, ids: seq<nat>, n: nat)
    requires n <= |ids|
  {
    forall i :: 0 <= i < n ==> LinkedAt(s, ids, i)
  }

  ghost predicate LinkedAt(s: Store, ids: seq<nat>, i: nat)
    requires i < |ids|
  {
    && ids[i] in s && s[ids[i]].prevSibling == (if i > 0 then ids[i - 1] else 0)
    && (i > 0 ==> ids[i - 1] in s && s[ids[i - 1]].nextSibling == ids[i])
  }

  /** Where the chain goes on from its first `n` leaves. */
  ghost function NextOnChain(s: Store, ids: seq<nat>, n: nat): nat
    requires n <= |ids| && ChainTo(s, ids, n)
  {
    if n == 0 then if ids == [] then 0 else ids[0] else assert LinkedAt(s, ids, n - 1); s[ids[n - 1]].nextSibling
  }

  /** The leaves of a store that passes: a list linked in both directions that ends outside of the store. */
  ghost predicate ChainOk(s: Store, ids: seq<nat>) {
    ChainTo(s, ids, |ids|) && NextOnChain(s, ids, |ids|) !in s
  }

  lemma ChainNext(s: Store, ids: seq<nat>, i: nat)
    requires i < |ids| && ChainTo(s, ids, i) && NextOnChain(s, ids, i) == ids[i]
    requires ids[i] in s && s[ids[i]].prevSibling == if i > 0 then ids[i - 1] else 0
    ensures ChainTo(s, ids, i + 1) && NextOnChain(s, ids, i + 1) == s[ids[i]].nextSibling
  {
    if i > 0 {
      assert LinkedAt(s, ids, i - 1);
    }
    assert LinkedAt(s, ids, i);
  }

  lemma NeighboursAscend(items: seq<Item>, i: nat)
    requires AscendingItems(items) && 0 < i < |items|
    ensures Rank(items[i - 1]) < Rank(items[i])
  {
  }

  /** The items passed, and the last of them. */
  ghost predicate ItemsPassed(keys: seq<Key>, prevItem: Option<Item>, total: int) {
    Ascending(keys) && |keys| == total && prevItem == if keys == [] then None else Some(keys[|keys| - 1].item)
  }

  lemma ItemPassed(keys: seq<Key>, prevItem: Option<Item>, total: int, k: Key)
    requires ItemsPassed(keys, prevItem, total) && (prevItem.Some? ==> Rank(prevItem.value) < Rank(k.item))
    ensures ItemsPassed(keys + [k], Some(k.item), total + 1)
  {
    hide Rank;
    var more := keys + [k];
    forall a, b | 0 <= a < b < |more| ensures Rank(more[a].item) < Rank(more[b].item) {
      if b == |keys| && a < b - 1 {
        assert Rank(keys[a].item) < Rank(keys[b - 1].item);
      }
    }
  }

  /** Position `i` of the chain in a valid tree. */
  ghost predicate ChainInTree(tree: BTree, i: nat, nodeId: nat, prevSibling: nat, prevItem: Option<Item>, total: int)
    reads tree
  {
    && |tree.levels| > 0 && Layered(tree.config, tree.nodes, tree.contents, tree.levels) && total >= 0
    && OnChain(tree.nodes, tree.contents, tree.levels[0], i, nodeId, prevSibling, prevItem, total)
  }

  lemma ChainInTreeFacts(tree: BTree, i: nat, nodeId: nat, prevSibling: nat, prevItem: Option<Item>, total: int)
    requires ChainInTree(tree, i, nodeId, prevSibling, prevItem, total)
    ensures |tree.levels| > 0 && AscendingItems(tree.contents)
    ensures i <= |tree.levels[0]| && (nodeId == 0 <==> i == |tree.levels[0]|)
    ensures nodeId == 0 ==> total == |tree.contents|
    ensures nodeId != 0 ==>
            nodeId == tree.levels[0][i] && nodeId in tree.nodes && tree.nodes[nodeId].prevSibling == prevSibling
    ensures nodeId != 0 ==> 0 <= total && total + |tree.nodes[nodeId].items| <= |tree.contents|
    ensures nodeId != 0 ==>
            forall j :: 0 <= j < |tree.nodes[nodeId].items| ==>
              tree.nodes[nodeId].items[j].item == tree.contents[total + j]
    ensures 0 <= total <= |tree.contents| && prevItem == if total == 0 then None else Some(tree.contents[total - 1])
    ensures nodeId != 0 ==> tree.nodes[nodeId].items != [] && var n := total + |tree.nodes[nodeId].items|;
      ChainInTree(tree, i + 1, tree.nodes[nodeId].nextSibling, nodeId, Some(tree.contents[n - 1]), n)
  {
    hide Rank, Layered, Concat;
    LayeredAscends(tree.config, tree.nodes, tree.contents, tree.levels);
    ChainEnds(tree.config, tree.nodes, tree.contents, tree.levels, i, nodeId, prevSibling, prevItem, total);
    ChainNode(tree.nodes, tree.contents, tree.levels[0], i, nodeId, prevSibling, prevItem, total);
    if nodeId != 0 {
      ChainStep(tree.config, tree.nodes, tree.contents, tree.levels, i, nodeId, prevSibling, prevItem, total);
    }
  }

  /** Follows the chain of leaves. Where the chain goes on past the leaves that were seen, the source reads past the
      end of their list; this stands as an error here. */
  method VerifyLeaves(tree: BTree, ctx: Context, accumCount: int, ghost valid: bool)
      returns (r: Result<()>, ghost n: nat)
    requires |ctx.leafNodeIds| > 0 && 0 !in tree.nodes
    requires valid ==> accumCount == |tree.contents| && |tree.levels| > 0 && ctx.leafNodeIds == tree.levels[0]
                       && ChainInTree(tree, 0, ctx.leafNodeIds[0], 0, None, 0)
    ensures r.Ok? ==> ChainChecked(tree.nodes, ctx.leafNodeIds, n, accumCount)
    ensures valid ==> r.Ok?
  {
    hide Rank, ChainInTree, ItemsPassed, Ascending, Concat, LinkedAt, AscendingItems, ChainTo, NextOnChain;
    var nodeId, i: nat, totalItems: int := ctx.leafNodeIds[0], 0, 0;
    var prevItem: Option<Item> := None;
    var prevSibling := 0;
    n := 0;
    NoItemsPassed(tree.nodes, ctx.leafNodeIds);
    while nodeId in tree.nodes
      invariant valid ==> ChainInTree(tree, i, nodeId, prevSibling, prevItem, totalItems)
      invariant i <= |ctx.leafNodeIds| && prevSibling == if i > 0 then ctx.leafNodeIds[i - 1] else 0
      invariant ChainTo(tree.nodes, ctx.leafNodeIds, i) && nodeId == NextOnChain(tree.nodes, ctx.leafNodeIds, i)
      invariant ItemsPassed(Concat(tree.nodes, ctx.leafNodeIds[..i]), prevItem, totalItems)
      decreases |ctx.leafNodeIds| - i
    {
      if valid {
        ChainInTreeFacts(tree, i, nodeId, prevSibling, prevItem, totalItems);
      }
      var node := tree.nodes[nodeId];
      if i >= |ctx.leafNodeIds| || nodeId != ctx.leafNodeIds[i] {
        r := Err("verify: leaf id mismatch");
        return;
      }
      if prevSibling != node.prevSibling {
        r := Err("verify: prevSibling mismatch");
        return;
      }
      ChainNext(tree.nodes, ctx.leafNodeIds, i);
      ghost var passed := Concat(tree.nodes, ctx.leafNodeIds[..i]);
      ConcatAround(tree.nodes, ctx.leafNodeIds, i);
      ghost var start := totalItems;
      var j := 0;
      assert passed + node.items[..0] == passed;
      while j < |node.items|
        invariant 0 <= j <= |node.items| && totalItems == start + j
        invariant ItemsPassed(passed + node.items[..j], prevItem, totalItems)
        invariant valid ==> prevItem == if totalItems == 0 then None else Some(tree.contents[totalItems - 1])
      {
        if prevItem.Some? {
          if valid {
            NeighboursAscend(tree.contents, totalItems);
          }
          ItemOrder(prevItem.value, node.items[j].item);
          if !ItemLess(prevItem.value, node.items[j].item) {
            r := Err("verify: leaf item out of order");
            return;
          }
        }
        ItemPassed(passed + node.items[..j], prevItem, totalItems, node.items[j]);
        assert passed + node.items[..j] + [node.items[j]] == passed + node.items[..j + 1];
        prevItem := Some(node.items[j].item);
        totalItems := totalItems + 1;
        j := j + 1;
      }
      assert passed + node.items[..j] == passed + node.items;
      prevSibling := nodeId;
      nodeId := node.nextSibling;
      i := i + 1;
    }
    if valid {
      ChainInTreeFacts(tree, i, nodeId, prevSibling, prevItem, totalItems);
    }
    if totalItems != accumCount {
      r := Err("verify: leaf count mismatch");
      return;
    }
    n := i;
    PassedAll(Concat(tree.nodes, ctx.leafNodeIds[..i]), prevItem, totalItems);
    r := Ok(());
  }

  lemma NoItemsPassed(s: Store, ids: seq<nat>)
    requires ids != []
    ensures ItemsPassed(Concat(s, ids[..0]), None, 0) && ChainTo(s, ids, 0) && NextOnChain(s, ids, 0) == ids[0]
  {
    NoKeysBefore(s, ids);
  }

  lemma PassedAll(keys: seq<Key>, prevItem: Option<Item>, total: int)
    requires ItemsPassed(keys, prevItem, total)
    ensures Ascending(keys) && |keys| == total
  {
  }

  lemma ChainNode(s: Store, contents: seq<Item>, ids: seq<nat>, i: nat, nodeId: nat, prevSibling: nat,
          prevItem: Option<Item>, total: nat)
    requires OnChain(s, contents, ids, i, nodeId, prevSibling, prevItem, total)
    ensures i <= |ids| && total <= |contents| && (i < |ids| ==> nodeId == ids[i])
  {
    hide Concat;
  }

  lemma LayeredAscends(c: Config, s: Store, contents: seq<Item>, levels: seq<seq<nat>>)
    requires Layered(c, s, contents, levels)
    ensures AscendingItems(contents)
  {
  }

  /** Compares the nodes seen with the nodes stored. */
  method VerifyStore(tree: BTree, ctx: Context) returns (r: Result<()>)
    ensures r.Ok? <==> ctx.allNodeIds == tree.nodes.Keys
  {
    var stored := tree.nodes.Keys;
    while stored != {}
      invariant stored <= tree.nodes.Keys && forall id :: id in tree.nodes.Keys - stored ==> id in ctx.allNodeIds
      decreases stored
    {
      var id :| id in stored;
      if id !in ctx.allNodeIds {
        return Err("verify: memory leak");
      }
      stored := stored - {id};
    }
    var seen := ctx.allNodeIds;
    while seen != {}
      invariant seen <= ctx.allNodeIds && forall id :: id in ctx.allNodeIds - seen ==> id in tree.nodes
      decreases seen
    {
      var id :| id in seen;
      if id !in tree.nodes {
        return Err("verify: dangling node");
      }
      seen := seen - {id};
    }
    r := Ok(());
  }

  /** What a store that passes has in common with a valid tree. */
  ghost predicate Passing(c: Config, s: Store, slots: SlotStore, root: nat, contents: seq<Item>,
                          levels: seq<seq<nat>>) {
    && (forall id :: id in s ==> NodeChecked(c, s, slots, id))
    && Shaped(s, root, contents, levels) && ChainOk(s, levels[0])
  }

  /** A valid tree passes every check. A store that passes is empty, or a tree in all that matters: there are levels of
      nodes, one above the other up to the root, with ascending contents at the bottom; every stored node stands in
      them once and is sized, weighed, ordered, indexed and zeroed as in a valid tree; and the leaves are linked. */
  method Verify(tree: BTree) returns (r: Result<()>, ghost contents: seq<Item>, ghost levels: seq<seq<nat>>)
    requires Closed(tree.nodes) && 0 !in tree.nodes && (tree.rootNodeId == 0 || tree.rootNodeId in tree.nodes)
    requires SlotsGiven(tree)
    ensures tree.Valid() ==> r.Ok?
    ensures r.Ok? ==> if tree.rootNodeId == 0 then tree.nodes == map[]
                      else Passing(tree.config, tree.nodes, tree.slots, tree.rootNodeId, contents, levels)
  {
    hide LevelsOk, AscendingItems, AllDistinct, CtxOk, UpperKept, Layered, NodeChecked, TreeOk, Closed, AllChecked,
         ChainChecked, AtNode, ChainInTree, SlotsOk, SlotsGiven, Walked, Passing;
    ghost var valid := tree.Valid();
    if valid {
      EmptyTree(tree.config, tree.nodes, tree.rootNodeId, tree.nextNodeId, tree.contents, tree.levels);
    }
    var ctx, accumCount := Context(None, {}, []), 0;
    contents, levels := [], [];
    if tree.rootNodeId != 0 {
      if valid {
        RootInTree(tree);
      }
      var accum;
      ghost var rows;
      r, ctx, accum, accumCount, rows :=
        VerifyNode(tree, tree.rootNodeId, 0, ctx, valid, if valid then |tree.levels| - 1 else 0, 0);
      if r.Err? {
        return;
      }
      if valid {
        WholeTreeSeen(tree, ctx, accum, accumCount);
      }
      LeavesSeen(tree.nodes, tree.rootNodeId, ctx, accumCount, rows);
      ghost var n := 0;
      if |ctx.leafNodeIds| > 0 {
        r, n := VerifyLeaves(tree, ctx, accumCount, valid);
        if r.Err? {
          return;
        }
      }
      CheckedAll(tree.config, tree.nodes, tree.slots, ctx.allNodeIds);
      r := VerifyStore(tree, ctx);
      if r.Ok? {
        contents, levels := ItemsIn(Concat(tree.nodes, ctx.leafNodeIds)), Flipped(rows);
        StorePasses(tree.config, tree.nodes, tree.slots, tree.rootNodeId, ctx, accumCount, rows, n);
      }
      return;
    }
    r := VerifyStore(tree, ctx);
  }

  /** The walk over a whole store found leaves. */
  lemma LeavesSeen(s: Store, root: nat, ctx: Context, count: int, rows: seq<seq<nat>>)
    requires Walked(s, [root], 0, Context(None, {}, []), ctx, count, rows)
    ensures |rows| > 0 && RowsOk(s, rows) && rows[0] == [root] && Counted(s, rows, count)
    ensures ctx.leafNodeIds == LastRow(rows) && Covers(rows, ctx.allNodeIds) && ctx.leafNodeIds != []
  {
    hide RowOk, Covers, Concat, AllDistinct, NoneLoose;
    assert ctx.allNodeIds - {} == ctx.allNodeIds;
    RowNotEmpty(s, root, rows, |rows| - 1);
  }

  /** The chain runs through all leaves, and no inner node holds an item: otherwise the items of the chain would be
      fewer than the root counts. */
  lemma WholeChain(s: Store, rows: seq<seq<nat>>, count: int, n: nat)
    requires |rows| > 0 && RowsOk(s, rows) && Counted(s, rows, count) && ChainChecked(s, LastRow(rows), n, count)
    ensures n == |LastRow(rows)| && count == |Concat(s, LastRow(rows))| && NoneLoose(s, rows)
  {
    hide Concat, Ascending, AllDistinct, NoneLoose, LinkedAt, Bare;
    var leaves := LastRow(rows);
    assert RowOk(s, rows, |rows| - 1);
    if n < |leaves| {
      assert leaves[n] in leaves && Items(s, leaves[n]) != [];
      ConcatAround(s, leaves, n);
    }
    assert leaves[..|leaves|] == leaves;
  }

  lemma StorePasses(c: Config, s: Store, slots: SlotStore, root: nat, ctx: Context, count: int, rows: seq<seq<nat>>,
                    n: nat)
    requires |rows| > 0 && RowsOk(s, rows) && rows[0] == [root] && Counted(s, rows, count)
    requires ctx.leafNodeIds == LastRow(rows) && Covers(rows, ctx.allNodeIds)
    requires 0 !in s && ctx.allNodeIds == s.Keys && ChainChecked(s, ctx.leafNodeIds, n, count)
    requires forall id :: id in s ==> NodeChecked(c, s, slots, id)
    ensures Passing(c, s, slots, root, ItemsIn(Concat(s, ctx.leafNodeIds)), Flipped(rows))
  {
    hide Concat, Ascending, NoneLoose, LinkedAt, RowsOk, Covers, Shaped, Indexed, ZeroFrom, WeightOk;
    WholeChain(s, rows, count, n);
    assert LastRow(rows)[..n] == LastRow(rows);
    RowsShape(s, root, rows);
  }

  // ---------- What the check does not see ----------

  /** What the check leaves open: how inner nodes are linked, where the chain of leaves ends, the number of the root's
      children, and what the next id is. */
  ghost predicate Unseen(c: Config, s: Store, root: nat, nextId: nat, levels: seq<seq<nat>>)
    requires |levels| > 0 && ChainTo(s, levels[0], |levels[0]|)
  {
    && ConfigOk(c) && (forall id :: id in s ==> id < nextId) && RootOk(root, levels)
    && (forall l :: 0 < l < |levels| ==> Linked(s, levels[l]))
    && NextOnChain(s, levels[0], |levels[0]|) == 0
  }

  /** A store that passes is a valid tree exactly if this is in order, too. */
  lemma PassingIsTree(c: Config, s: Store, slots: SlotStore, root: nat, nextId: nat, contents: seq<Item>,
                      levels: seq<seq<nat>>)
    requires Passing(c, s, slots, root, contents, levels) && 0 !in s
    ensures TreeOk(c, s, root, nextId, contents, levels) <==> Unseen(c, s, root, nextId, levels)
  {
    hide Concat, LinkedAt, Ascending, Indexed, ZeroFrom, AllDistinct, AscendingItems, NodeChecked, Linked, NextOnChain,
         LevelOk, Below, Present;
    ContentsNotEmpty(c, s, slots, root, contents, levels);
    LeavesLinked(s, levels[0]);
    if Unseen(c, s, root, nextId, levels) {
      assert forall id :: id in s ==> InLevels(levels, id);
      forall l | 0 <= l < |levels| ensures LevelAt(c, s, contents, levels, l) {
        LinkedLevel(c, s, slots, root, contents, levels, l);
      }
    } else if TreeOk(c, s, root, nextId, contents, levels) {
      forall l | 0 <= l < |levels| ensures Linked(s, levels[l]) {
        assert LevelAt(c, s, contents, levels, l);
        LevelLinks(c, s, Below(s, contents, levels, l), levels[l]);
      }
    }
  }

  lemma LevelLinks(c: Config, s: Store, below: seq<Key>, ids: seq<nat>)
    requires LevelOk(c, s, below, ids)
    ensures Linked(s, ids)
  {
    hide Linked, Concat;
  }

  /** The leaves of a store that passes are linked, but for what follows the last one. */
  lemma LeavesLinked(s: Store, ids: seq<nat>)
    requires ChainOk(s, ids) && ids != []
    ensures Linked(s, ids) <==> NextOnChain(s, ids, |ids|) == 0
  {
    forall i | 0 <= i < |ids| - 1 ensures LinkOk(s, ids, i) {
      assert LinkedAt(s, ids, i) && LinkedAt(s, ids, i + 1);
    }
    assert LinkedAt(s, ids, |ids| - 1);
    assert LinkOk(s, ids, |ids| - 1) <==> NextOnChain(s, ids, |ids|) == 0;
  }

  lemma ContentsNotEmpty(c: Config, s: Store, slots: SlotStore, root: nat, contents: seq<Item>, levels: seq<seq<nat>>)
    requires Passing(c, s, slots, root, contents, levels)
    ensures contents != [] && levels[0] != [] && s != map[]
  {
    hide LinkedAt, Ascending, Indexed, ZeroFrom, AllDistinct, AscendingItems, WeightOk;
    assert KeysAt(s, contents, levels, 0);
    assert NodeChecked(c, s, slots, levels[0][0]);
  }

  /** A linked level is in order: a node is the last one exactly if it has no right neighbour. */
  lemma LinkedLevel(c: Config, s: Store, slots: SlotStore, root: nat, contents: seq<Item>, levels: seq<seq<nat>>,
                    l: nat)
    requires Passing(c, s, slots, root, contents, levels) && l < |levels| && Linked(s, levels[l])
    ensures LevelAt(c, s, contents, levels, l)
  {
    hide Concat, LinkedAt, Ascending, Indexed, ZeroFrom, AscendingItems, ChainOk, WeightOk, Below;
    var ids := levels[l];
    assert KeysAt(s, contents, levels, l);
    forall j | 0 <= j < |ids| ensures SizeOk(c, s, ids, j) && WeightOk(s, ids[j]) {
      assert LinkOk(s, ids, j) && NodeChecked(c, s, slots, ids[j]);
    }
  }

  /** A valid tree meets what the check takes for granted. */
  lemma ValidIsGiven(tree: BTree)
    requires tree.Valid()
    ensures Closed(tree.nodes) && 0 !in tree.nodes && (tree.rootNodeId == 0 || tree.rootNodeId in tree.nodes)
    ensures SlotsGiven(tree)
  {
    hide AllDistinct, AscendingItems, LevelsOk, Layered, TreeOk, KeyPos;
    var s, levels := tree.nodes, tree.levels;
    EmptyTree(tree.config, s, tree.rootNodeId, tree.nextNodeId, tree.contents, levels);
    if 0 in s {
      var l, p := ListedAt(tree, 0);
    }
    if tree.contents != [] {
      TreeLayered(tree.config, s, tree.rootNodeId, tree.nextNodeId, tree.contents, levels);
      forall id, i | id in s && 0 <= i < |s[id].items| && s[id].items[i].nodeId != 0
        ensures s[id].items[i].nodeId in s
      {
        var l, p := ListedAt(tree, id);
        KeyPasses(tree.config, s, tree.contents, levels, l, p, i);
      }
    }
  }

  /** Where a node of a valid tree is listed. */
  lemma ListedAt(tree: BTree, id: nat) returns (l: nat, p: nat)
    requires tree.Valid() && id in tree.nodes
    ensures id != 0 && l < |tree.levels| && p < |tree.levels[l]| && tree.levels[l][p] == id
  {
    hide AllDistinct, AscendingItems, LevelsOk, SlotsOk;
    assert InLevels(tree.levels, id);
    l :| 0 <= l < |tree.levels| && id in tree.levels[l];
    p :| 0 <= p < |tree.levels[l]| && tree.levels[l][p] == id;
  }

  lemma CheckedAll(c: Config, s: Store, slots: SlotStore, ids: set<nat>)
    requires AllChecked(c, s, slots, {}, ids)
    ensures forall id :: id in ids ==> NodeChecked(c, s, slots, id)
  {
    hide NodeChecked;
  }

  lemma RootInTree(tree: BTree)
    requires tree.Valid() && tree.rootNodeId != 0
    ensures |tree.levels| > 0 && AtNode(tree, tree.rootNodeId, 0, Context(None, {}, []), |tree.levels| - 1, 0)
  {
    hide LevelsOk, AscendingItems, AllDistinct, CtxOk, Layered;
    EmptyTree(tree.config, tree.nodes, tree.rootNodeId, tree.nextNodeId, tree.contents, tree.levels);
    TreeLayered(tree.config, tree.nodes, tree.rootNodeId, tree.nextNodeId, tree.contents, tree.levels);
    NothingSeen(tree.config, tree.nodes, tree.contents, tree.levels);
  }

  lemma WholeTreeSeen(tree: BTree, ctx: Context, accum: Sum, accumCount: int)
    requires tree.Valid() && tree.rootNodeId != 0 && tree.rootNodeId in tree.nodes && |tree.levels| > 0
    requires PastNode(tree, Context(None, {}, []), ctx, |tree.levels| - 1, 0)
    requires Weight(accum, accumCount) == NodeWeight(tree.nodes[tree.rootNodeId])
    ensures ctx.leafNodeIds == tree.levels[0] && |tree.levels[0]| > 0 && accumCount == |tree.contents|
    ensures forall id :: id in ctx.allNodeIds <==> id in tree.nodes
    ensures ChainInTree(tree, 0, ctx.leafNodeIds[0], 0, None, 0)
  {
    hide LevelsOk, AscendingItems, AllDistinct, CtxOk, UpperKept, Layered;
    EmptyTree(tree.config, tree.nodes, tree.rootNodeId, tree.nextNodeId, tree.contents, tree.levels);
    TreeLayered(tree.config, tree.nodes, tree.rootNodeId, tree.nextNodeId, tree.contents, tree.levels);
    RootWeight(tree.config, tree.nodes, tree.contents, tree.levels);
    AllSeen(tree.config, tree.nodes, tree.rootNodeId, tree.nextNodeId, tree.contents, tree.levels, ctx);
    LevelFacts(tree.config, tree.nodes, tree.contents, tree.levels, 0, 0);
    ChainStarts(tree.nodes, tree.contents, tree.levels[0]);
  }
}
