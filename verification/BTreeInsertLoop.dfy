/** The loop of an insertion: what holds each time a breadcrumb is popped. */
module BTreeInsertLoop {
  import opened Types
  import opened Accumulators
  import opened SortedItems
  import opened BTreeNodes
  import opened BTreeLevels
  import opened BTreeSearch
  import opened BTreeClimb
  import opened BTreeInsert
  import opened BTreeRewrite
  import opened BTreeTask

  ghost predicate Inserting(t: Task, s: Store, nextId: nat, levels: seq<seq<nat>>, k: nat, newKey: Key,
          needsMerge: bool) {
    && TaskOk(t) && t.x !in t.contents
    && |levels| == |t.levels0| == |t.crumbs| && k <= |levels|
    && Climb(t.c, t.s0, s, nextId, WithItem(t.contents, t.x), t.levels0, levels, k)
    && (forall l :: 0 <= l < |levels| ==> |levels[l]| >= |t.levels0[l]|)
    && if k < |levels| then
         InsertPending(t.s0, s, t.levels0[k], Below(s, WithItem(t.contents, t.x), levels, k), NodePos(t, k), t.x,
                       newKey, needsMerge)
       else
         && levels[k - 1] == PathNodes(t.levels0[k - 1][0], newKey, needsMerge)
         && (needsMerge ==> newKey == KeyOf(s, newKey.nodeId))
  }

  lemma InsertingBasics(t: Task, s: Store, nextId: nat, levels: seq<seq<nat>>, k: nat, newKey: Key, needsMerge: bool)
    requires Inserting(t, s, nextId, levels, k, newKey, needsMerge)
    ensures TaskOk(t) && ConfigOk(t.c) && k <= |levels| == |t.levels0| && t.x !in t.contents
    ensures Climb(t.c, t.s0, s, nextId, WithItem(t.contents, t.x), t.levels0, levels, k)
    ensures k < |levels| ==> levels[k] == t.levels0[k]
    ensures |levels| == |t.crumbs| && forall l :: 0 <= l < |levels| ==> |levels[l]| >= |t.levels0[l]|
    ensures NodesListed(s, nextId, levels)
  {
    hide LevelsOk, PathOk, AllDistinct, NodesListed, Untouched, InsertPending, WithItem, AscendingItems;
  }

  lemma InsertingStarts(t: Task, nextId: nat)
    requires TaskOk(t) && t.x !in t.contents && AllDistinct(t.levels0) && NodesListed(t.s0, nextId, t.levels0)
    ensures Inserting(t, t.s0, nextId, t.levels0, 0, Key(t.x, 0), true)
  {
    hide Rank, LevelOk, InsertPending, LeafKeys, Seeks, KeyPos, Items, AllDistinct, NodesListed, WithItem,
         AscendingItems, Untouched, CrumbOk;
    LevelsUntouched(t.c, t.s0, t.contents, t.levels0);
    LeafPending(t);
  }

  lemma LeafPending(t: Task)
    requires TaskOk(t) && t.x !in t.contents
    ensures InsertPending(t.s0, t.s0, t.levels0[0], LeafKeys(WithItem(t.contents, t.x)), NodePos(t, 0), t.x,
                          Key(t.x, 0), true)
  {
    hide Rank, LevelOk, InsertPending, LeafKeys, Seeks, KeyPos, Items, WithItem, AscendingItems, CrumbOk;
    var last := |t.levels0| - 1;
    PathAt(t, 0);
    assert CrumbSeeks(t.s0, t.levels0, t.contents, t.crumbs, t.pos, t.x, last);
    assert LevelAt(t.c, t.s0, t.contents, t.levels0, 0);
    InsertStart(t.c, t.s0, t.contents, t.levels0[0], NodePos(t, 0), t.crumbs[last].index, t.x);
  }

  /** After the level has been rewritten the loop moves on to the next breadcrumb. */
  lemma InsertAdvance(t: Task, s: Store, s1: Store, nextId: nat, nextId1: nat, levels: seq<seq<nat>>, k: nat,
                      newKey: Key, needsMerge: bool, newKey1: Key, needsMerge1: bool)
    requires Inserting(t, s, nextId, levels, k, newKey, needsMerge) && k < |levels| && NodePos(t, k) < |t.levels0[k]|
    requires var ids, p, below := t.levels0[k], NodePos(t, k), Below(s, WithItem(t.contents, t.x), levels, k);
             var mid := PathNodes(ids[p], newKey1, needsMerge1);
             && Rewritten(t.c, t.s0, s1, ids, below, p, p + 1, mid, ItemWeight(t.x))
             && OnlyLevel(s, s1, nextId, nextId1, ids, Spliced(ids, p, p + 1, mid))
             && (p > 0 ==> KeyOf(s1, ids[p]) == KeyOf(t.s0, ids[p]))
             && (needsMerge1 ==>
                 newKey1 == KeyOf(s1, newKey1.nodeId) && Rank(KeyOf(t.s0, ids[p]).item) < Rank(newKey1.item))
    ensures var ids, p := t.levels0[k], NodePos(t, k);
            Inserting(t, s1, nextId1, levels[k := Spliced(ids, p, p + 1, PathNodes(ids[p], newKey1, needsMerge1))],
                      k + 1, newKey1, needsMerge1)
  {
    hide Inserting, TaskOk, Climb, Rank, Concat, Index, KeyOf, Total, Plus, InsertPending, LevelOk, Untouched, WithItem,
         Ascending, OnlyLevel, Items, Below, SameNodes, Spliced, PathNodes, Rewritten, NodesListed;
    InsertingBasics(t, s, nextId, levels, k, newKey, needsMerge);
    var ids, p := t.levels0[k], NodePos(t, k);
    var contents1 := WithItem(t.contents, t.x);
    var below := Below(s, contents1, levels, k);
    var mid := PathNodes(ids[p], newKey1, needsMerge1);
    var ids1 := Spliced(ids, p, p + 1, mid);
    RewrittenParts(t.c, t.s0, s1, ids, below, p, mid, ItemWeight(t.x));
    PathMembers(ids, p, newKey1, needsMerge1);
    ClimbStep(t.c, t.s0, s, s1, nextId, nextId1, contents1, t.levels0, levels, k, ids1);
    WithItemAscending(t.contents, t.x) by {
      TaskItems(t);
    }
    BelowFacts(t.c, s, contents1, levels, k, k) by {
      ClimbLevels(t.c, t.s0, s, nextId, contents1, t.levels0, levels, k);
    }
    if k + 1 < |levels| {
      NextInsertPending(t, s1, k, below, newKey1, needsMerge1);
    } else {
      TopReplaced(t, k, newKey1, needsMerge1);
    }
    InsertingHolds(t, s1, nextId1, levels[k := ids1], k + 1, newKey1, needsMerge1) by {
      IndexIsBelow(s1, contents1, levels[k := ids1], k);
    }
  }

  lemma TaskItems(t: Task)
    requires TaskOk(t)
    ensures AscendingItems(t.contents)
  {
  }

  lemma ClimbLevels(c: Config, s0: Store, s: Store, nextId: nat, contents: seq<Item>, levels0: seq<seq<nat>>,
          levels: seq<seq<nat>>, k: nat)
    requires Climb(c, s0, s, nextId, contents, levels0, levels, k)
    ensures k <= |levels| && LevelsOk(c, s, contents, levels, k)
  {
    hide LevelsOk, AllDistinct, NodesListed, Untouched;
  }

  lemma RewrittenParts(c: Config, s0: Store, s1: Store, ids: seq<nat>, below: seq<Key>, p: nat, mid: seq<nat>,
          delta: Weight)
    requires p < |ids| && Rewritten(c, s0, s1, ids, below, p, p + 1, mid, delta)
    ensures LevelOk(c, s1, below, Spliced(ids, p, p + 1, mid))
    ensures Total(s1, Index(s1, mid)) == Plus(Total(s0, Index(s0, ids[p..p + 1])), delta)
    ensures SameNodes(s0, s1, ids[..p]) && SameNodes(s0, s1, ids[p + 1..])
  {
    hide LevelOk, Total, Plus, Index, SameNodes, Spliced;
  }

  /** At least as many nodes as before. */
  lemma PathMembers(ids: seq<nat>, p: nat, newKey: Key, needsMerge: bool)
    requires p < |ids|
    ensures |Spliced(ids, p, p + 1, PathNodes(ids[p], newKey, needsMerge))| >= |ids|
  {
  }

  lemma TopReplaced(t: Task, k: nat, newKey: Key, needsMerge: bool)
    requires TaskOk(t) && k + 1 == |t.levels0| && NodePos(t, k) < |t.levels0[k]|
    ensures var ids, p := t.levels0[k], NodePos(t, k);
            Spliced(ids, p, p + 1, PathNodes(ids[p], newKey, needsMerge)) == PathNodes(ids[0], newKey, needsMerge)
  {
    hide LevelsOk, PathOk, AscendingItems, PathNodes;
  }

  lemma IndexIsBelow(s: Store, contents: seq<Item>, levels: seq<seq<nat>>, k: nat)
    requires k < |levels|
    ensures Below(s, contents, levels, k + 1) == Index(s, levels[k])
  {
    hide Index;
  }

  lemma InsertingHolds(t: Task, s: Store, nextId: nat, levels: seq<seq<nat>>, k: nat, newKey: Key, needsMerge: bool)
    requires TaskOk(t) && t.x !in t.contents && |levels| == |t.levels0| == |t.crumbs| && 0 < k <= |levels|
    requires Climb(t.c, t.s0, s, nextId, WithItem(t.contents, t.x), t.levels0, levels, k)
    requires forall l :: 0 <= l < |levels| ==> |levels[l]| >= |t.levels0[l]|
    requires k < |levels| ==>
             InsertPending(t.s0, s, t.levels0[k], Below(s, WithItem(t.contents, t.x), levels, k), NodePos(t, k), t.x,
                           newKey, needsMerge)
    requires k == |levels| ==>
             t.levels0[k - 1] != [] && levels[k - 1] == PathNodes(t.levels0[k - 1][0], newKey, needsMerge)
                               && (needsMerge ==> newKey == KeyOf(s, newKey.nodeId))
    ensures Inserting(t, s, nextId, levels, k, newKey, needsMerge)
  {
    hide TaskOk, Climb, InsertPending, WithItem, Below, KeyOf, PathNodes;
  }

  /** What the rewritten level means for the node above. */
  lemma NextInsertPending(t: Task, s1: Store, k: nat, below: seq<Key>, newKey: Key, needsMerge: bool)
    requires TaskOk(t) && k + 1 < |t.levels0| == |t.crumbs| && NodePos(t, k) < |t.levels0[k]|
    requires var ids, p := t.levels0[k], NodePos(t, k);
             var mid := PathNodes(ids[p], newKey, needsMerge);
             && LevelOk(t.c, s1, below, Spliced(ids, p, p + 1, mid))
                && Ascending(Index(s1, Spliced(ids, p, p + 1, mid)))
             && Total(s1, Index(s1, mid)) == Plus(Total(t.s0, Index(t.s0, ids[p..p + 1])), ItemWeight(t.x))
             && SameNodes(t.s0, s1, ids[..p]) && SameNodes(t.s0, s1, ids[p + 1..])
             && (p > 0 ==> KeyOf(s1, ids[p]) == KeyOf(t.s0, ids[p]))
             && (needsMerge ==>
                 newKey == KeyOf(s1, newKey.nodeId) && Rank(KeyOf(t.s0, ids[p]).item) < Rank(newKey.item))
    ensures var ids, p := t.levels0[k], NodePos(t, k);
            InsertPending(t.s0, s1, t.levels0[k + 1],
                          Index(s1, Spliced(ids, p, p + 1, PathNodes(ids[p], newKey, needsMerge))), NodePos(t, k + 1),
                          t.x, newKey, needsMerge)
  {
    hide TaskOk, Rank, Concat, Index, KeyOf, Total, Plus, InsertPending, LevelOk, Ascending, SameNodes, Items, KeyPos;
    PathAt(t, k);
    OldLevels(t, k);
    var ids, p, mid := t.levels0[k], NodePos(t, k), PathNodes(t.levels0[k][NodePos(t, k)], newKey, needsMerge);
    var up, q, i := t.levels0[k + 1], NodePos(t, k + 1), t.crumbs[|t.levels0| - 2 - k].index;
    LevelParts(t.c, t.s0, Concat(t.s0, ids), ids);
    LevelParts(t.c, t.s0, Index(t.s0, ids), up);
    LevelParts(t.c, s1, below, Spliced(ids, p, p + 1, mid));
    if q > 0 {
      FirstNodesNotEmpty(t.c, t.s0, Index(t.s0, ids), up, q);
      KeyPosPositive(t.s0, up, q, i);
    }
    SplicedMember(ids, p, mid, s1);
    InsertLift(t.s0, s1, ids, p, up, q, i, t.x, newKey, needsMerge);
  }

  lemma SplicedMember(ids: seq<nat>, p: nat, mid: seq<nat>, s1: Store)
    requires p < |ids| && mid != [] && mid[0] == ids[p] && Present(s1, Spliced(ids, p, p + 1, mid))
    ensures ids[p] in s1
  {
    assert Spliced(ids, p, p + 1, mid)[p] == ids[p];
  }

  // ---------- What the loop body does to a node ----------

  /** The node of the path is as it was, and what it should hold. */
  lemma InsertNode(t: Task, s: Store, nextId: nat, levels: seq<seq<nat>>, k: nat, newKey: Key, needsMerge: bool)
    requires Inserting(t, s, nextId, levels, k, newKey, needsMerge) && k < |levels|
    ensures NodePos(t, k) < |t.levels0[k]|
    ensures var id := PathNode(t, k);
            && id != 0 && id in s && id in t.s0 && s[id] == t.s0[id] && 1 <= |s[id].items| <= t.c.maxItems
            && (NodePos(t, k) + 1 < |t.levels0[k]| ==> t.c.minItems <= |s[id].items|)
            && (s[id].nextSibling == if NodePos(t, k) + 1 < |t.levels0[k]| then t.levels0[k][NodePos(t, k) + 1] else 0)
            && RewriteBase(t, s, levels, k, newKey, needsMerge)
    ensures nextId > 0 && nextId !in s && forall id :: id in t.levels0[k] ==> id in s && s[id] == t.s0[id]
  {
    hide Inserting, TaskOk, Climb, InsertPending, NodesListed, Untouched, LevelOk, Concat, Index, Items, Pending,
         WithItem,
         Below, KeyOf, InsertedItems, Ascending, InLevels;
    InsertingBasics(t, s, nextId, levels, k, newKey, needsMerge);
    InsertingHere(t, s, nextId, levels, k, newKey, needsMerge);
    PathAt(t, k);
    OldLevels(t, k);
    var ids, p := t.levels0[k], NodePos(t, k);
    PendingParts(t.s0, s, ids, Below(s, WithItem(t.contents, t.x), levels, k), p, t.x, newKey, needsMerge);
    NodeOfLevel(t.c, t.s0, s, ids, p);
    UntouchedNodes(t.s0, s, ids);
    NextIsFresh(s, nextId, levels, ids[p]);
  }

  /** The level the insertion has reached. */
  lemma InsertingHere(t: Task, s: Store, nextId: nat, levels: seq<seq<nat>>, k: nat, newKey: Key, needsMerge: bool)
    requires Inserting(t, s, nextId, levels, k, newKey, needsMerge) && k < |levels|
    ensures Untouched(t.s0, s, t.levels0[k])
    ensures InsertPending(t.s0, s, t.levels0[k], Below(s, WithItem(t.contents, t.x), levels, k), NodePos(t, k), t.x,
                          newKey, needsMerge)
  {
    hide TaskOk, Untouched, InsertPending, LevelsOk, AllDistinct, NodesListed, WithItem, Below;
  }

  lemma PendingParts(s0: Store, s: Store, ids: seq<nat>, below: seq<Key>, p: nat, x: Item, newKey: Key,
                     needsMerge: bool)
    requires InsertPending(s0, s, ids, below, p, x, newKey, needsMerge)
    ensures p < |ids| && Items(s0, ids[p]) != []
    ensures Pending(s0, s, ids, below, p, InsertedItems(s, Items(s0, ids[p]), newKey, needsMerge), ItemWeight(x))
  {
    hide Items, Pending, InsertedItems;
  }

  lemma NodeOfLevel(c: Config, s0: Store, s: Store, ids: seq<nat>, p: nat)
    requires LevelOk(c, s0, Concat(s0, ids), ids) && Untouched(s0, s, ids) && p < |ids|
    ensures var id := ids[p];
            && id in ids && id != 0 && id in s && id in s0 && s[id] == s0[id] && 1 <= |s[id].items| <= c.maxItems
            && (p + 1 < |ids| ==> c.minItems <= |s[id].items|)
            && s[id].nextSibling == if p + 1 < |ids| then ids[p + 1] else 0
  {
    hide Concat, Weighed, Distinct;
    assert SizeOk(c, s0, ids, p) && LinkOk(s0, ids, p) && ids[p] in ids;
  }

  lemma UntouchedNodes(s0: Store, s: Store, ids: seq<nat>)
    requires Untouched(s0, s, ids)
    ensures forall i :: i in ids ==> i in s && i in s0 && s[i] == s0[i]
  {
  }

  lemma NextIsFresh(s: Store, nextId: nat, levels: seq<seq<nat>>, id: nat)
    requires NodesListed(s, nextId, levels) && id in s
    ensures nextId > 0 && nextId !in s
  {
    hide InLevels;
  }

  /** Its keys are still in order. */
  lemma InsertNodeAscends(t: Task, s: Store, nextId: nat, levels: seq<seq<nat>>, k: nat, newKey: Key, needsMerge: bool)
    requires Inserting(t, s, nextId, levels, k, newKey, needsMerge) && k < |levels|
    ensures NodePos(t, k) < |t.levels0[k]| && PathNode(t, k) in s && Ascending(s[PathNode(t, k)].items)
  {
    hide Rank, Concat, LevelsOk, PathOk, AllDistinct, Climb, InsertPending, RewriteBase, Ascending, Items;
    InsertNode(t, s, nextId, levels, k, newKey, needsMerge);
    NodeAscends(t.c, t.s0, t.contents, t.levels0, k, NodePos(t, k));
    ItemsOf(t.s0, PathNode(t, k));
  }

  lemma ItemsOf(s: Store, id: nat)
    requires id in s
    ensures Items(s, id) == s[id].items
  {
  }

  lemma RoomForTwo(t: Task, s: Store, nextId: nat, levels: seq<seq<nat>>, newKey: Key)
    requires Inserting(t, s, nextId, levels, |levels|, newKey, true)
    ensures t.c.maxItems > 2
  {
    hide Rank, Climb, InsertPending, PathOk, LevelsOk, AllDistinct;
  }

  /** The level-local part of the loop invariant. */
  ghost predicate RewriteBase(t: Task, s: Store, levels: seq<seq<nat>>, k: nat, newKey: Key, needsMerge: bool)
    requires TaskOk(t) && k < |t.levels0| && |levels| == |t.levels0|
  {
    var ids, p := t.levels0[k], NodePos(t, k);
    && p < |ids| && Items(t.s0, ids[p]) != []
    && LevelOk(t.c, t.s0, Concat(t.s0, ids), ids)
    && Pending(t.s0, s, ids, Below(s, WithItem(t.contents, t.x), levels, k), p,
               InsertedItems(s, Items(t.s0, ids[p]), newKey, needsMerge), ItemWeight(t.x))
    && Untouched(t.s0, s, ids)
  }

  /** A change confined to level `k` leaves the weights below it alone, so a rewrite can start. */
  lemma InsertRewriteStart(t: Task, s: Store, s1: Store, nextId: nat, nextId1: nat, levels: seq<seq<nat>>, k: nat,
                           newKey: Key, needsMerge: bool, ids1: seq<nat>)
    requires Inserting(t, s, nextId, levels, k, newKey, needsMerge) && k < |levels|
    requires OnlyLevel(s, s1, nextId, nextId1, t.levels0[k], ids1)
    ensures NodePos(t, k) < |t.levels0[k]| && Items(t.s0, t.levels0[k][NodePos(t, k)]) != []
    ensures RewriteStart(t.c, t.s0, s, s1, t.levels0[k], Below(s, WithItem(t.contents, t.x), levels, k), NodePos(t, k),
                         InsertedItems(s, Items(t.s0, t.levels0[k][NodePos(t, k)]), newKey, needsMerge),
                         ItemWeight(t.x))
  {
    hide Rank, LevelOk, LevelsOk, PathOk, AllDistinct, Pending, WithItem, OnlyLevel, SameWeights, Untouched,
         NodesListed;
    InsertNode(t, s, nextId, levels, k, newKey, needsMerge);
    OthersUntouched(t.c, t.s0, s, s1, nextId, WithItem(t.contents, t.x), t.levels0, levels, k, nextId1, ids1);
    BelowUnchanged(t.c, s, s1, WithItem(t.contents, t.x), levels, k);
  }

  lemma SameLevel(ids: seq<nat>, p: nat)
    requires p < |ids|
    ensures Spliced(ids, p, p + 1, [ids[p]]) == ids && (forall k :: PathNodes(ids[p], k, false) == [ids[p]])
  {
  }

  lemma GrownNode(s0: Store, s: Store, s1: Store, id: nat, its: seq<Key>, x: Item)
    requires id in s0 && id in s && s[id] == s0[id]
    requires s1 == s[id := Node(its, s[id].accumCount + 1, s[id].nextSibling, s[id].prevSibling,
                                AddMod(s[id].accum, IdNum(x.id)))]
    ensures s1.Keys == s.Keys && forall i :: i in s && i != id ==> s1[i] == s[i]
    ensures Items(s1, id) == its && NodeWeight(s1[id]) == Plus(NodeWeight(s0[id]), ItemWeight(x))
            && SameLinks(s0, s1, id)
  {
    hide AddMod;
  }

  /** Unless the node is the first of its level, its first item stays; and all items from the third on are above it. */
  lemma FirstItemKept(t: Task, s: Store, nextId: nat, levels: seq<seq<nat>>, k: nat, newKey: Key, needsMerge: bool)
    requires Inserting(t, s, nextId, levels, k, newKey, needsMerge) && k < |levels|
    ensures NodePos(t, k) < |t.levels0[k]| && Items(t.s0, PathNode(t, k)) != []
    ensures var its0 := Items(t.s0, PathNode(t, k));
            var its := InsertedItems(s, its0, newKey, needsMerge);
            && (NodePos(t, k) > 0 ==> its[0].item == its0[0].item)
            && (needsMerge ==> forall i :: 2 <= i < |its| ==> Rank(its0[0].item) < Rank(its[i].item))
  {
    hide TaskOk, Climb, Rank, Pending, InsertedItems, Items, WithItem, Below;
  }

  lemma SameFirstKey(s0: Store, s1: Store, id: nat)
    requires Items(s0, id) != [] && Items(s1, id) != [] && Items(s1, id)[0].item == Items(s0, id)[0].item
    ensures KeyOf(s1, id) == KeyOf(s0, id)
  {
  }

  /** A node with new items and more weight leaves its level in order. */
  lemma InsertReplaces(t: Task, s: Store, s1: Store, nextId: nat, levels: seq<seq<nat>>, k: nat, newKey: Key,
          needsMerge: bool)
    requires Inserting(t, s, nextId, levels, k, newKey, needsMerge) && k < |levels|
    requires NodePos(t, k) < |t.levels0[k]| && PathNode(t, k) in s && s[PathNode(t, k)].items != []
    requires var id := PathNode(t, k);
             var its := InsertedItems(s, s[id].items, newKey, needsMerge);
             && id in t.s0 && s1.Keys == s.Keys && (forall i :: i in s && i != id ==> s1[i] == s[i])
             && Items(s1, id) == its && NodeWeight(s1[id]) == Plus(NodeWeight(t.s0[id]), ItemWeight(t.x))
             && SameLinks(t.s0, s1, id)
             && 1 <= |its| <= t.c.maxItems && (NodePos(t, k) + 1 < |t.levels0[k]| ==> t.c.minItems <= |its|)
    ensures var ids, p := t.levels0[k], NodePos(t, k);
            && OnlyLevel(s, s1, nextId, nextId, ids, ids)
            && Rewritten(t.c, t.s0, s1, ids, Below(s, WithItem(t.contents, t.x), levels, k), p, p + 1, [ids[p]],
                         ItemWeight(t.x))
  {
    hide Inserting, TaskOk, Climb, Rank, Concat, Index, LevelOk, Pending, WithItem, SameWeights, Ascending, MergeKey,
         Total,
         InsertedItems, RewriteStart, Rewritten, RestSame, OnlyLevel, NodesListed, Below, Plus, SameLinks;
    InsertingBasics(t, s, nextId, levels, k, newKey, needsMerge);
    InsertNode(t, s, nextId, levels, k, newKey, needsMerge);
    var ids, p, id := t.levels0[k], NodePos(t, k), PathNode(t, k);
    var below := Below(s, WithItem(t.contents, t.x), levels, k);
    var its := InsertedItems(s, s[id].items, newKey, needsMerge);
    OnlyReplaced(s, s1, nextId, levels, ids, id);
    InsertRewriteStart(t, s, s1, nextId, nextId, levels, k, newKey, needsMerge, ids);
    RestSameAfter(t.c, t.s0, s, s1, Concat(t.s0, ids), ids, p);
    ReplaceLevel(t.c, t.s0, s, s1, ids, below, p, its, ItemWeight(t.x));
  }

  /** The node has room (or the new key was placed further down): it takes its new items and the weight. */
  lemma InsertFits(t: Task, s: Store, s1: Store, nextId: nat, levels: seq<seq<nat>>, k: nat, newKey: Key,
          needsMerge: bool)
    requires Inserting(t, s, nextId, levels, k, newKey, needsMerge) && k < |levels|
    requires NodePos(t, k) < |t.levels0[k]| && PathNode(t, k) in s && s[PathNode(t, k)].items != []
    requires var id := PathNode(t, k);
             var n0 := s[id];
             && (needsMerge ==> |n0.items| < t.c.maxItems)
             && s1 == s[id := Node(InsertedItems(s, n0.items, newKey, needsMerge), n0.accumCount + 1,
                                   n0.nextSibling, n0.prevSibling, AddMod(n0.accum, IdNum(t.x.id)))]
    ensures Inserting(t, s1, nextId, levels, k + 1, newKey, false)
  {
    hide Inserting, TaskOk, Climb, Rank, Concat, Index, LevelOk, Pending, WithItem, SameWeights, Ascending, MergeKey,
         Total,
         InsertedItems, RewriteStart, Rewritten, RestSame, OnlyLevel, NodesListed, Items, Below, Plus, RewriteBase,
           SameLinks,
         KeyOf, Spliced;
    InsertingBasics(t, s, nextId, levels, k, newKey, needsMerge);
    InsertNode(t, s, nextId, levels, k, newKey, needsMerge);
    var ids, p, id := t.levels0[k], NodePos(t, k), PathNode(t, k);
    var its := InsertedItems(s, s[id].items, newKey, needsMerge);
    ItemsOf(t.s0, id);
    ItemsOf(s1, id);
    FirstItemKept(t, s, nextId, levels, k, newKey, needsMerge);
    GrownNode(t.s0, s, s1, id, its, t.x);
    InsertReplaces(t, s, s1, nextId, levels, k, newKey, needsMerge);
    SameLevel(ids, p);
    assert levels[k := ids] == levels;
    if p > 0 {
      SameFirstKey(t.s0, s1, id);
    }
    InsertAdvance(t, s, s1, nextId, nextId, levels, k, newKey, needsMerge, newKey, false);
  }

  /** The store after node `id` was split: `left` in its place, `right` as node `r`, and the old right neighbour
      pointing back to it. */
  ghost predicate SplitStore(s: Store, s1: Store, id: nat, r: nat, left: Node, right: Node)
    requires id in s
  {
    var next := s[id].nextSibling;
    && s1.Keys == s.Keys + {r}
    && s1[id] == left && s1[r] == right
    && (forall i :: i in s && i != id && i != next ==> s1[i] == s[i])
    && (next != 0 && next in s && next != id ==> s1[next] == s[next].(prevSibling := r))
  }

  lemma TwoPathNodes(id: nat, key: Key, s1: Store, r: nat)
    requires key == KeyOf(s1, r)
    ensures PathNodes(id, key, true) == [id, r] && key.nodeId == r
  {
  }

  /** A full node split in two leaves its level in order. */
  lemma InsertSplitsLevel(t: Task, s: Store, s1: Store, nextId: nat, levels: seq<seq<nat>>, k: nat, newKey: Key,
          left: Node, right: Node)
    requires Inserting(t, s, nextId, levels, k, newKey, true) && k < |levels|
    requires NodePos(t, k) < |t.levels0[k]| && PathNode(t, k) in s && s[PathNode(t, k)].items != []
    requires var id := PathNode(t, k);
             var n0 := s[id];
             var its := InsertedItems(s, n0.items, newKey, true);
             var n := if n0.nextSibling == 0 then t.c.maxItems else t.c.maxItems / 2 + 1;
             && t.c.maxItems <= |n0.items| && n <= |its|
             && left.items == its[..n] && NodeWeight(left) == Total(s, its[..n])
             && left.nextSibling == nextId && left.prevSibling == n0.prevSibling
             && right.items == its[n..] && NodeWeight(right) == Total(s, its[n..])
             && right.nextSibling == n0.nextSibling && right.prevSibling == id
             && SplitStore(s, s1, id, nextId, left, right)
    ensures var ids, p, id := t.levels0[k], NodePos(t, k), PathNode(t, k);
            && OnlyLevel(s, s1, nextId, nextId + 1, ids, Spliced(ids, p, p + 1, [id, nextId]))
            && Rewritten(t.c, t.s0, s1, ids, Below(s, WithItem(t.contents, t.x), levels, k), p, p + 1, [id, nextId],
                         ItemWeight(t.x))
            && id in s1 && s1[id] == left && nextId in s1 && s1[nextId] == right
  {
    hide Inserting, TaskOk, Climb, Rank, Concat, Index, LevelOk, WithItem, SameWeights, Ascending, MergeKey, Total,
         InsertedItems, Rewritten, RestSame, OnlyLevel, NodesListed, Below, Plus, SplitStore, SplitLinks, Items,
         Pending, Spliced;
    InsertingBasics(t, s, nextId, levels, k, newKey, true);
    InsertNode(t, s, nextId, levels, k, newKey, true);
    var ids, p, id := t.levels0[k], NodePos(t, k), PathNode(t, k);
    var below := Below(s, WithItem(t.contents, t.x), levels, k);
    var its := InsertedItems(s, s[id].items, newKey, true);
    var n := if p + 1 == |ids| then t.c.maxItems else t.c.maxItems / 2 + 1;
    ZeroUnlisted(s, nextId, levels);
    assert p + 1 < |ids| ==> ids[p + 1] in ids;
    ItemsOf(t.s0, id);
    OnlySplit(t.c, t.s0, s, s1, nextId, levels, ids, p, left, right);
    InsertRewriteStart(t, s, s1, nextId, nextId + 1, levels, k, newKey, true, Spliced(ids, p, p + 1, [id, nextId]));
    PartTotals(s, s1, below, Concat(t.s0, ids[..p]), its, Concat(t.s0, ids[p + 1..]), n) by {
      PendingBelow(t.s0, s, ids, below, p, its, ItemWeight(t.x));
    }
    SplitPresent(s, s1, id, nextId, left, right);
    SplitLevel(t.c, t.s0, s, s1, ids, below, p, its, ItemWeight(t.x), nextId, n);
  }

  lemma SplitPresent(s: Store, s1: Store, id: nat, r: nat, left: Node, right: Node)
    requires id in s && SplitStore(s, s1, id, r, left, right)
    ensures id in s1 && r in s1
  {
  }

  /** The node is full: it splits, and the level above will get the key of the new node. */
  lemma InsertSplits(t: Task, s: Store, s1: Store, nextId: nat, levels: seq<seq<nat>>, k: nat, newKey: Key,
          left: Node, right: Node)
    requires Inserting(t, s, nextId, levels, k, newKey, true) && k < |levels|
    requires NodePos(t, k) < |t.levels0[k]| && PathNode(t, k) in s && s[PathNode(t, k)].items != []
    requires var id := PathNode(t, k);
             var n0 := s[id];
             var its := InsertedItems(s, n0.items, newKey, true);
             var n := if n0.nextSibling == 0 then t.c.maxItems else t.c.maxItems / 2 + 1;
             && t.c.maxItems <= |n0.items| && n <= |its|
             && left.items == its[..n] && NodeWeight(left) == Total(s, its[..n])
             && left.nextSibling == nextId && left.prevSibling == n0.prevSibling
             && right.items == its[n..] && NodeWeight(right) == Total(s, its[n..])
             && right.nextSibling == n0.nextSibling && right.prevSibling == id
             && SplitStore(s, s1, id, nextId, left, right)
    ensures Inserting(t, s1, nextId + 1,
                      levels[k := Spliced(t.levels0[k], NodePos(t, k), NodePos(t, k) + 1, [PathNode(t, k), nextId])],
                      k + 1, KeyOf(s1, nextId), true)
  {
    hide Inserting, TaskOk, Climb, Rank, Concat, Index, LevelOk, Pending, WithItem, SameWeights, Ascending, Total,
         InsertedItems, RewriteStart, Rewritten, RestSame, OnlyLevel, NodesListed, Items, Below, Plus, RewriteBase,
         KeyOf, Spliced, SplitStore, SplitLinks;
    InsertingBasics(t, s, nextId, levels, k, newKey, true);
    InsertNode(t, s, nextId, levels, k, newKey, true);
    var ids, p, id := t.levels0[k], NodePos(t, k), PathNode(t, k);
    var its := InsertedItems(s, s[id].items, newKey, true);
    InsertSplitsLevel(t, s, s1, nextId, levels, k, newKey, left, right);
    ItemsOf(t.s0, id);
    ItemsOf(s1, id);
    ItemsOf(s1, nextId);
    FirstItemKept(t, s, nextId, levels, k, newKey, true);
    if p > 0 {
      SameFirstKey(t.s0, s1, id);
    }
    KeyFromItems(s1, nextId);
    KeyFromItems(t.s0, id);
    TwoPathNodes(id, KeyOf(s1, nextId), s1, nextId);
    InsertAdvance(t, s, s1, nextId, nextId + 1, levels, k, newKey, true, KeyOf(s1, nextId), true);
  }

  lemma OnlySplit(c: Config, s0: Store, s: Store, s1: Store, nextId: nat, levels: seq<seq<nat>>, ids: seq<nat>, p: nat,
                  left: Node, right: Node)
    requires NodesListed(s, nextId, levels) && nextId > 0 && nextId !in s
    requires LevelOk(c, s0, Concat(s0, ids), ids) && p < |ids|
    requires forall id :: id in ids ==> id in s && id in s0 && s[id] == s0[id]
    requires left.nextSibling == nextId && left.prevSibling == s[ids[p]].prevSibling
    requires right.nextSibling == s[ids[p]].nextSibling && right.prevSibling == ids[p]
    requires SplitStore(s, s1, ids[p], nextId, left, right)
    ensures OnlyLevel(s, s1, nextId, nextId + 1, ids, Spliced(ids, p, p + 1, [ids[p], nextId]))
    ensures RestSame(s0, s1, ids, p, p + 1) && SplitLinks(s0, s1, ids, p, nextId)
    ensures nextId !in ids && s1[ids[p]] == left && s1[nextId] == right
  {
    hide Concat, Sized, Weighed, InLevels, Spliced, SplitStore, NodesListed, LevelOk;
    ZeroUnlisted(s, nextId, levels);
    SplitNeighbours(c, s0, s, s1, ids, p, nextId, left, right);
    SplitMembers(ids, p, nextId);
    SplitOnly(s, s1, nextId, levels, ids, p, left, right);
  }

  /** What splitting node `p` does to the nodes of its level. */
  lemma SplitNeighbours(c: Config, s0: Store, s: Store, s1: Store, ids: seq<nat>, p: nat, r: nat, left: Node,
                        right: Node)
    requires LevelOk(c, s0, Concat(s0, ids), ids) && p < |ids| && r > 0 && r !in s
    requires forall id :: id in ids ==> id in s && id in s0 && s[id] == s0[id]
    requires left.nextSibling == r && left.prevSibling == s[ids[p]].prevSibling
    requires right.nextSibling == s[ids[p]].nextSibling && right.prevSibling == ids[p]
    requires SplitStore(s, s1, ids[p], r, left, right)
    ensures RestSame(s0, s1, ids, p, p + 1) && SplitLinks(s0, s1, ids, p, r)
    ensures r !in ids && s1[ids[p]] == left && s1[r] == right
    ensures s[ids[p]].nextSibling != 0 ==> s[ids[p]].nextSibling in ids
  {
    hide Concat, Sized, Weighed;
    var next := s[ids[p]].nextSibling;
    assert LinkOk(s0, ids, p) && ids[p] in ids;
    assert next == if p + 1 < |ids| then ids[p + 1] else 0;
    forall j | 0 <= j < |ids| && j != p
      ensures SameNode(s0, s1, ids[j])
      ensures s1[ids[j]].nextSibling == s0[ids[j]].nextSibling
      ensures s1[ids[j]].prevSibling == if j == p + 1 then r else s0[ids[j]].prevSibling
    {
      assert ids[j] in ids && ids[j] != ids[p];
      if j != p + 1 {
        assert ids[j] != next;
      }
    }
  }

  lemma ZeroUnlisted(s: Store, nextId: nat, levels: seq<seq<nat>>)
    requires NodesListed(s, nextId, levels)
    ensures 0 !in s
  {
    hide InLevels;
  }

  /** Only the level of node `p` is affected. */
  lemma SplitOnly(s: Store, s1: Store, nextId: nat, levels: seq<seq<nat>>, ids: seq<nat>, p: nat, left: Node,
                  right: Node)
    requires NodesListed(s, nextId, levels) && nextId > 0 && p < |ids| && ids[p] in s
    requires s[ids[p]].nextSibling != 0 ==> s[ids[p]].nextSibling in ids
    requires SplitStore(s, s1, ids[p], nextId, left, right)
    requires var ids1 := Spliced(ids, p, p + 1, [ids[p], nextId]);
             forall id :: id in ids1 <==> id in ids || id == nextId
    requires 0 !in s
    ensures OnlyLevel(s, s1, nextId, nextId + 1, ids, Spliced(ids, p, p + 1, [ids[p], nextId]))
  {
    hide InLevels, Spliced;
    assert ids[p] in ids;
    forall i | i in s && i !in ids ensures i in s1 && s1[i] == s[i] {
      assert i != ids[p] && i != s[ids[p]].nextSibling;
    }
  }

  lemma SplitMembers(ids: seq<nat>, p: nat, r: nat)
    requires p < |ids|
    ensures forall id :: id in Spliced(ids, p, p + 1, [ids[p], r]) <==> id in ids || id == r
  {
    var ids1 := Spliced(ids, p, p + 1, [ids[p], r]);
    forall id ensures id in ids1 <==> id in ids || id == r {
      if id in ids {
        var j :| 0 <= j < |ids| && ids[j] == id;
        assert ids1[if j <= p then j else j + 1] == id;
      }
      if id == r {
        assert ids1[p + 1] == r;
      }
      if id in ids1 {
        var j :| 0 <= j < |ids1| && ids1[j] == id;
        if j <= p {
          assert id == ids[j];
        } else if j > p + 1 {
          assert id == ids[j - 1];
        }
      }
    }
  }

  /** The child in slot 0 of the node's new items lies below the level, so the loop may refresh that slot after
      it has already written the node. */
  lemma RefreshLater(t: Task, s: Store, s': Store, nextId: nat, levels: seq<seq<nat>>, k: nat, newKey: Key,
          needsMerge: bool)
    requires Inserting(t, s, nextId, levels, k, newKey, needsMerge) && k < |levels|
    requires NodePos(t, k) < |t.levels0[k]| && PathNode(t, k) in s && s[PathNode(t, k)].items != []
    requires forall i :: i in s && i !in t.levels0[k] ==> i in s' && s'[i] == s[i]
    requires forall i :: i in s' && i !in t.levels0[k] && i != nextId ==> i in s
    ensures InsertedItems(s', s[PathNode(t, k)].items, newKey, needsMerge)
            == InsertedItems(s, s[PathNode(t, k)].items, newKey, needsMerge)
  {
    hide Rank, Concat, LevelOk, PathOk, Pending, WithItem, SameWeights, Ascending, MergeKey, Total, InLevels;
    InsertNode(t, s, nextId, levels, k, newKey, needsMerge);
    var items := s[PathNode(t, k)].items;
    var merged := if needsMerge then MergeKey(items, newKey) else items;
    var child := merged[0].nodeId;
    ChildBelow(t, s, nextId, levels, k, newKey, needsMerge);
    if child != 0 {
      assert child in s && child !in t.levels0[k];
    }
  }

  lemma ChildBelow(t: Task, s: Store, nextId: nat, levels: seq<seq<nat>>, k: nat, newKey: Key, needsMerge: bool)
    requires Inserting(t, s, nextId, levels, k, newKey, needsMerge) && k < |levels|
    requires NodePos(t, k) < |t.levels0[k]| && PathNode(t, k) in s && s[PathNode(t, k)].items != []
    ensures var items := s[PathNode(t, k)].items;
            var merged := if needsMerge then MergeKey(items, newKey) else items;
            forall i :: 0 <= i < |merged| ==>
              merged[i].nodeId == 0 || (merged[i].nodeId in s && merged[i].nodeId !in t.levels0[k])
  {
    hide Rank, Concat, LevelOk, LevelsOk, PathOk, WithItem, Below, MergeKey, Refreshed, InsertPending, Pending,
         Untouched, NodesListed, AllDistinct;
    InsertNode(t, s, nextId, levels, k, newKey, needsMerge);
    var items := s[PathNode(t, k)].items;
    var merged := if needsMerge then MergeKey(items, newKey) else items;
    var its := InsertedItems(s, items, newKey, needsMerge);
    var ids, p := t.levels0[k], NodePos(t, k);
    var below := Below(s, WithItem(t.contents, t.x), levels, k);
    PendingBelow(t.s0, s, ids, below, p, its, ItemWeight(t.x));
    forall i | 0 <= i < |merged| ensures merged[i].nodeId == 0 || (merged[i].nodeId in s && merged[i].nodeId !in ids) {
      RefreshedIds(s, merged, i);
      var g := |Concat(t.s0, ids[..p])| + i;
      assert below[g] == its[i];
      BelowIds(t.c, t.s0, s, nextId, WithItem(t.contents, t.x), t.levels0, levels, k, g);
    }
  }

  lemma KeysStored(t: Task, s: Store, nextId: nat, levels: seq<seq<nat>>, k: nat, newKey: Key, needsMerge: bool)
    requires Inserting(t, s, nextId, levels, k, newKey, needsMerge) && k < |levels|
    requires NodePos(t, k) < |t.levels0[k]| && PathNode(t, k) in s && s[PathNode(t, k)].items != []
    ensures var items := s[PathNode(t, k)].items;
            NoneMissing(s, if needsMerge then MergeKey(items, newKey) else items)
  {
    hide Inserting, MergeKey, TaskOk;
    ChildBelow(t, s, nextId, levels, k, newKey, needsMerge);
  }

  lemma RefreshedIds(s: Store, items: seq<Key>, i: nat)
    requires i < |items|
    ensures Refreshed(s, items, 0)[i].nodeId == items[i].nodeId
  {
  }

  /** The node as the loop body leaves it just before it refreshes slot 0. */
  ghost function Unrefreshed(n0: Node, x: Item, newKey: Key, needsMerge: bool): Node {
    Node(if needsMerge then MergeKey(n0.items, newKey) else n0.items, n0.accumCount + 1,
         n0.nextSibling, n0.prevSibling, AddMod(n0.accum, IdNum(x.id)))
  }

  lemma FitThenRefresh(t: Task, s: Store, s': Store, s1: Store, nextId: nat, levels: seq<seq<nat>>, k: nat,
          newKey: Key, needsMerge: bool)
    requires Inserting(t, s, nextId, levels, k, newKey, needsMerge) && k < |levels|
    requires NodePos(t, k) < |t.levels0[k]| && PathNode(t, k) in s && s[PathNode(t, k)].items != []
    requires needsMerge ==> |s[PathNode(t, k)].items| < t.c.maxItems
    requires s' == s[PathNode(t, k) := Unrefreshed(s[PathNode(t, k)], t.x, newKey, needsMerge)]
    requires s1 == s'[PathNode(t, k) := s'[PathNode(t, k)].(items := Refreshed(s', s'[PathNode(t, k)].items, 0))]
    ensures Inserting(t, s1, nextId, levels, k + 1, newKey, false)
  {
    hide Rank, MergeKey, Refreshed, TaskOk, Climb, InsertPending;
    var id := PathNode(t, k);
    assert id in t.levels0[k];
    RefreshLater(t, s, s', nextId, levels, k, newKey, needsMerge);
    assert s1 == s[id := s1[id]];
    InsertFits(t, s, s1, nextId, levels, k, newKey, needsMerge);
  }

  /** Refreshing a key does not change what it weighs. */
  lemma RefreshedTotals(s: Store, items: seq<Key>, n: nat)
    requires 1 <= n <= |items|
    ensures var its := Refreshed(s, items, 0);
            && its[n..] == items[n..] && Refreshed(s, items[..n], 0) == its[..n]
            && Total(s, its[..n]) == Total(s, items[..n])
  {
    hide Plus;
    var its := Refreshed(s, items, 0);
    assert its[n..] == items[n..];
    assert Refreshed(s, items[..n], 0) == its[..n];
    assert its[..n][1..] == items[..n][1..];
    assert KeyWeight(s, its[0]) == KeyWeight(s, items[0]);
  }

  /** What splitting node `id` of store `s` leaves: the keys `all` are shared out over it and the new node `r`. */
  ghost predicate SplitDone(s: Store, s': Store, id: nat, r: nat, all: seq<Key>, n: nat) {
    && id in s && id in s' && r in s' && r !in s && n <= |all|
    && SplitStore(s, s', id, r, s'[id], s'[r])
    && s'[id].items == all[..n] && NodeWeight(s'[id]) == Total(s, all[..n])
    && s'[id].nextSibling == r && s'[id].prevSibling == s[id].prevSibling
    && s'[r].items == all[n..] && NodeWeight(s'[r]) == Total(s, all[n..])
    && s'[r].nextSibling == s[id].nextSibling && s'[r].prevSibling == id
  }

  function SplitSize(c: Config, n0: Node): nat {
    if n0.nextSibling == 0 then c.maxItems else c.maxItems / 2 + 1
  }

  /** The halves of a split node are stored, and the next sibling links back to the new one. */
  ghost function SplitNodes(s: Store, id: nat, r: nat, a: seq<Key>, b: seq<Key>, w1: Weight, w2: Weight): Store
    requires id in s && (s[id].nextSibling == 0 || s[id].nextSibling in s)
  {
    var s1 := s[r := Node(b, w2.count, s[id].nextSibling, id, w2.sum)]
               [id := Node(a, w1.count, r, s[id].prevSibling, w1.sum)];
    var next := s[id].nextSibling;
    if next != 0 then s1[next := s1[next].(prevSibling := r)] else s1
  }

  /** The steps of a split on the store: the new node is made, and both halves are stored. */
  lemma SplitStored(s: Store, s': Store, id: nat, r: nat, all: seq<Key>, n: nat, w1: Weight, w2: Weight)
    requires id in s && r !in s && n <= |all| && NoKeyTo(all, r, id)
    requires s[id].nextSibling == 0 || (s[id].nextSibling in s && s[id].nextSibling != id)
    requires w1 == Total(s[r := EMPTY_NODE], all[..n]) && w2 == Total(s[r := EMPTY_NODE], all[n..])
    requires s' == SplitNodes(s[r := EMPTY_NODE], id, r, all[..n], all[n..], w1, w2)
    ensures SplitDone(s, s', id, r, all, n)
  {
    hide Total, KeyWeight;
    var s0 := s[r := EMPTY_NODE];
    forall k | k in all[..n] || k in all[n..] ensures KeyWeight(s, k) == KeyWeight(s0, k) {
      SameWeightElsewhere(s, all, r, id, k);
    }
    TotalFrame(s, s0, all[..n]);
    TotalFrame(s, s0, all[n..]);
  }

  lemma SameWeightElsewhere(s: Store, all: seq<Key>, r: nat, id: nat, k: Key)
    requires NoKeyTo(all, r, id) && k in all
    ensures KeyWeight(s, k) == KeyWeight(s[r := EMPTY_NODE], k)
  {
    var i :| 0 <= i < |all| && all[i] == k;
  }

  lemma SplitThenRefresh(t: Task, s: Store, s': Store, s1: Store, nextId: nat, levels: seq<seq<nat>>, k: nat,
          newKey: Key)
    requires Inserting(t, s, nextId, levels, k, newKey, true) && k < |levels|
    requires NodePos(t, k) < |t.levels0[k]| && PathNode(t, k) in s && s[PathNode(t, k)].items != []
    requires var id := PathNode(t, k);
             && t.c.maxItems <= |s[id].items|
             && SplitDone(s, s', id, nextId, MergeKey(s[id].items, newKey), SplitSize(t.c, s[id]))
             && SplitSize(t.c, s[id]) > 0 && s1 == s'[id := s'[id].(items := Refreshed(s', s'[id].items, 0))]
    ensures nextId in s1 && s1[nextId] == s'[nextId]
    ensures Inserting(t, s1, nextId + 1,
                      levels[k := Spliced(t.levels0[k], NodePos(t, k), NodePos(t, k) + 1, [PathNode(t, k), nextId])],
                      k + 1, KeyOf(s1, nextId), true)
  {
    hide Rank, MergeKey, TaskOk, Climb, InsertPending, Total, Refreshed, SplitStore, KeyOf;
    var id := PathNode(t, k);
    var all := MergeKey(s[id].items, newKey);
    var n := SplitSize(t.c, s[id]);
    CrumbNode(t, s, nextId, levels, k, newKey, true);
    SplitAgrees(s, s', t.levels0[k], id, nextId);
    RefreshLater(t, s, s', nextId, levels, k, newKey, true);
    RefreshedTotals(s, all, n);
    RefreshedTotals(s', all, n);
    SplitStoreRefreshed(s, s', s1, id, nextId);
    InsertSplits(t, s, s1, nextId, levels, k, newKey, s1[id], s1[nextId]);
  }

  lemma SplitAgrees(s: Store, s': Store, ids: seq<nat>, id: nat, r: nat)
    requires id in s && id in ids && r in s' && id in s' && r !in s
    requires s[id].nextSibling == 0 || s[id].nextSibling in ids
    requires 0 !in s && SplitStore(s, s', id, r, s'[id], s'[r])
    ensures forall i :: i in s && i !in ids ==> i in s' && s'[i] == s[i]
    ensures forall i :: i in s' && i !in ids && i != r ==> i in s
  {
  }

  /** The node under the breadcrumb, as the loop body finds it. */
  lemma CrumbNode(t: Task, s: Store, nextId: nat, levels: seq<seq<nat>>, k: nat, newKey: Key, needsMerge: bool)
    requires Inserting(t, s, nextId, levels, k, newKey, needsMerge) && k < |levels|
    requires NodePos(t, k) < |t.levels0[k]|
    ensures var id := PathNode(t, k);
            && id in s && s[id].items != [] && id in t.levels0[k]
            && (s[id].nextSibling == 0 || s[id].nextSibling in t.levels0[k])
    ensures ConfigOk(t.c) && 0 !in s && nextId !in s && nextId > 0
  {
    hide Rank, TaskOk, Climb, InsertPending;
    InsertNode(t, s, nextId, levels, k, newKey, needsMerge);
    var ids, p := t.levels0[k], NodePos(t, k);
    assert ids[p] in ids && (p + 1 < |ids| ==> ids[p + 1] in ids);
    ListedFreshTask(t, s, nextId, levels, k, newKey, needsMerge);
  }

  lemma ListedFreshTask(t: Task, s: Store, nextId: nat, levels: seq<seq<nat>>, k: nat, newKey: Key, needsMerge: bool)
    requires Inserting(t, s, nextId, levels, k, newKey, needsMerge)
    ensures ConfigOk(t.c) && 0 !in s && nextId !in s
  {
    hide LevelsOk, PathOk, InsertPending, LevelsOk, AllDistinct, Below, Untouched;
  }

  lemma SplitStoreRefreshed(s: Store, s': Store, s1: Store, id: nat, r: nat)
    requires id in s && r !in s && id in s' && r in s' && SplitStore(s, s', id, r, s'[id], s'[r])
    requires id in s1 && s1 == s'[id := s1[id]]
    ensures r in s1 && s1[r] == s'[r] && SplitStore(s, s1, id, r, s1[id], s1[r])
  {
  }

  lemma SplitReady(t: Task, s: Store, nextId: nat, levels: seq<seq<nat>>, k: nat, newKey: Key)
    requires Inserting(t, s, nextId, levels, k, newKey, true) && k < |levels|
    requires NodePos(t, k) < |t.levels0[k]|
    ensures var id := PathNode(t, k);
            && nextId !in s && id in s && s[id].items != []
            && (s[id].nextSibling == 0 || (s[id].nextSibling in s && s[id].nextSibling != id))
            && NoKeyTo(MergeKey(s[id].items, newKey), nextId, id) && NoneMissing(s, MergeKey(s[id].items, newKey))
  {
    hide Rank, MergeKey, TaskOk, Climb, InsertPending, Concat, Sized, Linked, Weighed;
    InsertNode(t, s, nextId, levels, k, newKey, true);
    OldLevels(t, k);
    var ids, p, id := t.levels0[k], NodePos(t, k), PathNode(t, k);
    assert id in ids && id != 0;
    if p + 1 < |ids| {
      assert ids[p + 1] in ids;
    }
    ChildBelow(t, s, nextId, levels, k, newKey, true);
    ListedFreshTask(t, s, nextId, levels, k, newKey, true);
    var merged := MergeKey(s[id].items, newKey);
    forall i | 0 <= i < |merged| ensures merged[i].nodeId != nextId && merged[i].nodeId != id {
      assert merged[i].nodeId == 0 || (merged[i].nodeId in s && merged[i].nodeId !in ids);
    }
  }

  /** The node still has items when its first slot is refreshed. */
  lemma NodeStillThere(c: Config, s: Store, s': Store, id: nat, r: nat, x: Item, key: Key, merge: bool)
    requires ConfigOk(c) && id in s && s[id].items != []
    requires if merge && c.maxItems <= |s[id].items|
             then SplitDone(s, s', id, r, MergeKey(s[id].items, key), SplitSize(c, s[id]))
             else s' == s[id := Unrefreshed(s[id], x, key, merge)]
    requires NoneMissing(s, if merge then MergeKey(s[id].items, key) else s[id].items)
    ensures id in s' && s'[id].items != [] && SplitSize(c, s[id]) > 0
    ensures s'[id].items[0].nodeId == 0 || s'[id].items[0].nodeId in s'
  {
    hide Rank, MergeKey, Total;
  }

  lemma RightKeyKept(s': Store, s1: Store, id: nat, r: nat)
    requires r in s' && r in s1 && s1[r] == s'[r]
    ensures KeyOf(s1, r) == KeyOf(s', r)
  {
  }

  // ---------- Before the loop ----------

  lemma FirstItem(c: Config, s: Store, nextId: nat, x: Item)
    requires ConfigOk(c) && nextId > 0
    requires s == map[nextId := Node([Key(x, 0)], 1, 0, 0, AddMod(0, IdNum(x.id)))]
    ensures TreeOk(c, s, nextId, nextId + 1, [x], [[nextId]])
  {
    var keys := LeafKeys([x]);
    assert keys == [Key(x, 0)];
    ConcatOne(s, nextId);
    TotalOne(s, Key(x, 0));
    RootAlone(c, s, nextId);
    assert LevelAt(c, s, [x], [[nextId]], 0);
    assert forall id :: id in s ==> id in [[nextId]][0];
  }

  // ---------- After the loop ----------

  lemma InsertEnds(t: Task, s: Store, nextId: nat, levels: seq<seq<nat>>, newKey: Key)
    requires Inserting(t, s, nextId, levels, |levels|, newKey, false)
    requires |levels| > 1 ==> |t.levels0[|levels| - 2]| >= 2
    requires nextId > 0
    ensures TreeOk(t.c, s, t.levels0[|levels| - 1][0], nextId, WithItem(t.contents, t.x), levels)
  {
    hide Rank, AllDistinct, PathOk, LevelOk;
    WithItemAscending(t.contents, t.x);
    if |levels| > 1 {
      RootChildren(t, s, nextId, levels, newKey);
    }
  }

  /** The root kept its id and has at least as many children as before. */
  lemma RootChildren(t: Task, s: Store, nextId: nat, levels: seq<seq<nat>>, newKey: Key)
    requires Inserting(t, s, nextId, levels, |levels|, newKey, false)
    requires |levels| > 1 && |t.levels0[|levels| - 2]| >= 2
    ensures |levels[|levels| - 2]| >= 2
  {
  }

  ghost function NewRoot(s: Store, l: nat, r: nat): Node
    requires l in s && r in s
  {
    Node([KeyOf(s, l), KeyOf(s, r)], s[l].accumCount + s[r].accumCount, 0, 0, AddMod(s[l].accum, s[r].accum))
  }

  /** The old root was split: a new root over both halves makes a tree again. */
  lemma InsertGrows(t: Task, s: Store, s1: Store, nextId: nat, levels: seq<seq<nat>>, newKey: Key)
    requires Inserting(t, s, nextId, levels, |levels|, newKey, true) && nextId > 0
    requires t.levels0[|levels| - 1][0] in s && newKey.nodeId in s
    requires s1 == s[nextId := NewRoot(s, t.levels0[|levels| - 1][0], newKey.nodeId)]
    ensures TreeOk(t.c, s1, nextId, nextId + 1, WithItem(t.contents, t.x), levels + [[nextId]])
  {
    hide Rank, PathOk, LevelOk, LevelsOk, NodesListed, AllDistinct, Index, WithItem, KeyOf, Total;
    var contents, h := WithItem(t.contents, t.x), |levels|;
    var ids := levels[h - 1];
    var levels1 := levels + [[nextId]];
    WithItemAscending(t.contents, t.x);
    ClimbPresent(t.c, t.s0, s, nextId, contents, t.levels0, levels, h);
    assert nextId !in s by {
      assert NodesListed(s, nextId, levels);
      ListedFresh(s, nextId, levels);
    }
    GrownLower(t.c, s, s1, nextId, contents, levels);
    GrownTop(t.c, s, s1, contents, levels, nextId);
    assert LevelsOk(t.c, s1, contents, levels1, h + 1) by {
      GrownLevels(t.c, s1, contents, levels, nextId);
    }
    GrownDistinct(s, nextId, levels);
    GrownListed(s, s1, nextId, levels);
  }

  /** After a split of the root both halves are in the store and not empty. */
  lemma SplitRoot(t: Task, s: Store, nextId: nat, levels: seq<seq<nat>>, newKey: Key)
    requires Inserting(t, s, nextId, levels, |levels|, newKey, true)
    ensures |levels| > 0 && |t.levels0| == |levels| && |t.levels0[|levels| - 1]| == 1
            && newKey == KeyOf(s, newKey.nodeId)
    ensures var root := t.levels0[|levels| - 1][0];
            && root in s && s[root].items != [] && newKey.nodeId in s && s[newKey.nodeId].items != []
  {
    hide Rank, Concat, PathOk, AllDistinct, NodesListed, Linked, Weighed;
    var top := levels[|levels| - 1];
    assert LevelAt(t.c, s, WithItem(t.contents, t.x), levels, |levels| - 1);
    assert SizeOk(t.c, s, top, 0) && SizeOk(t.c, s, top, 1);
  }

  lemma ListedFresh(s: Store, nextId: nat, levels: seq<seq<nat>>)
    requires NodesListed(s, nextId, levels)
    ensures nextId !in s
  {
  }

  lemma GrownLevels(c: Config, s1: Store, contents: seq<Item>, levels: seq<seq<nat>>, r: nat)
    requires |levels| > 0 && LevelsOk(c, s1, contents, levels, |levels|)
    requires LevelOk(c, s1, Index(s1, levels[|levels| - 1]), [r])
    ensures LevelsOk(c, s1, contents, levels + [[r]], |levels| + 1)
  {
    hide LevelOk, Index;
    var levels1 := levels + [[r]];
    forall l | 0 <= l < |levels1| ensures LevelAt(c, s1, contents, levels1, l) {
      if l < |levels| {
        assert LevelAt(c, s1, contents, levels, l);
        assert Below(s1, contents, levels, l) == Below(s1, contents, levels1, l);
      }
    }
  }

  lemma GrownLower(c: Config, s: Store, s1: Store, r: nat, contents: seq<Item>, levels: seq<seq<nat>>)
    requires LevelsOk(c, s, contents, levels, |levels|) && r !in s
    requires s1.Keys == s.Keys + {r} && forall id :: id in s ==> s1[id] == s[id]
    requires forall l, j :: 0 <= l < |levels| && 0 <= j < |levels[l]| ==> levels[l][j] in s
    ensures LevelsOk(c, s1, contents, levels, |levels|)
  {
    hide LevelOk, Index;
    forall l | 0 <= l < |levels| ensures LevelAt(c, s1, contents, levels, l) {
      GrownLevel(c, s, s1, r, contents, levels, l);
    }
  }

  lemma {:induction false} GrownLevel(c: Config, s: Store, s1: Store, r: nat, contents: seq<Item>,
          levels: seq<seq<nat>>, l: nat)
    requires l < |levels| && LevelsOk(c, s, contents, levels, |levels|) && r !in s
    requires s1.Keys == s.Keys + {r} && forall id :: id in s ==> s1[id] == s[id]
    requires forall l, j :: 0 <= l < |levels| && 0 <= j < |levels[l]| ==> levels[l][j] in s
    ensures LevelOk(c, s1, Below(s1, contents, levels, l), levels[l])
    ensures Index(s1, levels[l]) == Index(s, levels[l]) && SameWeights(s, s1, Index(s, levels[l]))
  {
    hide LevelOk, Index, KeyWeight;
    assert LevelAt(c, s, contents, levels, l);
    if l > 0 {
      GrownLevel(c, s, s1, r, contents, levels, l - 1);
    } else {
      forall key | key in LeafKeys(contents) ensures KeyWeight(s, key) == KeyWeight(s1, key) {
        LeafKeyWeight(s, key.item);
        LeafKeyWeight(s1, key.item);
      }
    }
    LevelFrame(c, s, s1, Below(s, contents, levels, l), levels[l]);
  }

  lemma GrownTop(c: Config, s: Store, s1: Store, contents: seq<Item>, levels: seq<seq<nat>>, r: nat)
    requires ConfigOk(c) && |levels| > 0 && LevelsOk(c, s1, contents, levels, |levels|) && r !in s && r > 0
    requires |levels[|levels| - 1]| == 2
    requires levels[|levels| - 1][0] in s && levels[|levels| - 1][1] in s
    requires s1 == s[r := NewRoot(s, levels[|levels| - 1][0], levels[|levels| - 1][1])]
    ensures LevelOk(c, s1, Index(s1, levels[|levels| - 1]), [r])
  {
    hide Rank, Concat, Weighed, Linked, Sized, LeafKeys;
    var ids := levels[|levels| - 1];
    assert LevelAt(c, s1, contents, levels, |levels| - 1);
    assert Index(s1, ids) == [KeyOf(s1, ids[0]), KeyOf(s1, ids[1])];
    ConcatOne(s1, r);
    assert Concat(s1, [r]) == Index(s1, ids);
    assert WeightOk(s1, r) by {
      var k0, k1 := KeyOf(s1, ids[0]), KeyOf(s1, ids[1]);
      assert [k0, k1] == [k0] + [k1];
      TotalConcat(s1, [k0], [k1]);
      TotalOne(s1, k0);
      TotalOne(s1, k1);
    }
    assert Weighed(s1, [r]) && Linked(s1, [r]) && Sized(c, s1, [r]) by {
      RootAlone(c, s1, r);
    }
  }

  lemma RootAlone(c: Config, s: Store, r: nat)
    requires WeightOk(s, r) && s[r].nextSibling == 0 && s[r].prevSibling == 0 && 1 <= |s[r].items| <= c.maxItems
    ensures Weighed(s, [r]) && Linked(s, [r]) && Sized(c, s, [r])
  {
  }

  lemma GrownDistinct(s: Store, r: nat, levels: seq<seq<nat>>)
    requires AllDistinct(levels) && r !in s
    requires forall l, j :: 0 <= l < |levels| && 0 <= j < |levels[l]| ==> levels[l][j] in s
    ensures AllDistinct(levels + [[r]])
  {
    var levels1 := levels + [[r]];
    forall l, m | 0 <= l < m < |levels1| ensures Apart(levels1[l], levels1[m]) {
      if m < |levels| {
        assert Apart(levels[l], levels[m]);
      }
    }
  }

  lemma GrownListed(s: Store, s1: Store, r: nat, levels: seq<seq<nat>>)
    requires NodesListed(s, r, levels) && s1.Keys == s.Keys + {r} && r > 0
    ensures forall id :: id in s1 ==> 0 < id < r + 1 && InLevels(levels + [[r]], id)
  {
    var levels1 := levels + [[r]];
    forall id | id in s1 ensures 0 < id < r + 1 && InLevels(levels1, id) {
      if id == r {
        assert id in levels1[|levels|];
      } else {
        var l :| 0 <= l < |levels| && id in levels[l];
        assert id in levels1[l];
      }
    }
  }
}
