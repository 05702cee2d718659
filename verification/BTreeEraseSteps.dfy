/** The single steps an erasure takes on the node store, and what a pass of the loop body adds up to. */
module BTreeEraseSteps {
  import opened Types
  import opened Accumulators
  import opened SortedItems
  import opened BTreeNodes
  import opened BTreeLevels
  import opened BTreeSearch
  import opened BTreeClimb
  import opened BTreeInsert
  import opened BTreeErase
  import opened BTreeRewrite
  import opened BTreeTask
  import opened BTreeEraseLoop

  /** Node `id` hands its items to its neighbour `m` and is bypassed by its siblings' links. */
  ghost predicate MergeStep(s: Store, s': Store, id: nat, m: nat, items: seq<Key>) {
    && id in s && m in s && s'.Keys == s.Keys
    && (forall i :: i in s && i != id ==>
         && s'[i].nextSibling == (if i == s[id].prevSibling then s[id].nextSibling else s[i].nextSibling)
         && s'[i].prevSibling == (if i == s[id].nextSibling then s[id].prevSibling else s[i].prevSibling))
    && (forall i :: i in s && i != id && i != m ==> s'[i].items == s[i].items && NodeWeight(s'[i]) == NodeWeight(s[i]))
    && s'[id].nextSibling == s[id].nextSibling && s'[id].prevSibling == s[id].prevSibling && s'[id].items == []
    && s'[m].items == items && NodeWeight(s'[m]) == Plus(NodeWeight(s[m]), NodeWeight(s[id]))
  }

  /** Node `id`, which became too small, and a neighbour: if they have no more keys than the threshold, all keys are in
      the neighbour and the node is gone; otherwise the left one has half of the keys, rounded up, and the right one the
      others. The key of the right node is to be refreshed above unless it only received keys. */
  ghost predicate EvenedOut(c: Config, s: Store, s1: Store, left: nat, right: nat, id: nat, merged: bool,
          refresh: bool) {
    && left in s && right in s && left != right
    && var all := s[left].items + s[right].items;
       var m, n := if id == left then right else left, (|all| + 1) / 2;
       && (merged <==> |all| <= c.rebalanceThreshold)
       && if merged then id !in s1 && m in s1 && s1[m].items == all && !refresh
          else
            && left in s1 && right in s1 && s1[left].items == all[..n] && s1[right].items == all[n..]
            && (refresh <==> |s[right].items| >= |all| - n)
  }

  /** What a node of the path comes to when the weight of the item is taken off, and the key of a child that is gone. If
      it has fewer keys than the minimum and a neighbour under its parent, it is evened out with one: the right one if
      it is the first child, the left one otherwise. Else it is gone if it has no key left. */
  ghost predicate EraseStep(c: Config, s: Store, crumb: Crumb, parent: Option<Crumb>, remove: bool, gone: bool,
          refresh: bool)
    requires crumb.nodeId in s && (parent.Some? ==> parent.value.nodeId in s)
  {
    var node := s[crumb.nodeId];
    var n := |node.items| - (if remove then 1 else 0);
    if n < c.minItems && parent.Some? && |s[parent.value.nodeId].items| > 1 then
      var m := if parent.value.index == 0 then node.nextSibling else node.prevSibling;
      m in s && (gone <==> n + |s[m].items| <= c.rebalanceThreshold)
    else !refresh && (gone <==> n == 0)
  }

  /** The update of a node that comes before changes its keys and weight only. */
  lemma EraseStepPaired(c: Config, s: Store, sA: Store, crumb: Crumb, parent: Crumb, remove: bool, refresh0: bool,
          x: Item, gone: bool, refresh: bool, s1: Store)
    requires crumb.nodeId in s && parent.nodeId in s && parent.nodeId != crumb.nodeId
    requires crumb.index < |s[crumb.nodeId].items|
    requires refresh0 ==> !remove && crumb.index + 1 < |s[crumb.nodeId].items|
    requires sA == s[crumb.nodeId := ErasedNode(s[crumb.nodeId],
                     ErasedItems(s, s[crumb.nodeId].items, crumb.index, remove, refresh0), x)]
    requires |sA[crumb.nodeId].items| < c.minItems && |s[parent.nodeId].items| > 1
    requires var node := sA[crumb.nodeId];
             if parent.index == 0 then EvenedOut(c, sA, s1, crumb.nodeId, node.nextSibling, crumb.nodeId, gone, refresh)
             else EvenedOut(c, sA, s1, node.prevSibling, crumb.nodeId, crumb.nodeId, gone, refresh)
    ensures EraseStep(c, s, crumb, Some(parent), remove, gone, refresh)
  {
    hide SubMod;
    ErasedLength(s, s[crumb.nodeId].items, crumb.index, remove, refresh0);
  }

  lemma EraseStepAlone(c: Config, s: Store, sA: Store, crumb: Crumb, parent: Option<Crumb>, remove: bool,
          refresh0: bool, x: Item, gone: bool)
    requires crumb.nodeId in s && (parent.Some? ==> parent.value.nodeId in s && parent.value.nodeId != crumb.nodeId)
    requires crumb.index < |s[crumb.nodeId].items|
    requires refresh0 ==> !remove && crumb.index + 1 < |s[crumb.nodeId].items|
    requires sA == s[crumb.nodeId := ErasedNode(s[crumb.nodeId],
                     ErasedItems(s, s[crumb.nodeId].items, crumb.index, remove, refresh0), x)]
    requires !(|sA[crumb.nodeId].items| < c.minItems && parent.Some? && |sA[parent.value.nodeId].items| > 1)
    requires gone <==> sA[crumb.nodeId].items == []
    ensures EraseStep(c, s, crumb, parent, remove, gone, false)
  {
    hide SubMod;
    ErasedLength(s, s[crumb.nodeId].items, crumb.index, remove, refresh0);
  }

  lemma ErasedLength(s: Store, its: seq<Key>, i: nat, remove: bool, refresh: bool)
    requires i < |its| && (refresh ==> !remove && i + 1 < |its|)
    ensures |ErasedItems(s, its, i, remove, refresh)| == |its| - if remove then 1 else 0
  {
  }

  lemma MergedItems(c: Config, s: Store, s': Store, s1: Store, left: nat, right: nat, id: nat, m: nat)
    requires left in s && right in s && left != right && id in {left, right} && m == if id == left then right else left
    requires MergeStep(s, s', id, m, s[left].items + s[right].items)
    requires Unlinked(s', s1, id) && OthersKeep(s', s1, id, id)
    requires |s[left].items| + |s[right].items| <= c.rebalanceThreshold
    ensures EvenedOut(c, s, s1, left, right, id, true, false)
  {
    hide NodeWeight;
  }

  lemma SharedItems(c: Config, s: Store, s1: Store, left: nat, right: nat, id: nat, refresh: bool)
    requires left in s && right in s && left != right && (id == left || id == right)
    requires var all := s[left].items + s[right].items;
             && |all| > c.rebalanceThreshold && ShareStep(s, s1, left, right, all, (|all| + 1) / 2)
             && (refresh <==> |all| - (|all| + 1) / 2 <= |s[right].items|)
    ensures EvenedOut(c, s, s1, left, right, id, false, refresh)
  {
    hide Total;
  }

  /** A pass of the loop body starts by updating the node of the path. */
  ghost predicate Updated(t: Task, s: Store, sA: Store, k: nat, needsRemove: bool, neighbourRefresh: bool)
  {
    && TaskOk(t) && k < |t.levels0| && NodePos(t, k) < |t.levels0[k]|
    && PathNode(t, k) in s && Slot(t, k) < |s[PathNode(t, k)].items|
    && (neighbourRefresh ==> !needsRemove && Slot(t, k) + 1 < |s[PathNode(t, k)].items|)
    && sA == s[PathNode(t, k) := ErasedNode(s[PathNode(t, k)], PathItems(t, s, k, needsRemove, neighbourRefresh), t.x)]
  }

  /** The id of the neighbour that takes part. */
  ghost function PairId(t: Task, k: nat): nat
    requires TaskOk(t) && k + 1 < |t.levels0| && NodePos(t, k) < |t.levels0[k]| && PairStart(t, k) + 2 <= |t.levels0[k]|
  {
    t.levels0[k][if PairStart(t, k) == NodePos(t, k) then NodePos(t, k) + 1 else PairStart(t, k)]
  }

  /** The children listed in the node's new items and in its neighbours lie below the level. */
  lemma PathKeysBelow(t: Task, s: Store, nextId: nat, levels: seq<seq<nat>>, k: nat, needsRemove: bool,
          neighbourRefresh: bool, key: Key)
    requires Erasing(t, s, nextId, levels, k, needsRemove, neighbourRefresh) && k < |levels|
    requires NodePos(t, k) < |t.levels0[k]| && PathNode(t, k) in s && Slot(t, k) < |s[PathNode(t, k)].items|
    requires neighbourRefresh ==> !needsRemove && Slot(t, k) + 1 < |s[PathNode(t, k)].items|
    requires var ids, p := t.levels0[k], NodePos(t, k);
             || key in PathItems(t, s, k, needsRemove, neighbourRefresh)
             || key in Concat(t.s0, ids[..p]) || key in Concat(t.s0, ids[p + 1..])
    ensures key.nodeId !in t.levels0[k] && (key.nodeId == 0 || key.nodeId in s)
  {
    hide Rank, Concat, LevelsOk, TaskOk, WithoutItem, ErasedItems, ErasePending, AllDistinct, Untouched, NodesListed,
         Loss, AllThick, Below;
    var ids, p := t.levels0[k], NodePos(t, k);
    var contents1 := WithoutItem(t.contents, t.x);
    var below := Below(s, contents1, levels, k);
    PathPending(t, s, nextId, levels, k, needsRemove, neighbourRefresh);
    PendingBelow(t.s0, s, ids, below, p, PathItems(t, s, k, needsRemove, neighbourRefresh), Loss(t.x));
    assert key in below;
    var g :| 0 <= g < |below| && below[g] == key;
    BelowIds(t.c, t.s0, s, nextId, contents1, t.levels0, levels, k, g);
    ZeroNotListed(t, s, nextId, levels, k, needsRemove, neighbourRefresh);
  }

  lemma ZeroNotListed(t: Task, s: Store, nextId: nat, levels: seq<seq<nat>>, k: nat, needsRemove: bool,
          neighbourRefresh: bool)
    requires Erasing(t, s, nextId, levels, k, needsRemove, neighbourRefresh) && k < |levels|
    ensures 0 !in t.levels0[k] && levels[k] == t.levels0[k]
  {
    hide ErasePending, AllDistinct, AllThick;
    EraseNode(t, s, nextId, levels, k, needsRemove, neighbourRefresh);
    ClimbLevel(t, s, nextId, levels, k, needsRemove, neighbourRefresh);
  }

  /** None of the node's new keys points back into the level, so its slots can be refreshed in place. */
  lemma PathKeysElsewhere(t: Task, s: Store, nextId: nat, levels: seq<seq<nat>>, k: nat, needsRemove: bool,
          neighbourRefresh: bool)
    requires Erasing(t, s, nextId, levels, k, needsRemove, neighbourRefresh) && k < |levels|
    ensures NodePos(t, k) < |t.levels0[k]| && PathNode(t, k) in s && Slot(t, k) < |s[PathNode(t, k)].items|
    ensures neighbourRefresh ==> !needsRemove && Slot(t, k) + 1 < |s[PathNode(t, k)].items|
    ensures NoKeyTo(PathItems(t, s, k, needsRemove, neighbourRefresh), PathNode(t, k), PathNode(t, k))
    ensures NoneMissing(s, PathItems(t, s, k, needsRemove, neighbourRefresh))
  {
    hide Climb, ErasePending, AllThick, ErasedItems, TaskOk;
    PathPending(t, s, nextId, levels, k, needsRemove, neighbourRefresh);
    var its := PathItems(t, s, k, needsRemove, neighbourRefresh);
    var id := PathNode(t, k);
    forall i | 0 <= i < |its| ensures its[i].nodeId != id && (its[i].nodeId == 0 || its[i].nodeId in s) {
      PathKeysBelow(t, s, nextId, levels, k, needsRemove, neighbourRefresh, its[i]);
      assert id in t.levels0[k];
    }
  }

  /** Node and neighbour after the update: linked to each other, weighed, and with no keys between them. */
  lemma PairPrepared(t: Task, s: Store, sA: Store, nextId: nat, levels: seq<seq<nat>>, k: nat, needsRemove: bool,
          neighbourRefresh: bool)
    requires Erasing(t, s, nextId, levels, k, needsRemove, neighbourRefresh) && k < |levels|
    requires Updated(t, s, sA, k, needsRemove, neighbourRefresh)
    requires PairReady(t, s, k, needsRemove, neighbourRefresh)
    ensures var id, m := PathNode(t, k), PairId(t, k);
            && m in s && m != id && m in sA && sA[m] == s[m] == t.s0[m] && id in t.s0 && s[id] == t.s0[id] && m in t.s0
            && (if PairStart(t, k) == NodePos(t, k) then sA[id].nextSibling else sA[id].prevSibling) == m
            && (if PairStart(t, k) == NodePos(t, k) then sA[m].prevSibling else sA[m].nextSibling) == id
            && WeightOk(sA, id) && WeightOk(sA, m)
            && NoKeyTo(sA[id].items, id, m) && NoKeyTo(sA[m].items, id, m)
            && NoneMissing(sA, sA[id].items) && NoneMissing(sA, sA[m].items)
            && (if PairStart(t, k) == NodePos(t, k)
                then Pair(t, s, k, needsRemove, neighbourRefresh) == sA[id].items + sA[m].items
                     && t.levels0[k][PairStart(t, k)] == id && t.levels0[k][PairStart(t, k) + 1] == m
                else Pair(t, s, k, needsRemove, neighbourRefresh) == sA[m].items + sA[id].items
                     && t.levels0[k][PairStart(t, k)] == m && t.levels0[k][PairStart(t, k) + 1] == id)
  {
    hide Rank, Concat, TaskOk, Climb, WithoutItem, ErasedItems, ErasePending, AllThick, NodesListed, Untouched,
         LevelOk, WeightOk, NoKeyTo, NoneMissing;
    EraseNode(t, s, nextId, levels, k, needsRemove, neighbourRefresh);
    var ids, p, id, a := t.levels0[k], NodePos(t, k), PathNode(t, k), PairStart(t, k);
    var m := PairId(t, k);
    assert id in ids && m in ids;
    PairLinks(t.c, t.s0, Concat(t.s0, ids), ids, a);
    UntouchedAt(t.s0, s, ids, m);
    UntouchedAt(t.s0, s, ids, id);
    PairKeysElsewhere(t, s, nextId, levels, k, needsRemove, neighbourRefresh);
    StillStored(s, sA, PathItems(t, s, k, needsRemove, neighbourRefresh));
    StillStored(s, sA, Items(t.s0, m));
    PathWeighed(t, s, sA, nextId, levels, k, needsRemove, neighbourRefresh);
    NeighbourWeighed(t, s, sA, nextId, levels, k, needsRemove, neighbourRefresh);
  }

  lemma StillStored(s: Store, s': Store, keys: seq<Key>)
    requires NoneMissing(s, keys) && s.Keys <= s'.Keys
    ensures NoneMissing(s', keys)
  {
  }

  lemma PairLinks(c: Config, s0: Store, below: seq<Key>, ids: seq<nat>, a: nat)
    requires LevelOk(c, s0, below, ids) && a + 2 <= |ids|
    ensures ids[a] in s0 && ids[a + 1] in s0 && ids[a] != ids[a + 1]
    ensures s0[ids[a]].nextSibling == ids[a + 1] && s0[ids[a + 1]].prevSibling == ids[a]
  {
    hide Concat, Sized, Weighed;
    assert LinkOk(s0, ids, a) && LinkOk(s0, ids, a + 1);
  }

  lemma PairKeysElsewhere(t: Task, s: Store, nextId: nat, levels: seq<seq<nat>>, k: nat, needsRemove: bool,
          neighbourRefresh: bool)
    requires Erasing(t, s, nextId, levels, k, needsRemove, neighbourRefresh) && k < |levels|
    requires PairReady(t, s, k, needsRemove, neighbourRefresh)
    ensures var id, m := PathNode(t, k), PairId(t, k);
            && NoKeyTo(PathItems(t, s, k, needsRemove, neighbourRefresh), id, m) && NoKeyTo(Items(t.s0, m), id, m)
            && NoneMissing(s, PathItems(t, s, k, needsRemove, neighbourRefresh)) && NoneMissing(s, Items(t.s0, m))
  {
    hide Concat, Climb, ErasePending, AllThick, ErasedItems, TaskOk, Items;
    var ids, p, id, m := t.levels0[k], NodePos(t, k), PathNode(t, k), PairId(t, k);
    assert id in ids && m in ids;
    var its := PathItems(t, s, k, needsRemove, neighbourRefresh);
    forall i | 0 <= i < |its|
      ensures its[i].nodeId != id && its[i].nodeId != m && (its[i].nodeId == 0 || its[i].nodeId in s)
    {
      PathKeysBelow(t, s, nextId, levels, k, needsRemove, neighbourRefresh, its[i]);
    }
    NeighbourItems(t.s0, ids, p, if PairStart(t, k) == p then p + 1 else PairStart(t, k));
    var w := Items(t.s0, m);
    forall i | 0 <= i < |w| ensures w[i].nodeId != id && w[i].nodeId != m && (w[i].nodeId == 0 || w[i].nodeId in s) {
      assert w[i] in w;
      PathKeysBelow(t, s, nextId, levels, k, needsRemove, neighbourRefresh, w[i]);
    }
  }

  lemma NeighbourItems(s0: Store, ids: seq<nat>, p: nat, j: nat)
    requires p < |ids| && j < |ids| && (j == p + 1 || j + 1 == p)
    ensures forall key :: key in Items(s0, ids[j]) ==> key in Concat(s0, ids[..p]) || key in Concat(s0, ids[p + 1..])
  {
    hide Concat, Items;
    if j == p + 1 {
      assert ids[p + 1..][0] == ids[j];
      ConcatAround(s0, ids[p + 1..], 0);
    } else {
      assert ids[..p][j] == ids[j];
      ConcatAround(s0, ids[..p], j);
    }
  }

  lemma PathWeighed(t: Task, s: Store, sA: Store, nextId: nat, levels: seq<seq<nat>>, k: nat, needsRemove: bool,
          neighbourRefresh: bool)
    requires Erasing(t, s, nextId, levels, k, needsRemove, neighbourRefresh) && k < |levels|
    requires Updated(t, s, sA, k, needsRemove, neighbourRefresh)
    requires NoKeyTo(PathItems(t, s, k, needsRemove, neighbourRefresh), PathNode(t, k), PathNode(t, k))
             || (PairReady(t, s, k, needsRemove, neighbourRefresh)
                 && NoKeyTo(PathItems(t, s, k, needsRemove, neighbourRefresh), PathNode(t, k), PairId(t, k)))
    ensures WeightOk(sA, PathNode(t, k))
  {
    hide Rank, Concat, TaskOk, Climb, WithoutItem, ErasedItems, ErasePending, Loss, AllThick, Total, Plus, LevelOk,
         Untouched, SameWeights, PairReady, NodesListed;
    EraseNode(t, s, nextId, levels, k, needsRemove, neighbourRefresh);
    PathPending(t, s, nextId, levels, k, needsRemove, neighbourRefresh);
    var ids, p, id := t.levels0[k], NodePos(t, k), PathNode(t, k);
    var its := PathItems(t, s, k, needsRemove, neighbourRefresh);
    assert id in ids;
    UntouchedAt(t.s0, s, ids, id);
    LevelWeight(t.c, t.s0, Concat(t.s0, ids), ids, p);
    PlusLoss(NodeWeight(s[id]), t.x);
    forall key | key in its ensures KeyWeight(s, key) == KeyWeight(sA, key) {
      var i :| 0 <= i < |its| && its[i] == key;
    }
    TotalFrame(s, sA, its);
  }

  lemma LevelWeight(c: Config, s: Store, below: seq<Key>, ids: seq<nat>, j: nat)
    requires LevelOk(c, s, below, ids) && j < |ids|
    ensures WeightOk(s, ids[j])
  {
  }

  lemma NeighbourWeighed(t: Task, s: Store, sA: Store, nextId: nat, levels: seq<seq<nat>>, k: nat, needsRemove: bool,
          neighbourRefresh: bool)
    requires Erasing(t, s, nextId, levels, k, needsRemove, neighbourRefresh) && k < |levels|
    requires Updated(t, s, sA, k, needsRemove, neighbourRefresh)
    requires PairReady(t, s, k, needsRemove, neighbourRefresh)
    requires NoKeyTo(Items(t.s0, PairId(t, k)), PathNode(t, k), PairId(t, k))
    requires PairId(t, k) in t.s0 && PairId(t, k) in sA && sA[PairId(t, k)] == t.s0[PairId(t, k)]
    ensures WeightOk(sA, PairId(t, k))
  {
    hide Erasing, Rank, Concat, TaskOk, WithoutItem, PathItems, Loss, Total, Plus, LevelOk, Untouched, SameWeights,
         NodesListed, NoKeyTo, Pending, Below, ErasedNode;
    ErasingBasics(t, s, nextId, levels, k, needsRemove, neighbourRefresh);
    EraseNode(t, s, nextId, levels, k, needsRemove, neighbourRefresh);
    PathPending(t, s, nextId, levels, k, needsRemove, neighbourRefresh);
    var ids, p, m := t.levels0[k], NodePos(t, k), PairId(t, k);
    var below := Below(s, WithoutItem(t.contents, t.x), levels, k);
    SidesKept(t.s0, s, ids, below, p, PathItems(t, s, k, needsRemove, neighbourRefresh), Loss(t.x));
    var j := if PairStart(t, k) == p then p + 1 else PairStart(t, k);
    LevelWeight(t.c, t.s0, Concat(t.s0, ids), ids, j);
    NeighbourItems(t.s0, ids, p, j);
    KeptWeight(t.s0, s, sA, Concat(t.s0, ids[..p]), Concat(t.s0, ids[p + 1..]), Items(t.s0, m), PathNode(t, k), m);
  }

  lemma SidesKept(s0: Store, s: Store, ids: seq<nat>, below: seq<Key>, p: nat, its: seq<Key>, delta: Weight)
    requires Pending(s0, s, ids, below, p, its, delta)
    ensures p < |ids| && SameWeights(s0, s, Concat(s0, ids[..p])) && SameWeights(s0, s, Concat(s0, ids[p + 1..]))
  {
  }

  /** Keys that do not point to the updated node `id` weigh what they did. */
  lemma KeptWeight(s0: Store, s: Store, sA: Store, a: seq<Key>, b: seq<Key>, w: seq<Key>, id: nat, m: nat)
    requires SameWeights(s0, s, a) && SameWeights(s0, s, b) && forall key :: key in w ==> key in a || key in b
    requires sA.Keys == s.Keys && forall i :: i in s && i != id ==> sA[i] == s[i]
    requires NoKeyTo(w, id, m)
    ensures Total(sA, w) == Total(s0, w)
  {
    hide Total, Plus, SameWeights;
    forall key | key in w ensures KeyWeight(s0, key) == KeyWeight(sA, key) {
      var i :| 0 <= i < |w| && w[i] == key;
      SameWeightsAt(s0, s, a, b, key);
    }
    TotalFrame(s0, sA, w);
  }

  lemma SameWeightsAt(s: Store, s': Store, a: seq<Key>, b: seq<Key>, key: Key)
    requires SameWeights(s, s', a) && SameWeights(s, s', b) && (key in a || key in b)
    ensures KeyWeight(s, key) == KeyWeight(s', key)
  {
  }

  /** Refreshing does not change which children the keys point to. */
  lemma ErasedIds(s: Store, its0: seq<Key>, i: nat, needsRemove: bool, neighbourRefresh: bool)
    requires i < |its0| && (neighbourRefresh ==> !needsRemove && i + 1 < |its0|)
    ensures var items := if needsRemove then RemovedAt(its0, i) else its0;
            var its := ErasedItems(s, its0, i, needsRemove, neighbourRefresh);
            && |its| == |items| && (forall j :: 0 <= j < |items| ==> its[j].nodeId == items[j].nodeId)
            && (i < |items| && neighbourRefresh ==> Refreshed(s, items, i)[i + 1].nodeId == its[i + 1].nodeId)
  {
  }

  /** Refreshing a slot looks only at the child it points to. */
  lemma RefreshedSame(s: Store, s': Store, items: seq<Key>, i: nat, id: nat)
    requires i < |items| && items[i].nodeId != id && s'.Keys == s.Keys
    requires forall j :: j in s && j != id ==> s'[j] == s[j]
    ensures Refreshed(s', items, i) == Refreshed(s, items, i)
  {
  }

  /** Moving keys from one node to another moves their weight. */
  lemma MovedWeights(s: Store, a: seq<Key>, moved: seq<Key>, b: seq<Key>)
    ensures Plus(Total(s, a), Total(s, moved)) == Total(s, a + moved)
    ensures Plus(Total(s, b), Total(s, moved)) == Total(s, moved + b)
    ensures Minus(Total(s, moved + b), Total(s, moved)) == Total(s, b)
    ensures Minus(Total(s, a + moved), Total(s, moved)) == Total(s, a)
  {
    hide Total, Plus, Minus;
    TotalConcat(s, a, moved);
    TotalConcat(s, moved, b);
    PlusLaws(Total(s, a), Total(s, moved), NOTHING);
    PlusLaws(Total(s, b), Total(s, moved), NOTHING);
  }

  /** The parent is as it was, and the next breadcrumb names it and the node's slot in it. */
  lemma ParentCrumb(t: Task, s: Store, nextId: nat, levels: seq<seq<nat>>, k: nat, needsRemove: bool,
          neighbourRefresh: bool)
    requires Erasing(t, s, nextId, levels, k, needsRemove, neighbourRefresh) && k + 1 < |levels|
    requires NodePos(t, k) < |t.levels0[k]|
    ensures var crumb := t.crumbs[|t.levels0| - 2 - k];
            && crumb.nodeId in s && |s[crumb.nodeId].items| == ParentSize(t, k) && crumb.nodeId != PathNode(t, k)
            && crumb.index == Slot(t, k + 1)
  {
    hide Erasing, TaskOk, Climb, AllThick, WithoutItem, ErasedItems, KeyPos, Items;
    ErasingBasics(t, s, nextId, levels, k, needsRemove, neighbourRefresh);
    PathAt(t, k);
    PathAt(t, k + 1);
    ParentKept(t, s, nextId, levels, k, needsRemove, neighbourRefresh);
  }

  /** The node above is as it was and is another one. */
  lemma ParentKept(t: Task, s: Store, nextId: nat, levels: seq<seq<nat>>, k: nat, needsRemove: bool,
          neighbourRefresh: bool)
    requires Erasing(t, s, nextId, levels, k, needsRemove, neighbourRefresh) && k + 1 < |levels|
    requires NodePos(t, k) < |t.levels0[k]| && NodePos(t, k + 1) < |t.levels0[k + 1]|
    ensures var id := t.levels0[k + 1][NodePos(t, k + 1)];
            id in s && s[id].items == Items(t.s0, id) && id != PathNode(t, k)
  {
    hide LevelsOk, PathOk, NodesListed, ErasePending, AllThick, AllDistinct, Untouched, AscendingItems;
    var up, q := t.levels0[k + 1], NodePos(t, k + 1);
    UntouchedAt(t.s0, s, up, up[q]);
    DistinctNodes(levels, k, NodePos(t, k), q);
  }

  lemma DistinctNodes(levels: seq<seq<nat>>, k: nat, p: nat, q: nat)
    requires AllDistinct(levels) && k + 1 < |levels| && p < |levels[k]| && q < |levels[k + 1]|
    ensures levels[k][p] != levels[k + 1][q]
  {
    assert Apart(levels[k], levels[k + 1]);
  }

  /** The siblings of the path's node are in the store, or 0. */
  lemma PathSiblings(t: Task, s: Store, nextId: nat, levels: seq<seq<nat>>, k: nat, needsRemove: bool,
          neighbourRefresh: bool)
    requires Erasing(t, s, nextId, levels, k, needsRemove, neighbourRefresh) && k < |levels|
    ensures NodePos(t, k) < |t.levels0[k]| && PathNode(t, k) in s && 0 !in s
    ensures SiblingsOk(s, PathNode(t, k))
  {
    hide TaskOk, Climb, Concat, Sized, Weighed, ErasePending, AllThick, NodesListed;
    EraseNode(t, s, nextId, levels, k, needsRemove, neighbourRefresh);
    var ids, p := t.levels0[k], NodePos(t, k);
    assert LinkOk(t.s0, ids, p);
    assert ids[p] in ids && (p > 0 ==> ids[p - 1] in ids) && (p + 1 < |ids| ==> ids[p + 1] in ids);
  }

  ghost predicate SiblingsOk(s: Store, id: nat) {
    && id in s
    && (s[id].prevSibling == 0 || (s[id].prevSibling in s && s[id].prevSibling != id))
    && (s[id].nextSibling == 0 || (s[id].nextSibling in s && s[id].nextSibling != id))
    && (s[id].prevSibling == s[id].nextSibling ==> s[id].prevSibling == 0)
  }

  /** Taking weight off a node does not touch its items, and changing its items then does not touch the weight. */
  lemma ErasedAgain(n0: Node, items: seq<Key>, x: Item)
    ensures ErasedNode(n0, items, x).items == items
    ensures forall more: seq<Key> :: ErasedNode(n0, items, x).(items := more) == ErasedNode(n0, more, x)
  {
  }

  /** A node is bypassed by its siblings' links. */
  ghost function Bypassed(s: Store, id: nat): Store
    requires SiblingsOk(s, id)
  {
    var prev, next := s[id].prevSibling, s[id].nextSibling;
    var s1 := if prev != 0 then s[prev := s[prev].(nextSibling := next)] else s;
    if next != 0 then s1[next := s1[next].(prevSibling := prev)] else s1
  }

  lemma BypassedIsUnlinked(s: Store, id: nat)
    requires SiblingsOk(s, id) && 0 !in s
    ensures Unlinked(s, Bypassed(s, id) - {id}, id) && OthersKeep(s, Bypassed(s, id) - {id}, id, id)
  {
  }

  /** Node `id` moves its items to its right neighbour `m`, which takes over its left link. */
  lemma MergedRight(s: Store, s1: Store, s': Store, id: nat, m: nat, all: seq<Key>)
    requires SiblingsOk(s, id) && 0 !in s && m in s && s[id].nextSibling == m
    requires var prev := s[id].prevSibling;
             s1 == if prev != 0 then s[prev := s[prev].(nextSibling := m)] else s
    requires s' == s1[m := Node(all, s[m].accumCount + s[id].accumCount, s[m].nextSibling,
                                s[id].prevSibling, AddMod(s[m].accum, s[id].accum))][id := s[id].(items := [])]
    ensures MergeStep(s, s', id, m, all)
  {
    hide AddMod;
    var prev := s[id].prevSibling;
    MergedOthers(s, s1, s', id, m, prev, s'[m]);
    if prev != 0 {
      assert s'[prev] == s[prev].(nextSibling := m);
    }
  }

  /** All nodes but the two that merge and the one beside them stay as they were. */
  lemma MergedOthers(s: Store, s1: Store, s': Store, id: nat, m: nat, beside: nat, node: Node)
    requires id in s && m in s && id != m && 0 !in s
    requires s1.Keys == s.Keys && forall i :: i in s && i != beside ==> s1[i] == s[i]
    requires s' == s1[m := node][id := s[id].(items := [])]
    ensures s'.Keys == s.Keys && s'[m] == node && s'[id] == s[id].(items := [])
    ensures forall i :: i in s && i != id && i != m && i != beside ==> s'[i] == s[i]
  {
  }

  /** Node `id` moves its items to its left neighbour `m`, which takes over its right link. */
  lemma MergedLeft(s: Store, s1: Store, s': Store, id: nat, m: nat, all: seq<Key>)
    requires SiblingsOk(s, id) && 0 !in s && m in s && s[id].prevSibling == m
    requires var next := s[id].nextSibling;
             s1 == if next != 0 then s[next := s[next].(prevSibling := m)] else s
    requires s' == s1[m := Node(all, s[m].accumCount + s[id].accumCount, s[id].nextSibling,
                                s[m].prevSibling, AddMod(s[m].accum, s[id].accum))][id := s[id].(items := [])]
    ensures MergeStep(s, s', id, m, all)
  {
    hide AddMod;
    var next := s[id].nextSibling;
    MergedOthers(s, s1, s', id, m, next, s'[m]);
    if next != 0 {
      assert s'[next] == s[next].(prevSibling := m);
    }
  }

  /** The first `n` keys of node `r` went to node `l`. */
  lemma SharedToLeft(s: Store, s': Store, l: nat, r: nat, n: nat, w: Weight)
    requires WeightOk(s, l) && WeightOk(s, r) && l != r && n <= |s[r].items| && w == Total(s, s[r].items[..n])
    requires s' == s[l := s[l].(items := s[l].items + s[r].items[..n], accum := AddMod(s[l].accum, w.sum),
                                accumCount := s[l].accumCount + w.count)]
                    [r := s[r].(items := s[r].items[n..], accum := SubMod(s[r].accum, w.sum),
                                accumCount := s[r].accumCount - w.count)]
    ensures ShareStep(s, s', l, r, s[l].items + s[r].items, |s[l].items| + n)
  {
    hide Total, AddMod, SubMod;
    var a, moved, b := s[l].items, s[r].items[..n], s[r].items[n..];
    var all := a + s[r].items;
    assert a + moved == all[..|a| + n] && b == all[|a| + n..] && s[r].items == moved + b;
    MovedWeights(s, a, moved, b);
  }

  /** The last `n` keys of node `l` went to node `r`. */
  lemma SharedToRight(s: Store, s': Store, l: nat, r: nat, n: nat, w: Weight)
    requires WeightOk(s, l) && WeightOk(s, r) && l != r && n <= |s[l].items|
    requires w == Total(s, s[l].items[|s[l].items| - n..])
    requires s' == s[r := s[r].(items := s[l].items[|s[l].items| - n..] + s[r].items,
                                accum := AddMod(s[r].accum, w.sum), accumCount := s[r].accumCount + w.count)]
                    [l := s[l].(items := s[l].items[..|s[l].items| - n], accum := SubMod(s[l].accum, w.sum),
                                accumCount := s[l].accumCount - w.count)]
    ensures ShareStep(s, s', l, r, s[l].items + s[r].items, |s[l].items| - n)
  {
    hide Total, AddMod, SubMod;
    var a, moved, b := s[l].items[..|s[l].items| - n], s[l].items[|s[l].items| - n..], s[r].items;
    var all := s[l].items + b;
    assert moved + b == all[|a|..] && a == all[..|a|] && s[l].items == a + moved;
    MovedWeights(s, a, moved, b);
  }

  /** Updating the node leaves its links alone. */
  lemma UpdatedSiblings(t: Task, s: Store, sA: Store, nextId: nat, levels: seq<seq<nat>>, k: nat, needsRemove: bool,
          neighbourRefresh: bool)
    requires Erasing(t, s, nextId, levels, k, needsRemove, neighbourRefresh) && k < |levels|
    requires Updated(t, s, sA, k, needsRemove, neighbourRefresh)
    ensures SiblingsOk(sA, PathNode(t, k)) && 0 !in sA
  {
    hide Erasing, TaskOk, ErasedItems;
    PathSiblings(t, s, nextId, levels, k, needsRemove, neighbourRefresh);
  }

  lemma MergedSiblings(s: Store, s': Store, id: nat, m: nat, items: seq<Key>)
    requires SiblingsOk(s, id) && MergeStep(s, s', id, m, items) && 0 !in s
    ensures SiblingsOk(s', id) && 0 !in s'
  {
  }

  lemma NoKeyToSwap(keys: seq<Key>, a: nat, b: nat)
    requires NoKeyTo(keys, a, b)
    ensures NoKeyTo(keys, b, a)
  {
  }

  // ---------- A whole pass of the loop body ----------

  lemma PassReplaces(t: Task, s: Store, sA: Store, nextId: nat, levels: seq<seq<nat>>, k: nat, needsRemove: bool,
          neighbourRefresh: bool)
    requires Erasing(t, s, nextId, levels, k, needsRemove, neighbourRefresh) && k < |levels|
    requires Updated(t, s, sA, k, needsRemove, neighbourRefresh)
    requires var its := PathItems(t, s, k, needsRemove, neighbourRefresh); Stays(t, k, its) && its != []
    ensures Erasing(t, sA, nextId, levels, k + 1, false, false)
  {
    hide Erasing, TaskOk, Stays, ErasedItems;
    EraseReplaces(t, s, sA, nextId, levels, k, needsRemove, neighbourRefresh);
  }

  lemma PassDrops(t: Task, s: Store, sA: Store, s1: Store, nextId: nat, levels: seq<seq<nat>>, k: nat,
          needsRemove: bool, neighbourRefresh: bool)
    requires Erasing(t, s, nextId, levels, k, needsRemove, neighbourRefresh) && k < |levels|
    requires Updated(t, s, sA, k, needsRemove, neighbourRefresh)
    requires var its := PathItems(t, s, k, needsRemove, neighbourRefresh); Stays(t, k, its) && its == []
    requires Unlinked(sA, s1, PathNode(t, k)) && OthersKeep(sA, s1, PathNode(t, k), PathNode(t, k))
    ensures Possible(t, k, Drop)
    ensures Erasing(t, s1, nextId, levels[k := NewLevel(t, k, Drop)], k + 1, true, false)
  {
    hide Erasing, TaskOk, Stays, ErasedItems;
    EraseDrops(t, s, s1, nextId, levels, k, needsRemove, neighbourRefresh);
  }

  lemma PassMerges(t: Task, s: Store, sA: Store, s': Store, s1: Store, nextId: nat, levels: seq<seq<nat>>, k: nat,
          needsRemove: bool, neighbourRefresh: bool)
    requires Erasing(t, s, nextId, levels, k, needsRemove, neighbourRefresh) && k < |levels|
    requires Updated(t, s, sA, k, needsRemove, neighbourRefresh) && PairReady(t, s, k, needsRemove, neighbourRefresh)
    requires !Stays(t, k, PathItems(t, s, k, needsRemove, neighbourRefresh))
    requires |Pair(t, s, k, needsRemove, neighbourRefresh)| <= t.c.maxItems
    requires MergeStep(sA, s', PathNode(t, k), PairId(t, k), Pair(t, s, k, needsRemove, neighbourRefresh))
    requires Unlinked(s', s1, PathNode(t, k)) && OthersKeep(s', s1, PathNode(t, k), PathNode(t, k))
    ensures var o := if PairStart(t, k) == NodePos(t, k) then MergeRight else MergeLeft;
            Possible(t, k, o) && Erasing(t, s1, nextId, levels[k := NewLevel(t, k, o)], k + 1, true, false)
  {
    hide Erasing, TaskOk, Stays, ErasedItems, Pair, Minus, Plus;
    PairPrepared(t, s, sA, nextId, levels, k, needsRemove, neighbourRefresh);
    MergedTogether(t, s, sA, s', s1, k, needsRemove, neighbourRefresh);
    EraseMerges(t, s, s1, nextId, levels, k, needsRemove, neighbourRefresh);
  }

  lemma ErasedWeight(n0: Node, its: seq<Key>, x: Item)
    ensures NodeWeight(ErasedNode(n0, its, x)) == Minus(NodeWeight(n0), ItemWeight(x))
  {
  }

  /** Node `id` changes, hands its items to `m` and is deleted. */
  lemma MergedTwice(s: Store, sA: Store, s': Store, s1: Store, id: nat, m: nat, items: seq<Key>)
    requires id in s && m in s && id != m && sA.Keys == s.Keys && (forall i :: i in s && i != id ==> sA[i] == s[i])
    requires SameLinks(s, sA, id)
    requires MergeStep(sA, s', id, m, items) && Unlinked(s', s1, id) && OthersKeep(s', s1, id, id)
    ensures Unlinked(s, s1, id) && OthersKeep(s, s1, id, m) && m in s1 && s1[m].items == items
    ensures NodeWeight(s1[m]) == Plus(NodeWeight(s[m]), NodeWeight(sA[id]))
  {
    hide Plus;
  }

  /** Updating the node, merging it into its neighbour and deleting it, taken together. */
  lemma MergedTogether(t: Task, s: Store, sA: Store, s': Store, s1: Store, k: nat, needsRemove: bool,
          neighbourRefresh: bool)
    requires Updated(t, s, sA, k, needsRemove, neighbourRefresh) && PairReady(t, s, k, needsRemove, neighbourRefresh)
    requires PairId(t, k) in s && PairId(t, k) != PathNode(t, k)
    requires MergeStep(sA, s', PathNode(t, k), PairId(t, k), Pair(t, s, k, needsRemove, neighbourRefresh))
    requires Unlinked(s', s1, PathNode(t, k)) && OthersKeep(s', s1, PathNode(t, k), PathNode(t, k))
    ensures MergedStore(t, s, s1, k, needsRemove, neighbourRefresh)
  {
    hide TaskOk, PathItems, Pair, Plus, Minus, MergeStep, Unlinked, OthersKeep, SubMod;
    var id, m := PathNode(t, k), PairId(t, k);
    assert NodeWeight(sA[id]) == Minus(NodeWeight(s[id]), ItemWeight(t.x)) by {
      ErasedWeight(s[id], PathItems(t, s, k, needsRemove, neighbourRefresh), t.x);
    }
    MergedTwice(s, sA, s', s1, id, m, Pair(t, s, k, needsRemove, neighbourRefresh));
  }

  lemma PassRebalances(t: Task, s: Store, sA: Store, s1: Store, nextId: nat, levels: seq<seq<nat>>, k: nat,
          needsRemove: bool, neighbourRefresh: bool)
    requires Erasing(t, s, nextId, levels, k, needsRemove, neighbourRefresh) && k < |levels|
    requires Updated(t, s, sA, k, needsRemove, neighbourRefresh) && PairReady(t, s, k, needsRemove, neighbourRefresh)
    requires !Stays(t, k, PathItems(t, s, k, needsRemove, neighbourRefresh))
    requires var pair := Pair(t, s, k, needsRemove, neighbourRefresh);
             && |pair| > 2 * t.c.minItems
             && ShareStep(sA, s1, t.levels0[k][PairStart(t, k)], t.levels0[k][PairStart(t, k) + 1], pair,
                          (|pair| + 1) / 2)
    ensures var o := if PairStart(t, k) == NodePos(t, k) then RebalanceRight else RebalanceLeft;
            Possible(t, k, o) && NewLevel(t, k, o) == t.levels0[k]
              && Erasing(t, s1, nextId, levels, k + 1, false, o.RebalanceRight?)
  {
    hide Erasing, TaskOk, Stays, ErasedItems, Pair, Total, Updated, PairReady, ShareStep, RebalancedStore, PathItems;
    SharedStore(t, s, sA, s1, nextId, levels, k, needsRemove, neighbourRefresh);
    EraseRebalances(t, s, s1, nextId, levels, k, needsRemove, neighbourRefresh);
  }

  lemma SharedStore(t: Task, s: Store, sA: Store, s1: Store, nextId: nat, levels: seq<seq<nat>>, k: nat,
          needsRemove: bool, neighbourRefresh: bool)
    requires Erasing(t, s, nextId, levels, k, needsRemove, neighbourRefresh) && k < |levels|
    requires Updated(t, s, sA, k, needsRemove, neighbourRefresh) && PairReady(t, s, k, needsRemove, neighbourRefresh)
    requires var pair := Pair(t, s, k, needsRemove, neighbourRefresh);
             && |pair| > 2 * t.c.minItems
             && ShareStep(sA, s1, t.levels0[k][PairStart(t, k)], t.levels0[k][PairStart(t, k) + 1], pair,
                          (|pair| + 1) / 2)
    ensures RebalancedStore(t, s, s1, k, needsRemove, neighbourRefresh)
  {
    hide Erasing, TaskOk, Stays, ErasedItems, Pair, Total, PathItems, Slot, Possible, WeightOk, NoKeyTo, ShareStep,
         NoneMissing, ErasedNode;
    var pair := Pair(t, s, k, needsRemove, neighbourRefresh);
    PairPrepared(t, s, sA, nextId, levels, k, needsRemove, neighbourRefresh);
    PairTotalsBefore(t, s, sA, nextId, levels, k, needsRemove, neighbourRefresh, (|pair| + 1) / 2);
    ErasedLinks(s[PathNode(t, k)], PathItems(t, s, k, needsRemove, neighbourRefresh), t.x);
    SharedBefore(s, sA, s1, t.levels0[k][PairStart(t, k)], t.levels0[k][PairStart(t, k) + 1], pair, (|pair| + 1) / 2);
  }

  lemma ErasedLinks(n0: Node, items: seq<Key>, x: Item)
    ensures var n := ErasedNode(n0, items, x); n.nextSibling == n0.nextSibling && n.prevSibling == n0.prevSibling
  {
  }

  /** Seen from the store before the node was updated. */
  lemma SharedBefore(s: Store, sA: Store, s1: Store, l: nat, r: nat, all: seq<Key>, n: nat)
    requires ShareStep(sA, s1, l, r, all, n) && sA.Keys == s.Keys && l in s && r in s
    requires forall i :: i in s && i != l && i != r ==> sA[i] == s[i]
    requires SameLinks(s, sA, l) && SameLinks(s, sA, r)
    requires Total(sA, all[..n]) == Total(s, all[..n]) && Total(sA, all[n..]) == Total(s, all[n..])
    ensures ShareStep(s, s1, l, r, all, n)
  {
    hide Total;
  }

  lemma PairTotalsBefore(t: Task, s: Store, sA: Store, nextId: nat, levels: seq<seq<nat>>, k: nat, needsRemove: bool,
                         neighbourRefresh: bool, n: nat)
    requires Erasing(t, s, nextId, levels, k, needsRemove, neighbourRefresh) && k < |levels|
    requires Updated(t, s, sA, k, needsRemove, neighbourRefresh) && PairReady(t, s, k, needsRemove, neighbourRefresh)
    requires n <= |Pair(t, s, k, needsRemove, neighbourRefresh)|
    ensures var pair := Pair(t, s, k, needsRemove, neighbourRefresh);
            Total(sA, pair[..n]) == Total(s, pair[..n]) && Total(sA, pair[n..]) == Total(s, pair[n..])
  {
    hide Erasing, TaskOk, PathItems, Total, Items, ErasedNode;
    var pair := Pair(t, s, k, needsRemove, neighbourRefresh);
    PairKeysElsewhere(t, s, nextId, levels, k, needsRemove, neighbourRefresh);
    forall key | key in pair ensures KeyWeight(s, key) == KeyWeight(sA, key) {
      var i :| 0 <= i < |pair| && pair[i] == key;
    }
    assert pair == [] + pair + [];
    PartTotals(s, sA, pair, [], pair, [], n);
  }

  // ---------- After the loop ----------

  /** The root has enough children left: nothing more to do. */
  lemma EraseEnds(t: Task, s: Store, root: nat, nextId: nat, levels: seq<seq<nat>>)
    requires Erasing(t, s, nextId, levels, |levels|, false, false) && nextId > 0
    requires t.levels0[|levels| - 1] == [root]
    ensures root in s && s[root].items != []
    ensures s[root].items[0].nodeId == 0 <==> |levels| == 1
    ensures |s[root].items| != 1 || |levels| == 1 ==> TreeOk(t.c, s, root, nextId, WithoutItem(t.contents, t.x), levels)
  {
    hide Rank, AllDistinct, PathOk, LevelsOk, Concat, Linked, Weighed, WithoutItem, Untouched, AllThick, Index;
    var contents1 := WithoutItem(t.contents, t.x);
    var h := |levels|;
    var g :| 0 <= g < |t.contents| && t.contents[g] == t.x;
    WithoutItemFacts(t.contents, t.x, g);
    RootLevel(t.c, s, contents1, levels, root);
    ZeroNowhere(t.c, t.s0, s, nextId, contents1, t.levels0, levels, h);
  }

  lemma ZeroNowhere(c: Config, s0: Store, s: Store, nextId: nat, contents: seq<Item>, levels0: seq<seq<nat>>,
          levels: seq<seq<nat>>, k: nat)
    requires Climb(c, s0, s, nextId, contents, levels0, levels, k)
    ensures forall l, j :: 0 <= l < |levels| && 0 <= j < |levels[l]| ==> levels[l][j] != 0
  {
    hide LevelsOk, AllDistinct, Untouched;
    ClimbPresent(c, s0, s, nextId, contents, levels0, levels, k);
    assert 0 !in s;
  }

  /** What the top level says about the root. */
  lemma RootLevel(c: Config, s: Store, contents: seq<Item>, levels: seq<seq<nat>>, root: nat)
    requires |levels| > 0 && LevelsOk(c, s, contents, levels, |levels|) && levels[|levels| - 1] == [root]
    ensures root in s && s[root].items != []
    ensures s[root].items == Below(s, contents, levels, |levels| - 1)
    ensures |levels| > 1 ==> |s[root].items| == |levels[|levels| - 2]|
    ensures |levels| > 1 ==> s[root].items[0].nodeId == levels[|levels| - 2][0]
    ensures |levels| == 1 ==> s[root].items[0].nodeId == 0
  {
    hide Rank, Concat, Linked, Weighed;
    assert LevelAt(c, s, contents, levels, |levels| - 1);
    ConcatOne(s, root);
    assert SizeOk(c, s, [root], 0);
    assert [root][0] == root;
  }

  /** The root is left with a single child, which becomes the root. */
  lemma EraseShrinks(t: Task, s: Store, s1: Store, root: nat, nextId: nat, levels: seq<seq<nat>>)
    requires Erasing(t, s, nextId, levels, |levels|, false, false) && nextId > 0
    requires t.levels0[|levels| - 1] == [root] && |levels| > 1 && |t.levels0[|levels| - 2]| >= 2
    requires root in s && |s[root].items| == 1 && s1 == s - {root}
    ensures TreeOk(t.c, s1, s[root].items[0].nodeId, nextId, WithoutItem(t.contents, t.x), levels[..|levels| - 1])
  {
    hide Rank, PathOk, LevelsOk, Concat, Linked, Weighed, WithoutItem, Index, AllDistinct, TaskOk, InLevels;
    var contents1, h := WithoutItem(t.contents, t.x), |levels|;
    var top := levels[..h - 1];
    var g :| 0 <= g < |t.contents| && t.contents[g] == t.x;
    TaskAscending(t);
    WithoutItemFacts(t.contents, t.x, g);
    RootLevel(t.c, s, contents1, levels, root);
    assert levels[h - 2] == [s[root].items[0].nodeId];
    ShrunkUntouched(t.c, t.s0, s, s1, nextId, contents1, t.levels0, levels, root);
    ShrunkLevels(t.c, s, s1, contents1, levels);
    ShrunkDistinct(levels);
    ShrunkListed(s, s1, nextId, levels, root);
    if h > 2 {
      assert Thick(s, t.levels0[h - 2], levels[h - 2]);
      ThickRoot(t.c, s, contents1, levels, h - 2);
    }
  }

  lemma TaskAscending(t: Task)
    requires TaskOk(t)
    ensures AscendingItems(t.contents) && ConfigOk(t.c)
  {
  }

  /** A single node's items are the children in the level below. */
  lemma ThickRoot(c: Config, s: Store, contents: seq<Item>, levels: seq<seq<nat>>, l: nat)
    requires 0 < l < |levels| && LevelsOk(c, s, contents, levels, |levels|) && |levels[l]| == 1
    ensures |levels[l - 1]| == |Items(s, levels[l][0])|
  {
    hide Linked, Weighed, Sized;
    assert LevelAt(c, s, contents, levels, l);
    assert levels[l] == [levels[l][0]];
    ConcatOne(s, levels[l][0]);
  }

  lemma ShrunkUntouched(c: Config, s0: Store, s: Store, s1: Store, nextId: nat, contents: seq<Item>,
          levels0: seq<seq<nat>>,
                        levels: seq<seq<nat>>, root: nat)
    requires Climb(c, s0, s, nextId, contents, levels0, levels, |levels|) && |levels| > 0
    requires levels[|levels| - 1] == [root] && s1 == s - {root}
    ensures forall l :: 0 <= l < |levels| && l != |levels| - 1 ==> Untouched(s, s1, levels[l])
  {
    hide LevelsOk, NodesListed, Distinct;
    ClimbPresent(c, s0, s, nextId, contents, levels0, levels, |levels|);
    forall l | 0 <= l < |levels| - 1 ensures Untouched(s, s1, levels[l]) {
      assert Apart(levels[l], levels[|levels| - 1]);
      forall id | id in levels[l] ensures id in s && id != root {
        var j :| 0 <= j < |levels[l]| && levels[l][j] == id;
        assert levels[|levels| - 1][0] == root;
      }
    }
  }

  lemma ShrunkLevels(c: Config, s: Store, s1: Store, contents: seq<Item>, levels: seq<seq<nat>>)
    requires |levels| > 0 && LevelsOk(c, s, contents, levels, |levels|)
    requires forall l :: 0 <= l < |levels| && l != |levels| - 1 ==> Untouched(s, s1, levels[l])
    ensures LevelsOk(c, s1, contents, levels[..|levels| - 1], |levels| - 1)
  {
    hide LevelOk, Index, Untouched;
    var top := levels[..|levels| - 1];
    assert LevelsOk(c, s, contents, levels, |levels| - 1);
    forall l | 0 <= l < |levels| - 1 ensures LevelAt(c, s1, contents, top, l) {
      LowerLevel(c, s, s1, contents, levels, levels, |levels| - 1, l);
      assert Below(s1, contents, top, l) == Below(s1, contents, levels, l);
    }
  }

  lemma ShrunkDistinct(levels: seq<seq<nat>>)
    requires |levels| > 0 && AllDistinct(levels)
    ensures AllDistinct(levels[..|levels| - 1])
  {
  }

  lemma ShrunkListed(s: Store, s1: Store, nextId: nat, levels: seq<seq<nat>>, root: nat)
    requires |levels| > 0 && NodesListed(s, nextId, levels) && levels[|levels| - 1] == [root] && s1 == s - {root}
    ensures NodesListed(s1, nextId, levels[..|levels| - 1])
  {
    forall id | id in s1 ensures InLevels(levels[..|levels| - 1], id) {
      var l :| 0 <= l < |levels| && id in levels[l];
      assert id in levels[..|levels| - 1][l];
    }
  }

  /** A tree with a single item is a single leaf. */
  lemma LastItem(c: Config, s: Store, root: nat, nextId: nat, contents: seq<Item>, levels: seq<seq<nat>>)
    requires TreeOk(c, s, root, nextId, contents, levels) && |contents| == 1
    ensures levels == [[root]] && s.Keys == {root} && root != 0 && root in s
    ensures s[root].items == [Key(contents[0], 0)] && s[root].nextSibling == 0 && s[root].prevSibling == 0
  {
    hide Rank, Concat, LevelOk, AllDistinct, LeafKeys, Index, AscendingItems, NodesListed, InLevels;
    assert LevelAt(c, s, contents, levels, 0);
    LevelNotEmpty(c, s, LeafKeys(contents), levels[0]);
    if |levels| > 1 {
      OneNodeAbove(c, s, contents, levels, |levels| - 2);
    }
    assert levels == [[root]];
    RootLevel(c, s, contents, levels, root);
    LoneLinks(c, s, LeafKeys(contents), root);
    assert LeafKeys(contents) == [Key(contents[0], 0)];
    forall id ensures id in s <==> id == root {
      if id in s {
        assert InLevels(levels, id);
        OnlyRootListed(root, id);
      }
    }
  }

  lemma OnlyRootListed(root: nat, id: nat)
    requires InLevels([[root]], id)
    ensures id == root
  {
  }

  lemma LevelNotEmpty(c: Config, s: Store, below: seq<Key>, ids: seq<nat>)
    requires LevelOk(c, s, below, ids)
    ensures 1 <= |ids| <= |below|
  {
    hide Concat, Linked, Weighed;
    NonEmptyNodes(c, s, ids);
    LevelCount(c, s, ids);
  }

  lemma LoneLinks(c: Config, s: Store, below: seq<Key>, root: nat)
    requires LevelOk(c, s, below, [root])
    ensures root in s && root != 0 && s[root].nextSibling == 0 && s[root].prevSibling == 0
  {
    hide Concat, Sized, Weighed;
    assert LinkOk(s, [root], 0);
    assert [root][0] == root;
  }

  /** The store holds a single leaf `root` with the single item `x`. */
  ghost predicate OnlyItem(s: Store, root: nat, x: Item) {
    && root != 0 && s.Keys == {root}
    && s[root].items == [Key(x, 0)] && s[root].nextSibling == 0 && s[root].prevSibling == 0
  }

  /** The path to the only item of a tree. */
  lemma OnlyCrumb(t: Task, root: nat, nextId: nat)
    requires TreeOk(t.c, t.s0, root, nextId, t.contents, t.levels0) && |t.contents| == 1 && t.x in t.contents
    requires |t.crumbs| == |t.levels0| && |t.pos| == |t.levels0| + 1
             && PathOk(t.s0, t.levels0, t.contents, t.crumbs, t.pos, t.x)
    ensures OnlyItem(t.s0, root, t.x) && t.crumbs == [Crumb(0, root)]
    ensures WithoutItem(t.contents, t.x) == []
  {
    hide Rank, Concat, LevelsOk, LowerBound;
    LastItem(t.c, t.s0, root, nextId, t.contents, t.levels0);
    assert CrumbOk(t.s0, t.levels0, t.crumbs, t.pos, 0);
    LowerBoundUnique(t.contents, Rank(t.x), 0);
  }

  lemma OnlyItemUpdate(s: Store, root: nat, x: Item)
    requires OnlyItem(s, root, x)
    ensures root in s && ErasedItems(s, s[root].items, 0, true, false) == []
    ensures NoKeyTo([], root, root) && NoneMissing(s, [])
  {
  }

  lemma LoneSiblings(s: Store, id: nat)
    requires s.Keys == {id} && id != 0 && s[id].nextSibling == 0 && s[id].prevSibling == 0
    ensures SiblingsOk(s, id) && 0 !in s
  {
  }

  lemma LoneUnlinked(s: Store, s1: Store, id: nat)
    requires s.Keys == {id} && Unlinked(s, s1, id)
    ensures s1 == map[]
  {
    assert s1.Keys == {};
  }

  /** Every node holds at least one key. */
  lemma {:induction false} LevelCount(c: Config, s: Store, ids: seq<nat>)
    requires forall j :: 0 <= j < |ids| ==> Items(s, ids[j]) != []
    ensures |ids| <= |Concat(s, ids)|
  {
    if ids != [] {
      LevelCount(c, s, ids[1..]);
    }
  }

  /** Above a single node there is only a single node. */
  lemma {:induction false} OneNodeAbove(c: Config, s: Store, contents: seq<Item>, levels: seq<seq<nat>>, l: nat)
    requires l < |levels| && LevelsOk(c, s, contents, levels, |levels|) && |levels[0]| == 1
    ensures |levels[l]| == 1
  {
    hide Concat, Linked, Weighed;
    if l > 0 {
      OneNodeAbove(c, s, contents, levels, l - 1);
      assert LevelAt(c, s, contents, levels, l);
      NonEmptyNodes(c, s, levels[l]);
      LevelCount(c, s, levels[l]);
    }
  }
}
