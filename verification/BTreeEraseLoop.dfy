/** The loop of an erasure: what holds each time a breadcrumb is popped. */
module BTreeEraseLoop {
  import opened Types
  import opened Accumulators
  import opened SortedItems
  import opened BTreeNodes
  import opened BTreeLevels
  import opened BTreeSearch
  import opened BTreeClimb
  import opened BTreeErase
  import opened BTreeRewrite
  import opened BTreeTask

  ghost function Slot(t: Task, k: nat): nat
    requires TaskOk(t) && k < |t.levels0|
  {
    t.crumbs[|t.levels0| - 1 - k].index
  }

  /** A level that shrank to a single node leaves it with at least two items. */
  ghost predicate Thick(s: Store, ids0: seq<nat>, ids: seq<nat>) {
    |ids| == 1 && |ids0| >= 2 ==> |Items(s, ids[0])| >= 2
  }

  ghost predicate AllThick(s: Store, levels0: seq<seq<nat>>, levels: seq<seq<nat>>, k: nat)
    requires k <= |levels| == |levels0|
  {
    forall l :: 0 <= l < k ==> Thick(s, levels0[l], levels[l])
  }

  ghost predicate Erasing(t: Task, s: Store, nextId: nat, levels: seq<seq<nat>>, k: nat, needsRemove: bool,
          neighbourRefresh: bool) {
    && TaskOk(t) && t.x in t.contents && |t.contents| > 1
    && |levels| == |t.levels0| == |t.crumbs| && k <= |levels|
    && Climb(t.c, t.s0, s, nextId, WithoutItem(t.contents, t.x), t.levels0, levels, k)
    && AllThick(s, t.levels0, levels, k)
    && if k < |levels| then
         ErasePending(t.s0, s, t.levels0[k], Below(s, WithoutItem(t.contents, t.x), levels, k), NodePos(t, k), t.x,
                      Slot(t, k),
                      needsRemove, neighbourRefresh)
       else
         !needsRemove && !neighbourRefresh && levels[k - 1] == t.levels0[k - 1]
  }

  lemma ErasingBasics(t: Task, s: Store, nextId: nat, levels: seq<seq<nat>>, k: nat, needsRemove: bool,
          neighbourRefresh: bool)
    requires Erasing(t, s, nextId, levels, k, needsRemove, neighbourRefresh)
    ensures TaskOk(t) && ConfigOk(t.c) && k <= |levels| == |t.levels0| && t.x in t.contents && |t.contents| > 1
    ensures Climb(t.c, t.s0, s, nextId, WithoutItem(t.contents, t.x), t.levels0, levels, k)
    ensures k < |levels| ==> levels[k] == t.levels0[k]
    ensures |levels| == |t.crumbs| && AllThick(s, t.levels0, levels, k)
  {
    hide LevelsOk, PathOk, AllDistinct, NodesListed, Untouched, AllThick, ErasePending, WithoutItem, AscendingItems;
  }

  lemma ErasingStarts(t: Task, nextId: nat)
    requires TaskOk(t) && |t.contents| > 1 && AllDistinct(t.levels0) && NodesListed(t.s0, nextId, t.levels0)
    requires t.pos[|t.levels0|] < |t.contents| && t.contents[t.pos[|t.levels0|]] == t.x
    ensures Erasing(t, t.s0, nextId, t.levels0, 0, true, false)
  {
    hide Rank, LevelOk, ErasePending, LeafKeys, AllDistinct, NodesListed, WithoutItem, AscendingItems, Untouched,
         CrumbOk, PathOk;
    LevelsUntouched(t.c, t.s0, t.contents, t.levels0);
    LeafErasePending(t);
  }

  lemma LeafErasePending(t: Task)
    requires TaskOk(t) && t.pos[|t.levels0|] < |t.contents| && t.contents[t.pos[|t.levels0|]] == t.x
    ensures ErasePending(t.s0, t.s0, t.levels0[0], LeafKeys(WithoutItem(t.contents, t.x)), NodePos(t, 0), t.x,
                         Slot(t, 0), true, false)
  {
    hide Rank, LevelOk, ErasePending, LeafKeys, Items, KeyPos, WithoutItem, AscendingItems, CrumbSeeks;
    var last := |t.levels0| - 1;
    assert CrumbOk(t.s0, t.levels0, t.crumbs, t.pos, last);
    assert LevelAt(t.c, t.s0, t.contents, t.levels0, 0);
    EraseStart(t.c, t.s0, t.contents, t.levels0[0], NodePos(t, 0), Slot(t, 0), t.x);
  }

  // ---------- The surroundings of the path ----------

  /** Level `k` around the path and the node above: which neighbours under the same parent there are. */
  lemma Neighbours(t: Task, k: nat)
    requires TaskOk(t) && k < |t.levels0|
    ensures var ids, p := t.levels0[k], NodePos(t, k);
            && p < |ids|
            && (k + 1 == |t.levels0| ==> |ids| == 1)
            && (k + 1 < |t.levels0| && NodePos(t, k + 1) < |t.levels0[k + 1]| ==>
                  var w, i := Items(t.s0, t.levels0[k + 1][NodePos(t, k + 1)]), Slot(t, k + 1);
                  && i < |w| && i <= p && p + (|w| - i) <= |ids|
                  && (|w| == 1 ==> p + 1 == |ids|))
  {
    hide Concat, Items, LevelOk, Sized, LevelsOk, PathOk, KeyOf, Index, Ascending, AscendingItems;
    PathAt(t, k);
    OldLevels(t, k);
    if k + 1 < |t.levels0| {
      var up, q := t.levels0[k + 1], NodePos(t, k + 1);
      LevelParts(t.c, t.s0, Index(t.s0, t.levels0[k]), up);
      ConcatAround(t.s0, up, q);
      if |Items(t.s0, up[q])| == 1 {
        LoneChild(t.c, t.s0, Index(t.s0, t.levels0[k]), up, q);
      }
    }
  }

  /** A node with a single item is the last of its level. */
  lemma LoneChild(c: Config, s: Store, below: seq<Key>, up: seq<nat>, q: nat)
    requires ConfigOk(c) && LevelOk(c, s, below, up) && q < |up| && |Items(s, up[q])| == 1
    ensures |below| == |Concat(s, up[..q])| + 1
  {
    hide Linked, Weighed;
    assert SizeOk(c, s, up, q);
    ConcatAround(s, up, q);
    assert up[q + 1..] == [];
  }

  ghost function ParentSize(t: Task, k: nat): nat
    requires TaskOk(t) && k < |t.levels0|
  {
    if k + 1 < |t.levels0| && NodePos(t, k + 1) < |t.levels0[k + 1]|
    then |Items(t.s0, t.levels0[k + 1][NodePos(t, k + 1)])| else 0
  }

  /** Outcome `o` is possible at level `k`: at the root only a replacement is. */
  ghost predicate Possible(t: Task, k: nat, o: Outcome)
    requires TaskOk(t) && k < |t.levels0|
  {
    && o.Fits(NodePos(t, k), |t.levels0[k]|)
    && (if k + 1 < |t.levels0| then o.Fits(Slot(t, k + 1), ParentSize(t, k)) else o.Replace?)
  }

  ghost function From(t: Task, k: nat, o: Outcome): nat
    requires TaskOk(t) && k < |t.levels0| && Possible(t, k, o)
  {
    NodePos(t, k) - o.Back()
  }

  ghost function NewLevel(t: Task, k: nat, o: Outcome): seq<nat>
    requires TaskOk(t) && k < |t.levels0| && Possible(t, k, o)
  {
    var ids, a := t.levels0[k], From(t, k, o);
    Spliced(ids, a, a + o.Len(), o.Mid(ids, NodePos(t, k)))
  }

  /** After the level has been rewritten the loop moves on to the next breadcrumb. */
  lemma EraseAdvance(t: Task, s: Store, s1: Store, nextId: nat, levels: seq<seq<nat>>, k: nat, needsRemove: bool,
                     neighbourRefresh: bool, o: Outcome)
    requires Erasing(t, s, nextId, levels, k, needsRemove, neighbourRefresh) && k < |levels| && Possible(t, k, o)
    requires var ids, p, a := t.levels0[k], NodePos(t, k), From(t, k, o);
             && Rewritten(t.c, t.s0, s1, ids, Below(s, WithoutItem(t.contents, t.x), levels, k), a, a + o.Len(),
                          o.Mid(ids, p), Loss(t.x))
             && OnlyLevel(s, s1, nextId, nextId, ids, NewLevel(t, k, o))
             && Thick(s1, ids, NewLevel(t, k, o))
             && (o.UsesLeft() ==> KeyOf(s1, ids[p - 1]) == KeyOf(t.s0, ids[p - 1]))
    ensures Erasing(t, s1, nextId, levels[k := NewLevel(t, k, o)], k + 1, o.Removes(), o.RebalanceRight?)
  {
    hide Erasing, TaskOk, Climb, Rank, Concat, Index, KeyOf, Total, Plus, ErasePending, LevelOk, Untouched, Thick,
         WithoutItem, Ascending, OnlyLevel, Items, Loss, NewLevel, From, AllThick, Possible, Below, SameNodes;
    ErasingBasics(t, s, nextId, levels, k, needsRemove, neighbourRefresh);
    var ids, ids1 := t.levels0[k], NewLevel(t, k, o);
    var contents1 := WithoutItem(t.contents, t.x);
    RewrittenLevel(t.c, t.s0, s1, ids, Below(s, contents1, levels, k), NodePos(t, k), o, Loss(t.x), ids1) by {
      NewLevelIs(t, k, o);
    }
    ClimbStep(t.c, t.s0, s, s1, nextId, nextId, contents1, t.levels0, levels, k, ids1);
    OthersUntouched(t.c, t.s0, s, s1, nextId, contents1, t.levels0, levels, k, nextId, ids1);
    StillThick(s, s1, t.levels0, levels, k, ids1);
    if k + 1 < |levels| {
      NextPending(t, s, s1, levels, k, o);
    } else {
      RootReplaced(t, k, o);
    }
    ErasingHolds(t, s1, nextId, levels[k := ids1], k + 1, o.Removes(), o.RebalanceRight?);
  }

  lemma NewLevelIs(t: Task, k: nat, o: Outcome)
    requires TaskOk(t) && k < |t.levels0| && Possible(t, k, o)
    ensures var ids, p := t.levels0[k], NodePos(t, k);
            && o.Fits(p, |ids|) && o.Back() <= p && p - o.Back() + o.Len() <= |ids|
            && From(t, k, o) == p - o.Back()
            && NewLevel(t, k, o) == Spliced(ids, p - o.Back(), p - o.Back() + o.Len(), o.Mid(ids, p))
  {
    hide TaskOk, Spliced;
  }

  lemma RewrittenLevel(c: Config, s0: Store, s1: Store, ids: seq<nat>, below: seq<Key>, p: nat, o: Outcome,
                       delta: Weight,
          ids1: seq<nat>)
    requires o.Fits(p, |ids|) && o.Back() <= p && p - o.Back() + o.Len() <= |ids|
    requires ids1 == Spliced(ids, p - o.Back(), p - o.Back() + o.Len(), o.Mid(ids, p))
    requires Rewritten(c, s0, s1, ids, below, p - o.Back(), p - o.Back() + o.Len(), o.Mid(ids, p), delta)
    ensures LevelOk(c, s1, below, ids1)
  {
    hide LevelOk, SameNodes;
  }

  lemma RootReplaced(t: Task, k: nat, o: Outcome)
    requires TaskOk(t) && k + 1 == |t.levels0| && Possible(t, k, o)
    ensures o.Replace? && NewLevel(t, k, o) == t.levels0[k]
  {
    hide TaskOk;
  }

  /** What the rewritten level leaves to be done at the next breadcrumb. */
  lemma NextPending(t: Task, s: Store, s1: Store, levels: seq<seq<nat>>, k: nat, o: Outcome)
    requires TaskOk(t) && k + 1 < |t.levels0| == |levels| && Possible(t, k, o)
    requires var ids, p, a := t.levels0[k], NodePos(t, k), From(t, k, o);
             && Rewritten(t.c, t.s0, s1, ids, Below(s, WithoutItem(t.contents, t.x), levels, k), a, a + o.Len(),
                          o.Mid(ids, p), Loss(t.x))
             && (o.UsesLeft() ==> KeyOf(s1, ids[p - 1]) == KeyOf(t.s0, ids[p - 1]))
    ensures ErasePending(t.s0, s1, t.levels0[k + 1], Index(s1, NewLevel(t, k, o)), NodePos(t, k + 1), t.x,
                         Slot(t, k + 1),
                         o.Removes(), o.RebalanceRight?)
  {
    hide TaskOk, Rank, Concat, Index, KeyOf, Total, Plus, ErasePending, LevelOk, WithoutItem, Ascending, Items, Loss,
         SameNodes, KeyPos, Below;
    var ids, p, a := t.levels0[k], NodePos(t, k), From(t, k, o);
    PathAt(t, k);
    OldLevels(t, k);
    var up, q, i := t.levels0[k + 1], NodePos(t, k + 1), Slot(t, k + 1);
    LevelParts(t.c, t.s0, Concat(t.s0, ids), ids);
    LevelParts(t.c, s1, Below(s, WithoutItem(t.contents, t.x), levels, k), NewLevel(t, k, o));
    LevelParts(t.c, t.s0, Index(t.s0, ids), up);
    MidPresent(s1, ids, a, a + o.Len(), o.Mid(ids, p));
    EraseLift(t.s0, s1, ids, p, up, q, i, t.x, o);
  }

  lemma ErasingHolds(t: Task, s: Store, nextId: nat, levels: seq<seq<nat>>, k: nat, needsRemove: bool,
          neighbourRefresh: bool)
    requires TaskOk(t) && t.x in t.contents && |t.contents| > 1
    requires |levels| == |t.levels0| == |t.crumbs| && 0 < k <= |levels|
    requires Climb(t.c, t.s0, s, nextId, WithoutItem(t.contents, t.x), t.levels0, levels, k)
    requires AllThick(s, t.levels0, levels, k)
    requires k < |levels| ==>
             ErasePending(t.s0, s, t.levels0[k], Index(s, levels[k - 1]), NodePos(t, k), t.x, Slot(t, k),
                          needsRemove, neighbourRefresh)
    requires k == |levels| ==> !needsRemove && !neighbourRefresh && levels[k - 1] == t.levels0[k - 1]
    ensures Erasing(t, s, nextId, levels, k, needsRemove, neighbourRefresh)
  {
    hide TaskOk, Climb, AllThick, ErasePending, WithoutItem, Index;
  }

  lemma MidPresent(s: Store, ids: seq<nat>, a: nat, b: nat, mid: seq<nat>)
    requires a <= b <= |ids| && Present(s, Spliced(ids, a, b, mid))
    ensures Present(s, mid)
  {
    assert forall j :: 0 <= j < |mid| ==> mid[j] == Spliced(ids, a, b, mid)[a + j];
  }

  lemma StillThick(s: Store, s1: Store, levels0: seq<seq<nat>>, levels: seq<seq<nat>>, k: nat, ids1: seq<nat>)
    requires k < |levels| == |levels0| && AllThick(s, levels0, levels, k) && Thick(s1, levels0[k], ids1)
    requires forall l :: 0 <= l < |levels| && l != k ==> Untouched(s, s1, levels[l])
    ensures AllThick(s1, levels0, levels[k := ids1], k + 1)
  {
    forall l | 0 <= l < k ensures Thick(s1, levels0[l], levels[l]) {
      assert Thick(s, levels0[l], levels[l]) && Untouched(s, s1, levels[l]);
      if |levels[l]| == 1 {
        assert levels[l][0] in levels[l];
      }
    }
  }

  // ---------- What the loop body does to nodes ----------

  ghost function PathItems(t: Task, s: Store, k: nat, needsRemove: bool, neighbourRefresh: bool): seq<Key>
    requires TaskOk(t) && k < |t.levels0| && NodePos(t, k) < |t.levels0[k]| && PathNode(t, k) in s
    requires Slot(t, k) < |s[PathNode(t, k)].items|
    requires neighbourRefresh ==> !needsRemove && Slot(t, k) + 1 < |s[PathNode(t, k)].items|
  {
    ErasedItems(s, s[PathNode(t, k)].items, Slot(t, k), needsRemove, neighbourRefresh)
  }

  /** Level `k` as the loop body finds it. */
  lemma EraseNode(t: Task, s: Store, nextId: nat, levels: seq<seq<nat>>, k: nat, needsRemove: bool,
          neighbourRefresh: bool)
    requires Erasing(t, s, nextId, levels, k, needsRemove, neighbourRefresh) && k < |levels|
    ensures ConfigOk(t.c) && NodePos(t, k) < |t.levels0[k]|
    ensures var id := PathNode(t, k);
            && id in s && Slot(t, k) < |s[id].items| <= t.c.maxItems
            && (neighbourRefresh ==> !needsRemove && Slot(t, k) + 1 < |s[id].items|)
            && (NodePos(t, k) + 1 < |t.levels0[k]| ==> t.c.minItems <= |s[id].items|)
    ensures Untouched(t.s0, s, t.levels0[k]) && LevelOk(t.c, t.s0, Concat(t.s0, t.levels0[k]), t.levels0[k])
    ensures NodesListed(s, nextId, levels) && 0 !in s
  {
    hide Rank, Concat, LevelsOk, PathOk, AllDistinct, Pending, KeyPos, Index, Weighed, WithoutItem, ErasedItems, Loss;
    PathAt(t, k);
    OldLevels(t, k);
    assert Untouched(t.s0, s, t.levels0[k]);
    var p := NodePos(t, k);
    assert SizeOk(t.c, t.s0, t.levels0[k], p);
    assert t.levels0[k][p] in t.levels0[k];
  }

  lemma PathPending(t: Task, s: Store, nextId: nat, levels: seq<seq<nat>>, k: nat, needsRemove: bool,
          neighbourRefresh: bool)
    requires Erasing(t, s, nextId, levels, k, needsRemove, neighbourRefresh) && k < |levels|
    ensures NodePos(t, k) < |t.levels0[k]| && PathNode(t, k) in s && Slot(t, k) < |s[PathNode(t, k)].items|
    ensures neighbourRefresh ==> !needsRemove && Slot(t, k) + 1 < |s[PathNode(t, k)].items|
    ensures Pending(t.s0, s, t.levels0[k], Below(s, WithoutItem(t.contents, t.x), levels, k), NodePos(t, k),
                    PathItems(t, s, k, needsRemove, neighbourRefresh), Loss(t.x))
  {
    hide Rank, LevelOk, LevelsOk, PathOk, AllDistinct, Pending, WithoutItem, NodesListed, ErasedItems, Loss;
    EraseNode(t, s, nextId, levels, k, needsRemove, neighbourRefresh);
    assert PathNode(t, k) in t.levels0[k];
  }

  lemma EraseRewriteStart(t: Task, s: Store, s1: Store, nextId: nat, levels: seq<seq<nat>>, k: nat, needsRemove: bool,
                          neighbourRefresh: bool, ids1: seq<nat>)
    requires Erasing(t, s, nextId, levels, k, needsRemove, neighbourRefresh) && k < |levels|
    requires OnlyLevel(s, s1, nextId, nextId, t.levels0[k], ids1)
    ensures NodePos(t, k) < |t.levels0[k]| && PathNode(t, k) in s && Slot(t, k) < |s[PathNode(t, k)].items|
    ensures neighbourRefresh ==> !needsRemove && Slot(t, k) + 1 < |s[PathNode(t, k)].items|
    ensures RewriteStart(t.c, t.s0, s, s1, t.levels0[k], Below(s, WithoutItem(t.contents, t.x), levels, k),
                         NodePos(t, k),
                         PathItems(t, s, k, needsRemove, neighbourRefresh), Loss(t.x))
  {
    hide Rank, LevelOk, LevelsOk, PathOk, AllDistinct, Pending, WithoutItem, OnlyLevel, SameWeights, NodesListed,
         ErasedItems, Loss, Untouched, ErasePending;
    EraseNode(t, s, nextId, levels, k, needsRemove, neighbourRefresh);
    PathPending(t, s, nextId, levels, k, needsRemove, neighbourRefresh);
    OthersUntouched(t.c, t.s0, s, s1, nextId, WithoutItem(t.contents, t.x), t.levels0, levels, k, nextId, ids1);
    BelowUnchanged(t.c, s, s1, WithoutItem(t.contents, t.x), levels, k);
  }

  /** The node with its new items and without the weight of `x`. */
  function ErasedNode(n0: Node, its: seq<Key>, x: Item): Node {
    Node(its, n0.accumCount - 1, n0.nextSibling, n0.prevSibling, SubMod(n0.accum, IdNum(x.id)))
  }

  /** The node may stay as it is: it is big enough, or it has no neighbour under its parent. */
  ghost predicate Stays(t: Task, k: nat, its: seq<Key>)
    requires TaskOk(t) && k < |t.levels0|
  {
    !(|its| < t.c.minItems && k + 1 < |t.levels0| && ParentSize(t, k) > 1)
  }

  lemma StaysLast(t: Task, k: nat, its: seq<Key>)
    requires TaskOk(t) && k < |t.levels0| && NodePos(t, k) < |t.levels0[k]|
    requires Stays(t, k, its)
    ensures NodePos(t, k) + 1 < |t.levels0[k]| ==> t.c.minItems <= |its|
  {
    hide Items, LevelsOk, PathOk;
    Neighbours(t, k);
    PathAt(t, k);
  }

  lemma ReplacedNode(s0: Store, s: Store, s1: Store, id: nat, its: seq<Key>, x: Item)
    requires id in s0 && id in s && s[id] == s0[id] && s1 == s[id := ErasedNode(s[id], its, x)]
    ensures s1.Keys == s.Keys && forall i :: i in s && i != id ==> s1[i] == s[i]
    ensures Items(s1, id) == its && NodeWeight(s1[id]) == Plus(NodeWeight(s0[id]), Loss(x)) && SameLinks(s0, s1, id)
  {
    hide Loss, Plus;
    PlusLoss(NodeWeight(s[id]), x);
  }

  /** A node with new items and less weight leaves its level in order. */
  lemma ReplaceRewrites(t: Task, s: Store, s1: Store, nextId: nat, levels: seq<seq<nat>>, k: nat, needsRemove: bool,
          neighbourRefresh: bool)
    requires Erasing(t, s, nextId, levels, k, needsRemove, neighbourRefresh) && k < |levels|
    requires NodePos(t, k) < |t.levels0[k]| && PathNode(t, k) in s && Slot(t, k) < |s[PathNode(t, k)].items|
    requires neighbourRefresh ==> !needsRemove && Slot(t, k) + 1 < |s[PathNode(t, k)].items|
    requires var id := PathNode(t, k);
             var its := PathItems(t, s, k, needsRemove, neighbourRefresh);
             && id in t.s0 && s1.Keys == s.Keys && (forall i :: i in s && i != id ==> s1[i] == s[i])
             && Items(s1, id) == its && NodeWeight(s1[id]) == Plus(NodeWeight(t.s0[id]), Loss(t.x))
             && SameLinks(t.s0, s1, id)
             && 1 <= |its| <= t.c.maxItems && (NodePos(t, k) + 1 < |t.levels0[k]| ==> t.c.minItems <= |its|)
    ensures var ids, p := t.levels0[k], NodePos(t, k);
            && OnlyLevel(s, s1, nextId, nextId, ids, ids)
            && Rewritten(t.c, t.s0, s1, ids, Below(s, WithoutItem(t.contents, t.x), levels, k), p, p + 1, [ids[p]],
                         Loss(t.x))
            && Spliced(ids, p, p + 1, [ids[p]]) == ids
  {
    hide Erasing, TaskOk, Climb, Rank, Concat, Index, LevelOk, WithoutItem, SameWeights, Total, Loss, Untouched,
         NodesListed, PathItems, OnlyLevel, RestSame, RewriteStart, Rewritten, Items, Below, Plus, SameLinks;
    ErasingBasics(t, s, nextId, levels, k, needsRemove, neighbourRefresh);
    EraseNode(t, s, nextId, levels, k, needsRemove, neighbourRefresh);
    var ids, p, id := t.levels0[k], NodePos(t, k), PathNode(t, k);
    var below := Below(s, WithoutItem(t.contents, t.x), levels, k);
    assert id in ids;
    OnlyReplaced(s, s1, nextId, levels, ids, id);
    EraseRewriteStart(t, s, s1, nextId, levels, k, needsRemove, neighbourRefresh, ids);
    RestSameAfter(t.c, t.s0, s, s1, Concat(t.s0, ids), ids, p);
    LevelParts(t.c, t.s0, Concat(t.s0, ids), ids);
    ReplaceLevel(t.c, t.s0, s, s1, ids, below, p, PathItems(t, s, k, needsRemove, neighbourRefresh), Loss(t.x));
  }

  lemma EraseReplaces(t: Task, s: Store, s1: Store, nextId: nat, levels: seq<seq<nat>>, k: nat, needsRemove: bool,
          neighbourRefresh: bool)
    requires Erasing(t, s, nextId, levels, k, needsRemove, neighbourRefresh) && k < |levels|
    requires NodePos(t, k) < |t.levels0[k]| && PathNode(t, k) in s && Slot(t, k) < |s[PathNode(t, k)].items|
    requires neighbourRefresh ==> !needsRemove && Slot(t, k) + 1 < |s[PathNode(t, k)].items|
    requires var id := PathNode(t, k);
             var its := PathItems(t, s, k, needsRemove, neighbourRefresh);
             Stays(t, k, its) && its != [] && s1 == s[id := ErasedNode(s[id], its, t.x)]
    ensures Erasing(t, s1, nextId, levels, k + 1, false, false)
  {
    hide Erasing, TaskOk, Climb, Rank, Concat, Index, LevelOk, WithoutItem, SameWeights, Total, Stays, Loss, Thick,
         Untouched, NodesListed, ErasedItems, OnlyLevel, RestSame, RewriteStart, Rewritten, SameLinks, Items, Below,
         ErasedNode, Plus, Possible;
    ErasingBasics(t, s, nextId, levels, k, needsRemove, neighbourRefresh);
    EraseNode(t, s, nextId, levels, k, needsRemove, neighbourRefresh);
    var ids, p, id := t.levels0[k], NodePos(t, k), PathNode(t, k);
    var its := PathItems(t, s, k, needsRemove, neighbourRefresh);
    assert id in ids;
    UntouchedAt(t.s0, s, ids, id);
    ReplacedNode(t.s0, s, s1, id, its, t.x);
    StaysLast(t, k, its);
    ErasedSize(s, s[id].items, Slot(t, k), needsRemove, neighbourRefresh);
    ReplaceRewrites(t, s, s1, nextId, levels, k, needsRemove, neighbourRefresh);
    assert levels[k := ids] == levels;
    SameSizeThick(t, k, s1);
    ReplacePossible(t, k);
    EraseAdvance(t, s, s1, nextId, levels, k, needsRemove, neighbourRefresh, Replace);
  }

  lemma ErasedSize(s: Store, its0: seq<Key>, i: nat, needsRemove: bool, neighbourRefresh: bool)
    requires i < |its0| && (neighbourRefresh ==> !needsRemove && i + 1 < |its0|)
    ensures |ErasedItems(s, its0, i, needsRemove, neighbourRefresh)| == |its0| - if needsRemove then 1 else 0
  {
  }

  lemma ReplacePossible(t: Task, k: nat)
    requires TaskOk(t) && k < |t.levels0| && NodePos(t, k) < |t.levels0[k]|
    ensures Possible(t, k, Replace) && NewLevel(t, k, Replace) == t.levels0[k] && From(t, k, Replace) == NodePos(t, k)
  {
    hide LevelsOk, PathOk, Items;
    PathAt(t, k);
  }

  lemma SameSizeThick(t: Task, k: nat, s1: Store)
    requires TaskOk(t) && k < |t.levels0|
    ensures Thick(s1, t.levels0[k], t.levels0[k])
  {
  }

  /** Node `id` was taken out of its sibling chain and deleted. */
  ghost predicate Unlinked(s: Store, s1: Store, id: nat) {
    && id in s && s1.Keys == s.Keys - {id}
    && forall i :: i in s && i != id ==>
      && s1[i].nextSibling == (if i == s[id].prevSibling then s[id].nextSibling else s[i].nextSibling)
      && s1[i].prevSibling == (if i == s[id].nextSibling then s[id].prevSibling else s[i].prevSibling)
  }

  /** Apart from links, only node `m` differs. */
  ghost predicate OthersKeep(s: Store, s1: Store, id: nat, m: nat) {
    forall i :: i in s && i != id && i != m ==>
      i in s1 && s1[i].items == s[i].items && NodeWeight(s1[i]) == NodeWeight(s[i])
  }

  /** Taking node `p` out of its level leaves the other levels alone and closes the chain. */
  lemma UnlinkedLevel(c: Config, s0: Store, s: Store, s1: Store, nextId: nat, levels: seq<seq<nat>>, ids: seq<nat>,
          p: nat, m: nat)
    requires NodesListed(s, nextId, levels) && 0 !in s
    requires LevelOk(c, s0, Concat(s0, ids), ids) && p < |ids| && Untouched(s0, s, ids)
    requires Unlinked(s, s1, ids[p]) && OthersKeep(s, s1, ids[p], m) && m in ids
    ensures OnlyLevel(s, s1, nextId, nextId, ids, Without(ids, p))
    ensures DropLinks(s0, s1, ids, p)
    ensures forall j :: 0 <= j < |ids| && j != p && (ids[j] != m || m == ids[p]) ==> SameNode(s0, s1, ids[j])
  {
    hide LevelOk, Concat, InLevels, Linked, OnlyLevel, DropLinks, Unlinked, OthersKeep, Untouched, Without, NodesListed,
         Distinct;
    NodeNeighbours(c, s0, s, ids, p);
    var prev, next := s[ids[p]].prevSibling, s[ids[p]].nextSibling;
    UnlinkedLinks(s0, s, s1, ids, p, m);
    WithoutMembers(ids, p);
    OutsideKept(s, s1, ids, ids[p], m, prev, next);
    UnlinkedOnly(s, s1, nextId, levels, ids, p);
  }

  /** Who stands beside node `p` of a level. */
  lemma NodeNeighbours(c: Config, s0: Store, s: Store, ids: seq<nat>, p: nat)
    requires LevelOk(c, s0, Concat(s0, ids), ids) && p < |ids| && Untouched(s0, s, ids) && 0 !in s
    ensures ids[p] in ids && ids[p] in s
    ensures var prev, next := s[ids[p]].prevSibling, s[ids[p]].nextSibling;
            && (prev != 0 ==> prev in ids) && (next != 0 ==> next in ids)
            && (forall j :: 0 <= j < |ids| && j != p ==>
                && ids[j] in s && ids[j] in s0 && s[ids[j]] == s0[ids[j]] && ids[j] != ids[p]
                && (ids[j] == prev <==> j + 1 == p) && (ids[j] == next <==> j == p + 1))
    ensures ids[p] in s0 && s[ids[p]] == s0[ids[p]] && Distinct(ids)
  {
    hide Concat, Sized, Weighed;
    assert LinkOk(s0, ids, p) && ids[p] in ids;
    var prev, next := s[ids[p]].prevSibling, s[ids[p]].nextSibling;
    assert prev == (if p > 0 then ids[p - 1] else 0) && next == (if p + 1 < |ids| then ids[p + 1] else 0);
    forall j | 0 <= j < |ids| && j != p
      ensures && ids[j] in s && ids[j] in s0 && s[ids[j]] == s0[ids[j]] && ids[j] != ids[p]
              && (ids[j] == prev <==> j + 1 == p) && (ids[j] == next <==> j == p + 1)
    {
      assert ids[j] in ids;
    }
  }

  lemma UnlinkedLinks(s0: Store, s: Store, s1: Store, ids: seq<nat>, p: nat, m: nat)
    requires p < |ids| && Unlinked(s, s1, ids[p]) && OthersKeep(s, s1, ids[p], m)
    requires ids[p] in s0 && s[ids[p]] == s0[ids[p]]
    requires var prev, next := s[ids[p]].prevSibling, s[ids[p]].nextSibling;
             forall j :: 0 <= j < |ids| && j != p ==>
               && ids[j] in s && ids[j] in s0 && s[ids[j]] == s0[ids[j]] && ids[j] != ids[p]
               && (ids[j] == prev <==> j + 1 == p) && (ids[j] == next <==> j == p + 1)
    ensures DropLinks(s0, s1, ids, p)
    ensures forall j :: 0 <= j < |ids| && j != p && (ids[j] != m || m == ids[p]) ==> SameNode(s0, s1, ids[j])
  {
  }

  lemma UnlinkedOnly(s: Store, s1: Store, nextId: nat, levels: seq<seq<nat>>, ids: seq<nat>, p: nat)
    requires NodesListed(s, nextId, levels) && p < |ids| && ids[p] in s && Unlinked(s, s1, ids[p])
    requires forall i :: i in s && i !in ids ==> i in s1 && s1[i] == s[i]
    requires forall id :: id in Without(ids, p) <==> id in ids && id != ids[p]
    ensures OnlyLevel(s, s1, nextId, nextId, ids, Without(ids, p))
  {
    hide InLevels, Without;
  }

  lemma OutsideKept(s: Store, s1: Store, ids: seq<nat>, id: nat, m: nat, prev: nat, next: nat)
    requires Unlinked(s, s1, id) && OthersKeep(s, s1, id, m) && id in ids && m in ids
    requires prev == s[id].prevSibling && next == s[id].nextSibling && 0 !in s
    requires (prev != 0 ==> prev in ids) && (next != 0 ==> next in ids)
    ensures forall i :: i in s && i !in ids ==> i in s1 && s1[i] == s[i]
  {
    forall i | i in s && i !in ids ensures i in s1 && s1[i] == s[i] {
      assert i != id && i != m && i != prev && i != next;
    }
  }

  lemma WithoutMembers(ids: seq<nat>, p: nat)
    requires p < |ids| && Distinct(ids)
    ensures forall id :: id in Without(ids, p) <==> id in ids && id != ids[p]
  {
    var ids1 := Without(ids, p);
    assert forall j :: 0 <= j < |ids1| ==> ids1[j] == if j < p then ids[j] else ids[j + 1];
    forall id | id in ids && id != ids[p] ensures id in ids1 {
      var j :| 0 <= j < |ids| && ids[j] == id;
      assert ids1[if j < p then j else j - 1] == id;
    }
  }

  lemma EraseDrops(t: Task, s: Store, s1: Store, nextId: nat, levels: seq<seq<nat>>, k: nat, needsRemove: bool,
          neighbourRefresh: bool)
    requires Erasing(t, s, nextId, levels, k, needsRemove, neighbourRefresh) && k < |levels|
    requires NodePos(t, k) < |t.levels0[k]| && PathNode(t, k) in s && Slot(t, k) < |s[PathNode(t, k)].items|
    requires neighbourRefresh ==> !needsRemove && Slot(t, k) + 1 < |s[PathNode(t, k)].items|
    requires var id := PathNode(t, k);
             var its := PathItems(t, s, k, needsRemove, neighbourRefresh);
             Stays(t, k, its) && its == [] && Unlinked(s, s1, id) && OthersKeep(s, s1, id, id)
    ensures Possible(t, k, Drop)
    ensures Erasing(t, s1, nextId, levels[k := NewLevel(t, k, Drop)], k + 1, true, false)
  {
    hide Rank, Concat, Index, LevelOk, LevelsOk, PathOk, AllDistinct, Pending, WithoutItem, SameWeights, Ascending,
         Total, Stays, Loss, Thick, Unlinked, OthersKeep, Untouched, NodesListed, ErasedItems, Items, DropLinks;
    EraseNode(t, s, nextId, levels, k, needsRemove, neighbourRefresh);
    var ids, p, id := t.levels0[k], NodePos(t, k), PathNode(t, k);
    var below := Below(s, WithoutItem(t.contents, t.x), levels, k);
    assert id in ids;
    StaysLast(t, k, []);
    UnlinkedLevel(t.c, t.s0, s, s1, nextId, levels, ids, p, id);
    EraseRewriteStart(t, s, s1, nextId, levels, k, needsRemove, neighbourRefresh, Without(ids, p));
    DropKept(t.c, t.s0, s1, Concat(t.s0, ids), ids, p);
    NotLast(t, s, nextId, levels, k, needsRemove, neighbourRefresh);
    DropLevel(t.c, t.s0, s, s1, ids, below, p, Loss(t.x));
    EraseAdvance(t, s, s1, nextId, levels, k, needsRemove, neighbourRefresh, Drop);
  }

  lemma DropKept(c: Config, s0: Store, s1: Store, below: seq<Key>, ids: seq<nat>, p: nat)
    requires ConfigOk(c) && LevelOk(c, s0, below, ids) && p + 1 == |ids|
    requires forall j :: 0 <= j < |ids| && j != p ==> SameNode(s0, s1, ids[j])
    ensures RestSame(s0, s1, ids, p, p + 1) && Thick(s1, ids, Without(ids, p))
  {
    hide Concat, Linked, Weighed;
    var ids1 := Without(ids, p);
    if |ids1| == 1 {
      assert SizeOk(c, s0, ids, 0) && SameNode(s0, s1, ids[0]) && ids1[0] == ids[0];
    }
  }

  /** Something is left below the level, so a node can only become empty when its level has others. */
  lemma NotLast(t: Task, s: Store, nextId: nat, levels: seq<seq<nat>>, k: nat, needsRemove: bool,
          neighbourRefresh: bool)
    requires Erasing(t, s, nextId, levels, k, needsRemove, neighbourRefresh) && k < |levels|
    requires NodePos(t, k) < |t.levels0[k]| && PathNode(t, k) in s && Slot(t, k) < |s[PathNode(t, k)].items|
    requires neighbourRefresh ==> !needsRemove && Slot(t, k) + 1 < |s[PathNode(t, k)].items|
    requires PathItems(t, s, k, needsRemove, neighbourRefresh) == []
    ensures |t.levels0[k]| > 1 && Possible(t, k, Drop) && From(t, k, Drop) == NodePos(t, k)
    ensures NewLevel(t, k, Drop) == Without(t.levels0[k], NodePos(t, k))
  {
    hide Erasing, TaskOk, Climb, Rank, LevelOk, WithoutItem, PathItems, Items, Loss, Total, Possible, Untouched,
         NodesListed, NewLevel, From, Without;
    ErasingBasics(t, s, nextId, levels, k, needsRemove, neighbourRefresh);
    NotAlone(t, s, nextId, levels, k, needsRemove, neighbourRefresh);
    DropPossible(t, k);
  }

  lemma NotAlone(t: Task, s: Store, nextId: nat, levels: seq<seq<nat>>, k: nat, needsRemove: bool,
          neighbourRefresh: bool)
    requires Erasing(t, s, nextId, levels, k, needsRemove, neighbourRefresh) && k < |levels|
    requires NodePos(t, k) < |t.levels0[k]| && PathNode(t, k) in s && Slot(t, k) < |s[PathNode(t, k)].items|
    requires neighbourRefresh ==> !needsRemove && Slot(t, k) + 1 < |s[PathNode(t, k)].items|
    requires PathItems(t, s, k, needsRemove, neighbourRefresh) == []
    ensures |t.levels0[k]| > 1
  {
    hide Erasing, TaskOk, Climb, Rank, Concat, WithoutItem, PathItems, Loss, Pending, Below;
    ErasingBasics(t, s, nextId, levels, k, needsRemove, neighbourRefresh);
    var ids, p := t.levels0[k], NodePos(t, k);
    var below := Below(s, WithoutItem(t.contents, t.x), levels, k);
    PathPending(t, s, nextId, levels, k, needsRemove, neighbourRefresh);
    PendingBelow(t.s0, s, ids, below, p, [], Loss(t.x));
    SomethingBelow(t, s, nextId, levels, k);
    LoneSides(t.s0, ids);
  }

  lemma DropPossible(t: Task, k: nat)
    requires TaskOk(t) && k < |t.levels0| && |t.levels0[k]| > 1
    ensures NodePos(t, k) < |t.levels0[k]| && Possible(t, k, Drop) && From(t, k, Drop) == NodePos(t, k)
    ensures NewLevel(t, k, Drop) == Without(t.levels0[k], NodePos(t, k))
  {
    hide TaskOk, Items;
    Neighbours(t, k);
    PathAt(t, k);
    var ids, p := t.levels0[k], NodePos(t, k);
    assert Spliced(ids, p, p + 1, []) == Without(ids, p);
  }

  lemma LoneSides(s: Store, ids: seq<nat>)
    requires |ids| > 0
    ensures |ids| == 1 ==> Concat(s, ids[..0]) == [] && Concat(s, ids[1..]) == []
  {
  }

  lemma SomethingBelow(t: Task, s: Store, nextId: nat, levels: seq<seq<nat>>, k: nat)
    requires TaskOk(t) && t.x in t.contents && |t.contents| > 1
    requires Climb(t.c, t.s0, s, nextId, WithoutItem(t.contents, t.x), t.levels0, levels, k) && k < |levels|
    ensures |Below(s, WithoutItem(t.contents, t.x), levels, k)| > 0
  {
    hide Rank, Concat, PathOk, AllDistinct, Sized, Linked, Weighed;
    var g :| 0 <= g < |t.contents| && t.contents[g] == t.x;
    WithoutItemFacts(t.contents, t.x, g);
    if k > 0 {
      assert LevelAt(t.c, s, WithoutItem(t.contents, t.x), levels, k - 1);
    }
  }

  /** The node and its neighbour: the right one if the node is the first child, the left one otherwise. */
  ghost function PairStart(t: Task, k: nat): nat
    requires TaskOk(t) && k + 1 < |t.levels0|
  {
    if Slot(t, k + 1) == 0 || NodePos(t, k) == 0 then NodePos(t, k) else NodePos(t, k) - 1
  }

  ghost predicate PairReady(t: Task, s: Store, k: nat, needsRemove: bool, neighbourRefresh: bool)
  {
    && TaskOk(t) && k + 1 < |t.levels0|
    && NodePos(t, k) < |t.levels0[k]| && PathNode(t, k) in s && Slot(t, k) < |s[PathNode(t, k)].items|
    && (neighbourRefresh ==> !needsRemove && Slot(t, k) + 1 < |s[PathNode(t, k)].items|)
    && PairStart(t, k) + 2 <= |t.levels0[k]|
  }

  ghost function Pair(t: Task, s: Store, k: nat, needsRemove: bool, neighbourRefresh: bool): seq<Key>
    requires PairReady(t, s, k, needsRemove, neighbourRefresh)
  {
    PairItems(t.s0, t.levels0[k], NodePos(t, k), PathItems(t, s, k, needsRemove, neighbourRefresh), PairStart(t, k))
  }

  /** A node that does not stay has a neighbour under its parent. */
  lemma HasNeighbour(t: Task, k: nat, its: seq<Key>)
    requires TaskOk(t) && k < |t.levels0| && !Stays(t, k, its)
    ensures k + 1 < |t.levels0| && NodePos(t, k) < |t.levels0[k]| && PairStart(t, k) + 2 <= |t.levels0[k]|
    ensures var right := PairStart(t, k) == NodePos(t, k);
            && (right <==> Slot(t, k + 1) == 0)
            && Possible(t, k, if right then MergeRight else MergeLeft)
            && Possible(t, k, if right then RebalanceRight else RebalanceLeft)
  {
    hide LevelsOk, PathOk, Items;
    Neighbours(t, k);
    PathAt(t, k);
  }

  /** Together the node and its neighbour have enough items, and not too many. */
  lemma PairFacts(t: Task, s: Store, nextId: nat, levels: seq<seq<nat>>, k: nat, needsRemove: bool,
          neighbourRefresh: bool)
    requires Erasing(t, s, nextId, levels, k, needsRemove, neighbourRefresh) && k < |levels|
    requires PairReady(t, s, k, needsRemove, neighbourRefresh)
    requires |PathItems(t, s, k, needsRemove, neighbourRefresh)| < t.c.minItems
    ensures var a, p, ids := PairStart(t, k), NodePos(t, k), t.levels0[k];
            var its := PathItems(t, s, k, needsRemove, neighbourRefresh);
            var pair := Pair(t, s, k, needsRemove, neighbourRefresh);
            && 2 <= |pair| <= t.c.minItems - 1 + t.c.maxItems && (a + 2 < |ids| ==> t.c.minItems <= |pair|)
            && |pair| == |its| + |Items(t.s0, ids[if a == p then p + 1 else a])|
            && (a != p ==> t.c.minItems <= |Items(t.s0, ids[a])|)
  {
    hide Rank, LevelOk, TaskOk, Concat, ErasedItems, WithoutItem, Climb, AllThick, ErasePending, Items, PairItems,
         Untouched, NodesListed;
    EraseNode(t, s, nextId, levels, k, needsRemove, neighbourRefresh);
    var ids, p := t.levels0[k], NodePos(t, k);
    var a := PairStart(t, k);
    ErasedSize(s, s[PathNode(t, k)].items, Slot(t, k), needsRemove, neighbourRefresh);
    PairSizes(t.c, t.s0, Concat(t.s0, ids), ids, a);
    PairCount(t.s0, ids, p, PathItems(t, s, k, needsRemove, neighbourRefresh), a);
  }

  lemma PairCount(s0: Store, ids: seq<nat>, p: nat, its: seq<Key>, a: nat)
    requires a <= p < a + 2 <= |ids|
    ensures |PairItems(s0, ids, p, its, a)| == |its| + |Items(s0, ids[if a == p then p + 1 else a])|
  {
  }

  lemma PairSizes(c: Config, s: Store, below: seq<Key>, ids: seq<nat>, a: nat)
    requires LevelOk(c, s, below, ids) && a + 2 <= |ids|
    ensures c.minItems <= |Items(s, ids[a])| <= c.maxItems && 1 <= |Items(s, ids[a + 1])| <= c.maxItems
    ensures a + 2 < |ids| ==> c.minItems <= |Items(s, ids[a + 1])|
  {
    hide Concat, Linked, Weighed;
    assert SizeOk(c, s, ids, a) && SizeOk(c, s, ids, a + 1);
  }

  /** The neighbour's items still weigh what the neighbour does. */
  lemma NeighbourWeight(c: Config, s0: Store, s: Store, s1: Store, ids: seq<nat>, below: seq<Key>, p: nat,
          its: seq<Key>,
                        delta: Weight, a: nat)
    requires RewriteStart(c, s0, s, s1, ids, below, p, its, delta) && a <= p < a + 2 <= |ids|
    ensures var m := ids[if a == p then p + 1 else a];
            m in s0 && Items(s0, m) == s0[m].items && Total(s1, Items(s0, m)) == NodeWeight(s0[m])
  {
    hide Plus, KeyWeight, Total, Concat, Sized, Linked;
    var j := if a == p then p + 1 else a;
    PendingWeights(s0, s, s1, ids, below, p, its, delta, a, a + 2);
    if a == p {
      assert ids[p + 1..a + 2] == [ids[j]];
    } else {
      assert ids[a..p] == [ids[j]];
    }
    ConcatOne(s0, ids[j]);
    assert WeightOk(s0, ids[j]);
    TotalFrame(s0, s1, Items(s0, ids[j]));
  }

  ghost predicate MergedStore(t: Task, s: Store, s1: Store, k: nat, needsRemove: bool, neighbourRefresh: bool)
    requires PairReady(t, s, k, needsRemove, neighbourRefresh)
  {
    var ids, p, a, id := t.levels0[k], NodePos(t, k), PairStart(t, k), PathNode(t, k);
    var m := ids[if a == p then p + 1 else a];
    && Unlinked(s, s1, id) && OthersKeep(s, s1, id, m) && m in s && m in s1
    && s1[m].items == Pair(t, s, k, needsRemove, neighbourRefresh)
    && NodeWeight(s1[m]) == Plus(NodeWeight(s[m]), Minus(NodeWeight(s[id]), ItemWeight(t.x)))
  }

  /** Handing all items of the pair to the neighbour and dropping the node puts the level in order. */
  lemma MergeRewrites(t: Task, s: Store, s1: Store, nextId: nat, levels: seq<seq<nat>>, k: nat, needsRemove: bool,
          neighbourRefresh: bool)
    requires Erasing(t, s, nextId, levels, k, needsRemove, neighbourRefresh) && k < |levels|
    requires PairReady(t, s, k, needsRemove, neighbourRefresh)
    requires |PathItems(t, s, k, needsRemove, neighbourRefresh)| < t.c.minItems
    requires |Pair(t, s, k, needsRemove, neighbourRefresh)| <= t.c.maxItems
    requires MergedStore(t, s, s1, k, needsRemove, neighbourRefresh)
    ensures var ids, p, a := t.levels0[k], NodePos(t, k), PairStart(t, k);
            var mid := [ids[if a == p then p + 1 else a]];
            && OnlyLevel(s, s1, nextId, nextId, ids, Without(ids, p))
            && Rewritten(t.c, t.s0, s1, ids, Below(s, WithoutItem(t.contents, t.x), levels, k), a, a + 2, mid,
                         Loss(t.x))
            && Spliced(ids, a, a + 2, mid) == Without(ids, p)
            && Thick(s1, ids, Without(ids, p))
  {
    hide Erasing, Rewritten, RewriteStart, OnlyLevel, Below, Rank, Concat, Index, LevelOk, TaskOk,
         Climb, WithoutItem, SameWeights, Total, Plus, Loss, Unlinked, OthersKeep, Untouched, NodesListed, ErasedItems,
           DropLinks, RestSame, ErasePending, AllThick, Thick, Spliced,
         PairItems, Items, Without;
    ErasingBasics(t, s, nextId, levels, k, needsRemove, neighbourRefresh);
    EraseNode(t, s, nextId, levels, k, needsRemove, neighbourRefresh);
    var ids, p, id, a := t.levels0[k], NodePos(t, k), PathNode(t, k), PairStart(t, k);
    var m := ids[if a == p then p + 1 else a];
    var below := Below(s, WithoutItem(t.contents, t.x), levels, k);
    var its := PathItems(t, s, k, needsRemove, neighbourRefresh);
    PairFacts(t, s, nextId, levels, k, needsRemove, neighbourRefresh);
    assert m in ids && id in ids;
    UnlinkedLevel(t.c, t.s0, s, s1, nextId, levels, ids, p, m);
    EraseRewriteStart(t, s, s1, nextId, levels, k, needsRemove, neighbourRefresh, Without(ids, p));
    LevelParts(t.c, t.s0, Concat(t.s0, ids), ids);
    MergeRest(t.s0, s1, ids, p, a);
    MergeWeight(t.c, t.s0, s, s1, ids, below, p, its, t.x, a);
    UntouchedAt(t.s0, s, ids, m);
    UntouchedAt(t.s0, s, ids, id);
    MergeLevel(t.c, t.s0, s, s1, ids, below, p, its, Loss(t.x), a);
    MergeThick(s1, ids, p, m, a);
  }

  lemma EraseMerges(t: Task, s: Store, s1: Store, nextId: nat, levels: seq<seq<nat>>, k: nat, needsRemove: bool,
          neighbourRefresh: bool)
    requires Erasing(t, s, nextId, levels, k, needsRemove, neighbourRefresh) && k < |levels|
    requires PairReady(t, s, k, needsRemove, neighbourRefresh)
    requires !Stays(t, k, PathItems(t, s, k, needsRemove, neighbourRefresh))
    requires |Pair(t, s, k, needsRemove, neighbourRefresh)| <= t.c.maxItems
    requires MergedStore(t, s, s1, k, needsRemove, neighbourRefresh)
    ensures var o := if PairStart(t, k) == NodePos(t, k) then MergeRight else MergeLeft;
            Possible(t, k, o) && Erasing(t, s1, nextId, levels[k := NewLevel(t, k, o)], k + 1, true, false)
  {
    hide Rank, Concat, Index, LevelOk, TaskOk, Climb, WithoutItem, Total, Plus, Loss, ErasedItems, ErasePending,
         AllThick, Rewritten, KeyOf, OnlyLevel, Unlinked, OthersKeep, Thick;
    var ids, p, a := t.levels0[k], NodePos(t, k), PairStart(t, k);
    var o := if a == p then MergeRight else MergeLeft;
    var its := PathItems(t, s, k, needsRemove, neighbourRefresh);
    HasNeighbour(t, k, its);
    PairFacts(t, s, nextId, levels, k, needsRemove, neighbourRefresh);
    MergeRewrites(t, s, s1, nextId, levels, k, needsRemove, neighbourRefresh);
    if a != p {
      LeftKeyKept(t.s0, s1, ids[a], its);
    }
    EraseAdvance(t, s, s1, nextId, levels, k, needsRemove, neighbourRefresh, o);
  }

  lemma UntouchedAt(s0: Store, s: Store, ids: seq<nat>, id: nat)
    requires Untouched(s0, s, ids) && id in ids
    ensures id in s0 && id in s && s[id] == s0[id]
  {
  }

  lemma LeftKeyKept(s0: Store, s1: Store, m: nat, its: seq<Key>)
    requires m in s1 && s1[m].items == Items(s0, m) + its && Items(s0, m) != []
    ensures KeyOf(s1, m) == KeyOf(s0, m)
  {
  }

  lemma MergeThick(s1: Store, ids: seq<nat>, p: nat, m: nat, a: nat)
    requires a <= p < a + 2 <= |ids| && m == ids[if a == p then p + 1 else a]
    requires m in s1 && |s1[m].items| >= 2
    ensures Thick(s1, ids, Without(ids, p))
  {
    var ids1 := Without(ids, p);
    if |ids1| == 1 {
      assert ids1[0] == m;
    }
  }

  lemma MergeRest(s0: Store, s1: Store, ids: seq<nat>, p: nat, a: nat)
    requires a <= p < a + 2 <= |ids| && Distinct(ids)
    requires var m := ids[if a == p then p + 1 else a];
             forall j :: 0 <= j < |ids| && j != p && (ids[j] != m || m == ids[p]) ==> SameNode(s0, s1, ids[j])
    ensures RestSame(s0, s1, ids, a, a + 2)
  {
  }

  lemma MergeWeight(c: Config, s0: Store, s: Store, s1: Store, ids: seq<nat>, below: seq<Key>, p: nat, its: seq<Key>,
          x: Item, a: nat)
    requires RewriteStart(c, s0, s, s1, ids, below, p, its, Loss(x)) && a <= p < a + 2 <= |ids|
    ensures var m := ids[if a == p then p + 1 else a];
            && m in s0 && ids[p] in s0
            && Total(s1, PairItems(s0, ids, p, its, a))
               == Plus(NodeWeight(s0[m]), Minus(NodeWeight(s0[ids[p]]), ItemWeight(x)))
  {
    hide Plus, Minus, KeyWeight, Total, Concat, Sized, Linked, Loss;
    var m := ids[if a == p then p + 1 else a];
    NeighbourWeight(c, s0, s, s1, ids, below, p, its, Loss(x), a);
    PendingWeight(c, s0, s, s1, ids, below, p, its, Loss(x));
    PlusLoss(NodeWeight(s0[ids[p]]), x);
    TotalConcat(s1, its, Items(s0, m));
    TotalConcat(s1, Items(s0, m), its);
    PlusLaws(Total(s1, its), Total(s1, Items(s0, m)), NOTHING);
  }

  /** Nodes `l` and `r` share out the items `all` anew. */
  ghost predicate ShareStep(s: Store, s': Store, l: nat, r: nat, all: seq<Key>, n: nat) {
    && s'.Keys == s.Keys && l in s && r in s && n <= |all|
    && (forall i :: i in s && i != l && i != r ==> s'[i] == s[i])
    && SameLinks(s, s', l) && SameLinks(s, s', r)
    && s'[l].items == all[..n] && s'[r].items == all[n..]
    && NodeWeight(s'[l]) == Total(s, all[..n]) && NodeWeight(s'[r]) == Total(s, all[n..])
  }

  ghost predicate RebalancedStore(t: Task, s: Store, s1: Store, k: nat, needsRemove: bool, neighbourRefresh: bool)
    requires PairReady(t, s, k, needsRemove, neighbourRefresh)
  {
    var a, pair := PairStart(t, k), Pair(t, s, k, needsRemove, neighbourRefresh);
    ShareStep(s, s1, t.levels0[k][a], t.levels0[k][a + 1], pair, (|pair| + 1) / 2)
  }

  /** Sharing out the items of the pair puts the level in order. */
  lemma RebalanceRewrites(t: Task, s: Store, s1: Store, nextId: nat, levels: seq<seq<nat>>, k: nat, needsRemove: bool,
          neighbourRefresh: bool)
    requires Erasing(t, s, nextId, levels, k, needsRemove, neighbourRefresh) && k < |levels|
    requires PairReady(t, s, k, needsRemove, neighbourRefresh)
    requires |PathItems(t, s, k, needsRemove, neighbourRefresh)| < t.c.minItems
    requires |Pair(t, s, k, needsRemove, neighbourRefresh)| > 2 * t.c.minItems
    requires RebalancedStore(t, s, s1, k, needsRemove, neighbourRefresh)
    ensures var ids, a := t.levels0[k], PairStart(t, k);
            && OnlyLevel(s, s1, nextId, nextId, ids, ids)
            && Rewritten(t.c, t.s0, s1, ids, Below(s, WithoutItem(t.contents, t.x), levels, k), a, a + 2,
                         [ids[a], ids[a + 1]], Loss(t.x))
            && Spliced(ids, a, a + 2, [ids[a], ids[a + 1]]) == ids
  {
    hide Rank, Concat, Index, LevelOk, TaskOk, Climb, WithoutItem, SameWeights, Total, Plus, Loss, Untouched,
         NodesListed, ErasedItems, RestSame, ErasePending, AllThick, Spliced, PairItems, Items;
    EraseNode(t, s, nextId, levels, k, needsRemove, neighbourRefresh);
    var ids, p, a := t.levels0[k], NodePos(t, k), PairStart(t, k);
    var below := Below(s, WithoutItem(t.contents, t.x), levels, k);
    var its, pair := PathItems(t, s, k, needsRemove, neighbourRefresh), Pair(t, s, k, needsRemove, neighbourRefresh);
    var n := (|pair| + 1) / 2;
    PairFacts(t, s, nextId, levels, k, needsRemove, neighbourRefresh);
    assert ids[a] in ids && ids[a + 1] in ids;
    OnlyPair(s, s1, nextId, levels, ids, a);
    EraseRewriteStart(t, s, s1, nextId, levels, k, needsRemove, neighbourRefresh, ids);
    RestSamePair(t.c, t.s0, s, s1, Concat(t.s0, ids), ids, a);
    SharedWeights(t.c, t.s0, s, s1, ids, below, p, its, Loss(t.x), a, n);
    RebalanceLevel(t.c, t.s0, s, s1, ids, below, p, its, Loss(t.x), a, n);
  }

  lemma EraseRebalances(t: Task, s: Store, s1: Store, nextId: nat, levels: seq<seq<nat>>, k: nat, needsRemove: bool,
          neighbourRefresh: bool)
    requires Erasing(t, s, nextId, levels, k, needsRemove, neighbourRefresh) && k < |levels|
    requires PairReady(t, s, k, needsRemove, neighbourRefresh)
    requires !Stays(t, k, PathItems(t, s, k, needsRemove, neighbourRefresh))
    requires |Pair(t, s, k, needsRemove, neighbourRefresh)| > 2 * t.c.minItems
    requires RebalancedStore(t, s, s1, k, needsRemove, neighbourRefresh)
    ensures var o := if PairStart(t, k) == NodePos(t, k) then RebalanceRight else RebalanceLeft;
            Possible(t, k, o) && NewLevel(t, k, o) == t.levels0[k]
              && Erasing(t, s1, nextId, levels, k + 1, false, o.RebalanceRight?)
  {
    hide Rank, Concat, Index, LevelOk, TaskOk, Climb, WithoutItem, Total, Plus, Loss, ErasedItems, ErasePending,
         AllThick, Rewritten, KeyOf, OnlyLevel;
    var ids, p, a := t.levels0[k], NodePos(t, k), PairStart(t, k);
    var o := if a == p then RebalanceRight else RebalanceLeft;
    var its, pair := PathItems(t, s, k, needsRemove, neighbourRefresh), Pair(t, s, k, needsRemove, neighbourRefresh);
    HasNeighbour(t, k, its);
    PairFacts(t, s, nextId, levels, k, needsRemove, neighbourRefresh);
    RebalanceRewrites(t, s, s1, nextId, levels, k, needsRemove, neighbourRefresh);
    SameSizeThick(t, k, s1);
    if a != p {
      LeftKeyStays(t.s0, s1, ids[a], its, (|pair| + 1) / 2);
    }
    ClimbLevel(t, s, nextId, levels, k, needsRemove, neighbourRefresh);
    assert levels[k := ids] == levels;
    EraseAdvance(t, s, s1, nextId, levels, k, needsRemove, neighbourRefresh, o);
  }

  lemma ClimbLevel(t: Task, s: Store, nextId: nat, levels: seq<seq<nat>>, k: nat, needsRemove: bool,
          neighbourRefresh: bool)
    requires Erasing(t, s, nextId, levels, k, needsRemove, neighbourRefresh) && k < |levels|
    ensures levels[k] == t.levels0[k]
  {
    hide TaskOk, ErasePending, LevelsOk, AllDistinct, NodesListed, Untouched;
  }

  lemma LeftKeyStays(s0: Store, s1: Store, m: nat, its: seq<Key>, n: nat)
    requires m in s1 && n <= |Items(s0, m) + its| && s1[m].items == (Items(s0, m) + its)[..n]
             && Items(s0, m) != [] && n > 0
    ensures KeyOf(s1, m) == KeyOf(s0, m)
  {
  }

  lemma OnlyPair(s: Store, s1: Store, nextId: nat, levels: seq<seq<nat>>, ids: seq<nat>, a: nat)
    requires NodesListed(s, nextId, levels) && a + 2 <= |ids| && s1.Keys == s.Keys
    requires ids[a] in ids && ids[a + 1] in ids
    requires forall i :: i in s && i != ids[a] && i != ids[a + 1] ==> s1[i] == s[i]
    ensures OnlyLevel(s, s1, nextId, nextId, ids, ids)
  {
  }

  lemma RestSamePair(c: Config, s0: Store, s: Store, s1: Store, below: seq<Key>, ids: seq<nat>, a: nat)
    requires LevelOk(c, s0, below, ids) && Untouched(s0, s, ids) && a + 2 <= |ids| && s1.Keys == s.Keys
    requires forall i :: i in s && i != ids[a] && i != ids[a + 1] ==> s1[i] == s[i]
    requires SameLinks(s, s1, ids[a]) && SameLinks(s, s1, ids[a + 1])
    ensures RestSame(s0, s1, ids, a, a + 2)
    ensures forall j :: 0 <= j < |ids| ==> ids[j] in s1 && SameLinks(s0, s1, ids[j])
  {
    hide Concat, Sized, Linked, Weighed;
    forall j | 0 <= j < |ids|
      ensures ids[j] in s1 && SameLinks(s0, s1, ids[j]) && (j < a || j >= a + 2 ==> SameNode(s0, s1, ids[j]))
    {
      assert ids[j] in ids;
      if j < a || j >= a + 2 {
        assert ids[j] != ids[a] && ids[j] != ids[a + 1];
      }
    }
  }

  /** The weights of both shares, seen after the rewrite. */
  lemma SharedWeights(c: Config, s0: Store, s: Store, s1: Store, ids: seq<nat>, below: seq<Key>, p: nat, its: seq<Key>,
                      delta: Weight, a: nat, n: nat)
    requires RewriteStart(c, s0, s, s1, ids, below, p, its, delta) && a <= p < a + 2 <= |ids|
    requires n <= |PairItems(s0, ids, p, its, a)|
    ensures var pair := PairItems(s0, ids, p, its, a);
            Total(s1, pair[..n]) == Total(s, pair[..n]) && Total(s1, pair[n..]) == Total(s, pair[n..])
  {
    hide Plus, KeyWeight, Total, Concat, LevelOk, Untouched;
    var pair := PairItems(s0, ids, p, its, a);
    PairSides(s0, ids, p, its, a);
    assert ids[..p] == ids[..a] + ids[a..p] && ids[p + 1..] == ids[p + 1..a + 2] + ids[a + 2..];
    ConcatAppend(s0, ids[..a], ids[a..p]);
    ConcatAppend(s0, ids[p + 1..a + 2], ids[a + 2..]);
    var x, y := Concat(s0, ids[..a]), Concat(s0, ids[a + 2..]);
    PairInside(x, Concat(s0, ids[a..p]), its, Concat(s0, ids[p + 1..a + 2]), y);
    PartTotals(s, s1, below, x, pair, y, n);
  }

  lemma PairInside(x: seq<Key>, l: seq<Key>, its: seq<Key>, r: seq<Key>, y: seq<Key>)
    ensures (x + l) + its + (r + y) == x + (l + its + r) + y
  {
  }
}
