/** A change to the B+tree on its way: the tree as it was, the path through it and the item concerned. */
module BTreeTask {
  import opened Types
  import opened SortedItems
  import opened BTreeNodes
  import opened BTreeLevels
  import opened BTreeSearch
  import opened BTreeClimb
  import opened BTreeRewrite

  /** The tree as it was, the path through it and the item to add. */
  datatype Task = Task(c: Config, s0: Store, contents: seq<Item>, levels0: seq<seq<nat>>, crumbs: seq<Crumb>,
                       pos: seq<nat>, x: Item)

  ghost predicate TaskOk(t: Task) {
    && ConfigOk(t.c) && |t.levels0| > 0 && |t.levels0[|t.levels0| - 1]| == 1
    && AscendingItems(t.contents)
    && LevelsOk(t.c, t.s0, t.contents, t.levels0, |t.levels0|)
    && |t.crumbs| == |t.levels0| && |t.pos| == |t.levels0| + 1
    && PathOk(t.s0, t.levels0, t.contents, t.crumbs, t.pos, t.x)
  }

  ghost function NodePos(t: Task, k: nat): nat
    requires TaskOk(t) && k < |t.levels0|
  {
    t.pos[|t.levels0| - 1 - k]
  }

  lemma LevelsUntouched(c: Config, s: Store, contents: seq<Item>, levels: seq<seq<nat>>)
    requires LevelsOk(c, s, contents, levels, |levels|)
    ensures forall l :: 0 <= l < |levels| ==> Untouched(s, s, levels[l])
  {
    hide Concat, Sized, Linked, Weighed, Distinct;
    forall l | 0 <= l < |levels| ensures Untouched(s, s, levels[l]) {
      assert LevelAt(c, s, contents, levels, l);
    }
  }

  /** The path at level `k`: its node, the node above and the slot that leads from one to the other. */
  lemma PathAt(t: Task, k: nat)
    requires TaskOk(t) && k < |t.levels0|
    ensures NodePos(t, k) < |t.levels0[k]|
    ensures t.levels0[k][NodePos(t, k)] == t.crumbs[|t.levels0| - 1 - k].nodeId
    ensures t.crumbs[|t.levels0| - 1 - k].index < |Items(t.s0, t.levels0[k][NodePos(t, k)])|
    ensures k + 1 < |t.levels0| ==>
      && NodePos(t, k + 1) < |t.levels0[k + 1]|
      && t.crumbs[|t.levels0| - 2 - k].index < |Items(t.s0, t.levels0[k + 1][NodePos(t, k + 1)])|
      && KeyPos(t.s0, t.levels0[k + 1], NodePos(t, k + 1), t.crumbs[|t.levels0| - 2 - k].index) == NodePos(t, k)
  {
    hide Concat, Items, LevelsOk, CrumbSeeks, KeyPos;
    var i := |t.levels0| - 1 - k;
    assert CrumbOk(t.s0, t.levels0, t.crumbs, t.pos, i);
    if k + 1 < |t.levels0| {
      assert CrumbOk(t.s0, t.levels0, t.crumbs, t.pos, i - 1);
    }
  }

  /** Level `k` and the one above, as they were. */
  lemma OldLevels(t: Task, k: nat)
    requires TaskOk(t) && k < |t.levels0|
    ensures LevelOk(t.c, t.s0, Concat(t.s0, t.levels0[k]), t.levels0[k])
    ensures k + 1 < |t.levels0| ==>
      LevelOk(t.c, t.s0, Index(t.s0, t.levels0[k]), t.levels0[k + 1])
    ensures Ascending(Index(t.s0, t.levels0[k]))
  {
    hide Rank, Concat, Sized, Linked, Weighed, Distinct, Present, PathOk, Index, Ascending;
    assert LevelAt(t.c, t.s0, t.contents, t.levels0, k);
    if k + 1 < |t.levels0| {
      assert LevelAt(t.c, t.s0, t.contents, t.levels0, k + 1);
    }
    BelowFacts(t.c, t.s0, t.contents, t.levels0, |t.levels0|, k);
    LevelAscending(t.c, t.s0, Below(t.s0, t.contents, t.levels0, k), t.levels0[k]);
  }

  lemma KeyPosPositive(s: Store, ids: seq<nat>, q: nat, i: nat)
    requires q <= |ids| && |Concat(s, ids[..q])| > 0
    ensures KeyPos(s, ids, q, i) > 0
  {
  }

  lemma LevelParts(c: Config, s: Store, below: seq<Key>, ids: seq<nat>)
    requires LevelOk(c, s, below, ids)
    ensures Concat(s, ids) == below && Present(s, ids) && Distinct(ids)
  {
  }

  ghost function PathNode(t: Task, k: nat): nat
    requires TaskOk(t) && k < |t.levels0| && NodePos(t, k) < |t.levels0[k]|
  {
    t.levels0[k][NodePos(t, k)]
  }

  lemma OnlyReplaced(s: Store, s1: Store, nextId: nat, levels: seq<seq<nat>>, ids: seq<nat>, id: nat)
    requires NodesListed(s, nextId, levels) && id in ids && id in s && s1.Keys == s.Keys
    requires forall i :: i in s && i != id ==> s1[i] == s[i]
    ensures OnlyLevel(s, s1, nextId, nextId, ids, ids)
  {
  }

  lemma RestSameAfter(c: Config, s0: Store, s: Store, s1: Store, below: seq<Key>, ids: seq<nat>, p: nat)
    requires LevelOk(c, s0, below, ids) && Untouched(s0, s, ids) && p < |ids|
    requires forall id :: id in s && id != ids[p] ==> id in s1 && s1[id] == s[id]
    ensures RestSame(s0, s1, ids, p, p + 1)
    ensures forall j :: 0 <= j < |ids| && j != p ==> ids[j] in s1 && SameLinks(s0, s1, ids[j])
  {
    hide Concat, Sized, Linked, Weighed;
    forall j | 0 <= j < |ids| && j != p ensures SameNode(s0, s1, ids[j]) && SameLinks(s0, s1, ids[j]) {
      assert ids[j] in ids && ids[j] != ids[p];
    }
  }

  lemma KeyFromItems(s: Store, id: nat)
    requires id in s && s[id].items != []
    ensures KeyOf(s, id) == Key(s[id].items[0].item, id)
  {
  }

  lemma PendingBelow(s0: Store, s: Store, ids: seq<nat>, below: seq<Key>, p: nat, its: seq<Key>, delta: Weight)
    requires Pending(s0, s, ids, below, p, its, delta)
    ensures below == Concat(s0, ids[..p]) + its + Concat(s0, ids[p + 1..])
  {
  }

  /** Keys below level `k` are leaf keys or point to nodes of the level below. */
  lemma BelowIds(c: Config, s0: Store, s: Store, nextId: nat, contents: seq<Item>, levels0: seq<seq<nat>>,
                 levels: seq<seq<nat>>, k: nat, g: nat)
    requires Climb(c, s0, s, nextId, contents, levels0, levels, k) && k < |levels|
    requires g < |Below(s, contents, levels, k)|
    ensures var id := Below(s, contents, levels, k)[g].nodeId; id == 0 || (id in s && id !in levels[k])
    ensures k > 0 ==> g < |levels[k - 1]| && Below(s, contents, levels, k)[g] == KeyOf(s, levels[k - 1][g])
  {
    hide LevelsOk, NodesListed, Distinct, KeyOf;
    if k > 0 {
      ClimbPresent(c, s0, s, nextId, contents, levels0, levels, k);
      assert Apart(levels[k - 1], levels[k]);
      ApartSymmetric(levels[k - 1], levels[k]);
      assert levels[k - 1][g] in levels[k - 1];
      KeyOfId(s, levels[k - 1][g]);
    }
  }

  lemma KeyOfId(s: Store, id: nat)
    ensures KeyOf(s, id).nodeId == id
  {
  }

  lemma EmptyTree(c: Config, s: Store, root: nat, nextId: nat, contents: seq<Item>, levels: seq<seq<nat>>)
    requires TreeOk(c, s, root, nextId, contents, levels)
    ensures root == 0 <==> contents == []
    ensures root == 0 ==> s == map[] && levels == []
    ensures root != 0 ==> root in s && |levels| > 0 && levels[|levels| - 1] == [root] && 0 < root < nextId
    ensures nextId !in s
  {
    hide Concat, Sized, Linked, Weighed, AllDistinct, Rank;
    if contents != [] {
      assert LevelAt(c, s, contents, levels, |levels| - 1);
      assert levels[|levels| - 1][0] == root;
    }
    assert s != map[] ==> exists id :: id in s;
  }

  lemma TaskStarts(t: Task, root: nat, nextId: nat)
    requires TreeOk(t.c, t.s0, root, nextId, t.contents, t.levels0) && root != 0
    requires |t.crumbs| == |t.levels0| && |t.pos| == |t.levels0| + 1
    requires PathOk(t.s0, t.levels0, t.contents, t.crumbs, t.pos, t.x)
    ensures TaskOk(t) && AllDistinct(t.levels0) && NodesListed(t.s0, nextId, t.levels0)
    ensures t.levels0[|t.levels0| - 1] == [root]
    ensures |t.levels0| > 1 ==> |t.levels0[|t.levels0| - 2]| >= 2
  {
    hide Rank, LevelsOk, PathOk, AllDistinct;
    EmptyTree(t.c, t.s0, root, nextId, t.contents, t.levels0);
  }

  /** Weights of the two halves, seen after a rewrite. */
  lemma PartTotals(s: Store, s1: Store, below: seq<Key>, a: seq<Key>, its: seq<Key>, b: seq<Key>, n: nat)
    requires below == a + its + b && n <= |its| && SameWeights(s, s1, below)
    ensures Total(s1, its[..n]) == Total(s, its[..n]) && Total(s1, its[n..]) == Total(s, its[n..])
  {
    hide Total, KeyWeight;
    forall k | k in its[..n] || k in its[n..] ensures KeyWeight(s, k) == KeyWeight(s1, k) {
      assert k in its;
      assert k in below;
    }
    TotalFrame(s, s1, its[..n]);
    TotalFrame(s, s1, its[n..]);
  }

  /** No key points to `a` or `b`. */
  ghost predicate NoKeyTo(keys: seq<Key>, a: nat, b: nat) {
    forall i :: 0 <= i < |keys| ==> keys[i].nodeId != a && keys[i].nodeId != b
  }

  lemma TreeBasics(c: Config, s: Store, root: nat, nextId: nat, contents: seq<Item>, levels: seq<seq<nat>>)
    requires TreeOk(c, s, root, nextId, contents, levels)
    ensures ConfigOk(c) && nextId > 0 && AscendingItems(contents)
  {
  }
}
