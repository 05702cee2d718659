/** The ways in which insertion and erasure rewrite a level. */
module BTreeRewrite {
  import opened BTreeNodes
  import opened BTreeLevels
  import opened BTreeClimb

  /** What all rewrites start from: level `ids` is untouched, and node `p` should hold `its`. */
  ghost predicate RewriteStart(c: Config, s0: Store, s: Store, s1: Store, ids: seq<nat>, below: seq<Key>, p: nat,
                               its: seq<Key>, delta: Weight)
  {
    && ConfigOk(c) && LevelOk(c, s0, Concat(s0, ids), ids)
    && Pending(s0, s, ids, below, p, its, delta)
    && Untouched(s0, s, ids)
    && SameWeights(s, s1, below)
  }

  /** What all rewrites achieve: nodes `ids[a..b]` became `mid` and the level is in order. */
  ghost predicate Rewritten(c: Config, s0: Store, s1: Store, ids: seq<nat>, below: seq<Key>, a: nat, b: nat,
          mid: seq<nat>,
                            delta: Weight)
  {
    && a <= b <= |ids|
    && LevelOk(c, s1, below, Spliced(ids, a, b, mid))
    && Total(s1, Index(s1, mid)) == Plus(Total(s0, Index(s0, ids[a..b])), delta)
    && SameNodes(s0, s1, ids[..a]) && SameNodes(s0, s1, ids[b..])
  }

  /** All nodes of the level but those of `ids[a..b]` keep their keys and weights. */
  ghost predicate RestSame(s0: Store, s1: Store, ids: seq<nat>, a: nat, b: nat)
  {
    a <= b <= |ids| && forall j :: 0 <= j < |ids| && !(a <= j < b) ==> SameNode(s0, s1, ids[j])
  }

  lemma RestSameNodes(s0: Store, s1: Store, ids: seq<nat>, a: nat, b: nat)
    requires RestSame(s0, s1, ids, a, b)
    ensures SameNodes(s0, s1, ids[..a]) && SameNodes(s0, s1, ids[b..])
  {
    forall id | id in ids[..a] ensures SameNode(s0, s1, id) {
      var j :| 0 <= j < a && ids[..a][j] == id;
      assert ids[j] == id;
    }
    forall id | id in ids[b..] ensures SameNode(s0, s1, id) {
      var j :| 0 <= j < |ids| - b && ids[b..][j] == id;
      assert ids[b + j] == id;
    }
  }

  lemma PendingWeight(c: Config, s0: Store, s: Store, s1: Store, ids: seq<nat>, below: seq<Key>, p: nat,
                      its: seq<Key>, delta: Weight)
    requires RewriteStart(c, s0, s, s1, ids, below, p, its, delta)
    ensures Total(s1, its) == Plus(NodeWeight(s0[ids[p]]), delta) && Items(s0, ids[p]) == s0[ids[p]].items
  {
    hide Plus, KeyWeight, Total, Concat, Linked, Sized;
    assert WeightOk(s0, ids[p]);
    forall k | k in its ensures KeyWeight(s, k) == KeyWeight(s1, k) {
      assert k in below;
    }
    TotalFrame(s, s1, its);
  }

  /** One node takes new items; the shape of the level stays. */
  lemma ReplaceLevel(c: Config, s0: Store, s: Store, s1: Store, ids: seq<nat>, below: seq<Key>, p: nat, its: seq<Key>,
          delta: Weight)
    requires RewriteStart(c, s0, s, s1, ids, below, p, its, delta)
    requires RestSame(s0, s1, ids, p, p + 1)
    requires forall j :: 0 <= j < |ids| ==> ids[j] in s1 && SameLinks(s0, s1, ids[j])
    requires Items(s1, ids[p]) == its && NodeWeight(s1[ids[p]]) == Plus(NodeWeight(s0[ids[p]]), delta)
    requires 1 <= |its| <= c.maxItems && (p + 1 < |ids| ==> c.minItems <= |its|)
    ensures Rewritten(c, s0, s1, ids, below, p, p + 1, [ids[p]], delta)
    ensures Spliced(ids, p, p + 1, [ids[p]]) == ids
  {
    hide Plus, KeyWeight, Total, Concat, Index, Sized;
    PendingWeight(c, s0, s, s1, ids, below, p, its, delta);
    RestSameNodes(s0, s1, ids, p, p + 1);
    var mid := [ids[p]];
    assert Spliced(ids, p, p + 1, mid) == ids;
    assert Linked(s1, ids) by {
      forall j | 0 <= j < |ids| ensures LinkOk(s1, ids, j) {
        assert LinkOk(s0, ids, j);
      }
    }
    assert WeightOk(s1, ids[p]);
    ConcatOne(s1, ids[p]);
    EmptySides(s0, ids, p, p, p + 1);
    LevelStep(c, s0, s, s1, ids, below, p, its, delta, p, p + 1, mid);
  }

  ghost predicate SameLinks(s0: Store, s1: Store, id: nat) {
    && id in s0 && id in s1
    && s1[id].nextSibling == s0[id].nextSibling && s1[id].prevSibling == s0[id].prevSibling
  }

  lemma EmptySides(s0: Store, ids: seq<nat>, a: nat, p: nat, b: nat)
    requires a <= p < b <= |ids|
    ensures a == p ==> Concat(s0, ids[a..p]) == []
    ensures p + 1 == b ==> Concat(s0, ids[p + 1..b]) == []
  {
  }

  /** Links after a split: the new node `r` stands between node `p` and its old right neighbour. */
  ghost predicate SplitLinks(s0: Store, s1: Store, ids: seq<nat>, p: nat, r: nat) {
    && p < |ids| && ids[p] in s0 && r in s1
    && s1[r].nextSibling == s0[ids[p]].nextSibling && s1[r].prevSibling == ids[p]
    && forall j :: 0 <= j < |ids| ==>
      && ids[j] in s0 && ids[j] in s1
      && s1[ids[j]].nextSibling == (if j == p then r else s0[ids[j]].nextSibling)
      && s1[ids[j]].prevSibling == (if j == p + 1 then r else s0[ids[j]].prevSibling)
  }

  /** Node `p` keeps the first `n` of its new items and the others go to the new node `r` on its right. */
  lemma SplitLevel(c: Config, s0: Store, s: Store, s1: Store, ids: seq<nat>, below: seq<Key>, p: nat, its: seq<Key>,
                   delta: Weight, r: nat, n: nat)
    requires RewriteStart(c, s0, s, s1, ids, below, p, its, delta)
    requires RestSame(s0, s1, ids, p, p + 1)
    requires r != 0 && r !in ids && ids[p] in s1 && r in s1
    requires |its| == c.maxItems + 1 && n == (if p + 1 == |ids| then c.maxItems else c.maxItems / 2 + 1)
    requires s1[ids[p]].items == its[..n] && NodeWeight(s1[ids[p]]) == Total(s1, its[..n])
    requires s1[r].items == its[n..] && NodeWeight(s1[r]) == Total(s1, its[n..])
    requires SplitLinks(s0, s1, ids, p, r)
    ensures Rewritten(c, s0, s1, ids, below, p, p + 1, [ids[p], r], delta)
  {
    hide Plus, KeyWeight, Total, Concat, Index, Sized, SplitLinks, RestSame, SameWeights, Weighed, Linked, Distinct;
    RestSameNodes(s0, s1, ids, p, p + 1);
    var mid := [ids[p], r];
    SplitShape(s0, s1, ids, p, r);
    TwoWeighed(s1, ids[p], r);
    ConcatTwo(s1, ids[p], r);
    assert its[..n] + its[n..] == its;
    EmptySides(s0, ids, p, p, p + 1);
    assert MidSized(c, s1, mid, p + 1 == |ids|);
    LevelStep(c, s0, s, s1, ids, below, p, its, delta, p, p + 1, mid);
  }

  lemma TwoWeighed(s: Store, x: nat, y: nat)
    requires x in s && y in s && NodeWeight(s[x]) == Total(s, s[x].items) && NodeWeight(s[y]) == Total(s, s[y].items)
    ensures Weighed(s, [x, y])
  {
    assert WeightOk(s, x) && WeightOk(s, y);
  }

  lemma SplitShape(s0: Store, s1: Store, ids: seq<nat>, p: nat, r: nat)
    requires Distinct(ids) && Linked(s0, ids) && p < |ids| && r !in ids && SplitLinks(s0, s1, ids, p, r)
    ensures Distinct(Spliced(ids, p, p + 1, [ids[p], r])) && Linked(s1, Spliced(ids, p, p + 1, [ids[p], r]))
  {
    hide Spliced, Linked, Distinct;
    var ids1 := Spliced(ids, p, p + 1, [ids[p], r]);
    SplitAt(ids, p, r);
    SplitDistinct(ids, p, r, ids1);
    SplitLinked(s0, s1, ids, p, r, ids1);
  }

  /** Element `j` after `r` was put behind place `p`. */
  ghost function WithNext(ids: seq<nat>, p: nat, r: nat, j: nat): nat
    requires p < |ids| && j <= |ids|
  {
    if j <= p then ids[j] else if j == p + 1 then r else ids[j - 1]
  }

  lemma SplitAt(ids: seq<nat>, p: nat, r: nat)
    requires p < |ids|
    ensures var ids1 := Spliced(ids, p, p + 1, [ids[p], r]);
            && |ids1| == |ids| + 1
            && forall j :: 0 <= j < |ids1| ==> ids1[j] == WithNext(ids, p, r, j)
  {
  }

  lemma SplitDistinct(ids: seq<nat>, p: nat, r: nat, ids1: seq<nat>)
    requires Distinct(ids) && r !in ids && p < |ids| && |ids1| == |ids| + 1
    requires forall j :: 0 <= j < |ids1| ==> ids1[j] == WithNext(ids, p, r, j)
    ensures Distinct(ids1)
  {
    forall i, j | 0 <= i < j < |ids1| ensures ids1[i] != ids1[j] {
      assert ids1[i] == WithNext(ids, p, r, i) && ids1[j] == WithNext(ids, p, r, j);
    }
  }

  lemma SplitLinked(s0: Store, s1: Store, ids: seq<nat>, p: nat, r: nat, ids1: seq<nat>)
    requires Linked(s0, ids) && p < |ids| && SplitLinks(s0, s1, ids, p, r) && |ids1| == |ids| + 1
    requires forall j :: 0 <= j < |ids1| ==> ids1[j] == WithNext(ids, p, r, j)
    ensures Linked(s1, ids1)
  {
    forall j | 0 <= j < |ids1| ensures LinkOk(s1, ids1, j) {
      var i := if j <= p then j else j - 1;
      assert LinkOk(s0, ids, i) && ids[i] in s1;
      assert j + 1 < |ids1| ==> ids1[j + 1] == WithNext(ids, p, r, j + 1);
      assert j > 0 ==> ids1[j - 1] == WithNext(ids, p, r, j - 1);
    }
  }

  // ---------- Rewrites of an erasure ----------

  ghost function Without(ids: seq<nat>, p: nat): seq<nat>
    requires p < |ids|
  {
    ids[..p] + ids[p + 1..]
  }

  /** Links after node `p` was taken out. */
  ghost predicate DropLinks(s0: Store, s1: Store, ids: seq<nat>, p: nat) {
    && p < |ids| && ids[p] in s0
    && forall j :: 0 <= j < |ids| && j != p ==>
      && ids[j] in s0 && ids[j] in s1
      && s1[ids[j]].nextSibling == (if j + 1 == p then s0[ids[p]].nextSibling else s0[ids[j]].nextSibling)
      && s1[ids[j]].prevSibling == (if j == p + 1 then s0[ids[p]].prevSibling else s0[ids[j]].prevSibling)
  }

  lemma DropShape(s0: Store, s1: Store, ids: seq<nat>, p: nat)
    requires Distinct(ids) && Linked(s0, ids) && DropLinks(s0, s1, ids, p)
    ensures Distinct(Without(ids, p)) && Linked(s1, Without(ids, p))
  {
    var ids1 := Without(ids, p);
    assert forall j :: 0 <= j < |ids1| ==> ids1[j] == if j < p then ids[j] else ids[j + 1];
    assert LinkOk(s0, ids, p);
    forall j | 0 <= j < |ids1| ensures LinkOk(s1, ids1, j) {
      assert LinkOk(s0, ids, if j < p then j else j + 1);
    }
  }

  /** The new items of node `p` together with those of its neighbour in `ids[a..a + 2]`. */
  ghost function PairItems(s0: Store, ids: seq<nat>, p: nat, its: seq<Key>, a: nat): seq<Key>
    requires a <= p < a + 2 <= |ids|
  {
    if a == p then its + Items(s0, ids[p + 1]) else Items(s0, ids[a]) + its
  }

  lemma PairSides(s0: Store, ids: seq<nat>, p: nat, its: seq<Key>, a: nat)
    requires a <= p < a + 2 <= |ids|
    ensures Concat(s0, ids[a..p]) + its + Concat(s0, ids[p + 1..a + 2]) == PairItems(s0, ids, p, its, a)
  {
    hide Concat, Items;
    EmptySides(s0, ids, a, p, a + 2);
    if a == p {
      assert ids[p + 1..a + 2] == [ids[p + 1]];
      ConcatOne(s0, ids[p + 1]);
    } else {
      assert ids[a..p] == [ids[a]];
      ConcatOne(s0, ids[a]);
    }
  }

  /** Two neighbours share out their items anew. */
  lemma RebalanceLevel(c: Config, s0: Store, s: Store, s1: Store, ids: seq<nat>, below: seq<Key>, p: nat, its: seq<Key>,
                       delta: Weight, a: nat, n: nat)
    requires RewriteStart(c, s0, s, s1, ids, below, p, its, delta)
    requires a <= p < a + 2 <= |ids| && RestSame(s0, s1, ids, a, a + 2)
    requires forall j :: 0 <= j < |ids| ==> ids[j] in s1 && SameLinks(s0, s1, ids[j])
    requires var all := PairItems(s0, ids, p, its, a);
             && n <= |all| && c.minItems <= n <= c.maxItems && c.minItems <= |all| - n <= c.maxItems
             && s1[ids[a]].items == all[..n] && NodeWeight(s1[ids[a]]) == Total(s1, all[..n])
             && s1[ids[a + 1]].items == all[n..] && NodeWeight(s1[ids[a + 1]]) == Total(s1, all[n..])
    ensures Rewritten(c, s0, s1, ids, below, a, a + 2, [ids[a], ids[a + 1]], delta)
    ensures Spliced(ids, a, a + 2, [ids[a], ids[a + 1]]) == ids
  {
    hide Plus, KeyWeight, Total, Concat, Index, Sized, RestSame, SameWeights, Weighed, PairItems, LevelOk, Pending,
         MidSized, Linked, Distinct, Items, SameLinks, SameNodes, Spliced;
    var all := PairItems(s0, ids, p, its, a);
    var mid := [ids[a], ids[a + 1]];
    RestSameNodes(s0, s1, ids, a, a + 2);
    SplicedPair(ids, a);
    LevelLinked(c, s0, Concat(s0, ids), ids);
    KeptLinks(s0, s1, ids);
    SharedPair(c, s1, ids[a], ids[a + 1], all, n, a + 2 == |ids|);
    PairSides(s0, ids, p, its, a);
    LevelStep(c, s0, s, s1, ids, below, p, its, delta, a, a + 2, mid);
  }

  lemma SplicedPair(ids: seq<nat>, a: nat)
    requires a + 2 <= |ids|
    ensures Spliced(ids, a, a + 2, [ids[a], ids[a + 1]]) == ids
  {
  }

  lemma LevelLinked(c: Config, s: Store, below: seq<Key>, ids: seq<nat>)
    requires LevelOk(c, s, below, ids)
    ensures |ids| > 0 && Distinct(ids) && Linked(s, ids) && Present(s, ids)
  {
    hide Distinct, Linked, Sized, Weighed, Concat;
  }

  /** Nodes `x` and `y` hold the keys `all` between them. */
  lemma SharedPair(c: Config, s1: Store, x: nat, y: nat, all: seq<Key>, n: nat, last: bool)
    requires x in s1 && y in s1 && x != 0 && y != 0
    requires ConfigOk(c) && n <= |all| && c.minItems <= n <= c.maxItems && c.minItems <= |all| - n <= c.maxItems
    requires s1[x].items == all[..n] && NodeWeight(s1[x]) == Total(s1, all[..n])
    requires s1[y].items == all[n..] && NodeWeight(s1[y]) == Total(s1, all[n..])
    ensures Concat(s1, [x, y]) == all && Weighed(s1, [x, y]) && Present(s1, [x, y]) && MidSized(c, s1, [x, y], last)
  {
    hide Total, Concat, Weighed;
    TwoWeighed(s1, x, y);
    ConcatTwo(s1, x, y);
    assert all[..n] + all[n..] == all;
  }

  lemma KeptLinks(s0: Store, s1: Store, ids: seq<nat>)
    requires Linked(s0, ids)
    requires forall j :: 0 <= j < |ids| ==> ids[j] in s1 && SameLinks(s0, s1, ids[j])
    ensures Linked(s1, ids)
  {
    forall j | 0 <= j < |ids| ensures LinkOk(s1, ids, j) {
      assert LinkOk(s0, ids, j);
    }
  }

  /** Node `p` and a neighbour become one; the neighbour survives. */
  lemma MergeLevel(c: Config, s0: Store, s: Store, s1: Store, ids: seq<nat>, below: seq<Key>, p: nat, its: seq<Key>,
                   delta: Weight, a: nat)
    requires RewriteStart(c, s0, s, s1, ids, below, p, its, delta)
    requires a <= p < a + 2 <= |ids| && RestSame(s0, s1, ids, a, a + 2) && DropLinks(s0, s1, ids, p)
    requires var m := if a == p then ids[p + 1] else ids[a];
             var all := PairItems(s0, ids, p, its, a);
             && m in s1 && s1[m].items == all && NodeWeight(s1[m]) == Total(s1, all)
             && 1 <= |all| <= c.maxItems && (a + 2 < |ids| ==> c.minItems <= |all|)
    ensures Rewritten(c, s0, s1, ids, below, a, a + 2, [if a == p then ids[p + 1] else ids[a]], delta)
    ensures Spliced(ids, a, a + 2, [if a == p then ids[p + 1] else ids[a]]) == Without(ids, p)
  {
    hide Plus, KeyWeight, Total, Concat, Index, Sized, RestSame, SameWeights, Weighed, PairItems, DropLinks, Linked,
         Distinct;
    var m := if a == p then ids[p + 1] else ids[a];
    var mid := [m];
    RestSameNodes(s0, s1, ids, a, a + 2);
    assert Spliced(ids, a, a + 2, mid) == Without(ids, p);
    DropShape(s0, s1, ids, p);
    OneWeighed(s1, m);
    ConcatOne(s1, m);
    PairSides(s0, ids, p, its, a);
    assert MidSized(c, s1, mid, a + 2 == |ids|);
    LevelStep(c, s0, s, s1, ids, below, p, its, delta, a, a + 2, mid);
  }

  lemma OneWeighed(s: Store, x: nat)
    requires x in s && NodeWeight(s[x]) == Total(s, s[x].items)
    ensures Weighed(s, [x])
  {
    assert WeightOk(s, x);
  }

  /** Node `p` became empty and is taken out. */
  lemma DropLevel(c: Config, s0: Store, s: Store, s1: Store, ids: seq<nat>, below: seq<Key>, p: nat, delta: Weight)
    requires RewriteStart(c, s0, s, s1, ids, below, p, [], delta)
    requires |ids| > 1 && p < |ids| && RestSame(s0, s1, ids, p, p + 1) && DropLinks(s0, s1, ids, p)
    ensures Rewritten(c, s0, s1, ids, below, p, p + 1, [], delta)
    ensures Spliced(ids, p, p + 1, []) == Without(ids, p)
  {
    hide Plus, KeyWeight, Total, Concat, Index, Sized, RestSame, SameWeights, Weighed, DropLinks, Linked, Distinct;
    RestSameNodes(s0, s1, ids, p, p + 1);
    assert Spliced(ids, p, p + 1, []) == Without(ids, p);
    DropShape(s0, s1, ids, p);
    ConcatNil(s1);
    NoneWeighed(s1);
    EmptySides(s0, ids, p, p, p + 1);
    LevelStep(c, s0, s, s1, ids, below, p, [], delta, p, p + 1, []);
  }

  lemma NoneWeighed(s: Store)
    ensures Weighed(s, [])
  {
  }
}
