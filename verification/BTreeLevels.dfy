/** What happens to a level of the B+tree when the level below it changes.

    Insertion and erasure both walk from the leaf to the root and rewrite one level at a time. While
    they do, the levels above are still as they were. `Pending` states how the keys that a level
    ought to hold differ from those it holds: they differ under a single node. `LevelStep` says when
    rewriting a few neighbouring nodes puts the level in order again, and `Lift` carries the
    difference to the next level up. */
module BTreeLevels {
  import opened BTreeNodes

  lemma {:induction false} ConcatAppend(s: Store, a: seq<nat>, b: seq<nat>)
    ensures Concat(s, a + b) == Concat(s, a) + Concat(s, b)
  {
    if a == [] {
      assert a + b == b;
    } else {
      assert (a + b)[1..] == a[1..] + b;
      ConcatAppend(s, a[1..], b);
    }
  }

  lemma {:induction false} ConcatFrame(s: Store, t: Store, ids: seq<nat>)
    requires forall id :: id in ids ==> Items(s, id) == Items(t, id)
    ensures Concat(s, ids) == Concat(t, ids)
  {
    if ids != [] {
      assert ids[0] in ids;
      forall id | id in ids[1..] ensures id in ids {
      }
      ConcatFrame(s, t, ids[1..]);
    }
  }

  lemma ConcatNil(s: Store)
    ensures Concat(s, []) == []
  {
  }

  lemma ConcatOne(s: Store, id: nat)
    ensures Concat(s, [id]) == Items(s, id)
  {
    assert Concat(s, [id][1..]) == [];
  }

  lemma ConcatTwo(s: Store, x: nat, y: nat)
    ensures Concat(s, [x, y]) == Items(s, x) + Items(s, y)
  {
    assert [x, y] == [x] + [y];
    ConcatAppend(s, [x], [y]);
    ConcatOne(s, x);
    ConcatOne(s, y);
  }

  /** Splits the keys of a level around node `j`. */
  lemma ConcatAround(s: Store, ids: seq<nat>, j: nat)
    requires j < |ids|
    ensures Concat(s, ids) == Concat(s, ids[..j]) + Items(s, ids[j]) + Concat(s, ids[j + 1..])
    ensures Concat(s, ids[..j + 1]) == Concat(s, ids[..j]) + Items(s, ids[j])
  {
    hide Concat, Items;
    assert ids == ids[..j] + ([ids[j]] + ids[j + 1..]);
    ConcatAppend(s, ids[..j], [ids[j]] + ids[j + 1..]);
    ConcatAppend(s, [ids[j]], ids[j + 1..]);
    ConcatOne(s, ids[j]);
    assert ids[..j + 1] == ids[..j] + [ids[j]];
    ConcatAppend(s, ids[..j], [ids[j]]);
  }

  /** The weights of a level's nodes add up to the weights of its keys. */
  lemma {:induction false} WeighedTotal(s: Store, ids: seq<nat>)
    requires Present(s, ids) && Weighed(s, ids)
    ensures Total(s, Index(s, ids)) == Total(s, Concat(s, ids))
  {
    hide Plus;
    if ids != [] {
      var rest := ids[1..];
      assert forall j :: 0 <= j < |rest| ==> rest[j] == ids[j + 1];
      WeighedTotal(s, rest);
      assert Index(s, ids)[1..] == Index(s, rest);
      assert WeightOk(s, ids[0]);
      TotalConcat(s, Items(s, ids[0]), Concat(s, rest));
    }
  }

  ghost predicate SameNode(s: Store, t: Store, id: nat) {
    && id in s && id in t && s[id].items == t[id].items && NodeWeight(s[id]) == NodeWeight(t[id])
  }

  /** Same keys and weights for all of `ids` (their sibling links may differ). */
  ghost predicate SameNodes(s: Store, t: Store, ids: seq<nat>) {
    forall id :: id in ids ==> SameNode(s, t, id)
  }

  ghost predicate SameWeights(s: Store, t: Store, keys: seq<Key>) {
    forall k :: k in keys ==> KeyWeight(s, k) == KeyWeight(t, k)
  }

  lemma SameNodesConcat(s: Store, t: Store, ids: seq<nat>)
    requires SameNodes(s, t, ids)
    ensures Concat(s, ids) == Concat(t, ids) && Index(s, ids) == Index(t, ids)
  {
    forall id | id in ids ensures Items(s, id) == Items(t, id) {
      assert SameNode(s, t, id);
    }
    ConcatFrame(s, t, ids);
    assert forall j :: 0 <= j < |ids| ==> ids[j] in ids;
  }

  lemma SameNodesWeights(s: Store, t: Store, ids: seq<nat>)
    requires SameNodes(s, t, ids) && Present(s, ids)
    ensures SameWeights(s, t, Index(s, ids))
  {
    forall k | k in Index(s, ids) ensures KeyWeight(s, k) == KeyWeight(t, k) {
      var j :| 0 <= j < |ids| && k == KeyOf(s, ids[j]);
      assert ids[j] in ids && SameNode(s, t, ids[j]);
    }
  }

  lemma WeighedFrame(s: Store, t: Store, ids: seq<nat>)
    requires Weighed(s, ids) && SameNodes(s, t, ids) && SameWeights(s, t, Concat(s, ids))
    ensures Weighed(t, ids)
  {
    hide Plus, KeyWeight;
    forall j | 0 <= j < |ids| ensures WeightOk(t, ids[j]) {
      assert WeightOk(s, ids[j]) && ids[j] in ids && SameNode(s, t, ids[j]);
      ConcatAround(s, ids, j);
      forall k | k in s[ids[j]].items ensures KeyWeight(s, k) == KeyWeight(t, k) {
        assert k in Concat(s, ids);
      }
      TotalFrame(s, t, s[ids[j]].items);
    }
  }

  /** A level whose nodes and whose children's weights are untouched stays in order. */
  lemma LevelFrame(c: Config, s: Store, t: Store, below: seq<Key>, ids: seq<nat>)
    requires LevelOk(c, s, below, ids)
    requires forall id :: id in ids ==> id in t && t[id] == s[id]
    requires SameWeights(s, t, below)
    ensures LevelOk(c, t, below, ids)
    ensures Index(t, ids) == Index(s, ids) && SameWeights(s, t, Index(s, ids))
  {
    hide Plus, KeyWeight, Total, Concat;
    assert forall j :: 0 <= j < |ids| ==> ids[j] in ids;
    forall id | id in ids ensures SameNode(s, t, id) {
    }
    SameNodesConcat(s, t, ids);
    SameNodesWeights(s, t, ids);
    WeighedFrame(s, t, ids);
    forall j | 0 <= j < |ids| ensures LinkOk(t, ids, j) && SizeOk(c, t, ids, j) {
      assert LinkOk(s, ids, j) && SizeOk(c, s, ids, j);
    }
  }

  // ---------- The pending difference ----------

  /** Level `ids` is as it was in `s0`. It ought to hold `below`, which differs from what it holds
      only in that node `p` should have the items `its`, weighing `delta` more than before. */
  ghost predicate Pending(s0: Store, s: Store, ids: seq<nat>, below: seq<Key>, p: nat, its: seq<Key>, delta: Weight) {
    && p < |ids|
    && below == Concat(s0, ids[..p]) + its + Concat(s0, ids[p + 1..])
    && SameWeights(s0, s, Concat(s0, ids[..p])) && SameWeights(s0, s, Concat(s0, ids[p + 1..]))
    && Total(s, its) == Plus(Total(s0, Items(s0, ids[p])), delta)
  }

  /** The rewritten nodes `mid` are within size; all but a right-most one are at least MIN_ITEMS. */
  ghost predicate MidSized(c: Config, s: Store, mid: seq<nat>, last: bool) {
    forall j :: 0 <= j < |mid| ==>
      && 1 <= |Items(s, mid[j])| <= c.maxItems
      && (j + 1 < |mid| || !last ==> c.minItems <= |Items(s, mid[j])|)
  }

  /** Nodes `ids[a..b]`, among them node `p`, are replaced by `mid`. */
  ghost function Spliced(ids: seq<nat>, a: nat, b: nat, mid: seq<nat>): seq<nat>
    requires a <= b <= |ids|
  {
    ids[..a] + mid + ids[b..]
  }

  lemma LevelStep(c: Config, s0: Store, s: Store, s1: Store, ids: seq<nat>, below: seq<Key>, p: nat, its: seq<Key>,
                  delta: Weight, a: nat, b: nat, mid: seq<nat>)
    requires LevelOk(c, s0, Concat(s0, ids), ids)
    requires Pending(s0, s, ids, below, p, its, delta)
    requires a <= p < b <= |ids|
    requires Concat(s1, mid) == Concat(s0, ids[a..p]) + its + Concat(s0, ids[p + 1..b])
    requires SameWeights(s, s1, below)
    requires SameNodes(s0, s1, ids[..a]) && SameNodes(s0, s1, ids[b..])
    requires MidSized(c, s1, mid, b == |ids|) && Present(s1, mid) && Weighed(s1, mid)
    requires |Spliced(ids, a, b, mid)| > 0 && Distinct(Spliced(ids, a, b, mid)) && Linked(s1, Spliced(ids, a, b, mid))
    ensures LevelOk(c, s1, below, Spliced(ids, a, b, mid))
    ensures Total(s1, Index(s1, mid)) == Plus(Total(s0, Index(s0, ids[a..b])), delta)
  {
    hide Plus, KeyWeight, Total, Linked, Distinct, Concat, Weighed, Index;
    var pre, post, ids1 := ids[..a], ids[b..], Spliced(ids, a, b, mid);
    var l, r := ids[a..p], ids[p + 1..b];
    assert below == Concat(s0, pre) + Concat(s1, mid) + Concat(s0, post) by {
      assert ids[..p] == pre + l && ids[p + 1..] == r + post;
      ConcatAppend(s0, pre, l);
      ConcatAppend(s0, r, post);
    }
    assert Concat(s1, ids1) == below by {
      ConcatAppend(s1, pre + mid, post);
      ConcatAppend(s1, pre, mid);
      SameNodesConcat(s0, s1, pre);
      SameNodesConcat(s0, s1, post);
    }
    assert Present(s1, ids1) && Sized(c, s1, ids1) by {
      forall j | 0 <= j < |ids1| ensures ids1[j] != 0 && ids1[j] in s1 && SizeOk(c, s1, ids1, j) {
        if j < a {
          assert ids1[j] == ids[j] && ids[j] in pre && SameNode(s0, s1, ids[j]) && SizeOk(c, s0, ids, j);
        } else if j < a + |mid| {
          assert ids1[j] == mid[j - a];
        } else {
          var i := j - |mid| - a + b;
          assert ids1[j] == ids[i] && ids[i] in post && SameNode(s0, s1, ids[i]) && SizeOk(c, s0, ids, i);
        }
      }
    }
    LevelStepWeights(c, s0, s, s1, ids, below, p, its, delta, a, b, mid);
  }

  lemma PartWeighed(s: Store, ids: seq<nat>, a: nat, b: nat)
    requires a <= b <= |ids| && Weighed(s, ids) && Present(s, ids)
    ensures Weighed(s, ids[a..b]) && Present(s, ids[a..b])
  {
    assert forall j :: 0 <= j < b - a ==> ids[a..b][j] == ids[a + j];
  }

  lemma LevelStepWeights(c: Config, s0: Store, s: Store, s1: Store, ids: seq<nat>, below: seq<Key>, p: nat,
                         its: seq<Key>, delta: Weight, a: nat, b: nat, mid: seq<nat>)
    requires LevelOk(c, s0, Concat(s0, ids), ids)
    requires Pending(s0, s, ids, below, p, its, delta)
    requires a <= p < b <= |ids|
    requires Concat(s1, mid) == Concat(s0, ids[a..p]) + its + Concat(s0, ids[p + 1..b])
    requires SameWeights(s, s1, below)
    requires SameNodes(s0, s1, ids[..a]) && SameNodes(s0, s1, ids[b..])
    requires Present(s1, mid) && Weighed(s1, mid)
    ensures Weighed(s1, Spliced(ids, a, b, mid))
    ensures Total(s1, Index(s1, mid)) == Plus(Total(s0, Index(s0, ids[a..b])), delta)
  {
    hide Plus, KeyWeight, Total, Linked, Distinct, Sized, Concat, Items, Index;
    var pre, post, ids1 := ids[..a], ids[b..], Spliced(ids, a, b, mid);
    var l, r := ids[a..p], ids[p + 1..b];
    PendingWeights(s0, s, s1, ids, below, p, its, delta, a, b);
    PartWeighed(s0, ids, 0, a);
    PartWeighed(s0, ids, a, b);
    PartWeighed(s0, ids, b, |ids|);
    assert ids[0..a] == pre && ids[b..|ids|] == post;
    WeighedFrame(s0, s1, pre);
    WeighedFrame(s0, s1, post);
    assert Weighed(s1, ids1) by {
      forall j | 0 <= j < |ids1| ensures WeightOk(s1, ids1[j]) {
        if j < a {
          assert ids1[j] == pre[j];
        } else if j < a + |mid| {
          assert ids1[j] == mid[j - a];
        } else {
          assert ids1[j] == post[j - |mid| - a];
        }
      }
    }
    WeighedTotal(s1, mid);
    WeighedTotal(s0, ids[a..b]);
    ConcatAround(s0, ids[a..b], p - a);
    assert ids[a..b][..p - a] == l && ids[a..b][p - a + 1..] == r && ids[a..b][p - a] == ids[p];
    SwapMiddle(s0, s1, Concat(s0, l), Items(s0, ids[p]), its, Concat(s0, r), delta);
  }

  lemma PendingWeights(s0: Store, s: Store, s1: Store, ids: seq<nat>, below: seq<Key>, p: nat, its: seq<Key>,
                       delta: Weight, a: nat, b: nat)
    requires Pending(s0, s, ids, below, p, its, delta)
    requires a <= p < b <= |ids|
    requires SameWeights(s, s1, below)
    ensures SameWeights(s0, s1, Concat(s0, ids[..a])) && SameWeights(s0, s1, Concat(s0, ids[a..p]))
    ensures SameWeights(s0, s1, Concat(s0, ids[p + 1..b])) && SameWeights(s0, s1, Concat(s0, ids[b..]))
    ensures Total(s1, its) == Plus(Total(s0, Items(s0, ids[p])), delta)
  {
    hide Plus, KeyWeight, Total, Concat, Items;
    var left, right := Concat(s0, ids[..p]), Concat(s0, ids[p + 1..]);
    SplitSameWeights(s, s1, left + its, right);
    SplitSameWeights(s, s1, left, its);
    assert ids[..p] == ids[..a] + ids[a..p] && ids[p + 1..] == ids[p + 1..b] + ids[b..];
    ConcatAppend(s0, ids[..a], ids[a..p]);
    ConcatAppend(s0, ids[p + 1..b], ids[b..]);
    SplitSameWeights(s0, s1, Concat(s0, ids[..a]), Concat(s0, ids[a..p]));
    SplitSameWeights(s0, s1, Concat(s0, ids[p + 1..b]), Concat(s0, ids[b..]));
    TotalFrame(s, s1, its);
  }

  lemma PullDelta(a: Weight, b: Weight, c: Weight, d: Weight)
    ensures Plus(a, Plus(Plus(b, d), c)) == Plus(Plus(a, Plus(b, c)), d)
  {
    hide Plus;
    PlusLaws(b, d, c);
    PlusLaws(d, c, c);
    PlusLaws(b, c, d);
    PlusLaws(a, Plus(b, c), d);
  }

  /** The difference as the next level up sees it: the rewritten nodes `ids[a..b]` lie under its node `q`,
      whose keys for them start at slot `i`. */
  lemma Lift(s0: Store, s1: Store, ids: seq<nat>, a: nat, b: nat, mid: seq<nat>, up: seq<nat>, q: nat, i: nat,
          delta: Weight)
    requires a <= b <= |ids| && Present(s0, ids) && Concat(s0, up) == Index(s0, ids)
    requires q < |up| && |Concat(s0, up[..q])| + i == a && i + (b - a) <= |Items(s0, up[q])|
    requires SameNodes(s0, s1, ids[..a]) && SameNodes(s0, s1, ids[b..])
    requires Total(s1, Index(s1, mid)) == Plus(Total(s0, Index(s0, ids[a..b])), delta)
    ensures Pending(s0, s1, up, Index(s1, Spliced(ids, a, b, mid)), q,
                    Items(s0, up[q])[..i] + Index(s1, mid) + Items(s0, up[q])[i + (b - a)..], delta)
  {
    hide Plus, KeyWeight, Total, Concat, Items, KeyOf, Index, SameNodes, SameWeights, Present, Spliced;
    var w := Items(s0, up[q]);
    var left, right := Concat(s0, up[..q]), Concat(s0, up[q + 1..]);
    var w1, wm, w2 := w[..i], w[i..i + (b - a)], w[i + (b - a)..];
    LiftKeys(s0, ids, a, b, up, q, i);
    PartPresent(s0, ids, a, b);
    SameNodesConcat(s0, s1, ids[..a]);
    SameNodesConcat(s0, s1, ids[b..]);
    SameNodesWeights(s0, s1, ids[..a]);
    SameNodesWeights(s0, s1, ids[b..]);
    var its := w1 + Index(s1, mid) + w2;
    IndexSpliced(s1, ids, a, b, mid);
    assert Index(s1, Spliced(ids, a, b, mid)) == left + its + right;
    SplitSameWeights(s0, s1, left, w1);
    SplitSameWeights(s0, s1, w2, right);
    assert w == w1 + wm + w2;
    SwapMiddle(s0, s1, w1, wm, Index(s1, mid), w2, delta);
  }

  lemma PartPresent(s: Store, ids: seq<nat>, a: nat, b: nat)
    requires a <= b <= |ids| && Present(s, ids)
    ensures Present(s, ids[..a]) && Present(s, ids[b..])
  {
  }

  lemma IndexSpliced(s: Store, ids: seq<nat>, a: nat, b: nat, mid: seq<nat>)
    requires a <= b <= |ids|
    ensures Index(s, Spliced(ids, a, b, mid)) == Index(s, ids[..a]) + Index(s, mid) + Index(s, ids[b..])
  {
  }

  lemma LiftKeys(s0: Store, ids: seq<nat>, a: nat, b: nat, up: seq<nat>, q: nat, i: nat)
    requires a <= b <= |ids| && Concat(s0, up) == Index(s0, ids)
    requires q < |up| && |Concat(s0, up[..q])| + i == a && i + (b - a) <= |Items(s0, up[q])|
    ensures Index(s0, ids[..a]) == Concat(s0, up[..q]) + Items(s0, up[q])[..i]
    ensures Index(s0, ids[a..b]) == Items(s0, up[q])[i..i + (b - a)]
    ensures Index(s0, ids[b..]) == Items(s0, up[q])[i + (b - a)..] + Concat(s0, up[q + 1..])
  {
    hide Concat, Items, KeyOf;
    ConcatAround(s0, up, q);
    var keys := Index(s0, ids);
    assert Index(s0, ids[..a]) == keys[..a];
    assert Index(s0, ids[a..b]) == keys[a..b];
    assert Index(s0, ids[b..]) == keys[b..];
  }

  lemma SplitSameWeights(s: Store, t: Store, a: seq<Key>, b: seq<Key>)
    requires SameWeights(s, t, a + b)
    ensures SameWeights(s, t, a) && SameWeights(s, t, b)
  {
    hide KeyWeight;
    forall k | k in a || k in b ensures KeyWeight(s, k) == KeyWeight(t, k) {
      assert k in a + b;
    }
  }

  /** Exchanging the middle of a list of keys changes its weight by what the middle changes. */
  lemma SwapMiddle(s: Store, t: Store, l: seq<Key>, m: seq<Key>, m': seq<Key>, r: seq<Key>, delta: Weight)
    requires SameWeights(s, t, l) && SameWeights(s, t, r)
    requires Total(t, m') == Plus(Total(s, m), delta)
    ensures Total(t, l + m' + r) == Plus(Total(s, l + m + r), delta)
  {
    hide Plus, KeyWeight, Total;
    assert l + m' + r == l + (m' + r) && l + m + r == l + (m + r);
    TotalConcat(t, l, m' + r);
    TotalConcat(t, m', r);
    TotalConcat(s, l, m + r);
    TotalConcat(s, m, r);
    TotalFrame(s, t, l);
    TotalFrame(s, t, r);
    PullDelta(Total(s, l), Total(s, m), Total(s, r), delta);
  }
}
