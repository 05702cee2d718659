/** The walk from the leaf to the root, shared by insertion and erasure: levels below `k` are in their
    final state, level `k` and those above are as they were. */
module BTreeClimb {
  import opened Types
  import opened BTreeNodes
  import opened BTreeLevels
  import opened BTreeSearch

  ghost predicate Untouched(s0: Store, s: Store, ids: seq<nat>) {
    forall id :: id in ids ==> id in s0 && id in s && s[id] == s0[id]
  }

  ghost predicate NodesListed(s: Store, nextId: nat, levels: seq<seq<nat>>) {
    forall id :: id in s ==> 0 < id < nextId && InLevels(levels, id)
  }

  ghost predicate Climb(c: Config, s0: Store, s: Store, nextId: nat, contents: seq<Item>, levels0: seq<seq<nat>>,
                        levels: seq<seq<nat>>, k: nat)
  {
    && |levels| == |levels0| && k <= |levels|
    && (forall l :: k <= l < |levels| ==> levels[l] == levels0[l] && Untouched(s0, s, levels0[l]))
    && LevelsOk(c, s, contents, levels, k)
    && AllDistinct(levels) && NodesListed(s, nextId, levels)
  }

  /** Only level `k` changed: nodes outside it kept their values, and new nodes have fresh ids. */
  ghost predicate OnlyLevel(s: Store, s1: Store, nextId: nat, nextId1: nat, ids: seq<nat>, ids1: seq<nat>) {
    && nextId <= nextId1
    && (forall id :: id in s && id !in ids ==> id in s1 && s1[id] == s[id])
    && (forall id :: id in ids1 ==> id in ids || id >= nextId)
    && (forall id :: id in s1 ==> (id in s && id !in ids) || (id in ids1 && 0 < id < nextId1))
  }

  lemma ApartSymmetric(a: seq<nat>, b: seq<nat>)
    requires Apart(a, b)
    ensures forall id :: id in a ==> id !in b
  {
    forall id | id in a ensures id !in b {
      var i :| 0 <= i < |a| && a[i] == id;
    }
  }

  lemma ClimbDistinct(s: Store, nextId: nat, levels: seq<seq<nat>>, k: nat, ids1: seq<nat>)
    requires k < |levels| && AllDistinct(levels) && Distinct(ids1)
    requires forall l, j :: 0 <= l < |levels| && 0 <= j < |levels[l]| ==> levels[l][j] < nextId
    requires forall id :: id in ids1 ==> id in levels[k] || id >= nextId
    ensures AllDistinct(levels[k := ids1])
  {
    var levels1 := levels[k := ids1];
    forall l, m | 0 <= l < m < |levels1| ensures Apart(levels1[l], levels1[m]) {
      assert Apart(levels[l], levels[m]);
      if l == k {
        forall i, j | 0 <= i < |ids1| && 0 <= j < |levels[m]| ensures ids1[i] != levels[m][j] {
          assert ids1[i] in ids1;
        }
      } else if m == k {
        forall i, j | 0 <= i < |levels[l]| && 0 <= j < |ids1| ensures levels[l][i] != ids1[j] {
          assert ids1[j] in ids1;
        }
      }
    }
  }

  /** All node ids of the levels are present in the store, hence below the next free id. */
  lemma ClimbPresent(c: Config, s0: Store, s: Store, nextId: nat, contents: seq<Item>, levels0: seq<seq<nat>>,
                     levels: seq<seq<nat>>, k: nat)
    requires Climb(c, s0, s, nextId, contents, levels0, levels, k)
    ensures forall l, j :: 0 <= l < |levels| && 0 <= j < |levels[l]| ==> levels[l][j] in s && levels[l][j] < nextId
  {
    hide Concat, Sized, Linked, Weighed, AllDistinct, InLevels;
    forall l, j | 0 <= l < |levels| && 0 <= j < |levels[l]| ensures levels[l][j] in s {
      if l < k {
        assert LevelAt(c, s, contents, levels, l);
      } else {
        assert levels[l][j] in levels0[l];
      }
    }
  }

  /** No level but `k` is affected. */
  lemma OthersUntouched(c: Config, s0: Store, s: Store, s1: Store, nextId: nat, contents: seq<Item>,
                        levels0: seq<seq<nat>>, levels: seq<seq<nat>>, k: nat, nextId1: nat, ids1: seq<nat>)
    requires Climb(c, s0, s, nextId, contents, levels0, levels, k) && k < |levels|
    requires OnlyLevel(s, s1, nextId, nextId1, levels[k], ids1)
    ensures forall l :: 0 <= l < |levels| && l != k ==> Untouched(s, s1, levels[l])
  {
    hide LevelsOk, Distinct, InLevels;
    ClimbPresent(c, s0, s, nextId, contents, levels0, levels, k);
    forall l | 0 <= l < |levels| && l != k ensures Untouched(s, s1, levels[l]) {
      assert if l < k then Apart(levels[l], levels[k]) else Apart(levels[k], levels[l]);
      forall id | id in levels[l] ensures id in s && id !in levels[k] {
        var j :| 0 <= j < |levels[l]| && levels[l][j] == id;
        if l < k {
          ApartSymmetric(levels[l], levels[k]);
        }
      }
    }
  }

  /** What lies below level `k` keeps its weight. */
  lemma BelowUnchanged(c: Config, s: Store, s1: Store, contents: seq<Item>, levels: seq<seq<nat>>, k: nat)
    requires k < |levels| && LevelsOk(c, s, contents, levels, k)
    requires forall l :: 0 <= l < |levels| && l != k ==> Untouched(s, s1, levels[l])
    ensures SameWeights(s, s1, Below(s, contents, levels, k))
  {
    hide Concat, Sized, Linked, Weighed, Distinct;
    if k > 0 {
      assert LevelAt(c, s, contents, levels, k - 1);
      assert Untouched(s, s1, levels[k - 1]);
      assert SameNodes(s, s1, levels[k - 1]);
      SameNodesWeights(s, s1, levels[k - 1]);
    } else {
      forall key | key in LeafKeys(contents) ensures KeyWeight(s, key) == KeyWeight(s1, key) {
      }
    }
  }

  lemma ClimbListed(s: Store, s1: Store, nextId: nat, nextId1: nat, levels: seq<seq<nat>>, k: nat, ids1: seq<nat>)
    requires k < |levels| && NodesListed(s, nextId, levels)
    requires OnlyLevel(s, s1, nextId, nextId1, levels[k], ids1)
    ensures NodesListed(s1, nextId1, levels[k := ids1])
  {
    var levels1 := levels[k := ids1];
    forall id | id in s1 ensures 0 < id < nextId1 && InLevels(levels1, id) {
      if id in ids1 {
        assert id in levels1[k];
      } else {
        var l :| 0 <= l < |levels| && id in levels[l];
        assert id in levels1[l];
      }
    }
  }

  /** Once level `k` holds what lies below it, the walk has climbed past it. */
  lemma ClimbStep(c: Config, s0: Store, s: Store, s1: Store, nextId: nat, nextId1: nat, contents: seq<Item>,
                  levels0: seq<seq<nat>>, levels: seq<seq<nat>>, k: nat, ids1: seq<nat>)
    requires Climb(c, s0, s, nextId, contents, levels0, levels, k) && k < |levels|
    requires LevelOk(c, s1, Below(s, contents, levels, k), ids1)
    requires OnlyLevel(s, s1, nextId, nextId1, levels[k], ids1)
    ensures Climb(c, s0, s1, nextId1, contents, levels0, levels[k := ids1], k + 1)
    ensures Ascending(Below(s, contents, levels, k)) ==> Ascending(Index(s1, ids1))
  {
    hide LevelOk, AllDistinct, NodesListed, OnlyLevel, Rank, Index, Ascending, LevelsOk, Untouched;
    ClimbPresent(c, s0, s, nextId, contents, levels0, levels, k);
    OnlyLevelDistinct(c, s, s1, nextId, nextId1, contents, levels, k, ids1);
    ClimbListed(s, s1, nextId, nextId1, levels, k, ids1);
    OthersUntouched(c, s0, s, s1, nextId, contents, levels0, levels, k, nextId1, ids1);
    LowerLevels(c, s, s1, contents, levels, k, ids1);
    UpperLevels(s0, s, s1, levels0, levels, k);
    if Ascending(Below(s, contents, levels, k)) {
      LevelAscending(c, s1, Below(s, contents, levels, k), ids1);
    }
  }

  lemma LowerLevels(c: Config, s: Store, s1: Store, contents: seq<Item>, levels: seq<seq<nat>>, k: nat, ids1: seq<nat>)
    requires k < |levels| && LevelsOk(c, s, contents, levels, k)
    requires LevelOk(c, s1, Below(s, contents, levels, k), ids1)
    requires forall l :: 0 <= l < |levels| && l != k ==> Untouched(s, s1, levels[l])
    ensures LevelsOk(c, s1, contents, levels[k := ids1], k + 1)
  {
    hide LevelOk, Index, Untouched, LeafKeys;
    var levels1 := levels[k := ids1];
    forall l | 0 <= l < k + 1 ensures LevelAt(c, s1, contents, levels1, l) {
      if l < k {
        LowerLevel(c, s, s1, contents, levels, levels1, k, l);
      } else if k > 0 {
        LowerLevel(c, s, s1, contents, levels, levels1, k, k - 1);
      }
    }
  }

  lemma UpperLevels(s0: Store, s: Store, s1: Store, levels0: seq<seq<nat>>, levels: seq<seq<nat>>, k: nat)
    requires k < |levels| == |levels0|
    requires forall l :: k <= l < |levels| ==> levels[l] == levels0[l] && Untouched(s0, s, levels0[l])
    requires forall l :: 0 <= l < |levels| && l != k ==> Untouched(s, s1, levels[l])
    ensures forall l :: k + 1 <= l < |levels| ==> Untouched(s0, s1, levels0[l])
  {
    forall l | k + 1 <= l < |levels| ensures Untouched(s0, s1, levels0[l]) {
      assert levels[l] == levels0[l] && Untouched(s0, s, levels0[l]) && Untouched(s, s1, levels[l]);
    }
  }

  lemma OnlyLevelDistinct(c: Config, s: Store, s1: Store, nextId: nat, nextId1: nat, contents: seq<Item>,
                          levels: seq<seq<nat>>, k: nat, ids1: seq<nat>)
    requires k < |levels| && AllDistinct(levels)
    requires forall l, j :: 0 <= l < |levels| && 0 <= j < |levels[l]| ==> levels[l][j] < nextId
    requires OnlyLevel(s, s1, nextId, nextId1, levels[k], ids1)
    requires LevelOk(c, s1, Below(s, contents, levels, k), ids1)
    ensures AllDistinct(levels[k := ids1])
  {
    hide Concat, Sized, Linked, Weighed, AllDistinct, Distinct;
    ClimbDistinct(s, nextId, levels, k, ids1);
  }

  lemma LevelAscending(c: Config, s: Store, below: seq<Key>, ids: seq<nat>)
    requires LevelOk(c, s, below, ids) && Ascending(below)
    ensures Ascending(Index(s, ids))
  {
    hide Concat, Linked, Weighed, Rank, Ascending;
    NonEmptyNodes(c, s, ids);
    IndexAscending(s, ids);
  }

  lemma NonEmptyNodes(c: Config, s: Store, ids: seq<nat>)
    requires Sized(c, s, ids)
    ensures forall i :: 0 <= i < |ids| ==> Items(s, ids[i]) != []
  {
    forall i | 0 <= i < |ids| ensures Items(s, ids[i]) != [] {
      assert SizeOk(c, s, ids, i);
    }
  }

  /** A level below `k` is not affected by a change of level `k`. */
  lemma {:induction false} LowerLevel(c: Config, s: Store, s1: Store, contents: seq<Item>, levels: seq<seq<nat>>,
                                      levels1: seq<seq<nat>>, k: nat, l: nat)
    requires l < k < |levels| == |levels1| && levels1[..k] == levels[..k]
    requires LevelsOk(c, s, contents, levels, k)
    requires forall m :: 0 <= m < |levels| && m != k ==> Untouched(s, s1, levels[m])
    ensures levels1[l] == levels[l]
    ensures LevelOk(c, s1, Below(s1, contents, levels1, l), levels1[l])
    ensures Index(s1, levels1[l]) == Index(s, levels[l])
  {
    hide Concat, Sized, Linked, Weighed, Distinct, Index;
    assert levels1[l] == levels1[..k][l] && levels[l] == levels[..k][l];
    var below := Below(s, contents, levels, l);
    assert LevelAt(c, s, contents, levels, l);
    assert Untouched(s, s1, levels[l]);
    if l > 0 {
      assert Untouched(s, s1, levels[l - 1]);
      LowerLevel(c, s, s1, contents, levels, levels1, k, l - 1);
      assert SameNodes(s, s1, levels[l - 1]);
      assert LevelAt(c, s, contents, levels, l - 1);
      SameNodesWeights(s, s1, levels[l - 1]);
    }
    assert SameWeights(s, s1, below);
    LevelFrame(c, s, s1, below, levels[l]);
  }
}
