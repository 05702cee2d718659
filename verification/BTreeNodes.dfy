/** Nodes of the B+tree and the level-by-level statement of its invariant.

    A tree is a map from node ids to nodes. Its shape is described by the list of its levels, leaves
    first, each level being the left-to-right list of its node ids. One equation per level ties the
    shape together: the keys of a level, concatenated, are the index of the level below (for each
    node below its first item and its id). */
module BTreeNodes {
  import opened Types
  import opened Accumulators
  import opened SortedItems

  /** MIN_ITEMS, REBALANCE_THRESHOLD and MAX_ITEMS. */
  datatype Config = Config(minItems: nat, rebalanceThreshold: nat, maxItems: nat)

  /** What the proofs need of the constants. */
  ghost predicate ConfigOk(c: Config) {
    && 2 <= c.minItems && 2 * c.minItems <= c.rebalanceThreshold
    && c.rebalanceThreshold < c.maxItems && c.minItems < c.maxItems / 2
    && c.maxItems % 2 == 0
  }

  const PRODUCTION := Config(30, 60, 80)
  const FUZZ_TEST := Config(2, 4, 6)

  /** What the source asserts of them at compile time. */
  ghost predicate StaticAsserts(c: Config) {
    && c.minItems < c.rebalanceThreshold < c.maxItems && c.maxItems / 2 > c.minItems
    && c.minItems % 2 == 0 && c.rebalanceThreshold % 2 == 0 && c.maxItems % 2 == 0
  }

  /** What the right node gets when two neighbours share out a number of items. */
  function SmallerHalf(total: nat): nat {
    total - (total + 1) / 2
  }

  /** Sharing out leaves both neighbours large enough exactly if the threshold is at least twice the minimum, which the
      compile-time assertions do not imply. Both shipped sets of constants meet it. */
  lemma SharingNeedsThreshold(c: Config)
    requires StaticAsserts(c)
    ensures (forall total: nat :: total > c.rebalanceThreshold ==> SmallerHalf(total) >= c.minItems)
            <==> 2 * c.minItems <= c.rebalanceThreshold
    ensures c.minItems > 0 && 2 * c.minItems <= c.rebalanceThreshold ==> ConfigOk(c)
    ensures StaticAsserts(Config(4, 6, 10)) && SmallerHalf(7) < 4
    ensures ConfigOk(PRODUCTION) && ConfigOk(FUZZ_TEST)
  {
    if 2 * c.minItems > c.rebalanceThreshold {
      assert SmallerHalf(c.rebalanceThreshold + 1) < c.minItems;
    }
  }

  /** In a leaf the node id of a key is 0. */
  datatype Key = Key(item: Item, nodeId: nat)

  /** `items` holds the used slots only; the unused ones are zero (see NodeSlots). */
  datatype Node = Node(items: seq<Key>, accumCount: int, nextSibling: nat, prevSibling: nat, accum: Sum)

  const EMPTY_NODE := Node([], 0, 0, 0, 0)

  type Store = map<nat, Node>

  // ---------- Weights ----------

  /** What a node accumulates: the sum of all ids below it and their number. */
  datatype Weight = Weight(sum: Sum, count: int)

  const NOTHING := Weight(0, 0)

  function Plus(a: Weight, b: Weight): Weight {
    Weight(AddMod(a.sum, b.sum), a.count + b.count)
  }

  function Minus(a: Weight, b: Weight): Weight {
    Weight(SubMod(a.sum, b.sum), a.count - b.count)
  }

  lemma PlusLaws(a: Weight, b: Weight, c: Weight)
    ensures Plus(a, b) == Plus(b, a)
    ensures Plus(Plus(a, b), c) == Plus(a, Plus(b, c))
    ensures Minus(Plus(a, b), b) == a && Plus(Minus(a, b), b) == a
    ensures Plus(a, NOTHING) == a && Plus(NOTHING, a) == a
  {
    AddModLaws(a.sum, b.sum, c.sum);
  }

  function ItemWeight(item: Item): Weight {
    Weight(IdNum(item.id), 1)
  }

  function NodeWeight(n: Node): Weight {
    Weight(n.accum, n.accumCount)
  }

  /** A leaf key weighs its item; an interior key weighs the node it points to. */
  function KeyWeight(s: Store, k: Key): Weight {
    if k.nodeId == 0 then ItemWeight(k.item)
    else if k.nodeId in s then NodeWeight(s[k.nodeId])
    else NOTHING
  }

  function Total(s: Store, keys: seq<Key>): Weight {
    if keys == [] then NOTHING else Plus(KeyWeight(s, keys[0]), Total(s, keys[1..]))
  }

  lemma {:induction false} TotalConcat(s: Store, a: seq<Key>, b: seq<Key>)
    ensures Total(s, a + b) == Plus(Total(s, a), Total(s, b))
  {
    hide Plus, KeyWeight;
    if a == [] {
      assert a + b == b;
      PlusLaws(Total(s, b), NOTHING, NOTHING);
    } else {
      assert (a + b)[1..] == a[1..] + b;
      TotalConcat(s, a[1..], b);
      PlusLaws(KeyWeight(s, a[0]), Total(s, a[1..]), Total(s, b));
    }
  }

  lemma {:induction false} TotalFrame(s: Store, t: Store, keys: seq<Key>)
    requires forall k :: k in keys ==> KeyWeight(s, k) == KeyWeight(t, k)
    ensures Total(s, keys) == Total(t, keys)
  {
    hide Plus, KeyWeight;
    if keys != [] {
      assert keys[0] in keys;
      forall k | k in keys[1..] ensures k in keys {
      }
      TotalFrame(s, t, keys[1..]);
    }
  }

  lemma TotalOne(s: Store, k: Key)
    ensures Total(s, [k]) == KeyWeight(s, k)
  {
    assert Total(s, [k][1..]) == NOTHING;
    PlusLaws(KeyWeight(s, k), NOTHING, NOTHING);
  }

  // ---------- Levels ----------

  function Items(s: Store, id: nat): seq<Key> {
    if id in s then s[id].items else []
  }

  /** All keys of a list of nodes, left to right. */
  ghost function Concat(s: Store, ids: seq<nat>): seq<Key> {
    if ids == [] then [] else Items(s, ids[0]) + Concat(s, ids[1..])
  }

  /** The key under which a parent lists a node. */
  function KeyOf(s: Store, id: nat): Key {
    Key(if |Items(s, id)| > 0 then Items(s, id)[0].item else ZERO_ITEM, id)
  }

  ghost function Index(s: Store, ids: seq<nat>): (keys: seq<Key>)
    ensures |keys| == |ids|
    ensures forall j :: 0 <= j < |ids| ==> keys[j] == KeyOf(s, ids[j])
  {
    seq(|ids|, j requires 0 <= j < |ids| => KeyOf(s, ids[j]))
  }

  ghost function LeafKeys(items: seq<Item>): (keys: seq<Key>)
    ensures |keys| == |items|
    ensures forall j :: 0 <= j < |items| ==> keys[j] == Key(items[j], 0)
  {
    seq(|items|, j requires 0 <= j < |items| => Key(items[j], 0))
  }

  ghost predicate Ascending(keys: seq<Key>) {
    forall i, j :: 0 <= i < j < |keys| ==> Rank(keys[i].item) < Rank(keys[j].item)
  }

  /** Every node that the keys point to is stored. */
  ghost predicate NoneMissing(s: Store, keys: seq<Key>) {
    forall i :: 0 <= i < |keys| ==> keys[i].nodeId == 0 || keys[i].nodeId in s
  }

  ghost predicate Distinct(ids: seq<nat>) {
    forall i, j :: 0 <= i < j < |ids| ==> ids[i] != ids[j]
  }

  ghost predicate Present(s: Store, ids: seq<nat>) {
    forall j :: 0 <= j < |ids| ==> ids[j] != 0 && ids[j] in s
  }

  ghost predicate SizeOk(c: Config, s: Store, ids: seq<nat>, j: nat)
    requires j < |ids|
  {
    && 1 <= |Items(s, ids[j])| <= c.maxItems
    && (j + 1 < |ids| ==> c.minItems <= |Items(s, ids[j])|)
  }

  ghost predicate Sized(c: Config, s: Store, ids: seq<nat>) {
    forall j :: 0 <= j < |ids| ==> SizeOk(c, s, ids, j)
  }

  ghost predicate LinkOk(s: Store, ids: seq<nat>, j: nat)
    requires j < |ids|
  {
    && ids[j] in s
    && s[ids[j]].nextSibling == (if j + 1 < |ids| then ids[j + 1] else 0)
    && s[ids[j]].prevSibling == (if j > 0 then ids[j - 1] else 0)
  }

  ghost predicate Linked(s: Store, ids: seq<nat>) {
    forall j :: 0 <= j < |ids| ==> LinkOk(s, ids, j)
  }

  ghost predicate WeightOk(s: Store, id: nat) {
    id in s && NodeWeight(s[id]) == Total(s, s[id].items)
  }

  ghost predicate Weighed(s: Store, ids: seq<nat>) {
    forall j :: 0 <= j < |ids| ==> WeightOk(s, ids[j])
  }

  /** One level: its nodes hold exactly the keys `below`, in order, and are sized, linked and weighed. */
  ghost predicate LevelOk(c: Config, s: Store, below: seq<Key>, ids: seq<nat>) {
    && |ids| > 0 && Distinct(ids) && Present(s, ids)
    && Concat(s, ids) == below
    && Sized(c, s, ids) && Linked(s, ids) && Weighed(s, ids)
  }

  ghost function Below(s: Store, contents: seq<Item>, levels: seq<seq<nat>>, l: nat): seq<Key>
    requires l <= |levels|
  {
    if l == 0 then LeafKeys(contents) else Index(s, levels[l - 1])
  }

  /** No node occurs twice, within a level or across levels. */
  ghost predicate AllDistinct(levels: seq<seq<nat>>) {
    && (forall l :: 0 <= l < |levels| ==> Distinct(levels[l]))
    && (forall l, m :: 0 <= l < m < |levels| ==> Apart(levels[l], levels[m]))
  }

  ghost predicate Apart(a: seq<nat>, b: seq<nat>) {
    forall i, j :: 0 <= i < |a| && 0 <= j < |b| ==> a[i] != b[j]
  }

  ghost predicate InLevels(levels: seq<seq<nat>>, id: nat) {
    exists l :: 0 <= l < |levels| && id in levels[l]
  }

  /** The whole invariant: the tree rooted at `root` stores exactly `contents`. */
  ghost predicate TreeOk(c: Config, s: Store, root: nat, nextId: nat, contents: seq<Item>, levels: seq<seq<nat>>) {
    && ConfigOk(c) && AscendingItems(contents) && nextId > 0
    && (forall id :: id in s ==> 0 < id < nextId && InLevels(levels, id))
    && if contents == [] then root == 0 && levels == []
       else LevelsOk(c, s, contents, levels, |levels|) && AllDistinct(levels) && RootOk(root, levels)
  }

  /** The lowest `n` levels are in order. */
  ghost predicate LevelsOk(c: Config, s: Store, contents: seq<Item>, levels: seq<seq<nat>>, n: nat)
    requires n <= |levels|
  {
    forall l :: 0 <= l < n ==> LevelAt(c, s, contents, levels, l)
  }

  ghost predicate LevelAt(c: Config, s: Store, contents: seq<Item>, levels: seq<seq<nat>>, l: nat)
    requires l < |levels|
  {
    LevelOk(c, s, Below(s, contents, levels, l), levels[l])
  }

  /** The root is alone in the top level and has at least two children unless it is a leaf. */
  ghost predicate RootOk(root: nat, levels: seq<seq<nat>>) {
    && |levels| > 0 && levels[|levels| - 1] == [root]
    && (|levels| > 1 ==> |levels[|levels| - 2]| >= 2)
  }
}
