/** One level of an erasure from the B+tree. */
module BTreeErase {
  import opened Types
  import opened Accumulators
  import opened SortedItems
  import opened BTreeNodes
  import opened BTreeLevels
  import opened BTreeSearch
  import opened BTreeInsert

  function RemovedAt(keys: seq<Key>, i: nat): seq<Key>
    requires i < |keys|
  {
    keys[..i] + keys[i + 1..]
  }

  /** What the node of the path should hold once the erasure has reached its level: its slot `i` removed or
      refreshed, and the slot after it refreshed if the child there changed too. */
  ghost function ErasedItems(s: Store, its0: seq<Key>, i: nat, needsRemove: bool, neighbourRefresh: bool): seq<Key>
    requires i < |its0| && (neighbourRefresh ==> !needsRemove && i + 1 < |its0|)
  {
    var items := if needsRemove then RemovedAt(its0, i) else its0;
    var items1 := if i < |items| then Refreshed(s, items, i) else items;
    if neighbourRefresh then Refreshed(s, items1, i + 1) else items1
  }

  ghost function Loss(x: Item): Weight {
    Minus(NOTHING, ItemWeight(x))
  }

  lemma PlusLoss(w: Weight, x: Item)
    ensures Plus(w, Loss(x)) == Minus(w, ItemWeight(x))
    ensures Plus(Plus(w, ItemWeight(x)), Loss(x)) == w
  {
    AddModLaws(w.sum, ItemWeight(x).sum, NegMod(ItemWeight(x).sum));
  }

  ghost predicate ErasePending(s0: Store, s: Store, ids: seq<nat>, below: seq<Key>, p: nat, x: Item, i: nat,
                               needsRemove: bool, neighbourRefresh: bool)
  {
    && p < |ids| && i < |Items(s0, ids[p])|
    && (neighbourRefresh ==> !needsRemove && i + 1 < |Items(s0, ids[p])|)
    && Pending(s0, s, ids, below, p, ErasedItems(s, Items(s0, ids[p]), i, needsRemove, neighbourRefresh), Loss(x))
  }

  // ---------- At the leaf ----------

  /** The contents with `x` taken out. */
  ghost function WithoutItem(contents: seq<Item>, x: Item): seq<Item> {
    var g := LowerBound(contents, Rank(x));
    if g < |contents| then contents[..g] + contents[g + 1..] else contents
  }

  /** A new item adds exactly itself, and taking it out again restores the contents. */
  lemma InsertThenErase(contents: seq<Item>, x: Item)
    requires AscendingItems(contents) && x !in contents
    ensures AscendingItems(WithItem(contents, x)) && multiset(WithItem(contents, x)) == multiset(contents) + multiset{x}
    ensures WithoutItem(WithItem(contents, x), x) == contents
  {
    hide Rank, LowerBound;
    WithItemAscending(contents, x);
    var g := LowerBound(contents, Rank(x));
    var more := WithItem(contents, x);
    assert contents == contents[..g] + contents[g..];
    assert more[g] == x;
    WithoutItemFacts(more, x, g);
    assert more[..g] == contents[..g] && more[g + 1..] == contents[g..];
  }

  /** Taking out an item that is there removes exactly it, and putting it back restores the contents. */
  lemma EraseThenInsert(contents: seq<Item>, x: Item)
    requires AscendingItems(contents) && x in contents
    ensures AscendingItems(WithoutItem(contents, x))
            && multiset(WithoutItem(contents, x)) == multiset(contents) - multiset{x}
    ensures x !in WithoutItem(contents, x) && WithItem(WithoutItem(contents, x), x) == contents
  {
    hide Rank, LowerBound, AscendingItems;
    var g :| 0 <= g < |contents| && contents[g] == x;
    WithoutItemFacts(contents, x, g);
    TakenOutAt(contents, g);
    AroundItem(contents, g);
    LowerBoundUnique(WithoutItem(contents, x), Rank(x), g);
  }

  /** Taking out one element and putting it back. */
  lemma TakenOutAt(s: seq<Item>, g: nat)
    requires g < |s|
    ensures var less := s[..g] + s[g + 1..];
            multiset(less) == multiset(s) - multiset{s[g]} && less[..g] + [s[g]] + less[g..] == s
  {
    assert s == s[..g] + [s[g]] + s[g + 1..];
  }

  /** The other items lie below or above one that is taken out. */
  lemma AroundItem(contents: seq<Item>, g: nat)
    requires AscendingItems(contents) && g < |contents|
    ensures var less := contents[..g] + contents[g + 1..];
            && (forall i :: 0 <= i < g ==> Rank(less[i]) < Rank(contents[g]))
            && (forall i :: g <= i < |less| ==> Rank(contents[g]) <= Rank(less[i]))
            && contents[g] !in less
  {
    hide Rank;
    var less := contents[..g] + contents[g + 1..];
    forall i | 0 <= i < |less|
      ensures less[i] != contents[g]
      ensures if i < g then Rank(less[i]) < Rank(contents[g]) else Rank(contents[g]) <= Rank(less[i])
    {
      assert less[i] == contents[if i < g then i else i + 1];
    }
  }

  lemma WithoutItemFacts(contents: seq<Item>, x: Item, g: nat)
    requires AscendingItems(contents) && g < |contents| && contents[g] == x
    ensures WithoutItem(contents, x) == contents[..g] + contents[g + 1..]
    ensures AscendingItems(WithoutItem(contents, x)) && |WithoutItem(contents, x)| == |contents| - 1
  {
    hide Rank;
    LowerBoundUnique(contents, Rank(x), g);
  }

  lemma EraseStart(c: Config, s: Store, contents: seq<Item>, ids: seq<nat>, p: nat, i: nat, x: Item)
    requires AscendingItems(contents) && LevelOk(c, s, LeafKeys(contents), ids)
    requires p < |ids| && i < |Items(s, ids[p])|
    requires KeyPos(s, ids, p, i) < |contents| && contents[KeyPos(s, ids, p, i)] == x
    ensures ErasePending(s, s, ids, LeafKeys(WithoutItem(contents, x)), p, x, i, true, false)
  {
    hide Rank, Concat, Total, Plus, KeyWeight, Linked, Weighed, Sized, Items, Loss, WithoutItem;
    var its0 := Items(s, ids[p]);
    var left, right := Concat(s, ids[..p]), Concat(s, ids[p + 1..]);
    var g := KeyPos(s, ids, p, i);
    ConcatAround(s, ids, p);
    WithoutItemFacts(contents, x, g);
    LeafKeyAt(contents, left, its0, right, i);
    var its := RemovedAt(its0, i);
    if i < |its| {
      LeafKeyAt(contents, left, its0, right, i + 1);
    }
    assert ErasedItems(s, its0, i, true, false) == its;
    RemovedLeafKeys(contents, left, its0, right, i);
    assert Total(s, its) == Plus(Total(s, its0), Loss(x)) by {
      AddedKeyWeight(s, its0[..i], its0[i], its0[i + 1..]);
      assert its0 == its0[..i] + [its0[i]] + its0[i + 1..];
      LeafKeyWeight(s, x);
      PlusLoss(Total(s, its), x);
    }
  }

  lemma RemovedLeafKeys(contents: seq<Item>, left: seq<Key>, its0: seq<Key>, right: seq<Key>, i: nat)
    requires LeafKeys(contents) == left + its0 + right && i < |its0|
    ensures |left| + i < |contents|
    ensures var g := |left| + i;
            LeafKeys(contents[..g] + contents[g + 1..]) == left + RemovedAt(its0, i) + right
  {
    var keys, g := LeafKeys(contents), |left| + i;
    assert g < |contents|;
    assert keys[..g] == left + its0[..i] && keys[g + 1..] == its0[i + 1..] + right;
    assert LeafKeys(contents[..g] + contents[g + 1..]) == keys[..g] + keys[g + 1..];
  }

  // ---------- From one level to the next ----------

  /** What an erasure does to the node of its path and to one neighbour. */
  datatype Outcome = Replace | Drop | MergeRight | RebalanceRight | MergeLeft | RebalanceLeft {
    predicate UsesRight() { MergeRight? || RebalanceRight? }
    predicate UsesLeft() { MergeLeft? || RebalanceLeft? }
    predicate Removes() { Drop? || MergeRight? || MergeLeft? }
    function Len(): nat { if Replace? || Drop? then 1 else 2 }
    function Back(): nat { if UsesLeft() then 1 else 0 }

    /** The neighbour exists at position `i` of `n`. */
    predicate Fits(i: nat, n: nat) {
      i < n && (UsesRight() ==> i + 1 < n) && (UsesLeft() ==> i > 0)
    }

    /** The nodes that are left of those at `p - Back() .. p - Back() + Len()`. */
    ghost function Mid(ids: seq<nat>, p: nat): seq<nat>
      requires Fits(p, |ids|)
    {
      match this
      case Replace => [ids[p]]
      case Drop => []
      case MergeRight => [ids[p + 1]]
      case RebalanceRight => [ids[p], ids[p + 1]]
      case MergeLeft => [ids[p - 1]]
      case RebalanceLeft => [ids[p - 1], ids[p]]
    }
  }

  ghost predicate UpToDate(s: Store, k: Key) {
    k.nodeId != 0 && k.nodeId in s && KeyOf(s, k.nodeId) == k
  }

  /** Patching the slots of the rewritten children is what removing and refreshing slots does. */
  lemma ErasedSlots(s1: Store, w: seq<Key>, i: nat, o: Outcome, ks: seq<Key>)
    requires o.Fits(i, |w|)
    requires forall t :: 0 <= t < |w| && (t < i - o.Back() || t >= i - o.Back() + o.Len()) ==> UpToDate(s1, w[t])
    requires o.UsesLeft() ==> UpToDate(s1, w[i - 1])
    requires !o.Removes() ==> w[i].nodeId != 0 && w[i].nodeId in s1
    requires o.UsesRight() ==> w[i + 1].nodeId != 0 && w[i + 1].nodeId in s1
    requires ks == match o
                   case Replace => [KeyOf(s1, w[i].nodeId)]
                   case Drop => []
                   case MergeRight => [KeyOf(s1, w[i + 1].nodeId)]
                   case RebalanceRight => [KeyOf(s1, w[i].nodeId), KeyOf(s1, w[i + 1].nodeId)]
                   case MergeLeft => [KeyOf(s1, w[i - 1].nodeId)]
                   case RebalanceLeft => [KeyOf(s1, w[i - 1].nodeId), KeyOf(s1, w[i].nodeId)]
    ensures ErasedItems(s1, w, i, o.Removes(), o.RebalanceRight?)
         == w[..i - o.Back()] + ks + w[i - o.Back() + o.Len()..]
  {
    hide KeyOf, UpToDate, Refreshed, RemovedAt;
    if o.UsesLeft() {
      SameIfUpToDate(s1, w[i - 1]);
      WithSlotBefore(w, i);
    }
    if o.Removes() {
      if i + 1 < |w| {
        if !o.MergeRight? {
          SameIfUpToDate(s1, w[i + 1]);
        }
        SlotAfter(w, i);
        RefreshedSlot(s1, RemovedAt(w, i), i, w[i + 1]);
        RemovedThenSet(w, i, KeyOf(s1, w[i + 1].nodeId));
      }
      RemovedParts(w, i);
    } else {
      RefreshedSlot(s1, w, i, w[i]);
      SlotSet(w, i, KeyOf(s1, w[i].nodeId));
      if o.RebalanceRight? {
        RefreshedSlot(s1, w[i := KeyOf(s1, w[i].nodeId)], i + 1, w[i + 1]);
        TwoSlotsSet(w, i, KeyOf(s1, w[i].nodeId), KeyOf(s1, w[i + 1].nodeId));
      }
    }
  }

  lemma SlotSet(w: seq<Key>, i: nat, k: Key)
    requires i < |w|
    ensures w[i := k] == w[..i] + [k] + w[i + 1..]
  {
  }

  lemma TwoSlotsSet(w: seq<Key>, i: nat, k: Key, k': Key)
    requires i + 1 < |w|
    ensures w[i := k][i + 1 := k'] == w[..i] + [k, k'] + w[i + 2..]
  {
  }

  lemma SlotAfter(w: seq<Key>, i: nat)
    requires i + 1 < |w|
    ensures i < |RemovedAt(w, i)| && RemovedAt(w, i)[i] == w[i + 1]
  {
  }

  lemma RemovedThenSet(w: seq<Key>, i: nat, k: Key)
    requires i + 1 < |w|
    ensures i < |RemovedAt(w, i)| && RemovedAt(w, i)[i := k] == w[..i] + [k] + w[i + 2..]
  {
  }

  lemma RemovedParts(w: seq<Key>, i: nat)
    requires i < |w|
    ensures |RemovedAt(w, i)| == |w| - 1 && RemovedAt(w, i) == w[..i] + w[i + 1..]
    ensures i + 1 < |w| ==> w[..i] + [w[i + 1]] + w[i + 2..] == w[..i] + w[i + 1..]
  {
    if i + 1 < |w| {
      assert [w[i + 1]] + w[i + 2..] == w[i + 1..];
      assert w[..i] + [w[i + 1]] + w[i + 2..] == w[..i] + ([w[i + 1]] + w[i + 2..]);
    }
  }

  lemma WithSlotBefore(w: seq<Key>, i: nat)
    requires 0 < i < |w|
    ensures w[..i - 1] + [w[i - 1]] == w[..i]
    ensures forall k: Key :: w[..i - 1] + [w[i - 1], k] == w[..i] + [k]
  {
    forall k: Key ensures w[..i - 1] + [w[i - 1], k] == w[..i] + [k] {
      assert [w[i - 1], k] == [w[i - 1]] + [k];
    }
  }

  lemma RefreshedSlot(s: Store, items: seq<Key>, i: nat, k: Key)
    requires i < |items| && items[i] == k && k.nodeId != 0 && k.nodeId in s
    ensures Refreshed(s, items, i) == items[i := KeyOf(s, k.nodeId)]
  {
  }

  lemma SameIfUpToDate(s: Store, k: Key)
    requires UpToDate(s, k)
    ensures KeyOf(s, k.nodeId) == k && k.nodeId != 0 && k.nodeId in s
  {
  }

  /** The difference one level up after outcome `o` at position `p`. */
  lemma EraseLift(s0: Store, s1: Store, ids: seq<nat>, p: nat, up: seq<nat>, q: nat, i: nat, x: Item, o: Outcome)
    requires p < |ids| && Present(s0, ids) && Concat(s0, up) == Index(s0, ids)
    requires q < |up| && KeyPos(s0, up, q, i) == p && o.Fits(i, |Items(s0, up[q])|) && o.Fits(p, |ids|)
    requires var a, b := p - o.Back(), p - o.Back() + o.Len();
             && SameNodes(s0, s1, ids[..a]) && SameNodes(s0, s1, ids[b..])
             && Present(s1, o.Mid(ids, p))
             && Total(s1, Index(s1, o.Mid(ids, p))) == Plus(Total(s0, Index(s0, ids[a..b])), Loss(x))
    requires o.UsesLeft() ==> KeyOf(s1, ids[p - 1]) == KeyOf(s0, ids[p - 1])
    ensures ErasePending(s0, s1, up, Index(s1, Spliced(ids, p - o.Back(), p - o.Back() + o.Len(), o.Mid(ids, p))),
                         q, x, i,
                         o.Removes(), o.RebalanceRight?)
  {
    hide Concat, Total, Plus, KeyWeight, Items, KeyOf, Pending, SameNodes, Loss, ErasedItems, Index;
    var a, b := p - o.Back(), p - o.Back() + o.Len();
    var mid := o.Mid(ids, p);
    var w, i0 := Items(s0, up[q]), i - o.Back();
    Lift(s0, s1, ids, a, b, mid, up, q, i0, Loss(x));
    var off := p - i;
    forall t | 0 <= t < |w|
      ensures off + t < |ids| && w[t] == KeyOf(s0, ids[off + t]) && w[t].nodeId == ids[off + t]
    {
      SlotId(s0, ids, up, q, t);
    }
    forall t | 0 <= t < |w| && (t < i0 || t >= i0 + o.Len()) ensures UpToDate(s1, w[t]) {
      assert w[t].nodeId == ids[off + t];
      OutsideUpToDate(s0, s1, ids, a, b, off + t);
    }
    MidKeys(s1, ids, p, o);
    ErasedSlots(s1, w, i, o, Index(s1, mid));
  }

  lemma SlotId(s0: Store, ids: seq<nat>, up: seq<nat>, q: nat, t: nat)
    requires Concat(s0, up) == Index(s0, ids) && q < |up| && t < |Items(s0, up[q])|
    ensures KeyPos(s0, up, q, t) < |ids|
    ensures Items(s0, up[q])[t] == KeyOf(s0, ids[KeyPos(s0, up, q, t)])
    ensures Items(s0, up[q])[t].nodeId == ids[KeyPos(s0, up, q, t)]
  {
    hide Concat, Items;
    ParentSlot(s0, ids, up, q, t);
  }

  lemma OutsideUpToDate(s0: Store, s1: Store, ids: seq<nat>, a: nat, b: nat, j: nat)
    requires a <= b <= |ids| && j < |ids| && (j < a || j >= b) && Present(s0, ids)
    requires SameNodes(s0, s1, ids[..a]) && SameNodes(s0, s1, ids[b..])
    ensures UpToDate(s1, KeyOf(s0, ids[j]))
  {
    if j < a {
      assert ids[j] == ids[..a][j] && ids[j] in ids[..a];
    } else {
      assert ids[j] == ids[b..][j - b] && ids[j] in ids[b..];
    }
    assert SameNode(s0, s1, ids[j]);
  }

  lemma MidKeys(s1: Store, ids: seq<nat>, p: nat, o: Outcome)
    requires o.Fits(p, |ids|) && Present(s1, o.Mid(ids, p))
    ensures Index(s1, o.Mid(ids, p)) ==
            match o
            case Replace => [KeyOf(s1, ids[p])]
            case Drop => []
            case MergeRight => [KeyOf(s1, ids[p + 1])]
            case RebalanceRight => [KeyOf(s1, ids[p]), KeyOf(s1, ids[p + 1])]
            case MergeLeft => [KeyOf(s1, ids[p - 1])]
            case RebalanceLeft => [KeyOf(s1, ids[p - 1]), KeyOf(s1, ids[p])]
    ensures !o.Removes() ==> ids[p] != 0 && ids[p] in s1
    ensures o.UsesRight() ==> ids[p + 1] != 0 && ids[p + 1] in s1
    ensures o.UsesLeft() ==> ids[p - 1] != 0 && ids[p - 1] in s1
  {
    hide KeyOf;
    var mid := o.Mid(ids, p);
    assert forall j :: 0 <= j < |mid| ==> mid[j] != 0 && mid[j] in s1;
    match o
    case Replace => assert mid[0] == ids[p];
    case Drop =>
    case MergeRight => assert mid[0] == ids[p + 1];
    case RebalanceRight => assert mid[0] == ids[p] && mid[1] == ids[p + 1];
    case MergeLeft => assert mid[0] == ids[p - 1];
    case RebalanceLeft => assert mid[0] == ids[p - 1] && mid[1] == ids[p];
  }
}
