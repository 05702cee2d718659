/** The B+tree itself, with its nodes in an in-memory map. */
module BTrees {
  import opened Types
  import opened Accumulators
  import opened Encoding
  import opened SortedItems
  import opened Wire
  import opened BTreeNodes
  import opened BTreeLevels
  import opened BTreeSearch
  import opened BTreeClimb
  import opened BTreeInsert
  import opened BTreeInsertLoop
  import opened BTreeRewrite
  import opened BTreeTask
  import opened BTreeErase
  import opened BTreeEraseLoop
  import opened BTreeEraseSteps
  import opened BTreeOffsets
  import opened NodeSlots
  import opened StoreCalls

  class BTree {
    const config: Config
    var nodes: Store
    /** The key slots of every node; the keys of a node in `nodes` are those in its used slots. */
    var slots: SlotStore
    var rootNodeId: nat
    var nextNodeId: nat

    /** The calls made to the node storage since it was as in `start`. */
    var calls: seq<Call>
    ghost var start: Image

    ghost var contents: seq<Item>
    ghost var levels: seq<seq<nat>>

    ghost predicate Logged()
      reads `nodes, `rootNodeId, `nextNodeId, `calls, `start
    {
      AllAllowed(start, calls) && Replayed(start, calls) == Image(nodes, rootNodeId, nextNodeId)
    }

    ghost predicate Valid()
      reads this
    {
      TreeOk(config, nodes, rootNodeId, nextNodeId, contents, levels) && SlotsOk(config, nodes, slots) && Logged()
    }

    constructor (c: Config)
      requires ConfigOk(c)
      ensures Valid() && contents == [] && config == c && calls == [] && start == Image(map[], 0, 1)
    {
      config := c;
      nodes, slots, rootNodeId, nextNodeId := map[], map[], 0, 1;
      calls, start := [], Image(map[], 0, 1);
      contents, levels := [], [];
    }

    // ---------- Node storage ----------

    /** A write through a pointer to a node. */
    method WriteNode(nodeId: nat, data: Node)
      requires Logged() && nodeId in nodes
      modifies this`nodes, this`calls
      ensures nodes == old(nodes)[nodeId := data] && Logged()
    {
      hide AllAllowed, Replayed;
      OneMore(start, calls, Put(nodeId, data));
      calls := calls + [Put(nodeId, data)];
      nodes := nodes[nodeId := data];
    }

    method MakeNode() returns (nodeId: nat)
      requires SlotsOk(config, nodes, slots) && Logged()
      modifies this`nodes, this`calls, this`slots, this`nextNodeId
      ensures nodeId == old(nextNodeId) && nextNodeId == old(nextNodeId) + 1
      ensures nodes == old(nodes)[nodeId := EMPTY_NODE] && SlotsOk(config, nodes, slots) && Logged()
    {
      hide AllAllowed, Replayed;
      nodeId := nextNodeId;
      SlotsOfAll(config, nodes, slots, nodeId);
      EmptyFilled(config);
      SlotsPut(config, nodes, slots, nodeId, EMPTY_NODE, ZeroKeys(config.maxItems + 1));
      OneMore(start, calls, Make);
      calls := calls + [Make];
      nextNodeId := nextNodeId + 1;
      nodes := nodes[nodeId := EMPTY_NODE];
      slots := slots[nodeId := ZeroKeys(config.maxItems + 1)];
    }

    method DeleteNode(nodeId: nat)
      requires SlotsOkBut(config, nodes, slots, nodeId) && Logged() && nodeId in nodes
      modifies this`nodes, this`calls, this`slots
      ensures nodes == old(nodes) - {nodeId} && SlotsOk(config, nodes, slots) && Logged()
    {
      hide AllAllowed, Replayed;
      SlotsDrop(config, nodes, slots, nodeId);
      OneMore(start, calls, Delete(nodeId));
      calls := calls + [Delete(nodeId)];
      nodes := nodes - {nodeId};
      slots := slots - {nodeId};
    }

    /** The slots of a node, to be worked on in place. */
    method LoadNode(nodeId: nat) returns (node: Slots)
      requires SlotsOk(config, nodes, slots) && nodeId in nodes
      ensures fresh(node) && fresh(node.items) && node.Valid() && node.items.Length == config.maxItems + 1
      ensures node.Used() == nodes[nodeId].items && node.numItems == |nodes[nodeId].items| <= config.maxItems
    {
      SlotsOf(config, nodes, slots, nodeId);
      node := new Slots.Load(slots[nodeId], |nodes[nodeId].items|);
    }

    /** Stores a node with the slots that were worked on. */
    method StoreNode(nodeId: nat, node: Slots, data: Node)
      requires SlotsOk(config, nodes, slots) && Logged() && nodeId in nodes
      requires node.Valid() && node.items.Length == config.maxItems + 1 && node.Used() == data.items
      modifies this`nodes, this`calls, this`slots
      ensures nodes == old(nodes)[nodeId := data] && SlotsOk(config, nodes, slots) && Logged()
    {
      SlotsOfAll(config, nodes, slots, nodeId);
      LoadedFilled(config, node);
      SlotsPut(config, nodes, slots, nodeId, data, node.items[..]);
      WriteNode(nodeId, data);
      slots := slots[nodeId := node.items[..]];
    }

    /** Changes a node but not its keys. */
    method ChangeNode(nodeId: nat, data: Node)
      requires SlotsOk(config, nodes, slots) && Logged() && nodeId in nodes && data.items == nodes[nodeId].items
      modifies this`nodes, this`calls
      ensures nodes == old(nodes)[nodeId := data] && SlotsOk(config, nodes, slots) && Logged()
    {
      SlotsRelink(config, nodes, slots, nodeId, data);
      WriteNode(nodeId, data);
    }

    method SetRootNodeId(nodeId: nat)
      requires Logged()
      modifies this`rootNodeId, this`calls
      ensures rootNodeId == nodeId && Logged()
    {
      OneMore(start, calls, SetRoot(nodeId));
      calls := calls + [SetRoot(nodeId)];
      rootNodeId := nodeId;
    }

    /** From here on calls are counted anew. */
    method ForgetCalls()
      requires Valid()
      modifies this`calls, this`start
      ensures Valid() && calls == [] && start == Image(nodes, rootNodeId, nextNodeId)
    {
      hide TreeOk, SlotsOk;
      calls, start := [], Image(nodes, rootNodeId, nextNodeId);
    }

    // ---------- Search ----------

    /** The slot to follow for `x`. The scan runs one slot past the used ones; that slot is zero, and
        no item is below the zero item. */
    method FindSlot(nodeId: nat, x: Item) returns (index: nat)
      requires SlotsOk(config, nodes, slots) && nodeId in nodes && nodes[nodeId].items != []
      ensures index < |nodes[nodeId].items|
      ensures index == 0 || Rank(nodes[nodeId].items[index].item) <= Rank(x)
      ensures index + 1 < |nodes[nodeId].items| ==> Rank(x) < Rank(nodes[nodeId].items[index + 1].item)
    {
      hide Rank, SlotsOk, Logged;
      SlotsOf(config, nodes, slots, nodeId);
      var items := slots[nodeId];
      var numItems := |nodes[nodeId].items|;
      assert forall j :: 0 <= j < numItems ==> items[j] == nodes[nodeId].items[j];
      index := numItems - 1;
      if numItems > 1 {
        var i := 1;
        while i < numItems + 1
          invariant 1 <= i <= numItems + 1 && index == numItems - 1
          invariant forall j :: 1 <= j < i && j < numItems ==> Rank(items[j].item) <= Rank(x)
        {
          ItemOrder(x, items[i].item);
          BoundRankFacts(x);
          if ItemLess(x, items[i].item) {
            index := i - 1;
            return;
          }
          i := i + 1;
        }
      }
    }

    method SearchItem(x: Item) returns (crumbs: seq<Crumb>, found: bool, ghost pos: seq<nat>)
      requires Valid() && rootNodeId != 0
      ensures |crumbs| == |levels| && |pos| == |levels| + 1
      ensures PathOk(nodes, levels, contents, crumbs, pos, x)
      ensures found <==> x in contents
      ensures found ==> pos[|levels|] < |contents| && contents[pos[|levels|]] == x
    {
      hide Rank, Concat, Index, AllDistinct, LevelsOk, PathOk, SlotsOk, Logged;
      found := false;
      crumbs := [];
      pos := [0];
      var foundNode := rootNodeId;
      assert PathOk(nodes, levels, contents, crumbs, pos, x) by {
        EmptyPath(nodes, levels, contents, x);
      }
      while foundNode != 0
        invariant Searching(nodes, levels, contents, crumbs, pos, foundNode, found, x)
        decreases |levels| - |crumbs|
      {
        NodeOnPath(config, nodes, contents, levels, |levels| - 1 - |crumbs|, pos[|crumbs|]);
        var node := nodes[foundNode];
        var index := FindSlot(foundNode, x);
        SearchStep(config, nodes, contents, levels, crumbs, pos, foundNode, found, x, index);
        ghost var g := KeyPos(nodes, levels[|levels| - 1 - |crumbs|], pos[|crumbs|], index);
        if !found && x == node.items[index].item {
          found := true;
        }
        crumbs := crumbs + [Crumb(index, foundNode)];
        pos := pos + [g];
        foundNode := node.items[index].nodeId;
      }
    }

    // ---------- Insert ----------

    /** `refreshIndex`: slot `index` takes the first item of its child. */
    method RefreshIndex(nodeId: nat, index: nat)
      requires SlotsOk(config, nodes, slots) && Logged() && nodeId in nodes && index < |nodes[nodeId].items|
      requires nodes[nodeId].items[index].nodeId == 0 || nodes[nodeId].items[index].nodeId in nodes
      modifies this`nodes, this`calls, this`slots
      ensures var items := Refreshed(old(nodes), old(nodes[nodeId].items), index);
              nodes == old(nodes)[nodeId := old(nodes[nodeId]).(items := items)]
      ensures SlotsOk(config, nodes, slots) && Logged()
    {
      hide SlotsOk, Logged;
      var data := nodes[nodeId];
      var childId := data.items[index].nodeId;
      if childId != 0 {
        FirstSlot(config, nodes, slots, childId);
        assert childId in slots by {
          SlotsOf(config, nodes, slots, childId);
        }
        var node := LoadNode(nodeId);
        node.SetKey(index, Key(slots[childId][0].item, childId));
        StoreNode(nodeId, node, data.(items := node.Used()));
      }
    }

    /** `addToAccum` over a run of keys. */
    method Accumulate(keys: seq<Key>) returns (w: Weight)
      requires NoneMissing(nodes, keys)
      ensures w == Total(nodes, keys)
    {
      hide Plus, KeyWeight;
      w := NOTHING;
      var i := 0;
      assert keys[..0] == [];
      while i < |keys|
        invariant 0 <= i <= |keys|
        invariant w == Total(nodes, keys[..i])
      {
        assert keys[..i + 1] == keys[..i] + [keys[i]];
        TotalConcat(nodes, keys[..i], [keys[i]]);
        TotalOne(nodes, keys[i]);
        w := Plus(w, KeyWeight(nodes, keys[i]));
        i := i + 1;
      }
      assert keys[..|keys|] == keys;
    }

    /** Splits the full node `nodeId`, to which `newKey` is to be added. A right-most node is packed, any other
        one is halved. */
    method SplitNode(nodeId: nat, newKey: Key) returns (rightId: nat)
      requires SlotsOk(config, nodes, slots) && Logged() && ConfigOk(config)
      requires nodeId in nodes && nextNodeId !in nodes && config.maxItems <= |nodes[nodeId].items|
      requires nodes[nodeId].nextSibling == 0
               || (nodes[nodeId].nextSibling in nodes && nodes[nodeId].nextSibling != nodeId)
      requires Ascending(nodes[nodeId].items) && NoKeyTo(MergeKey(nodes[nodeId].items, newKey), nextNodeId, nodeId)
      requires NoneMissing(nodes, MergeKey(nodes[nodeId].items, newKey))
      modifies this`nodes, this`calls, this`slots, this`nextNodeId
      ensures rightId == old(nextNodeId) && nextNodeId == rightId + 1 && SlotsOk(config, nodes, slots) && Logged()
      ensures SplitDone(old(nodes), nodes, nodeId, rightId, MergeKey(old(nodes[nodeId].items), newKey),
                        SplitSize(config, old(nodes[nodeId])))
    {
      hide Rank, MergeKey, Total, SlotsOk, Logged, Ascending, SplitDone, NoKeyTo, Slots.Valid, ZeroFrom, Filled;
      ghost var s := nodes;
      var data := nodes[nodeId];
      ghost var all := MergeKey(data.items, newKey);
      var left, right;
      left, right, rightId := SplitSlots(nodeId, newKey);
      ghost var n := SplitSize(config, data);
      var leftWeight := Accumulate(left.Used());
      var rightWeight := Accumulate(right.Used());
      StoreHalves(nodeId, rightId, left, right, leftWeight, rightWeight);
      SplitStored(s, nodes, nodeId, rightId, all, n, leftWeight, rightWeight);
    }

    /** Both halves of a split node are stored, and the next sibling links back to the new one. */
    method StoreHalves(nodeId: nat, rightId: nat, left: Slots, right: Slots, leftWeight: Weight, rightWeight: Weight)
      requires SlotsOk(config, nodes, slots) && Logged() && nodeId in nodes && rightId in nodes && rightId != nodeId
      requires TwoNodes(left, right) && left.items.Length == config.maxItems + 1
      requires nodes[nodeId].nextSibling == 0 || nodes[nodeId].nextSibling in nodes
      modifies this`nodes, this`calls, this`slots
      ensures nodes == SplitNodes(old(nodes), nodeId, rightId, left.Used(), right.Used(), leftWeight, rightWeight)
      ensures SlotsOk(config, nodes, slots) && Logged()
    {
      hide SlotsOk, Logged, Slots.Valid;
      var data := nodes[nodeId];
      StoreNode(rightId, right, Node(right.Used(), rightWeight.count, data.nextSibling, nodeId, rightWeight.sum));
      StoreNode(nodeId, left, Node(left.Used(), leftWeight.count, rightId, data.prevSibling, leftWeight.sum));
      if data.nextSibling != 0 {
        ChangeNode(data.nextSibling, nodes[data.nextSibling].(prevSibling := rightId));
      }
    }

    /** The new node is made, and the slots are split. */
    method SplitSlots(nodeId: nat, newKey: Key) returns (left: Slots, right: Slots, rightId: nat)
      requires SlotsOk(config, nodes, slots) && Logged() && ConfigOk(config)
      requires nodeId in nodes && nextNodeId !in nodes && config.maxItems <= |nodes[nodeId].items|
      requires Ascending(nodes[nodeId].items)
      modifies this`nodes, this`calls, this`slots, this`nextNodeId
      ensures rightId == old(nextNodeId) && nextNodeId == rightId + 1 && SlotsOk(config, nodes, slots) && Logged()
      ensures nodes == old(nodes)[rightId := EMPTY_NODE]
      ensures fresh(left) && fresh(left.items) && fresh(right) && fresh(right.items) && TwoNodes(left, right)
      ensures left.items.Length == config.maxItems + 1
      ensures var all, n := MergeKey(old(nodes[nodeId].items), newKey), SplitSize(config, old(nodes[nodeId]));
              && |all| == config.maxItems + 1 && left.Used() == all[..n] && right.Used() == all[n..]
    {
      hide Rank, MergeKey, SlotsOk, Logged, Ascending;
      left := LoadNode(nodeId);
      var rightMost := nodes[nodeId].nextSibling == 0;
      rightId := MakeNode();
      right := new Slots(config.maxItems);
      left.Split(newKey, right, rightMost);
    }

    /** Puts the new key, if there still is one, into the node and splits it if it is full. */
    method PlaceKey(nodeId: nat, x: Item, key: Key, merge: bool) returns (newKey: Key, needsMerge: bool)
      requires SlotsOk(config, nodes, slots) && Logged() && nodeId in nodes && nextNodeId !in nodes && ConfigOk(config)
      requires Ascending(nodes[nodeId].items)
      requires merge && config.maxItems <= |nodes[nodeId].items| ==>
        && (nodes[nodeId].nextSibling == 0
            || (nodes[nodeId].nextSibling in nodes && nodes[nodeId].nextSibling != nodeId))
        && NoKeyTo(MergeKey(nodes[nodeId].items, key), nextNodeId, nodeId)
        && NoneMissing(nodes, MergeKey(nodes[nodeId].items, key))
      modifies this`nodes, this`calls, this`slots, this`nextNodeId
      ensures SlotsOk(config, nodes, slots) && Logged()
      ensures var n0 := old(nodes[nodeId]);
              if merge && config.maxItems <= |n0.items| then
                && SplitDone(old(nodes), nodes, nodeId, old(nextNodeId), MergeKey(n0.items, key), SplitSize(config, n0))
                && needsMerge && newKey == KeyOf(nodes, old(nextNodeId)) && nextNodeId == old(nextNodeId) + 1
              else
                && nodes == old(nodes)[nodeId := Unrefreshed(n0, x, key, merge)]
                && !needsMerge && newKey == key && nextNodeId == old(nextNodeId)
    {
      hide Rank, MergeKey, Total, SplitStore, NoKeyTo, SlotsOk, Logged, Ascending, Slots.Valid, AddMod;
      newKey, needsMerge := key, merge;
      var data := nodes[nodeId];
      if !needsMerge {
        ChangeNode(nodeId, data.(accum := AddMod(data.accum, IdNum(x.id)), accumCount := data.accumCount + 1));
      } else if |data.items| < config.maxItems {
        var node := LoadNode(nodeId);
        node.Add(newKey);
        StoreNode(nodeId, node, data.(items := node.Used(), accum := AddMod(data.accum, IdNum(x.id)),
                                      accumCount := data.accumCount + 1));
        needsMerge := false;
      } else {
        var rightId := SplitNode(nodeId, newKey);
        newKey := Key(nodes[rightId].items[0].item, rightId);
      }
    }

    /** One breadcrumb of an insertion. */
    method InsertAt(nodeId: nat, x: Item, key: Key, merge: bool, ghost t: Task, ghost k: nat)
        returns (newKey: Key, needsMerge: bool)
      requires Inserting(t, nodes, nextNodeId, levels, k, key, merge) && k < |levels|
      requires NodePos(t, k) < |t.levels0[k]| && nodeId == PathNode(t, k)
      requires config == t.c && x == t.x && SlotsOk(config, nodes, slots) && Logged()
      modifies this`nodes, this`calls, this`slots, this`nextNodeId, this`levels
      ensures Inserting(t, nodes, nextNodeId, levels, k + 1, newKey, needsMerge) && SlotsOk(config, nodes, slots)
              && Logged()
      ensures |levels| == |old(levels)| && old(nextNodeId) <= nextNodeId
    {
      hide Rank, MergeKey, Climb, InsertPending, Refreshed, TaskOk, Total, SplitStore, NoKeyTo, KeyOf, Unrefreshed,
           SlotsOk, Logged, Ascending;
      InsertNodeAscends(t, nodes, nextNodeId, levels, k, key, merge);
      CrumbNode(t, nodes, nextNodeId, levels, k, key, merge);
      ghost var s, nextId := nodes, nextNodeId;
      if merge {
        SplitReady(t, nodes, nextNodeId, levels, k, key);
      }
      KeysStored(t, nodes, nextNodeId, levels, k, key, merge);
      newKey, needsMerge := PlaceKey(nodeId, x, key, merge);
      ghost var s' := nodes;
      NodeStillThere(config, s, s', nodeId, nextId, x, key, merge);
      RefreshIndex(nodeId, 0);
      if needsMerge {
        SplitThenRefresh(t, s, s', nodes, nextId, levels, k, key);
        RightKeyKept(s', nodes, nodeId, nextId);
        levels := levels[k := Spliced(t.levels0[k], NodePos(t, k), NodePos(t, k) + 1, [nodeId, nextId])];
      } else {
        FitThenRefresh(t, s, s', nodes, nextId, levels, k, key, merge);
      }
    }

    /** The root was split, so a new level is required. */
    method MakeRoot(rightId: nat, ghost t: Task)
      requires |levels| > 0 && rightId in nodes && nodes[rightId].items != []
      requires Inserting(t, nodes, nextNodeId, levels, |levels|, KeyOf(nodes, rightId), true)
      requires t.c == config && nextNodeId > 0 && contents == WithItem(t.contents, t.x)
      requires |t.levels0| == |levels| && t.levels0[|levels| - 1] == [rootNodeId]
      requires rootNodeId in nodes && nodes[rootNodeId].items != [] && SlotsOk(config, nodes, slots) && Logged()
      modifies this`nodes, this`calls, this`slots, this`nextNodeId, this`levels, this`rootNodeId
      ensures Valid()
    {
      hide Rank, Inserting, WithItem, TreeOk, SlotsOk, Logged;
      ghost var s, nextId := nodes, nextNodeId;
      RoomForTwo(t, s, nextId, levels, KeyOf(s, rightId));
      var left, right := nodes[rootNodeId], nodes[rightId];
      var newRootId := MakeNode();
      var node := new Slots(config.maxItems);
      node.Append(Key(left.items[0].item, rootNodeId));
      node.Append(Key(right.items[0].item, rightId));
      StoreNode(newRootId, node,
                Node(node.Used(), left.accumCount + right.accumCount, 0, 0, AddMod(left.accum, right.accum)));
      assert node.Used() == [Key(left.items[0].item, rootNodeId), Key(right.items[0].item, rightId)];
      KeyFromItems(s, rootNodeId);
      KeyFromItems(s, rightId);
      assert nodes == s[nextId := NewRoot(s, rootNodeId, rightId)];
      InsertGrows(t, s, nodes, nextId, levels, KeyOf(s, rightId));
      levels := levels + [[newRootId]];
      SetRootNodeId(newRootId);
    }

    /** Makes the root leaf. */
    method InsertFirst(x: Item)
      requires Valid() && contents == []
      modifies this
      ensures Valid() && start == old(start) && contents == WithItem(old(contents), x)
    {
      hide Rank, LevelsOk, AllDistinct, WithItem, TreeOk, SlotsOk, Logged, AddMod, Slots.Valid, Slots.Used,
           ZeroFrom;
      EmptyTree(config, nodes, rootNodeId, nextNodeId, contents, levels);
      TreeBasics(config, nodes, rootNodeId, nextNodeId, contents, levels);
      var rootId := MakeNode();
      var node := LoadNode(rootId);
      node.Append(Key(x, 0));
      assert node.Used() == [Key(x, 0)];
      StoreNode(rootId, node, Node(node.Used(), 1, 0, 0, AddMod(EMPTY_NODE.accum, IdNum(x.id))));
      SetRootNodeId(rootId);
      FirstItem(config, nodes, rootId, x);
      WithItemOfNone(x);
      contents, levels := [x], [[rootId]];
    }

    method InsertItem(x: Item) returns (inserted: bool)
      requires Valid()
      modifies this
      ensures Valid() && start == old(start)
      ensures inserted <==> x !in old(contents)
      ensures !inserted ==> unchanged(this)
      ensures contents == if inserted then WithItem(old(contents), x) else old(contents)
    {
      hide Rank, LevelsOk, AllDistinct, MergeKey, Climb, InsertPending, TaskOk, PathOk, WithItem, TreeOk, Inserting,
           SlotsOk, Logged, Concat, Index, LevelOk, AscendingItems;
      EmptyTree(config, nodes, rootNodeId, nextNodeId, contents, levels);
      if rootNodeId == 0 {
        InsertFirst(x);
        return true;
      }

      var crumbs, found, pos := SearchItem(x);
      if found {
        return false;
      }
      var newKey := Key(x, 0);
      var needsMerge := true;
      ghost var t := Task(config, nodes, contents, levels, crumbs, pos, x);
      ghost var k := 0;
      TaskStarts(t, rootNodeId, nextNodeId);
      TreeBasics(config, nodes, rootNodeId, nextNodeId, contents, levels);
      InsertingStarts(t, nextNodeId);
      while |crumbs| > 0
        invariant TaskOk(t) && k == |t.levels0| - |crumbs| && |t.crumbs| == |t.levels0|
        invariant crumbs == t.crumbs[..|crumbs|]
        invariant contents == t.contents && nextNodeId > 0 && t.levels0[|t.levels0| - 1] == [rootNodeId]
        invariant Inserting(t, nodes, nextNodeId, levels, k, newKey, needsMerge) && |levels| == |t.levels0|
        invariant SlotsOk(config, nodes, slots) && Logged()
        modifies this`nodes, this`calls, this`slots, this`nextNodeId, this`levels
      {
        var crumb := crumbs[|crumbs| - 1];
        crumbs := crumbs[..|crumbs| - 1];
        PathAt(t, k);
        newKey, needsMerge := InsertAt(crumb.nodeId, x, newKey, needsMerge, t, k);
        k := k + 1;
      }
      contents := WithItem(contents, x);
      if needsMerge {
        SplitRoot(t, nodes, nextNodeId, levels, newKey);
        MakeRoot(newKey.nodeId, t);
      } else {
        InsertEnds(t, nodes, nextNodeId, levels, newKey);
      }
      return true;
    }

    method Insert(createdAt: uint64, id: seq<byte>) returns (r: Result<bool>)
      requires Valid()
      modifies this
      ensures Valid() && start == old(start)
      ensures |id| != ID_SIZE ==> r == Err("bad id size for Item")
      ensures r.Err? || !r.value ==> unchanged(this)
      ensures |id| == ID_SIZE ==> var x := Item(createdAt, id);
        && r == Ok(x !in old(contents))
        && contents == if x in old(contents) then old(contents) else WithItem(old(contents), x)
    {
      hide TreeOk, WithItem;
      if |id| != ID_SIZE {
        return Err("bad id size for Item");
      }
      var inserted := InsertItem(Item(createdAt, id));
      r := Ok(inserted);
    }

    // ---------- Erase ----------

    /** Takes the weight of `x` off the node, removes slot `index` if its child is gone, and refreshes the keys of
        the children that changed. */
    method UpdateNode(nodeId: nat, index: nat, x: Item, needsRemove: bool, neighbourRefresh: bool)
      requires SlotsOk(config, nodes, slots) && Logged() && nodeId in nodes && index < |nodes[nodeId].items|
      requires neighbourRefresh ==> !needsRemove && index + 1 < |nodes[nodeId].items|
      requires NoKeyTo(ErasedItems(nodes, nodes[nodeId].items, index, needsRemove, neighbourRefresh), nodeId, nodeId)
      requires NoneMissing(nodes, ErasedItems(nodes, nodes[nodeId].items, index, needsRemove, neighbourRefresh))
      modifies this`nodes, this`calls, this`slots
      ensures nodes == old(nodes)[nodeId := ErasedNode(old(nodes[nodeId]),
                ErasedItems(old(nodes), old(nodes[nodeId]).items, index, needsRemove, neighbourRefresh), x)]
      ensures SlotsOk(config, nodes, slots) && Logged()
    {
      hide Refreshed, SlotsOk, Logged, ErasedNode;
      var n0 := nodes[nodeId];
      ghost var s, its := nodes, ErasedItems(nodes, n0.items, index, needsRemove, neighbourRefresh);
      TakeOff(nodeId, index, x, needsRemove);
      var items := nodes[nodeId].items;
      ErasedIds(s, n0.items, index, needsRemove, neighbourRefresh);
      ErasedAgain(n0, items, x);
      if index < |items| {
        assert its[index].nodeId == items[index].nodeId;
        RefreshedSame(s, nodes, items, index, nodeId);
        RefreshIndex(nodeId, index);
      }
      if neighbourRefresh {
        assert its[index + 1].nodeId == nodes[nodeId].items[index + 1].nodeId;
        RefreshedSame(s, nodes, nodes[nodeId].items, index + 1, nodeId);
        RefreshIndex(nodeId, index + 1);
      }
    }

    /** Takes the weight of `x` off the node and removes slot `index` if its child is gone. */
    method TakeOff(nodeId: nat, index: nat, x: Item, needsRemove: bool)
      requires SlotsOk(config, nodes, slots) && Logged() && nodeId in nodes && index < |nodes[nodeId].items|
      modifies this`nodes, this`calls, this`slots
      ensures var n0 := old(nodes[nodeId]);
              var items := if needsRemove then RemovedAt(n0.items, index) else n0.items;
              nodes == old(nodes)[nodeId := ErasedNode(n0, items, x)]
      ensures SlotsOk(config, nodes, slots) && Logged()
    {
      hide SlotsOk, Logged, SubMod;
      var n0 := nodes[nodeId];
      var node := LoadNode(nodeId);
      if needsRemove {
        node.RemoveAtSlot(index);
      }
      StoreNode(nodeId, node, ErasedNode(n0, node.Used(), x));
    }

    /** Takes a node out of its sibling chain and deletes it. */
    method UnlinkNode(nodeId: nat)
      requires SiblingsOk(nodes, nodeId) && 0 !in nodes && SlotsOkBut(config, nodes, slots, nodeId) && Logged()
      modifies this`nodes, this`calls, this`slots
      ensures Unlinked(old(nodes), nodes, nodeId) && OthersKeep(old(nodes), nodes, nodeId, nodeId)
      ensures SlotsOk(config, nodes, slots) && Logged()
    {
      hide SlotsOk, Logged, SlotsOkBut, Unlinked, OthersKeep;
      ghost var s := nodes;
      var prev, next := nodes[nodeId].prevSibling, nodes[nodeId].nextSibling;
      if prev != 0 {
        RelinkBeside(prev, nodes[prev].(nextSibling := next), nodeId);
      }
      if next != 0 {
        RelinkBeside(next, nodes[next].(prevSibling := prev), nodeId);
      }
      assert nodes == Bypassed(s, nodeId);
      BypassedIsUnlinked(s, nodeId);
      DeleteNode(nodeId);
    }

    /** Changes the links of a sibling of a node that is to be deleted. */
    method RelinkBeside(nodeId: nat, data: Node, ghost gone: nat)
      requires SlotsOkBut(config, nodes, slots, gone) && Logged() && nodeId in nodes
               && data.items == nodes[nodeId].items
      modifies this`nodes, this`calls
      ensures nodes == old(nodes)[nodeId := data] && SlotsOkBut(config, nodes, slots, gone) && Logged()
    {
      SlotsRelinkBut(config, nodes, slots, gone, nodeId, data);
      WriteNode(nodeId, data);
    }

    /** The keys of the left node move into the right one; the left one is to be deleted, and its slots stay as they
        were. */
    method MergeIntoRight(leftId: nat, rightId: nat)
      requires SiblingsOk(nodes, leftId) && 0 !in nodes && rightId in nodes && nodes[leftId].nextSibling == rightId
      requires SlotsOk(config, nodes, slots) && Logged()
               && |nodes[leftId].items| + |nodes[rightId].items| <= config.maxItems
      modifies this`nodes, this`calls, this`slots
      ensures MergeStep(old(nodes), nodes, leftId, rightId, old(nodes[leftId].items + nodes[rightId].items))
      ensures SlotsOkBut(config, nodes, slots, leftId) && Logged()
    {
      hide SlotsOk, Logged, SlotsOkBut, MergeStep, AddMod;
      ghost var s := nodes;
      var left, right := nodes[leftId], nodes[rightId];
      var leftSlots, rightSlots := LoadTwo(leftId, rightId);
      MoveIntoRight(leftSlots, rightSlots);
      if left.prevSibling != 0 {
        ChangeNode(left.prevSibling, nodes[left.prevSibling].(nextSibling := left.nextSibling));
      }
      ghost var s1 := nodes;
      StoreNode(rightId, rightSlots, Node(rightSlots.Used(), right.accumCount + left.accumCount, right.nextSibling,
                                          left.prevSibling, AddMod(right.accum, left.accum)));
      GiveUpKeys(leftId, left.(items := []));
      MergedRight(s, s1, nodes, leftId, rightId, s[leftId].items + s[rightId].items);
    }

    method MergeIntoLeft(leftId: nat, rightId: nat)
      requires SiblingsOk(nodes, rightId) && 0 !in nodes && leftId in nodes && nodes[rightId].prevSibling == leftId
      requires SlotsOk(config, nodes, slots) && Logged()
               && |nodes[leftId].items| + |nodes[rightId].items| <= config.maxItems
      modifies this`nodes, this`calls, this`slots
      ensures MergeStep(old(nodes), nodes, rightId, leftId, old(nodes[leftId].items + nodes[rightId].items))
      ensures SlotsOkBut(config, nodes, slots, rightId) && Logged()
    {
      hide SlotsOk, Logged, SlotsOkBut, MergeStep, AddMod;
      ghost var s := nodes;
      var left, right := nodes[leftId], nodes[rightId];
      var leftSlots, rightSlots := LoadTwo(leftId, rightId);
      MoveIntoLeft(leftSlots, rightSlots);
      if right.nextSibling != 0 {
        ChangeNode(right.nextSibling, nodes[right.nextSibling].(prevSibling := right.prevSibling));
      }
      ghost var s1 := nodes;
      StoreNode(leftId, leftSlots, Node(leftSlots.Used(), left.accumCount + right.accumCount, right.nextSibling,
                                        left.prevSibling, AddMod(left.accum, right.accum)));
      GiveUpKeys(rightId, right.(items := []));
      MergedLeft(s, s1, nodes, rightId, leftId, s[leftId].items + s[rightId].items);
    }

    /** The slots of two nodes, to be worked on in place. */
    method LoadTwo(leftId: nat, rightId: nat) returns (left: Slots, right: Slots)
      requires SlotsOk(config, nodes, slots) && Logged() && leftId in nodes && rightId in nodes
      ensures fresh(left) && fresh(left.items) && fresh(right) && fresh(right.items) && TwoNodes(left, right)
      ensures left.items.Length == config.maxItems + 1
      ensures left.Used() == nodes[leftId].items && left.numItems == |nodes[leftId].items| <= config.maxItems
      ensures right.Used() == nodes[rightId].items && right.numItems == |nodes[rightId].items| <= config.maxItems
    {
      hide SlotsOk, Logged;
      left := LoadNode(leftId);
      right := LoadNode(rightId);
    }

    /** The count of used slots of a node is set to zero; its slots are left alone. */
    method GiveUpKeys(nodeId: nat, data: Node)
      requires SlotsOk(config, nodes, slots) && Logged() && nodeId in nodes
      modifies this`nodes, this`calls
      ensures nodes == old(nodes)[nodeId := data] && SlotsOkBut(config, nodes, slots, nodeId) && Logged()
    {
      SlotsOfAll(config, nodes, slots, nodeId);
      SlotsGivenUp(config, nodes, slots, nodeId, data);
      WriteNode(nodeId, data);
    }

    /** Shares out the items of two neighbours evenly, moving the extra ones from right to left or from left to
        right. */
    method Rebalance(leftId: nat, rightId: nat) returns (neighbourRefresh: bool)
      requires WeightOk(nodes, leftId) && WeightOk(nodes, rightId) && leftId != rightId
      requires NoKeyTo(nodes[leftId].items, leftId, rightId) && NoKeyTo(nodes[rightId].items, leftId, rightId)
      requires NoneMissing(nodes, nodes[leftId].items) && NoneMissing(nodes, nodes[rightId].items)
      requires SlotsOk(config, nodes, slots) && Logged()
      modifies this`nodes, this`calls, this`slots
      ensures var l, r := old(nodes[leftId].items), old(nodes[rightId].items);
              var n := (|l + r| + 1) / 2;
              && ShareStep(old(nodes), nodes, leftId, rightId, l + r, n)
              && (neighbourRefresh <==> |l + r| - n <= |r|)
      ensures SlotsOk(config, nodes, slots) && Logged()
    {
      hide Total, SlotsOk, Logged, ShareStep;
      SlotsOf(config, nodes, slots, leftId);
      SlotsOf(config, nodes, slots, rightId);
      var totalItems := |nodes[leftId].items| + |nodes[rightId].items|;
      var numLeft := (totalItems + 1) / 2;
      var numRight := totalItems - numLeft;
      if |nodes[rightId].items| >= numRight {
        ShareToLeft(leftId, rightId, |nodes[rightId].items| - numRight);
        neighbourRefresh := true;
      } else {
        ShareToRight(leftId, rightId, |nodes[leftId].items| - numLeft);
        neighbourRefresh := false;
      }
    }

    /** The first `numMove` keys of the right node go to the left one, with their weight. */
    method ShareToLeft(leftId: nat, rightId: nat, numMove: nat)
      requires WeightOk(nodes, leftId) && WeightOk(nodes, rightId) && leftId != rightId
      requires NoKeyTo(nodes[leftId].items, leftId, rightId) && NoKeyTo(nodes[rightId].items, leftId, rightId)
      requires NoneMissing(nodes, nodes[leftId].items) && NoneMissing(nodes, nodes[rightId].items)
      requires SlotsOk(config, nodes, slots) && Logged()
      requires numMove <= |nodes[rightId].items| && |nodes[leftId].items| + numMove <= config.maxItems
      modifies this`nodes, this`calls, this`slots
      ensures ShareStep(old(nodes), nodes, leftId, rightId, old(nodes[leftId].items + nodes[rightId].items),
                        old(|nodes[leftId].items|) + numMove)
      ensures SlotsOk(config, nodes, slots) && Logged()
    {
      hide Total, AddMod, SubMod, SlotsOk, Logged, ShareStep, Slots.Valid;
      ghost var s := nodes;
      var left, right := nodes[leftId], nodes[rightId];
      var leftSlots, rightSlots := LoadTwo(leftId, rightId);
      var w := Accumulate(right.items[..numMove]);
      MoveLeft(leftSlots, rightSlots, numMove);
      StoreNode(leftId, leftSlots, left.(items := leftSlots.Used(), accum := AddMod(left.accum, w.sum),
                                         accumCount := left.accumCount + w.count));
      StoreNode(rightId, rightSlots, right.(items := rightSlots.Used(), accum := SubMod(right.accum, w.sum),
                                            accumCount := right.accumCount - w.count));
      SharedToLeft(s, nodes, leftId, rightId, numMove, w);
    }

    /** The last `numMove` keys of the left node go to the right one, with their weight. */
    method ShareToRight(leftId: nat, rightId: nat, numMove: nat)
      requires WeightOk(nodes, leftId) && WeightOk(nodes, rightId) && leftId != rightId
      requires NoKeyTo(nodes[leftId].items, leftId, rightId) && NoKeyTo(nodes[rightId].items, leftId, rightId)
      requires NoneMissing(nodes, nodes[leftId].items) && NoneMissing(nodes, nodes[rightId].items)
      requires SlotsOk(config, nodes, slots) && Logged()
      requires numMove <= |nodes[leftId].items| && |nodes[rightId].items| + numMove <= config.maxItems
      modifies this`nodes, this`calls, this`slots
      ensures ShareStep(old(nodes), nodes, leftId, rightId, old(nodes[leftId].items + nodes[rightId].items),
                        old(|nodes[leftId].items|) - numMove)
      ensures SlotsOk(config, nodes, slots) && Logged()
    {
      hide Total, AddMod, SubMod, SlotsOk, Logged, ShareStep, Slots.Valid;
      ghost var s := nodes;
      var left, right := nodes[leftId], nodes[rightId];
      var leftSlots, rightSlots := LoadTwo(leftId, rightId);
      var w := Accumulate(left.items[|left.items| - numMove..]);
      MoveRight(leftSlots, rightSlots, numMove);
      StoreNode(rightId, rightSlots, right.(items := rightSlots.Used(), accum := AddMod(right.accum, w.sum),
                                            accumCount := right.accumCount + w.count));
      StoreNode(leftId, leftSlots, left.(items := leftSlots.Used(), accum := SubMod(left.accum, w.sum),
                                         accumCount := left.accumCount - w.count));
      SharedToRight(s, nodes, leftId, rightId, numMove, w);
    }

    /** One breadcrumb of an erasure: updates the node, evens it out with a neighbour if it became too small, and
        deletes it if it became empty. `parent` is the next breadcrumb, if there is one. */
    method EraseAt(crumb: Crumb, parent: Option<Crumb>, x: Item, remove: bool, refresh: bool, ghost t: Task,
            ghost k: nat)
        returns (needsRemove: bool, neighbourRefresh: bool)
      requires config == t.c && x == t.x && ConfigOk(config) && SlotsOk(config, nodes, slots) && Logged()
      requires if |t.contents| == 1 then
                 OnlyItem(nodes, crumb.nodeId, x) && crumb.index == 0 && parent == None && remove && !refresh
               else
                 && Erasing(t, nodes, nextNodeId, levels, k, remove, refresh) && k < |levels|
                 && NodePos(t, k) < |t.levels0[k]| && crumb == Crumb(Slot(t, k), PathNode(t, k))
                 && parent == if k + 1 < |levels| then Some(t.crumbs[|t.levels0| - 2 - k]) else None
      modifies this`nodes, this`calls, this`slots, this`levels
      ensures crumb.nodeId in old(nodes) && (parent.Some? ==> parent.value.nodeId in old(nodes))
      ensures EraseStep(config, old(nodes), crumb, parent, remove, needsRemove, neighbourRefresh)
      ensures if |t.contents| == 1 then nodes == map[] && needsRemove
              else Erasing(t, nodes, nextNodeId, levels, k + 1, needsRemove, neighbourRefresh)
      ensures |levels| == |old(levels)| && SlotsOk(config, nodes, slots) && Logged()
    {
      hide Rank, Climb, ErasePending, AllThick, ErasedItems, TaskOk, NoKeyTo, SiblingsOk, Unlinked, OthersKeep, SubMod,
           SlotsOk, Logged, SlotsOkBut, EraseStep, EvenedOut;
      ghost var s, nextId := nodes, nextNodeId;
      var nodeId := crumb.nodeId;
      if |t.contents| == 1 {
        OnlyItemUpdate(s, nodeId, x);
      } else {
        PathKeysElsewhere(t, s, nextId, levels, k, remove, refresh);
      }
      UpdateNode(nodeId, crumb.index, x, remove, refresh);
      ghost var sA := nodes;
      needsRemove, neighbourRefresh := false, false;
      if parent.Some? {
        ParentCrumb(t, s, nextId, levels, k, remove, refresh);
      }
      if |nodes[nodeId].items| < config.minItems && parent.Some? && |nodes[parent.value.nodeId].items| > 1 {
        if parent.value.index == 0 {
          needsRemove, neighbourRefresh := EvenOutRight(nodeId, t, s, k, remove, refresh);
        } else {
          needsRemove, neighbourRefresh := EvenOutLeft(nodeId, t, s, k, remove, refresh);
        }
        EraseStepPaired(config, s, sA, crumb, parent.value, remove, refresh, x, needsRemove, neighbourRefresh, nodes);
      } else if nodes[nodeId].items == [] {
        DropNode(nodeId, t, s, k, remove, refresh);
        needsRemove := true;
        EraseStepAlone(config, s, sA, crumb, parent, remove, refresh, x, true);
      } else {
        EraseStepAlone(config, s, sA, crumb, parent, remove, refresh, x, false);
        PassReplaces(t, s, sA, nextId, levels, k, remove, refresh);
      }
    }

    /** An empty node is unlinked and deleted. */
    method DropNode(nodeId: nat, ghost t: Task, ghost s: Store, ghost k: nat, ghost remove: bool, ghost refresh: bool)
      requires SlotsOk(config, nodes, slots) && Logged()
      requires if |t.contents| == 1 then
                 && nodes.Keys == {nodeId} && nodeId != 0
                 && nodes[nodeId].nextSibling == 0 && nodes[nodeId].prevSibling == 0
               else
                 && Erasing(t, s, nextNodeId, levels, k, remove, refresh) && k < |levels|
                 && Updated(t, s, nodes, k, remove, refresh) && nodeId == PathNode(t, k)
                 && Stays(t, k, PathItems(t, s, k, remove, refresh)) && PathItems(t, s, k, remove, refresh) == []
      modifies this`nodes, this`calls, this`slots, this`levels
      ensures if |t.contents| == 1 then nodes == map[]
              else Erasing(t, nodes, nextNodeId, levels, k + 1, true, false)
      ensures |levels| == |old(levels)| && SlotsOk(config, nodes, slots) && Logged()
    {
      hide Rank, Climb, ErasePending, AllThick, ErasedItems, TaskOk, NoKeyTo, SiblingsOk, Unlinked, OthersKeep,
           SlotsOk, Logged,
           SlotsOkBut, Stays, Erasing;
      ghost var sA := nodes;
      if |t.contents| == 1 {
        LoneSiblings(sA, nodeId);
      } else {
        UpdatedSiblings(t, s, sA, nextNodeId, levels, k, remove, refresh);
      }
      SlotsOfAll(config, nodes, slots, nodeId);
      UnlinkNode(nodeId);
      if |t.contents| == 1 {
        LoneUnlinked(sA, nodes, nodeId);
      } else {
        PassDrops(t, s, sA, nodes, nextNodeId, levels, k, remove, refresh);
        levels := levels[k := NewLevel(t, k, Drop)];
      }
    }

    /** The node is too small and has a right neighbour under the same parent: they merge into the neighbour or
        share out their items. */
    method EvenOutRight(nodeId: nat, ghost t: Task, ghost s: Store, ghost k: nat, ghost remove: bool,
            ghost refresh: bool)
        returns (needsRemove: bool, neighbourRefresh: bool)
      requires Erasing(t, s, nextNodeId, levels, k, remove, refresh) && k + 1 < |levels|
      requires Updated(t, s, nodes, k, remove, refresh) && nodeId == PathNode(t, k) && Slot(t, k + 1) == 0
      requires !Stays(t, k, PathItems(t, s, k, remove, refresh))
      requires config == t.c && ConfigOk(config) && SlotsOk(config, nodes, slots) && Logged()
      modifies this`nodes, this`calls, this`slots, this`levels
      ensures nodeId in old(nodes)
      ensures EvenedOut(config, old(nodes), nodes, nodeId, old(nodes[nodeId].nextSibling), nodeId, needsRemove,
                        neighbourRefresh)
      ensures Erasing(t, nodes, nextNodeId, levels, k + 1, needsRemove, neighbourRefresh) && |levels| == |old(levels)|
      ensures SlotsOk(config, nodes, slots) && Logged()
    {
      hide Rank, Climb, ErasePending, AllThick, ErasedItems, TaskOk, Total, NoKeyTo, WeightOk, SiblingsOk, Unlinked,
           OthersKeep, MergeStep, ShareStep, SubMod, PairItems, Erasing, SlotsOk, Logged, SlotsOkBut, EvenedOut;
      ghost var sA := nodes;
      UpdatedSiblings(t, s, sA, nextNodeId, levels, k, remove, refresh);
      TaskAscending(t);
      HasNeighbour(t, k, PathItems(t, s, k, remove, refresh));
      PairPrepared(t, s, sA, nextNodeId, levels, k, remove, refresh);
      needsRemove, neighbourRefresh := false, false;
      var rightId := nodes[nodeId].nextSibling;
      if |nodes[nodeId].items| + |nodes[rightId].items| <= config.rebalanceThreshold {
        MergeIntoRight(nodeId, rightId);
        ghost var s' := nodes;
        MergedSiblings(sA, s', nodeId, rightId, sA[nodeId].items + sA[rightId].items);
        UnlinkNode(nodeId);
        needsRemove := true;
        MergedItems(config, sA, s', nodes, nodeId, rightId, nodeId, rightId);
        PassMerges(t, s, sA, s', nodes, nextNodeId, levels, k, remove, refresh);
        levels := levels[k := NewLevel(t, k, MergeRight)];
      } else {
        neighbourRefresh := Rebalance(nodeId, rightId);
        SharedItems(config, sA, nodes, nodeId, rightId, nodeId, neighbourRefresh);
        PassRebalances(t, s, sA, nodes, nextNodeId, levels, k, remove, refresh);
      }
    }

    /** The same with the left neighbour. */
    method EvenOutLeft(nodeId: nat, ghost t: Task, ghost s: Store, ghost k: nat, ghost remove: bool,
            ghost refresh: bool)
        returns (needsRemove: bool, neighbourRefresh: bool)
      requires Erasing(t, s, nextNodeId, levels, k, remove, refresh) && k + 1 < |levels|
      requires Updated(t, s, nodes, k, remove, refresh) && nodeId == PathNode(t, k) && Slot(t, k + 1) != 0
      requires !Stays(t, k, PathItems(t, s, k, remove, refresh))
      requires config == t.c && ConfigOk(config) && SlotsOk(config, nodes, slots) && Logged()
      modifies this`nodes, this`calls, this`slots, this`levels
      ensures nodeId in old(nodes)
      ensures EvenedOut(config, old(nodes), nodes, old(nodes[nodeId].prevSibling), nodeId, nodeId, needsRemove,
                        neighbourRefresh)
      ensures Erasing(t, nodes, nextNodeId, levels, k + 1, needsRemove, neighbourRefresh) && |levels| == |old(levels)|
      ensures SlotsOk(config, nodes, slots) && Logged()
    {
      hide Rank, Climb, ErasePending, AllThick, ErasedItems, TaskOk, Total, NoKeyTo, WeightOk, SiblingsOk, Unlinked,
           OthersKeep, MergeStep, ShareStep, SubMod, PairItems, Erasing, SlotsOk, Logged, SlotsOkBut, EvenedOut;
      ghost var sA := nodes;
      UpdatedSiblings(t, s, sA, nextNodeId, levels, k, remove, refresh);
      TaskAscending(t);
      HasNeighbour(t, k, PathItems(t, s, k, remove, refresh));
      PairPrepared(t, s, sA, nextNodeId, levels, k, remove, refresh);
      needsRemove, neighbourRefresh := false, false;
      var leftId := nodes[nodeId].prevSibling;
      if |nodes[leftId].items| + |nodes[nodeId].items| <= config.rebalanceThreshold {
        MergeIntoLeft(leftId, nodeId);
        ghost var s' := nodes;
        MergedSiblings(sA, s', nodeId, leftId, sA[leftId].items + sA[nodeId].items);
        UnlinkNode(nodeId);
        needsRemove := true;
        MergedItems(config, sA, s', nodes, leftId, nodeId, nodeId, leftId);
        PassMerges(t, s, sA, s', nodes, nextNodeId, levels, k, remove, refresh);
        levels := levels[k := NewLevel(t, k, MergeLeft)];
      } else {
        NoKeyToSwap(sA[nodeId].items, nodeId, leftId);
        NoKeyToSwap(sA[leftId].items, nodeId, leftId);
        neighbourRefresh := Rebalance(leftId, nodeId);
        SharedItems(config, sA, nodes, leftId, nodeId, nodeId, neighbourRefresh);
        PassRebalances(t, s, sA, nodes, nextNodeId, levels, k, remove, refresh);
      }
    }

    method EraseItem(x: Item) returns (erased: bool)
      requires Valid()
      modifies this
      ensures Valid() && start == old(start)
      ensures erased <==> x in old(contents)
      ensures !erased ==> unchanged(this)
      ensures contents == if erased then WithoutItem(old(contents), x) else old(contents)
    {
      hide Rank, LevelsOk, AllDistinct, Climb, ErasePending, AllThick, TaskOk, PathOk, WithoutItem, TreeOk, OnlyItem,
           Erasing, SlotsOk, Logged, Concat, Index, LevelOk, AscendingItems;
      EmptyTree(config, nodes, rootNodeId, nextNodeId, contents, levels);
      if rootNodeId == 0 {
        return false;
      }
      var crumbs, found, pos := SearchItem(x);
      if !found {
        return false;
      }
      ghost var t := Task(config, nodes, contents, levels, crumbs, pos, x);
      TaskStarts(t, rootNodeId, nextNodeId);
      TreeBasics(config, nodes, rootNodeId, nextNodeId, contents, levels);
      var needsRemove, neighbourRefresh := true, false;
      ghost var k := 0;
      if |contents| == 1 {
        OnlyCrumb(t, rootNodeId, nextNodeId);
      } else {
        ErasingStarts(t, nextNodeId);
      }
      while |crumbs| > 0
        invariant TaskOk(t) && k == |t.levels0| - |crumbs| && |t.crumbs| == |t.levels0| == |levels|
        invariant crumbs == t.crumbs[..|crumbs|]
        invariant contents == t.contents && nextNodeId > 0 && t.levels0[|t.levels0| - 1] == [rootNodeId]
        invariant if |t.contents| != 1 then Erasing(t, nodes, nextNodeId, levels, k, needsRemove, neighbourRefresh)
                  else if |crumbs| == 0 then nodes == map[] && needsRemove
                  else
                    && OnlyItem(nodes, rootNodeId, x) && crumbs == [Crumb(0, rootNodeId)]
                    && needsRemove && !neighbourRefresh
        invariant SlotsOk(config, nodes, slots) && Logged()
        modifies this`nodes, this`calls, this`slots, this`levels
      {
        var crumb := crumbs[|crumbs| - 1];
        crumbs := crumbs[..|crumbs| - 1];
        var parent := if |crumbs| > 0 then Some(crumbs[|crumbs| - 1]) else None;
        if |t.contents| != 1 {
          PathAt(t, k);
        }
        needsRemove, neighbourRefresh := EraseAt(crumb, parent, x, needsRemove, neighbourRefresh, t, k);
        k := k + 1;
      }
      FinishErase(needsRemove, neighbourRefresh, t);
      return true;
    }

    method Erase(createdAt: uint64, id: seq<byte>) returns (r: Result<bool>)
      requires Valid()
      modifies this
      ensures Valid() && start == old(start)
      ensures |id| != ID_SIZE ==> r == Err("bad id size for Item")
      ensures r.Err? || !r.value ==> unchanged(this)
      ensures |id| == ID_SIZE ==> var x := Item(createdAt, id);
        && r == Ok(x in old(contents))
        && contents == if x in old(contents) then WithoutItem(old(contents), x) else old(contents)
    {
      hide TreeOk, WithoutItem;
      if |id| != ID_SIZE {
        return Err("bad id size for Item");
      }
      var erased := EraseItem(Item(createdAt, id));
      r := Ok(erased);
    }

    /** The tree lost its root, or the root is left with a single child that takes its place, or nothing is to be
        done. */
    method FinishErase(needsRemove: bool, ghost neighbourRefresh: bool, ghost t: Task)
      requires TaskOk(t) && t.c == config && contents == t.contents && t.x in t.contents && nextNodeId > 0
      requires |t.levels0| == |levels| && t.levels0[|t.levels0| - 1] == [rootNodeId]
      requires |levels| > 1 ==> |t.levels0[|levels| - 2]| >= 2
      requires SlotsOk(config, nodes, slots) && Logged()
      requires if |t.contents| == 1 then nodes == map[] && needsRemove && WithoutItem(t.contents, t.x) == []
               else Erasing(t, nodes, nextNodeId, levels, |levels|, needsRemove, neighbourRefresh)
      modifies this
      ensures Valid() && start == old(start) && contents == WithoutItem(t.contents, t.x)
    {
      hide Rank, LevelsOk, AllDistinct, Climb, ErasePending, AllThick, PathOk, WithoutItem, SlotsOk, Logged, SlotsOkBut;
      contents := WithoutItem(contents, t.x);
      if needsRemove {
        SetRootNodeId(0);
        levels := [];
      } else {
        EraseEnds(t, nodes, rootNodeId, nextNodeId, levels);
        var node := nodes[rootNodeId];
        if |node.items| == 1 && node.items[0].nodeId != 0 {
          ghost var s := nodes;
          var root := rootNodeId;
          SetRootNodeId(node.items[0].nodeId);
          SlotsOfAll(config, nodes, slots, root);
          DeleteNode(root);
          EraseShrinks(t, s, nodes, root, nextNodeId, levels);
          levels := levels[..|levels| - 1];
        }
      }
    }

    // ---------- Offsets ----------

    /** Walks down to item number `index` of the subtree; `called` says whether the walk ended inside a node. */
    method TraverseToOffsetAux(index: nat, nodeId: nat, before: Sum, ghost l: nat, ghost p: nat)
        returns (called: bool, found: nat, rem: nat, sum: Sum)
      requires Layered(config, nodes, contents, levels) && l < |levels| && p < |levels[l]| && nodeId == levels[l][p]
      requires nodeId in nodes && index <= nodes[nodeId].accumCount && before == NodeStart(nodes, levels[l], p).sum
      ensures 0 <= NodeStart(nodes, levels[l], p).count
      ensures called ==> Landing(nodes, contents, levels, found, rem, sum, NodeStart(nodes, levels[l], p).count + index)
      ensures index < nodes[nodeId].accumCount ==> called && AtItem(nodes, found, rem)
      ensures !called ==> sum == NodeStart(nodes, levels[l], p + 1).sum
      decreases l
    {
      hide Rank, LevelsOk, AscendingItems, Total, NodeStart, Landing, Concat, Walked, Layered, SlotsOk, Logged;
      StartIsPrefix(config, nodes, contents, levels, l, p);
      NodeEnd(config, nodes, contents, levels, l, p);
      var node := nodes[nodeId];
      if |node.items| == node.accumCount {
        Lands(config, nodes, contents, levels, l, p, index, before);
        return true, nodeId, index, before;
      }
      NotALeaf(config, nodes, contents, levels, l, p);
      WalkStarts(nodes, levels, l, p, index, before);
      rem, sum := index, before;
      var i := 0;
      while i < |node.items|
        invariant 0 <= i <= |node.items| && node == nodes[nodeId]
        invariant Walked(nodes, levels, l, p, i, index, rem, sum)
      {
        WalkStep(config, nodes, contents, levels, l, p, i, index, rem, sum);
        var childId := node.items[i].nodeId;
        var child := nodes[childId];
        if rem < child.accumCount {
          called, found, rem, sum := TraverseToOffsetAux(rem, childId, sum, l - 1, KeyPos(nodes, levels[l], p, i));
          return;
        }
        rem := rem - child.accumCount;
        sum := AddMod(sum, child.accum);
        i := i + 1;
      }
      WalkEnds(config, nodes, contents, levels, l, p, index, rem, sum);
      called, found := false, 0;
    }

    /** Walks down to item number `index`, summing up all subtrees passed over on the left. */
    method TraverseToOffset(index: nat) returns (called: bool, found: nat, rem: nat, sum: Sum)
      requires Valid() && index <= |contents|
      ensures called ==> Landing(nodes, contents, levels, found, rem, sum, index)
      ensures index < |contents| ==> called && AtItem(nodes, found, rem)
      ensures !called ==> index == |contents| && sum == IdSum(contents)
    {
      hide Rank, LevelsOk, AscendingItems, Total, NodeStart, Landing, AllDistinct, SlotsOk, Logged;
      if rootNodeId == 0 {
        EmptyTree(config, nodes, rootNodeId, nextNodeId, contents, levels);
        return false, 0, 0, 0;
      }
      EmptyTree(config, nodes, rootNodeId, nextNodeId, contents, levels);
      RootWeight(config, nodes, contents, levels);
      StartIsPrefix(config, nodes, contents, levels, |levels| - 1, 1);
      assert contents[..|contents|] == contents;
      called, found, rem, sum := TraverseToOffsetAux(index, rootNodeId, 0, |levels| - 1, 0);
    }

    method Size() returns (n: nat)
      requires Valid()
      ensures n == |contents|
    {
      hide Rank, LevelsOk, AscendingItems, AllDistinct, SlotsOk, Logged;
      EmptyTree(config, nodes, rootNodeId, nextNodeId, contents, levels);
      if rootNodeId == 0 {
        return 0;
      }
      RootWeight(config, nodes, contents, levels);
      n := nodes[rootNodeId].accumCount;
    }

    method GetItem(index: nat) returns (r: Result<Item>)
      requires Valid()
      ensures r == if index < |contents| then Ok(contents[index]) else Err("out of range")
    {
      var size := Size();
      if index >= size {
        return Err("out of range");
      }
      var called, found, rem, sum := TraverseToOffset(index);
      r := Ok(nodes[found].items[rem].item);
    }

    /** Calls back for the items at `begin..end` in order until the callback asks to stop. */
    method Iterate(begin: nat, end: nat, cb: (Item, nat) -> bool) returns (r: Result<seq<Item>>)
      requires Valid()
      ensures r.Ok? <==> begin <= end <= |contents|
      ensures r.Err? ==> r.error == "bad range"
      ensures r.Ok? ==> Visited(contents, begin, end, cb, r.value)
    {
      hide Rank, TreeOk, SlotsOk, Logged, Landing, Walking, IdSum, Visited;
      var size := Size();
      if begin > end || end > size {
        return Err("bad range");
      }
      var num: nat := end - begin;
      var called, curr: nat, index: nat, sum := TraverseToOffset(begin);
      var visited: seq<Item> := [];
      VisitedNone(contents, begin, cb);
      if called {
        if num > 0 {
          WalkingFrom(nodes, contents, levels, curr, index, sum, begin);
        }
        var i: nat := 0;
        while i < num
          invariant i <= num && |visited| == i && Visited(contents, begin, begin + i, cb, visited)
          invariant AllGoOn(contents, begin, begin + i, cb)
          invariant i < num ==> Walking(nodes, contents, levels, curr, index, begin + i)
        {
          WalkingItem(nodes, contents, levels, curr, index, begin + i);
          var item := nodes[curr].items[index].item;
          VisitedOne(contents, begin, begin + i, end, cb, visited);
          visited := visited + [item];
          if !cb(item, begin + i) {
            return Ok(visited);
          }
          if begin + i + 1 < |contents| {
            WalkOn(config, nodes, rootNodeId, nextNodeId, contents, levels, curr, index, begin + i);
          }
          index := index + 1;
          if index >= |nodes[curr].items| {
            curr := nodes[curr].nextSibling;
            index := 0;
          }
          i := i + 1;
        }
      }
      r := Ok(visited);
    }

    /** Sum of the ids of the first `index` items. */
    method AccumLeftOf(index: nat) returns (sum: Sum)
      requires Valid() && index <= |contents|
      ensures sum == IdSum(contents[..index])
    {
      hide Rank, TreeOk, SlotsOk, Logged, Landing, IdSum;
      var called, found, rem;
      called, found, rem, sum := TraverseToOffset(index);
      if called {
        LandingItems(nodes, contents, levels, found, rem, sum, index);
        ghost var start := index - rem;
        var i := 0;
        while i < rem
          invariant 0 <= i <= rem && start + i <= |contents|
          invariant sum == IdSum(contents[..start + i])
        {
          NextPrefixSum(contents, start + i);
          sum := AddMod(sum, IdNum(nodes[found].items[i].item.id));
          i := i + 1;
        }
      } else {
        assert contents[..index] == contents;
      }
    }

    /** Sum of the ids at `begin..end`: the prefix up to `end` plus the negated prefix up to `begin`. */
    method RangeSum(begin: nat, end: nat) returns (r: Result<Sum>)
      requires Valid()
      ensures r == if begin <= end <= |contents| then Ok(IdSum(contents[begin..end])) else Err("bad range")
    {
      var size := Size();
      if begin > end || end > size {
        return Err("bad range");
      }
      var accum1 := AccumLeftOf(begin);
      var accum2 := AccumLeftOf(end);
      assert contents[..end] == contents[..begin] + contents[begin..end];
      IdSumConcat(contents[..begin], contents[begin..end]);
      AddModLaws(IdSum(contents[begin..end]), accum1, 0);
      accum1 := NegMod(accum1);
      r := Ok(AddMod(accum2, accum1));
    }

    method Fingerprint(begin: nat, end: nat, h: Hash) returns (r: Result<Fingerprint>)
      requires Valid()
      ensures r == if begin <= end <= |contents| then Ok(FingerprintOf(h, contents[begin..end])) else Err("bad range")
      ensures r.Ok? ==>
        exists s: seq<byte>, c ::
          && |s| == 32 && LeNum(s) == IdSum(contents[begin..end]) && Spells(c, (end - begin) % 0x1_0000_0000_0000_0000)
          && r.value == h(s + c)
    {
      hide TreeOk, IdSum, FingerprintOfSum, SlotsOk, Logged, Spells;
      var sum := RangeSum(begin, end);
      if sum.Err? {
        return Err(sum.error);
      }
      r := Ok(FingerprintOfSum(h, sum.value, Word(end - begin)));
      ghost var s, c := PrintInput(h, contents[begin..end]);
    }

    // ---------- Lower bounds ----------

    method FindLowerBound(begin: nat, end: nat, value: Bound) returns (r: Result<nat>)
      requires Valid()
      ensures r == if begin <= end <= |contents| then Ok(TreeLowerBound(contents, begin, end, BoundRank(value)))
                   else Err("bad range")
    {
      hide Rank, LevelsOk, AscendingItems, AllDistinct, LowerBound, SlotsOk, Logged, Total, Concat,
           Layered, TreeOk;
      var size := Size();
      if begin > end || end > size {
        return Err("bad range");
      }
      EmptyTree(config, nodes, rootNodeId, nextNodeId, contents, levels);
      if rootNodeId == 0 {
        return Ok(end);
      }
      TreeLayered(config, nodes, rootNodeId, nextNodeId, contents, levels);
      RootWeight(config, nodes, contents, levels);
      SlotItem(config, nodes, contents, levels, |levels| - 1, 0, 0);
      EmptyTotal(nodes, nodes[rootNodeId].items);
      var item := BoundItem(value);
      ItemOrder(nodes[rootNodeId].items[0].item, item);
      if !ItemLess(nodes[rootNodeId].items[0].item, item) {
        return Ok(begin);
      }
      var n := FindLowerBoundAux(item, rootNodeId, 0, |levels| - 1, 0);
      r := Ok(if n < end then n else end);
    }

    method FindLowerBoundAux(item: Item, nodeId: nat, toLeft: nat, ghost l: nat, ghost p: nat) returns (n: nat)
      requires Layered(config, nodes, contents, levels) && l < |levels| && p < |levels[l]| && nodeId == levels[l][p]
      requires contents != [] && Rank(contents[0]) < Rank(item)
      requires toLeft == NodeStart(nodes, levels[l], p).count
      requires |levels[l]| == 1 || Seeks(Index(nodes, levels[l]), Rank(item) - 1, p)
      ensures n == LowerBound(contents, Rank(item))
      decreases l
    {
      hide Rank, LevelsOk, AscendingItems, Total, NodeStart, Concat, LowerBound, Index, Seeks, SlotsOk, Logged;
      NodeEnd(config, nodes, contents, levels, l, p);
      var node := nodes[nodeId];
      ghost var w := node.items;
      EmptyTotal(nodes, w);
      var count: nat := toLeft;
      var i := 1;
      while i < |node.items|
        invariant 1 <= i <= |w| && node == nodes[nodeId]
        invariant forall j :: 1 <= j < i ==> Rank(w[j].item) < Rank(item)
        invariant count == toLeft + Total(nodes, w[..i - 1]).count
      {
        ItemOrder(w[i].item, item);
        if !ItemLess(node.items[i].item, item) {
          break;
        }
        SlotWeight(config, nodes, contents, levels, l, p, i - 1);
        if node.items[i - 1].nodeId != 0 {
          count := count + nodes[node.items[i - 1].nodeId].accumCount;
        } else {
          count := count + 1;
        }
        i := i + 1;
      }
      var childId := node.items[i - 1].nodeId;
      SlotCounted(config, nodes, contents, levels, l, p, i - 1, Rank(item) - 1);
      if childId == 0 {
        LeafAnswer(config, nodes, contents, levels, l, p, i - 1, Rank(item));
        return count + 1;
      }
      InnerAnswer(config, nodes, contents, levels, l, p, i - 1);
      n := FindLowerBoundAux(item, childId, count, l - 1, KeyPos(nodes, levels[l], p, i - 1));
    }
  }
}
