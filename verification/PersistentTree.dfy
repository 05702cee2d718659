/** A tree kept in LMDB. The tree makes its calls to a node storage; the same calls made to the LMDB storage, with its
    write-back cache, leave there what the tree has in memory, and after a flush the tree can be opened again. */
module PersistentTrees {
  import opened Types
  import opened BTreeNodes
  import opened SortedItems
  import opened BTreeInsert
  import opened BTreeErase
  import opened StoreCalls
  import opened LmdbStores
  import opened BTrees

  /** What the LMDB storage shows to the tree. */
  ghost function ImageOf(store: BTreeLMDB): Image
    reads store
  {
    Image(store.nodes, store.metaDataCache.rootNodeId, store.metaDataCache.nextNodeId)
  }

  /** The storage stands for the nodes of the tree. */
  ghost predicate Keeps(store: BTreeLMDB, tree: BTree)
    reads store, store.table, tree
  {
    store.Valid() && ImageOf(store) == Image(tree.nodes, tree.rootNodeId, tree.nextNodeId)
  }

  lemma OthersSameTwice(a: Entries, b: Entries, c: Entries, treeId: nat)
    requires OthersSame(a, b, treeId) && OthersSame(b, c, treeId)
    ensures OthersSame(a, c, treeId)
  {
    forall t | t != treeId ensures Agree(a, c, t) {
      assert Agree(a, b, t) && Agree(b, c, t);
    }
  }

  lemma NoneChanged(a: Entries, treeId: nat)
    ensures OthersSame(a, a, treeId)
  {
    forall t | t != treeId ensures Agree(a, a, t) {
    }
  }

  /** One call to the storage. */
  method MakeCall(store: BTreeLMDB, c: Call)
    requires store.Valid() && Allowed(ImageOf(store), c)
    modifies store, store.table
    ensures store.Valid() && ImageOf(store) == Applied(old(ImageOf(store)), c)
    ensures OthersSame(old(store.table.entries), store.table.entries, store.treeId)
  {
    hide CacheOk;
    FreshId(store.table.entries, store.treeId, store.dirtyNodeCache, store.metaDataCache, store.origMetaData,
            store.nodes);
    match c {
      case Make =>
        var _ := store.MakeNode();
      case Put(nodeId, node) =>
        var _ := store.GetNodeWrite(nodeId);
        store.SetNode(nodeId, node);
      case Delete(nodeId) =>
        var _ := store.DeleteNode(nodeId);
      case SetRoot(nodeId) =>
        store.SetRootNodeId(nodeId);
    }
  }

  method MakeCalls(store: BTreeLMDB, calls: seq<Call>)
    requires store.Valid() && AllAllowed(ImageOf(store), calls)
    modifies store, store.table
    ensures store.Valid() && ImageOf(store) == Replayed(old(ImageOf(store)), calls)
    ensures OthersSame(old(store.table.entries), store.table.entries, store.treeId)
  {
    hide Applied, Allowed, CacheOk, OthersSame;
    NoneChanged(store.table.entries, store.treeId);
    ghost var m := ImageOf(store);
    var i := 0;
    while i < |calls|
      invariant 0 <= i <= |calls| && store.Valid() && ImageOf(store) == Replayed(m, calls[..i])
      invariant OthersSame(old(store.table.entries), store.table.entries, store.treeId)
    {
      assert calls[..i + 1][..i] == calls[..i];
      ghost var before := store.table.entries;
      MakeCall(store, calls[i]);
      OthersSameTwice(old(store.table.entries), before, store.table.entries, store.treeId);
      i := i + 1;
    }
    assert calls[..|calls|] == calls;
  }

  /** After a change to the tree: its calls reach the storage, the storage is flushed, and the tree is opened again from
      the table alone. */
  method Save(tree: BTree, store: BTreeLMDB) returns (again: BTreeLMDB)
    requires tree.Valid() && store.Valid() && ImageOf(store) == tree.start
    modifies store, store.table
    ensures fresh(again) && again.table == store.table && again.treeId == store.treeId
    ensures Keeps(again, tree) && InTable(again)
    ensures OthersSame(old(store.table.entries), store.table.entries, store.treeId)
  {
    hide TreeOk, AllAllowed, Replayed, CacheOk, TableOk, OthersSame;
    MakeCalls(store, tree.calls);
    ghost var before := store.table.entries;
    store.Flush();
    OthersSameTwice(old(store.table.entries), before, store.table.entries, store.treeId);
    again := new BTreeLMDB(store.table, store.treeId);
  }

  /** Nothing is in the cache only: the table alone holds the nodes and the metadata. */
  ghost predicate InTable(store: BTreeLMDB)
    reads store, store.table
  {
    && store.dirtyNodeCache == map[] && TableOk(store.table.entries, store.treeId)
    && store.nodes == NodesIn(store.table.entries, store.treeId)
    && store.metaDataCache == StoredMeta(store.table.entries, store.treeId)
  }

  // ---------- A tree and its changes ----------

  datatype Edit = Add(x: Item) | Remove(x: Item)

  /** Adding a present item or removing an absent one changes nothing. */
  ghost function Edited(contents: seq<Item>, e: Edit): seq<Item> {
    match e
    case Add(x) => if x in contents then contents else WithItem(contents, x)
    case Remove(x) => if x in contents then WithoutItem(contents, x) else contents
  }

  ghost function AllEdited(contents: seq<Item>, edits: seq<Edit>): seq<Item>
    decreases |edits|
  {
    if edits == [] then contents else Edited(AllEdited(contents, edits[..|edits| - 1]), edits[|edits| - 1])
  }

  /** The contents after some changes are in order and hold exactly the items whose last change was to add them. */
  lemma {:induction false} LastEditDecides(edits: seq<Edit>, x: Item)
    ensures AscendingItems(AllEdited([], edits))
    ensures x in AllEdited([], edits) <==> exists i: nat :: LastAdded(edits, i, x)
    decreases |edits|
  {
    hide AscendingItems, Edited;
    if edits == [] {
      EmptyAscends();
    } else {
      var front, n := edits[..|edits| - 1], |edits| - 1;
      LastEditDecides(front, x);
      EditedHolds(AllEdited([], front), edits[n], x);
      forall i: nat | i < n ensures LastAdded(edits, i, x) <==> LastAdded(front, i, x) && edits[n] != Remove(x) {
        assert forall j :: i < j < n ==> front[j] == edits[j];
      }
      assert LastAdded(edits, n, x) <==> edits[n] == Add(x);
    }
  }

  /** Change `i` adds the item, and no later one removes it. */
  ghost predicate LastAdded(edits: seq<Edit>, i: nat, x: Item) {
    i < |edits| && edits[i] == Add(x) && forall j :: i < j < |edits| ==> edits[j] != Remove(x)
  }

  lemma EmptyAscends()
    ensures AscendingItems([])
  {
  }

  lemma EditedHolds(contents: seq<Item>, e: Edit, x: Item)
    requires AscendingItems(contents)
    ensures AscendingItems(Edited(contents, e))
    ensures x in Edited(contents, e) <==> e == Add(x) || (x in contents && e != Remove(x))
  {
    hide AscendingItems, WithItem, WithoutItem;
    var more := Edited(contents, e);
    if e.Add? && e.x !in contents {
      InsertThenErase(contents, e.x);
      assert x in multiset(more) <==> x in multiset(contents) + multiset{e.x};
    } else if e.Remove? && e.x in contents {
      EraseThenInsert(contents, e.x);
      assert x in multiset(more) <==> x in multiset(contents) - multiset{e.x};
    }
  }

  /** A change, a flush and a fresh start from the table. */
  method Change(tree: BTree, store: BTreeLMDB, e: Edit) returns (again: BTreeLMDB)
    requires tree.Valid() && Keeps(store, tree)
    modifies tree, store, store.table
    ensures fresh(again) && again.table == store.table && again.treeId == store.treeId
    ensures tree.Valid() && Keeps(again, tree) && InTable(again) && tree.contents == Edited(old(tree.contents), e)
    ensures OthersSame(old(store.table.entries), store.table.entries, store.treeId)
  {
    hide TreeOk, CacheOk, TableOk, OthersSame, WithItem, WithoutItem, InTable;
    tree.ForgetCalls();
    match e {
      case Add(x) =>
        var _ := tree.InsertItem(x);
      case Remove(x) =>
        var _ := tree.EraseItem(x);
    }
    again := Save(tree, store);
  }

  lemma NothingStored(e: Entries, treeId: nat)
    requires TableOk(e, treeId) && forall id: nat :: (treeId, id) !in e
    ensures StoredMeta(e, treeId) == MetaData(0, 1) && NodesIn(e, treeId) == map[]
  {
    assert NodeIds(e, treeId) == {};
  }

  /** A new tree in a table that may hold other trees: after every change it is flushed and opened anew. In the end the
      table holds a valid tree with exactly the contents that the changes lead to, and the other trees are untouched. */
  method ChangeAll(table: Table, treeId: nat, c: Config, edits: seq<Edit>) returns (store: BTreeLMDB, tree: BTree)
    requires ConfigOk(c) && TableOk(table.entries, treeId) && forall id: nat :: (treeId, id) !in table.entries
    modifies table
    ensures store.table == table && store.treeId == treeId && store.Valid() && InTable(store)
    ensures TreeOk(c, store.nodes, store.metaDataCache.rootNodeId, store.metaDataCache.nextNodeId,
                   AllEdited([], edits), tree.levels)
    ensures OthersSame(old(table.entries), table.entries, treeId)
  {
    hide TreeOk, CacheOk, TableOk, OthersSame, Edited, NodesIn, StoredMeta;
    NothingStored(table.entries, treeId);
    NoneChanged(table.entries, treeId);
    tree := new BTree(c);
    store := new BTreeLMDB(table, treeId);
    var i := 0;
    while i < |edits|
      invariant 0 <= i <= |edits| && fresh(store) && fresh(tree) && store.table == table && store.treeId == treeId
      invariant tree.Valid() && Keeps(store, tree) && InTable(store) && tree.config == c
      invariant tree.contents == AllEdited([], edits[..i])
      invariant OthersSame(old(table.entries), table.entries, treeId)
    {
      assert edits[..i + 1][..i] == edits[..i];
      ghost var before := table.entries;
      store := Change(tree, store, edits[i]);
      OthersSameTwice(old(table.entries), before, table.entries, treeId);
      i := i + 1;
    }
    assert edits[..|edits|] == edits;
  }
}
