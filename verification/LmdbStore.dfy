/** The tree's node store over LMDB with its write-back cache.

    The database is a table shared by all trees; its keys are pairs of a tree id and a number, with number 0 for the
    tree's metadata and every other number for a node. The ghost field `nodes` is the node map that the in-memory store
    would hold after the same calls; every method is proved against it. */
module LmdbStores {
  import opened Types
  import opened BTreeNodes

  datatype MetaData = MetaData(rootNodeId: nat, nextNodeId: nat)

  const NEW_TREE := MetaData(0, 1)

  datatype Entry = MetaEntry(meta: MetaData) | NodeEntry(node: Node)

  type Entries = map<(nat, nat), Entry>

  /** The metadata in the table, or that of a new tree. */
  function StoredMeta(e: Entries, treeId: nat): MetaData {
    if (treeId, 0) in e && e[(treeId, 0)].MetaEntry? then e[(treeId, 0)].meta else NEW_TREE
  }

  function StoredNode(e: Entries, treeId: nat, id: nat): Option<Node> {
    if id != 0 && (treeId, id) in e && e[(treeId, id)].NodeEntry? then Some(e[(treeId, id)].node) else None
  }

  /** What the table holds for a tree is of the right kind, and node ids are below the next one. */
  ghost predicate TableOk(e: Entries, treeId: nat) {
    && ((treeId, 0) in e ==> e[(treeId, 0)].MetaEntry?) && StoredMeta(e, treeId).nextNodeId > 0
    && (forall id :: id != 0 && (treeId, id) in e ==>
        e[(treeId, id)].NodeEntry? && id < StoredMeta(e, treeId).nextNodeId)
  }

  function Lookup(nodes: Store, id: nat): Option<Node> {
    if id in nodes then Some(nodes[id]) else None
  }

  /** The cached node if there is one, and the stored node otherwise. */
  function Overlaid(e: Entries, treeId: nat, dirty: Store, id: nat): Option<Node> {
    if id in dirty then Some(dirty[id]) else StoredNode(e, treeId, id)
  }

  /** The table holds exactly these nodes for a tree. */
  ghost predicate Holds(e: Entries, treeId: nat, nodes: Store) {
    forall id :: Lookup(nodes, id) == StoredNode(e, treeId, id)
  }

  /** The two tables agree on every tree but one. */
  ghost predicate OthersSame(e: Entries, e': Entries, treeId: nat) {
    forall t :: t != treeId ==> Agree(e, e', t)
  }

  ghost predicate Agree(e: Entries, e': Entries, treeId: nat) {
    forall id ::
      ((treeId, id) in e <==> (treeId, id) in e') && ((treeId, id) in e ==> e[(treeId, id)] == e'[(treeId, id)])
  }

  /** The cache over the table stands for the node map `nodes`. */
  ghost predicate CacheOk(e: Entries, treeId: nat, dirty: Store, meta: MetaData, orig: MetaData, nodes: Store) {
    && TableOk(e, treeId) && orig == StoredMeta(e, treeId) && orig.nextNodeId <= meta.nextNodeId
    && (forall id :: id in dirty ==> 0 < id < meta.nextNodeId)
    && (forall id :: Lookup(nodes, id) == Overlaid(e, treeId, dirty, id))
  }

  /** Calls on one tree do not disturb the cache of another tree over the same table. */
  lemma OtherTreeUndisturbed(e: Entries, e': Entries, treeId: nat, other: nat, dirty: Store, meta: MetaData,
          orig: MetaData, nodes: Store)
    requires CacheOk(e, other, dirty, meta, orig, nodes) && OthersSame(e, e', treeId) && other != treeId
    ensures CacheOk(e', other, dirty, meta, orig, nodes)
  {
    assert Agree(e, e', other);
    forall id: nat ensures Overlaid(e', other, dirty, id) == Overlaid(e, other, dirty, id) {
      assert (other, id) in e <==> (other, id) in e';
    }
  }

  /** Every node in the map has an id that was handed out before, so a new id never hits an existing node. */
  lemma FreshId(e: Entries, treeId: nat, dirty: Store, meta: MetaData, orig: MetaData, nodes: Store)
    requires CacheOk(e, treeId, dirty, meta, orig, nodes)
    ensures meta.nextNodeId !in nodes && meta.nextNodeId !in dirty && (treeId, meta.nextNodeId) !in e
    ensures forall id :: id in nodes ==> 0 < id < meta.nextNodeId
  {
    forall id | id in nodes ensures 0 < id < meta.nextNodeId {
      assert Lookup(nodes, id) == Overlaid(e, treeId, dirty, id);
    }
  }

  /** What the table holds is determined by its entries. */
  lemma HoldsUnique(e: Entries, treeId: nat, a: Store, b: Store)
    requires Holds(e, treeId, a) && Holds(e, treeId, b)
    ensures a == b
  {
    forall id ensures id in a <==> id in b {
      assert Lookup(a, id) == Lookup(b, id);
    }
    forall id | id in a ensures a[id] == b[id] {
      assert Lookup(a, id) == Lookup(b, id);
    }
  }

  ghost function NodeIds(e: Entries, treeId: nat): set<nat> {
    set k | k in e.Keys && k.0 == treeId && k.1 != 0 :: k.1
  }

  ghost function NodesIn(e: Entries, treeId: nat): (nodes: Store)
    requires TableOk(e, treeId)
    ensures Holds(e, treeId, nodes)
  {
    var nodes := map id | id in NodeIds(e, treeId) :: e[(treeId, id)].node;
    assert forall id :: Lookup(nodes, id) == StoredNode(e, treeId, id) by {
      forall id ensures Lookup(nodes, id) == StoredNode(e, treeId, id) {
        assert id in NodeIds(e, treeId) <==> id != 0 && (treeId, id) in e.Keys;
      }
    }
    nodes
  }

  class Table {
    var entries: Entries

    constructor ()
      ensures entries == map[]
    {
      entries := map[];
    }

    method Put(key: (nat, nat), value: Entry)
      modifies this
      ensures entries == old(entries)[key := value]
    {
      entries := entries[key := value];
    }

    method Del(key: (nat, nat))
      modifies this
      ensures entries == old(entries) - {key}
    {
      entries := entries - {key};
    }
  }

  class BTreeLMDB {
    const table: Table
    const treeId: nat
    var metaDataCache: MetaData
    var origMetaData: MetaData
    var dirtyNodeCache: Store

    /** The node map of an in-memory store after the same calls. */
    ghost var nodes: Store

    ghost predicate Valid()
      reads this, table
    {
      CacheOk(table.entries, treeId, dirtyNodeCache, metaDataCache, origMetaData, nodes)
    }

    /** Opening reads the metadata; the nodes are those in the table. */
    constructor (table: Table, treeId: nat)
      requires TableOk(table.entries, treeId)
      ensures Valid() && this.table == table && this.treeId == treeId
      ensures metaDataCache == StoredMeta(table.entries, treeId) && nodes == NodesIn(table.entries, treeId)
              && dirtyNodeCache == map[]
    {
      this.table, this.treeId := table, treeId;
      metaDataCache := StoredMeta(table.entries, treeId);
      origMetaData := StoredMeta(table.entries, treeId);
      dirtyNodeCache := map[];
      nodes := NodesIn(table.entries, treeId);
    }

    /** Reads a node through the cache. A missing node is an error here, where the in-memory store returns nothing. */
    method GetNodeRead(nodeId: nat) returns (r: Result<Option<Node>>)
      requires Valid()
      ensures r == if nodeId == 0 then Ok(None)
                   else if nodeId in nodes then Ok(Some(nodes[nodeId]))
                   else Err("couldn't find node")
    {
      assert Lookup(nodes, nodeId) == Overlaid(table.entries, treeId, dirtyNodeCache, nodeId);
      if nodeId == 0 {
        return Ok(None);
      }
      if nodeId in dirtyNodeCache {
        return Ok(Some(dirtyNodeCache[nodeId]));
      }
      if (treeId, nodeId) !in table.entries {
        return Err("couldn't find node");
      }
      r := Ok(Some(table.entries[(treeId, nodeId)].node));
    }

    /** Brings a node into the cache, where it can be changed with SetNode. */
    method GetNodeWrite(nodeId: nat) returns (r: Result<Option<Node>>)
      requires Valid()
      modifies this`dirtyNodeCache
      ensures Valid()
      ensures r == if nodeId == 0 then Ok(None)
                   else if nodeId in nodes then Ok(Some(nodes[nodeId]))
                   else Err("couldn't find node")
      ensures r.Ok? && nodeId != 0 ==> nodeId in dirtyNodeCache
    {
      assert Lookup(nodes, nodeId) == Overlaid(table.entries, treeId, dirtyNodeCache, nodeId);
      if nodeId == 0 {
        return Ok(None);
      }
      if nodeId in dirtyNodeCache {
        return Ok(Some(dirtyNodeCache[nodeId]));
      }
      if (treeId, nodeId) !in table.entries {
        return Err("couldn't find node");
      }
      var node := table.entries[(treeId, nodeId)].node;
      dirtyNodeCache := dirtyNodeCache[nodeId := node];
      r := Ok(Some(node));
    }

    /** Changes a node through the pointer that a write access or a creation returned. */
    method SetNode(nodeId: nat, node: Node)
      requires Valid() && nodeId in dirtyNodeCache
      modifies this`dirtyNodeCache, this`nodes
      ensures Valid() && nodes == old(nodes)[nodeId := node]
    {
      SetKeeps(table.entries, treeId, dirtyNodeCache, metaDataCache, metaDataCache, origMetaData, nodes, nodeId, node);
      dirtyNodeCache := dirtyNodeCache[nodeId := node];
      nodes := nodes[nodeId := node];
    }

    method MakeNode() returns (nodeId: nat)
      requires Valid()
      modifies this`metaDataCache, this`dirtyNodeCache, this`nodes
      ensures Valid() && nodeId == old(metaDataCache.nextNodeId) && nodeId !in old(nodes) && nodeId in dirtyNodeCache
      ensures nodes == old(nodes)[nodeId := EMPTY_NODE]
      ensures metaDataCache == old(metaDataCache).(nextNodeId := nodeId + 1)
    {
      FreshId(table.entries, treeId, dirtyNodeCache, metaDataCache, origMetaData, nodes);
      nodeId := metaDataCache.nextNodeId;
      SetKeeps(table.entries, treeId, dirtyNodeCache, metaDataCache, metaDataCache.(nextNodeId := nodeId + 1),
               origMetaData, nodes, nodeId, EMPTY_NODE);
      metaDataCache := metaDataCache.(nextNodeId := nodeId + 1);
      dirtyNodeCache := dirtyNodeCache[nodeId := EMPTY_NODE];
      nodes := nodes[nodeId := EMPTY_NODE];
    }

    /** Deletes a node from the cache and at once from the table. */
    method DeleteNode(nodeId: nat) returns (r: Result<()>)
      requires Valid()
      modifies this`dirtyNodeCache, this`nodes, table
      ensures Valid() && OthersSame(old(table.entries), table.entries, treeId)
      ensures r == if nodeId == 0 then Err("can't delete metadata") else Ok(())
      ensures nodes == if r.Ok? then old(nodes) - {nodeId} else old(nodes)
    {
      if nodeId == 0 {
        return Err("can't delete metadata");
      }
      ghost var e := table.entries;
      dirtyNodeCache := dirtyNodeCache - {nodeId};
      table.Del((treeId, nodeId));
      nodes := nodes - {nodeId};
      DeleteKeeps(e, treeId, old(dirtyNodeCache), metaDataCache, origMetaData, old(nodes), nodeId);
      r := Ok(());
    }

    method GetRootNodeId() returns (nodeId: nat)
      ensures nodeId == metaDataCache.rootNodeId
    {
      nodeId := metaDataCache.rootNodeId;
    }

    method SetRootNodeId(newRootNodeId: nat)
      requires Valid()
      modifies this`metaDataCache
      ensures Valid() && metaDataCache == old(metaDataCache).(rootNodeId := newRootNodeId)
    {
      metaDataCache := metaDataCache.(rootNodeId := newRootNodeId);
    }

    /** Writes all cached nodes and changed metadata. Afterwards the table alone holds the node map and the metadata, so
        opening the tree again yields the same tree; nothing changes for the caller or for other trees. */
    method Flush()
      requires Valid()
      modifies this`dirtyNodeCache, this`origMetaData, table
      ensures Valid() && dirtyNodeCache == map[] && OthersSame(old(table.entries), table.entries, treeId)
      ensures TableOk(table.entries, treeId) && Holds(table.entries, treeId, nodes)
              && nodes == NodesIn(table.entries, treeId)
      ensures StoredMeta(table.entries, treeId) == metaDataCache
    {
      hide TableOk;
      ghost var e0 := table.entries;
      var left := dirtyNodeCache.Keys;
      assert table.entries == Flushed(e0, treeId, dirtyNodeCache, left);
      while left != {}
        invariant dirtyNodeCache == old(dirtyNodeCache) && origMetaData == old(origMetaData)
                  && left <= dirtyNodeCache.Keys
        invariant table.entries == Flushed(e0, treeId, dirtyNodeCache, left)
        decreases left
      {
        var nodeId :| nodeId in left;
        FlushOne(e0, treeId, dirtyNodeCache, left, nodeId);
        table.Put((treeId, nodeId), NodeEntry(dirtyNodeCache[nodeId]));
        left := left - {nodeId};
      }
      ghost var e1 := table.entries;
      ghost var dirty := dirtyNodeCache;
      dirtyNodeCache := map[];
      if metaDataCache != origMetaData {
        table.Put((treeId, 0), MetaEntry(metaDataCache));
        origMetaData := metaDataCache;
      }
      FlushEnds(e0, e1, table.entries, treeId, dirty, metaDataCache, old(origMetaData), nodes);
      HoldsUnique(table.entries, treeId, nodes, NodesIn(table.entries, treeId));
    }
  }

  lemma SetKeeps(e: Entries, treeId: nat, dirty: Store, meta: MetaData, meta': MetaData, orig: MetaData, nodes: Store,
          nodeId: nat, node: Node)
    requires CacheOk(e, treeId, dirty, meta, orig, nodes) && 0 < nodeId < meta'.nextNodeId
             && meta.nextNodeId <= meta'.nextNodeId
    ensures CacheOk(e, treeId, dirty[nodeId := node], meta', orig, nodes[nodeId := node])
  {
    hide TableOk;
    var nodes', dirty' := nodes[nodeId := node], dirty[nodeId := node];
    forall id: nat ensures Lookup(nodes', id) == Overlaid(e, treeId, dirty', id) {
      assert Lookup(nodes, id) == Overlaid(e, treeId, dirty, id);
    }
  }

  lemma DeleteKeeps(e: Entries, treeId: nat, dirty: Store, meta: MetaData, orig: MetaData, nodes: Store, nodeId: nat)
    requires CacheOk(e, treeId, dirty, meta, orig, nodes) && nodeId != 0
    ensures CacheOk(e - {(treeId, nodeId)}, treeId, dirty - {nodeId}, meta, orig, nodes - {nodeId})
    ensures OthersSame(e, e - {(treeId, nodeId)}, treeId)
  {
    var e' := e - {(treeId, nodeId)};
    forall id ensures Lookup(nodes - {nodeId}, id) == Overlaid(e', treeId, dirty - {nodeId}, id) {
      assert Lookup(nodes, id) == Overlaid(e, treeId, dirty, id);
    }
  }

  // ---------- Flushing ----------

  /** The table when the cached nodes other than `left` have been written. */
  ghost function Flushed(e: Entries, treeId: nat, dirty: Store, left: set<nat>): Entries {
    e + map k | k in Written(treeId, dirty, left) :: NodeEntry(dirty[k.1])
  }

  ghost function Written(treeId: nat, dirty: Store, left: set<nat>): (ks: set<(nat, nat)>)
    ensures forall k :: k in ks <==> k.0 == treeId && k.1 in dirty && k.1 !in left
  {
    set id | id in dirty && id !in left :: (treeId, id)
  }

  lemma FlushOne(e: Entries, treeId: nat, dirty: Store, left: set<nat>, id: nat)
    requires id in left && id in dirty
    ensures Flushed(e, treeId, dirty, left - {id})
            == Flushed(e, treeId, dirty, left)[(treeId, id) := NodeEntry(dirty[id])]
  {
  }

  lemma FlushEnds(e0: Entries, e1: Entries, e2: Entries, treeId: nat, dirty: Store, meta: MetaData, orig: MetaData,
          nodes: Store)
    requires CacheOk(e0, treeId, dirty, meta, orig, nodes) && e1 == Flushed(e0, treeId, dirty, {})
    requires e2 == if meta != orig then e1[(treeId, 0) := MetaEntry(meta)] else e1
    ensures CacheOk(e2, treeId, map[], meta, meta, nodes) && Holds(e2, treeId, nodes)
    ensures OthersSame(e0, e2, treeId)
  {
    hide TableOk;
    FlushedTable(e0, e1, e2, treeId, dirty, meta, orig, nodes);
    forall id: nat ensures StoredNode(e2, treeId, id) == Lookup(nodes, id) {
      assert Lookup(nodes, id) == Overlaid(e0, treeId, dirty, id);
    }
  }

  lemma FlushedTable(e0: Entries, e1: Entries, e2: Entries, treeId: nat, dirty: Store, meta: MetaData, orig: MetaData,
          nodes: Store)
    requires CacheOk(e0, treeId, dirty, meta, orig, nodes) && e1 == Flushed(e0, treeId, dirty, {})
    requires e2 == if meta != orig then e1[(treeId, 0) := MetaEntry(meta)] else e1
    ensures TableOk(e2, treeId) && StoredMeta(e2, treeId) == meta && OthersSame(e0, e2, treeId)
    ensures forall id: nat :: StoredNode(e2, treeId, id) == Overlaid(e0, treeId, dirty, id)
  {
    hide Lookup, Flushed;
    FlushedEntries(e0, e1, treeId, dirty);
    assert (treeId, 0) in e1 <==> (treeId, 0) in e0;
  }

  lemma FlushedEntries(e0: Entries, e1: Entries, treeId: nat, dirty: Store)
    requires e1 == Flushed(e0, treeId, dirty, {})
    ensures forall k :: k in e1 <==> k in e0 || (k.0 == treeId && k.1 in dirty)
    ensures forall k :: k in e1 ==>
              e1[k] == if k.0 == treeId && k.1 in dirty then NodeEntry(dirty[k.1]) else e0[k]
  {
  }
}
