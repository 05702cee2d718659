/** The calls a tree makes to its node storage. The tree does not know how nodes are stored; what one storage makes of
    its calls, another one makes of them too. */
module StoreCalls {
  import opened Types
  import opened BTreeNodes

  /** A new node, a write through a node pointer, a deletion, or a new root. */
  datatype Call = Make | Put(nodeId: nat, node: Node) | Delete(nodeId: nat) | SetRoot(nodeId: nat)

  /** What a node storage holds. */
  datatype Image = Image(nodes: Store, rootNodeId: nat, nextNodeId: nat)

  function Applied(m: Image, c: Call): Image {
    match c
    case Make => m.(nodes := m.nodes[m.nextNodeId := EMPTY_NODE], nextNodeId := m.nextNodeId + 1)
    case Put(nodeId, node) => m.(nodes := m.nodes[nodeId := node])
    case Delete(nodeId) => m.(nodes := m.nodes - {nodeId})
    case SetRoot(nodeId) => m.(rootNodeId := nodeId)
  }

  /** Only stored nodes are written or deleted. */
  ghost predicate Allowed(m: Image, c: Call) {
    c.Put? || c.Delete? ==> c.nodeId in m.nodes
  }

  function Replayed(m: Image, calls: seq<Call>): Image
    decreases |calls|
  {
    if calls == [] then m else Applied(Replayed(m, calls[..|calls| - 1]), calls[|calls| - 1])
  }

  ghost predicate AllAllowed(m: Image, calls: seq<Call>) {
    forall i :: 0 <= i < |calls| ==> Allowed(Replayed(m, calls[..i]), calls[i])
  }

  lemma OneMore(m: Image, calls: seq<Call>, c: Call)
    requires AllAllowed(m, calls) && Allowed(Replayed(m, calls), c)
    ensures AllAllowed(m, calls + [c]) && Replayed(m, calls + [c]) == Applied(Replayed(m, calls), c)
  {
    hide Allowed, Applied;
    var more := calls + [c];
    assert more[..|calls|] == calls;
    forall i | 0 <= i < |more| ensures Allowed(Replayed(m, more[..i]), more[i]) {
      if i < |calls| {
        assert more[..i] == calls[..i] && more[i] == calls[i];
      }
    }
  }
}
