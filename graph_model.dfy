/** The editor's view of one graph: its nodes and its connections, and the pure
    list operations the editing commands are built from (`findIndex`, `find`,
    `splice` and `filter` on arrays of nodes and connections). */
module GraphModel {
  import opened Wrappers
  import opened Json

  type NodeId = string
  type NodeType = string
  type PortId = string

  /** Canvas placement of a node; coordinates are whole canvas units. */
  datatype VisualData = VisualData(x: int, y: int)

  /** A node as the editor holds it: `{ id, type, title, visualData, data }`. */
  datatype ChartNode = ChartNode(id: NodeId, nodeType: NodeType, title: string, visualData: VisualData, data: Json)

  /** A directed edge from one node's output port to another node's input port. */
  datatype Connection = Connection(outputNodeId: NodeId, outputPortId: PortId, inputNodeId: NodeId, inputPortId: PortId)

  /** The ids of all nodes of a list. */
  function NodeIds(nodes: seq<ChartNode>): (ids: set<NodeId>)
    ensures forall i :: 0 <= i < |nodes| ==> nodes[i].id in ids
    ensures forall id :: id in ids ==> exists i :: 0 <= i < |nodes| && nodes[i].id == id
  {
    set i | 0 <= i < |nodes| :: nodes[i].id
  }

  /** No two nodes share an id. */
  ghost predicate UniqueIds(nodes: seq<ChartNode>)
  {
    forall i, j :: 0 <= i < j < |nodes| ==> nodes[i].id != nodes[j].id
  }

  /** A connection touches a node when either of its endpoints names it. */
  predicate Touches(c: Connection, id: NodeId)
  {
    c.inputNodeId == id || c.outputNodeId == id
  }

  /** Referential integrity: every endpoint of every connection names a node of the graph. */
  ghost predicate NoDanglingConnections(nodes: seq<ChartNode>, connections: seq<Connection>)
  {
    forall c :: c in connections ==> c.inputNodeId in NodeIds(nodes) && c.outputNodeId in NodeIds(nodes)
  }

  /** `nodes.findIndex((n) => n.id === id)`: the position of the first node with the id, or -1. */
  function FindIndex(nodes: seq<ChartNode>, id: NodeId): (r: int)
    ensures -1 <= r < |nodes|
    ensures r == -1 <==> id !in NodeIds(nodes)
    ensures r >= 0 ==> nodes[r].id == id && forall j :: 0 <= j < r ==> nodes[j].id != id
  {
    if |nodes| == 0 then -1
    else if nodes[0].id == id then 0
    else
      var k := FindIndex(nodes[1..], id);
      assert forall j :: 0 < j < |nodes| ==> nodes[j] == nodes[1..][j - 1];
      if k == -1 then -1 else k + 1
  }

  /** `nodes.find((n) => n.id === id)`: the first node with the id, if any. */
  function FindNode(nodes: seq<ChartNode>, id: NodeId): (r: Option<ChartNode>)
    ensures r.None? <==> id !in NodeIds(nodes)
    ensures r.Some? ==> r.value in nodes && r.value.id == id
    ensures r.Some? ==> exists i :: 0 <= i < |nodes| && nodes[i] == r.value && forall j :: 0 <= j < i ==> nodes[j].id != id
  {
    var i := FindIndex(nodes, id);
    if i >= 0 then Some(nodes[i]) else None
  }

  /** The node list after `splice(findIndex(id), 1)` on a copy; unchanged when no node has the id. */
  function WithoutFirst(nodes: seq<ChartNode>, id: NodeId): (r: seq<ChartNode>)
    ensures id !in NodeIds(nodes) ==> r == nodes
    ensures id in NodeIds(nodes) ==> |r| == |nodes| - 1
    ensures forall n :: n in nodes && n.id != id ==> n in r
    ensures forall n :: n in r ==> n in nodes
    ensures id in NodeIds(nodes) ==>
              && (forall j :: 0 <= j < FindIndex(nodes, id) ==> r[j] == nodes[j])
              && (forall j :: FindIndex(nodes, id) <= j < |r| ==> r[j] == nodes[j + 1])
  {
    var i := FindIndex(nodes, id);
    if i >= 0 then nodes[..i] + nodes[i + 1..] else nodes
  }

  /** Putting the removed node back where it was gives the original list: only the first
      node with the id is taken out, and the others keep their order. */
  lemma WithoutFirstReinserted(nodes: seq<ChartNode>, id: NodeId)
    requires id in NodeIds(nodes)
    ensures var i := FindIndex(nodes, id);
            && 0 <= i < |nodes| && nodes[i].id == id
            && (forall j :: 0 <= j < i ==> nodes[j].id != id)
            && nodes == WithoutFirst(nodes, id)[..i] + [nodes[i]] + WithoutFirst(nodes, id)[i..]
  {
    SpliceRestored(nodes, FindIndex(nodes, id));
  }

  /** Taking out element `i` and putting it back leaves a list as it was. */
  lemma SpliceRestored<T>(s: seq<T>, i: nat)
    requires i < |s|
    ensures s == (s[..i] + s[i + 1..])[..i] + [s[i]] + (s[..i] + s[i + 1..])[i..]
  {
    var r := s[..i] + s[i + 1..];
    assert r[..i] == s[..i];
    assert r[i..] == s[i + 1..];
    assert s == s[..i] + [s[i]] + s[i + 1..];
  }

  /** `connections.filter((c) => c.inputNodeId !== id && c.outputNodeId !== id)`. */
  function Detached(connections: seq<Connection>, id: NodeId): (r: seq<Connection>)
    ensures |r| <= |connections|
    ensures forall c :: c in r <==> c in connections && !Touches(c, id)
  {
    if |connections| == 0 then []
    else if Touches(connections[0], id) then Detached(connections[1..], id)
    else [connections[0]] + Detached(connections[1..], id)
  }

  /** The filter keeps the surviving connections in their original order: it maps a
      concatenation to the concatenation of the filtered parts. */
  lemma {:induction false} DetachedAppend(a: seq<Connection>, b: seq<Connection>, id: NodeId)
    ensures Detached(a + b, id) == Detached(a, id) + Detached(b, id)
  {
    if |a| == 0 {
      assert a + b == b;
    } else {
      assert (a + b)[0] == a[0];
      assert (a + b)[1..] == a[1..] + b;
      DetachedAppend(a[1..], b, id);
    }
  }

  /** A list in which nothing touches the node is left as it is. */
  lemma {:induction false} DetachedUntouched(connections: seq<Connection>, id: NodeId)
    requires forall c :: c in connections ==> !Touches(c, id)
    ensures Detached(connections, id) == connections
  {
    if |connections| > 0 {
      assert connections == [connections[0]] + connections[1..];
      DetachedUntouched(connections[1..], id);
    }
  }

  /** Filtering twice by the same node is filtering once. */
  lemma {:induction false} DetachedIdempotent(connections: seq<Connection>, id: NodeId)
    ensures Detached(Detached(connections, id), id) == Detached(connections, id)
  {
    DetachedUntouched(Detached(connections, id), id);
  }

  /** Removing a node and its connections keeps the graph free of dangling connections,
      and afterwards no connection refers to the removed id. */
  lemma RemovePreservesIntegrity(nodes: seq<ChartNode>, connections: seq<Connection>, id: NodeId)
    requires NoDanglingConnections(nodes, connections)
    ensures NoDanglingConnections(WithoutFirst(nodes, id), Detached(connections, id))
    ensures forall c :: c in Detached(connections, id) ==> !Touches(c, id)
  {
  }

  /** With unique ids, removing a node removes every node with that id. */
  lemma RemoveUniqueLeavesNoTrace(nodes: seq<ChartNode>, id: NodeId)
    requires UniqueIds(nodes)
    ensures id !in NodeIds(WithoutFirst(nodes, id))
    ensures UniqueIds(WithoutFirst(nodes, id))
  {
    var i := FindIndex(nodes, id);
    var rest := WithoutFirst(nodes, id);
    if i >= 0 {
      assert rest == nodes[..i] + nodes[i + 1..];
      forall j | 0 <= j < |rest|
        ensures rest[j] == nodes[if j < i then j else j + 1]
      {
        if j < i { assert rest[j] == nodes[..i][j]; } else { assert rest[j] == nodes[i + 1..][j - i]; }
      }
      forall j | 0 <= j < |rest|
        ensures rest[j].id != id
      {
        assert rest[j] == nodes[if j < i then j else j + 1];
      }
      forall j, k | 0 <= j < k < |rest|
        ensures rest[j].id != rest[k].id
      {
        assert rest[j] == nodes[if j < i then j else j + 1];
        assert rest[k] == nodes[if k < i then k else k + 1];
      }
    }
  }

  /** Appending a node never creates a dangling connection; appending one with a fresh id
      keeps the ids unique. */
  lemma AppendPreservesIntegrity(nodes: seq<ChartNode>, connections: seq<Connection>, n: ChartNode)
    ensures NoDanglingConnections(nodes, connections) ==> NoDanglingConnections(nodes + [n], connections)
    ensures UniqueIds(nodes) && n.id !in NodeIds(nodes) ==> UniqueIds(nodes + [n])
  {
    if NoDanglingConnections(nodes, connections) {
      forall c | c in connections
        ensures c.inputNodeId in NodeIds(nodes + [n]) && c.outputNodeId in NodeIds(nodes + [n])
      {
        var i :| 0 <= i < |nodes| && nodes[i].id == c.inputNodeId;
        var o :| 0 <= o < |nodes| && nodes[o].id == c.outputNodeId;
        assert (nodes + [n])[i] == nodes[i] && (nodes + [n])[o] == nodes[o];
      }
    }
  }

  /** A node appended with an id not yet in use is the one found under that id. */
  lemma FindAppendedFresh(nodes: seq<ChartNode>, n: ChartNode)
    requires n.id !in NodeIds(nodes)
    ensures FindNode(nodes + [n], n.id) == Some(n)
  {
    var all := nodes + [n];
    assert all[|nodes|] == n;
    forall j | 0 <= j < |nodes|
      ensures all[j].id != n.id
    {
      assert all[j] == nodes[j];
    }
  }
}
