/** The graph editor's commands: adding, removing and duplicating nodes and changing the
    selection, driven by context-menu item ids such as `Add:<type>` or `Delete:<id>`.
    The editor state is the node list, the connection list and the selected node id. */
module GraphBuilder {
  import opened Wrappers
  import opened GraphModel

  /** A canvas position, already converted from client coordinates. */
  datatype CanvasPosition = CanvasPosition(x: int, y: int)

  /** What a context-menu item id asks for. */
  datatype MenuCommand =
    | AddCommand(nodeType: NodeType)
    | DeleteCommand(nodeId: NodeId)
    | EditCommand(nodeId: NodeId)
    | DuplicateCommand(nodeId: NodeId)
    | Unrecognised

  const AddPrefix: string := "Add:"
  const DeletePrefix: string := "Delete:"
  const EditPrefix: string := "Edit:"
  const DuplicatePrefix: string := "Duplicate:"

  /** The prefix tests of the menu handler, in the order it makes them; the payload is
      what follows the prefix. */
  function ParseMenuItem(menuItemId: string): (cmd: MenuCommand)
    ensures cmd.AddCommand? <==> AddPrefix <= menuItemId
    ensures cmd.DeleteCommand? <==> DeletePrefix <= menuItemId
    ensures cmd.EditCommand? <==> EditPrefix <= menuItemId
    ensures cmd.DuplicateCommand? <==> DuplicatePrefix <= menuItemId
    ensures cmd.Unrecognised? <==>
      !(AddPrefix <= menuItemId || DeletePrefix <= menuItemId || EditPrefix <= menuItemId || DuplicatePrefix <= menuItemId)
    ensures !cmd.Unrecognised? ==> MenuItemId(cmd) == menuItemId
  {
    PrefixesExclusive(menuItemId);
    if AddPrefix <= menuItemId then AddCommand(menuItemId[4..])
    else if DeletePrefix <= menuItemId then DeleteCommand(menuItemId[7..])
    else if EditPrefix <= menuItemId then EditCommand(menuItemId[5..])
    else if DuplicatePrefix <= menuItemId then DuplicateCommand(menuItemId[10..])
    else Unrecognised
  }

  /** No menu item id carries two of the four prefixes. */
  lemma PrefixesExclusive(s: string)
    ensures AddPrefix <= s ==> !(DeletePrefix <= s || EditPrefix <= s || DuplicatePrefix <= s)
    ensures DeletePrefix <= s ==> !(EditPrefix <= s || DuplicatePrefix <= s)
    ensures EditPrefix <= s ==> !(DuplicatePrefix <= s)
  {
    if AddPrefix <= s { assert s[0] == AddPrefix[0]; }
    if DeletePrefix <= s { assert s[0] == DeletePrefix[0] && s[1] == DeletePrefix[1]; }
    if EditPrefix <= s { assert s[0] == EditPrefix[0]; }
  }

  /** The menu item id that asks for a command. */
  function MenuItemId(cmd: MenuCommand): (s: string)
    requires !cmd.Unrecognised?
  {
    match cmd
    case AddCommand(t) => AddPrefix + t
    case DeleteCommand(id) => DeletePrefix + id
    case EditCommand(id) => EditPrefix + id
    case DuplicateCommand(id) => DuplicatePrefix + id
  }

  /** Every command survives being written as a menu item id and parsed back. */
  lemma MenuItemRoundTrip(cmd: MenuCommand)
    requires !cmd.Unrecognised?
    ensures ParseMenuItem(MenuItemId(cmd)) == cmd
  {
  }

  /** What `nodeFactory` is relied on for: a node of the asked type whose id is not in use. */
  ghost predicate FreshFactory(factory: NodeType -> ChartNode, nodes: seq<ChartNode>)
  {
    forall t :: factory(t).nodeType == t && factory(t).id !in NodeIds(nodes)
  }

  /** A new node of the given type placed at a canvas position. */
  function Placed(made: ChartNode, position: CanvasPosition): (n: ChartNode)
    ensures n.visualData.x == position.x && n.visualData.y == position.y
    ensures n.(visualData := made.visualData) == made
  {
    made.(visualData := made.visualData.(x := position.x, y := position.y))
  }

  /** A new node carrying a copy of the source's configuration, shifted 20 units right and down. */
  function Copied(made: ChartNode, source: ChartNode): (n: ChartNode)
    ensures n.id == made.id && n.title == made.title && n.nodeType == made.nodeType
    ensures n.data == source.data
    ensures n.visualData.x == source.visualData.x + 20 && n.visualData.y == source.visualData.y + 20
  {
    made.(data := source.data,
          visualData := source.visualData.(x := source.visualData.x + 20, y := source.visualData.y + 20))
  }

  /** What `RemoveNode` relies on, stated on the lists alone. */
  lemma RemoveFacts(nodes: seq<ChartNode>, connections: seq<Connection>, id: NodeId)
    ensures NoDanglingConnections(nodes, connections) ==> NoDanglingConnections(WithoutFirst(nodes, id), Detached(connections, id))
    ensures UniqueIds(nodes) ==>
              UniqueIds(WithoutFirst(nodes, id)) && FindNode(WithoutFirst(nodes, id), id).None?
  {
    if NoDanglingConnections(nodes, connections) {
      RemovePreservesIntegrity(nodes, connections, id);
    }
    if UniqueIds(nodes) {
      RemoveUniqueLeavesNoTrace(nodes, id);
    }
  }

  class GraphEditor {
    var nodes: seq<ChartNode>
    var connections: seq<Connection>
    var selectedNode: Option<NodeId>

    constructor (nodes: seq<ChartNode>, connections: seq<Connection>, selectedNode: Option<NodeId>)
      ensures this.nodes == nodes && this.connections == connections && this.selectedNode == selectedNode
    {
      this.nodes := nodes;
      this.connections := connections;
      this.selectedNode := selectedNode;
    }

    /** The node handed to the canvas as selected: the first node whose id is the
        selection, or nothing when there is no selection or no such node. */
    function SelectedChartNode(): (r: Option<ChartNode>)
      reads this
      ensures r.None? <==> selectedNode.None? || selectedNode.value !in NodeIds(nodes)
      ensures r.Some? ==> r.value in nodes && selectedNode == Some(r.value.id)
      ensures r.Some? ==> exists i :: 0 <= i < |nodes| && nodes[i] == r.value &&
                                      forall j :: 0 <= j < i ==> nodes[j].id != r.value.id
    {
      match selectedNode
      case None => None
      case Some(id) => FindNode(nodes, id)
    }

    /** Appends a new node of the given type at the position and selects it. */
    method AddNode(nodeType: NodeType, position: CanvasPosition, factory: NodeType -> ChartNode)
      requires FreshFactory(factory, nodes)
      modifies this
      ensures |nodes| == |old(nodes)| + 1 && nodes[..|old(nodes)|] == old(nodes)
      ensures nodes[|old(nodes)|] == Placed(factory(nodeType), position)
      ensures nodes[|old(nodes)|].nodeType == nodeType
      ensures connections == old(connections)
      ensures selectedNode == Some(factory(nodeType).id)
      ensures SelectedChartNode() == Some(nodes[|old(nodes)|])
      ensures UniqueIds(old(nodes)) ==> UniqueIds(nodes)
      ensures NoDanglingConnections(old(nodes), old(connections)) ==> NoDanglingConnections(nodes, connections)
    {
      var newNode := Placed(factory(nodeType), position);
      AppendPreservesIntegrity(nodes, connections, newNode);
      FindAppendedFresh(nodes, newNode);
      nodes := nodes + [newNode];
      selectedNode := Some(newNode.id);
    }

    /** Deletes the first node with the id, if there is one, and every connection touching
        the id whether or not a node was found. The selection is left as it was. */
    method RemoveNode(nodeId: NodeId)
      modifies this
      ensures nodes == WithoutFirst(old(nodes), nodeId)
      ensures nodeId in NodeIds(old(nodes)) ==>
                var i := FindIndex(old(nodes), nodeId);
                old(nodes) == nodes[..i] + [old(nodes)[i]] + nodes[i..]
      ensures connections == Detached(old(connections), nodeId)
      ensures forall c :: c in connections ==> !Touches(c, nodeId)
      ensures selectedNode == old(selectedNode)
      ensures NoDanglingConnections(old(nodes), old(connections)) ==> NoDanglingConnections(nodes, connections)
      ensures UniqueIds(old(nodes)) ==> UniqueIds(nodes) && nodeId !in NodeIds(nodes)
      ensures UniqueIds(old(nodes)) && selectedNode == Some(nodeId) ==> SelectedChartNode() == None
    {
      RemoveFacts(nodes, connections, nodeId);
      if nodeId in NodeIds(nodes) {
        WithoutFirstReinserted(nodes, nodeId);
      }
      var nodeIndex := FindIndex(nodes, nodeId);
      var newNodes := nodes;
      if nodeIndex >= 0 {
        newNodes := nodes[..nodeIndex] + nodes[nodeIndex + 1..];
      }
      nodes := newNodes;
      connections := Detached(connections, nodeId);
    }

    /** Appends a copy of the first node with the id, shifted by 20 in x and y, and selects
        it; does nothing when no node has the id. */
    method DuplicateNode(nodeId: NodeId, factory: NodeType -> ChartNode)
      requires FreshFactory(factory, nodes)
      modifies this
      ensures nodeId !in NodeIds(old(nodes)) ==>
                nodes == old(nodes) && selectedNode == old(selectedNode)
      ensures nodeId in NodeIds(old(nodes)) ==>
                var source := old(nodes)[FindIndex(old(nodes), nodeId)];
                && nodes == old(nodes) + [Copied(factory(source.nodeType), source)]
                && nodes[|old(nodes)|].nodeType == source.nodeType
                && selectedNode == Some(factory(source.nodeType).id)
                && SelectedChartNode() == Some(nodes[|old(nodes)|])
      ensures connections == old(connections)
      ensures UniqueIds(old(nodes)) ==> UniqueIds(nodes)
      ensures NoDanglingConnections(old(nodes), old(connections)) ==> NoDanglingConnections(nodes, connections)
    {
      var node := FindNode(nodes, nodeId);
      if node.Some? {
        var newNode := Copied(factory(node.value.nodeType), node.value);
        AppendPreservesIntegrity(nodes, connections, newNode);
        FindAppendedFresh(nodes, newNode);
        nodes := nodes + [newNode];
        selectedNode := Some(newNode.id);
      }
    }

    /** Selecting a node on the canvas makes its id the selection and changes nothing else. */
    method SelectNode(node: ChartNode)
      modifies this
      ensures selectedNode == Some(node.id)
      ensures nodes == old(nodes) && connections == old(connections)
      ensures node in nodes ==> SelectedChartNode().Some? && SelectedChartNode().value.id == node.id
    {
      selectedNode := Some(node.id);
    }

    /** Runs the one command a context-menu item id asks for; an id with none of the
        four prefixes changes nothing. */
    method ContextMenuItemSelected(menuItemId: string, position: CanvasPosition, factory: NodeType -> ChartNode)
      requires FreshFactory(factory, nodes)
      modifies this
      ensures match ParseMenuItem(menuItemId)
        case AddCommand(t) =>
          && nodes == old(nodes) + [Placed(factory(t), position)]
          && connections == old(connections)
          && selectedNode == Some(factory(t).id)
        case DeleteCommand(id) =>
          && nodes == WithoutFirst(old(nodes), id)
          && connections == Detached(old(connections), id)
          && selectedNode == old(selectedNode)
        case EditCommand(id) =>
          && nodes == old(nodes)
          && connections == old(connections)
          && selectedNode == Some(id)
        case DuplicateCommand(id) =>
          && connections == old(connections)
          && (id !in NodeIds(old(nodes)) ==> nodes == old(nodes) && selectedNode == old(selectedNode))
          && (id in NodeIds(old(nodes)) ==>
                var source := old(nodes)[FindIndex(old(nodes), id)];
                nodes == old(nodes) + [Copied(factory(source.nodeType), source)] &&
                selectedNode == Some(factory(source.nodeType).id))
        case Unrecognised =>
          nodes == old(nodes) && connections == old(connections) && selectedNode == old(selectedNode)
      ensures UniqueIds(old(nodes)) ==> UniqueIds(nodes)
      ensures NoDanglingConnections(old(nodes), old(connections)) ==> NoDanglingConnections(nodes, connections)
    {
      var cmd := ParseMenuItem(menuItemId);
      match cmd
      case AddCommand(t) =>
        AddNode(t, position, factory);
      case DeleteCommand(id) =>
        RemoveNode(id);
      case EditCommand(id) =>
        selectedNode := Some(id);
      case DuplicateCommand(id) =>
        DuplicateNode(id, factory);
      case Unrecognised =>
    }
  }
}
