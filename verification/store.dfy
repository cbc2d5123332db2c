/** The host application's node and connection stores, seen only through
    the callbacks the canvas invokes. Their bodies live in the host
    component, which is not part of this model: the functions here are the
    contracts assumed of those callbacks, not verified behaviour. Deleting a
    node (with its connection pruning) is deliberately not given a meaning. */
module Store {
  import opened Wrappers
  import opened Workflow

  /** The host's collections plus the canvas selection. */
  datatype Graph = Graph(nodes: seq<Node>, connections: seq<Connection>, selected: Option<NodeId>)

  /** The callbacks the canvas calls on its host, as data. */
  datatype Effect =
    | SelectNode(target: Option<NodeId>)
    | UpdateNodePosition(id: NodeId, x: int, y: int)
    | AddConnection(from: NodeId, to: NodeId)
    | DeleteNode(id: NodeId)

  /** Assumed contract of `onUpdateNodePosition(id, x, y)`: the nodes with
      that id move to (x, y); every other node is untouched. */
  function MoveNode(nodes: seq<Node>, id: NodeId, x: int, y: int): (r: seq<Node>)
    ensures |r| == |nodes|
    ensures forall i :: 0 <= i < |nodes| && nodes[i].id == id ==> r[i] == nodes[i].(x := x, y := y)
    ensures forall i :: 0 <= i < |nodes| && nodes[i].id != id ==> r[i] == nodes[i]
  {
    if |nodes| == 0 then []
    else
      var head := if nodes[0].id == id then nodes[0].(x := x, y := y) else nodes[0];
      var r := [head] + MoveNode(nodes[1..], id, x, y);
      assert forall i :: 1 <= i < |nodes| ==> nodes[i] == nodes[1..][i - 1];
      r
  }

  /** Applies one callback to the stores; `connId` is the id the host
      generates for a new connection. Deleting a node is outside the model
      and yields None. */
  function Apply(g: Graph, e: Effect, connId: string): (r: Option<Graph>)
    ensures r.None? <==> e.DeleteNode?
    ensures e.AddConnection? ==> r == Some(g.(connections := g.connections + [Connection(connId, e.from, e.to)]))
    ensures e.UpdateNodePosition? ==> r.Some? && r.value.connections == g.connections
                                      && r.value.selected == g.selected
    ensures e.SelectNode? ==> r == Some(g.(selected := e.target))
  {
    match e
    case SelectNode(t) => Some(g.(selected := t))
    case UpdateNodePosition(id, x, y) => Some(g.(nodes := MoveNode(g.nodes, id, x, y)))
    case AddConnection(from, to) => Some(g.(connections := g.connections + [Connection(connId, from, to)]))
    case DeleteNode(_) => None
  }

  /** Applies callbacks in order; a new connection gets id `connId`. */
  function ApplyAll(g: Graph, effects: seq<Effect>, connId: string): Option<Graph>
    decreases |effects|
  {
    if |effects| == 0 then Some(g)
    else
      match Apply(g, effects[0], connId)
      case None => None
      case Some(g') => ApplyAll(g', effects[1..], connId)
  }
}
