/** The canvas component: the connection-draw state (`connectingFrom`,
    `tempLine`), its event handlers, the drag-delta handler, and what a
    render shows (edges, preview, placeholder, per-node flags). Handlers
    emit the host callbacks they call as `Store.Effect` values. The canvas
    offset from `getBoundingClientRect` is an input. */
module Canvas {
  import opened Wrappers
  import opened Workflow
  import opened Store
  import opened Geometry
  import NodeStyle

  /** `connectingFrom` and `tempLine`. */
  datatype Draw = Draw(connectingFrom: Option<NodeId>, tempLine: Option<Line>)

  const InitialDraw: Draw := Draw(None, None)

  /** JavaScript truthiness of a `string | null`: null and "" are false. */
  predicate Truthy(o: Option<NodeId>) {
    o.Some? && o.value != ""
  }

  /** A handler's result: the new draw state and the host callbacks made. */
  datatype Outcome = Outcome(draw: Draw, effects: seq<Effect>)

  /** `handleNodeDragStart(id)`: select the pressed node. */
  function HandleNodeDragStart(id: NodeId): (r: seq<Effect>)
    ensures r == [SelectNode(Some(id))]
  {
    [SelectNode(Some(id))]
  }

  /** `handleNodeDrag(id, dx, dy)` with the `nodes` of the render that
      created it: move the first node with that id by the delta; an unknown
      id produces no call. */
  function HandleNodeDrag(nodes: seq<Node>, id: NodeId, dx: int, dy: int): (r: seq<Effect>)
    ensures !HasId(nodes, id) ==> r == []
    ensures forall n :: Find(nodes, id) == Some(n) ==> r == [UpdateNodePosition(id, n.x + dx, n.y + dy)]
  {
    match Find(nodes, id)
    case None => []
    case Some(n) => [UpdateNodePosition(id, n.x + dx, n.y + dy)]
  }

  /** `handleConnectStart(nodeId)`: the source becomes `id` whatever the
      prior state; the preview is left as it was. */
  function HandleConnectStart(d: Draw, id: NodeId): (r: Draw)
    ensures r.connectingFrom == Some(id) && r.tempLine == d.tempLine
  {
    d.(connectingFrom := Some(id))
  }

  /** `handleMouseMove`: while a (truthy) source is set and that node
      exists, the preview runs from its output anchor to the pointer in
      canvas coordinates (`client - origin`); otherwise nothing changes. */
  function HandleMouseMove(d: Draw, nodes: seq<Node>, client: Point, origin: Point): (r: Draw)
    ensures r.connectingFrom == d.connectingFrom
    ensures !(Truthy(d.connectingFrom) && HasId(nodes, d.connectingFrom.value)) ==> r == d
    ensures Truthy(d.connectingFrom) && HasId(nodes, d.connectingFrom.value) ==>
              exists i :: 0 <= i < |nodes| && nodes[i].id == d.connectingFrom.value
                          && r.tempLine == Some(Line(nodes[i].x + 120, nodes[i].y + 40,
                                                     client.x - origin.x, client.y - origin.y))
  {
    if Truthy(d.connectingFrom) then
      match Find(nodes, d.connectingFrom.value)
      case None => d
      case Some(src) => d.(tempLine := Some(PreviewLine(src, Point(client.x - origin.x, client.y - origin.y))))
    else d
  }

  /** `handleConnectEnd(toNodeId)`: one connection from the source to
      `to` exactly when a truthy source is set and differs from `to`; the
      draw state is cleared in every case. */
  function HandleConnectEnd(d: Draw, to: NodeId): (r: Outcome)
    ensures r.draw == InitialDraw
    ensures |r.effects| <= 1
    ensures r.effects != [] <==> Truthy(d.connectingFrom) && d.connectingFrom.value != to
    ensures r.effects != [] ==> r.effects[0] == AddConnection(d.connectingFrom.value, to)
  {
    if Truthy(d.connectingFrom) && d.connectingFrom.value != to then
      Outcome(InitialDraw, [AddConnection(d.connectingFrom.value, to)])
    else Outcome(InitialDraw, [])
  }

  /** `handleCanvasClick`: deselect and cancel any connection draw. */
  function HandleCanvasClick(d: Draw): (r: Outcome)
    ensures r.draw == InitialDraw && r.effects == [SelectNode(None)]
  {
    Outcome(InitialDraw, [SelectNode(None)])
  }

  /** The handler invocations the canvas receives; a node's delete button
      forwards to `onDeleteNode`. */
  datatype CanvasEvent =
    | NodeDragStart(id: NodeId)
    | NodeDrag(id: NodeId, dx: int, dy: int)
    | ConnectStart(id: NodeId)
    | MouseMove(client: Point, origin: Point)
    | ConnectEnd(to: NodeId)
    | CanvasClick
    | DeleteRequest(id: NodeId)

  /** An event together with the `nodes` prop of the render whose handler
      receives it. */
  datatype Delivered = Delivered(nodes: seq<Node>, event: CanvasEvent)

  function Step(d: Draw, nodes: seq<Node>, e: CanvasEvent): Outcome {
    match e
    case NodeDragStart(id) => Outcome(d, HandleNodeDragStart(id))
    case NodeDrag(id, dx, dy) => Outcome(d, HandleNodeDrag(nodes, id, dx, dy))
    case ConnectStart(id) => Outcome(HandleConnectStart(d, id), [])
    case MouseMove(client, origin) => Outcome(HandleMouseMove(d, nodes, client, origin), [])
    case ConnectEnd(to) => HandleConnectEnd(d, to)
    case CanvasClick => HandleCanvasClick(d)
    case DeleteRequest(id) => Outcome(d, [DeleteNode(id)])
  }

  function Run(d: Draw, events: seq<Delivered>): Outcome
    decreases |events|
  {
    if |events| == 0 then Outcome(d, [])
    else
      var first := Step(d, events[0].nodes, events[0].event);
      var rest := Run(first.draw, events[1..]);
      Outcome(rest.draw, first.effects + rest.effects)
  }

  /** A preview line is only ever shown while a source is recorded. */
  predicate PreviewHasSource(d: Draw) {
    d.tempLine.Some? ==> d.connectingFrom.Some?
  }

  lemma StepKeepsPreviewSource(d: Draw, nodes: seq<Node>, e: CanvasEvent)
    requires PreviewHasSource(d)
    ensures PreviewHasSource(Step(d, nodes, e).draw)
  {
  }

  /** The invariant holds after any sequence of handler calls. */
  lemma {:induction false} RunKeepsPreviewSource(d: Draw, events: seq<Delivered>)
    requires PreviewHasSource(d)
    ensures PreviewHasSource(Run(d, events).draw)
    decreases |events|
  {
    if |events| > 0 {
      StepKeepsPreviewSource(d, events[0].nodes, events[0].event);
      RunKeepsPreviewSource(Step(d, events[0].nodes, events[0].event).draw, events[1..]);
    }
  }

  /** Ending a draw on the host stores: the connection is appended exactly
      when a truthy source differs from the target, and otherwise (a
      release on the source itself, or no source) nothing changes. */
  lemma ConnectEndOnStore(g: Graph, d: Draw, to: NodeId, connId: string)
    ensures ApplyAll(g, HandleConnectEnd(d, to).effects, connId)
            == Some(if Truthy(d.connectingFrom) && d.connectingFrom.value != to
                    then g.(connections := g.connections + [Connection(connId, d.connectingFrom.value, to)])
                    else g)
  {
  }

  /** Drawing the same edge twice keeps both copies: connections are not
      de-duplicated. */
  lemma DuplicateConnectionsKept(g: Graph, d: Draw, from: NodeId, to: NodeId, id1: string, id2: string)
    requires from != "" && from != to
    ensures var once := ApplyAll(g, HandleConnectEnd(HandleConnectStart(d, from), to).effects, id1);
            once.Some? &&
            var twice := ApplyAll(once.value, HandleConnectEnd(HandleConnectStart(InitialDraw, from), to).effects, id2);
            twice == Some(g.(connections := g.connections + [Connection(id1, from, to), Connection(id2, from, to)]))
  {
    ConnectEndOnStore(g, HandleConnectStart(d, from), to, id1);
    var once := g.(connections := g.connections + [Connection(id1, from, to)]);
    ConnectEndOnStore(once, HandleConnectStart(InitialDraw, from), to, id2);
    assert once.connections + [Connection(id2, from, to)]
           == g.connections + [Connection(id1, from, to), Connection(id2, from, to)];
  }

  /** Dragging node i by (dx, dy) moves exactly that node by the delta and
      leaves every other node, the connections and the selection alone. */
  lemma NodeDragOnStore(g: Graph, i: int, dx: int, dy: int, connId: string)
    requires UniqueIds(g.nodes) && 0 <= i < |g.nodes|
    ensures var r := ApplyAll(g, HandleNodeDrag(g.nodes, g.nodes[i].id, dx, dy), connId);
            && r.Some?
            && |r.value.nodes| == |g.nodes|
            && r.value.nodes[i] == g.nodes[i].(x := g.nodes[i].x + dx, y := g.nodes[i].y + dy)
            && (forall j :: 0 <= j < |g.nodes| && j != i ==> r.value.nodes[j] == g.nodes[j])
            && r.value.connections == g.connections && r.value.selected == g.selected
  {
    FindUnique(g.nodes, i);
    var e := UpdateNodePosition(g.nodes[i].id, g.nodes[i].x + dx, g.nodes[i].y + dy);
    assert HandleNodeDrag(g.nodes, g.nodes[i].id, dx, dy) == [e];
    assert ApplyAll(g, [e], connId) == Apply(g, e, connId);
  }

  /** A drag reported for an id no node carries changes nothing. */
  lemma NodeDragUnknownId(g: Graph, id: NodeId, dx: int, dy: int, connId: string)
    requires !HasId(g.nodes, id)
    ensures ApplyAll(g, HandleNodeDrag(g.nodes, id, dx, dy), connId) == Some(g)
  {
  }

  /** A background click leaves the stores without a selection and the
      canvas with no source and no preview. */
  lemma CanvasClickClears(g: Graph, d: Draw, connId: string)
    ensures var o := HandleCanvasClick(d);
            && ApplyAll(g, o.effects, connId) == Some(g.(selected := None))
            && o.draw.connectingFrom.None? && o.draw.tempLine.None?
  {
    assert ApplyAll(g, [SelectNode(None)], connId) == Apply(g, SelectNode(None), connId);
  }

  /** A body press asks the host to select exactly the pressed node. */
  lemma DragStartSelects(g: Graph, id: NodeId, connId: string)
    ensures ApplyAll(g, HandleNodeDragStart(id), connId) == Some(g.(selected := Some(id)))
  {
    assert ApplyAll(g, [SelectNode(Some(id))], connId) == Apply(g, SelectNode(Some(id)), connId);
  }

  /** Moves preview the edge that a release would create: after a start on
      `from` and a move, the preview begins where the edge to any target
      would begin. */
  lemma PreviewMatchesEdge(nodes: seq<Node>, i: int, j: int, d: Draw, client: Point, origin: Point)
    requires UniqueIds(nodes) && 0 <= i < |nodes| && 0 <= j < |nodes| && nodes[i].id != ""
    ensures var l := HandleMouseMove(HandleConnectStart(d, nodes[i].id), nodes, client, origin).tempLine;
            && l.Some?
            && Point(l.value.x1, l.value.y1) == EdgeCurve(nodes[i], nodes[j]).start
            && Point(l.value.x2, l.value.y2) == Point(client.x - origin.x, client.y - origin.y)
  {
    FindUnique(nodes, i);
  }

  // ---- Click routing ---------------------------------------------------

  /** Where the `click` that follows a press and release is dispatched: the
      nearest common ancestor of the two targets. A press and release on
      different nodes, or on a node and the background, land on the canvas
      element itself. */
  datatype ClickTarget =
    | InNodeBody(id: NodeId)
    | InConnector(id: NodeId)
    | InConfigInput(id: NodeId)
    | InDeleteButton(id: NodeId)
    | OnCanvas

  /** The canvas handlers a click reaches as wired. The connector, the
      configuration input and the delete button stop it (the delete button
      after forwarding to `onDeleteNode`); the node body does not, so a
      click anywhere else inside a node bubbles to the canvas's `onClick`. */
  function ClickAsWritten(t: ClickTarget): (r: seq<CanvasEvent>)
    ensures CanvasClick in r <==> t.InNodeBody? || t.OnCanvas?
    ensures t.InDeleteButton? ==> r == [DeleteRequest(t.id)]
    ensures !t.InDeleteButton? ==> forall k :: 0 <= k < |r| ==> !r[k].DeleteRequest?
  {
    match t
    case InNodeBody(_) => [CanvasClick]
    case InConnector(_) => []
    case InConfigInput(_) => []
    case InDeleteButton(id) => [DeleteRequest(id)]
    case OnCanvas => [CanvasClick]
  }

  /** The routing the selection highlight is written for: a click inside a
      node stays there, and only a click dispatched on the canvas itself
      deselects and cancels a draw. */
  function ClickIntended(t: ClickTarget): (r: seq<CanvasEvent>)
    ensures CanvasClick in r <==> t.OnCanvas?
    ensures t.InDeleteButton? ==> r == [DeleteRequest(t.id)]
    ensures !t.InDeleteButton? ==> forall k :: 0 <= k < |r| ==> !r[k].DeleteRequest?
  {
    match t
    case InDeleteButton(id) => [DeleteRequest(id)]
    case OnCanvas => [CanvasClick]
    case _ => []
  }

  /** The same `nodes` prop for every event of a gesture. */
  function Deliver(nodes: seq<Node>, es: seq<CanvasEvent>): (r: seq<Delivered>)
    ensures |r| == |es| && forall k :: 0 <= k < |r| ==> r[k] == Delivered(nodes, es[k])
  {
    seq(|es|, k requires 0 <= k < |es| => Delivered(nodes, es[k]))
  }

  /** A two-event gesture, unfolded: the second handler runs on the draw
      state the first one left, and the callbacks are made in order. */
  lemma RunPair(d: Draw, nodes: seq<Node>, a: CanvasEvent, b: CanvasEvent) returns (o: Outcome)
    ensures o == Run(d, Deliver(nodes, [a, b]))
    ensures var first := Step(d, nodes, a);
            var second := Step(first.draw, nodes, b);
            o == Outcome(second.draw, first.effects + second.effects)
  {
    var evs := Deliver(nodes, [a, b]);
    assert evs == [Delivered(nodes, a), Delivered(nodes, b)];
    var first := Step(d, nodes, a);
    var second := Step(first.draw, nodes, b);
    assert evs[1..] == [Delivered(nodes, b)] && evs[1..][1..] == [];
    assert Run(second.draw, evs[1..][1..]) == Outcome(second.draw, []);
    assert Run(first.draw, evs[1..]) == Outcome(second.draw, second.effects + []);
    o := Run(d, evs);
  }

  /** As wired, a press and release on a node's body leaves nothing
      selected: the press selects the node, and the click that follows
      bubbles to the canvas and clears the selection again. */
  lemma NodeClickDeselects(g: Graph, d: Draw, id: NodeId, connId: string)
    ensures var o := Run(d, Deliver(g.nodes, [NodeDragStart(id)] + ClickAsWritten(InNodeBody(id))));
            && o.draw == InitialDraw
            && ApplyAll(g, o.effects, connId) == Some(g.(selected := None))
  {
    assert [NodeDragStart(id)] + ClickAsWritten(InNodeBody(id)) == [NodeDragStart(id), CanvasClick];
    var o := RunPair(d, g.nodes, NodeDragStart(id), CanvasClick);
    assert o.effects == [SelectNode(Some(id)), SelectNode(None)];
    var g1 := g.(selected := Some(id));
    assert ApplyAll(g, o.effects, connId) == ApplyAll(g1, [SelectNode(None)], connId);
    assert ApplyAll(g1, [SelectNode(None)], connId) == Apply(g1, SelectNode(None), connId);
  }

  /** Under the intended routing, a press and release on node i's body
      leaves node i selected, and it is the one node rendered as selected;
      the draw state is untouched. */
  lemma NodeClickSelects(g: Graph, d: Draw, i: int, connId: string)
    requires UniqueIds(g.nodes) && 0 <= i < |g.nodes|
    ensures var id := g.nodes[i].id;
            var o := Run(d, Deliver(g.nodes, [NodeDragStart(id)] + ClickIntended(InNodeBody(id))));
            var r := ApplyAll(g, o.effects, connId);
            && o.draw == d
            && r == Some(g.(selected := Some(id)))
            && forall j :: 0 <= j < |g.nodes| ==>
                 (RenderNodes(g.nodes, r.value.selected, d.connectingFrom)[j].isSelected <==> j == i)
  {
    var id := g.nodes[i].id;
    assert [NodeDragStart(id)] + ClickIntended(InNodeBody(id)) == [NodeDragStart(id)];
    var evs := Deliver(g.nodes, [NodeDragStart(id)]);
    assert evs == [Delivered(g.nodes, NodeDragStart(id))];
    assert Run(d, evs) == Outcome(d, HandleNodeDragStart(id) + Run(d, evs[1..]).effects);
    assert evs[1..] == [];
    DragStartSelects(g, id, connId);
  }

  /** A draw started on a connector and released over the background is
      cancelled: the release reaches no handler, and the click that follows
      is dispatched on the canvas (under either routing). */
  lemma ConnectorReleaseOnCanvasCancels(g: Graph, d: Draw, id: NodeId, connId: string)
    ensures ClickIntended(OnCanvas) == ClickAsWritten(OnCanvas)
    ensures var o := Run(d, Deliver(g.nodes, [ConnectStart(id)] + ClickAsWritten(OnCanvas)));
            && o.draw == InitialDraw
            && ApplyAll(g, o.effects, connId) == Some(g.(selected := None))
  {
    assert [ConnectStart(id)] + ClickAsWritten(OnCanvas) == [ConnectStart(id), CanvasClick];
    var o := RunPair(d, g.nodes, ConnectStart(id), CanvasClick);
    assert o.effects == [SelectNode(None)];
    CanvasClickClears(g, HandleConnectStart(d, id), connId);
  }

  // ---- Rendering -------------------------------------------------------

  /** One drawn edge: its key, the curve and the dot at the target end. */
  datatype EdgeView = EdgeView(connId: string, curve: Cubic, dot: Point)

  /** Both ends of the connection are present. */
  predicate Drawable(nodes: seq<Node>, c: Connection) {
    HasId(nodes, c.from) && HasId(nodes, c.to)
  }

  /** The element `connections.map` returns for one connection: nothing when
      an endpoint is missing, otherwise the curve between the found nodes. */
  function EdgeOf(nodes: seq<Node>, c: Connection): (r: Option<EdgeView>)
    ensures r.Some? <==> Drawable(nodes, c)
    ensures r.Some? ==> r.value.connId == c.id && r.value.dot == r.value.curve.end
  {
    match (Find(nodes, c.from), Find(nodes, c.to))
    case (Some(a), Some(b)) => var curve := EdgeCurve(a, b); Some(EdgeView(c.id, curve, curve.end))
    case _ => None
  }

  /** With unique ids, the edge between nodes i and j is the curve between
      exactly those nodes. */
  lemma EdgeBetween(nodes: seq<Node>, c: Connection, i: int, j: int)
    requires UniqueIds(nodes) && 0 <= i < |nodes| && 0 <= j < |nodes|
    requires c.from == nodes[i].id && c.to == nodes[j].id
    ensures EdgeOf(nodes, c) == Some(EdgeView(c.id, EdgeCurve(nodes[i], nodes[j]), InputAnchor(nodes[j])))
  {
    FindUnique(nodes, i);
    FindUnique(nodes, j);
  }

  /** The edges drawn for `connections`, in order, skipping dangling ones. */
  function RenderEdges(nodes: seq<Node>, cs: seq<Connection>): (r: seq<EdgeView>)
    ensures |r| <= |cs|
    decreases |cs|
  {
    if |cs| == 0 then []
    else
      match EdgeOf(nodes, cs[0])
      case None => RenderEdges(nodes, cs[1..])
      case Some(e) => [e] + RenderEdges(nodes, cs[1..])
  }

  /** Every drawn edge is the edge of a drawable connection, found at
      index `i` of `cs`. */
  lemma {:induction false} RenderedEdgeHasConnection(nodes: seq<Node>, cs: seq<Connection>, k: int) returns (i: int)
    requires 0 <= k < |RenderEdges(nodes, cs)|
    ensures 0 <= i < |cs| && Drawable(nodes, cs[i]) && EdgeOf(nodes, cs[i]) == Some(RenderEdges(nodes, cs)[k])
    decreases |cs|
  {
    var r := RenderEdges(nodes, cs);
    var rest := RenderEdges(nodes, cs[1..]);
    var head := EdgeOf(nodes, cs[0]);
    assert r == if head.Some? then [head.value] + rest else rest;
    if head.Some? && k == 0 {
      i := 0;
    } else {
      var k' := if head.Some? then k - 1 else k;
      assert r[k] == rest[k'];
      var i' := RenderedEdgeHasConnection(nodes, cs[1..], k');
      i := i' + 1;
      assert cs[i] == cs[1..][i'];
    }
  }

  /** Every drawable connection is drawn, at index `k` of the edges. */
  lemma {:induction false} DrawableConnectionRendered(nodes: seq<Node>, cs: seq<Connection>, i: int) returns (k: int)
    requires 0 <= i < |cs| && Drawable(nodes, cs[i])
    ensures 0 <= k < |RenderEdges(nodes, cs)| && EdgeOf(nodes, cs[i]) == Some(RenderEdges(nodes, cs)[k])
    decreases |cs|
  {
    var r := RenderEdges(nodes, cs);
    var rest := RenderEdges(nodes, cs[1..]);
    var head := EdgeOf(nodes, cs[0]);
    assert r == if head.Some? then [head.value] + rest else rest;
    if i == 0 {
      k := 0;
    } else {
      assert cs[i] == cs[1..][i - 1];
      var k' := DrawableConnectionRendered(nodes, cs[1..], i - 1);
      if head.Some? {
        k := k' + 1;
        assert r[k] == rest[k'];
      } else {
        k := k';
      }
    }
  }

  /** When no endpoint is missing, every connection is drawn, in order. */
  lemma {:induction false} AllDrawableAllRendered(nodes: seq<Node>, cs: seq<Connection>)
    requires forall i :: 0 <= i < |cs| ==> Drawable(nodes, cs[i])
    ensures |RenderEdges(nodes, cs)| == |cs|
    ensures forall i :: 0 <= i < |cs| ==> EdgeOf(nodes, cs[i]) == Some(RenderEdges(nodes, cs)[i])
    decreases |cs|
  {
    if |cs| > 0 {
      assert Drawable(nodes, cs[0]);
      var head := EdgeOf(nodes, cs[0]);
      var rest := RenderEdges(nodes, cs[1..]);
      assert head.Some?;
      assert RenderEdges(nodes, cs) == [head.value] + rest;
      assert forall i :: 0 <= i < |cs[1..]| ==> cs[1..][i] == cs[i + 1];
      AllDrawableAllRendered(nodes, cs[1..]);
      assert forall i :: 1 <= i < |cs| ==> RenderEdges(nodes, cs)[i] == rest[i - 1];
    }
  }

  /** An empty canvas draws no edges, whatever connections remain. */
  lemma {:induction false} NoNodesNoEdges(cs: seq<Connection>)
    ensures RenderEdges([], cs) == []
    decreases |cs|
  {
    if |cs| > 0 {
      assert !HasId([], cs[0].from);
      NoNodesNoEdges(cs[1..]);
    }
  }

  /** A connection with a missing endpoint is never drawn: no drawn edge
      carries its key (connection keys being unique). */
  lemma DanglingEdgeHidden(nodes: seq<Node>, cs: seq<Connection>, i: int, k: int)
    requires 0 <= i < |cs| && !Drawable(nodes, cs[i])
    requires forall a, b :: 0 <= a < b < |cs| ==> cs[a].id != cs[b].id
    requires 0 <= k < |RenderEdges(nodes, cs)|
    ensures RenderEdges(nodes, cs)[k].connId != cs[i].id
  {
    var a := RenderedEdgeHasConnection(nodes, cs, k);
    assert a != i;
  }

  /** The props a rendered node receives. */
  datatype NodeView = NodeView(node: Node, color: string, isSelected: bool, isConnecting: bool)

  function RenderNodes(nodes: seq<Node>, selected: Option<NodeId>, connectingFrom: Option<NodeId>): (r: seq<NodeView>)
    ensures |r| == |nodes|
    ensures forall i :: 0 <= i < |r| ==>
              && r[i].node == nodes[i]
              && r[i].color == NodeStyle.ColorOf(nodes[i].nodeType)
              && (r[i].isSelected <==> selected == Some(nodes[i].id))
              && (r[i].isConnecting <==> connectingFrom.Some?)
  {
    seq(|nodes|, i requires 0 <= i < |nodes| =>
      NodeView(nodes[i], NodeStyle.ColorOf(nodes[i].nodeType), selected == Some(nodes[i].id), connectingFrom.Some?))
  }

  /** With unique ids at most one node is highlighted, and it is the
      selected one; a selection naming no node highlights nothing. */
  lemma SelectionHighlightsOne(nodes: seq<Node>, selected: Option<NodeId>, connectingFrom: Option<NodeId>)
    requires UniqueIds(nodes)
    ensures var r := RenderNodes(nodes, selected, connectingFrom);
            && (forall i, j :: 0 <= i < |r| && 0 <= j < |r| && r[i].isSelected && r[j].isSelected ==> i == j)
            && (forall i :: 0 <= i < |r| && r[i].isSelected ==> selected == Some(nodes[i].id))
            && ((exists i :: 0 <= i < |r| && r[i].isSelected) <==> selected.Some? && HasId(nodes, selected.value))
  {
    var r := RenderNodes(nodes, selected, connectingFrom);
    if selected.Some? && HasId(nodes, selected.value) {
      var i :| 0 <= i < |nodes| && nodes[i].id == selected.value;
      assert r[i].isSelected;
    }
  }

  /** Everything one render of the canvas shows. */
  datatype CanvasView = CanvasView(edges: seq<EdgeView>, preview: Option<Line>, placeholder: bool, nodes: seq<NodeView>)

  function Render(g: Graph, d: Draw): (v: CanvasView)
    ensures v.placeholder <==> |g.nodes| == 0
    ensures v.preview == d.tempLine
    ensures |v.nodes| == |g.nodes| && |v.edges| <= |g.connections|
    ensures |g.nodes| == 0 ==> v.edges == []
  {
    var edges := RenderEdges(g.nodes, g.connections);
    if |g.nodes| == 0 then
      NoNodesNoEdges(g.connections);
      CanvasView(edges, d.tempLine, true, [])
    else
      CanvasView(edges, d.tempLine, false, RenderNodes(g.nodes, g.selected, d.connectingFrom))
  }
}
