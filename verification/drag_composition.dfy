/** A whole drag, end to end: the node's move listeners report deltas, the
    canvas's drag handler turns each into a position update, and the host
    store applies it. What differs between the two compositions below is
    which `nodes` list the drag handler reads. The window listener installed
    at the press keeps the `onDrag` of the render current at that press, and
    that handler reads the node list of the same render. */
module DragComposition {
  import opened Wrappers
  import opened Workflow
  import opened Store
  import Canvas
  import NodeInteraction

  /** Applies the host callbacks; drag handling only ever produces position
      updates, which always apply. */
  function Perform(g: Graph, effects: seq<Effect>): Graph {
    ApplyAll(g, effects, "").GetOr(g)
  }

  /** The intended composition: every reported delta is added to the node's
      position as it stands in the store at that moment. */
  function LiveDrag(g: Graph, cbs: seq<NodeInteraction.Callback>): Graph
    decreases |cbs|
  {
    if |cbs| == 0 then g
    else
      var g' := if cbs[0].Drag? then Perform(g, Canvas.HandleNodeDrag(g.nodes, cbs[0].id, cbs[0].dx, cbs[0].dy)) else g;
      LiveDrag(g', cbs[1..])
  }

  /** The composition as the code is wired: every reported delta is added to
      the node's position in `snapshot`, the node list of the render in
      which the drag began. */
  function StaleDrag(snapshot: seq<Node>, g: Graph, cbs: seq<NodeInteraction.Callback>): Graph
    decreases |cbs|
  {
    if |cbs| == 0 then g
    else
      var g' := if cbs[0].Drag? then Perform(g, Canvas.HandleNodeDrag(snapshot, cbs[0].id, cbs[0].dx, cbs[0].dy)) else g;
      StaleDrag(snapshot, g', cbs[1..])
  }

  /** All callbacks are drags of node `id`. */
  predicate DragsOf(cbs: seq<NodeInteraction.Callback>, id: NodeId) {
    forall k :: 0 <= k < |cbs| ==> cbs[k].Drag? && cbs[k].id == id
  }

  /** One drag handled against the current store: node i moves by the
      delta, and the ids, the other nodes, the connections and the
      selection are kept. */
  lemma LiveStep(g: Graph, i: int, c: NodeInteraction.Callback)
    requires UniqueIds(g.nodes) && 0 <= i < |g.nodes| && c.Drag? && c.id == g.nodes[i].id
    ensures var r := Perform(g, Canvas.HandleNodeDrag(g.nodes, c.id, c.dx, c.dy));
            && |r.nodes| == |g.nodes|
            && r.nodes[i] == g.nodes[i].(x := g.nodes[i].x + c.dx, y := g.nodes[i].y + c.dy)
            && (forall j :: 0 <= j < |g.nodes| && j != i ==> r.nodes[j] == g.nodes[j])
            && (forall j :: 0 <= j < |g.nodes| ==> r.nodes[j].id == g.nodes[j].id)
            && r.connections == g.connections && r.selected == g.selected
  {
    Canvas.NodeDragOnStore(g, i, c.dx, c.dy, "");
  }

  /** Live composition: node i ends at its start plus the summed deltas;
      every other node, the ids, the connections and the selection are
      unchanged. */
  lemma {:induction false} LiveDragAddsDeltas(g: Graph, i: int, cbs: seq<NodeInteraction.Callback>)
    requires UniqueIds(g.nodes) && 0 <= i < |g.nodes| && DragsOf(cbs, g.nodes[i].id)
    ensures var r := LiveDrag(g, cbs);
            && |r.nodes| == |g.nodes|
            && r.nodes[i] == g.nodes[i].(x := g.nodes[i].x + NodeInteraction.SumDx(cbs),
                                         y := g.nodes[i].y + NodeInteraction.SumDy(cbs))
            && (forall j :: 0 <= j < |g.nodes| && j != i ==> r.nodes[j] == g.nodes[j])
            && r.connections == g.connections && r.selected == g.selected
    decreases |cbs|
  {
    if |cbs| > 0 {
      var c := cbs[0];
      var g' := Perform(g, Canvas.HandleNodeDrag(g.nodes, c.id, c.dx, c.dy));
      assert LiveDrag(g, cbs) == LiveDrag(g', cbs[1..]);
      assert NodeInteraction.SumDx(cbs) == c.dx + NodeInteraction.SumDx(cbs[1..]);
      assert NodeInteraction.SumDy(cbs) == c.dy + NodeInteraction.SumDy(cbs[1..]);
      LiveStep(g, i, c);
      assert UniqueIds(g'.nodes);
      assert DragsOf(cbs[1..], g'.nodes[i].id) by {
        assert forall k :: 0 <= k < |cbs[1..]| ==> cbs[1..][k] == cbs[k + 1];
      }
      LiveDragAddsDeltas(g', i, cbs[1..]);
    }
  }

  /** One drag handled against `snapshot`: node i is set to its snapshot
      position plus the delta, whatever the store held. */
  lemma StaleStep(snapshot: seq<Node>, g: Graph, i: int, c: NodeInteraction.Callback)
    requires UniqueIds(snapshot) && 0 <= i < |snapshot| && |g.nodes| == |snapshot|
    requires forall j :: 0 <= j < |snapshot| ==> g.nodes[j].id == snapshot[j].id
    requires c.Drag? && c.id == snapshot[i].id
    ensures var r := Perform(g, Canvas.HandleNodeDrag(snapshot, c.id, c.dx, c.dy));
            && |r.nodes| == |g.nodes|
            && r.nodes[i] == g.nodes[i].(x := snapshot[i].x + c.dx, y := snapshot[i].y + c.dy)
            && (forall j :: 0 <= j < |g.nodes| && j != i ==> r.nodes[j] == g.nodes[j])
  {
    FindUnique(snapshot, i);
    var e := UpdateNodePosition(snapshot[i].id, snapshot[i].x + c.dx, snapshot[i].y + c.dy);
    assert Canvas.HandleNodeDrag(snapshot, c.id, c.dx, c.dy) == [e];
    assert ApplyAll(g, [e], "") == Apply(g, e, "");
    assert forall j :: 0 <= j < |g.nodes| && j != i ==> g.nodes[j].id != snapshot[i].id;
  }

  /** As wired: after a non-empty run of drags, node i sits at its press-time
      position plus the LAST reported delta only; others are unchanged. */
  lemma {:induction false} StaleDragKeepsLastDelta(snapshot: seq<Node>, g: Graph, i: int, cbs: seq<NodeInteraction.Callback>)
    requires UniqueIds(snapshot) && 0 <= i < |snapshot| && |g.nodes| == |snapshot|
    requires forall j :: 0 <= j < |snapshot| ==> g.nodes[j].id == snapshot[j].id
    requires |cbs| > 0 && DragsOf(cbs, snapshot[i].id)
    ensures var r := StaleDrag(snapshot, g, cbs);
            var last := cbs[|cbs| - 1];
            && |r.nodes| == |g.nodes|
            && r.nodes[i] == g.nodes[i].(x := snapshot[i].x + last.dx, y := snapshot[i].y + last.dy)
            && (forall j :: 0 <= j < |g.nodes| && j != i ==> r.nodes[j] == g.nodes[j])
    decreases |cbs|
  {
    var c := cbs[0];
    StaleStep(snapshot, g, i, c);
    var g' := Perform(g, Canvas.HandleNodeDrag(snapshot, c.id, c.dx, c.dy));
    assert StaleDrag(snapshot, g, cbs) == StaleDrag(snapshot, g', cbs[1..]);
    if |cbs| > 1 {
      assert forall j :: 0 <= j < |snapshot| ==> g'.nodes[j].id == snapshot[j].id;
      assert DragsOf(cbs[1..], snapshot[i].id) by {
        assert forall k :: 0 <= k < |cbs[1..]| ==> cbs[1..][k] == cbs[k + 1];
      }
      StaleDragKeepsLastDelta(snapshot, g', i, cbs[1..]);
      assert cbs[1..][|cbs[1..]| - 1] == cbs[|cbs| - 1];
    }
  }

  /** The intended end-to-end behaviour: a body press on node i at `press`
      and moves through `ps` leave node i at its start plus the pointer's
      total displacement, and nothing else moves. */
  lemma DragFollowsPointer(g: Graph, i: int, isConnecting: bool, press: Point, ps: seq<Point>)
    requires UniqueIds(g.nodes) && 0 <= i < |g.nodes| && |ps| > 0
    ensures var id := g.nodes[i].id;
            var started := NodeInteraction.Step(NodeInteraction.Idle, id, isConnecting, NodeInteraction.Press(NodeInteraction.NodeBody, press));
            var r := LiveDrag(g, NodeInteraction.Moves(started.session, id, ps).callbacks);
            var final := ps[|ps| - 1];
            && |r.nodes| == |g.nodes|
            && r.nodes[i] == g.nodes[i].(x := g.nodes[i].x + final.x - press.x, y := g.nodes[i].y + final.y - press.y)
            && (forall j :: 0 <= j < |g.nodes| && j != i ==> r.nodes[j] == g.nodes[j])
  {
    var id := g.nodes[i].id;
    var started := NodeInteraction.Step(NodeInteraction.Idle, id, isConnecting, NodeInteraction.Press(NodeInteraction.NodeBody, press));
    NodeInteraction.DragSession(id, isConnecting, press, ps, NodeInteraction.OffNodes, []);
    NodeInteraction.MovesReportOnlyDrags(started.session, id, ps);
    LiveDragAddsDeltas(g, i, NodeInteraction.Moves(started.session, id, ps).callbacks);
  }

  /** A sample drag: start (100, 100), press at (0, 0), moves to (10, 0),
      (10, 10), (5, 15), that is, deltas (10, 0), (0, 10), (-5, 5). The two
      lemmas below take the graph, press and moves as parameters pinned to
      these constants by their `requires`, so the solver reasons about the
      sample through the general lemmas instead of unfolding the literals. */
  const ExampleNode: Node := Node("n1", "web-scrape", "Web Scrape", 100, 100)
  const ExampleGraph: Graph := Graph([ExampleNode], [], None)
  const ExampleMoves: seq<Point> := [Point(10, 0), Point(10, 10), Point(5, 15)]

  /** Intended: the example ends at (105, 115). */
  lemma ExampleLive(g: Graph, press: Point, ps: seq<Point>)
    requires g == ExampleGraph && press == Point(0, 0) && ps == ExampleMoves
    ensures var id := g.nodes[0].id;
            var started := NodeInteraction.Step(NodeInteraction.Idle, id, false, NodeInteraction.Press(NodeInteraction.NodeBody, press));
            var r := LiveDrag(g, NodeInteraction.Moves(started.session, id, ps).callbacks);
            |r.nodes| == 1 && r.nodes[0] == ExampleNode.(x := 105, y := 115)
  {
    assert UniqueIds(g.nodes) && |ps| == 3 && ps[2] == Point(5, 15);
    DragFollowsPointer(g, 0, false, press, ps);
  }

  /** As wired: the example ends at (95, 105), the press-time position plus
      the last delta (-5, 5). */
  lemma ExampleStale(g: Graph, press: Point, ps: seq<Point>)
    requires g == ExampleGraph && press == Point(0, 0) && ps == ExampleMoves
    ensures var id := g.nodes[0].id;
            var started := NodeInteraction.Step(NodeInteraction.Idle, id, false, NodeInteraction.Press(NodeInteraction.NodeBody, press));
            var r := StaleDrag(g.nodes, g, NodeInteraction.Moves(started.session, id, ps).callbacks);
            |r.nodes| == 1 && r.nodes[0] == ExampleNode.(x := 95, y := 105)
  {
    var id := g.nodes[0].id;
    var started := NodeInteraction.Step(NodeInteraction.Idle, id, false, NodeInteraction.Press(NodeInteraction.NodeBody, press));
    var cbs := NodeInteraction.Moves(started.session, id, ps).callbacks;
    assert |ps| == 3 && ps[2] == Point(5, 15) && ps[1] == Point(10, 10);
    NodeInteraction.MovesReportOnlyDrags(started.session, id, ps);
    NodeInteraction.SingleListenerLastReport(started.session, id, ps);
    StaleDragKeepsLastDelta(g.nodes, g, 0, cbs);
  }
}
