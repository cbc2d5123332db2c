/** One rendered node's pointer handling: which press starts a drag, the
    window listeners a drag installs, the deltas they report, and the
    connector and release callbacks. The window's listener list is modelled
    by the number of move/up pairs currently installed; all pairs of one
    node share a single `dragStartPos` reference, which `last` holds. */
module NodeInteraction {
  import opened Workflow

  /** Where a mouse-down on the node lands. The delete button lies inside
      `.node-actions`; the output connector stops propagation before the
      node body's handler runs; anywhere else is the body. */
  datatype PressTarget = NodeActions | OutputConnector | NodeBody

  datatype NodeEvent =
    | Press(target: PressTarget, pointer: Point)
    | WindowMove(pointer: Point)
    | WindowUp
    | NodeMouseUp
    | DeleteClick

  /** The props callbacks the node invokes. */
  datatype Callback =
    | DragStart
    | Drag(id: NodeId, dx: int, dy: int)
    | ConnectStart
    | ConnectEnd
    | Delete

  /** `isDragging`, the `dragStartPos` reference and the number of installed
      listener pairs. */
  datatype Session = Session(isDragging: bool, last: Point, listeners: nat)

  /** A freshly mounted node: not dragging, reference at (0, 0), no listeners. */
  const Idle: Session := Session(false, Point(0, 0), 0)

  /** Listeners are installed exactly while the node shows as dragging. */
  predicate Valid(s: Session) {
    s.isDragging <==> s.listeners > 0
  }

  datatype StepResult = StepResult(session: Session, callbacks: seq<Callback>)

  /** The deltas reported by installed move listeners after the first one:
      the shared reference already holds the new pointer, so they are zero. */
  function Zeros(id: NodeId, n: nat): seq<Callback> {
    seq(n, _ => Drag(id, 0, 0))
  }

  /** A window mouse-move: every installed move listener runs in turn. */
  function MoveStep(s: Session, id: NodeId, p: Point): (r: StepResult)
    ensures r.session.listeners == s.listeners && r.session.isDragging == s.isDragging
    ensures s.listeners == 0 ==> r == StepResult(s, [])
    ensures s.listeners > 0 ==>
              && r.session.last == p
              && |r.callbacks| == s.listeners
              && r.callbacks[0] == Drag(id, p.x - s.last.x, p.y - s.last.y)
              && forall k :: 1 <= k < |r.callbacks| ==> r.callbacks[k] == Drag(id, 0, 0)
  {
    if s.listeners == 0 then StepResult(s, [])
    else StepResult(s.(last := p), [Drag(id, p.x - s.last.x, p.y - s.last.y)] + Zeros(id, s.listeners - 1))
  }

  /** The node `id` handles one event; `isConnecting` is the prop of the
      current render. */
  function Step(s: Session, id: NodeId, isConnecting: bool, e: NodeEvent): (r: StepResult)
    ensures Valid(s) ==> Valid(r.session)
    ensures e.Press? && e.target == NodeActions ==> r == StepResult(s, [])
    ensures e.Press? && e.target == OutputConnector ==> r == StepResult(s, [ConnectStart])
    ensures e.Press? && e.target == NodeBody ==>
              && r.callbacks == [DragStart]
              && r.session == Session(true, e.pointer, s.listeners + 1)
    ensures e.WindowUp? ==> r.callbacks == [] && !r.session.isDragging && r.session.listeners == 0
    ensures e.NodeMouseUp? ==> r.session == s && (r.callbacks == [ConnectEnd] <==> isConnecting)
                               && (r.callbacks == [] <==> !isConnecting)
    ensures e.DeleteClick? ==> r == StepResult(s, [Delete])
    ensures DragStart in r.callbacks <==> e.Press? && e.target == NodeBody
    ensures ConnectStart in r.callbacks <==> e.Press? && e.target == OutputConnector
  {
    match e
    case Press(target, p) =>
      (match target
       case NodeActions => StepResult(s, [])
       case OutputConnector => StepResult(s, [ConnectStart])
       case NodeBody => StepResult(Session(true, p, s.listeners + 1), [DragStart]))
    case WindowMove(p) => MoveStep(s, id, p)
    case WindowUp => StepResult(s.(isDragging := false, listeners := 0), [])
    case NodeMouseUp => StepResult(s, if isConnecting then [ConnectEnd] else [])
    case DeleteClick => StepResult(s, [Delete])
  }

  /** A run of events, collecting the callbacks in order. */
  function Run(s: Session, id: NodeId, isConnecting: bool, events: seq<NodeEvent>): StepResult
    decreases |events|
  {
    if |events| == 0 then StepResult(s, [])
    else
      var first := Step(s, id, isConnecting, events[0]);
      var rest := Run(first.session, id, isConnecting, events[1..]);
      StepResult(rest.session, first.callbacks + rest.callbacks)
  }

  /** Whatever happens, listeners are installed exactly while dragging. */
  lemma {:induction false} RunPreservesValid(s: Session, id: NodeId, isConnecting: bool, events: seq<NodeEvent>)
    requires Valid(s)
    ensures Valid(Run(s, id, isConnecting, events).session)
    decreases |events|
  {
    if |events| > 0 {
      RunPreservesValid(Step(s, id, isConnecting, events[0]).session, id, isConnecting, events[1..]);
    }
  }

  /** A sequence of window mouse-moves through the pointers `ps`. */
  function Moves(s: Session, id: NodeId, ps: seq<Point>): StepResult
    decreases |ps|
  {
    if |ps| == 0 then StepResult(s, [])
    else
      var first := MoveStep(s, id, ps[0]);
      var rest := Moves(first.session, id, ps[1..]);
      StepResult(rest.session, first.callbacks + rest.callbacks)
  }

  /** Total horizontal and vertical delta reported through `onDrag`. */
  function SumDx(cbs: seq<Callback>): int
    decreases |cbs|
  {
    if |cbs| == 0 then 0 else (if cbs[0].Drag? then cbs[0].dx else 0) + SumDx(cbs[1..])
  }

  function SumDy(cbs: seq<Callback>): int
    decreases |cbs|
  {
    if |cbs| == 0 then 0 else (if cbs[0].Drag? then cbs[0].dy else 0) + SumDy(cbs[1..])
  }

  lemma {:induction false} SumAppend(a: seq<Callback>, b: seq<Callback>)
    ensures SumDx(a + b) == SumDx(a) + SumDx(b)
    ensures SumDy(a + b) == SumDy(a) + SumDy(b)
    decreases |a|
  {
    if |a| == 0 {
      assert a + b == b;
    } else {
      assert (a + b)[1..] == a[1..] + b;
      SumAppend(a[1..], b);
    }
  }

  lemma {:induction false} SumZeros(id: NodeId, n: nat)
    ensures SumDx(Zeros(id, n)) == 0 && SumDy(Zeros(id, n)) == 0
    decreases n
  {
    if n > 0 {
      assert Zeros(id, n)[1..] == Zeros(id, n - 1);
      SumZeros(id, n - 1);
    }
  }

  /** One move reports exactly the pointer's displacement since the last
      recorded position, however many listener pairs are installed. */
  lemma MoveStepDelta(s: Session, id: NodeId, p: Point)
    requires s.listeners > 0
    ensures SumDx(MoveStep(s, id, p).callbacks) == p.x - s.last.x
    ensures SumDy(MoveStep(s, id, p).callbacks) == p.y - s.last.y
  {
    var z := Zeros(id, s.listeners - 1);
    SumAppend([Drag(id, p.x - s.last.x, p.y - s.last.y)], z);
    SumZeros(id, s.listeners - 1);
  }

  /** The deltas of a drag telescope: over any non-empty run of moves they
      add up to the final pointer minus the position recorded before it. */
  lemma {:induction false} MovesTelescope(s: Session, id: NodeId, ps: seq<Point>)
    requires s.listeners > 0 && |ps| > 0
    ensures var r := Moves(s, id, ps);
            && SumDx(r.callbacks) == ps[|ps| - 1].x - s.last.x
            && SumDy(r.callbacks) == ps[|ps| - 1].y - s.last.y
            && r.session == s.(last := ps[|ps| - 1])
    decreases |ps|
  {
    var first := MoveStep(s, id, ps[0]);
    var rest := Moves(first.session, id, ps[1..]);
    MoveStepDelta(s, id, ps[0]);
    SumAppend(first.callbacks, rest.callbacks);
    if |ps| > 1 {
      MovesTelescope(first.session, id, ps[1..]);
      assert ps[1..][|ps[1..]| - 1] == ps[|ps| - 1];
    }
  }

  /** With no listener installed, moves report nothing and change nothing. */
  lemma {:induction false} MovesWhenReleased(s: Session, id: NodeId, ps: seq<Point>)
    requires s.listeners == 0
    ensures Moves(s, id, ps) == StepResult(s, [])
    decreases |ps|
  {
    if |ps| > 0 {
      MovesWhenReleased(s, id, ps[1..]);
    }
  }

  /** Moves report nothing but drags of this node. */
  lemma {:induction false} MovesReportOnlyDrags(s: Session, id: NodeId, ps: seq<Point>)
    ensures forall k :: 0 <= k < |Moves(s, id, ps).callbacks| ==>
              Moves(s, id, ps).callbacks[k].Drag? && Moves(s, id, ps).callbacks[k].id == id
    decreases |ps|
  {
    if |ps| > 0 {
      var first := MoveStep(s, id, ps[0]);
      MovesReportOnlyDrags(first.session, id, ps[1..]);
      var rest := Moves(first.session, id, ps[1..]);
      assert Moves(s, id, ps).callbacks == first.callbacks + rest.callbacks;
    }
  }

  /** With one listener pair, each move reports one delta, and the last
      report is the displacement between the last two pointers. */
  lemma {:induction false} SingleListenerLastReport(s: Session, id: NodeId, ps: seq<Point>)
    requires s.listeners == 1 && |ps| >= 2
    ensures var cbs := Moves(s, id, ps).callbacks;
            && |cbs| == |ps|
            && cbs[|cbs| - 1] == Drag(id, ps[|ps| - 1].x - ps[|ps| - 2].x, ps[|ps| - 1].y - ps[|ps| - 2].y)
    decreases |ps|
  {
    var first := MoveStep(s, id, ps[0]);
    var rest := Moves(first.session, id, ps[1..]);
    assert |first.callbacks| == 1;
    if |ps| == 2 {
      var second := MoveStep(first.session, id, ps[1]);
      assert Moves(second.session, id, ps[1..][1..]) == StepResult(second.session, []);
      assert rest.callbacks == second.callbacks;
    } else {
      SingleListenerLastReport(first.session, id, ps[1..]);
    }
  }

  /** Where a mouse-up happens, seen from a node that may be dragging: over
      this node, over another node, or away from every node. */
  datatype ReleaseSpot = OverThisNode | OverOtherNode | OffNodes

  /** The events a mouse-up delivers to this node as the code is wired. A
      node's `onMouseUp` handler stops propagation, and React dispatches
      below `window`, so the window listener installed by a drag runs only
      for a release away from every node. */
  function ReleaseAsWritten(spot: ReleaseSpot): (r: seq<NodeEvent>)
    ensures WindowUp in r <==> spot == OffNodes
    ensures NodeMouseUp in r <==> spot == OverThisNode
  {
    match spot
    case OverThisNode => [NodeMouseUp]
    case OverOtherNode => []
    case OffNodes => [WindowUp]
  }

  /** The routing the drag listeners are written for: the window listener
      sees every mouse-up, after the node's own handler when the release is
      over this node. */
  function ReleaseIntended(spot: ReleaseSpot): (r: seq<NodeEvent>)
    ensures |r| > 0 && r[|r| - 1] == WindowUp
    ensures NodeMouseUp in r <==> spot == OverThisNode
  {
    match spot
    case OverThisNode => [NodeMouseUp, WindowUp]
    case OverOtherNode => [WindowUp]
    case OffNodes => [WindowUp]
  }

  /** As wired, a drag released over any node stays live: the node still
      shows as dragging, its listeners stay installed, and the next window
      move reports the pointer's displacement from the press. Only a release
      away from every node ends it. */
  lemma ReleaseOverNodeKeepsDragging(id: NodeId, isConnecting: bool, press: Point, spot: ReleaseSpot, p: Point)
    ensures var started := Step(Idle, id, isConnecting, Press(NodeBody, press));
            var released := Run(started.session, id, isConnecting, ReleaseAsWritten(spot));
            var after := MoveStep(released.session, id, p);
            && (released.session.isDragging <==> spot != OffNodes)
            && (spot != OffNodes ==> after.callbacks == [Drag(id, p.x - press.x, p.y - press.y)])
            && (spot == OffNodes ==> after.callbacks == [])
  {
    var started := Step(Idle, id, isConnecting, Press(NodeBody, press));
    var evs := ReleaseAsWritten(spot);
    var released := Run(started.session, id, isConnecting, evs);
    if spot == OverThisNode {
      assert Run(Step(started.session, id, isConnecting, NodeMouseUp).session, id, isConnecting, evs[1..])
             == StepResult(started.session, []);
      assert released.session == started.session;
    } else if spot == OffNodes {
      assert evs[1..] == [];
    }
  }

  /** A body press followed by moves reports, in total, the final pointer
      minus the press pointer; a release, wherever it happens, reports a
      connect-end only over this node while connecting, and stops all
      further reports. */
  lemma DragSession(id: NodeId, isConnecting: bool, press: Point, ps: seq<Point>, spot: ReleaseSpot, later: seq<Point>)
    requires |ps| > 0
    ensures var started := Step(Idle, id, isConnecting, Press(NodeBody, press));
            var moved := Moves(started.session, id, ps);
            var released := Run(moved.session, id, isConnecting, ReleaseIntended(spot));
            && started.callbacks == [DragStart]
            && SumDx(moved.callbacks) == ps[|ps| - 1].x - press.x
            && SumDy(moved.callbacks) == ps[|ps| - 1].y - press.y
            && (released.callbacks == [ConnectEnd] <==> spot == OverThisNode && isConnecting)
            && (released.callbacks == [] <==> !(spot == OverThisNode && isConnecting))
            && !released.session.isDragging
            && Moves(released.session, id, later).callbacks == []
  {
    var started := Step(Idle, id, isConnecting, Press(NodeBody, press));
    MovesTelescope(started.session, id, ps);
    var moved := Moves(started.session, id, ps);
    var evs := ReleaseIntended(spot);
    var released := Run(moved.session, id, isConnecting, evs);
    var up := Step(moved.session, id, isConnecting, WindowUp);
    if spot == OverThisNode {
      var first := Step(moved.session, id, isConnecting, NodeMouseUp);
      assert evs[1..] == [WindowUp] && evs[1..][1..] == [];
      assert first.session == moved.session;
      var tail := Run(moved.session, id, isConnecting, [WindowUp]);
      assert Run(up.session, id, isConnecting, []) == StepResult(up.session, []);
      assert tail == StepResult(up.session, up.callbacks + []);
      assert released == StepResult(tail.session, first.callbacks + tail.callbacks);
    } else {
      assert evs == [WindowUp] && evs[1..] == [];
      assert Run(up.session, id, isConnecting, []) == StepResult(up.session, []);
      assert released == StepResult(up.session, up.callbacks + []);
    }
    MovesWhenReleased(up.session, id, later);
  }
}
