/** Where edges attach to nodes, and the curve drawn for an edge. The
    constants are the ones the canvas code uses: nodes are 240 pixels wide,
    the output anchor is offset (120, 40) from the top-left corner (the
    horizontal centre of the node, not its right edge) and the input anchor
    (0, 40). */
module Geometry {
  import opened Workflow

  /** Width of a rendered node. */
  const NodeWidth: int := 240
  /** Horizontal offset of the output anchor used by the edge and preview code. */
  const OutputOffsetX: int := 120
  /** Vertical offset of both anchors. */
  const AnchorOffsetY: int := 40

  function OutputAnchor(n: Node): (p: Point)
    ensures 2 * (p.x - n.x) == NodeWidth
    ensures p.y == n.y + AnchorOffsetY
  {
    Point(n.x + OutputOffsetX, n.y + AnchorOffsetY)
  }

  function InputAnchor(n: Node): (p: Point)
    ensures p.x == n.x && p.y == n.y + AnchorOffsetY
  {
    Point(n.x, n.y + AnchorOffsetY)
  }

  /** The SVG path `M x1 y1 C cx1 cy1, cx2 cy2, x2 y2`; the control x may be
      a half pixel, so it is a real. */
  datatype Cubic = Cubic(start: Point, c1x: real, c1y: int, c2x: real, c2y: int, end: Point)

  /** A straight segment, the dashed preview `M x1 y1 L x2 y2`. */
  datatype Line = Line(x1: int, y1: int, x2: int, y2: int)

  function Min(a: int, b: int): int { if a <= b then a else b }
  function Max(a: int, b: int): int { if a <= b then b else a }

  /** `(x1 + x2) / 2` in JavaScript number arithmetic. */
  function MidX(x1: int, x2: int): (m: real)
    ensures 2.0 * m == (x1 + x2) as real
    ensures Min(x1, x2) as real <= m <= Max(x1, x2) as real
  {
    (x1 + x2) as real / 2.0
  }

  /** The curve of an edge: from the output anchor of `from` to the input
      anchor of `to`, with horizontal tangents at both ends. */
  function EdgeCurve(from: Node, to: Node): (c: Cubic)
    ensures c.start == OutputAnchor(from) && c.end == InputAnchor(to)
    ensures c.c1y == c.start.y && c.c2y == c.end.y
    ensures c.c1x == c.c2x
    ensures 2.0 * c.c1x == (c.start.x + c.end.x) as real
    ensures Min(c.start.x, c.end.x) as real <= c.c1x <= Max(c.start.x, c.end.x) as real
  {
    var a := OutputAnchor(from);
    var b := InputAnchor(to);
    var m := MidX(a.x, b.x);
    Cubic(a, m, a.y, m, b.y, b)
  }

  /** The preview from a source node to the pointer, in canvas coordinates. */
  function PreviewLine(source: Node, pointer: Point): (l: Line)
    ensures Point(l.x1, l.y1) == OutputAnchor(source)
    ensures l.x2 == pointer.x && l.y2 == pointer.y
  {
    var a := OutputAnchor(source);
    Line(a.x, a.y, pointer.x, pointer.y)
  }

  /** The preview and a finished edge from the same node leave it at the
      same point. */
  lemma PreviewSharesEdgeAnchor(source: Node, target: Node, pointer: Point)
    ensures var l := PreviewLine(source, pointer);
            Point(l.x1, l.y1) == EdgeCurve(source, target).start
  {
  }

  /** Moving either endpoint vertically leaves the control x unchanged, and
      moving both by the same offset translates the whole curve. */
  lemma EdgeCurveUnderMoves(from: Node, to: Node, dx: int, dy: int, dy1: int, dy2: int)
    ensures EdgeCurve(from.(y := from.y + dy1), to.(y := to.y + dy2)).c1x == EdgeCurve(from, to).c1x
    ensures var c := EdgeCurve(from, to);
            var c' := EdgeCurve(from.(x := from.x + dx, y := from.y + dy), to.(x := to.x + dx, y := to.y + dy));
            c'.start == Point(c.start.x + dx, c.start.y + dy) && c'.end == Point(c.end.x + dx, c.end.y + dy)
            && c'.c1x == c.c1x + dx as real && c'.c1y == c.c1y + dy && c'.c2y == c.c2y + dy
  {
  }
}
