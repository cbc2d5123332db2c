/** The records the components exchange: canvas nodes, directed connections,
    pixel points and the add-node request the palette and the assistant send
    to the host application. The host component that owns the stores is not
    part of this model; module Store states the contracts assumed of it. */
module Workflow {
  import opened Wrappers

  type NodeId = string

  /** A node on the canvas; (x, y) is its top-left corner in canvas pixels. */
  datatype Node = Node(id: NodeId, nodeType: string, caption: string, x: int, y: int)

  /** A directed edge from the output connector of `from` to the input
      connector of `to`. */
  datatype Connection = Connection(id: string, from: NodeId, to: NodeId)

  datatype Point = Point(x: int, y: int)

  /** `onAddNode(type, label, x?, y?)`: the coordinates are optional; `caption`
      is the label (`label` is a Dafny keyword). */
  datatype AddNodeCall = AddNodeCall(nodeType: string, caption: string, x: Option<int>, y: Option<int>)

  predicate HasId(nodes: seq<Node>, id: NodeId) {
    exists i :: 0 <= i < |nodes| && nodes[i].id == id
  }

  /** No two nodes share an id. */
  predicate UniqueIds(nodes: seq<Node>) {
    forall i, j :: 0 <= i < j < |nodes| ==> nodes[i].id != nodes[j].id
  }

  /** `nodes.find(n => n.id === id)`: the first node carrying `id`, or
      `undefined` when there is none. */
  function Find(nodes: seq<Node>, id: NodeId): (r: Option<Node>)
    ensures r.Some? <==> HasId(nodes, id)
    ensures r.Some? ==> exists i :: 0 <= i < |nodes| && nodes[i] == r.value && r.value.id == id
                                    && forall j :: 0 <= j < i ==> nodes[j].id != id
  {
    if |nodes| == 0 then None
    else if nodes[0].id == id then Some(nodes[0])
    else
      var r := Find(nodes[1..], id);
      assert HasId(nodes[1..], id) ==> HasId(nodes, id) by {
        if HasId(nodes[1..], id) {
          var i :| 0 <= i < |nodes[1..]| && nodes[1..][i].id == id;
          assert nodes[i + 1].id == id;
        }
      }
      assert HasId(nodes, id) ==> HasId(nodes[1..], id) by {
        if HasId(nodes, id) {
          var i :| 0 <= i < |nodes| && nodes[i].id == id;
          assert i > 0 && nodes[1..][i - 1].id == id;
        }
      }
      if r.Some? then
        assert exists i :: 0 <= i < |nodes| && nodes[i] == r.value && r.value.id == id
                           && forall j :: 0 <= j < i ==> nodes[j].id != id by {
          var k :| 0 <= k < |nodes[1..]| && nodes[1..][k] == r.value && r.value.id == id
                   && forall j :: 0 <= j < k ==> nodes[1..][j].id != id;
          assert nodes[k + 1] == r.value;
          assert forall j :: 0 <= j < k + 1 ==> nodes[j].id != id by {
            forall j | 0 <= j < k + 1
              ensures nodes[j].id != id
            {
              if j > 0 {
                assert nodes[j] == nodes[1..][j - 1];
              }
            }
          }
        }
        r
      else r
  }

  /** With unique ids the first match is the only match. */
  lemma FindUnique(nodes: seq<Node>, i: int)
    requires UniqueIds(nodes) && 0 <= i < |nodes|
    ensures Find(nodes, nodes[i].id) == Some(nodes[i])
  {
    assert HasId(nodes, nodes[i].id);
  }
}
