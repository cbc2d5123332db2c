/** The node palette: a static table of categories whose entries add a
    node of their type and label when clicked. Its entries are checked
    against the node colour table. */
module Palette {
  import opened Wrappers
  import opened Workflow
  import NodeStyle

  datatype Entry = Entry(nodeType: string, caption: string, color: string)

  datatype Category = Category(title: string, entries: seq<Entry>)

  /** `nodeCategories`, in display order. */
  const Categories: seq<Category> := [
    Category("AI Actions", [
      Entry("ai-chat", "AI Chat", "purple"),
      Entry("summarize", "Summarize", "blue"),
      Entry("classify", "Classify", "amber"),
      Entry("extract", "Extract Data", "green")
    ]),
    Category("Data Sources", [
      Entry("web-scrape", "Web Scrape", "cyan"),
      Entry("database", "Database", "indigo"),
      Entry("email", "Email", "red"),
      Entry("api", "API Call", "orange")
    ]),
    Category("Outputs", [
      Entry("save-file", "Save to File", "slate"),
      Entry("send-email", "Send Email", "pink"),
      Entry("webhook", "Webhook", "violet")
    ])
  ]

  /** The entries of all categories, in display order. */
  function Flatten(cs: seq<Category>): seq<Entry>
    decreases |cs|
  {
    if |cs| == 0 then [] else cs[0].entries + Flatten(cs[1..])
  }

  function AllEntries(): seq<Entry> {
    Flatten(Categories)
  }

  /** Three categories of four, four and three entries: eleven in all. */
  lemma PaletteShape()
    ensures |Categories| == 3
    ensures |Categories[0].entries| == 4 && |Categories[1].entries| == 4 && |Categories[2].entries| == 3
    ensures |AllEntries()| == 11
  {
    assert Categories[1..][1..][1..] == [];
  }

  /** Entry k of the palette lists the same type as entry k of the colour
      table, with the same colour. */
  lemma PaletteFollowsColorTable()
    ensures |AllEntries()| == |NodeStyle.NodeColorTable|
    ensures forall k :: 0 <= k < |AllEntries()| ==>
              AllEntries()[k].nodeType == NodeStyle.NodeColorTable[k].0
              && AllEntries()[k].color == NodeStyle.NodeColorTable[k].1
  {
    PaletteShape();
    var t := NodeStyle.NodeColorTable;
    var e := AllEntries();
    assert Categories[1..][1..][1..] == [];
    assert e == Categories[0].entries + Categories[1].entries + Categories[2].entries;
    assert e[0].nodeType == t[0].0 && e[0].color == t[0].1;
    assert e[1].nodeType == t[1].0 && e[1].color == t[1].1;
    assert e[2].nodeType == t[2].0 && e[2].color == t[2].1;
    assert e[3].nodeType == t[3].0 && e[3].color == t[3].1;
    assert e[4].nodeType == t[4].0 && e[4].color == t[4].1;
    assert e[5].nodeType == t[5].0 && e[5].color == t[5].1;
    assert e[6].nodeType == t[6].0 && e[6].color == t[6].1;
    assert e[7].nodeType == t[7].0 && e[7].color == t[7].1;
    assert e[8].nodeType == t[8].0 && e[8].color == t[8].1;
    assert e[9].nodeType == t[9].0 && e[9].color == t[9].1;
    assert e[10].nodeType == t[10].0 && e[10].color == t[10].1;
  }

  /** No type appears twice across the categories. */
  lemma PaletteTypesDistinct()
    ensures forall i, j :: 0 <= i < j < |AllEntries()| ==> AllEntries()[i].nodeType != AllEntries()[j].nodeType
  {
    PaletteFollowsColorTable();
    NodeStyle.TableKeysDistinct();
  }

  /** Every entry is drawn in the colour a node of its type gets on the
      canvas, and the palette's types are exactly the colour table's keys. */
  lemma PaletteColorsMatchNodes()
    ensures forall k :: 0 <= k < |AllEntries()| ==>
              NodeStyle.IsKnownType(AllEntries()[k].nodeType)
              && AllEntries()[k].color == NodeStyle.ColorOf(AllEntries()[k].nodeType)
    ensures forall t :: NodeStyle.IsKnownType(t) <==> exists k :: 0 <= k < |AllEntries()| && AllEntries()[k].nodeType == t
  {
    PaletteFollowsColorTable();
  }

  /** Clicking an entry: the add-node call carries the entry's type and
      label and leaves the position to the host. */
  function Click(e: Entry): (r: AddNodeCall)
    ensures r.nodeType == e.nodeType && r.caption == e.caption
    ensures r.x.None? && r.y.None?
  {
    AddNodeCall(e.nodeType, e.caption, None, None)
  }

  /** Clicking entry k asks for a node of exactly that entry's type and
      label, with no coordinates, and of a type that has its own colour. */
  lemma ClickAddsStyledNode(k: int)
    requires 0 <= k < |AllEntries()|
    ensures Click(AllEntries()[k]) == AddNodeCall(AllEntries()[k].nodeType, AllEntries()[k].caption, None, None)
    ensures NodeStyle.IsKnownType(Click(AllEntries()[k]).nodeType)
    ensures NodeStyle.ColorOf(Click(AllEntries()[k]).nodeType) == AllEntries()[k].color
  {
    PaletteColorsMatchNodes();
  }
}
