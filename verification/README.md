# Workflow builder interaction core, in Dafny

This project models the interaction logic of a browser-based workflow
builder. Users place typed nodes on a canvas, drag them, and draw directed
connections between them. An assistant panel turns a typed request into
node additions, and an onboarding dialog pays credits for completed
tutorials. The model covers five React components:

- `WorkflowCanvas.tsx` (module `Canvas`, with `Geometry` and `Store`). It
  covers the connection-draw state (`connectingFrom`, `tempLine`) and its
  handlers: `handleNodeDrag`, `handleConnectStart`, `handleMouseMove`,
  `handleConnectEnd` and `handleCanvasClick`. It also covers the edge
  anchors and curve, the filter that skips dangling edges, and the flags
  each node is rendered with.
- `WorkflowNode.tsx` (modules `NodeInteraction` and `NodeStyle`). It covers
  which press starts a drag, the window move/up listeners and the deltas
  they report, the connector press, the `isConnecting`-gated release, and
  the `nodeColors` lookup with its `'slate'` fallback.
- `AIAssistant.tsx` (modules `Assistant`, `PromptCoverage` and `Text`). It
  covers the keyword classifier `generateResponse`, the blank-input guard
  and message append of `handleSend`, the delayed reply, the placement of
  requested nodes, and the suggested prompts.
- `OnboardingModal.tsx` (module `Onboarding`). It covers the tutorial
  table, the welcome → tutorial-list step, and the credit ledger of
  `handleCompleteTutorial`.
- `NodePalette.tsx` (module `Palette`). It covers the category table and
  the `onAddNode(type, label)` call of each entry.

`DragComposition` connects the drag pieces end to end: node listener, then
canvas drag handler, then host store.

Every handler is a pure function from state and event to a new state plus
the host callbacks it makes (`Store.Effect`, `NodeInteraction.Callback`,
`Onboarding.Completion`). Event sequences are folded with `Run`/`Moves`, and
the invariants are proved over any such sequence. The host component that
owns the node and connection stores is not part of this model.
`Store.MoveNode` and `Store.Apply` state the contracts assumed of its
callbacks ("set x, y of the nodes with that id", "append a connection").
They are not verified behaviour of that component.

Behaviour of the code worth knowing:

- The output anchor of an edge and of the preview line is `(x + 120, y + 40)`.
  That is the horizontal centre of a 240-pixel-wide node, not its right edge
  (`Geometry.OutputAnchor`).
- Releasing a connection draw over empty canvas reaches no mouse-up
  handler. The draw is cancelled by the `click` that follows, which is
  dispatched on the canvas element and reaches `handleCanvasClick`
  (`Canvas.ConnectorReleaseOnCanvasCancels`).
- The handlers test `connectingFrom` for JavaScript truthiness
  (`Canvas.Truthy`), while a node's `isConnecting` prop is
  `connectingFrom !== null`. With an empty-string source, a release on a
  node still calls `onConnectEnd`, which then adds nothing.
- Connections are not de-duplicated (`Canvas.DuplicateConnectionsKept`).
- As wired, a dragged node does not follow the pointer, a drag released
  over a node is not ended, and clicking a node does not leave it
  selected; see Findings.

## Model

| member | source | states |
|---|---|---|
| Text.ToLower | AIAssistant.tsx:72 | Lower-casing keeps the length and maps each character through the ASCII letter mapping; the result has no upper-case letter |
| Text.ToLowerIdempotent | AIAssistant.tsx:72 | Lower-casing an already lower-cased string changes nothing |
| Text.IncludesIffOccurs | AIAssistant.tsx:74 | The left-to-right `includes` scan answers true exactly when the pattern occurs at some index |
| Text.TrimEmptyIffBlank | AIAssistant.tsx:38 | `trim()` yields the empty string exactly when every character is ECMAScript white space or a line terminator |
| Workflow.Find | WorkflowCanvas.tsx:33 | `nodes.find` returns a node exactly when some node has the id, and then the first one with it |
| Workflow.FindUnique | WorkflowCanvas.tsx:89-90 | With unique ids, looking up node i's id finds node i |
| Store.MoveNode | WorkflowCanvas.tsx:10 | Assumed contract of `onUpdateNodePosition`: nodes with that id get the new x, y; all others are unchanged |
| Store.Apply | WorkflowCanvas.tsx:9-12 | Assumed contracts of the host callbacks: selection set, connection appended with the host's id, position update leaves connections and selection alone; delete has no modelled meaning |
| Geometry.OutputAnchor | WorkflowCanvas.tsx:93-94 | The output anchor sits half a node width (120 of 240) right of the node's left edge, 40 pixels down |
| Geometry.InputAnchor | WorkflowCanvas.tsx:95-96 | The input anchor is on the node's left edge, 40 pixels down |
| Geometry.MidX | WorkflowCanvas.tsx:98 | The control x is exactly half of x1 + x2 and lies between x1 and x2 |
| Geometry.EdgeCurve | WorkflowCanvas.tsx:93-103 | An edge runs from the source's output anchor to the target's input anchor with horizontal tangents at both ends and its control x between the endpoints |
| Geometry.PreviewLine | WorkflowCanvas.tsx:49-54 | The preview starts at the source's output anchor and ends at the pointer |
| Geometry.PreviewSharesEdgeAnchor | WorkflowCanvas.tsx:50-51 | The preview and any finished edge from the same node leave it at the same point |
| Geometry.EdgeCurveUnderMoves | WorkflowCanvas.tsx:93-98 | Vertical moves of either node keep the control x; moving both nodes by one offset translates the whole curve |
| NodeStyle.Lookup | WorkflowNode.tsx:16-28 | A key lookup finds nothing exactly when no entry has that key, and otherwise returns a stored entry's value |
| NodeStyle.TableKeysDistinct | WorkflowNode.tsx:16-28 | The eleven colour-table keys are pairwise distinct |
| NodeStyle.ColorOf | WorkflowNode.tsx:42 | Colour lookup is total: a listed type gets its entry, any other type gets 'slate', and the result is never empty |
| NodeStyle.ColorAsWritten | WorkflowNode.tsx:42 | As written, a listed type gets its table colour, an unlisted type that names an inherited `Object.prototype` member gets that member, and any other type gets 'slate' |
| NodeStyle.ColorAsWrittenAgreesOffPrototype | WorkflowNode.tsx:42 | The lookup as written agrees with the own-entry lookup exactly on types that do not name an inherited `Object.prototype` member |
| NodeStyle.ConstructorTypeMissesFallback | WorkflowNode.tsx:42 | A node of type "constructor" is unlisted yet, as written, gets an inherited function instead of 'slate' |
| NodeInteraction.MoveStep | WorkflowNode.tsx:52-57 | A window move with listeners installed reports the pointer minus the last recorded pointer (extra listener pairs report zero) and records the pointer; with none it does nothing |
| NodeInteraction.Step | WorkflowNode.tsx:44-79 | A press inside the node actions does nothing; a connector press only reports connect-start; a body press reports drag-start once and records the pointer; a window release ends dragging and removes all listeners; a node release reports connect-end if and only if connecting |
| NodeInteraction.RunPreservesValid | WorkflowNode.tsx:59-66 | Over any event sequence, listeners are installed exactly while the node shows as dragging |
| NodeInteraction.MoveStepDelta | WorkflowNode.tsx:53-55 | The deltas one move reports add up to the pointer's displacement since the last recorded position |
| NodeInteraction.MovesTelescope | WorkflowNode.tsx:52-56 | Over any non-empty run of moves, the reported deltas add up to the final pointer minus the recorded start |
| NodeInteraction.MovesWhenReleased | WorkflowNode.tsx:59-63 | With no listeners installed, moves report nothing |
| NodeInteraction.MovesReportOnlyDrags | WorkflowNode.tsx:56 | Moves report only drags of the pressed node |
| NodeInteraction.SingleListenerLastReport | WorkflowNode.tsx:53-56 | With one listener pair, each move reports once and the last report is the last pointer minus the one before |
| NodeInteraction.ReleaseAsWritten | WorkflowNode.tsx:59-79 | As wired, the window release listener runs exactly for a mouse-up away from every node, and this node's own release handler exactly for one over this node |
| NodeInteraction.ReleaseIntended | WorkflowNode.tsx:59-66 | Intended routing: every mouse-up ends with the window release listener, after this node's own handler exactly when the release is over this node |
| NodeInteraction.ReleaseOverNodeKeepsDragging | WorkflowNode.tsx:59-79 | As wired, after a body press a release over any node leaves the node dragging, and the next window move still reports the pointer's displacement from the press; a release off every node ends the drag |
| NodeInteraction.DragSession | WorkflowNode.tsx:44-79 | Press then moves: drag-start once, deltas summing to final pointer minus press pointer; a release anywhere (intended routing) reports connect-end exactly over this node while connecting, ends dragging, and nothing is reported afterwards |
| Canvas.HandleNodeDrag | WorkflowCanvas.tsx:32-37 | A drag of a known id asks to place that node at its position plus the delta; an unknown id makes no call |
| Canvas.NodeDragOnStore | WorkflowCanvas.tsx:32-37 | On the store, a drag moves exactly the dragged node by the delta and leaves every other node, the connections and the selection unchanged |
| Canvas.NodeDragUnknownId | WorkflowCanvas.tsx:33-34 | A drag for an id no node carries leaves the store unchanged |
| Canvas.DragStartSelects | WorkflowCanvas.tsx:28-30 | A body press leaves the host's selection naming exactly the pressed node and changes nothing else |
| Canvas.HandleConnectStart | WorkflowCanvas.tsx:39-42 | Starting a draw sets the source to the node whatever the prior state, keeping the preview |
| Canvas.HandleMouseMove | WorkflowCanvas.tsx:44-57 | A move changes only the preview, only while a truthy source exists among the nodes, to the line from (src.x+120, src.y+40) to the pointer minus the canvas origin |
| Canvas.HandleConnectEnd | WorkflowCanvas.tsx:59-65 | Ending a draw adds the connection (source, target) exactly when a truthy source differs from the target, and clears source and preview in every case |
| Canvas.ConnectEndOnStore | WorkflowCanvas.tsx:59-65 | On the store, ending a draw appends one connection in the connecting case and changes nothing otherwise, including a release on the source itself |
| Canvas.DuplicateConnectionsKept | WorkflowCanvas.tsx:60-61 | Drawing the same edge twice leaves two connections with the same endpoints |
| Canvas.CanvasClickClears | WorkflowCanvas.tsx:67-71 | A background click clears the selection in the store and the source and preview on the canvas |
| Canvas.StepKeepsPreviewSource | WorkflowCanvas.tsx:39-71 | Every handler keeps "a preview is shown only while a source is recorded" |
| Canvas.RunKeepsPreviewSource | WorkflowCanvas.tsx:25-26 | That invariant holds after any sequence of handler calls |
| Canvas.PreviewMatchesEdge | WorkflowCanvas.tsx:50-51 | After a start and a move, the preview begins where the finished edge to any target begins and ends at the pointer in canvas coordinates |
| Canvas.ClickAsWritten | WorkflowNode.tsx:100-131 | As wired, the click after a press and release reaches the canvas's clear handler exactly when it lands inside a node body or on the canvas; the delete button only forwards a delete, and the connector and the configuration input stop it |
| Canvas.ClickIntended | WorkflowCanvas.tsx:67-78 | Intended routing: only a click dispatched on the canvas itself reaches the clear handler; the delete button only forwards a delete |
| Canvas.NodeClickDeselects | WorkflowCanvas.tsx:67-78 | As wired, a press and release on a node's body leaves nothing selected and the draw state cleared |
| Canvas.NodeClickSelects | WorkflowCanvas.tsx:133-139 | Under the intended routing, a press and release on node i's body leaves node i selected, it is the only node rendered as selected, and the draw state is untouched |
| Canvas.ConnectorReleaseOnCanvasCancels | WorkflowCanvas.tsx:67-78 | A draw started on a connector and released over the background ends with no source, no preview and no selection, under either routing |
| Canvas.EdgeOf | WorkflowCanvas.tsx:89-91 | A connection yields an edge exactly when both endpoint ids are present; the edge carries the connection's key and its dot is at the curve's end |
| Canvas.EdgeBetween | WorkflowCanvas.tsx:89-108 | With unique ids, the edge of a connection is the curve between exactly its two nodes, with the dot on the target's input anchor |
| Canvas.RenderEdges | WorkflowCanvas.tsx:88-111 | The connection list yields at most one drawn edge per connection |
| Canvas.RenderedEdgeHasConnection | WorkflowCanvas.tsx:88-91 | Every drawn edge is the edge of a connection whose endpoints both exist |
| Canvas.DrawableConnectionRendered | WorkflowCanvas.tsx:88-91 | Every connection whose endpoints both exist is drawn |
| Canvas.AllDrawableAllRendered | WorkflowCanvas.tsx:88-111 | With no dangling connection, one edge is drawn per connection, in order |
| Canvas.NoNodesNoEdges | WorkflowCanvas.tsx:89-91 | With no nodes, no edge is drawn whatever connections remain |
| Canvas.DanglingEdgeHidden | WorkflowCanvas.tsx:91 | No drawn edge carries the key of a connection with a missing endpoint |
| Canvas.RenderNodes | WorkflowCanvas.tsx:133-145 | Each node is rendered with its colour, flagged selected exactly when its id is the selection, and connecting exactly when a source is recorded |
| Canvas.SelectionHighlightsOne | WorkflowCanvas.tsx:137 | With unique ids at most one node is flagged selected, and one is exactly when the selection names an existing node |
| Canvas.Render | WorkflowCanvas.tsx:124-131 | The empty-canvas placeholder shows exactly when there are no nodes, the preview is the recorded line, and an empty canvas draws no edges |
| DragComposition.LiveStep | WorkflowCanvas.tsx:32-37 | One delta handled against the current store moves the dragged node by that delta and keeps the ids, the other nodes, the connections and the selection |
| DragComposition.LiveDragAddsDeltas | WorkflowCanvas.tsx:32-37 | Handling each reported delta against the current store moves the node by the sum of the deltas and nothing else |
| DragComposition.DragFollowsPointer | WorkflowNode.tsx:44-57 | Intended behaviour: after a body press and moves, the node sits at its start plus the pointer's total displacement; other nodes stay put |
| DragComposition.StaleStep | WorkflowNode.tsx:56 | A delta handled against the press-time node list places the node at its press-time position plus that delta |
| DragComposition.StaleDragKeepsLastDelta | WorkflowNode.tsx:52-57 | As wired, after a run of drags the node sits at its press-time position plus the last delta only |
| DragComposition.ExampleLive | WorkflowNode.tsx:52-56 | Start (100,100), press (0,0), moves to (10,0), (10,10), (5,15): the intended end is (105,115) |
| DragComposition.ExampleStale | WorkflowNode.tsx:52-56 | The same drag as wired ends at (95,105) |
| Assistant.ClassifyPriority | AIAssistant.tsx:74-109 | scrape/website beats email/lead, which beats data/extract; an input with none of them falls back (all four as if-and-only-if) |
| Assistant.GenerateResponse | AIAssistant.tsx:71-110 | The response has no nodes exactly when the lower-cased input contains none of the six keywords; its message is the scraping, email, data or fallback reply according to the first keyword group that occurs |
| Assistant.Reply | AIAssistant.tsx:75-109 | The fallback has no nodes; every other branch requests exactly three nodes, all of types the colour table lists: web-scrape, extract, summarize for scraping; email, ai-chat, send-email for email; database, extract, save-file for data, each with its reply message |
| Assistant.ResponseIgnoresCase | AIAssistant.tsx:72 | The response depends on the input only through its lower-cased form |
| Assistant.HandleSend | AIAssistant.tsx:37-50 | A blank input changes nothing and schedules nothing; otherwise exactly one user message with the input is appended, the input is cleared, and a reply to that input is pending |
| Assistant.ChooseSuggestion | AIAssistant.tsx:112-114 | Choosing a suggestion puts it in the input and leaves the messages alone |
| Assistant.PlaceFrom | AIAssistant.tsx:62-66 | The request with index i fires 500 + 300 i ms after the reply and adds a node of its type and label at (150 + 280 i, 150) |
| Assistant.Place | AIAssistant.tsx:61-66 | One delayed add per request, in request order, with the closed-form delay and position |
| Assistant.PlacementLayout | AIAssistant.tsx:64-65 | Placed nodes share one row, march right by 280 pixels per index, and fire in index order |
| Assistant.DeliverReply | AIAssistant.tsx:50-68 | The reply appends one assistant message with the response text to the messages current then, and schedules three adds or none according to the branch; add k fires 500 + 300 k ms later with the k-th requested type and label at (150 + 280 k, 150) |
| PromptCoverage.ScrapePromptClassifies | AIAssistant.tsx:16 | The first suggested prompt falls in the scraping branch |
| PromptCoverage.LeadPromptClassifies | AIAssistant.tsx:17 | The second suggested prompt has no scraping word and falls in the email/lead branch |
| PromptCoverage.EmailPromptClassifies | AIAssistant.tsx:18 | The third suggested prompt has no scraping word and falls in the email/lead branch |
| PromptCoverage.ExtractPromptClassifies | AIAssistant.tsx:19 | The fourth suggested prompt has no scraping, email or lead word and falls in the data branch |
| PromptCoverage.SuggestedPromptsClassify | AIAssistant.tsx:15-20 | Each suggested prompt lands in its intended node-producing branch |
| PromptCoverage.SuggestionBuildsThreeNodes | AIAssistant.tsx:37-68 | Sending any suggested prompt appends it as a user message, and its reply schedules three adds of listed types at x = 150, 430 and 710 |
| Onboarding.TutorialIdsDistinct | OnboardingModal.tsx:9-42 | The four tutorial ids are pairwise distinct |
| Onboarding.CreditFor | OnboardingModal.tsx:9-42 | A tutorial id maps to its listed credits; any other id to 0 |
| Onboarding.StartBuilding | OnboardingModal.tsx:48-50 | The "Start Learning" button's handler (`handleStartBuilding`) moves to the tutorial list and keeps the completed list |
| Onboarding.CompleteTutorial | OnboardingModal.tsx:52-57 | A new id is appended once and its credits paid; an already-completed id changes nothing and pays nothing |
| Onboarding.CompleteIdempotent | OnboardingModal.tsx:53 | Completing a tutorial twice equals completing it once, and the second attempt pays nothing |
| Onboarding.Handle | OnboardingModal.tsx:142-202 | "Start Learning" (`handleStartBuilding`) moves to the list keeping the completions; a listed tutorial's button on the list appends its id and pays its table credits once, and a repeat or a button not shown changes nothing |
| Onboarding.NoReturnToWelcome | OnboardingModal.tsx:45-50 | Once on the tutorial list, no click sequence returns to the welcome page |
| Onboarding.LeaveWelcomeOnlyByStart | OnboardingModal.tsx:45-50 | On the welcome page only "Start Learning" (`handleStartBuilding`) changes the step; other clicks do nothing |
| Onboarding.AppendListed | OnboardingModal.tsx:53-54 | Appending a tutorial id not yet present adds one listed tutorial and its credits |
| Onboarding.DistinctTutorialIds | OnboardingModal.tsx:9-42 | A duplicate-free list of tutorial ids has one element per tutorial it contains and their table credits |
| Onboarding.LedgerBounds | OnboardingModal.tsx:216 | Under the ledger invariant at most 4 tutorials are completed and at most 200+200+200+400 = 1000 credits paid |
| Onboarding.HandleKeepsLedger | OnboardingModal.tsx:200-202 | One click keeps the completed list duplicate-free, within the table, one award per id, and awards equal to table credits |
| Onboarding.RunKeepsLedger | OnboardingModal.tsx:52-56 | Any click sequence keeps that ledger |
| Onboarding.CreditsFromInitial | OnboardingModal.tsx:45-56 | From the initial state, credits paid equal the table credits of the completed ids, at most 1000, with at most four distinct completions |
| Palette.PaletteShape | NodePalette.tsx:7-34 | Three categories of 4, 4 and 3 entries, 11 in all |
| Palette.PaletteFollowsColorTable | NodePalette.tsx:11-31 | Palette entry k has the same type and colour as colour-table entry k |
| Palette.PaletteTypesDistinct | NodePalette.tsx:11-31 | No node type appears twice across the categories |
| Palette.PaletteColorsMatchNodes | NodePalette.tsx:11-31 | Each entry's colour is the colour a node of its type is drawn in, and the palette's types are exactly the colour table's keys |
| Palette.Click | NodePalette.tsx:53 | A click asks for a node of the entry's type and label, with no coordinates |
| Palette.ClickAddsStyledNode | NodePalette.tsx:53 | Clicking entry k calls `onAddNode` with exactly that entry's type and label and no coordinates, for a type that has its own colour entry equal to the entry's colour |

## Left out

- The host component's stores (`addNode` with id generation and default
  placement, `deleteNode` with connection pruning, clearing the canvas)
  are not part of this model. `Store.Apply` gives a position update, a
  selection and a new connection their assumed meaning. It returns `None`
  for a delete rather than inventing one.
- `TopBar.tsx` is markup whose buttons forward to the host.
- Markup, Tailwind class strings, the SVG path text, icons, hover styles
  and `scrollIntoView` are not modelled.
- Browser event routing is modelled only for the mouse-up that ends a
  drag (`NodeInteraction.ReleaseAsWritten`) and for the `click` that
  follows a press and release (`Canvas.ClickAsWritten`). Where a gesture
  lands is an input, and other event sequences are inputs too.
  `stopPropagation` on a press is modelled as "this press reaches only the
  connector's handler" (`NodeInteraction.PressTarget`).
- `getBoundingClientRect` is not modelled: the canvas origin is a parameter
  of `Canvas.HandleMouseMove`. The unmounted case (`canvasRef.current`
  null) is not modelled.
- Timers: `setTimeout` delays are carried as data (`Assistant.ReplyDelay`,
  `Assistant.Scheduled.delay`) and nothing fires them. `Date.now()` message
  ids are the `stamp` parameters. The messages current when a reply
  arrives are a parameter of `Assistant.DeliverReply`.
- Text.ToLower: only ASCII letters are lower-cased, which is weaker than
  `toLowerCase`'s full Unicode mapping. Every keyword and prompt involved
  is ASCII.
- Assistant.ChooseSuggestion: the prompt buttons render only while the
  conversation holds just the greeting (`messages.length === 1`); the model
  allows a choice in any state.
- Canvas.SelectionHighlightsOne: it is about one render. As wired, the
  selection a body press makes is cleared by the click that follows, so the
  highlight shows only while the button is held (see Findings).
- Onboarding.Handle: a click on a button that the current page does not
  show is ignored rather than ruled out. The skip and close buttons, and
  the list page's "Start Building" button, only call `onClose` and are not
  modelled.
- Pixel coordinates are integers; only the control x of a curve is real.

## Findings

| source | as written | input that shows it | evidently intended | confidence | as-written member | corrected member |
|---|---|---|---|---|---|---|
| WorkflowNode.tsx:42 | the indexed read of `nodeColors` in front of the 'slate' fallback also finds members every object inherits from `Object.prototype` | a node of type "constructor" gets a function instead of a colour name | every unlisted type is drawn in 'slate' | high; not executed | NodeStyle.ConstructorTypeMissesFallback | NodeStyle.ColorOf |
| WorkflowNode.tsx:74-75 | a node's mouse-up handler stops propagation, so the `window` mouse-up listener a drag installs never sees a release over any node | body press on a node, then a release over that same node: the node still shows as dragging and the next window move to p reports a drag of p minus the press point | every release ends the drag and removes its listeners | medium; not executed | NodeInteraction.ReleaseOverNodeKeepsDragging | NodeInteraction.DragSession |
| WorkflowCanvas.tsx:67-78 | the node body does not stop the `click`, so the click after a press and release inside a node bubbles to the canvas's `onClick`, which clears the selection the press just made | press and release on node "n1"'s body: `onSelectNode("n1")`, then `onSelectNode(null)`; nothing stays selected | clicking a node leaves it selected and highlighted | medium; not executed | Canvas.NodeClickDeselects | Canvas.NodeClickSelects |
| WorkflowNode.tsx:52-56 | the window move listener keeps the `onDrag` of the press-time render, whose `nodes` is the press-time list, so each move sets the position to press-time position + this move's delta | start (100,100), press (0,0), moves to (10,0), (10,10), (5,15): ends at (95,105) | the node follows the pointer: start + total displacement = (105,115) | high; not executed | DragComposition.ExampleStale | DragComposition.DragFollowsPointer |

The rest of the model composes drags as `DragComposition.LiveDrag`, where
each delta is handled against the current node list, and ends them with the
intended release routing (`NodeInteraction.ReleaseIntended`, in
`NodeInteraction.DragSession`). Node colours are
`NodeStyle.ColorOf` everywhere, for example in `Canvas.RenderNodes` and
`Palette.PaletteColorsMatchNodes`.
