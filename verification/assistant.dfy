/** The assistant panel: the keyword classifier behind `generateResponse`,
    the guard and message append of `handleSend`, the delayed reply and the
    placement of the nodes it requests. Timer delays are carried as data and
    the clock-derived message ids are parameters. */
module Assistant {
  import opened Wrappers
  import opened Workflow
  import Text
  import NodeStyle

  datatype Role = User | Bot

  datatype Message = Message(id: string, role: Role, content: string)

  /** A node the reply asks for: `{ type, label }`. */
  datatype NodeRequest = NodeRequest(nodeType: string, caption: string)

  /** The branch of `generateResponse` an input falls into, in priority order. */
  datatype Intent = WebScraping | EmailAutomation | DataExtraction | NoMatch

  /** `{ message, nodes? }`: the fallback reply has no `nodes` field. */
  datatype Response = Response(message: string, nodes: Option<seq<NodeRequest>>)

  /** The first message of every conversation. */
  const Greeting: string :=
    "Hi! I'm Gummie, your AI workflow assistant. \U{1F31F} I can help you build powerful automation flows. What would you like to create today?"

  /* The suggested prompts. Each is written as short pieces that concatenate
     to the prompt text exactly: the proofs that a prompt reaches its branch
     then look at one piece at a time, which keeps them cheap for the
     solver. */
  const PromptScrape: string := "Build a workflow that " + "scrapes a website and " + "summarizes the content"
  const PromptLead: string := "Create a lead " + "enrichment flow"
  const PromptEmail: string := "Set up email " + "automation with AI " + "classification"
  const PromptExtract: string := "Help me extract " + "data from PDFs"

  const SuggestedPrompts: seq<string> := [PromptScrape, PromptLead, PromptEmail, PromptExtract]

  const ScrapeReply: string :=
    "Great! I'll help you build a web scraping workflow. I'm adding the nodes to your canvas now:\n\n1. Web Scrape - to extract data from your target URL\n2. Extract Data - to parse and structure the content\n3. Summarize - to create a concise summary\n\nYou can configure each node by clicking on it!"
  const EmailReply: string :=
    "Perfect! I'll set up an email automation workflow for you:\n\n1. Email - to receive incoming emails\n2. AI Chat - to analyze and classify\n3. Send Email - to send automated responses\n\nConnect them together to complete the flow!"
  const DataReply: string :=
    "I'll help you build a data extraction pipeline:\n\n1. Database - your data source\n2. Extract Data - to pull specific fields\n3. Save to File - to store the results\n\nLet me add these to your canvas!"
  const FallbackReply: string :=
    "I can help you build that! Try being more specific about:\n\n\U{2022} What data source you're using (website, email, database, API)\n\U{2022} What you want to do with the data (summarize, classify, extract)\n\U{2022} Where you want to send the results\n\nOr click one of the suggested prompts below!"

  /** The branch tests of `generateResponse` on the lower-cased input, in order. */
  function Classify(lower: string): Intent {
    if Text.Includes(lower, "scrape") || Text.Includes(lower, "website") then WebScraping
    else if Text.Includes(lower, "email") || Text.Includes(lower, "lead") then EmailAutomation
    else if Text.Includes(lower, "data") || Text.Includes(lower, "extract") then DataExtraction
    else NoMatch
  }

  ghost predicate MentionsScraping(s: string) { Text.Occurs(s, "scrape") || Text.Occurs(s, "website") }
  ghost predicate MentionsEmail(s: string) { Text.Occurs(s, "email") || Text.Occurs(s, "lead") }
  ghost predicate MentionsData(s: string) { Text.Occurs(s, "data") || Text.Occurs(s, "extract") }

  /** Branch priority: scraping words win over email words, which win over
      data words; an input with none of them falls through. */
  lemma ClassifyPriority(lower: string)
    ensures Classify(lower) == WebScraping <==> MentionsScraping(lower)
    ensures Classify(lower) == EmailAutomation <==> !MentionsScraping(lower) && MentionsEmail(lower)
    ensures Classify(lower) == DataExtraction
            <==> !MentionsScraping(lower) && !MentionsEmail(lower) && MentionsData(lower)
    ensures Classify(lower) == NoMatch
            <==> !MentionsScraping(lower) && !MentionsEmail(lower) && !MentionsData(lower)
  {
    Text.IncludesIffOccurs(lower, "scrape");
    Text.IncludesIffOccurs(lower, "website");
    Text.IncludesIffOccurs(lower, "email");
    Text.IncludesIffOccurs(lower, "lead");
    Text.IncludesIffOccurs(lower, "data");
    Text.IncludesIffOccurs(lower, "extract");
  }

  /** The reply for each branch: a fixed message and, except for the
      fallback, three node requests whose types all have a colour entry. */
  function Reply(intent: Intent): (r: Response)
    ensures r.nodes.None? <==> intent == NoMatch
    ensures r.nodes.Some? ==> |r.nodes.value| == 3
    ensures r.nodes.Some? ==> forall k :: 0 <= k < |r.nodes.value| ==> NodeStyle.IsKnownType(r.nodes.value[k].nodeType)
    ensures intent == WebScraping ==>
              && r.message == ScrapeReply
              && r.nodes == Some([NodeRequest("web-scrape", "Web Scrape"), NodeRequest("extract", "Extract Data"), NodeRequest("summarize", "Summarize")])
    ensures intent == EmailAutomation ==>
              && r.message == EmailReply
              && r.nodes == Some([NodeRequest("email", "Email"), NodeRequest("ai-chat", "AI Chat"), NodeRequest("send-email", "Send Email")])
    ensures intent == DataExtraction ==>
              && r.message == DataReply
              && r.nodes == Some([NodeRequest("database", "Database"), NodeRequest("extract", "Extract Data"), NodeRequest("save-file", "Save to File")])
    ensures intent == NoMatch ==> r.message == FallbackReply
  {
    var t := NodeStyle.NodeColorTable;
    assert t[0].0 == "ai-chat" && t[1].0 == "summarize" && t[3].0 == "extract" && t[4].0 == "web-scrape";
    assert t[5].0 == "database" && t[6].0 == "email" && t[8].0 == "save-file" && t[9].0 == "send-email";
    match intent
    case WebScraping =>
      Response(ScrapeReply, Some([NodeRequest("web-scrape", "Web Scrape"), NodeRequest("extract", "Extract Data"),
                                  NodeRequest("summarize", "Summarize")]))
    case EmailAutomation =>
      Response(EmailReply, Some([NodeRequest("email", "Email"), NodeRequest("ai-chat", "AI Chat"),
                                 NodeRequest("send-email", "Send Email")]))
    case DataExtraction =>
      Response(DataReply, Some([NodeRequest("database", "Database"), NodeRequest("extract", "Extract Data"),
                                NodeRequest("save-file", "Save to File")]))
    case NoMatch => Response(FallbackReply, None)
  }

  /** `generateResponse(userInput)`: the branch is chosen by which keywords
      occur in the lower-cased input, scraping words first. */
  function GenerateResponse(input: string): (r: Response)
    ensures var lower := Text.ToLower(input);
            && (r.nodes.None? <==> !MentionsScraping(lower) && !MentionsEmail(lower) && !MentionsData(lower))
            && (MentionsScraping(lower) ==> r.message == ScrapeReply)
            && (!MentionsScraping(lower) && MentionsEmail(lower) ==> r.message == EmailReply)
            && (!MentionsScraping(lower) && !MentionsEmail(lower) && MentionsData(lower) ==> r.message == DataReply)
            && (r.nodes.None? ==> r.message == FallbackReply)
  {
    ClassifyPriority(Text.ToLower(input));
    Reply(Classify(Text.ToLower(input)))
  }

  /** The reply depends on the input only through its lower-cased form. */
  lemma ResponseIgnoresCase(input: string)
    ensures GenerateResponse(Text.ToLower(input)) == GenerateResponse(input)
  {
    Text.ToLowerIdempotent(input);
  }

  /** The assistant's message list and the text in its input box. */
  datatype Chat = Chat(messages: seq<Message>, input: string)

  const InitialChat: Chat := Chat([Message("1", Bot, Greeting)], "")

  /** After a send: the new chat, and the input text a delayed reply will
      answer (None when nothing was sent). */
  datatype SendResult = SendResult(chat: Chat, pending: Option<string>)

  /** `handleSend`: a blank input (only white space) changes nothing;
      otherwise one user message carrying the input is appended, the input
      box is cleared, and a reply to that input is scheduled. `stamp` is the
      clock-derived id. */
  function HandleSend(c: Chat, stamp: string): (r: SendResult)
    ensures Text.IsBlank(c.input) ==> r == SendResult(c, None)
    ensures !Text.IsBlank(c.input) ==>
              && r.chat.messages == c.messages + [Message(stamp, User, c.input)]
              && r.chat.input == ""
              && r.pending == Some(c.input)
  {
    Text.TrimEmptyIffBlank(c.input);
    if Text.Trim(c.input) == "" then SendResult(c, None)
    else SendResult(Chat(c.messages + [Message(stamp, User, c.input)], ""), Some(c.input))
  }

  /** `handleSuggestedPrompt`: the chosen prompt replaces the input text. */
  function ChooseSuggestion(c: Chat, i: nat): (r: Chat)
    requires i < |SuggestedPrompts|
    ensures r.messages == c.messages && r.input == SuggestedPrompts[i]
  {
    c.(input := SuggestedPrompts[i])
  }

  /** Milliseconds between a send and its reply. */
  const ReplyDelay: nat := 1000

  /** An `onAddNode` call to be made `delay` milliseconds after the reply. */
  datatype Scheduled = Scheduled(delay: nat, call: AddNodeCall)

  /** The add-node calls for requests[from..], the first having index `from`. */
  function PlaceFrom(requests: seq<NodeRequest>, from: nat): (r: seq<Scheduled>)
    requires from <= |requests|
    ensures |r| == |requests| - from
    ensures forall k :: 0 <= k < |r| ==>
              var i := from + k;
              r[k] == Scheduled(500 + 300 * i,
                                AddNodeCall(requests[i].nodeType, requests[i].caption, Some(150 + 280 * i), Some(150)))
    decreases |requests| - from
  {
    if from == |requests| then []
    else
      var i := from;
      [Scheduled(500 + i * 300, AddNodeCall(requests[i].nodeType, requests[i].caption, Some(150 + i * 280), Some(150)))]
      + PlaceFrom(requests, from + 1)
  }

  /** `response.nodes.forEach((node, index) => ...)`: one delayed add per
      request, in request order; request i fires 500 + 300 i ms after the
      reply and lands at (150 + 280 i, 150). */
  function Place(requests: seq<NodeRequest>): (r: seq<Scheduled>)
    ensures |r| == |requests|
    ensures forall i :: 0 <= i < |r| ==>
              r[i].delay == 500 + 300 * i
              && r[i].call == AddNodeCall(requests[i].nodeType, requests[i].caption, Some(150 + 280 * i), Some(150))
  {
    PlaceFrom(requests, 0)
  }

  /** Placed nodes march right in steps of 280 pixels on one row, and their
      calls fire in index order. */
  lemma PlacementLayout(requests: seq<NodeRequest>, i: nat, j: nat)
    requires i < j < |requests|
    ensures Place(requests)[i].call.y == Place(requests)[j].call.y
    ensures Place(requests)[j].call.x.value - Place(requests)[i].call.x.value == 280 * (j - i)
    ensures Place(requests)[i].call.x.value < Place(requests)[j].call.x.value
    ensures Place(requests)[i].delay < Place(requests)[j].delay
  {
    var r := Place(requests);
    assert r[i].call.x.value == 150 + 280 * i && r[j].call.x.value == 150 + 280 * j;
    assert r[i].delay == 500 + 300 * i && r[j].delay == 500 + 300 * j;
  }

  /** What the delayed reply does: append the assistant's message to the
      messages current at that time, and schedule the node additions. */
  datatype ReplyOutcome = ReplyOutcome(messages: seq<Message>, adds: seq<Scheduled>)

  /** The body of the 1000 ms timer, answering the input captured at send. */
  function DeliverReply(current: seq<Message>, sent: string, stamp: string): (r: ReplyOutcome)
    ensures |r.messages| == |current| + 1 && r.messages[..|current|] == current
    ensures r.messages[|current|].role == Bot
    ensures r.messages[|current|].content == GenerateResponse(sent).message
    ensures |r.adds| == (if Classify(Text.ToLower(sent)) == NoMatch then 0 else 3)
    ensures GenerateResponse(sent).nodes.Some? ==>
              forall k :: 0 <= k < |r.adds| ==>
                r.adds[k] == Scheduled(500 + 300 * k,
                                       AddNodeCall(GenerateResponse(sent).nodes.value[k].nodeType,
                                                   GenerateResponse(sent).nodes.value[k].caption,
                                                   Some(150 + 280 * k), Some(150)))
  {
    var response := GenerateResponse(sent);
    var adds := match response.nodes
      case Some(ns) => Place(ns)
      case None => [];
    ReplyOutcome(current + [Message(stamp, Bot, response.message)], adds)
  }
}
