/** The suggested prompts of the assistant panel, and the proof that each
    one reaches the node-producing branch it is written for. */
module PromptCoverage {
  import opened Wrappers
  import opened Workflow
  import Text
  import NodeStyle
  import opened Assistant

  /** The intent each suggested prompt is written to trigger. */
  function PromptIntent(i: nat): Intent
    requires i < |SuggestedPrompts|
  {
    [WebScraping, EmailAutomation, EmailAutomation, DataExtraction][i]
  }

  /** Slices of a concatenation that fall inside one piece. */
  lemma PrefixSlice(a: string, b: string, i: int, j: int)
    requires 0 <= i <= j <= |a|
    ensures (a + b)[i..j] == a[i..j]
  {
  }

  lemma SuffixSlice(a: string, b: string, i: int, j: int)
    requires 0 <= i <= j <= |b|
    ensures (a + b)[|a| + i..|a| + j] == b[i..j]
  {
  }

  lemma ScrapePromptClassifies()
    ensures Classify(Text.ToLower(PromptScrape)) == WebScraping
  {
    var t := Text.ToLower(PromptScrape);
    var head := "Build a workflow that " + "scrapes a website and ";
    assert PromptScrape == head + "summarizes the content";
    PrefixSlice(head, "summarizes the content", 22, 28);
    assert forall j :: 0 <= j < 6 ==> !Text.IsUpper("scrape"[j]);
    Text.OccursAfterLowering(PromptScrape, "scrape", 22);
    ClassifyPriority(t);
  }

  lemma LeadPromptClassifies()
    ensures Classify(Text.ToLower(PromptLead)) == EmailAutomation
  {
    var t := Text.ToLower(PromptLead);
    Text.NoOccurrenceWithoutLetter(PromptLead, "scrape", 0);
    Text.NoOccurrenceWithoutLetter(PromptLead, "website", 3);
    assert PromptLead == "Create a lead " + ("enrichment flow");
    PrefixSlice("Create a lead ", "enrichment flow", 9, 13);
    assert forall j :: 0 <= j < 4 ==> !Text.IsUpper("lead"[j]);
    Text.OccursAfterLowering(PromptLead, "lead", 9);
    ClassifyPriority(t);
  }

  lemma EmailPromptClassifies()
    ensures Classify(Text.ToLower(PromptEmail)) == EmailAutomation
  {
    var t := Text.ToLower(PromptEmail);
    Text.NoOccurrenceWithoutLetter(PromptEmail, "scrape", 2);
    Text.NoOccurrenceWithoutLetter(PromptEmail, "website", 2);
    assert PromptEmail == "Set up email " + ("automation with AI " + "classification");
    PrefixSlice("Set up email ", "automation with AI " + "classification", 7, 12);
    assert forall j :: 0 <= j < 5 ==> !Text.IsUpper("email"[j]);
    Text.OccursAfterLowering(PromptEmail, "email", 7);
    ClassifyPriority(t);
  }

  lemma ExtractPromptSkipsScraping()
    ensures !MentionsScraping(Text.ToLower(PromptExtract))
  {
    Text.NoOccurrenceBefore(PromptExtract, "scrape", 0, 25);
    Text.NoOccurrenceWithoutLetter(PromptExtract, "website", 0);
  }

  lemma ExtractPromptNoLeadBefore3()
    ensures forall i :: i < 3 ==> !Text.OccursAt(Text.ToLower(PromptExtract), "lead", i)
  {
    Text.NoOccurrenceBefore(PromptExtract, "lead", 0, 2);
    Text.NoOccurrenceAt(PromptExtract, "lead", 2, 1);
  }

  lemma ExtractPromptNoLeadFrom3()
    ensures forall i :: 3 <= i ==> !Text.OccursAt(Text.ToLower(PromptExtract), "lead", i)
  {
    var s := PromptExtract;
    assert 'l' !in s[3..] && 'L' !in s[3..];
    Text.NoOccurrenceFrom(s, "lead", 0, 3);
  }

  lemma ExtractPromptSkipsLead()
    ensures !Text.Occurs(Text.ToLower(PromptExtract), "lead")
  {
    ExtractPromptNoLeadBefore3();
    ExtractPromptNoLeadFrom3();
  }

  lemma ExtractPromptClassifies()
    ensures Classify(Text.ToLower(PromptExtract)) == DataExtraction
  {
    var t := Text.ToLower(PromptExtract);
    ExtractPromptSkipsScraping();
    ExtractPromptSkipsLead();
    Text.NoOccurrenceWithoutLetter(PromptExtract, "email", 3);
    assert PromptExtract == "Help me extract " + "data from PDFs";
    SuffixSlice("Help me extract ", "data from PDFs", 0, 4);
    assert forall j :: 0 <= j < 4 ==> !Text.IsUpper("data"[j]);
    Text.OccursAfterLowering(PromptExtract, "data", 16);
    ClassifyPriority(t);
  }

  /** Each suggested prompt lands in its intended node-producing branch:
      scraping, lead, email and data extraction respectively. */
  lemma SuggestedPromptsClassify(i: nat)
    requires i < |SuggestedPrompts|
    ensures Classify(Text.ToLower(SuggestedPrompts[i])) == PromptIntent(i)
    ensures PromptIntent(i) != NoMatch
  {
    if i == 0 {
      ScrapePromptClassifies();
    } else if i == 1 {
      LeadPromptClassifies();
    } else if i == 2 {
      EmailPromptClassifies();
    } else {
      ExtractPromptClassifies();
    }
  }

  /** Picking any suggested prompt and sending it adds one user message and,
      when the reply arrives, schedules exactly three node additions, all of
      types the colour table knows, at x = 150, 430, 710. */
  lemma SuggestionBuildsThreeNodes(c: Chat, i: nat, stamp: string, replyStamp: string)
    requires i < |SuggestedPrompts|
    ensures var sent := HandleSend(ChooseSuggestion(c, i), stamp);
            && sent.pending == Some(SuggestedPrompts[i])
            && sent.chat.messages == c.messages + [Message(stamp, User, SuggestedPrompts[i])]
            && var reply := DeliverReply(sent.chat.messages, SuggestedPrompts[i], replyStamp);
               && |reply.adds| == 3
               && (forall k :: 0 <= k < 3 ==> NodeStyle.IsKnownType(reply.adds[k].call.nodeType))
               && reply.adds[0].call.x == Some(150) && reply.adds[1].call.x == Some(430)
               && reply.adds[2].call.x == Some(710)
  {
    var p := SuggestedPrompts[i];
    SuggestedPromptsClassify(i);
    assert p[0] != ' ' && !Text.IsJsWhitespace(p[0]);
    var r := GenerateResponse(p);
    assert r.nodes.Some?;
  }
}
