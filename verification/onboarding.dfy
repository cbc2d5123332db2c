/** The onboarding dialog: the tutorial table, the one-way step from the
    welcome page to the tutorial list, and the credit ledger kept by
    `handleCompleteTutorial` (each tutorial pays out once). Credits are
    reported through `onEarnCredits`; the awards are the amounts passed. */
module Onboarding {
  import opened Wrappers

  datatype Tutorial = Tutorial(id: string, title: string, credits: nat, color: string)

  /** `tutorials`, in display order. */
  const Tutorials: seq<Tutorial> := [
    Tutorial("web-scraping", "Web Scraping 101", 200, "cyan"),
    Tutorial("ai-summarization", "AI Summarization", 200, "blue"),
    Tutorial("automation-basics", "Automation Basics", 200, "amber"),
    Tutorial("ai-agents", "AI Agent Workflows", 400, "purple")
  ]

  /** The ids of the table are pairwise distinct. */
  lemma TutorialIdsDistinct()
    ensures forall i, j :: 0 <= i < j < |Tutorials| ==> Tutorials[i].id != Tutorials[j].id
  {
  }

  predicate IsTutorialId(id: string) {
    exists k :: 0 <= k < |Tutorials| && Tutorials[k].id == id
  }

  /** The credits the table lists for `id` (0 for an id it does not list). */
  function CreditFor(id: string): (c: nat)
    ensures forall k :: 0 <= k < |Tutorials| && Tutorials[k].id == id ==> c == Tutorials[k].credits
    ensures !IsTutorialId(id) ==> c == 0
  {
    if id == Tutorials[0].id then Tutorials[0].credits
    else if id == Tutorials[1].id then Tutorials[1].credits
    else if id == Tutorials[2].id then Tutorials[2].credits
    else if id == Tutorials[3].id then Tutorials[3].credits
    else 0
  }

  datatype Step = Welcome | TutorialList

  /** `currentStep` and `completedTutorials`. */
  datatype State = State(step: Step, completed: seq<string>)

  const Initial: State := State(Welcome, [])

  /** `handleStartBuilding`. */
  function StartBuilding(s: State): (r: State)
    ensures r.step == TutorialList && r.completed == s.completed
  {
    s.(step := TutorialList)
  }

  /** The new state and, when credits were earned, the amount passed to
      `onEarnCredits`. */
  datatype Completion = Completion(state: State, award: Option<nat>)

  /** `handleCompleteTutorial(id, credits)`: a new id is appended and its
      credits paid; an id already completed changes nothing and pays
      nothing. */
  function CompleteTutorial(s: State, id: string, credits: nat): (r: Completion)
    ensures id in s.completed ==> r == Completion(s, None)
    ensures id !in s.completed ==>
              r.state == s.(completed := s.completed + [id]) && r.award == Some(credits)
  {
    if id in s.completed then Completion(s, None)
    else Completion(s.(completed := s.completed + [id]), Some(credits))
  }

  /** Completing the same tutorial twice is the same as completing it once,
      and the second attempt pays nothing. */
  lemma CompleteIdempotent(s: State, id: string, credits: nat, again: nat)
    ensures var once := CompleteTutorial(s, id, credits);
            var twice := CompleteTutorial(once.state, id, again);
            twice.state == once.state && twice.award.None?
  {
  }

  /** The dialog's buttons that change its state: "Start Learning" on the
      welcome page (it calls `handleStartBuilding`), and the credits button
      of the tutorial at an index on the list page. */
  datatype Event = StartLearningClick | CompleteClick(index: nat)

  datatype Outcome = Outcome(state: State, awards: seq<nat>)

  /** One click. A complete button exists only on the list page, for a
      listed tutorial, and passes that tutorial's id and credits; a click on
      a button that is not shown changes nothing. */
  function Handle(s: State, e: Event): (r: Completion)
    ensures e.StartLearningClick? ==> r == Completion(State(TutorialList, s.completed), None)
    ensures e.CompleteClick? && s.step == TutorialList && e.index < |Tutorials| ==>
              var t := Tutorials[e.index];
              && (t.id in s.completed ==> r == Completion(s, None))
              && (t.id !in s.completed ==> r == Completion(State(TutorialList, s.completed + [t.id]), Some(t.credits)))
    ensures e.CompleteClick? && !(s.step == TutorialList && e.index < |Tutorials|) ==> r == Completion(s, None)
  {
    match e
    case StartLearningClick => Completion(StartBuilding(s), None)
    case CompleteClick(k) =>
      if s.step == TutorialList && k < |Tutorials| then CompleteTutorial(s, Tutorials[k].id, Tutorials[k].credits)
      else Completion(s, None)
  }

  /** The amount passed to `onEarnCredits` by one click, if any. */
  function Paid(c: Completion): seq<nat> {
    if c.award.Some? then [c.award.value] else []
  }

  function Run(s: State, events: seq<Event>): Outcome
    decreases |events|
  {
    if |events| == 0 then Outcome(s, [])
    else
      var c := Handle(s, events[0]);
      var rest := Run(c.state, events[1..]);
      Outcome(rest.state, Paid(c) + rest.awards)
  }

  /** Once on the list page, no click leads back to the welcome page. */
  lemma {:induction false} NoReturnToWelcome(s: State, events: seq<Event>)
    requires s.step == TutorialList
    ensures Run(s, events).state.step == TutorialList
    decreases |events|
  {
    if |events| > 0 {
      NoReturnToWelcome(Handle(s, events[0]).state, events[1..]);
    }
  }

  /** The welcome page is left only by "Start Learning". */
  lemma LeaveWelcomeOnlyByStart(s: State, e: Event)
    requires s.step == Welcome
    ensures Handle(s, e).state.step == TutorialList <==> e == StartLearningClick
    ensures e != StartLearningClick ==> Handle(s, e) == Completion(s, None)
  {
  }

  predicate NoDuplicates(ids: seq<string>) {
    forall i, j :: 0 <= i < j < |ids| ==> ids[i] != ids[j]
  }

  /** Sum of the table credits of `ids`. */
  function CreditsOf(ids: seq<string>): nat
    decreases |ids|
  {
    if |ids| == 0 then 0 else CreditsOf(ids[..|ids| - 1]) + CreditFor(ids[|ids| - 1])
  }

  function Sum(xs: seq<nat>): nat
    decreases |xs|
  {
    if |xs| == 0 then 0 else xs[0] + Sum(xs[1..])
  }

  lemma {:induction false} SumAppend(a: seq<nat>, b: seq<nat>)
    ensures Sum(a + b) == Sum(a) + Sum(b)
    decreases |a|
  {
    if |a| == 0 {
      assert a + b == b;
    } else {
      assert (a + b)[1..] == a[1..] + b;
      SumAppend(a[1..], b);
    }
  }

  /** How many tutorials of the table appear in `ids`, and their credits. */
  function ListedCount(ids: seq<string>): nat {
    (if Tutorials[0].id in ids then 1 else 0) + (if Tutorials[1].id in ids then 1 else 0)
    + (if Tutorials[2].id in ids then 1 else 0) + (if Tutorials[3].id in ids then 1 else 0)
  }

  function ListedCredits(ids: seq<string>): nat {
    (if Tutorials[0].id in ids then Tutorials[0].credits else 0)
    + (if Tutorials[1].id in ids then Tutorials[1].credits else 0)
    + (if Tutorials[2].id in ids then Tutorials[2].credits else 0)
    + (if Tutorials[3].id in ids then Tutorials[3].credits else 0)
  }

  /** The ledger: completed ids are distinct tutorial ids, one award was paid
      per completed id, and the awards add up to their table credits. */
  predicate Ledger(s: State, awards: seq<nat>) {
    && NoDuplicates(s.completed)
    && (forall i :: 0 <= i < |s.completed| ==> IsTutorialId(s.completed[i]))
    && |awards| == |s.completed|
    && Sum(awards) == CreditsOf(s.completed)
  }

  /** Appending a tutorial id not yet present adds one listed tutorial and
      that tutorial's credits. */
  lemma AppendListed(init: seq<string>, k: int)
    requires 0 <= k < |Tutorials| && Tutorials[k].id !in init
    ensures ListedCount(init + [Tutorials[k].id]) == ListedCount(init) + 1
    ensures ListedCredits(init + [Tutorials[k].id]) == ListedCredits(init) + Tutorials[k].credits
  {
    TutorialIdsDistinct();
    var ids := init + [Tutorials[k].id];
    forall j | 0 <= j < |Tutorials|
      ensures Tutorials[j].id in ids <==> Tutorials[j].id in init || j == k
    {
      assert Tutorials[j].id in ids <==> Tutorials[j].id in init || Tutorials[j].id == Tutorials[k].id;
    }
  }

  /** A distinct list of tutorial ids has one element per listed tutorial
      it contains, and its credits are those tutorials' credits. */
  lemma {:induction false} DistinctTutorialIds(ids: seq<string>)
    requires NoDuplicates(ids) && forall i :: 0 <= i < |ids| ==> IsTutorialId(ids[i])
    ensures |ids| == ListedCount(ids) && CreditsOf(ids) == ListedCredits(ids)
    decreases |ids|
  {
    if |ids| > 0 {
      var init := ids[..|ids| - 1];
      var x := ids[|ids| - 1];
      assert ids == init + [x];
      assert IsTutorialId(x);
      var k :| 0 <= k < |Tutorials| && Tutorials[k].id == x;
      DistinctTutorialIds(init);
      AppendListed(init, k);
    }
  }

  /** The shown count never exceeds the four tutorials and the credits
      paid never exceed 200 + 200 + 200 + 400. */
  lemma LedgerBounds(s: State, awards: seq<nat>)
    requires Ledger(s, awards)
    ensures |s.completed| <= |Tutorials| == 4
    ensures Sum(awards) <= 1000
  {
    DistinctTutorialIds(s.completed);
  }

  lemma HandleKeepsLedger(s: State, awards: seq<nat>, e: Event)
    requires Ledger(s, awards)
    ensures var c := Handle(s, e);
            Ledger(c.state, awards + Paid(c))
  {
    var c := Handle(s, e);
    if c.award.Some? {
      var k := e.index;
      var ids := c.state.completed;
      assert ids[..|ids| - 1] == s.completed;
      SumAppend(awards, [c.award.value]);
      assert Sum([c.award.value]) == c.award.value;
      assert forall i :: 0 <= i < |s.completed| ==> ids[i] == s.completed[i];
    } else {
      assert awards + [] == awards;
    }
  }

  /** Any click sequence from the initial state keeps the ledger: each
      tutorial pays exactly once, in total at most 1000 credits. */
  lemma {:induction false} RunKeepsLedger(s: State, awards: seq<nat>, events: seq<Event>)
    requires Ledger(s, awards)
    ensures var o := Run(s, events);
            Ledger(o.state, awards + o.awards)
    decreases |events|
  {
    if |events| == 0 {
      assert awards + Run(s, events).awards == awards;
    } else {
      var c := Handle(s, events[0]);
      var rest := Run(c.state, events[1..]);
      HandleKeepsLedger(s, awards, events[0]);
      RunKeepsLedger(c.state, awards + Paid(c), events[1..]);
      assert awards + Paid(c) + rest.awards == awards + (Paid(c) + rest.awards);
    }
  }

  /** From the initial state, the credits paid by any click sequence equal
      the table credits of the completed tutorials, at most 1000, and at
      most four tutorials are shown as completed. */
  lemma CreditsFromInitial(events: seq<Event>)
    ensures var o := Run(Initial, events);
            && Sum(o.awards) == CreditsOf(o.state.completed) <= 1000
            && |o.state.completed| <= 4
            && NoDuplicates(o.state.completed)
  {
    var o := Run(Initial, events);
    assert Ledger(Initial, []);
    RunKeepsLedger(Initial, [], events);
    assert [] + o.awards == o.awards;
    LedgerBounds(o.state, o.awards);
  }
}
