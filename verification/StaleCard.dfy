/** A run that is accepted although nothing new appeared and no approval was given: the
    card was there all along, but on no screen seen before Send. */
module StaleCard {
  import opened DeviceCommand
  import opened Options
  import opened Substrings
  import opened Timeline

  /** What the run needs of `strip`, `casefold` and `upper`, and Python's have. */
  predicate Suits(rules: TextRules) {
    && rules.fold("VERIFIED") != rules.fold("hi")
    && rules.upper(rules.strip("VERIFIED")) in TASK_CARD_STATUS_TEXTS
    && rules.upper(rules.strip("hi")) !in TASK_CARD_STATUS_TEXTS
  }

  function Label(text: string): UiNode {
    UiNode(text, "", "TextView", Bounds(0, 200, 400, 260), true, false, false, false)
  }

  function Field(): UiNode { UiNode("hi", "", EDIT_TEXT, Bounds(0, 100, 400, 160), true, true, false, true) }
  function Send(): UiNode { Label("Send") }

  /** What the phone shows before Send, and ever after. */
  function Before(): seq<UiNode> { [Field(), Send()] }
  function Later(): seq<UiNode> { [Label(TIMELINE_TITLE), Label("hi"), Label("VERIFIED")] }

  /** A run that expects a verified card and wants its approval. */
  function Wanted(rules: TextRules): Job { Job(rules, "hi", ["VERIFIED"], ["CONFIRM"], Some("APPROVE"), 10) }

  function Typed(): History {
    Then(Then(Then(Then(Start, Saw(Dump(Before()))), Did(FocusField(Field()), true)), Did(TypeText, true)),
         Did(HideKeyboard, true))
  }

  function Sent(): History { Then(Then(Typed(), Saw(Dump(Before()))), Did(TapSend(Send()), true)) }

  /** The look right after Send and the first poll. */
  function Run(): History { Then(Then(Sent(), Saw(Dump(Later()))), Saw(Dump(Later()))) }

  lemma BeforeScreen(rules: TextRules)
    ensures FindCommandField(Before()) == Some(Field())
    ensures FindSend(rules, Before(), Field()) == Some(Send()) && SafelyVisible(Send())
    ensures FieldMatches(Wanted(rules), Field()) && Occurrences(rules, Before(), "hi") == 0
  {
    assert |"hi"| == 2 && |DEBUG_HUB_ENDPOINT| > 2 && |TIMELINE_TITLE| == 13 && |"Send"| == 4;
    assert Before()[1..] == [Send()] && [Send()][1..] == [];
    assert Labelled(Before()) == [Send()];
    assert TextNodes(Before()) == [Send()];
    assert AfterTitle([Send()]) == [];
  }

  lemma LaterTimeline()
    ensures TimelineNodes(Later()) == [Label("hi"), Label("VERIFIED")]
    ensures FindCommandField(Later()) == None
  {
    var heading, status := Label("hi"), Label("VERIFIED");
    assert |"hi"| == 2 && |TIMELINE_TITLE| == 13 && |"VERIFIED"| == 8 && |EDIT_TEXT| == 23 && |"TextView"| == 8;
    assert Later()[1..] == [heading, status] && [heading, status][1..] == [status] && [status][1..] == [];
    assert TextNodes([]) == [] && [status] + [] == [status] && [heading] + [status] == [heading, status];
    assert TextNodes([status]) == [status];
    assert TextNodes([heading, status]) == [heading, status];
    assert TextNodes(Later()) == Later();
  }

  lemma StatusTexts(rules: TextRules)
    requires Suits(rules)
    ensures IsStatus(rules, Label("VERIFIED")) && !IsStatus(rules, Label("hi"))
  {
  }

  /** The card fills the timeline, so it is the window. */
  lemma LaterWindow(rules: TextRules)
    requires Suits(rules)
    ensures Occurrences(rules, Later(), "hi") == 1
    ensures CommandWindow(rules, Later(), "hi", 1) == [Label("hi"), Label("VERIFIED")]
    ensures TimelineAfterSend(rules, Later(), "hi", [], [[Label("hi"), Label("VERIFIED")]])
  {
    var card := [Label("hi"), Label("VERIFIED")];
    LaterTimeline();
    StatusTexts(rules);
    assert |"hi"| == 2 && |"VERIFIED"| == 8;
    hide IsStatus, TextNodes, AfterTitle, TimelineNodes;
    assert card[1..] == [Label("VERIFIED")] && [Label("VERIFIED")][1..] == [];
    assert Matching(rules, [Label("VERIFIED")], "hi") == 0;
    assert IsCommandHeader(rules, card, "hi", 0) && !IsHeader(rules, card, 1);
    assert card[0..2] == card;
    assert [card][1..] == [] && Concat([card]) == card + Concat([]);
    assert [] + [card] == [card];
  }

  lemma LaterCard(rules: TextRules)
    requires Suits(rules)
    ensures WindowShows(Wanted(rules), Later(), 1, ["VERIFIED"])
    ensures ApprovalCandidates(Wanted(rules), Later(), 1) == []
  {
    var card := [Label("hi"), Label("VERIFIED")];
    LaterWindow(rules);
    hide CommandWindow, Occurrences;
    assert card[1..] == [Label("VERIFIED")] && [Label("VERIFIED")][1..] == [];
    assert Segment(card) == "hi" + " " + "VERIFIED";
    assert ("hi" + " " + "VERIFIED")[3..] == "VERIFIED";
    assert ContainsAt("VERIFIED", Segment(card), 3);
    assert |"APPROVE"| == 7 && |"hi"| == 2 && |"VERIFIED"| == 8;
  }

  /** Before Send, with the command in the field and nothing counted yet. */
  ghost predicate ReadyToType(rules: TextRules, h: History) {
    && Disciplined(Wanted(rules), h) && !SendTapped(h) && !LastFailed(h)
    && LastField(h) == Some(Field()) && Baseline(Wanted(rules), h) == 0
  }

  lemma ActionKeepsReady(rules: TextRules, h: History, action: Action)
    requires ReadyToType(rules, h) && Justified(Wanted(rules), h, Did(action, true)) && !action.TapSend?
    ensures ReadyToType(rules, Then(h, Did(action, true)))
  {
    hide Justified, Field, Wanted;
  }

  lemma TypedIsDisciplined(rules: TextRules)
    ensures ReadyToType(rules, Typed())
  {
    BeforeScreen(rules);
    hide FindCommandField, FindSend, Occurrences, WindowShows, Field, Send, Before, FieldMatches;
    var seen := Then(Start, Saw(Dump(Before())));
    assert Disciplined(Wanted(rules), Start) && Justified(Wanted(rules), Start, Saw(Dump(Before())));
    assert Disciplined(Wanted(rules), seen);
    assert !SendTapped(Start) && Baseline(Wanted(rules), Start) == 0;
    assert LastField(seen) == Some(Field()) && Baseline(Wanted(rules), seen) == 0;
    assert ReadyToType(rules, seen);
    var focused := Then(seen, Did(FocusField(Field()), true));
    ActionKeepsReady(rules, seen, FocusField(Field()));
    ActionKeepsReady(rules, focused, TypeText);
    ActionKeepsReady(rules, Then(focused, Did(TypeText, true)), HideKeyboard);
  }

  lemma SentIsDisciplined(rules: TextRules)
    ensures Disciplined(Wanted(rules), Sent()) && SendTapped(Sent()) && !LastFailed(Sent())
    ensures Baseline(Wanted(rules), Sent()) == 0 && Polls(Sent()) == 0
    ensures NothingOverlooked(Wanted(rules), Sent()) && !ApproveTapped(Sent())
  {
    BeforeScreen(rules);
    TypedIsDisciplined(rules);
    hide FindCommandField, FindSend, Occurrences, WindowShows, Field, Send, Before, FieldMatches, Typed, SafelyVisible;
    var seen := Then(Typed(), Saw(Dump(Before())));
    assert LastNodes(seen) == Before() && LastField(seen) == Some(Field());
    assert Disciplined(Wanted(rules), seen) && Baseline(Wanted(rules), seen) == 0 && !SendTapped(seen);
    BeforeSend(Wanted(rules), seen);
  }

  /** What a look after Send leaves as it is. */
  lemma LookAfterSend(job: Job, h: History, screen: Screen)
    requires Disciplined(job, h) && SendTapped(h) && !LastFailed(h)
    ensures var after := Then(h, Saw(screen));
      && Disciplined(job, after) && SendTapped(after) && !LastFailed(after)
      && Baseline(job, after) == Baseline(job, h) && Polls(after) == Polls(h) + 1
      && ApproveTapped(after) == ApproveTapped(h) && LastNodes(after) == screen.Nodes()
  {
    hide Occurrences, FindCommandField;
  }

  /** The whole run keeps the discipline and is accepted. Approval was wanted and never given,
      and the timeline shows nothing but a card that was there before Send. */
  lemma StaleCardIsAccepted(rules: TextRules)
    requires Suits(rules)
    ensures Disciplined(Wanted(rules), Run()) && Accepted(Wanted(rules), Run())
    ensures ApprovalWanted(Wanted(rules)) && !ApproveTapped(Run())
    ensures TimelineAfterSend(rules, LastNodes(Run()), "hi", [], [[Label("hi"), Label("VERIFIED")]])
  {
    var job, first := Wanted(rules), Then(Sent(), Saw(Dump(Later())));
    SentIsDisciplined(rules);
    LookAfterSend(job, Sent(), Dump(Later()));
    LookAfterSend(job, first, Dump(Later()));
    LaterWindow(rules);
    LaterCard(rules);
    hide Sent, Later, Suits, Label, Occurrences, WindowShows, ApprovalCandidates, TimelineAfterSend;
    hide Disciplined, SendTapped, ApproveTapped, Baseline, Polls, LastNodes, Verified, Approvable;
    assert NothingOverlooked(job, first);
    assert Fresh(job, Run()) == 1;
    AcceptedRun(rules);
  }

  lemma AcceptedRun(rules: TextRules)
    requires SendTapped(Run().past) && LastNodes(Run()) == Later() && Fresh(Wanted(rules), Run()) == 1
    requires NothingOverlooked(Wanted(rules), Run().past) && WindowShows(Wanted(rules), Later(), 1, ["VERIFIED"])
    requires ApprovalCandidates(Wanted(rules), Later(), 1) == []
    ensures Accepted(Wanted(rules), Run()) && ApprovalWanted(Wanted(rules))
  {
    hide Later, WindowShows, ApprovalCandidates, SendTapped, NothingOverlooked, Fresh, LastNodes;
  }
}
