/** The task timeline on the phone's screen: how a UI dump is cut into task cards.
    `TextRules` stands for Python's `strip`, `casefold` and `upper`. */
module Timeline {
  import opened Slices

  datatype TextRules = TextRules(strip: string -> string, fold: string -> string, upper: string -> string)

  datatype Bounds = Bounds(left: nat, top: nat, right: nat, bottom: nat)

  datatype UiNode = UiNode(
    text: string, contentDesc: string, className: string, bounds: Bounds,
    enabled: bool, clickable: bool, password: bool, focused: bool)

  const EDIT_TEXT := "android.widget.EditText"
  const DEBUG_HUB_ENDPOINT := "ws://127.0.0.1:8787/ws/v1"
  const TIMELINE_TITLE := "TASK TIMELINE"
  const MAX_TASK_CARD_WINDOW_NODES: nat := 30

  const TASK_CARD_STATUS_TEXTS: set<string> := {
    "AWAITING APPROVAL", "ACCEPTED", "BLOCKED", "CANCELLED", "COMPLETED UNVERIFIED", "DENIED", "FAILED",
    "PENDING", "PREPARING", "ROUTING", "RUNNING", "UNVERIFIED", "VERIFIED", "VERIFYING"
  }

  // ------------------------------------------------------ nodes of the timeline

  function TextNodes(nodes: seq<UiNode>): seq<UiNode> {
    if nodes == [] then []
    else if nodes[0].text != "" && nodes[0].className != EDIT_TEXT then [nodes[0]] + TextNodes(nodes[1..])
    else TextNodes(nodes[1..])
  }

  function AfterTitle(nodes: seq<UiNode>): seq<UiNode> {
    if nodes == [] then []
    else if nodes[0].text == TIMELINE_TITLE then nodes[1..]
    else AfterTitle(nodes[1..])
  }

  function TimelineNodes(screen: seq<UiNode>): seq<UiNode> { AfterTitle(TextNodes(screen)) }

  function Matching(rules: TextRules, nodes: seq<UiNode>, command: string): nat {
    if nodes == [] then 0
    else (if rules.fold(nodes[0].text) == rules.fold(command) then 1 else 0) + Matching(rules, nodes[1..], command)
  }

  /** `timeline_command_occurrences`. */
  function Occurrences(rules: TextRules, screen: seq<UiNode>, command: string): nat {
    Matching(rules, TimelineNodes(screen), command)
  }

  // --------------------------------------------------------- the command window

  predicate IsStatus(rules: TextRules, node: UiNode) {
    rules.upper(rules.strip(node.text)) in TASK_CARD_STATUS_TEXTS
  }

  /** A node is a card header when the node after it shows a task status. */
  predicate IsHeader(rules: TextRules, nodes: seq<UiNode>, i: nat) {
    i + 1 < |nodes| && IsStatus(rules, nodes[i + 1])
  }

  /** First header at or after `from`; |nodes| if there is none. */
  function NextHeader(rules: TextRules, nodes: seq<UiNode>, from: nat): (i: nat)
    requires from <= |nodes|
    ensures from <= i <= |nodes|
    ensures i < |nodes| ==> IsHeader(rules, nodes, i)
    ensures forall j :: from <= j < i ==> !IsHeader(rules, nodes, j)
    decreases |nodes| - from
  {
    if from == |nodes| || IsHeader(rules, nodes, from) then from else NextHeader(rules, nodes, from + 1)
  }

  predicate IsCommandHeader(rules: TextRules, nodes: seq<UiNode>, command: string, i: nat) {
    IsHeader(rules, nodes, i) && rules.fold(nodes[i].text) == rules.fold(command)
  }

  function FirstCommandHeader(rules: TextRules, nodes: seq<UiNode>, command: string, from: nat): (i: nat)
    requires from <= |nodes|
    ensures from <= i <= |nodes|
    ensures i < |nodes| ==> IsCommandHeader(rules, nodes, command, i)
    ensures forall j :: from <= j < i ==> !IsCommandHeader(rules, nodes, command, j)
    decreases |nodes| - from
  {
    if from == |nodes| || IsCommandHeader(rules, nodes, command, from) then from
    else FirstCommandHeader(rules, nodes, command, from + 1)
  }

  /** Where the window of the command's first card ends. */
  function WindowEnd(rules: TextRules, nodes: seq<UiNode>, start: nat): (end: nat)
    requires start < |nodes|
    ensures start < end <= |nodes|
  {
    var next := NextHeader(rules, nodes, start + 1);
    if next < |nodes| then next
    else if start + MAX_TASK_CARD_WINDOW_NODES < |nodes| then start + MAX_TASK_CARD_WINDOW_NODES
    else |nodes|
  }

  /** `command_window_nodes` on the nodes of the timeline. */
  function WindowOf(rules: TextRules, nodes: seq<UiNode>, command: string): seq<UiNode> {
    var start := FirstCommandHeader(rules, nodes, command, 0);
    if start == |nodes| then [] else nodes[start..WindowEnd(rules, nodes, start)]
  }

  function CommandWindow(rules: TextRules, screen: seq<UiNode>, command: string, freshCount: int): seq<UiNode> {
    if freshCount <= 0 then [] else WindowOf(rules, TimelineNodes(screen), command)
  }

  /** The card a node belongs to: the last header at or before it. */
  ghost predicate NearestHeader(rules: TextRules, nodes: seq<UiNode>, i: nat, header: nat) {
    && header <= i < |nodes| && IsHeader(rules, nodes, header)
    && forall j :: header < j <= i ==> !IsHeader(rules, nodes, j)
  }

  /** Every node of a window belongs to the command's first card, and the window
      leaves out a later node of that card only past 30 nodes of the last card. */
  lemma WindowIsOneCard(rules: TextRules, nodes: seq<UiNode>, command: string)
    requires WindowOf(rules, nodes, command) != []
    ensures var start := FirstCommandHeader(rules, nodes, command, 0);
            var window := WindowOf(rules, nodes, command);
            && start + |window| <= |nodes| && window == nodes[start..start + |window|]
            && IsCommandHeader(rules, nodes, command, start)
            && (forall i :: start <= i < start + |window| ==> NearestHeader(rules, nodes, i, start))
            && (forall i :: start + |window| <= i < |nodes| && NearestHeader(rules, nodes, i, start) ==>
                  |window| == 30 && forall j :: start < j < |nodes| ==> !IsHeader(rules, nodes, j))
  {
    var start := FirstCommandHeader(rules, nodes, command, 0);
    assert forall j :: start < j < NextHeader(rules, nodes, start + 1) ==> !IsHeader(rules, nodes, j);
  }

  // ------------------------------------------------------------------- cards

  /** A title, its status, and a body with no further status. */
  predicate WellFormedCard(rules: TextRules, card: seq<UiNode>) {
    && |card| >= 2
    && !IsStatus(rules, card[0]) && IsStatus(rules, card[1])
    && forall i :: 2 <= i < |card| ==> !IsStatus(rules, card[i])
  }

  predicate AllCards(rules: TextRules, cards: seq<seq<UiNode>>) {
    forall card <- cards :: WellFormedCard(rules, card)
  }

  function Concat(cards: seq<seq<UiNode>>): seq<UiNode> {
    if cards == [] then [] else cards[0] + Concat(cards[1..])
  }

  predicate Titled(rules: TextRules, card: seq<UiNode>, command: string)
    requires card != []
  {
    rules.fold(card[0].text) == rules.fold(command)
  }

  /** The first card titled with the command, cut to 30 nodes if it is the last card. */
  function FirstTitledCard(rules: TextRules, cards: seq<seq<UiNode>>, command: string): seq<UiNode>
    requires AllCards(rules, cards)
  {
    if cards == [] then []
    else
      assert cards[0] in cards && WellFormedCard(rules, cards[0]);
      if !Titled(rules, cards[0], command) then FirstTitledCard(rules, cards[1..], command)
    else if |cards| == 1 && |cards[0]| > MAX_TASK_CARD_WINDOW_NODES then cards[0][..MAX_TASK_CARD_WINDOW_NODES]
    else cards[0]
  }

  lemma HeadersOfFirstCard(rules: TextRules, cards: seq<seq<UiNode>>)
    requires AllCards(rules, cards) && cards != []
    ensures IsHeader(rules, Concat(cards), 0)
    ensures forall i :: 1 <= i < |cards[0]| ==> !IsHeader(rules, Concat(cards), i)
    ensures |cards| > 1 ==> IsHeader(rules, Concat(cards), |cards[0]|)
  {
    var nodes := Concat(cards);
    assert nodes == cards[0] + Concat(cards[1..]);
    assert WellFormedCard(rules, cards[0]);
    if |cards| > 1 {
      assert cards[1] in cards && WellFormedCard(rules, cards[1]);
      assert Concat(cards[1..]) == cards[1] + Concat(cards[1..][1..]);
    }
  }

  lemma HeaderShift(rules: TextRules, card: seq<UiNode>, rest: seq<UiNode>, i: nat)
    ensures IsHeader(rules, card + rest, |card| + i) == IsHeader(rules, rest, i)
  {
  }

  lemma {:induction false} NextHeaderShift(rules: TextRules, card: seq<UiNode>, rest: seq<UiNode>, from: nat)
    requires from <= |rest|
    ensures NextHeader(rules, card + rest, |card| + from) == |card| + NextHeader(rules, rest, from)
    decreases |rest| - from
  {
    if from < |rest| {
      HeaderShift(rules, card, rest, from);
      NextHeaderShift(rules, card, rest, from + 1);
    }
  }

  lemma {:induction false} CommandHeaderShift(
      rules: TextRules, card: seq<UiNode>, rest: seq<UiNode>, command: string, from: nat)
    requires from <= |rest|
    ensures FirstCommandHeader(rules, card + rest, command, |card| + from)
            == |card| + FirstCommandHeader(rules, rest, command, from)
    decreases |rest| - from
  {
    if from < |rest| {
      HeaderShift(rules, card, rest, from);
      CommandHeaderShift(rules, card, rest, command, from + 1);
    }
  }

  lemma {:induction false} SkipNonHeaders(rules: TextRules, nodes: seq<UiNode>, command: string, from: nat, to: nat)
    requires from <= to <= |nodes|
    requires forall i :: from <= i < to ==> !IsCommandHeader(rules, nodes, command, i)
    ensures FirstCommandHeader(rules, nodes, command, from) == FirstCommandHeader(rules, nodes, command, to)
    decreases |nodes| - from
  {
    if from < to {
      SkipNonHeaders(rules, nodes, command, from + 1, to);
    }
  }

  lemma WindowEndShift(rules: TextRules, card: seq<UiNode>, rest: seq<UiNode>, start: nat)
    requires start < |rest|
    ensures WindowEnd(rules, card + rest, |card| + start) == |card| + WindowEnd(rules, rest, start)
  {
    NextHeaderShift(rules, card, rest, start + 1);
    hide NextHeader, IsHeader;
  }

  lemma WindowShift(rules: TextRules, card: seq<UiNode>, rest: seq<UiNode>, command: string)
    requires FirstCommandHeader(rules, card + rest, command, 0) == |card| + FirstCommandHeader(rules, rest, command, 0)
    ensures WindowOf(rules, card + rest, command) == WindowOf(rules, rest, command)
  {
    hide FirstCommandHeader, WindowEnd, IsCommandHeader, IsHeader;
    var start := FirstCommandHeader(rules, rest, command, 0);
    if start < |rest| {
      WindowEndShift(rules, card, rest, start);
      SliceOfSecond(card, rest, start, WindowEnd(rules, rest, start));
    }
  }

  lemma WindowSkipsCard(rules: TextRules, card: seq<UiNode>, rest: seq<UiNode>, command: string)
    requires forall i :: 0 <= i < |card| ==> !IsCommandHeader(rules, card + rest, command, i)
    ensures WindowOf(rules, card + rest, command) == WindowOf(rules, rest, command)
  {
    hide WindowOf, IsCommandHeader;
    SkipNonHeaders(rules, card + rest, command, 0, |card|);
    CommandHeaderShift(rules, card, rest, command, 0);
    WindowShift(rules, card, rest, command);
  }

  /** On a timeline of well-formed cards the window is exactly the first card titled
      with the command, cut at 30 nodes only when it is the last card. */
  lemma {:induction false} WindowIsFirstTitledCard(rules: TextRules, cards: seq<seq<UiNode>>, command: string)
    requires AllCards(rules, cards)
    ensures WindowOf(rules, Concat(cards), command) == FirstTitledCard(rules, cards, command)
  {
    if cards != [] {
      var card, rest, nodes := cards[0], Concat(cards[1..]), Concat(cards);
      assert nodes == card + rest && card in cards;
      HeadersOfFirstCard(rules, cards);
      if Titled(rules, card, command) {
        assert FirstCommandHeader(rules, nodes, command, 0) == 0;
        assert |cards| == 1 ==> rest == [] && nodes == card;
        var next := NextHeader(rules, nodes, 1);
        assert |cards| > 1 ==> next == |card|;
        assert nodes[..|card|] == card;
      } else {
        WindowSkipsCard(rules, card, rest, command);
        WindowIsFirstTitledCard(rules, cards[1..], command);
      }
    }
  }

  // ------------------------------------------------------ which card is accepted

  function TitledCount(rules: TextRules, cards: seq<seq<UiNode>>, command: string): nat
    requires AllCards(rules, cards)
  {
    if cards == [] then 0
    else
      assert cards[0] in cards && WellFormedCard(rules, cards[0]);
      (if Titled(rules, cards[0], command) then 1 else 0) + TitledCount(rules, cards[1..], command)
  }

  predicate BodyFreeOf(rules: TextRules, card: seq<UiNode>, command: string) {
    forall i :: 1 <= i < |card| ==> rules.fold(card[i].text) != rules.fold(command)
  }

  /** Only card titles repeat the command. */
  predicate CommandOnlyInTitles(rules: TextRules, cards: seq<seq<UiNode>>, command: string) {
    forall card <- cards :: BodyFreeOf(rules, card, command)
  }

  lemma {:induction false} MatchingConcat(rules: TextRules, a: seq<UiNode>, b: seq<UiNode>, command: string)
    ensures Matching(rules, a + b, command) == Matching(rules, a, command) + Matching(rules, b, command)
  {
    if a == [] {
      assert a + b == b;
    } else {
      assert (a + b)[1..] == a[1..] + b;
      MatchingConcat(rules, a[1..], b, command);
    }
  }

  lemma {:induction false} NoMatching(rules: TextRules, nodes: seq<UiNode>, command: string)
    requires forall n <- nodes :: rules.fold(n.text) != rules.fold(command)
    ensures Matching(rules, nodes, command) == 0
  {
    if nodes != [] { NoMatching(rules, nodes[1..], command); }
  }

  lemma {:induction false} OccurrencesAreTitles(rules: TextRules, cards: seq<seq<UiNode>>, command: string)
    requires AllCards(rules, cards) && CommandOnlyInTitles(rules, cards, command)
    ensures Matching(rules, Concat(cards), command) == TitledCount(rules, cards, command)
  {
    if cards != [] {
      var card := cards[0];
      assert card in cards;
      assert card == [card[0]] + card[1..];
      NoMatching(rules, card[1..], command);
      MatchingConcat(rules, card, Concat(cards[1..]), command);
      OccurrencesAreTitles(rules, cards[1..], command);
    }
  }

  /** The window is one of these cards, perhaps cut short. */
  ghost predicate ShowsOneOf(window: seq<UiNode>, cards: seq<seq<UiNode>>) {
    exists card <- cards :: |window| >= 2 && window <= card
  }

  lemma {:induction false} TitledConcat(rules: TextRules, a: seq<seq<UiNode>>, b: seq<seq<UiNode>>, command: string)
    requires AllCards(rules, a) && AllCards(rules, b)
    ensures AllCards(rules, a + b)
    ensures TitledCount(rules, a + b, command) == TitledCount(rules, a, command) + TitledCount(rules, b, command)
    ensures TitledCount(rules, a, command) > 0 ==> ShowsOneOf(FirstTitledCard(rules, a + b, command), a)
    ensures TitledCount(rules, a, command) == 0 ==>
              FirstTitledCard(rules, a + b, command) == FirstTitledCard(rules, b, command)
  {
    if a == [] {
      assert a + b == b;
    } else {
      assert (a + b)[1..] == a[1..] + b;
      assert a[0] in a && WellFormedCard(rules, a[0]);
      TitledConcat(rules, a[1..], b, command);
      if Titled(rules, a[0], command) {
        assert FirstTitledCard(rules, a + b, command) <= a[0];
      } else if TitledCount(rules, a[1..], command) > 0 {
        var card :| card in a[1..] && FirstTitledCard(rules, a[1..] + b, command) <= card;
        assert card in a;
      }
    }
  }

  /** The whole timeline after Send: cards added since, newest first, above the
      cards that were there before. */
  ghost predicate TimelineAfterSend(
      rules: TextRules, screen: seq<UiNode>, command: string, added: seq<seq<UiNode>>, earlier: seq<seq<UiNode>>)
  {
    && AllCards(rules, added) && AllCards(rules, earlier)
    && CommandOnlyInTitles(rules, added + earlier, command)
    && TimelineNodes(screen) == Concat(added + earlier)
  }

  /** If the earlier cards visible now were all counted before Send, a positive fresh
      count means a card for the command was added, and the window is its card. */
  lemma FreshCountMeansNewCard(
      rules: TextRules, screen: seq<UiNode>, command: string,
      added: seq<seq<UiNode>>, earlier: seq<seq<UiNode>>, baseline: nat)
    requires TimelineAfterSend(rules, screen, command, added, earlier)
    requires Occurrences(rules, screen, command) - baseline > 0
    requires TitledCount(rules, earlier, command) <= baseline
    ensures TitledCount(rules, added, command) > 0
    ensures ShowsOneOf(CommandWindow(rules, screen, command, Occurrences(rules, screen, command) - baseline), added)
  {
    TitledConcat(rules, added, earlier, command);
    OccurrencesAreTitles(rules, added + earlier, command);
    WindowIsFirstTitledCard(rules, added + earlier, command);
  }

  /** The condition is exact: when more earlier cards show the command than were
      counted before Send, nothing new is needed for a positive fresh count, and the
      window is an earlier card. */
  lemma UncountedCardsLookFresh(
      rules: TextRules, screen: seq<UiNode>, command: string, earlier: seq<seq<UiNode>>, baseline: nat)
    requires TimelineAfterSend(rules, screen, command, [], earlier)
    ensures Occurrences(rules, screen, command) - baseline > 0 <==> TitledCount(rules, earlier, command) > baseline
    ensures CommandWindow(rules, screen, command, 1) == FirstTitledCard(rules, earlier, command)
  {
    assert [] + earlier == earlier;
    OccurrencesAreTitles(rules, earlier, command);
    WindowIsFirstTitledCard(rules, earlier, command);
  }
}
