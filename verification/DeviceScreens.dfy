/** What the runner reads off a screen, said over the nodes of the screen: the field it types
    into, the control it taps for Send, the button it approves with, the keys it sends. */
module DeviceScreens {
  import opened DeviceCommand
  import opened Options
  import opened Substrings
  import opened Timeline

  /** `i` is the first node that `p` holds of. */
  predicate FirstAt(nodes: seq<UiNode>, p: UiNode -> bool, i: nat) {
    i < |nodes| && p(nodes[i]) && forall j :: 0 <= j < i ==> !p(nodes[j])
  }

  /** The choice is the first node that `p` holds of, none only if there is no such node. */
  ghost predicate Chooses(choice: Option<UiNode>, nodes: seq<UiNode>, p: UiNode -> bool) {
    match choice
    case None => forall n <- nodes :: !p(n)
    case Some(node) => exists i: nat :: FirstAt(nodes, p, i) && nodes[i] == node
  }

  lemma ChoiceCons(choice: Option<UiNode>, nodes: seq<UiNode>, p: UiNode -> bool)
    requires nodes != [] && !p(nodes[0]) && Chooses(choice, nodes[1..], p)
    ensures Chooses(choice, nodes, p)
  {
    if choice.Some? {
      var i: nat :| FirstAt(nodes[1..], p, i) && nodes[1..][i] == choice.value;
      assert forall j :: 0 < j <= i ==> nodes[j] == nodes[1..][j - 1];
      assert FirstAt(nodes, p, i + 1);
    }
  }

  lemma ChoiceIsFirst(nodes: seq<UiNode>, p: UiNode -> bool)
    requires nodes != [] && p(nodes[0])
    ensures Chooses(Some(nodes[0]), nodes, p)
  {
    assert FirstAt(nodes, p, 0);
  }

  // ------------------------------------------------------------ histories

  /** `part` is how the history began. */
  predicate Within(part: History, h: History) { part == h || (h.Then? && Within(part, h.past)) }

  predicate Seen(h: History, screen: Screen) {
    h.Then? && (h.event == Saw(screen) || Seen(h.past, screen))
  }

  lemma {:induction false} PartIsDisciplined(job: Job, part: History, h: History)
    requires Disciplined(job, h) && Within(part, h)
    ensures Disciplined(job, part)
  {
    if part != h {
      PartIsDisciplined(job, part, h.past);
    }
  }

  // ------------------------------------------------------------- the field

  /** Where a command may be typed: never a password field, never the endpoint's own field. */
  predicate Editable(n: UiNode) {
    n.enabled && !n.password && n.className == "android.widget.EditText" && n.text != "ws://127.0.0.1:8787/ws/v1"
  }

  lemma {:induction false} FieldIsFirstEditable(nodes: seq<UiNode>)
    ensures Chooses(FindCommandField(nodes), nodes, Editable)
  {
    if nodes != [] {
      if Editable(nodes[0]) {
        ChoiceIsFirst(nodes, Editable);
      } else {
        FieldIsFirstEditable(nodes[1..]);
        ChoiceCons(FindCommandField(nodes[1..]), nodes, Editable);
      }
    }
  }

  /** Some screen seen shows this node as its first editable field. */
  ghost predicate ShownAsField(h: History, field: UiNode) {
    exists screen :: Seen(h, screen) && Chooses(Some(field), screen.Nodes(), Editable)
  }

  lemma {:induction false} LastFieldWasShown(h: History)
    ensures LastField(h).Some? ==> ShownAsField(h, LastField(h).value)
    ensures LastField(h).None? ==> forall screen, n :: Seen(h, screen) && n in screen.Nodes() ==> !Editable(n)
  {
    hide Chooses, FindCommandField, Editable;
    if h.Then? {
      LastFieldWasShown(h.past);
      if h.event.Saw? {
        FieldIsFirstEditable(h.event.screen.Nodes());
        NoChoice(h.event.screen.Nodes());
      }
      if LastField(h).Some? && ShownAsField(h.past, LastField(h).value) {
        var screen :| Seen(h.past, screen) && Chooses(LastField(h), screen.Nodes(), Editable);
        assert Seen(h, screen);
      }
    }
  }

  lemma NoChoice(nodes: seq<UiNode>)
    ensures Chooses(None, nodes, Editable) ==> forall n <- nodes :: !Editable(n)
  {
  }

  /** Whatever field is focused was the first editable node of a screen seen before. */
  lemma FocusedFieldWasShown(job: Job, h: History, before: History, field: UiNode, ok: bool)
    requires Disciplined(job, h) && Within(Then(before, Did(FocusField(field), ok)), h)
    ensures ShownAsField(before, field)
  {
    PartIsDisciplined(job, Then(before, Did(FocusField(field), ok)), h);
    assert Justified(job, before, Did(FocusField(field), ok));
    LastFieldWasShown(before);
  }

  /** A run that finds no field was shown none. */
  lemma NoFieldWasShown(job: Job, h: History)
    requires Explained(job, h, FieldNotFound)
    ensures forall screen, n :: Seen(h, screen) && n in screen.Nodes() ==> !Editable(n)
  {
    LastFieldWasShown(h);
  }

  // ------------------------------------------------------------------ Send

  predicate SaysSend(n: UiNode) { n.text == "Send" }

  predicate DescribedAsSend(rules: TextRules, n: UiNode) {
    var words := rules.fold(rules.strip(n.contentDesc));
    words == "send" || words == "submit goffy command"
  }

  /** An enabled button of at most 180 by 240, at the right edge of the field. */
  predicate SmallAndBeside(n: UiNode, field: UiNode) {
    var b, f := n.bounds, field.bounds;
    && n.enabled && n.clickable && b.right <= b.left + 180 && b.bottom <= b.top + 240
    && f.right <= b.right + 20 && f.right <= b.left + 120 && f.top <= b.top + 20 && b.bottom <= f.bottom + 260
  }

  /** No candidate ends further right, none that ends there starts further right, and none
      of the same place comes earlier. */
  ghost predicate Rightmost(nodes: seq<UiNode>, field: UiNode, i: nat) {
    && i < |nodes| && SmallAndBeside(nodes[i], field)
    && forall j :: 0 <= j < |nodes| && SmallAndBeside(nodes[j], field) ==>
         var a, b := nodes[j].bounds, nodes[i].bounds;
         a.right < b.right || (a.right == b.right && (a.left < b.left || (a.left == b.left && i <= j)))
  }

  lemma {:induction false} LabelledIsFirst(nodes: seq<UiNode>)
    ensures Labelled(nodes) == [] <==> forall n <- nodes :: !SaysSend(n)
    ensures Chooses(FirstEnabled(Labelled(nodes)), nodes, n => SaysSend(n) && n.enabled)
  {
    if nodes != [] {
      var p := (n: UiNode) => SaysSend(n) && n.enabled;
      LabelledIsFirst(nodes[1..]);
      if SaysSend(nodes[0]) {
        assert nodes[0] in nodes && Labelled(nodes)[0] == nodes[0] && Labelled(nodes)[1..] == Labelled(nodes[1..]);
      } else {
        assert Labelled(nodes) == Labelled(nodes[1..]);
      }
      if p(nodes[0]) {
        ChoiceIsFirst(nodes, p);
      } else {
        ChoiceCons(FirstEnabled(Labelled(nodes[1..])), nodes, p);
      }
    }
  }

  lemma {:induction false} DescribedIsFirst(rules: TextRules, nodes: seq<UiNode>)
    ensures Described(rules, nodes) == [] <==> forall n <- nodes :: !DescribedAsSend(rules, n)
    ensures Chooses(FirstEnabled(Described(rules, nodes)), nodes, n => DescribedAsSend(rules, n) && n.enabled)
  {
    if nodes != [] {
      var p := (n: UiNode) => DescribedAsSend(rules, n) && n.enabled;
      var rest := Described(rules, nodes[1..]);
      DescribedIsFirst(rules, nodes[1..]);
      if DescribedAsSend(rules, nodes[0]) {
        assert nodes[0] in nodes && Described(rules, nodes)[0] == nodes[0] && Described(rules, nodes)[1..] == rest;
      } else {
        assert Described(rules, nodes) == rest;
      }
      if p(nodes[0]) {
        ChoiceIsFirst(nodes, p);
      } else {
        ChoiceCons(FirstEnabled(rest), nodes, p);
      }
    }
  }

  lemma {:induction false} BesideIsRightmost(nodes: seq<UiNode>, field: UiNode)
    ensures match RightmostBeside(nodes, field)
            case None => forall n <- nodes :: !SmallAndBeside(n, field)
            case Some(control) => exists i: nat :: Rightmost(nodes, field, i) && nodes[i] == control
  {
    if nodes != [] {
      BesideIsRightmost(nodes[1..], field);
      BesideIff(nodes[0], field);
      var rest := RightmostBeside(nodes[1..], field);
      hide BesideField, SmallAndBeside;
      if rest.Some? {
        var i: nat :| Rightmost(nodes[1..], field, i) && nodes[1..][i] == rest.value;
        assert forall j :: 0 < j < |nodes| ==> nodes[j] == nodes[1..][j - 1];
        if BesideField(nodes[0], field) && !RightOf(rest.value, nodes[0]) {
          assert Rightmost(nodes, field, 0);
        } else {
          assert Rightmost(nodes, field, i + 1);
        }
      } else if BesideField(nodes[0], field) {
        assert forall j :: 0 < j < |nodes| ==> nodes[j] == nodes[1..][j - 1] && nodes[1..][j - 1] in nodes[1..];
        assert Rightmost(nodes, field, 0);
      }
    }
  }

  lemma BesideIff(n: UiNode, field: UiNode)
    ensures BesideField(n, field) <==> SmallAndBeside(n, field)
  {
  }

  /** What counts as Send on a screen: a node that says so, else one described so, else
      the rightmost small button beside the field; the first enabled one each time. */
  ghost predicate IsSendChoice(rules: TextRules, nodes: seq<UiNode>, field: UiNode, choice: Option<UiNode>) {
    if exists n <- nodes :: SaysSend(n) then
      Chooses(choice, nodes, n => SaysSend(n) && n.enabled)
    else if exists n <- nodes :: DescribedAsSend(rules, n) then
      Chooses(choice, nodes, n => DescribedAsSend(rules, n) && n.enabled)
    else
      match choice
      case None => forall n <- nodes :: !SmallAndBeside(n, field)
      case Some(control) => exists i: nat :: Rightmost(nodes, field, i) && nodes[i] == control
  }

  lemma SendIsChosen(rules: TextRules, nodes: seq<UiNode>, field: UiNode)
    ensures IsSendChoice(rules, nodes, field, FindSend(rules, nodes, field))
  {
    hide Chooses, Rightmost, SaysSend, DescribedAsSend, SmallAndBeside;
    LabelledIsFirst(nodes);
    DescribedIsFirst(rules, nodes);
    BesideIsRightmost(nodes, field);
  }

  /** A tap on Send hits the Send control of the last screen, 96 pixels above the edge of the
      viewport, with the command in the last field shown, up to white space and case. */
  lemma TappedSendWasShown(job: Job, h: History, before: History, control: UiNode, ok: bool)
    requires Disciplined(job, h) && Within(Then(before, Did(TapSend(control), ok)), h)
    ensures before.Then? && before.event.Saw? && control in before.event.screen.Nodes()
    ensures control.enabled && control.bounds.bottom + 96 <= 1604
    ensures exists field ::
      (ShownAsField(before, field)
       && job.rules.fold(job.rules.strip(field.text)) == job.rules.fold(job.rules.strip(job.command))
       && IsSendChoice(job.rules, LastNodes(before), field, Some(control)))
  {
    PartIsDisciplined(job, Then(before, Did(TapSend(control), ok)), h);
    assert Justified(job, before, Did(TapSend(control), ok));
    var field := LastField(before).value;
    hide IsSendChoice, ShownAsField, FindSend;
    LastFieldWasShown(before);
    SendIsOnScreen(job.rules, LastNodes(before), field);
    SendIsChosen(job.rules, LastNodes(before), field);
  }

  /** A run that gives up on Send was shown none, or one too close to the edge of the viewport. */
  lemma UntappedSendWasHidden(job: Job, h: History)
    requires Explained(job, h, SendNotVisible)
    ensures exists field, choice ::
      (ShownAsField(h, field) && IsSendChoice(job.rules, LastNodes(h), field, choice)
       && (choice.Some? ==> choice.value.bounds.bottom + 96 > 1604))
  {
    var field := LastField(h).value;
    LastFieldWasShown(h);
    SendIsChosen(job.rules, LastNodes(h), field);
    hide IsSendChoice, ShownAsField, FindSend;
  }

  // --------------------------------------------------------------- approval

  predicate Pressable(n: UiNode, text: string) { n.text == text && n.enabled }

  /** `i` is the only enabled node with this text. */
  predicate OnlyEnabled(nodes: seq<UiNode>, text: string, i: nat) {
    && i < |nodes| && Pressable(nodes[i], text)
    && forall j :: 0 <= j < |nodes| && j != i ==> !Pressable(nodes[j], text)
  }

  lemma {:induction false} NoneEnabled(nodes: seq<UiNode>, text: string)
    ensures EnabledWithText(nodes, text) == [] <==> forall n <- nodes :: !Pressable(n, text)
  {
    if nodes != [] {
      NoneEnabled(nodes[1..], text);
      assert nodes[0] in nodes && forall n <- nodes[1..] :: n in nodes;
    }
  }

  lemma OnlyFirst(nodes: seq<UiNode>, text: string)
    requires nodes != [] && Pressable(nodes[0], text)
    ensures OnlyEnabled(nodes, text, 0) <==> forall n <- nodes[1..] :: !Pressable(n, text)
    ensures forall i: nat :: OnlyEnabled(nodes, text, i) ==> i == 0
  {
    hide Pressable;
    assert forall j :: 0 < j < |nodes| ==> nodes[j] == nodes[1..][j - 1] && nodes[1..][j - 1] in nodes[1..];
    assert forall n <- nodes[1..] :: exists j :: 0 < j < |nodes| && nodes[j] == n;
  }

  lemma OnlyLater(nodes: seq<UiNode>, text: string, i: nat)
    requires nodes != [] && !Pressable(nodes[0], text)
    ensures OnlyEnabled(nodes, text, i + 1) <==> OnlyEnabled(nodes[1..], text, i)
  {
    hide Pressable;
    assert forall j :: 0 < j < |nodes| ==> nodes[j] == nodes[1..][j - 1];
    if OnlyEnabled(nodes, text, i + 1) {
      assert forall j :: 0 <= j < |nodes[1..]| ==> nodes[1..][j] == nodes[j + 1];
    }
  }

  ghost predicate LoneButton(nodes: seq<UiNode>, text: string, control: UiNode) {
    exists i: nat :: OnlyEnabled(nodes, text, i) && nodes[i] == control
  }

  lemma {:induction false} LoneIsOnly(nodes: seq<UiNode>, text: string, control: UiNode)
    ensures EnabledWithText(nodes, text) == [control] <==> LoneButton(nodes, text, control)
  {
    if nodes != [] {
      var rest := nodes[1..];
      LoneIsOnly(rest, text, control);
      NoneEnabled(rest, text);
      if Pressable(nodes[0], text) {
        OnlyFirst(nodes, text);
        hide OnlyEnabled;
        assert EnabledWithText(nodes, text) == [nodes[0]] + EnabledWithText(rest, text);
        assert |EnabledWithText(nodes, text)| == 1 + |EnabledWithText(rest, text)|;
        if EnabledWithText(rest, text) == [] {
          assert OnlyEnabled(nodes, text, 0) && EnabledWithText(nodes, text)[0] == nodes[0];
        }
      } else {
        assert EnabledWithText(nodes, text) == EnabledWithText(rest, text);
        hide EnabledWithText;
        if i: nat :| OnlyEnabled(rest, text, i) && rest[i] == control {
          OnlyLater(nodes, text, i);
          assert nodes[i + 1] == control;
        }
        if i: nat :| OnlyEnabled(nodes, text, i) && nodes[i] == control {
          OnlyLater(nodes, text, i - 1);
        }
      }
    }
  }

  /** A tap on Approve hits the only enabled node with the configured text in the fresh
      command's card, which shows all approval markers. */
  lemma TappedApproveWasLone(job: Job, h: History, before: History, control: UiNode, ok: bool)
    requires Disciplined(job, h) && Within(Then(before, Did(TapApprove(control), ok)), h)
    ensures job.approvalButton.Some? && job.approvalMarkers != []
    ensures var card := CommandWindow(job.rules, LastNodes(before), job.command, Fresh(job, before));
      && LoneButton(card, job.approvalButton.value, control)
      && forall m <- job.approvalMarkers :: Contains(m, Segment(card))
  {
    PartIsDisciplined(job, Then(before, Did(TapApprove(control), ok)), h);
    assert Justified(job, before, Did(TapApprove(control), ok));
    var card := CommandWindow(job.rules, LastNodes(before), job.command, Fresh(job, before));
    assert EnabledWithText(card, job.approvalButton.value) == [control];
    LoneIsOnly(card, job.approvalButton.value, control);
    ShowsMarkers(job, LastNodes(before), Fresh(job, before), job.approvalMarkers);
  }

  lemma ShowsMarkers(job: Job, nodes: seq<UiNode>, freshCount: int, markers: seq<string>)
    requires WindowShows(job, nodes, freshCount, markers)
    ensures forall m <- markers :: Contains(m, Segment(CommandWindow(job.rules, nodes, job.command, freshCount)))
  {
  }

  // ------------------------------------------------------------------- keys

  const LOWER := "abcdefghijklmnopqrstuvwxyz"
  const UPPER := "ABCDEFGHIJKLMNOPQRSTUVWXYZ"

  /** The same letter, digit or space, in lower case. */
  predicate InLowerCase(key: char, c: char) {
    || (key == c && (c == ' ' || '0' <= c <= '9' || c in LOWER))
    || exists i :: 0 <= i < 26 && c == UPPER[i] && key == LOWER[i]
  }

  /** The keys sent, in order. */
  function Keys(h: History): string {
    match h
    case Start => []
    case Then(past, Did(KeyEvent(key), _)) => Keys(past) + [key]
    case Then(past, _) => Keys(past)
  }

  lemma AlphabetAt(i: int)
    requires 0 <= i < 26
    ensures LOWER[i] as int == 'a' as int + i && UPPER[i] as int == 'A' as int + i
  {
  }

  lemma KeyIsLetter(c: char)
    ensures KeyFor(c).Some? ==> InLowerCase(KeyFor(c).value, c)
  {
    if 'a' <= c <= 'z' {
      var i := c as int - 'a' as int;
      AlphabetAt(i);
      assert c == LOWER[i];
    } else if 'A' <= c <= 'Z' {
      var i := c as int - 'A' as int;
      AlphabetAt(i);
      assert c == UPPER[i] && KeyFor(c).value == LOWER[i];
    }
  }

  /** What can be typed: up to 120 letters, digits, spaces and six punctuation characters. */
  lemma SupportedIff(command: string)
    ensures Supported(command) <==>
      && 1 <= |command| <= 120
      && forall c <- command :: c in LOWER || c in UPPER || '0' <= c <= '9' || c in " .,_:-"
  {
    forall c | c in command
      ensures ('a' <= c <= 'z' <==> c in LOWER) && ('A' <= c <= 'Z' <==> c in UPPER)
    {
      InAlphabet(c);
    }
    assert " .,_:-" == [' ', '.', ',', '_', ':', '-'];
  }

  lemma InAlphabet(c: char)
    ensures 'a' <= c <= 'z' <==> c in LOWER
    ensures 'A' <= c <= 'Z' <==> c in UPPER
  {
    forall i | 0 <= i < 26 ensures LOWER[i] as int == 'a' as int + i && UPPER[i] as int == 'A' as int + i {
      AlphabetAt(i);
    }
    if 'a' <= c <= 'z' {
      assert c == LOWER[c as int - 'a' as int];
    }
    if 'A' <= c <= 'Z' {
      assert c == UPPER[c as int - 'A' as int];
    }
  }

  /** A supported command lacks a key exactly for a punctuation character. */
  lemma NoKeyIff(command: string)
    requires Supported(command)
    ensures (exists c <- command :: KeyFor(c).None?) <==> exists c <- command :: c in ".,_:-"
  {
    var punctuation := ".,_:-";
    assert punctuation == ['.', ',', '_', ':', '-'];
    forall c | c in command ensures KeyFor(c).None? <==> c in punctuation {
    }
  }

  /** The keys sent spell a beginning of the command in lower case. */
  lemma {:induction false} KeysSpellCommand(job: Job, h: History)
    requires Disciplined(job, h)
    ensures |Keys(h)| == KeysTyped(h) <= |job.command|
    ensures forall i :: 0 <= i < |Keys(h)| ==> InLowerCase(Keys(h)[i], job.command[i])
  {
    hide InLowerCase, KeyFor;
    if h.Then? {
      KeysSpellCommand(job, h.past);
      if h.event.Did? && h.event.action.KeyEvent? {
        assert Justified(job, h.past, h.event);
        KeyIsLetter(job.command[KeysTyped(h.past)]);
      }
    }
  }

  // ------------------------------------------------------------ card texts

  /** The texts of a card are joined by single spaces. */
  lemma {:induction false} SegmentJoins(a: seq<UiNode>, b: seq<UiNode>)
    requires a != [] && b != []
    ensures Segment(a + b) == Segment(a) + " " + Segment(b)
    ensures |b| == 1 ==> Segment(b) == b[0].text
  {
    if |a| == 1 {
      assert (a + b)[1..] == b;
    } else {
      assert (a + b)[1..] == a[1..] + b;
      SegmentJoins(a[1..], b);
      var rest, last := Segment(a[1..]), Segment(b);
      assert a[0].text + " " + (rest + " " + last) == a[0].text + " " + rest + " " + last;
    }
  }

  /** Without a fresh occurrence there is no card to look at. */
  lemma NoCardUnlessFresh(rules: TextRules, screen: seq<UiNode>, command: string, freshCount: int)
    requires freshCount <= 0
    ensures CommandWindow(rules, screen, command, freshCount) == []
  {
  }

  predicate StatusWord(word: string) {
    || word == "AWAITING APPROVAL" || word == "ACCEPTED" || word == "BLOCKED" || word == "CANCELLED"
    || word == "COMPLETED UNVERIFIED" || word == "DENIED" || word == "FAILED" || word == "PENDING"
    || word == "PREPARING" || word == "ROUTING" || word == "RUNNING" || word == "UNVERIFIED"
    || word == "VERIFIED" || word == "VERIFYING"
  }

  /** A card starts where the next node shows one of the fourteen statuses. */
  lemma HeaderIff(rules: TextRules, nodes: seq<UiNode>, i: nat)
    ensures IsHeader(rules, nodes, i) <==>
              i + 1 < |nodes| && StatusWord(rules.upper(rules.strip(nodes[i + 1].text)))
  {
  }

  /** The timeline starts after the first visible "TASK TIMELINE". */
  lemma {:induction false} TimelineFollowsTitle(before: seq<UiNode>, title: UiNode, after: seq<UiNode>)
    requires title.text == "TASK TIMELINE" && title.className != "android.widget.EditText"
    requires forall n <- before :: n.text == "TASK TIMELINE" ==> n.className == "android.widget.EditText"
    ensures TimelineNodes(before + [title] + after) == TextNodes(after)
  {
    var screen := before + [title] + after;
    if before == [] {
      assert screen[0] == title && screen[1..] == after;
      assert |"TASK TIMELINE"| == 13;
      assert TextNodes(screen) == [title] + TextNodes(after);
    } else {
      assert screen[0] == before[0] && screen[1..] == before[1..] + [title] + after;
      assert before[0] in before;
      TimelineFollowsTitle(before[1..], title, after);
    }
  }

  lemma {:induction false} NoTimeline(screen: seq<UiNode>)
    requires forall n <- screen :: n.text == "TASK TIMELINE" ==> n.className == "android.widget.EditText"
    ensures TimelineNodes(screen) == []
  {
    if screen != [] {
      assert screen[0] in screen;
      NoTimeline(screen[1..]);
    }
  }

  /** It keeps the nodes with a text that are no input fields, in order. */
  lemma {:induction false} TextNodesJoin(a: seq<UiNode>, b: seq<UiNode>)
    ensures TextNodes(a + b) == TextNodes(a) + TextNodes(b)
    ensures |b| == 1 ==>
      TextNodes(b) == if b[0].text == "" || b[0].className == "android.widget.EditText" then [] else b
  {
    if a == [] {
      assert a + b == b;
    } else {
      assert (a + b)[1..] == a[1..] + b;
      TextNodesJoin(a[1..], b);
    }
  }
}
