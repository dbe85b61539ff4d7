/** `submit_and_verify_command`: type a command on the phone, tap Send, approve it if
    asked, and wait for evidence of a fresh, verified task card. The phone may answer
    anything; what the runner does is a history of looks and actions. */
module DeviceCommand {
  import opened Clock
  import opened Options
  import opened Substrings
  import opened Timeline

  /** What `latest_ui_text` gives: blank text, or the nodes of a dump (none if it does not parse). */
  datatype Screen = Blank | Dump(dumped: seq<UiNode>) {
    function Nodes(): seq<UiNode> { if Blank? then [] else dumped }
  }

  datatype Action =
    | FocusField(field: UiNode) | ClearField | TypeText | HideKeyboard | KeyEvent(key: char)
    | RevealField | RevealSend | RevealTimeline
    | TapSend(control: UiNode) | TapApprove(control: UiNode)

  datatype Event = Saw(screen: Screen) | Did(action: Action, ok: bool)
  datatype History = Start | Then(past: History, event: Event)

  datatype Job = Job(
    rules: TextRules, command: string, expected: seq<string>,
    approvalMarkers: seq<string>, approvalButton: Option<string>, waitTimeout: int)

  datatype Reason =
    | UnsupportedCommand | FieldNotFound | StepFailed | NoKeyForCharacter | NotEntered
    | CommandMismatch | SendNotVisible | AmbiguousApproval | TimedOut
  datatype Verdict = Ok | Fail(reason: Reason)

  const MAX_INPUT_TEXT_LENGTH := 120
  const COMMAND_REVEALS: nat := 5
  const SEND_REVEALS: nat := 4
  const TIMELINE_REVEALS: nat := 3
  const SETTLE_POLLS: nat := 3
  const VIEWPORT_BOTTOM := 1604
  const SEND_BOTTOM_SAFE_MARGIN := 96

  // -------------------------------------------------------- reading a screen

  function FindCommandField(nodes: seq<UiNode>): Option<UiNode> {
    if nodes == [] then None
    else if nodes[0].className == EDIT_TEXT && nodes[0].enabled && !nodes[0].password
            && nodes[0].text != DEBUG_HUB_ENDPOINT then Some(nodes[0])
    else FindCommandField(nodes[1..])
  }

  function FirstEnabled(nodes: seq<UiNode>): Option<UiNode> {
    if nodes == [] then None else if nodes[0].enabled then Some(nodes[0]) else FirstEnabled(nodes[1..])
  }

  function Labelled(nodes: seq<UiNode>): seq<UiNode> {
    if nodes == [] then []
    else (if nodes[0].text == "Send" then [nodes[0]] else []) + Labelled(nodes[1..])
  }

  function Described(rules: TextRules, nodes: seq<UiNode>): seq<UiNode> {
    if nodes == [] then []
    else (if rules.fold(rules.strip(nodes[0].contentDesc)) in {"send", "submit goffy command"} then [nodes[0]] else [])
         + Described(rules, nodes[1..])
  }

  /** An unlabelled control that could be Send: enabled, clickable, small, to the right of the field. */
  predicate BesideField(n: UiNode, field: UiNode) {
    && n.enabled && n.clickable
    && n.bounds.right >= field.bounds.right - 20 && n.bounds.left >= field.bounds.right - 120
    && n.bounds.top >= field.bounds.top - 20 && n.bounds.bottom <= field.bounds.bottom + 260
    && n.bounds.right - n.bounds.left <= 180 && n.bounds.bottom - n.bounds.top <= 240
  }

  predicate RightOf(a: UiNode, b: UiNode) {
    a.bounds.right > b.bounds.right || (a.bounds.right == b.bounds.right && a.bounds.left > b.bounds.left)
  }

  /** The first of the rightmost candidates. */
  function RightmostBeside(nodes: seq<UiNode>, field: UiNode): Option<UiNode> {
    if nodes == [] then None
    else
      var rest := RightmostBeside(nodes[1..], field);
      if !BesideField(nodes[0], field) then rest
      else if rest.Some? && RightOf(rest.value, nodes[0]) then rest
      else Some(nodes[0])
  }

  function FindSend(rules: TextRules, nodes: seq<UiNode>, field: UiNode): Option<UiNode> {
    if Labelled(nodes) != [] then FirstEnabled(Labelled(nodes))
    else if Described(rules, nodes) != [] then FirstEnabled(Described(rules, nodes))
    else RightmostBeside(nodes, field)
  }

  predicate SafelyVisible(n: UiNode) { n.bounds.bottom <= VIEWPORT_BOTTOM - SEND_BOTTOM_SAFE_MARGIN }

  predicate FieldMatches(job: Job, field: UiNode) {
    job.rules.fold(job.rules.strip(field.text)) == job.rules.fold(job.rules.strip(job.command))
  }

  function Segment(nodes: seq<UiNode>): string {
    if nodes == [] then [] else if |nodes| == 1 then nodes[0].text else nodes[0].text + " " + Segment(nodes[1..])
  }

  /** `command_window_contains`. */
  predicate WindowShows(job: Job, nodes: seq<UiNode>, freshCount: int, markers: seq<string>) {
    var window := CommandWindow(job.rules, nodes, job.command, freshCount);
    window != [] && forall m <- markers :: Contains(m, Segment(window))
  }

  function EnabledWithText(nodes: seq<UiNode>, text: string): seq<UiNode> {
    if nodes == [] then []
    else (if nodes[0].text == text && nodes[0].enabled then [nodes[0]] else []) + EnabledWithText(nodes[1..], text)
  }

  /** The approval buttons inside the fresh command's card. */
  function ApprovalCandidates(job: Job, nodes: seq<UiNode>, freshCount: int): seq<UiNode>
    requires job.approvalButton.Some?
  {
    EnabledWithText(CommandWindow(job.rules, nodes, job.command, freshCount), job.approvalButton.value)
  }

  // ---------------------------------------------------- what a history tells

  function LastNodes(h: History): seq<UiNode> {
    match h
    case Start => []
    case Then(_, Saw(screen)) => screen.Nodes()
    case Then(past, Did(_, _)) => LastNodes(past)
  }

  function LastField(h: History): Option<UiNode> {
    match h
    case Start => None
    case Then(past, Did(_, _)) => LastField(past)
    case Then(past, Saw(screen)) =>
      var found := FindCommandField(screen.Nodes());
      if found.Some? then found else LastField(past)
  }

  predicate SendTapped(h: History) {
    match h
    case Start => false
    case Then(past, event) => SendTapped(past) || (event.Did? && event.action.TapSend?)
  }

  predicate ApproveTapped(h: History) {
    match h
    case Start => false
    case Then(past, event) => ApproveTapped(past) || (event.Did? && event.action.TapApprove?)
  }

  predicate JustLooked(h: History) { h.Then? && h.event.Saw? }

  predicate LastFailed(h: History) { h.Then? && h.event.Did? && !h.event.ok }

  function Count(job: Job, screen: Screen): nat { Occurrences(job.rules, screen.Nodes(), job.command) }

  function Max(a: nat, b: nat): nat { if a < b then b else a }

  /** The most occurrences of the command on any screen seen before Send. */
  function Baseline(job: Job, h: History): nat {
    match h
    case Start => 0
    case Then(past, Did(_, _)) => Baseline(job, past)
    case Then(past, Saw(screen)) =>
      if SendTapped(past) then Baseline(job, past) else Max(Baseline(job, past), Count(job, screen))
  }

  function Fresh(job: Job, h: History): int {
    Occurrences(job.rules, LastNodes(h), job.command) - Baseline(job, h)
  }

  function Polls(h: History): nat {
    match h
    case Start => 0
    case Then(past, event) => Polls(past) + if event.Saw? && SendTapped(past) then 1 else 0
  }

  datatype Swipes = Swipes(field: nat, send: nat, timeline: nat)

  function SwipesIn(h: History): Swipes {
    match h
    case Start => Swipes(0, 0, 0)
    case Then(past, Did(RevealField, _)) => var s := SwipesIn(past); s.(field := s.field + 1)
    case Then(past, Did(RevealSend, _)) => var s := SwipesIn(past); s.(send := s.send + 1)
    case Then(past, Did(RevealTimeline, _)) => var s := SwipesIn(past); s.(timeline := s.timeline + 1)
    case Then(past, _) => SwipesIn(past)
  }

  function KeysTyped(h: History): nat {
    match h
    case Start => 0
    case Then(past, event) => KeysTyped(past) + if event.Did? && event.action.KeyEvent? then 1 else 0
  }

  // --------------------------------------------------------------- discipline

  predicate ApprovalWanted(job: Job) { job.approvalButton.Some? && job.approvalMarkers != [] }

  /** The last screen asks to approve the fresh command. */
  predicate AsksApproval(job: Job, h: History) {
    && ApprovalWanted(job) && !ApproveTapped(h) && Fresh(job, h) > 0
    && WindowShows(job, LastNodes(h), Fresh(job, h), job.approvalMarkers)
  }

  predicate Approvable(job: Job, h: History) {
    && h.Then? && h.event.Saw? && h.event.screen.Dump? && SendTapped(h.past)
    && AsksApproval(job, h) && |ApprovalCandidates(job, LastNodes(h), Fresh(job, h))| == 1
  }

  /** The last event is a poll that shows a lone approval button in the fresh card. */
  predicate OffersApproval(job: Job, h: History) { Approvable(job, h) && Polls(h.past) > 0 }

  /** Why each action was allowed, given everything seen and done before it. */
  predicate Justified(job: Job, h: History, event: Event) {
    !LastFailed(h) &&
    match event
    case Saw(_) => true
    case Did(FocusField(field), _) => JustLooked(h) && !SendTapped(h) && LastField(h) == Some(field)
    case Did(ClearField, _) =>
      && !SendTapped(h) && h.Then? && h.event.Did? && h.event.action.FocusField?
      && job.rules.strip(h.event.action.field.text) != "" && !FieldMatches(job, h.event.action.field)
    case Did(TypeText, _) =>
      && !SendTapped(h) && h.Then? && h.event.Did?
      && (h.event.action.ClearField? ||
          (h.event.action.FocusField? &&
           (job.rules.strip(h.event.action.field.text) == "" || FieldMatches(job, h.event.action.field))))
    case Did(KeyEvent(key), _) =>
      && !SendTapped(h) && h.Then? && h.event.Did? && (h.event.action.FocusField? || h.event.action.KeyEvent?)
      && KeysTyped(h) < |job.command| && KeyFor(job.command[KeysTyped(h)]) == Some(key)
    case Did(HideKeyboard, _) =>
      && !SendTapped(h) && h.Then? && h.event.Did?
      && (h.event.action.TypeText? || KeysTyped(h) == |job.command|)
    case Did(RevealField, _) => JustLooked(h) && !SendTapped(h) && LastField(h).None?
    case Did(RevealSend, _) => JustLooked(h) && !SendTapped(h)
    case Did(RevealTimeline, _) => JustLooked(h) && SendTapped(h) && Polls(h) > SETTLE_POLLS + 1
    case Did(TapSend(control), _) =>
      && JustLooked(h) && !SendTapped(h)
      && LastField(h).Some? && FieldMatches(job, LastField(h).value)
      && FindSend(job.rules, LastNodes(h), LastField(h).value) == Some(control) && SafelyVisible(control)
    case Did(TapApprove(control), _) =>
      OffersApproval(job, h) && ApprovalCandidates(job, LastNodes(h), Fresh(job, h)) == [control]
  }

  predicate Disciplined(job: Job, h: History) {
    match h
    case Start => true
    case Then(past, event) => Disciplined(job, past) && Justified(job, past, event)
  }

  predicate SawBeforeSend(h: History, screen: Screen) {
    match h
    case Start => false
    case Then(past, event) => SawBeforeSend(past, screen) || (event == Saw(screen) && !SendTapped(past))
  }

  /** The last thing seen, after Send, is a dump with more of the command than every
      screen seen before Send, whose first card for it holds all the markers. */
  predicate Verified(job: Job, h: History) {
    && h.Then? && h.event.Saw? && h.event.screen.Dump? && SendTapped(h.past)
    && Fresh(job, h) > 0 && WindowShows(job, LastNodes(h), Fresh(job, h), job.expected)
  }

  /** No screen polled after Send showed evidence or a lone approval button that was
      not acted on. The first look after Send is only read when no approval is configured. */
  predicate NothingOverlooked(job: Job, h: History) {
    match h
    case Start => true
    case Then(Then(before, Saw(_)), Did(TapApprove(_), _)) => NothingOverlooked(job, before)
    case Then(past, Did(_, _)) => NothingOverlooked(job, past)
    case Then(past, Saw(_)) =>
      && NothingOverlooked(job, past)
      && (job.approvalButton.None? || Polls(past) > 0 ==> !Verified(job, h) && !Approvable(job, h))
  }

  /** The last screen does not ask to approve the fresh command, or has no enabled button
      with the approval text in its card. */
  predicate NoApprovalPending(job: Job, h: History) {
    AsksApproval(job, h) ==> ApprovalCandidates(job, LastNodes(h), Fresh(job, h)) == []
  }

  /** What an accepted run ends with: verified evidence, no approval pending, and nothing
      overlooked on the way. */
  predicate Accepted(job: Job, h: History) {
    Verified(job, h) && NoApprovalPending(job, h) && NothingOverlooked(job, h.past)
  }

  /** Some poll showed a lone approval button in the fresh card. */
  predicate ApprovalOffered(job: Job, h: History) {
    match h
    case Start => false
    case Then(past, _) => ApprovalOffered(job, past) || OffersApproval(job, h)
  }

  // ------------------------------------------------ what discipline amounts to

  function SendTaps(h: History): nat {
    match h
    case Start => 0
    case Then(past, event) => SendTaps(past) + if event.Did? && event.action.TapSend? then 1 else 0
  }

  function ApproveTaps(h: History): nat {
    match h
    case Start => 0
    case Then(past, event) => ApproveTaps(past) + if event.Did? && event.action.TapApprove? then 1 else 0
  }

  /** In a disciplined history Send is tapped at most once, Approve at most once, and
      never Approve without Send; every key comes from the command. */
  lemma {:induction false} TapsAtMostOnce(job: Job, h: History)
    requires Disciplined(job, h)
    ensures SendTaps(h) == (if SendTapped(h) then 1 else 0)
    ensures ApproveTaps(h) == (if ApproveTapped(h) then 1 else 0)
    ensures ApproveTapped(h) ==> SendTapped(h)
    ensures KeysTyped(h) <= |job.command|
  {
    if h.Then? { TapsAtMostOnce(job, h.past); }
  }

  lemma {:induction false} BaselineBoundsEveryScreen(job: Job, h: History, screen: Screen)
    requires SawBeforeSend(h, screen)
    ensures Count(job, screen) <= Baseline(job, h)
  {
    if SawBeforeSend(h.past, screen) {
      BaselineBoundsEveryScreen(job, h.past, screen);
    }
  }

  /** The Send control that gets tapped is an enabled node of the last screen. */
  lemma {:induction false} SendIsOnScreen(rules: TextRules, nodes: seq<UiNode>, field: UiNode)
    ensures FindSend(rules, nodes, field).Some? ==>
              FindSend(rules, nodes, field).value in nodes && FindSend(rules, nodes, field).value.enabled
  {
    FilteredFromNodes(rules, nodes, field);
    EnabledIsMember(Labelled(nodes));
    EnabledIsMember(Described(rules, nodes));
  }

  lemma {:induction false} FilteredFromNodes(rules: TextRules, nodes: seq<UiNode>, field: UiNode)
    ensures forall n :: n in Labelled(nodes) || n in Described(rules, nodes) ==> n in nodes
    ensures RightmostBeside(nodes, field).Some? ==>
              RightmostBeside(nodes, field).value in nodes && RightmostBeside(nodes, field).value.enabled
  {
    if nodes != [] { FilteredFromNodes(rules, nodes[1..], field); }
  }

  lemma {:induction false} EnabledIsMember(nodes: seq<UiNode>)
    ensures FirstEnabled(nodes).Some? ==> FirstEnabled(nodes).value in nodes && FirstEnabled(nodes).value.enabled
  {
    if nodes != [] { EnabledIsMember(nodes[1..]); }
  }

  // ------------------------------------------------------- states of a run

  function KeyFor(c: char): Option<char> {
    if 'a' <= c <= 'z' || '0' <= c <= '9' || c == ' ' then Some(c)
    else if 'A' <= c <= 'Z' then Some((c as int + 32) as char)
    else None
  }

  /** `INPUT_TEXT_PATTERN`. */
  predicate Supported(command: string) {
    && 1 <= |command| <= MAX_INPUT_TEXT_LENGTH
    && forall c <- command ::
         'a' <= c <= 'z' || 'A' <= c <= 'Z' || '0' <= c <= '9' || c in {' ', '.', ',', '_', ':', '-'}
  }

  /** The local state of the wait after Send. */
  datatype Waiting = Waiting(approved: bool, settled: nat, swipes: nat)
  datatype PollStep = Stop(verdict: Verdict) | Again(wait: Waiting)

  ghost predicate Watching(job: Job, h: History, baseline: nat, wait: Waiting) {
    && Disciplined(job, h) && SendTapped(h) && !LastFailed(h) && NothingOverlooked(job, h)
    && wait.approved == ApproveTapped(h) && baseline == Baseline(job, h)
    && wait.swipes == SwipesIn(h).timeline <= TIMELINE_REVEALS
    && (wait.settled == 0 || wait.settled < Polls(h))
  }

  /** A swipe through the timeline, once the screen has settled. */
  lemma SwipeKeepsWatching(job: Job, h: History, baseline: nat, wait: Waiting)
    requires Watching(job, h, baseline, wait) && JustLooked(h)
    requires Polls(h) > SETTLE_POLLS + 1 && wait.swipes < TIMELINE_REVEALS
    ensures Watching(job, Then(h, Did(RevealTimeline, true)), baseline, wait.(swipes := wait.swipes + 1))
  {
    hide WindowShows, ApprovalCandidates, Approvable, FindCommandField;
  }

  /** The tap on a button that a poll offered. */
  lemma TapKeepsWatching(job: Job, h: History, baseline: nat, wait: Waiting, control: UiNode, ok: bool)
    requires h.Then? && Watching(job, h.past, baseline, wait) && Polls(h.past) > 0
    requires Approvable(job, h) && ApprovalCandidates(job, LastNodes(h), Fresh(job, h)) == [control]
    ensures Disciplined(job, Then(h, Did(TapApprove(control), ok)))
    ensures ok ==> Watching(job, Then(h, Did(TapApprove(control), ok)), baseline, wait.(approved := true))
  {
    var after := Then(h, Did(TapApprove(control), ok));
    assert Approvable(job, h) && NothingOverlooked(job, h.past);
    hide WindowShows, ApprovalCandidates, FindCommandField, Approvable, AsksApproval, Verified;
    assert OffersApproval(job, h) && Justified(job, h, after.event);
    assert SendTapped(h) && Polls(h) == Polls(h.past) + 1 && SwipesIn(h) == SwipesIn(h.past);
    assert Baseline(job, h) == Baseline(job, h.past);
    hide Justified;
    assert NothingOverlooked(job, after) && SwipesIn(after) == SwipesIn(h) && Polls(after) == Polls(h);
    assert SendTapped(after) && Baseline(job, after) == Baseline(job, h);
  }

  /** The look right after Send, then at most one poll a second up to the deadline. */
  function MaxPolls(job: Job): nat { if job.waitTimeout < 0 then 1 else job.waitTimeout + 2 }

  /** Nothing is polled, overlooked or approved before Send. */
  lemma {:induction false} BeforeSend(job: Job, h: History)
    requires !SendTapped(h) && Disciplined(job, h)
    ensures Polls(h) == 0 && NothingOverlooked(job, h) && !ApproveTapped(h)
  {
    if h.Then? { BeforeSend(job, h.past); }
  }

  ghost predicate Entering(job: Job, h: History, field: UiNode, baseline: nat, keys: nat, swipes: Swipes) {
    && Disciplined(job, h) && !SendTapped(h) && LastField(h) == Some(field) && baseline == Baseline(job, h)
    && KeysTyped(h) == keys && SwipesIn(h) == swipes
  }

  ghost predicate ReadyToSend(job: Job, h: History, field: UiNode, send: Option<UiNode>, baseline: nat) {
    && JustLooked(h) && baseline == Baseline(job, h) && LastField(h) == Some(field)
    && send == FindSend(job.rules, LastNodes(h), field)
  }

  /** What each failure says about the run. */
  ghost predicate Explained(job: Job, h: History, reason: Reason) {
    match reason
    case UnsupportedCommand => !Supported(job.command) && h == Start
    case FieldNotFound => !SendTapped(h) && LastField(h).None? && SwipesIn(h).field == COMMAND_REVEALS
    case StepFailed => LastFailed(h)
    case NoKeyForCharacter =>
      && !SendTapped(h) && LastField(h).Some? && !FieldMatches(job, LastField(h).value)
      && exists c <- job.command :: KeyFor(c).None?
    case NotEntered =>
      && !SendTapped(h) && LastField(h).Some? && !FieldMatches(job, LastField(h).value)
      && KeysTyped(h) == |job.command|
    case CommandMismatch => !SendTapped(h) && LastField(h).Some? && !FieldMatches(job, LastField(h).value)
    case SendNotVisible =>
      && !SendTapped(h) && LastField(h).Some? && SwipesIn(h).send == SEND_REVEALS
      && var send := FindSend(job.rules, LastNodes(h), LastField(h).value);
         send.None? || !SafelyVisible(send.value)
    case AmbiguousApproval =>
      SendTapped(h) && AsksApproval(job, h) && |ApprovalCandidates(job, LastNodes(h), Fresh(job, h))| > 1
    case TimedOut => SendTapped(h) && NothingOverlooked(job, h)
  }

  // -------------------------------------------------------------- one decision

  datatype Decision = Ambiguous | Approve(control: UiNode) | Accept | Settle | Swipe | Idle

  /** What a poll does with the screen it sees. */
  function Decide(job: Job, screen: Screen, baseline: nat, wait: Waiting): Decision {
    if screen.Blank? then Idle
    else
      var nodes := screen.Nodes();
      var freshCount := Occurrences(job.rules, nodes, job.command) - baseline;
      var asked := && ApprovalWanted(job) && !wait.approved && freshCount > 0
                   && WindowShows(job, nodes, freshCount, job.approvalMarkers);
      if asked && |ApprovalCandidates(job, nodes, freshCount)| > 1 then Ambiguous
      else if asked && |ApprovalCandidates(job, nodes, freshCount)| == 1 then
        Approve(ApprovalCandidates(job, nodes, freshCount)[0])
      else if freshCount > 0 && WindowShows(job, nodes, freshCount, job.expected) then Accept
      else if wait.settled < SETTLE_POLLS then Settle
      else if wait.swipes < TIMELINE_REVEALS then Swipe
      else Idle
  }

  lemma DecisionsHold(job: Job, h: History, baseline: nat, wait: Waiting)
    requires h.Then? && h.event.Saw? && Watching(job, h.past, baseline, wait)
    ensures match Decide(job, h.event.screen, baseline, wait)
            case Ambiguous => AsksApproval(job, h) && |ApprovalCandidates(job, LastNodes(h), Fresh(job, h))| > 1
            case Approve(control) =>
              Approvable(job, h) && ApprovalCandidates(job, LastNodes(h), Fresh(job, h)) == [control]
            case Accept => Verified(job, h) && NoApprovalPending(job, h)
            case Settle => !Verified(job, h) && !Approvable(job, h)
            case Swipe =>
              && !Verified(job, h) && !Approvable(job, h)
              && wait.settled >= SETTLE_POLLS && wait.swipes < TIMELINE_REVEALS
            case Idle => !Verified(job, h) && !Approvable(job, h)
    ensures Decide(job, h.event.screen, baseline, wait) == Accept <==> Verified(job, h) && NoApprovalPending(job, h)
  {
    hide WindowShows, ApprovalCandidates;
  }

  // ------------------------------------------------------------------ the run

  datatype Reply = Reply(ok: bool, screen: Screen, elapsed: Seconds)

  /** The phone answers each request from all that happened before; commands and
      sleeps are what moves the clock. */
  class Session {
    const phone: History -> Reply
    var history: History
    var now: real

    constructor (phone: History -> Reply, now: real)
      ensures this.phone == phone && this.history == Start && this.now == now
    {
      this.phone := phone;
      this.history := Start;
      this.now := now;
    }

    method Look() returns (screen: Screen)
      modifies this
      ensures screen == phone(old(history)).screen && history == Then(old(history), Saw(screen))
      ensures now == old(now) + phone(old(history)).elapsed
    {
      var reply := phone(history);
      screen := reply.screen;
      now := now + reply.elapsed;
      history := Then(history, Saw(screen));
    }

    method Act(action: Action) returns (ok: bool)
      modifies this
      ensures ok == phone(old(history)).ok && history == Then(old(history), Did(action, ok))
      ensures now == old(now) + phone(old(history)).elapsed
    {
      var reply := phone(history);
      ok := reply.ok;
      now := now + reply.elapsed;
      history := Then(history, Did(action, ok));
    }

    method Sleep(seconds: Seconds)
      modifies this`now
      ensures now == old(now) + seconds
    {
      now := now + seconds;
    }

    /** Swipe until an editable command field shows, at most five times. */
    method FindField(job: Job) returns (field: Option<UiNode>, baseline: nat, failed: bool)
      requires history == Start
      modifies this
      ensures now >= old(now)
      ensures Disciplined(job, history) && !SendTapped(history) && KeysTyped(history) == 0
      ensures SwipesIn(history) == Swipes(SwipesIn(history).field, 0, 0)
      ensures SwipesIn(history).field <= COMMAND_REVEALS
      ensures failed ==> Explained(job, history, StepFailed)
      ensures !failed ==> JustLooked(history) && field == LastField(history) && baseline == Baseline(job, history)
      ensures !failed && field.None? ==> Explained(job, history, FieldNotFound)
    {
      hide Occurrences, FindCommandField;
      failed := false;
      var screen := Look();
      baseline := Occurrences(job.rules, screen.Nodes(), job.command);
      field := FindCommandField(screen.Nodes());
      var attempt := 0;
      while field.None? && attempt < COMMAND_REVEALS
        invariant 0 <= attempt <= COMMAND_REVEALS && now >= old(now)
        invariant Disciplined(job, history) && !SendTapped(history) && KeysTyped(history) == 0
        invariant SwipesIn(history) == Swipes(attempt, 0, 0)
        invariant JustLooked(history) && field == LastField(history) && baseline == Baseline(job, history)
        decreases COMMAND_REVEALS - attempt
      {
        var ok := Act(RevealField);
        if !ok { failed := true; return; }
        Sleep(1.0);
        screen := Look();
        baseline := Max(baseline, Occurrences(job.rules, screen.Nodes(), job.command));
        field := FindCommandField(screen.Nodes());
        attempt := attempt + 1;
      }
    }

    /** Focus the field, clear stale text, type, hide the keyboard and look again. */
    method TypeCommand(job: Job, commandField: UiNode, counted: nat)
      returns (field: UiNode, send: Option<UiNode>, baseline: nat, ok: bool)
      requires Disciplined(job, history) && !SendTapped(history) && JustLooked(history)
      requires LastField(history) == Some(commandField) && counted == Baseline(job, history)
      modifies this
      ensures now >= old(now)
      ensures Disciplined(job, history) && !SendTapped(history) && KeysTyped(history) == old(KeysTyped(history))
      ensures SwipesIn(history) == old(SwipesIn(history))
      ensures ok ==> ReadyToSend(job, history, field, send, baseline)
      ensures !ok ==> LastFailed(history)
    {
      hide FindSend, FindCommandField, Occurrences;
      field, send, baseline := commandField, None, counted;
      ghost var keys, swipes := KeysTyped(history), SwipesIn(history);
      ok := Act(FocusField(commandField));
      assert Entering(job, history, commandField, counted, keys, swipes);
      if !ok { return; }
      Sleep(2.5);
      if job.rules.strip(commandField.text) != "" && !FieldMatches(job, commandField) {
        ok := Act(ClearField);
        assert Entering(job, history, commandField, counted, keys, swipes);
        if !ok { return; }
        Sleep(0.5);
      }
      ok := Act(TypeText);
      assert Entering(job, history, commandField, counted, keys, swipes);
      if !ok { return; }
      Sleep(1.0);
      field, send, baseline, ok := HideAndLook(job, field, baseline);
    }

    /** Type the command once more, key by key. */
    method TypeByKeys(job: Job, knownField: UiNode, knownSend: Option<UiNode>, counted: nat)
      returns (field: UiNode, send: Option<UiNode>, baseline: nat, ok: bool)
      requires job.command != [] && forall c <- job.command :: KeyFor(c).Some?
      requires Disciplined(job, history) && !SendTapped(history) && KeysTyped(history) == 0
      requires ReadyToSend(job, history, knownField, knownSend, counted)
      modifies this
      ensures now >= old(now)
      ensures Disciplined(job, history) && !SendTapped(history)
      ensures SwipesIn(history) == old(SwipesIn(history))
      ensures ok ==> ReadyToSend(job, history, field, send, baseline) && KeysTyped(history) == |job.command|
      ensures !ok ==> LastFailed(history)
    {
      field, send, baseline := knownField, knownSend, counted;
      ok := Act(FocusField(field));
      if !ok { return; }
      Sleep(2.5);
      ok := TypeKeys(job);
      if !ok { return; }
      field, send, baseline, ok := HideAndLook(job, field, baseline);
    }

    /** Type the command; if the field does not show it, type it once more by keys. */
    method EnterCommand(job: Job, commandField: UiNode, counted: nat)
      returns (failure: Option<Reason>, field: UiNode, send: Option<UiNode>, baseline: nat)
      requires job.command != []
      requires Disciplined(job, history) && !SendTapped(history) && JustLooked(history)
      requires LastField(history) == Some(commandField) && counted == Baseline(job, history)
      requires KeysTyped(history) == 0
      modifies this
      ensures now >= old(now)
      ensures Disciplined(job, history) && !SendTapped(history)
      ensures SwipesIn(history) == old(SwipesIn(history))
      ensures failure.None? ==> ReadyToSend(job, history, field, send, baseline)
      ensures failure.Some? ==> Explained(job, history, failure.value)
    {
      var ok;
      field, send, baseline, ok := TypeCommand(job, commandField, counted);
      if !ok { return Some(StepFailed), field, send, baseline; }
      if !FieldMatches(job, field) {
        if exists c <- job.command :: KeyFor(c).None? { return Some(NoKeyForCharacter), field, send, baseline; }
        field, send, baseline, ok := TypeByKeys(job, field, send, baseline);
        if !ok { return Some(StepFailed), field, send, baseline; }
        if !FieldMatches(job, field) { return Some(NotEntered), field, send, baseline; }
      }
      failure := None;
    }

    /** Hide the keyboard and read the screen; the field is the last one observed. */
    method HideAndLook(job: Job, known: UiNode, counted: nat)
      returns (field: UiNode, send: Option<UiNode>, baseline: nat, ok: bool)
      requires Disciplined(job, history) && !SendTapped(history) && !LastFailed(history)
      requires Justified(job, history, Did(HideKeyboard, true))
      requires LastField(history) == Some(known) && counted == Baseline(job, history)
      modifies this
      ensures now >= old(now)
      ensures Disciplined(job, history) && !SendTapped(history) && KeysTyped(history) == old(KeysTyped(history))
      ensures SwipesIn(history) == old(SwipesIn(history))
      ensures ok ==> ReadyToSend(job, history, field, send, baseline)
      ensures !ok ==> LastFailed(history)
    {
      field, send, baseline := known, None, counted;
      ok := Act(HideKeyboard);
      if !ok { return; }
      Sleep(1.0);
      field, send, baseline := LookForSend(job, field, baseline);
    }

    method LookForSend(job: Job, known: UiNode, counted: nat)
      returns (field: UiNode, send: Option<UiNode>, baseline: nat)
      requires Disciplined(job, history) && !SendTapped(history) && !LastFailed(history)
      requires LastField(history) == Some(known) && counted == Baseline(job, history)
      modifies this
      ensures now >= old(now)
      ensures history.Then? && history.past == old(history) && history.event.Saw?
      ensures ReadyToSend(job, history, field, send, baseline)
    {
      var screen := Look();
      baseline := Max(counted, Occurrences(job.rules, screen.Nodes(), job.command));
      var found := FindCommandField(screen.Nodes());
      field := if found.Some? then found.value else known;
      send := FindSend(job.rules, screen.Nodes(), field);
    }

    method TypeKeys(job: Job) returns (ok: bool)
      requires forall c <- job.command :: KeyFor(c).Some?
      requires Disciplined(job, history) && !SendTapped(history) && !LastFailed(history)
      requires history.Then? && history.event.Did? && history.event.action.FocusField?
      requires KeysTyped(history) == 0 && job.command != []
      modifies this
      ensures now >= old(now)
      ensures Disciplined(job, history) && !SendTapped(history)
      ensures LastField(history) == old(LastField(history)) && Baseline(job, history) == old(Baseline(job, history))
      ensures SwipesIn(history) == old(SwipesIn(history))
      ensures ok <==> !LastFailed(history)
      ensures ok ==> KeysTyped(history) == |job.command| && history.Then? && history.event.Did?
    {
      var i := 0;
      ok := true;
      while i < |job.command|
        invariant 0 <= i <= |job.command| && KeysTyped(history) == i && now >= old(now)
        invariant Disciplined(job, history) && !SendTapped(history) && !LastFailed(history)
        invariant history.Then? && history.event.Did?
        invariant history.event.action.FocusField? || history.event.action.KeyEvent?
        invariant LastField(history) == old(LastField(history)) && Baseline(job, history) == old(Baseline(job, history))
        invariant SwipesIn(history) == old(SwipesIn(history))
      {
        ok := Act(KeyEvent(KeyFor(job.command[i]).value));
        if !ok { return; }
        Sleep(0.04);
        i := i + 1;
      }
    }

    /** Swipe until Send is safely visible, at most four times. */
    method RevealSendControl(job: Job, knownField: UiNode, knownSend: Option<UiNode>, counted: nat)
      returns (field: UiNode, send: Option<UiNode>, baseline: nat, ok: bool)
      requires Disciplined(job, history) && !SendTapped(history) && SwipesIn(history).send == 0
      requires ReadyToSend(job, history, knownField, knownSend, counted)
      modifies this
      ensures now >= old(now)
      ensures Disciplined(job, history) && !SendTapped(history)
      ensures SwipesIn(history) == old(SwipesIn(history)).(send := SwipesIn(history).send)
      ensures SwipesIn(history).send <= SEND_REVEALS
      ensures ok ==> ReadyToSend(job, history, field, send, baseline)
      ensures ok && (send.None? || !SafelyVisible(send.value)) ==> SwipesIn(history).send == SEND_REVEALS
      ensures !ok ==> Explained(job, history, StepFailed)
    {
      field, send, baseline := knownField, knownSend, counted;
      ok := true;
      var attempt := 0;
      while (send.None? || !SafelyVisible(send.value)) && attempt < SEND_REVEALS
        invariant 0 <= attempt <= SEND_REVEALS && now >= old(now)
        invariant Disciplined(job, history) && !SendTapped(history)
        invariant SwipesIn(history) == old(SwipesIn(history)).(send := attempt)
        invariant ReadyToSend(job, history, field, send, baseline)
        decreases SEND_REVEALS - attempt
      {
        ok := Act(RevealSend);
        if !ok { return; }
        Sleep(1.0);
        field, send, baseline := LookForSend(job, field, baseline);
        attempt := attempt + 1;
      }
    }

    /** One poll: look, then accept, approve, settle, or swipe the timeline. */
    method Poll(job: Job, baseline: nat, wait: Waiting) returns (step: PollStep)
      requires Watching(job, history, baseline, wait) && Polls(history) > 0
      modifies this
      ensures Disciplined(job, history) && SendTapped(history)
      ensures Polls(history) == old(Polls(history)) + 1
      ensures SwipesIn(history) == old(SwipesIn(history)).(timeline := SwipesIn(history).timeline)
      ensures SwipesIn(history).timeline <= TIMELINE_REVEALS
      ensures now >= old(now)
      ensures step.Again? ==> now >= old(now) + 1.0 && Watching(job, history, baseline, step.wait)
      ensures step.Stop? && step.verdict.Ok? ==> Accepted(job, history)
      ensures step.Stop? && step.verdict.Fail? ==>
                step.verdict.reason != TimedOut && Explained(job, history, step.verdict.reason)
    {
      hide NoApprovalPending, Decide, WindowShows, ApprovalCandidates, FindCommandField, KeyFor, FindSend, Approvable;
      var screen := Look();
      var decision := Decide(job, screen, baseline, wait);
      DecisionsHold(job, history, baseline, wait);
      match decision {
        case Ambiguous =>
          return Stop(Fail(AmbiguousApproval));
        case Approve(control) =>
          TapKeepsWatching(job, history, baseline, wait, control, true);
          TapKeepsWatching(job, history, baseline, wait, control, false);
          var ok := Act(TapApprove(control));
          if !ok { return Stop(Fail(StepFailed)); }
          Sleep(1.0);
          return Again(wait.(approved := true));
        case Accept =>
          return Stop(Ok);
        case Settle =>
          Sleep(1.0);
          return Again(wait.(settled := wait.settled + 1));
        case Swipe =>
          SwipeKeepsWatching(job, history, baseline, wait);
          var ok := Act(RevealTimeline);
          if !ok { return Stop(Fail(StepFailed)); }
          Sleep(1.0);
          return Again(wait.(swipes := wait.swipes + 1));
        case Idle =>
          Sleep(1.0);
          return Again(wait);
      }
    }

    /** Wait for evidence: one look right after Send, then a poll a second until the deadline. */
    method AwaitEvidence(job: Job, baseline: nat) returns (verdict: Verdict, ghost started: real)
      requires Watching(job, history, baseline, Waiting(false, 0, 0)) && Polls(history) == 0
      modifies this
      ensures now >= old(now)
      ensures Disciplined(job, history) && SendTapped(history)
      ensures SwipesIn(history) == old(SwipesIn(history)).(timeline := SwipesIn(history).timeline)
      ensures SwipesIn(history).timeline <= TIMELINE_REVEALS
      ensures Polls(history) <= MaxPolls(job)
      ensures verdict.Ok? ==> Accepted(job, history)
      ensures verdict.Fail? ==> Explained(job, history, verdict.reason)
      ensures started >= old(now) + 1.0 && now >= started
      ensures verdict == Fail(TimedOut) ==> now > started + job.waitTimeout as real
    {
      Sleep(1.0);
      var screen := Look();
      started := now;
      if screen.Dump? && job.approvalButton.None? {
        var freshCount := Occurrences(job.rules, screen.Nodes(), job.command) - baseline;
        if freshCount > 0 && WindowShows(job, screen.Nodes(), freshCount, job.expected) { return Ok, started; }
      }
      var deadline := now + job.waitTimeout as real;
      var wait := Waiting(false, 0, 0);
      ghost var start, polls := now, 0;
      while now <= deadline
        invariant now >= start + polls as real
        invariant polls == 0 || polls <= job.waitTimeout + 1
        invariant Polls(history) == polls + 1 && Watching(job, history, baseline, wait)
        invariant SwipesIn(history) == old(SwipesIn(history)).(timeline := SwipesIn(history).timeline)
        decreases job.waitTimeout + 1 - polls
      {
        assert polls <= job.waitTimeout;
        var step := Poll(job, baseline, wait);
        polls := polls + 1;
        if step.Stop? { return step.verdict, started; }
        wait := step.wait;
      }
      verdict := Fail(TimedOut);
    }

    /** The last checks, the tap on Send, and the wait. */
    method SendAndAwait(job: Job, field: UiNode, send: Option<UiNode>, baseline: nat) returns (verdict: Verdict)
      requires Disciplined(job, history) && !SendTapped(history)
      requires ReadyToSend(job, history, field, send, baseline)
      requires SwipesIn(history).timeline == 0
      requires send.None? || !SafelyVisible(send.value) ==> SwipesIn(history).send == SEND_REVEALS
      modifies this
      ensures now >= old(now)
      ensures Disciplined(job, history)
      ensures SwipesIn(history) == old(SwipesIn(history)).(timeline := SwipesIn(history).timeline)
      ensures SwipesIn(history).timeline <= TIMELINE_REVEALS
      ensures Polls(history) <= MaxPolls(job)
      ensures verdict.Ok? ==> Accepted(job, history)
      ensures verdict.Fail? ==> verdict.reason != UnsupportedCommand && Explained(job, history, verdict.reason)
      ensures verdict == Fail(TimedOut) ==> now > old(now) + job.waitTimeout as real
    {
      BeforeSend(job, history);
      if !FieldMatches(job, field) { return Fail(CommandMismatch); }
      if send.None? || !SafelyVisible(send.value) { return Fail(SendNotVisible); }
      var ok := Act(TapSend(send.value));
      if !ok { return Fail(StepFailed); }
      ghost var started;
      verdict, started := AwaitEvidence(job, baseline);
    }

    /** The whole run. */
    method SubmitAndVerify(job: Job) returns (verdict: Verdict)
      requires history == Start
      modifies this
      ensures Disciplined(job, history)
      ensures verdict.Ok? ==> Accepted(job, history)
      ensures verdict.Fail? ==> Explained(job, history, verdict.reason)
      ensures verdict == Fail(UnsupportedCommand) <==> !Supported(job.command)
      ensures verdict == Fail(TimedOut) ==> now > old(now) + job.waitTimeout as real
      ensures SwipesIn(history).field <= 5 && SwipesIn(history).send <= 4 && SwipesIn(history).timeline <= 3
      ensures Polls(history) <= if job.waitTimeout < 0 then 1 else job.waitTimeout + 2
    {
      assert COMMAND_REVEALS == 5 && SEND_REVEALS == 4 && TIMELINE_REVEALS == 3;
      assert MaxPolls(job) == if job.waitTimeout < 0 then 1 else job.waitTimeout + 2;
      if !Supported(job.command) { return Fail(UnsupportedCommand); }
      assert job.command != [];
      hide *;
      var found, baseline, failed := FindField(job);
      BeforeSend(job, history);
      if failed { return Fail(StepFailed); }
      if found.None? { return Fail(FieldNotFound); }
      var failure, field, send;
      failure, field, send, baseline := EnterCommand(job, found.value, baseline);
      BeforeSend(job, history);
      if failure.Some? { return Fail(failure.value); }
      var ok;
      field, send, baseline, ok := RevealSendControl(job, field, send, baseline);
      BeforeSend(job, history);
      if !ok { return Fail(StepFailed); }
      verdict := SendAndAwait(job, field, send, baseline);
    }
  }

  // ------------------------------------------------------- what acceptance means

  /** Approve is only tapped where a poll offered it, so never without markers and a button. */
  lemma {:induction false} TappedOnlyIfOffered(job: Job, h: History)
    requires Disciplined(job, h) && ApproveTapped(h)
    ensures ApprovalOffered(job, h) && ApprovalWanted(job)
  {
    hide OffersApproval;
    if ApproveTapped(h.past) {
      TappedOnlyIfOffered(job, h.past);
    } else {
      assert Justified(job, h.past, h.event);
      assert OffersApproval(job, h.past);
      OfferIsWanted(job, h.past);
    }
  }

  lemma OfferIsWanted(job: Job, h: History)
    requires OffersApproval(job, h)
    ensures ApprovalWanted(job) && ApprovalOffered(job, h)
  {
  }

  lemma {:induction false} OfferedThenTapped(job: Job, h: History)
    requires NothingOverlooked(job, h) && ApprovalOffered(job, h)
    ensures ApproveTapped(h)
  {
    hide Verified, Approvable;
    if h.event.Did? && h.event.action.TapApprove? {
    } else if ApprovalOffered(job, h.past) {
      OfferedThenTapped(job, h.past);
    } else {
      assert OffersApproval(job, h);
      OnlyScreensOffer(job, h);
    }
  }

  lemma OnlyScreensOffer(job: Job, h: History)
    requires OffersApproval(job, h)
    ensures h.event.Saw? && Approvable(job, h) && Polls(h.past) > 0
  {
  }

  /** An accepted run tapped Approve exactly when some poll offered it; without approval
      markers or without a button it never does. Where it did not although the accepted card
      asks, that card holds no enabled button with the text. */
  lemma ApprovalTappedIff(job: Job, h: History)
    requires Disciplined(job, h) && Accepted(job, h)
    ensures ApproveTapped(h) <==> ApprovalOffered(job, h)
    ensures !ApprovalWanted(job) ==> !ApproveTapped(h)
    ensures ApprovalWanted(job) && !ApproveTapped(h)
            && WindowShows(job, LastNodes(h), Fresh(job, h), job.approvalMarkers) ==>
              ApprovalCandidates(job, LastNodes(h), Fresh(job, h)) == []
  {
    if ApproveTapped(h) {
      TappedOnlyIfOffered(job, h);
    }
    if ApprovalOffered(job, h.past) {
      OfferedThenTapped(job, h.past);
    }
  }

  /** An accepted screen shows strictly more of the command than every screen seen
      before Send. */
  lemma VerifiedIsFresh(job: Job, h: History, screen: Screen)
    requires Verified(job, h) && SawBeforeSend(h, screen)
    ensures Count(job, screen) < Count(job, h.event.screen)
  {
    BaselineBoundsEveryScreen(job, h, screen);
  }

  /** If some screen before Send already showed as many of the command as the earlier
      cards do now, the accepted evidence lies in a card added since. */
  lemma VerifiedCardIsNew(
      job: Job, h: History, before: Screen, added: seq<seq<UiNode>>, earlier: seq<seq<UiNode>>)
    requires Verified(job, h) && SawBeforeSend(h, before)
    requires TimelineAfterSend(job.rules, LastNodes(h), job.command, added, earlier)
    requires TitledCount(job.rules, earlier, job.command) <= Count(job, before)
    ensures var window := CommandWindow(job.rules, LastNodes(h), job.command, Fresh(job, h));
            && ShowsOneOf(window, added)
            && forall m <- job.expected :: Contains(m, Segment(window))
  {
    BaselineBoundsEveryScreen(job, h, before);
    FreshCountMeansNewCard(job.rules, LastNodes(h), job.command, added, earlier, Baseline(job, h));
  }
}
