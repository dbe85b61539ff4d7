/** Reading the screen under a deadline, and waiting for the operator to pair the phone.
    Commands, sleeps and each look's own time advance the clock; a command takes no longer
    than the timeout it was given. */
module Deadline {
  import opened Clock
  import opened Options
  import opened Timeline

  function AtLeastZero(x: real): real { if x < 0.0 then 0.0 else x }

  /** Smallest integer that is not below `x`. */
  function Ceiling(x: real): int { -(-x).Floor }

  // --------------------------------------------------------------- timeouts

  /** `bounded_adb_timeout`: the whole seconds each remaining command may take. There is
      none exactly when less than one second per command is left; otherwise all of them
      together fit before the deadline. */
  function BoundedTimeout(timeout: int, deadline: Option<real>, now: real, commandsRemaining: int): (t: Option<int>)
    requires commandsRemaining > 0
    ensures t.None? <==> deadline.Some? && deadline.value - now < commandsRemaining as real
    ensures t.Some? ==> t.value <= timeout
    ensures t.Some? && timeout >= 1 ==> t.value >= 1
    ensures t.Some? && deadline.Some? && t.value >= 1 ==>
              t.value as real * commandsRemaining as real <= deadline.value - now
  {
    if deadline.None? then Some(timeout)
    else
      var remaining := deadline.value - now;
      if remaining <= 0.0 then None
      else
        var perCommand := (remaining / commandsRemaining as real).Floor;
        FloorOfShare(remaining, commandsRemaining, if timeout < perCommand then timeout else perCommand);
        if perCommand < 1 then None else Some(if timeout < perCommand then timeout else perCommand)
  }

  lemma FloorOfShare(remaining: real, parts: int, t: int)
    requires parts > 0 && remaining > 0.0
    requires t <= (remaining / parts as real).Floor
    ensures t as real * parts as real <= remaining
    ensures (remaining / parts as real).Floor < 1 <==> remaining < parts as real
  {
    var n := parts as real;
    var share := remaining / n;
    assert share * n == remaining;
    Scale(t as real, share, n);
    Scale(1.0, share, n);
    assert share.Floor < 1 <==> share < 1.0;
  }

  lemma Scale(a: real, b: real, c: real)
    requires c > 0.0
    ensures a <= b <==> a * c <= b * c
  {
  }

  // ----------------------------------------------------------------- rounds

  /** The time that this many rounds sleep. */
  function Elapsed(rounds: nat, interval: real): real { rounds as real * interval }

  /** The wait in intervals, rounded up. */
  function MaxRounds(wait: real, interval: real): int
    requires interval > 0.0
  {
    Ceiling(AtLeastZero(wait) / interval)
  }

  lemma OneRoundMore(rounds: nat, interval: real)
    ensures Elapsed(rounds + 1, interval) == Elapsed(rounds, interval) + interval
  {
  }

  /** If the round before began inside the wait, the rounds so far are within its length. */
  lemma RoundsFit(rounds: nat, wait: real, interval: real)
    requires interval > 0.0
    requires rounds > 0 ==> Elapsed(rounds - 1, interval) < wait
    ensures rounds <= MaxRounds(wait, interval)
    ensures Elapsed(0, interval) == 0.0
  {
    var share := AtLeastZero(wait) / interval;
    assert share * interval == AtLeastZero(wait);
    if rounds > 0 {
      Scale((rounds - 1) as real, share, interval);
      Scale(share, (rounds - 1) as real, interval);
    } else {
      Scale(0.0, share, interval);
    }
  }

  // ------------------------------------------------------------ the operator

  predicate HasText(nodes: seq<UiNode>, text: string) { exists n <- nodes :: n.text == text }

  predicate SetupCardExpanded(nodes: seq<UiNode>) {
    || (exists n <- nodes :: n.text == DEBUG_HUB_ENDPOINT && n.className == EDIT_TEXT)
    || (exists n <- nodes :: n.password)
    || HasText(nodes, "Pairing bundle JSON") || HasText(nodes, "Development bearer token")
  }

  predicate PairedHubLinkVisible(nodes: seq<UiNode>) {
    && HasText(nodes, "SECURE HUB LINK") && HasText(nodes, DEBUG_HUB_ENDPOINT)
    && (exists n <- nodes :: "HUB ID / " <= n.text)
    && !HasText(nodes, "NOT CONFIGURED") && !SetupCardExpanded(nodes)
  }

  /** When the wait for pairing takes a screen as paired. */
  lemma PairedIff(nodes: seq<UiNode>)
    ensures PairedHubLinkVisible(nodes) <==>
      && (exists i :: 0 <= i < |nodes| && nodes[i].text == "SECURE HUB LINK")
      && (exists i :: 0 <= i < |nodes| && nodes[i].text == "ws://127.0.0.1:8787/ws/v1")
      && (exists i :: 0 <= i < |nodes| && "HUB ID / " <= nodes[i].text)
      && forall i :: 0 <= i < |nodes| ==>
           && nodes[i].text != "NOT CONFIGURED" && !nodes[i].password
           && nodes[i].text != "Pairing bundle JSON" && nodes[i].text != "Development bearer token"
           && !(nodes[i].className == "android.widget.EditText" && nodes[i].text == "ws://127.0.0.1:8787/ws/v1")
  {
    assert forall n :: n in nodes <==> exists i :: 0 <= i < |nodes| && nodes[i] == n;
  }

  // ------------------------------------------------------------------- clock

  datatype Answer = Answer(ok: bool, nodes: seq<UiNode>, elapsed: real)
  datatype Issued = Issued(at: real, timeout: int) {
    /** Even if it uses its whole timeout, the command is over by the deadline. */
    predicate FitsBefore(deadline: real) { at + AtLeastZero(timeout as real) <= deadline }
  }

  /** A command that takes too long is cut off at the limit. */
  function Cut(elapsed: real, limit: real): (spent: real)
    requires limit >= 0.0
    ensures 0.0 <= spent <= limit && (0.0 <= elapsed <= limit ==> spent == elapsed)
  {
    if elapsed > limit then limit else AtLeastZero(elapsed)
  }

  class Adb {
    const phone: seq<Issued> -> Answer
    /** The time the n-th look takes by itself before it reads the clock. */
    const own: nat -> Seconds
    var now: real
    var issued: seq<Issued>
    var looks: nat

    constructor (phone: seq<Issued> -> Answer, own: nat -> Seconds, now: real)
      ensures this.phone == phone && this.own == own && this.now == now && issued == [] && looks == 0
    {
      this.phone, this.own, this.now, issued, looks := phone, own, now, [], 0;
    }

    /** Nothing was read, or these are the nodes of a dump that worked and was read at the end. */
    ghost predicate LastRead(nodes: seq<UiNode>)
      reads this
    {
      nodes == [] ||
        (|issued| >= 2 && phone(issued[..|issued| - 2]).ok && phone(issued[..|issued| - 1]).ok
         && nodes == phone(issued[..|issued| - 1]).nodes)
    }

    /** Run one command; it is cut off when its timeout is over. */
    method Run(timeout: int) returns (answer: Answer)
      modifies this`now, this`issued
      ensures answer == phone(old(issued)) && issued == old(issued) + [Issued(old(now), timeout)]
      ensures now == old(now) + Cut(answer.elapsed, AtLeastZero(timeout as real))
    {
      answer := phone(issued);
      var limit := AtLeastZero(timeout as real);
      issued := issued + [Issued(now, timeout)];
      now := now + Cut(answer.elapsed, limit);
    }

    method Sleep(seconds: real)
      requires seconds > 0.0
      modifies this`now
      ensures now == old(now) + seconds
    {
      now := now + seconds;
    }

    /** Dump the screen, then read the dump. With a deadline, neither command can pass
        it, and the second is never refused once the first was issued. */
    method LatestUiText(timeout: int, deadline: Option<real>) returns (nodes: seq<UiNode>)
      modifies this
      ensures looks == old(looks) + 1
      ensures old(now) + own(old(looks)) <= now
      ensures deadline.Some? && old(now) + own(old(looks)) <= deadline.value ==> now <= deadline.value
      ensures |old(issued)| <= |issued| <= |old(issued)| + 2 && old(issued) <= issued
      ensures deadline.Some? ==>
                forall i :: |old(issued)| <= i < |issued| ==> issued[i].FitsBefore(deadline.value)
      ensures |issued| == |old(issued)| <==>
              deadline.Some? && deadline.value - (old(now) + own(old(looks))) < 2.0
      ensures |issued| == |old(issued)| + 1 ==> !phone(old(issued)).ok
      ensures |issued| == |old(issued)| + 2 ==>
                phone(old(issued)).ok && (timeout >= 1 ==> issued[|issued| - 1].timeout >= 1)
      ensures |issued| < |old(issued)| + 2 ==> nodes == []
      ensures |issued| == |old(issued)| + 2 ==>
                var read := phone(issued[..|issued| - 1]); nodes == if read.ok then read.nodes else []
      ensures LastRead(nodes)
      ensures |issued| == |old(issued)| ==> now == old(now) + own(old(looks))
    {
      now := now + own(looks);
      looks := looks + 1;
      var dumpTimeout := BoundedTimeout(timeout, deadline, now, 2);
      if dumpTimeout.None? { return []; }
      hide BoundedTimeout;
      var dump := Run(dumpTimeout.value);
      ghost var dumped := issued;
      assert dumped[..|dumped| - 1] == old(issued);
      if !dump.ok { return []; }
      var xmlTimeout := BoundedTimeout(timeout, deadline, now, 1);
      if xmlTimeout.None? { return []; }
      var xml := Run(xmlTimeout.value);
      nodes := if xml.ok then xml.nodes else [];
      assert issued[..|issued| - 1] == dumped && issued[..|issued| - 2] == old(issued);
    }

    /** One round of the wait: sleep, but not past the deadline, then look. */
    method Round(interval: real, deadline: real, timeout: int) returns (nodes: seq<UiNode>)
      requires now < deadline
      modifies this
      ensures looks == old(looks) + 1
      ensures old(issued) <= issued
      ensures forall i :: |old(issued)| <= i < |issued| ==> issued[i].FitsBefore(deadline)
      ensures now >= old(now) + AtLeastZero(interval) + own(old(looks)) || now >= deadline
      ensures old(now) <= now <= deadline + own(old(looks))
      ensures LastRead(nodes)
    {
      hide LastRead;
      var sleepFor := if interval < deadline - now then interval else deadline - now;
      if sleepFor > 0.0 {
        Sleep(sleepFor);
      }
      nodes := LatestUiText(timeout, Some(deadline));
    }

    /** Poll until the phone shows a paired link or the deadline is reached; `tick` is a time that
        every look takes by itself. Without a positive interval the wait polls without sleeping,
        and only that time ends it. */
    method WaitForPairing(initial: seq<UiNode>, waitSeconds: int, interval: real, given: Option<real>, timeout: int,
                          ghost tick: Seconds)
      returns (paired: bool, last: seq<UiNode>, deadline: real)
      requires forall k :: own(k) >= tick
      requires AtLeastZero(interval) + tick > 0.0
      modifies this
      ensures deadline == if given.Some? then given.value else old(now) + waitSeconds as real
      ensures paired <==> PairedHubLinkVisible(last)
      ensures !paired ==> now >= deadline
      ensures looks >= old(looks) && (looks == old(looks) ==> last == initial && now == old(now))
      ensures looks > old(looks) ==> LastRead(last) && old(now) <= now <= deadline + own(looks - 1)
      ensures old(issued) <= issued
      ensures forall i :: |old(issued)| <= i < |issued| ==> issued[i].FitsBefore(deadline)
      ensures looks - old(looks) <= MaxRounds(deadline - old(now), AtLeastZero(interval) + tick)
    {
      hide Elapsed, MaxRounds, PairedHubLinkVisible, LastRead;
      deadline := if given.Some? then given.value else now + waitSeconds as real;
      last := initial;
      ghost var start, rounds, step := now, 0, AtLeastZero(interval) + tick;
      paired := PairedHubLinkVisible(last);
      RoundsFit(0, deadline - start, step);
      while !paired && now < deadline
        invariant looks == old(looks) + rounds && start <= now
        invariant rounds == 0 ==> last == initial && now == start
        invariant rounds > 0 ==> LastRead(last) && now <= deadline + own(looks - 1)
        invariant now >= start + Elapsed(rounds, step) || now >= deadline
        invariant rounds <= MaxRounds(deadline - start, step)
        invariant paired == PairedHubLinkVisible(last)
        invariant old(issued) <= issued
        invariant forall i :: |old(issued)| <= i < |issued| ==> issued[i].FitsBefore(deadline)
        decreases MaxRounds(deadline - start, step) - rounds
      {
        OneRoundMore(rounds, step);
        RoundsFit(rounds + 1, deadline - start, step);
        last := Round(interval, deadline, timeout);
        rounds := rounds + 1;
        paired := PairedHubLinkVisible(last);
      }
    }
  }
}
