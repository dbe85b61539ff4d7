/** `WebSocketConnectionRegistry`: live sockets by credential, changed under one lock;
    a revoke closes what it took after it has let the lock go. */
module ConnectionRegistry {
  import opened Options

  datatype Credential = Credential(id: nat)
  datatype Socket = Socket(id: nat)
  type Connections = map<Credential, set<Socket>>

  function SocketsOf(m: Connections, c: Credential): set<Socket> { if c in m then m[c] else {} }

  function Registered(m: Connections, c: Credential, w: Socket): Connections {
    m[c := SocketsOf(m, c) + {w}]
  }

  function Unregistered(m: Connections, c: Credential, w: Socket): Connections {
    if c !in m then m else if m[c] - {w} == {} then m - {c} else m[c := m[c] - {w}]
  }

  function Revoked(m: Connections, c: Credential): Connections { m - {c} }

  /** The registry object; each method is what runs while the lock is held. */
  class Registry {
    var connections: Connections

    constructor ()
      ensures connections == map[]
    {
      connections := map[];
    }

    method Register(c: Credential, w: Socket)
      modifies this
      ensures connections == Registered(old(connections), c, w)
    {
      if c !in connections { connections := connections[c := {}]; }
      connections := connections[c := connections[c] + {w}];
    }

    method Unregister(c: Credential, w: Socket)
      modifies this
      ensures connections == Unregistered(old(connections), c, w)
    {
      if c !in connections { return; }
      connections := connections[c := connections[c] - {w}];
      if connections[c] == {} { connections := connections - {c}; }
    }

    method Revoke(c: Credential) returns (taken: set<Socket>)
      modifies this
      ensures connections == Revoked(old(connections), c)
      ensures taken == SocketsOf(old(connections), c)
    {
      taken := if c in connections then connections[c] else {};
      connections := connections - {c};
    }
  }

  // -------------------------------------------------------- what the log means

  datatype Request = Register(c: Credential, w: Socket) | Unregister(c: Credential, w: Socket) | Revoke(c: Credential)

  predicate Ends(r: Request, c: Credential, w: Socket) { r == Unregister(c, w) || r == Revoke(c) }

  /** The registration at `i` has not been ended by the requests before `n`. */
  ghost predicate LiveSince(log: seq<Request>, i: nat, n: nat, c: Credential, w: Socket) {
    && i < n <= |log| && log[i] == Register(c, w)
    && forall j :: i < j < n ==> !Ends(log[j], c, w)
  }

  /** After the first `n` lock sections, this socket is registered for this credential. */
  ghost predicate Live(log: seq<Request>, n: nat, c: Credential, w: Socket) {
    exists i: nat :: LiveSince(log, i, n, c, w)
  }

  /** The registration at `i` is one that the revoke at `n` takes. */
  ghost predicate HandedTo(log: seq<Request>, i: nat, n: nat, c: Credential, w: Socket) {
    n < |log| && log[n] == Revoke(c) && LiveSince(log, i, n, c, w)
  }

  /** A registration is handed to at most one revoke. */
  lemma HandedToOneRevoke(log: seq<Request>, i: nat, a: nat, b: nat, c: Credential, w: Socket)
    requires HandedTo(log, i, a, c, w) && HandedTo(log, i, b, c, w)
    ensures a == b
  {
    assert Ends(log[a], c, w) && Ends(log[b], c, w);
  }

  lemma LiveAppend(log: seq<Request>, r: Request, c: Credential, w: Socket)
    ensures Live(log + [r], |log| + 1, c, w) <==> r == Register(c, w) || (Live(log, |log|, c, w) && !Ends(r, c, w))
  {
    var longer := log + [r];
    if r == Register(c, w) {
      assert LiveSince(longer, |log|, |longer|, c, w);
    }
    if Live(log, |log|, c, w) && !Ends(r, c, w) {
      var i: nat :| LiveSince(log, i, |log|, c, w);
      assert LiveSince(longer, i, |longer|, c, w);
    }
    if Live(longer, |longer|, c, w) && r != Register(c, w) {
      var i: nat :| LiveSince(longer, i, |longer|, c, w);
      assert longer[|log|] == r;
      assert forall j :: i < j < |log| ==> longer[j] == log[j];
      assert LiveSince(log, i, |log|, c, w);
    }
  }

  lemma LivePrefix(log: seq<Request>, r: Request, n: nat, c: Credential, w: Socket)
    requires n <= |log|
    ensures Live(log + [r], n, c, w) <==> Live(log, n, c, w)
  {
    assert forall j :: 0 <= j < n ==> (log + [r])[j] == log[j];
    assert forall i: nat :: LiveSince(log + [r], i, n, c, w) <==> LiveSince(log, i, n, c, w);
  }

  // ------------------------------------------------------------- interleavings

  datatype Close = NotStarted | Awaiting | Finished(raised: bool)

  /** `Queued` waits for the lock; `Locked` has it; `Applied` has run its lock section
      and still has it; `Closing` has let it go. */
  datatype Phase = Arriving | Queued | Locked | Applied | Closing | Done

  /** `stamp` is the task's place in the log, `closes` the sockets a revoke took. */
  datatype Task = Task(request: Request, phase: Phase, stamp: nat, closes: map<Socket, Close>) {
    predicate HasRun() { phase.Applied? || phase.Closing? || phase.Done? }
  }

  /** `log` lists the lock sections that ran, `ran` the tasks they belong to and `arrived`
      the tasks that asked for the lock, each in order. */
  datatype State = State(
    connections: Connections, holder: Option<nat>, queue: seq<nat>, tasks: seq<Task>, log: seq<Request>,
    ran: seq<nat>, arrived: seq<nat>)

  const Init := State(map[], None, [], [], [], [], [])

  datatype Step =
    | Spawn(request: Request) | Enqueue(t: nat) | Acquire(t: nat) | Apply(t: nat) | Release(t: nat)
    | StartClose(t: nat, w: Socket) | FinishClose(t: nat, w: Socket, raised: bool) | Return(t: nat)

  predicate InPhase(s: State, t: nat, p: Phase) { t < |s.tasks| && s.tasks[t].phase == p }

  predicate Enabled(s: State, step: Step) {
    match step
    case Spawn(_) => true
    case Enqueue(t) => InPhase(s, t, Arriving)
    case Acquire(t) => InPhase(s, t, Queued) && s.holder.None? && s.queue != [] && s.queue[0] == t
    case Apply(t) => InPhase(s, t, Locked) && s.holder == Some(t)
    case Release(t) => InPhase(s, t, Applied) && s.holder == Some(t)
    case StartClose(t, w) => InPhase(s, t, Closing) && w in s.tasks[t].closes && s.tasks[t].closes[w] == NotStarted
    case FinishClose(t, w, _) => InPhase(s, t, Closing) && w in s.tasks[t].closes && s.tasks[t].closes[w] == Awaiting
    case Return(t) => InPhase(s, t, Closing) && forall w <- s.tasks[t].closes :: s.tasks[t].closes[w].Finished?
  }

  function Effect(m: Connections, r: Request): Connections {
    match r
    case Register(c, w) => Registered(m, c, w)
    case Unregister(c, w) => Unregistered(m, c, w)
    case Revoke(c) => Revoked(m, c)
  }

  function Takes(m: Connections, r: Request): set<Socket> { if r.Revoke? then SocketsOf(m, r.c) else {} }

  function ToClose(taken: set<Socket>): map<Socket, Close> { map w | w in taken :: NotStarted }

  function Next(s: State, step: Step): State
    requires Enabled(s, step)
  {
    match step
    case Spawn(r) => s.(tasks := s.tasks + [Task(r, Arriving, 0, map[])])
    case Enqueue(t) =>
      s.(queue := s.queue + [t], arrived := s.arrived + [t], tasks := s.tasks[t := s.tasks[t].(phase := Queued)])
    case Acquire(t) =>
      s.(holder := Some(t), queue := s.queue[1..], tasks := s.tasks[t := s.tasks[t].(phase := Locked)])
    case Apply(t) =>
      var task := s.tasks[t];
      var applied := task.(phase := Applied, stamp := |s.log|, closes := ToClose(Takes(s.connections, task.request)));
      s.(connections := Effect(s.connections, task.request), log := s.log + [task.request], ran := s.ran + [t],
         tasks := s.tasks[t := applied])
    case Release(t) =>
      var task := s.tasks[t];
      s.(holder := None, tasks := s.tasks[t := task.(phase := if task.request.Revoke? then Closing else Done)])
    case StartClose(t, w) => s.(tasks := s.tasks[t := s.tasks[t].(closes := s.tasks[t].closes[w := Awaiting])])
    case FinishClose(t, w, raised) =>
      s.(tasks := s.tasks[t := s.tasks[t].(closes := s.tasks[t].closes[w := Finished(raised)])])
    case Return(t) => s.(tasks := s.tasks[t := s.tasks[t].(phase := Done)])
  }

  // --------------------------------------------------------------- invariants

  /** The map is the relation the log means, and keeps no empty set. */
  ghost predicate MapIsLog(s: State) {
    && (forall c <- s.connections :: s.connections[c] != {})
    && (forall c, w :: w in SocketsOf(s.connections, c) <==> Live(s.log, |s.log|, c, w))
  }

  /** The lock is held exactly by the one task in its lock section. */
  ghost predicate OneHolder(s: State) {
    && (s.holder.Some? ==> s.holder.value < |s.tasks|)
    && forall t :: 0 <= t < |s.tasks| ==>
         (s.tasks[t].phase in {Locked, Applied} <==> s.holder == Some(t))
  }

  /** The queue holds each waiting task once. */
  ghost predicate QueueIsWaiting(s: State) {
    && (forall i :: 0 <= i < |s.queue| ==> InPhase(s, s.queue[i], Queued))
    && (forall i, j :: 0 <= i < j < |s.queue| ==> s.queue[i] != s.queue[j])
    && (forall t: nat :: InPhase(s, t, Queued) ==> t in s.queue)
  }

  /** A task that ran its lock section took what the log says; sockets are only being
      closed by revokes that have let the lock go, and all are closed when one returns. */
  ghost predicate TaskOk(log: seq<Request>, task: Task) {
    && (task.HasRun() ==>
          && task.stamp < |log| && log[task.stamp] == task.request
          && forall w :: w in task.closes <==> task.request.Revoke? && Live(log, task.stamp, task.request.c, w))
    && (!task.HasRun() ==> task.closes == map[])
    && (task.phase.Closing? ==> task.request.Revoke?)
    && (task.phase.Applied? ==> forall w <- task.closes :: task.closes[w] == NotStarted)
    && (task.phase.Done? ==> forall w <- task.closes :: task.closes[w].Finished?)
  }

  ghost predicate TasksOk(s: State) { forall task <- s.tasks :: TaskOk(s.log, task) }

  /** The log holds the requests of these tasks in order, and they are the tasks that ran
      their lock section, each once. */
  ghost predicate LogIsOf(s: State, ran: seq<nat>) {
    && |ran| == |s.log|
    && (forall n :: 0 <= n < |ran| ==>
          && ran[n] < |s.tasks| && s.tasks[ran[n]].HasRun() && s.tasks[ran[n]].stamp == n
          && s.tasks[ran[n]].request == s.log[n])
    && (forall t :: 0 <= t < |s.tasks| && s.tasks[t].HasRun() ==>
          s.tasks[t].stamp < |ran| && ran[s.tasks[t].stamp] == t)
  }

  /** The task that has the lock and has not run its section yet. */
  function Entering(s: State): seq<nat> {
    if s.holder.Some? && InPhase(s, s.holder.value, Locked) then [s.holder.value] else []
  }

  /** Those that asked are those that ran, the one that is next, and those that wait, in order. */
  ghost predicate FirstComeFirstServed(s: State) { s.arrived == s.ran + Entering(s) + s.queue }

  ghost predicate Inv(s: State) {
    && MapIsLog(s) && OneHolder(s) && QueueIsWaiting(s) && TasksOk(s)
    && LogIsOf(s, s.ran) && FirstComeFirstServed(s)
  }

  lemma EffectIsLog(m: Connections, log: seq<Request>, r: Request)
    requires MapIsLog(State(m, None, [], [], log, [], []))
    ensures MapIsLog(State(Effect(m, r), None, [], [], log + [r], [], []))
  {
    var after := Effect(m, r);
    forall c, w ensures w in SocketsOf(after, c) <==> Live(log + [r], |log| + 1, c, w) {
      LiveAppend(log, r, c, w);
    }
  }

  lemma MapKept(s: State, step: Step)
    requires MapIsLog(s) && Enabled(s, step)
    ensures MapIsLog(Next(s, step))
  {
    if step.Apply? { EffectIsLog(s.connections, s.log, s.tasks[step.t].request); }
  }

  lemma HolderKept(s: State, step: Step)
    requires OneHolder(s) && Enabled(s, step)
    ensures OneHolder(Next(s, step))
  {
  }

  lemma QueueKept(s: State, step: Step)
    requires QueueIsWaiting(s) && Enabled(s, step)
    ensures QueueIsWaiting(Next(s, step))
  {
    if step.Acquire? { AcquireKeepsQueue(s, step.t); }
    else if step.Enqueue? { EnqueueKeepsQueue(s, step.t); }
    else {
      var after := Next(s, step);
      assert after.queue == s.queue;
      assert forall t: nat :: InPhase(after, t, Queued) <==> InPhase(s, t, Queued);
    }
  }

  lemma AcquireKeepsQueue(s: State, first: nat)
    requires QueueIsWaiting(s) && Enabled(s, Acquire(first))
    ensures QueueIsWaiting(Next(s, Acquire(first)))
  {
    var after := Next(s, Acquire(first));
    forall t: nat | InPhase(after, t, Queued) ensures t in after.queue {
      assert InPhase(s, t, Queued) && t != first;
      assert s.queue == [first] + after.queue;
    }
    forall i | 0 <= i < |after.queue| ensures InPhase(after, after.queue[i], Queued) {
      assert after.queue[i] == s.queue[i + 1] && s.queue[i + 1] != s.queue[0];
    }
  }

  lemma EnqueueKeepsQueue(s: State, last: nat)
    requires QueueIsWaiting(s) && Enabled(s, Enqueue(last))
    ensures QueueIsWaiting(Next(s, Enqueue(last)))
  {
    var after := Next(s, Enqueue(last));
    forall t: nat | InPhase(after, t, Queued) ensures t in after.queue {
      assert t == last || InPhase(s, t, Queued);
      assert after.queue[|s.queue|] == last;
    }
    assert last !in s.queue;
  }

  lemma TaskKept(log: seq<Request>, r: Request, task: Task)
    requires TaskOk(log, task)
    ensures TaskOk(log + [r], task)
  {
    if task.HasRun() && task.request.Revoke? {
      forall w ensures Live(log + [r], task.stamp, task.request.c, w) <==> Live(log, task.stamp, task.request.c, w) {
        LivePrefix(log, r, task.stamp, task.request.c, w);
      }
    }
  }

  lemma AppliedOk(s: State, t: nat)
    requires MapIsLog(s) && Enabled(s, Apply(t))
    ensures TaskOk(Next(s, Apply(t)).log, Next(s, Apply(t)).tasks[t])
  {
    var r := s.tasks[t].request;
    if r.Revoke? {
      forall w ensures Live(s.log + [r], |s.log|, r.c, w) <==> Live(s.log, |s.log|, r.c, w) {
        LivePrefix(s.log, r, |s.log|, r.c, w);
      }
    }
  }

  lemma TasksKept(s: State, step: Step)
    requires MapIsLog(s) && TasksOk(s) && Enabled(s, step)
    ensures TasksOk(Next(s, step))
  {
    var after := Next(s, step);
    forall i | 0 <= i < |after.tasks| ensures TaskOk(after.log, after.tasks[i]) {
      if step.Apply? {
        if i == step.t { AppliedOk(s, i); } else {
          assert s.tasks[i] in s.tasks;
          TaskKept(s.log, s.tasks[step.t].request, s.tasks[i]);
        }
      } else if i < |s.tasks| {
        assert s.tasks[i] in s.tasks;
      }
    }
  }

  lemma LogKept(s: State, step: Step)
    requires LogIsOf(s, s.ran) && Enabled(s, step)
    ensures LogIsOf(Next(s, step), Next(s, step).ran)
  {
    hide Effect, Takes, ToClose;
  }

  lemma OrderKept(s: State, step: Step)
    requires OneHolder(s) && FirstComeFirstServed(s) && Enabled(s, step)
    ensures FirstComeFirstServed(Next(s, step))
  {
    hide Effect, Takes, ToClose;
    var after := Next(s, step);
    match step
    case Enqueue(_) =>
      assert Entering(after) == Entering(s);
    case Acquire(t) =>
      assert s.queue == [t] + after.queue && Entering(s) == [] && Entering(after) == [t];
    case Apply(t) =>
      assert Entering(s) == [t] && Entering(after) == [];
    case _ =>
      assert Entering(after) == Entering(s);
  }

  lemma StepKeepsInv(s: State, step: Step)
    requires Inv(s) && Enabled(s, step)
    ensures Inv(Next(s, step))
  {
    MapKept(s, step);
    HolderKept(s, step);
    QueueKept(s, step);
    TasksKept(s, step);
    LogKept(s, step);
    OrderKept(s, step);
  }

  // --------------------------------------------------------------------- runs

  ghost predicate IsRun(s: State, steps: seq<Step>)
    decreases |steps|
  {
    steps == [] || (Enabled(s, steps[0]) && IsRun(Next(s, steps[0]), steps[1..]))
  }

  ghost function After(s: State, steps: seq<Step>): State
    requires IsRun(s, steps)
    decreases |steps|
  {
    if steps == [] then s else After(Next(s, steps[0]), steps[1..])
  }

  lemma {:induction false} RunKeepsInv(s: State, steps: seq<Step>)
    requires Inv(s) && IsRun(s, steps)
    ensures Inv(After(s, steps))
    decreases |steps|
  {
    if steps != [] {
      StepKeepsInv(s, steps[0]);
      RunKeepsInv(Next(s, steps[0]), steps[1..]);
    }
  }

  /** Every state reached from the empty registry satisfies the invariant. */
  lemma ReachableInv(steps: seq<Step>)
    requires IsRun(Init, steps)
    ensures Inv(After(Init, steps))
  {
    assert forall c, w :: !Live(Init.log, 0, c, w);
    RunKeepsInv(Init, steps);
  }

  /** Task `t` is a revoke whose lock section took the registration at `i`. */
  ghost predicate TookRegistration(s: State, t: nat, i: nat, w: Socket) {
    && t < |s.tasks| && s.tasks[t].HasRun() && s.tasks[t].request.Revoke?
    && HandedTo(s.log, i, s.tasks[t].stamp, s.tasks[t].request.c, w)
  }

  lemma OneTaskPerStamp(s: State, a: nat, b: nat)
    requires LogIsOf(s, s.ran) && a < |s.tasks| && b < |s.tasks|
    requires s.tasks[a].HasRun() && s.tasks[b].HasRun() && s.tasks[a].stamp == s.tasks[b].stamp
    ensures a == b
  {
  }

  /** The tasks that ask for the lock in a run, in order. */
  function Asked(steps: seq<Step>): seq<nat> {
    if steps == [] then [] else (if steps[0].Enqueue? then [steps[0].t] else []) + Asked(steps[1..])
  }

  /** The tasks that run their lock section in a run, in order. */
  function Served(steps: seq<Step>): seq<nat> {
    if steps == [] then [] else (if steps[0].Apply? then [steps[0].t] else []) + Served(steps[1..])
  }

  lemma {:induction false} HistoryOfRun(s: State, steps: seq<Step>)
    requires IsRun(s, steps)
    ensures After(s, steps).arrived == s.arrived + Asked(steps)
    ensures After(s, steps).ran == s.ran + Served(steps)
    decreases |steps|
  {
    hide Enabled;
    if steps != [] {
      var next := Next(s, steps[0]);
      HistoryOfRun(next, steps[1..]);
      assert next.arrived == s.arrived + if steps[0].Enqueue? then [steps[0].t] else [];
      assert next.ran == s.ran + if steps[0].Apply? then [steps[0].t] else [];
    }
  }

  /** In any interleaving: the lock sections run in the order in which the lock was asked
      for, each task's request once; the map is what they mean in that order, without empty
      sets; and no registration is taken by two revokes. */
  lemma RegistryIsLinearizable(steps: seq<Step>)
    requires IsRun(Init, steps)
    ensures LogIsOf(After(Init, steps), Served(steps)) && Served(steps) <= Asked(steps)
    ensures var s := After(Init, steps);
            && (forall c <- s.connections :: s.connections[c] != {})
            && (forall c, w :: w in SocketsOf(s.connections, c) <==> Live(s.log, |s.log|, c, w))
            && (forall a: nat, b: nat, i: nat, w ::
                  TookRegistration(s, a, i, w) && TookRegistration(s, b, i, w) ==> a == b)
  {
    hide LogIsOf, OneHolder, QueueIsWaiting, TasksOk, Next, Enabled, IsRun;
    ReachableInv(steps);
    HistoryOfRun(Init, steps);
    var s := After(Init, steps);
    assert s.ran == Served(steps) && s.arrived == Asked(steps);
    forall a: nat, b: nat, i: nat, w | TookRegistration(s, a, i, w) && TookRegistration(s, b, i, w) ensures a == b {
      HandedToOneRevoke(s.log, i, s.tasks[a].stamp, s.tasks[b].stamp, s.tasks[a].request.c, w);
      OneTaskPerStamp(s, a, b);
    }
  }

  /** A revoke that has returned attempted to close exactly the sockets that were
      registered when its lock section ran, whichever closes raised; and nobody awaits
      a close while holding the lock. */
  lemma RevokesCloseWhatTheyTook(steps: seq<Step>, t: nat)
    requires IsRun(Init, steps) && t < |After(Init, steps).tasks|
    ensures var s := After(Init, steps); var task := s.tasks[t];
            && (task.phase.Done? && task.request.Revoke? ==>
                  forall w :: (w in task.closes && task.closes[w].Finished?)
                              <==> Live(s.log, task.stamp, task.request.c, w))
            && (s.holder == Some(t) ==> forall w <- task.closes :: task.closes[w] == NotStarted)
  {
    ReachableInv(steps);
    var s := After(Init, steps);
    assert s.tasks[t] in s.tasks && TaskOk(s.log, s.tasks[t]);
  }

  // ----------------------------------------------------------------- progress

  ghost function HolderSteps(s: State): nat {
    if s.holder.None? then 0 else if InPhase(s, s.holder.value, Locked) then 2 else 1
  }

  /** How many lock steps bring the task at this place in the queue through its section. */
  ghost function StepsUntilThrough(s: State, place: nat): nat { HolderSteps(s) + 3 * (place + 1) }

  ghost predicate OnlyLockSteps(steps: seq<Step>) {
    forall step <- steps :: step.Acquire? || step.Apply? || step.Release?
  }

  /** The task has let the lock go; a revoke has its closes still to do. */
  ghost predicate Through(task: Task) {
    task.phase == if task.request.Revoke? then Closing else Done
  }

  lemma {:induction false} HolderFinishes(s: State) returns (steps: seq<Step>)
    requires Inv(s)
    ensures IsRun(s, steps) && OnlyLockSteps(steps) && |steps| == HolderSteps(s)
    ensures var after := After(s, steps);
            && Inv(after) && after.holder.None? && after.queue == s.queue && |after.tasks| == |s.tasks|
            && (s.holder.Some? ==> Through(after.tasks[s.holder.value])
                                   && after.tasks[s.holder.value].request == s.tasks[s.holder.value].request)
            && forall t :: 0 <= t < |s.tasks| && s.holder != Some(t) ==> after.tasks[t] == s.tasks[t]
    decreases HolderSteps(s)
  {
    if s.holder.None? {
      steps := [];
    } else {
      var t := s.holder.value;
      assert s.tasks[t].phase in {Locked, Applied};
      var step := if InPhase(s, t, Locked) then Apply(t) else Release(t);
      StepKeepsInv(s, step);
      var rest := HolderFinishes(Next(s, step));
      steps := [step] + rest;
      assert steps[1..] == rest;
    }
  }

  lemma {:induction false} RunsCompose(s: State, a: seq<Step>, b: seq<Step>)
    requires IsRun(s, a) && IsRun(After(s, a), b)
    ensures IsRun(s, a + b) && After(s, a + b) == After(After(s, a), b)
    decreases |a|
  {
    if a == [] {
      assert a + b == b;
    } else {
      assert (a + b)[1..] == a[1..] + b;
      RunsCompose(Next(s, a[0]), a[1..], b);
    }
  }

  /** The holder finishes, the first waiter gets the lock, runs, and lets it go. */
  lemma OneTurn(s: State) returns (steps: seq<Step>)
    requires Inv(s) && s.queue != []
    ensures IsRun(s, steps) && OnlyLockSteps(steps) && |steps| == HolderSteps(s) + 3
    ensures var after := After(s, steps); var first := s.queue[0];
            && Inv(after) && after.holder.None? && after.queue == s.queue[1..] && |after.tasks| == |s.tasks|
            && first < |s.tasks| && Through(after.tasks[first])
            && after.tasks[first].request == s.tasks[first].request
            && forall t :: 0 <= t < |s.tasks| && s.tasks[t].phase.Queued? && t != first ==> after.tasks[t] == s.tasks[t]
  {
    var first := s.queue[0];
    assert InPhase(s, first, Queued);
    var freeing := HolderFinishes(s);
    var free := After(s, freeing);
    assert InPhase(free, free.queue[0], Queued);
    StepKeepsInv(free, Acquire(first));
    var taken := Next(free, Acquire(first));
    var running := HolderFinishes(taken);
    var turn := [Acquire(first)] + running;
    assert turn[1..] == running;
    RunsCompose(s, freeing, turn);
    steps := freeing + turn;
  }

  /** From any reachable state, a waiting task gets through its lock section in a number
      of lock steps fixed by its place in the queue, with every close still pending: an
      unregister called from a socket that is being closed cannot be blocked by it. */
  lemma {:induction false} WaiterGetsThrough(s: State, place: nat) returns (steps: seq<Step>)
    requires Inv(s) && place < |s.queue|
    ensures IsRun(s, steps) && OnlyLockSteps(steps) && |steps| == StepsUntilThrough(s, place)
    ensures var after := After(s, steps); var t := s.queue[place];
            && t < |s.tasks| && |after.tasks| == |s.tasks|
            && Through(after.tasks[t]) && after.tasks[t].request == s.tasks[t].request
    decreases place
  {
    var turn := OneTurn(s);
    if place == 0 {
      steps := turn;
    } else {
      var after := After(s, turn);
      assert InPhase(s, s.queue[place], Queued) && after.queue[place - 1] == s.queue[place];
      var later := WaiterGetsThrough(after, place - 1);
      RunsCompose(s, turn, later);
      steps := turn + later;
    }
  }

  // ------------------------------------------------------ revokes can return

  ghost predicate OwnCloseSteps(t: nat, steps: seq<Step>) {
    forall step <- steps :: (step.StartClose? || step.FinishClose? || step.Return?) && step.t == t
  }

  function Open(closes: map<Socket, Close>): set<Socket> { set w | w in closes && !closes[w].Finished? }

  /** What is left open ends as `raises` says, the rest stays as it is. */
  function Closed(closes: map<Socket, Close>, raises: Socket -> bool): map<Socket, Close> {
    map w | w in closes :: if closes[w].Finished? then closes[w] else Finished(raises(w))
  }

  /** The state with this task returned, its open closes done, and nothing else changed. */
  ghost predicate ReturnedFrom(s: State, t: nat, raises: Socket -> bool, after: State)
    requires t < |s.tasks|
  {
    after == s.(tasks := s.tasks[t := s.tasks[t].(phase := Done, closes := Closed(s.tasks[t].closes, raises))])
  }

  lemma OneStep(s: State, step: Step)
    requires Enabled(s, step)
    ensures IsRun(s, [step]) && After(s, [step]) == Next(s, step)
  {
    assert [step][1..] == [];
  }

  /** One close, whatever it does. */
  lemma CloseOne(s: State, t: nat, w: Socket, raised: bool) returns (steps: seq<Step>)
    requires InPhase(s, t, Closing) && w in Open(s.tasks[t].closes)
    ensures IsRun(s, steps) && OwnCloseSteps(t, steps)
    ensures After(s, steps)
            == s.(tasks := s.tasks[t := s.tasks[t].(closes := s.tasks[t].closes[w := Finished(raised)])])
  {
    var finish := FinishClose(t, w, raised);
    if s.tasks[t].closes[w] == Awaiting {
      OneStep(s, finish);
      steps := [finish];
    } else {
      var next := Next(s, StartClose(t, w));
      OneStep(next, finish);
      steps := [StartClose(t, w), finish];
      assert steps[1..] == [finish];
      assert next.tasks[t].closes[w := Finished(raised)] == s.tasks[t].closes[w := Finished(raised)];
      assert Next(next, finish).tasks == s.tasks[t := Next(next, finish).tasks[t]];
    }
  }

  /** A revoke that has let the lock go can return by its own steps alone, whichever of its
      closes raise. */
  lemma {:induction false} RevokeCanReturn(s: State, t: nat, raises: Socket -> bool) returns (steps: seq<Step>)
    requires InPhase(s, t, Closing)
    ensures IsRun(s, steps) && OwnCloseSteps(t, steps)
    ensures ReturnedFrom(s, t, raises, After(s, steps))
    decreases |Open(s.tasks[t].closes)|
  {
    var closes := s.tasks[t].closes;
    if Open(closes) == {} {
      forall w | w in closes ensures closes[w].Finished? {
        assert w !in Open(closes);
      }
      assert Closed(closes, raises) == closes;
      steps := [Return(t)];
    } else {
      var w :| w in Open(closes);
      var one := CloseOne(s, t, w, raises(w));
      var middle := After(s, one);
      assert Open(middle.tasks[t].closes) == Open(closes) - {w};
      assert Closed(middle.tasks[t].closes, raises) == Closed(closes, raises);
      var rest := RevokeCanReturn(middle, t, raises);
      RunsCompose(s, one, rest);
      steps := one + rest;
    }
  }

  /** No task is stuck: from any reachable state each one can be brought to its end, a revoke
      with every close done. */
  lemma EveryTaskCanFinish(s: State, t: nat, raises: Socket -> bool) returns (steps: seq<Step>)
    requires Inv(s) && t < |s.tasks|
    ensures IsRun(s, steps)
    ensures var after := After(s, steps);
            && |after.tasks| == |s.tasks| && after.tasks[t].request == s.tasks[t].request && after.tasks[t].phase.Done?
            && forall w <- after.tasks[t].closes :: after.tasks[t].closes[w].Finished?
  {
    hide Inv, IsRun, Next, StepsUntilThrough, OnlyLockSteps, HolderSteps;
    var through := GetThrough(s, t);
    var after := After(s, through);
    if after.tasks[t].phase.Done? {
      steps := through;
      RunKeepsInv(s, through);
      DoneIsClosed(after, t);
    } else {
      var own := RevokeCanReturn(after, t, raises);
      RunsCompose(s, through, own);
      steps := through + own;
    }
  }

  lemma DoneIsClosed(s: State, t: nat)
    requires Inv(s) && InPhase(s, t, Done)
    ensures forall w <- s.tasks[t].closes :: s.tasks[t].closes[w].Finished?
  {
    assert TaskOk(s.log, s.tasks[t]);
  }

  /** Every task can get through its lock section. */
  lemma GetThrough(s: State, t: nat) returns (steps: seq<Step>)
    requires Inv(s) && t < |s.tasks|
    ensures IsRun(s, steps)
    ensures var after := After(s, steps);
            && |after.tasks| == |s.tasks| && after.tasks[t].request == s.tasks[t].request
            && (after.tasks[t].phase.Done? || InPhase(after, t, Closing))
  {
    match s.tasks[t].phase
    case Arriving =>
      StepKeepsInv(s, Enqueue(t));
      var next := Next(s, Enqueue(t));
      assert next.queue[|s.queue|] == t;
      var rest := WaiterGetsThrough(next, |s.queue|);
      steps := [Enqueue(t)] + rest;
      assert steps[1..] == rest;
    case Queued =>
      assert InPhase(s, t, Queued) && t in s.queue;
      var place: nat :| place < |s.queue| && s.queue[place] == t;
      steps := WaiterGetsThrough(s, place);
    case Locked =>
      steps := HolderFinishes(s);
    case Applied =>
      steps := HolderFinishes(s);
    case Closing =>
      steps := [];
    case Done =>
      steps := [];
  }

  /** Any request can be made at any time, and then served. */
  lemma NewTaskCanFinish(s: State, r: Request, raises: Socket -> bool) returns (steps: seq<Step>)
    requires Inv(s)
    ensures IsRun(s, steps)
    ensures var after := After(s, steps); var t := |s.tasks|;
            && |after.tasks| == t + 1 && after.tasks[t].request == r && after.tasks[t].phase.Done?
            && forall w <- after.tasks[t].closes :: after.tasks[t].closes[w].Finished?
  {
    StepKeepsInv(s, Spawn(r));
    var next := Next(s, Spawn(r));
    var rest := EveryTaskCanFinish(next, |s.tasks|, raises);
    steps := [Spawn(r)] + rest;
    assert steps[1..] == rest;
  }

  // ------------------------------------------------ each close happens once

  predicate StartsClose(step: Step, t: nat, w: Socket) { step == StartClose(t, w) }

  predicate EndsClose(step: Step, t: nat, w: Socket) { step.FinishClose? && step.t == t && step.w == w }

  function StartsOf(steps: seq<Step>, t: nat, w: Socket): nat {
    if steps == [] then 0 else (if StartsClose(steps[0], t, w) then 1 else 0) + StartsOf(steps[1..], t, w)
  }

  function EndsOf(steps: seq<Step>, t: nat, w: Socket): nat {
    if steps == [] then 0 else (if EndsClose(steps[0], t, w) then 1 else 0) + EndsOf(steps[1..], t, w)
  }

  /** How often the close of this socket by this task was started, and ended. */
  function Started(s: State, t: nat, w: Socket): nat {
    if t < |s.tasks| && w in s.tasks[t].closes && s.tasks[t].closes[w] != NotStarted then 1 else 0
  }

  function Ended(s: State, t: nat, w: Socket): nat {
    if t < |s.tasks| && w in s.tasks[t].closes && s.tasks[t].closes[w].Finished? then 1 else 0
  }

  lemma OneStepStarts(s: State, step: Step, t: nat, w: Socket)
    requires TasksOk(s) && Enabled(s, step)
    ensures Started(Next(s, step), t, w) == Started(s, t, w) + if StartsClose(step, t, w) then 1 else 0
  {
    if t < |s.tasks| {
      assert TaskOk(s.log, s.tasks[t]);
    }
    hide Effect, Takes, TasksOk;
  }

  lemma OneStepEnds(s: State, step: Step, t: nat, w: Socket)
    requires TasksOk(s) && Enabled(s, step)
    ensures Ended(Next(s, step), t, w) == Ended(s, t, w) + if EndsClose(step, t, w) then 1 else 0
  {
    if t < |s.tasks| {
      assert TaskOk(s.log, s.tasks[t]);
    }
    hide Effect, Takes, TasksOk;
  }

  lemma {:induction false} ClosesAreCounted(s: State, steps: seq<Step>, t: nat, w: Socket)
    requires Inv(s) && IsRun(s, steps)
    ensures Started(After(s, steps), t, w) == Started(s, t, w) + StartsOf(steps, t, w)
    ensures Ended(After(s, steps), t, w) == Ended(s, t, w) + EndsOf(steps, t, w)
    decreases |steps|
  {
    assert TasksOk(s);
    hide Inv, Enabled, Started, Ended, StartsClose, EndsClose, Next, TasksOk;
    if steps != [] {
      OneStepStarts(s, steps[0], t, w);
      OneStepEnds(s, steps[0], t, w);
      StepKeepsInv(s, steps[0]);
      ClosesAreCounted(Next(s, steps[0]), steps[1..], t, w);
    }
  }

  /** In any run no close is started twice or ends without its start; a revoke that returned
      started and ended the close of each socket it took exactly once. */
  lemma ClosedExactlyOnce(steps: seq<Step>, t: nat, w: Socket)
    requires IsRun(Init, steps)
    ensures EndsOf(steps, t, w) <= StartsOf(steps, t, w) <= 1
    ensures var s := After(Init, steps);
            t < |s.tasks| && s.tasks[t].phase.Done? && s.tasks[t].request.Revoke?
            && Live(s.log, s.tasks[t].stamp, s.tasks[t].request.c, w) ==>
              StartsOf(steps, t, w) == 1 && EndsOf(steps, t, w) == 1
  {
    ReachableInv([]);
    ClosesAreCounted(Init, steps, t, w);
    if t < |After(Init, steps).tasks| {
      RevokesCloseWhatTheyTook(steps, t);
    }
  }
}
