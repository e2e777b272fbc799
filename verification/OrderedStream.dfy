/**
 The ordered stream of events and commands: one queue, one drain, and a session cancellation
 that empties the queue for good.

 The drain is an asynchronous function; the atomic steps are `Submit` (a caller queues work and
 calls the drain function), `Advance` (a drain takes the next task and runs it up to its first
 await, or ends) and `Finish` (an awaited task settles). Any interleaving of the three is a run.
 A state can hold any number of drains; that the `running` flag keeps them to one is proved.
 */
module OrderedStream {
  import opened Ids

  datatype Kind = Event | Command

  datatype Task = Task(id: nat, kind: Kind)

  datatype Failure = SessionCancelled | OrderingInvariantViolated | OtherFailure

  datatype Outcome = Fulfilled | Rejected(failure: Failure)

  datatype Settlement = Settlement(id: nat, outcome: Outcome)

  /** An activation of the drain function: at the head of its loop, or awaiting a task it has started. */
  datatype Drain = AtHead | Awaiting(task: Task)

  /** The record the stream keeps with the activations of its drain, and after it the history a run leaves behind. */
  datatype State = State(
    queue: seq<Task>,
    running: bool,
    pendingEvents: int,
    pendingCommands: int,
    lastSeq: int,
    cancelled: bool,
    drains: seq<Drain>,
    submitted: nat,
    accepted: seq<nat>,
    refused: seq<nat>,
    started: seq<nat>,
    dropped: seq<nat>,
    settled: seq<Settlement>,
    emitted: seq<int>)

  const INITIAL: State := State([], false, 0, 0, 0, false, [], 0, [], [], [], [], [], [])

  datatype Step =
    | Submit(kind: Kind)
    | Advance(drain: nat, tick: int)
    | Finish(drain: nat, outcome: Outcome)

  function TaskIds(tasks: seq<Task>): seq<nat>
  {
    seq(|tasks|, i requires 0 <= i < |tasks| => tasks[i].id)
  }

  function SettledIds(log: seq<Settlement>): seq<nat>
  {
    seq(|log|, i requires 0 <= i < |log| => log[i].id)
  }

  function CountKind(tasks: seq<Task>, kind: Kind): nat
  {
    if tasks == [] then 0
    else CountKind(tasks[..|tasks| - 1], kind) + if tasks[|tasks| - 1].kind == kind then 1 else 0
  }

  function CancelledAll(tasks: seq<Task>): seq<Settlement>
  {
    seq(|tasks|, i requires 0 <= i < |tasks| => Settlement(tasks[i].id, Rejected(SessionCancelled)))
  }

  // ----- The steps on the record -----

  predicate Enabled(s: State, step: Step)
  {
    match step
    case Submit(_) => true
    case Advance(d, _) => d < |s.drains| && s.drains[d].AtHead?
    case Finish(d, _) => d < |s.drains| && s.drains[d].Awaiting?
  }

  function Counted(s: State, kind: Kind, delta: int): State
  {
    if kind.Event? then s.(pendingEvents := s.pendingEvents + delta)
    else s.(pendingCommands := s.pendingCommands + delta)
  }

  function Drained(s: State): State
  {
    s.(cancelled := true, queue := [],
       pendingEvents := s.pendingEvents - CountKind(s.queue, Event),
       pendingCommands := s.pendingCommands - CountKind(s.queue, Command),
       dropped := s.dropped + TaskIds(s.queue),
       settled := s.settled + CancelledAll(s.queue))
  }

  /** A call of the drain function: it returns at once while one runs. */
  function Called(s: State): State
  {
    if s.running then s else s.(running := true, drains := s.drains + [AtHead])
  }

  /** The drain function ends. */
  function Ended(s: State, d: nat): State
    requires d < |s.drains|
  {
    s.(running := false, drains := s.drains[..d] + s.drains[d + 1..])
  }

  /** The task runs up to its first await; an event out of order is rejected before that. */
  function Run(s: State, d: nat, task: Task, tick: int): State
    requires d < |s.drains|
  {
    if task.kind.Command? then s.(drains := s.drains[d := Awaiting(task)])
    else if tick <= s.lastSeq then
      Counted(s, Event, -1).(settled := s.settled + [Settlement(task.id, Rejected(OrderingInvariantViolated))])
    else s.(drains := s.drains[d := Awaiting(task)], lastSeq := tick, emitted := s.emitted + [tick])
  }

  function Taken(s: State, d: nat, tick: int): State
    requires d < |s.drains| && s.queue != []
  {
    Run(s.(queue := s.queue[1..], started := s.started + [s.queue[0].id]), d, s.queue[0], tick)
  }

  function Next(s: State, step: Step): State
    requires Enabled(s, step)
  {
    match step
    case Submit(kind) =>
      var id := s.submitted;
      if s.cancelled then s.(submitted := id + 1, refused := s.refused + [id])
      else Called(Counted(s, kind, 1).(submitted := id + 1, accepted := s.accepted + [id],
                                       queue := s.queue + [Task(id, kind)]))
    case Advance(d, tick) =>
      if s.queue == [] then Ended(s, d)
      else if s.cancelled then Ended(Drained(s), d)
      else Taken(s, d, tick)
    case Finish(d, outcome) =>
      var task := s.drains[d].task;
      var counted := Counted(s, task.kind, -1).(drains := s.drains[d := AtHead]);
      var drained := if outcome == Rejected(SessionCancelled) then Drained(counted) else counted;
      drained.(settled := drained.settled + [Settlement(task.id, outcome)])
  }

  // ----- What every run keeps -----

  ghost predicate Increasing(s: seq<int>)
  {
    forall i, j | 0 <= i < j < |s| :: s[i] < s[j]
  }

  /** The tasks that drains await. */
  function Awaited(drains: seq<Drain>): seq<Task>
  {
    if drains == [] then []
    else
      var init, last := Awaited(drains[..|drains| - 1]), drains[|drains| - 1];
      if last.Awaiting? then init + [last.task] else init
  }

  function InFlight(s: State): seq<Task>
  {
    Awaited(s.drains)
  }

  /** One drain at most, as the flag says. */
  predicate OneAtATime(s: State)
  {
    |s.drains| == if s.running then 1 else 0
  }

  /** Accepted tasks are started, dropped or waiting, in the order in which they were submitted. */
  ghost predicate InOrder(s: State)
  {
    && s.accepted == s.started + s.dropped + TaskIds(s.queue)
    && Increasing(s.accepted) && Increasing(s.refused)
    && (forall id | id in s.accepted || id in s.refused :: id < s.submitted)
    && (forall id | id in s.accepted :: id !in s.refused)
  }

  /**
   The settlements so far: every started task but the one in flight, in order; after a
   cancellation, the tasks still queued are settled before the task that brought it.
   */
  ghost predicate SettledInOrder(s: State)
  {
    if s.cancelled then
      && s.queue == [] && InFlight(s) == [] && s.started != []
      && SettledIds(s.settled) == s.started[..|s.started| - 1] + s.dropped + [s.started[|s.started| - 1]]
      && (forall i | |s.started| - 1 <= i < |s.settled| :: s.settled[i].outcome == Rejected(SessionCancelled))
    else
      && s.dropped == []
      && s.started == SettledIds(s.settled) + TaskIds(InFlight(s))
      && (forall i | 0 <= i < |s.settled| :: s.settled[i].outcome != Rejected(SessionCancelled))
  }

  ghost predicate PendingCounted(s: State)
  {
    && (s.queue != [] ==> s.running)
    && s.pendingEvents == CountKind(s.queue, Event) + CountKind(InFlight(s), Event)
    && s.pendingCommands == CountKind(s.queue, Command) + CountKind(InFlight(s), Command)
  }

  ghost predicate TicksIncrease(s: State)
  {
    && Increasing([0] + s.emitted)
    && s.lastSeq == ([0] + s.emitted)[|s.emitted|]
  }

  ghost predicate Inv(s: State)
  {
    OneAtATime(s) && InOrder(s) && SettledInOrder(s) && PendingCounted(s) && TicksIncrease(s)
  }

  lemma AwaitedByOne(d: Drain)
    ensures Awaited([d]) == if d.Awaiting? then [d.task] else []
  {
    assert [d][..0] == [];
    assert Awaited([d][..0]) == [];
  }

  lemma OneDrain(s: State)
    requires |s.drains| == 1
    ensures InFlight(s) == if s.drains[0].Awaiting? then [s.drains[0].task] else []
  {
    assert s.drains == [s.drains[0]];
    AwaitedByOne(s.drains[0]);
  }

  lemma {:induction false} CountConcat(s: seq<Task>, t: seq<Task>, kind: Kind)
    ensures CountKind(s + t, kind) == CountKind(s, kind) + CountKind(t, kind)
  {
    if t == [] {
      assert s + t == s;
    } else {
      assert (s + t)[..|s + t| - 1] == s + t[..|t| - 1];
      CountConcat(s, t[..|t| - 1], kind);
    }
  }

  lemma CountOne(task: Task, kind: Kind)
    ensures CountKind([task], kind) == if task.kind == kind then 1 else 0
  {
    assert [task][..0] == [];
  }

  lemma IncreasingAppend(s: seq<nat>, x: nat)
    requires Increasing(s) && forall y | y in s :: y < x
    ensures Increasing(s + [x])
  {
    assert forall i | 0 <= i < |s| :: s[i] in s;
  }

  lemma SubmitKeepsOrder(s: State, kind: Kind)
    requires InOrder(s) && (s.cancelled ==> s.queue == [])
    ensures InOrder(Next(s, Submit(kind)))
  {
    var s' := Next(s, Submit(kind));
    if s.cancelled {
      IncreasingAppend(s.refused, s.submitted);
    } else {
      IncreasingAppend(s.accepted, s.submitted);
      assert TaskIds(s'.queue) == TaskIds(s.queue) + [s.submitted];
      assert s'.accepted == s'.started + s'.dropped + TaskIds(s'.queue);
    }
  }

  /** Calling the drain function starts one when none runs, and puts no task in flight. */
  lemma CallKeepsDrain(s: State)
    requires OneAtATime(s)
    ensures OneAtATime(Called(s)) && Called(s).running && InFlight(Called(s)) == InFlight(s)
  {
    if !s.running {
      assert Called(s).drains == [AtHead];
      OneDrain(Called(s));
    }
  }

  lemma LastIsCounted(queue: seq<Task>, task: Task, kind: Kind)
    ensures CountKind(queue + [task], kind) == CountKind(queue, kind) + if task.kind == kind then 1 else 0
  {
    CountConcat(queue, [task], kind);
    CountOne(task, kind);
  }

  lemma SubmitKeepsCounts(s: State, kind: Kind)
    requires OneAtATime(s) && PendingCounted(s)
    ensures PendingCounted(Next(s, Submit(kind)))
  {
    if !s.cancelled {
      CallKeepsDrain(Counted(s, kind, 1).(submitted := s.submitted + 1, accepted := s.accepted + [s.submitted],
                                          queue := s.queue + [Task(s.submitted, kind)]));
      LastIsCounted(s.queue, Task(s.submitted, kind), Event);
      LastIsCounted(s.queue, Task(s.submitted, kind), Command);
    }
  }

  lemma SubmitKeepsInv(s: State, kind: Kind)
    requires Inv(s)
    ensures Inv(Next(s, Submit(kind)))
  {
    SubmitKeepsOrder(s, kind);
    SubmitKeepsCounts(s, kind);
    if !s.cancelled {
      CallKeepsDrain(Counted(s, kind, 1).(submitted := s.submitted + 1, accepted := s.accepted + [s.submitted],
                                          queue := s.queue + [Task(s.submitted, kind)]));
    }
  }

  lemma HeadIsCounted(queue: seq<Task>, kind: Kind)
    requires queue != []
    ensures CountKind(queue, kind) == CountKind([queue[0]], kind) + CountKind(queue[1..], kind)
    ensures CountKind([queue[0]], kind) == if queue[0].kind == kind then 1 else 0
  {
    assert queue == [queue[0]] + queue[1..];
    CountConcat([queue[0]], queue[1..], kind);
    CountOne(queue[0], kind);
  }

  /** The only drain is at the head of its loop and finds work. */
  predicate AboutToTake(s: State)
  {
    s.drains == [AtHead] && s.queue != [] && !s.cancelled
  }

  lemma TakeStartsDrain(s: State, tick: int)
    requires AboutToTake(s)
    ensures var s', task := Taken(s, 0, tick), s.queue[0];
            InFlight(s) == [] && InFlight(s') == if s'.drains == [AtHead] then [] else [task]
  {
    OneDrain(s);
    OneDrain(Taken(s, 0, tick));
  }

  lemma TakeKeepsOrder(s: State, tick: int)
    requires Inv(s) && AboutToTake(s)
    ensures InOrder(Taken(s, 0, tick))
  {
    var s' := Taken(s, 0, tick);
    assert TaskIds(s.queue) == [s.queue[0].id] + TaskIds(s.queue[1..]);
    assert s'.accepted == s'.started + s'.dropped + TaskIds(s'.queue);
  }

  lemma TakeKeepsSettled(s: State, tick: int)
    requires Inv(s) && AboutToTake(s)
    ensures SettledInOrder(Taken(s, 0, tick))
  {
    var s', id := Taken(s, 0, tick), s.queue[0].id;
    TakeStartsDrain(s, tick);
    if s'.drains == [AtHead] {
      assert SettledIds(s'.settled) == SettledIds(s.settled) + [id];
    } else {
      assert TaskIds(InFlight(s')) == [id];
    }
  }

  lemma TakeKeepsCounts(s: State, tick: int)
    requires Inv(s) && AboutToTake(s)
    ensures PendingCounted(Taken(s, 0, tick))
  {
    TakeStartsDrain(s, tick);
    HeadIsCounted(s.queue, Event);
    HeadIsCounted(s.queue, Command);
  }

  lemma TakeKeepsTicks(s: State, tick: int)
    requires TicksIncrease(s) && AboutToTake(s)
    ensures TicksIncrease(Taken(s, 0, tick))
  {
    var s', ticks := Taken(s, 0, tick), [0] + s.emitted;
    if s'.emitted != s.emitted {
      assert [0] + s'.emitted == ticks + [tick];
      assert forall i | 0 <= i < |ticks| :: ticks[i] <= ticks[|ticks| - 1];
    }
  }

  lemma EndKeepsInv(s: State)
    requires Inv(s) && s.drains == [AtHead] && s.queue == []
    ensures Inv(Ended(s, 0))
  {
    OneDrain(s);
    assert Ended(s, 0).drains == [];
  }

  lemma AdvanceKeepsInv(s: State, d: nat, tick: int)
    requires Inv(s) && Enabled(s, Advance(d, tick))
    ensures Inv(Next(s, Advance(d, tick)))
  {
    assert s.drains == [AtHead] && d == 0;
    if s.queue == [] {
      EndKeepsInv(s);
    } else {
      TakeKeepsOrder(s, tick);
      TakeKeepsSettled(s, tick);
      TakeKeepsCounts(s, tick);
      TakeKeepsTicks(s, tick);
    }
  }

  /** When an awaited task settles, its drain is the only one, and it is back at the head of its loop. */
  lemma FinishFreesDrain(s: State, d: nat, outcome: Outcome)
    requires OneAtATime(s) && Enabled(s, Finish(d, outcome))
    ensures var s' := Next(s, Finish(d, outcome));
            d == 0 && s'.drains == [AtHead] && InFlight(s) == [s.drains[0].task] && InFlight(s') == []
  {
    OneDrain(s);
    OneDrain(Next(s, Finish(d, outcome)));
  }

  lemma FinishKeepsOrder(s: State, d: nat, outcome: Outcome)
    requires Inv(s) && Enabled(s, Finish(d, outcome))
    ensures InOrder(Next(s, Finish(d, outcome)))
  {
    if outcome == Rejected(SessionCancelled) {
      assert Next(s, Finish(d, outcome)).queue == [];
      DroppedInOrder(s);
    }
  }

  /** Dropping all that waits leaves the accepted tasks in order. */
  lemma DroppedInOrder(s: State)
    requires InOrder(s)
    ensures s.accepted == s.started + (s.dropped + TaskIds(s.queue)) + TaskIds([])
  {
  }

  lemma CancellationLog(log: seq<Settlement>, queue: seq<Task>, id: nat)
    ensures var all := log + CancelledAll(queue) + [Settlement(id, Rejected(SessionCancelled))];
            && SettledIds(all) == SettledIds(log) + TaskIds(queue) + [id]
            && forall i | |log| <= i < |all| :: all[i].outcome == Rejected(SessionCancelled)
  {
  }

  /** The task that brings the cancellation settles last, after everything still queued. */
  lemma CancellationIsLogged(s: State, id: nat)
    requires InFlight(s) == [] && s.dropped == [] && s.started == SettledIds(s.settled) + [id]
    ensures var drained := Drained(s);
            SettledInOrder(drained.(settled := drained.settled + [Settlement(id, Rejected(SessionCancelled))]))
  {
    CancellationLog(s.settled, s.queue, id);
    assert s.started[..|s.started| - 1] == SettledIds(s.settled);
    assert Drained(s).dropped == TaskIds(s.queue);
    assert InFlight(Drained(s)) == [];
  }

  lemma FinishKeepsSettled(s: State, d: nat, outcome: Outcome)
    requires Inv(s) && Enabled(s, Finish(d, outcome))
    ensures SettledInOrder(Next(s, Finish(d, outcome)))
  {
    var task := s.drains[d].task;
    FinishFreesDrain(s, d, outcome);
    assert TaskIds(InFlight(s)) == [task.id];
    if outcome == Rejected(SessionCancelled) {
      CancellationIsLogged(Counted(s, task.kind, -1).(drains := [AtHead]), task.id);
    } else {
      assert s.started == SettledIds(s.settled) + [task.id];
      assert SettledIds(Next(s, Finish(d, outcome)).settled) == SettledIds(s.settled) + [task.id];
    }
  }

  lemma FinishKeepsCounts(s: State, d: nat, outcome: Outcome)
    requires Inv(s) && Enabled(s, Finish(d, outcome))
    ensures PendingCounted(Next(s, Finish(d, outcome)))
  {
    FinishFreesDrain(s, d, outcome);
    CountOne(s.drains[d].task, Event);
    CountOne(s.drains[d].task, Command);
  }

  lemma FinishKeepsInv(s: State, d: nat, outcome: Outcome)
    requires Inv(s) && Enabled(s, Finish(d, outcome))
    ensures Inv(Next(s, Finish(d, outcome)))
  {
    FinishFreesDrain(s, d, outcome);
    FinishKeepsOrder(s, d, outcome);
    FinishKeepsSettled(s, d, outcome);
    FinishKeepsCounts(s, d, outcome);
  }

  lemma NextKeepsInv(s: State, step: Step)
    requires Inv(s) && Enabled(s, step)
    ensures Inv(Next(s, step))
  {
    match step
    case Submit(kind) => SubmitKeepsInv(s, kind);
    case Advance(d, tick) => AdvanceKeepsInv(s, d, tick);
    case Finish(d, outcome) => FinishKeepsInv(s, d, outcome);
  }

  // ----- Runs -----

  ghost predicate IsRun(states: seq<State>, steps: seq<Step>)
  {
    && |states| == |steps| + 1 && states[0] == INITIAL
    && forall i | 0 <= i < |steps| :: Enabled(states[i], steps[i]) && states[i + 1] == Next(states[i], steps[i])
  }

  lemma InitialKeepsInv()
    ensures Inv(INITIAL)
  {
    var s := INITIAL;
    assert InFlight(s) == [] && s.queue == [];
    assert InOrder(s) by { assert TaskIds(s.queue) == []; }
    assert SettledInOrder(s) by { assert SettledIds(s.settled) == TaskIds(InFlight(s)) == []; }
    assert TicksIncrease(s) by { assert [0] + s.emitted == [0]; }
  }

  lemma {:induction false} RunsKeepInv(states: seq<State>, steps: seq<Step>)
    requires IsRun(states, steps)
    ensures Inv(states[|steps|])
  {
    if steps == [] {
      InitialKeepsInv();
    } else {
      var n := |steps| - 1;
      RunsKeepInv(states[..n + 1], steps[..n]);
      assert Enabled(states[n], steps[n]) && states[n + 1] == Next(states[n], steps[n]);
      NextKeepsInv(states[n], steps[n]);
    }
  }

  /**
   In every run there is at most one drain, one exactly while the flag is set, and so at most one
   task in flight; a task that waits has a drain to take it.
   */
  lemma OneDrainWhileRunning(states: seq<State>, steps: seq<Step>)
    requires IsRun(states, steps)
    ensures var s := states[|steps|];
            && |s.drains| == (if s.running then 1 else 0) && |InFlight(s)| <= |s.drains|
            && (s.queue != [] ==> s.running)
  {
    RunsKeepInv(states, steps);
    var s := states[|steps|];
    if s.running { OneDrain(s); }
  }

  /** In every run, tasks start in submission order and none starts after one that was dropped. */
  lemma StartsInSubmissionOrder(states: seq<State>, steps: seq<Step>)
    requires IsRun(states, steps)
    ensures var s := states[|steps|];
            && s.started <= s.accepted && Increasing(s.accepted)
            && (s.dropped != [] ==> s.cancelled)
  {
    RunsKeepInv(states, steps);
  }

  /**
   In every run no task settles twice; once the drain is idle every accepted task has settled,
   and after a cancellation so has every task there ever will be.
   */
  lemma SettlesExactlyOnce(states: seq<State>, steps: seq<Step>)
    requires IsRun(states, steps)
    ensures var s := states[|steps|];
            && NoDuplicates(SettledIds(s.settled))
            && (forall id | id in SettledIds(s.settled) :: id in s.accepted && id !in s.refused)
            && (!s.running || s.cancelled ==> forall id | id in s.accepted :: id in SettledIds(s.settled))
            && (forall id | 0 <= id < s.submitted :: id in s.accepted || id in s.refused)
  {
    RunsKeepInv(states, steps);
    EveryIdIsAnswered(states, steps);
    SettledOnce(states[|steps|]);
  }

  lemma SettledOnce(s: State)
    requires Inv(s)
    ensures NoDuplicates(SettledIds(s.settled))
    ensures forall id | id in SettledIds(s.settled) :: id in s.accepted && id !in s.refused
    ensures !s.running || s.cancelled ==> forall id | id in s.accepted :: id in SettledIds(s.settled)
  {
    var ids := SettledIds(s.settled);
    if s.cancelled {
      var k := |s.started| - 1;
      assert s.accepted == s.started[..k] + [s.started[k]] + s.dropped;
      forall i, j | 0 <= i < j < |ids| ensures ids[i] != ids[j]
      {
        var i', j' := Rotated(i, k, |ids|), Rotated(j, k, |ids|);
        assert ids[i] == s.accepted[i'] && ids[j] == s.accepted[j'] && i' != j';
      }
    } else {
      assert ids <= s.accepted;
    }
  }

  /** Where the i-th settlement stands among the accepted tasks when the k-th of them cancelled. */
  function Rotated(i: nat, k: nat, n: nat): nat
    requires k < n && i < n
  {
    if i < k then i else if i < n - 1 then i + 1 else k
  }

  lemma {:induction false} EveryIdIsAnswered(states: seq<State>, steps: seq<Step>)
    requires IsRun(states, steps)
    ensures var s := states[|steps|]; forall id | 0 <= id < s.submitted :: id in s.accepted || id in s.refused
  {
    if steps != [] {
      var n := |steps| - 1;
      EveryIdIsAnswered(states[..n + 1], steps[..n]);
      assert Enabled(states[n], steps[n]) && states[n + 1] == Next(states[n], steps[n]);
      var s, s' := states[n], states[n + 1];
      assert s.accepted <= s'.accepted && s.refused <= s'.refused;
      if steps[n].Submit? {
        assert s'.accepted == s.accepted + [s.submitted] || s'.refused == s.refused + [s.submitted];
      }
    }
  }

  // ----- What each step settles and emits -----

  function LastEmitted(s: State): int
  {
    if s.emitted == [] then 0 else s.emitted[|s.emitted| - 1]
  }

  /** The log grows by one settlement for each task, in their order, all of them cancelled. */
  predicate AddsCancelled(before: seq<Settlement>, after: seq<Settlement>, tasks: seq<Task>)
  {
    && |after| == |before| + |tasks| && before <= after
    && forall k | 0 <= k < |tasks| :: after[|before| + k] == Settlement(tasks[k].id, Rejected(SessionCancelled))
  }

  /**
   In every run an awaited task settles with exactly the outcome its work ended in. When that is a session
   cancellation, everything queued settles before it, cancelled.
   */
  lemma FinishSettlesAsEnded(states: seq<State>, steps: seq<Step>, i: nat)
    requires IsRun(states, steps) && i < |steps| && steps[i].Finish?
    ensures var s, s', step := states[i], states[i + 1], steps[i];
            && s.drains == [s.drains[0]] && step.drain == 0 && s.drains[0].Awaiting?
            && s'.settled != [] && s'.settled[|s'.settled| - 1] == Settlement(s.drains[0].task.id, step.outcome)
            && AddsCancelled(s.settled, s'.settled[..|s'.settled| - 1],
                             if step.outcome == Rejected(SessionCancelled) then s.queue else [])
            && s'.emitted == s.emitted && s'.started == s.started
  {
    StepInRun(states, steps, i);
    FinishFreesDrain(states[i], steps[i].drain, steps[i].outcome);
  }

  /**
   In every run the task at the head of the queue is started next. An event is rejected as out of order, without being
   emitted, exactly when its tick does not exceed the last emitted one; every other event emits its own tick, and it
   and every command is then awaited.
   */
  lemma HeadIsStarted(states: seq<State>, steps: seq<Step>, i: nat)
    requires IsRun(states, steps) && i < |steps| && steps[i].Advance? && states[i].queue != []
    ensures var s, s', tick := states[i], states[i + 1], steps[i].tick;
            var task := s.queue[0];
            && s'.started == s.started + [task.id] && s'.queue == s.queue[1..]
            && if task.kind == Event && tick <= LastEmitted(s) then
                 && s'.settled == s.settled + [Settlement(task.id, Rejected(OrderingInvariantViolated))]
                 && s'.emitted == s.emitted && s'.drains == [AtHead]
               else
                 && s'.settled == s.settled && s'.drains == [Awaiting(task)]
                 && s'.emitted == if task.kind == Event then s.emitted + [tick] else s.emitted
  {
    StepInRun(states, steps, i);
    assert states[i].drains == [AtHead] && !states[i].cancelled;
    assert states[i].lastSeq == ([0] + states[i].emitted)[|states[i].emitted|];
  }

  /** Other steps start, emit and settle nothing. */
  lemma OthersDoNothing(states: seq<State>, steps: seq<Step>, i: nat)
    requires IsRun(states, steps) && i < |steps| && !steps[i].Finish? && (steps[i].Advance? ==> states[i].queue == [])
    ensures var s, s' := states[i], states[i + 1];
            s'.settled == s.settled && s'.emitted == s.emitted && s'.started == s.started
  {
    StepInRun(states, steps, i);
  }

  lemma StepInRun(states: seq<State>, steps: seq<Step>, i: nat)
    requires IsRun(states, steps) && i < |steps|
    ensures Inv(states[i]) && Enabled(states[i], steps[i]) && states[i + 1] == Next(states[i], steps[i])
  {
    assert IsRun(states[..i + 1], steps[..i]);
    RunsKeepInv(states[..i + 1], steps[..i]);
  }

  function CountSubmits(steps: seq<Step>): nat
  {
    if steps == [] then 0
    else CountSubmits(steps[..|steps| - 1]) + if steps[|steps| - 1].Submit? then 1 else 0
  }

  /** Some step submitted the task: its number counts the submissions before, its kind is the one given. */
  ghost predicate Submitted(steps: seq<Step>, task: Task)
  {
    exists i :: 0 <= i < |steps| && steps[i] == Submit(task.kind) && CountSubmits(steps[..i]) == task.id
  }

  ghost predicate Holds(s: State, task: Task)
  {
    task in s.queue || Awaiting(task) in s.drains
  }

  lemma StillSubmitted(steps: seq<Step>, step: Step, task: Task)
    requires Submitted(steps, task) || (step == Submit(task.kind) && CountSubmits(steps) == task.id)
    ensures Submitted(steps + [step], task)
  {
    var all := steps + [step];
    assert all[..|steps|] == steps && all[|steps|] == step;
    if i :| 0 <= i < |steps| && steps[i] == Submit(task.kind) && CountSubmits(steps[..i]) == task.id {
      assert all[i] == steps[i] && all[..i] == steps[..i];
    }
  }

  lemma OneMoreSubmit(s: State, step: Step, task: Task)
    requires Enabled(s, step) && Holds(Next(s, step), task)
    ensures Holds(s, task) || (step == Submit(task.kind) && task.id == s.submitted)
  {
    if step.Advance? && s.queue != [] && !s.cancelled {
      assert s.queue == [s.queue[0]] + s.queue[1..];
      assert forall drain | drain in Next(s, step).drains :: drain in s.drains || drain == Awaiting(s.queue[0]);
    }
  }

  lemma SubmissionsCounted(s: State, step: Step)
    requires Enabled(s, step)
    ensures Next(s, step).submitted == s.submitted + if step.Submit? then 1 else 0
  {
  }

  /** In every run the tasks waiting and in flight are those submitted, under their numbers and with their kinds. */
  lemma {:induction false} TasksAreSubmitted(states: seq<State>, steps: seq<Step>)
    requires IsRun(states, steps)
    ensures states[|steps|].submitted == CountSubmits(steps)
    ensures forall task | Holds(states[|steps|], task) :: Submitted(steps, task)
  {
    if steps != [] {
      var n := |steps| - 1;
      var s, step := states[n], steps[n];
      assert IsRun(states[..n + 1], steps[..n]);
      TasksAreSubmitted(states[..n + 1], steps[..n]);
      StepInRun(states, steps, n);
      SubmissionsCounted(s, step);
      assert steps == steps[..n] + [step];
      forall task | Holds(states[n + 1], task) ensures Submitted(steps, task)
      {
        OneMoreSubmit(s, step, task);
        StillSubmitted(steps[..n], step, task);
      }
    }
  }

  /**
   The settlement log follows submission order, with one exception: a task that ends in a session
   cancellation settles after everything queued behind it, and all of those with the same error.
   */
  lemma SettlementOrder(states: seq<State>, steps: seq<Step>)
    requires IsRun(states, steps)
    ensures var s := states[|steps|];
            if s.cancelled then
              exists k :: 0 <= k < |s.accepted|
                          && SettledIds(s.settled) == s.accepted[..k] + s.accepted[k + 1..] + [s.accepted[k]]
                          && forall i | k <= i < |s.settled| :: s.settled[i].outcome == Rejected(SessionCancelled)
            else
              SettledIds(s.settled) <= s.accepted
  {
    RunsKeepInv(states, steps);
    var s := states[|steps|];
    if s.cancelled {
      var k := |s.started| - 1;
      assert s.accepted[..k] == s.started[..k] && s.accepted[k + 1..] == s.dropped;
    }
  }

  /** The counters reported by `pending` are the queued and in-flight tasks of each kind. */
  lemma PendingCountsQueuedAndInFlight(states: seq<State>, steps: seq<Step>)
    requires IsRun(states, steps)
    ensures var s := states[|steps|];
            && s.pendingEvents == CountKind(InFlight(s) + s.queue, Event)
            && s.pendingCommands == CountKind(InFlight(s) + s.queue, Command)
  {
    RunsKeepInv(states, steps);
    var s := states[|steps|];
    CountConcat(InFlight(s), s.queue, Event);
    CountConcat(InFlight(s), s.queue, Command);
  }

  /** A drain never finds the session cancelled with work left, so the cancelled branch of its loop is dead. */
  lemma CancelledMeansEmpty(states: seq<State>, steps: seq<Step>)
    requires IsRun(states, steps) && states[|steps|].cancelled
    ensures states[|steps|].queue == [] && InFlight(states[|steps|]) == []
  {
    RunsKeepInv(states, steps);
  }

  lemma IncreasingFromZero(emitted: seq<int>)
    requires Increasing([0] + emitted)
    ensures Increasing(emitted) && forall v | v in emitted :: 0 < v
  {
    var ticks := [0] + emitted;
    forall i | 0 <= i < |emitted| ensures 0 < emitted[i]
    {
      assert ticks[0] < ticks[i + 1];
    }
    forall i, j | 0 <= i < j < |emitted| ensures emitted[i] < emitted[j]
    {
      assert ticks[i + 1] < ticks[j + 1];
    }
  }

  /**
   Emitted sequence numbers are positive and increase strictly, whatever ticks the clock produced and
   however many were rejected, and the last one is remembered.
   */
  lemma EmittedSequenceIncreases(states: seq<State>, steps: seq<Step>)
    requires IsRun(states, steps)
    ensures var s := states[|steps|];
            && Increasing(s.emitted) && (forall v | v in s.emitted :: 0 < v)
            && s.lastSeq == if s.emitted == [] then 0 else s.emitted[|s.emitted| - 1]
  {
    RunsKeepInv(states, steps);
    IncreasingFromZero(states[|steps|].emitted);
  }

  /** Nothing recorded is taken back. */
  predicate Extends(s: State, t: State)
  {
    s.settled <= t.settled && s.started <= t.started && s.emitted <= t.emitted && (s.cancelled ==> t.cancelled)
  }

  lemma StepExtends(s: State, step: Step)
    requires Enabled(s, step)
    ensures Extends(s, Next(s, step))
  {
  }

  /** A settlement, once made, stays: from any point of a run to its end the logs are only appended to. */
  lemma {:induction false} SettlementsAreFinal(states: seq<State>, steps: seq<Step>, a: nat)
    requires IsRun(states, steps) && a <= |steps|
    ensures Extends(states[a], states[|steps|])
  {
    if a < |steps| {
      var n := |steps| - 1;
      SettlementsAreFinal(states[..n + 1], steps[..n], a);
      assert states[..n + 1][a] == states[a] && states[..n + 1][n] == states[n];
      assert Enabled(states[n], steps[n]) && states[n + 1] == Next(states[n], steps[n]);
      StepExtends(states[n], steps[n]);
    }
  }

  /** The record when the first `k` queued tasks have been rejected. */
  function PartlyDrained(s: State, k: nat): State
    requires k <= |s.queue|
  {
    s.(cancelled := true, queue := s.queue[k..],
       pendingEvents := s.pendingEvents - CountKind(s.queue[..k], Event),
       pendingCommands := s.pendingCommands - CountKind(s.queue[..k], Command),
       dropped := s.dropped + TaskIds(s.queue[..k]),
       settled := s.settled + CancelledAll(s.queue[..k]))
  }

  /** The record when the head of the queue has been rejected. */
  function HeadRejected(s: State): State
    requires s.queue != []
  {
    Counted(s, s.queue[0].kind, -1).(
      queue := s.queue[1..], dropped := s.dropped + [s.queue[0].id],
      settled := s.settled + [Settlement(s.queue[0].id, Rejected(SessionCancelled))])
  }

  lemma OneMoreDrained(s: State, k: nat)
    requires k < |s.queue|
    ensures PartlyDrained(s, k + 1) == HeadRejected(PartlyDrained(s, k))
  {
    var queue := s.queue;
    assert queue[..k + 1][..k] == queue[..k] && queue[k..][1..] == queue[k + 1..];
    assert TaskIds(queue[..k + 1]) == TaskIds(queue[..k]) + [queue[k].id];
    var rejection := Settlement(queue[k].id, Rejected(SessionCancelled));
    assert CancelledAll(queue[..k + 1]) == CancelledAll(queue[..k]) + [rejection];
  }

  lemma AllDrained(s: State)
    ensures PartlyDrained(s, |s.queue|) == Drained(s)
    ensures PartlyDrained(s, 0) == s.(cancelled := true)
  {
    assert s.queue[..|s.queue|] == s.queue;
  }

  // ----- The stream as it runs -----

  class Stream {
    var queue: seq<Task>
    var running: bool
    var pendingEvents: int
    var pendingCommands: int
    var lastSeq: int
    var cancelled: bool
    var drains: seq<Drain>
    var submitted: nat
    ghost var accepted: seq<nat>
    ghost var refused: seq<nat>
    ghost var started: seq<nat>
    ghost var dropped: seq<nat>
    ghost var settled: seq<Settlement>
    ghost var emitted: seq<int>

    ghost function Snapshot(): State
      reads this
    {
      State(queue, running, pendingEvents, pendingCommands, lastSeq, cancelled, drains, submitted,
            accepted, refused, started, dropped, settled, emitted)
    }

    constructor ()
      ensures Snapshot() == INITIAL
    {
      queue, running, pendingEvents, pendingCommands := [], false, 0, 0;
      lastSeq, cancelled, drains, submitted := 0, false, [], 0;
      accepted, refused, started, dropped, settled, emitted := [], [], [], [], [], [];
    }

    method Decrement(kind: Kind)
      modifies `pendingEvents, `pendingCommands
      ensures pendingEvents == old(pendingEvents) - if kind.Event? then 1 else 0
      ensures pendingCommands == old(pendingCommands) - if kind.Command? then 1 else 0
    {
      if kind.Event? { pendingEvents := pendingEvents - 1; } else { pendingCommands := pendingCommands - 1; }
    }

    method Settle(id: nat, outcome: Outcome)
      modifies `settled
      ensures settled == old(settled) + [Settlement(id, outcome)]
    {
      settled := settled + [Settlement(id, outcome)];
    }

    method RejectHead()
      requires queue != []
      modifies this
      ensures Snapshot() == HeadRejected(old(Snapshot()))
    {
      var next := queue[0];
      queue := queue[1..];
      Decrement(next.kind);
      Settle(next.id, Rejected(SessionCancelled));
      dropped := dropped + [next.id];
    }

    method DrainSessionCancellation()
      modifies this
      ensures Snapshot() == Drained(old(Snapshot()))
    {
      ghost var before := Snapshot();
      AllDrained(before);
      cancelled := true;
      ghost var k := 0;
      while queue != []
        invariant 0 <= k <= |before.queue| && Snapshot() == PartlyDrained(before, k)
        decreases |queue|
      {
        OneMoreDrained(before, k);
        RejectHead();
        k := k + 1;
      }
    }

    /** The call of the drain function: nothing to do while one runs. */
    method ProcessQueue()
      modifies `running, `drains
      ensures Snapshot() == Called(old(Snapshot()))
    {
      if running { return; }
      running := true;
      drains := drains + [AtHead];
    }

    /** One more task of the kind waits. */
    method Push(task: Task)
      modifies `pendingEvents, `pendingCommands, `queue, `accepted
      ensures queue == old(queue) + [task] && accepted == old(accepted) + [task.id]
      ensures pendingEvents == old(pendingEvents) + if task.kind.Event? then 1 else 0
      ensures pendingCommands == old(pendingCommands) + if task.kind.Command? then 1 else 0
    {
      if task.kind.Event? { pendingEvents := pendingEvents + 1; } else { pendingCommands := pendingCommands + 1; }
      queue := queue + [task];
      accepted := accepted + [task.id];
    }

    /** Queue one task and call the drain function, or refuse it when the session is cancelled. */
    method Submit(kind: Kind) returns (id: nat, ok: bool)
      modifies this
      ensures id == old(submitted) && ok == !old(cancelled)
      ensures Snapshot() == Next(old(Snapshot()), Step.Submit(kind))
    {
      id := submitted;
      submitted := submitted + 1;
      ok := !cancelled;
      if cancelled {
        refused := refused + [id];
        return;
      }
      Push(Task(id, kind));
      ProcessQueue();
    }

    /** Emit under the next tick of the clock, which must exceed every tick used before. */
    method EmitOrderedEvent(tick: int) returns (ok: bool)
      modifies `lastSeq, `emitted
      ensures ok == (tick > old(lastSeq))
      ensures if ok then lastSeq == tick && emitted == old(emitted) + [tick]
              else lastSeq == old(lastSeq) && emitted == old(emitted)
    {
      if tick <= lastSeq { return false; }
      lastSeq := tick;
      emitted := emitted + [tick];
      return true;
    }

    method EndDrain(d: nat)
      requires d < |drains|
      modifies `running, `drains
      ensures Snapshot() == Ended(old(Snapshot()), d)
    {
      running := false;
      drains := drains[..d] + drains[d + 1..];
    }

    /** An event is emitted, or rejected when its tick is out of order; then, and for a command, the drain waits. */
    method RunTask(d: nat, task: Task, tick: int)
      requires d < |drains|
      modifies this
      ensures Snapshot() == Run(old(Snapshot()), d, task, tick)
    {
      if task.kind.Event? {
        var ok := EmitOrderedEvent(tick);
        if !ok {
          Decrement(task.kind);
          Settle(task.id, Rejected(OrderingInvariantViolated));
          return;
        }
      }
      drains := drains[d := Awaiting(task)];
    }

    /** One turn of a drain's loop, up to the next await or to its end. */
    method Advance(d: nat, tick: int)
      requires Enabled(Snapshot(), Step.Advance(d, tick))
      modifies this
      ensures Snapshot() == Next(old(Snapshot()), Step.Advance(d, tick))
    {
      if queue == [] {
        EndDrain(d);
        return;
      }
      if cancelled {
        DrainSessionCancellation();
        EndDrain(d);
        return;
      }
      var task := queue[0];
      queue := queue[1..];
      started := started + [task.id];
      RunTask(d, task, tick);
    }

    /** The awaited task settles; a session cancellation first rejects everything still queued. */
    method Finish(d: nat, outcome: Outcome)
      requires Enabled(Snapshot(), Step.Finish(d, outcome))
      modifies this
      ensures Snapshot() == Next(old(Snapshot()), Step.Finish(d, outcome))
    {
      var task := drains[d].task;
      drains := drains[d := AtHead];
      Decrement(task.kind);
      if outcome == Rejected(SessionCancelled) {
        DrainSessionCancellation();
      }
      Settle(task.id, outcome);
    }
  }
}
