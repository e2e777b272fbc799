/**
 The parent session's interaction authority: requests of the parent and of its subagents wait in
 one queue and are put to the interactor one at a time.

 The atomic steps are: a raise (which also schedules a microtask), a microtask (which calls the
 drain function), a drain serving the next entry or ending, an answer event, a timer, and
 (un)registering a subagent. Any interleaving of them is a run. Any number of drains, registered
 listeners and armed timers can be written down in a state; that the flag, the removal of the
 listener and the clearing of the timer keep them to one is proved.
 */
module IpAuthority {
  import opened Ids
  import opened Options
  import opened IpOrdering

  datatype Status = Accepted | Refused | TimedOut | Halted | Unspecified

  datatype Outcome = Resolved | ExecutionTimeout | HeadlessInteractionRequired | TurnCancelled

  datatype Settlement = Settlement(arrival: nat, outcome: Outcome)

  datatype Subagent = Subagent(spawnedAt: int, raised: nat)

  /** An activation of the drain function: at the head of its loop, or awaiting a request it has put. */
  datatype Drain = AtHead | Awaiting(requestId: nat)

  /** The authority's variables, and after them the history a run leaves behind. */
  datatype State = State(
    queue: seq<Entry>,
    arrivals: nat,
    processing: bool,
    drains: seq<Drain>,
    handlers: map<nat, Entry>,
    timers: map<nat, Entry>,
    requests: nat,
    microtasks: nat,
    subagents: map<string, Subagent>,
    registered: map<string, int>,
    served: seq<Entry>,
    settled: seq<Settlement>)

  const INITIAL: State := State([], 0, false, [], map[], map[], 0, 0, map[], map[], [], [])

  datatype Step =
    | Raise(now: int, timed: bool)
    | RaiseFromSubagent(subagentId: string, now: int, timed: bool)
    | Microtask
    | Serve(drain: nat, order: seq<Entry>)
    | Answer(requestId: nat, correlationId: nat, status: Status)
    | Expire(requestId: nat)
    | Register(subagentId: string, spawnedAt: int)
    | Unregister(subagentId: string)

  function OutcomeOf(status: Status): Outcome
  {
    match status
    case Accepted => Resolved
    case TimedOut => ExecutionTimeout
    case Halted => HeadlessInteractionRequired
    case Refused => TurnCancelled
    case Unspecified => TurnCancelled
  }

  // ----- The steps on the variables -----

  ghost predicate Enabled(s: State, step: Step)
  {
    match step
    case Microtask => s.microtasks > 0
    case Serve(d, order) => d < |s.drains| && s.drains[d].AtHead? && IsSorting(s.queue, order)
    case Expire(id) => id in s.timers
    case _ => true
  }

  function Enqueued(s: State, now: int, origin: Option<Attribution>, timed: bool): State
  {
    s.(queue := s.queue + [Entry(now, s.arrivals, origin, timed)],
       arrivals := s.arrivals + 1, microtasks := s.microtasks + 1)
  }

  /** A call of the drain function: it returns at once while one runs or nothing waits. */
  function Called(s: State): State
  {
    if s.processing || s.queue == [] then s else s.(processing := true, drains := s.drains + [AtHead])
  }

  /** The drain function ends. */
  function Ended(s: State, d: nat): State
    requires d < |s.drains|
  {
    s.(processing := false, drains := s.drains[..d] + s.drains[d + 1..])
  }

  /** Putting a request: its listener is registered, its timer armed if it has one, and the drain awaits it. */
  function Put(s: State, d: nat, entry: Entry): State
    requires d < |s.drains|
  {
    s.(handlers := s.handlers[s.requests := entry],
       timers := if entry.timed then s.timers[s.requests := entry] else s.timers,
       drains := s.drains[d := Awaiting(s.requests)],
       requests := s.requests + 1, served := s.served + [entry])
  }

  /** The drain that awaits the request goes on. */
  function Resumed(drains: seq<Drain>, id: nat): seq<Drain>
  {
    seq(|drains|, i requires 0 <= i < |drains| => if drains[i] == Awaiting(id) then AtHead else drains[i])
  }

  /** A listener or timer settles its entry, having removed the listener and cleared the timer. */
  function SettledWith(s: State, id: nat, entry: Entry, outcome: Outcome): State
  {
    s.(handlers := s.handlers - {id}, timers := s.timers - {id}, drains := Resumed(s.drains, id),
       settled := s.settled + [Settlement(entry.arrival, outcome)])
  }

  /** The listener of the request, if it is registered, takes the answer. */
  function Heard(s: State, id: nat, outcome: Outcome): State
  {
    if id in s.handlers then SettledWith(s, id, s.handlers[id], outcome) else s
  }

  function Next(s: State, step: Step): State
    requires Enabled(s, step)
  {
    match step
    case Raise(now, timed) => Enqueued(s, now, None, timed)
    case RaiseFromSubagent(id, now, timed) =>
      if id !in s.subagents then s
      else
        var sub := s.subagents[id];
        var counted := s.(subagents := s.subagents[id := Subagent(sub.spawnedAt, sub.raised + 1)]);
        Enqueued(counted, now, Some(Attribution(id, sub.spawnedAt, sub.raised)), timed)
    case Microtask => Called(s.(microtasks := s.microtasks - 1))
    case Serve(d, order) => if order == [] then Ended(s, d) else Put(s.(queue := order[1..]), d, order[0])
    case Answer(requestId, correlationId, status) =>
      Heard(Heard(s, requestId, OutcomeOf(status)), correlationId, OutcomeOf(status))
    case Expire(id) => SettledWith(s, id, s.timers[id], ExecutionTimeout)
    case Register(id, spawnedAt) =>
      s.(subagents := s.subagents[id := Subagent(spawnedAt, 0)], registered := s.registered[id := spawnedAt])
    case Unregister(id) => s.(subagents := s.subagents - {id})
  }

  // ----- What every run keeps -----

  /** Every request raised so far: first those served, in the order of serving, then those waiting. */
  function Raised(s: State): seq<Entry>
  {
    s.served + s.queue
  }

  function Arrivals(es: seq<Entry>): seq<nat>
  {
    seq(|es|, i requires 0 <= i < |es| => es[i].arrival)
  }

  function SettledArrivals(log: seq<Settlement>): seq<nat>
  {
    seq(|log|, i requires 0 <= i < |log| => log[i].arrival)
  }

  /** The requests that drains await and listeners stand ready for. */
  function Awaited(drains: seq<Drain>, handlers: map<nat, Entry>): seq<Entry>
  {
    if drains == [] then []
    else
      var init, last := Awaited(drains[..|drains| - 1], handlers), drains[|drains| - 1];
      if last.Awaiting? && last.requestId in handlers then init + [handlers[last.requestId]] else init
  }

  function InFlight(s: State): seq<Entry>
  {
    Awaited(s.drains, s.handlers)
  }

  ghost predicate NothingLost(s: State)
  {
    && DistinctArrivals(Raised(s)) && |Raised(s)| == s.arrivals
    && forall e | e in Raised(s) :: e.arrival < s.arrivals
  }

  /** One drain at most, as the flag says; a listener and a timer only for the request it awaits. */
  predicate OneAtATime(s: State)
  {
    if s.drains == [] then !s.processing && s.handlers == map[] && s.timers == map[]
    else if s.drains == [AtHead] then s.processing && s.handlers == map[] && s.timers == map[]
    else
      && |s.drains| == 1 && s.drains[0].Awaiting? && s.processing && s.served != []
      && var id, entry := s.drains[0].requestId, s.served[|s.served| - 1];
         s.handlers == map[id := entry] && s.timers == (if entry.timed then map[id := entry] else map[])
  }

  ghost predicate Inv(s: State)
  {
    && NothingLost(s) && OneAtATime(s)
    && Arrivals(s.served) == SettledArrivals(s.settled) + Arrivals(InFlight(s))
    && (s.queue != [] ==> s.processing || s.microtasks > 0)
  }

  lemma AwaitedByOne(d: Drain, handlers: map<nat, Entry>)
    ensures Awaited([d], handlers) == if d.Awaiting? && d.requestId in handlers then [handlers[d.requestId]] else []
  {
    assert [d][..0] == [];
    assert Awaited([d][..0], handlers) == [];
  }

  lemma OneDrain(s: State)
    requires |s.drains| == 1
    ensures InFlight(s) == if s.drains[0].Awaiting? && s.drains[0].requestId in s.handlers
                           then [s.handlers[s.drains[0].requestId]] else []
  {
    assert s.drains == [s.drains[0]];
    AwaitedByOne(s.drains[0], s.handlers);
  }

  lemma RearrangedTailKeepsArrivals(front: seq<Entry>, q: seq<Entry>, order: seq<Entry>)
    requires multiset(order) == multiset(q) && DistinctArrivals(front + q)
    ensures DistinctArrivals(front + order) && |order| == |q|
    ensures forall e :: e in front + order <==> e in front + q
  {
    assert multiset(front + order) == multiset(front + q);
    RearrangedKeeps(front + q, front + order);
    RearrangedKeeps(q, order);
    assert forall e :: e in order <==> e in Elements(order);
    assert forall e :: e in q <==> e in Elements(q);
  }

  lemma EnqueueKeepsInv(s: State, now: int, origin: Option<Attribution>, timed: bool)
    requires Inv(s)
    ensures Inv(Enqueued(s, now, origin, timed))
  {
    var s', e := Enqueued(s, now, origin, timed), Entry(now, s.arrivals, origin, timed);
    assert Raised(s') == Raised(s) + [e];
    ConcatNoDuplicates(Raised(s), [e]);
  }

  /** A call that finds the flag clear and the queue filled starts the only drain. */
  lemma StartKeepsInv(s: State)
    requires NothingLost(s) && OneAtATime(s) && !s.processing
    requires Arrivals(s.served) == SettledArrivals(s.settled) + Arrivals(InFlight(s))
    ensures Inv(s.(processing := true, drains := s.drains + [AtHead]))
  {
    var s' := s.(processing := true, drains := s.drains + [AtHead]);
    assert s.drains == [] && s'.drains == [AtHead];
    OneDrain(s');
    assert Raised(s') == Raised(s);
  }

  lemma CallKeepsInv(s: State)
    requires Inv(s) && s.microtasks > 0
    ensures Inv(Called(s.(microtasks := s.microtasks - 1)))
  {
    var called := s.(microtasks := s.microtasks - 1);
    assert Raised(called) == Raised(s) && InFlight(called) == InFlight(s);
    if !s.processing && s.queue != [] { StartKeepsInv(called); }
  }

  lemma EndKeepsInv(s: State)
    requires Inv(s) && s.drains == [AtHead] && s.queue == []
    ensures Inv(Ended(s, 0))
  {
    OneDrain(s);
    assert Ended(s, 0).drains == [];
    assert Raised(Ended(s, 0)) == Raised(s);
  }

  lemma PutKeepsInv(s: State, order: seq<Entry>)
    requires Inv(s) && s.drains == [AtHead] && order != [] && multiset(order) == multiset(s.queue)
    ensures Inv(Put(s.(queue := order[1..]), 0, order[0]))
  {
    var s' := Put(s.(queue := order[1..]), 0, order[0]);
    RearrangedTailKeepsArrivals(s.served, s.queue, order);
    assert Raised(s') == s.served + order;
    assert Arrivals(s'.served) == Arrivals(s.served) + Arrivals([order[0]]);
    OneDrain(s);
    assert s'.drains == [Awaiting(s.requests)];
    OneDrain(s');
  }

  lemma ServeKeepsInv(s: State, d: nat, order: seq<Entry>)
    requires Inv(s) && Enabled(s, Serve(d, order))
    ensures Inv(Next(s, Serve(d, order)))
  {
    assert s.drains == [AtHead] && d == 0;
    if order == [] {
      assert |multiset(s.queue)| == 0;
      EndKeepsInv(s);
    } else {
      PutKeepsInv(s, order);
    }
  }

  /** Only the listener or timer of the awaited request can settle anything, and it settles that request. */
  lemma SettleKeepsInv(s: State, id: nat, entry: Entry, outcome: Outcome)
    requires Inv(s) && if id in s.handlers then entry == s.handlers[id] else id in s.timers && entry == s.timers[id]
    ensures Inv(SettledWith(s, id, entry, outcome))
  {
    var s' := SettledWith(s, id, entry, outcome);
    assert s.drains == [Awaiting(id)] && s.handlers == map[id := entry];
    OneDrain(s);
    assert s'.drains == [AtHead];
    OneDrain(s');
    assert s'.handlers == map[] && s'.timers == map[];
    assert SettledArrivals(s'.settled) == SettledArrivals(s.settled) + [entry.arrival];
    assert Raised(s') == Raised(s);
  }

  lemma HeardKeepsInv(s: State, id: nat, outcome: Outcome)
    requires Inv(s)
    ensures Inv(Heard(s, id, outcome))
  {
    if id in s.handlers { SettleKeepsInv(s, id, s.handlers[id], outcome); }
  }

  /** What the invariant says does not depend on the registered subagents. */
  lemma SubagentsKeepInv(s: State, subagents: map<string, Subagent>, registered: map<string, int>)
    requires Inv(s)
    ensures Inv(s.(subagents := subagents, registered := registered))
  {
    assert Raised(s.(subagents := subagents, registered := registered)) == Raised(s);
  }

  lemma RaiseFromKeepsInv(s: State, id: string, now: int, timed: bool)
    requires Inv(s)
    ensures Inv(Next(s, RaiseFromSubagent(id, now, timed)))
  {
    if id in s.subagents {
      var sub := s.subagents[id];
      var subagents := s.subagents[id := Subagent(sub.spawnedAt, sub.raised + 1)];
      SubagentsKeepInv(s, subagents, s.registered);
      EnqueueKeepsInv(s.(subagents := subagents), now, Some(Attribution(id, sub.spawnedAt, sub.raised)), timed);
    }
  }

  lemma AnswerKeepsInv(s: State, requestId: nat, correlationId: nat, status: Status)
    requires Inv(s)
    ensures Inv(Next(s, Answer(requestId, correlationId, status)))
  {
    HeardKeepsInv(s, requestId, OutcomeOf(status));
    HeardKeepsInv(Heard(s, requestId, OutcomeOf(status)), correlationId, OutcomeOf(status));
  }

  lemma NextKeepsInv(s: State, step: Step)
    requires Inv(s) && Enabled(s, step)
    ensures Inv(Next(s, step))
  {
    match step
    case Raise(now, timed) => EnqueueKeepsInv(s, now, None, timed);
    case RaiseFromSubagent(id, now, timed) => RaiseFromKeepsInv(s, id, now, timed);
    case Microtask => CallKeepsInv(s);
    case Serve(d, order) => ServeKeepsInv(s, d, order);
    case Answer(requestId, correlationId, status) => AnswerKeepsInv(s, requestId, correlationId, status);
    case Expire(id) => SettleKeepsInv(s, id, s.timers[id], ExecutionTimeout);
    case Register(id, spawnedAt) =>
      SubagentsKeepInv(s, s.subagents[id := Subagent(spawnedAt, 0)], s.registered[id := spawnedAt]);
    case Unregister(id) => SubagentsKeepInv(s, s.subagents - {id}, s.registered);
  }

  // ----- Runs -----

  ghost predicate IsRun(states: seq<State>, steps: seq<Step>)
  {
    && |states| == |steps| + 1 && states[0] == INITIAL
    && forall i | 0 <= i < |steps| :: Enabled(states[i], steps[i]) && states[i + 1] == Next(states[i], steps[i])
  }

  lemma {:induction false} RunsKeepInv(states: seq<State>, steps: seq<Step>)
    requires IsRun(states, steps)
    ensures Inv(states[|steps|])
  {
    if steps != [] {
      var n := |steps| - 1;
      RunsKeepInv(states[..n + 1], steps[..n]);
      assert Enabled(states[n], steps[n]) && states[n + 1] == Next(states[n], steps[n]);
      NextKeepsInv(states[n], steps[n]);
    }
  }

  /**
   In every run there is at most one drain, and one whenever the flag is set; a listener is registered only for the
   request it awaits, and a timer is armed only if that request has one.
   */
  lemma OneDrainOneListenerOneTimer(states: seq<State>, steps: seq<Step>)
    requires IsRun(states, steps)
    ensures var s := states[|steps|];
            && |s.drains| == (if s.processing then 1 else 0)
            && (forall id :: id in s.handlers <==> Awaiting(id) in s.drains)
            && (forall id :: id in s.timers <==> id in s.handlers && s.handlers[id].timed)
            && forall id | id in s.timers :: s.timers[id] == s.handlers[id]
  {
    RunsKeepInv(states, steps);
  }

  /**
   In every run each raised request is waiting, in flight or settled, and only one of these, and at most one is in
   flight; none settles twice, by answer or by timer, and settlements follow the order of serving.
   */
  lemma EachRequestIsAnsweredOnce(states: seq<State>, steps: seq<Step>)
    requires IsRun(states, steps)
    ensures var s := states[|steps|];
            var fates := SettledArrivals(s.settled) + Arrivals(InFlight(s)) + Arrivals(s.queue);
            && NoDuplicates(fates) && |fates| == s.arrivals
            && (forall a | 0 <= a < s.arrivals :: a in fates)
            && |InFlight(s)| <= 1 && SettledArrivals(s.settled) <= Arrivals(s.served)
  {
    RunsKeepInv(states, steps);
    var s := states[|steps|];
    if |s.drains| == 1 { OneDrain(s); }
    EachHasOneFate(s);
  }

  lemma EachHasOneFate(s: State)
    requires NothingLost(s) && Arrivals(s.served) == SettledArrivals(s.settled) + Arrivals(InFlight(s))
    ensures var fates := SettledArrivals(s.settled) + Arrivals(InFlight(s)) + Arrivals(s.queue);
            NoDuplicates(fates) && |fates| == s.arrivals && forall a | 0 <= a < s.arrivals :: a in fates
  {
    var fates := SettledArrivals(s.settled) + Arrivals(InFlight(s)) + Arrivals(s.queue);
    assert fates == Arrivals(Raised(s));
    forall i, j | 0 <= i < j < |fates| ensures fates[i] != fates[j]
    {
      assert Raised(s)[i] in Raised(s) && Raised(s)[j] in Raised(s);
    }
    forall i | 0 <= i < |fates| ensures fates[i] < s.arrivals
    {
      assert Raised(s)[i] in Raised(s);
    }
    AllBelowOccur(fates, s.arrivals);
  }

  function Below(n: nat): set<nat>
  {
    if n == 0 then {} else Below(n - 1) + {n - 1}
  }

  lemma {:induction false} BelowAre(n: nat)
    ensures |Below(n)| == n && forall a: nat :: a in Below(n) <==> a < n
  {
    if n > 0 { BelowAre(n - 1); }
  }

  /** As many different numbers below `n` as there are leave none out. */
  lemma AllBelowOccur(s: seq<nat>, n: nat)
    requires NoDuplicates(s) && |s| == n && forall i | 0 <= i < |s| :: s[i] < n
    ensures forall a | 0 <= a < n :: a in s
  {
    DuplicatesAreCounted(s);
    BelowAre(n);
    assert Below(n) == Elements(s) + (Below(n) - Elements(s));
    assert Below(n) - Elements(s) == {};
    forall a | 0 <= a < n ensures a in s
    {
      assert a in Below(n);
      assert a in Elements(s);
    }
  }

  /** A waiting request is never forgotten: the drain is active or a microtask will wake it. */
  lemma WaitingRequestsAreServed(states: seq<State>, steps: seq<Step>)
    requires IsRun(states, steps)
    ensures var s := states[|steps|];
            && (s.queue != [] ==> s.processing || s.microtasks > 0)
            && (s.handlers != map[] ==> s.processing)
            && (!s.processing && s.microtasks == 0 ==> |s.settled| == s.arrivals)
  {
    RunsKeepInv(states, steps);
    var s := states[|steps|];
    assert |Arrivals(s.served)| == |SettledArrivals(s.settled)| + |Arrivals(InFlight(s))|;
  }

  /** The same requests raised and served, and the same subagents. */
  predicate SameRequests(s: State, t: State)
  {
    && t.queue == s.queue && t.served == s.served && t.arrivals == s.arrivals
    && t.subagents == s.subagents && t.registered == s.registered
  }

  lemma HeardKeepsRequests(s: State, id: nat, outcome: Outcome)
    ensures SameRequests(s, Heard(s, id, outcome)) && s.settled <= Heard(s, id, outcome).settled
  {
  }

  predicate TouchesRequests(step: Step)
  {
    step.Raise? || step.RaiseFromSubagent? || step.Serve? || step.Register? || step.Unregister?
  }

  lemma OthersKeepRequests(s: State, step: Step)
    requires Enabled(s, step) && !TouchesRequests(step)
    ensures SameRequests(s, Next(s, step)) && s.settled <= Next(s, step).settled
  {
    if step.Answer? {
      HeardKeepsRequests(s, step.requestId, OutcomeOf(step.status));
      HeardKeepsRequests(Heard(s, step.requestId, OutcomeOf(step.status)), step.correlationId, OutcomeOf(step.status));
    }
  }

  lemma ServeTakesHead(s: State, d: nat, order: seq<Entry>)
    requires Enabled(s, Serve(d, order))
    ensures var s' := Next(s, Serve(d, order));
            && (if order == [] then s'.queue == s.queue && s'.served == s.served
                else s'.queue == order[1..] && s'.served == s.served + [order[0]])
            && s'.settled == s.settled && s'.subagents == s.subagents && s'.registered == s.registered
            && s'.arrivals == s.arrivals
  {
  }

  lemma StepExtends(s: State, step: Step)
    requires Enabled(s, step)
    ensures s.settled <= Next(s, step).settled && s.served <= Next(s, step).served
  {
    if step.Serve? {
      ServeTakesHead(s, step.drain, step.order);
    } else if !TouchesRequests(step) {
      OthersKeepRequests(s, step);
    }
  }

  /** The first answer or timer settles a request; from any point of a run to its end the records stay. */
  lemma {:induction false} SettlementsAreFinal(states: seq<State>, steps: seq<Step>, a: nat)
    requires IsRun(states, steps) && a <= |steps|
    ensures states[a].settled <= states[|steps|].settled && states[a].served <= states[|steps|].served
  {
    if a < |steps| {
      var n := |steps| - 1;
      SettlementsAreFinal(states[..n + 1], steps[..n], a);
      assert states[..n + 1][a] == states[a] && states[..n + 1][n] == states[n];
      assert Enabled(states[n], steps[n]) && states[n + 1] == Next(states[n], steps[n]);
      StepExtends(states[n], steps[n]);
    }
  }

  // ----- What settles a request, and how -----

  /** The step is an answer that names the request, or its timer. */
  predicate Reaches(step: Step, requestId: nat)
  {
    || (step.Answer? && (step.requestId == requestId || step.correlationId == requestId))
    || step == Expire(requestId)
  }

  /** An accepted answer resolves; a timer or a timeout answer times out; a halt says so; all else cancels the turn. */
  predicate EndsAs(step: Step, outcome: Outcome)
  {
    && (outcome == Resolved <==> step.Answer? && step.status == Accepted)
    && (outcome == ExecutionTimeout <==> step.Expire? || (step.Answer? && step.status == TimedOut))
    && (outcome == HeadlessInteractionRequired <==> step.Answer? && step.status == Halted)
  }

  lemma HeardByNobody(s: State, id: nat, outcome: Outcome)
    requires OneAtATime(s) && Awaiting(id) !in s.drains
    ensures Heard(s, id, outcome) == s
  {
  }

  lemma HeardByListener(s: State, id: nat, outcome: Outcome)
    requires OneAtATime(s) && s.drains == [Awaiting(id)]
    ensures s.served != []
    ensures var s' := Heard(s, id, outcome);
            && s'.settled == s.settled + [Settlement(s.served[|s.served| - 1].arrival, outcome)]
            && s'.drains == [AtHead] && OneAtATime(s')
  {
  }

  lemma AnswerSettles(s: State, requestId: nat, correlationId: nat, status: Status, id: nat)
    requires OneAtATime(s) && s.drains == [Awaiting(id)] && (requestId == id || correlationId == id)
    ensures s.served != []
    ensures Next(s, Answer(requestId, correlationId, status)).settled ==
            s.settled + [Settlement(s.served[|s.served| - 1].arrival, OutcomeOf(status))]
  {
    HeardByListener(s, id, OutcomeOf(status));
    if requestId == id {
      HeardByNobody(Heard(s, id, OutcomeOf(status)), correlationId, OutcomeOf(status));
    } else {
      HeardByNobody(s, requestId, OutcomeOf(status));
    }
  }

  lemma StatusDecides(requestId: nat, correlationId: nat, status: Status)
    ensures EndsAs(Answer(requestId, correlationId, status), OutcomeOf(status))
  {
  }

  lemma UnreachedStaysUnsettled(s: State, step: Step)
    requires OneAtATime(s) && Enabled(s, step) && forall id | Awaiting(id) in s.drains :: !Reaches(step, id)
    ensures Next(s, step).settled == s.settled
  {
    if step.Answer? {
      HeardByNobody(s, step.requestId, OutcomeOf(step.status));
      HeardByNobody(s, step.correlationId, OutcomeOf(step.status));
    }
  }

  /**
   In every run a step settles the request in flight if it is an answer or a timer for it, with the outcome that answer
   or timer means; no other step settles anything.
   */
  lemma AnswersDecideOutcomes(states: seq<State>, steps: seq<Step>, i: nat)
    requires IsRun(states, steps) && i < |steps|
    ensures (exists id :: Awaiting(id) in states[i].drains && Reaches(steps[i], id)) ==>
              && states[i].served != []
              && exists outcome :: EndsAs(steps[i], outcome)
                   && states[i + 1].settled ==
                        states[i].settled + [Settlement(states[i].served[|states[i].served| - 1].arrival, outcome)]
    ensures (forall id | Awaiting(id) in states[i].drains :: !Reaches(steps[i], id)) ==>
              states[i + 1].settled == states[i].settled
  {
    assert IsRun(states[..i + 1], steps[..i]);
    RunsKeepInv(states[..i + 1], steps[..i]);
    var s, step := states[i], steps[i];
    assert Enabled(s, step) && states[i + 1] == Next(s, step);
    if id :| Awaiting(id) in s.drains && Reaches(step, id) {
      assert s.drains == [Awaiting(id)];
      if step.Answer? {
        AnswerSettles(s, step.requestId, step.correlationId, step.status, id);
        StatusDecides(step.requestId, step.correlationId, step.status);
      } else {
        assert EndsAs(step, ExecutionTimeout);
      }
    } else {
      UnreachedStaysUnsettled(s, step);
    }
  }

  // ----- What is raised -----

  /** The step raises this request: the time and timer it was given, and the subagent's standing at that moment. */
  predicate RaisedBy(s: State, step: Step, e: Entry)
  {
    && e.arrival == s.arrivals
    && match e.origin
       case None => step == Raise(e.raisedAt, e.timed)
       case Some(Attribution(id, spawnedAt, sequence)) =>
         step == RaiseFromSubagent(id, e.raisedAt, e.timed)
         && id in s.subagents && s.subagents[id] == Subagent(spawnedAt, sequence)
  }

  lemma EnqueuedIsRaised(s: State, now: int, origin: Option<Attribution>, timed: bool)
    ensures Raised(Enqueued(s, now, origin, timed)) == Raised(s) + [Entry(now, s.arrivals, origin, timed)]
  {
  }

  lemma ChildIsRaised(s: State, id: string, now: int, timed: bool)
    requires id in s.subagents
    ensures var sub := s.subagents[id];
            Raised(Next(s, RaiseFromSubagent(id, now, timed))) ==
              Raised(s) + [Entry(now, s.arrivals, Some(Attribution(id, sub.spawnedAt, sub.raised)), timed)]
  {
    var sub := s.subagents[id];
    var counted := s.(subagents := s.subagents[id := Subagent(sub.spawnedAt, sub.raised + 1)]);
    assert Raised(counted) == Raised(s);
    EnqueuedIsRaised(counted, now, Some(Attribution(id, sub.spawnedAt, sub.raised)), timed);
  }

  lemma ServingRaisesNothing(s: State, d: nat, order: seq<Entry>, e: Entry)
    requires Enabled(s, Serve(d, order))
    ensures e in Raised(Next(s, Serve(d, order))) <==> e in Raised(s)
  {
    ServeTakesHead(s, d, order);
    assert e in multiset(order) <==> e in multiset(s.queue);
    assert order != [] ==> Raised(Next(s, Serve(d, order))) == s.served + order;
  }

  /** A step raises one request or none. */
  lemma StepRaises(s: State, step: Step, e: Entry)
    requires Enabled(s, step)
    ensures e in Raised(Next(s, step)) <==> e in Raised(s) || RaisedBy(s, step, e)
  {
    match step
    case Raise(now, timed) => EnqueuedIsRaised(s, now, None, timed);
    case RaiseFromSubagent(id, now, timed) => if id in s.subagents { ChildIsRaised(s, id, now, timed); }
    case Serve(d, order) => ServingRaisesNothing(s, d, order, e);
    case Register(_, _) => assert Raised(Next(s, step)) == Raised(s);
    case Unregister(_) => assert Raised(Next(s, step)) == Raised(s);
    case _ =>
      OthersKeepRequests(s, step);
      assert Raised(Next(s, step)) == Raised(s);
  }

  /** In every run what waits or was served is exactly what some step raised, with what that step gave it. */
  lemma {:induction false} RaisedAsAsked(states: seq<State>, steps: seq<Step>, n: nat, e: Entry)
    requires IsRun(states, steps) && n <= |steps|
    ensures e in Raised(states[n]) <==> exists i :: 0 <= i < n && RaisedBy(states[i], steps[i], e)
  {
    if n > 0 {
      RaisedAsAsked(states, steps, n - 1, e);
      assert Enabled(states[n - 1], steps[n - 1]) && states[n] == Next(states[n - 1], steps[n - 1]);
      StepRaises(states[n - 1], steps[n - 1], e);
    }
  }

  // ----- Order of serving -----

  /**
   The rule of service: an earlier tick first; on one tick two requests of one subagent by sequence, of two subagents by
   spawn time, and all others by arrival.
   */
  predicate GoesFirst(e: Entry, w: Entry)
  {
    && e.raisedAt <= w.raisedAt
    && (e.raisedAt == w.raisedAt ==>
          if e.origin.None? || w.origin.None? then e.arrival <= w.arrival
          else if e.origin.value.subagentId == w.origin.value.subagentId
            then e.origin.value.sequence <= w.origin.value.sequence
          else e.origin.value.spawnedAt <= w.origin.value.spawnedAt)
  }

  /** In every run, when a drain serves a queue on which the comparator is consistent, the rule puts no other first. */
  lemma ServesByTheRule(states: seq<State>, steps: seq<Step>, i: nat, w: Entry)
    requires IsRun(states, steps) && i < |steps| && steps[i].Serve?
    requires w in states[i].queue && Consistent(states[i].queue)
    ensures exists e :: e in states[i].queue && states[i + 1].served == states[i].served + [e] && GoesFirst(e, w)
  {
    var s, d, order := states[i], steps[i].drain, steps[i].order;
    assert IsRun(states[..i + 1], steps[..i]);
    RunsKeepInv(states[..i + 1], steps[..i]);
    QueueIsRaised(s);
    assert Enabled(s, steps[i]) && states[i + 1] == Next(s, steps[i]);
    ServeTakesHead(s, d, order);
    assert w in multiset(order) && order[0] in multiset(order) && order[0] in multiset(s.queue);
    var j :| 0 <= j < |order| && order[j] == w;
    assert j > 0 ==> InOrder(s.queue, order[0], order[j]);
    assert GoesFirst(order[0], w);
  }

  /** Every raise happens at a later tick than all raises before it. */
  ghost predicate ClockAdvances(states: seq<State>, steps: seq<Step>)
    requires IsRun(states, steps)
  {
    forall i | 0 <= i < |steps| && (steps[i].Raise? || steps[i].RaiseFromSubagent?) ::
      forall e | e in Raised(states[i]) :: e.raisedAt < steps[i].now
  }

  ghost predicate InArrivalOrder(es: seq<Entry>)
  {
    && (forall i | 0 <= i < |es| :: es[i].arrival == i)
    && (forall i, j | 0 <= i < j < |es| :: es[i].raisedAt < es[j].raisedAt)
  }

  lemma {:induction false} AdvancingClockServesInArrivalOrder(states: seq<State>, steps: seq<Step>)
    requires IsRun(states, steps) && ClockAdvances(states, steps)
    ensures InArrivalOrder(Raised(states[|steps|]))
  {
    if steps != [] {
      var n := |steps| - 1;
      var s, step := states[n], steps[n];
      assert IsRun(states[..n + 1], steps[..n]);
      AdvancingClockServesInArrivalOrder(states[..n + 1], steps[..n]);
      RunsKeepInv(states[..n + 1], steps[..n]);
      assert Enabled(s, step) && states[n + 1] == Next(s, step);
      ArrivalOrderStep(s, step);
    }
  }

  lemma ArrivalOrderAppend(es: seq<Entry>, e: Entry)
    requires InArrivalOrder(es) && e.arrival == |es| && forall f | f in es :: f.raisedAt < e.raisedAt
    ensures InArrivalOrder(es + [e])
  {
    assert forall i | 0 <= i < |es| :: es[i] in es;
  }

  lemma ArrivalOrderRaise(s: State, now: int, origin: Option<Attribution>, timed: bool)
    requires |Raised(s)| == s.arrivals && InArrivalOrder(Raised(s)) && forall e | e in Raised(s) :: e.raisedAt < now
    ensures InArrivalOrder(Raised(Enqueued(s, now, origin, timed)))
  {
    var e := Entry(now, s.arrivals, origin, timed);
    ArrivalOrderAppend(Raised(s), e);
    assert Raised(Enqueued(s, now, origin, timed)) == Raised(s) + [e];
  }

  lemma ArrivalOrderStep(s: State, step: Step)
    requires |Raised(s)| == s.arrivals && InArrivalOrder(Raised(s)) && Enabled(s, step)
    requires step.Raise? || step.RaiseFromSubagent? ==> forall e | e in Raised(s) :: e.raisedAt < step.now
    ensures InArrivalOrder(Raised(Next(s, step)))
  {
    match step
    case Serve(d, order) =>
      ArrivalOrderIsSorted(s.served, s.queue, order);
      ServeTakesHead(s, d, order);
      assert Raised(Next(s, step)) == Raised(s);
    case Raise(now, timed) => ArrivalOrderRaise(s, now, None, timed);
    case RaiseFromSubagent(id, now, timed) =>
      if id in s.subagents {
        var sub := s.subagents[id];
        var counted := s.(subagents := s.subagents[id := Subagent(sub.spawnedAt, sub.raised + 1)]);
        assert Raised(counted) == Raised(s);
        ArrivalOrderRaise(counted, now, Some(Attribution(id, sub.spawnedAt, sub.raised)), timed);
      }
    case Register(_, _) => assert Raised(Next(s, step)) == Raised(s);
    case Unregister(_) => assert Raised(Next(s, step)) == Raised(s);
    case _ =>
      OthersKeepRequests(s, step);
      assert Raised(Next(s, step)) == Raised(s);
  }

  lemma ArrivalOrderIsSorted(served: seq<Entry>, q: seq<Entry>, order: seq<Entry>)
    requires InArrivalOrder(served + q) && IsSorting(q, order)
    ensures order == q
  {
    forall i, j | 0 <= i < j < |q| ensures q[i].raisedAt < q[j].raisedAt
    {
      assert (served + q)[|served| + i] == q[i] && (served + q)[|served| + j] == q[j];
    }
    StableOrderIsUnique(q, order, q);
  }

  lemma QueueIsRaised(s: State)
    requires NothingLost(s)
    ensures DistinctArrivals(s.queue) && forall e | e in s.queue :: e in Raised(s)
  {
    assert forall e | e in s.queue :: e in Raised(s);
    forall i, j | 0 <= i < j < |s.queue| ensures s.queue[i] != s.queue[j]
    {
      assert Raised(s)[|s.served| + i] == s.queue[i] && Raised(s)[|s.served| + j] == s.queue[j];
    }
  }

  /** No request is raised between two points of a run. */
  ghost predicate Quiet(steps: seq<Step>)
  {
    forall step | step in steps :: !step.Raise? && !step.RaiseFromSubagent?
  }

  ghost predicate IsSegment(states: seq<State>, steps: seq<Step>)
  {
    && |states| == |steps| + 1 && Inv(states[0])
    && forall i | 0 <= i < |steps| :: Enabled(states[i], steps[i]) && states[i + 1] == Next(states[i], steps[i])
  }

  /**
   A queue on which the comparator is consistent is served in its stable order: while nothing new is
   raised, what has been served and what still waits make up the ordered batch.
   */
  lemma {:induction false} BatchIsServedInOrder(states: seq<State>, steps: seq<Step>, batch: seq<Entry>)
    requires IsSegment(states, steps) && Quiet(steps)
    requires IsStableBatch(states[0].queue, batch)
    ensures exists k :: ServedUpTo(states[0], states[|steps|], batch, k)
  {
    var s0 := states[0];
    if steps == [] {
      assert s0.served == s0.served + batch[..0];
      assert ServedUpTo(s0, s0, batch, 0);
    } else {
      var n := |steps| - 1;
      assert Quiet(steps[..n]) && IsSegment(states[..n + 1], steps[..n]);
      BatchIsServedInOrder(states[..n + 1], steps[..n], batch);
      var k :| ServedUpTo(s0, states[n], batch, k);
      assert steps[n] in steps && Enabled(states[n], steps[n]) && states[n + 1] == Next(states[n], steps[n]);
      BatchStep(s0, states[n], batch, k, steps[n]);
    }
  }

  ghost predicate IsStableBatch(q: seq<Entry>, batch: seq<Entry>)
  {
    Consistent(q) && NoDuplicates(q) && StablyOrdered(q, batch) && multiset(batch) == multiset(q)
  }

  /** The first `k` entries of the batch have been served since `s0`, and the others wait, in its order once one is. */
  ghost predicate ServedUpTo(s0: State, s: State, batch: seq<Entry>, k: int)
  {
    0 <= k <= |batch| && s.served == s0.served + batch[..k] && s.queue == if k == 0 then s0.queue else batch[k..]
  }

  lemma BatchStep(s0: State, s: State, batch: seq<Entry>, k: int, step: Step)
    requires ServedUpTo(s0, s, batch, k) && Enabled(s, step) && !step.Raise? && !step.RaiseFromSubagent?
    requires IsStableBatch(s0.queue, batch)
    ensures exists k' :: ServedUpTo(s0, Next(s, step), batch, k')
  {
    if step.Serve? {
      BatchServe(s0, s, batch, k, step.drain, step.order);
    } else {
      if !TouchesRequests(step) { OthersKeepRequests(s, step); }
      assert ServedUpTo(s0, Next(s, step), batch, k);
    }
  }

  lemma BatchServe(s0: State, s: State, batch: seq<Entry>, k: int, d: nat, order: seq<Entry>)
    requires ServedUpTo(s0, s, batch, k) && Enabled(s, Serve(d, order))
    requires IsStableBatch(s0.queue, batch)
    ensures ServedUpTo(s0, Next(s, Serve(d, order)), batch, if order == [] then k else k + 1)
  {
    ServeTakesHead(s, d, order);
    ServesRestOfBatch(s0.queue, s.queue, batch, k, order);
    if order != [] { OneMoreOfBatch(s0.served, batch, k); }
  }

  lemma OneMoreOfBatch(served: seq<Entry>, batch: seq<Entry>, k: nat)
    requires k < |batch|
    ensures batch[k..][1..] == batch[k + 1..] && served + batch[..k] + [batch[k..][0]] == served + batch[..k + 1]
  {
  }

  lemma ServesRestOfBatch(q0: seq<Entry>, q: seq<Entry>, batch: seq<Entry>, k: nat, order: seq<Entry>)
    requires k <= |batch| && IsStableBatch(q0, batch) && IsSorting(q, order)
    requires q == if k == 0 then q0 else batch[k..]
    ensures order == batch[k..]
  {
    RearrangedKeeps(q0, batch);
    if k == 0 {
      assert batch[0..] == batch;
      StableOrderIsUnique(q0, order, batch);
    } else {
      RestIsStable(q0, batch, k);
      StableOrderIsUnique(q, order, batch[k..]);
    }
  }

  lemma RestIsStable(q0: seq<Entry>, batch: seq<Entry>, k: nat)
    requires k <= |batch| && IsStableBatch(q0, batch)
    ensures IsStableBatch(batch[k..], batch[k..])
  {
    var rest := batch[k..];
    RearrangedKeeps(q0, batch);
    forall e | e in rest ensures e in q0
    {
      assert e in batch;
      assert e in Elements(batch);
    }
    forall i, j | 0 <= i < j < |rest| ensures InOrder(rest, rest[i], rest[j])
    {
      assert InOrder(q0, batch[k + i], batch[k + j]);
    }
  }

  /**
   Entries the comparator ties wait, and so are served, in the order of their arrival, as long as it has been
   consistent on every queue sorted so far.
   */
  lemma {:induction false} TiesWaitByArrival(states: seq<State>, steps: seq<Step>)
    requires IsRun(states, steps)
    requires forall i | 0 <= i < |steps| && steps[i].Serve? :: Consistent(states[i].queue)
    ensures TiesByArrival(states[|steps|].queue)
  {
    if steps != [] {
      var n := |steps| - 1;
      var s, step := states[n], steps[n];
      assert IsRun(states[..n + 1], steps[..n]);
      TiesWaitByArrival(states[..n + 1], steps[..n]);
      RunsKeepInv(states[..n + 1], steps[..n]);
      assert Enabled(s, step) && states[n + 1] == Next(s, step);
      TiesStep(s, step);
    }
  }

  lemma TiesAppend(s: State, e: Entry)
    requires NothingLost(s) && TiesByArrival(s.queue) && e.arrival == s.arrivals
    ensures TiesByArrival(s.queue + [e])
  {
    forall i | 0 <= i < |s.queue| ensures s.queue[i].arrival < e.arrival
    {
      assert Raised(s)[|s.served| + i] == s.queue[i];
    }
  }

  lemma TiesStep(s: State, step: Step)
    requires Inv(s) && TiesByArrival(s.queue) && Enabled(s, step) && (step.Serve? ==> Consistent(s.queue))
    ensures TiesByArrival(Next(s, step).queue)
  {
    match step
    case Serve(d, order) =>
      ServeTakesHead(s, d, order);
      QueueIsRaised(s);
      TiesServedByArrival(s.queue, order);
    case Raise(now, timed) => TiesAppend(s, Entry(now, s.arrivals, None, timed));
    case RaiseFromSubagent(id, now, timed) =>
      if id in s.subagents {
        var sub := s.subagents[id];
        TiesAppend(s, Entry(now, s.arrivals, Some(Attribution(id, sub.spawnedAt, sub.raised)), timed));
      }
    case Register(_, _) =>
    case Unregister(_) =>
    case _ => OthersKeepRequests(s, step);
  }

  // ----- Which queues a run can produce -----

  /**
   In every run, whoever registered when, the comparator is consistent on the queue exactly when neither siblings nor
   parents stand against the spawn order, and a strict total order exactly when, besides, no children are tied.
   */
  lemma QueueIsOrderedExactlyWhen(states: seq<State>, steps: seq<Step>)
    requires IsRun(states, steps)
    ensures var q := states[|steps|].queue;
            && (Consistent(q) <==> SiblingsKeepSpawnOrder(q) && ParentsKeepChildOrder(q))
            && (StrictTotal(q) <==> Consistent(q) && Decided(q))
  {
    RunsKeepInv(states, steps);
    QueueIsRaised(states[|steps|]);
    ConsistentExactlyWhenInOrder(states[|steps|].queue);
    TotalExactlyWhenDecided(states[|steps|].queue);
  }

  /** Subagents are registered once each, with different spawn times. */
  ghost predicate RegistersOnce(states: seq<State>, steps: seq<Step>)
    requires IsRun(states, steps)
  {
    forall i | 0 <= i < |steps| && steps[i].Register? ::
      steps[i].subagentId !in states[i].registered && steps[i].spawnedAt !in states[i].registered.Values
  }

  /** Attributions agree with the registrations, and sequence numbers count up within a subagent. */
  ghost predicate AttributedAs(raised: seq<Entry>, subagents: map<string, Subagent>, registered: map<string, int>)
  {
    && (forall id | id in subagents :: id in registered && registered[id] == subagents[id].spawnedAt)
    && (forall x, y | x in registered && y in registered && x != y :: registered[x] != registered[y])
    && (forall e | e in raised && e.origin.Some? ::
          var a := e.origin.value;
          && a.subagentId in registered && registered[a.subagentId] == a.spawnedAt
          && (a.subagentId in subagents ==> a.sequence < subagents[a.subagentId].raised))
    && (forall e, f | e in raised && f in raised && e != f && e.origin.Some? && f.origin.Some?
                      && e.origin.value.subagentId == f.origin.value.subagentId ::
          e.origin.value.sequence != f.origin.value.sequence)
  }

  ghost predicate Attributed(s: State)
  {
    AttributedAs(Raised(s), s.subagents, s.registered)
  }

  lemma AttributedServe(s: State, d: nat, order: seq<Entry>)
    requires Inv(s) && Attributed(s) && Enabled(s, Serve(d, order))
    ensures Attributed(Next(s, Serve(d, order)))
  {
    var s' := Next(s, Serve(d, order));
    RearrangedTailKeepsArrivals(s.served, s.queue, order);
    ServeTakesHead(s, d, order);
    if order != [] { assert Raised(s') == s.served + order; }
    assert forall e :: e in Raised(s') <==> e in Raised(s);
  }

  lemma AttributedAppend(raised: seq<Entry>, subagents: map<string, Subagent>, registered: map<string, int>, e: Entry)
    requires AttributedAs(raised, subagents, registered) && e.origin.Some? && e.origin.value.subagentId in subagents
    requires subagents[e.origin.value.subagentId] == Subagent(e.origin.value.spawnedAt, e.origin.value.sequence)
    ensures var a := e.origin.value;
            AttributedAs(raised + [e], subagents[a.subagentId := Subagent(a.spawnedAt, a.sequence + 1)], registered)
  {
    assert forall f :: f in raised + [e] <==> f in raised || f == e;
  }

  lemma AttributedRaise(s: State, id: string, now: int, timed: bool)
    requires Attributed(s)
    ensures Attributed(Next(s, RaiseFromSubagent(id, now, timed)))
  {
    if id in s.subagents {
      var sub := s.subagents[id];
      ChildIsRaised(s, id, now, timed);
      AttributedAppend(Raised(s), s.subagents, s.registered,
        Entry(now, s.arrivals, Some(Attribution(id, sub.spawnedAt, sub.raised)), timed));
    }
  }

  lemma AttributedRegister(s: State, id: string, spawnedAt: int)
    requires Attributed(s) && id !in s.registered && spawnedAt !in s.registered.Values
    ensures Attributed(Next(s, Register(id, spawnedAt)))
  {
    assert forall x | x in s.registered :: s.registered[x] in s.registered.Values;
    assert Raised(Next(s, Register(id, spawnedAt))) == Raised(s);
  }

  lemma AttributedParentRaise(s: State, now: int, timed: bool)
    requires Attributed(s)
    ensures Attributed(Next(s, Raise(now, timed)))
  {
    var e := Entry(now, s.arrivals, None, timed);
    assert Raised(Next(s, Raise(now, timed))) == Raised(s) + [e];
  }

  lemma AttributedStep(s: State, step: Step)
    requires Inv(s) && Attributed(s) && Enabled(s, step)
    requires step.Register? ==> step.subagentId !in s.registered && step.spawnedAt !in s.registered.Values
    ensures Attributed(Next(s, step))
  {
    match step
    case Serve(d, order) => AttributedServe(s, d, order);
    case RaiseFromSubagent(id, now, timed) => AttributedRaise(s, id, now, timed);
    case Register(id, spawnedAt) => AttributedRegister(s, id, spawnedAt);
    case Raise(now, timed) => AttributedParentRaise(s, now, timed);
    case Unregister(_) => assert Raised(Next(s, step)) == Raised(s);
    case _ => OthersKeepRequests(s, step);
  }

  lemma {:induction false} RunsAreAttributed(states: seq<State>, steps: seq<Step>)
    requires IsRun(states, steps) && RegistersOnce(states, steps)
    ensures Attributed(states[|steps|])
  {
    if steps != [] {
      var n := |steps| - 1;
      assert IsRun(states[..n + 1], steps[..n]);
      RunsAreAttributed(states[..n + 1], steps[..n]);
      RunsKeepInv(states[..n + 1], steps[..n]);
      assert Enabled(states[n], steps[n]) && states[n + 1] == Next(states[n], steps[n]);
      AttributedStep(states[n], steps[n]);
    }
  }

  lemma AttributedPairIsKeyed(s: State, a: Entry, b: Entry)
    requires Attributed(s) && a in Raised(s) && b in Raised(s) && a != b && SameTickChildren(a, b)
    ensures if a.origin.value.subagentId == b.origin.value.subagentId
            then a.origin.value.spawnedAt == b.origin.value.spawnedAt
              && a.origin.value.sequence != b.origin.value.sequence
            else a.origin.value.spawnedAt != b.origin.value.spawnedAt
  {
  }

  lemma AttributedQueueIsKeyed(s: State)
    requires NothingLost(s) && Attributed(s)
    ensures ChildrenKeyed(s.queue) && DistinctArrivals(s.queue)
  {
    QueueIsRaised(s);
    forall a, b | a in s.queue && b in s.queue && a != b && SameTickChildren(a, b)
      ensures if a.origin.value.subagentId == b.origin.value.subagentId
              then a.origin.value.spawnedAt == b.origin.value.spawnedAt
                && a.origin.value.sequence != b.origin.value.sequence
              else a.origin.value.spawnedAt != b.origin.value.spawnedAt
    {
      AttributedPairIsKeyed(s, a, b);
    }
  }

  /**
   When subagents register once with distinct spawn times, the comparator is a total order on the
   queue of every run, unless a parent request arrived between two children against their order.
   */
  lemma QueuesHaveKeyedChildren(states: seq<State>, steps: seq<Step>)
    requires IsRun(states, steps) && RegistersOnce(states, steps)
    ensures ChildrenKeyed(states[|steps|].queue) && DistinctArrivals(states[|steps|].queue)
    ensures StrictTotal(states[|steps|].queue) <==> ParentsKeepChildOrder(states[|steps|].queue)
  {
    RunsKeepInv(states, steps);
    RunsAreAttributed(states, steps);
    AttributedQueueIsKeyed(states[|steps|]);
    TotalExactlyWhenParentsKeepOrder(states[|steps|].queue);
  }

  lemma ExtendRun(states: seq<State>, steps: seq<Step>, step: Step) returns (states': seq<State>, steps': seq<Step>)
    requires IsRun(states, steps) && Enabled(states[|steps|], step)
    ensures IsRun(states', steps') && states'[|steps'|] == Next(states[|steps|], step)
    ensures RegistersOnce(states, steps)
            && (step.Register? ==> step.subagentId !in states[|steps|].registered
                                   && step.spawnedAt !in states[|steps|].registered.Values)
            ==> RegistersOnce(states', steps')
  {
    states', steps' := states + [Next(states[|steps|], step)], steps + [step];
  }

  /** A run in which two subagents register with the given spawn times. */
  lemma RegisterTwo(x: int, y: int) returns (states: seq<State>, steps: seq<Step>)
    ensures IsRun(states, steps) && (x != y ==> RegistersOnce(states, steps))
    ensures states[|steps|] == INITIAL.(subagents := map["a" := Subagent(x, 0), "b" := Subagent(y, 0)],
                                        registered := map["a" := x, "b" := y])
  {
    states, steps := [INITIAL], [];
    assert IsRun(states, steps) && RegistersOnce(states, steps);
    states, steps := ExtendRun(states, steps, Register("a", x));
    assert states[|steps|].registered.Values == {x};
    states, steps := ExtendRun(states, steps, Register("b", y));
  }

  /** The run goes on with a request of a registered subagent. */
  lemma ExtendByChild(states: seq<State>, steps: seq<Step>, id: string, now: int)
      returns (states': seq<State>, steps': seq<Step>)
    requires IsRun(states, steps) && id in states[|steps|].subagents
    ensures IsRun(states', steps') && (RegistersOnce(states, steps) ==> RegistersOnce(states', steps'))
    ensures var s, s' := states[|steps|], states'[|steps'|];
            var sub := s.subagents[id];
            && s'.queue == s.queue + [Entry(now, s.arrivals, Some(Attribution(id, sub.spawnedAt, sub.raised)), false)]
            && s'.arrivals == s.arrivals + 1
            && s'.subagents == s.subagents[id := Subagent(sub.spawnedAt, sub.raised + 1)]
  {
    states', steps' := ExtendRun(states, steps, RaiseFromSubagent(id, now, false));
  }

  /**
   The condition on parents is not met by every run: a parent request raised on the tick of two
   subagent requests, between them and against their spawn order, leaves the comparator in a circle.
   */
  lemma MixedTieWitness()
    ensures exists states: seq<State>, steps: seq<Step> ::
              IsRun(states, steps) && RegistersOnce(states, steps) && !Consistent(states[|steps|].queue)
  {
    var states, steps := RegisterTwo(2, 1);
    states, steps := ExtendByChild(states, steps, "a", 5);
    states, steps := ExtendRun(states, steps, Raise(5, false));
    states, steps := ExtendByChild(states, steps, "b", 5);
    var q := states[|steps|].queue;
    assert q == [Entry(5, 0, Some(Attribution("a", 2, 0)), false), Entry(5, 1, None, false),
                 Entry(5, 2, Some(Attribution("b", 1, 0)), false)];
    Circle(q, q[0], q[1], q[2]);
  }

  lemma Circle(q: seq<Entry>, a: Entry, b: Entry, c: Entry)
    requires a in q && b in q && c in q && NoLater(a, b) && NoLater(b, c) && !NoLater(a, c)
    ensures !Consistent(q)
  {
  }

  /** Two subagents spawned at one time are tied, with no parent about. */
  lemma EqualSpawnTimeWitness()
    ensures exists states: seq<State>, steps: seq<Step> ::
              IsRun(states, steps) && Consistent(states[|steps|].queue) && !StrictTotal(states[|steps|].queue)
  {
    var states, steps := RegisterTwo(2, 2);
    states, steps := ExtendByChild(states, steps, "a", 5);
    states, steps := ExtendByChild(states, steps, "b", 5);
    var q := states[|steps|].queue;
    assert q == [Entry(5, 0, Some(Attribution("a", 2, 0)), false), Entry(5, 1, Some(Attribution("b", 2, 0)), false)];
    TiedPair(q);
  }

  lemma TiedPair(q: seq<Entry>)
    requires q == [Entry(5, 0, Some(Attribution("a", 2, 0)), false), Entry(5, 1, Some(Attribution("b", 2, 0)), false)]
    ensures Consistent(q) && !StrictTotal(q)
  {
    assert q[0] in q && q[1] in q && !Before(q[0], q[1]) && !Before(q[1], q[0]);
  }

  /** When one of them raises twice on a tick, its own order contradicts the tie. */
  lemma TiedSiblingsWitness()
    ensures exists states: seq<State>, steps: seq<Step> ::
              IsRun(states, steps) && NoMixedTick(states[|steps|].queue) && !Consistent(states[|steps|].queue)
  {
    var states, steps := RegisterTwo(2, 2);
    states, steps := ExtendByChild(states, steps, "a", 5);
    states, steps := ExtendByChild(states, steps, "b", 5);
    states, steps := ExtendByChild(states, steps, "a", 5);
    var q := states[|steps|].queue;
    assert q == [Entry(5, 0, Some(Attribution("a", 2, 0)), false), Entry(5, 1, Some(Attribution("b", 2, 0)), false),
                 Entry(5, 2, Some(Attribution("a", 2, 1)), false)];
    TiedSiblings(q);
  }

  lemma TiedSiblings(q: seq<Entry>)
    requires q == [Entry(5, 0, Some(Attribution("a", 2, 0)), false), Entry(5, 1, Some(Attribution("b", 2, 0)), false),
                   Entry(5, 2, Some(Attribution("a", 2, 1)), false)]
    ensures NoMixedTick(q) && !Consistent(q)
  {
    Circle(q, q[2], q[1], q[0]);
  }

  /** A subagent registered again starts its sequence over: its requests go in a circle with one of another. */
  lemma RegisteredAgainWitness()
    ensures exists states: seq<State>, steps: seq<Step> ::
              && IsRun(states, steps) && NoMixedTick(states[|steps|].queue) && Decided(states[|steps|].queue)
              && !Consistent(states[|steps|].queue)
  {
    var states, steps := RegisterTwo(1, 2);
    states, steps := ExtendByChild(states, steps, "a", 4);
    states, steps := ExtendByChild(states, steps, "a", 5);
    states, steps := ExtendByChild(states, steps, "b", 5);
    states, steps := ExtendRun(states, steps, Register("a", 3));
    states, steps := ExtendByChild(states, steps, "a", 5);
    var q := states[|steps|].queue;
    assert q == [Entry(4, 0, Some(Attribution("a", 1, 0)), false), Entry(5, 1, Some(Attribution("a", 1, 1)), false),
                 Entry(5, 2, Some(Attribution("b", 2, 0)), false), Entry(5, 3, Some(Attribution("a", 3, 0)), false)];
    AgainInACircle(q);
  }

  lemma AgainInACircle(q: seq<Entry>)
    requires q == [Entry(4, 0, Some(Attribution("a", 1, 0)), false), Entry(5, 1, Some(Attribution("a", 1, 1)), false),
                   Entry(5, 2, Some(Attribution("b", 2, 0)), false), Entry(5, 3, Some(Attribution("a", 3, 0)), false)]
    ensures NoMixedTick(q) && Decided(q) && !Consistent(q)
  {
    Circle(q, q[1], q[2], q[3]);
  }

  // ----- The authority as it runs -----

  class Authority {
    var queue: seq<Entry>
    var arrivals: nat
    var processing: bool
    var drains: seq<Drain>
    var handlers: map<nat, Entry>
    var timers: map<nat, Entry>
    var requests: nat
    var microtasks: nat
    var subagents: map<string, Subagent>
    ghost var registered: map<string, int>
    ghost var served: seq<Entry>
    ghost var settled: seq<Settlement>

    ghost function Snapshot(): State
      reads this
    {
      State(queue, arrivals, processing, drains, handlers, timers, requests, microtasks, subagents, registered,
        served, settled)
    }

    constructor ()
      ensures Snapshot() == INITIAL
    {
      queue, arrivals, processing, drains, handlers, timers, requests, microtasks :=
        [], 0, false, [], map[], map[], 0, 0;
      subagents, registered, served, settled := map[], map[], [], [];
    }

    method Enqueue(now: int, origin: Option<Attribution>, timed: bool)
      modifies `queue, `arrivals, `microtasks
      ensures Snapshot() == Enqueued(old(Snapshot()), now, origin, timed)
    {
      queue := queue + [Entry(now, arrivals, origin, timed)];
      arrivals := arrivals + 1;
      microtasks := microtasks + 1;
    }

    method Raise(now: int, timed: bool)
      modifies this
      ensures Snapshot() == Next(old(Snapshot()), Step.Raise(now, timed))
    {
      Enqueue(now, None, timed);
    }

    /** Refused, without a trace in the queue, when the subagent is not registered. */
    method RaiseFromSubagent(subagentId: string, now: int, timed: bool) returns (ok: bool)
      modifies this
      ensures ok == (subagentId in old(subagents))
      ensures Snapshot() == Next(old(Snapshot()), Step.RaiseFromSubagent(subagentId, now, timed))
    {
      if subagentId !in subagents { return false; }
      var sub := subagents[subagentId];
      subagents := subagents[subagentId := Subagent(sub.spawnedAt, sub.raised + 1)];
      Enqueue(now, Some(Attribution(subagentId, sub.spawnedAt, sub.raised)), timed);
      return true;
    }

    method RegisterSubagent(subagentId: string, spawnedAt: int)
      modifies this
      ensures Snapshot() == Next(old(Snapshot()), Register(subagentId, spawnedAt))
    {
      subagents := subagents[subagentId := Subagent(spawnedAt, 0)];
      registered := registered[subagentId := spawnedAt];
    }

    method UnregisterSubagent(subagentId: string)
      modifies this
      ensures Snapshot() == Next(old(Snapshot()), Unregister(subagentId))
    {
      subagents := subagents - {subagentId};
    }

    /** The deferred call of the drain function: nothing to do when it already runs or nothing waits. */
    method ProcessNext()
      requires Enabled(Snapshot(), Microtask)
      modifies this
      ensures Snapshot() == Next(old(Snapshot()), Microtask)
    {
      microtasks := microtasks - 1;
      if processing { return; }
      if queue == [] { return; }
      processing := true;
      drains := drains + [AtHead];
    }

    /** One turn of a drain's loop: sort, take the head, put it to the interactor; or end when nothing waits. */
    method ServeNext(d: nat) returns (ghost order: seq<Entry>)
      requires d < |drains| && drains[d].AtHead?
      modifies this
      ensures Enabled(old(Snapshot()), Serve(d, order)) && Snapshot() == Next(old(Snapshot()), Serve(d, order))
    {
      var sorted := SortEntries(queue);
      SortEntriesIsSorting(queue);
      order := sorted;
      if sorted == [] {
        assert |multiset(queue)| == 0;
        processing := false;
        drains := drains[..d] + drains[d + 1..];
        return;
      }
      queue := sorted[1..];
      RunEntryAgainst(d, sorted[0]);
    }

    /** Registers a listener for the answer, arms the timer if the request has one, and leaves the drain waiting. */
    method RunEntryAgainst(d: nat, entry: Entry)
      requires d < |drains|
      modifies this
      ensures Snapshot() == Put(old(Snapshot()), d, entry)
    {
      var requestId := requests;
      requests := requests + 1;
      handlers := handlers[requestId := entry];
      if entry.timed { timers := timers[requestId := entry]; }
      drains := drains[d := Awaiting(requestId)];
      served := served + [entry];
    }

    /** The entry settles and the drain that waits for it goes on. */
    method FinishEntry(requestId: nat, entry: Entry, outcome: Outcome)
      modifies `drains, `settled
      ensures drains == Resumed(old(drains), requestId)
      ensures settled == old(settled) + [Settlement(entry.arrival, outcome)]
    {
      settled := settled + [Settlement(entry.arrival, outcome)];
      drains := Resumed(drains, requestId);
    }

    /** A registered listener takes itself off, clears the timer and settles its entry. */
    method Hear(requestId: nat, status: Status)
      modifies this
      ensures Snapshot() == Heard(old(Snapshot()), requestId, OutcomeOf(status))
    {
      if requestId !in handlers { return; }
      var entry := handlers[requestId];
      handlers := handlers - {requestId};
      timers := timers - {requestId};
      var outcome :=
        match status
        case Accepted => Resolved
        case TimedOut => ExecutionTimeout
        case Halted => HeadlessInteractionRequired
        case _ => TurnCancelled;
      FinishEntry(requestId, entry, outcome);
    }

    /** An answer reaches the listeners of the request and of the correlation it names, and is ignored without any. */
    method AnswerReceived(requestId: nat, correlationId: nat, status: Status)
      modifies this
      ensures Snapshot() == Next(old(Snapshot()), Answer(requestId, correlationId, status))
    {
      Hear(requestId, status);
      Hear(correlationId, status);
    }

    /** An armed timer fires: it takes the listener off and settles its entry as timed out. */
    method TimerFired(requestId: nat)
      requires Enabled(Snapshot(), Expire(requestId))
      modifies this
      ensures Snapshot() == Next(old(Snapshot()), Expire(requestId))
    {
      var entry := timers[requestId];
      timers := timers - {requestId};
      handlers := handlers - {requestId};
      FinishEntry(requestId, entry, ExecutionTimeout);
    }
  }
}
