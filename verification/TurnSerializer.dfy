/**
 The serializer that lets one turn of a session run at a time, together with the two things it
 works with: the scope tree, in which every turn gets a child scope of its session, and the
 execution bookkeeping, which refuses a second turn while one is active.

 Each turn is chained to the promise of the one enqueued before it. The atomic steps are
 enqueueing a turn, starting one whose predecessor has settled, a turn settling, and any step
 on the scope tree.
 */
module TurnSerializer {
  import opened Options
  import opened ScopeTree
  import ScopeRuns

  datatype Status = Queued | Running | Settled(fulfilled: bool)

  /** One enqueued turn: its scope, the turn whose promise it is chained to, and how far it is. */
  datatype ChainedTurn = ChainedTurn(scope: nat, after: Option<nat>, status: Status)

  datatype State = State(scopes: ScopeRuns.State, session: nat, turns: seq<ChainedTurn>, tail: Option<nat>,
                         activeTurn: Option<nat>, refused: nat, started: seq<nat>)

  datatype Step =
    | Enqueue
    | Start(turn: nat)
    | Settle(turn: nat, fulfilled: bool)
    | OnScopes(step: ScopeRuns.Step)

  function Initial(scopes: ScopeRuns.State, session: nat): State
  {
    State(scopes, session, [], None, None, 0, [])
  }

  /** A turn may start once the promise it is chained to has settled, either way. */
  predicate Startable(turns: seq<ChainedTurn>, k: nat)
  {
    && k < |turns| && turns[k].status.Queued?
    && (turns[k].after.Some? ==> turns[k].after.value < |turns| && turns[turns[k].after.value].status.Settled?)
  }

  predicate Enabled(s: State, step: Step)
  {
    match step
    case Enqueue => WellFormed(s.scopes.nodes) && s.session < |s.scopes.nodes|
    case Start(k) => Startable(s.turns, k)
    case Settle(k, _) => k < |s.turns| && s.turns[k].status.Running?
    case OnScopes(step) => WellFormed(s.scopes.nodes) && ScopeRuns.Enabled(s.scopes, step)
  }

  /**
   A turn marks its start, which is refused while another is marked active, and marks its end if it is
   the active one.
   */
  function Next(s: State, step: Step): State
    requires Enabled(s, step)
  {
    match step
    case Enqueue =>
      var turn := ChainedTurn(|s.scopes.nodes|, s.tail, Queued);
      s.(scopes := ScopeRuns.Next(s.scopes, ScopeRuns.NewChild(s.session, Turn)),
         turns := s.turns + [turn], tail := Some(|s.turns|))
    case Start(k) =>
      var s' := s.(turns := s.turns[k := s.turns[k].(status := Running)], started := s.started + [k]);
      if s.activeTurn.Some? then s'.(refused := s.refused + 1) else s'.(activeTurn := Some(k))
    case Settle(k, fulfilled) =>
      var s' := s.(turns := s.turns[k := s.turns[k].(status := Settled(fulfilled))]);
      if s.activeTurn == Some(k) then s'.(activeTurn := None) else s'
    case OnScopes(step) => s.(scopes := ScopeRuns.Next(s.scopes, step))
  }

  // ----- What every run keeps -----

  /** Turns are chained in the order they were enqueued. */
  predicate Chained(s: State)
  {
    && (s.tail == if s.turns == [] then None else Some(|s.turns| - 1))
    && forall k {:trigger s.turns[k].after} | 0 <= k < |s.turns| ::
      s.turns[k].after == if k == 0 then None else Some(k - 1)
  }

  /** How many turns have settled, when the turns settle in order. */
  function SettledCount(s: State): int
  {
    if s.activeTurn.Some? then |s.started| - 1 else |s.started|
  }

  /** The turns started are the first ones, all settled but for the one marked active, which is the last of them. */
  predicate OneAtATime(s: State)
  {
    && s.refused == 0 && |s.started| <= |s.turns|
    && (forall i | 0 <= i < |s.started| :: s.started[i] == i)
    && (s.activeTurn.Some? ==> s.activeTurn.value + 1 == |s.started| && s.turns[s.activeTurn.value].status.Running?)
    && (forall k | 0 <= k < SettledCount(s) :: s.turns[k].status.Settled?)
    && (forall k | |s.started| <= k < |s.turns| :: s.turns[k].status.Queued?)
  }

  /** Every turn's scope is one for turns and lies under the session's. */
  ghost predicate UnderSession(s: State)
  {
    && ScopeRuns.Inv(s.scopes) && (s.turns != [] ==> s.session < |s.scopes.nodes|)
    && forall k | 0 <= k < |s.turns| ::
      && s.turns[k].scope < |s.scopes.nodes| && s.scopes.nodes[s.turns[k].scope].kind == Turn
      && Descends(s.scopes.nodes, s.turns[k].scope, s.session)
  }

  ghost predicate Inv(s: State)
  {
    Chained(s) && OneAtATime(s) && UnderSession(s)
  }

  lemma NextToStart(s: State, k: nat)
    requires Chained(s) && OneAtATime(s) && Startable(s.turns, k)
    ensures k == |s.started| && s.activeTurn.None?
  {
    assert k > 0 ==> s.turns[k].after == Some(k - 1);
  }

  lemma EnqueueKeepsTurns(s: State)
    requires Chained(s) && OneAtATime(s) && Enabled(s, Enqueue)
    ensures Chained(Next(s, Enqueue)) && OneAtATime(Next(s, Enqueue))
  {
  }

  lemma StartKeepsTurns(s: State, k: nat)
    requires Chained(s) && OneAtATime(s) && Enabled(s, Start(k))
    ensures Chained(Next(s, Start(k))) && OneAtATime(Next(s, Start(k)))
  {
    NextToStart(s, k);
  }

  lemma SettleKeepsTurns(s: State, k: nat, fulfilled: bool)
    requires Chained(s) && OneAtATime(s) && Enabled(s, Settle(k, fulfilled))
    ensures Chained(Next(s, Settle(k, fulfilled))) && OneAtATime(Next(s, Settle(k, fulfilled)))
  {
  }

  lemma ScopeStepKeepsTurnScopes(s: State, step: ScopeRuns.Step)
    requires UnderSession(s) && ScopeRuns.Enabled(s.scopes, step)
    ensures UnderSession(s.(scopes := ScopeRuns.Next(s.scopes, step)))
  {
    var after := ScopeRuns.Next(s.scopes, step);
    ScopeRuns.NextKeepsInv(s.scopes, step);
    if s.turns != [] { ScopeRuns.StepKeepsReasons(s.scopes, step, s.session); }
    forall k | 0 <= k < |s.turns|
      ensures s.turns[k].scope < |after.nodes| && after.nodes[s.turns[k].scope].kind == Turn
      ensures Descends(after.nodes, s.turns[k].scope, s.session)
    {
      ScopeRuns.StepKeepsKinds(s.scopes, step, s.turns[k].scope);
      ScopeRuns.StepKeepsReasons(s.scopes, step, s.turns[k].scope);
      ScopeRuns.StepKeepsDescent(s.scopes, step, s.turns[k].scope, s.session);
    }
  }

  lemma StepKeepsInv(s: State, step: Step)
    requires Inv(s) && Enabled(s, step)
    ensures Inv(Next(s, step))
  {
    match step
    case Enqueue =>
      EnqueueKeepsTurns(s);
      EnqueueKeepsScopes(s);
    case Start(k) => StartKeepsTurns(s, k);
    case Settle(k, fulfilled) => SettleKeepsTurns(s, k, fulfilled);
    case OnScopes(step) => ScopeStepKeepsTurnScopes(s, step);
  }

  lemma EnqueueKeepsScopes(s: State)
    requires UnderSession(s) && s.session < |s.scopes.nodes|
    ensures UnderSession(Next(s, Enqueue))
  {
    ScopeStepKeepsTurnScopes(s, ScopeRuns.NewChild(s.session, Turn));
    var t := Next(s, Enqueue).scopes.nodes;
    assert t[|s.scopes.nodes|].parent == Some(s.session);
    assert Descends(t, |s.scopes.nodes|, s.session);
  }

  /** A run begins with a fresh scope tree; the session's scope may be any scope made before the first turn. */
  ghost predicate IsRun(states: seq<State>, steps: seq<Step>)
  {
    && |states| == |steps| + 1
    && states[0] == Initial(ScopeRuns.INITIAL, states[0].session)
    && forall k | 0 <= k < |steps| :: Enabled(states[k], steps[k]) && states[k + 1] == Next(states[k], steps[k])
  }

  lemma {:induction false} RunsKeepInv(states: seq<State>, steps: seq<Step>, k: nat)
    requires IsRun(states, steps) && k < |states|
    ensures Inv(states[k])
  {
    if k > 0 {
      RunsKeepInv(states, steps, k - 1);
      StepKeepsInv(states[k - 1], steps[k - 1]);
    }
  }

  /**
   At every point of a run the turns started are the first enqueued, in order, each after all before it had settled;
   at most one runs, and the bookkeeping has never refused one.
   */
  lemma TurnsRunOneAtATimeInOrder(states: seq<State>, steps: seq<Step>, k: nat)
    requires IsRun(states, steps) && k < |states|
    ensures var s := states[k];
            && s.refused == 0 && (forall i | 0 <= i < |s.started| :: s.started[i] == i)
            && (forall i, j | 0 <= i < j < |s.turns| && !s.turns[j].status.Queued? :: s.turns[i].status.Settled?)
  {
    RunsKeepInv(states, steps, k);
  }

  /**
   No failed turn holds up the rest: while something is queued, one turn is running or exactly the next
   is startable.
   */
  lemma QueueNeverStalls(states: seq<State>, steps: seq<Step>, k: nat)
    requires IsRun(states, steps) && k < |states|
    ensures var s := states[k];
            |s.started| < |s.turns| ==>
              if s.activeTurn.Some? then forall j: nat :: !Startable(s.turns, j)
              else forall j: nat :: Startable(s.turns, j) <==> j == |s.started|
  {
    RunsKeepInv(states, steps, k);
    if |states[k].started| < |states[k].turns| { NextIsStartable(states[k]); }
  }

  lemma NextIsStartable(s: State)
    requires Chained(s) && OneAtATime(s) && |s.started| < |s.turns|
    ensures if s.activeTurn.Some? then forall j: nat :: !Startable(s.turns, j)
            else forall j: nat :: Startable(s.turns, j) <==> j == |s.started|
  {
    forall j: nat | Startable(s.turns, j) ensures j == |s.started| && s.activeTurn.None?
    {
      NextToStart(s, j);
    }
    var n := |s.started|;
    assert s.turns[n].status.Queued?;
    if n > 0 && s.activeTurn.None? {
      assert s.turns[n].after == Some(n - 1) && !s.turns[n - 1].status.Queued? && !s.turns[n - 1].status.Running?;
    }
  }

  /**
   Every turn has a scope for turns under the session's. Cancelling the session reaches it: running, queued, or enqueued
   later, its signal is aborted.
   */
  lemma SessionCancelReachesTurns(states: seq<State>, steps: seq<Step>, k: nat, turn: nat)
    requires IsRun(states, steps) && k < |states| && turn < |states[k].turns|
    ensures states[k].session < |states[k].scopes.nodes| && states[k].turns[turn].scope < |states[k].scopes.nodes|
    ensures var t, scope := states[k].scopes.nodes, states[k].turns[turn].scope;
            && t[scope].kind == Turn && Descends(t, scope, states[k].session)
            && (t[states[k].session].aborted.Some? ==> t[scope].aborted.Some?)
  {
    RunsKeepInv(states, steps, k);
    if states[k].scopes.nodes[states[k].session].aborted.Some? {
      AbortedBelow(states[k].scopes.nodes, states[k].turns[turn].scope, states[k].session);
    }
  }

  // ----- The objects -----

  /** The bookkeeping of active turns, one entry a session. */
  class ExecutionInvariants {
    var sessions: map<string, Option<nat>>

    constructor ()
      ensures sessions == map[]
    {
      sessions := map[];
    }

    ghost function ActiveTurn(session: string): Option<nat>
      reads this
    {
      if session in sessions then sessions[session] else None
    }

    /** Refuses, as a concurrent turn, when the session has an active turn. */
    method MarkTurnStart(session: string, turn: nat) returns (ok: bool)
      modifies this
      ensures ok <==> old(ActiveTurn(session)).None?
      ensures ActiveTurn(session) == if ok then Some(turn) else old(ActiveTurn(session))
      ensures forall other | other != session :: ActiveTurn(other) == old(ActiveTurn(other))
    {
      if session in sessions && sessions[session].Some? { return false; }
      sessions := sessions[session := Some(turn)];
      return true;
    }

    /** Does nothing when the turn is not the active one. */
    method MarkTurnEnd(session: string, turn: nat)
      modifies this
      ensures ActiveTurn(session) == if old(ActiveTurn(session)) == Some(turn) then None else old(ActiveTurn(session))
      ensures forall other | other != session :: ActiveTurn(other) == old(ActiveTurn(other))
    {
      if session in sessions && sessions[session] == Some(turn) {
        sessions := sessions[session := None];
      }
    }
  }

  class Serializer {
    const scopes: ScopeRuns.Scopes
    const session: nat
    const sessionId: string
    const bookkeeping: ExecutionInvariants
    var turns: seq<ChainedTurn>
    var tail: Option<nat>
    ghost var refused: nat
    ghost var started: seq<nat>

    ghost function Snapshot(): State
      reads this, scopes, bookkeeping
    {
      State(scopes.Snapshot(), session, turns, tail, bookkeeping.ActiveTurn(sessionId), refused, started)
    }

    constructor (scopes: ScopeRuns.Scopes, session: nat, sessionId: string, bookkeeping: ExecutionInvariants)
      requires bookkeeping.ActiveTurn(sessionId) == None
      ensures this.scopes == scopes && this.bookkeeping == bookkeeping && this.sessionId == sessionId
      ensures Snapshot() == Initial(scopes.Snapshot(), session)
    {
      this.scopes, this.session, this.sessionId, this.bookkeeping := scopes, session, sessionId, bookkeeping;
      turns, tail, refused, started := [], None, 0, [];
    }

    /** Makes the turn's scope at once and chains the turn to the tail. */
    method EnqueueTurn() returns (turn: nat)
      requires ScopeRuns.Inv(scopes.Snapshot()) && session < |scopes.nodes|
      modifies this, scopes
      ensures turn == |old(turns)| && Snapshot() == Next(old(Snapshot()), Enqueue)
    {
      var scope := scopes.Child(session, Turn);
      turn := |turns|;
      turns := turns + [ChainedTurn(scope, tail, Queued)];
      tail := Some(turn);
    }

    /** The predecessor's promise has settled: the turn's work begins, marking its start. */
    method StartTurn(k: nat)
      requires Enabled(Snapshot(), Start(k))
      modifies this, bookkeeping
      ensures Snapshot() == Next(old(Snapshot()), Start(k))
    {
      var ok := bookkeeping.MarkTurnStart(sessionId, k);
      if !ok { refused := refused + 1; }
      turns := turns[k := turns[k].(status := Running)];
      started := started + [k];
    }

    method SettleTurn(k: nat, fulfilled: bool)
      requires Enabled(Snapshot(), Settle(k, fulfilled))
      modifies this, bookkeeping
      ensures Snapshot() == Next(old(Snapshot()), Settle(k, fulfilled))
    {
      bookkeeping.MarkTurnEnd(sessionId, k);
      turns := turns[k := turns[k].(status := Settled(fulfilled))];
    }
  }
}
