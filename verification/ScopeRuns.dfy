/**
 Runs of child and cancel operations on the tree of scopes, and the methods that carry them out.
 */
module ScopeRuns {
  import opened Options
  import opened ScopeTree

  /** The scopes and, as history, the order in which their signals aborted. */
  datatype State = State(nodes: Tree, log: seq<nat>)

  const INITIAL: State := State([Scope(Session, None, [], false, None)], [])

  datatype Step = NewChild(of: nat, kind: ScopeKind) | Cancel(scope: nat, reason: CancelReason)

  predicate Enabled(s: State, step: Step)
  {
    match step
    case NewChild(of, _) => of < |s.nodes|
    case Cancel(scope, _) => scope < |s.nodes|
  }

  function Next(s: State, step: Step): State
    requires WellFormed(s.nodes) && Enabled(s, step)
  {
    match step
    case NewChild(of, kind) =>
      State(WithChild(s.nodes, of, kind), if s.nodes[of].aborted.Some? then s.log + [|s.nodes|] else s.log)
    case Cancel(scope, reason) =>
      State(Cancelled(s.nodes, scope, reason), s.log + LiveFrom(s.nodes, scope))
  }

  /** Exactly the aborted scopes are in the log, each once. */
  ghost predicate Logged(s: State)
  {
    && (forall a, b | 0 <= a < b < |s.log| :: s.log[a] != s.log[b])
    && (forall j :: j in s.log <==> 0 <= j < |s.nodes| && s.nodes[j].aborted.Some?)
  }

  ghost predicate Inv(s: State)
  {
    WellFormed(s.nodes) && Closed(s.nodes) && Logged(s)
  }

  ghost predicate IsRun(states: seq<State>, steps: seq<Step>)
  {
    && |states| == |steps| + 1 && states[0] == INITIAL
    && forall k | 0 <= k < |steps| ::
         WellFormed(states[k].nodes) && Enabled(states[k], steps[k]) && states[k + 1] == Next(states[k], steps[k])
  }

  // ----- One step -----

  /**
   Cancelling a scope aborts exactly its live descendants and itself: they abort with reason "parent", it with
   the caller's reason, and their signals fire children first and siblings in creation order.
   */
  lemma CancelReachesLiveDescendants(s: State, i: nat, reason: CancelReason)
    requires Inv(s) && i < |s.nodes|
    ensures var after := Next(s, Cancel(i, reason));
            && |after.nodes| == |s.nodes|
            && (forall j | 0 <= j < |s.nodes| :: after.nodes[j] ==
                 if Live(s.nodes, j) && Descends(s.nodes, j, i)
                 then s.nodes[j].(aborted := Some(CancellationOf(s.nodes[j].kind, if j == i then reason else Parent)))
                 else s.nodes[j])
            && s.log <= after.log
            && PostOrder(s.nodes, after.log[|s.log|..])
            && (forall j :: j in after.log[|s.log|..] <==> j >= 0 && Live(s.nodes, j) && Descends(s.nodes, j, i))
  {
    var after := Next(s, Cancel(i, reason));
    assert after.log[|s.log|..] == LiveFrom(s.nodes, i);
    forall j: nat ensures j in LiveFrom(s.nodes, i) <==> Live(s.nodes, j) && Descends(s.nodes, j, i)
    {
      LiveFromMembers(s.nodes, i, j);
    }
    LiveFromIsPostOrder(s.nodes, i);
    if s.nodes[i].aborted.Some? {
      forall j: nat | j < |s.nodes| && Descends(s.nodes, j, i) ensures s.nodes[j].aborted.Some?
      {
        AbortedBelow(s.nodes, j, i);
      }
    }
  }

  lemma CancelKeepsLog(s: State, i: nat, reason: CancelReason)
    requires Inv(s) && i < |s.nodes|
    ensures Logged(Next(s, Cancel(i, reason)))
  {
    CancelReachesLiveDescendants(s, i, reason);
    var added, after := LiveFrom(s.nodes, i), Next(s, Cancel(i, reason));
    assert added == after.log[|s.log|..];
    forall a, b | 0 <= a < b < |after.log| ensures after.log[a] != after.log[b]
    {
      if |s.log| <= b { assert after.log[b] == added[b - |s.log|] && after.log[b] in added; }
      if |s.log| <= a { assert Before(s.nodes, added[a - |s.log|], added[b - |s.log|]); }
    }
    forall j ensures j in after.log <==> 0 <= j < |after.nodes| && after.nodes[j].aborted.Some?
    {
      assert j in after.log <==> j in s.log || j in added;
    }
  }

  lemma ChildKeepsLog(s: State, of: nat, kind: ScopeKind)
    requires Inv(s) && of < |s.nodes|
    ensures Logged(Next(s, NewChild(of, kind)))
  {
    var after := Next(s, NewChild(of, kind));
    forall a | 0 <= a < |s.log| ensures s.log[a] < |s.nodes|
    {
      assert s.log[a] in s.log;
    }
    forall j ensures j in after.log <==> 0 <= j < |after.nodes| && after.nodes[j].aborted.Some?
    {
      assert j in after.log <==> j in s.log || (j == |s.nodes| && s.nodes[of].aborted.Some?);
    }
  }

  lemma NextKeepsInv(s: State, step: Step)
    requires Inv(s) && Enabled(s, step)
    ensures Inv(Next(s, step))
  {
    if step.NewChild? {
      ChildKeepsLog(s, step.of, step.kind);
      WithChildStaysClosed(s.nodes, step.of, step.kind);
    } else {
      CancelKeepsLog(s, step.scope, step.reason);
      CancelledStaysClosed(s.nodes, step.scope, step.reason);
    }
  }

  /** Once aborted, always aborted, with the same error. */
  lemma StepKeepsReasons(s: State, step: Step, j: nat)
    requires Inv(s) && Enabled(s, step) && j < |s.nodes|
    ensures j < |Next(s, step).nodes|
    ensures s.nodes[j].aborted.Some? ==> Next(s, step).nodes[j].aborted == s.nodes[j].aborted
  {
    if step.Cancel? { CancelReachesLiveDescendants(s, step.scope, step.reason); }
  }

  lemma StepKeepsKinds(s: State, step: Step, j: nat)
    requires Inv(s) && Enabled(s, step) && j < |s.nodes|
    ensures j < |Next(s, step).nodes| && Next(s, step).nodes[j].kind == s.nodes[j].kind
  {
    if step.Cancel? { CancelReachesLiveDescendants(s, step.scope, step.reason); }
  }

  lemma {:induction false} StepKeepsDescent(s: State, step: Step, j: nat, i: nat)
    requires Inv(s) && Enabled(s, step) && j < |s.nodes|
    ensures Descends(Next(s, step).nodes, j, i) == Descends(s.nodes, j, i)
  {
    if step.Cancel? {
      CancelledStaysClosed(s.nodes, step.scope, step.reason);
      ShapeKeepsDescent(s.nodes, Next(s, step).nodes, j, i);
    } else if s.nodes[j].parent.Some? && s.nodes[j].parent.value < j {
      StepKeepsDescent(s, step, s.nodes[j].parent.value, i);
    }
  }

  // ----- Whole runs -----

  lemma {:induction false} RunsKeepInv(states: seq<State>, steps: seq<Step>)
    requires IsRun(states, steps)
    ensures forall k | 0 <= k < |states| :: Inv(states[k])
  {
    if steps != [] {
      var n := |steps| - 1;
      RunsKeepInv(states[..n + 1], steps[..n]);
      assert Inv(states[..n + 1][n]);
      NextKeepsInv(states[n], steps[n]);
      forall k | 0 <= k < |states| ensures Inv(states[k])
      {
        if k <= n { assert states[k] == states[..n + 1][k]; }
      }
    }
  }

  /**
   At every point of a run, what lies under an aborted scope is aborted, and the log names each aborted
   scope once.
   */
  lemma AbortedScopesAreClosed(states: seq<State>, steps: seq<Step>, k: nat)
    requires IsRun(states, steps) && k < |states|
    ensures Logged(states[k])
    ensures forall i: nat, j: nat | i < |states[k].nodes| && j < |states[k].nodes| && Descends(states[k].nodes, j, i) ::
              states[k].nodes[i].aborted.Some? ==> states[k].nodes[j].aborted.Some?
  {
    RunsKeepInv(states, steps);
    assert Inv(states[k]);
    var t := states[k].nodes;
    forall i: nat, j: nat | i < |t| && j < |t| && Descends(t, j, i) && t[i].aborted.Some? ensures t[j].aborted.Some?
    {
      AbortedBelow(t, j, i);
    }
  }

  /** From any point of a run to any later one no scope disappears, no error changes and the log only grows. */
  lemma {:induction false} ReasonsAreFinal(states: seq<State>, steps: seq<Step>, a: nat, b: nat, j: nat)
    requires IsRun(states, steps) && a <= b < |states| && j < |states[a].nodes|
    ensures j < |states[b].nodes|
    ensures states[a].nodes[j].aborted.Some? ==> states[b].nodes[j].aborted == states[a].nodes[j].aborted
    ensures states[a].log <= states[b].log
  {
    if a < b {
      ReasonsAreFinal(states, steps, a, b - 1, j);
      RunsKeepInv(states, steps);
      assert Inv(states[b - 1]) && states[b] == Next(states[b - 1], steps[b - 1]);
      StepKeepsReasons(states[b - 1], steps[b - 1], j);
    }
  }

  /** The error names the scope's kind, under the code for it. */
  predicate NamesKind(error: Cancellation, kind: ScopeKind)
  {
    && error.kind == kind
    && (error.code == SessionCancelled <==> kind == Session || kind == ChildSession)
    && (error.code == TurnCancelled <==> kind == Turn || kind == Stage)
    && (error.code == ToolCancelled <==> kind == Tool)
  }

  /** Its error names the kind of the scope itself or of one above it. */
  ghost predicate Explained(t: Tree, j: nat)
    requires j < |t| && t[j].aborted.Some?
  {
    exists a: nat :: a < |t| && Descends(t, j, a) && NamesKind(t[j].aborted.value, t[a].kind)
  }

  lemma StillExplained(s: State, step: Step, j: nat)
    requires Inv(s) && Enabled(s, step) && j < |s.nodes| && s.nodes[j].aborted.Some? && Explained(s.nodes, j)
    ensures var t := Next(s, step).nodes; j < |t| && t[j].aborted == s.nodes[j].aborted && Explained(t, j)
  {
    var a: nat :| a < |s.nodes| && Descends(s.nodes, j, a) && NamesKind(s.nodes[j].aborted.value, s.nodes[a].kind);
    StepKeepsReasons(s, step, j);
    StepKeepsKinds(s, step, a);
    StepKeepsDescent(s, step, j, a);
  }

  lemma NewlyExplained(s: State, step: Step, j: nat)
    requires Inv(s) && Enabled(s, step) && step.Cancel? && j < |s.nodes| && s.nodes[j].aborted.None?
    ensures var t := Next(s, step).nodes; j < |t| && (t[j].aborted.Some? ==> Explained(t, j))
  {
    CancelReachesLiveDescendants(s, step.scope, step.reason);
    assert Descends(Next(s, step).nodes, j, j);
  }

  lemma ChildExplained(s: State, step: Step)
    requires Inv(s) && Enabled(s, step) && step.NewChild? && s.nodes[step.of].aborted.Some?
    requires Explained(s.nodes, step.of)
    ensures Explained(Next(s, step).nodes, |s.nodes|)
  {
    var t, p := Next(s, step).nodes, step.of;
    StillExplained(s, step, p);
    var a: nat :| a < |t| && Descends(t, p, a) && NamesKind(t[p].aborted.value, t[a].kind);
    assert t[|s.nodes|].parent == Some(p) && Descends(t, |s.nodes|, a);
  }

  /** In every run an aborted scope bears an error that names its own kind or, if inherited, that of a scope above. */
  lemma {:induction false} ErrorsNameTheirScope(states: seq<State>, steps: seq<Step>, j: nat)
    requires IsRun(states, steps) && j < |states[|steps|].nodes| && states[|steps|].nodes[j].aborted.Some?
    ensures exists a: nat :: a < |states[|steps|].nodes| && Descends(states[|steps|].nodes, j, a)
                             && NamesKind(states[|steps|].nodes[j].aborted.value, states[|steps|].nodes[a].kind)
  {
    if steps != [] {
      var n := |steps| - 1;
      var s, step := states[n], steps[n];
      RunsKeepInv(states, steps);
      assert Inv(s) && states[n + 1] == Next(s, step);
      assert IsRun(states[..n + 1], steps[..n]) && states[..n + 1][n] == s;
      if j == |s.nodes| {
        ErrorsNameTheirScope(states[..n + 1], steps[..n], step.of);
        ChildExplained(s, step);
      } else if s.nodes[j].aborted.Some? {
        ErrorsNameTheirScope(states[..n + 1], steps[..n], j);
        StillExplained(s, step, j);
      } else {
        NewlyExplained(s, step, j);
      }
      assert Explained(states[n + 1].nodes, j);
    }
  }

  /** A scope made under an aborted one is aborted from the start with that very error; under a live one it is live. */
  lemma ChildInheritsError(states: seq<State>, steps: seq<Step>, k: nat)
    requires IsRun(states, steps) && k < |steps| && steps[k].NewChild?
    ensures var t, u := states[k].nodes, states[k + 1].nodes;
            && |u| == |t| + 1 && u[|t|].kind == steps[k].kind && u[|t|].parent == Some(steps[k].of)
            && u[|t|].children == [] && u[|t|].aborted == t[steps[k].of].aborted
            && (forall j | 0 <= j < |t| :: u[j].aborted == t[j].aborted)
  {
    assert states[k + 1] == Next(states[k], steps[k]);
  }

  /** Some cancellation in the run was aimed at the scope or at one above it. */
  ghost predicate CancelledAbove(t: Tree, steps: seq<Step>, j: nat)
  {
    exists k :: 0 <= k < |steps| && steps[k].Cancel? && Descends(t, j, steps[k].scope)
  }

  /** A scope is aborted exactly when it, or a scope above it, has been cancelled. */
  lemma {:induction false} AbortedExactlyUnderCancelled(states: seq<State>, steps: seq<Step>, j: nat)
    requires IsRun(states, steps) && j < |states[|steps|].nodes|
    ensures states[|steps|].nodes[j].aborted.Some? <==> CancelledAbove(states[|steps|].nodes, steps, j)
    decreases |steps|, j
  {
    if steps != [] {
      var n := |steps| - 1;
      var s, step := states[n], steps[n];
      RunsKeepInv(states, steps);
      assert Inv(s) && states[n + 1] == Next(s, step);
      assert IsRun(states[..n + 1], steps[..n]) && states[..n + 1][n] == s;
      if j < |s.nodes| {
        AbortedExactlyUnderCancelled(states[..n + 1], steps[..n], j);
        CancelledAboveGrows(s, steps, j);
        if step.Cancel? { CancelReachesLiveDescendants(s, step.scope, step.reason); }
      } else {
        NewChildSharesFate(states, steps, j);
      }
    }
  }

  lemma CancelledAboveGrows(s: State, steps: seq<Step>, j: nat)
    requires steps != [] && Inv(s) && Enabled(s, steps[|steps| - 1]) && j < |s.nodes|
    ensures var n := |steps| - 1;
            CancelledAbove(Next(s, steps[n]).nodes, steps, j) <==>
              CancelledAbove(s.nodes, steps[..n], j) || (steps[n].Cancel? && Descends(s.nodes, j, steps[n].scope))
  {
    var n := |steps| - 1;
    forall i: nat ensures Descends(Next(s, steps[n]).nodes, j, i) == Descends(s.nodes, j, i)
    {
      StepKeepsDescent(s, steps[n], j, i);
    }
    if CancelledAbove(s.nodes, steps[..n], j) {
      var k :| 0 <= k < n && steps[..n][k].Cancel? && Descends(s.nodes, j, steps[..n][k].scope);
      assert steps[k].Cancel? && Descends(Next(s, steps[n]).nodes, j, steps[k].scope);
    }
    if CancelledAbove(Next(s, steps[n]).nodes, steps, j) {
      var k :| 0 <= k < |steps| && steps[k].Cancel? && Descends(Next(s, steps[n]).nodes, j, steps[k].scope);
      assert k < n ==> steps[..n][k] == steps[k];
    }
  }

  /** The scope made last is aborted exactly when its parent is. */
  lemma {:induction false} NewChildSharesFate(states: seq<State>, steps: seq<Step>, j: nat)
    requires IsRun(states, steps) && steps != [] && j == |states[|steps| - 1].nodes| < |states[|steps|].nodes|
    ensures states[|steps|].nodes[j].aborted.Some? <==> CancelledAbove(states[|steps|].nodes, steps, j)
    decreases |steps|, j, 0
  {
    var n := |steps| - 1;
    var s, step, t := states[n], steps[n], states[n + 1].nodes;
    RunsKeepInv(states, steps);
    assert Inv(s) && states[n + 1] == Next(s, step);
    assert step.NewChild?;
    var p := step.of;
    AbortedExactlyUnderCancelled(states, steps, p);
    assert t[j].parent == Some(p);
    forall k | 0 <= k < |steps| && steps[k].Cancel? ensures steps[k].scope < |s.nodes|
    {
      TargetsExist(states, steps, k);
    }
    forall i: nat | i != j ensures Descends(t, j, i) == Descends(t, p, i) {}
    assert CancelledAbove(t, steps, j) <==> CancelledAbove(t, steps, p);
  }

  /** A cancelled scope existed before the last step. */
  lemma TargetsExist(states: seq<State>, steps: seq<Step>, k: nat)
    requires IsRun(states, steps) && k < |steps| && steps[k].Cancel?
    ensures steps[k].scope < |states[|steps| - 1].nodes|
  {
    ReasonsAreFinal(states, steps, k, |steps| - 1, steps[k].scope);
  }

  // ----- The operations -----

  /** The scopes that cancelling the first `k` children aborts. */
  ghost function Reached(t: Tree, i: nat, k: nat): seq<nat>
    requires WellFormed(t) && i < |t| && k <= |t[i].children|
  {
    assert ChildrenOk(t, i);
    LiveUnder(t, t[i].children[..k], i)
  }

  /** The tree in the middle of cancelling `i`, with the first `k` children done. */
  ghost function PartlyCancelled(t: Tree, i: nat, k: nat): Tree
    requires WellFormed(t) && i < |t| && k <= |t[i].children|
  {
    Marked(t, Reached(t, i, k))
  }

  lemma NothingDone(t: Tree, i: nat)
    requires WellFormed(t) && i < |t|
    ensures PartlyCancelled(t, i, 0) == t && Reached(t, i, 0) == []
  {
    assert PartlyCancelled(t, i, 0) == t;
  }

  lemma NextChildCancelled(t: Tree, i: nat, k: nat)
    requires WellFormed(t) && Closed(t) && i < |t| && k < |t[i].children|
    ensures var u, c := PartlyCancelled(t, i, k), t[i].children[k];
            && |u| == |t| && WellFormed(u) && Closed(u) && i < c < |u|
            && Cancelled(u, c, Parent) == PartlyCancelled(t, i, k + 1)
            && Reached(t, i, k + 1) == Reached(t, i, k) + LiveFrom(u, c)
  {
    assert ChildrenOk(t, i);
    NextChild(t, i, k);
  }

  /** With every child cancelled, `i` itself is still live, none of its children is, and only its own signal is left. */
  lemma OwnSignalLast(t: Tree, i: nat, reason: CancelReason)
    requires WellFormed(t) && Closed(t) && Live(t, i)
    ensures var u := PartlyCancelled(t, i, |t[i].children|);
            && WellFormed(u) && Live(u, i) && (forall c | c in u[i].children :: !Live(u, c))
            && u[i := u[i].(aborted := Some(CancellationOf(t[i].kind, reason)))] == Cancelled(t, i, reason)
            && LiveFrom(t, i) == Reached(t, i, |t[i].children|) + [i]
  {
    assert ChildrenOk(t, i);
    var ids := t[i].children;
    assert ids[..|ids|] == ids;
    var u := PartlyCancelled(t, i, |ids|);
    ShapeKeeps(t, u);
    LiveUnderMembers(t, ids, i, i);
    forall c | c in ids ensures !Descends(t, i, c) && !Live(u, c)
    {
      ChildDescends(t, i, c);
      if Descends(t, i, c) { DescentFalls(t, i, c); }
      LiveUnderMembers(t, ids, i, c);
      assert Descends(t, c, c);
    }
    OwnMark(t, i, reason);
  }

  lemma OwnMark(t: Tree, i: nat, reason: CancelReason)
    requires WellFormed(t) && Live(t, i) && i !in Reached(t, i, |t[i].children|)
    ensures var u := PartlyCancelled(t, i, |t[i].children|);
            u[i := u[i].(aborted := Some(CancellationOf(t[i].kind, reason)))] == Cancelled(t, i, reason)
  {
    var ids := t[i].children;
    assert ids[..|ids|] == ids;
    var u := PartlyCancelled(t, i, |ids|);
    forall j | 0 <= j < |t| && j != i ensures u[j] == Cancelled(t, i, reason)[j] {}
    assert u[i := u[i].(aborted := Some(CancellationOf(t[i].kind, reason)))] == Cancelled(t, i, reason);
  }

  /** The scopes of one session, with their abort signals. */
  class Scopes {
    var nodes: Tree
    /** The order in which signals aborted. */
    ghost var log: seq<nat>
    /** How often a listener on a parent's signal found its own scope still live. */
    ghost var relayed: nat

    ghost function Snapshot(): State
      reads this
    {
      State(nodes, log)
    }

    /** A session scope with no children. */
    constructor ()
      ensures Snapshot() == INITIAL && relayed == 0
    {
      nodes := INITIAL.nodes;
      log := [];
      relayed := 0;
    }

    method Child(of: nat, kind: ScopeKind) returns (c: nat)
      requires Inv(Snapshot()) && of < |nodes|
      modifies this
      ensures Snapshot() == Next(old(Snapshot()), NewChild(of, kind))
      ensures c == |old(nodes)| && relayed == old(relayed)
    {
      c := |nodes|;
      var signal := nodes[of].aborted;
      var made := Scope(kind, Some(of), [], false, None);
      if signal.Some? {
        made := made.(aborted := signal);
        log := log + [c];
      } else {
        made := made.(listens := true);
      }
      nodes := nodes[of := nodes[of].(children := nodes[of].children + [c])] + [made];
    }

    /** Abort one signal; each child still listening on it aborts in turn, if it is live. */
    method Abort(i: nat, error: Cancellation)
      requires WellFormed(nodes) && Live(nodes, i)
      modifies this
      ensures SameShape(old(nodes), nodes) && WellFormed(nodes)
      ensures (forall c | c in old(nodes)[i].children :: !Live(old(nodes), c)) ==>
                nodes == old(nodes)[i := old(nodes)[i].(aborted := Some(error))] && log == old(log) + [i]
                  && relayed == old(relayed)
      decreases |nodes| - i
    {
      nodes := nodes[i := nodes[i].(aborted := Some(error))];
      log := log + [i];
      ShapeKeeps(old(nodes), nodes);
      var k := 0;
      while k < |nodes[i].children|
        invariant SameShape(old(nodes), nodes) && WellFormed(nodes) && 0 <= k <= |nodes[i].children|
        invariant (forall c | c in old(nodes)[i].children :: !Live(old(nodes), c)) ==>
                    nodes == old(nodes)[i := old(nodes)[i].(aborted := Some(error))] && log == old(log) + [i]
                      && relayed == old(relayed)
      {
        var c := nodes[i].children[k];
        assert c in old(nodes)[i].children;
        ChildDescends(nodes, i, c);
        if nodes[c].listens && nodes[c].aborted.None? {
          relayed := relayed + 1;
          Abort(c, error);
        }
        k := k + 1;
      }
    }

    /**
     Cancel a scope: its children first, each with reason "parent", then its own signal. No listener has
     work left.
     */
    method Cancel(i: nat, reason: CancelReason)
      requires WellFormed(nodes) && Closed(nodes) && i < |nodes|
      modifies this
      ensures nodes == Cancelled(old(nodes), i, reason)
      ensures log == old(log) + LiveFrom(old(nodes), i)
      ensures relayed == old(relayed)
      decreases |nodes| - i
    {
      if nodes[i].aborted.Some? { return; }
      ghost var t, l := nodes, log;
      var error := CancellationOf(nodes[i].kind, reason);
      var ids := nodes[i].children;
      NothingDone(t, i);
      var k := 0;
      while k < |ids|
        invariant 0 <= k <= |ids|
        invariant nodes == PartlyCancelled(t, i, k)
        invariant log == l + Reached(t, i, k) && relayed == old(relayed)
      {
        NextChildCancelled(t, i, k);
        Cancel(ids[k], Parent);
        k := k + 1;
      }
      OwnSignalLast(t, i, reason);
      Abort(i, error);
    }
  }
}
