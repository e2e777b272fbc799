/**
 The tree of cancellation scopes. Scopes are numbered in creation order; each has its own abort
 signal, a list of children, and a listener on its parent's signal unless that was already
 aborted when the scope was made.
 */
module ScopeTree {
  import opened Options

  datatype ScopeKind = Tool | Stage | Turn | ChildSession | Session

  datatype CancelReason = User | Parent | Cap

  datatype Code = SessionCancelled | TurnCancelled | ToolCancelled

  /** The typed error a scope aborts with. */
  datatype Cancellation = Cancellation(code: Code, kind: ScopeKind, reason: CancelReason)

  datatype Scope = Scope(
    kind: ScopeKind, parent: Option<nat>, children: seq<nat>, listens: bool, aborted: Option<Cancellation>)

  function CodeForKind(kind: ScopeKind): Code
  {
    match kind
    case Session => SessionCancelled
    case ChildSession => SessionCancelled
    case Turn => TurnCancelled
    case Stage => TurnCancelled
    case Tool => ToolCancelled
  }

  function CancellationOf(kind: ScopeKind, reason: CancelReason): Cancellation
  {
    Cancellation(CodeForKind(kind), kind, reason)
  }

  type Tree = seq<Scope>

  // ----- Shape -----

  predicate ChildrenOk(t: Tree, i: nat)
    requires i < |t|
  {
    && (forall k | 0 <= k < |t[i].children| :: i < t[i].children[k] < |t| && t[t[i].children[k]].parent == Some(i))
    && (forall k, l | 0 <= k < l < |t[i].children| :: t[i].children[k] < t[i].children[l])
  }

  predicate ParentOk(t: Tree, j: nat)
    requires j < |t|
  {
    if t[j].parent.None? then j == 0
    else t[j].parent.value < j && j in t[t[j].parent.value].children
  }

  predicate WellFormed(t: Tree)
  {
    t != [] && forall i | 0 <= i < |t| :: ChildrenOk(t, i) && ParentOk(t, i)
  }

  /** A scope under an aborted one is aborted. */
  predicate Closed(t: Tree)
  {
    forall i, c | 0 <= i < |t| && c in t[i].children && c < |t| :: t[i].aborted.Some? ==> t[c].aborted.Some?
  }

  predicate Live(t: Tree, j: nat)
  {
    j < |t| && t[j].aborted.None?
  }

  predicate Descends(t: Tree, j: nat, i: nat)
  {
    j == i || (j < |t| && t[j].parent.Some? && t[j].parent.value < j && Descends(t, t[j].parent.value, i))
  }

  /** The same scopes in the same places; only the abort signals may differ. */
  predicate SameShape(t: Tree, u: Tree)
  {
    |t| == |u| && forall i | 0 <= i < |t| ::
      t[i].kind == u[i].kind && t[i].parent == u[i].parent && t[i].children == u[i].children
        && t[i].listens == u[i].listens
  }

  lemma ShapeKeeps(t: Tree, u: Tree)
    requires WellFormed(t) && SameShape(t, u)
    ensures WellFormed(u)
  {
    forall i | 0 <= i < |u| ensures ChildrenOk(u, i) && ParentOk(u, i)
    {
      assert ChildrenOk(t, i) && ParentOk(t, i);
    }
  }

  lemma {:induction false} ShapeKeepsDescent(t: Tree, u: Tree, j: nat, i: nat)
    requires SameShape(t, u)
    ensures Descends(t, j, i) == Descends(u, j, i)
  {
    if j < |t| && t[j].parent.Some? && t[j].parent.value < j { ShapeKeepsDescent(t, u, t[j].parent.value, i); }
  }

  lemma {:induction false} DescentFalls(t: Tree, j: nat, i: nat)
    requires Descends(t, j, i)
    ensures i <= j
  {
    if j != i { DescentFalls(t, t[j].parent.value, i); }
  }

  lemma {:induction false} DescentIsTransitive(t: Tree, k: nat, j: nat, i: nat)
    requires Descends(t, k, j) && Descends(t, j, i)
    ensures Descends(t, k, i)
  {
    if k != j { DescentIsTransitive(t, t[k].parent.value, j, i); }
  }

  /** The scopes above a scope form a chain. */
  lemma {:induction false} AncestorsFormAChain(t: Tree, x: nat, a: nat, b: nat)
    requires Descends(t, x, a) && Descends(t, x, b)
    ensures Descends(t, a, b) || Descends(t, b, a)
  {
    if x != a && x != b { AncestorsFormAChain(t, t[x].parent.value, a, b); }
  }

  /** Different children of one scope have nothing below them in common. */
  lemma SiblingsAreApart(t: Tree, i: nat, c: nat, d: nat, x: nat)
    requires WellFormed(t) && i < |t| && c in t[i].children && d in t[i].children && c != d
    ensures !(Descends(t, x, c) && Descends(t, x, d))
  {
    assert ChildrenOk(t, i);
    if Descends(t, x, c) && Descends(t, x, d) {
      AncestorsFormAChain(t, x, c, d);
      if Descends(t, c, d) { DescentFalls(t, i, d); } else { DescentFalls(t, i, c); }
    }
  }

  lemma ChildDescends(t: Tree, i: nat, c: nat)
    requires WellFormed(t) && i < |t| && c in t[i].children
    ensures i < c < |t| && Descends(t, c, i) && t[c].parent == Some(i)
  {
    assert ChildrenOk(t, i);
  }

  /** A proper descendant lies under exactly one child. */
  lemma {:induction false} ThroughChild(t: Tree, j: nat, i: nat) returns (c: nat)
    requires WellFormed(t) && j < |t| && i < |t| && j != i && Descends(t, j, i)
    ensures c in t[i].children && Descends(t, j, c)
  {
    assert ParentOk(t, j);
    var p := t[j].parent.value;
    if p == i { c := j; } else { c := ThroughChild(t, p, i); }
  }

  lemma {:induction false} AbortedBelow(t: Tree, j: nat, i: nat)
    requires WellFormed(t) && Closed(t) && j < |t| && i < |t| && Descends(t, j, i) && t[i].aborted.Some?
    ensures t[j].aborted.Some?
  {
    if j != i {
      assert ParentOk(t, j);
      AbortedBelow(t, t[j].parent.value, i);
    }
  }

  // ----- What a cancellation reaches -----

  /** The live scopes from `i` down, children before parents and siblings in creation order. */
  function LiveFrom(t: Tree, i: nat): seq<nat>
    requires WellFormed(t) && i < |t|
    decreases |t| - i, 1, 0
  {
    if t[i].aborted.Some? then []
    else
      assert ChildrenOk(t, i);
      LiveUnder(t, t[i].children, i) + [i]
  }

  function LiveUnder(t: Tree, ids: seq<nat>, above: nat): seq<nat>
    requires WellFormed(t) && above < |t| && forall k | 0 <= k < |ids| :: above < ids[k] < |t|
    decreases |t| - above, 0, |ids|
  {
    if ids == [] then []
    else LiveUnder(t, ids[..|ids| - 1], above) + LiveFrom(t, ids[|ids| - 1])
  }

  lemma {:induction false} LiveFromMembers(t: Tree, i: nat, j: nat)
    requires WellFormed(t) && Closed(t) && i < |t|
    ensures j in LiveFrom(t, i) <==> Live(t, j) && Descends(t, j, i)
    decreases |t| - i, 1, 0
  {
    assert ChildrenOk(t, i);
    if t[i].aborted.Some? {
      if Live(t, j) && Descends(t, j, i) { AbortedBelow(t, j, i); }
    } else {
      LiveUnderMembers(t, t[i].children, i, j);
      if Live(t, j) && Descends(t, j, i) && j != i {
        var c := ThroughChild(t, j, i);
      }
      forall c | c in t[i].children && Descends(t, j, c) ensures Descends(t, j, i)
      {
        ChildDescends(t, i, c);
        DescentIsTransitive(t, j, c, i);
      }
    }
  }

  lemma {:induction false} LiveUnderMembers(t: Tree, ids: seq<nat>, above: nat, j: nat)
    requires WellFormed(t) && Closed(t) && above < |t| && forall k | 0 <= k < |ids| :: above < ids[k] < |t|
    ensures j in LiveUnder(t, ids, above) <==> Live(t, j) && exists c :: c in ids && Descends(t, j, c)
    decreases |t| - above, 0, |ids|
  {
    if ids != [] {
      var init, last := ids[..|ids| - 1], ids[|ids| - 1];
      assert ids == init + [last];
      LiveUnderMembers(t, init, above, j);
      LiveFromMembers(t, last, j);
      if Live(t, j) && Descends(t, j, last) { assert last in ids; }
    }
  }

  /** `x` lies under an older sibling of a scope that `y` lies under. */
  ghost predicate LeftOf(t: Tree, x: nat, y: nat)
  {
    exists i, c, d ::
      0 <= i < |t| && c in t[i].children && d in t[i].children && c < d && Descends(t, x, c) && Descends(t, y, d)
  }

  /** `x` belongs before `y`: it lies below it, or under an older sibling. */
  ghost predicate Before(t: Tree, x: nat, y: nat)
  {
    x != y && (Descends(t, x, y) || LeftOf(t, x, y))
  }

  /** Earlier entries lie below later ones or under older siblings. */
  ghost predicate PostOrder(t: Tree, ids: seq<nat>)
  {
    forall a, b | 0 <= a < b < |ids| :: Before(t, ids[a], ids[b])
  }

  lemma PostOrderConcat(t: Tree, s: seq<nat>, u: seq<nat>)
    requires PostOrder(t, s) && PostOrder(t, u)
    requires forall x, y | x in s && y in u :: Before(t, x, y)
    ensures PostOrder(t, s + u)
  {
    forall a, b | 0 <= a < b < |s + u| ensures Before(t, (s + u)[a], (s + u)[b])
    {
      if a < |s| <= b { assert s[a] in s && u[b - |s|] in u; }
    }
  }

  lemma {:induction false} LiveFromIsPostOrder(t: Tree, i: nat)
    requires WellFormed(t) && Closed(t) && i < |t|
    ensures PostOrder(t, LiveFrom(t, i))
    decreases |t| - i, 1, 0
  {
    if t[i].aborted.None? {
      assert ChildrenOk(t, i);
      var under := LiveUnder(t, t[i].children, i);
      LiveUnderIsPostOrder(t, t[i].children, i);
      forall x | x in under ensures x != i && Descends(t, x, i)
      {
        LiveUnderMembers(t, t[i].children, i, x);
        var c :| c in t[i].children && Descends(t, x, c);
        ChildDescends(t, i, c);
        DescentIsTransitive(t, x, c, i);
        DescentFalls(t, x, c);
      }
      PostOrderConcat(t, under, [i]);
    }
  }

  lemma {:induction false} LiveUnderIsPostOrder(t: Tree, ids: seq<nat>, i: nat)
    requires WellFormed(t) && Closed(t) && i < |t| && ids <= t[i].children
    requires forall k | 0 <= k < |ids| :: i < ids[k] < |t|
    ensures PostOrder(t, LiveUnder(t, ids, i))
    decreases |t| - i, 0, |ids|
  {
    if ids != [] {
      var init, last := ids[..|ids| - 1], ids[|ids| - 1];
      LiveUnderIsPostOrder(t, init, i);
      LiveFromIsPostOrder(t, last);
      forall x, y | x in LiveUnder(t, init, i) && y in LiveFrom(t, last) ensures Before(t, x, y)
      {
        LiveUnderMembers(t, init, i, x);
        LiveFromMembers(t, last, y);
        var c :| c in init && Descends(t, x, c);
        assert ChildrenOk(t, i);
        assert c in t[i].children && last in t[i].children && c < last;
        assert LeftOf(t, x, y);
        SiblingsAreApart(t, i, c, last, x);
      }
      PostOrderConcat(t, LiveUnder(t, init, i), LiveFrom(t, last));
    }
  }

  // ----- The effect of a cancellation -----

  /** Every scope in `ids` aborts because its parent was cancelled. */
  function Marked(t: Tree, ids: seq<nat>): Tree
  {
    seq(|t|, j requires 0 <= j < |t| =>
      if j in ids then t[j].(aborted := Some(CancellationOf(t[j].kind, Parent))) else t[j])
  }

  /** The tree after cancelling `i`: it aborts with the caller's reason, the live scopes below with "parent". */
  function Cancelled(t: Tree, i: nat, reason: CancelReason): Tree
    requires WellFormed(t) && i < |t|
  {
    if t[i].aborted.Some? then t
    else Marked(t, LiveFrom(t, i))[i := t[i].(aborted := Some(CancellationOf(t[i].kind, reason)))]
  }

  lemma {:induction false} FrameLiveFrom(t: Tree, u: Tree, i: nat)
    requires WellFormed(t) && WellFormed(u) && SameShape(t, u) && i < |t|
    requires forall j | 0 <= j < |t| && Descends(t, j, i) :: t[j] == u[j]
    ensures LiveFrom(t, i) == LiveFrom(u, i)
    decreases |t| - i, 1, 0
  {
    assert ChildrenOk(t, i);
    assert Descends(t, i, i);
    FrameLiveUnder(t, u, t[i].children, i);
  }

  lemma {:induction false} FrameLiveUnder(t: Tree, u: Tree, ids: seq<nat>, i: nat)
    requires WellFormed(t) && WellFormed(u) && SameShape(t, u) && i < |t| && ids <= t[i].children
    requires forall k | 0 <= k < |ids| :: i < ids[k] < |t|
    requires forall j | 0 <= j < |t| && Descends(t, j, i) :: t[j] == u[j]
    ensures LiveUnder(t, ids, i) == LiveUnder(u, ids, i)
    decreases |t| - i, 0, |ids|
  {
    if ids != [] {
      var last := ids[|ids| - 1];
      FrameLiveUnder(t, u, ids[..|ids| - 1], i);
      assert last in t[i].children;
      ChildDescends(t, i, last);
      forall j | 0 <= j < |t| && Descends(t, j, last) ensures t[j] == u[j]
      {
        DescentIsTransitive(t, j, last, i);
      }
      FrameLiveFrom(t, u, last);
    }
  }

  /** Marking everything live below some scopes leaves no live scope under an aborted one. */
  lemma MarkedStaysClosed(t: Tree, ids: seq<nat>)
    requires WellFormed(t) && Closed(t)
    requires forall i, c | i in ids && i < |t| && c in t[i].children && Live(t, c) :: c in ids
    ensures WellFormed(Marked(t, ids)) && Closed(Marked(t, ids)) && SameShape(t, Marked(t, ids))
  {
    ShapeKeeps(t, Marked(t, ids));
    forall i, c | 0 <= i < |t| && c in t[i].children && c < |t| && Marked(t, ids)[i].aborted.Some?
      ensures Marked(t, ids)[c].aborted.Some?
    {
      if i !in ids { assert t[c].aborted.Some?; }
    }
  }

  lemma LiveUnderIsDownward(t: Tree, ids: seq<nat>, above: nat)
    requires WellFormed(t) && Closed(t) && above < |t| && forall k | 0 <= k < |ids| :: above < ids[k] < |t|
    ensures forall i, c | i in LiveUnder(t, ids, above) && i < |t| && c in t[i].children && Live(t, c) ::
        c in LiveUnder(t, ids, above)
  {
    forall i, c | i in LiveUnder(t, ids, above) && i < |t| && c in t[i].children && Live(t, c)
      ensures c in LiveUnder(t, ids, above)
    {
      LiveUnderMembers(t, ids, above, i);
      LiveUnderMembers(t, ids, above, c);
      ChildDescends(t, i, c);
      var top :| top in ids && Descends(t, i, top);
      DescentIsTransitive(t, c, i, top);
    }
  }

  lemma DoneIsNotUnderNext(t: Tree, i: nat, k: nat, j: nat)
    requires WellFormed(t) && Closed(t) && i < |t| && k < |t[i].children|
    requires forall l | 0 <= l < |t[i].children| :: i < t[i].children[l] < |t|
    requires j in LiveUnder(t, t[i].children[..k], i)
    ensures !Descends(t, j, t[i].children[k])
  {
    var ids := t[i].children;
    LiveUnderMembers(t, ids[..k], i, j);
    var d :| d in ids[..k] && Descends(t, j, d);
    assert ChildrenOk(t, i);
    SiblingsAreApart(t, i, ids[k], d, j);
  }

  /** Marking in two rounds marks what one round over both would. */
  lemma MarkedTwice(t: Tree, done: seq<nat>, c: nat)
    requires WellFormed(t) && WellFormed(Marked(t, done)) && c < |t| && c !in done
    requires LiveFrom(Marked(t, done), c) == LiveFrom(t, c)
    ensures Cancelled(Marked(t, done), c, Parent) == Marked(t, done + LiveFrom(t, c))
  {
    var before, after := Marked(t, done), Marked(t, done + LiveFrom(t, c));
    if t[c].aborted.Some? {
      assert done + LiveFrom(t, c) == done;
    } else {
      forall j | 0 <= j < |t| ensures Cancelled(before, c, Parent)[j] == after[j] {}
    }
  }

  /**
   After the first `k` children have been cancelled, cancelling the next has the effect it would have
   had at first.
   */
  lemma NextChild(t: Tree, i: nat, k: nat)
    requires WellFormed(t) && Closed(t) && i < |t| && k < |t[i].children|
    requires forall l | 0 <= l < |t[i].children| :: i < t[i].children[l] < |t|
    ensures var ids := t[i].children;
            var before := Marked(t, LiveUnder(t, ids[..k], i));
            && WellFormed(before) && Closed(before) && SameShape(t, before)
            && LiveFrom(before, ids[k]) == LiveFrom(t, ids[k])
            && LiveUnder(t, ids[..k + 1], i) == LiveUnder(t, ids[..k], i) + LiveFrom(t, ids[k])
            && Cancelled(before, ids[k], Parent) == Marked(t, LiveUnder(t, ids[..k + 1], i))
  {
    var ids := t[i].children;
    var done := LiveUnder(t, ids[..k], i);
    var before, c := Marked(t, done), ids[k];
    LiveUnderIsDownward(t, ids[..k], i);
    MarkedStaysClosed(t, done);
    forall j | 0 <= j < |t| && Descends(t, j, c) ensures t[j] == before[j]
    {
      if j in done { DoneIsNotUnderNext(t, i, k, j); }
    }
    FrameLiveFrom(t, before, c);
    assert ids[..k + 1][..k] == ids[..k];
    if c in done { DoneIsNotUnderNext(t, i, k, c); }
    MarkedTwice(t, done, c);
  }

  lemma {:induction false} LiveFromIsDownward(t: Tree, i: nat)
    requires WellFormed(t) && Closed(t) && i < |t|
    ensures forall j, c | j in LiveFrom(t, i) && j < |t| && c in t[j].children && Live(t, c) :: c in LiveFrom(t, i)
  {
    forall j, c | j in LiveFrom(t, i) && j < |t| && c in t[j].children && Live(t, c) ensures c in LiveFrom(t, i)
    {
      LiveFromMembers(t, i, j);
      LiveFromMembers(t, i, c);
      ChildDescends(t, j, c);
      DescentIsTransitive(t, c, j, i);
    }
  }

  lemma CancelledStaysClosed(t: Tree, i: nat, reason: CancelReason)
    requires WellFormed(t) && Closed(t) && i < |t|
    ensures WellFormed(Cancelled(t, i, reason)) && Closed(Cancelled(t, i, reason))
        && SameShape(t, Cancelled(t, i, reason))
  {
    if t[i].aborted.None? {
      LiveFromIsDownward(t, i);
      MarkedStaysClosed(t, LiveFrom(t, i));
      var marked, after := Marked(t, LiveFrom(t, i)), Cancelled(t, i, reason);
      LiveFromMembers(t, i, i);
      assert marked[i].aborted.Some?;
      ShapeKeeps(t, after);
      forall j | 0 <= j < |t| ensures after[j].aborted.Some? == marked[j].aborted.Some? {}
    }
  }

  // ----- Making a child -----

  /** A child of an aborted scope starts aborted, with that scope's own error, and listens to nothing. */
  function WithChild(t: Tree, p: nat, kind: ScopeKind): Tree
    requires p < |t|
  {
    t[p := t[p].(children := t[p].children + [|t|])] + [Scope(kind, Some(p), [], t[p].aborted.None?, t[p].aborted)]
  }

  lemma WithChildStaysClosed(t: Tree, p: nat, kind: ScopeKind)
    requires WellFormed(t) && Closed(t) && p < |t|
    ensures WellFormed(WithChild(t, p, kind)) && Closed(WithChild(t, p, kind))
  {
    var u := WithChild(t, p, kind);
    forall i | 0 <= i < |u| ensures ChildrenOk(u, i) && ParentOk(u, i)
    {
      if i < |t| { assert ChildrenOk(t, i) && ParentOk(t, i); }
    }
    forall i, c | 0 <= i < |u| && c in u[i].children && c < |u| && u[i].aborted.Some? ensures u[c].aborted.Some?
    {
      assert ChildrenOk(u, i);
      if c < |t| {
        assert c in t[i].children;
      } else {
        assert u[c].parent == Some(i) && i == p;
      }
    }
  }
}
