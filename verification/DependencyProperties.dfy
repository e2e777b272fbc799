/**
 What the dependency resolver guarantees of the graph it builds: exactly when it succeeds, what the
 order is, what a reported cycle contains; and that the order of the input does not matter.
 */
module DependencyProperties {
  import opened Ids
  import opened DependencyGraph
  import opened DependencyResolution

  // ----- When it succeeds and what it returns -----

  ghost predicate AdmissibleGraph(decls: seq<Declaration>)
  {
    && NothingMissing(decls, decls) && DistinctIds(decls)
    && NoDoubleReferences(GraphOf(decls)) && Acyclic(GraphOf(decls))
  }

  function IdList(decls: seq<Declaration>): seq<string>
  {
    seq(|decls|, i requires 0 <= i < |decls| => decls[i].extId)
  }

  lemma IdListHoldsDeclaredIds(decls: seq<Declaration>)
    ensures Elements(IdList(decls)) == DeclaredIds(decls)
    ensures NoDuplicates(IdList(decls)) <==> DistinctIds(decls)
  {
    var ids := IdList(decls);
    forall d | d in decls ensures d.extId in ids
    {
      var i :| 0 <= i < |decls| && decls[i] == d;
      assert ids[i] == d.extId;
    }
    if NoDuplicates(ids) {
      forall i, j | 0 <= i < j < |decls| ensures decls[i].extId != decls[j].extId { assert ids[i] != ids[j]; }
    }
  }

  lemma CoversAllIffAsLong(decls: seq<Declaration>, order: seq<string>)
    requires NoDuplicates(order) && Elements(order) <= DeclaredIds(decls)
    ensures |order| == |decls| <==> DistinctIds(decls) && Elements(order) == DeclaredIds(decls)
  {
    var ids := IdList(decls);
    IdListHoldsDeclaredIds(decls);
    DuplicatesAreCounted(ids);
    DuplicatesAreCounted(order);
    assert Elements(ids) == Elements(order) + (Elements(ids) - Elements(order));
  }

  /**
   Resolution succeeds exactly when nothing is missing, ids are distinct, no extension refers to
   another twice, and the dependencies are acyclic.
   */
  lemma SucceedsOnGraph(decls: seq<Declaration>, r: Resolution)
    requires Resolves(decls, r)
    ensures r.Resolved? <==> AdmissibleGraph(decls)
    ensures r.Failed? && r.error.DependencyMissing? <==> !NothingMissing(decls, decls)
  {
    if NothingMissing(decls, decls) {
      var g := GraphOf(decls);
      var order :| Greedy(g, order) && Exhausted(g, order) && r == Verdict(decls, order);
      GraphIsClosed(decls);
      GreedyIsAdmissible(g, order);
      ReachesAllIffAcyclic(g, order);
      CoversAllIffAsLong(decls, order);
    }
  }

  lemma {:induction false} ReversedIsBackwards(s: seq<string>)
    ensures |Reversed(s)| == |s| && forall i | 0 <= i < |s| :: Reversed(s)[i] == s[|s| - 1 - i]
  {
    if s != [] { ReversedIsBackwards(s[..|s| - 1]); }
  }

  /**
   A resolved order lists every declared id once and each after its dependencies, comes before
   every other such order, and is undone by the dispose order dependents first.
   */
  lemma OrderOnGraph(decls: seq<Declaration>, r: Resolution)
    requires Resolves(decls, r) && r.Resolved?
    ensures Topological(GraphOf(decls), r.initOrder) && |r.initOrder| == |decls|
    ensures forall other | Topological(GraphOf(decls), other) :: AtMostList(r.initOrder, other)
    ensures |r.disposeOrder| == |r.initOrder|
    ensures forall i | 0 <= i < |r.initOrder| :: r.disposeOrder[i] == r.initOrder[|r.initOrder| - 1 - i]
    ensures forall i | 0 <= i < |r.disposeOrder| :: r.disposeOrder[i] in GraphOf(decls)
    ensures forall i | 0 <= i < |r.disposeOrder| :: forall x | x in GraphOf(decls)[r.disposeOrder[i]] ::
        x in r.disposeOrder[i + 1..]
  {
    InitOrderIsLeast(decls, r);
    ReversedIsBackwards(r.initOrder);
    DisposedAfterDependents(GraphOf(decls), r.initOrder, r.disposeOrder);
  }

  lemma InitOrderIsLeast(decls: seq<Declaration>, r: Resolution)
    requires Resolves(decls, r) && r.Resolved?
    ensures Topological(GraphOf(decls), r.initOrder) && |r.initOrder| == |decls|
    ensures r.disposeOrder == Reversed(r.initOrder)
    ensures forall other | Topological(GraphOf(decls), other) :: AtMostList(r.initOrder, other)
  {
    SucceedsOnGraph(decls, r);
    var g := GraphOf(decls);
    GraphIsClosed(decls);
    assert Greedy(g, r.initOrder) && Exhausted(g, r.initOrder);
    ReachesAllIffAcyclic(g, r.initOrder);
    forall other | Topological(g, other) ensures AtMostList(r.initOrder, other)
    {
      GreedyIsLeast(g, r.initOrder, other);
    }
  }

  lemma DisposedAfterDependents(g: Graph, order: seq<string>, reverse: seq<string>)
    requires Topological(g, order) && |reverse| == |order|
    requires forall i | 0 <= i < |order| :: reverse[i] == order[|order| - 1 - i]
    ensures forall i | 0 <= i < |reverse| :: reverse[i] in g && forall x | x in g[reverse[i]] :: x in reverse[i + 1..]
  {
    var n := |order|;
    forall i | 0 <= i < n ensures reverse[i] in g && forall x | x in g[reverse[i]] :: x in reverse[i + 1..]
    {
      var k := n - 1 - i;
      assert order[k] in Elements(order);
      forall x | x in g[order[k]] ensures x in reverse[i + 1..]
      {
        assert x in order[..k];
        var p :| 0 <= p < k && order[..k][p] == x;
        assert reverse[i + 1..][k - 1 - p] == reverse[n - 1 - p] == x;
      }
    }
  }

  lemma {:induction false} LeftOutAre(decls: seq<Declaration>, order: seq<string>)
    ensures NoDuplicates(LeftOut(decls, order))
    ensures Elements(LeftOut(decls, order)) == DeclaredIds(decls) - Elements(order)
  {
    if decls != [] {
      var init, last := decls[..|decls| - 1], decls[|decls| - 1];
      LeftOutAre(init, order);
      assert decls == init + [last];
      assert last in decls;
      assert DeclaredIds(decls) == DeclaredIds(init) + {last.extId};
      assert forall x :: x in LeftOut(init, order) <==> x in Elements(LeftOut(init, order));
      assert last.extId in order <==> last.extId in Elements(order);
      var out := LeftOut(decls, order);
      assert Elements(out) == Elements(LeftOut(init, order)) + (if last.extId in order then {} else {last.extId});
    }
  }

  /** Every cycle there is lies among the reported participants, so the report holds one exactly when there is one. */
  lemma EveryCycleIsReported(decls: seq<Declaration>, r: Resolution)
    requires Resolves(decls, r) && r.Failed? && r.error.DependencyCycle?
    ensures forall c | Cycle(GraphOf(decls), c) :: forall x | x in c :: x in r.error.participants
    ensures (exists c :: Cycle(GraphOf(decls), c) && forall x | x in c :: x in r.error.participants)
            <==> !Acyclic(GraphOf(decls))
  {
    var g, participants := GraphOf(decls), r.error.participants;
    SucceedsOnGraph(decls, r);
    var order :| Greedy(g, order) && Exhausted(g, order) && r == Verdict(decls, order);
    LeftOutAre(decls, order);
    GreedyIsAdmissible(g, order);
    forall c, x | Cycle(g, c) && x in c ensures x in participants
    {
      var k :| 0 <= k < |c| && c[k] == x;
      if x in order {
        var at :| 0 <= at < |order| && order[at] == x;
        OrderedOffCycles(g, order, c, k, at);
      }
      assert x in Elements(participants);
    }
  }

  /**
   On failure without missing references: every cycle lies among the participants, so they hold one exactly when there
   is one. When no reference is repeated, each of them depends on another, and there is one unless ids are not distinct.
   */
  lemma ParticipantsOnGraph(decls: seq<Declaration>, r: Resolution)
    requires Resolves(decls, r) && r.Failed? && r.error.DependencyCycle?
    ensures NoDuplicates(r.error.participants)
    ensures forall c | Cycle(GraphOf(decls), c) :: forall x | x in c :: x in r.error.participants
    ensures (exists c :: Cycle(GraphOf(decls), c) && forall x | x in c :: x in r.error.participants)
            <==> !Acyclic(GraphOf(decls))
    ensures NoDoubleReferences(GraphOf(decls)) ==>
              && LeadsBack(GraphOf(decls), Elements(r.error.participants))
              && (if r.error.participants == [] then !DistinctIds(decls) else !Acyclic(GraphOf(decls)))
  {
    EveryCycleIsReported(decls, r);
    SucceedsOnGraph(decls, r);
    var order :| Greedy(GraphOf(decls), order) && Exhausted(GraphOf(decls), order) && r == Verdict(decls, order);
    LeftOutAre(decls, order);
    if NoDoubleReferences(GraphOf(decls)) { LeftOutLeadBack(decls, order); }
  }

  lemma LeftOutLeadBack(decls: seq<Declaration>, order: seq<string>)
    requires Greedy(GraphOf(decls), order) && Exhausted(GraphOf(decls), order) && Verdict(decls, order).Failed?
    requires NothingMissing(decls, decls) && NoDoubleReferences(GraphOf(decls))
    ensures var left := LeftOut(decls, order);
            && LeadsBack(GraphOf(decls), Elements(left))
            && if left == [] then !DistinctIds(decls) else !Acyclic(GraphOf(decls))
  {
    var g, left := GraphOf(decls), LeftOut(decls, order);
    GraphIsClosed(decls);
    LeftOutAre(decls, order);
    assert Elements(left) == g.Keys - Elements(order);
    MissedLeadsBack(g, order);
    if left == [] {
      AllReached(decls, order);
    } else {
      assert left[0] in Elements(left);
      var c := SelfDependentSetHasCycle(g, Elements(left));
    }
  }

  /** A failure with nobody left out comes from an id that is declared twice. */
  lemma AllReached(decls: seq<Declaration>, order: seq<string>)
    requires Greedy(GraphOf(decls), order) && LeftOut(decls, order) == [] && |order| != |decls|
    ensures !DistinctIds(decls)
  {
    LeftOutAre(decls, order);
    GreedyIsAdmissible(GraphOf(decls), order);
    assert Elements(LeftOut(decls, order)) == {};
    assert DeclaredIds(decls) == Elements(order) + (DeclaredIds(decls) - Elements(order));
    CoversAllIffAsLong(decls, order);
  }

  /** A repeated reference is reported as a cycle although there is none. */
  lemma RepeatedOnGraph(r: Resolution)
    requires Resolves([Declaration("a", Tool, []), Declaration("b", Tool, [Ext("a"), Ext("a")])], r)
    ensures r.Failed? && r.error.DependencyCycle?
    ensures Acyclic(GraphOf([Declaration("a", Tool, []), Declaration("b", Tool, [Ext("a"), Ext("a")])]))
  {
    var decls := [Declaration("a", Tool, []), Declaration("b", Tool, [Ext("a"), Ext("a")])];
    RepeatedReferenceGraph(decls);
    NoCycleThroughSource(GraphOf(decls), "a", "b");
    SucceedsOnGraph(decls, r);
  }

  lemma RepeatedReferenceGraph(decls: seq<Declaration>)
    requires decls == [Declaration("a", Tool, []), Declaration("b", Tool, [Ext("a"), Ext("a")])]
    ensures GraphOf(decls) == map["a" := [], "b" := ["a", "a"]]
    ensures NothingMissing(decls, decls) && !NoDoubleReferences(GraphOf(decls))
  {
    var a, b := decls[0], decls[1];
    assert a in decls && b in decls && decls[..1] == [a] && [a][..0] == [];
    assert DeclaredIds(decls) == {"a", "b"};
    var refs := b.dependsOn;
    assert refs[..1] == [Ext("a")] && [Ext("a")][..0] == [];
    assert AllTargets(decls, "b", [Ext("a")]) == ["a"];
    assert AllTargets(decls, "b", refs) == ["a", "a"];
    assert AllTargets(decls, "a", a.dependsOn) == [];
    assert DependenciesIn(decls, [], "a") == [] && [a][|[a]| - 1] == a;
    assert DependenciesIn(decls, [a], "a") == DependenciesIn(decls, [], "a") + AllTargets(decls, "a", a.dependsOn);
    assert DependenciesIn(decls, [a], "b") == [] && DependenciesIn(decls, [a], "a") == [];
    assert GraphOf(decls)["b"] == ["a", "a"] && GraphOf(decls)["a"] == [];
    assert GraphOf(decls)["b"][0] == GraphOf(decls)["b"][1];
    assert !IsMissing(decls, Ext("a"));
  }

  lemma NoCycleThroughSource(g: Graph, a: string, b: string)
    requires a != b && g == map[a := [], b := [a, a]]
    ensures Acyclic(g)
  {
    assert [a, b][..1] == [a];
    OrderedMeansAcyclic(g, [a, b]);
  }

  // ----- Neither the order of declarations nor that of references matters -----

  function FlatMap<T>(f: T -> seq<string>, s: seq<T>): seq<string>
  {
    if s == [] then [] else FlatMap(f, s[..|s| - 1]) + f(s[|s| - 1])
  }

  lemma {:induction false} FlatMapConcat<T>(f: T -> seq<string>, s: seq<T>, t: seq<T>)
    ensures FlatMap(f, s + t) == FlatMap(f, s) + FlatMap(f, t)
  {
    if t == [] {
      assert s + t == s;
    } else {
      assert (s + t)[..|s + t| - 1] == s + t[..|t| - 1];
      FlatMapConcat(f, s, t[..|t| - 1]);
    }
  }

  lemma {:induction false} FlatMapPointwise<T>(f: T -> seq<string>, h: T -> seq<string>, s: seq<T>, t: seq<T>)
    requires |s| == |t| && forall i | 0 <= i < |s| :: multiset(f(s[i])) == multiset(h(t[i]))
    ensures multiset(FlatMap(f, s)) == multiset(FlatMap(h, t))
  {
    if s != [] { FlatMapPointwise(f, h, s[..|s| - 1], t[..|t| - 1]); }
  }

  lemma {:induction false} FlatMapPermuted<T>(f: T -> seq<string>, h: T -> seq<string>, s: seq<T>, t: seq<T>)
    requires multiset(s) == multiset(t) && forall x | x in s :: multiset(f(x)) == multiset(h(x))
    ensures multiset(FlatMap(f, s)) == multiset(FlatMap(h, t))
  {
    if s == [] {
      assert |multiset(t)| == |t|;
    } else {
      var init, last := s[..|s| - 1], s[|s| - 1];
      var k := IndexOfMember(s, t);
      var before, after := t[..k], t[k + 1..];
      RemoveMember(s, t, k);
      FlatMapPermuted(f, h, init, before + after);
      FlatMapConcat(h, before, after);
      FlatMapSplit(h, t, k);
    }
  }

  lemma IndexOfMember<T>(s: seq<T>, t: seq<T>) returns (k: nat)
    requires s != [] && multiset(s) == multiset(t)
    ensures k < |t| && t[k] == s[|s| - 1]
  {
    var last := s[|s| - 1];
    assert last in multiset(s);
    assert last in t;
    k :| 0 <= k < |t| && t[k] == last;
  }

  lemma MiddleOut<T>(before: seq<T>, x: T, after: seq<T>)
    ensures multiset(before + after) == multiset(before + [x] + after) - multiset{x}
  {
    assert multiset(before + [x] + after) == multiset(before) + multiset{x} + multiset(after);
  }

  lemma RemoveMember<T>(s: seq<T>, t: seq<T>, k: nat)
    requires s != [] && multiset(s) == multiset(t) && k < |t| && t[k] == s[|s| - 1]
    ensures multiset(s[..|s| - 1]) == multiset(t[..k] + t[k + 1..])
  {
    var init, last, before, after := s[..|s| - 1], s[|s| - 1], t[..k], t[k + 1..];
    assert s == init + [last] + [] && t == before + [last] + after && init + [] == init;
    MiddleOut(before, last, after);
    MiddleOut(init, last, []);
  }

  lemma FlatMapSplit<T>(f: T -> seq<string>, t: seq<T>, k: nat)
    requires k < |t|
    ensures FlatMap(f, t) == FlatMap(f, t[..k]) + f(t[k]) + FlatMap(f, t[k + 1..])
  {
    assert t == t[..k + 1] + t[k + 1..] && t[..k + 1][..k] == t[..k];
    FlatMapConcat(f, t[..k + 1], t[k + 1..]);
  }

  lemma {:induction false} MembersAsFlatMap(decls: seq<Declaration>, category: Category)
    ensures MembersOf(decls, category) ==
        FlatMap((d: Declaration) => if d.kind == category then [d.extId] else [], decls)
  {
    if decls != [] { MembersAsFlatMap(decls[..|decls| - 1], category); }
  }

  lemma {:induction false} WithoutAsFlatMap(ids: seq<string>, self: string)
    ensures Without(ids, self) == FlatMap((id: string) => if id == self then [] else [id], ids)
  {
    if ids != [] { WithoutAsFlatMap(ids[..|ids| - 1], self); }
  }

  lemma {:induction false} TargetsAsFlatMap(decls: seq<Declaration>, self: string, refs: seq<DependencyRef>)
    ensures AllTargets(decls, self, refs) == FlatMap((ref: DependencyRef) => Targets(decls, self, ref), refs)
  {
    if refs != [] { TargetsAsFlatMap(decls, self, refs[..|refs| - 1]); }
  }

  lemma {:induction false} DependenciesAsFlatMap(decls: seq<Declaration>, part: seq<Declaration>, id: string)
    ensures DependenciesIn(decls, part, id)
            == FlatMap((d: Declaration) => if d.extId == id then AllTargets(decls, id, d.dependsOn) else [], part)
  {
    if part != [] { DependenciesAsFlatMap(decls, part[..|part| - 1], id); }
  }

  /** The same declarations, each with its references in some other order. */
  ghost predicate SameUpToReferences(decls: seq<Declaration>, other: seq<Declaration>)
  {
    && |decls| == |other|
    && forall i | 0 <= i < |decls| ::
         decls[i].extId == other[i].extId && decls[i].kind == other[i].kind
         && multiset(decls[i].dependsOn) == multiset(other[i].dependsOn)
  }

  /** The same declarations in another order, with their references in another order. */
  ghost predicate Rearranged(decls: seq<Declaration>, other: seq<Declaration>)
  {
    exists middle :: SameUpToReferences(decls, middle) && multiset(middle) == multiset(other)
  }

  /** Both lists name the same members of every category, in some order. */
  ghost predicate SameMembers(decls: seq<Declaration>, other: seq<Declaration>)
  {
    forall c :: multiset(MembersOf(decls, c)) == multiset(MembersOf(other, c))
  }

  lemma SameTargets(decls: seq<Declaration>, other: seq<Declaration>, self: string, ref: DependencyRef)
    requires SameMembers(decls, other)
    ensures multiset(Targets(decls, self, ref)) == multiset(Targets(other, self, ref))
  {
    if ref.InCategory? {
      var f := (id: string) => if id == self then [] else [id];
      var ms, os := MembersOf(decls, ref.category), MembersOf(other, ref.category);
      WithoutAsFlatMap(ms, self);
      WithoutAsFlatMap(os, self);
      FlatMapPermuted(f, f, ms, os);
    }
  }

  lemma SameAllTargets(decls: seq<Declaration>, other: seq<Declaration>, self: string,
                       refs: seq<DependencyRef>, refs': seq<DependencyRef>)
    requires SameMembers(decls, other) && multiset(refs) == multiset(refs')
    ensures multiset(AllTargets(decls, self, refs)) == multiset(AllTargets(other, self, refs'))
  {
    TargetsAsFlatMap(decls, self, refs);
    TargetsAsFlatMap(other, self, refs');
    forall ref | ref in refs ensures multiset(Targets(decls, self, ref)) == multiset(Targets(other, self, ref))
    {
      SameTargets(decls, other, self, ref);
    }
    FlatMapPermuted((ref: DependencyRef) => Targets(decls, self, ref),
                    (ref: DependencyRef) => Targets(other, self, ref), refs, refs');
  }

  lemma ReferenceOrderKeepsMembers(decls: seq<Declaration>, other: seq<Declaration>)
    requires SameUpToReferences(decls, other)
    ensures SameMembers(decls, other)
  {
    forall c ensures multiset(MembersOf(decls, c)) == multiset(MembersOf(other, c))
    {
      MembersAsFlatMap(decls, c);
      MembersAsFlatMap(other, c);
      var f := (d: Declaration) => if d.kind == c then [d.extId] else [];
      FlatMapPointwise(f, f, decls, other);
    }
  }

  lemma ReferenceOrderKeepsDependencies(decls: seq<Declaration>, other: seq<Declaration>, id: string)
    requires SameUpToReferences(decls, other) && SameMembers(decls, other)
    ensures multiset(DependenciesIn(decls, decls, id)) == multiset(DependenciesIn(other, other, id))
  {
    DependenciesAsFlatMap(decls, decls, id);
    DependenciesAsFlatMap(other, other, id);
    forall i | 0 <= i < |decls|
      ensures multiset(AllTargets(decls, id, decls[i].dependsOn)) == multiset(AllTargets(other, id, other[i].dependsOn))
    {
      SameAllTargets(decls, other, id, decls[i].dependsOn, other[i].dependsOn);
    }
    FlatMapPointwise((d: Declaration) => if d.extId == id then AllTargets(decls, id, d.dependsOn) else [],
                     (d: Declaration) => if d.extId == id then AllTargets(other, id, d.dependsOn) else [],
                     decls, other);
  }

  lemma ReferenceOrderKeepsIds(decls: seq<Declaration>, other: seq<Declaration>)
    requires SameUpToReferences(decls, other)
    ensures DeclaredIds(decls) == DeclaredIds(other) && (DistinctIds(decls) <==> DistinctIds(other))
  {
    assert IdList(decls) == IdList(other);
    IdListHoldsDeclaredIds(decls);
    IdListHoldsDeclaredIds(other);
  }

  lemma ReferenceOrderIsIrrelevant(decls: seq<Declaration>, other: seq<Declaration>)
    requires SameUpToReferences(decls, other)
    ensures SameReferences(GraphOf(decls), GraphOf(other)) && SameMembers(decls, other)
    ensures DistinctIds(decls) <==> DistinctIds(other)
  {
    ReferenceOrderKeepsMembers(decls, other);
    ReferenceOrderKeepsIds(decls, other);
    forall id ensures multiset(DependenciesIn(decls, decls, id)) == multiset(DependenciesIn(other, other, id))
    {
      ReferenceOrderKeepsDependencies(decls, other, id);
    }
  }

  lemma DeclarationOrderIsIrrelevant(decls: seq<Declaration>, other: seq<Declaration>)
    requires multiset(decls) == multiset(other)
    ensures SameReferences(GraphOf(decls), GraphOf(other)) && SameMembers(decls, other)
  {
    forall c ensures multiset(MembersOf(decls, c)) == multiset(MembersOf(other, c))
    {
      MembersAsFlatMap(decls, c);
      MembersAsFlatMap(other, c);
      var f := (d: Declaration) => if d.kind == c then [d.extId] else [];
      FlatMapPermuted(f, f, decls, other);
    }
    forall id ensures multiset(DependenciesIn(decls, decls, id)) == multiset(DependenciesIn(other, other, id))
    {
      DependenciesAsFlatMap(decls, decls, id);
      DependenciesAsFlatMap(other, other, id);
      forall d | d in decls ensures multiset(AllTargets(decls, id, d.dependsOn)) ==
          multiset(AllTargets(other, id, d.dependsOn))
      {
        SameAllTargets(decls, other, id, d.dependsOn, d.dependsOn);
      }
      FlatMapPermuted((d: Declaration) => if d.extId == id then AllTargets(decls, id, d.dependsOn) else [],
                      (d: Declaration) => if d.extId == id then AllTargets(other, id, d.dependsOn) else [],
                      decls, other);
    }
    RearrangedKeeps(decls, other);
    assert forall d :: d in decls <==> d in Elements(decls);
    assert forall d :: d in other <==> d in Elements(other);
  }

  lemma SameElements<T>(s: seq<T>, t: seq<T>)
    requires multiset(s) == multiset(t)
    ensures |s| == |t| && forall x :: x in s <==> x in t
  {
    RearrangedKeeps(s, t);
    assert forall x :: x in s <==> x in Elements(s);
    assert forall x :: x in t <==> x in Elements(t);
  }

  lemma SameMissing(decls: seq<Declaration>, other: seq<Declaration>, ref: DependencyRef)
    requires SameMembers(decls, other) && DeclaredIds(decls) == DeclaredIds(other)
    ensures IsMissing(decls, ref) <==> IsMissing(other, ref)
  {
    HasMembersPresent(decls, ref);
    HasMembersPresent(other, ref);
    if ref.InCategory? {
      SameElements(MembersOf(decls, ref.category), MembersOf(other, ref.category));
    }
  }

  lemma SameAllPresent(decls: seq<Declaration>, other: seq<Declaration>, refs: seq<DependencyRef>,
      refs': seq<DependencyRef>)
    requires SameMembers(decls, other) && DeclaredIds(decls) == DeclaredIds(other) && multiset(refs) == multiset(refs')
    ensures AllPresent(decls, refs) <==> AllPresent(other, refs')
  {
    SameElements(refs, refs');
    forall ref ensures IsMissing(decls, ref) <==> IsMissing(other, ref)
    {
      SameMissing(decls, other, ref);
    }
  }

  lemma ReferenceOrderKeepsMissing(decls: seq<Declaration>, other: seq<Declaration>)
    requires SameUpToReferences(decls, other)
    requires NothingMissing(decls, decls)
    ensures NothingMissing(other, other)
  {
    ReferenceOrderIsIrrelevant(decls, other);
    assert DeclaredIds(decls) == GraphOf(decls).Keys && DeclaredIds(other) == GraphOf(other).Keys;
    forall d | d in other ensures AllPresent(other, d.dependsOn)
    {
      var i :| 0 <= i < |other| && other[i] == d;
      assert decls[i] in decls;
      SameAllPresent(decls, other, decls[i].dependsOn, other[i].dependsOn);
    }
  }

  lemma DeclarationOrderKeepsMissing(decls: seq<Declaration>, other: seq<Declaration>)
    requires multiset(decls) == multiset(other)
    requires NothingMissing(decls, decls)
    ensures NothingMissing(other, other)
  {
    DeclarationOrderIsIrrelevant(decls, other);
    assert DeclaredIds(decls) == GraphOf(decls).Keys && DeclaredIds(other) == GraphOf(other).Keys;
    SameElements(decls, other);
    forall d | d in other ensures AllPresent(other, d.dependsOn)
    {
      SameAllPresent(decls, other, d.dependsOn, d.dependsOn);
    }
  }

  lemma MirroredReferences(decls: seq<Declaration>, other: seq<Declaration>)
    requires SameUpToReferences(decls, other)
    ensures SameUpToReferences(other, decls)
  {
  }

  lemma SameGraph(decls: seq<Declaration>, other: seq<Declaration>)
    requires Rearranged(decls, other)
    ensures SameReferences(GraphOf(decls), GraphOf(other)) && |decls| == |other|
    ensures NothingMissing(decls, decls) <==> NothingMissing(other, other)
  {
    var middle: seq<Declaration> :| SameUpToReferences(decls, middle) && multiset(middle) == multiset(other);
    ReferenceOrderIsIrrelevant(decls, middle);
    DeclarationOrderIsIrrelevant(middle, other);
    SameElements(middle, other);
    if NothingMissing(decls, decls) {
      ReferenceOrderKeepsMissing(decls, middle);
      DeclarationOrderKeepsMissing(middle, other);
    }
    if NothingMissing(other, other) {
      DeclarationOrderKeepsMissing(other, middle);
      MirroredReferences(decls, middle);
      ReferenceOrderKeepsMissing(middle, decls);
    }
  }

  /** Rearranging the declarations, or the references of any of them, changes neither success nor the orders. */
  lemma RearrangingChangesNothing(decls: seq<Declaration>, other: seq<Declaration>, r: Resolution, r': Resolution)
    requires Rearranged(decls, other) && Resolves(decls, r) && Resolves(other, r')
    ensures r.Resolved? || r'.Resolved? ==> r == r'
    ensures r.Failed? && r'.Failed? ==> (r.error.DependencyMissing? <==> r'.error.DependencyMissing?)
    ensures r.Failed? && r'.Failed? && r.error.DependencyCycle? && r'.error.DependencyCycle? ==>
              Elements(r.error.participants) == Elements(r'.error.participants)
  {
    SameGraph(decls, other);
    if NothingMissing(decls, decls) {
      var s := SortedWhenNothingMissing(decls, r);
      var t := SortedWhenNothingMissing(other, r');
      GreedyIsUnique(GraphOf(decls), GraphOf(other), s, t);
      LeftOutAre(decls, s);
      LeftOutAre(other, t);
      assert DeclaredIds(decls) == GraphOf(decls).Keys && DeclaredIds(other) == GraphOf(other).Keys;
    } else {
      SucceedsOnGraph(decls, r);
      SucceedsOnGraph(other, r');
    }
  }

  lemma SortedWhenNothingMissing(decls: seq<Declaration>, r: Resolution) returns (order: seq<string>)
    requires Resolves(decls, r) && NothingMissing(decls, decls)
    ensures Greedy(GraphOf(decls), order) && Exhausted(GraphOf(decls), order) && r == Verdict(decls, order)
  {
    order :| Greedy(GraphOf(decls), order) && Exhausted(GraphOf(decls), order) && r == Verdict(decls, order);
  }
}
