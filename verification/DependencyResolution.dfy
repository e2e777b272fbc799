/**
 Topological init/dispose ordering of extensions: building the dependency graph from extension
 and category references, sorting it, and telling failures apart.
 */
module DependencyResolution {
  import opened Ids
  import opened DependencyGraph
  import opened KahnOrder

  datatype Category =
    Provider | Tool | Hook | UI | Logger | StateMachine | Command | SessionStore | ContextProvider

  datatype DependencyRef = Ext(extId: string) | InCategory(category: Category)

  datatype Declaration = Declaration(extId: string, kind: Category, dependsOn: seq<DependencyRef>)

  datatype ResolutionError =
    | DependencyMissing(dependentId: string, missing: DependencyRef)
    | DependencyCycle(participants: seq<string>)

  datatype Resolution =
    | Resolved(initOrder: seq<string>, disposeOrder: seq<string>)
    | Failed(error: ResolutionError)

  // ----- What the declarations say -----

  ghost function DeclaredIds(decls: seq<Declaration>): set<string>
  {
    set d | d in decls :: d.extId
  }

  predicate DistinctIds(decls: seq<Declaration>)
  {
    forall i, j | 0 <= i < j < |decls| :: decls[i].extId != decls[j].extId
  }

  function MembersOf(decls: seq<Declaration>, category: Category): seq<string>
  {
    if decls == [] then []
    else
      var init, last := MembersOf(decls[..|decls| - 1], category), decls[|decls| - 1];
      if last.kind == category then init + [last.extId] else init
  }

  function Without(ids: seq<string>, self: string): seq<string>
  {
    if ids == [] then []
    else
      var init, last := Without(ids[..|ids| - 1], self), ids[|ids| - 1];
      if last == self then init else init + [last]
  }

  /** The extensions one reference of `self` stands for. */
  function Targets(decls: seq<Declaration>, self: string, ref: DependencyRef): seq<string>
  {
    match ref
    case Ext(id) => [id]
    case InCategory(category) => Without(MembersOf(decls, category), self)
  }

  function AllTargets(decls: seq<Declaration>, self: string, refs: seq<DependencyRef>): seq<string>
  {
    if refs == [] then []
    else AllTargets(decls, self, refs[..|refs| - 1]) + Targets(decls, self, refs[|refs| - 1])
  }

  /** Everything the declarations in `part` make `id` depend on, with repetition. */
  function DependenciesIn(decls: seq<Declaration>, part: seq<Declaration>, id: string): seq<string>
  {
    if part == [] then []
    else
      var init, last := DependenciesIn(decls, part[..|part| - 1], id), part[|part| - 1];
      if last.extId == id then init + AllTargets(decls, id, last.dependsOn) else init
  }

  ghost function GraphOf(decls: seq<Declaration>): Graph
  {
    PartialGraph(decls, decls)
  }

  /** The graph as far as the declarations in `part` have been read. */
  ghost function PartialGraph(decls: seq<Declaration>, part: seq<Declaration>): Graph
  {
    map id | id in DeclaredIds(decls) :: DependenciesIn(decls, part, id)
  }

  predicate IsMissing(decls: seq<Declaration>, ref: DependencyRef)
  {
    if ref.Ext? then forall d | d in decls :: d.extId != ref.extId
    else forall d | d in decls :: d.kind != ref.category
  }

  ghost predicate AllPresent(decls: seq<Declaration>, refs: seq<DependencyRef>)
  {
    forall ref | ref in refs :: !IsMissing(decls, ref)
  }

  ghost predicate NothingMissing(decls: seq<Declaration>, part: seq<Declaration>)
  {
    forall d | d in part :: AllPresent(decls, d.dependsOn)
  }

  lemma {:induction false} MembersAre(decls: seq<Declaration>, category: Category)
    ensures forall id :: id in MembersOf(decls, category) <==>
        exists d :: d in decls && d.extId == id && d.kind == category
  {
    if decls != [] {
      var init, last := decls[..|decls| - 1], decls[|decls| - 1];
      assert decls == init + [last];
      MembersAre(init, category);
      forall id ensures id in MembersOf(decls, category) <==>
          exists d :: d in decls && d.extId == id && d.kind == category
      {
        if id in MembersOf(decls, category) && last.extId == id && last.kind == category { assert last in decls; }
      }
    }
  }

  lemma {:induction false} WithoutAre(ids: seq<string>, self: string)
    ensures forall id :: id in Without(ids, self) <==> id in ids && id != self
  {
    if ids != [] {
      WithoutAre(ids[..|ids| - 1], self);
      assert ids == ids[..|ids| - 1] + [ids[|ids| - 1]];
    }
  }

  lemma TargetsAreDeclared(decls: seq<Declaration>, self: string, ref: DependencyRef)
    requires !IsMissing(decls, ref)
    ensures forall x | x in Targets(decls, self, ref) :: x in DeclaredIds(decls)
  {
    if ref.InCategory? {
      WithoutAre(MembersOf(decls, ref.category), self);
      MembersAre(decls, ref.category);
    }
  }

  lemma {:induction false} GraphIsClosed(decls: seq<Declaration>)
    requires NothingMissing(decls, decls)
    ensures Closed(GraphOf(decls))
  {
    forall id, x | id in DeclaredIds(decls) && x in DependenciesIn(decls, decls, id) ensures x in DeclaredIds(decls)
    {
      DependenciesAreDeclared(decls, decls, id);
    }
  }

  lemma {:induction false} DependenciesAreDeclared(decls: seq<Declaration>, part: seq<Declaration>, id: string)
    requires NothingMissing(decls, part)
    ensures forall x | x in DependenciesIn(decls, part, id) :: x in DeclaredIds(decls)
  {
    if part != [] {
      var last := part[|part| - 1];
      assert last in part;
      DependenciesAreDeclared(decls, part[..|part| - 1], id);
      AllTargetsAreDeclared(decls, id, last.dependsOn);
    }
  }

  lemma {:induction false} AllTargetsAreDeclared(decls: seq<Declaration>, self: string, refs: seq<DependencyRef>)
    requires AllPresent(decls, refs)
    ensures forall x | x in AllTargets(decls, self, refs) :: x in DeclaredIds(decls)
  {
    if refs != [] {
      var last := refs[|refs| - 1];
      assert last in refs;
      AllTargetsAreDeclared(decls, self, refs[..|refs| - 1]);
      TargetsAreDeclared(decls, self, last);
    }
  }

  // ----- Building the graph -----

  ghost predicate Indexed(byCategory: map<Category, seq<string>>, decls: seq<Declaration>)
  {
    forall c :: if c in byCategory then byCategory[c] == MembersOf(decls, c) && byCategory[c] != []
        else MembersOf(decls, c) == []
  }

  /** The declared nodes, with no references yet. */
  ghost function Bare(decls: seq<Declaration>): Graph
  {
    map id | id in DeclaredIds(decls) :: []
  }

  method IndexDeclarations(decls: seq<Declaration>)
      returns (byCategory: map<Category, seq<string>>, adjacency: Adjacency, inDegree: InDegree)
    ensures Indexed(byCategory, decls)
    ensures Represents(adjacency, inDegree, Bare(decls))
  {
    byCategory, adjacency, inDegree := map[], map[], map[];
    for i := 0 to |decls|
      invariant Indexed(byCategory, decls[..i])
      invariant Represents(adjacency, inDegree, Bare(decls[..i]))
    {
      var decl := decls[i];
      assert decls[..i + 1][..i] == decls[..i];
      assert decls[..i + 1] == decls[..i] + [decl];
      IndexOneMore(byCategory, decls[..i], decl);
      BareOneMore(adjacency, inDegree, decls[..i], decl);
      byCategory := byCategory[decl.kind :=
        if decl.kind in byCategory then byCategory[decl.kind] + [decl.extId] else [decl.extId]];
      adjacency := adjacency[decl.extId := {}];
      inDegree := inDegree[decl.extId := 0];
    }
    assert decls[..|decls|] == decls;
  }

  lemma IndexOneMore(byCategory: map<Category, seq<string>>, decls: seq<Declaration>, decl: Declaration)
    requires Indexed(byCategory, decls)
    ensures Indexed(byCategory[decl.kind :=
                      if decl.kind in byCategory then byCategory[decl.kind] + [decl.extId] else [decl.extId]],
                    decls + [decl])
  {
    assert (decls + [decl])[..|decls|] == decls;
  }

  lemma BareOneMore(adjacency: Adjacency, inDegree: InDegree, decls: seq<Declaration>, decl: Declaration)
    requires Represents(adjacency, inDegree, Bare(decls))
    ensures Represents(adjacency[decl.extId := {}], inDegree[decl.extId := 0], Bare(decls + [decl]))
  {
    assert decl in decls + [decl];
    assert DeclaredIds(decls + [decl]) == DeclaredIds(decls) + {decl.extId};
  }

  ghost function Refer(g: Graph, n: string, targets: seq<string>): Graph
    requires n in g
  {
    g[n := g[n] + targets]
  }

  lemma OneMoreEdge(adjacency: Adjacency, inDegree: InDegree, g: Graph, n: string, x: string)
    requires Represents(adjacency, inDegree, g) && n in g && x in g
    ensures Represents(adjacency[x := adjacency[x] + {n}], inDegree[n := inDegree[n] + 1], Refer(g, n, [x]))
  {
    var h := Refer(g, n, [x]);
    forall m | m in g ensures x in h[m] <==> x in g[m] || m == n {}
  }

  lemma ReferNothing(g: Graph, n: string)
    requires n in g
    ensures Refer(g, n, []) == g
  {
    assert g[n] + [] == g[n];
  }

  lemma ReferStepwise(g: Graph, n: string, targets: seq<string>, k: nat)
    requires n in g && k < |targets|
    ensures Refer(Refer(g, n, targets[..k]), n, [targets[k]]) == Refer(g, n, targets[..k + 1])
  {
    assert g[n] + targets[..k + 1] == g[n] + targets[..k] + [targets[k]];
  }

  /** Record that `n` depends on every one of `targets`. */
  method AddEdges(adjacency0: Adjacency, inDegree0: InDegree, ghost g: Graph, n: string, targets: seq<string>)
      returns (adjacency: Adjacency, inDegree: InDegree)
    requires Represents(adjacency0, inDegree0, g) && n in g && forall x | x in targets :: x in g
    ensures Represents(adjacency, inDegree, Refer(g, n, targets))
  {
    adjacency, inDegree := adjacency0, inDegree0;
    ReferNothing(g, n);
    for k := 0 to |targets|
      invariant Represents(adjacency, inDegree, Refer(g, n, targets[..k]))
    {
      var x := targets[k];
      assert x in targets;
      OneMoreEdge(adjacency, inDegree, Refer(g, n, targets[..k]), n, x);
      ReferStepwise(g, n, targets, k);
      adjacency := adjacency[x := adjacency[x] + {n}];
      inDegree := inDegree[n := inDegree[n] + 1];
    }
    assert targets[..|targets|] == targets;
  }

  /** The members of a category other than the dependent itself. */
  method SkipSelf(ids: seq<string>, self: string) returns (r: seq<string>)
    ensures r == Without(ids, self)
  {
    r := [];
    for i := 0 to |ids|
      invariant r == Without(ids[..i], self)
    {
      assert ids[..i + 1][..i] == ids[..i];
      if ids[i] != self { r := r + [ids[i]]; }
    }
    assert ids[..|ids|] == ids;
  }

  /** What one reference stands for, if anything. */
  method ResolveReference(decls: seq<Declaration>, self: string, ref: DependencyRef,
                          byCategory: map<Category, seq<string>>, inDegree: InDegree)
      returns (found: bool, targets: seq<string>)
    requires Indexed(byCategory, decls) && inDegree.Keys == DeclaredIds(decls)
    ensures found <==> !IsMissing(decls, ref)
    ensures found ==> targets == Targets(decls, self, ref) && forall x | x in targets :: x in inDegree
  {
    HasMembersPresent(decls, ref);
    if ref.Ext? {
      found, targets := ref.extId in inDegree, [ref.extId];
    } else if ref.category in byCategory {
      targets := SkipSelf(byCategory[ref.category], self);
      found := true;
    } else {
      found, targets := false, [];
    }
    if found { TargetsAreDeclared(decls, self, ref); }
  }

  /** Add the references of one declaration, or stop at the first that names nothing. */
  method AddReferences(decls: seq<Declaration>, decl: Declaration, byCategory: map<Category, seq<string>>,
                       adjacency0: Adjacency, inDegree0: InDegree, ghost g: Graph)
      returns (missingAt: nat, adjacency: Adjacency, inDegree: InDegree)
    requires Represents(adjacency0, inDegree0, g) && g.Keys == DeclaredIds(decls) && decl.extId in g
    requires Indexed(byCategory, decls)
    ensures missingAt <= |decl.dependsOn| && AllPresent(decls, decl.dependsOn[..missingAt])
    ensures missingAt < |decl.dependsOn| ==> IsMissing(decls, decl.dependsOn[missingAt])
    ensures missingAt == |decl.dependsOn| ==>
              Represents(adjacency, inDegree, Refer(g, decl.extId, AllTargets(decls, decl.extId, decl.dependsOn)))
  {
    adjacency, inDegree := adjacency0, inDegree0;
    var refs, id := decl.dependsOn, decl.extId;
    ReferToNone(g, id, decls, refs);
    for j := 0 to |refs|
      invariant AllPresent(decls, refs[..j])
      invariant Represents(adjacency, inDegree, Refer(g, id, AllTargets(decls, id, refs[..j])))
    {
      var found, targets := ResolveReference(decls, id, refs[j], byCategory, inDegree);
      if !found { return j, adjacency, inDegree; }
      assert refs[..j + 1] == refs[..j] + [refs[j]];
      adjacency, inDegree := AddEdges(adjacency, inDegree, Refer(g, id, AllTargets(decls, id, refs[..j])), id, targets);
      ReferToOneMore(g, id, decls, refs, j);
    }
    assert refs[..|refs|] == refs;
    missingAt := |refs|;
  }

  lemma ReferToNone(g: Graph, n: string, decls: seq<Declaration>, refs: seq<DependencyRef>)
    requires n in g
    ensures Refer(g, n, AllTargets(decls, n, refs[..0])) == g
  {
    assert g[n] + [] == g[n];
  }

  lemma ReferToOneMore(g: Graph, n: string, decls: seq<Declaration>, refs: seq<DependencyRef>, j: nat)
    requires n in g && j < |refs|
    ensures Refer(Refer(g, n, AllTargets(decls, n, refs[..j])), n, Targets(decls, n, refs[j]))
            == Refer(g, n, AllTargets(decls, n, refs[..j + 1]))
  {
    assert refs[..j + 1][..j] == refs[..j];
    assert g[n] + AllTargets(decls, n, refs[..j]) + Targets(decls, n, refs[j]) ==
        g[n] + AllTargets(decls, n, refs[..j + 1]);
  }

  lemma NoMembersMissing(decls: seq<Declaration>, category: Category)
    ensures MembersOf(decls, category) == [] <==> IsMissing(decls, InCategory(category))
  {
    MembersAre(decls, category);
    if MembersOf(decls, category) != [] {
      assert MembersOf(decls, category)[0] in MembersOf(decls, category);
    }
    assert forall d | d in decls && d.kind == category :: d.extId in MembersOf(decls, category);
  }

  lemma HasMembersPresent(decls: seq<Declaration>, ref: DependencyRef)
    ensures IsMissing(decls, ref) <==>
            if ref.Ext? then ref.extId !in DeclaredIds(decls) else MembersOf(decls, ref.category) == []
  {
    if ref.InCategory? {
      NoMembersMissing(decls, ref.category);
    } else if ref.extId !in DeclaredIds(decls) {
      forall d | d in decls ensures d.extId != ref.extId { assert d.extId in DeclaredIds(decls); }
    }
  }

  datatype BuildResult =
    | Built(adjacency: Adjacency, inDegree: InDegree)
    | Unbuilt(error: ResolutionError)

  /** The first reference, in declaration order, that names nothing. */
  ghost predicate FirstMissing(decls: seq<Declaration>, i: nat, j: nat)
  {
    && i < |decls| && j < |decls[i].dependsOn| && IsMissing(decls, decls[i].dependsOn[j])
    && NothingMissing(decls, decls[..i])
    && AllPresent(decls, decls[i].dependsOn[..j])
  }

  method BuildGraph(decls: seq<Declaration>) returns (r: BuildResult)
    ensures r.Built? ==> NothingMissing(decls, decls) && Represents(r.adjacency, r.inDegree, GraphOf(decls))
    ensures r.Unbuilt? ==> exists i: nat, j: nat :: FirstMissing(decls, i, j)
                                                    && r.error ==
                                                         DependencyMissing(decls[i].extId, decls[i].dependsOn[j])
  {
    var byCategory, adjacency, inDegree := IndexDeclarations(decls);
    assert PartialGraph(decls, decls[..0]) == Bare(decls);
    for i := 0 to |decls|
      invariant NothingMissing(decls, decls[..i])
      invariant Represents(adjacency, inDegree, PartialGraph(decls, decls[..i]))
    {
      var decl := decls[i];
      assert decl in decls && decl.extId in DeclaredIds(decls);
      var missingAt;
      missingAt, adjacency, inDegree :=
        AddReferences(decls, decl, byCategory, adjacency, inDegree, PartialGraph(decls, decls[..i]));
      if missingAt < |decl.dependsOn| {
        assert FirstMissing(decls, i, missingAt);
        return Unbuilt(DependencyMissing(decl.extId, decl.dependsOn[missingAt]));
      }
      ReadOneMore(decls, i);
    }
    assert decls[..|decls|] == decls;
    r := Built(adjacency, inDegree);
  }

  lemma ReadOneMore(decls: seq<Declaration>, i: nat)
    requires i < |decls|
    ensures decls[i].extId in DeclaredIds(decls) && decls[i].dependsOn[..|decls[i].dependsOn|] == decls[i].dependsOn
    ensures NothingMissing(decls, decls[..i + 1]) <==>
        NothingMissing(decls, decls[..i]) && AllPresent(decls, decls[i].dependsOn)
    ensures PartialGraph(decls, decls[..i + 1])
            == Refer(PartialGraph(decls, decls[..i]), decls[i].extId,
              AllTargets(decls, decls[i].extId, decls[i].dependsOn))
  {
    assert decls[i] in decls;
    assert decls[..i + 1] == decls[..i] + [decls[i]];
    ReferencesOfOneMore(decls, decls[..i], decls[i]);
  }

  lemma ReferencesOfOneMore(decls: seq<Declaration>, part: seq<Declaration>, decl: Declaration)
    requires decl.extId in DeclaredIds(decls)
    ensures PartialGraph(decls, part + [decl]) ==
        Refer(PartialGraph(decls, part), decl.extId, AllTargets(decls, decl.extId, decl.dependsOn))
  {
    assert (part + [decl])[..|part|] == part;
  }

  // ----- Resolving -----

  function Reversed(s: seq<string>): seq<string>
  {
    if s == [] then [] else [s[|s| - 1]] + Reversed(s[..|s| - 1])
  }

  /** The declared ids that `order` does not reach, each once, in the order of their first declaration. */
  function LeftOut(decls: seq<Declaration>, order: seq<string>): seq<string>
  {
    if decls == [] then []
    else
      var init, id := LeftOut(decls[..|decls| - 1], order), decls[|decls| - 1].extId;
      if id in order || id in init then init else init + [id]
  }

  ghost predicate Resolves(decls: seq<Declaration>, r: Resolution)
  {
    if NothingMissing(decls, decls) then
      exists order :: Greedy(GraphOf(decls), order) && Exhausted(GraphOf(decls), order) && r == Verdict(decls, order)
    else
      exists i: nat, j: nat :: FirstMissing(decls, i, j)
                               && r == Failed(DependencyMissing(decls[i].extId, decls[i].dependsOn[j]))
  }

  function Verdict(decls: seq<Declaration>, order: seq<string>): Resolution
  {
    if |order| == |decls| then Resolved(order, Reversed(order)) else Failed(DependencyCycle(LeftOut(decls, order)))
  }

  /** The declared ids that were not reached, for the cycle report. */
  method Participants(decls: seq<Declaration>, order: seq<string>) returns (participants: seq<string>)
    ensures participants == LeftOut(decls, order)
  {
    participants := [];
    for i := 0 to |decls|
      invariant participants == LeftOut(decls[..i], order)
    {
      assert decls[..i + 1][..i] == decls[..i];
      if decls[i].extId !in order && decls[i].extId !in participants {
        participants := participants + [decls[i].extId];
      }
    }
    assert decls[..|decls|] == decls;
  }

  method Reverse(order: seq<string>) returns (r: seq<string>)
    ensures r == Reversed(order)
  {
    r := [];
    for i := 0 to |order|
      invariant r == Reversed(order[..i])
    {
      assert order[..i + 1][..i] == order[..i];
      r := [order[i]] + r;
    }
    assert order[..|order|] == order;
  }

  method ResolveDependencies(decls: seq<Declaration>) returns (r: Resolution)
    ensures Resolves(decls, r)
  {
    var graph := BuildGraph(decls);
    match graph {
      case Unbuilt(error) =>
        ghost var i: nat, j: nat :| FirstMissing(decls, i, j)
          && error == DependencyMissing(decls[i].extId, decls[i].dependsOn[j]);
        assert decls[i] in decls && decls[i].dependsOn[j] in decls[i].dependsOn;
        r := Failed(error);
      case Built(adjacency, inDegree) =>
        var initOrder := KahnSort(adjacency, inDegree, GraphOf(decls));
        if |initOrder| != |decls| {
          var participants := Participants(decls, initOrder);
          r := Failed(DependencyCycle(participants));
        } else {
          var disposeOrder := Reverse(initOrder);
          r := Resolved(initOrder, disposeOrder);
        }
        assert r == Verdict(decls, initOrder);
    }
  }
}
