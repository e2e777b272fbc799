/**
 What the dependency resolver guarantees, said of the declarations: which extensions a reference
 names, exactly when resolution succeeds, what stands before what, and what the failures report.
 */
module DependencyDeclarations {
  import opened Ids
  import opened DependencyGraph
  import opened DependencyResolution
  import opened DependencyProperties

  // ----- What declarations name -----

  ghost predicate IsDeclared(decls: seq<Declaration>, id: string)
  {
    exists d :: d in decls && d.extId == id
  }

  ghost predicate IsMember(decls: seq<Declaration>, id: string, category: Category)
  {
    exists d :: d in decls && d.extId == id && d.kind == category
  }

  /** A reference of `self` names `x`: as an extension, or as another member of a category. */
  ghost predicate Names(decls: seq<Declaration>, self: string, ref: DependencyRef, x: string)
  {
    ref == Ext(x) || (ref.InCategory? && x != self && IsMember(decls, x, ref.category))
  }

  ghost predicate DependsOn(decls: seq<Declaration>, a: string, b: string)
  {
    exists d, ref :: d in decls && d.extId == a && ref in d.dependsOn && Names(decls, a, ref, b)
  }

  /** The extension is declared, or the category has a member. */
  ghost predicate Resolvable(decls: seq<Declaration>, ref: DependencyRef)
  {
    match ref
    case Ext(id) => IsDeclared(decls, id)
    case InCategory(category) => exists id :: IsMember(decls, id, category)
  }

  ghost predicate AllResolvable(decls: seq<Declaration>, refs: seq<DependencyRef>)
  {
    forall ref | ref in refs :: Resolvable(decls, ref)
  }

  lemma MissingIsUnresolvable(decls: seq<Declaration>, ref: DependencyRef)
    ensures Resolvable(decls, ref) <==> !IsMissing(decls, ref)
  {
    if ref.InCategory? && !IsMissing(decls, ref) {
      var d :| d in decls && d.kind == ref.category;
      assert IsMember(decls, d.extId, ref.category);
    }
  }

  lemma PresentIsResolvable(decls: seq<Declaration>, refs: seq<DependencyRef>)
    ensures AllResolvable(decls, refs) <==> AllPresent(decls, refs)
  {
    forall ref ensures Resolvable(decls, ref) <==> !IsMissing(decls, ref)
    {
      MissingIsUnresolvable(decls, ref);
    }
  }

  // ----- The graph holds what the declarations name -----

  lemma TargetsAreNamed(decls: seq<Declaration>, self: string, ref: DependencyRef, x: string)
    ensures x in Targets(decls, self, ref) <==> Names(decls, self, ref, x)
  {
    if ref.InCategory? {
      MembersAre(decls, ref.category);
      WithoutAre(MembersOf(decls, ref.category), self);
    }
  }

  lemma {:induction false} AllTargetsAreNamed(decls: seq<Declaration>, self: string, refs: seq<DependencyRef>,
      x: string)
    ensures x in AllTargets(decls, self, refs) <==> exists ref :: ref in refs && Names(decls, self, ref, x)
  {
    if refs != [] {
      var init, last := refs[..|refs| - 1], refs[|refs| - 1];
      assert refs == init + [last];
      AllTargetsAreNamed(decls, self, init, x);
      TargetsAreNamed(decls, self, last, x);
    }
  }

  lemma {:induction false} DependenciesAreNamed(decls: seq<Declaration>, part: seq<Declaration>, id: string, x: string)
    ensures x in DependenciesIn(decls, part, id) <==>
            exists d, ref :: d in part && d.extId == id && ref in d.dependsOn && Names(decls, id, ref, x)
  {
    if part != [] {
      var init, last := part[..|part| - 1], part[|part| - 1];
      assert part == init + [last];
      DependenciesAreNamed(decls, init, id, x);
      AllTargetsAreNamed(decls, id, last.dependsOn, x);
      assert last in part;
    }
  }

  lemma DeclaredAreKeys(decls: seq<Declaration>, id: string)
    ensures id in GraphOf(decls) <==> IsDeclared(decls, id)
  {
  }

  /** An edge of the graph is a reference by which one extension names another. */
  lemma EdgesAreDependencies(decls: seq<Declaration>, a: string, b: string)
    ensures DependsOn(decls, a, b) <==> a in GraphOf(decls) && b in GraphOf(decls)[a]
  {
    DeclaredAreKeys(decls, a);
    DependenciesAreNamed(decls, decls, a, b);
  }

  // ----- How often one extension names another -----

  /** How many declarations give `x` the category. */
  function TimesMember(decls: seq<Declaration>, x: string, category: Category): nat
  {
    if decls == [] then 0
    else
      var last := decls[|decls| - 1];
      TimesMember(decls[..|decls| - 1], x, category) + if last.extId == x && last.kind == category then 1 else 0
  }

  /** How often the references name `x`: an extension once, a category member once for each declaration. */
  function TimesNamed(decls: seq<Declaration>, self: string, refs: seq<DependencyRef>, x: string): nat
  {
    if refs == [] then 0
    else
      var before := TimesNamed(decls, self, refs[..|refs| - 1], x);
      match refs[|refs| - 1]
      case Ext(id) => before + if id == x then 1 else 0
      case InCategory(category) => before + if x == self then 0 else TimesMember(decls, x, category)
  }

  function TimesDependent(decls: seq<Declaration>, part: seq<Declaration>, a: string, b: string): nat
  {
    if part == [] then 0
    else
      var before, last := TimesDependent(decls, part[..|part| - 1], a, b), part[|part| - 1];
      before + if last.extId == a then TimesNamed(decls, a, last.dependsOn, b) else 0
  }

  lemma {:induction false} MembersCounted(decls: seq<Declaration>, x: string, category: Category)
    ensures multiset(MembersOf(decls, category))[x] == TimesMember(decls, x, category)
  {
    if decls != [] { MembersCounted(decls[..|decls| - 1], x, category); }
  }

  lemma {:induction false} WithoutCounted(ids: seq<string>, self: string, x: string)
    ensures multiset(Without(ids, self))[x] == if x == self then 0 else multiset(ids)[x]
  {
    if ids != [] {
      assert ids == ids[..|ids| - 1] + [ids[|ids| - 1]];
      WithoutCounted(ids[..|ids| - 1], self, x);
    }
  }

  lemma {:induction false} TargetsCounted(decls: seq<Declaration>, self: string, refs: seq<DependencyRef>, x: string)
    ensures multiset(AllTargets(decls, self, refs))[x] == TimesNamed(decls, self, refs, x)
  {
    if refs != [] {
      TargetsCounted(decls, self, refs[..|refs| - 1], x);
      var last := refs[|refs| - 1];
      if last.InCategory? {
        WithoutCounted(MembersOf(decls, last.category), self, x);
        MembersCounted(decls, x, last.category);
      }
    }
  }

  lemma {:induction false} DependenciesCounted(decls: seq<Declaration>, part: seq<Declaration>, a: string, b: string)
    ensures multiset(DependenciesIn(decls, part, a))[b] == TimesDependent(decls, part, a, b)
  {
    if part != [] {
      DependenciesCounted(decls, part[..|part| - 1], a, b);
      TargetsCounted(decls, a, part[|part| - 1].dependsOn, b);
    }
  }

  /** The graph repeats an edge as often as the declarations repeat the reference. */
  lemma EdgesAreCounted(decls: seq<Declaration>, a: string, b: string)
    requires IsDeclared(decls, a)
    ensures multiset(GraphOf(decls)[a])[b] == TimesDependent(decls, decls, a, b)
  {
    DependenciesCounted(decls, decls, a, b);
  }

  ghost predicate NamesNoneTwice(decls: seq<Declaration>)
  {
    forall a, b | IsDeclared(decls, a) :: TimesDependent(decls, decls, a, b) <= 1
  }

  lemma NoDoublesWhenNoneTwice(decls: seq<Declaration>)
    ensures NoDoubleReferences(GraphOf(decls)) <==> NamesNoneTwice(decls)
  {
    forall a | IsDeclared(decls, a)
      ensures NoDuplicates(GraphOf(decls)[a]) <==> forall b :: TimesDependent(decls, decls, a, b) <= 1
    {
      NoDoublesAt(decls, a);
    }
    forall a ensures a in GraphOf(decls) <==> IsDeclared(decls, a) { DeclaredAreKeys(decls, a); }
  }

  lemma NoDoublesAt(decls: seq<Declaration>, a: string)
    requires IsDeclared(decls, a)
    ensures NoDuplicates(GraphOf(decls)[a]) <==> forall b :: TimesDependent(decls, decls, a, b) <= 1
  {
    var targets := GraphOf(decls)[a];
    NothingTwice(targets);
    if NoDuplicates(targets) {
      forall b ensures TimesDependent(decls, decls, a, b) <= 1 { EdgesAreCounted(decls, a, b); }
    } else {
      var b :| multiset(targets)[b] > 1;
      EdgesAreCounted(decls, a, b);
    }
  }

  /** No declaration names one extension by two of its references. */
  ghost predicate RepeatsNoReference(decls: seq<Declaration>)
  {
    forall d, i, j, x | d in decls && 0 <= i < j < |d.dependsOn| ::
      !(Names(decls, d.extId, d.dependsOn[i], x) && Names(decls, d.extId, d.dependsOn[j], x))
  }

  lemma LastIsNew(decls: seq<Declaration>)
    requires DistinctIds(decls) && decls != []
    ensures DistinctIds(decls[..|decls| - 1])
    ensures forall d | d in decls[..|decls| - 1] :: d.extId != decls[|decls| - 1].extId
  {
    forall d | d in decls[..|decls| - 1] ensures d.extId != decls[|decls| - 1].extId
    {
      var i :| 0 <= i < |decls| - 1 && decls[..|decls| - 1][i] == d;
      assert decls[i].extId != decls[|decls| - 1].extId;
    }
  }

  lemma {:induction false} NoMember(decls: seq<Declaration>, x: string, category: Category)
    ensures TimesMember(decls, x, category) == 0 <==> !IsMember(decls, x, category)
  {
    if decls != [] {
      var init, last := decls[..|decls| - 1], decls[|decls| - 1];
      assert decls == init + [last] && last in decls;
      NoMember(init, x, category);
    }
  }

  lemma {:induction false} MemberOnce(decls: seq<Declaration>, x: string, category: Category)
    requires DistinctIds(decls)
    ensures TimesMember(decls, x, category) <= 1
  {
    if decls != [] {
      LastIsNew(decls);
      MemberOnce(decls[..|decls| - 1], x, category);
      NoMember(decls[..|decls| - 1], x, category);
    }
  }

  ghost predicate NamedOnce(decls: seq<Declaration>, self: string, refs: seq<DependencyRef>, x: string)
  {
    forall i, j | 0 <= i < j < |refs| :: !(Names(decls, self, refs[i], x) && Names(decls, self, refs[j], x))
  }

  lemma {:induction false} NotNamed(decls: seq<Declaration>, self: string, refs: seq<DependencyRef>, x: string)
    ensures TimesNamed(decls, self, refs, x) == 0 <==> forall ref | ref in refs :: !Names(decls, self, ref, x)
  {
    if refs != [] {
      var init, last := refs[..|refs| - 1], refs[|refs| - 1];
      assert refs == init + [last] && last in refs && forall ref | ref in init :: ref in refs;
      NotNamed(decls, self, init, x);
      if last.InCategory? { NoMember(decls, x, last.category); }
    }
  }

  lemma {:induction false} TimesNamedOnce(decls: seq<Declaration>, self: string, refs: seq<DependencyRef>, x: string)
    requires DistinctIds(decls)
    ensures TimesNamed(decls, self, refs, x) <= 1 <==> NamedOnce(decls, self, refs, x)
  {
    if refs != [] {
      var init, last := refs[..|refs| - 1], refs[|refs| - 1];
      assert refs == init + [last];
      TimesNamedOnce(decls, self, init, x);
      NotNamed(decls, self, init, x);
      if last.InCategory? {
        MemberOnce(decls, x, last.category);
        NoMember(decls, x, last.category);
      }
      NamedOnceMore(decls, self, init, last, x);
    }
  }

  lemma NamedOnceMore(decls: seq<Declaration>, self: string, init: seq<DependencyRef>, last: DependencyRef, x: string)
    ensures NamedOnce(decls, self, init + [last], x) <==>
            NamedOnce(decls, self, init, x)
            && (Names(decls, self, last, x) ==> forall ref | ref in init :: !Names(decls, self, ref, x))
  {
    var refs := init + [last];
    if NamedOnce(decls, self, refs, x) {
      forall i, j | 0 <= i < j < |init| ensures !(Names(decls, self, init[i], x) && Names(decls, self, init[j], x))
      {
        assert refs[i] == init[i] && refs[j] == init[j];
      }
      forall ref | ref in init && Names(decls, self, last, x) ensures !Names(decls, self, ref, x)
      {
        var i :| 0 <= i < |init| && init[i] == ref;
        assert refs[i] == ref && refs[|init|] == last;
      }
    } else if Names(decls, self, last, x) ==> forall ref | ref in init :: !Names(decls, self, ref, x) {
      var i, j :| 0 <= i < j < |refs| && Names(decls, self, refs[i], x) && Names(decls, self, refs[j], x);
      assert refs[i] == init[i] && init[i] in init;
      assert refs[j] == init[j];
    }
  }

  lemma {:induction false} NotDependent(decls: seq<Declaration>, part: seq<Declaration>, a: string, b: string)
    requires forall d | d in part :: d.extId != a
    ensures TimesDependent(decls, part, a, b) == 0
  {
    if part != [] {
      assert part[|part| - 1] in part && forall d | d in part[..|part| - 1] :: d in part;
      NotDependent(decls, part[..|part| - 1], a, b);
    }
  }

  lemma {:induction false} DependentOnce(decls: seq<Declaration>, part: seq<Declaration>, d: Declaration, b: string)
    requires DistinctIds(part) && d in part
    ensures TimesDependent(decls, part, d.extId, b) == TimesNamed(decls, d.extId, d.dependsOn, b)
  {
    var n := |part| - 1;
    var i :| 0 <= i <= n && part[i] == d;
    if i < n {
      assert part[..n][i] == d;
      DependentOnce(decls, part[..n], d, b);
    } else {
      forall e | e in part[..n] ensures e.extId != d.extId
      {
        var j :| 0 <= j < n && part[j] == e;
      }
      NotDependent(decls, part[..n], d.extId, b);
    }
  }

  /** With distinct ids, naming an extension twice is doing so by two references of one declaration. */
  lemma NoneTwiceWhenNoRepeats(decls: seq<Declaration>)
    requires DistinctIds(decls)
    ensures NamesNoneTwice(decls) <==> RepeatsNoReference(decls)
  {
    forall d, x | d in decls
      ensures TimesDependent(decls, decls, d.extId, x) <= 1 <==> NamedOnce(decls, d.extId, d.dependsOn, x)
    {
      DependentOnce(decls, decls, d, x);
      TimesNamedOnce(decls, d.extId, d.dependsOn, x);
    }
    if NamesNoneTwice(decls) {
      forall d, i, j, x | d in decls && 0 <= i < j < |d.dependsOn|
        ensures !(Names(decls, d.extId, d.dependsOn[i], x) && Names(decls, d.extId, d.dependsOn[j], x))
      {
        assert IsDeclared(decls, d.extId) && NamedOnce(decls, d.extId, d.dependsOn, x);
      }
    }
    if RepeatsNoReference(decls) {
      forall a, b | IsDeclared(decls, a) ensures TimesDependent(decls, decls, a, b) <= 1
      {
        var d :| d in decls && d.extId == a;
        assert NamedOnce(decls, a, d.dependsOn, b);
      }
    }
  }

  // ----- Orders and circles of declarations -----

  /** Every declared extension once, each after everything it depends on. */
  ghost predicate Respects(decls: seq<Declaration>, order: seq<string>)
  {
    && NoDuplicates(order) && (forall id :: id in order <==> IsDeclared(decls, id))
    && forall i, x | 0 <= i < |order| && DependsOn(decls, order[i], x) :: x in order[..i]
  }

  /** Each depends on the next one, and the last on the first. */
  ghost predicate Circle(decls: seq<Declaration>, c: seq<string>)
  {
    && c != [] && (forall i | 0 <= i < |c| - 1 :: DependsOn(decls, c[i], c[i + 1]))
    && DependsOn(decls, c[|c| - 1], c[0])
  }

  lemma RespectingIsTopological(decls: seq<Declaration>, order: seq<string>)
    ensures Respects(decls, order) <==> Topological(GraphOf(decls), order)
  {
    forall id ensures id in GraphOf(decls) <==> IsDeclared(decls, id) { DeclaredAreKeys(decls, id); }
    forall a, b ensures DependsOn(decls, a, b) <==> a in GraphOf(decls) && b in GraphOf(decls)[a]
    {
      EdgesAreDependencies(decls, a, b);
    }
    if Topological(GraphOf(decls), order) {
      forall id ensures id in order <==> IsDeclared(decls, id)
      {
        assert id in order <==> id in Elements(order);
      }
    }
    if Respects(decls, order) {
      forall id ensures id in Elements(order) <==> id in GraphOf(decls).Keys
      {
        assert id in order <==> IsDeclared(decls, id);
      }
    }
  }

  lemma CirclesAreCycles(decls: seq<Declaration>, c: seq<string>)
    ensures Circle(decls, c) <==> Cycle(GraphOf(decls), c)
  {
    forall a, b ensures DependsOn(decls, a, b) <==> a in GraphOf(decls) && b in GraphOf(decls)[a]
    {
      EdgesAreDependencies(decls, a, b);
    }
    if Circle(decls, c) {
      forall i | 0 <= i < |c| ensures c[i] in GraphOf(decls)
      {
        assert i < |c| - 1 ==> DependsOn(decls, c[i], c[i + 1]);
      }
    }
  }

  // ----- What resolution guarantees -----

  ghost predicate Admissible(decls: seq<Declaration>)
  {
    && (forall d | d in decls :: AllResolvable(decls, d.dependsOn))
    && DistinctIds(decls) && RepeatsNoReference(decls) && forall c :: !Circle(decls, c)
  }

  lemma AdmissibleMeansGraphIs(decls: seq<Declaration>)
    ensures Admissible(decls) <==> AdmissibleGraph(decls)
    ensures (forall d | d in decls :: AllResolvable(decls, d.dependsOn)) <==> NothingMissing(decls, decls)
  {
    forall d | d in decls ensures AllResolvable(decls, d.dependsOn) <==> AllPresent(decls, d.dependsOn)
    {
      PresentIsResolvable(decls, d.dependsOn);
    }
    forall c ensures Circle(decls, c) <==> Cycle(GraphOf(decls), c) { CirclesAreCycles(decls, c); }
    NoDoublesWhenNoneTwice(decls);
    if DistinctIds(decls) { NoneTwiceWhenNoRepeats(decls); }
  }

  /**
   Resolution succeeds exactly when every reference names something, ids are distinct, no declaration names an
   extension twice, and no extensions depend on each other in a circle.
   */
  lemma SucceedsExactlyWhenAdmissible(decls: seq<Declaration>, r: Resolution)
    requires Resolves(decls, r)
    ensures r.Resolved? <==> Admissible(decls)
    ensures r.Failed? && r.error.DependencyMissing? <==> exists d :: d in decls && !AllResolvable(decls, d.dependsOn)
  {
    SucceedsOnGraph(decls, r);
    AdmissibleMeansGraphIs(decls);
  }

  /** A missing reference is reported with its dependent, and it is the first that names nothing. */
  lemma FirstMissingIsReported(decls: seq<Declaration>, r: Resolution)
    requires Resolves(decls, r) && r.Failed? && r.error.DependencyMissing?
    ensures exists i, j :: 0 <= i < |decls| && 0 <= j < |decls[i].dependsOn| && IsReported(decls, i, j, r.error)
  {
    SucceedsOnGraph(decls, r);
    var i: nat, j: nat :| FirstMissing(decls, i, j)
                          && r == Failed(DependencyMissing(decls[i].extId, decls[i].dependsOn[j]));
    MissingIsUnresolvable(decls, decls[i].dependsOn[j]);
    PresentIsResolvable(decls, decls[i].dependsOn[..j]);
    forall k | 0 <= k < i ensures AllResolvable(decls, decls[k].dependsOn)
    {
      assert decls[k] in decls[..i];
      PresentIsResolvable(decls, decls[k].dependsOn);
    }
    assert IsReported(decls, i, j, r.error);
  }

  /** The j-th reference of the i-th declaration names nothing, all before it do, and the error says so. */
  ghost predicate IsReported(decls: seq<Declaration>, i: nat, j: nat, error: ResolutionError)
    requires i < |decls| && j < |decls[i].dependsOn|
  {
    && error == DependencyMissing(decls[i].extId, decls[i].dependsOn[j]) && !Resolvable(decls, decls[i].dependsOn[j])
    && (forall k | 0 <= k < i :: AllResolvable(decls, decls[k].dependsOn))
    && AllResolvable(decls, decls[i].dependsOn[..j])
  }

  /**
   A resolved order lists every declared extension once, each after all that its references name, and comes before
   every other such order; the dispose order is its reverse, so dependents come first there.
   */
  lemma ResolvedOrder(decls: seq<Declaration>, r: Resolution)
    requires Resolves(decls, r) && r.Resolved?
    ensures Respects(decls, r.initOrder) && |r.initOrder| == |decls|
    ensures forall other | Respects(decls, other) :: AtMostList(r.initOrder, other)
    ensures |r.disposeOrder| == |r.initOrder|
    ensures forall i | 0 <= i < |r.initOrder| :: r.disposeOrder[i] == r.initOrder[|r.initOrder| - 1 - i]
    ensures forall i, x | 0 <= i < |r.disposeOrder| && DependsOn(decls, r.disposeOrder[i], x) ::
              x in r.disposeOrder[i + 1..]
  {
    OrderOnGraph(decls, r);
    RespectingIsTopological(decls, r.initOrder);
    forall other | Respects(decls, other) ensures AtMostList(r.initOrder, other)
    {
      RespectingIsTopological(decls, other);
    }
    forall i, x | 0 <= i < |r.disposeOrder| && DependsOn(decls, r.disposeOrder[i], x)
      ensures x in r.disposeOrder[i + 1..]
    {
      EdgesAreDependencies(decls, r.disposeOrder[i], x);
    }
  }

  /**
   On failure without missing references: the participants are declared, in the order of their declarations, and every
   circle lies among them, so they hold one exactly when there is one. When nothing is named twice, each of them depends
   on another, and there is a circle unless an id is declared twice.
   */
  lemma ParticipantsHoldACycle(decls: seq<Declaration>, r: Resolution)
    requires Resolves(decls, r) && r.Failed? && r.error.DependencyCycle?
    ensures NoDuplicates(r.error.participants) && InDeclarationOrder(decls, r.error.participants)
    ensures forall c | Circle(decls, c) :: Among(c, r.error.participants)
    ensures (exists c :: Circle(decls, c) && Among(c, r.error.participants)) <==> exists c :: Circle(decls, c)
    ensures NamesNoneTwice(decls) ==>
              && (forall a | a in r.error.participants ::
                    exists b :: b in r.error.participants && DependsOn(decls, a, b))
              && (if r.error.participants == [] then !DistinctIds(decls) else exists c :: Circle(decls, c))
  {
    var participants := r.error.participants;
    ParticipantsOnGraph(decls, r);
    ParticipantsInOrder(decls, r);
    forall c | Circle(decls, c) ensures Among(c, participants) { CirclesAreCycles(decls, c); }
    NoDoublesWhenNoneTwice(decls);
    if NamesNoneTwice(decls) {
      LeadingBackIsDepending(decls, participants);
      CyclicMeansCircle(decls);
    }
  }

  lemma ParticipantsInOrder(decls: seq<Declaration>, r: Resolution)
    requires Resolves(decls, r) && r.Failed? && r.error.DependencyCycle?
    ensures InDeclarationOrder(decls, r.error.participants)
  {
    SucceedsOnGraph(decls, r);
    var g := GraphOf(decls);
    var order :| Greedy(g, order) && Exhausted(g, order) && r == Verdict(decls, order);
    LeftOutInOrder(decls, order);
  }

  predicate Among(c: seq<string>, ids: seq<string>)
  {
    forall x | x in c :: x in ids
  }

  lemma CyclicMeansCircle(decls: seq<Declaration>)
    ensures !Acyclic(GraphOf(decls)) ==> exists c :: Circle(decls, c)
  {
    if !Acyclic(GraphOf(decls)) {
      var c: seq<string> :| Cycle(GraphOf(decls), c);
      CirclesAreCycles(decls, c);
    }
  }

  lemma LeadingBackIsDepending(decls: seq<Declaration>, ids: seq<string>)
    requires LeadsBack(GraphOf(decls), Elements(ids))
    ensures forall a | a in ids :: exists b :: b in ids && DependsOn(decls, a, b)
  {
    forall a | a in ids ensures exists b :: b in ids && DependsOn(decls, a, b)
    {
      assert a in Elements(ids);
      assert RefersInto(GraphOf(decls), a, Elements(ids));
      var b :| b in GraphOf(decls)[a] && b in Elements(ids);
      EdgesAreDependencies(decls, a, b);
    }
  }

  /** Each id of the list is declared before the first declaration of the ids after it. */
  ghost predicate InDeclarationOrder(decls: seq<Declaration>, ids: seq<string>)
  {
    forall k, l | 0 <= k < l < |ids| :: DeclaredFirst(decls, ids[k], ids[l])
  }

  ghost predicate DeclaredFirst(decls: seq<Declaration>, a: string, b: string)
  {
    exists i :: 0 <= i < |decls| && decls[i].extId == a && forall j | 0 <= j <= i :: decls[j].extId != b
  }

  lemma {:induction false} LeftOutInOrder(decls: seq<Declaration>, order: seq<string>)
    ensures InDeclarationOrder(decls, LeftOut(decls, order))
  {
    if decls != [] {
      var init, last := decls[..|decls| - 1], decls[|decls| - 1];
      var before, ids := LeftOut(init, order), LeftOut(decls, order);
      LeftOutInOrder(init, order);
      LeftOutAre(init, order);
      forall k, l | 0 <= k < l < |ids| ensures DeclaredFirst(decls, ids[k], ids[l])
      {
        if l < |before| {
          assert DeclaredFirst(init, before[k], before[l]);
          var i :| 0 <= i < |init| && init[i].extId == ids[k] && forall j | 0 <= j <= i :: init[j].extId != ids[l];
          assert decls[i].extId == ids[k] && forall j | 0 <= j <= i :: decls[j].extId == init[j].extId;
        } else {
          assert before[k] in Elements(before);
          var d :| d in init && d.extId == before[k];
          var i :| 0 <= i < |init| && init[i] == d;
          assert decls[i].extId == ids[k];
          forall j | 0 <= j <= i ensures decls[j].extId != ids[l]
          {
            assert init[j] in init;
            assert init[j].extId in DeclaredIds(init);
            assert last.extId in Elements(before) <==> last.extId in before;
          }
        }
      }
    }
  }

  /** A repeated reference is reported as a cycle although there is none. */
  lemma RepeatedReferenceWitness(r: Resolution)
    requires Resolves([Declaration("a", Tool, []), Declaration("b", Tool, [Ext("a"), Ext("a")])], r)
    ensures r.Failed? && r.error.DependencyCycle?
    ensures forall c :: !Circle([Declaration("a", Tool, []), Declaration("b", Tool, [Ext("a"), Ext("a")])], c)
  {
    var decls := [Declaration("a", Tool, []), Declaration("b", Tool, [Ext("a"), Ext("a")])];
    RepeatedOnGraph(r);
    forall c ensures !Circle(decls, c) { CirclesAreCycles(decls, c); }
  }
}
