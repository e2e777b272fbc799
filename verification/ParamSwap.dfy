/**
 Replacing the default layer on a provider swap. The swap validates a bag projected from the
 new defaults with the runtime overrides laid over them; it publishes the bag of a store from
 which the old defaults were deleted and to which the new ones were added where missing. The
 two leaf lists are in different orders; this module proves exactly when their bags agree.
 */
module ParamSwap {
  import opened ParamPaths
  import opened ParamTree
  import opened ParamLeaves

  /** Add each entry whose key is not taken yet. */
  function AddMissing(es: seq<Entry>, defaults: seq<Entry>): seq<Entry>
  {
    if defaults == [] then es
    else
      var sofar, last := AddMissing(es, defaults[..|defaults| - 1]), defaults[|defaults| - 1];
      if HasKey(sofar, PathKey(last.path)) then sofar else MapSet(sofar, last)
  }

  /** The leaves after `applyDefaultParams`, for one order in which the new defaults were listed. */
  function Applied(es: seq<Entry>, defaults: seq<Entry>): seq<Entry>
  {
    AddMissing(Overrides(es), defaults)
  }

  /** The leaves behind `projectMergedBagWithDefaults`. */
  function Projected(es: seq<Entry>, defaults: seq<Entry>): seq<Entry>
  {
    MapSetAll(defaults, Overrides(es))
  }

  predicate HasPath(es: seq<Entry>, path: Path)
  {
    exists e :: e in es && e.path == path
  }

  /** If an override stands strictly above the path, another stands strictly below it. */
  ghost predicate HiddenWhenShadowed(over: seq<Entry>, p: Path)
  {
    (exists q :: q in over && q.path < p) ==> exists r :: r in over && p < r.path
  }

  /**
   The exact condition under which a swap that validates the defaults `target` and publishes the
   defaults `live` publishes what it validated: a target leaf that is overridden is hidden when
   shadowed, and the live leaves that are not overridden are just those target leaves that clash
   with no override.
   */
  ghost predicate SwapMatches(over: seq<Entry>, target: Json, live: Json)
  {
    && (forall p: Path | At(target, p).Terminal? && HasPath(over, p) :: HiddenWhenShadowed(over, p))
    && (forall p: Path, a: Atom | !HasPath(over, p) ::
          At(live, p) == Terminal(a) <==> At(target, p) == Terminal(a) && ClashesWithNone(over, p))
  }

  ghost predicate ClashesWithNone(over: seq<Entry>, p: Path)
  {
    forall q | q in over :: !Comparable(p, q.path)
  }

  /** The same condition when the defaults published are those validated. */
  ghost predicate SwapSafe(over: seq<Entry>, defaults: Json)
  {
    forall p: Path | At(defaults, p).Terminal? ::
      if HasPath(over, p) then HiddenWhenShadowed(over, p) else ClashesWithNone(over, p)
  }

  lemma SafeMeansMatchingItself(over: seq<Entry>, defaults: Json)
    ensures SwapMatches(over, defaults, defaults) <==> SwapSafe(over, defaults)
  {
    if SwapMatches(over, defaults, defaults) {
      forall p: Path | At(defaults, p).Terminal? && !HasPath(over, p) ensures ClashesWithNone(over, p)
      {
        assert At(defaults, p) == Terminal(At(defaults, p).atom);
      }
    }
  }

  /** The entries of `es` at paths not used by `fs`. */
  function Missing(es: seq<Entry>, fs: seq<Entry>): seq<Entry>
  {
    if es == [] then []
    else
      var init, last := Missing(es[..|es| - 1], fs), es[|es| - 1];
      if HasPath(fs, last.path) then init else init + [last]
  }

  lemma {:induction false} MissingMembers(es: seq<Entry>, fs: seq<Entry>)
    ensures forall e :: e in Missing(es, fs) <==> e in es && !HasPath(fs, e.path)
    ensures DistinctPaths(es) ==> DistinctPaths(Missing(es, fs))
    ensures PrefixFirst(es) ==> PrefixFirst(Missing(es, fs))
  {
    if es != [] {
      var init, last := es[..|es| - 1], es[|es| - 1];
      assert es == init + [last];
      MissingMembers(init, fs);
      ConcatDistinct(init, [last]);
      ConcatDistinct(Missing(init, fs), [last]);
      ConcatPrefixFirst(init, [last]);
      ConcatPrefixFirst(Missing(init, fs), [last]);
    }
  }

  predicate Plain(es: seq<Entry>)
  {
    ProperPaths(es) && DistinctPaths(es)
  }

  lemma KeyMeansPath(es: seq<Entry>, path: Path, paths: iset<Path>)
    requires ProperPaths(es) && Within(es, paths) && KeysDiffer(paths) && path != [] && path in paths
    ensures HasKey(es, PathKey(path)) <==> HasPath(es, path)
  {
    forall e | e in es ensures PathKey(e.path) == PathKey(path) <==> e.path == path
    {
      KeysReflectResplitPaths(e.path, path);
    }
    if HasPath(es, path) {
      var e :| e in es && e.path == path;
      var i :| 0 <= i < |es| && es[i] == e;
    }
  }

  lemma WithMissingIsPlain(es: seq<Entry>, defaults: seq<Entry>)
    requires Plain(es) && Plain(defaults)
    ensures Plain(es + Missing(defaults, es))
  {
    MissingMembers(defaults, es);
    ConcatDistinct(es, Missing(defaults, es));
  }

  /** A key is free among the overrides and the defaults added so far exactly when no override has its path. */
  lemma NextDefaultIsNew(es: seq<Entry>, init: seq<Entry>, last: Entry, paths: iset<Path>)
    requires Plain(es) && Plain(init + [last]) && Within(es + init + [last], paths) && KeysDiffer(paths)
    ensures HasKey(es + Missing(init, es), PathKey(last.path)) <==> HasPath(es, last.path)
    ensures !HasPath(es, last.path) ==> MapSet(es + Missing(init, es), last) == es + Missing(init, es) + [last]
  {
    ConcatDistinct(init, [last]);
    assert last in init + [last] && forall e | e in init :: e in init + [last];
    MissingMembers(init, es);
    var sofar := es + Missing(init, es);
    forall e | e in sofar ensures e.path != [] && e.path in paths && e in es + init + [last] {}
    assert last in es + init + [last];
    KeyMeansPath(sofar, last.path, paths);
    if HasPath(es, last.path) {
      var e :| e in es && e.path == last.path;
      assert e in sofar;
    } else {
      FreshKeyGoesLast(sofar, last);
    }
  }

  lemma {:induction false} AddMissingByPath(es: seq<Entry>, defaults: seq<Entry>, paths: iset<Path>)
    requires Plain(es) && Plain(defaults) && Within(es + defaults, paths) && KeysDiffer(paths)
    ensures AddMissing(es, defaults) == es + Missing(defaults, es)
  {
    if defaults != [] {
      var init, last := defaults[..|defaults| - 1], defaults[|defaults| - 1];
      assert defaults == init + [last] && es + defaults == es + init + [last];
      ConcatDistinct(init, [last]);
      forall e | e in es + init ensures e in es + defaults {}
      AddMissingByPath(es, init, paths);
      NextDefaultIsNew(es, init, last, paths);
    }
  }

  lemma {:induction false} MapSetReplaces(es: seq<Entry>, e: Entry, i: nat)
    requires DistinctKeys(es) && i < |es| && es[i].path == e.path
    ensures MapSet(es, e) == es[i := e]
  {
    if i > 0 {
      assert PathKey(es[0].path) != PathKey(es[i].path);
      forall j, k | 0 <= j < k < |es[1..]| ensures PathKey(es[1..][j].path) != PathKey(es[1..][k].path)
      {
        assert es[1..][j] == es[j + 1] && es[1..][k] == es[k + 1];
      }
      MapSetReplaces(es[1..], e, i - 1);
      assert [es[0]] + es[1..][i - 1 := e] == es[i := e];
    } else {
      assert [e] + es[1..] == es[0 := e];
    }
  }

  /** `laid` is `defaults` with every overridden leaf replaced in place. */
  ghost predicate LaidOver(laid: seq<Entry>, defaults: seq<Entry>, over: seq<Entry>)
  {
    && |laid| == |defaults|
    && (forall i | 0 <= i < |laid| :: laid[i].path == defaults[i].path)
    && (forall i | 0 <= i < |laid| ::
          if HasPath(over, laid[i].path) then laid[i] in over else laid[i] == defaults[i])
  }

  lemma LaidIsWithin(laid: seq<Entry>, defaults: seq<Entry>, over: seq<Entry>, paths: iset<Path>)
    requires LaidOver(laid, defaults, over) && Plain(defaults) && Plain(over) && Within(defaults + over, paths)
    ensures Plain(laid + Missing(over, defaults)) && Within(laid + Missing(over, defaults), paths)
  {
    MissingMembers(over, defaults);
    forall e | e in laid ensures e.path != [] && e.path in paths && HasPath(defaults, e.path)
    {
      var i :| 0 <= i < |laid| && laid[i] == e;
      assert defaults[i] in defaults && defaults[i] in defaults + over;
    }
    forall e | e in Missing(over, defaults) ensures e in defaults + over {}
    ConcatDistinct(laid, Missing(over, defaults));
  }

  lemma {:induction false} MapSetAllByPath(defaults: seq<Entry>, over: seq<Entry>, paths: iset<Path>)
      returns (laid: seq<Entry>)
    requires Plain(defaults) && Plain(over) && Within(defaults + over, paths) && KeysDiffer(paths)
    ensures LaidOver(laid, defaults, over)
    ensures MapSetAll(defaults, over) == laid + Missing(over, defaults)
  {
    if over == [] {
      laid := defaults;
      assert laid + [] == laid;
    } else {
      var init, last := over[..|over| - 1], over[|over| - 1];
      assert over == init + [last];
      ConcatDistinct(init, [last]);
      forall e | e in defaults + init ensures e in defaults + over {}
      var before := MapSetAllByPath(defaults, init, paths);
      LaidIsWithin(before, defaults, init, paths);
      if HasPath(defaults, last.path) {
        laid := LayOne(before, defaults, init, last, paths);
      } else {
        laid := before;
        assert last in defaults + over;
        AppendOne(before, defaults, init, last, paths);
        assert before + (Missing(init, defaults) + [last]) == before + Missing(init, defaults) + [last];
      }
    }
  }

  lemma LayOne(before: seq<Entry>, defaults: seq<Entry>, init: seq<Entry>, last: Entry, paths: iset<Path>)
      returns (laid: seq<Entry>)
    requires LaidOver(before, defaults, init) && HasPath(defaults, last.path) && Plain(defaults) && Plain(init + [last])
    requires Plain(before + Missing(init, defaults)) && Within(before + Missing(init, defaults), paths)
        && KeysDiffer(paths)
    ensures LaidOver(laid, defaults, init + [last])
    ensures MapSet(before + Missing(init, defaults), last) == laid + Missing(init, defaults)
  {
    var d :| d in defaults && d.path == last.path;
    var i :| 0 <= i < |defaults| && defaults[i] == d;
    laid := before[i := last];
    MapSetReplacesFirst(before, Missing(init, defaults), last, i, paths);
    LaidOneMore(before, defaults, init, last, i);
  }

  lemma MapSetReplacesFirst(before: seq<Entry>, rest: seq<Entry>, last: Entry, i: nat, paths: iset<Path>)
    requires i < |before| && before[i].path == last.path
    requires Plain(before + rest) && Within(before + rest, paths) && KeysDiffer(paths)
    ensures MapSet(before + rest, last) == before[i := last] + rest
  {
    PathsApartKeysApart(before + rest, paths);
    MapSetReplaces(before + rest, last, i);
    assert (before + rest)[i := last] == before[i := last] + rest;
  }

  lemma LaidOneMore(before: seq<Entry>, defaults: seq<Entry>, init: seq<Entry>, last: Entry, i: nat)
    requires LaidOver(before, defaults, init) && DistinctPaths(defaults)
    requires i < |defaults| && defaults[i].path == last.path
    ensures LaidOver(before[i := last], defaults, init + [last])
  {
    var laid, over := before[i := last], init + [last];
    forall j | 0 <= j < |laid|
      ensures if HasPath(over, laid[j].path) then laid[j] in over else laid[j] == defaults[j]
    {
      if j == i {
        assert last in over;
      } else {
        assert laid[j].path != last.path;
        assert HasPath(over, laid[j].path) <==> HasPath(init, laid[j].path);
      }
    }
  }

  lemma AppendOne(before: seq<Entry>, defaults: seq<Entry>, init: seq<Entry>, last: Entry, paths: iset<Path>)
    requires LaidOver(before, defaults, init) && !HasPath(defaults, last.path) && Plain(init + [last])
    requires Plain(before + Missing(init, defaults)) && Within(before + Missing(init, defaults), paths)
    requires KeysDiffer(paths) && last.path in paths
    ensures LaidOver(before, defaults, init + [last])
    ensures MapSet(before + Missing(init, defaults), last) == before + Missing(init, defaults) + [last]
  {
    var sofar, over := before + Missing(init, defaults), init + [last];
    MissingMembers(init, defaults);
    ConcatDistinct(init, [last]);
    assert last in over;
    forall i | 0 <= i < |before|
      ensures before[i].path != last.path
      ensures if HasPath(over, before[i].path) then before[i] in over else before[i] == defaults[i]
    {
      assert defaults[i] in defaults;
      assert HasPath(over, before[i].path) <==> HasPath(init, before[i].path);
    }
    assert !HasPath(sofar, last.path);
    KeyMeansPath(sofar, last.path, paths);
    FreshKeyGoesLast(sofar, last);
  }

  // ----- Which leaves survive in the two lists -----

  lemma AppliedSurvivor(over: seq<Entry>, defaults: seq<Entry>, m: Path, a: Atom)
    requires m != [] && Plain(over) && PrefixFirst(over) && Plain(defaults) && PrefixFree(defaults)
    ensures var x := Missing(defaults, over);
            DecideAt(over + x, m) == Terminal(a) <==>
            if Touches(x, m) then exists e :: e in x && e.path == m && e.atom == a
            else (exists e :: e in over && e.path == m && e.atom == a) && forall e | e in over :: !(m < e.path)
  {
    var x := Missing(defaults, over);
    MissingMembers(defaults, over);
    DecideConcat(over, x, m);
    PrefixFreeIsFirst(x);
    PrefixFirstSurvivors(x, m, a);
    PrefixFirstSurvivors(over, m, a);
    if exists e :: e in x && e.path == m && e.atom == a {
      var e :| e in x && e.path == m && e.atom == a;
      assert forall f | f in x :: !(e.path < f.path);
    }
  }

  lemma PrefixFreeIsFirst(es: seq<Entry>)
    requires PrefixFree(es)
    ensures PrefixFirst(es)
  {
    forall i, j | 0 <= i < j < |es| ensures !(es[j].path < es[i].path)
    {
      assert es[i] in es && es[j] in es;
    }
  }

  lemma ProjectedSurvivor(over: seq<Entry>, defaults: seq<Entry>, laid: seq<Entry>, m: Path, a: Atom)
    requires m != [] && Plain(over) && PrefixFirst(over) && Plain(defaults) && PrefixFree(defaults)
    requires LaidOver(laid, defaults, over)
    ensures var y := Missing(over, defaults);
            DecideAt(laid + y, m) == Terminal(a) <==>
            if Touches(y, m) then (exists e :: e in y && e.path == m && e.atom == a) && forall e | e in y ::
              !(m < e.path)
            else exists e :: e in laid && e.path == m && e.atom == a
  {
    var y := Missing(over, defaults);
    MissingMembers(over, defaults);
    DecideConcat(laid, y, m);
    PrefixFirstSurvivors(y, m, a);
    LaidIsPrefixFree(laid, defaults, over);
    PrefixFirstSurvivors(laid, m, a);
    if exists e :: e in laid && e.path == m && e.atom == a {
      var e :| e in laid && e.path == m && e.atom == a;
      assert forall f | f in laid :: !(e.path < f.path);
    }
  }

  lemma LaidIsPrefixFree(laid: seq<Entry>, defaults: seq<Entry>, over: seq<Entry>)
    requires LaidOver(laid, defaults, over) && DistinctPaths(defaults) && PrefixFree(defaults)
    ensures PrefixFree(laid) && PrefixFirst(laid) && DistinctPaths(laid)
  {
    forall e, f | e in laid && f in laid ensures !(e.path < f.path)
    {
      var i, j :| 0 <= i < |laid| && 0 <= j < |laid| && laid[i] == e && laid[j] == f;
      assert defaults[i] in defaults && defaults[j] in defaults;
    }
    PrefixFreeIsFirst(laid);
  }

  /** The defaults in the form both operations see them: the leaves of one tree in some order. */
  ghost predicate ListsDefaults(listed: seq<Entry>, defaults: Json)
  {
    && Plain(listed) && PrefixFree(listed) && Within(listed, LeafPaths(defaults, []))
    && (forall p: Path, a: Atom :: At(defaults, p) == Terminal(a) <==> Entry(p, a, DefaultParams) in listed)
    && (forall p: Path :: HasPath(listed, p) <==> At(defaults, p).Terminal?)
    && (forall e | e in listed :: e.layer == DefaultParams)
  }

  lemma DefaultsAsPaths(defaults: Json, listed: seq<Entry>)
    requires defaults.Node? && IsFlattening(listed, defaults, [], DefaultParams)
    ensures ListsDefaults(listed, defaults)
  {
    forall e | e in listed ensures e.path != [] && At(defaults, e.path) == Terminal(e.atom)
    {
      assert e.path[0..] == e.path;
    }
    forall p: Path, a: Atom ensures At(defaults, p) == Terminal(a) <==> Entry(p, a, DefaultParams) in listed
    {
      assert [] + p == p;
      if Entry(p, a, DefaultParams) in listed { assert Entry(p, a, DefaultParams).path == p; }
    }
    forall p: Path ensures HasPath(listed, p) <==> At(defaults, p).Terminal?
    {
      if At(defaults, p).Terminal? { assert Entry(p, At(defaults, p).atom, DefaultParams) in listed; }
    }
    FlatteningIsPrefixFree(listed, defaults, [], DefaultParams);
  }

  lemma OnePerPath(es: seq<Entry>, e: Entry)
    requires DistinctPaths(es) && e in es
    ensures forall f | f in es && f.path == e.path :: f == e
  {
    var i :| 0 <= i < |es| && es[i] == e;
    forall f | f in es && f.path == e.path ensures f == e
    {
      var j :| 0 <= j < |es| && es[j] == f;
    }
  }

  /** The entry of the laid list at a path is the override if there is one, else the default. */
  lemma LaidEntry(over: seq<Entry>, listed: seq<Entry>, laid: seq<Entry>, m: Path)
    requires LaidOver(laid, listed, over)
    ensures forall e | e in laid && e.path == m ::
        HasPath(listed, m) && if HasPath(over, m) then e in over else e in listed
    ensures forall e | e in listed && e.path == m && !HasPath(over, m) :: e in laid
    ensures HasPath(listed, m) ==> HasPath(laid, m)
  {
    forall e | e in laid && e.path == m
      ensures HasPath(listed, m) && if HasPath(over, m) then e in over else e in listed
    {
      var i :| 0 <= i < |laid| && laid[i] == e;
      assert listed[i] in listed;
    }
    forall e | e in listed && e.path == m ensures HasPath(laid, m) && (!HasPath(over, m) ==> e in laid)
    {
      var i :| 0 <= i < |listed| && listed[i] == e;
      assert laid[i].path == m && laid[i] in laid;
    }
  }

  lemma NotBothLeaves(tree: Json, p: Path, q: Path)
    requires p < q && At(tree, p).Terminal?
    ensures !At(tree, q).Terminal?
  {
    if At(tree, q).Terminal? { PresentAbove(tree, p, q); }
  }

  // ----- The two bags, said without lists -----

  /** The validated bag holds `a` at `m`: an override nothing shadows, or a default that clashes with no override. */
  ghost predicate ValidatedHas(over: seq<Entry>, target: Json, m: Path, a: Atom)
  {
    if HasPath(over, m) then
      Files(over, m, a) &&
      if At(target, m).Terminal? then forall q | q in over && Comparable(q.path, m) :: q.path == m
      else forall r | r in over && m < r.path :: At(target, r.path).Terminal?
    else At(target, m) == Terminal(a) && ClashesWithNone(over, m)
  }

  /** The published bag holds `a` at `m`: a default not overridden, or an override no other leaf overwrites. */
  ghost predicate PublishedHas(over: seq<Entry>, live: Json, m: Path, a: Atom)
  {
    if HasPath(over, m) then
      && Files(over, m, a) && (forall r | r in over :: !(m < r.path))
      && (forall p: Path | At(live, p).Terminal? && !HasPath(over, p) :: !Comparable(p, m))
    else At(live, m) == Terminal(a)
  }

  /** An override comparable with a default leaf, other than at that leaf, is no default leaf itself. */
  lemma OthersAreAppended(over: seq<Entry>, target: Json, listed: seq<Entry>, m: Path)
    requires ListsDefaults(listed, target) && At(target, m).Terminal?
    ensures Touches(Missing(over, listed), m) <==> exists q :: q in over && Comparable(q.path, m) && q.path != m
    ensures !HasPath(Missing(over, listed), m)
  {
    MissingMembers(over, listed);
    forall q | q in over && Comparable(q.path, m) && q.path != m ensures q in Missing(over, listed)
    {
      if q.path < m { if At(target, q.path).Terminal? { NotBothLeaves(target, q.path, m); } }
      else { NotBothLeaves(target, m, q.path); }
    }
  }

  /** An override at a default leaf takes its place in the list. */
  lemma ValidatedInPlace(over: seq<Entry>, target: Json, listed: seq<Entry>, laid: seq<Entry>, m: Path, a: Atom)
    requires Plain(over) && PrefixFirst(over) && ListsDefaults(listed, target) && LaidOver(laid, listed, over)
    requires m != [] && HasPath(over, m) && At(target, m).Terminal?
    ensures DecideAt(laid + Missing(over, listed), m) == Terminal(a) <==> ValidatedHas(over, target, m, a)
  {
    ProjectedSurvivor(over, listed, laid, m, a);
    OthersAreAppended(over, target, listed, m);
    LaidEntry(over, listed, laid, m);
    var o :| o in over && o.path == m;
    OnePerPath(over, o);
  }

  /** Any other override is appended. */
  lemma ValidatedAppended(over: seq<Entry>, target: Json, listed: seq<Entry>, laid: seq<Entry>, m: Path, a: Atom)
    requires Plain(over) && PrefixFirst(over) && ListsDefaults(listed, target) && LaidOver(laid, listed, over)
    requires m != [] && HasPath(over, m) && !At(target, m).Terminal?
    ensures DecideAt(laid + Missing(over, listed), m) == Terminal(a) <==> ValidatedHas(over, target, m, a)
  {
    var y := Missing(over, listed);
    MissingMembers(over, listed);
    ProjectedSurvivor(over, listed, laid, m, a);
    var o :| o in over && o.path == m;
    assert o in y && Touches(y, m);
    assert Files(y, m, a) <==> Files(over, m, a);
  }

  lemma ValidatedDefault(over: seq<Entry>, target: Json, listed: seq<Entry>, laid: seq<Entry>, m: Path, a: Atom)
    requires Plain(over) && PrefixFirst(over) && ListsDefaults(listed, target) && LaidOver(laid, listed, over)
    requires m != [] && !HasPath(over, m)
    ensures DecideAt(laid + Missing(over, listed), m) == Terminal(a) <==> ValidatedHas(over, target, m, a)
  {
    var y := Missing(over, listed);
    MissingMembers(over, listed);
    ProjectedSurvivor(over, listed, laid, m, a);
    LaidEntry(over, listed, laid, m);
    assert !Files(y, m, a);
    if At(target, m).Terminal? {
      OthersAreAppended(over, target, listed, m);
      assert Touches(y, m) <==> !ClashesWithNone(over, m);
      if At(target, m) == Terminal(a) { assert Entry(m, a, DefaultParams) in laid; }
    }
  }

  lemma PublishedReading(over: seq<Entry>, live: Json, added: seq<Entry>, m: Path, a: Atom)
    requires Plain(over) && PrefixFirst(over) && ListsDefaults(added, live) && m != []
    ensures DecideAt(over + Missing(added, over), m) == Terminal(a) <==> PublishedHas(over, live, m, a)
  {
    var x := Missing(added, over);
    MissingMembers(added, over);
    AppliedSurvivor(over, added, m, a);
    if HasPath(over, m) {
      assert !Files(x, m, a);
      forall p: Path | At(live, p).Terminal? && !HasPath(over, p) ensures HasPath(x, p)
      {
        assert Entry(p, At(live, p).atom, DefaultParams) in x;
      }
    } else {
      assert !Files(over, m, a);
      if At(live, m) == Terminal(a) { assert Entry(m, a, DefaultParams) in x; }
      forall e | e in x && e.path == m && e.atom == a ensures At(live, m) == Terminal(a)
      {
        assert e == Entry(m, a, DefaultParams);
      }
    }
  }

  // ----- When the two bags hold the same -----

  ghost predicate SameHoldings(over: seq<Entry>, target: Json, live: Json)
  {
    forall m: Path, a: Atom :: ValidatedHas(over, target, m, a) <==> PublishedHas(over, live, m, a)
  }

  lemma MatchingBagsHoldTheSame(over: seq<Entry>, target: Json, live: Json)
    requires SwapMatches(over, target, live)
    ensures SameHoldings(over, target, live)
  {
    forall m: Path, a: Atom ensures ValidatedHas(over, target, m, a) <==> PublishedHas(over, live, m, a)
    {
      if HasPath(over, m) { MatchingOverride(over, target, live, m, a); }
    }
  }

  lemma MatchingOverride(over: seq<Entry>, target: Json, live: Json, m: Path, a: Atom)
    requires SwapMatches(over, target, live) && HasPath(over, m)
    ensures ValidatedHas(over, target, m, a) <==> PublishedHas(over, live, m, a)
  {
    var o :| o in over && o.path == m;
    forall p: Path | At(live, p).Terminal? && !HasPath(over, p) ensures !Comparable(p, m)
    {
      assert At(live, p) == Terminal(At(live, p).atom);
    }
    if At(target, m).Terminal? {
      assert HiddenWhenShadowed(over, m);
    } else {
      forall r | r in over && m < r.path && At(target, r.path).Terminal?
        ensures exists s :: s in over && m < s.path && !At(target, s.path).Terminal?
      {
        assert HasPath(over, r.path) && HiddenWhenShadowed(over, r.path);
        var s :| s in over && r.path < s.path;
        NotBothLeaves(target, r.path, s.path);
        assert m < s.path;
      }
    }
  }

  lemma SameHoldingsMatch(over: seq<Entry>, target: Json, live: Json)
    requires SameHoldings(over, target, live)
    ensures SwapMatches(over, target, live)
  {
    forall p: Path, a: Atom | !HasPath(over, p)
      ensures At(live, p) == Terminal(a) <==> At(target, p) == Terminal(a) && ClashesWithNone(over, p)
    {
      assert ValidatedHas(over, target, p, a) <==> PublishedHas(over, live, p, a);
    }
    forall p: Path | At(target, p).Terminal? && HasPath(over, p) ensures HiddenWhenShadowed(over, p)
    {
      var o :| o in over && o.path == p;
      assert ValidatedHas(over, target, p, o.atom) <==> PublishedHas(over, live, p, o.atom);
      forall q: Path | At(live, q).Terminal? && !HasPath(over, q) ensures !Comparable(q, p)
      {
        assert At(live, q) == Terminal(At(live, q).atom);
      }
    }
  }

  lemma FiledAsListed(defaults: Json, listed: seq<Entry>)
    requires ListsDefaults(listed, defaults) && KeysDiffer(LeafPaths(defaults, []))
    ensures MapSetAll([], listed) == listed
  {
    PathsApartKeysApart(listed, LeafPaths(defaults, []));
    assert [] + listed == listed;
    FreshKeysGoLast([], listed);
  }

  lemma DefaultsAndOverridesWithin(over: seq<Entry>, defaults: Json, listed: seq<Entry>)
    requires ListsDefaults(listed, defaults)
    ensures var paths := PathsOf(over) + LeafPaths(defaults, []);
            Within(listed + over, paths) && Within(over + listed, paths)
  {
  }

  /** The projection as the laid defaults followed by the other overrides. */
  lemma ProjectedList(over: seq<Entry>, target: Json, listed: seq<Entry>) returns (laid: seq<Entry>)
    requires Plain(over) && target.Node? && IsFlattening(listed, target, [], DefaultParams)
    requires KeysDiffer(PathsOf(over) + LeafPaths(target, []))
    ensures MapSetAll(MapSetAll([], listed), over) == laid + Missing(over, listed)
    ensures ListsDefaults(listed, target) && LaidOver(laid, listed, over) && ProperPaths(laid + Missing(over, listed))
  {
    var paths := PathsOf(over) + LeafPaths(target, []);
    DefaultsAsPaths(target, listed);
    FiledAsListed(target, listed);
    DefaultsAndOverridesWithin(over, target, listed);
    laid := MapSetAllByPath(listed, over, paths);
    LaidIsWithin(laid, listed, over, paths);
  }

  ghost predicate HoldsValidated(leaves: seq<Entry>, over: seq<Entry>, target: Json)
  {
    forall m: Path, a: Atom | m != [] :: DecideAt(leaves, m) == Terminal(a) <==> ValidatedHas(over, target, m, a)
  }

  lemma ValidatedReadings(over: seq<Entry>, target: Json, listed: seq<Entry>, laid: seq<Entry>)
    requires Plain(over) && PrefixFirst(over) && ListsDefaults(listed, target) && LaidOver(laid, listed, over)
    ensures HoldsValidated(laid + Missing(over, listed), over, target)
  {
    forall m: Path, a: Atom | m != []
      ensures DecideAt(laid + Missing(over, listed), m) == Terminal(a) <==> ValidatedHas(over, target, m, a)
    {
      if !HasPath(over, m) { ValidatedDefault(over, target, listed, laid, m, a); }
      else if At(target, m).Terminal? { ValidatedInPlace(over, target, listed, laid, m, a); }
      else { ValidatedAppended(over, target, listed, laid, m, a); }
    }
  }

  /** The store after adding the defaults, as the overrides followed by the defaults at other paths. */
  lemma AppliedList(over: seq<Entry>, live: Json, added: seq<Entry>)
    requires Plain(over) && live.Node? && IsFlattening(added, live, [], DefaultParams)
    requires KeysDiffer(PathsOf(over) + LeafPaths(live, []))
    ensures AddMissing(over, MapSetAll([], added)) == over + Missing(added, over)
    ensures ListsDefaults(added, live) && ProperPaths(over + Missing(added, over))
  {
    var paths := PathsOf(over) + LeafPaths(live, []);
    DefaultsAsPaths(live, added);
    FiledAsListed(live, added);
    DefaultsAndOverridesWithin(over, live, added);
    AddMissingByPath(over, added, paths);
    WithMissingIsPlain(over, added);
  }

  ghost predicate HoldsPublished(leaves: seq<Entry>, over: seq<Entry>, live: Json)
  {
    forall m: Path, a: Atom | m != [] :: DecideAt(leaves, m) == Terminal(a) <==> PublishedHas(over, live, m, a)
  }

  lemma PublishedReadings(over: seq<Entry>, live: Json, added: seq<Entry>)
    requires Plain(over) && PrefixFirst(over) && ListsDefaults(added, live)
    ensures HoldsPublished(over + Missing(added, over), over, live)
  {
    forall m: Path, a: Atom | m != []
      ensures DecideAt(over + Missing(added, over), m) == Terminal(a) <==> PublishedHas(over, live, m, a)
    {
      PublishedReading(over, live, added, m, a);
    }
  }

  lemma RootHoldsNothing(over: seq<Entry>, target: Json, live: Json, leaves: seq<Entry>, a: Atom)
    requires ProperPaths(over) && ProperPaths(leaves) && target.Node? && live.Node?
    ensures !ValidatedHas(over, target, [], a) && !PublishedHas(over, live, [], a)
        && DecideAt(leaves, []) != Terminal(a)
  {
    TreeReadings(leaves, []);
    TreesHaveNoEmptyObjects(leaves);
    assert !HasPath(over, []);
  }

  lemma SameBagsHoldTheSame(validated: seq<Entry>, published: seq<Entry>, over: seq<Entry>, target: Json, live: Json)
    requires ProperPaths(over) && target.Node? && live.Node? && ProperPaths(validated) && ProperPaths(published)
    requires HoldsValidated(validated, over, target) && HoldsPublished(published, over, live)
    ensures TreeOf(validated) == TreeOf(published) <==> SameHoldings(over, target, live)
  {
    SameSurvivorsSameTree(validated, published);
    forall a: Atom
      ensures !ValidatedHas(over, target, [], a) && !PublishedHas(over, live, [], a)
      ensures DecideAt(validated, []) != Terminal(a) && DecideAt(published, []) != Terminal(a)
    {
      RootHoldsNothing(over, target, live, validated, a);
      RootHoldsNothing(over, target, live, published, a);
    }
    if SameSurvivors(validated, published) {
      forall m: Path, a: Atom ensures ValidatedHas(over, target, m, a) <==> PublishedHas(over, live, m, a)
      {
        assert DecideAt(validated, m) == Terminal(a) <==> DecideAt(published, m) == Terminal(a);
      }
    }
    if SameHoldings(over, target, live) {
      forall m: Path, a: Atom ensures DecideAt(validated, m) == Terminal(a) <==> DecideAt(published, m) == Terminal(a)
      {
        assert ValidatedHas(over, target, m, a) <==> PublishedHas(over, live, m, a);
      }
    }
  }

  /**
   A swap that validates the defaults `target` and publishes the defaults `live` publishes exactly
   the bag it validated if and only if `SwapMatches` holds, in whatever orders the two operations
   list the fields, unless two paths share a key.
   */
  lemma SwapPublishesWhatItValidated(es: seq<Entry>, target: Json, live: Json, listed: seq<Entry>, added: seq<Entry>)
    requires Sound(es) && target.Node? && live.Node?
    requires IsFlattening(listed, target, [], DefaultParams) && IsFlattening(added, live, [], DefaultParams)
    requires KeysDiffer(PathsOf(Overrides(es)) + LeafPaths(target, []))
    requires KeysDiffer(PathsOf(Overrides(es)) + LeafPaths(live, []))
    ensures TreeOf(Projected(es, MapSetAll([], listed))) == TreeOf(Applied(es, MapSetAll([], added)))
            <==> SwapMatches(Overrides(es), target, live)
  {
    var over := Overrides(es);
    OverridesArePlain(es);
    var laid := ProjectedList(over, target, listed);
    ValidatedReadings(over, target, listed, laid);
    AppliedList(over, live, added);
    PublishedReadings(over, live, added);
    SameBagsHoldTheSame(Projected(es, MapSetAll([], listed)), Applied(es, MapSetAll([], added)), over, target, live);
    if SwapMatches(over, target, live) { MatchingBagsHoldTheSame(over, target, live); }
    if SameHoldings(over, target, live) { SameHoldingsMatch(over, target, live); }
  }

  lemma OverridesArePlain(es: seq<Entry>)
    requires Sound(es)
    ensures Plain(Overrides(es)) && PrefixFirst(Overrides(es))
  {
    OverridesOf(es);
    OverridesKeysApart(es);
    KeysApartPathsApart(Overrides(es));
  }

  /** Replacing the defaults changes no runtime override: not its value, its layer or its position among them. */
  lemma {:induction false} DefaultsKeepOverrides(es: seq<Entry>, defaults: seq<Entry>)
    requires forall e | e in defaults :: e.layer.DefaultParams?
    ensures Overrides(AddMissing(es, defaults)) == Overrides(es)
  {
    if defaults != [] {
      var init, last := defaults[..|defaults| - 1], defaults[|defaults| - 1];
      DefaultsKeepOverrides(es, init);
      var sofar := AddMissing(es, init);
      if !HasKey(sofar, PathKey(last.path)) {
        FreshKeyGoesLast(sofar, last);
        OverridesConcat(sofar, [last]);
        OverridesOf([last]);
        assert last in defaults;
      }
    }
  }

  lemma {:induction false} AddMissingKeepsKeysApart(es: seq<Entry>, defaults: seq<Entry>)
    requires DistinctKeys(es)
    ensures DistinctKeys(AddMissing(es, defaults))
    ensures forall e | e in AddMissing(es, defaults) :: e in es || e in defaults
  {
    if defaults != [] {
      var init, last := defaults[..|defaults| - 1], defaults[|defaults| - 1];
      AddMissingKeepsKeysApart(es, init);
      SetKeepsKeysApart(AddMissing(es, init), last);
      SetMember(AddMissing(es, init), last);
      assert last in defaults && forall e | e in init :: e in defaults;
    }
  }

  /** Replacing the defaults changes no override, whatever the store and the defaults. */
  lemma AppliedKeepsOverrides(es: seq<Entry>, defaults: Json, added: seq<Entry>)
    requires IsFlattening(added, defaults, [], DefaultParams)
    ensures Overrides(Applied(es, MapSetAll([], added))) == Overrides(es)
  {
    SetMembers([], added);
    OverridesTwice(es);
    DefaultsKeepOverrides(Overrides(es), MapSetAll([], added));
  }

  /** Replacing the defaults keeps the store sound, whatever the defaults. */
  lemma AppliedIsSound(es: seq<Entry>, defaults: Json, added: seq<Entry>)
    requires Sound(es) && defaults.Node? && IsFlattening(added, defaults, [], DefaultParams)
    ensures Sound(Applied(es, MapSetAll([], added)))
  {
    DefaultsAsPaths(defaults, added);
    SetMembers([], added);
    OverridesOf(es);
    OverridesKeysApart(es);
    AddMissingKeepsKeysApart(Overrides(es), MapSetAll([], added));
    AppliedKeepsOverrides(es, defaults, added);
  }

  /** One write to an empty store, and new defaults on a path above it, that are validated away but published. */
  lemma UnsafeSwapWitness()
    ensures var over := [Entry(["a", "b"], Number(2.0), ParamsCommand)];
            var defaults := Node(map["a" := Leaf(Number(1.0))]);
            && Wrote([], ["a", "b"], Leaf(Number(2.0)), ParamsCommand, over) && Overrides(over) == over
            && !SwapSafe(over, defaults)
  {
    var o := Entry(["a", "b"], Number(2.0), ParamsCommand);
    OneWriteToEmpty(o);
    OverridesOf([o]);
    DefaultAboveIsUnsafe(o, Number(1.0));
  }

  lemma ListsTwoFields(listed: seq<Entry>, d: Entry, e: Entry)
    requires |d.path| == |e.path| == 1 && d.path[0] != e.path[0] && d.layer == e.layer
    requires listed == [d, e] || listed == [e, d]
    ensures IsFlattening(listed, Node(map[d.path[0] := Leaf(d.atom), e.path[0] := Leaf(e.atom)]), [], d.layer)
  {
    var tree := Node(map[d.path[0] := Leaf(d.atom), e.path[0] := Leaf(e.atom)]);
    assert d.path[1..] == [] && e.path[1..] == [] && d.path[0..] == d.path && e.path[0..] == e.path;
    forall s: Path, a: Atom | At(tree, s) == Terminal(a) ensures Entry([] + s, a, d.layer) in listed
    {
      assert s != [] && At(tree.fields[s[0]], s[1..]) == Terminal(a);
      assert s == [s[0]] && [] + s == s;
      assert s == d.path || s == e.path;
    }
  }

  /**
   When a default shares its key with an override at another path, the order in which the defaults' fields are listed
   decides which bag is validated.
   */
  lemma SharedKeyWitness()
    ensures var o, d, e := Entry(["a", "b"], Number(2.0), Launch), Entry(["a b"], Number(1.0), DefaultParams),
                           Entry(["a"], Number(5.0), DefaultParams);
            var defaults := Node(map["a b" := Leaf(Number(1.0)), "a" := Leaf(Number(5.0))]);
            && IsFlattening([d, e], defaults, [], DefaultParams) && IsFlattening([e, d], defaults, [], DefaultParams)
            && TreeOf(Projected([o], MapSetAll([], [d, e]))) != TreeOf(Projected([o], MapSetAll([], [e, d])))
  {
    var o, d, e := Entry(["a", "b"], Number(2.0), Launch), Entry(["a b"], Number(1.0), DefaultParams),
                   Entry(["a"], Number(5.0), DefaultParams);
    assert |"a b"| != |"a"|;
    ListsTwoFields([d, e], d, e);
    ListsTwoFields([e, d], d, e);
    SeparatorInSegmentCollides();
    ReplacedInPlace(o, d, e);
    TreeReadings([o, e], ["a"]);
    TreeReadings([e, o], ["a"]);
    assert ["a"] < ["a", "b"];
  }

  lemma ReplacedInPlace(o: Entry, d: Entry, e: Entry)
    requires !o.layer.DefaultParams? && PathKey(o.path) == PathKey(d.path) != PathKey(e.path)
    ensures Projected([o], MapSetAll([], [d, e])) == [o, e] && Projected([o], MapSetAll([], [e, d])) == [e, o]
  {
    OverridesOf([o]);
    TwoKeysFiled(d, e);
    TwoKeysFiled(e, d);
    SetOne([d, e], o);
    SetOne([e, d], o);
    assert [d, e][1..] == [e] && [e, d][1..] == [d] && [d][1..] == [];
  }

  lemma TwoKeysFiled(d: Entry, e: Entry)
    requires PathKey(d.path) != PathKey(e.path)
    ensures MapSetAll([], [d, e]) == [d, e]
  {
    assert [d, e][..1] == [d] && [d][1..] == [];
    SetOne([], d);
    assert MapSet([d], e) == [d] + MapSet([], e);
  }

  lemma SetOne(es: seq<Entry>, o: Entry)
    ensures MapSetAll(es, [o]) == MapSet(es, o)
  {
    assert [o][..0] == [] && MapSetAll(es, [o][..0]) == es;
  }

  lemma DefaultAboveIsUnsafe(o: Entry, a: Atom)
    requires |o.path| > 1
    ensures !SwapSafe([o], Node(map[o.path[0] := Leaf(a)]))
  {
    OneFieldLeaf(Node(map[o.path[0] := Leaf(a)]), o.path[0]);
    ClashIsUnsafe([o], Node(map[o.path[0] := Leaf(a)]), [o.path[0]], o);
  }

  lemma ClashIsUnsafe(over: seq<Entry>, defaults: Json, p: Path, q: Entry)
    requires At(defaults, p).Terminal? && !HasPath(over, p) && q in over && Comparable(p, q.path)
    ensures !SwapSafe(over, defaults)
  {
  }

  lemma OneWriteToEmpty(o: Entry)
    requires o.path != []
    ensures Wrote([], o.path, Leaf(o.atom), o.layer, [o])
  {
    assert o.path + [] == o.path && o.path[|o.path|..] == [];
    forall s: Path, a: Atom | At(Leaf(o.atom), s) == Terminal(a) ensures Entry(o.path + s, a, o.layer) in [o]
    {
      assert s == [];
    }
    assert IsFlattening([o], Leaf(o.atom), o.path, o.layer);
    assert MapSetAll([], [o][..0]) == [] && MapSetAll(WithoutKey([], PathKey(o.path)), [o]) == [o];
  }

  lemma OneFieldLeaf(tree: Json, field: string)
    requires tree.Node? && field in tree.fields && tree.fields[field].Leaf?
    ensures At(tree, [field]) == Terminal(tree.fields[field].atom)
  {
    assert [field][1..] == [];
  }
}
