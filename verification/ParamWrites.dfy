/**
 `/params` validates one bag and publishes another: it validates the bag obtained by writing
 each value into the current tree, then replays the writes on the flat leaf map. This module
 proves when the two bags are equal.
 */
module ParamWrites {
  import opened ParamPaths
  import opened ParamTree
  import opened ParamLeaves

  datatype Write = Write(path: Path, value: Json)

  /** The bag the command validates: all writes applied to the tree, in order. */
  function Project(bag: Json, ws: seq<Write>): Json
  {
    if ws == [] then bag
    else SetAt(Project(bag, ws[..|ws| - 1]), ws[|ws| - 1].path, ws[|ws| - 1].value)
  }

  predicate ProperWrites(ws: seq<Write>)
  {
    forall w | w in ws :: w.path != []
  }

  /** The path is filed already, written to, or that of a leaf written. */
  ghost predicate Plays(es: seq<Entry>, ws: seq<Write>, p: Path)
  {
    p in PathsOf(es) || exists w :: w in ws && (p == w.path || p in LeafPaths(w.value, w.path))
  }

  /** The paths a store and some writes to it bring together. */
  ghost function InPlay(es: seq<Entry>, ws: seq<Write>): iset<Path>
  {
    iset p: Path | Plays(es, ws, p)
  }

  /** A run of the flat store: one state before each write and one at the end. */
  ghost predicate WriteRun(states: seq<seq<Entry>>, ws: seq<Write>, layer: Layer)
  {
    && |states| == |ws| + 1
    && forall i | 0 <= i < |ws| :: Wrote(states[i], ws[i].path, ws[i].value, layer, states[i + 1])
  }

  // ----- The invariant between the leaf list and the projected tree -----

  /** There is a leaf at `m` and no later leaf stands on a strict prefix of `m`. */
  predicate Uncapped(es: seq<Entry>, m: Path)
  {
    es != [] &&
    var last := es[|es| - 1];
    last.path == m || (!(last.path < m) && Uncapped(es[..|es| - 1], m))
  }

  /**
   Every leaf of the tree that is still filed survives in the list, and every uncapped leaf of the list has a place in
   the tree.
   */
  ghost predicate Tracks(es: seq<Entry>, bag: Json)
  {
    && bag.Node?
    && (forall m: Path | At(bag, m).Terminal? && m in PathsOf(es) :: DecideAt(es, m) == At(bag, m))
    && (forall m: Path | Uncapped(es, m) :: At(bag, m) != Absent)
  }

  lemma {:induction false} UncappedOrDecided(es: seq<Entry>, m: Path)
    ensures Uncapped(es, m) ==> DecideAt(es, m) != Absent
    ensures DecideAt(es, m).Terminal? ==> Uncapped(es, m)
  {
    if es != [] { UncappedOrDecided(es[..|es| - 1], m); }
  }

  lemma {:induction false} UncappedMember(es: seq<Entry>, m: Path)
    requires Uncapped(es, m)
    ensures exists e :: e in es && e.path == m
  {
    var init, last := es[..|es| - 1], es[|es| - 1];
    assert es == init + [last];
    assert last in es;
    if last.path != m { UncappedMember(init, m); }
  }

  lemma {:induction false} UncappedConcat(es: seq<Entry>, fs: seq<Entry>, m: Path)
    requires Uncapped(es + fs, m)
    ensures Uncapped(es, m) || Uncapped(fs, m)
  {
    if fs == [] {
      assert es + fs == es;
    } else {
      var init, last := fs[..|fs| - 1], fs[|fs| - 1];
      assert (es + fs)[..|es + fs| - 1] == es + init;
      if last.path != m { UncappedConcat(es, init, m); }
    }
  }

  lemma DecideLast(es: seq<Entry>, last: Entry, m: Path)
    ensures DecideAt(es + [last], m) ==
            if m < last.path then Inner
            else if m == last.path then Terminal(last.atom)
            else if last.path < m then Absent
            else DecideAt(es, m)
  {
    assert (es + [last])[..|es + [last]| - 1] == es;
  }

  lemma TracksItself(es: seq<Entry>)
    requires ProperPaths(es)
    ensures Tracks(es, TreeOf(es))
  {
    forall m: Path ensures At(TreeOf(es), m) == DecideAt(es, m)
    {
      TreeReadings(es, m);
    }
    forall m: Path | Uncapped(es, m) ensures At(TreeOf(es), m) != Absent
    {
      UncappedOrDecided(es, m);
    }
    TreesHaveNoEmptyObjects(es);
  }

  lemma UncappedLast(es: seq<Entry>, last: Entry, m: Path)
    ensures Uncapped(es + [last], m) <==> last.path == m || (!(last.path < m) && Uncapped(es, m))
  {
    assert (es + [last])[..|es|] == es;
  }

  /** Deleting by key uncovers nothing: what hides a leaf is deleted only with it. */
  lemma {:induction false} UncappedKept(es: seq<Entry>, path: Path, m: Path)
    requires path != [] && ProperPaths(es) && Uncapped(WithoutKey(es, PathKey(path)), m)
    ensures Uncapped(es, m) && !Deletes(path, m)
  {
    var init, last := es[..|es| - 1], es[|es| - 1];
    assert es == init + [last];
    KeptOneMore(init, last, path);
    UncappedLast(init, last, m);
    if Deletes(path, last.path) {
      UncappedKept(init, path, m);
      ResplitKeepsPrefixes(last.path, m);
    } else {
      UncappedLast(WithoutKey(init, PathKey(path)), last, m);
      if last.path != m { UncappedKept(init, path, m); }
    }
  }

  /** A leaf that is kept decides as before. */
  lemma {:induction false} KeptDecides(es: seq<Entry>, path: Path, m: Path)
    requires path != [] && ProperPaths(es) && m != [] && !Deletes(path, m) && DecideAt(es, m).Terminal?
    ensures DecideAt(WithoutKey(es, PathKey(path)), m) == DecideAt(es, m)
  {
    if es != [] {
      var init, last := es[..|es| - 1], es[|es| - 1];
      assert es == init + [last];
      KeptOneMore(init, last, path);
      DecideLast(init, last, m);
      if last.path == m {
        DecideLast(WithoutKey(init, PathKey(path)), last, m);
      } else {
        KeptDecides(init, path, m);
        if !Deletes(path, last.path) { DecideLast(WithoutKey(init, PathKey(path)), last, m); }
      }
    }
  }

  lemma WrittenReadings(bag: Json, w: Write)
    ensures forall m: Path :: At(SetAt(bag, w.path, w.value), m) == if m < w.path then Inner
                                                                    else if w.path <= m then At(w.value, m[|w.path|..])
                                                                    else At(bag, m)
  {
    forall m: Path ensures At(SetAt(bag, w.path, w.value), m) == if m < w.path then Inner
                                                                 else if w.path <= m then At(w.value, m[|w.path|..])
                                                                 else At(bag, m)
    {
      AtSetAt(bag, w.path, w.value, m);
    }
  }

  lemma TracksThroughWrite(es: seq<Entry>, bag: Json, w: Write, layer: Layer, added: seq<Entry>)
    requires ProperPaths(es) && Tracks(es, bag) && w.path != []
    requires IsFlattening(added, w.value, w.path, layer)
    ensures Tracks(WithoutKey(es, PathKey(w.path)) + MapSetAll([], added), SetAt(bag, w.path, w.value))
  {
    var kept, filed, bag' := WithoutKey(es, PathKey(w.path)), MapSetAll([], added), SetAt(bag, w.path, w.value);
    WrittenReadings(bag, w);
    WriteByPath(es, w.path, w.value, layer, added);
    forall m: Path | At(bag', m).Terminal? && m in PathsOf(kept + filed)
      ensures DecideAt(kept + filed, m) == At(bag', m)
    {
      LeafSurvivesWrite(es, bag, w, layer, added, m);
    }
    forall m: Path | Uncapped(kept + filed, m) ensures At(bag', m) != Absent
    {
      UncappedConcat(kept, filed, m);
      if Uncapped(filed, m) {
        UncappedMember(filed, m);
      } else {
        UncappedKept(es, w.path, m);
        ResplitKeepsPrefixes(w.path, m);
      }
    }
  }

  lemma LeafSurvivesWrite(es: seq<Entry>, bag: Json, w: Write, layer: Layer, added: seq<Entry>, m: Path)
    requires ProperPaths(es) && Tracks(es, bag) && w.path != [] && IsFlattening(added, w.value, w.path, layer)
    requires At(SetAt(bag, w.path, w.value), m).Terminal?
    requires m in PathsOf(WithoutKey(es, PathKey(w.path)) + MapSetAll([], added))
    ensures DecideAt(WithoutKey(es, PathKey(w.path)) + MapSetAll([], added), m) == At(SetAt(bag, w.path, w.value), m)
  {
    var kept, filed := WithoutKey(es, PathKey(w.path)), MapSetAll([], added);
    AtSetAt(bag, w.path, w.value, m);
    AtSetAt(bag, w.path, w.value, []);
    WriteByPath(es, w.path, w.value, layer, added);
    ResplitKeepsPrefixes(w.path, m);
    DecideConcat(kept, filed, m);
    var e: Entry :| e in kept + filed && e.path == m;
    if w.path <= m {
      assert e in filed;
      FiledLeafDecides(w, layer, added, e);
    } else {
      assert e in kept && e in es;
      KeptDecides(es, w.path, m);
      forall f | f in filed ensures !Comparable(f.path, m)
      {
        PrefixesOfOnePath(m, w.path, f.path);
      }
    }
  }

  lemma FiledLeafDecides(w: Write, layer: Layer, added: seq<Entry>, e: Entry)
    requires w.path != [] && IsFlattening(added, w.value, w.path, layer) && e in MapSetAll([], added)
    ensures var filed := MapSetAll([], added);
            && w.path <= e.path && DecideAt(filed, e.path) == Terminal(e.atom) && Touches(filed, e.path)
            && At(w.value, e.path[|w.path|..]) == Terminal(e.atom)
  {
    var filed := MapSetAll([], added);
    FiledInOrder(w.value, w.path, layer, added);
    FlatteningIsPrefixFree(added, w.value, w.path, layer);
    SetAllKeepsKeysApart([], added);
    KeysApartPathsApart(filed);
    PrefixFirstSurvivors(filed, e.path, e.atom);
  }

  /** The writes have lost a leaf at `m`: since it was last written, one of them has deleted it from elsewhere. */
  predicate Lost(ws: seq<Write>, m: Path)
  {
    ws != [] &&
    var last := ws[|ws| - 1];
    !(last.path <= m) && (Deletes(last.path, m) || Lost(ws[..|ws| - 1], m))
  }

  /** Another leaf of the value has the key of its leaf at `m`, so the order of the fields decides which is filed. */
  ghost predicate Mixed(w: Write, m: Path)
  {
    exists p :: p in LeafPaths(w.value, w.path) && p != m && Resplit(p) == Resplit(m)
  }

  /** A leaf at `m` has been lost, or perhaps not filed when it was last written. */
  ghost predicate MayMiss(ws: seq<Write>, m: Path)
  {
    ws != [] &&
    var last := ws[|ws| - 1];
    if last.path <= m then Mixed(last, m) else Deletes(last.path, m) || MayMiss(ws[..|ws| - 1], m)
  }

  /** No leaf of the bag has been lost. */
  ghost predicate NothingLost(bag: Json, ws: seq<Write>)
  {
    forall m: Path | At(bag, m).Terminal? :: !Lost(ws, m)
  }

  /** Every value has its leaves under different keys. */
  ghost predicate KeysApartInValues(ws: seq<Write>)
  {
    forall w | w in ws :: OneLeafPerKey(w.path, w.value)
  }

  /** All leaves of the tree are filed. */
  ghost predicate AllFiled(es: seq<Entry>, bag: Json)
  {
    forall m: Path | At(bag, m).Terminal? :: m in PathsOf(es)
  }

  /** A tracked tree is the bag of the list exactly when it has no empty objects and all its leaves are filed. */
  lemma TrackedTreeIsBag(es: seq<Entry>, bag: Json)
    requires ProperPaths(es) && Tracks(es, bag)
    ensures TreeOf(es) == bag <==> NoEmptyObjects(bag) && AllFiled(es, bag)
  {
    TreesHaveNoEmptyObjects(es);
    if TreeOf(es) == bag {
      forall m: Path | At(bag, m).Terminal? ensures m in PathsOf(es)
      {
        TreeReadings(es, m);
        TouchedOrNot(es, m);
      }
    } else if NoEmptyObjects(bag) && AllFiled(es, bag) {
      forall m: Path ensures At(TreeOf(es), m) == At(bag, m)
      {
        TreeReadings(es, m);
        if m != [] { TrackedReading(es, bag, m); }
      }
      SameReadingsSameTree(TreeOf(es), bag);
    }
  }

  lemma TrackedReading(es: seq<Entry>, bag: Json, m: Path)
    requires ProperPaths(es) && Tracks(es, bag) && NoEmptyObjects(bag) && AllFiled(es, bag) && m != []
    ensures DecideAt(es, m) == At(bag, m)
  {
    TreeReadings(es, m);
    match At(bag, m)
    case Terminal(_) =>
    case Inner =>
      var below := LeafBelow(bag, m);
      TreeReadings(es, below);
      PresentAbove(TreeOf(es), m, below);
    case Absent =>
      UncappedOrDecided(es, m);
      if DecideAt(es, m) == Inner {
        var below := InnerHasSurvivor(es, m);
        UncappedOrDecided(es, below);
        PresentAbove(bag, m, below);
      }
  }

  lemma OneMoreWrite(states: seq<seq<Entry>>, ws: seq<Write>, layer: Layer, w: Write, after: seq<Entry>)
    requires WriteRun(states, ws, layer) && Wrote(states[|ws|], w.path, w.value, layer, after)
    ensures WriteRun(states + [after], ws + [w], layer)
  {
  }

  /** Every run keeps the store sound. */
  lemma {:induction false} RunsKeepSound(states: seq<seq<Entry>>, ws: seq<Write>, layer: Layer)
    requires |states| > 0 && Sound(states[0]) && ProperWrites(ws) && WriteRun(states, ws, layer)
        && !layer.DefaultParams?
    ensures Sound(states[|ws|])
  {
    if ws != [] {
      var n := |ws| - 1;
      assert ws[n] in ws;
      RunsKeepSound(states[..n + 1], ws[..n], layer);
      WriteKeepsSound(states[n], ws[n].path, ws[n].value, layer, states[n + 1]);
    }
  }

  /** The leaves of the tree that are filed are those that have not been lost. */
  ghost predicate FiledUnlessLost(es: seq<Entry>, bag: Json, ws: seq<Write>)
  {
    forall m: Path | At(bag, m).Terminal? ::
      && (m in PathsOf(es) ==> !Lost(ws, m))
      && (!MayMiss(ws, m) ==> m in PathsOf(es))
  }

  lemma FiledStaysUnlessLost(es: seq<Entry>, bag: Json, init: seq<Write>, w: Write, layer: Layer, added: seq<Entry>)
    requires ProperPaths(es) && w.path != [] && IsFlattening(added, w.value, w.path, layer)
    requires FiledUnlessLost(es, bag, init)
    ensures FiledUnlessLost(WithoutKey(es, PathKey(w.path)) + MapSetAll([], added), SetAt(bag, w.path, w.value),
                            init + [w])
  {
    var ws, after := init + [w], WithoutKey(es, PathKey(w.path)) + MapSetAll([], added);
    assert ws[..|init|] == init;
    forall m: Path | At(SetAt(bag, w.path, w.value), m).Terminal?
      ensures m in PathsOf(after) ==> !Lost(ws, m)
      ensures !MayMiss(ws, m) ==> m in PathsOf(after)
    {
      FiledThroughWrite(es, bag, w, layer, added, m);
    }
  }

  lemma AllFiledAtFirst(es: seq<Entry>)
    requires ProperPaths(es)
    ensures AllFiled(es, TreeOf(es))
  {
    TracksItself(es);
    TrackedTreeIsBag(es, TreeOf(es));
  }

  /** Which leaves of the written tree are filed after the write. */
  lemma FiledThroughWrite(es: seq<Entry>, bag: Json, w: Write, layer: Layer, added: seq<Entry>, m: Path)
    requires ProperPaths(es) && w.path != [] && IsFlattening(added, w.value, w.path, layer)
    requires At(SetAt(bag, w.path, w.value), m).Terminal?
    ensures var after := WithoutKey(es, PathKey(w.path)) + MapSetAll([], added);
            if w.path <= m then !Mixed(w, m) ==> m in PathsOf(after)
            else At(bag, m).Terminal? && (m in PathsOf(after) <==> m in PathsOf(es) && !Deletes(w.path, m))
  {
    var kept, filed := WithoutKey(es, PathKey(w.path)), MapSetAll([], added);
    AtSetAt(bag, w.path, w.value, m);
    WriteByPath(es, w.path, w.value, layer, added);
    if w.path <= m {
      assert m in LeafPaths(w.value, w.path);
      if !Mixed(w, m) { UnmixedIsFiled(w, layer, added, m); }
    } else if e :| e in es && e.path == m && e in kept {
      assert e in kept + filed;
    }
  }

  lemma {:induction false} RunTracks(states: seq<seq<Entry>>, ws: seq<Write>, layer: Layer)
    requires |states| > 0 && Sound(states[0]) && ProperWrites(ws) && WriteRun(states, ws, layer)
        && !layer.DefaultParams?
    ensures var projected := Project(TreeOf(states[0]), ws);
            Tracks(states[|ws|], projected) && FiledUnlessLost(states[|ws|], projected, ws)
  {
    if ws == [] {
      TracksItself(states[0]);
      AllFiledAtFirst(states[0]);
    } else {
      var n := |ws| - 1;
      var init, w := ws[..n], ws[n];
      var bag := Project(TreeOf(states[0]), init);
      assert ProperWrites(init) && w in ws;
      RunTracks(states[..n + 1], init, layer);
      RunsKeepSound(states[..n + 1], init, layer);
      assert Wrote(states[n], w.path, w.value, layer, states[n + 1]);
      var added :| IsFlattening(added, w.value, w.path, layer)
                   && states[n + 1] == MapSetAll(WithoutKey(states[n], PathKey(w.path)), added);
      WriteAppends(states[n], w.path, w.value, layer, added);
      TracksThroughWrite(states[n], bag, w, layer, added);
      FiledStaysUnlessLost(states[n], bag, init, w, layer, added);
      assert init + [w] == ws;
    }
  }

  lemma UnmixedIsFiled(w: Write, layer: Layer, added: seq<Entry>, m: Path)
    requires w.path != [] && IsFlattening(added, w.value, w.path, layer)
    requires m in LeafPaths(w.value, w.path) && !Mixed(w, m)
    ensures m in PathsOf(MapSetAll([], added))
  {
    AddedKeys(w.path, w.value, layer, added);
    var e := LeafListed(w.path, w.value, layer, added, m);
    forall f | f in added && f != e ensures PathKey(f.path) != PathKey(e.path)
    {
      KeysReflectResplitPaths(f.path, e.path);
      assert f.path in LeafPaths(w.value, w.path);
    }
    SetAllHolds([], added, e);
  }

  /** With the leaves of each value under different keys, only a leaf that has been lost is missing. */
  lemma {:induction false} MissingIsLost(ws: seq<Write>, m: Path)
    requires KeysApartInValues(ws) && exists bag :: At(Project(bag, ws), m).Terminal?
    ensures MayMiss(ws, m) ==> Lost(ws, m)
  {
    if ws != [] {
      var init, last := ws[..|ws| - 1], ws[|ws| - 1];
      assert last in ws && forall w | w in init :: w in ws;
      var bag :| At(Project(bag, ws), m).Terminal?;
      AtSetAt(Project(bag, init), last.path, last.value, m);
      if !(last.path <= m) { MissingIsLost(init, m); }
    }
  }

  /**
   The bag the store holds after the writes is the bag of the tree writes exactly when the latter has no empty object
   below its root and no leaf that has been lost. Each value must have its leaves under different keys: of two under
   one key, the order of the fields decides which is filed.
   */
  lemma WritesAgree(states: seq<seq<Entry>>, ws: seq<Write>, layer: Layer)
    requires |states| > 0 && Sound(states[0]) && ProperWrites(ws) && WriteRun(states, ws, layer)
        && !layer.DefaultParams?
    ensures Sound(states[|ws|])
    ensures var projected := Project(TreeOf(states[0]), ws);
            && (TreeOf(states[|ws|]) == projected ==> NoEmptyObjects(projected) && NothingLost(projected, ws))
            && (KeysApartInValues(ws) && NoEmptyObjects(projected) && NothingLost(projected, ws) ==>
                  TreeOf(states[|ws|]) == projected)
  {
    PublishedUnlessMissing(states, ws, layer);
    if KeysApartInValues(ws) {
      forall m: Path | At(Project(TreeOf(states[0]), ws), m).Terminal? ensures MayMiss(ws, m) ==> Lost(ws, m)
      {
        MissingIsLost(ws, m);
      }
    }
  }

  lemma PublishedUnlessMissing(states: seq<seq<Entry>>, ws: seq<Write>, layer: Layer)
    requires |states| > 0 && Sound(states[0]) && ProperWrites(ws) && WriteRun(states, ws, layer)
        && !layer.DefaultParams?
    ensures Sound(states[|ws|])
    ensures var projected := Project(TreeOf(states[0]), ws);
            && (TreeOf(states[|ws|]) == projected ==> NoEmptyObjects(projected) && NothingLost(projected, ws))
            && (NoEmptyObjects(projected) && (forall m: Path | At(projected, m).Terminal? :: !MayMiss(ws, m)) ==>
                  TreeOf(states[|ws|]) == projected)
  {
    RunTracks(states, ws, layer);
    RunsKeepSound(states, ws, layer);
    TrackedTreeIsBag(states[|ws|], Project(TreeOf(states[0]), ws));
  }

  /** For a single write the condition is exact with no hypothesis on the value. */
  lemma OneWriteAgrees(es: seq<Entry>, w: Write, layer: Layer, after: seq<Entry>)
    requires Sound(es) && w.path != [] && !layer.DefaultParams? && Wrote(es, w.path, w.value, layer, after)
    ensures var projected := SetAt(TreeOf(es), w.path, w.value);
            TreeOf(after) == projected <==>
              NoEmptyObjects(projected) && NothingLost(projected, [w]) && OneLeafPerKey(w.path, w.value)
  {
    var states, projected := [es, after], SetAt(TreeOf(es), w.path, w.value);
    assert [w][..0] == [] && Project(TreeOf(es), [w]) == projected;
    WritesAgree(states, [w], layer);
    if TreeOf(after) == projected {
      LeavesUnderDifferentKeys(es, w, layer, after);
    }
  }

  lemma LeavesUnderDifferentKeys(es: seq<Entry>, w: Write, layer: Layer, after: seq<Entry>)
    requires Sound(es) && w.path != [] && !layer.DefaultParams? && Wrote(es, w.path, w.value, layer, after)
    requires TreeOf(after) == SetAt(TreeOf(es), w.path, w.value)
    ensures OneLeafPerKey(w.path, w.value)
  {
    WriteKeepsSound(es, w.path, w.value, layer, after);
    AllFiledAtFirst(after);
    forall p, q | p in LeafPaths(w.value, w.path) && q in LeafPaths(w.value, w.path) && Resplit(p) == Resplit(q)
      ensures p == q
    {
      AtSetAt(TreeOf(es), w.path, w.value, p);
      AtSetAt(TreeOf(es), w.path, w.value, q);
      var e :| e in after && e.path == p;
      var f :| f in after && f.path == q;
      KeysReflectResplitPaths(p, q);
      var i :| 0 <= i < |after| && after[i] == e;
      var j :| 0 <= j < |after| && after[j] == f;
    }
  }

  lemma {:induction false} LeavesInPlay(es: seq<Entry>, ws: seq<Write>, m: Path)
    requires ProperPaths(es) && At(Project(TreeOf(es), ws), m).Terminal?
    ensures m in InPlay(es, ws)
  {
    if ws == [] {
      AllFiledAtFirst(es);
      assert Plays(es, ws, m);
    } else {
      var init, last := ws[..|ws| - 1], ws[|ws| - 1];
      AtSetAt(Project(TreeOf(es), init), last.path, last.value, m);
      assert last in ws && forall w | w in init :: w in ws;
      if !(last.path <= m) { LeavesInPlay(es, init, m); }
      assert Plays(es, ws, m);
    }
  }

  lemma {:induction false} ClearLosesNothing(ws: seq<Write>, paths: iset<Path>, m: Path)
    requires Clear(paths) && m in paths && forall w | w in ws :: w.path in paths
    ensures !Lost(ws, m)
  {
    if ws != [] {
      var last := ws[|ws| - 1];
      assert last in ws && forall w | w in ws[..|ws| - 1] :: w in ws;
      ClearLosesNothing(ws[..|ws| - 1], paths, m);
      assert !Confused(last.path, m);
      ResplitKeepsPrefixes(m, last.path);
    }
  }

  /** As long as no two paths in play are confused, nothing is lost and no value has two leaves under one key. */
  lemma ClearPathsAreSafe(es: seq<Entry>, ws: seq<Write>)
    requires ProperPaths(es) && Clear(InPlay(es, ws))
    ensures KeysApartInValues(ws) && NothingLost(Project(TreeOf(es), ws), ws)
  {
    var paths := InPlay(es, ws);
    ClearKeysDiffer(paths);
    forall w | w in ws ensures w.path in paths && LeafPaths(w.value, w.path) <= paths
    {
      forall p | p in LeafPaths(w.value, w.path) ensures p in paths { assert Plays(es, ws, p); }
      assert Plays(es, ws, w.path);
    }
    forall m: Path | At(Project(TreeOf(es), ws), m).Terminal? ensures !Lost(ws, m)
    {
      LeavesInPlay(es, ws, m);
      ClearLosesNothing(ws, paths, m);
    }
  }

  // ----- Shared objects: the tree writes also change the values still to be replayed -----

  predicate Attached(done: seq<Write>, i: nat)
    requires i < |done|
  {
    forall j | i < j < |done| :: !(done[j].path <= done[i].path)
  }

  /**
   The parsed values are inserted into the validated tree by reference, so a later write below
   a value still in place changes that value too.
   */
  function AfterWrite(done: seq<Write>, w: Write): seq<Write>
  {
    seq(|done|, i requires 0 <= i < |done| =>
      if done[i].path < w.path && done[i].value.Node? && Attached(done, i)
      then Write(done[i].path, SetAt(done[i].value, w.path[|done[i].path|..], w.value))
      else done[i]) + [w]
  }

  /** The values as they stand once every write has gone through the validated tree. */
  function Replayed(ws: seq<Write>): seq<Write>
  {
    if ws == [] then [] else AfterWrite(Replayed(ws[..|ws| - 1]), ws[|ws| - 1])
  }

  /** The trees differ at most at, above or below `path`, so writing at `path` makes them equal. */
  ghost predicate AgreeOff(s: Json, t: Json, path: Path)
  {
    forall m: Path | !Comparable(m, path) :: At(s, m) == At(t, m)
  }

  lemma OverwriteForgets(s: Json, t: Json, path: Path, value: Json)
    requires AgreeOff(s, t, path)
    ensures SetAt(s, path, value) == SetAt(t, path, value)
  {
    forall m: Path ensures At(SetAt(s, path, value), m) == At(SetAt(t, path, value), m)
    {
      AtSetAt(s, path, value, m);
      AtSetAt(t, path, value, m);
    }
    SameReadingsSameTree(SetAt(s, path, value), SetAt(t, path, value));
  }

  lemma AgreeThroughWrite(s: Json, t: Json, path: Path, u: Write, v: Write)
    requires AgreeOff(s, t, path)
    requires u.path == v.path
    requires u != v ==> u.path < path && exists x :: u.value == SetAt(v.value, path[|v.path|..], x)
    ensures AgreeOff(SetAt(s, u.path, u.value), SetAt(t, v.path, v.value), path)
  {
    forall m: Path | !Comparable(m, path)
      ensures At(SetAt(s, u.path, u.value), m) == At(SetAt(t, v.path, v.value), m)
    {
      AtSetAt(s, u.path, u.value, m);
      AtSetAt(t, v.path, v.value, m);
      if u != v && u.path <= m {
        var x :| u.value == SetAt(v.value, path[|v.path|..], x);
        var rest, below := path[|v.path|..], m[|v.path|..];
        assert path == v.path + rest && m == v.path + below;
        AtSetAt(v.value, rest, x, below);
      }
    }
  }

  lemma {:induction false} ProjectionsAgreeOff(bag: Json, done: seq<Write>, w: Write, k: nat)
    requires k <= |done|
    ensures AgreeOff(Project(bag, AfterWrite(done, w)[..k]), Project(bag, done[..k]), w.path)
  {
    if k > 0 {
      var us := AfterWrite(done, w);
      ProjectionsAgreeOff(bag, done, w, k - 1);
      assert us[..k][..k - 1] == us[..k - 1] && done[..k][..k - 1] == done[..k - 1];
      AgreeThroughWrite(Project(bag, us[..k - 1]), Project(bag, done[..k - 1]), w.path, us[k - 1], done[k - 1]);
    }
  }

  lemma ShareOneWrite(bag: Json, done: seq<Write>, w: Write)
    ensures Project(bag, AfterWrite(done, w)) == SetAt(Project(bag, done), w.path, w.value)
  {
    var us, n := AfterWrite(done, w), |done|;
    assert |us| == n + 1 && us[n] == w;
    ProjectionsAgreeOff(bag, done, w, n);
    assert done[..n] == done;
    OverwriteForgets(Project(bag, us[..n]), Project(bag, done), w.path, w.value);
  }

  lemma AfterWritePaths(done: seq<Write>, w: Write)
    ensures |AfterWrite(done, w)| == |done| + 1 && AfterWrite(done, w)[|done|] == w
    ensures forall i | 0 <= i < |done| :: AfterWrite(done, w)[i].path == done[i].path
  {
  }

  lemma {:induction false} ReplayedPaths(ws: seq<Write>)
    ensures |Replayed(ws)| == |ws| && forall i | 0 <= i < |ws| :: Replayed(ws)[i].path == ws[i].path
  {
    if ws != [] {
      var init, last := ws[..|ws| - 1], ws[|ws| - 1];
      ReplayedPaths(init);
      AfterWritePaths(Replayed(init), last);
    }
  }

  lemma ReplayedProper(ws: seq<Write>)
    requires ProperWrites(ws)
    ensures ProperWrites(Replayed(ws))
  {
    ReplayedPaths(ws);
    forall u | u in Replayed(ws) ensures u.path != []
    {
      var i :| 0 <= i < |Replayed(ws)| && Replayed(ws)[i] == u;
      assert ws[i] in ws;
    }
  }

  /** Replaying the changed values gives the tree the unchanged ones gave. */
  lemma {:induction false} SharingIsHarmless(bag: Json, ws: seq<Write>)
    ensures Project(bag, Replayed(ws)) == Project(bag, ws)
  {
    if ws != [] {
      var init, w := ws[..|ws| - 1], ws[|ws| - 1];
      SharingIsHarmless(bag, init);
      ShareOneWrite(bag, Replayed(init), w);
    }
  }

  lemma LeavesAfterSetAt(tree: Json, base: Path, path: Path, value: Json)
    requires base <= path
    ensures LeafPaths(SetAt(tree, path[|base|..], value), base) <= LeafPaths(tree, base) + LeafPaths(value, path)
  {
    var rest := path[|base|..];
    forall p | p in LeafPaths(SetAt(tree, rest, value), base)
        ensures p in LeafPaths(tree, base) + LeafPaths(value, path)
    {
      var s := p[|base|..];
      AtSetAt(tree, rest, value, s);
      if rest <= s {
        assert p == base + s && path == base + rest;
        assert path <= p && p[|path|..] == s[|rest|..];
      }
    }
  }

  /** A leaf that sharing has added to a value comes from a later write at or above it. */
  lemma {:induction false} ReplayedLeaves(ws: seq<Write>, j: nat, p: Path)
    requires j < |ws| && |Replayed(ws)| == |ws| && p in LeafPaths(Replayed(ws)[j].value, ws[j].path)
    ensures p in LeafPaths(ws[j].value, ws[j].path) || exists i :: j < i < |ws| && ws[i].path <= p
  {
    var n := |ws| - 1;
    var done, w := Replayed(ws[..n]), ws[n];
    ReplayedPaths(ws[..n]);
    if j < n {
      if Replayed(ws)[j] != done[j] { LeavesAfterSetAt(done[j].value, done[j].path, w.path, w.value); }
      if p in LeafPaths(done[j].value, ws[j].path) {
        ReplayedLeaves(ws[..n], j, p);
      } else {
        assert w.path <= p;
      }
    }
  }

  lemma {:induction false} LostSince(ws: seq<Write>, m: Path, i: nat)
    requires i < |ws| && Deletes(ws[i].path, m) && forall k | i <= k < |ws| :: !(ws[k].path <= m)
    ensures Lost(ws, m)
  {
    if i < |ws| - 1 { LostSince(ws[..|ws| - 1], m, i); }
  }

  /** The last write at or above `m`, if the leaf there may be missing though not lost, mixes its leaves. */
  lemma {:induction false} MissedAtLastWrite(ws: seq<Write>, m: Path) returns (j: nat)
    requires MayMiss(ws, m) && !Lost(ws, m)
    ensures j < |ws| && ws[j].path <= m && Mixed(ws[j], m) && forall k | j < k < |ws| :: !(ws[k].path <= m)
  {
    var n := |ws| - 1;
    if ws[n].path <= m {
      j := n;
    } else {
      j := MissedAtLastWrite(ws[..n], m);
    }
  }

  lemma {:induction false} LostByPaths(us: seq<Write>, ws: seq<Write>, m: Path)
    requires |us| == |ws| && forall i | 0 <= i < |ws| :: us[i].path == ws[i].path
    ensures Lost(us, m) == Lost(ws, m)
  {
    if ws != [] { LostByPaths(us[..|us| - 1], ws[..|ws| - 1], m); }
  }

  /** What the last write at or above a leaf of the tree put there is a leaf of its value. */
  lemma {:induction false} LeafOfLastWrite(bag: Json, ws: seq<Write>, m: Path, i: nat)
    requires i < |ws| && ws[i].path <= m && (forall k | i < k < |ws| :: !(ws[k].path <= m))
    requires At(Project(bag, ws), m).Terminal?
    ensures m in LeafPaths(ws[i].value, ws[i].path)
  {
    var n := |ws| - 1;
    AtSetAt(Project(bag, ws[..n]), ws[n].path, ws[n].value, m);
    if i < n { LeafOfLastWrite(bag, ws[..n], m, i); }
  }

  /**
   The `/params` command as it runs: the tree is validated with the parsed values, the store is then written with the
   values as the validation left them. What is published is what was validated exactly when the validated tree has no
   empty object and no leaf that has been lost; each parsed value must have its leaves under different keys.
   */
  lemma CommandPublishesWhatItValidated(states: seq<seq<Entry>>, ws: seq<Write>)
    requires |states| > 0 && Sound(states[0]) && ProperWrites(ws) && WriteRun(states, Replayed(ws), ParamsCommand)
    ensures Sound(states[|states| - 1])
    ensures var validated := Project(TreeOf(states[0]), ws);
            && (TreeOf(states[|states| - 1]) == validated ==> NoEmptyObjects(validated) && NothingLost(validated, ws))
            && (KeysApartInValues(ws) && NoEmptyObjects(validated) && NothingLost(validated, ws) ==>
                  TreeOf(states[|states| - 1]) == validated)
  {
    var us, validated := Replayed(ws), Project(TreeOf(states[0]), ws);
    ReplayedPaths(ws);
    SharingIsHarmless(TreeOf(states[0]), ws);
    ReplayedProper(ws);
    PublishedUnlessMissing(states, us, ParamsCommand);
    forall m: Path | At(validated, m).Terminal?
      ensures Lost(us, m) == Lost(ws, m) && (KeysApartInValues(ws) && !Lost(ws, m) ==> !MayMiss(us, m))
    {
      LostByPaths(us, ws, m);
      if KeysApartInValues(ws) && !Lost(ws, m) { SharedLeafIsFiled(TreeOf(states[0]), ws, m); }
    }
  }

  lemma SharedLeafIsFiled(bag: Json, ws: seq<Write>, m: Path)
    requires KeysApartInValues(ws) && !Lost(ws, m) && At(Project(bag, ws), m).Terminal?
    ensures !MayMiss(Replayed(ws), m)
  {
    var us := Replayed(ws);
    ReplayedPaths(ws);
    LostByPaths(us, ws, m);
    if MayMiss(us, m) {
      var j := MissedAtLastWrite(us, m);
      forall k | j < k < |ws| ensures !(ws[k].path <= m) { assert us[k].path == ws[k].path; }
      LeafOfLastWrite(bag, ws, m, j);
      MixedByLaterWrite(ws, m, j);
    }
  }

  /** A leaf mixed with another only once its value is shared is lost: the write that brought the other deletes it. */
  lemma MixedByLaterWrite(ws: seq<Write>, m: Path, j: nat)
    requires KeysApartInValues(ws) && j < |ws| == |Replayed(ws)| && Replayed(ws)[j].path == ws[j].path
    requires m in LeafPaths(ws[j].value, ws[j].path) && Mixed(Replayed(ws)[j], m)
    requires forall k | j < k < |ws| :: !(ws[k].path <= m)
    ensures Lost(ws, m)
  {
    var p :| p in LeafPaths(Replayed(ws)[j].value, ws[j].path) && p != m && Resplit(p) == Resplit(m);
    ReplayedLeaves(ws, j, p);
    assert ws[j] in ws && OneLeafPerKey(ws[j].path, ws[j].value);
    var i :| j < i < |ws| && ws[i].path <= p;
    ResplitKeepsPrefixes(ws[i].path, p);
    LostSince(ws, m, i);
  }

  /** When every written value is free of empty objects, so is the validated tree. */
  lemma {:induction false} FullValuesProjectFull(bag: Json, ws: seq<Write>)
    requires NoEmptyObjects(bag)
    requires forall w | w in ws :: w.path != [] && Full(w.value)
    ensures NoEmptyObjects(Project(bag, ws))
  {
    if ws != [] {
      var init, w := ws[..|ws| - 1], ws[|ws| - 1];
      FullValuesProjectFull(bag, init);
      assert w in ws;
      SetFullKeepsFull(Project(bag, init), w.path, w.value);
    }
  }

  /** One write that differs: an empty object replaces a leaf in the validated tree but not in the store. */
  lemma EmptyObjectWitness()
    ensures var before := [Entry(["a"], Number(1.0), DefaultParams)];
            var w := Write(["a", "b"], EMPTY_BAG);
            && Wrote(before, w.path, w.value, ParamsCommand, before)
            && Project(TreeOf(before), [w]) != TreeOf(before)
  {
    var before := [Entry(["a"], Number(1.0), DefaultParams)];
    var w := Write(["a", "b"], EMPTY_BAG);
    KeysReflectPaths(["a"], ["a", "b"]);
    assert WithoutKey(before[..0], PathKey(w.path)) == [];
    assert WithoutKey(before, PathKey(w.path)) == before;
    assert IsFlattening([], w.value, w.path, ParamsCommand);
    assert MapSetAll(before, []) == before;
    TreeReadings(before, ["a"]);
    assert [w][..0] == [];
    AtSetAt(TreeOf(before), w.path, w.value, ["a"]);
    assert ["a"] < w.path;
  }

  /** One pair of writes that differs over a confused path: the second deletes a leaf the tree keeps. */
  lemma ConfusedPathsWitness()
    ensures var es := [Entry(["a b"], Number(1.0), ParamsCommand)];
            var w := Write(["a"], Leaf(Number(2.0)));
            && Confused(["a b"], w.path) && NoEmptyObjects(Project(TreeOf(es), [w]))
            && exists after ::
                 Wrote(es, w.path, w.value, ParamsCommand, after) && TreeOf(after) != Project(TreeOf(es), [w])
  {
    var e := Entry(["a b"], Number(1.0), ParamsCommand);
    var es, w := [e], Write(["a"], Leaf(Number(2.0)));
    var leaf := Entry(["a"], Number(2.0), ParamsCommand);
    assert IsBelow(PathKey(["a"]), PathKey(["a b"])) by { assert "a" + [SEPARATOR] <= "a b"; }
    assert ["a"][0] != ["a b"][0];
    KeysReflectPaths(["a"], ["a b"]);
    assert WithoutKey(es[..0], PathKey(w.path)) == [] && WithoutKey(es, PathKey(w.path)) == [];
    assert w.path + [] == w.path && w.path[1..] == [];
    assert IsFlattening([leaf], w.value, w.path, ParamsCommand) by {
      forall s: Path, a: Atom | At(w.value, s) == Terminal(a) ensures Entry(w.path + s, a, ParamsCommand) in [leaf]
      {
        assert s == [];
      }
    }
    assert MapSetAll([], [leaf][..0]) == [] && MapSetAll([], [leaf]) == [leaf];
    assert Wrote(es, w.path, w.value, ParamsCommand, [leaf]);
    TreesHaveNoEmptyObjects(es);
    assert [w][..0] == [];
    FullValuesProjectFull(TreeOf(es), [w]);
    TreeReadings(es, ["a b"]);
    TreeReadings([leaf], ["a b"]);
    AtSetAt(TreeOf(es), w.path, w.value, ["a b"]);
    assert !(w.path <= ["a b"]) && !(["a b"] <= w.path);
    assert DecideAt([leaf][..0], ["a b"]) == Absent;
    assert Project(TreeOf(es), [w]) == SetAt(TreeOf(es), w.path, w.value);
    assert At(TreeOf([leaf]), ["a b"]) == Absent && At(Project(TreeOf(es), [w]), ["a b"]) == Terminal(Number(1.0));
  }
}
