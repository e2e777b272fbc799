/**
 The store's leaf map: an insertion-ordered map from string keys to leaves, and how a write
 changes it. The first half speaks of string keys, as the code does; `WriteByPath` says what
 that means for paths.
 */
module ParamLeaves {
  import opened ParamPaths
  import opened ParamTree

  /** The entries kept when everything at or below `key` is deleted. */
  function WithoutKey(es: seq<Entry>, key: string): seq<Entry>
  {
    if es == [] then []
    else
      var init, last := WithoutKey(es[..|es| - 1], key), es[|es| - 1];
      var k := PathKey(last.path);
      if k == key || IsBelow(key, k) then init else init + [last]
  }

  /** `Map.set`: an existing key keeps its position, a new one goes last. */
  function MapSet(es: seq<Entry>, e: Entry): seq<Entry>
  {
    if es == [] then [e]
    else if PathKey(es[0].path) == PathKey(e.path) then [e] + es[1..]
    else [es[0]] + MapSet(es[1..], e)
  }

  function MapSetAll(es: seq<Entry>, added: seq<Entry>): seq<Entry>
  {
    if added == [] then es
    else MapSet(MapSetAll(es, added[..|added| - 1]), added[|added| - 1])
  }

  predicate HasKey(es: seq<Entry>, key: string)
  {
    exists i :: 0 <= i < |es| && PathKey(es[i].path) == key
  }

  /** `after` is what writing `value` at `path` leaves of `before`, for some order of the value's fields. */
  ghost predicate Wrote(before: seq<Entry>, path: Path, value: Json, layer: Layer, after: seq<Entry>)
  {
    exists added :: IsFlattening(added, value, path, layer)
                    && after == MapSetAll(WithoutKey(before, PathKey(path)), added)
  }

  /** The paths at which a value filed under `base` has leaves. */
  ghost function LeafPaths(value: Json, base: Path): iset<Path>
  {
    iset p: Path | base <= p && At(value, p[|base|..]).Terminal?
  }

  ghost function PathsOf(es: seq<Entry>): iset<Path>
  {
    iset e | e in es :: e.path
  }

  ghost predicate Within(es: seq<Entry>, paths: iset<Path>)
  {
    forall e | e in es :: e.path in paths
  }

  predicate DistinctKeys(es: seq<Entry>)
  {
    forall i, j | 0 <= i < j < |es| :: PathKey(es[i].path) != PathKey(es[j].path)
  }

  /** Every runtime override, in store order. */
  function Overrides(es: seq<Entry>): seq<Entry>
  {
    if es == [] then []
    else
      var init, last := Overrides(es[..|es| - 1]), es[|es| - 1];
      if last.layer.DefaultParams? then init else init + [last]
  }

  /** What every store keeps: each key once, and an override that extends another's path after it. */
  ghost predicate Sound(es: seq<Entry>)
  {
    ProperPaths(es) && DistinctKeys(es) && PrefixFirst(Overrides(es))
  }

  lemma KeysApartPathsApart(es: seq<Entry>)
    requires DistinctKeys(es)
    ensures DistinctPaths(es)
  {
    forall i, j | 0 <= i < j < |es| ensures es[i].path != es[j].path
    {
      assert PathKey(es[i].path) != PathKey(es[j].path);
    }
  }

  /** Among paths without a common key, different paths are filed under different keys. */
  lemma PathsApartKeysApart(es: seq<Entry>, paths: iset<Path>)
    requires ProperPaths(es) && DistinctPaths(es) && Within(es, paths) && KeysDiffer(paths)
    ensures DistinctKeys(es)
  {
    forall i, j | 0 <= i < j < |es| ensures PathKey(es[i].path) != PathKey(es[j].path)
    {
      assert es[i] in es && es[j] in es;
      KeysReflectResplitPaths(es[i].path, es[j].path);
    }
  }

  lemma {:induction false} FreshKeyGoesLast(es: seq<Entry>, e: Entry)
    requires !HasKey(es, PathKey(e.path))
    ensures MapSet(es, e) == es + [e]
  {
    if es != [] {
      assert PathKey(es[0].path) != PathKey(e.path);
      forall i | 0 <= i < |es[1..]| ensures PathKey(es[1..][i].path) != PathKey(e.path)
      {
        assert es[1..][i] == es[i + 1];
      }
      FreshKeyGoesLast(es[1..], e);
      assert [es[0]] + (es[1..] + [e]) == es + [e];
    }
  }

  lemma {:induction false} FreshKeysGoLast(es: seq<Entry>, added: seq<Entry>)
    requires DistinctKeys(es + added)
    ensures MapSetAll(es, added) == es + added
  {
    if added == [] {
      assert es + added == es;
    } else {
      var init, last := added[..|added| - 1], added[|added| - 1];
      var sofar := es + init;
      assert es + added == sofar + [last];
      assert DistinctKeys(sofar) by { assert sofar == (es + added)[..|sofar|]; }
      FreshKeysGoLast(es, init);
      forall i | 0 <= i < |sofar| ensures PathKey(sofar[i].path) != PathKey(last.path)
      {
        assert (es + added)[i] == sofar[i] && (es + added)[|sofar|] == last;
      }
      FreshKeyGoesLast(sofar, last);
    }
  }

  lemma {:induction false} SetPastOthers(es: seq<Entry>, fs: seq<Entry>, e: Entry)
    requires !HasKey(es, PathKey(e.path))
    ensures MapSet(es + fs, e) == es + MapSet(fs, e)
  {
    if es == [] {
      assert es + fs == fs;
    } else {
      assert PathKey(es[0].path) != PathKey(e.path);
      forall i | 0 <= i < |es[1..]| ensures PathKey(es[1..][i].path) != PathKey(e.path)
      {
        assert es[1..][i] == es[i + 1];
      }
      SetPastOthers(es[1..], fs, e);
      assert (es + fs)[1..] == es[1..] + fs;
      assert [es[0]] + (es[1..] + MapSet(fs, e)) == es + MapSet(fs, e);
    }
  }

  /** Leaves with keys of their own are filed after the others, whatever happens among them. */
  lemma {:induction false} SetAllPastOthers(es: seq<Entry>, added: seq<Entry>)
    requires forall e | e in added :: !HasKey(es, PathKey(e.path))
    ensures MapSetAll(es, added) == es + MapSetAll([], added)
  {
    if added != [] {
      var init, last := added[..|added| - 1], added[|added| - 1];
      assert last in added && forall e | e in init :: e in added;
      SetAllPastOthers(es, init);
      SetPastOthers(es, MapSetAll([], init), last);
    } else {
      assert es + MapSetAll([], added) == es;
    }
  }

  lemma {:induction false} SetMember(es: seq<Entry>, e: Entry)
    ensures forall f | f in MapSet(es, e) :: f in es || f == e
  {
    if es != [] { SetMember(es[1..], e); }
  }

  lemma {:induction false} SetMembers(es: seq<Entry>, added: seq<Entry>)
    ensures forall e | e in MapSetAll(es, added) :: e in es || e in added
  {
    if added != [] {
      SetMembers(es, added[..|added| - 1]);
      SetMember(MapSetAll(es, added[..|added| - 1]), added[|added| - 1]);
    }
  }

  lemma {:induction false} SetHolds(es: seq<Entry>, e: Entry)
    ensures e in MapSet(es, e) && forall f | f in es && PathKey(f.path) != PathKey(e.path) :: f in MapSet(es, e)
  {
    if es != [] {
      assert es == [es[0]] + es[1..];
      SetHolds(es[1..], e);
    }
  }

  /** A leaf whose key no other leaf has is not replaced. */
  lemma {:induction false} SetAllHolds(es: seq<Entry>, added: seq<Entry>, e: Entry)
    requires e in added && forall f | f in added && f != e :: PathKey(f.path) != PathKey(e.path)
    ensures e in MapSetAll(es, added)
  {
    var init, last := added[..|added| - 1], added[|added| - 1];
    assert added == init + [last];
    SetHolds(MapSetAll(es, init), last);
    if last != e { SetAllHolds(es, init, e); }
  }

  lemma {:induction false} SetKeepsKeysApart(es: seq<Entry>, e: Entry)
    requires DistinctKeys(es)
    ensures DistinctKeys(MapSet(es, e))
  {
    if es != [] && PathKey(es[0].path) != PathKey(e.path) {
      var rest := MapSet(es[1..], e);
      SetKeepsKeysApart(es[1..], e);
      SetMember(es[1..], e);
      forall j | 0 <= j < |rest| ensures PathKey(rest[j].path) != PathKey(es[0].path)
      {
        assert rest[j] in rest;
        if rest[j] in es[1..] {
          var i :| 0 <= i < |es[1..]| && es[1..][i] == rest[j];
          assert es[i + 1] == rest[j];
        }
      }
    }
  }

  lemma {:induction false} SetAllKeepsKeysApart(es: seq<Entry>, added: seq<Entry>)
    requires DistinctKeys(es)
    ensures DistinctKeys(MapSetAll(es, added))
  {
    if added != [] {
      SetAllKeepsKeysApart(es, added[..|added| - 1]);
      SetKeepsKeysApart(MapSetAll(es, added[..|added| - 1]), added[|added| - 1]);
    }
  }

  lemma ConcatKeysApart(es: seq<Entry>, fs: seq<Entry>)
    requires DistinctKeys(es) && DistinctKeys(fs)
    requires forall e, f | e in es && f in fs :: PathKey(e.path) != PathKey(f.path)
    ensures DistinctKeys(es + fs)
  {
    var all := es + fs;
    forall i, j | 0 <= i < j < |all| ensures PathKey(all[i].path) != PathKey(all[j].path)
    {
      if i < |es| <= j { assert es[i] in es && fs[j - |es|] in fs; }
    }
  }

  lemma ConcatDistinct(es: seq<Entry>, fs: seq<Entry>)
    ensures DistinctPaths(es + fs) <==>
            DistinctPaths(es) && DistinctPaths(fs) && (forall e, f | e in es && f in fs :: e.path != f.path)
  {
    var all := es + fs;
    if DistinctPaths(all) {
      forall i, j | 0 <= i < j < |es| ensures es[i].path != es[j].path
      {
        assert all[i] == es[i] && all[j] == es[j];
      }
      forall i, j | 0 <= i < j < |fs| ensures fs[i].path != fs[j].path
      {
        assert all[|es| + i] == fs[i] && all[|es| + j] == fs[j];
      }
      forall e, f | e in es && f in fs ensures e.path != f.path
      {
        var i, j :| 0 <= i < |es| && 0 <= j < |fs| && es[i] == e && fs[j] == f;
        assert all[i] == e && all[|es| + j] == f;
      }
    }
  }

  lemma ConcatPrefixFirst(es: seq<Entry>, fs: seq<Entry>)
    ensures PrefixFirst(es + fs) <==>
            PrefixFirst(es) && PrefixFirst(fs) && (forall e, f | e in es && f in fs :: !(f.path < e.path))
  {
    var all := es + fs;
    if PrefixFirst(all) {
      forall i, j | 0 <= i < j < |es| ensures !(es[j].path < es[i].path)
      {
        assert all[i] == es[i] && all[j] == es[j];
      }
      forall i, j | 0 <= i < j < |fs| ensures !(fs[j].path < fs[i].path)
      {
        assert all[|es| + i] == fs[i] && all[|es| + j] == fs[j];
      }
      forall e, f | e in es && f in fs ensures !(f.path < e.path)
      {
        var i, j :| 0 <= i < |es| && 0 <= j < |fs| && es[i] == e && fs[j] == f;
        assert all[i] == e && all[|es| + j] == f;
      }
    }
  }

  lemma {:induction false} WithoutKeyMembers(es: seq<Entry>, key: string)
    ensures forall e :: e in WithoutKey(es, key) <==>
                        e in es && PathKey(e.path) != key && !IsBelow(key, PathKey(e.path))
  {
    if es != [] {
      WithoutKeyMembers(es[..|es| - 1], key);
      assert es == es[..|es| - 1] + [es[|es| - 1]];
    }
  }

  lemma {:induction false} WithoutKeyKeepsKeysApart(es: seq<Entry>, key: string)
    requires DistinctKeys(es)
    ensures DistinctKeys(WithoutKey(es, key))
  {
    if es != [] {
      var init, last := es[..|es| - 1], es[|es| - 1];
      WithoutKeyKeepsKeysApart(init, key);
      WithoutKeyMembers(init, key);
      forall e | e in WithoutKey(init, key) ensures PathKey(e.path) != PathKey(last.path)
      {
        var i :| 0 <= i < |init| && init[i] == e;
        assert es[i] == e;
      }
      ConcatKeysApart(WithoutKey(init, key), [last]);
    }
  }

  lemma {:induction false} WithoutKeyKeepsOrder(es: seq<Entry>, key: string)
    requires PrefixFirst(es)
    ensures PrefixFirst(WithoutKey(es, key))
  {
    if es != [] {
      var init, last := es[..|es| - 1], es[|es| - 1];
      assert es == init + [last];
      ConcatPrefixFirst(init, [last]);
      WithoutKeyKeepsOrder(init, key);
      WithoutKeyMembers(init, key);
      ConcatPrefixFirst(WithoutKey(init, key), [last]);
    }
  }

  lemma {:induction false} WithoutKeyOverrides(es: seq<Entry>, key: string)
    ensures Overrides(WithoutKey(es, key)) == WithoutKey(Overrides(es), key)
  {
    if es != [] {
      var init, last := es[..|es| - 1], es[|es| - 1];
      WithoutKeyOverrides(init, key);
      var kept := WithoutKey(init, key);
      assert (kept + [last])[..|kept + [last]| - 1] == kept;
      var over := Overrides(init);
      assert (over + [last])[..|over + [last]| - 1] == over;
    }
  }

  lemma {:induction false} OverridesConcat(es: seq<Entry>, fs: seq<Entry>)
    ensures Overrides(es + fs) == Overrides(es) + Overrides(fs)
  {
    if fs == [] {
      assert es + fs == es;
    } else {
      var init, last := fs[..|fs| - 1], fs[|fs| - 1];
      assert (es + fs)[..|es + fs| - 1] == es + init;
      OverridesConcat(es, init);
    }
  }

  lemma {:induction false} OverridesOf(es: seq<Entry>)
    ensures forall e :: e in Overrides(es) <==> e in es && !e.layer.DefaultParams?
    ensures (forall e | e in es :: !e.layer.DefaultParams?) ==> Overrides(es) == es
    ensures (forall e | e in es :: e.layer.DefaultParams?) ==> Overrides(es) == []
  {
    if es != [] {
      var init, last := es[..|es| - 1], es[|es| - 1];
      assert es == init + [last];
      assert last in es && forall e | e in init :: e in es;
      OverridesOf(init);
    }
  }

  lemma OverridesTwice(es: seq<Entry>)
    ensures Overrides(Overrides(es)) == Overrides(es)
  {
    OverridesOf(es);
    OverridesOf(Overrides(es));
  }

  lemma {:induction false} OverridesKeysApart(es: seq<Entry>)
    requires DistinctKeys(es)
    ensures DistinctKeys(Overrides(es))
  {
    if es != [] {
      var init, last := es[..|es| - 1], es[|es| - 1];
      OverridesKeysApart(init);
      forall e | e in Overrides(init) ensures PathKey(e.path) != PathKey(last.path)
      {
        OverridesOf(init);
        var i :| 0 <= i < |init| && init[i] == e;
        assert es[i] == e;
      }
      ConcatKeysApart(Overrides(init), [last]);
    }
  }

  // ----- One write of the store -----

  /** The leaves of a value filed at a path have the path's key or lie below it. */
  lemma AddedKeys(path: Path, value: Json, layer: Layer, added: seq<Entry>)
    requires path != [] && IsFlattening(added, value, path, layer)
    ensures ProperPaths(added) && Within(added, LeafPaths(value, path))
    ensures forall e | e in added :: PathKey(e.path) == PathKey(path) || IsBelow(PathKey(path), PathKey(e.path))
  {
    forall e | e in added
      ensures e.path != [] && (PathKey(e.path) == PathKey(path) || IsBelow(PathKey(path), PathKey(e.path)))
    {
      KeysReflectPaths(path, e.path);
    }
  }

  /** What a write leaves: the entries it did not delete, then its own leaves, which share no key with those. */
  lemma WriteAppends(before: seq<Entry>, path: Path, value: Json, layer: Layer, added: seq<Entry>)
    requires path != [] && IsFlattening(added, value, path, layer)
    ensures var kept := WithoutKey(before, PathKey(path));
            && MapSetAll(kept, added) == kept + MapSetAll([], added)
            && forall e, f | e in kept && f in added :: PathKey(e.path) != PathKey(f.path) && !(f.path < e.path)
  {
    var kept := WithoutKey(before, PathKey(path));
    WithoutKeyMembers(before, PathKey(path));
    AddedKeys(path, value, layer, added);
    forall e, f | e in kept && f in added ensures PathKey(e.path) != PathKey(f.path) && !(f.path < e.path)
    {
      if f.path < e.path {
        assert path <= e.path;
        KeysReflectPaths(path, e.path);
      }
    }
    SetAllPastOthers(kept, added);
  }

  /** Every write keeps the store sound, whatever its path and value. */
  lemma WriteKeepsSound(before: seq<Entry>, path: Path, value: Json, layer: Layer, after: seq<Entry>)
    requires Sound(before) && path != [] && !layer.DefaultParams? && Wrote(before, path, value, layer, after)
    ensures Sound(after)
  {
    var key := PathKey(path);
    var added :| IsFlattening(added, value, path, layer) && after == MapSetAll(WithoutKey(before, key), added);
    var kept, filed := WithoutKey(before, key), MapSetAll([], added);
    WriteAppends(before, path, value, layer, added);
    WithoutKeyMembers(before, key);
    AddedKeys(path, value, layer, added);
    SetMembers([], added);
    SetAllKeepsKeysApart([], added);
    WithoutKeyKeepsKeysApart(before, key);
    ConcatKeysApart(kept, filed);
    OrderAfterWrite(before, path, value, layer, added);
  }

  /** The leaves of one value are filed without a prefix among them. */
  lemma FiledInOrder(value: Json, path: Path, layer: Layer, added: seq<Entry>)
    requires IsFlattening(added, value, path, layer)
    ensures PrefixFirst(MapSetAll([], added)) && forall e | e in MapSetAll([], added) :: e in added
  {
    var filed := MapSetAll([], added);
    SetMembers([], added);
    FlatteningIsPrefixFree(added, value, path, layer);
    forall i, j | 0 <= i < j < |filed| ensures !(filed[j].path < filed[i].path)
    {
      assert filed[i] in filed && filed[j] in filed;
    }
  }

  lemma OrderAfterWrite(before: seq<Entry>, path: Path, value: Json, layer: Layer, added: seq<Entry>)
    requires PrefixFirst(Overrides(before)) && path != [] && !layer.DefaultParams?
    requires IsFlattening(added, value, path, layer)
    ensures PrefixFirst(Overrides(WithoutKey(before, PathKey(path)) + MapSetAll([], added)))
  {
    var kept, filed := WithoutKey(before, PathKey(path)), MapSetAll([], added);
    FiledInOrder(value, path, layer, added);
    OverridesConcat(kept, filed);
    OverridesOf(filed);
    WithoutKeyOverrides(before, PathKey(path));
    WithoutKeyKeepsOrder(Overrides(before), PathKey(path));
    forall e, f | e in Overrides(kept) && f in filed ensures !(f.path < e.path)
    {
      OverridesOf(kept);
      WriteAppends(before, path, value, layer, added);
    }
    ConcatPrefixFirst(Overrides(kept), filed);
  }

  /** Writing at `path` deletes a leaf filed at `m`: read through the separators, `m` is the path or extends it. */
  predicate Deletes(path: Path, m: Path)
  {
    Resplit(path) <= Resplit(m)
  }

  /** No two leaves of the value, filed under `path`, have one key. */
  ghost predicate OneLeafPerKey(path: Path, value: Json)
  {
    KeysDiffer(LeafPaths(value, path))
  }

  lemma KeptOneMore(es: seq<Entry>, last: Entry, path: Path)
    requires path != [] && ProperPaths(es + [last])
    ensures last.path != [] && ProperPaths(es)
    ensures WithoutKey(es + [last], PathKey(path)) ==
            WithoutKey(es, PathKey(path)) + if Deletes(path, last.path) then [] else [last]
  {
    assert (es + [last])[..|es|] == es;
    assert last in es + [last] && forall e | e in es :: e in es + [last];
    KeysReflectResplitPaths(path, last.path);
  }

  lemma KeptPaths(before: seq<Entry>, path: Path)
    requires path != [] && ProperPaths(before)
    ensures forall e :: e in WithoutKey(before, PathKey(path)) <==> e in before && !Deletes(path, e.path)
  {
    WithoutKeyMembers(before, PathKey(path));
    forall e | e in before
      ensures Deletes(path, e.path) <==> PathKey(e.path) == PathKey(path) || IsBelow(PathKey(path), PathKey(e.path))
    {
      KeysReflectResplitPaths(path, e.path);
    }
  }

  /**
   One write of the store, read on paths: the leaves it deletes go, which are those at and below the path unless their
   path is confused with it, and the value's leaves come last, all of them exactly if they have different keys.
   */
  lemma WriteByPath(before: seq<Entry>, path: Path, value: Json, layer: Layer, added: seq<Entry>)
    requires ProperPaths(before) && path != [] && IsFlattening(added, value, path, layer)
    ensures var kept, filed := WithoutKey(before, PathKey(path)), MapSetAll([], added);
            && MapSetAll(kept, added) == kept + filed
            && (forall e :: e in kept <==> e in before && !Deletes(path, e.path))
            && (forall e | e in before && !Confused(path, e.path) :: e in kept <==> !(path <= e.path))
            && (forall e | e in filed :: e in added) && (OneLeafPerKey(path, value) <==> filed == added)
  {
    WriteAppends(before, path, value, layer, added);
    KeptPaths(before, path);
    forall e | e in before && !Confused(path, e.path) ensures Deletes(path, e.path) <==> path <= e.path
    {
      ResplitKeepsPrefixes(path, e.path);
      ResplitKeepsPrefixes(e.path, path);
    }
    SetMembers([], added);
    FiledWhenKeysDiffer(path, value, layer, added);
  }

  lemma FiledWhenKeysDiffer(path: Path, value: Json, layer: Layer, added: seq<Entry>)
    requires path != [] && IsFlattening(added, value, path, layer)
    ensures OneLeafPerKey(path, value) <==> MapSetAll([], added) == added
  {
    AddedKeys(path, value, layer, added);
    if OneLeafPerKey(path, value) {
      PathsApartKeysApart(added, LeafPaths(value, path));
      assert [] + added == added;
      FreshKeysGoLast([], added);
    } else if MapSetAll([], added) == added {
      SetAllKeepsKeysApart([], added);
      KeysOfLeavesDiffer(path, value, layer, added);
    }
  }

  /** When the leaves listed are filed under different keys, no two leaf paths share one. */
  lemma KeysOfLeavesDiffer(path: Path, value: Json, layer: Layer, added: seq<Entry>)
    requires path != [] && IsFlattening(added, value, path, layer) && DistinctKeys(added)
    ensures OneLeafPerKey(path, value)
  {
    forall p, q | p in LeafPaths(value, path) && q in LeafPaths(value, path) && Resplit(p) == Resplit(q) ensures p == q
    {
      var e := LeafListed(path, value, layer, added, p);
      var f := LeafListed(path, value, layer, added, q);
      KeysReflectResplitPaths(p, q);
      var i :| 0 <= i < |added| && added[i] == e;
      var j :| 0 <= j < |added| && added[j] == f;
    }
  }

  lemma LeafListed(path: Path, value: Json, layer: Layer, added: seq<Entry>, p: Path) returns (e: Entry)
    requires IsFlattening(added, value, path, layer) && p in LeafPaths(value, path)
    ensures e in added && e.path == p
  {
    var s := p[|path|..];
    assert p == path + s;
    e := Entry(p, At(value, s).atom, layer);
    assert At(value, s) == Terminal(e.atom);
  }
}
