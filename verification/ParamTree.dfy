/**
 Params bags as trees, and the ordered leaf lists from which the store rebuilds them.

 A tree is read through `At`, which says what sits at a path. Two trees with the same
 readings are equal, so every law below is proved reading by reading.
 */
module ParamTree {
  import opened ParamPaths

  /** Anything that is not a plain object: the store treats arrays as leaves. */
  datatype Atom = Null | Boolean(flag: bool) | Number(value: real) | Text(text: string) | Array(items: seq<Json>)

  datatype Json = Leaf(atom: Atom) | Node(fields: map<string, Json>)

  datatype Shape = Absent | Terminal(atom: Atom) | Inner

  datatype Layer = DefaultParams | Launch | ParamsCommand

  datatype Entry = Entry(path: Path, atom: Atom, layer: Layer)

  const EMPTY_BAG: Json := Node(map[])

  function At(tree: Json, path: Path): Shape
    decreases |path|
  {
    if path == [] then
      if tree.Leaf? then Terminal(tree.atom) else Inner
    else if tree.Node? && path[0] in tree.fields then
      At(tree.fields[path[0]], path[1..])
    else
      Absent
  }

  /** Write `value` at `path`, turning anything that is not an object on the way into one. */
  function SetAt(tree: Json, path: Path, value: Json): Json
    decreases |path|
  {
    if path == [] then value
    else
      var fields := if tree.Node? then tree.fields else map[];
      var child := if path[0] in fields then fields[path[0]] else EMPTY_BAG;
      Node(fields[path[0] := SetAt(child, path[1..], value)])
  }

  /** No object below the root is empty. */
  predicate Full(tree: Json)
  {
    tree.Leaf? || (tree.fields != map[] && forall k | k in tree.fields :: Full(tree.fields[k]))
  }

  predicate NoEmptyObjects(bag: Json)
  {
    bag.Node? && forall k | k in bag.fields :: Full(bag.fields[k])
  }

  lemma {:induction false} AtSetAt(tree: Json, path: Path, value: Json, m: Path)
    ensures At(SetAt(tree, path, value), m) ==
            if m < path then Inner
            else if path <= m then At(value, m[|path|..])
            else At(tree, m)
    decreases |path|
  {
    if path == [] {
      assert m[0..] == m;
    } else {
      var fields := if tree.Node? then tree.fields else map[];
      var child := if path[0] in fields then fields[path[0]] else EMPTY_BAG;
      if m != [] {
        if m[0] == path[0] {
          AtSetAt(child, path[1..], value, m[1..]);
          assert m == [m[0]] + m[1..] && path == [path[0]] + path[1..];
          assert m < path <==> m[1..] < path[1..];
          assert path <= m <==> path[1..] <= m[1..];
          if path <= m {
            assert m[1..][|path[1..]|..] == m[|path|..];
          } else if !(m < path) {
            assert m[1..] != [];
          }
        } else {
          assert !(m < path) && !(path <= m);
        }
      }
    }
  }

  lemma {:induction false} SameReadingsSameTree(s: Json, t: Json)
    requires forall m: Path :: At(s, m) == At(t, m)
    ensures s == t
    decreases s
  {
    assert At(s, []) == At(t, []);
    if s.Node? {
      forall k ensures k in s.fields <==> k in t.fields
      {
        assert At(s, [k]) == At(t, [k]);
        assert [k][1..] == [];
        if k in s.fields { assert At(s.fields[k], []) != Absent; }
        if k in t.fields { assert At(t.fields[k], []) != Absent; }
      }
      forall k | k in s.fields ensures s.fields[k] == t.fields[k]
      {
        forall m: Path ensures At(s.fields[k], m) == At(t.fields[k], m)
        {
          assert ([k] + m)[1..] == m;
          assert At(s, [k] + m) == At(t, [k] + m);
        }
        SameReadingsSameTree(s.fields[k], t.fields[k]);
      }
      assert s.fields == t.fields;
    }
  }

  lemma {:induction false} PresentAbove(tree: Json, m: Path, below: Path)
    requires m < below && At(tree, below) != Absent
    ensures At(tree, m) == Inner
    decreases |m|
  {
    if m != [] {
      assert below[1..][..|m| - 1] == m[1..];
      PresentAbove(tree.fields[m[0]], m[1..], below[1..]);
    }
  }

  /** An inner object of a bag without empty objects has a leaf somewhere below. */
  lemma {:induction false} LeafBelow(tree: Json, m: Path) returns (below: Path)
    requires if m == [] then Full(tree) else NoEmptyObjects(tree)
    requires At(tree, m) == Inner
    ensures m < below && At(tree, below).Terminal?
    decreases |m|, tree
  {
    if m != [] {
      var child := tree.fields[m[0]];
      assert m[1..] != [] ==> NoEmptyObjects(child);
      var rest := LeafBelow(child, m[1..]);
      below := [m[0]] + rest;
      assert below[1..] == rest;
    } else {
      var k :| k in tree.fields;
      var child := tree.fields[k];
      if child.Leaf? {
        below := [k];
        assert [k][1..] == [];
      } else {
        var rest := LeafBelow(child, []);
        below := [k] + rest;
        assert below[1..] == rest;
      }
    }
  }

  lemma {:induction false} SetFullKeepsFull(tree: Json, path: Path, value: Json)
    requires tree.Node? ==> NoEmptyObjects(tree)
    requires Full(value)
    ensures Full(SetAt(tree, path, value))
    ensures path != [] ==> NoEmptyObjects(SetAt(tree, path, value))
    decreases |path|
  {
    if path != [] {
      var fields := if tree.Node? then tree.fields else map[];
      var child := if path[0] in fields then fields[path[0]] else EMPTY_BAG;
      SetFullKeepsFull(child, path[1..], value);
      assert path[0] in SetAt(tree, path, value).fields;
    }
  }

  /** The bag rebuilt from the leaves, in their order: a later leaf overwrites whatever stands in its way. */
  function TreeOf(es: seq<Entry>): Json
  {
    if es == [] then EMPTY_BAG
    else SetAt(TreeOf(es[..|es| - 1]), es[|es| - 1].path, Leaf(es[|es| - 1].atom))
  }

  /** What the leaves say about a path: the last leaf comparable with it decides. */
  function DecideAt(es: seq<Entry>, m: Path): Shape
  {
    if es == [] then
      if m == [] then Inner else Absent
    else
      var last := es[|es| - 1];
      if m < last.path then Inner
      else if m == last.path then Terminal(last.atom)
      else if last.path < m then Absent
      else DecideAt(es[..|es| - 1], m)
  }

  predicate ProperPaths(es: seq<Entry>)
  {
    forall e | e in es :: e.path != []
  }

  lemma {:induction false} TreeReadings(es: seq<Entry>, m: Path)
    requires ProperPaths(es)
    ensures At(TreeOf(es), m) == DecideAt(es, m)
  {
    if es != [] {
      var init, last := es[..|es| - 1], es[|es| - 1];
      TreeReadings(init, m);
      AtSetAt(TreeOf(init), last.path, Leaf(last.atom), m);
    }
  }

  lemma {:induction false} TreesHaveNoEmptyObjects(es: seq<Entry>)
    requires ProperPaths(es)
    ensures NoEmptyObjects(TreeOf(es))
  {
    if es != [] {
      var init, last := es[..|es| - 1], es[|es| - 1];
      TreesHaveNoEmptyObjects(init);
      SetFullKeepsFull(TreeOf(init), last.path, Leaf(last.atom));
    }
  }

  /** Below an inner path there is a leaf that no later leaf has overwritten. */
  lemma {:induction false} InnerHasSurvivor(es: seq<Entry>, m: Path) returns (below: Path)
    requires m != [] && DecideAt(es, m) == Inner
    ensures m < below && DecideAt(es, below).Terminal?
  {
    var init, last := es[..|es| - 1], es[|es| - 1];
    if m < last.path {
      below := last.path;
    } else {
      below := InnerHasSurvivor(init, m);
      PrefixesOfOnePath(last.path, m, below);
    }
  }

  ghost predicate SameSurvivors(es: seq<Entry>, fs: seq<Entry>)
  {
    forall m: Path, a: Atom :: DecideAt(es, m) == Terminal(a) <==> DecideAt(fs, m) == Terminal(a)
  }

  /** Rebuilt bags are equal exactly when the same leaves survive in both lists. */
  lemma {:induction false} SameSurvivorsSameTree(es: seq<Entry>, fs: seq<Entry>)
    requires ProperPaths(es) && ProperPaths(fs)
    ensures TreeOf(es) == TreeOf(fs) <==> SameSurvivors(es, fs)
  {
    forall m: Path ensures DecideAt(es, m) == At(TreeOf(es), m) && DecideAt(fs, m) == At(TreeOf(fs), m)
    {
      TreeReadings(es, m);
      TreeReadings(fs, m);
    }
    if TreeOf(es) == TreeOf(fs) {
      forall m: Path, a: Atom ensures DecideAt(es, m) == Terminal(a) <==> DecideAt(fs, m) == Terminal(a) { }
    } else if SameSurvivors(es, fs) {
      forall m: Path ensures DecideAt(es, m) == DecideAt(fs, m)
      {
        if m == [] {
          assert At(TreeOf(es), m) == At(TreeOf(fs), m) == Inner;
        } else if DecideAt(es, m) == Inner {
          var below := InnerHasSurvivor(es, m);
          assert DecideAt(fs, below) == DecideAt(es, below);
          PresentAbove(TreeOf(fs), m, below);
        } else if DecideAt(fs, m) == Inner {
          var below := InnerHasSurvivor(fs, m);
          assert DecideAt(fs, below) == DecideAt(es, below);
          PresentAbove(TreeOf(es), m, below);
        } else {
          assert DecideAt(fs, m).Terminal? ==> DecideAt(fs, m) == Terminal(DecideAt(fs, m).atom);
          assert DecideAt(es, m).Terminal? ==> DecideAt(es, m) == Terminal(DecideAt(es, m).atom);
        }
      }
      SameReadingsSameTree(TreeOf(es), TreeOf(fs));
    }
  }

  ghost predicate Touches(es: seq<Entry>, m: Path)
  {
    exists e :: e in es && Comparable(e.path, m)
  }

  lemma {:induction false} DecideConcat(es: seq<Entry>, fs: seq<Entry>, m: Path)
    requires m != []
    ensures DecideAt(es + fs, m) == if Touches(fs, m) then DecideAt(fs, m) else DecideAt(es, m)
  {
    if fs == [] {
      assert es + fs == es;
    } else {
      var init, last := fs[..|fs| - 1], fs[|fs| - 1];
      assert (es + fs)[..|es + fs| - 1] == es + init;
      assert (es + fs)[|es + fs| - 1] == last;
      DecideConcat(es, init, m);
      assert fs == init + [last];
      if Comparable(last.path, m) {
        assert last in fs;
      } else {
        assert Touches(fs, m) <==> Touches(init, m);
      }
    }
  }

  lemma {:induction false} TouchedOrNot(es: seq<Entry>, m: Path)
    requires m != []
    ensures !Touches(es, m) ==> DecideAt(es, m) == Absent
    ensures DecideAt(es, m).Terminal? ==> exists e :: e in es && e.path == m && DecideAt(es, m) == Terminal(e.atom)
  {
    if es != [] {
      var init, last := es[..|es| - 1], es[|es| - 1];
      TouchedOrNot(init, m);
      assert es == init + [last];
      assert last in es;
    }
  }

  /** `es` lists, in some order and once each, the leaves of `value` filed under `base`. */
  ghost predicate IsFlattening(es: seq<Entry>, value: Json, base: Path, layer: Layer)
  {
    && (forall e | e in es :: e.layer == layer && base <= e.path && At(value, e.path[|base|..]) == Terminal(e.atom))
    && (forall s: Path, a: Atom :: At(value, s) == Terminal(a) ==> Entry(base + s, a, layer) in es)
    && DistinctPaths(es)
  }

  predicate DistinctPaths(es: seq<Entry>)
  {
    forall i, j | 0 <= i < j < |es| :: es[i].path != es[j].path
  }

  /** No leaf path is a strict prefix of another. */
  predicate PrefixFree(es: seq<Entry>)
  {
    forall e, f | e in es && f in es :: !(e.path < f.path)
  }

  /** A leaf path that strictly extends another stands after it. */
  predicate PrefixFirst(es: seq<Entry>)
  {
    forall i, j | 0 <= i < j < |es| :: !(es[j].path < es[i].path)
  }

  lemma FlatteningIsPrefixFree(es: seq<Entry>, value: Json, base: Path, layer: Layer)
    requires IsFlattening(es, value, base, layer)
    ensures PrefixFree(es)
  {
    forall e, f | e in es && f in es ensures !(e.path < f.path)
    {
      if e.path < f.path {
        var x, y := e.path[|base|..], f.path[|base|..];
        assert e.path == base + x && f.path == base + y;
        assert y[..|x|] == x;
        PresentAbove(value, x, y);
      }
    }
  }

  /** When prefixes come first, a leaf survives exactly if nothing in the list extends it. */
  lemma {:induction false} PrefixFirstSurvivors(es: seq<Entry>, m: Path, a: Atom)
    requires m != [] && DistinctPaths(es) && PrefixFirst(es)
    ensures DecideAt(es, m) == Terminal(a) <==>
            (exists e :: e in es && e.path == m && e.atom == a) && (forall e | e in es :: !(m < e.path))
  {
    if es != [] {
      var init, last := es[..|es| - 1], es[|es| - 1];
      assert es == init + [last];
      PrefixFirstSurvivors(init, m, a);
      assert last in es;
      if m == last.path {
        forall e | e in es ensures !(m < e.path) { }
        forall e | e in es && e.path == m ensures e == last { }
      } else if last.path < m {
        forall e | e in es ensures e.path != m { }
      }
    }
  }

  /** Flattening a bag without empty objects and rebuilding it gives the bag back; with one, it does not. */
  lemma FlattenThenRebuild(bag: Json, es: seq<Entry>, layer: Layer)
    requires bag.Node? && IsFlattening(es, bag, [], layer)
    ensures ProperPaths(es)
    ensures TreeOf(es) == bag <==> NoEmptyObjects(bag)
  {
    forall e | e in es ensures e.path != []
    {
      assert e.path[0..] == e.path;
    }
    TreesHaveNoEmptyObjects(es);
    if NoEmptyObjects(bag) {
      FlatteningIsPrefixFree(es, bag, [], layer);
      forall m: Path ensures At(TreeOf(es), m) == At(bag, m)
      {
        RebuiltReading(bag, es, layer, m);
      }
      SameReadingsSameTree(TreeOf(es), bag);
    }
  }

  lemma FlattenedLeaves(bag: Json, es: seq<Entry>, layer: Layer, m: Path, a: Atom)
    requires bag.Node? && IsFlattening(es, bag, [], layer) && m != []
    ensures DecideAt(es, m) == Terminal(a) <==> At(bag, m) == Terminal(a)
  {
    FlatteningIsPrefixFree(es, bag, [], layer);
    PrefixFirstSurvivors(es, m, a);
    if DecideAt(es, m) == Terminal(a) {
      var e :| e in es && e.path == m && e.atom == a;
      assert e.path[0..] == m;
    }
    if At(bag, m) == Terminal(a) {
      var e := Entry([] + m, a, layer);
      assert [] + m == m;
      assert e in es;
      assert forall f | f in es :: !(e.path < f.path);
    }
  }

  lemma RebuiltReading(bag: Json, es: seq<Entry>, layer: Layer, m: Path)
    requires NoEmptyObjects(bag) && IsFlattening(es, bag, [], layer) && ProperPaths(es)
    ensures At(TreeOf(es), m) == At(bag, m)
  {
    TreesHaveNoEmptyObjects(es);
    TreeReadings(es, m);
    if m != [] {
      match At(bag, m)
      case Terminal(a) =>
        FlattenedLeaves(bag, es, layer, m, a);
      case Inner =>
        var below := LeafBelow(bag, m);
        FlattenedLeaves(bag, es, layer, below, At(bag, below).atom);
        TreeReadings(es, below);
        PresentAbove(TreeOf(es), m, below);
      case Absent =>
        if DecideAt(es, m).Terminal? {
          FlattenedLeaves(bag, es, layer, m, DecideAt(es, m).atom);
        } else if DecideAt(es, m) == Inner {
          var below := InnerHasSurvivor(es, m);
          FlattenedLeaves(bag, es, layer, below, DecideAt(es, below).atom);
          PresentAbove(bag, m, below);
        }
    }
  }

  /** The list files this atom under the path. */
  ghost predicate Files(es: seq<Entry>, p: Path, a: Atom)
  {
    exists e :: e in es && e.path == p && e.atom == a
  }

  /**
   The leaves of a rebuilt bag are exactly the entries it was rebuilt from if and only if no path is a prefix of
   another; nothing but entries is ever there.
   */
  lemma RebuildThenFlatten(es: seq<Entry>)
    requires ProperPaths(es) && DistinctPaths(es)
    ensures (forall p: Path, a: Atom :: At(TreeOf(es), p) == Terminal(a) <==> Files(es, p, a)) <==> PrefixFree(es)
    ensures forall p: Path, a: Atom | At(TreeOf(es), p) == Terminal(a) :: Files(es, p, a)
  {
    forall p: Path, a: Atom | At(TreeOf(es), p) == Terminal(a) ensures Files(es, p, a)
    {
      TreeReadings(es, p);
      TreesHaveNoEmptyObjects(es);
      TouchedOrNot(es, p);
    }
    if PrefixFree(es) {
      forall p: Path, a: Atom | Files(es, p, a) ensures At(TreeOf(es), p) == Terminal(a)
      {
        PrefixFirstSurvivors(es, p, a);
        TreeReadings(es, p);
      }
    } else {
      var e, f :| e in es && f in es && e.path < f.path;
      assert Files(es, e.path, e.atom) && Files(es, f.path, f.atom);
      if At(TreeOf(es), f.path) == Terminal(f.atom) {
        PresentAbove(TreeOf(es), e.path, f.path);
      }
    }
  }
}
