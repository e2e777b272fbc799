/**
 The runtime params store and the `/params` write command, as they run: a leaf map changed in
 place, objects flattened into it and bags rebuilt from it by walking a cursor.

 The order in which an object lists its fields is left open: every loop over fields picks an
 arbitrary next one, so what is proved holds for each order the runtime may use.
 */
module ParamsStore {
  import opened Options
  import opened Texts
  import opened ParamPaths
  import opened ParamTree
  import opened ParamLeaves
  import opened ParamSwap
  import opened ParamWrites

  datatype Reading = Reading(value: Json, layer: Layer)

  // ----- Walking a cursor down a tree and writing at its end -----

  /** The tree whose cursor stands at `inner`, the objects above it being `spine`. */
  function Plug(spine: seq<map<string, Json>>, path: Path, inner: Json): Json
    requires |spine| == |path|
  {
    var n := |spine| - 1;
    if n < 0 then inner
    else Plug(spine[..n], path[..n], Node(spine[n][path[n] := inner]))
  }

  /** The walk shared by `setNestedPath` and the rebuilding of bags. */
  method WriteThroughCursor(target: Json, path: Path, value: Json) returns (result: Json)
    requires target.Node? && path != []
    ensures result == SetAt(target, path, value)
  {
    var spine: seq<map<string, Json>> := [];
    var cursor := target.fields;
    var i := 0;
    while i < |path| - 1
      invariant 0 <= i < |path| && |spine| == i
      invariant SetAt(target, path, value) == Plug(spine, path[..i], SetAt(Node(cursor), path[i..], value))
    {
      var child := if path[i] in cursor && cursor[path[i]].Node? then cursor[path[i]].fields else map[];
      assert (spine + [cursor])[..i] == spine && path[..i + 1][..i] == path[..i];
      assert path[i..][1..] == path[i + 1..];
      SetThroughNonObject(if path[i] in cursor then cursor[path[i]] else EMPTY_BAG, path[i + 1..], value);
      spine := spine + [cursor];
      cursor := child;
      i := i + 1;
    }
    assert path[i..][1..] == [];
    result := Node(cursor[path[i] := value]);
    assert result == SetAt(Node(cursor), path[i..], value);
    while i > 0
      invariant 0 <= i < |path| && |spine| == i
      invariant SetAt(target, path, value) == Plug(spine, path[..i], result)
    {
      i := i - 1;
      assert path[..i + 1][..i] == path[..i];
      result := Node(spine[i][path[i] := result]);
      spine := spine[..i];
    }
  }

  lemma SetThroughNonObject(tree: Json, path: Path, value: Json)
    requires path != []
    ensures SetAt(tree, path, value) == SetAt(Node(if tree.Node? then tree.fields else map[]), path, value)
  {
  }

  method LeafMapToTree(leaves: seq<Entry>) returns (bag: Json)
    requires ProperPaths(leaves)
    ensures bag == TreeOf(leaves)
  {
    bag := EMPTY_BAG;
    for i := 0 to |leaves|
      invariant bag == TreeOf(leaves[..i]) && bag.Node?
    {
      assert leaves[..i + 1][..i] == leaves[..i];
      assert leaves[i] in leaves;
      bag := WriteThroughCursor(bag, leaves[i].path, Leaf(leaves[i].atom));
    }
    assert leaves[..|leaves|] == leaves;
  }

  // ----- Flattening -----

  /** The leaves of the fields named in `names`, filed under `parent`. */
  ghost predicate ListsFields(es: seq<Entry>, bag: Json, names: set<string>, parent: Path, layer: Layer)
    requires bag.Node?
  {
    && (forall e | e in es :: e.layer == layer && parent < e.path && e.path[|parent|] in names
                              && At(bag, e.path[|parent|..]) == Terminal(e.atom))
    && (forall s: Path, a: Atom | s != [] && s[0] in names && At(bag, s) == Terminal(a) ::
      Entry(parent + s, a, layer) in es)
    && DistinctPaths(es)
  }

  method FlattenLeaves(bag: Json, parent: Path, layer: Layer, out: seq<Entry>)
      returns (result: seq<Entry>, ghost listed: seq<Entry>)
    requires bag.Node?
    ensures IsFlattening(listed, bag, parent, layer) && result == MapSetAll(out, listed)
    ensures exists order :: IsFlattening(order, bag, parent, layer) && result == MapSetAll(out, order)
    decreases bag
  {
    result, listed := out, [];
    var todo := bag.fields.Keys;
    ghost var names: set<string> := {};
    while todo != {}
      invariant names == bag.fields.Keys - todo && todo <= bag.fields.Keys
      invariant ListsFields(listed, bag, names, parent, layer)
      invariant result == MapSetAll(out, listed)
    {
      var name :| name in todo;
      var value, path := bag.fields[name], parent + [name];
      ghost var one: seq<Entry>;
      if value.Node? {
        result, one := FlattenLeaves(value, path, layer, result);
      } else {
        var leaf := Entry(path, value.atom, layer);
        result, one := MapSet(result, leaf), [leaf];
        LeafIsItsFlattening(value, path, layer, one);
      }
      MapSetAllConcat(out, listed, one);
      FieldAdded(listed, one, bag, names, name, parent, layer);
      todo, names := todo - {name}, names + {name};
      listed := listed + one;
    }
    AllFieldsListed(listed, bag, names, parent, layer);
  }

  lemma LeafIsItsFlattening(value: Json, path: Path, layer: Layer, one: seq<Entry>)
    requires value.Leaf? && one == [Entry(path, value.atom, layer)]
    ensures IsFlattening(one, value, path, layer)
    ensures forall es :: MapSetAll(es, one) == MapSet(es, one[0])
  {
    assert path[|path|..] == [];
    forall s: Path, a: Atom | At(value, s) == Terminal(a) ensures Entry(path + s, a, layer) in one
    {
      assert s == [] && path + s == path;
    }
    forall es ensures MapSetAll(es, one) == MapSet(es, one[0])
    {
      assert MapSetAll(es, one[..0]) == es;
    }
  }

  lemma {:induction false} MapSetAllConcat(es: seq<Entry>, fs: seq<Entry>, gs: seq<Entry>)
    ensures MapSetAll(es, fs + gs) == MapSetAll(MapSetAll(es, fs), gs)
  {
    if gs == [] {
      assert fs + gs == fs;
    } else {
      assert (fs + gs)[..|fs + gs| - 1] == fs + gs[..|gs| - 1];
      MapSetAllConcat(es, fs, gs[..|gs| - 1]);
    }
  }

  lemma FieldAdded(listed: seq<Entry>, one: seq<Entry>, bag: Json, names: set<string>, name: string, parent: Path,
      layer: Layer)
    requires bag.Node? && name in bag.fields && name !in names
    requires ListsFields(listed, bag, names, parent, layer)
    requires IsFlattening(one, bag.fields[name], parent + [name], layer)
    ensures ListsFields(listed + one, bag, names + {name}, parent, layer)
  {
    var path := parent + [name];
    forall e | e in one
      ensures parent < e.path && e.path[|parent|] == name && At(bag, e.path[|parent|..]) == Terminal(e.atom)
    {
      assert e.path[..|path|] == path;
      assert e.path[|parent|..][1..] == e.path[|path|..];
      assert e.path[|parent|] == path[|parent|];
    }
    forall s: Path, a: Atom | s != [] && s[0] in names + {name} && At(bag, s) == Terminal(a)
      ensures Entry(parent + s, a, layer) in listed + one
    {
      if s[0] == name {
        assert path + s[1..] == parent + s;
        assert Entry(path + s[1..], a, layer) in one;
      }
    }
    ConcatDistinct(listed, one);
  }

  lemma AllFieldsListed(listed: seq<Entry>, bag: Json, names: set<string>, parent: Path, layer: Layer)
    requires bag.Node? && names == bag.fields.Keys && ListsFields(listed, bag, names, parent, layer)
    ensures IsFlattening(listed, bag, parent, layer)
  {
    forall s: Path, a: Atom | At(bag, s) == Terminal(a) ensures Entry(parent + s, a, layer) in listed
    {
      assert s != [] && s[0] in names;
    }
  }

  // ----- Reading one path -----

  predicate Digits(text: string)
  {
    forall i | 0 <= i < |text| :: '0' <= text[i] <= '9'
  }

  /** A canonical array index: decimal digits without a leading zero. */
  predicate IsIndex(segment: string)
  {
    segment != "" && Digits(segment) && (segment[0] == '0' ==> segment == "0")
  }

  function IndexOf(segment: string): nat
    requires Digits(segment)
  {
    if segment == "" then 0
    else
      var init, last := segment[..|segment| - 1], segment[|segment| - 1];
      10 * IndexOf(init) + (last as int - '0' as int)
  }

  /** What indexing an object or an array with a segment finds. */
  function Child(value: Json, segment: string): Option<Json>
  {
    match value
    case Node(fields) => if segment in fields then Some(fields[segment]) else None
    case Leaf(Array(items)) =>
      if segment == "length" then Some(Leaf(Number(|items| as real)))
      else if IsIndex(segment) && IndexOf(segment) < |items| then Some(items[IndexOf(segment)])
      else None
    case Leaf(_) => None
  }

  /** What a cursor finds that walks down the path, through objects and arrays. */
  function Subtree(tree: Json, path: Path): Option<Json>
    decreases |path|
  {
    if path == [] then Some(tree)
    else
      match Child(tree, path[0])
      case None => None
      case Some(child) => Subtree(child, path[1..])
  }

  /** The layer of the last leaf filed below `key`. */
  function LastLayerBelow(es: seq<Entry>, key: string): Layer
  {
    if es == [] then DefaultParams
    else
      var last := es[|es| - 1];
      if IsBelow(key, PathKey(last.path)) then last.layer else LastLayerBelow(es[..|es| - 1], key)
  }

  /** A leaf filed under the path itself answers before the bag is looked at. */
  ghost predicate Reads(es: seq<Entry>, path: Path, r: Option<Reading>)
  {
    if exists e :: e in es && PathKey(e.path) == PathKey(path)
    then exists e :: e in es && PathKey(e.path) == PathKey(path) && r == Some(Reading(Leaf(e.atom), e.layer))
    else match Subtree(TreeOf(es), path)
         case None => r == None
         case Some(value) => r == Some(Reading(value, LastLayerBelow(es, PathKey(path))))
  }

  /** The spelling of an index. */
  function Decimal(n: nat): string
  {
    var digit := [('0' as int + n % 10) as char];
    if n < 10 then digit else Decimal(n / 10) + digit
  }

  lemma {:induction false} DecimalIsIndex(n: nat)
    ensures IsIndex(Decimal(n)) && IndexOf(Decimal(n)) == n && (Decimal(n)[0] == '0' ==> n == 0)
  {
    if n >= 10 {
      DecimalIsIndex(n / 10);
      assert Decimal(n)[..|Decimal(n)| - 1] == Decimal(n / 10);
    } else {
      assert Decimal(n)[..0] == "" && IndexOf(Decimal(n)[..0]) == 0;
    }
  }

  lemma {:induction false} IndexIsDecimal(segment: string)
    requires IsIndex(segment)
    ensures segment == Decimal(IndexOf(segment))
  {
    var init, last := segment[..|segment| - 1], segment[|segment| - 1];
    assert segment == init + [last];
    if init == "" {
      assert IndexOf(init) == 0;
    } else {
      assert IsIndex(init) by { assert init[0] == segment[0]; }
      IndexIsDecimal(init);
      NoLeadingZero(init);
      OneMoreDigit(IndexOf(init), last);
      assert IndexOf(segment) == 10 * IndexOf(init) + (last as int - '0' as int);
    }
  }

  lemma OneMoreDigit(m: nat, digit: char)
    requires m > 0 && '0' <= digit <= '9'
    ensures Decimal(10 * m + (digit as int - '0' as int)) == Decimal(m) + [digit]
  {
    var n := 10 * m + (digit as int - '0' as int);
    assert n / 10 == m && n % 10 == digit as int - '0' as int;
  }

  lemma {:induction false} NoLeadingZero(segment: string)
    requires segment != "" && Digits(segment) && segment[0] != '0'
    ensures IndexOf(segment) > 0
  {
    if |segment| > 1 { NoLeadingZero(segment[..|segment| - 1]); } else { assert IndexOf(segment[..0]) == 0; }
  }

  /** An array is read by the spellings of its indices, and by its length; nothing else is found in it. */
  lemma ArrayReads(items: seq<Json>, segment: string)
    ensures forall i | 0 <= i < |items| && segment == Decimal(i) ::
              Child(Leaf(Array(items)), segment) == Some(items[i])
    ensures segment == "length" ==> Child(Leaf(Array(items)), segment) == Some(Leaf(Number(|items| as real)))
    ensures Child(Leaf(Array(items)), segment).Some? ==>
              segment == "length" || exists i :: 0 <= i < |items| && segment == Decimal(i)
  {
    forall i | 0 <= i < |items| && segment == Decimal(i)
      ensures Child(Leaf(Array(items)), segment) == Some(items[i])
    {
      DecimalIsIndex(i);
      assert segment != "length" by { assert "length"[0] == 'l'; }
    }
    if IsIndex(segment) { IndexIsDecimal(segment); }
  }

  /** An object is read by its fields; other values hold nothing. */
  lemma ObjectReads(value: Json, segment: string)
    ensures value.Node? && segment in value.fields ==> Child(value, segment) == Some(value.fields[segment])
    ensures value.Node? && segment !in value.fields ==> Child(value, segment) == None
    ensures value.Leaf? && !value.atom.Array? ==> Child(value, segment) == None
  {
  }

  lemma {:induction false} NoLayerBelow(es: seq<Entry>, key: string)
    requires forall j | 0 <= j < |es| :: !IsBelow(key, PathKey(es[j].path))
    ensures LastLayerBelow(es, key) == DefaultParams
  {
    if es != [] { NoLayerBelow(es[..|es| - 1], key); }
  }

  lemma {:induction false} LayerBelowIsLast(es: seq<Entry>, key: string, i: nat)
    requires i < |es| && IsBelow(key, PathKey(es[i].path))
    requires forall j | i < j < |es| :: !IsBelow(key, PathKey(es[j].path))
    ensures LastLayerBelow(es, key) == es[i].layer
  {
    if i < |es| - 1 { LayerBelowIsLast(es[..|es| - 1], key, i); }
  }

  /**
   Where no leaf has the path's own key, a reading shows the layer of the last leaf whose key is below it, and that of
   the defaults if there is none.
   */
  lemma ReadingShowsLastLayer(es: seq<Entry>, path: Path, r: Option<Reading>)
    requires ProperPaths(es) && path != [] && Reads(es, path, r) && r.Some?
    requires forall e | e in es :: Resplit(e.path) != Resplit(path)
    ensures forall i | 0 <= i < |es| && LastBelow(es, i, path) :: r.value.layer == es[i].layer
    ensures (forall e | e in es :: !(Resplit(path) < Resplit(e.path))) ==> r.value.layer == DefaultParams
  {
    forall i | 0 <= i < |es|
      ensures PathKey(es[i].path) != PathKey(path)
      ensures IsBelow(PathKey(path), PathKey(es[i].path)) <==> Resplit(path) < Resplit(es[i].path)
    {
      assert es[i] in es;
      KeysReflectResplitPaths(path, es[i].path);
    }
    forall i | 0 <= i < |es| && LastBelow(es, i, path) ensures LastLayerBelow(es, PathKey(path)) == es[i].layer
    {
      LayerBelowIsLast(es, PathKey(path), i);
    }
    if forall e | e in es :: !(Resplit(path) < Resplit(e.path)) { NoLayerBelow(es, PathKey(path)); }
  }

  /** The last entry whose re-split path extends the re-split path strictly. */
  predicate LastBelow(es: seq<Entry>, i: nat, path: Path)
    requires i < |es|
  {
    Resplit(path) < Resplit(es[i].path) && forall j | i < j < |es| :: !(Resplit(path) < Resplit(es[j].path))
  }

  lemma {:induction false} SubtreeReading(tree: Json, path: Path)
    ensures At(tree, path).Terminal? ==> Subtree(tree, path) == Some(Leaf(At(tree, path).atom))
    ensures At(tree, path) == Inner ==> Subtree(tree, path).Some? && Subtree(tree, path).value.Node?
    decreases |path|
  {
    if path != [] && tree.Node? && path[0] in tree.fields {
      SubtreeReading(tree.fields[path[0]], path[1..]);
    }
  }

  lemma {:induction false} SubtreeConcat(tree: Json, p: Path, q: Path)
    ensures Subtree(tree, p + q) == if Subtree(tree, p).None? then None else Subtree(Subtree(tree, p).value, q)
    decreases |p|
  {
    if p == [] {
      assert p + q == q;
    } else {
      assert (p + q)[1..] == p[1..] + q;
      var child := Child(tree, p[0]);
      if child.Some? { SubtreeConcat(child.value, p[1..], q); }
    }
  }

  /** Where the tree holds no leaf or object but the cursor finds something, it has walked into a leaf above. */
  lemma {:induction false} WalksIntoLeaf(tree: Json, path: Path) returns (above: Path)
    requires At(tree, path) == Absent && Subtree(tree, path).Some?
    ensures above < path && At(tree, above).Terminal?
    decreases |path|
  {
    if tree.Leaf? {
      above := [];
    } else {
      var rest := WalksIntoLeaf(tree.fields[path[0]], path[1..]);
      above := [path[0]] + rest;
      assert above[1..] == rest && path == [path[0]] + path[1..];
    }
  }

  /** Nothing filed later stands at, above or below the leaf. */
  predicate Undisturbed(es: seq<Entry>, i: nat)
    requires i < |es|
  {
    forall j | i < j < |es| :: !Comparable(es[j].path, es[i].path)
  }

  /** The bag holds a filed leaf at its path exactly when it is undisturbed. */
  lemma {:induction false} ShownWhenUndisturbed(es: seq<Entry>, i: nat)
    requires DistinctPaths(es) && i < |es|
    ensures DecideAt(es, es[i].path) == Terminal(es[i].atom) <==> Undisturbed(es, i)
    ensures DecideAt(es, es[i].path).Terminal? ==> Undisturbed(es, i)
  {
    var n := |es| - 1;
    if i < n {
      ShownWhenUndisturbed(es[..n], i);
      assert es[n].path != es[i].path;
    }
  }

  lemma {:induction false} ShownIsFiled(es: seq<Entry>, m: Path) returns (i: nat)
    requires DistinctPaths(es) && m != [] && DecideAt(es, m).Terminal?
    ensures i < |es| && es[i].path == m && Undisturbed(es, i) && DecideAt(es, m) == Terminal(es[i].atom)
  {
    TouchedOrNot(es, m);
    var e :| e in es && e.path == m;
    i :| 0 <= i < |es| && es[i] == e;
    ShownWhenUndisturbed(es, i);
  }

  lemma LeafAbove(es: seq<Entry>, j: nat, m: Path)
    requires ProperPaths(es) && DistinctPaths(es) && j < |es| && es[j].path < m && Undisturbed(es, j)
    ensures Subtree(TreeOf(es), m) == Subtree(Leaf(es[j].atom), m[|es[j].path|..])
  {
    var p := es[j].path;
    TreeReadings(es, p);
    ShownWhenUndisturbed(es, j);
    SubtreeReading(TreeOf(es), p);
    SubtreeConcat(TreeOf(es), p, m[|p|..]);
    assert m == p + m[|p|..];
  }

  /** An undisturbed entry at the path holds the value, or one above it holds an array with the value at the rest. */
  predicate HeldAt(es: seq<Entry>, path: Path, a: Atom)
  {
    exists j :: 0 <= j < |es| && Holds(es, j, path, a)
  }

  predicate Holds(es: seq<Entry>, j: nat, path: Path, a: Atom)
    requires j < |es|
  {
    && es[j].path <= path && Undisturbed(es, j)
    && Subtree(Leaf(es[j].atom), path[|es[j].path|..]) == Some(Leaf(a))
  }

  lemma HolderShows(es: seq<Entry>, j: nat, path: Path, a: Atom)
    requires ProperPaths(es) && DistinctPaths(es) && j < |es| && Holds(es, j, path, a)
    ensures Subtree(TreeOf(es), path) == Some(Leaf(a))
  {
    if es[j].path == path {
      TreeReadings(es, path);
      ShownWhenUndisturbed(es, j);
      SubtreeReading(TreeOf(es), path);
    } else {
      LeafAbove(es, j, path);
    }
  }

  /** Which leaf values a cursor finds in the bag, said of the list. */
  lemma BagHolds(es: seq<Entry>, path: Path, a: Atom)
    requires ProperPaths(es) && DistinctPaths(es) && path != []
    ensures Subtree(TreeOf(es), path) == Some(Leaf(a)) <==> HeldAt(es, path, a)
  {
    var tree := TreeOf(es);
    if j :| 0 <= j < |es| && Holds(es, j, path, a) {
      HolderShows(es, j, path, a);
    } else if Subtree(tree, path) == Some(Leaf(a)) {
      TreeReadings(es, path);
      SubtreeReading(tree, path);
      if At(tree, path).Terminal? {
        var i := ShownIsFiled(es, path);
        assert path[|path|..] == [];
        assert Holds(es, i, path, a);
      } else {
        var above := WalksIntoLeaf(tree, path);
        TreeReadings(es, above);
        TreesHaveNoEmptyObjects(es);
        var j := ShownIsFiled(es, above);
        LeafAbove(es, j, path);
        assert Holds(es, j, path, a);
      }
    }
  }

  /**
   What `get` reports is what the bag holds at the path if and only if the list holds there the value of the leaf that
   is filed under the path's key, if there is one.
   */
  lemma ReadsAgreeWithBag(es: seq<Entry>, path: Path, r: Option<Reading>)
    requires Sound(es) && path != [] && Reads(es, path, r)
    ensures (if r.Some? then Some(r.value.value) else None) == Subtree(TreeOf(es), path) <==>
            forall e | e in es && PathKey(e.path) == PathKey(path) :: HeldAt(es, path, e.atom)
  {
    KeysApartPathsApart(es);
    if e :| e in es && PathKey(e.path) == PathKey(path) {
      OnePerKey(es, e);
      BagHolds(es, path, e.atom);
    }
  }

  lemma OnePerKey(es: seq<Entry>, e: Entry)
    requires DistinctKeys(es) && e in es
    ensures forall f | f in es && PathKey(f.path) == PathKey(e.path) :: f == e
  {
    var i :| 0 <= i < |es| && es[i] == e;
    forall f | f in es && PathKey(f.path) == PathKey(e.path) ensures f == e
    {
      var j :| 0 <= j < |es| && es[j] == f;
    }
  }

  /** Two writes after which `get` still reports the first leaf, which the second has overwritten in the bag. */
  lemma OverwrittenLeafWitness()
    ensures var first, second :=
        Entry(["a"], Number(1.0), ParamsCommand), Entry(["a", "b"], Number(2.0), ParamsCommand);
            && Wrote([], ["a"], Leaf(Number(1.0)), ParamsCommand, [first])
            && Wrote([first], ["a", "b"], Leaf(Number(2.0)), ParamsCommand, [first, second])
            && Reads([first, second], ["a"], Some(Reading(Leaf(Number(1.0)), ParamsCommand)))
            && Subtree(TreeOf([first, second]), ["a"]) != Some(Leaf(Number(1.0)))
  {
    var first, second := Entry(["a"], Number(1.0), ParamsCommand), Entry(["a", "b"], Number(2.0), ParamsCommand);
    OneWriteToEmpty(first);
    OneWriteToEmpty(second);
    SecondWriteAppends(first, second);
    var es := [first, second];
    assert es[0].path == ["a"] && es[1].path == ["a", "b"];
    assert es[0] in es;
    assert Comparable(es[1].path, es[0].path) && !Undisturbed(es, 0);
    BagHolds(es, ["a"], first.atom);
  }

  /** One write after which `get` reports the leaf also at a path whose key it shares, where the bag holds nothing. */
  lemma SharedKeyReadWitness()
    ensures var e := Entry(["a b"], Number(1.0), Launch);
            && Wrote([], ["a b"], Leaf(Number(1.0)), Launch, [e])
            && Reads([e], ["a", "b"], Some(Reading(Leaf(Number(1.0)), Launch)))
            && Subtree(TreeOf([e]), ["a", "b"]) == None
  {
    var e := Entry(["a b"], Number(1.0), Launch);
    var es := [e];
    OneWriteToEmpty(e);
    SeparatorInSegmentCollides();
    assert e in es && PathKey(e.path) == PathKey(["a", "b"]);
    assert es[..0] == [] && TreeOf(es[..0]) == EMPTY_BAG;
    assert TreeOf(es) == SetAt(EMPTY_BAG, ["a b"], Leaf(Number(1.0)));
    assert ["a b"][1..] == [];
    assert TreeOf(es) == Node(map["a b" := Leaf(Number(1.0))]);
    assert |"a"| != |"a b"|;
  }

  lemma SecondWriteAppends(first: Entry, second: Entry)
    requires first.path != [] && first.path < second.path
    ensures Wrote([first], second.path, Leaf(second.atom), second.layer, [first, second])
  {
    OneWriteToEmpty(second);
    KeysReflectPaths(first.path, second.path);
    assert [first][..0] == [];
    assert WithoutKey([first], PathKey(second.path)) == [first];
    LeafIsItsFlattening(Leaf(second.atom), second.path, second.layer, [second]);
    assert MapSet([first], second) == [first, second];
  }

  // ----- The effective view -----

  /** The layer of the last leaf under a top-level key. */
  function TopLayer(es: seq<Entry>, key: string): Option<Layer>
    requires ProperPaths(es)
  {
    if es == [] then None
    else
      var last := es[|es| - 1];
      assert last in es;
      if last.path[0] == key then Some(last.layer) else TopLayer(es[..|es| - 1], key)
  }

  /** Every top-level key of the bag with its value and the layer of its last leaf. */
  function Effective(es: seq<Entry>): map<string, Reading>
    requires ProperPaths(es)
  {
    var bag := TreeOf(es);
    TreesHaveNoEmptyObjects(es);
    map k | k in bag.fields ::
      Reading(bag.fields[k], if TopLayer(es, k).Some? then TopLayer(es, k).value else DefaultParams)
  }

  lemma {:induction false} TopLayerWhenFiled(es: seq<Entry>, key: string)
    requires ProperPaths(es)
    ensures TopLayer(es, key).Some? <==> exists e :: e in es && e.path[0] == key
  {
    if es != [] {
      TopLayerWhenFiled(es[..|es| - 1], key);
      assert es == es[..|es| - 1] + [es[|es| - 1]];
      assert es[|es| - 1] in es;
    }
  }

  lemma {:induction false} TopLayerIsLast(es: seq<Entry>, key: string, i: nat)
    requires ProperPaths(es) && i < |es| && es[i].path != [] && es[i].path[0] == key
    requires forall j | i < j < |es| :: es[j].path != [] && es[j].path[0] != key
    ensures TopLayer(es, key) == Some(es[i].layer)
  {
    var n := |es| - 1;
    if i < n {
      assert forall e | e in es[..n] :: e in es;
      TopLayerIsLast(es[..n], key, i);
    }
  }

  /**
   The view shows exactly the keys under which something is filed, so its fallback layer is never needed: each with its
   value in the bag and the layer of the last leaf under it.
   */
  lemma {:induction false} EffectiveShowsFiledKeys(es: seq<Entry>, key: string)
    requires ProperPaths(es)
    ensures key in Effective(es) <==> exists e :: e in es && e.path[0] == key
    ensures forall i | 0 <= i < |es| && LastUnder(es, i, key) ::
              && key in Effective(es) && key in TreeOf(es).fields
              && Effective(es)[key] == Reading(TreeOf(es).fields[key], es[i].layer)
  {
    TopLayerWhenFiled(es, key);
    ViewMatchesLayers(es, key);
    forall i | 0 <= i < |es| && LastUnder(es, i, key) ensures TopLayer(es, key) == Some(es[i].layer)
    {
      TopLayerIsLast(es, key, i);
    }
  }

  /** The last entry whose path begins with the key. */
  predicate LastUnder(es: seq<Entry>, i: nat, key: string)
    requires i < |es|
  {
    && es[i].path != [] && es[i].path[0] == key
    && forall j | i < j < |es| :: es[j].path != [] && es[j].path[0] != key
  }

  lemma {:induction false} ViewMatchesLayers(es: seq<Entry>, key: string)
    requires ProperPaths(es)
    ensures key in Effective(es) <==> TopLayer(es, key).Some?
  {
    TreesHaveNoEmptyObjects(es);
    if es != [] {
      var init, last := es[..|es| - 1], es[|es| - 1];
      assert last in es && forall e | e in init :: e in es;
      TreesHaveNoEmptyObjects(init);
      ViewMatchesLayers(init, key);
    }
  }

  // ----- The store -----

  class ParamsRuntimeStore {
    var leaves: seq<Entry>

    constructor (defaultParams: Option<Json>)
      requires defaultParams.Some? ==> defaultParams.value.Node?
      ensures defaultParams.None? ==> leaves == []
      ensures defaultParams.Some? ==>
                exists listed :: IsFlattening(listed, defaultParams.value, [], DefaultParams)
                    && leaves == MapSetAll([], listed)
      ensures Sound(leaves)
    {
      leaves := [];
      new;
      if defaultParams.Some? {
        ghost var listed;
        leaves, listed := FlattenLeaves(defaultParams.value, [], DefaultParams, leaves);
        SeededStoreIsSound(defaultParams.value, listed);
      }
    }

    /** Set a runtime override. */
    method Set(path: Path, value: Json, layer: Layer)
      requires !layer.DefaultParams?
      modifies this
      ensures path == [] ==> leaves == old(leaves)
      ensures path != [] ==> Wrote(old(leaves), path, value, layer, leaves)
      ensures Sound(old(leaves)) ==> Sound(leaves)
    {
      if path == [] { return; }
      var key := PathKey(path);
      var kept := [];
      for i := 0 to |leaves|
        invariant kept == WithoutKey(leaves[..i], key) && leaves == old(leaves)
      {
        assert leaves[..i + 1][..i] == leaves[..i];
        var k := PathKey(leaves[i].path);
        if !(k == key || IsBelow(key, k)) {
          kept := kept + [leaves[i]];
        }
      }
      assert leaves[..|leaves|] == leaves;
      if value.Node? {
        ghost var listed;
        leaves, listed := FlattenLeaves(value, path, layer, kept);
      } else {
        ghost var listed := [Entry(path, value.atom, layer)];
        LeafIsItsFlattening(value, path, layer, listed);
        assert MapSetAll(kept, listed) == MapSet(kept, listed[0]);
        leaves := MapSet(kept, Entry(path, value.atom, layer));
      }
      if Sound(old(leaves)) { WriteKeepsSound(old(leaves), path, value, layer, leaves); }
    }

    /** Replace the default layer, keeping every runtime override. */
    method ApplyDefaultParams(defaults: Json)
      requires defaults.Node?
      modifies this
      ensures exists added :: IsFlattening(added, defaults, [], DefaultParams)
                              && leaves == Applied(old(leaves), MapSetAll([], added))
      ensures Overrides(leaves) == Overrides(old(leaves))
      ensures Sound(old(leaves)) ==> Sound(leaves)
    {
      var kept := [];
      for i := 0 to |leaves|
        invariant kept == Overrides(leaves[..i]) && leaves == old(leaves)
      {
        assert leaves[..i + 1][..i] == leaves[..i];
        if !leaves[i].layer.DefaultParams? {
          kept := kept + [leaves[i]];
        }
      }
      assert leaves[..|leaves|] == leaves;
      var defaultLeaves, listed := FlattenLeaves(defaults, [], DefaultParams, []);
      leaves := kept;
      for i := 0 to |defaultLeaves|
        invariant leaves == AddMissing(kept, defaultLeaves[..i])
      {
        assert defaultLeaves[..i + 1][..i] == defaultLeaves[..i];
        if !HasKey(leaves, PathKey(defaultLeaves[i].path)) {
          leaves := MapSet(leaves, defaultLeaves[i]);
        }
      }
      assert defaultLeaves[..|defaultLeaves|] == defaultLeaves;
      AppliedKeepsOverrides(old(leaves), defaults, listed);
      if Sound(old(leaves)) { AppliedIsSound(old(leaves), defaults, listed); }
    }

    /** The bag the store would hold after `ApplyDefaultParams(next)`, as the swap validates it. */
    method ProjectMergedBagWithDefaults(next: Json) returns (bag: Json)
      requires next.Node? && ProperPaths(leaves)
      ensures exists listed :: IsFlattening(listed, next, [], DefaultParams)
                               && bag == TreeOf(Projected(leaves, MapSetAll([], listed)))
    {
      var defaultLeaves, listed := FlattenLeaves(next, [], DefaultParams, []);
      var projected := defaultLeaves;
      for i := 0 to |leaves|
        invariant projected == MapSetAll(defaultLeaves, Overrides(leaves[..i]))
      {
        assert leaves[..i + 1][..i] == leaves[..i];
        if !leaves[i].layer.DefaultParams? {
          var over := Overrides(leaves[..i]);
          assert (over + [leaves[i]])[..|over|] == over;
          projected := MapSet(projected, leaves[i]);
        }
      }
      assert leaves[..|leaves|] == leaves;
      forall e | e in listed ensures e.path != []
      {
        assert e.path[0..] == e.path;
      }
      OverridesOf(leaves);
      SetMembers([], listed);
      SetMembers(defaultLeaves, Overrides(leaves));
      bag := LeafMapToTree(projected);
    }

    method GetEffective() returns (view: map<string, Reading>)
      requires ProperPaths(leaves)
      ensures view == Effective(leaves)
    {
      var tree := LeafMapToTree(leaves);
      TreesHaveNoEmptyObjects(leaves);
      var topProvenance: map<string, Layer> := map[];
      for i := 0 to |leaves|
        invariant forall k :: if k in topProvenance then TopLayer(leaves[..i], k) == Some(topProvenance[k])
                              else TopLayer(leaves[..i], k) == None
      {
        assert leaves[..i + 1][..i] == leaves[..i] && leaves[i] in leaves;
        topProvenance := topProvenance[leaves[i].path[0] := leaves[i].layer];
      }
      assert leaves[..|leaves|] == leaves;
      view := map k | k in tree.fields ::
        Reading(tree.fields[k], if k in topProvenance then topProvenance[k] else DefaultParams);
    }

    method AsMergedBag() returns (bag: Json)
      requires ProperPaths(leaves)
      ensures bag == TreeOf(leaves)
    {
      bag := LeafMapToTree(leaves);
    }

    method Get(path: Path) returns (r: Option<Reading>)
      requires ProperPaths(leaves)
      ensures path == [] ==> r == None
      ensures path != [] ==> Reads(leaves, path, r)
    {
      if path == [] { return None; }
      for i := 0 to |leaves|
        invariant forall j | 0 <= j < i :: PathKey(leaves[j].path) != PathKey(path)
      {
        if PathKey(leaves[i].path) == PathKey(path) {
          assert leaves[i] in leaves;
          return Some(Reading(Leaf(leaves[i].atom), leaves[i].layer));
        }
      }
      var cursor := LeafMapToTree(leaves);
      for i := 0 to |path|
        invariant Subtree(TreeOf(leaves), path) == Subtree(cursor, path[i..])
      {
        assert path[i..][1..] == path[i + 1..];
        var child := Child(cursor, path[i]);
        if child.None? { return None; }
        cursor := child.value;
      }
      var layer := DefaultParams;
      for i := 0 to |leaves|
        invariant layer == LastLayerBelow(leaves[..i], PathKey(path))
      {
        assert leaves[..i + 1][..i] == leaves[..i];
        if IsBelow(PathKey(path), PathKey(leaves[i].path)) { layer := leaves[i].layer; }
      }
      assert leaves[..|leaves|] == leaves;
      return Some(Reading(cursor, layer));
    }
  }

  lemma SeededStoreIsSound(defaults: Json, listed: seq<Entry>)
    requires defaults.Node? && IsFlattening(listed, defaults, [], DefaultParams)
    ensures Sound(MapSetAll([], listed))
  {
    var leaves := MapSetAll([], listed);
    DefaultsAsPaths(defaults, listed);
    SetMembers([], listed);
    SetAllKeepsKeysApart([], listed);
    OverridesOf(leaves);
  }

  // ----- The /params command -----

  function FirstIndexOf(text: string, c: char): (i: nat)
    ensures i <= |text| && c !in text[..i] && (i < |text| ==> text[i] == c)
  {
    if text == "" || text[0] == c then 0 else 1 + FirstIndexOf(text[1..], c)
  }

  /** The value of a token: JSON if the text parses and the text itself otherwise. */
  function TokenValue(text: string, json: string -> Option<Json>): Json
  {
    var value := json(text);
    if value.Some? then value.value else Leaf(Text(text))
  }

  /** The write has the path, and as its value the text's JSON if it parses and the text itself otherwise. */
  predicate ReadAs(w: Write, path: Path, text: string, json: string -> Option<Json>)
  {
    w.path == path && if json(text).Some? then w.value == json(text).value else w.value == Leaf(Text(text))
  }

  /**
   One `path=value` token: the path is split at dots, empty segments dropped, and must not be empty. So a token parses
   exactly when something other than dots stands before its first '='.
   */
  function ParseLaunchParam(raw: string, json: string -> Option<Json>): (w: Option<Write>)
    ensures w.Some? <==> '=' in raw && !OnlySeparators(raw[..FirstIndexOf(raw, '=')], '.')
    ensures w.Some? ==>
              && w.value.path != [] && (forall segment | segment in w.value.path :: segment != "" && '.' !in segment)
              && ReadAs(w.value, w.value.path, raw[FirstIndexOf(raw, '=') + 1..], json)
  {
    var eq := FirstIndexOf(raw, '=');
    assert eq == |raw| ==> raw[..eq] == raw;
    assert eq < |raw| ==> raw[eq] in raw;
    if eq == 0 || eq == |raw| then None
    else
      var path := NonEmpty(Split(raw[..eq], '.'));
      JoinSplit(raw[..eq], '.');
      NoPartsInSeparators(raw[..eq], '.');
      NonEmptyMembers(Split(raw[..eq], '.'));
      if path == [] then None
      else
        Some(Write(path, TokenValue(raw[eq + 1..], json)))
  }

  predicate Spellable(parts: seq<string>)
  {
    forall part | part in parts :: '.' !in part && '=' !in part
  }

  /**
   Parts spelled with dots, an '=' and any text parse back to the parts that are not empty and the value of the text;
   a path of non-empty segments comes back as it was.
   */
  lemma LaunchParamRoundTrip(parts: seq<string>, text: string, json: string -> Option<Json>)
    requires Spellable(parts) && exists part :: part in parts && part != ""
    ensures var w := ParseLaunchParam(Join(parts, '.') + "=" + text, json);
            && w.Some? && ReadAs(w.value, NonEmpty(parts), text, json)
            && ((forall part | part in parts :: part != "") ==> w.value.path == parts)
  {
    var spelled := Join(parts, '.');
    var raw := spelled + "=" + text;
    JoinedWithout(parts, '.', '=');
    FirstIndexAfter(spelled, text, '=');
    assert raw[..|spelled|] == spelled && raw[|spelled| + 1..] == text;
    SplitJoin(parts, '.');
    NonEmptyMembers(parts);
    NoPartsInSeparators(spelled, '.');
    assert spelled != "" by { assert Split("", '.') == [""]; }
  }

  lemma {:induction false} JoinedWithout(parts: seq<string>, sep: char, c: char)
    requires c != sep && forall part | part in parts :: c !in part
    ensures c !in Join(parts, sep) && (parts != [] ==> |parts[0]| <= |Join(parts, sep)|)
  {
    if |parts| > 1 {
      forall part | part in parts[1..] ensures c !in part { assert part in parts; }
      JoinedWithout(parts[1..], sep, c);
    }
  }

  lemma {:induction false} FirstIndexAfter(a: string, b: string, c: char)
    requires c !in a
    ensures FirstIndexOf(a + [c] + b, c) == |a|
  {
    if a != "" {
      assert (a + [c] + b)[1..] == a[1..] + [c] + b;
      FirstIndexAfter(a[1..], b, c);
    }
  }

  /** The writes of all tokens, or nothing when one of them does not parse. */
  function ParseTokens(tokens: seq<string>, json: string -> Option<Json>): (ws: Option<seq<Write>>)
    ensures ws.Some? ==> |ws.value| == |tokens| && ProperWrites(ws.value)
    ensures ws.Some? <==> forall i | 0 <= i < |tokens| :: ParseLaunchParam(tokens[i], json).Some?
    ensures ws.Some? ==> forall i | 0 <= i < |tokens| :: Some(ws.value[i]) == ParseLaunchParam(tokens[i], json)
  {
    if tokens == [] then Some([])
    else
      var init := ParseTokens(tokens[..|tokens| - 1], json);
      var last := ParseLaunchParam(tokens[|tokens| - 1], json);
      if init.None? || last.None? then None else Some(init.value + [last.value])
  }

  /** The tokens spell the paths and give each its text. */
  ghost predicate Spelled(tokens: seq<string>, paths: seq<Path>, texts: seq<string>)
  {
    && |paths| == |texts| == |tokens|
    && forall i | 0 <= i < |tokens| ::
         && paths[i] != [] && Spellable(paths[i]) && (forall segment | segment in paths[i] :: segment != "")
         && tokens[i] == Join(paths[i], '.') + "=" + texts[i]
  }

  /** When tokens are well-formed, the writes have their paths, in order, each with the value of its text. */
  ghost predicate ReadAsSpelled(tokens: seq<string>, ws: Option<seq<Write>>, json: string -> Option<Json>)
  {
    forall paths, texts | Spelled(tokens, paths, texts) ::
      && ws.Some? && |ws.value| == |tokens|
      && forall i | 0 <= i < |tokens| :: ReadAs(ws.value[i], paths[i], texts[i], json)
  }

  lemma SpelledTokensParse(tokens: seq<string>, json: string -> Option<Json>)
    ensures ReadAsSpelled(tokens, ParseTokens(tokens, json), json)
  {
    forall paths, texts, i | Spelled(tokens, paths, texts) && 0 <= i < |tokens|
      ensures var w := ParseLaunchParam(tokens[i], json); w.Some? && ReadAs(w.value, paths[i], texts[i], json)
    {
      assert paths[i][0] in paths[i];
      LaunchParamRoundTrip(paths[i], texts[i], json);
    }
  }

  datatype CommandResult =
    | Refused
    | Shown(view: map<string, Reading>)
    | Unparsable
    | Invalid
    | Updated(changed: seq<Path>)

  /** All tokens parsed in order; the first that does not parse ends the command. */
  method ParseWrites(tokens: seq<string>, json: string -> Option<Json>) returns (ws: Option<seq<Write>>)
    ensures ws == ParseTokens(tokens, json)
  {
    var writes: seq<Write> := [];
    for i := 0 to |tokens|
      invariant ParseTokens(tokens[..i], json) == Some(writes)
    {
      assert tokens[..i + 1][..i] == tokens[..i];
      var parsed := ParseLaunchParam(tokens[i], json);
      if parsed.None? {
        UnparsableStays(tokens, json, i + 1);
        return None;
      }
      writes := writes + [parsed.value];
    }
    assert tokens[..|tokens|] == tokens;
    return Some(writes);
  }

  lemma {:induction false} UnparsableStays(tokens: seq<string>, json: string -> Option<Json>, k: nat)
    requires k <= |tokens| && ParseTokens(tokens[..k], json).None?
    ensures ParseTokens(tokens, json).None?
  {
    if k < |tokens| {
      assert tokens[..|tokens| - 1][..k] == tokens[..k];
      UnparsableStays(tokens[..|tokens| - 1], json, k);
    } else {
      assert tokens[..k] == tokens;
    }
  }

  /** All writes applied to a copy of the bag; `held` is what the values have become by then. */
  method ProjectWrites(bag: Json, writes: seq<Write>) returns (projected: Json, held: seq<Write>)
    requires bag.Node? && ProperWrites(writes)
    ensures projected == Project(bag, writes) && held == Replayed(writes)
  {
    projected, held := bag, [];
    for i := 0 to |writes|
      invariant projected == Project(bag, writes[..i]) && projected.Node?
      invariant held == Replayed(writes[..i])
    {
      assert writes[..i + 1][..i] == writes[..i];
      assert writes[i] in writes;
      projected := WriteThroughCursor(projected, writes[i].path, writes[i].value);
      held := AfterWrite(held, writes[i]);
    }
    assert writes[..|writes|] == writes;
  }

  /** Replays writes on the store, one `ParamsChanged` per write. */
  method PersistWrites(store: ParamsRuntimeStore, writes: seq<Write>, layer: Layer)
      returns (changed: seq<Path>, ghost states: seq<seq<Entry>>)
    requires !layer.DefaultParams? && ProperWrites(writes)
    modifies store
    ensures |changed| == |writes| && forall i | 0 <= i < |writes| :: changed[i] == writes[i].path
    ensures WriteRun(states, writes, layer) && states[0] == old(store.leaves) && states[|writes|] == store.leaves
  {
    changed, states := [], [store.leaves];
    for i := 0 to |writes|
      invariant WriteRun(states, writes[..i], layer) && states[0] == old(store.leaves) && states[i] == store.leaves
      invariant |changed| == i && forall j | 0 <= j < i :: changed[j] == writes[j].path
    {
      assert writes[i] in writes && writes[..i + 1] == writes[..i] + [writes[i]];
      store.Set(writes[i].path, writes[i].value, layer);
      OneMoreWrite(states, writes[..i], layer, writes[i], store.leaves);
      states := states + [store.leaves];
      changed := changed + [writes[i].path];
    }
    assert writes[..|writes|] == writes;
  }

  /**
   Without tokens, shows the effective view. Otherwise validates all writes at once on a copy of the bag and then
   replays them on the store. Nothing is written when the stage is mid-act, a token does not parse or validation fails.
   */
  method DispatchParamsCommand(store: ParamsRuntimeStore, midAct: bool, tokens: seq<string>,
                               json: string -> Option<Json>, valid: Json -> bool)
      returns (result: CommandResult, ghost states: seq<seq<Entry>>)
    requires Sound(store.leaves)
    modifies store
    ensures Sound(store.leaves)
    ensures midAct ==> result == Refused
    ensures !midAct && tokens == [] ==> result == Shown(Effective(store.leaves))
    ensures !midAct && tokens != [] ==> (result == Unparsable <==> ParseTokens(tokens, json).None?)
    ensures !midAct && tokens != [] && ParseTokens(tokens, json).Some? ==>
              var ws := ParseTokens(tokens, json).value;
              if valid(Project(TreeOf(old(store.leaves)), ws))
              then result.Updated? && |result.changed| == |ws|
                   && forall i | 0 <= i < |ws| :: result.changed[i] == ws[i].path
              else result == Invalid
    ensures ReadAsSpelled(tokens, ParseTokens(tokens, json), json)
    ensures !result.Updated? ==> store.leaves == old(store.leaves)
    ensures result.Updated? ==>
              ParseTokens(tokens, json).Some?
              && WriteRun(states, Replayed(ParseTokens(tokens, json).value), ParamsCommand)
              && states[0] == old(store.leaves) && states[|states| - 1] == store.leaves
    ensures result.Updated? && KeysApartInValues(ParseTokens(tokens, json).value) ==>
              var ws := ParseTokens(tokens, json).value;
              var validated := Project(TreeOf(old(store.leaves)), ws);
              TreeOf(store.leaves) == validated <==> NoEmptyObjects(validated) && NothingLost(validated, ws)
  {
    states := [store.leaves];
    SpelledTokensParse(tokens, json);
    if midAct { return Refused, states; }
    if tokens == [] {
      var view := store.GetEffective();
      return Shown(view), states;
    }
    var parsed := ParseWrites(tokens, json);
    if parsed.None? { return Unparsable, states; }
    var writes := parsed.value;
    var bag := store.AsMergedBag();
    TreesHaveNoEmptyObjects(store.leaves);
    var projected, held := ProjectWrites(bag, writes);
    if !valid(projected) { return Invalid, states; }
    ReplayedPaths(writes);
    ReplayedProper(writes);
    var changed;
    changed, states := PersistWrites(store, held, ParamsCommand);
    RunsKeepSound(states, held, ParamsCommand);
    result := Updated(changed);
    CommandPublishesWhatItValidated(states, writes);
  }

  /** The overrides that have a path; the store ignores the others. */
  function WithPath(ws: seq<Write>): (r: seq<Write>)
    ensures ProperWrites(r)
  {
    if ws == [] then []
    else
      var init, last := WithPath(ws[..|ws| - 1]), ws[|ws| - 1];
      if last.path == [] then init else init + [last]
  }

  lemma WithPathOneMore(ws: seq<Write>, i: nat)
    requires i < |ws|
    ensures WithPath(ws[..i + 1]) == WithPath(ws[..i]) + if ws[i].path == [] then [] else [ws[i]]
  {
    assert ws[..i + 1][..i] == ws[..i];
  }

  /** The overrides set one after another, as launch parameters. */
  method SetOverrides(store: ParamsRuntimeStore, overrides: seq<Write>) returns (ghost states: seq<seq<Entry>>)
    requires Sound(store.leaves)
    modifies store
    ensures Sound(store.leaves) && WriteRun(states, WithPath(overrides), Launch)
    ensures states[0] == old(store.leaves) && states[|states| - 1] == store.leaves
  {
    states := [store.leaves];
    for i := 0 to |overrides|
      invariant Sound(store.leaves) && WriteRun(states, WithPath(overrides[..i]), Launch)
      invariant states[0] == old(store.leaves) && states[|states| - 1] == store.leaves
    {
      WithPathOneMore(overrides, i);
      store.Set(overrides[i].path, overrides[i].value, Launch);
      if overrides[i].path != [] {
        OneMoreWrite(states, WithPath(overrides[..i]), Launch, overrides[i], store.leaves);
        states := states + [store.leaves];
      }
    }
    assert overrides[..|overrides|] == overrides;
  }

  /** Launch overrides are set over the seeded defaults, and every store reached this way is sound. */
  method BuildSessionParamsStore(defaultParams: Option<Json>, overrides: seq<Write>)
      returns (store: ParamsRuntimeStore, ghost states: seq<seq<Entry>>)
    requires defaultParams.Some? ==> defaultParams.value.Node?
    ensures fresh(store) && Sound(store.leaves)
    ensures var ws := WithPath(overrides);
            |states| == |ws| + 1 && WriteRun(states, ws, Launch) && states[|ws|] == store.leaves
    ensures defaultParams.None? ==> states[0] == []
    ensures defaultParams.Some? ==>
              exists listed :: IsFlattening(listed, defaultParams.value, [], DefaultParams)
                  && states[0] == MapSetAll([], listed)
    ensures KeysApartInValues(WithPath(overrides)) ==>
              var projected := Project(TreeOf(states[0]), WithPath(overrides));
              TreeOf(store.leaves) == projected <==>
                NoEmptyObjects(projected) && NothingLost(projected, WithPath(overrides))
  {
    store := new ParamsRuntimeStore(defaultParams);
    states := SetOverrides(store, overrides);
    WritesAgree(states, WithPath(overrides), Launch);
  }
}
