/**
 Leaf paths of the params store and the flat string keys under which the store files them.
 The store compares keys with string equality and with `startsWith(key + " ")`; this module
 proves what those two string tests mean for paths, whatever characters segments hold.
 */
module ParamPaths {
  import opened Texts

  type Path = seq<string>

  const SEPARATOR: char := ' '

  /** The segments joined by the separator. */
  function PathKey(path: Path): string
  {
    Join(path, SEPARATOR)
  }

  /** The test for a leaf filed strictly below a key. */
  predicate IsBelow(key: string, below: string)
  {
    key + [SEPARATOR] <= below
  }

  predicate SeparatorFree(path: Path)
  {
    forall i | 0 <= i < |path| :: Free(path[i], SEPARATOR)
  }

  /** One of the two paths is a prefix of the other: they cannot both be leaves of one tree. */
  predicate Comparable(p: Path, q: Path)
  {
    p <= q || q <= p
  }

  /** The path as its key shows it: every segment split at the separators it holds. */
  function Resplit(path: Path): Path
  {
    if path == [] then [] else Split(path[0], SEPARATOR) + Resplit(path[1..])
  }

  /** Neither path is a prefix of the other, but their keys say so. */
  predicate Confused(p: Path, q: Path)
  {
    !Comparable(p, q) && Comparable(Resplit(p), Resplit(q))
  }

  /** No two of the paths are confused. */
  ghost predicate Clear(paths: iset<Path>)
  {
    forall p, q | p in paths && q in paths :: !Confused(p, q)
  }

  /** No two of the paths have one key. */
  ghost predicate KeysDiffer(paths: iset<Path>)
  {
    forall p, q | p in paths && q in paths :: Resplit(p) == Resplit(q) ==> p == q
  }

  lemma PrefixesOfOnePath(p: Path, q: Path, whole: Path)
    ensures p <= whole && q <= whole ==> Comparable(p, q)
  {
    if p <= whole && q <= whole {
      assert p == whole[..|p|] && q == whole[..|q|];
    }
  }

  lemma {:induction false} KeySplitsToResplit(p: Path)
    requires p != []
    ensures Split(PathKey(p), SEPARATOR) == Resplit(p)
  {
    if |p| == 1 {
      assert Resplit(p) == Split(p[0], SEPARATOR) + Resplit(p[1..]) && p[1..] == [];
    } else {
      KeySplitsToResplit(p[1..]);
      SplitConcat(p[0], PathKey(p[1..]), SEPARATOR);
    }
  }

  /** On all paths the two string tests of the store are equality and strict extension of the re-split paths. */
  lemma KeysReflectResplitPaths(p: Path, q: Path)
    requires p != [] && q != []
    ensures PathKey(p) == PathKey(q) <==> Resplit(p) == Resplit(q)
    ensures IsBelow(PathKey(p), PathKey(q)) <==> Resplit(p) < Resplit(q)
  {
    KeySplitsToResplit(p);
    KeySplitsToResplit(q);
    JoinSplit(PathKey(p), SEPARATOR);
    JoinSplit(PathKey(q), SEPARATOR);
    StartsWithPart(PathKey(p), PathKey(q), SEPARATOR);
    assert IsBelow(PathKey(p), PathKey(q)) ==> |PathKey(p)| < |PathKey(q)|;
  }

  lemma {:induction false} ResplitConcat(p: Path, q: Path)
    ensures Resplit(p + q) == Resplit(p) + Resplit(q)
    ensures q != [] ==> Resplit(q) != []
  {
    if p == [] {
      assert p + q == q;
    } else {
      ResplitConcat(p[1..], q);
      assert (p + q)[1..] == p[1..] + q;
    }
  }

  /** Prefixes stay prefixes. */
  lemma ResplitKeepsPrefixes(p: Path, q: Path)
    ensures p <= q ==> Resplit(p) <= Resplit(q)
    ensures p < q ==> Resplit(p) < Resplit(q)
  {
    if p <= q {
      assert q == p + q[|p|..];
      ResplitConcat(p, q[|p|..]);
    }
  }

  /** The string tests are path equality and strict extension if and only if the paths are not confused. */
  lemma KeysReflectPaths(p: Path, q: Path)
    requires p != [] && q != []
    ensures !Confused(p, q) <==>
              && (PathKey(p) == PathKey(q) <==> p == q)
              && (IsBelow(PathKey(p), PathKey(q)) <==> p < q)
              && (IsBelow(PathKey(q), PathKey(p)) <==> q < p)
    ensures Confused(p, q) == Confused(q, p)
    ensures p <= q ==> PathKey(p) == PathKey(q) || IsBelow(PathKey(p), PathKey(q))
  {
    KeysReflectResplitPaths(p, q);
    KeysReflectResplitPaths(q, p);
    ResplitKeepsPrefixes(p, q);
    ResplitKeepsPrefixes(q, p);
  }

  lemma {:induction false} SeparatorFreeResplit(p: Path)
    requires SeparatorFree(p)
    ensures Resplit(p) == p
  {
    if p != [] {
      FreeSplits(p[0], SEPARATOR);
      SeparatorFreeResplit(p[1..]);
      assert p == [p[0]] + p[1..];
    }
  }

  /** Paths whose segments hold no separator are never confused. */
  lemma SeparatorFreeIsClear(paths: iset<Path>)
    requires forall p | p in paths :: SeparatorFree(p)
    ensures Clear(paths)
  {
    forall p, q | p in paths && q in paths ensures !Confused(p, q)
    {
      SeparatorFreeResplit(p);
      SeparatorFreeResplit(q);
    }
  }

  lemma ClearKeysDiffer(paths: iset<Path>)
    requires Clear(paths)
    ensures KeysDiffer(paths)
  {
    forall p, q | p in paths && q in paths && Resplit(p) == Resplit(q) ensures p == q
    {
      ResplitKeepsPrefixes(p, q);
      ResplitKeepsPrefixes(q, p);
      assert !Confused(p, q);
    }
  }

  /** A segment holding the separator can give two paths one key, but need not. */
  lemma SeparatorInSegmentCollides()
    ensures PathKey(["a b"]) == PathKey(["a", "b"]) && Confused(["a b"], ["a", "b"])
    ensures !SeparatorFree(["a b"]) && !Confused(["a b"], ["c"])
  {
    assert PathKey(["a", "b"]) == "a" + [SEPARATOR] + PathKey(["b"]);
    KeysReflectResplitPaths(["a b"], ["a", "b"]);
    assert "a b"[1] == SEPARATOR;
    SplitFirst("a", "b", SEPARATOR);
    assert "a" + [SEPARATOR] + "b" == "a b";
    FreeSplits("c", SEPARATOR);
    assert Resplit(["c"]) == Split("c", SEPARATOR) + Resplit(["c"][1..]);
    assert Resplit(["a b"]) == Split("a b", SEPARATOR) + Resplit(["a b"][1..]);
    assert Resplit(["c"])[0] == "c" && Resplit(["a b"])[0] == "a";
  }
}
