/**
 The glob matcher of the isolation check: `**` takes any number of path segments, `*` any
 characters inside one segment. The matcher backtracks by recursion on two levels; here it is
 proved to accept exactly the paths that split into one block per glob element.
 */
module GlobMatch {
  import opened Texts

  // ----- What a match means -----

  function Flat<U>(blocks: seq<seq<U>>): seq<U>
  {
    if blocks == [] then [] else blocks[0] + Flat(blocks[1..])
  }

  /** Consecutive blocks of the path, one per glob element: a star takes any block, anything else one fitting item. */
  ghost predicate Covers<U, T>(blocks: seq<seq<U>>, path: seq<U>, glob: seq<T>, star: T -> bool, fits: (U, T) -> bool)
  {
    && |blocks| == |glob| && Flat(blocks) == path
    && forall k | 0 <= k < |glob| :: star(glob[k]) || (|blocks[k]| == 1 && fits(blocks[k][0], glob[k]))
  }

  ghost predicate Splits<U(!new), T>(path: seq<U>, glob: seq<T>, star: T -> bool, fits: (U, T) -> bool)
  {
    exists blocks :: Covers(blocks, path, glob, star, fits)
  }

  function IsStar(c: char): bool
  {
    c == '*'
  }

  function SameChar(c: char, d: char): bool
  {
    c == d
  }

  /** The segment splits into blocks of characters, one per character of the glob segment. */
  ghost predicate SegmentFits(segment: string, glob: string)
  {
    Splits(segment, glob, IsStar, SameChar)
  }

  function IsDoubleStar(segment: string): bool
  {
    segment == "**"
  }

  /** The path splits into blocks of segments, one per glob segment. */
  ghost predicate PathFits(path: seq<string>, glob: seq<string>)
  {
    Splits(path, glob, IsDoubleStar, (s: string, g: string) => SegmentFits(s, g))
  }

  // ----- One element at a time -----

  lemma NothingLeft<U(!new), T>(path: seq<U>, glob: seq<T>, star: T -> bool, fits: (U, T) -> bool)
    requires glob == []
    ensures Splits(path, glob, star, fits) <==> path == []
  {
    if path == [] { assert Covers([], path, glob, star, fits); }
  }

  lemma StarTakesMore<U(!new), T>(path: seq<U>, glob: seq<T>, star: T -> bool, fits: (U, T) -> bool)
    requires glob != [] && star(glob[0])
    ensures Splits(path, glob, star, fits) <==>
              Splits(path, glob[1..], star, fits) || (path != [] && Splits(path[1..], glob, star, fits))
  {
    if Splits(path, glob, star, fits) {
      var blocks :| Covers(blocks, path, glob, star, fits);
      if blocks[0] == [] {
        assert Covers(blocks[1..], path, glob[1..], star, fits);
      } else {
        var less := [blocks[0][1..]] + blocks[1..];
        assert less[1..] == blocks[1..];
        assert Covers(less, path[1..], glob, star, fits);
      }
    }
    if Splits(path, glob[1..], star, fits) {
      var blocks :| Covers(blocks, path, glob[1..], star, fits);
      var more := [[]] + blocks;
      assert more[1..] == blocks;
      assert Covers(more, path, glob, star, fits);
    }
    if path != [] && Splits(path[1..], glob, star, fits) {
      var blocks :| Covers(blocks, path[1..], glob, star, fits);
      var more := [[path[0]] + blocks[0]] + blocks[1..];
      assert more[1..] == blocks[1..];
      assert Covers(more, path, glob, star, fits);
    }
  }

  lemma OneForOne<U(!new), T>(path: seq<U>, glob: seq<T>, star: T -> bool, fits: (U, T) -> bool)
    requires glob != [] && !star(glob[0])
    ensures Splits(path, glob, star, fits) <==>
              path != [] && fits(path[0], glob[0]) && Splits(path[1..], glob[1..], star, fits)
  {
    if Splits(path, glob, star, fits) {
      var blocks :| Covers(blocks, path, glob, star, fits);
      assert path == blocks[0] + Flat(blocks[1..]);
      assert Covers(blocks[1..], path[1..], glob[1..], star, fits);
    }
    if path != [] && fits(path[0], glob[0]) && Splits(path[1..], glob[1..], star, fits) {
      var blocks :| Covers(blocks, path[1..], glob[1..], star, fits);
      var more := [[path[0]]] + blocks;
      assert more[1..] == blocks;
      assert Covers(more, path, glob, star, fits);
    }
  }

  // ----- The matcher -----

  function MatchSegmentChars(path: string, glob: string): bool
    decreases |glob|, |path|
  {
    if glob == "" then path == ""
    else if glob[0] == '*' then
      MatchSegmentChars(path, glob[1..]) || (path != "" && MatchSegmentChars(path[1..], glob))
    else path != "" && path[0] == glob[0] && MatchSegmentChars(path[1..], glob[1..])
  }

  function MatchSegment(path: string, glob: string): bool
  {
    if glob == "*" then true else MatchSegmentChars(path, glob)
  }

  function MatchSegments(path: seq<string>, glob: seq<string>): bool
    decreases |glob|, |path|
  {
    if glob == [] then path == []
    else if glob[0] == "**" then
      MatchSegments(path, glob[1..]) || (path != [] && MatchSegments(path[1..], glob))
    else path != [] && MatchSegment(path[0], glob[0]) && MatchSegments(path[1..], glob[1..])
  }

  function Slashed(value: string): string
  {
    seq(|value|, i requires 0 <= i < |value| => if value[i] == '\\' then '/' else value[i])
  }

  function NormalizeSegments(value: string): seq<string>
  {
    NonEmpty(Split(Slashed(value), '/'))
  }

  function MatchGlob(path: string, glob: string): bool
  {
    MatchSegments(NormalizeSegments(path), NormalizeSegments(glob))
  }

  // ----- The matcher means what it should -----

  lemma {:induction false} SegmentCharsMeaning(path: string, glob: string)
    ensures MatchSegmentChars(path, glob) <==> SegmentFits(path, glob)
    decreases |glob|, |path|
  {
    if glob == "" {
      NothingLeft(path, glob, IsStar, SameChar);
    } else if glob[0] == '*' {
      StarTakesMore(path, glob, IsStar, SameChar);
      SegmentCharsMeaning(path, glob[1..]);
      if path != "" { SegmentCharsMeaning(path[1..], glob); }
    } else {
      OneForOne(path, glob, IsStar, SameChar);
      if path != "" { SegmentCharsMeaning(path[1..], glob[1..]); }
    }
  }

  /** The shortcut for a lone "*" agrees with the general matcher. */
  lemma SegmentMeaning(path: string, glob: string)
    ensures MatchSegment(path, glob) <==> SegmentFits(path, glob)
    ensures MatchSegment(path, glob) == MatchSegmentChars(path, glob)
  {
    SegmentCharsMeaning(path, glob);
    if glob == "*" {
      assert Flat([path]) == path + Flat([path][1..]);
      assert Covers([path], path, glob, IsStar, SameChar);
    }
  }

  lemma {:induction false} PathMeaning(path: seq<string>, glob: seq<string>)
    ensures MatchSegments(path, glob) <==> PathFits(path, glob)
    decreases |glob|, |path|
  {
    var fits := (s: string, g: string) => SegmentFits(s, g);
    if glob == [] {
      NothingLeft(path, glob, IsDoubleStar, fits);
    } else if glob[0] == "**" {
      StarTakesMore(path, glob, IsDoubleStar, fits);
      PathMeaning(path, glob[1..]);
      if path != [] { PathMeaning(path[1..], glob); }
    } else {
      OneForOne(path, glob, IsDoubleStar, fits);
      if path != [] {
        SegmentMeaning(path[0], glob[0]);
        PathMeaning(path[1..], glob[1..]);
      }
    }
  }

  predicate Clean(segments: seq<string>)
  {
    forall s | s in segments :: s != "" && '/' !in s && '\\' !in s
  }

  /** Normalizing leaves clean segments, and clean segments joined by slashes come back unchanged. */
  lemma NormalizedSegments(value: string, segments: seq<string>)
    requires segments != [] && Clean(segments)
    ensures Clean(NormalizeSegments(value))
    ensures NormalizeSegments(Join(segments, '/')) == segments
  {
    JoinSplit(Slashed(value), '/');
    NonEmptyMembers(Split(Slashed(value), '/'));
    forall part | part in Split(Slashed(value), '/') ensures '\\' !in part
    {
      PartOf(Slashed(value), '/', part, '\\');
    }
    CleanJoin(segments);
    SplitJoin(segments, '/');
    NonEmptyMembers(segments);
  }

  /** A slash and a backslash both separate segments. */
  lemma EitherSlashSeparates(a: string, b: string)
    ensures NormalizeSegments(a + "/" + b) == NormalizeSegments(a) + NormalizeSegments(b)
    ensures NormalizeSegments(a + "\\" + b) == NormalizeSegments(a) + NormalizeSegments(b)
  {
    assert Slashed(a + "/" + b) == Slashed(a) + ['/'] + Slashed(b);
    assert Slashed(a + "\\" + b) == Slashed(a) + ['/'] + Slashed(b);
    SplitConcat(Slashed(a), Slashed(b), '/');
    NonEmptyConcat(Split(Slashed(a), '/'), Split(Slashed(b), '/'));
  }

  lemma {:induction false} PartOf(s: string, sep: char, part: string, c: char)
    requires part in Split(s, sep) && c !in s
    ensures c !in part
  {
    if s != "" {
      var rest := Split(s[1..], sep);
      if part in rest {
        PartOf(s[1..], sep, part, c);
      } else if s[0] != sep && part == [s[0]] + rest[0] {
        PartOf(s[1..], sep, rest[0], c);
      }
    }
  }

  lemma {:induction false} CleanJoin(segments: seq<string>)
    requires Clean(segments)
    ensures '\\' !in Join(segments, '/') && Slashed(Join(segments, '/')) == Join(segments, '/')
  {
    if segments != [] {
      assert segments[0] in segments;
      CleanJoin(segments[1..]);
    }
  }

  /** On whole strings: the normalized path splits into blocks, one per segment of the normalized glob. */
  lemma GlobMeaning(path: string, glob: string)
    ensures MatchGlob(path, glob) <==> PathFits(NormalizeSegments(path), NormalizeSegments(glob))
  {
    PathMeaning(NormalizeSegments(path), NormalizeSegments(glob));
  }

  /**
   A directory exclusion such as `tests` followed by `**` matches that directory and everything under
   it, and nothing else.
   */
  lemma {:induction false} DirectoryExclusion(path: seq<string>, directory: string)
    requires '*' !in directory
    ensures MatchSegments(path, [directory, "**"]) <==> path != [] && path[0] == directory
  {
    var glob := [directory, "**"];
    assert glob[1..] == ["**"];
    if path != [] {
      DoubleStarMatchesAll(path[1..]);
      LiteralMatchesItself(path[0], directory);
    }
  }

  lemma {:induction false} DoubleStarMatchesAll(path: seq<string>)
    ensures MatchSegments(path, ["**"])
  {
    if path != [] { DoubleStarMatchesAll(path[1..]); }
    assert ["**"][1..] == [];
  }

  lemma {:induction false} LiteralMatchesItself(path: string, glob: string)
    requires '*' !in glob
    ensures MatchSegmentChars(path, glob) <==> path == glob
  {
    if glob != "" && path != "" {
      assert '*' !in glob[1..];
      LiteralMatchesItself(path[1..], glob[1..]);
      assert glob == [glob[0]] + glob[1..] && path == [path[0]] + path[1..];
    }
  }
}
