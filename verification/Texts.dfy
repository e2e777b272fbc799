/**
 Splitting text at a separator, as glob paths and approval keys do.
 */
module Texts {

  /** The parts between separators; a text without separators is its own only part. */
  function Split(s: string, sep: char): (parts: seq<string>)
    ensures parts != []
  {
    if s == "" then [""]
    else
      var rest := Split(s[1..], sep);
      if s[0] == sep then [""] + rest else [[s[0]] + rest[0]] + rest[1..]
  }

  function Join(parts: seq<string>, sep: char): string
  {
    if parts == [] then ""
    else if |parts| == 1 then parts[0]
    else parts[0] + [sep] + Join(parts[1..], sep)
  }

  function NonEmpty(parts: seq<string>): seq<string>
  {
    if parts == [] then []
    else if parts[0] == "" then NonEmpty(parts[1..]) else [parts[0]] + NonEmpty(parts[1..])
  }

  predicate Free(s: string, sep: char)
  {
    sep !in s
  }

  /** Splitting is undone by joining, and no part contains the separator. */
  lemma {:induction false} JoinSplit(s: string, sep: char)
    ensures Join(Split(s, sep), sep) == s
    ensures forall part | part in Split(s, sep) :: Free(part, sep)
  {
    if s != "" {
      var rest := Split(s[1..], sep);
      JoinSplit(s[1..], sep);
      if s[0] == sep {
        assert ([""] + rest)[1..] == rest;
      } else {
        var first := [s[0]] + rest[0];
        assert Free(rest[0], sep);
        assert ([first] + rest[1..])[1..] == rest[1..];
        assert s == [s[0]] + s[1..];
      }
    }
  }

  lemma {:induction false} FreeSplits(s: string, sep: char)
    requires Free(s, sep)
    ensures Split(s, sep) == [s]
  {
    if s != "" {
      assert Free(s[1..], sep);
      FreeSplits(s[1..], sep);
      assert [s[0]] + s[1..] == s;
    }
  }

  lemma {:induction false} SplitFirst(a: string, b: string, sep: char)
    requires Free(a, sep)
    ensures Split(a + [sep] + b, sep) == [a] + Split(b, sep)
  {
    if a == "" {
      assert a + [sep] + b == [sep] + b;
      assert ([sep] + b)[1..] == b;
    } else {
      var s := a + [sep] + b;
      assert s[1..] == a[1..] + [sep] + b;
      assert Free(a[1..], sep);
      SplitFirst(a[1..], b, sep);
      assert Split(s[1..], sep)[1..] == Split(b, sep);
      assert [a[0]] + a[1..] == a;
    }
  }

  /** Joining is undone by splitting, for parts free of the separator. */
  lemma {:induction false} SplitJoin(parts: seq<string>, sep: char)
    requires parts != [] && forall part | part in parts :: Free(part, sep)
    ensures Split(Join(parts, sep), sep) == parts
  {
    if |parts| == 1 {
      FreeSplits(parts[0], sep);
    } else {
      SplitJoin(parts[1..], sep);
      SplitFirst(parts[0], Join(parts[1..], sep), sep);
      assert [parts[0]] + parts[1..] == parts;
    }
  }

  lemma {:induction false} NonEmptyMembers(parts: seq<string>)
    ensures forall part :: part in NonEmpty(parts) <==> part in parts && part != ""
    ensures (forall part | part in parts :: part != "") ==> NonEmpty(parts) == parts
  {
    if parts != [] {
      NonEmptyMembers(parts[1..]);
      assert parts == [parts[0]] + parts[1..] && parts[0] in parts;
      if forall part | part in parts :: part != "" {
        forall part | part in parts[1..] ensures part != "" { assert part in parts; }
      }
    }
  }

  /** Dropping empty parts goes part by part. */
  lemma {:induction false} NonEmptyConcat(a: seq<string>, b: seq<string>)
    ensures NonEmpty(a + b) == NonEmpty(a) + NonEmpty(b)
    ensures NonEmpty([""]) == []
  {
    if a == [] {
      assert a + b == b;
    } else {
      assert (a + b)[1..] == a[1..] + b;
      NonEmptyConcat(a[1..], b);
    }
  }

  lemma {:induction false} SplitConcat(a: string, b: string, sep: char)
    ensures Split(a + [sep] + b, sep) == Split(a, sep) + Split(b, sep)
  {
    var s := a + [sep] + b;
    if a == "" {
      assert s[1..] == b;
    } else {
      SplitConcat(a[1..], b, sep);
      assert s[1..] == a[1..] + [sep] + b;
      SplitOnce(s, sep);
      SplitOnce(a, sep);
      AppendToFirst(Split(a[1..], sep), Split(b, sep), if s[0] == sep then "" else [s[0]]);
    }
  }

  lemma SplitOnce(s: string, sep: char)
    requires s != ""
    ensures var rest := Split(s[1..], sep);
            Split(s, sep) == if s[0] == sep then [""] + rest else [[s[0]] + rest[0]] + rest[1..]
  {
  }

  lemma AppendToFirst(p: seq<string>, q: seq<string>, c: string)
    requires p != []
    ensures [c + (p + q)[0]] + (p + q)[1..] == [c + p[0]] + p[1..] + q
    ensures [c] + (p + q) == [c] + p + q
  {
  }

  lemma {:induction false} JoinConcat(p: seq<string>, q: seq<string>, sep: char)
    requires p != [] && q != []
    ensures Join(p + q, sep) == Join(p, sep) + [sep] + Join(q, sep)
  {
    assert (p + q)[1..] == p[1..] + q;
    if |p| > 1 {
      JoinConcat(p[1..], q, sep);
    }
  }

  /** Being the text itself, or going on after a separator, is being a prefix part by part. */
  lemma StartsWithPart(a: string, r: string, sep: char)
    ensures a == r || a + [sep] <= r <==> Split(a, sep) <= Split(r, sep)
  {
    if a + [sep] <= r {
      var b := r[|a| + 1..];
      assert r == a + [sep] + b;
      SplitConcat(a, b, sep);
    }
    if Split(a, sep) <= Split(r, sep) {
      var rest := Split(r, sep)[|Split(a, sep)|..];
      assert Split(r, sep) == Split(a, sep) + rest;
      JoinSplit(a, sep);
      JoinSplit(r, sep);
      if rest == [] {
        assert Split(r, sep) == Split(a, sep);
      } else {
        JoinConcat(Split(a, sep), rest, sep);
        assert r == a + [sep] + Join(rest, sep);
      }
    }
  }

  /** Nothing but separators. */
  predicate OnlySeparators(s: string, sep: char)
  {
    forall c | c in s :: c == sep
  }

  lemma SeparatorsOneByOne(s: string, sep: char)
    requires s != ""
    ensures OnlySeparators(s, sep) <==> s[0] == sep && OnlySeparators(s[1..], sep)
  {
    assert s[0] in s;
    forall i | 0 <= i < |s| ensures i > 0 ==> s[i] in s[1..]
    {
      assert i > 0 ==> s[1..][i - 1] == s[i];
    }
    assert forall c | c in s[1..] :: c in s;
    assert forall c | c in s :: c == s[0] || c in s[1..];
  }

  /** Text without a non-empty part is separators alone. */
  lemma {:induction false} NoPartsInSeparators(s: string, sep: char)
    ensures NonEmpty(Split(s, sep)) == [] <==> OnlySeparators(s, sep)
  {
    if s != "" {
      var rest := Split(s[1..], sep);
      NoPartsInSeparators(s[1..], sep);
      SeparatorsOneByOne(s, sep);
      if s[0] == sep {
        assert ([""] + rest)[1..] == rest;
      } else {
        assert Split(s, sep)[0] == [s[0]] + rest[0];
      }
    }
  }

  lemma PrefixMembers(p: string, s: string, c: char)
    ensures p <= s && c in p ==> c in s
  {
    if p <= s && c in p {
      var i :| 0 <= i < |p| && p[i] == c;
      assert s[i] == c;
    }
  }
}
