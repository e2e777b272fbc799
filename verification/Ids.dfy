/**
 Identifiers compare character by character. The order is total, so sorting a list of
 identifiers has exactly one result.
 */
module Ids {

  predicate Less(a: string, b: string)
  {
    b != "" && (a == "" || a[0] < b[0] || (a[0] == b[0] && Less(a[1..], b[1..])))
  }

  predicate AtMost(a: string, b: string)
  {
    a == b || Less(a, b)
  }

  lemma {:induction false} LessIsTotal(a: string, b: string)
    ensures Less(a, b) || a == b || Less(b, a)
    ensures !(Less(a, b) && Less(b, a)) && !(a == b && Less(a, b))
  {
    if a != "" && b != "" {
      LessIsTotal(a[1..], b[1..]);
      assert a == [a[0]] + a[1..] && b == [b[0]] + b[1..];
    }
  }

  lemma {:induction false} LessIsTransitive(a: string, b: string, c: string)
    requires Less(a, b) && Less(b, c)
    ensures Less(a, c)
  {
    if a != "" && a[0] == b[0] == c[0] {
      LessIsTransitive(a[1..], b[1..], c[1..]);
    }
  }

  predicate Sorted(ids: seq<string>)
  {
    forall i, j | 0 <= i < j < |ids| :: AtMost(ids[i], ids[j])
  }

  predicate NoDuplicates<T(==)>(s: seq<T>)
  {
    forall i, j | 0 <= i < j < |s| :: s[i] != s[j]
  }

  ghost function Elements<T>(s: seq<T>): set<T>
  {
    set x | x in s
  }

  function Insert(ids: seq<string>, id: string): (r: seq<string>)
    ensures multiset(r) == multiset(ids) + multiset{id}
  {
    if ids == [] || AtMost(id, ids[0]) then [id] + ids
    else
      assert ids == [ids[0]] + ids[1..];
      [ids[0]] + Insert(ids[1..], id)
  }

  /** The library sort: a sorted rearrangement. */
  function Sort(ids: seq<string>): (r: seq<string>)
    ensures multiset(r) == multiset(ids)
  {
    if ids == [] then []
    else
      assert ids == ids[..|ids| - 1] + [ids[|ids| - 1]];
      Insert(Sort(ids[..|ids| - 1]), ids[|ids| - 1])
  }

  lemma {:induction false} InsertSorted(ids: seq<string>, id: string)
    requires Sorted(ids)
    ensures Sorted(Insert(ids, id))
  {
    if ids != [] {
      LessIsTotal(id, ids[0]);
      if AtMost(id, ids[0]) {
        forall j | 0 <= j < |ids| ensures AtMost(id, ids[j])
        {
          if j > 0 && id != ids[0] && ids[0] != ids[j] { LessIsTransitive(id, ids[0], ids[j]); }
        }
      } else {
        var rest := Insert(ids[1..], id);
        InsertSorted(ids[1..], id);
        forall x | x in rest ensures AtMost(ids[0], x)
        {
          assert x in multiset(rest);
          assert x in multiset(ids[1..]) + multiset{id};
        }
      }
    }
  }

  lemma {:induction false} SortSorts(ids: seq<string>)
    ensures Sorted(Sort(ids))
  {
    if ids != [] {
      SortSorts(ids[..|ids| - 1]);
      InsertSorted(Sort(ids[..|ids| - 1]), ids[|ids| - 1]);
    }
  }

  lemma ConcatNoDuplicates<T>(s: seq<T>, t: seq<T>)
    requires NoDuplicates(s) && NoDuplicates(t) && forall x | x in s :: x !in t
    ensures NoDuplicates(s + t)
  {
    forall i, j | 0 <= i < j < |s + t| ensures (s + t)[i] != (s + t)[j]
    {
      if i < |s| <= j { assert s[i] in s; }
    }
  }

  /** Rearranging does not change membership, length or the absence of duplicates. */
  lemma RearrangedKeeps<T>(s: seq<T>, t: seq<T>)
    requires multiset(s) == multiset(t)
    ensures |s| == |t| && Elements(s) == Elements(t)
    ensures NoDuplicates(s) <==> NoDuplicates(t)
  {
    assert |multiset(s)| == |s| && |multiset(t)| == |t|;
    forall x ensures x in s <==> x in t
    {
      assert x in multiset(s) <==> x in multiset(t);
    }
    DuplicatesAreCounted(s);
    DuplicatesAreCounted(t);
  }

  lemma {:induction false} DuplicatesAreCounted<T>(s: seq<T>)
    ensures NoDuplicates(s) <==> forall x | x in s :: multiset(s)[x] == 1
    ensures NoDuplicates(s) <==> |Elements(s)| == |s|
    ensures |Elements(s)| <= |s|
  {
    if s != [] {
      var init, last := s[..|s| - 1], s[|s| - 1];
      assert s == init + [last];
      DuplicatesAreCounted(init);
      assert Elements(s) == Elements(init) + {last};
      assert NoDuplicates(s) <==> NoDuplicates(init) && last !in init;
      assert multiset(s) == multiset(init) + multiset{last};
      if last in init {
        assert multiset(s)[last] >= 2;
        assert last in s;
        assert Elements(s) == Elements(init);
      } else if NoDuplicates(init) {
        forall x | x in s ensures multiset(s)[x] == 1 { }
      } else {
        var x :| x in init && multiset(init)[x] != 1;
        assert x in s && multiset(s)[x] != 1;
      }
    }
  }

  lemma NothingTwice(s: seq<string>)
    ensures NoDuplicates(s) <==> forall x :: multiset(s)[x] <= 1
  {
    DuplicatesAreCounted(s);
    if NoDuplicates(s) {
      forall x ensures multiset(s)[x] <= 1
      {
        assert x in s ==> multiset(s)[x] == 1;
        assert x !in s ==> x !in multiset(s);
      }
    } else {
      var x :| x in s && multiset(s)[x] != 1;
      assert x in multiset(s);
    }
  }
}
