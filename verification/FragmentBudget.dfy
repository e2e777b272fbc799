/**
 Clipping context fragments to a budget per owner. The owner's budget is that of its first
 fragment; later ones only spend what is left.
 */
module FragmentBudget {
  import opened Fragments

  function Min(a: int, b: int): int
  {
    if a < b then a else b
  }

  function Max(a: real, b: real): real
  {
    if a < b then b else a
  }

  /** How many whole characters an allowance pays for. */
  function Whole(allowance: real): nat
  {
    if allowance <= 0.0 then 0 else allowance.Floor
  }

  predicate HasOwner(fs: seq<Fragment>, owner: string)
  {
    exists i :: 0 <= i < |fs| && fs[i].owner == owner
  }

  /** Everything an owner contributes, in order. */
  function OwnedText(fs: seq<Fragment>, owner: string): string
  {
    if fs == [] then ""
    else
      var last := fs[|fs| - 1];
      OwnedText(fs[..|fs| - 1], owner) + if last.owner == owner then last.content else ""
  }

  /** The budget of the owner's first fragment, which may be fractional or negative. */
  function Cap(fs: seq<Fragment>, owner: string): real
    requires HasOwner(fs, owner)
    decreases |fs|
  {
    var init, last := fs[..|fs| - 1], fs[|fs| - 1];
    if HasOwner(init, owner) then Cap(init, owner) else last.budget
  }

  /** The cap while only some fragments have been seen; an owner not seen yet still has its own. */
  function CapFor(fs: seq<Fragment>, f: Fragment): real
  {
    if HasOwner(fs, f.owner) then Cap(fs, f.owner) else f.budget
  }

  function Left(fs: seq<Fragment>, f: Fragment): real
  {
    CapFor(fs, f) - |OwnedText(fs, f.owner)| as real
  }

  /** As much of the text as the allowance pays for. */
  function Prefix(text: string, allowance: real): string
  {
    text[..Min(|text|, Whole(allowance))]
  }

  lemma WholeLess(allowance: real, n: nat)
    ensures Whole(allowance - n as real) == if n <= Whole(allowance) then Whole(allowance) - n else 0
  {
  }

  /** The clipped fragments: each keeps as much of its content as its owner has left. */
  function Clipped(fs: seq<Fragment>): (r: seq<Fragment>)
    ensures |r| == |fs|
  {
    if fs == [] then []
    else
      var init, last := fs[..|fs| - 1], fs[|fs| - 1];
      Clipped(init) + [last.(content := Prefix(last.content, Left(init, last)))]
  }

  lemma {:induction false} ClippedSoFar(fs: seq<Fragment>, k: nat)
    requires k <= |fs|
    ensures Clipped(fs)[..k] == Clipped(fs[..k])
  {
    if k < |fs| {
      ClippedSoFar(fs[..|fs| - 1], k);
      assert fs[..|fs| - 1][..k] == fs[..k];
      assert Clipped(fs)[..k] == Clipped(fs[..|fs| - 1])[..k];
    } else {
      assert fs[..k] == fs && Clipped(fs)[..k] == Clipped(fs);
    }
  }

  lemma OwnerAfter(fs: seq<Fragment>, owner: string)
    requires fs != []
    ensures var init, last := fs[..|fs| - 1], fs[|fs| - 1];
            HasOwner(fs, owner) <==> HasOwner(init, owner) || last.owner == owner
  {
    var init, last := fs[..|fs| - 1], fs[|fs| - 1];
    if HasOwner(init, owner) {
      var i :| 0 <= i < |init| && init[i].owner == owner;
      assert fs[i].owner == owner;
    }
    if HasOwner(fs, owner) && last.owner != owner {
      var i :| 0 <= i < |fs| && fs[i].owner == owner;
      assert init[i].owner == owner;
    }
  }

  lemma {:induction false} NothingFromStrangers(fs: seq<Fragment>, owner: string)
    requires !HasOwner(fs, owner)
    ensures OwnedText(fs, owner) == ""
  {
    if fs != [] {
      OwnerAfter(fs, owner);
      NothingFromStrangers(fs[..|fs| - 1], owner);
    }
  }

  lemma OneMoreClipped(fs: seq<Fragment>, owner: string)
    requires fs != []
    ensures var init, last := fs[..|fs| - 1], fs[|fs| - 1];
            OwnedText(Clipped(fs), owner) ==
              OwnedText(Clipped(init), owner)
              + if last.owner == owner then Prefix(last.content, Left(init, last)) else ""
  {
    assert Clipped(fs)[..|fs| - 1] == Clipped(fs[..|fs| - 1]);
  }

  lemma {:induction false} NothingFromStrangersClipped(fs: seq<Fragment>, owner: string)
    requires !HasOwner(fs, owner)
    ensures OwnedText(Clipped(fs), owner) == ""
  {
    if fs != [] {
      OwnerAfter(fs, owner);
      assert Clipped(fs)[..|fs| - 1] == Clipped(fs[..|fs| - 1]);
      NothingFromStrangersClipped(fs[..|fs| - 1], owner);
    }
  }

  lemma PrefixSplits(a: string, b: string, allowance: real)
    ensures Prefix(a + b, allowance) == Prefix(a, allowance) + Prefix(b, allowance - |a| as real)
  {
    WholeLess(allowance, |a|);
  }

  predicate KeepsPrefix(fs: seq<Fragment>, owner: string)
    requires HasOwner(fs, owner)
  {
    OwnedText(Clipped(fs), owner) == Prefix(OwnedText(fs, owner), Cap(fs, owner))
  }

  lemma FirstIsKept(fs: seq<Fragment>, owner: string)
    requires HasOwner(fs, owner) && !HasOwner(fs[..|fs| - 1], owner)
    ensures KeepsPrefix(fs, owner)
  {
    var init, last := fs[..|fs| - 1], fs[|fs| - 1];
    OwnerAfter(fs, owner);
    OneMoreClipped(fs, owner);
    NothingFromStrangers(init, owner);
    NothingFromStrangersClipped(init, owner);
    assert "" + last.content == last.content;
  }

  lemma NextIsKept(fs: seq<Fragment>, owner: string)
    requires HasOwner(fs, owner) && HasOwner(fs[..|fs| - 1], owner) && KeepsPrefix(fs[..|fs| - 1], owner)
    ensures KeepsPrefix(fs, owner)
  {
    var init, last := fs[..|fs| - 1], fs[|fs| - 1];
    OneMoreClipped(fs, owner);
    if last.owner == owner {
      PrefixSplits(OwnedText(init, owner), last.content, Cap(init, owner));
    }
  }

  /** What an owner gets is exactly the first part of what it offered, as long as its first budget allows. */
  lemma {:induction false} OwnersKeepAPrefix(fs: seq<Fragment>, owner: string)
    requires HasOwner(fs, owner)
    ensures OwnedText(Clipped(fs), owner) == Prefix(OwnedText(fs, owner), Cap(fs, owner))
  {
    if HasOwner(fs[..|fs| - 1], owner) {
      OwnersKeepAPrefix(fs[..|fs| - 1], owner);
      NextIsKept(fs, owner);
    } else {
      FirstIsKept(fs, owner);
    }
  }

  /** The same at every point of the list: no later fragment takes from an earlier one. */
  lemma EveryPointKeepsAPrefix(fs: seq<Fragment>, k: nat, owner: string)
    requires k <= |fs| && HasOwner(fs[..k], owner)
    ensures OwnedText(Clipped(fs)[..k], owner) == Prefix(OwnedText(fs[..k], owner), Cap(fs[..k], owner))
  {
    ClippedSoFar(fs, k);
    OwnersKeepAPrefix(fs[..k], owner);
  }

  lemma {:induction false} ClippedAt(fs: seq<Fragment>, i: nat)
    requires i < |fs|
    ensures Clipped(fs)[i] == fs[i].(content := Prefix(fs[i].content, Left(fs[..i], fs[i])))
  {
    if i < |fs| - 1 {
      ClippedAt(fs[..|fs| - 1], i);
      assert fs[..|fs| - 1][..i] == fs[..i];
    }
  }

  /** How many characters the owner's fragments hold. */
  function Offered(fs: seq<Fragment>, owner: string): nat
  {
    if fs == [] then 0
    else
      var last := fs[|fs| - 1];
      Offered(fs[..|fs| - 1], owner) + if last.owner == owner then |last.content| else 0
  }

  lemma {:induction false} OfferedIsOwned(fs: seq<Fragment>, owner: string)
    ensures |OwnedText(fs, owner)| == Offered(fs, owner)
  {
    if fs != [] { OfferedIsOwned(fs[..|fs| - 1], owner); }
  }

  predicate FirstOf(fs: seq<Fragment>, i: nat, owner: string)
  {
    i < |fs| && fs[i].owner == owner && forall j | 0 <= j < i :: fs[j].owner != owner
  }

  lemma {:induction false} CapIsFirstBudget(fs: seq<Fragment>, first: nat, owner: string)
    requires FirstOf(fs, first, owner)
    ensures HasOwner(fs, owner) && Cap(fs, owner) == fs[first].budget
  {
    if first < |fs| - 1 {
      CapIsFirstBudget(fs[..|fs| - 1], first, owner);
      OwnerAfter(fs, owner);
    } else {
      assert !HasOwner(fs[..|fs| - 1], owner);
    }
  }

  /**
   Every fragment keeps the longest beginning of its content that fits into what the fragments of its owner before it
   leave of the budget of the first of them; nothing else about it changes.
   */
  lemma EachKeepsWhatIsLeft(fs: seq<Fragment>, first: nat, i: nat)
    requires i < |fs| && FirstOf(fs, first, fs[i].owner)
    ensures var before, after := fs[i].content, Clipped(fs)[i].content;
            var left := fs[first].budget - Offered(fs[..i], fs[i].owner) as real;
            && Clipped(fs)[i] == fs[i].(content := after) && after <= before
            && (after == "" || |after| as real <= left)
            && (after == before || |after| as real + 1.0 > left)
  {
    ClippedAt(fs, i);
    OfferedIsOwned(fs[..i], fs[i].owner);
    if first < i {
      CapIsFirstBudget(fs[..i], first, fs[i].owner);
    } else {
      assert !HasOwner(fs[..i], fs[i].owner);
    }
  }

  /** By the end of the fragment its owner has offered more than its budget. */
  predicate OverBudget(fs: seq<Fragment>, i: nat)
    requires i < |fs|
  {
    (|OwnedText(fs[..i], fs[i].owner)| + |fs[i].content|) as real > CapFor(fs[..i], fs[i])
  }

  lemma PrefixIsAll(text: string, allowance: real)
    ensures Prefix(text, allowance) == text <==> text == "" || |text| as real <= allowance
  {
  }

  /** A fragment is changed exactly when it is not empty and its owner is over budget by its end. */
  lemma ChangedExactlyWhenOverBudget(fs: seq<Fragment>, i: nat)
    requires i < |fs|
    ensures Clipped(fs)[i] == fs[i].(content := Clipped(fs)[i].content) && Clipped(fs)[i].content <= fs[i].content
    ensures Clipped(fs)[i].content != fs[i].content <==>
              fs[i].content != "" && OverBudget(fs, i)
  {
    ClippedAt(fs, i);
    PrefixIsAll(fs[i].content, Left(fs[..i], fs[i]));
  }

  /** At every point every owner has got exactly the budgeted prefix of what it offered by then. */
  ghost predicate KeepsPrefixes(fs: seq<Fragment>, out: seq<Fragment>)
    requires |out| == |fs|
  {
    forall k, owner | 0 <= k <= |fs| && HasOwner(fs[..k], owner) ::
      OwnedText(out[..k], owner) == Prefix(OwnedText(fs[..k], owner), Cap(fs[..k], owner))
  }

  lemma ShorterKeepsPrefixes(fs: seq<Fragment>, out: seq<Fragment>, n: nat)
    requires |out| == |fs| && KeepsPrefixes(fs, out) && n <= |fs|
    ensures KeepsPrefixes(fs[..n], out[..n])
  {
    forall k, owner | 0 <= k <= n && HasOwner(fs[..n][..k], owner)
      ensures OwnedText(out[..n][..k], owner) == Prefix(OwnedText(fs[..n][..k], owner), Cap(fs[..n][..k], owner))
    {
      assert fs[..n][..k] == fs[..k] && out[..n][..k] == out[..k];
    }
  }

  lemma SameStart(a: string, x: string, y: string)
    requires a + x == a + y
    ensures x == y
  {
    assert (a + x)[|a|..] == x && (a + y)[|a|..] == y;
  }

  predicate SameButContent(fs: seq<Fragment>, out: seq<Fragment>)
  {
    |out| == |fs| && forall i | 0 <= i < |fs| :: out[i] == fs[i].(content := out[i].content)
  }

  lemma TextOfLast(fs: seq<Fragment>)
    requires fs != []
    ensures var n := |fs| - 1; OwnedText(fs, fs[n].owner) == OwnedText(fs[..n], fs[n].owner) + fs[n].content
  {
  }

  /** With the fragments before it settled, the text its owner must have by its end settles the last one. */
  lemma LastIsUnique(fs: seq<Fragment>, out: seq<Fragment>)
    requires fs != [] && SameButContent(fs, out) && KeepsPrefixes(fs, out)
    requires out[..|fs| - 1] == Clipped(fs[..|fs| - 1])
    ensures out[|fs| - 1] == Clipped(fs)[|fs| - 1]
  {
    var n := |fs| - 1;
    var owner := fs[n].owner;
    OwnerAfter(fs, owner);
    assert fs[..n + 1] == fs && out[..n + 1] == out;
    assert OwnedText(out[..n + 1], owner) == Prefix(OwnedText(fs[..n + 1], owner), Cap(fs[..n + 1], owner));
    OwnersKeepAPrefix(fs, owner);
    assert Clipped(fs)[..n] == Clipped(fs[..n]);
    TextOfLast(out);
    TextOfLast(Clipped(fs));
    SameStart(OwnedText(out[..n], owner), out[n].content, Clipped(fs)[n].content);
  }

  /** The clipped list is the only one of its shape that gives every owner, at every point, its budgeted prefix. */
  lemma {:induction false} ClippingIsUnique(fs: seq<Fragment>, out: seq<Fragment>)
    requires SameButContent(fs, out) && KeepsPrefixes(fs, out)
    ensures out == Clipped(fs)
  {
    if fs != [] {
      var n := |fs| - 1;
      ShorterKeepsPrefixes(fs, out, n);
      ClippingIsUnique(fs[..n], out[..n]);
      LastIsUnique(fs, out);
      assert out == out[..n] + [out[n]];
    }
  }

  // ----- The operations -----

  function Unspent(fs: seq<Fragment>, owner: string): real
    requires HasOwner(fs, owner)
  {
    Max(0.0, Cap(fs, owner) - |OwnedText(fs, owner)| as real)
  }

  /** The remaining allowances after some fragments. */
  ghost predicate Accounts(remaining: map<string, real>, fs: seq<Fragment>)
  {
    forall owner ::
      && (owner in remaining <==> HasOwner(fs, owner))
      && (owner in remaining ==> remaining[owner] == Unspent(fs, owner))
  }

  function Allowance(remaining: map<string, real>, f: Fragment): real
  {
    if f.owner in remaining then remaining[f.owner] else f.budget
  }

  lemma AllowanceIsWhatIsLeft(remaining: map<string, real>, init: seq<Fragment>, last: Fragment)
    requires Accounts(remaining, init)
    ensures Max(0.0, Left(init, last)) == Max(0.0, Allowance(remaining, last))
  {
    assert last.owner in remaining <==> HasOwner(init, last.owner);
    if last.owner !in remaining { NothingFromStrangers(init, last.owner); }
  }

  /** What an owner has left after one more fragment. */
  lemma LeftAfter(fs: seq<Fragment>, owner: string)
    requires fs != []
    ensures var init, last := fs[..|fs| - 1], fs[|fs| - 1];
            && (HasOwner(fs, owner) <==> HasOwner(init, owner) || last.owner == owner)
            && (HasOwner(fs, owner) ==>
                  Unspent(fs, owner) ==
                    if owner == last.owner then Max(0.0, Left(init, last) - |last.content| as real)
                    else Unspent(init, owner))
  {
    var init, last := fs[..|fs| - 1], fs[|fs| - 1];
    OwnerAfter(fs, owner);
    if !HasOwner(init, owner) { NothingFromStrangers(init, owner); }
  }

  lemma AccountsStep(remaining: map<string, real>, fs: seq<Fragment>)
    requires fs != [] && Accounts(remaining, fs[..|fs| - 1])
    ensures var last := fs[|fs| - 1];
            var r := Allowance(remaining, last);
            Max(0.0, Left(fs[..|fs| - 1], last)) == Max(0.0, r)
            && Accounts(remaining[last.owner := Max(0.0, r - |last.content| as real)], fs)
  {
    var init, last := fs[..|fs| - 1], fs[|fs| - 1];
    var r := Allowance(remaining, last);
    var next := remaining[last.owner := Max(0.0, r - |last.content| as real)];
    AllowanceIsWhatIsLeft(remaining, init, last);
    forall owner
      ensures owner in next <==> HasOwner(fs, owner)
      ensures owner in next ==> next[owner] == Unspent(fs, owner)
    {
      LeftAfter(fs, owner);
      assert owner in remaining <==> HasOwner(init, owner);
    }
  }

  /** Clipping one fragment to what is left. */
  lemma ClipOne(init: seq<Fragment>, last: Fragment, r: real)
    requires Max(0.0, Left(init, last)) == Max(0.0, r)
    ensures Clipped(init + [last]) == Clipped(init) + [last.(content := Prefix(last.content, r))]
    ensures last.content[..0] == "" && last.content[..|last.content|] == last.content
  {
    assert (init + [last])[..|init|] == init;
  }

  method EnforcePerProviderBudget(fragments: seq<Fragment>) returns (output: seq<Fragment>)
    ensures output == Clipped(fragments)
  {
    var remainingByOwner: map<string, real> := map[];
    output := [];
    for i := 0 to |fragments|
      invariant output == Clipped(fragments[..i]) && Accounts(remainingByOwner, fragments[..i])
    {
      var fragment := fragments[i];
      assert fragments[..i + 1] == fragments[..i] + [fragment] && fragments[..i + 1][..i] == fragments[..i];
      AccountsStep(remainingByOwner, fragments[..i + 1]);
      var remaining :=
        if fragment.owner in remainingByOwner then remainingByOwner[fragment.owner] else fragment.budget;
      var tokenCount := |fragment.content|;
      ClipOne(fragments[..i], fragment, remaining);
      if remaining <= 0.0 {
        output := output + [fragment.(content := "")];
        remainingByOwner := remainingByOwner[fragment.owner := 0.0];
      } else if tokenCount as real <= remaining {
        output := output + [fragment];
        remainingByOwner := remainingByOwner[fragment.owner := remaining - tokenCount as real];
      } else {
        output := output + [fragment.(content := fragment.content[..remaining.Floor])];
        remainingByOwner := remainingByOwner[fragment.owner := 0.0];
      }
    }
    assert fragments[..|fragments|] == fragments;
  }

  datatype Truncation = Truncation(owner: string, before: string, after: string)

  /** The places where clipping changed something, in order. */
  function ChangedPlaces(before: seq<Fragment>, after: seq<Fragment>): (r: seq<nat>)
    requires |after| == |before|
    ensures forall k | 0 <= k < |r| :: r[k] < |before| && before[r[k]].content != after[r[k]].content
    ensures forall k, l | 0 <= k < l < |r| :: r[k] < r[l]
    ensures forall i: nat | i < |before| && before[i].content != after[i].content :: i in r
  {
    if before == [] then []
    else
      var n := |before| - 1;
      var init := ChangedPlaces(before[..n], after[..n]);
      if before[n].content == after[n].content then init else init + [n]
  }

  /** The events for some places. */
  function Truncations(before: seq<Fragment>, after: seq<Fragment>, places: seq<nat>): (r: seq<Truncation>)
    requires |after| == |before| && forall k | 0 <= k < |places| :: places[k] < |before|
  {
    seq(|places|, k requires 0 <= k < |places| =>
      Truncation(before[places[k]].owner, before[places[k]].content, after[places[k]].content))
  }

  lemma OneMorePlace(before: seq<Fragment>, after: seq<Fragment>, i: nat)
    requires |after| == |before| && i < |before|
    ensures var sofar := Truncations(before[..i], after[..i], ChangedPlaces(before[..i], after[..i]));
            Truncations(before[..i + 1], after[..i + 1], ChangedPlaces(before[..i + 1], after[..i + 1])) ==
              if before[i].content == after[i].content then sofar
              else sofar + [Truncation(before[i].owner, before[i].content, after[i].content)]
  {
    assert before[..i + 1][..i] == before[..i] && after[..i + 1][..i] == after[..i];
  }

  /** One event per changed fragment, in order, naming its owner. */
  method EmitFragmentTruncations(sorted: seq<Fragment>, budgeted: seq<Fragment>) returns (events: seq<Truncation>)
    requires |budgeted| == |sorted|
    ensures events == Truncations(sorted, budgeted, ChangedPlaces(sorted, budgeted))
    ensures |events| == |ChangedPlaces(sorted, budgeted)|
    ensures forall k | 0 <= k < |events| ::
              var i := ChangedPlaces(sorted, budgeted)[k];
              && events[k].owner == sorted[i].owner
              && events[k].before == sorted[i].content && events[k].after == budgeted[i].content
  {
    events := [];
    for i := 0 to |sorted|
      invariant events == Truncations(sorted[..i], budgeted[..i], ChangedPlaces(sorted[..i], budgeted[..i]))
    {
      OneMorePlace(sorted, budgeted, i);
      if budgeted[i].content != sorted[i].content {
        events := events + [Truncation(sorted[i].owner, sorted[i].content, budgeted[i].content)];
      }
    }
    assert sorted[..|sorted|] == sorted && budgeted[..|budgeted|] == budgeted;
  }

  /** Over a clipped list the events name exactly the fragments whose owner is over budget by their end. */
  lemma EventsNameOverBudget(fs: seq<Fragment>, i: nat)
    requires i < |fs|
    ensures i in ChangedPlaces(fs, Clipped(fs)) <==>
              fs[i].content != "" && OverBudget(fs, i)
  {
    ChangedExactlyWhenOverBudget(fs, i);
  }
}
