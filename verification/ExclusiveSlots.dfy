/**
 Arbitration of exclusive slots: of the fragments claiming one slot a single one survives.
 Fragments are told apart by their place in the sorted list.
 */
module ExclusiveSlots {
  import opened Fragments
  import opened Ids
  import opened Options

  predicate Claims(fs: seq<Fragment>, i: nat, slot: string)
  {
    i < |fs| && fs[i].slot == Some(slot)
  }

  /** `j` claims the slot of `i` with a better right: a smaller owner, or the same owner earlier in the list. */
  predicate Beats(fs: seq<Fragment>, j: nat, i: nat)
  {
    && j < |fs| && i < |fs| && fs[i].slot.Some? && fs[j].slot == fs[i].slot
    && (Less(fs[j].owner, fs[i].owner) || (fs[j].owner == fs[i].owner && j < i))
  }

  predicate Dropped(fs: seq<Fragment>, i: nat)
  {
    exists j: nat :: j < |fs| && Beats(fs, j, i)
  }

  /** The fragments before `n` that nothing beats, in order. */
  function KeptBefore(fs: seq<Fragment>, n: nat): seq<Fragment>
    requires n <= |fs|
  {
    if n == 0 then []
    else if Dropped(fs, n - 1) then KeptBefore(fs, n - 1)
    else KeptBefore(fs, n - 1) + [fs[n - 1]]
  }

  function Kept(fs: seq<Fragment>): seq<Fragment>
  {
    KeptBefore(fs, |fs|)
  }

  lemma BeatsIsTotal(fs: seq<Fragment>, i: nat, j: nat)
    requires i < |fs| && j < |fs| && i != j && fs[i].slot.Some? && fs[i].slot == fs[j].slot
    ensures Beats(fs, i, j) || Beats(fs, j, i)
    ensures !(Beats(fs, i, j) && Beats(fs, j, i))
  {
    LessIsTotal(fs[i].owner, fs[j].owner);
  }

  lemma BeatsIsTransitive(fs: seq<Fragment>, i: nat, j: nat, k: nat)
    requires Beats(fs, i, j) && Beats(fs, j, k)
    ensures Beats(fs, i, k)
  {
    if Less(fs[i].owner, fs[j].owner) && Less(fs[j].owner, fs[k].owner) {
      LessIsTransitive(fs[i].owner, fs[j].owner, fs[k].owner);
    }
  }

  // ----- One survivor a slot -----

  /**
   Every claimed slot has exactly one surviving claim: the first among the claims of the least owner.
   A fragment that claims no slot survives.
   */
  lemma OneSurvivorPerSlot(fs: seq<Fragment>, slot: string) returns (w: nat)
    requires exists i: nat :: Claims(fs, i, slot)
    ensures Claims(fs, w, slot) && !Dropped(fs, w)
    ensures forall i: nat | Claims(fs, i, slot) && i != w :: Dropped(fs, i)
    ensures forall i: nat | Claims(fs, i, slot) ::
        AtMost(fs[w].owner, fs[i].owner) && (fs[i].owner == fs[w].owner ==> w <= i)
    ensures forall i: nat | i < |fs| && fs[i].slot.None? :: !Dropped(fs, i)
  {
    w := BestBefore(fs, slot, |fs|);
    forall i: nat | Claims(fs, i, slot) && i != w ensures Beats(fs, w, i) && !Beats(fs, i, w)
    {
      BeatsIsTotal(fs, w, i);
    }
    if Dropped(fs, w) {
      var j: nat :| j < |fs| && Beats(fs, j, w);
      LessIsTotal(fs[w].owner, fs[w].owner);
      assert Claims(fs, j, slot);
    }
  }

  lemma {:induction false} BestBefore(fs: seq<Fragment>, slot: string, n: nat) returns (w: nat)
    requires n <= |fs| && exists i: nat :: i < n && Claims(fs, i, slot)
    ensures w < n && Claims(fs, w, slot) && forall i: nat | i < n && Claims(fs, i, slot) && i != w :: Beats(fs, w, i)
  {
    if exists i: nat :: i < n - 1 && Claims(fs, i, slot) {
      w := BestBefore(fs, slot, n - 1);
      if Claims(fs, n - 1, slot) {
        BeatsIsTotal(fs, w, n - 1);
        if Beats(fs, n - 1, w) {
          forall i: nat | i < n - 1 && Claims(fs, i, slot) && i != w ensures Beats(fs, n - 1, i)
          {
            BeatsIsTransitive(fs, n - 1, w, i);
          }
          w := n - 1;
        }
      }
    } else {
      w := n - 1;
    }
  }

  // ----- The operation -----

  datatype Conflict = Conflict(slot: string, winner: string, loser: string)

  /** The best claim on each slot among the first `n` fragments. */
  ghost predicate Leading(fs: seq<Fragment>, n: nat, winners: map<string, nat>)
  {
    && (forall i: nat | i < n && i < |fs| && fs[i].slot.Some? :: fs[i].slot.value in winners)
    && (forall slot | slot in winners :: winners[slot] < n && Claims(fs, winners[slot], slot)
          && forall i: nat | i < n && Claims(fs, i, slot) && i != winners[slot] :: Beats(fs, winners[slot], i))
  }

  ghost predicate BeatenBefore(fs: seq<Fragment>, n: nat, i: nat)
  {
    exists j: nat :: j < n && Beats(fs, j, i)
  }

  /** Each conflict names a slot, a loser and a claim that beats it; the losers are the dropped fragments, once each. */
  ghost predicate Reported(fs: seq<Fragment>, n: nat, conflicts: seq<Conflict>, losers: seq<nat>)
  {
    && |conflicts| == |losers|
    && (forall a, b | 0 <= a < b < |losers| :: losers[a] != losers[b])
    && (forall i: nat :: i in losers <==> i < n && BeatenBefore(fs, n, i))
    && (forall k | 0 <= k < |losers| :: Names(fs, conflicts[k], losers[k]))
  }

  ghost predicate Names(fs: seq<Fragment>, c: Conflict, i: nat)
  {
    && Claims(fs, i, c.slot) && c.loser == fs[i].owner
    && exists j: nat :: j < |fs| && Beats(fs, j, i) && fs[j].owner == c.winner
  }

  lemma LeadingStep(fs: seq<Fragment>, n: nat, winners: map<string, nat>)
    requires n < |fs| && Leading(fs, n, winners) && fs[n].slot.Some?
    ensures var slot := fs[n].slot.value;
            if slot !in winners || Less(fs[n].owner, fs[winners[slot]].owner)
            then Leading(fs, n + 1, winners[slot := n])
            else Leading(fs, n + 1, winners)
    ensures var slot := fs[n].slot.value;
            slot in winners ==> if Less(fs[n].owner, fs[winners[slot]].owner) then Beats(fs, n, winners[slot])
              else Beats(fs, winners[slot], n)
  {
    var slot := fs[n].slot.value;
    if slot in winners {
      var w := winners[slot];
      BeatsIsTotal(fs, w, n);
      LessIsTotal(fs[w].owner, fs[n].owner);
      if Beats(fs, n, w) {
        forall i: nat | i < n && Claims(fs, i, slot) && i != w ensures Beats(fs, n, i)
        {
          BeatsIsTransitive(fs, n, w, i);
        }
      }
    }
  }

  /** The next fragment adds at most one loser: itself, or the claim it takes over from. */
  lemma LosersStep(fs: seq<Fragment>, n: nat, winners: map<string, nat>, i: nat)
    requires n < |fs| && Leading(fs, n, winners) && i <= n
    ensures var takesOver := fs[n].slot.Some? && fs[n].slot.value in winners;
            BeatenBefore(fs, n + 1, i) <==>
              (i < n && BeatenBefore(fs, n, i))
              || (takesOver && i == if Less(fs[n].owner, fs[winners[fs[n].slot.value]].owner)
                then winners[fs[n].slot.value] else n)
  {
    LessIsTotal(fs[n].owner, fs[n].owner);
    if fs[n].slot.Some? {
      LeadingStep(fs, n, winners);
      var slot := fs[n].slot.value;
      if slot in winners {
        var w := winners[slot];
        if i < n && Claims(fs, i, slot) && i != w { assert Beats(fs, w, i); }
        if Beats(fs, w, n) { BeatsIsTotal(fs, w, n); }
        if Beats(fs, n, w) {
          forall j: nat | j < n ensures !Beats(fs, j, n)
          {
            if Beats(fs, j, n) && j != w {
              BeatsIsTotal(fs, j, w);
              BeatsIsTransitive(fs, j, n, w);
            } else if j == w {
              BeatsIsTotal(fs, w, n);
            }
          }
        }
      }
    }
  }

  lemma NoNewLoser(fs: seq<Fragment>, n: nat, winners: map<string, nat>, conflicts: seq<Conflict>, losers: seq<nat>)
    requires n < |fs| && Leading(fs, n, winners) && Reported(fs, n, conflicts, losers)
    requires fs[n].slot.Some? ==> fs[n].slot.value !in winners
    ensures Reported(fs, n + 1, conflicts, losers)
  {
    forall i: nat ensures i in losers <==> i < n + 1 && BeatenBefore(fs, n + 1, i)
    {
      if i <= n { LosersStep(fs, n, winners, i); }
    }
  }

  lemma OneNewLoser(fs: seq<Fragment>, n: nat, winners: map<string, nat>, conflicts: seq<Conflict>, losers: seq<nat>)
    requires n < |fs| && Leading(fs, n, winners) && Reported(fs, n, conflicts, losers)
    requires fs[n].slot.Some? && fs[n].slot.value in winners
    ensures var slot := fs[n].slot.value;
            var w := winners[slot];
            var (won, lost) := if Less(fs[n].owner, fs[w].owner) then (n, w) else (w, n);
            Reported(fs, n + 1, conflicts + [Conflict(slot, fs[won].owner, fs[lost].owner)], losers + [lost])
  {
    var slot := fs[n].slot.value;
    var w := winners[slot];
    var (won, lost) := if Less(fs[n].owner, fs[w].owner) then (n, w) else (w, n);
    var more, c := losers + [lost], Conflict(slot, fs[won].owner, fs[lost].owner);
    LeadingStep(fs, n, winners);
    assert Beats(fs, won, lost);
    assert Names(fs, c, lost);
    forall i: nat ensures i in more <==> i < n + 1 && BeatenBefore(fs, n + 1, i)
    {
      if i <= n { LosersStep(fs, n, winners, i); }
    }
    if BeatenBefore(fs, n, w) {
      var j: nat :| j < n && Beats(fs, j, w);
      LessIsTotal(fs[w].owner, fs[w].owner);
      BeatsIsTotal(fs, j, w);
    }
    assert lost !in losers;
  }

  method ApplyExclusiveSlots(fragments: seq<Fragment>)
      returns (kept: seq<Fragment>, conflicts: seq<Conflict>, ghost losers: seq<nat>)
    ensures kept == Kept(fragments)
    ensures Reported(fragments, |fragments|, conflicts, losers)
  {
    var winners: map<string, nat> := map[];
    var conflicted: set<nat> := {};
    conflicts, losers := [], [];
    for n := 0 to |fragments|
      invariant Leading(fragments, n, winners)
      invariant Reported(fragments, n, conflicts, losers)
      invariant forall i: nat :: i in conflicted <==> i in losers
    {
      var fragment := fragments[n];
      if fragment.slot.Some? {
        LeadingStep(fragments, n, winners);
        var slot := fragment.slot.value;
        if slot !in winners {
          NoNewLoser(fragments, n, winners, conflicts, losers);
          winners := winners[slot := n];
        } else {
          var existing := winners[slot];
          OneNewLoser(fragments, n, winners, conflicts, losers);
          if Less(fragment.owner, fragments[existing].owner) {
            winners := winners[slot := n];
            conflicted := conflicted + {existing};
            conflicts := conflicts + [Conflict(slot, fragment.owner, fragments[existing].owner)];
            losers := losers + [existing];
          } else {
            conflicted := conflicted + {n};
            conflicts := conflicts + [Conflict(slot, fragments[existing].owner, fragment.owner)];
            losers := losers + [n];
          }
        }
      } else {
        NoNewLoser(fragments, n, winners, conflicts, losers);
      }
    }
    kept := [];
    for i := 0 to |fragments|
      invariant kept == KeptBefore(fragments, i)
    {
      if i !in conflicted { kept := kept + [fragments[i]]; }
    }
  }

  /** The places of the fragments before `n` that nothing beats. */
  function UnbeatenBefore(fs: seq<Fragment>, n: nat): (r: seq<nat>)
    requires n <= |fs|
    ensures forall i: nat :: i in r <==> i < n && !Dropped(fs, i)
    ensures forall k | 0 <= k < |r| :: r[k] < n
    ensures forall a, b | 0 <= a < b < |r| :: r[a] < r[b]
  {
    if n == 0 then []
    else if Dropped(fs, n - 1) then UnbeatenBefore(fs, n - 1)
    else UnbeatenBefore(fs, n - 1) + [n - 1]
  }

  lemma {:induction false} AsManyKept(fs: seq<Fragment>, n: nat)
    requires n <= |fs|
    ensures |KeptBefore(fs, n)| == |UnbeatenBefore(fs, n)|
  {
    if n > 0 { AsManyKept(fs, n - 1); }
  }

  /** What is kept is exactly the fragments nothing beats, unchanged and in their order. */
  lemma {:induction false} KeptAreUnbeaten(fs: seq<Fragment>, n: nat, k: nat)
    requires n <= |fs| && k < |UnbeatenBefore(fs, n)|
    ensures |KeptBefore(fs, n)| == |UnbeatenBefore(fs, n)| && KeptBefore(fs, n)[k] == fs[UnbeatenBefore(fs, n)[k]]
  {
    AsManyKept(fs, n);
    AsManyKept(fs, n - 1);
    if k < |UnbeatenBefore(fs, n - 1)| { KeptAreUnbeaten(fs, n - 1, k); }
  }

  /** As many conflicts are reported as fragments are dropped. */
  lemma {:induction false} ConflictsCountDropped(fs: seq<Fragment>, conflicts: seq<Conflict>, losers: seq<nat>)
    requires Reported(fs, |fs|, conflicts, losers)
    ensures |Kept(fs)| + |conflicts| == |fs|
  {
    var dropped := DroppedBefore(fs, |fs|);
    assert forall i: nat :: i in losers <==> i in dropped;
    DistinctFitInside(losers, dropped);
    DistinctFitInside(dropped, losers);
    CountKept(fs, |fs|);
  }

  function DroppedBefore(fs: seq<Fragment>, n: nat): (r: seq<nat>)
    requires n <= |fs|
    ensures forall i: nat :: i in r <==> i < n && Dropped(fs, i)
    ensures forall a, b | 0 <= a < b < |r| :: r[a] != r[b]
  {
    if n == 0 then []
    else if Dropped(fs, n - 1) then
      var init := DroppedBefore(fs, n - 1);
      assert forall a | 0 <= a < |init| :: init[a] in init;
      init + [n - 1]
    else DroppedBefore(fs, n - 1)
  }

  lemma {:induction false} CountKept(fs: seq<Fragment>, n: nat)
    requires n <= |fs|
    ensures |KeptBefore(fs, n)| + |DroppedBefore(fs, n)| == n
  {
    if n > 0 { CountKept(fs, n - 1); }
  }

  lemma {:induction false} DistinctFitInside(s: seq<nat>, t: seq<nat>)
    requires (forall a, b | 0 <= a < b < |s| :: s[a] != s[b]) && forall i | i in s :: i in t
    ensures |s| <= |t|
  {
    if s != [] {
      var n := |s| - 1;
      assert s[n] in s;
      var k :| 0 <= k < |t| && t[k] == s[n];
      var less := t[..k] + t[k + 1..];
      forall i | i in s[..n] ensures i in less
      {
        assert i in s && t == t[..k] + [t[k]] + t[k + 1..];
      }
      DistinctFitInside(s[..n], less);
    }
  }

  /** On a list sorted by priority, the survivor of a slot has the highest priority its owner claims it with. */
  lemma SurvivorHasTopPriority(fs: seq<Fragment>, w: nat, i: nat)
    requires forall a, b | 0 <= a < b < |fs| :: fs[a].priority >= fs[b].priority
    requires w < |fs| && fs[w].slot.Some? && !Dropped(fs, w)
    requires i < |fs| && fs[i].slot == fs[w].slot && fs[i].owner == fs[w].owner
    ensures fs[w].priority >= fs[i].priority
  {
    assert !Beats(fs, i, w);
  }
}
