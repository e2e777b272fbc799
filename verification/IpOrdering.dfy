/**
 The order in which the interaction authority serves requests: by time of raising, ties between
 subagents by spawn time, ties within a subagent by raise sequence, other ties by arrival.
 */
module IpOrdering {
  import opened Ids
  import opened Options

  datatype Attribution = Attribution(subagentId: string, spawnedAt: int, sequence: nat)

  datatype Entry = Entry(raisedAt: int, arrival: nat, origin: Option<Attribution>, timed: bool)

  // ----- The comparator -----

  function Compare(a: Entry, b: Entry): int
  {
    if a.raisedAt != b.raisedAt then a.raisedAt - b.raisedAt
    else if a.origin.Some? && b.origin.Some? then
      if a.origin.value.subagentId != b.origin.value.subagentId then a.origin.value.spawnedAt - b.origin.value.spawnedAt
      else a.origin.value.sequence - b.origin.value.sequence
    else a.arrival - b.arrival
  }

  predicate Before(a: Entry, b: Entry)
  {
    Compare(a, b) < 0
  }

  predicate NoLater(a: Entry, b: Entry)
  {
    Compare(a, b) <= 0
  }

  lemma Antisymmetric(a: Entry, b: Entry)
    ensures Compare(a, b) == -Compare(b, a)
  {
  }

  /** What the library's sort asks of a comparator before it promises an order: being no later is transitive. */
  ghost predicate Consistent(q: seq<Entry>)
  {
    forall a, b, c | a in q && b in q && c in q && NoLater(a, b) && NoLater(b, c) :: NoLater(a, c)
  }

  /** On these entries the comparator also decides every pair. */
  ghost predicate StrictTotal(q: seq<Entry>)
  {
    Consistent(q) && forall a, b | a in q && b in q && a != b :: Before(a, b) || Before(b, a)
  }

  predicate DistinctArrivals(q: seq<Entry>)
  {
    NoDuplicates(q) && forall a, b | a in q && b in q && a != b :: a.arrival != b.arrival
  }

  // ----- When the comparator is consistent -----

  predicate SameTickChildren(a: Entry, b: Entry)
  {
    a.raisedAt == b.raisedAt && a.origin.Some? && b.origin.Some?
  }

  predicate Siblings(a: Entry, b: Entry)
  {
    SameTickChildren(a, b) && a.origin.value.subagentId == b.origin.value.subagentId
  }

  /** Requests of one tick: two of one subagent and, spawned between them, one of another. */
  predicate Between(c: Entry, e: Entry, d: Entry)
  {
    && Siblings(c, d) && SameTickChildren(c, e) && !Siblings(c, e)
    && c.origin.value.spawnedAt <= e.origin.value.spawnedAt <= d.origin.value.spawnedAt
  }

  /** Requests of one subagent spawned around another are ordered like their spawn times, ties included. */
  ghost predicate SiblingsKeepSpawnOrder(q: seq<Entry>)
  {
    forall c, e, d | c in q && e in q && d in q && Between(c, e, d) ::
      if c.origin.value.spawnedAt < d.origin.value.spawnedAt
      then c.origin.value.sequence < d.origin.value.sequence
      else c.origin.value.sequence == d.origin.value.sequence
  }

  /** Between two children of a tick, a parent request never arrives against their order. */
  ghost predicate ParentsKeepChildOrder(q: seq<Entry>)
  {
    forall c, p, d | c in q && p in q && d in q && SameTickChildren(c, d) && p.raisedAt == c.raisedAt
                     && p.origin.None? && c.arrival < p.arrival < d.arrival :: Before(c, d)
  }

  /** No two children of a tick are tied. */
  ghost predicate Decided(q: seq<Entry>)
  {
    forall a, b | a in q && b in q && a != b && SameTickChildren(a, b) :: Compare(a, b) != 0
  }

  /** The comparator is consistent exactly when neither siblings nor parents stand against the spawn order. */
  lemma ConsistentExactlyWhenInOrder(q: seq<Entry>)
    requires DistinctArrivals(q)
    ensures Consistent(q) <==> SiblingsKeepSpawnOrder(q) && ParentsKeepChildOrder(q)
  {
    if Consistent(q) {
      forall c, e, d | c in q && e in q && d in q && Between(c, e, d)
        ensures if c.origin.value.spawnedAt < d.origin.value.spawnedAt
                then c.origin.value.sequence < d.origin.value.sequence
                else c.origin.value.sequence == d.origin.value.sequence
      {
        ConsistentSiblings(q, c, e, d);
      }
      forall c, p, d | c in q && p in q && d in q && SameTickChildren(c, d) && p.raisedAt == c.raisedAt
                       && p.origin.None? && c.arrival < p.arrival < d.arrival ensures Before(c, d)
      {
        ConsistentParent(q, c, p, d);
      }
    }
    if SiblingsKeepSpawnOrder(q) && ParentsKeepChildOrder(q) {
      forall a, b, c | a in q && b in q && c in q && NoLater(a, b) && NoLater(b, c) ensures NoLater(a, c)
      {
        if a.raisedAt == b.raisedAt == c.raisedAt {
          if a.origin.Some? && b.origin.Some? && c.origin.Some? {
            ChildrenInOrder(q, a, b, c);
          } else {
            ParentsInOrder(q, a, b, c);
          }
        }
      }
    }
  }

  lemma ConsistentSiblings(q: seq<Entry>, c: Entry, e: Entry, d: Entry)
    requires Consistent(q) && c in q && e in q && d in q && Between(c, e, d)
    ensures if c.origin.value.spawnedAt < d.origin.value.spawnedAt
            then c.origin.value.sequence < d.origin.value.sequence
            else c.origin.value.sequence == d.origin.value.sequence
  {
    assert NoLater(c, e) && NoLater(e, d) && NoLater(c, d);
    if NoLater(d, c) {
      assert NoLater(d, e);
      assert NoLater(e, c);
    }
  }

  lemma ConsistentParent(q: seq<Entry>, c: Entry, p: Entry, d: Entry)
    requires Consistent(q) && c in q && p in q && d in q && SameTickChildren(c, d)
    requires p.raisedAt == c.raisedAt && p.origin.None? && c.arrival < p.arrival < d.arrival
    ensures Before(c, d)
  {
    assert NoLater(c, p) && NoLater(p, d) && NoLater(c, d);
    if NoLater(d, c) { assert NoLater(d, p); }
  }

  lemma ChildrenInOrder(q: seq<Entry>, a: Entry, b: Entry, c: Entry)
    requires SiblingsKeepSpawnOrder(q) && a in q && b in q && c in q && NoLater(a, b) && NoLater(b, c)
    requires SameTickChildren(a, b) && SameTickChildren(b, c)
    ensures NoLater(a, c)
  {
    Antisymmetric(a, c);
    assert Siblings(a, b) && !Siblings(b, c) && Before(c, a) ==> Between(b, c, a);
    assert !Siblings(a, b) && Siblings(b, c) && Before(c, a) ==> Between(c, a, b);
    assert !Siblings(a, b) && Siblings(a, c) ==> Between(a, b, c);
  }

  lemma ParentsInOrder(q: seq<Entry>, a: Entry, b: Entry, c: Entry)
    requires DistinctArrivals(q) && ParentsKeepChildOrder(q)
    requires a in q && b in q && c in q && NoLater(a, b) && NoLater(b, c) && a.raisedAt == b.raisedAt == c.raisedAt
    requires a.origin.None? || b.origin.None? || c.origin.None?
    ensures NoLater(a, c)
  {
    Antisymmetric(a, b);
    Antisymmetric(b, c);
    Antisymmetric(a, c);
  }

  /** It is a strict total order exactly when, besides, no two children of a tick are tied. */
  lemma TotalExactlyWhenDecided(q: seq<Entry>)
    requires DistinctArrivals(q)
    ensures StrictTotal(q) <==> Decided(q) && SiblingsKeepSpawnOrder(q) && ParentsKeepChildOrder(q)
  {
    ConsistentExactlyWhenInOrder(q);
    if Decided(q) && Consistent(q) {
      forall a, b | a in q && b in q && a != b ensures Before(a, b) || Before(b, a)
      {
        Antisymmetric(a, b);
      }
    } else if StrictTotal(q) {
      forall a, b | a in q && b in q && a != b && SameTickChildren(a, b) ensures Compare(a, b) != 0
      {
        Antisymmetric(a, b);
      }
    }
  }

  /** Children raised on one tick: one spawn time per subagent, no two alike, and a sequence number per request. */
  ghost predicate ChildrenKeyed(q: seq<Entry>)
  {
    forall a, b | a in q && b in q && a != b && SameTickChildren(a, b) ::
      if Siblings(a, b)
      then a.origin.value.spawnedAt == b.origin.value.spawnedAt && a.origin.value.sequence != b.origin.value.sequence
      else a.origin.value.spawnedAt != b.origin.value.spawnedAt
  }

  ghost predicate NoMixedTick(q: seq<Entry>)
  {
    forall a, b | a in q && b in q && a.raisedAt == b.raisedAt :: a.origin.Some? == b.origin.Some?
  }

  /** With keyed children only parents can stand in the way, and not on ticks that do not mix parents and children. */
  lemma TotalExactlyWhenParentsKeepOrder(q: seq<Entry>)
    requires DistinctArrivals(q) && ChildrenKeyed(q)
    ensures StrictTotal(q) <==> ParentsKeepChildOrder(q)
    ensures NoMixedTick(q) ==> StrictTotal(q)
  {
    TotalExactlyWhenDecided(q);
  }

  // ----- Sorting the queue -----

  /** `a` stands before `b` in the queue. */
  predicate Precedes(q: seq<Entry>, a: Entry, b: Entry)
  {
    exists i, j :: 0 <= i < j < |q| && q[i] == a && q[j] == b
  }

  /** The comparator puts `a` before `b`, or leaves them as they stood. */
  predicate InOrder(q: seq<Entry>, a: Entry, b: Entry)
  {
    Before(a, b) || (Compare(a, b) == 0 && Precedes(q, a, b))
  }

  /** The order follows the comparator and leaves ties as they stood in `q`. */
  ghost predicate StablyOrdered(q: seq<Entry>, order: seq<Entry>)
  {
    forall i, j | 0 <= i < j < |order| :: InOrder(q, order[i], order[j])
  }

  /**
   What sorting may leave: always a rearrangement, and the stable order whenever the comparator is consistent on the
   queue. On other queues the library promises no particular order.
   */
  ghost predicate IsSorting(q: seq<Entry>, order: seq<Entry>)
  {
    multiset(order) == multiset(q) && (Consistent(q) && NoDuplicates(q) ==> StablyOrdered(q, order))
  }

  function InsertEntry(q: seq<Entry>, e: Entry): (r: seq<Entry>)
    ensures multiset(r) == multiset(q) + multiset{e}
  {
    if q == [] || Before(e, q[0]) then [e] + q
    else
      assert q == [q[0]] + q[1..];
      [q[0]] + InsertEntry(q[1..], e)
  }

  function SortEntries(q: seq<Entry>): (r: seq<Entry>)
    ensures multiset(r) == multiset(q)
  {
    if q == [] then []
    else
      assert q == q[..|q| - 1] + [q[|q| - 1]];
      InsertEntry(SortEntries(q[..|q| - 1]), q[|q| - 1])
  }

  /** An entry that stood last goes behind everything it is tied with. */
  lemma {:induction false} InsertKeepsStable(q: seq<Entry>, s: seq<Entry>, e: Entry)
    requires Consistent(q) && e in q && StablyOrdered(q, s) && forall x | x in s :: x in q && Precedes(q, x, e)
    ensures StablyOrdered(q, InsertEntry(s, e))
  {
    if s != [] {
      assert s[0] in s;
      if Before(e, s[0]) {
        forall j | 0 <= j < |s| ensures Before(e, s[j])
        {
          assert s[j] in s && NoLater(e, s[0]) && NoLater(s[0], s[j]);
          Antisymmetric(e, s[0]);
          Antisymmetric(e, s[j]);
          assert NoLater(s[j], e) ==> NoLater(s[0], e);
        }
      } else {
        Antisymmetric(e, s[0]);
        var rest := InsertEntry(s[1..], e);
        InsertKeepsStable(q, s[1..], e);
        forall x | x in rest ensures InOrder(q, s[0], x)
        {
          assert x in multiset(rest);
          assert x in multiset(s[1..]) + multiset{e};
        }
      }
    }
  }

  lemma {:induction false} SortingIsStable(q: seq<Entry>, n: nat)
    requires Consistent(q) && n <= |q|
    ensures StablyOrdered(q, SortEntries(q[..n]))
  {
    if n > 0 {
      assert q[..n][..n - 1] == q[..n - 1];
      SortingIsStable(q, n - 1);
      FrontPrecedesLast(q, n - 1, SortEntries(q[..n - 1]));
      InsertKeepsStable(q, SortEntries(q[..n - 1]), q[n - 1]);
    }
  }

  lemma FrontPrecedesLast(q: seq<Entry>, n: nat, sorted: seq<Entry>)
    requires n < |q| && multiset(sorted) == multiset(q[..n])
    ensures forall x | x in sorted :: x in q && Precedes(q, x, q[n])
  {
    forall x | x in sorted ensures x in q && Precedes(q, x, q[n])
    {
      assert x in multiset(sorted);
      assert x in multiset(q[..n]);
      var i :| 0 <= i < n && q[i] == x;
    }
  }

  lemma SortEntriesIsSorting(q: seq<Entry>)
    ensures IsSorting(q, SortEntries(q))
  {
    if Consistent(q) {
      SortingIsStable(q, |q|);
      assert q[..|q|] == q;
    }
  }

  lemma OneWayRound(q: seq<Entry>, a: Entry, b: Entry)
    requires NoDuplicates(q) && a != b && InOrder(q, a, b)
    ensures !InOrder(q, b, a)
  {
    Antisymmetric(a, b);
  }

  lemma SameHead(q: seq<Entry>, s: seq<Entry>, t: seq<Entry>)
    requires NoDuplicates(q) && s != [] && t != [] && StablyOrdered(q, s) && StablyOrdered(q, t)
    requires s[0] in t && t[0] in s
    ensures s[0] == t[0]
  {
    var i :| 0 <= i < |t| && t[i] == s[0];
    var j :| 0 <= j < |s| && s[j] == t[0];
    if s[0] != t[0] {
      assert InOrder(q, t[0], t[i]) && InOrder(q, s[0], s[j]);
      OneWayRound(q, s[0], t[0]);
    }
  }

  lemma TailBag(s: seq<Entry>)
    requires s != []
    ensures multiset(s[1..]) == multiset(s) - multiset{s[0]}
  {
    assert s == [s[0]] + s[1..];
  }

  /** There is only one stable order. */
  lemma {:induction false} StableOrderIsUnique(q: seq<Entry>, s: seq<Entry>, t: seq<Entry>)
    requires NoDuplicates(q) && multiset(s) == multiset(t) && StablyOrdered(q, s) && StablyOrdered(q, t)
    ensures s == t
  {
    assert |multiset(s)| == |s| && |multiset(t)| == |t|;
    if s != [] {
      assert s[0] in multiset(t) && t[0] in multiset(s);
      SameHead(q, s, t);
      TailBag(s);
      TailBag(t);
      StableOrderIsUnique(q, s[1..], t[1..]);
      assert s == [s[0]] + s[1..] && t == [t[0]] + t[1..];
    }
  }

  /** Entries that are tied stand in the order of their arrival. */
  ghost predicate TiesByArrival(q: seq<Entry>)
  {
    forall i, j | 0 <= i < j < |q| && Compare(q[i], q[j]) == 0 :: q[i].arrival < q[j].arrival
  }

  /** Then so they are served: the stable order is that of the comparator and, among ties, of arrival. */
  lemma TiesServedByArrival(q: seq<Entry>, order: seq<Entry>)
    requires TiesByArrival(q) && StablyOrdered(q, order)
    ensures TiesByArrival(order)
    ensures forall i, j | 0 <= i < j < |order| :: NoLater(order[i], order[j])
  {
    forall i, j | 0 <= i < j < |order|
      ensures NoLater(order[i], order[j])
      ensures Compare(order[i], order[j]) == 0 ==> order[i].arrival < order[j].arrival
    {
      assert InOrder(q, order[i], order[j]);
    }
  }
}
