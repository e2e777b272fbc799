/**
 Dependency graphs and the orders in which they can be resolved: what an admissible order is,
 when one exists, and which one the resolver picks.

 A graph gives, for every node, the list of nodes it refers to. The list may name a node
 twice; the resolver counts references with repetition but removes them without.
 */
module DependencyGraph {
  import opened Ids

  type Graph = map<string, seq<string>>

  predicate Closed(g: Graph)
  {
    forall n, x | n in g && x in g[n] :: x in g
  }

  /** Nothing is referred to twice by one node. */
  predicate NoDoubleReferences(g: Graph)
  {
    forall n | n in g :: NoDuplicates(g[n])
  }

  /** Every element of `c` refers to the next one, and the last to the first. */
  predicate Cycle(g: Graph, c: seq<string>)
  {
    && c != []
    && (forall i | 0 <= i < |c| :: c[i] in g)
    && (forall i | 0 <= i < |c| - 1 :: c[i + 1] in g[c[i]])
    && c[0] in g[c[|c| - 1]]
  }

  ghost predicate Acyclic(g: Graph)
  {
    forall c: seq<string> :: !Cycle(g, c)
  }

  /** Every node once, each after everything it refers to. */
  ghost predicate Topological(g: Graph, order: seq<string>)
  {
    && NoDuplicates(order) && Elements(order) == g.Keys
    && forall i, x | 0 <= i < |order| && x in g[order[i]] :: x in order[..i]
  }

  type Adjacency = map<string, set<string>>
  type InDegree = map<string, nat>

  /**
   The two tables stand for the graph: the dependents of every node as a set, and the number of
   references of every node with repetition.
   */
  ghost predicate Represents(adjacency: Adjacency, inDegree: InDegree, g: Graph)
  {
    && Dependents(adjacency, g)
    && inDegree.Keys == g.Keys && (forall n | n in g :: inDegree[n] == |g[n]|)
  }

  ghost predicate Dependents(adjacency: Adjacency, g: Graph)
  {
    adjacency.Keys == g.Keys && forall x | x in g :: forall n :: n in adjacency[x] <==> n in g && x in g[n]
  }

  // ----- The order the resolver follows -----

  /** All references of `n` are discharged by `done`, counted with repetition. */
  predicate Ready(g: Graph, done: seq<string>, n: string)
  {
    n in g && n !in done && NoDuplicates(g[n]) && forall x | x in g[n] :: x in done
  }

  /** At each point the least ready node comes next. */
  ghost predicate Greedy(g: Graph, order: seq<string>)
  {
    forall i | 0 <= i < |order| ::
      Ready(g, order[..i], order[i]) && forall m | Ready(g, order[..i], m) :: AtMost(order[i], m)
  }

  ghost predicate Exhausted(g: Graph, order: seq<string>)
  {
    forall m :: !Ready(g, order, m)
  }

  lemma GreedyIsAdmissible(g: Graph, order: seq<string>)
    requires Greedy(g, order)
    ensures NoDuplicates(order) && Elements(order) <= g.Keys
    ensures forall i, x | 0 <= i < |order| && x in g[order[i]] :: x in order[..i]
    ensures forall i | 0 <= i < |order| :: NoDuplicates(g[order[i]])
  {
    forall i | 0 <= i < |order| ensures Ready(g, order[..i], order[i]) { }
    forall i, j | 0 <= i < j < |order| ensures order[i] != order[j]
    {
      assert order[..j][i] == order[i];
    }
  }

  // ----- Cycles and orders exclude each other -----

  /** What is ordered, each after everything it refers to, lies on no cycle. */
  lemma {:induction false} OrderedOffCycles(g: Graph, order: seq<string>, c: seq<string>, k: nat, at: nat)
    requires (forall i, x | 0 <= i < |order| && order[i] in g && x in g[order[i]] :: x in order[..i])
    requires Cycle(g, c) && k < |c| && at < |order|
    ensures order[at] != c[k]
    decreases at
  {
    if order[at] == c[k] {
      var next := if k == |c| - 1 then 0 else k + 1;
      assert c[next] in g[order[at]];
      var before :| 0 <= before < at && order[..at][before] == c[next];
      OrderedOffCycles(g, order, c, next, before);
    }
  }

  lemma OrderedMeansAcyclic(g: Graph, order: seq<string>)
    requires Topological(g, order)
    ensures Acyclic(g)
  {
    forall c: seq<string> ensures !Cycle(g, c)
    {
      if Cycle(g, c) {
        assert c[0] in Elements(order);
        var at :| 0 <= at < |order| && order[at] == c[0];
        OrderedOffCycles(g, order, c, 0, at);
      }
    }
  }

  /** Every node of `s` refers to a node of `s`. */
  ghost predicate LeadsBack(g: Graph, s: set<string>)
  {
    s <= g.Keys && forall n {:trigger RefersInto(g, n, s)} | n in s :: RefersInto(g, n, s)
  }

  ghost predicate RefersInto(g: Graph, n: string, s: set<string>)
    requires n in g
  {
    exists x :: x in g[n] && x in s
  }

  /** Following references inside a set that always leads back into itself must repeat a node. */
  lemma {:induction false} FollowToCycle(g: Graph, s: set<string>, walk: seq<string>) returns (c: seq<string>)
    requires LeadsBack(g, s)
    requires walk != [] && NoDuplicates(walk) && (forall x | x in walk :: x in s)
    requires forall i | 0 <= i < |walk| - 1 :: walk[i + 1] in g[walk[i]]
    ensures Cycle(g, c) && forall x | x in c :: x in s
    decreases |s| - |walk|
  {
    var last := walk[|walk| - 1];
    assert last in walk;
    assert RefersInto(g, last, s);
    var x :| x in g[last] && x in s;
    if x in walk {
      var j :| 0 <= j < |walk| && walk[j] == x;
      c := walk[j..];
      forall i | 0 <= i < |c| ensures c[i] in s && (i < |c| - 1 ==> c[i + 1] in g[c[i]])
      {
        assert c[i] == walk[j + i] && walk[j + i] in walk;
        if i < |c| - 1 { assert walk[j + i + 1] in g[walk[j + i]]; }
      }
      assert c[|c| - 1] == last;
    } else {
      var longer := walk + [x];
      DistinctFit(longer, s);
      c := FollowToCycle(g, s, longer);
    }
  }

  lemma DistinctFit(ids: seq<string>, s: set<string>)
    requires NoDuplicates(ids) && forall x | x in ids :: x in s
    ensures |ids| <= |s|
  {
    DuplicatesAreCounted(ids);
    assert s == Elements(ids) + (s - Elements(ids));
  }

  lemma SelfDependentSetHasCycle(g: Graph, s: set<string>) returns (c: seq<string>)
    requires s != {} && LeadsBack(g, s)
    ensures Cycle(g, c) && forall x | x in c :: x in s
  {
    var n :| n in s;
    c := FollowToCycle(g, s, [n]);
  }

  /** A node the exhausted order misses refers to another missed node, unless it repeats a reference. */
  lemma LeftOverDependsOnLeftOver(g: Graph, order: seq<string>, n: string)
    requires Closed(g) && Exhausted(g, order) && n in g && n !in order && NoDuplicates(g[n])
    ensures exists x :: x in g[n] && x in g && x !in order
  {
    assert !Ready(g, order, n);
  }

  /** The greedy order reaches every node exactly when the graph is acyclic and repeats no reference. */
  lemma ReachesAllIffAcyclic(g: Graph, order: seq<string>)
    requires Closed(g) && Greedy(g, order) && Exhausted(g, order)
    ensures Elements(order) == g.Keys <==> Acyclic(g) && NoDoubleReferences(g)
    ensures Elements(order) == g.Keys ==> Topological(g, order)
  {
    GreedyIsAdmissible(g, order);
    if Elements(order) == g.Keys {
      OrderedMeansAcyclic(g, order);
      forall n | n in g ensures NoDuplicates(g[n])
      {
        assert n in Elements(order);
        var i :| 0 <= i < |order| && order[i] == n;
      }
    } else if NoDoubleReferences(g) {
      var missed := g.Keys - Elements(order);
      assert missed + Elements(order) == g.Keys;
      MissedLeadsBack(g, order);
      var c := SelfDependentSetHasCycle(g, missed);
    }
  }

  lemma MissedLeadsBack(g: Graph, order: seq<string>)
    requires Closed(g) && NoDoubleReferences(g) && Exhausted(g, order)
    ensures LeadsBack(g, g.Keys - Elements(order))
  {
    var missed := g.Keys - Elements(order);
    forall n | n in missed ensures RefersInto(g, n, missed)
    {
      LeftOverDependsOnLeftOver(g, order, n);
      var x :| x in g[n] && x in g && x !in order;
      assert x in missed;
    }
  }

  // ----- The order picked is the least one -----

  /** Lexicographic order on lists of identifiers. */
  predicate AtMostList(s: seq<string>, t: seq<string>)
  {
    s == [] || (t != [] && (Less(s[0], t[0]) || (s[0] == t[0] && AtMostList(s[1..], t[1..]))))
  }

  /** No topological order comes before the greedy one. */
  lemma GreedyIsLeast(g: Graph, order: seq<string>, other: seq<string>)
    requires NoDoubleReferences(g) && Greedy(g, order) && Topological(g, order) && Topological(g, other)
    ensures AtMostList(order, other)
  {
    RearrangedByElements(order, other);
    LeastFrom(g, order, other, 0);
    assert order[0..] == order && other[0..] == other;
  }

  lemma RearrangedByElements(s: seq<string>, t: seq<string>)
    requires NoDuplicates(s) && NoDuplicates(t) && Elements(s) == Elements(t)
    ensures |s| == |t|
  {
    DuplicatesAreCounted(s);
    DuplicatesAreCounted(t);
  }

  lemma {:induction false} LeastFrom(g: Graph, order: seq<string>, other: seq<string>, i: nat)
    requires NoDoubleReferences(g) && Greedy(g, order) && Topological(g, order) && Topological(g, other)
    requires |order| == |other| && i <= |order| && order[..i] == other[..i]
    ensures AtMostList(order[i..], other[i..])
    decreases |order| - i
  {
    if i < |order| {
      assert Ready(g, order[..i], other[i]) by {
        assert other[i] in Elements(other);
        assert forall j | 0 <= j < i :: other[j] != other[i];
      }
      assert AtMost(order[i], other[i]);
      assert order[i..][1..] == order[i + 1..] && other[i..][1..] == other[i + 1..];
      if order[i] == other[i] {
        assert order[..i + 1] == order[..i] + [order[i]] && other[..i + 1] == other[..i] + [other[i]];
        LeastFrom(g, order, other, i + 1);
      }
    }
  }

  /** The graphs have the same nodes and the same references up to the order in which they are listed. */
  ghost predicate SameReferences(g: Graph, h: Graph)
  {
    g.Keys == h.Keys && forall n | n in g :: multiset(g[n]) == multiset(h[n])
  }

  lemma SameReady(g: Graph, h: Graph, done: seq<string>, n: string)
    requires SameReferences(g, h)
    ensures Ready(g, done, n) <==> Ready(h, done, n)
  {
    if n in g {
      RearrangedKeeps(g[n], h[n]);
      assert forall x :: x in g[n] <==> x in Elements(g[n]);
      assert forall x :: x in h[n] <==> x in Elements(h[n]);
    }
  }

  lemma {:induction false} SamePrefix(g: Graph, h: Graph, s: seq<string>, t: seq<string>, i: nat)
    requires SameReferences(g, h) && Greedy(g, s) && Greedy(h, t) && i <= |s| && i <= |t|
    ensures s[..i] == t[..i]
  {
    if i > 0 {
      SamePrefix(g, h, s, t, i - 1);
      SameReady(g, h, s[..i - 1], s[i - 1]);
      SameReady(g, h, s[..i - 1], t[i - 1]);
      assert AtMost(s[i - 1], t[i - 1]) && AtMost(t[i - 1], s[i - 1]);
      LessIsTotal(s[i - 1], t[i - 1]);
      assert s[..i] == s[..i - 1] + [s[i - 1]] && t[..i] == t[..i - 1] + [t[i - 1]];
    }
  }

  /** However nodes and references are listed, there is only one exhausted greedy order. */
  lemma GreedyIsUnique(g: Graph, h: Graph, s: seq<string>, t: seq<string>)
    requires SameReferences(g, h) && Greedy(g, s) && Greedy(h, t) && Exhausted(g, s) && Exhausted(h, t)
    ensures s == t
  {
    var i := if |s| <= |t| then |s| else |t|;
    SamePrefix(g, h, s, t, i);
    assert s[..|s|] == s && t[..|t|] == t;
    if |s| < |t| {
      assert Ready(h, t[..i], t[i]);
      SameReady(g, h, s, t[i]);
    } else if |t| < |s| {
      assert Ready(g, s[..i], s[i]);
      SameReady(g, h, t, s[i]);
    }
  }
}
