/**
 Kahn's algorithm over the dependents and reference counts of a graph, with the queue kept
 sorted so that ties are broken by identifier.
 */
module KahnOrder {
  import opened Ids
  import opened DependencyGraph

  /** How many references of `n` are still counted once the nodes in `done` have been removed. */
  ghost function Outstanding(g: Graph, done: seq<string>, n: string): int
    requires n in g
  {
    |g[n]| - |Elements(g[n]) * Elements(done)|
  }

  lemma ReadyMeansNothingOutstanding(g: Graph, done: seq<string>, n: string)
    requires n in g
    ensures Outstanding(g, done, n) >= 0
    ensures Outstanding(g, done, n) == 0 && n !in done <==> Ready(g, done, n)
  {
    DuplicatesAreCounted(g[n]);
    var all, met := Elements(g[n]), Elements(g[n]) * Elements(done);
    assert all == met + (all - met);
    if |met| == |all| {
      assert all - met == {};
      assert forall x | x in g[n] :: x in all;
    }
    if forall x | x in g[n] :: x in done {
      assert met == all;
    }
  }

  lemma OneMoreDone(g: Graph, done: seq<string>, node: string, n: string)
    requires n in g && node !in done
    ensures Outstanding(g, done + [node], n) == Outstanding(g, done, n) - (if node in g[n] then 1 else 0)
  {
    assert Elements(done + [node]) == Elements(done) + {node};
    var all := Elements(g[n]);
    if node in g[n] {
      assert all * Elements(done + [node]) == all * Elements(done) + {node};
    } else {
      assert all * Elements(done + [node]) == all * Elements(done);
    }
  }

  /** The members of a set in some order. */
  method ListOf(s: set<string>) returns (r: seq<string>)
    ensures NoDuplicates(r) && forall x :: x in r <==> x in s
  {
    r := [];
    var todo := s;
    while todo != {}
      invariant todo <= s && NoDuplicates(r) && forall x :: x in r <==> x in s && x !in todo
    {
      var x :| x in todo;
      r, todo := r + [x], todo - {x};
    }
  }

  /** The counts as they stand after the nodes in `done`. */
  ghost predicate Counts(g: Graph, remaining: InDegree, done: seq<string>)
  {
    remaining.Keys == g.Keys && forall n | n in g :: remaining[n] == Outstanding(g, done, n)
  }

  /** The queue holds exactly the ready nodes, in order. */
  ghost predicate Queued(g: Graph, queue: seq<string>, done: seq<string>)
  {
    NoDuplicates(queue) && Sorted(queue) && forall n :: n in queue <==> Ready(g, done, n)
  }

  method ZeroIds(remaining: InDegree) returns (zeros: seq<string>)
    ensures NoDuplicates(zeros) && forall n :: n in zeros <==> n in remaining && remaining[n] == 0
  {
    var ids := ListOf(remaining.Keys);
    zeros := [];
    for i := 0 to |ids|
      invariant NoDuplicates(zeros) && forall n :: n in zeros <==> n in ids[..i] && remaining[n] == 0
    {
      assert ids[i] in ids && ids[i] !in ids[..i];
      if remaining[ids[i]] == 0 { zeros := zeros + [ids[i]]; }
      assert ids[..i + 1] == ids[..i] + [ids[i]];
    }
    assert ids[..|ids|] == ids;
  }

  method InitialQueue(ghost g: Graph, remaining: InDegree) returns (queue: seq<string>)
    requires Counts(g, remaining, [])
    ensures Queued(g, queue, [])
  {
    queue := ZeroIds(remaining);
    queue := SortedList(queue);
    forall n ensures n in queue <==> Ready(g, [], n)
    {
      if n in g { ReadyMeansNothingOutstanding(g, [], n); }
    }
  }

  method SortedList(ids: seq<string>) returns (r: seq<string>)
    requires NoDuplicates(ids)
    ensures NoDuplicates(r) && Sorted(r) && forall x :: x in r <==> x in ids
  {
    r := Sort(ids);
    SortSorts(ids);
    RearrangedKeeps(ids, r);
    assert forall x :: x in r <==> x in Elements(r);
    assert forall x :: x in ids <==> x in Elements(ids);
  }

  /** Count one reference less for each neighbor, noting those that reach zero. */
  method Decrement(remaining0: InDegree, neighbors: seq<string>) returns (remaining: InDegree, newReady: seq<string>)
    requires NoDuplicates(neighbors) && forall n | n in neighbors :: n in remaining0 && remaining0[n] >= 1
    ensures remaining.Keys == remaining0.Keys
    ensures forall n | n in remaining :: remaining[n] == remaining0[n] - (if n in neighbors then 1 else 0)
    ensures NoDuplicates(newReady) && forall n :: n in newReady <==> n in neighbors && remaining[n] == 0
  {
    remaining, newReady := remaining0, [];
    for k := 0 to |neighbors|
      invariant remaining.Keys == remaining0.Keys
      invariant forall n | n in remaining :: remaining[n] == remaining0[n] - (if n in neighbors[..k] then 1 else 0)
      invariant NoDuplicates(newReady) && forall n :: n in newReady <==> n in neighbors[..k] && remaining[n] == 0
    {
      var n := neighbors[k];
      assert n in neighbors && n !in neighbors[..k];
      remaining := remaining[n := remaining[n] - 1];
      if remaining[n] == 0 { newReady := newReady + [n]; }
      assert neighbors[..k + 1] == neighbors[..k] + [n];
    }
    assert neighbors[..|neighbors|] == neighbors;
  }

  /** What is left outstanding once `node` is discharged for the nodes listed, and which of them that makes ready. */
  ghost predicate DischargedFor(g: Graph, done: seq<string>, node: string, neighbors: seq<string>, n: string)
  {
    n in g ==>
      && (n in neighbors <==> node in g[n])
      && Outstanding(g, done + [node], n) == Outstanding(g, done, n) - (if n in neighbors then 1 else 0) >= 0
      && (Ready(g, done + [node], n) && !Ready(g, done, n) <==> n in neighbors && Outstanding(g, done + [node], n) == 0)
  }

  /** The nodes done have all their references done. */
  ghost predicate DownwardClosed(g: Graph, done: seq<string>)
  {
    forall n, x | n in done && n in g && x in g[n] :: x in done
  }

  lemma DischargeOne(adjacency: Adjacency, g: Graph, done: seq<string>, node: string, neighbors: seq<string>, n: string)
    requires Dependents(adjacency, g) && Ready(g, done, node) && DownwardClosed(g, done)
    requires node in adjacency && forall x :: x in neighbors <==> x in adjacency[node]
    ensures DischargedFor(g, done, node, neighbors, n)
  {
    if n in g {
      OneMoreDone(g, done, node, n);
      ReadyMeansNothingOutstanding(g, done + [node], n);
      BecomesReady(g, done, node, n);
    }
  }

  /** Discharge `node` for its dependents; those it was the last reference of become ready. */
  method Discharge(adjacency: Adjacency, remaining0: InDegree, ghost g: Graph, ghost done: seq<string>, node: string)
      returns (remaining: InDegree, newReady: seq<string>)
    requires Dependents(adjacency, g) && Counts(g, remaining0, done)
    requires Ready(g, done, node) && DownwardClosed(g, done)
    ensures Counts(g, remaining, done + [node])
    ensures NoDuplicates(newReady)
    ensures forall n :: n in newReady <==> Ready(g, done + [node], n) && !Ready(g, done, n)
  {
    var neighbors := ListOf(adjacency[node]);
    neighbors := SortedList(neighbors);
    forall n ensures DischargedFor(g, done, node, neighbors, n)
    {
      DischargeOne(adjacency, g, done, node, neighbors, n);
    }
    forall n | n in neighbors ensures n in remaining0 && remaining0[n] >= 1
    {
      assert DischargedFor(g, done, node, neighbors, n);
    }
    remaining, newReady := Decrement(remaining0, neighbors);
    forall n | n in g ensures remaining[n] == Outstanding(g, done + [node], n)
    {
      assert DischargedFor(g, done, node, neighbors, n);
    }
    forall n ensures n in newReady <==> Ready(g, done + [node], n) && !Ready(g, done, n)
    {
      assert DischargedFor(g, done, node, neighbors, n);
    }
  }

  lemma BecomesReady(g: Graph, done: seq<string>, node: string, n: string)
    requires n in g && Ready(g, done, node) && DownwardClosed(g, done)
    ensures Ready(g, done + [node], n) && !Ready(g, done, n) <==>
            node in g[n] && Outstanding(g, done, n) == 1
  {
    OneMoreDone(g, done, node, n);
    ReadyMeansNothingOutstanding(g, done, n);
    ReadyMeansNothingOutstanding(g, done + [node], n);
  }

  lemma GreedyIsDownwardClosed(g: Graph, done: seq<string>)
    requires Greedy(g, done)
    ensures DownwardClosed(g, done)
  {
    GreedyIsAdmissible(g, done);
    forall n, x | n in done && n in g && x in g[n] ensures x in done
    {
      var i :| 0 <= i < |done| && done[i] == n;
      assert x in done[..i];
    }
  }

  /** Taking the head of the queue keeps the order greedy, and the rest with the new nodes is what is ready next. */
  lemma QueueStep(g: Graph, queue: seq<string>, order: seq<string>, newReady: seq<string>)
    requires Queued(g, queue, order) && Greedy(g, order) && queue != [] && NoDuplicates(newReady)
    requires forall n :: n in newReady <==> Ready(g, order + [queue[0]], n) && !Ready(g, order, n)
    ensures Greedy(g, order + [queue[0]])
    ensures NoDuplicates(queue[1..] + newReady)
    ensures forall n :: n in queue[1..] + newReady <==> Ready(g, order + [queue[0]], n)
    ensures |order| < |g.Keys|
  {
    var node, rest, order' := queue[0], queue[1..], order + [queue[0]];
    assert queue == [node] + rest;
    assert Ready(g, order, node);
    forall i | 0 <= i < |order'|
      ensures Ready(g, order'[..i], order'[i]) && forall m | Ready(g, order'[..i], m) :: AtMost(order'[i], m)
    {
      if i < |order| {
        assert order'[..i] == order[..i];
      } else {
        assert order'[..i] == order;
        forall m | Ready(g, order, m) ensures AtMost(node, m) { assert m in queue; }
      }
    }
    forall n ensures n in rest + newReady <==> Ready(g, order', n)
    {
      if n in rest { assert n in queue && n != node; }
      assert Ready(g, order', n) && Ready(g, order, n) ==> n in queue && n != node;
    }
    forall n | n in rest ensures n !in newReady { assert n in queue; }
    assert NoDuplicates(rest);
    ConcatNoDuplicates(rest, newReady);
    GreedyIsAdmissible(g, order');
    DistinctFit(order', g.Keys);
  }

  method KahnSort(adjacency: Adjacency, inDegree: InDegree, ghost g: Graph) returns (order: seq<string>)
    requires Represents(adjacency, inDegree, g)
    ensures Greedy(g, order) && Exhausted(g, order)
  {
    var remaining := inDegree;
    forall n | n in g ensures Outstanding(g, [], n) == |g[n]|
    {
      assert Elements(g[n]) * Elements<string>([]) == {};
    }
    var queue := InitialQueue(g, remaining);
    order := [];
    while queue != []
      invariant Counts(g, remaining, order) && Queued(g, queue, order) && Greedy(g, order)
      decreases |g.Keys| - |order|
    {
      var node := queue[0];
      assert node in queue;
      GreedyIsDownwardClosed(g, order);
      var newReady;
      remaining, newReady := Discharge(adjacency, remaining, g, order, node);
      QueueStep(g, queue, order, newReady);
      order := order + [node];
      queue := SortedList(queue[1..] + newReady);
    }
    assert forall m :: m !in queue;
  }
}
