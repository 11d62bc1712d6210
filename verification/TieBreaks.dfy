/**
 What the cut-off search can return at all. Entries of equal cost leave the queue in an order
 the caller does not control; over all such orders the costs returned are exactly the costs of
 cut-off paths.
 */
module TieBreaks {
  import opened NetworkGraph
  import opened ShortestPath
  import opened Routes

  // ---------- Whatever is returned is a cut-off path ----------

  lemma {:induction false} ReturnsCutOff(q: Query, l: Labels, settled: set<Node>, tree: map<Node, seq<Node>>, c: real,
                                         n: nat)
    requires q.Valid() && Phase(q, l, settled, tree) && Returns(q, l, c, n)
    ensures exists p :: CutOffPath(q, p) && Length(q.graph, p, q.metric) == c
    decreases n
  {
    var i: nat :| Least(l, i) && ReturnsVia(q, l, c, n, i);
    assert l.queue[i] in l.queue;
    if Finishes(q, l, l.queue[i]) {
      FinishAnswers(q, l, settled, tree, l.queue[i]);
      assert CutOffPath(q, tree[q.end]);
    } else {
      var settled', tree' := RoundKeeps(q, l, settled, tree, i);
      ReturnsCutOff(q, After(q, l, i), settled', tree', c, n - 1);
    }
  }

  // ---------- Every cut-off path can be returned ----------

  lemma ReturnsBefore(q: Query, l: Labels, c: real, n: nat, i: nat)
    requires Least(l, i) && !Finishes(q, l, l.queue[i]) && Returns(q, After(q, l, i), c, n)
    ensures Returns(q, l, c, n + 1)
  {
    assert ReturnsVia(q, l, c, n + 1, i);
  }

  /** A cheapest entry exists. */
  lemma {:induction false} LeastEntry(queue: seq<PQNode>) returns (i: nat)
    requires |queue| > 0
    ensures i < |queue| && forall x :: x in queue ==> queue[i].cost <= x.cost
  {
    i := 0;
    if |queue| > 1 {
      var rest := queue[..|queue| - 1];
      i := LeastEntry(rest);
      if queue[|queue| - 1].cost < queue[i].cost {
        i := |queue| - 1;
      }
      forall x | x in queue
        ensures queue[i].cost <= x.cost
      {
        assert x in rest || x == queue[|queue| - 1];
      }
    }
  }

  /** Once the destination is labelled, its label is returned in any order. */
  lemma {:induction false} FoundReturns(q: Query, l: Labels, settled: set<Node>, tree: map<Node, seq<Node>>)
    returns (n: nat)
    requires q.Valid() && Found(q, l, settled, tree)
    ensures Returns(q, l, l.D(q.end), n)
    decreases |l.queue|
  {
    var i := LeastEntry(l.queue);
    var x := l.queue[i];
    assert x in l.queue && Entry(l, settled, x);
    if Finishes(q, l, x) {
      n := 1;
      assert ReturnsVia(q, l, l.D(q.end), n, i);
    } else {
      SkipFound(q, l, settled, tree, i);
      n := FoundReturns(q, After(q, l, i), settled, tree);
      ReturnsBefore(q, l, l.D(q.end), n, i);
      n := n + 1;
    }
  }

  /** Edges that do not lead to v leave its label alone. */
  lemma {:induction false} LabelUntouched(q: Query, l: Labels, u: Node, c: real, edges: seq<Edge>, n: nat, v: Node)
    requires n <= |edges| && forall e :: e in edges ==> e.destination != v
    ensures RelaxFirst(q, l, u, c, edges, n).DistOf(v) == l.DistOf(v)
  {
    if n > 0 {
      LabelUntouched(q, l, u, c, edges, n - 1, v);
      assert edges[n - 1] in edges;
    }
  }

  /** Relaxing the only edge to an unlabelled v labels it with the price of that edge. */
  lemma {:induction false} LabelSet(q: Query, l: Labels, u: Node, c: real, edges: seq<Edge>, n: nat, e: Edge)
    requires n <= |edges| && e in edges[..n] && e.destination !in q.forbidden && l.DistOf(e.destination).Infinite?
    requires forall f :: f in edges && f.destination == e.destination ==> f == e
    ensures RelaxFirst(q, l, u, c, edges, n).DistOf(e.destination) == Finite(c + Price(e, q.metric))
  {
    var f := edges[n - 1];
    assert f in edges;
    if e in edges[..n - 1] {
      LabelSet(q, l, u, c, edges, n - 1, e);
    } else {
      assert edges[..n] == edges[..n - 1] + [f];
      assert f == e;
      UnlabelledBefore(q, l, u, c, edges, n - 1, e);
    }
  }

  lemma {:induction false} UnlabelledBefore(q: Query, l: Labels, u: Node, c: real, edges: seq<Edge>, n: nat, e: Edge)
    requires n <= |edges| && e !in edges[..n] && l.DistOf(e.destination).Infinite?
    requires forall f :: f in edges && f.destination == e.destination ==> f == e
    ensures RelaxFirst(q, l, u, c, edges, n).DistOf(e.destination).Infinite?
  {
    if n > 0 {
      assert edges[..n] == edges[..n - 1] + [edges[n - 1]];
      UnlabelledBefore(q, l, u, c, edges, n - 1, e);
      assert edges[n - 1] in edges;
    }
  }

  /** The first k nodes of the walk x are settled. */
  ghost predicate SettledTo(x: seq<Node>, settled: set<Node>, k: nat) {
    k <= |x| && forall i :: 0 <= i < k ==> x[i] in settled
  }

  /** Settled nodes along a walk are labelled at most with their distance along it. */
  lemma {:induction false} LabelAlong(q: Query, l: Labels, settled: set<Node>, tree: map<Node, seq<Node>>,
                                      x: seq<Node>, k: nat)
    requires q.Valid() && Searching(q, l, settled, tree) && k < |x| && SettledTo(x, settled, k)
    requires IsWalk(q.graph, x) && x[0] == q.start && Avoids(x, q.forbidden)
    ensures l.Labelled(x[k]) && l.D(x[k]) <= Length(q.graph, x[..k + 1], q.metric)
  {
    if k > 0 {
      LabelAlong(q, l, settled, tree, x, k - 1);
      EdgeOfWalk(q.graph, x, k - 1);
      var e := EdgeTo(q.graph[x[k - 1]], x[k]);
      assert ClosedAt(q, l, x[k - 1], e);
      WeightOfEdge(q.graph, x[k - 1], e, q.metric);
      assert x[..k + 1][..k] == x[..k];
    }
  }

  lemma {:induction false} FirstUnsettled(x: seq<Node>, settled: set<Node>) returns (k: nat)
    requires |x| > 0 && x[|x| - 1] !in settled
    ensures k < |x| && x[k] !in settled && SettledTo(x, settled, k)
  {
    k := 0;
    while x[k] in settled
      invariant k < |x| && SettledTo(x, settled, k)
      decreases |x| - k
    {
      k := k + 1;
    }
  }

  /** The entry to pop next on the way to p: some cheaper one, or that of the next node on p. */
  lemma NextPop(q: Query, l: Labels, settled: set<Node>, tree: map<Node, seq<Node>>, p: seq<Node>) returns (i: nat)
    requires q.Valid() && q.start != q.end && Searching(q, l, settled, tree)
    requires CutOffPath(q, p) && p[|p| - 2] !in settled
    ensures Least(l, i) && l.queue[i].cost <= Length(q.graph, p[..|p| - 1], q.metric)
    ensures l.queue[i].cost < Length(q.graph, p[..|p| - 1], q.metric) || l.queue[i].node in p[..|p| - 1]
  {
    var x := p[..|p| - 1];
    PrefixWalk(q.graph, p, |p| - 1);
    var k := FirstUnsettled(x, settled);
    LabelAlong(q, l, settled, tree, x, k);
    PrefixNoLonger(q.graph, x, k + 1, q.metric);
    var next := PQNode(x[k], l.D(x[k]), 0.0);
    assert next in l.queue;
    i := LeastEntry(l.queue);
    if l.queue[i].cost == Length(q.graph, x, q.metric) {
      i :| 0 <= i < |l.queue| && l.queue[i] == next;
    }
  }

  /** A popped node that has no edge to the destination leaves it unlabelled. */
  lemma StillSearching(q: Query, l: Labels, settled: set<Node>, tree: map<Node, seq<Node>>, i: nat)
    requires q.Valid() && Searching(q, l, settled, tree) && Least(l, i) && !Stale(l, l.queue[i])
    requires !HasEdge(q.graph, l.queue[i].node, q.end)
    ensures After(q, l, i).DistOf(q.end).Infinite?
  {
    var u := l.queue[i].node;
    LabelUntouched(q, l.(queue := WithoutAt(l.queue, i)), u, l.queue[i].cost, OutEdges(q, u), |OutEdges(q, u)|, q.end);
  }

  /** The node popped on the way to p is no predecessor, unless it is the one p enters from. */
  lemma PoppedOnTheWay(q: Query, l: Labels, settled: set<Node>, tree: map<Node, seq<Node>>, p: seq<Node>, i: nat)
    requires q.Valid() && q.start != q.end && Searching(q, l, settled, tree) && CutOffPath(q, p)
    requires Least(l, i) && !Stale(l, l.queue[i])
    requires l.queue[i].cost < Length(q.graph, p[..|p| - 1], q.metric) || l.queue[i].node in p[..|p| - 1]
    requires l.queue[i].node != p[|p| - 2]
    ensures !HasEdge(q.graph, l.queue[i].node, q.end)
  {
    var x := l.queue[i];
    assert x in l.queue && Entry(l, settled, x);
    assert Branch(q, l, settled, tree, x.node);
    if x.cost < Length(q.graph, p[..|p| - 1], q.metric) {
      assert q.Reaches(x.node, tree[x.node]);
    } else {
      var k :| 0 <= k < |p| - 1 && p[k] == x.node;
    }
  }

  /** Popping the predecessor p enters from labels the destination with the length of p. */
  lemma EntryLabels(q: Query, l: Labels, settled: set<Node>, tree: map<Node, seq<Node>>, p: seq<Node>, i: nat)
    requires q.Valid() && q.start != q.end && Searching(q, l, settled, tree) && CutOffPath(q, p)
    requires Least(l, i) && !Stale(l, l.queue[i])
    requires l.queue[i].node == p[|p| - 2] && l.queue[i].cost == Length(q.graph, p[..|p| - 1], q.metric)
    ensures After(q, l, i).DistOf(q.end) == Finite(Length(q.graph, p, q.metric))
  {
    var u, l' := p[|p| - 2], l.(queue := WithoutAt(l.queue, i));
    EdgeOfWalk(q.graph, p, |p| - 2);
    var e := EdgeTo(q.graph[u], q.end);
    WeightOfEdge(q.graph, u, e, q.metric);
    LastEdge(q.graph, p, q.metric);
    var edges := OutEdges(q, u);
    assert edges[..|edges|] == edges;
    LabelSet(q, l', u, l.queue[i].cost, edges, |edges|, e);
  }

  /** Popping along a cut-off path makes the search return its length. */
  lemma {:induction false} Steer(q: Query, l: Labels, settled: set<Node>, tree: map<Node, seq<Node>>, p: seq<Node>)
    returns (n: nat)
    requires q.Valid() && q.start != q.end && Searching(q, l, settled, tree)
    requires CutOffPath(q, p) && p[|p| - 2] !in settled
    ensures Returns(q, l, Length(q.graph, p, q.metric), n)
    decreases l.dist.Keys - settled, |l.queue|
  {
    var i := NextPop(q, l, settled, tree, p);
    var x, c := l.queue[i], Length(q.graph, p, q.metric);
    assert x in l.queue && Entry(l, settled, x);
    var l', settled', tree' := After(q, l, i), settled, tree;
    settled', tree' := RoundKeeps(q, l, settled, tree, i);
    if Stale(l, x) {
      n := Steer(q, l', settled', tree', p);
    } else if x.node == p[|p| - 2] {
      EntryIsNearest(q, l, settled, tree, p, x);
      EntryLabels(q, l, settled, tree, p, i);
      n := FoundReturns(q, l', settled', tree');
    } else {
      PoppedOnTheWay(q, l, settled, tree, p, i);
      StillSearching(q, l, settled, tree, i);
      n := Steer(q, l', settled', tree', p);
    }
    ReturnsBefore(q, l, c, n, i);
    n := n + 1;
  }

  /** The predecessor p enters from is never labelled below its distance along p. */
  lemma EntryIsNearest(q: Query, l: Labels, settled: set<Node>, tree: map<Node, seq<Node>>, p: seq<Node>, x: PQNode)
    requires q.Valid() && q.start != q.end && Searching(q, l, settled, tree) && CutOffPath(q, p)
    requires x in l.queue && !Stale(l, x) && x.node == p[|p| - 2] && x.cost <= Length(q.graph, p[..|p| - 1], q.metric)
    ensures x.cost == Length(q.graph, p[..|p| - 1], q.metric)
  {
    assert Entry(l, settled, x);
    assert Branch(q, l, settled, tree, x.node);
    EdgeOfWalk(q.graph, p, |p| - 2);
    assert q.Reaches(x.node, tree[x.node]);
  }

  /** The search may return exactly the lengths of cut-off paths. */
  lemma ReturnableIffCutOff(q: Query, c: real)
    requires q.Valid()
    ensures Returnable(q, c) <==> exists p :: CutOffPath(q, p) && Length(q.graph, p, q.metric) == c
  {
    StartPhase(q);
    var tree := map[q.start := [q.start]];
    if Returnable(q, c) {
      var n: nat :| Returns(q, Start(q), c, n);
      ReturnsCutOff(q, Start(q), {}, tree, c, n);
    }
    if p :| CutOffPath(q, p) && Length(q.graph, p, q.metric) == c {
      if q.start == q.end {
        assert ReturnsVia(q, Start(q), c, 1, 0);
        assert Returns(q, Start(q), c, 1);
      } else {
        StartSearching(q, p);
        var n := Steer(q, Start(q), {}, tree, p);
      }
    }
  }

  lemma StartSearching(q: Query, p: seq<Node>)
    requires q.Valid() && q.start != q.end && CutOffPath(q, p)
    ensures Searching(q, Start(q), {}, map[q.start := [q.start]])
  {
    StartPhase(q);
    EdgeOfWalk(q.graph, p, |p| - 2);
    var e := EdgeTo(q.graph[p[|p| - 2]], q.end);
    assert q.end in Nodes(q.graph);
  }
}
