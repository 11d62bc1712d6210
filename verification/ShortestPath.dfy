/**
 The label-setting search behind every routing query. It is Dijkstra's algorithm with an
 early cut-off: as soon as the destination carries any label, popped nodes are no longer
 expanded. `CutOffPath` is the exact guarantee that is left.
 */
module ShortestPath {
  import opened NetworkGraph
  import opened Wrappers

  datatype Dist = Infinite | Finite(value: real)

  datatype PQNode = PQNode(node: string, cost: real, rawRTT: real)

  datatype Path = Path(hops: seq<Node>, cost: real, rawRTT: real)

  datatype Query = Query(graph: Graph, forbidden: set<Node>, start: Node, end: Node, metric: Metric) {
    ghost predicate Valid() {
      WellFormed(graph) && NonNegative(graph, metric) && start != "" && end != ""
    }

    ghost predicate Reaches(v: Node, p: seq<Node>) {
      Connects(graph, forbidden, start, v, p)
    }
  }

  /** What the search updates step by step. An absent `rtt` entry is an infinite one. */
  datatype Labels = Labels(dist: map<Node, Dist>, prev: map<Node, Node>, rtt: map<Node, real>, queue: seq<PQNode>) {
    /** A missing key reads as zero, as it does in the source's map. */
    function DistOf(v: Node): Dist {
      if v in dist then dist[v] else Finite(0.0)
    }

    predicate Labelled(v: Node) {
      v in dist && dist[v].Finite?
    }

    function D(v: Node): real
      requires Labelled(v)
    {
      dist[v].value
    }
  }

  // ---------- The guarantee ----------

  /**
   p enters the destination through a predecessor that no walk reaches more cheaply, and
   passes no other predecessor on its way.
   */
  ghost predicate CutOffPath(q: Query, p: seq<Node>) {
    && q.Reaches(q.end, p)
    && Simple(p)
    && (q.start == q.end ==> p == [q.start])
    && (q.start != q.end ==> |p| >= 2 && NearestPredecessor(q, Length(q.graph, p[..|p| - 1], q.metric)))
    && NoEarlierEntry(q, p)
  }

  /** No node before the last but one has an edge to the destination. */
  ghost predicate NoEarlierEntry(q: Query, p: seq<Node>) {
    forall i :: 0 <= i < |p| - 2 ==> !HasEdge(q.graph, p[i], q.end)
  }

  /** Every walk to a predecessor of the destination is at least d long. */
  ghost predicate NearestPredecessor(q: Query, d: real) {
    forall v, w ::
      q.Reaches(v, w) && HasEdge(q.graph, v, q.end) ==> d <= Length(q.graph, w, q.metric)
  }

  // ---------- Invariant of the labels ----------

  /** The label of v is the price of the simple walk tree[v], whose inner nodes are settled. */
  ghost predicate Branch(q: Query, l: Labels, settled: set<Node>, tree: map<Node, seq<Node>>, v: Node)
    requires l.Labelled(v)
  {
    && v in tree && v in l.rtt && v != ""
    && q.Reaches(v, tree[v]) && Simple(tree[v])
    && Length(q.graph, tree[v], q.metric) == l.D(v)
    && Length(q.graph, tree[v], ByLatency) == l.rtt[v]
    && (forall i :: 0 <= i < |tree[v]| - 1 ==> tree[v][i] in settled)
    && if v == q.start then v !in l.prev && tree[v] == [v]
       else v in l.prev && l.prev[v] in settled && l.prev[v] in tree && tree[v] == tree[l.prev[v]] + [v]
  }

  ghost predicate Branches(q: Query, l: Labels, settled: set<Node>, tree: map<Node, seq<Node>>) {
    forall v {:trigger Branch(q, l, settled, tree, v)} :: l.Labelled(v) ==> Branch(q, l, settled, tree, v)
  }

  ghost predicate Initialised(q: Query, l: Labels) {
    && q.start in l.dist && l.dist[q.start] == Finite(0.0)
    && (forall u, e :: u in q.graph && e in q.graph[u] ==> e.destination in l.dist)
  }

  /** An entry is never below the label, and settled nodes keep only stale entries. */
  ghost predicate Entry(l: Labels, settled: set<Node>, x: PQNode) {
    && l.Labelled(x.node) && x.rawRTT == 0.0
    && l.D(x.node) <= x.cost
    && (x.node in settled ==> l.D(x.node) < x.cost)
  }

  ghost predicate Entries(l: Labels, settled: set<Node>) {
    && (forall x :: x in l.queue ==> Entry(l, settled, x))
    && (forall i, j :: 0 <= i < j < |l.queue| ==> l.queue[i] != l.queue[j])
  }

  ghost predicate Frontier(l: Labels, settled: set<Node>) {
    forall v :: l.Labelled(v) && v !in settled ==> PQNode(v, l.D(v), 0.0) in l.queue
  }

  ghost predicate Ordered(l: Labels, settled: set<Node>) {
    && (forall u :: u in settled ==> l.Labelled(u))
    && (forall u, v :: u in settled && l.Labelled(v) && v !in settled ==> l.D(u) <= l.D(v))
  }

  ghost predicate ClosedAt(q: Query, l: Labels, u: Node, e: Edge)
    requires l.Labelled(u)
  {
    e.destination !in q.forbidden ==> l.Labelled(e.destination) && l.D(e.destination) <= l.D(u) + Price(e, q.metric)
  }

  /** All edges out of settled nodes have been relaxed. */
  ghost predicate Closed(q: Query, l: Labels, settled: set<Node>)
    requires forall u :: u in settled ==> l.Labelled(u)
  {
    forall u, e :: u in settled && u in q.graph && e in q.graph[u] ==> ClosedAt(q, l, u, e)
  }

  ghost predicate Core(q: Query, l: Labels, settled: set<Node>, tree: map<Node, seq<Node>>) {
    Initialised(q, l) && Branches(q, l, settled, tree) && Entries(l, settled) && Ordered(l, settled)
  }

  /** The destination has no label yet. */
  ghost predicate Searching(q: Query, l: Labels, settled: set<Node>, tree: map<Node, seq<Node>>) {
    && Core(q, l, settled, tree) && Frontier(l, settled) && Closed(q, l, settled)
    && q.end in l.dist && l.dist[q.end].Infinite?
  }

  /** The destination has its final label and only waits to be popped. */
  ghost predicate Found(q: Query, l: Labels, settled: set<Node>, tree: map<Node, seq<Node>>) {
    && Branches(q, l, settled, tree) && l.Labelled(q.end)
    && (forall x :: x in l.queue ==> Entry(l, settled, x))
    && (forall u :: u in settled ==> l.Labelled(u))
    && PQNode(q.end, l.D(q.end), 0.0) in l.queue
    && q.end in tree && CutOffPath(q, tree[q.end])
  }

  /** The destination occurs nowhere in the graph: its missing label reads as zero. */
  ghost predicate Absent(q: Query, l: Labels) {
    && q.start != q.end && q.end !in l.dist
    && (forall u, e :: u in q.graph && e in q.graph[u] ==> e.destination in l.dist)
    && (forall x :: x in l.queue ==> x.node in l.dist)
  }

  ghost predicate Phase(q: Query, l: Labels, settled: set<Node>, tree: map<Node, seq<Node>>) {
    Searching(q, l, settled, tree) || Found(q, l, settled, tree) || Absent(q, l)
  }

  // ---------- The cut argument ----------

  /** Any walk meets an unsettled label no longer than itself, or ends in a settled one. */
  lemma {:induction false} Cut(q: Query, l: Labels, settled: set<Node>, tree: map<Node, seq<Node>>, p: seq<Node>,
                               v: Node)
    requires q.Valid() && Core(q, l, settled, tree) && Closed(q, l, settled) && q.Reaches(v, p)
    ensures (v in settled && l.D(v) <= Length(q.graph, p, q.metric))
         || exists x :: l.Labelled(x) && x !in settled && l.D(x) <= Length(q.graph, p, q.metric)
    decreases |p|
  {
    if |p| > 1 {
      var r := p[..|p| - 1];
      var u := r[|r| - 1];
      Cut(q, l, settled, tree, r, u);
      var e := EdgeTo(q.graph[u], v);
      WeightOfEdge(q.graph, u, e, q.metric);
      assert Length(q.graph, p, q.metric) == Length(q.graph, r, q.metric) + Price(e, q.metric);
      if u in settled {
        assert ClosedAt(q, l, u, e);
      }
    }
  }

  /** No walk to an unsettled node undercuts the smallest queue entry. */
  lemma MinimalPop(q: Query, l: Labels, settled: set<Node>, tree: map<Node, seq<Node>>, c: real, p: seq<Node>, v: Node)
    requires q.Valid() && Core(q, l, settled, tree) && Closed(q, l, settled) && Frontier(l, settled)
    requires forall x :: x in l.queue ==> c <= x.cost
    requires q.Reaches(v, p) && v !in settled
    ensures c <= Length(q.graph, p, q.metric)
  {
    Cut(q, l, settled, tree, p, v);
    var x :| l.Labelled(x) && x !in settled && l.D(x) <= Length(q.graph, p, q.metric);
    assert PQNode(x, l.D(x), 0.0) in l.queue;
  }

  /** An empty queue leaves nothing unsettled to reach. */
  lemma ExhaustedSearch(q: Query, l: Labels, settled: set<Node>, tree: map<Node, seq<Node>>, p: seq<Node>)
    requires q.Valid() && Searching(q, l, settled, tree) && l.queue == []
    ensures !q.Reaches(q.end, p)
  {
    if q.Reaches(q.end, p) {
      MinimalPop(q, l, settled, tree, Length(q.graph, p, q.metric) + 1.0, p, q.end);
    }
  }

  lemma AbsentUnreachable(q: Query, l: Labels, p: seq<Node>)
    requires Absent(q, l)
    ensures !q.Reaches(q.end, p)
  {
  }

  // ---------- Steps ----------

  function WithoutAt<T>(s: seq<T>, i: nat): seq<T>
    requires i < |s|
  {
    s[..i] + s[i + 1..]
  }

  /** Removing one element from a duplicate-free sequence removes that value and no other. */
  lemma WithoutAtKeeps<T>(s: seq<T>, i: nat)
    requires i < |s| && (forall a, b :: 0 <= a < b < |s| ==> s[a] != s[b])
    ensures forall a, b :: 0 <= a < b < |s| - 1 ==> WithoutAt(s, i)[a] != WithoutAt(s, i)[b]
    ensures forall x :: x in WithoutAt(s, i) <==> x in s && x != s[i]
  {
    var r := WithoutAt(s, i);
    assert forall a :: 0 <= a < |r| ==> r[a] == s[if a < i then a else a + 1];
    forall x | x in s && x != s[i]
      ensures x in r
    {
      var j :| 0 <= j < |s| && s[j] == x;
      assert x == r[if j < i then j else j - 1];
    }
  }

  /** Settling a popped, non-stale entry. */
  lemma Settle(q: Query, l: Labels, settled: set<Node>, tree: map<Node, seq<Node>>, i: nat)
    requires Core(q, l, settled, tree) && Frontier(l, settled)
    requires i < |l.queue| && (forall x :: x in l.queue ==> l.queue[i].cost <= x.cost)
    requires Entry(l, settled, l.queue[i]) && l.D(l.queue[i].node) == l.queue[i].cost
    ensures l.queue[i].node !in settled
    ensures var l' := l.(queue := WithoutAt(l.queue, i));
            var settled' := settled + {l.queue[i].node};
            Core(q, l', settled', tree) && Frontier(l', settled')
  {
    var u := l.queue[i];
    var l' := l.(queue := WithoutAt(l.queue, i));
    var settled' := settled + {u.node};
    WithoutAtKeeps(l.queue, i);
    assert Branches(q, l', settled', tree) by {
      forall v | l'.Labelled(v)
        ensures Branch(q, l', settled', tree, v)
      {
        assert Branch(q, l, settled, tree, v);
      }
    }
    assert Entries(l', settled') by {
      forall x | x in l'.queue
        ensures Entry(l', settled', x)
      {
        assert Entry(l, settled, x);
      }
    }
    forall v | l.Labelled(v) && v !in settled
      ensures u.cost <= l.D(v)
    {
      assert PQNode(v, l.D(v), 0.0) in l.queue;
    }
  }

  /** The labels after an improving edge u->e.destination. */
  function Relaxed(q: Query, l: Labels, u: Node, e: Edge): Labels
    requires l.Labelled(u) && u in l.rtt
  {
    var v := e.destination;
    var c := l.D(u) + Price(e, q.metric);
    Labels(l.dist[v := Finite(c)], l.prev[v := u], l.rtt[v := l.rtt[u] + e.latency], l.queue + [PQNode(v, c, 0.0)])
  }

  predicate Improves(q: Query, l: Labels, u: Node, e: Edge)
    requires l.Labelled(u)
  {
    && e.destination !in q.forbidden
    && match l.DistOf(e.destination)
       case Infinite => true
       case Finite(d) => l.D(u) + Price(e, q.metric) < d
  }

  /** Growing a simple walk by an edge to a fresh node. */
  lemma GrowWalk(q: Query, p: seq<Node>, u: Node, e: Edge)
    requires q.Valid() && q.Reaches(u, p) && Simple(p)
    requires u in q.graph && e in q.graph[u] && e.destination !in p && e.destination !in q.forbidden
    ensures q.Reaches(e.destination, p + [e.destination]) && Simple(p + [e.destination])
    ensures Length(q.graph, p + [e.destination], q.metric) == Length(q.graph, p, q.metric) + Price(e, q.metric)
    ensures Length(q.graph, p + [e.destination], ByLatency) == Length(q.graph, p, ByLatency) + e.latency
  {
    WeightOfEdge(q.graph, u, e, q.metric);
    WeightOfEdge(q.graph, u, e, ByLatency);
    ExtendWalk(q.graph, p, e.destination, q.metric);
    ExtendWalk(q.graph, p, e.destination, ByLatency);
  }

  /** An improvable node is unsettled and not on the branch that improves it. */
  lemma ImprovableIsFresh(q: Query, l: Labels, settled: set<Node>, tree: map<Node, seq<Node>>, u: Node, e: Edge)
    requires q.Valid() && Core(q, l, settled, tree)
    requires u in settled && u in q.graph && e in q.graph[u] && Improves(q, l, u, e)
    requires forall x :: x in settled ==> l.D(x) <= l.D(u)
    ensures Branch(q, l, settled, tree, u)
    ensures e.destination !in settled && e.destination != q.start && e.destination !in tree[u]
  {
    assert Branch(q, l, settled, tree, u);
    assert Price(e, q.metric) >= 0.0;
    LengthNonNegative(q.graph, tree[u], q.metric);
    assert l.D(q.start) == 0.0;
  }

  /** The new branch to an improved node is again a simple walk of the label's price. */
  lemma NewBranch(q: Query, l: Labels, settled: set<Node>, tree: map<Node, seq<Node>>, u: Node, e: Edge)
    requires q.Valid() && Core(q, l, settled, tree)
    requires u in settled && u in q.graph && e in q.graph[u] && Improves(q, l, u, e)
    requires forall x :: x in settled ==> l.D(x) <= l.D(u)
    ensures e.destination !in settled && e.destination != q.start
    ensures u in l.rtt && u in tree
    ensures Branch(q, Relaxed(q, l, u, e), settled, tree[e.destination := tree[u] + [e.destination]], e.destination)
  {
    ImprovableIsFresh(q, l, settled, tree, u, e);
    GrowWalk(q, tree[u], u, e);
  }

  lemma RelaxKeeps(q: Query, l: Labels, settled: set<Node>, tree: map<Node, seq<Node>>, u: Node, e: Edge)
    requires q.Valid() && Core(q, l, settled, tree) && Frontier(l, settled)
    requires u in settled && u in q.graph && e in q.graph[u] && Improves(q, l, u, e)
    requires forall x :: x in settled ==> l.D(x) <= l.D(u)
    ensures u in l.rtt && u in tree && e.destination !in settled
    ensures var l' := Relaxed(q, l, u, e);
            var tree' := tree[e.destination := tree[u] + [e.destination]];
            Core(q, l', settled, tree') && Frontier(l', settled)
  {
    NewBranch(q, l, settled, tree, u, e);
    var v := e.destination;
    var l' := Relaxed(q, l, u, e);
    var tree' := tree[v := tree[u] + [v]];
    assert Branches(q, l', settled, tree') by {
      forall x | l'.Labelled(x)
        ensures Branch(q, l', settled, tree', x)
      {
        if x != v {
          assert Branch(q, l, settled, tree, x);
        }
      }
    }
    forall x | x in l'.queue
      ensures Entry(l', settled, x)
    {
      if x in l.queue {
        assert Entry(l, settled, x);
      }
    }
    forall x | x in l.queue
      ensures x != PQNode(v, l'.D(v), 0.0)
    {
      assert Entry(l, settled, x);
    }
    forall i, j | 0 <= i < j < |l'.queue|
      ensures l'.queue[i] != l'.queue[j]
    {
      assert l'.queue[i] == l.queue[i] && l.queue[i] in l.queue;
    }
    assert Ordered(l', settled) by {
      assert Price(e, q.metric) >= 0.0;
    }
  }

  // ---------- The search ----------

  /** heap.Pop: some entry of least cost leaves the queue. */
  method PopMin(queue: seq<PQNode>) returns (x: PQNode, rest: seq<PQNode>, ghost i: nat)
    requires |queue| > 0
    ensures i < |queue| && x == queue[i] && rest == WithoutAt(queue, i)
    ensures forall y :: y in queue ==> x.cost <= y.cost
  {
    var best := 0;
    for j := 1 to |queue|
      invariant 0 <= best < |queue|
      invariant forall y :: 0 <= y < j ==> queue[best].cost <= queue[y].cost
    {
      if queue[j].cost < queue[best].cost {
        best := j;
      }
    }
    x, rest, i := queue[best], WithoutAt(queue, best), best;
  }

  /** The state in which the first i edges out of u have been relaxed. */
  ghost predicate Expanding(q: Query, l: Labels, settled: set<Node>, tree: map<Node, seq<Node>>, u: Node,
                            edges: seq<Edge>, i: nat)
  {
    && Core(q, l, settled, tree) && Frontier(l, settled) && Closed(q, l, settled - {u})
    && u in settled && (forall x :: x in settled ==> l.D(x) <= l.D(u))
    && edges == (if u in q.graph then q.graph[u] else []) && i <= |edges|
    && (forall j :: 0 <= j < i ==> ClosedAt(q, l, u, edges[j]))
    && q.end in l.dist && q.end != q.start
    && (l.Labelled(q.end) ==> q.end in l.prev && l.prev[q.end] == u && HasEdge(q.graph, u, q.end))
    && (q.end !in q.forbidden ==> forall x :: x in settled && x != u ==> !HasEdge(q.graph, x, q.end))
  }

  /** Closedness survives a label that only gets smaller. */
  lemma LabelsOnlyDrop(q: Query, l: Labels, settled: set<Node>, u: Node, e: Edge, x: Node, f: Edge)
    requires u in l.rtt && l.Labelled(u) && l.Labelled(x) && Improves(q, l, u, e) && e.destination in l.dist
    requires e.destination != x && ClosedAt(q, l, x, f)
    ensures Relaxed(q, l, u, e).Labelled(x) && ClosedAt(q, Relaxed(q, l, u, e), x, f)
  {
  }

  lemma ExpandStep(q: Query, l: Labels, settled: set<Node>, tree: map<Node, seq<Node>>, u: Node, edges: seq<Edge>,
                   i: nat)
    requires q.Valid() && Expanding(q, l, settled, tree, u, edges, i) && i < |edges|
    ensures !Improves(q, l, u, edges[i]) ==> Expanding(q, l, settled, tree, u, edges, i + 1)
    ensures Improves(q, l, u, edges[i]) ==>
              && u in l.rtt && u in tree && edges[i].destination in l.dist
              && Expanding(q, Relaxed(q, l, u, edges[i]), settled,
                           tree[edges[i].destination := tree[u] + [edges[i].destination]], u, edges, i + 1)
  {
    var e := edges[i];
    assert e.destination in l.dist;
    if Improves(q, l, u, e) {
      RelaxKeeps(q, l, settled, tree, u, e);
      WeightOfEdge(q.graph, u, e, q.metric);
      var l' := Relaxed(q, l, u, e);
      forall x, f | x in settled - {u} && x in q.graph && f in q.graph[x]
        ensures ClosedAt(q, l', x, f)
      {
        LabelsOnlyDrop(q, l, settled, u, e, x, f);
      }
      forall j | 0 <= j < i
        ensures ClosedAt(q, l', u, edges[j])
      {
        LabelsOnlyDrop(q, l, settled, u, e, u, edges[j]);
      }
      assert ClosedAt(q, l', u, e);
    } else {
      assert ClosedAt(q, l, u, e);
    }
  }

  /** Once every edge out of u is relaxed, the destination is either still unlabelled or labelled for good. */
  lemma ExpandDone(q: Query, l: Labels, settled: set<Node>, tree: map<Node, seq<Node>>, u: Node, edges: seq<Edge>)
    requires q.Valid() && Expanding(q, l, settled, tree, u, edges, |edges|)
    requires HasEdge(q.graph, u, q.end) && q.end !in q.forbidden ==> NearestPredecessor(q, l.D(u))
    requires q.end !in settled
    ensures Searching(q, l, settled, tree) || Found(q, l, settled, tree)
  {
    ExpandedIsClosed(q, l, settled, tree, u, edges);
    if l.Labelled(q.end) {
      ExpandedIsFound(q, l, settled, tree, u, edges);
    }
  }

  lemma ExpandedIsClosed(q: Query, l: Labels, settled: set<Node>, tree: map<Node, seq<Node>>, u: Node, edges: seq<Edge>)
    requires q.Valid() && Expanding(q, l, settled, tree, u, edges, |edges|)
    ensures Closed(q, l, settled)
  {
    forall x, f | x in settled && x in q.graph && f in q.graph[x]
      ensures ClosedAt(q, l, x, f)
    {
    }
  }

  lemma ExpandedIsFound(q: Query, l: Labels, settled: set<Node>, tree: map<Node, seq<Node>>, u: Node, edges: seq<Edge>)
    requires q.Valid() && Expanding(q, l, settled, tree, u, edges, |edges|) && Closed(q, l, settled)
    requires HasEdge(q.graph, u, q.end) && q.end !in q.forbidden ==> NearestPredecessor(q, l.D(u))
    requires q.end !in settled && l.Labelled(q.end)
    ensures Found(q, l, settled, tree)
  {
    assert Branch(q, l, settled, tree, q.end);
    assert Branch(q, l, settled, tree, u);
    assert tree[q.end][..|tree[q.end]| - 1] == tree[u];
    assert tree[q.end][|tree[q.end]| - 1] == q.end;
    assert NoEarlierEntry(q, tree[q.end]);
  }

  /** What an edge out of u, popped at cost c, does to the labels. */
  function RelaxEdge(q: Query, l: Labels, u: Node, c: real, e: Edge): Labels {
    var v, n := e.destination, c + Price(e, q.metric);
    var d := l.DistOf(v);
    if v in q.forbidden || (d.Finite? && d.value <= n) then l else
    Labels(l.dist[v := Finite(n)], l.prev[v := u], l.rtt[v := (if u in l.rtt then l.rtt[u] else 0.0) + e.latency],
           l.queue + [PQNode(v, n, 0.0)])
  }

  /** The labels after the first n edges. */
  ghost function RelaxFirst(q: Query, l: Labels, u: Node, c: real, edges: seq<Edge>, n: nat): Labels
    requires n <= |edges|
  {
    if n == 0 then l else RelaxEdge(q, RelaxFirst(q, l, u, c, edges, n - 1), u, c, edges[n - 1])
  }

  function OutEdges(q: Query, u: Node): seq<Edge> {
    if u in q.graph then q.graph[u] else []
  }

  /** Relaxing one more edge keeps the state in order. */
  lemma ExpandOnce(q: Query, l: Labels, settled: set<Node>, tree: map<Node, seq<Node>>, u: Node, edges: seq<Edge>,
                   i: nat)
    returns (tree': map<Node, seq<Node>>)
    requires q.Valid() && Expanding(q, l, settled, tree, u, edges, i) && i < |edges|
    ensures var l' := RelaxEdge(q, l, u, l.D(u), edges[i]);
            Expanding(q, l', settled, tree', u, edges, i + 1) && l'.dist.Keys == l.dist.Keys && l'.D(u) == l.D(u)
  {
    var e := edges[i];
    ExpandStep(q, l, settled, tree, u, edges, i);
    tree' := tree;
    if Improves(q, l, u, e) {
      RelaxKeeps(q, l, settled, tree, u, e);
      tree' := tree[e.destination := tree[u] + [e.destination]];
      assert RelaxEdge(q, l, u, l.D(u), e) == Relaxed(q, l, u, e);
    } else {
      assert RelaxEdge(q, l, u, l.D(u), e) == l;
    }
  }

  /** Relaxing all edges out of the settled node u keeps the state in order. */
  lemma ExpandKeeps(q: Query, u: Node, l0: Labels, settled: set<Node>, tree0: map<Node, seq<Node>>)
    returns (tree: map<Node, seq<Node>>)
    requires q.Valid()
    requires Expanding(q, l0, settled, tree0, u, OutEdges(q, u), 0)
    requires HasEdge(q.graph, u, q.end) && q.end !in q.forbidden ==> NearestPredecessor(q, l0.D(u))
    requires q.end !in settled
    ensures var l := RelaxFirst(q, l0, u, l0.D(u), OutEdges(q, u), |OutEdges(q, u)|);
            l.dist.Keys == l0.dist.Keys && (Searching(q, l, settled, tree) || Found(q, l, settled, tree))
  {
    tree := tree0;
    var l, edges := l0, OutEdges(q, u);
    for i := 0 to |edges|
      invariant Expanding(q, l, settled, tree, u, edges, i)
      invariant l.dist.Keys == l0.dist.Keys && l.D(u) == l0.D(u)
      invariant l == RelaxFirst(q, l0, u, l0.D(u), edges, i)
    {
      tree := ExpandOnce(q, l, settled, tree, u, edges, i);
      l := RelaxEdge(q, l, u, l0.D(u), edges[i]);
    }
    ExpandDone(q, l, settled, tree, u, edges);
  }

  method Expand(q: Query, u: Node, c: real, l0: Labels) returns (l: Labels)
    ensures l == RelaxFirst(q, l0, u, c, OutEdges(q, u), |OutEdges(q, u)|)
  {
    l := l0;
    var edges := OutEdges(q, u);
    for i := 0 to |edges|
      invariant l == RelaxFirst(q, l0, u, c, edges, i)
    {
      l := RelaxEdge(q, l, u, c, edges[i]);
    }
  }

  /** Reading back to node has spelt out the end of the destination's branch; "" stands before the start. */
  ghost predicate ReadBack(q: Query, l: Labels, tree: map<Node, seq<Node>>, node: Node, path: seq<Node>) {
    && q.end in tree
    && if node == "" then path == tree[q.end] else l.Labelled(node) && node in tree && tree[node] + path == tree[q.end]
  }

  lemma ReadOne(q: Query, l: Labels, settled: set<Node>, tree: map<Node, seq<Node>>, node: Node, path: seq<Node>)
    requires node != "" && ReadBack(q, l, tree, node, path) && Branch(q, l, settled, tree, node)
    requires forall u :: u in settled ==> l.Labelled(u) && u != ""
    ensures var before := if node in l.prev then l.prev[node] else "";
            && ReadBack(q, l, tree, before, [node] + path)
            && (before != "" ==> |tree[before]| < |tree[node]|)
  {
    if node in l.prev {
      assert tree[node] + path == tree[l.prev[node]] + ([node] + path);
    }
  }

  /** Reading the predecessors backwards from the destination spells out a route of its label's price and latency. */
  method BuildPath(q: Query, l: Labels, ghost settled: set<Node>, ghost tree: map<Node, seq<Node>>)
    returns (path: seq<Node>)
    requires Branches(q, l, settled, tree) && l.Labelled(q.end)
    requires forall u :: u in settled ==> l.Labelled(u)
    ensures q.end in tree && path == tree[q.end] && q.end in l.rtt
    ensures q.Reaches(q.end, path) && Simple(path)
    ensures Length(q.graph, path, q.metric) == l.D(q.end) && Length(q.graph, path, ByLatency) == l.rtt[q.end]
  {
    path := [];
    var node := q.end;
    assert Branch(q, l, settled, tree, q.end);
    forall u | u in settled
      ensures u != ""
    {
      assert Branch(q, l, settled, tree, u);
    }
    while node != ""
      invariant ReadBack(q, l, tree, node, path)
      decreases if node == "" then 0 else |tree[node]| + 1
    {
      assert Branch(q, l, settled, tree, node);
      ReadOne(q, l, settled, tree, node, path);
      path := [node] + path;
      node := if node in l.prev then l.prev[node] else "";
    }
  }

  /** A freshly popped node is at least as close as any predecessor of the unlabelled destination. */
  lemma PopIsNearest(q: Query, l: Labels, settled: set<Node>, tree: map<Node, seq<Node>>, c: real)
    requires q.Valid() && Searching(q, l, settled, tree) && q.end !in q.forbidden
    requires forall x :: x in l.queue ==> c <= x.cost
    ensures NearestPredecessor(q, c)
  {
    forall v, w | q.Reaches(v, w) && HasEdge(q.graph, v, q.end)
      ensures c <= Length(q.graph, w, q.metric)
    {
      if v !in settled {
        MinimalPop(q, l, settled, tree, c, w, v);
      }
    }
  }

  /** While the destination is unlabelled no settled node has an edge to it. */
  lemma SettledIsNoPredecessor(q: Query, l: Labels, settled: set<Node>, tree: map<Node, seq<Node>>, x: Node)
    requires Searching(q, l, settled, tree) && q.end !in q.forbidden && x in settled
    ensures !HasEdge(q.graph, x, q.end)
  {
    forall e | x in q.graph && e in q.graph[x]
      ensures e.destination != q.end
    {
      assert ClosedAt(q, l, x, e);
    }
  }

  /** The state after settling u is ready for its expansion. */
  lemma StartExpanding(q: Query, l: Labels, settled: set<Node>, tree: map<Node, seq<Node>>, i: nat)
    requires q.Valid() && Searching(q, l, settled, tree)
    requires i < |l.queue| && (forall x :: x in l.queue ==> l.queue[i].cost <= x.cost)
    requires Entry(l, settled, l.queue[i]) && l.D(l.queue[i].node) == l.queue[i].cost
    ensures l.queue[i].node !in settled
    ensures var u := l.queue[i].node;
            && Expanding(q, l.(queue := WithoutAt(l.queue, i)), settled + {u}, tree, u, OutEdges(q, u), 0)
            && (HasEdge(q.graph, u, q.end) && q.end !in q.forbidden ==> NearestPredecessor(q, l.D(u)))
  {
    Settle(q, l, settled, tree, i);
    assert settled + {l.queue[i].node} - {l.queue[i].node} == settled;
    var l' := l.(queue := WithoutAt(l.queue, i));
    assert Closed(q, l', settled) by {
      forall x, f | x in settled && x in q.graph && f in q.graph[x]
        ensures ClosedAt(q, l', x, f)
      {
        assert ClosedAt(q, l, x, f);
      }
    }
    if q.end !in q.forbidden {
      PopIsNearest(q, l, settled, tree, l.queue[i].cost);
      forall x | x in settled
        ensures !HasEdge(q.graph, x, q.end)
      {
        SettledIsNoPredecessor(q, l, settled, tree, x);
      }
    }
  }

  /** The branches do not depend on the queue. */
  lemma BranchesIgnoreQueue(q: Query, l: Labels, settled: set<Node>, tree: map<Node, seq<Node>>, queue: seq<PQNode>)
    requires Branches(q, l, settled, tree)
    ensures Branches(q, l.(queue := queue), settled, tree)
  {
    forall v | l.Labelled(v)
      ensures Branch(q, l.(queue := queue), settled, tree, v)
    {
      assert Branch(q, l, settled, tree, v);
    }
  }

  /** A stale entry may be dropped while searching. */
  lemma SkipStale(q: Query, l: Labels, settled: set<Node>, tree: map<Node, seq<Node>>, i: nat)
    requires Searching(q, l, settled, tree) && i < |l.queue|
    requires Entry(l, settled, l.queue[i]) && l.D(l.queue[i].node) < l.queue[i].cost
    ensures Searching(q, l.(queue := WithoutAt(l.queue, i)), settled, tree)
  {
    var l' := l.(queue := WithoutAt(l.queue, i));
    WithoutAtKeeps(l.queue, i);
    BranchesIgnoreQueue(q, l, settled, tree, l'.queue);
    forall x | x in l'.queue
      ensures Entry(l', settled, x)
    {
      assert Entry(l, settled, x);
    }
    forall x, f | x in settled && x in q.graph && f in q.graph[x]
      ensures ClosedAt(q, l', x, f)
    {
      assert ClosedAt(q, l, x, f);
    }
  }

  /** Once the destination is labelled, any entry but its own may be dropped. */
  lemma SkipFound(q: Query, l: Labels, settled: set<Node>, tree: map<Node, seq<Node>>, i: nat)
    requires Found(q, l, settled, tree) && i < |l.queue|
    requires l.queue[i] != PQNode(q.end, l.D(q.end), 0.0)
    ensures Found(q, l.(queue := WithoutAt(l.queue, i)), settled, tree)
  {
    var l' := l.(queue := WithoutAt(l.queue, i));
    BranchesIgnoreQueue(q, l, settled, tree, l'.queue);
    forall x | x in l'.queue
      ensures Entry(l', settled, x)
    {
      assert Entry(l, settled, x);
    }
    var goal := PQNode(q.end, l.D(q.end), 0.0);
    var j :| 0 <= j < |l.queue| && l.queue[j] == goal;
    assert goal == l'.queue[if j < i then j else j - 1];
  }

  // ---------- Rounds ----------

  /** An entry that may be popped next. */
  ghost predicate Least(l: Labels, i: nat) {
    i < |l.queue| && forall x :: x in l.queue ==> l.queue[i].cost <= x.cost
  }

  predicate Stale(l: Labels, x: PQNode) {
    l.DistOf(x.node).Finite? && x.cost > l.DistOf(x.node).value
  }

  /** Popping this entry ends the search. */
  predicate Finishes(q: Query, l: Labels, x: PQNode) {
    !Stale(l, x) && x.node == q.end
  }

  /** The labels after the round that pops entry i without ending the search. */
  ghost function After(q: Query, l: Labels, i: nat): Labels
    requires i < |l.queue|
  {
    var x, l' := l.queue[i], l.(queue := WithoutAt(l.queue, i));
    if Stale(l, x) || l.DistOf(q.end) != Infinite then l'
    else RelaxFirst(q, l', x.node, x.cost, OutEdges(q, x.node), |OutEdges(q, x.node)|)
  }

  function Start(q: Query): Labels {
    Labels((map v | v in Nodes(q.graph) :: Infinite)[q.start := Finite(0.0)], map[], map[q.start := 0.0],
           [PQNode(q.start, 0.0, 0.0)])
  }

  /** Some order of popping equally cheap entries makes the search return cost c within n rounds. */
  ghost predicate Returns(q: Query, l: Labels, c: real, n: nat)
    decreases n, 1
  {
    n > 0 && (exists i: nat :: Least(l, i) && ReturnsVia(q, l, c, n, i))
  }

  ghost predicate ReturnsVia(q: Query, l: Labels, c: real, n: nat, i: nat)
    requires n > 0 && Least(l, i)
    decreases n, 0
  {
    if Finishes(q, l, l.queue[i]) then l.queue[i].cost == c else Returns(q, After(q, l, i), c, n - 1)
  }

  /** The search may return a path of cost c. */
  ghost predicate Returnable(q: Query, c: real) {
    exists n: nat :: Returns(q, Start(q), c, n)
  }

  lemma RoundKeeps(q: Query, l: Labels, settled0: set<Node>, tree0: map<Node, seq<Node>>, i: nat)
    returns (settled: set<Node>, tree: map<Node, seq<Node>>)
    requires q.Valid() && Phase(q, l, settled0, tree0) && Least(l, i) && !Finishes(q, l, l.queue[i])
    ensures Phase(q, After(q, l, i), settled, tree) && After(q, l, i).dist.Keys == l.dist.Keys
    ensures || (settled == settled0 && |After(q, l, i).queue| < |l.queue|)
            || (l.queue[i].node in l.dist && l.queue[i].node !in settled0 && settled == settled0 + {l.queue[i].node})
    ensures Searching(q, l, settled0, tree0) && Stale(l, l.queue[i]) ==>
              settled == settled0 && tree == tree0 && Searching(q, After(q, l, i), settled, tree)
    ensures Searching(q, l, settled0, tree0) && !Stale(l, l.queue[i]) ==>
              && settled == settled0 + {l.queue[i].node}
              && (Searching(q, After(q, l, i), settled, tree) || Found(q, After(q, l, i), settled, tree))
  {
    var x := l.queue[i];
    settled, tree := settled0, tree0;
    assert x in l.queue;
    if Searching(q, l, settled0, tree0) {
      assert Entry(l, settled0, x);
      if Stale(l, x) {
        SkipStale(q, l, settled0, tree0, i);
      } else {
        StartExpanding(q, l, settled0, tree0, i);
        settled := settled0 + {x.node};
        tree := ExpandKeeps(q, x.node, l.(queue := WithoutAt(l.queue, i)), settled, tree0);
      }
    } else if Found(q, l, settled0, tree0) {
      assert Entry(l, settled0, x);
      SkipFound(q, l, settled0, tree0, i);
    }
  }

  /** Popping the destination gives its branch and label. */
  lemma FinishAnswers(q: Query, l: Labels, settled: set<Node>, tree: map<Node, seq<Node>>, x: PQNode)
    requires q.Valid() && Phase(q, l, settled, tree) && x in l.queue && Finishes(q, l, x)
    ensures Branches(q, l, settled, tree) && l.Labelled(q.end) && (forall u :: u in settled ==> l.Labelled(u))
    ensures q.end in l.rtt && q.end in tree && Answers(q, Path(tree[q.end], x.cost, l.rtt[q.end]))
  {
    assert !Absent(q, l);
    assert Entry(l, settled, x);
    assert Branch(q, l, settled, tree, q.end);
  }

  /** One round of the main loop: pop, then skip, finish or expand. */
  method Round(q: Query, l0: Labels, ghost settled0: set<Node>, ghost tree0: map<Node, seq<Node>>)
    returns (r: Option<Path>, l: Labels, ghost i: nat)
    requires q.Valid() && Phase(q, l0, settled0, tree0) && |l0.queue| > 0
    ensures Least(l0, i) && (r.Some? <==> Finishes(q, l0, l0.queue[i]))
    ensures r.Some? ==> Answers(q, r.value) && r.value.cost == l0.queue[i].cost
    ensures r.None? ==> l == After(q, l0, i)
  {
    var x, rest;
    x, rest, i := PopMin(l0.queue);
    l := l0.(queue := rest);
    if Stale(l0, x) {
      return None, l, i;
    }
    if x.node == q.end {
      FinishAnswers(q, l0, settled0, tree0, x);
      var hops := BuildPath(q, l0, settled0, tree0);
      return Some(Path(hops, x.cost, l0.rtt[q.end])), l, i;
    }
    if l0.DistOf(q.end) != Infinite {
      return None, l, i;
    }
    l := Expand(q, x.node, x.cost, l);
    r := None;
  }

  lemma StartPhase(q: Query)
    requires q.Valid()
    ensures Phase(q, Start(q), {}, map[q.start := [q.start]])
  {
    var l, tree := Start(q), map[q.start := [q.start]];
    assert Branch(q, l, {}, tree, q.start);
    assert Branches(q, l, {}, tree);
  }

  /** The answer is a cut-off path with its exact price and latency. */
  ghost predicate Answers(q: Query, r: Path) {
    && CutOffPath(q, r.hops)
    && r.cost == Length(q.graph, r.hops, q.metric)
    && r.rawRTT == Length(q.graph, r.hops, ByLatency)
  }

  /**
   A path is returned exactly when the destination can be reached without forbidden nodes;
   it is priced exactly, and it is a cut-off path.
   */
  method FindShortestPath(q: Query) returns (r: Option<Path>)
    requires q.Valid()
    ensures r.None? ==> forall p :: !q.Reaches(q.end, p)
    ensures r.Some? ==> Answers(q, r.value) && Returnable(q, r.value.cost)
  {
    var l := Start(q);
    ghost var settled: set<Node> := {};
    ghost var tree := map[q.start := [q.start]];
    ghost var universe := l.dist.Keys;
    StartPhase(q);
    while |l.queue| > 0
      invariant Phase(q, l, settled, tree)
      invariant l.dist.Keys == universe
      invariant forall c, n: nat :: Returns(q, l, c, n) ==> Returnable(q, c)
      decreases universe - settled, |l.queue|
    {
      ghost var before, i := l, 0;
      r, l, i := Round(q, l, settled, tree);
      if r.Some? {
        assert ReturnsVia(q, before, r.value.cost, 1, i);
        assert Returns(q, before, r.value.cost, 1);
        return;
      }
      forall c, n: nat | Returns(q, l, c, n)
        ensures Returnable(q, c)
      {
        assert ReturnsVia(q, before, c, n + 1, i);
        assert Returns(q, before, c, n + 1);
      }
      settled, tree := RoundKeeps(q, before, settled, tree, i);
    }
    forall p
      ensures !q.Reaches(q.end, p)
    {
      if Searching(q, l, settled, tree) {
        ExhaustedSearch(q, l, settled, tree, p);
      } else {
        AbsentUnreachable(q, l, p);
      }
    }
    return None;
  }

  // ---------- What the guarantee is worth ----------

  lemma PrefixReaches(q: Query, w: seq<Node>)
    requires q.start != q.end && q.Reaches(q.end, w)
    ensures |w| >= 2 && q.Reaches(w[|w| - 2], w[..|w| - 1]) && HasEdge(q.graph, w[|w| - 2], q.end)
  {
  }

  /** A cut-off path exceeds any other walk by at most the difference of their last edges. */
  lemma ExcessBound(q: Query, p: seq<Node>, w: seq<Node>)
    requires q.start != q.end && CutOffPath(q, p) && q.Reaches(q.end, w)
    ensures |w| >= 2
    ensures Length(q.graph, p, q.metric) - Length(q.graph, w, q.metric)
         <= Weight(q.graph, p[|p| - 2], q.end, q.metric) - Weight(q.graph, w[|w| - 2], q.end, q.metric)
  {
    PrefixReaches(q, w);
    var v := w[..|w| - 1];
    assert Length(q.graph, p[..|p| - 1], q.metric) <= Length(q.graph, v, q.metric);
    LastEdge(q.graph, p, q.metric);
    LastEdge(q.graph, w, q.metric);
  }

  lemma LastEdge(g: Graph, p: seq<Node>, m: Metric)
    requires |p| >= 2
    ensures Length(g, p, m) == Length(g, p[..|p| - 1], m) + Weight(g, p[|p| - 2], p[|p| - 1], m)
  {
  }

  /** All edges into the destination have the same price. */
  ghost predicate UniformEntry(g: Graph, end: Node, m: Metric) {
    forall u, v :: HasEdge(g, u, end) && HasEdge(g, v, end) ==> Weight(g, u, end, m) == Weight(g, v, end, m)
  }

  /** With equal prices on all edges into the destination the answer is a shortest walk. */
  lemma UniformEntryIsShortest(q: Query, p: seq<Node>, w: seq<Node>)
    requires q.Valid() && CutOffPath(q, p) && q.Reaches(q.end, w)
    requires UniformEntry(q.graph, q.end, q.metric)
    ensures Length(q.graph, p, q.metric) <= Length(q.graph, w, q.metric)
  {
    if q.start == q.end {
      LengthNonNegative(q.graph, w, q.metric);
    } else {
      ExcessBound(q, p, w);
    }
  }

  function Detour(): Query {
    Query(map["A" := [Edge("A", "B", 1.0, 0.0, 1.0), Edge("A", "C", 5.0, 0.0, 5.0)],
              "B" := [Edge("B", "C", 1.0, 0.0, 1.0)]], {}, "A", "C", ByWeight)
  }

  lemma DetourMembers()
    ensures var g := Detour().graph;
            forall u, e :: u in g && e in g[u] ==>
                || (u == "A" && e == Edge("A", "B", 1.0, 0.0, 1.0))
                || (u == "A" && e == Edge("A", "C", 5.0, 0.0, 5.0))
                || (u == "B" && e == Edge("B", "C", 1.0, 0.0, 1.0))
  {
  }

  lemma DetourValid()
    ensures Detour().Valid()
  {
    DetourMembers();
  }

  lemma DetourEdges()
    ensures var g := Detour().graph;
            && HasEdge(g, "A", "B") && Weight(g, "A", "B", ByWeight) == 1.0
            && HasEdge(g, "B", "C") && Weight(g, "B", "C", ByWeight) == 1.0
            && HasEdge(g, "A", "C") && Weight(g, "A", "C", ByWeight) == 5.0
    ensures forall u, v :: HasEdge(Detour().graph, u, v) ==>
              (u == "A" && (v == "B" || v == "C")) || (u == "B" && v == "C")
  {
    DetourMembers();
    DetourWeights();
  }

  lemma DetourWeights()
    ensures var g := Detour().graph;
            && HasEdge(g, "A", "B") && Weight(g, "A", "B", ByWeight) == 1.0
            && HasEdge(g, "B", "C") && Weight(g, "B", "C", ByWeight) == 1.0
            && HasEdge(g, "A", "C") && Weight(g, "A", "C", ByWeight) == 5.0
  {
    var g := Detour().graph;
    DetourValid();
    var ab, ac, bc := g["A"][0], g["A"][1], g["B"][0];
    assert ab in g["A"] && ac in g["A"] && bc in g["B"];
    WeightOfEdge(g, "A", ab, ByWeight);
    WeightOfEdge(g, "A", ac, ByWeight);
    WeightOfEdge(g, "B", bc, ByWeight);
  }

  /** A start that is itself a predecessor is entered from directly, however dear its edge. */
  lemma DirectEntry(q: Query, p: seq<Node>)
    requires q.start != q.end && CutOffPath(q, p) && HasEdge(q.graph, q.start, q.end)
    ensures p == [q.start, q.end]
  {
  }

  lemma TwoSteps(g: Graph, a: Node, b: Node, c: Node, m: Metric)
    requires HasEdge(g, a, b) && HasEdge(g, b, c)
    ensures Connects(g, {}, a, c, [a, b, c])
    ensures Length(g, [a, b, c], m) == Weight(g, a, b, m) + Weight(g, b, c, m)
  {
    ExtendWalk(g, [a], b, m);
    ExtendWalk(g, [a] + [b], c, m);
    assert [a] + [b] + [c] == [a, b, c];
  }

  /** Without that, the early cut-off can miss the shortest walk: 5 is returned where 2 is possible. */
  lemma CutOffMissesShortest(p: seq<Node>)
    requires CutOffPath(Detour(), p)
    ensures Length(Detour().graph, p, ByWeight) == 5.0
    ensures Detour().Reaches("C", ["A", "B", "C"]) && Length(Detour().graph, ["A", "B", "C"], ByWeight) == 2.0
  {
    var q := Detour();
    DetourValid();
    DetourEdges();
    DirectEntry(q, p);
    LastEdge(q.graph, p, ByWeight);
    TwoSteps(q.graph, "A", "B", "C", ByWeight);
  }
}
