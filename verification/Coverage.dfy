/**
 From the latency bound of a destination to a residual walk within it: the reasons why an
 uncongested network serves every reachable destination.
 */
module Coverage {
  import opened NetworkGraph
  import opened ShortestPath
  import opened Yen
  import opened KShortest
  import opened FlowSearch
  import opened FlowAccounting
  import opened Carousel
  import PathKey
  import Routes
  import Sorting

  // ---------- Latencies by key ----------

  lemma EdgeKeyInjective(u: Node, v: Node, x: Node, y: Node)
    requires ProperName(u) && ProperName(v) && ProperName(x) && ProperName(y)
    ensures EdgeKey(u, v) == EdgeKey(x, y) <==> u == x && v == y
  {
    assert PathKey.Join([u, v]) == EdgeKey(u, v) by {
      assert [u, v][1..] == [v];
    }
    assert PathKey.Join([x, y]) == EdgeKey(x, y) by {
      assert [x, y][1..] == [y];
    }
    PathKey.KeysInjective([u, v], [x, y]);
  }

  /** The latency table holds exactly the reported latencies. */
  ghost predicate Latencies(edges: seq<Edge>, lat: map<string, real>) {
    && (forall e :: e in edges ==>
          EdgeKey(e.source, e.destination) in lat && lat[EdgeKey(e.source, e.destination)] == e.latency)
    && (forall k :: k in lat ==> exists e :: e in edges && k == EdgeKey(e.source, e.destination))
  }

  lemma LatenciesOneMore(edges: seq<Edge>, e: Edge, lat: map<string, real>)
    requires GoodEdges(edges + [e]) && Latencies(edges, lat)
    ensures Latencies(edges + [e], lat[EdgeKey(e.source, e.destination) := e.latency])
  {
    Sorting.SnocMembers(edges, e);
    forall f | f in edges
      ensures EdgeKey(f.source, f.destination) == EdgeKey(e.source, e.destination) ==> f == e
    {
      assert f in edges + [e] && e in edges + [e];
      EdgeKeyInjective(f.source, f.destination, e.source, e.destination);
    }
  }

  method BuildLatencies(edges: seq<Edge>) returns (lat: map<string, real>)
    requires GoodEdges(edges)
    ensures Latencies(edges, lat)
  {
    lat := map[];
    for i := 0 to |edges|
      invariant Latencies(edges[..i], lat)
    {
      var e := edges[i];
      assert edges[..i + 1] == edges[..i] + [e];
      GoodPrefix(edges, i + 1);
      LatenciesOneMore(edges[..i], e, lat);
      lat := lat[EdgeKey(e.source, e.destination) := e.latency];
    }
    assert edges[..|edges|] == edges;
  }

  // ---------- The latency bound ----------

  ghost function TotalCost(rs: seq<Path>): real {
    if rs == [] then 0.0 else TotalCost(rs[..|rs| - 1]) + rs[|rs| - 1].cost
  }

  ghost function LatencySolver(edges: seq<Edge>): Solver {
    NewSolver(edges, KSP_K, true)
  }

  /** 1.5 times the average over the routes the k-route query returns, or the default. */
  ghost predicate ThetaRule(edges: seq<Edge>, start: Node, end: Node, theta: real) {
    if Solvable(LatencySolver(edges), start, end)
    then exists rs :: KRoutes(ProblemOf(LatencySolver(edges), start, end), KSP_K, rs)
                      && theta == TotalCost(rs) / |rs| as real * 1.5
    else theta == DEFAULT_THETA_L
  }

  method ThetaFor(edges: seq<Edge>, start: Node, end: Node) returns (theta: real)
    requires GoodEdges(edges) && NonNegativeEdges(edges, ByLatency)
    ensures ThetaRule(edges, start, end, theta)
  {
    var r, rs := Computing(NewSolver(edges, KSP_K, true), start, end);
    if r.Err? || |r.value| == 0 {
      return DEFAULT_THETA_L;
    }
    var total := 0.0;
    for i := 0 to |r.value|
      invariant total == TotalCost(rs[..i])
    {
      assert rs[..i + 1][..i] == rs[..i];
      total := total + r.value[i].rtt;
    }
    assert rs[..|rs|] == rs;
    theta := total / |r.value| as real * 1.5;
  }

  /** n times c. */
  ghost function Repeated(c: real, n: nat): real {
    if n == 0 then 0.0 else Repeated(c, n - 1) + c
  }

  lemma {:induction false} TotalAtLeast(rs: seq<Path>, c: real)
    requires forall i :: 0 <= i < |rs| ==> rs[i].cost >= c
    ensures TotalCost(rs) >= Repeated(c, |rs|)
  {
    if rs != [] {
      TotalAtLeast(rs[..|rs| - 1], c);
    }
  }

  lemma {:induction false} RepeatedIsProduct(c: real, n: nat)
    ensures Repeated(c, n) == c * n as real
  {
    if n > 0 {
      RepeatedIsProduct(c, n - 1);
      assert c * n as real == c * (n - 1) as real + c;
    }
  }

  lemma AverageAtLeast(total: real, n: nat, c: real)
    requires n >= 1 && c >= 0.0 && total >= Repeated(c, n)
    ensures total / n as real * 1.5 >= c
  {
    RepeatedIsProduct(c, n);
    assert total / n as real >= c;
  }

  lemma FirstIsLeast(rs: seq<Path>)
    requires |rs| >= 1 && Sorting.SortedBy(rs, CostOf)
    ensures forall i :: 0 <= i < |rs| ==> rs[i].cost >= rs[0].cost
  {
    forall i | 0 <= i < |rs|
      ensures rs[i].cost >= rs[0].cost
    {
      assert i > 0 ==> CostOf(rs[0]) <= CostOf(rs[i]);
    }
  }

  lemma FirstWithinAverage(rs: seq<Path>)
    requires |rs| >= 1 && Sorting.SortedBy(rs, CostOf) && rs[0].cost >= 0.0
    ensures rs[0].cost <= TotalCost(rs) / |rs| as real * 1.5
  {
    FirstIsLeast(rs);
    TotalAtLeast(rs, rs[0].cost);
    AverageAtLeast(TotalCost(rs), |rs|, rs[0].cost);
  }

  /** The cheapest route of a destination is within its bound. */
  lemma CheapestWithinBound(edges: seq<Edge>, start: Node, end: Node, theta: real) returns (r: Path)
    requires GoodEdges(edges) && NonNegativeEdges(edges, ByLatency)
    requires Solvable(LatencySolver(edges), start, end) && ThetaRule(edges, start, end, theta)
    ensures ProblemOf(LatencySolver(edges), start, end).Priced(r) && r.cost <= theta
  {
    var b := ProblemOf(LatencySolver(edges), start, end);
    var rs: seq<Path> :| KRoutes(b, KSP_K, rs) && theta == TotalCost(rs) / |rs| as real * 1.5;
    AdjacencyWellFormed(edges, ByLatency);
    r := rs[0];
    assert b.Priced(r);
    LengthNonNegative(b.graph, r.hops, b.metric);
    FirstWithinAverage(rs);
  }

  // ---------- From a route to a residual walk ----------

  ghost function Forward(n: Net, p: seq<Node>): (w: seq<Step>)
    requires |p| >= 1
    ensures |w| == |p| - 1
  {
    seq(|p| - 1, i requires 0 <= i < |p| - 1 => Step(p[i + 1], n.Latency(p[i], p[i + 1]), false))
  }

  /** Every edge has capacity left and none is banned. */
  ghost predicate Open(g: ResGraph) {
    forall u, v :: u in g && v in g[u] ==> g[u][v].residual > 0.0 && !g[u][v].banned
  }

  ghost predicate HasAllEdges(edges: seq<Edge>, g: ResGraph) {
    forall e :: e in edges ==> e.source in g && e.destination in g[e.source]
  }

  lemma ForwardStep(edges: seq<Edge>, n: Net, u: Node, v: Node)
    requires GoodEdges(edges) && Latencies(edges, n.latencies) && HasAllEdges(edges, n.g) && Open(n.g)
    requires HasEdge(Adjacency(edges), u, v)
    ensures n.Offers(u, Step(v, n.Latency(u, v), false))
    ensures n.Latency(u, v) == Weight(Adjacency(edges), u, v, ByLatency)
  {
    AdjacencyMembers(edges);
    var e := EdgeTo(Adjacency(edges)[u], v);
    assert e in edges && e.source == u;
  }

  /** The residual graph offers every edge of the network, at its latency. */
  ghost predicate Carries(n: Net, g: Graph) {
    forall u, v {:trigger HasEdge(g, u, v)} :: HasEdge(g, u, v) ==>
      n.Offers(u, Step(v, n.Latency(u, v), false)) && n.Latency(u, v) == Weight(g, u, v, ByLatency)
  }

  lemma OpenCarries(edges: seq<Edge>, n: Net)
    requires GoodEdges(edges) && Latencies(edges, n.latencies) && HasAllEdges(edges, n.g) && Open(n.g)
    ensures Carries(n, Adjacency(edges))
  {
    forall u, v | HasEdge(Adjacency(edges), u, v)
      ensures n.Offers(u, Step(v, n.Latency(u, v), false))
      ensures n.Latency(u, v) == Weight(Adjacency(edges), u, v, ByLatency)
    {
      ForwardStep(edges, n, u, v);
    }
  }

  lemma ForwardVisits(n: Net, p: seq<Node>)
    requires |p| >= 1
    ensures Visits(p[0], Forward(n, p)) == p
  {
    var w := Forward(n, p);
    forall i | 0 <= i < |p|
      ensures Visits(p[0], w)[i] == p[i]
    {
      assert i > 0 ==> Visits(p[0], w)[i - 1 + 1] == w[i - 1].to;
    }
  }

  lemma {:induction false} ForwardCost(g: Graph, n: Net, p: seq<Node>)
    requires Carries(n, g) && IsWalk(g, p)
    ensures Cost(Forward(n, p)) == Length(g, p, ByLatency)
  {
    if |p| > 1 {
      var q := p[..|p| - 1];
      ForwardCost(g, n, q);
      assert HasEdge(g, p[|p| - 2], p[|p| - 1]);
      assert Forward(n, p)[..|p| - 2] == Forward(n, q);
    }
  }

  /** Following a route forwards is a residual walk of the same price. */
  lemma ForwardWalk(g: Graph, n: Net, p: seq<Node>)
    requires Carries(n, g) && IsWalk(g, p) && Simple(p)
    ensures ResidualWalk(n, p[0], Forward(n, p)) && Visits(p[0], Forward(n, p)) == p
    ensures Cost(Forward(n, p)) == Length(g, p, ByLatency)
  {
    ForwardVisits(n, p);
    ForwardCost(g, n, p);
    forall i | 0 <= i < |p| - 1
      ensures n.Offers(p[i], Forward(n, p)[i])
    {
      EdgeOfWalk(g, p, i);
    }
  }

  lemma {:induction false} SimpleLength(p: seq<Node>, s: set<Node>)
    requires Simple(p) && forall i :: 0 <= i < |p| ==> p[i] in s
    ensures |p| <= |s|
  {
    if |p| > 0 {
      SimpleLength(p[..|p| - 1], s - {p[|p| - 1]});
    }
  }

  /** A route of a reachable destination uses no more nodes than the network has. */
  lemma RouteFits(edges: seq<Edge>, p: seq<Node>)
    requires GoodEdges(edges)
    requires IsWalk(Adjacency(edges), p) && Simple(p) && p[0] in EndPoints(edges)
    ensures |p| <= |EndPoints(edges)|
  {
    AdjacencyWellFormed(edges, ByLatency);
    Routes.WalkInNodes(Adjacency(edges), p);
    SimpleLength(p, EndPoints(edges));
  }

  /** In an open network a reachable destination has a feasible walk. */
  lemma ReachableIsFeasible(edges: seq<Edge>, n: Net, start: Node, end: Node, theta: real) returns (w: seq<Step>)
    requires GoodEdges(edges) && NonNegativeEdges(edges, ByLatency) && |EndPoints(edges)| <= MAX_HOPS
    requires Latencies(edges, n.latencies) && HasAllEdges(edges, n.g) && Open(n.g)
    requires Solvable(LatencySolver(edges), start, end) && ThetaRule(edges, start, end, theta)
    ensures Feasible(n, start, end, theta, w)
  {
    var r := CheapestWithinBound(edges, start, end, theta);
    OpenCarries(edges, n);
    ForwardWalk(Adjacency(edges), n, r.hops);
    RouteFits(edges, r.hops);
    w := Forward(n, r.hops);
  }

  ghost predicate EdgesOnly(edges: seq<Edge>, g: ResGraph) {
    forall u, v :: u in g && v in g[u] ==> exists e :: e in edges && e.source == u && e.destination == v
  }

  ghost predicate SafeLoads(edges: seq<Edge>) {
    forall e :: e in edges ==> e.load <= SAFE_LOAD
  }

  /** Exactly the given edges, with effective capacities between none and all of cap, all of it under safe loads. */
  ghost predicate Provisioned(edges: seq<Edge>, cap: real, g: ResGraph) {
    && EdgesOnly(edges, g) && HasAllEdges(edges, g)
    && (forall u, v :: u in g && v in g[u] ==> 0.0 <= g[u][v].effCap <= g[u][v].cap == cap)
    && (SafeLoads(edges) ==> forall u, v :: u in g && v in g[u] ==> g[u][v].effCap == cap)
  }

  lemma ShapedIsProvisioned(edges: seq<Edge>, uhot: real, cap: real, g: ResGraph)
    requires cap >= 0.0 && Shaped(edges, uhot, cap, g)
    ensures Provisioned(edges, cap, g)
  {
    forall u, v | u in g && v in g[u]
      ensures 0.0 <= g[u][v].effCap <= g[u][v].cap == cap
      ensures SafeLoads(edges) ==> g[u][v].effCap == cap
    {
      EffectiveWithinCapacity(edges, uhot, cap, g, u, v);
      if SafeLoads(edges) {
        SafeLoadFullCapacity(edges, uhot, cap, g, u, v);
      }
    }
  }

  /** An edge with a safe load keeps its whole capacity. */
  lemma SafeLoadFullCapacity(edges: seq<Edge>, uhot: real, cap: real, g: ResGraph, u: Node, v: Node)
    requires SafeLoads(edges) && Shaped(edges, uhot, cap, g) && u in g && v in g[u]
    ensures g[u][v].effCap == cap
  {
    var e :| e in edges && e.source == u && e.destination == v;
    assert Rated(g[u][v], e, uhot, cap);
    assert g[u][v].thetaA == 1.0;
  }

  /** With all loads safe and routes to spare, every edge is open. */
  lemma SafeLoadsAreOpen(edges: seq<Edge>, cap: real, built: ResGraph, g: ResGraph, ps: seq<PathWithInfo>)
    requires SafeLoads(edges) && Provisioned(edges, cap, built) && SameShape(built, g)
    requires FlowsMatch(g, ps) && Unbanned(g) && |ps| as real < cap
    ensures Open(g) && HasAllEdges(edges, g)
  {
    forall u, v | u in g && v in g[u]
      ensures g[u][v].residual > 0.0
    {
      FlowAtMostRoutes(g, ps, u, v);
    }
  }
}
