/**
 The k-shortest-routes solver as its callers see it: from a list of edges to route
 descriptions or an error.
 */
module KShortest {
  import opened NetworkGraph
  import opened ShortestPath
  import opened Spur
  import opened Yen
  import opened Wrappers
  import PathKey
  import Sorting

  datatype PathInfo = PathInfo(hops: seq<Node>, rtt: real, rawRTT: real)

  datatype Solver = Solver(edges: seq<Edge>, k: nat, metric: Metric)

  function NewSolver(edges: seq<Edge>, k: int, useLatency: bool): (s: Solver)
    ensures s.k >= 1 && (k >= 1 ==> s.k == k) && (k < 1 ==> s.k == 5)
    ensures s.edges == edges && (s.metric == ByLatency <==> useLatency)
  {
    Solver(edges, if k <= 0 then 5 else k, if useLatency then ByLatency else ByWeight)
  }

  /** Adjacency lists in edge order. */
  function Adjacency(edges: seq<Edge>): Graph {
    if edges == [] then map[] else
    var g := Adjacency(edges[..|edges| - 1]);
    var e := edges[|edges| - 1];
    g[e.source := (if e.source in g then g[e.source] else []) + [e]]
  }

  /** Every endpoint of an edge. */
  function EndPoints(edges: seq<Edge>): set<Node> {
    (set e | e in edges :: e.source) + (set e | e in edges :: e.destination)
  }

  /** Edge lists the graph manager hands out: proper names, and one edge per pair of endpoints. */
  ghost predicate GoodEdges(edges: seq<Edge>) {
    && (forall e :: e in edges ==> ProperName(e.source) && ProperName(e.destination))
    && (forall e, f :: e in edges && f in edges && e.source == f.source && e.destination == f.destination ==> e == f)
  }

  ghost predicate ProperName(n: Node) {
    n != "" && !PathKey.HasArrow(n)
  }

  ghost predicate NonNegativeEdges(edges: seq<Edge>, m: Metric) {
    forall e :: e in edges ==> Price(e, m) >= 0.0
  }

  lemma {:induction false} AdjacencyMembers(edges: seq<Edge>)
    ensures forall u :: u in Adjacency(edges) <==> exists e :: e in edges && e.source == u
    ensures forall u, e :: u in Adjacency(edges) ==> (e in Adjacency(edges)[u] <==> e in edges && e.source == u)
  {
    if edges != [] {
      var n := |edges| - 1;
      AdjacencyMembers(edges[..n]);
      assert edges == edges[..n] + [edges[n]];
      assert forall e :: e in edges <==> e in edges[..n] || e == edges[n];
    }
  }

  /** The adjacency lists of good edges are a network the searches accept. */
  lemma AdjacencyWellFormed(edges: seq<Edge>, m: Metric)
    requires GoodEdges(edges)
    ensures WellFormed(Adjacency(edges))
    ensures NonNegativeEdges(edges, m) ==> NonNegative(Adjacency(edges), m)
    ensures Nodes(Adjacency(edges)) == EndPoints(edges)
    ensures forall u, v :: HasEdge(Adjacency(edges), u, v) <==>
              exists e :: e in edges && e.source == u && e.destination == v
  {
    AdjacencyMembers(edges);
    var g := Adjacency(edges);
    forall u, v
      ensures HasEdge(g, u, v) <==> exists e :: e in edges && e.source == u && e.destination == v
    {
    }
    forall x
      ensures x in Nodes(g) <==> x in EndPoints(edges)
    {
      if x in EndPoints(edges) {
        var e :| e in edges && (e.source == x || e.destination == x);
        assert e.source in g && e in g[e.source];
      }
    }
  }

  lemma AdjacencySnoc(edges: seq<Edge>, i: nat)
    requires i < |edges|
    ensures var g, e := Adjacency(edges[..i]), edges[i];
            Adjacency(edges[..i + 1]) == g[e.source := (if e.source in g then g[e.source] else []) + [e]]
    ensures EndPoints(edges[..i + 1]) == EndPoints(edges[..i]) + {edges[i].source} + {edges[i].destination}
  {
    assert edges[..i + 1][..i] == edges[..i];
    assert edges[..i + 1] == edges[..i] + [edges[i]];
    EndPointsSnoc(edges[..i], edges[i]);
  }

  lemma EndPointsSnoc(edges: seq<Edge>, e: Edge)
    ensures EndPoints(edges + [e]) == EndPoints(edges) + {e.source} + {e.destination}
  {
    Sorting.SnocMembers(edges, e);
    EndPointsMembers(edges);
    EndPointsMembers(edges + [e]);
  }

  lemma EndPointsMembers(edges: seq<Edge>)
    ensures forall x :: x in EndPoints(edges) <==> exists e :: e in edges && (e.source == x || e.destination == x)
  {
  }

  method BuildGraph(edges: seq<Edge>) returns (g: Graph, nodes: set<Node>)
    ensures g == Adjacency(edges) && nodes == EndPoints(edges)
  {
    g, nodes := map[], {};
    for i := 0 to |edges|
      invariant g == Adjacency(edges[..i])
      invariant nodes == EndPoints(edges[..i])
    {
      var e := edges[i];
      AdjacencySnoc(edges, i);
      g := g[e.source := (if e.source in g then g[e.source] else []) + [e]];
      nodes := nodes + {e.source} + {e.destination};
    }
    assert edges[..|edges|] == edges;
  }

  ghost function ProblemOf(s: Solver, start: Node, end: Node): Problem {
    Problem(Adjacency(s.edges), start, end, s.metric)
  }

  /** The descriptions returned for a list of routes. */
  ghost predicate Describes(infos: seq<PathInfo>, rs: seq<Path>) {
    |infos| == |rs| && forall i :: 0 <= i < |rs| ==> infos[i] == PathInfo(rs[i].hops, rs[i].cost, 0.0)
  }

  lemma ProblemValid(s: Solver, start: Node, end: Node)
    requires GoodEdges(s.edges) && NonNegativeEdges(s.edges, s.metric)
    requires start in EndPoints(s.edges) && end in EndPoints(s.edges)
    ensures ProblemOf(s, start, end).Valid()
  {
    AdjacencyWellFormed(s.edges, s.metric);
    AdjacencyMembers(s.edges);
  }

  method Describe(rs: seq<Path>) returns (infos: seq<PathInfo>)
    ensures Describes(infos, rs)
  {
    infos := [];
    for i := 0 to |rs|
      invariant |infos| == i && forall n :: 0 <= n < i ==> infos[n] == PathInfo(rs[n].hops, rs[n].cost, 0.0)
    {
      infos := infos + [PathInfo(rs[i].hops, rs[i].cost, 0.0)];
    }
  }

  /** There is something to return. */
  ghost predicate Solvable(s: Solver, start: Node, end: Node) {
    start in EndPoints(s.edges) && end in EndPoints(s.edges) && exists p :: ProblemOf(s, start, end).Route(p)
  }

  /** The k routes, or an error exactly when an endpoint is unknown or no route exists. */
  method Computing(s: Solver, start: Node, end: Node) returns (r: Result<seq<PathInfo>>, ghost rs: seq<Path>)
    requires GoodEdges(s.edges) && NonNegativeEdges(s.edges, s.metric) && s.k >= 1
    ensures r.Ok? <==> Solvable(s, start, end)
    ensures r.Ok? ==> KRoutes(ProblemOf(s, start, end), s.k, rs) && Describes(r.value, rs)
  {
    rs := [];
    var g, nodes := BuildGraph(s.edges);
    if start !in nodes {
      return Err("start node not found"), rs;
    }
    if end !in nodes {
      return Err("end node not found"), rs;
    }
    ProblemValid(s, start, end);
    var found := YensAlgorithm(Problem(g, start, end, s.metric), s.k);
    if found.None? {
      return Err("no path found"), rs;
    }
    rs := found.value;
    var infos := Describe(found.value);
    return Ok(infos), rs;
  }
}
