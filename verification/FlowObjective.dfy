/**
 The score of a set of routes: many routes, few shared edges, little latency and congestion.
 */
module FlowObjective {
  import opened NetworkGraph
  import opened FlowSearch
  import opened FlowAccounting

  const PATH_WEIGHT := 10.0
  const DIVERSITY_WEIGHT := 1.0
  const LATENCY_WEIGHT := 0.1
  const CONGESTION_WEIGHT := 1.0

  /** The edges a route takes. */
  function EdgesOf(p: seq<Node>): set<(Node, Node)> {
    if |p| < 2 then {} else EdgesOf(p[..|p| - 1]) + {(p[|p| - 2], p[|p| - 1])}
  }

  lemma {:induction false} EdgesOfUses(p: seq<Node>)
    ensures forall u, v :: (u, v) in EdgesOf(p) <==> Uses(p, u, v)
  {
    if |p| >= 2 {
      EdgesOfUses(p[..|p| - 1]);
    }
  }

  function UsedEdges(ps: seq<PathWithInfo>): set<(Node, Node)> {
    if ps == [] then {} else UsedEdges(ps[..|ps| - 1]) + EdgesOf(ps[|ps| - 1].path)
  }

  lemma {:induction false} UsedEdgesTraversed(ps: seq<PathWithInfo>)
    ensures forall u, v :: (u, v) in UsedEdges(ps) <==> Traversals(ps, u, v) > 0
  {
    if ps != [] {
      var rest, p := ps[..|ps| - 1], ps[|ps| - 1];
      UsedEdgesTraversed(rest);
      EdgesOfUses(p.path);
      assert ps == rest + [p];
      forall u, v
        ensures Traversals(ps, u, v) == Traversals(rest, u, v) + if Uses(p.path, u, v) then 1 else 0
      {
        TraversalsSnoc(rest, p, u, v);
      }
    }
  }

  function Inverse(n: nat): real {
    if n == 0 then 0.0 else 1.0 / n as real
  }

  /** A sum over a set of edges, in whatever order. */
  ghost function SumOver(f: ((Node, Node)) -> real, edges: set<(Node, Node)>): real {
    if edges == {} then 0.0 else
    var e :| e in edges;
    f(e) + SumOver(f, edges - {e})
  }

  lemma {:induction false} SumAny(f: ((Node, Node)) -> real, edges: set<(Node, Node)>, e: (Node, Node))
    requires e in edges
    ensures SumOver(f, edges) == f(e) + SumOver(f, edges - {e})
    decreases |edges|
  {
    var x :| x in edges && SumOver(f, edges) == f(x) + SumOver(f, edges - {x});
    if x != e {
      SumAny(f, edges - {x}, e);
      SumAny(f, edges - {e}, x);
      assert edges - {x} - {e} == edges - {e} - {x};
    }
  }

  /** The inverse of the number of routes on an edge. */
  ghost function Share(ps: seq<PathWithInfo>): ((Node, Node)) -> real {
    (e: (Node, Node)) => Inverse(Traversals(ps, e.0, e.1))
  }

  ghost function TotalLatency(ps: seq<PathWithInfo>): real {
    if ps == [] then 0.0 else TotalLatency(ps[..|ps| - 1]) + ps[|ps| - 1].latency
  }

  function EdgeCongestion(g: ResGraph, u: Node, v: Node): real {
    if u in g && v in g[u] && g[u][v].effCap > 0.0 then 1.0 - g[u][v].residual / g[u][v].effCap else 0.0
  }

  ghost function PathCongestion(g: ResGraph, p: seq<Node>): real {
    if |p| < 2 then 0.0 else PathCongestion(g, p[..|p| - 1]) + EdgeCongestion(g, p[|p| - 2], p[|p| - 1])
  }

  ghost function TotalCongestion(g: ResGraph, ps: seq<PathWithInfo>): real {
    if ps == [] then 0.0 else TotalCongestion(g, ps[..|ps| - 1]) + PathCongestion(g, ps[|ps| - 1].path)
  }

  /** The score in terms of how many routes take each edge. */
  ghost function Score(ps: seq<PathWithInfo>, g: ResGraph): real {
    if ps == [] then 0.0 else
    |ps| as real * PATH_WEIGHT + SumOver(Share(ps), UsedEdges(ps)) * DIVERSITY_WEIGHT
    - TotalLatency(ps) * LATENCY_WEIGHT - TotalCongestion(g, ps) * CONGESTION_WEIGHT
  }

  type Usage = map<(Node, Node), nat>

  /** The counters hold the traversals by ps and by the walked part of one more route. */
  ghost predicate Counting(usage: Usage, ps: seq<PathWithInfo>, p: seq<Node>) {
    && usage.Keys == UsedEdges(ps) + EdgesOf(p)
    && (forall u, v :: (u, v) in usage ==> usage[(u, v)] == Traversals(ps, u, v) + if Uses(p, u, v) then 1 else 0)
  }

  function Bump(usage: Usage, e: (Node, Node)): Usage {
    usage[e := (if e in usage then usage[e] else 0) + 1]
  }

  lemma CountingStep(usage: Usage, ps: seq<PathWithInfo>, p: seq<Node>, i: nat)
    requires Simple(p) && i + 1 < |p| && Counting(usage, ps, p[..i + 1])
    ensures Counting(Bump(usage, (p[i], p[i + 1])), ps, p[..i + 2])
  {
    var e := (p[i], p[i + 1]);
    EdgeIsNew(p, i);
    UsedEdgesTraversed(ps);
    EdgesOfUses(p[..i + 1]);
    assert p[..i + 2][..i + 1] == p[..i + 1];
    var next := Bump(usage, e);
    forall u, v | (u, v) in next
      ensures next[(u, v)] == Traversals(ps, u, v) + if Uses(p[..i + 2], u, v) then 1 else 0
    {
      UsesStep(p, i, u, v);
    }
  }

  lemma CountingDone(usage: Usage, ps: seq<PathWithInfo>, p: PathWithInfo)
    requires Counting(usage, ps, p.path)
    ensures Counting(usage, ps + [p], [])
  {
    assert (ps + [p])[..|ps|] == ps;
    forall u, v | (u, v) in usage
      ensures usage[(u, v)] == Traversals(ps + [p], u, v)
    {
      TraversalsSnoc(ps, p, u, v);
    }
  }

  /** One route's contribution to the edge counters and to congestion. */
  method ScorePath(usage0: Usage, g: ResGraph, ghost ps: seq<PathWithInfo>, p: PathWithInfo)
    returns (usage: Usage, congestion: real)
    requires Counting(usage0, ps, []) && Simple(p.path) && |p.path| >= 1
    ensures Counting(usage, ps + [p], []) && congestion == PathCongestion(g, p.path)
  {
    usage, congestion := usage0, 0.0;
    var path := p.path;
    for i := 0 to |path| - 1
      invariant Counting(usage, ps, path[..i + 1]) && congestion == PathCongestion(g, path[..i + 1])
    {
      CountingStep(usage, ps, path, i);
      assert path[..i + 2][..i + 1] == path[..i + 1];
      usage := Bump(usage, (path[i], path[i + 1]));
      congestion := congestion + EdgeCongestion(g, path[i], path[i + 1]);
    }
    assert path[..|path|] == path;
    CountingDone(usage, ps, p);
  }

  /** Summing the counters in any order. */
  method SumUsage(usage: Usage, ghost ps: seq<PathWithInfo>) returns (r: real)
    requires Counting(usage, ps, [])
    ensures r == SumOver(Share(ps), UsedEdges(ps))
  {
    UsedEdgesTraversed(ps);
    r := 0.0;
    var rest := usage.Keys;
    assert rest == UsedEdges(ps);
    while rest != {}
      invariant rest <= usage.Keys
      invariant r + SumOver(Share(ps), rest) == SumOver(Share(ps), UsedEdges(ps))
      decreases rest
    {
      var e :| e in rest;
      SumAny(Share(ps), rest, e);
      assert (e.0, e.1) == e;
      r := r + 1.0 / usage[e] as real;
      rest := rest - {e};
    }
  }

  method Objective(ps: seq<PathWithInfo>, g: ResGraph) returns (r: real)
    requires forall p :: p in ps ==> Simple(p.path) && |p.path| >= 1
    ensures r == Score(ps, g)
  {
    if |ps| == 0 {
      return 0.0;
    }
    var usage: Usage := map[];
    var latency, congestion := 0.0, 0.0;
    for n := 0 to |ps|
      invariant Counting(usage, ps[..n], [])
      invariant latency == TotalLatency(ps[..n]) && congestion == TotalCongestion(g, ps[..n])
    {
      var c;
      assert ps[n] in ps;
      assert ps[..n + 1] == ps[..n] + [ps[n]] && ps[..n + 1][..n] == ps[..n];
      usage, c := ScorePath(usage, g, ps[..n], ps[n]);
      latency, congestion := latency + ps[n].latency, congestion + c;
    }
    assert ps[..|ps|] == ps;
    var diversity := SumUsage(usage, ps);
    return |ps| as real * PATH_WEIGHT + diversity * DIVERSITY_WEIGHT
           - latency * LATENCY_WEIGHT - congestion * CONGESTION_WEIGHT;
  }
}
