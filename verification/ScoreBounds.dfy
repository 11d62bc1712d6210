/**
 Bounds on the score of a set of routes, used to compare the states of a run without computing
 sums over sets of edges.
 */
module ScoreBounds {
  import opened NetworkGraph
  import opened FlowSearch
  import opened FlowAccounting
  import opened FlowObjective
  import opened Coverage
  import opened RouteFinding
  import opened Crossings

  lemma {:induction false} FewEdges(p: seq<Node>)
    requires |p| >= 1
    ensures |EdgesOf(p)| <= |p| - 1
  {
    if |p| > 1 {
      FewEdges(p[..|p| - 1]);
    }
  }

  lemma {:induction false} SumWithin(f: ((Node, Node)) -> real, edges: set<(Node, Node)>)
    requires forall e :: 0.0 <= f(e) <= 1.0
    ensures 0.0 <= SumOver(f, edges) <= |edges| as real
    decreases |edges|
  {
    if edges != {} {
      var e :| e in edges;
      SumAny(f, edges, e);
      SumWithin(f, edges - {e});
    }
  }

  lemma ShareWithin(ps: seq<PathWithInfo>, e: (Node, Node))
    ensures 0.0 <= Share(ps)(e) <= 1.0
  {
  }

  lemma DiversityWithin(ps: seq<PathWithInfo>)
    ensures 0.0 <= SumOver(Share(ps), UsedEdges(ps)) <= |UsedEdges(ps)| as real
  {
    forall e {
      ShareWithin(ps, e);
    }
    SumWithin(Share(ps), UsedEdges(ps));
  }

  lemma CongestionNonNegative(g: ResGraph, ps: seq<PathWithInfo>, u: Node, v: Node)
    requires FlowsMatch(g, ps)
    ensures EdgeCongestion(g, u, v) >= 0.0
  {
    if u in g && v in g[u] && g[u][v].effCap > 0.0 {
      LeftOver(g[u][v].residual, g[u][v].effCap);
    }
  }

  lemma LeftOver(rest: real, all: real)
    requires all > 0.0 && rest <= all
    ensures 1.0 - rest / all >= 0.0
  {
  }

  /** One route on an edge with room for two. */
  lemma HalfUsed(g: ResGraph, ps: seq<PathWithInfo>, u: Node, v: Node)
    requires FlowsMatch(g, ps) && Traversals(ps, u, v) <= 1
    requires u in g && v in g[u] ==> g[u][v].effCap == 2.0
    ensures EdgeCongestion(g, u, v) <= 0.5
  {
  }

  lemma {:induction false} PathCongestionNonNegative(g: ResGraph, ps: seq<PathWithInfo>, p: seq<Node>)
    requires FlowsMatch(g, ps)
    ensures PathCongestion(g, p) >= 0.0
  {
    if |p| >= 2 {
      PathCongestionNonNegative(g, ps, p[..|p| - 1]);
      CongestionNonNegative(g, ps, p[|p| - 2], p[|p| - 1]);
    }
  }

  /** A single route scores at most ten and one for each of its edges. */
  lemma SingleScore(g: ResGraph, p: PathWithInfo)
    requires FlowsMatch(g, [p]) && |p.path| >= 1 && p.latency >= 0.0
    ensures Score([p], g) <= PATH_WEIGHT + (|p.path| - 1) as real
  {
    assert [p][..0] == [];
    assert UsedEdges([p]) == EdgesOf(p.path);
    FewEdges(p.path);
    DiversityWithin([p]);
    PathCongestionNonNegative(g, [p], p.path);
    assert TotalLatency([p]) == p.latency && TotalCongestion(g, [p]) == PathCongestion(g, p.path);
  }

  lemma LicitCost(s: Setting, built: ResGraph, u: Node, st: Step)
    requires s.NetOf(built).NonNegative() && Licit(s, built, u, st)
    ensures st.cost >= 0.0
  {
  }

  lemma LicitNode(s: Setting, built: ResGraph, u: Node, st: Step)
    requires s.Valid() && EdgesOnly(s.edges, built) && Licit(s, built, u, st)
    ensures st.to in s.nodes
  {
    if st.reverse {
      var e :| e in s.edges && e.source == st.to && e.destination == u;
    } else {
      var e :| e in s.edges && e.source == u && e.destination == st.to;
    }
  }

  /** A held route has no negative latency and no more nodes than the network. */
  lemma HeldWithin(s: Setting, built: ResGraph, p: PathWithInfo)
    requires s.Valid() && EdgesOnly(s.edges, built) && Held(s, built, p) && Simple(p.path)
    ensures p.latency >= 0.0 && |p.path| <= |s.nodes|
  {
    var w: seq<Step> :| Traces(s, built, p.path, p.latency, w);
    RunIsNonNegative(s);
    forall i | 0 <= i < |w|
      ensures w[i].cost >= 0.0 && w[i].to in s.nodes
    {
      LicitCost(s, built, p.path[i], w[i]);
      LicitNode(s, built, p.path[i], w[i]);
    }
    CostNonNegative(w);
    forall i | 0 <= i < |p.path|
      ensures p.path[i] in s.nodes
    {
      if i > 0 {
        assert p.path[i - 1 + 1] == w[i - 1].to;
      }
    }
    SimpleLength(p.path, s.nodes);
  }
}
