/**
 What the flow solver's answers say about the network. A route may take an edge against its
 direction, which costs nothing and need not be possible in the network, and pays a surcharge
 on banned edges. Here is the exact account of a reported latency, and exactly when a reported
 route is a path of the network with its true latency.
 */
module ReportedLatency {
  import opened NetworkGraph
  import opened KShortest
  import opened FlowSearch
  import opened Carousel
  import opened Coverage
  import opened RouteFinding

  // ---------- The account of a latency ----------

  ghost predicate Licits(s: Setting, built: ResGraph, w: seq<Step>) {
    forall i :: 0 <= i < |w| ==> Licit(s, built, Visits(s.start, w)[i], w[i])
  }

  /** The step pays the surcharge for a banned edge. */
  ghost predicate Charged(s: Setting, u: Node, st: Step) {
    st.cost != if st.reverse then 0.0 else s.Latency(u, st.to)
  }

  ghost function Surcharges(s: Setting, w: seq<Step>): nat {
    if w == [] then 0 else
    var rest, last := w[..|w| - 1], w[|w| - 1];
    Surcharges(s, rest) + if Charged(s, Visits(s.start, rest)[|rest|], last) then 1 else 0
  }

  /** The latency of the edges that join the nodes of the steps taken in reverse. */
  ghost function Uncounted(s: Setting, w: seq<Step>): real {
    if w == [] then 0.0 else
    var rest, last := w[..|w| - 1], w[|w| - 1];
    Uncounted(s, rest) +
    if last.reverse then Weight(Adjacency(s.edges), Visits(s.start, rest)[|rest|], last.to, ByLatency) else 0.0
  }

  /** Every step in reverse happens to follow an edge. */
  ghost predicate ReversesAreEdges(s: Setting, w: seq<Step>) {
    w == [] ||
    var rest, last := w[..|w| - 1], w[|w| - 1];
    ReversesAreEdges(s, rest) && (last.reverse ==> HasEdge(Adjacency(s.edges), Visits(s.start, rest)[|rest|], last.to))
  }

  ghost predicate Network(s: Setting, built: ResGraph) {
    s.Valid() && EdgesOnly(s.edges, built) && HasAllEdges(s.edges, built)
  }

  /** The residual graph has the network's edges, and the table their latencies. */
  lemma BuiltIsNetwork(s: Setting, built: ResGraph, u: Node, v: Node)
    requires Network(s, built)
    ensures HasEdge(Adjacency(s.edges), u, v) <==> s.NetOf(built).Has(u, v)
    ensures HasEdge(Adjacency(s.edges), u, v) ==> Weight(Adjacency(s.edges), u, v, ByLatency) == s.Latency(u, v)
  {
    var g := Adjacency(s.edges);
    AdjacencyMembers(s.edges);
    AdjacencyWellFormed(s.edges, ByLatency);
    if s.NetOf(built).Has(u, v) {
      var e :| e in s.edges && e.source == u && e.destination == v;
      WeightOfEdge(g, u, e, ByLatency);
    }
  }

  lemma LicitsPrefix(s: Setting, built: ResGraph, w: seq<Step>)
    requires w != [] && Licits(s, built, w)
    ensures var rest := w[..|w| - 1];
            && Licits(s, built, rest) && Visits(s.start, w) == Visits(s.start, rest) + [w[|w| - 1].to]
            && Licit(s, built, Visits(s.start, rest)[|rest|], w[|w| - 1])
  {
    var rest := w[..|w| - 1];
    forall i | 0 <= i < |rest|
      ensures Licit(s, built, Visits(s.start, rest)[i], rest[i])
    {
      assert Licit(s, built, Visits(s.start, w)[i], w[i]);
    }
    assert Licit(s, built, Visits(s.start, w)[|rest|], w[|rest|]);
  }

  lemma WalkSnoc(g: Graph, p: seq<Node>, v: Node, m: Metric)
    requires |p| >= 1
    ensures IsWalk(g, p + [v]) <==> IsWalk(g, p) && HasEdge(g, p[|p| - 1], v)
    ensures Length(g, p + [v], m) == Length(g, p, m) + Weight(g, p[|p| - 1], v, m)
  {
    assert (p + [v])[..|p|] == p;
  }

  /** What one step costs beside its share of the path's length. */
  lemma StepAccount(s: Setting, built: ResGraph, u: Node, st: Step)
    requires Network(s, built) && Licit(s, built, u, st)
    ensures var weight := Weight(Adjacency(s.edges), u, st.to, ByLatency);
            st.cost == weight + (if Charged(s, u, st) then BANNED_PENALTY else 0.0) - if st.reverse then weight else 0.0
    ensures !st.reverse ==> HasEdge(Adjacency(s.edges), u, st.to)
  {
    BuiltIsNetwork(s, built, u, st.to);
  }

  /** A reported latency is the path's length, plus the surcharges, less what reverse steps leave uncounted. */
  lemma {:induction false} LatencyAccount(s: Setting, built: ResGraph, w: seq<Step>)
    requires Network(s, built) && Licits(s, built, w)
    ensures Cost(w) == Length(Adjacency(s.edges), Visits(s.start, w), ByLatency)
                       + BANNED_PENALTY * Surcharges(s, w) as real - Uncounted(s, w)
    ensures IsWalk(Adjacency(s.edges), Visits(s.start, w)) <==> ReversesAreEdges(s, w)
  {
    if w != [] {
      var rest, last := w[..|w| - 1], w[|w| - 1];
      LicitsPrefix(s, built, w);
      LatencyAccount(s, built, rest);
      StepAccount(s, built, Visits(s.start, rest)[|rest|], last);
      WalkSnoc(Adjacency(s.edges), Visits(s.start, rest), last.to, ByLatency);
    }
  }

  // ---------- True routes ----------

  /** A path of the network with its true latency. */
  ghost predicate TrueRoute(s: Setting, hops: seq<Node>, latency: real) {
    IsWalk(Adjacency(s.edges), hops) && latency == Length(Adjacency(s.edges), hops, ByLatency)
  }

  /**
   A reported route is a path of the network with its true latency exactly when each step in
   reverse has an edge the other way and the latencies of those edges make up for the surcharges.
   */
  lemma TrueRouteIff(s: Setting, built: ResGraph, hops: seq<Node>, latency: real, w: seq<Step>)
    requires Network(s, built) && Traces(s, built, hops, latency, w)
    ensures TrueRoute(s, hops, latency) <==>
              ReversesAreEdges(s, w) && BANNED_PENALTY * Surcharges(s, w) as real == Uncounted(s, w)
  {
    LatencyAccount(s, built, w);
  }

  /** Every edge has its opposite. */
  ghost predicate Symmetric(edges: seq<Edge>) {
    forall u, v :: Linked(edges, u, v) ==> Linked(edges, v, u)
  }

  ghost predicate Linked(edges: seq<Edge>, u: Node, v: Node) {
    exists e :: e in edges && e.source == u && e.destination == v
  }

  lemma {:induction false} SymmetricReverses(s: Setting, built: ResGraph, w: seq<Step>)
    requires Network(s, built) && Symmetric(s.edges) && Licits(s, built, w)
    ensures ReversesAreEdges(s, w)
  {
    if w != [] {
      var rest, last := w[..|w| - 1], w[|w| - 1];
      LicitsPrefix(s, built, w);
      SymmetricReverses(s, built, rest);
      if last.reverse {
        Opposite(s, built, last.to, Visits(s.start, rest)[|rest|]);
      }
    }
  }

  lemma Opposite(s: Setting, built: ResGraph, u: Node, v: Node)
    requires Network(s, built) && Symmetric(s.edges) && s.NetOf(built).Has(u, v)
    ensures HasEdge(Adjacency(s.edges), v, u)
  {
    assert Linked(s.edges, u, v);
    AdjacencyWellFormed(s.edges, ByLatency);
  }

  /** In a network whose edges all have their opposites, every reported route is a path. */
  lemma SymmetricIsWalk(s: Setting, built: ResGraph, hops: seq<Node>, latency: real, w: seq<Step>)
    requires Network(s, built) && Symmetric(s.edges) && Traces(s, built, hops, latency, w)
    ensures IsWalk(Adjacency(s.edges), hops)
  {
    LatencyAccount(s, built, w);
    SymmetricReverses(s, built, w);
  }

  /** No edge carries flow, and none is banned. */
  ghost predicate Untouched(g: ResGraph) {
    forall u, v :: u in g && v in g[u] ==> g[u][v].flow == 0.0 && !g[u][v].banned
  }

  lemma {:induction false} UntouchedSteps(s: Setting, g: ResGraph, w: seq<Step>)
    requires Untouched(g) && ResidualWalk(s.NetOf(g), s.start, w)
    ensures ReversesAreEdges(s, w) && Surcharges(s, w) == 0 && Uncounted(s, w) == 0.0
  {
    if w != [] {
      var rest, last := w[..|w| - 1], w[|w| - 1];
      assert s.NetOf(g).Offers(Visits(s.start, w)[|rest|], last);
      assert ResidualWalk(s.NetOf(g), s.start, rest) by {
        VisitsPrefix(s.start, rest, w);
      }
      UntouchedSteps(s, g, rest);
    }
  }

  /** Found while no edge carries flow, as the first route of every run is, a route is true. */
  lemma FirstRouteIsTrue(s: Setting, built: ResGraph, g: ResGraph, d: Node, w: seq<Step>)
    requires Network(s, built) && SameShape(built, g) && Untouched(g) && Walkable(s, g, d, w)
    ensures TrueRoute(s, Visits(s.start, w), Cost(w))
  {
    FeasibleTraces(s, built, g, d, w);
    UntouchedSteps(s, g, w);
    TrueRouteIff(s, built, Visits(s.start, w), Cost(w), w);
  }
}
