/**
 The search of the flow solver within one run: what a run keeps fixed, which routes it may
 hold, how a held route is made of edges of the network, and how routes come and go.
 */
module RouteFinding {
  import opened NetworkGraph
  import opened Wrappers
  import opened KShortest
  import opened FlowSearch
  import opened FlowAccounting
  import opened Carousel
  import opened Coverage
  import PathKey
  import Sorting

  /** The fixed data of a run: edges, node set, latency table, start, valid ends and latency bounds. */
  datatype Setting = Setting(edges: seq<Edge>, nodes: set<Node>, latencies: map<string, real>,
                             start: Node, ends: seq<Node>, thetaL: map<Node, real>) {
    ghost predicate Valid() {
      && GoodEdges(edges) && NonNegativeEdges(edges, ByLatency)
      && nodes == EndPoints(edges) && Latencies(edges, latencies)
      && start in nodes && (forall d :: d in ends ==> d in nodes)
    }

    /** The capacity of an edge: room for all routes of all destinations. */
    function Cap(): real {
      (|ends| * FLOWS_PER_DEST) as real
    }

    function NetOf(g: ResGraph): Net {
      Net(g, nodes, latencies)
    }

    function Latency(u: Node, v: Node): real {
      if EdgeKey(u, v) in latencies then latencies[EdgeKey(u, v)] else UNKNOWN_LATENCY
    }
  }

  ghost predicate ValidFor(s: Setting, d: Node) {
    s.Valid() && d in s.nodes
  }

  /** A valid setting, as far as its destinations go. */
  ghost predicate ValidForAll(s: Setting) {
    forall d {:trigger ValidFor(s, d)} :: d in s.ends ==> ValidFor(s, d)
  }

  // ---------- The steps behind a route ----------

  /** A step over an edge of the network or against one, at a price with or without the surcharge for bans. */
  ghost predicate Licit(s: Setting, built: ResGraph, u: Node, st: Step) {
    if st.reverse
    then s.NetOf(built).Has(st.to, u) && (st.cost == 0.0 || st.cost == BANNED_PENALTY)
    else && s.NetOf(built).Has(u, st.to)
         && (st.cost == s.Latency(u, st.to) || st.cost == s.Latency(u, st.to) + BANNED_PENALTY)
  }

  /** The hops are what the steps visit, and the latency is what they cost. */
  ghost predicate Traces(s: Setting, built: ResGraph, hops: seq<Node>, latency: real, w: seq<Step>) {
    && hops == Visits(s.start, w) && latency == Cost(w)
    && forall i :: 0 <= i < |w| ==> Licit(s, built, hops[i], w[i])
  }

  /** A route that a run may hold: it leads to a requested end, over or against edges of the network. */
  ghost predicate Held(s: Setting, built: ResGraph, p: PathWithInfo) {
    p.dest in s.ends && exists w :: Traces(s, built, p.path, p.latency, w)
  }

  /** The invariant of a run: the books agree, the graph has the built shape, all routes may be held. */
  ghost predicate Running(s: Setting, built: ResGraph, b: Books) {
    && Accounted(s.start, s.thetaL, b)
    && SameShape(built, b.g) && EdgesOnly(s.edges, built)
    && (forall p {:trigger Held(s, built, p)} :: p in b.paths ==> Held(s, built, p))
  }

  // ---------- One search ----------

  /** What a search relies on: no negative latency, and names that path keys keep apart. */
  ghost predicate Searchable(s: Setting, g: ResGraph) {
    && s.NetOf(g).NonNegative() && ProperName(s.start)
    && (forall u, v {:trigger v in g[u]} :: u in g && v in g[u] ==> ProperName(u) && ProperName(v))
  }

  lemma RunIsSearchable(s: Setting, built: ResGraph, g: ResGraph)
    requires s.Valid() && EdgesOnly(s.edges, built) && SameShape(built, g)
    ensures Searchable(s, g)
  {
    forall k | k in s.latencies
      ensures s.latencies[k] >= 0.0
    {
      var e :| e in s.edges && k == EdgeKey(e.source, e.destination);
      assert Price(e, ByLatency) >= 0.0;
    }
  }

  /** A feasible walk makes a route the solver may hold. */
  lemma FeasibleIsGood(s: Setting, g: ResGraph, end: Node, w: seq<Step>, p: PathWithInfo)
    requires Searchable(s, g)
    requires Feasible(s.NetOf(g), s.start, end, ThetaLOf(s.thetaL, end), w)
    requires p.path == Visits(s.start, w) && p.dest == end && p.latency == Cost(w)
    ensures GoodPath(s.start, s.thetaL, p)
  {
    WalkNamed(s, g, w);
  }

  lemma WalkNamed(s: Setting, g: ResGraph, w: seq<Step>)
    requires Searchable(s, g) && ResidualWalk(s.NetOf(g), s.start, w)
    ensures PathKey.ArrowFree(Visits(s.start, w))
  {
    var p := Visits(s.start, w);
    forall i | 0 <= i < |p|
      ensures !PathKey.HasArrow(p[i]) && p[i] != ""
    {
      if i > 0 {
        assert p[i - 1 + 1] == w[i - 1].to;
        OfferNamed(s, g, p[i - 1], w[i - 1]);
      }
    }
  }

  lemma OfferNamed(s: Setting, g: ResGraph, u: Node, st: Step)
    requires Searchable(s, g) && s.NetOf(g).Offers(u, st)
    ensures ProperName(st.to)
  {
    if st.reverse {
      assert st.to in g && u in g[st.to];
    } else {
      assert u in g && st.to in g[u];
    }
  }

  /** The steps of a feasible walk are licit in the network the run was built on. */
  lemma FeasibleTraces(s: Setting, built: ResGraph, g: ResGraph, end: Node, w: seq<Step>)
    requires SameShape(built, g) && Feasible(s.NetOf(g), s.start, end, ThetaLOf(s.thetaL, end), w)
    ensures Traces(s, built, Visits(s.start, w), Cost(w), w)
  {
    forall i | 0 <= i < |w|
      ensures Licit(s, built, Visits(s.start, w)[i], w[i])
    {
      OfferIsLicit(s, built, g, Visits(s.start, w)[i], w[i]);
    }
  }

  lemma OfferIsLicit(s: Setting, built: ResGraph, g: ResGraph, u: Node, st: Step)
    requires SameShape(built, g) && s.NetOf(g).Offers(u, st)
    ensures Licit(s, built, u, st)
  {
  }

  function Bars(hops: seq<Node>): string {
    if |hops| == 0 then "" else if |hops| == 1 then hops[0] else hops[0] + "|" + Bars(hops[1..])
  }

  /** A walk to d that the search may return: within d's bound, in the graph as it is. */
  ghost predicate Walkable(s: Setting, g: ResGraph, d: Node, w: seq<Step>) {
    Feasible(s.NetOf(g), s.start, d, ThetaLOf(s.thetaL, d), w)
  }

  ghost predicate InUse(s: Setting, used: set<string>, w: seq<Step>) {
    PathKey.Join(Visits(s.start, w)) in used
  }

  /** The route that the walk makes. */
  function RouteBy(s: Setting, d: Node, path: seq<Node>, latency: real): PathWithInfo {
    PathWithInfo(path, Bars(path), d, latency)
  }

  /** What a successful search returns: a walkable route, on the first attempt a cheapest one not in use. */
  ghost predicate Finds(s: Setting, g: ResGraph, used: set<string>, attempt: nat, p: PathWithInfo, w: seq<Step>) {
    && s.start in g && Walkable(s, g, p.dest, w)
    && p == RouteBy(s, p.dest, Visits(s.start, w), Cost(w))
    && (attempt <= 1 ==> !InUse(s, used, w) && Cheapest(s, g, used, p.dest, Cost(w)))
  }

  ghost predicate Cheapest(s: Setting, g: ResGraph, used: set<string>, d: Node, latency: real) {
    forall x :: Walkable(s, g, d, x) && !InUse(s, used, x) ==> latency <= Cost(x)
  }

  /**
   Why a search fails: no edges at the start, or no walkable route, counting unused ones only on the
   first attempt.
   */
  ghost predicate Unfindable(s: Setting, g: ResGraph, used: set<string>, attempt: nat, d: Node) {
    s.start in g ==> forall x :: Walkable(s, g, d, x) ==> attempt <= 1 && InUse(s, used, x)
  }

  /** The first attempt looks for a cheapest unused route, later ones for any route. */
  method FindFeasible(s: Setting, g: ResGraph, end: Node, used: set<string>, attempt: nat)
    returns (r: Option<PathWithInfo>, ghost w: seq<Step>)
    requires Searchable(s, g)
    ensures r.Some? ==>
              r.value.dest == end && Finds(s, g, used, attempt, r.value, w) && GoodPath(s.start, s.thetaL, r.value)
    ensures r.None? ==> Unfindable(s, g, used, attempt, end)
  {
    w := [];
    if s.start !in g {
      return None, w;
    }
    var found;
    found, w := DfsPathSearch(s.NetOf(g), s.start, end, ThetaLOf(s.thetaL, end), used, attempt <= 1, attempt > 1);
    if found.None? {
      return None, w;
    }
    var p := RouteBy(s, end, found.value.0, found.value.1);
    FeasibleIsGood(s, g, end, w, p);
    return Some(p), w;
  }

  lemma FilledKeepsRatings()
    ensures KeepsRatings(Filled) && KeepsRatings(Released) && KeepsRatings(Banned)
  {
  }

  ghost predicate KeepsBans(f: EdgeFlow -> EdgeFlow) {
    forall ef :: f(ef).banned == ef.banned
  }

  lemma AlongKeepsBans(g: ResGraph, h: ResGraph, p: seq<Node>, f: EdgeFlow -> EdgeFlow)
    requires Along(g, h, p, f) && KeepsBans(f) && Unbanned(g)
    ensures Unbanned(h)
  {
  }

  lemma SameShapeChain(built: ResGraph, g: ResGraph, h: ResGraph)
    requires SameShape(built, g) && SameShape(g, h)
    ensures SameShape(built, h)
  {
  }

  /** An update of flows along a route leaves shape and bans as they were. */
  lemma FlowKeepsShape(built: ResGraph, g: ResGraph, h: ResGraph, p: seq<Node>, f: EdgeFlow -> EdgeFlow)
    requires SameShape(built, g) && Along(g, h, p, f) && KeepsRatings(f) && KeepsBans(f)
    ensures SameShape(built, h) && (Unbanned(g) ==> Unbanned(h))
  {
    AlongKeepsShape(g, h, p, f);
    SameShapeChain(built, g, h);
    if Unbanned(g) {
      AlongKeepsBans(g, h, p, f);
    }
  }

  lemma JoinAccounts(s: Setting, built: ResGraph, b: Books, b': Books, p: PathWithInfo, w: seq<Step>)
    requires s.Valid() && Running(s, built, b) && Joined(b, b', p) && PathKey.Join(p.path) !in b.used
    requires Walkable(s, b.g, p.dest, w) && p == RouteBy(s, p.dest, Visits(s.start, w), Cost(w))
    ensures Accounted(s.start, s.thetaL, b')
  {
    RunIsSearchable(s, built, b.g);
    FeasibleIsGood(s, b.g, p.dest, w, p);
    AddKeepsAccounts(s.start, s.thetaL, b, b'.g, p);
  }

  /** A found route joins: the books agree, and the route may be held. */
  lemma JoinKeepsRunning(s: Setting, built: ResGraph, b: Books, b': Books, p: PathWithInfo, w: seq<Step>)
    requires Running(s, built, b) && Accounted(s.start, s.thetaL, b') && Joined(b, b', p)
    requires p.dest in s.ends && Walkable(s, b.g, p.dest, w) && p == RouteBy(s, p.dest, Visits(s.start, w), Cost(w))
    ensures Running(s, built, b') && (Unbanned(b.g) ==> Unbanned(b'.g))
  {
    assert Held(s, built, p) by {
      FeasibleTraces(s, built, b.g, p.dest, w);
    }
    FilledKeepsRatings();
    FlowKeepsShape(built, b.g, b'.g, p.path, Filled);
    Sorting.SnocMembers(b.paths, p);
  }

  /** Taking up a found route. */
  method Take(s: Setting, ghost built: ResGraph, b0: Books, p: PathWithInfo, ghost w: seq<Step>) returns (b: Books)
    requires Running(s, built, b0) && GoodPath(s.start, s.thetaL, p)
    requires p.dest in s.ends && Walkable(s, b0.g, p.dest, w) && p == RouteBy(s, p.dest, Visits(s.start, w), Cost(w))
    requires PathKey.Join(p.path) !in b0.used
    ensures Running(s, built, b) && Joined(b0, b, p)
    ensures Unbanned(b0.g) ==> Unbanned(b.g)
  {
    b := AddRoute(s.start, s.thetaL, b0, p);
    JoinKeepsRunning(s, built, b0, b, p, w);
  }

  /** Letting the oldest route go. */
  method Drop(s: Setting, ghost built: ResGraph, b0: Books) returns (b: Books)
    requires Running(s, built, b0) && b0.paths != []
    ensures Running(s, built, b) && OldestLeft(b0, b)
    ensures Unbanned(b0.g) ==> Unbanned(b.g)
  {
    b := RemoveOldest(s.start, s.thetaL, b0);
    FilledKeepsRatings();
    FlowKeepsShape(built, b0.g, b.g, b0.paths[0].path, Released);
  }
}
