/**
 The other half of the condition on crossing edges: where one is harmful, destinations and
 latency bounds exist for which the solver holds a route that is no path, or one whose latency
 is not the true one. Together with the promises along runs this makes the condition exact.
 */
module MisleadingRuns {
  import opened NetworkGraph
  import opened KShortest
  import opened FlowSearch
  import opened FlowAccounting
  import opened Carousel
  import opened Coverage
  import opened RouteFinding
  import opened InitialRoutes
  import opened ReportedLatency
  import opened Crossings
  import opened CarouselTurns
  import opened FlowSolver
  import opened TrustedRuns
  import opened CompleteRuns
  import opened CheapestWalks
  import PathKey

  // ---------- Settings written down ----------

  ghost function TableOf(edges: seq<Edge>): map<string, real> {
    if edges == [] then map[] else
    var e := edges[|edges| - 1];
    TableOf(edges[..|edges| - 1])[EdgeKey(e.source, e.destination) := e.latency]
  }

  lemma {:induction false} TableIsRight(edges: seq<Edge>)
    requires GoodEdges(edges)
    ensures Latencies(edges, TableOf(edges))
  {
    if edges != [] {
      var n := |edges| - 1;
      GoodPrefix(edges, n);
      TableIsRight(edges[..n]);
      assert edges == edges[..n] + [edges[n]];
      LatenciesOneMore(edges[..n], edges[n], TableOf(edges[..n]));
    }
  }

  ghost function GraphOf(edges: seq<Edge>, uhot: real, cap: real): ResGraph {
    if edges == [] then map[] else
    var e := edges[|edges| - 1];
    Place(GraphOf(edges[..|edges| - 1], uhot, cap), e.source, e.destination, FreshEdge(e.load, uhot, cap))
  }

  lemma {:induction false} GraphIsIdle(edges: seq<Edge>, uhot: real, cap: real)
    ensures Idle(GraphOf(edges, uhot, cap))
  {
    if edges != [] {
      var n := |edges| - 1;
      GraphIsIdle(edges[..n], uhot, cap);
      var e := edges[n];
      IdleOneMore(GraphOf(edges[..n], uhot, cap), e.source, e.destination, FreshEdge(e.load, uhot, cap));
    }
  }

  lemma FreshIsRated(e: Edge, uhot: real, cap: real)
    ensures Rated(FreshEdge(e.load, uhot, cap), e, uhot, cap)
  {
  }

  lemma GraphOneMore(front: seq<Edge>, e: Edge, uhot: real, cap: real)
    requires GoodEdges(front + [e]) && Shaped(front, uhot, cap, GraphOf(front, uhot, cap))
    ensures Shaped(front + [e], uhot, cap, GraphOf(front + [e], uhot, cap))
  {
    FreshIsRated(e, uhot, cap);
    ShapedOneMore(front, e, uhot, cap, GraphOf(front, uhot, cap), FreshEdge(e.load, uhot, cap));
    assert (front + [e])[..|front|] == front;
  }

  lemma {:induction false} GraphIsShaped(edges: seq<Edge>, uhot: real, cap: real)
    requires GoodEdges(edges)
    ensures Shaped(edges, uhot, cap, GraphOf(edges, uhot, cap))
  {
    if edges != [] {
      var n := |edges| - 1;
      GoodPrefix(edges, n);
      GraphIsShaped(edges[..n], uhot, cap);
      assert edges == edges[..n] + [edges[n]];
      GraphOneMore(edges[..n], edges[n], uhot, cap);
    }
  }

  // ---------- Walks that stay open ----------

  /** Books with room for one more route on every edge. */
  ghost predicate Roomy(s: Setting, built: ResGraph, b: Books) {
    && s.Valid() && SafeLoads(s.edges) && Provisioned(s.edges, s.Cap(), built)
    && Running(s, built, b) && Unbanned(b.g) && |b.paths| as real < s.Cap()
  }

  lemma RoomyCarries(s: Setting, built: ResGraph, b: Books)
    requires Roomy(s, built, b)
    ensures Carries(s.NetOf(b.g), Adjacency(s.edges))
  {
    SafeLoadsAreOpen(s.edges, s.Cap(), built, b.g, b.paths);
    OpenCarries(s.edges, s.NetOf(b.g));
  }

  /** The search may return these hops at this price. */
  ghost predicate Standing(s: Setting, b: Books, end: Node, hops: seq<Node>, price: real) {
    exists w :: Walkable(s, b.g, end, w) && Visits(s.start, w) == hops && Cost(w) == price
  }

  lemma PathStandsIn(s: Setting, b: Books, p: seq<Node>)
    requires Carries(s.NetOf(b.g), Adjacency(s.edges))
    requires IsWalk(Adjacency(s.edges), p) && Simple(p) && p[0] == s.start && |p| <= MAX_HOPS
    requires Length(Adjacency(s.edges), p, ByLatency) <= ThetaLOf(s.thetaL, p[|p| - 1])
    ensures Standing(s, b, p[|p| - 1], p, Length(Adjacency(s.edges), p, ByLatency))
  {
    ForwardWalk(Adjacency(s.edges), s.NetOf(b.g), p);
    assert Walkable(s, b.g, p[|p| - 1], Forward(s.NetOf(b.g), p));
  }

  lemma PathStands(s: Setting, built: ResGraph, b: Books, p: seq<Node>)
    requires Roomy(s, built, b) && IsWalk(Adjacency(s.edges), p) && Simple(p) && p[0] == s.start && |p| <= MAX_HOPS
    requires Length(Adjacency(s.edges), p, ByLatency) <= ThetaLOf(s.thetaL, p[|p| - 1])
    ensures Standing(s, b, p[|p| - 1], p, Length(Adjacency(s.edges), p, ByLatency))
  {
    RoomyCarries(s, built, b);
    PathStandsIn(s, b, p);
  }

  lemma {:induction false} HeldIsTraversed(ps: seq<PathWithInfo>, r: PathWithInfo, u: Node, v: Node)
    requires r in ps && Uses(r.path, u, v)
    ensures Traversals(ps, u, v) > 0
  {
    if r != ps[0] {
      HeldIsTraversed(ps[1..], r, u, v);
    }
  }

  /** Against an edge that a held route takes. */
  lemma BackIsOffered(s: Setting, built: ResGraph, b: Books, r: PathWithInfo, u: Node, v: Node)
    requires Roomy(s, built, b) && r in b.paths && Uses(r.path, u, v)
    requires u != v && HasEdge(Adjacency(s.edges), u, v)
    ensures s.NetOf(b.g).Offers(v, Step(u, 0.0, true))
  {
    HeldIsTraversed(b.paths, r, u, v);
    BuiltIsNetwork(s, built, u, v);
    assert s.NetOf(b.g).Has(u, v);
    var e :| e in s.edges && e.source == u && e.destination == v;
  }

  lemma BackWalk(g: Graph, n: Net, q: seq<Node>, u: Node)
    requires Carries(n, g) && IsWalk(g, q) && Simple(q) && u !in q && n.Offers(q[|q| - 1], Step(u, 0.0, true))
    ensures var w := Forward(n, q) + [Step(u, 0.0, true)];
            ResidualWalk(n, q[0], w) && Visits(q[0], w) == q + [u] && Cost(w) == Length(g, q, ByLatency)
  {
    ForwardWalk(g, n, q);
    GrowResidualWalk(n, q[0], Forward(n, q), Step(u, 0.0, true));
  }

  lemma BackStandsIn(s: Setting, b: Books, u: Node, v: Node, q: seq<Node>)
    requires Carries(s.NetOf(b.g), Adjacency(s.edges)) && s.NetOf(b.g).Offers(v, Step(u, 0.0, true))
    requires Approach(Adjacency(s.edges), s.start, v, u, q)
    requires Length(Adjacency(s.edges), q, ByLatency) <= ThetaLOf(s.thetaL, u)
    ensures Standing(s, b, u, q + [u], Length(Adjacency(s.edges), q, ByLatency))
  {
    var n := s.NetOf(b.g);
    BackWalk(Adjacency(s.edges), n, q, u);
    assert Walkable(s, b.g, u, Forward(n, q) + [Step(u, 0.0, true)]);
  }

  lemma BackStands(s: Setting, built: ResGraph, b: Books, r: PathWithInfo, u: Node, v: Node, q: seq<Node>)
    requires Roomy(s, built, b) && r in b.paths && Uses(r.path, u, v) && HasEdge(Adjacency(s.edges), u, v)
    requires Approach(Adjacency(s.edges), s.start, v, u, q)
    requires Length(Adjacency(s.edges), q, ByLatency) <= ThetaLOf(s.thetaL, u)
    ensures Standing(s, b, u, q + [u], Length(Adjacency(s.edges), q, ByLatency))
  {
    RoomyCarries(s, built, b);
    BackIsOffered(s, built, b, r, u, v);
    BackStandsIn(s, b, u, v, q);
  }

  // ---------- Filling a destination with a given route ----------

  /** Books in order, without bans, of a run whose destinations are all known. */
  ghost predicate Calm(s: Setting, built: ResGraph, b: Books) {
    ValidForAll(s) && Running(s, built, b) && Unbanned(b.g)
  }

  /** The route that walk w makes joins. */
  lemma JoinBy(s: Setting, built: ResGraph, b: Books, end: Node, attempt: nat, w: seq<Step>) returns (b': Books)
    requires Calm(s, built, b) && end in s.ends && !InUse(s, b.used, w)
    requires Finds(s, b.g, b.used, attempt, RouteBy(s, end, Visits(s.start, w), Cost(w)), w)
    ensures FoundNext(s, b, b', end, attempt) && Calm(s, built, b')
    ensures Joined(b, b', RouteBy(s, end, Visits(s.start, w), Cost(w)))
  {
    var p := RouteBy(s, end, Visits(s.start, w), Cost(w));
    b' := WithRoute(b, p);
    assert ValidFor(s, end);
    JoinAccounts(s, built, b, b', p, w);
    JoinKeepsRunning(s, built, b, b', p, w);
  }

  lemma StartsOut(s: Setting, built: ResGraph, b: Books, end: Node, w: seq<Step>)
    requires Running(s, built, b) && Walkable(s, b.g, end, w) && end != s.start
    ensures s.start in b.g
  {
    assert s.NetOf(b.g).Offers(Visits(s.start, w)[0], w[0]);
    ForwardFirst(s, built, b, w[0]);
  }

  /** No step against an edge leaves the start, since no route comes back to it. */
  lemma ForwardFirst(s: Setting, built: ResGraph, b: Books, st: Step)
    requires Running(s, built, b) && s.NetOf(b.g).Offers(s.start, st)
    ensures !st.reverse && s.start in b.g
  {
    if st.reverse {
      var p := TraversedBy(b.paths, st.to, s.start);
      assert GoodPath(s.start, s.thetaL, p);
      var j := UsesAt(p.path, st.to, s.start);
    }
  }

  lemma FoundFirst(s: Setting, b: Books, c: Books, end: Node)
    requires FoundNext(s, b, c, end, 1)
    ensures Found(s, b, c, end, 1)
  {
    FoundNone(s, b, end);
    FoundOneMore(s, b, b, c, end, 0);
  }

  lemma FoundSecond(s: Setting, b: Books, c: Books, b': Books, end: Node)
    requires Found(s, b, c, end, 1) && FoundNext(s, c, b', end, 2)
    ensures Found(s, b, b', end, 2)
  {
    FoundOneMore(s, b, c, b', end, 1);
  }

  /** The first route: a cheapest one. */
  lemma FirstOf(s: Setting, built: ResGraph, b: Books, end: Node, hops: seq<Node>, price: real)
    returns (b': Books, w: seq<Step>)
    requires Calm(s, built, b) && end in s.ends && end != s.start && Standing(s, b, end, hops, price)
    requires forall x :: x in b.paths ==> x.dest != end
    ensures Found(s, b, b', end, 1) && Calm(s, built, b') && Findable(s, b, end)
    ensures b'.paths == b.paths + [RouteBy(s, end, Visits(s.start, w), Cost(w))] && Cost(w) <= price
    ensures b'.used == b.used + {PathKey.Join(Visits(s.start, w))} && PathKey.Join(hops) !in b.used
    ensures PathKey.ArrowFree(hops) && PathKey.ArrowFree(Visits(s.start, w)) && s.start in b.g
  {
    var x :| Walkable(s, b.g, end, x) && Visits(s.start, x) == hops && Cost(x) == price;
    assert ValidFor(s, end);
    StartsOut(s, built, b, end, x);
    WalkableIsUnused(s, built, b, end, x);
    w := CheapestExists(s, b.g, b.used, end, x);
    WalkableIsUnused(s, built, b, end, w);
    b' := JoinBy(s, built, b, end, 1, w);
    FoundFirst(s, b, b', end);
  }

  /** A later one: the given route. */
  lemma SecondOf(s: Setting, built: ResGraph, b: Books, end: Node, hops: seq<Node>, price: real) returns (b': Books)
    requires Calm(s, built, b) && end in s.ends && s.start in b.g && Standing(s, b, end, hops, price)
    requires PathKey.Join(hops) !in b.used
    ensures FoundNext(s, b, b', end, 2) && Calm(s, built, b')
    ensures b'.paths == b.paths + [RouteBy(s, end, hops, price)]
  {
    var w :| Walkable(s, b.g, end, w) && Visits(s.start, w) == hops && Cost(w) == price;
    b' := JoinBy(s, built, b, end, 2, w);
  }

  /** The hops stay open while further routes join. */
  ghost predicate StandsOn(s: Setting, built: ResGraph, b: Books, end: Node, hops: seq<Node>, price: real) {
    forall c: Books {:trigger Standing(s, c, end, hops, price)} ::
      b.paths <= c.paths && Calm(s, built, c) && |c.paths| as real < s.Cap() ==> Standing(s, c, end, hops, price)
  }

  /** One route added. */
  ghost predicate OneAdded(s: Setting, built: ResGraph, b: Books, c: Books, end: Node, r: PathWithInfo) {
    && Found(s, b, c, end, 1) && Findable(s, b, end) && Calm(s, built, c) && s.start in c.g
    && r.dest == end && c.paths == b.paths + [r] && c.used == b.used + {PathKey.Join(r.path)}
  }

  lemma AddFirst(s: Setting, built: ResGraph, b: Books, end: Node, hops: seq<Node>, price: real)
    returns (c: Books, r: PathWithInfo)
    requires Calm(s, built, b) && end in s.ends && end != s.start
    requires Standing(s, b, end, hops, price) && forall x :: x in b.paths ==> x.dest != end
    ensures OneAdded(s, built, b, c, end, r) && r.latency <= price
    ensures PathKey.Join(hops) in c.used ==> r.path == hops
  {
    var w;
    c, w := FirstOf(s, built, b, end, hops, price);
    r := RouteBy(s, end, Visits(s.start, w), Cost(w));
    PathKey.KeysInjective(hops, r.path);
  }

  lemma FilledByOne(s: Setting, built: ResGraph, b: Books, c: Books, end: Node, r: PathWithInfo, price: real)
    requires OneAdded(s, built, b, c, end, r) && Standing(s, c, end, r.path, price)
    ensures FilledAt(s, b, c, end)
  {
    var w :| Walkable(s, c.g, end, w) && Visits(s.start, w) == r.path && Cost(w) == price;
    assert InUse(s, c.used, w);
    assert FilledBy(s, b, c, end, 1);
  }

  lemma FilledByTwo(s: Setting, built: ResGraph, b: Books, c: Books, end: Node, r: PathWithInfo, hops: seq<Node>,
                    price: real)
    returns (b': Books)
    requires OneAdded(s, built, b, c, end, r) && end in s.ends
    requires Standing(s, c, end, hops, price) && PathKey.Join(hops) !in c.used
    ensures FilledAt(s, b, b', end) && Calm(s, built, b')
    ensures b'.paths == c.paths + [RouteBy(s, end, hops, price)]
  {
    b' := SecondOf(s, built, c, end, hops, price);
    FoundSecond(s, b, c, b', end);
    assert FilledBy(s, b, b', end, 2);
  }

  /** Books filled from b for one destination, with r among them. */
  ghost predicate FilledWith(s: Setting, built: ResGraph, b: Books, b': Books, end: Node, r: PathWithInfo) {
    && FilledAt(s, b, b', end) && Calm(s, built, b')
    && b.paths <= b'.paths && |b'.paths| <= |b.paths| + FLOWS_PER_DEST && r in b'.paths
    && forall i :: |b.paths| <= i < |b'.paths| ==> b'.paths[i].dest == end
  }

  lemma OneIsFilled(s: Setting, built: ResGraph, b: Books, c: Books, end: Node, r: PathWithInfo, price: real)
    requires OneAdded(s, built, b, c, end, r) && Standing(s, c, end, r.path, price)
    ensures FilledWith(s, built, b, c, end, r)
  {
    FilledByOne(s, built, b, c, end, r, price);
    assert c.paths[|b.paths|] == r;
  }

  lemma TwoAreFilled(s: Setting, built: ResGraph, b: Books, c: Books, end: Node, r: PathWithInfo, hops: seq<Node>,
                     price: real)
    returns (b': Books)
    requires OneAdded(s, built, b, c, end, r) && end in s.ends
    requires Standing(s, c, end, hops, price) && PathKey.Join(hops) !in c.used
    ensures FilledWith(s, built, b, b', end, RouteBy(s, end, hops, price))
  {
    b' := FilledByTwo(s, built, b, c, end, r, hops, price);
    TwoMore(b.paths, r, RouteBy(s, end, hops, price), b'.paths);
  }

  lemma TwoMore(ps: seq<PathWithInfo>, r: PathWithInfo, t: PathWithInfo, all: seq<PathWithInfo>)
    requires all == ps + [r] + [t] && r.dest == t.dest
    ensures ps <= all && |all| == |ps| + 2 && t in all && forall i :: |ps| <= i < |all| ==> all[i].dest == t.dest
  {
    assert all[|ps| + 1] == t;
  }

  /** Some way to fill a destination holds a route over the given hops at no more than their price. */
  lemma FillWith(s: Setting, built: ResGraph, b: Books, end: Node, hops: seq<Node>, price: real)
    returns (b': Books, r: PathWithInfo)
    requires Calm(s, built, b) && (|b.paths| + 1) as real < s.Cap() && end in s.ends && end != s.start
    requires StandsOn(s, built, b, end, hops, price) && forall x :: x in b.paths ==> x.dest != end
    ensures FilledWith(s, built, b, b', end, r) && r.path == hops && r.latency <= price
  {
    assert Standing(s, b, end, hops, price);
    var c;
    c, r := AddFirst(s, built, b, end, hops, price);
    assert Standing(s, c, end, hops, price);
    if PathKey.Join(hops) in c.used {
      b' := c;
      OneIsFilled(s, built, b, c, end, r, price);
    } else {
      b' := TwoAreFilled(s, built, b, c, end, r, hops, price);
      r := RouteBy(s, end, hops, price);
    }
  }

  // ---------- The misleading request ----------

  /** A run on these edges from this start, with bounds within the promise's limit. */
  ghost predicate Asked(edges: seq<Edge>, start: Node, pr: Promise, s: Setting, built: ResGraph) {
    && s.Valid() && s.edges == edges && s.start == start && Bounded(s, pr)
    && Idle(built) && Provisioned(edges, s.Cap(), built)
  }

  /** Destinations v and u, both with the same latency bound. */
  ghost function Tour(edges: seq<Edge>, start: Node, u: Node, v: Node, bound: real): Setting {
    Setting(edges, EndPoints(edges), TableOf(edges), start, [v, u], map[v := bound, u := bound])
  }

  lemma WalkEndsAtNode(edges: seq<Edge>, u: Node, v: Node)
    requires GoodEdges(edges) && HasEdge(Adjacency(edges), u, v)
    ensures u in EndPoints(edges) && v in EndPoints(edges)
  {
    AdjacencyWellFormed(edges, ByLatency);
    var e :| e in edges && e.source == u && e.destination == v;
  }

  lemma TourIsValid(edges: seq<Edge>, start: Node, u: Node, v: Node, bound: real)
    requires GoodEdges(edges) && NonNegativeEdges(edges, ByLatency) && start in EndPoints(edges)
    requires HasEdge(Adjacency(edges), u, v)
    ensures Tour(edges, start, u, v, bound).Valid()
  {
    TableIsRight(edges);
    WalkEndsAtNode(edges, u, v);
  }

  lemma GraphIsProvided(edges: seq<Edge>, cap: real)
    requires GoodEdges(edges) && cap >= 0.0
    ensures Idle(GraphOf(edges, 0.0, cap)) && Provisioned(edges, cap, GraphOf(edges, 0.0, cap))
  {
    GraphIsShaped(edges, 0.0, cap);
    GraphIsIdle(edges, 0.0, cap);
    ShapedIsProvisioned(edges, 0.0, cap, GraphOf(edges, 0.0, cap));
  }

  lemma TourIsAsked(edges: seq<Edge>, start: Node, pr: Promise, u: Node, v: Node, bound: real)
    requires GoodEdges(edges) && NonNegativeEdges(edges, ByLatency) && start in EndPoints(edges)
    requires HasEdge(Adjacency(edges), u, v) && (pr.Truth? ==> bound <= pr.limit < BANNED_PENALTY)
    ensures Asked(edges, start, pr, Tour(edges, start, u, v, bound), GraphOf(edges, 0.0, 4.0))
  {
    TourIsValid(edges, start, u, v, bound);
    GraphIsProvided(edges, 4.0);
  }

  /** A network with room on every edge. */
  ghost predicate Ample(s: Setting, built: ResGraph) {
    s.Valid() && SafeLoads(s.edges) && Provisioned(s.edges, s.Cap(), built)
  }

  lemma PathStandsOn(s: Setting, built: ResGraph, b: Books, p: seq<Node>)
    requires s.Valid() && SafeLoads(s.edges) && Provisioned(s.edges, s.Cap(), built)
    requires IsWalk(Adjacency(s.edges), p) && Simple(p) && p[0] == s.start && |p| <= MAX_HOPS
    requires Length(Adjacency(s.edges), p, ByLatency) <= ThetaLOf(s.thetaL, p[|p| - 1])
    ensures StandsOn(s, built, b, p[|p| - 1], p, Length(Adjacency(s.edges), p, ByLatency))
  {
    forall c: Books | b.paths <= c.paths && Calm(s, built, c) && |c.paths| as real < s.Cap() {
      PathStands(s, built, c, p);
    }
  }

  lemma BackStandsOn(s: Setting, built: ResGraph, b: Books, r: PathWithInfo, u: Node, v: Node, q: seq<Node>)
    requires s.Valid() && SafeLoads(s.edges) && Provisioned(s.edges, s.Cap(), built)
    requires r in b.paths && Uses(r.path, u, v) && HasEdge(Adjacency(s.edges), u, v)
    requires Approach(Adjacency(s.edges), s.start, v, u, q)
    requires Length(Adjacency(s.edges), q, ByLatency) <= ThetaLOf(s.thetaL, u)
    ensures StandsOn(s, built, b, u, q + [u], Length(Adjacency(s.edges), q, ByLatency))
  {
    forall c: Books | b.paths <= c.paths && Calm(s, built, c) && |c.paths| as real < s.Cap() {
      BackStands(s, built, c, r, u, v, q);
    }
  }

  /** A destination filled with a path to it. */
  lemma FillPath(s: Setting, built: ResGraph, b: Books, p: seq<Node>) returns (b': Books, r: PathWithInfo)
    requires Ample(s, built) && Calm(s, built, b) && (|b.paths| + 1) as real < s.Cap()
    requires IsWalk(Adjacency(s.edges), p) && Simple(p) && p[0] == s.start && |p| <= MAX_HOPS
    requires p[|p| - 1] in s.ends && p[|p| - 1] != s.start && forall x :: x in b.paths ==> x.dest != p[|p| - 1]
    requires Length(Adjacency(s.edges), p, ByLatency) <= ThetaLOf(s.thetaL, p[|p| - 1])
    ensures FilledWith(s, built, b, b', p[|p| - 1], r) && r.path == p
  {
    PathStandsOn(s, built, b, p);
    b', r := FillWith(s, built, b, p[|p| - 1], p, Length(Adjacency(s.edges), p, ByLatency));
  }

  /** A destination filled with a route against an edge that a held route takes. */
  lemma FillBack(s: Setting, built: ResGraph, b: Books, held: PathWithInfo, u: Node, v: Node, q: seq<Node>)
    returns (b': Books, r: PathWithInfo)
    requires Ample(s, built) && Calm(s, built, b) && (|b.paths| + 1) as real < s.Cap()
    requires held in b.paths && Uses(held.path, u, v) && HasEdge(Adjacency(s.edges), u, v)
    requires Approach(Adjacency(s.edges), s.start, v, u, q)
    requires u in s.ends && u != s.start && forall x :: x in b.paths ==> x.dest != u
    requires Length(Adjacency(s.edges), q, ByLatency) <= ThetaLOf(s.thetaL, u)
    ensures FilledWith(s, built, b, b', u, r)
    ensures r.path == q + [u] && r.latency <= Length(Adjacency(s.edges), q, ByLatency)
  {
    BackStandsOn(s, built, b, held, u, v, q);
    b', r := FillWith(s, built, b, u, q + [u], Length(Adjacency(s.edges), q, ByLatency));
  }

  lemma TwoFilled(s: Setting, built: ResGraph, b1: Books, b2: Books)
    requires |s.ends| == 2 && FilledAt(s, NoRoutes(built), b1, s.ends[0]) && FilledAt(s, b1, b2, s.ends[1])
    ensures InitialRun(s, built, [NoRoutes(built), b1, b2], b2)
  {
    var books := [NoRoutes(built), b1, b2];
    assert ChainLink(s, books, 0) && ChainLink(s, books, 1);
  }

  lemma CalmStart(s: Setting, built: ResGraph)
    requires s.Valid() && EdgesOnly(s.edges, built) && Idle(built)
    ensures Calm(s, built, NoRoutes(built))
  {
    FillingStart(s, built);
  }

  /** The path over a crossing edge. */
  lemma OverTheEdge(g: Graph, s: Node, u: Node, v: Node, p: seq<Node>, q: seq<Node>)
    requires Crossing(g, s, u, v, p, q)
    ensures var x := p + [v];
            && IsWalk(g, x) && Simple(x) && x[0] == s && |x| <= MAX_HOPS && Uses(x, u, v) && u != s && v != s && u != v
            && Length(g, x, ByLatency) == Length(g, p, ByLatency) + Weight(g, u, v, ByLatency)
  {
    WalkSnoc(g, p, v, ByLatency);
    assert (p + [v])[|p| - 1] == u && (p + [v])[|p|] == v;
    assert u != s by {
      assert q[0] in q;
    }
    assert v != s by {
      assert p[0] in p;
    }
    assert u != v by {
      assert p[|p| - 1] in p;
    }
  }

  /** The first destination of a tour, filled over the edge. */
  lemma HoldsOver(s: Setting, built: ResGraph, u: Node, v: Node, p: seq<Node>, q: seq<Node>)
    returns (b: Books, held: PathWithInfo)
    requires Ample(s, built) && Idle(built) && s.ends == [v, u]
    requires Crossing(Adjacency(s.edges), s.start, u, v, p, q)
    requires var g := Adjacency(s.edges);
             Length(g, p, ByLatency) + Weight(g, u, v, ByLatency) <= ThetaLOf(s.thetaL, v)
    ensures FilledWith(s, built, NoRoutes(built), b, v, held) && Uses(held.path, u, v)
  {
    OverTheEdge(Adjacency(s.edges), s.start, u, v, p, q);
    CalmStart(s, built);
    b, held := FillPath(s, built, NoRoutes(built), p + [v]);
  }

  lemma QuotaAfterFill(s: Setting, built: ResGraph, b: Books, b': Books, end: Node, r: PathWithInfo)
    requires FilledWith(s, built, b, b', end, r) && WithinQuota(b.paths) && forall x :: x in b.paths ==> x.dest != end
    ensures WithinQuota(b'.paths)
  {
    NoRoutesTo(b.paths, end);
    forall d
      ensures RoutesTo(b'.paths, d) <= FLOWS_PER_DEST
    {
      FillCounts(b.paths, b'.paths, end, d);
    }
  }

  lemma OtherDests(s: Setting, built: ResGraph, b: Books, end: Node, r: PathWithInfo, other: Node)
    requires FilledWith(s, built, NoRoutes(built), b, end, r) && other != end
    ensures forall x :: x in b.paths ==> x.dest != other
  {
    forall x | x in b.paths
      ensures x.dest == end
    {
      var i :| 0 <= i < |b.paths| && b.paths[i] == x;
    }
  }

  /** What a crossing edge makes possible: a held route against it. */
  lemma HoldsBack(s: Setting, built: ResGraph, u: Node, v: Node, p: seq<Node>, q: seq<Node>)
    returns (books: seq<Books>, b: Books, r: PathWithInfo)
    requires Ample(s, built) && Idle(built) && s.ends == [v, u]
    requires Crossing(Adjacency(s.edges), s.start, u, v, p, q)
    requires var g := Adjacency(s.edges);
             && Length(g, p, ByLatency) + Weight(g, u, v, ByLatency) <= ThetaLOf(s.thetaL, v)
             && Length(g, q, ByLatency) <= ThetaLOf(s.thetaL, u)
    ensures InitialRun(s, built, books, b) && Steady(s, built, b, |b.paths|) && r in b.paths
    ensures r.path == q + [u] && r.latency <= Length(Adjacency(s.edges), q, ByLatency)
  {
    OverTheEdge(Adjacency(s.edges), s.start, u, v, p, q);
    var b1, held := HoldsOver(s, built, u, v, p, q);
    OtherDests(s, built, b1, v, held, u);
    QuotaAfterFill(s, built, NoRoutes(built), b1, v, held);
    b, r := FillBack(s, built, b1, held, u, v, q);
    QuotaAfterFill(s, built, b1, b, u, r);
    TwoFilled(s, built, b1, b);
    books := [NoRoutes(built), b1, b];
  }

  /** A route against a harmful edge breaks the promise. */
  lemma HarmfulBreaks(s: Setting, pr: Promise, u: Node, v: Node, q: seq<Node>, r: PathWithInfo)
    requires s.Valid() && Approach(Adjacency(s.edges), s.start, v, u, q) && !Harmless(Adjacency(s.edges), pr, u, v)
    requires r.path == q + [u] && r.latency <= Length(Adjacency(s.edges), q, ByLatency)
    ensures !Keeps(s, pr, r)
  {
    AdjacencyWellFormed(s.edges, ByLatency);
    WalkSnoc(Adjacency(s.edges), q, u, ByLatency);
  }

  /** A complete run: the destinations filled in order, and the turns of the carousel to their end. */
  ghost predicate CompleteRun(s: Setting, built: ResGraph, books: seq<Books>, states: seq<State>) {
    CarouselRun(s, built, states) && Finished(states) && InitialRun(s, built, books, states[0].b)
  }

  ghost predicate KeptThroughout(s: Setting, pr: Promise, states: seq<State>) {
    forall k :: 0 <= k < |states| ==> AllKeep(s, pr, states[k].b.paths)
  }

  /** Whatever the destinations and bounds, every state of every complete run keeps the promise. */
  ghost predicate AlwaysKept(edges: seq<Edge>, start: Node, pr: Promise) {
    forall s, built, books, states ::
      Asked(edges, start, pr, s, built) && CompleteRun(s, built, books, states) ==> KeptThroughout(s, pr, states)
  }

  ghost function Max(a: real, b: real): real {
    if a < b then b else a
  }

  /** A harmful crossing edge: a request whose solution breaks the promise. */
  lemma HarmfulMisleads(edges: seq<Edge>, start: Node, pr: Promise, u: Node, v: Node)
    requires GoodEdges(edges) && NonNegativeEdges(edges, ByLatency) && SafeLoads(edges) && start in EndPoints(edges)
    requires pr.Truth? ==> pr.limit < BANNED_PENALTY
    requires Crosses(Adjacency(edges), start, pr, u, v) && !Harmless(Adjacency(edges), pr, u, v)
    ensures !AlwaysKept(edges, start, pr)
  {
    var g := Adjacency(edges);
    var p, q :| Crossing(g, start, u, v, p, q) && Within(g, pr, u, v, p, q);
    var bound := Max(Length(g, p, ByLatency) + Weight(g, u, v, ByLatency), Length(g, q, ByLatency));
    var s, built := Tour(edges, start, u, v, bound), GraphOf(edges, 0.0, 4.0);
    TourIsAsked(edges, start, pr, u, v, bound);
    var books, b, r := HoldsBack(s, built, u, v, p, q);
    HarmfulBreaks(s, pr, u, v, q, r);
    var states := RunExists(s, built, b);
    assert CompleteRun(s, built, books, states) && !AllKeep(s, pr, states[0].b.paths);
  }

  lemma SafeIsKept(edges: seq<Edge>, start: Node, pr: Promise, s: Setting, built: ResGraph, books: seq<Books>,
                   states: seq<State>)
    requires Safe(Adjacency(edges), start, pr) && Asked(edges, start, pr, s, built)
    requires CompleteRun(s, built, books, states)
    ensures KeptThroughout(s, pr, states)
  {
    assert Allowed(s, built, pr);
    InitialIsTrusty(s, built, pr, books, states[0].b);
    forall k | 0 <= k < |states| {
      RunKeeps(s, built, pr, states, k);
    }
  }

  /**
   Under safe loads the condition on crossing edges is exact: whatever the destinations and the
   bounds within the limit, all routes in all states of all complete runs keep the promise, if and
   only if every crossing edge is harmless.
   */
  lemma KeptIffSafe(edges: seq<Edge>, start: Node, pr: Promise)
    requires GoodEdges(edges) && NonNegativeEdges(edges, ByLatency) && SafeLoads(edges) && start in EndPoints(edges)
    requires pr.Truth? ==> pr.limit < BANNED_PENALTY
    ensures AlwaysKept(edges, start, pr) <==> Safe(Adjacency(edges), start, pr)
  {
    if Safe(Adjacency(edges), start, pr) {
      forall s, built, books, states | Asked(edges, start, pr, s, built) && CompleteRun(s, built, books, states) {
        SafeIsKept(edges, start, pr, s, built, books, states);
      }
    } else {
      var u, v :| Crosses(Adjacency(edges), start, pr, u, v) && !Harmless(Adjacency(edges), pr, u, v);
      HarmfulMisleads(edges, start, pr, u, v);
    }
  }
}
