/**
 The request on the diamond carried through: both routes are found while T is filled, no later
 state scores as high, and the answer holds S, B, A, T, which is no path of the network.
 */
module DiamondRun {
  import opened NetworkGraph
  import opened KShortest
  import opened FlowSearch
  import opened FlowAccounting
  import opened FlowObjective
  import opened Carousel
  import opened Coverage
  import opened RouteFinding
  import opened InitialRoutes
  import opened CarouselTurns
  import opened FlowSolver
  import opened CompleteRuns
  import opened MisleadingRuns
  import opened Diamond
  import opened ScoreBounds
  import PathKey

  // ---------- Both routes are found ----------

  lemma AlongUnique(g: ResGraph, h: ResGraph, h': ResGraph, p: seq<Node>, f: EdgeFlow -> EdgeFlow)
    requires Along(g, h, p, f) && Along(g, h', p, f)
    ensures h == h'
  {
    forall u | u in g
      ensures h[u] == h'[u]
    {
      assert forall v :: v in g[u] ==> h[u][v] == h'[u][v];
    }
  }

  lemma JoinedGraph(b: Books, b': Books, p: PathWithInfo, h: ResGraph)
    requires Joined(b, b', p) && Along(b.g, h, p.path, Filled)
    ensures b'.g == h
  {
    AlongUnique(b.g, b'.g, h, p.path, Filled);
  }

  /** A found walk joins, and the graph becomes h. */
  lemma JoinTo(s: Setting, built: ResGraph, b: Books, h: ResGraph, end: Node, attempt: nat, w: seq<Step>)
    returns (b': Books)
    requires Calm(s, built, b) && end in s.ends && !InUse(s, b.used, w)
    requires Finds(s, b.g, b.used, attempt, RouteBy(s, end, Visits(s.start, w), Cost(w)), w)
    requires Along(b.g, h, Visits(s.start, w), Filled)
    ensures FoundNext(s, b, b', end, attempt) && Calm(s, built, b') && b'.g == h
    ensures Joined(b, b', RouteBy(s, end, Visits(s.start, w), Cost(w)))
  {
    b' := JoinBy(s, built, b, end, attempt, w);
    JoinedGraph(b, b', RouteBy(s, end, Visits(s.start, w), Cost(w)), h);
  }

  ghost function RouteOf(s: Setting, end: Node, w: seq<Step>): PathWithInfo {
    RouteBy(s, end, Visits(s.start, w), Cost(w))
  }

  lemma FirstWalk(s: Setting, built: ResGraph, b: Books, h: ResGraph, end: Node, w: seq<Step>) returns (c: Books)
    requires Calm(s, built, b) && end in s.ends && b.used == {} && Finds(s, b.g, {}, 1, RouteOf(s, end, w), w)
    requires Along(b.g, h, Visits(s.start, w), Filled)
    ensures Found(s, b, c, end, 1) && Calm(s, built, c) && c.g == h
    ensures c.paths == b.paths + [RouteOf(s, end, w)] && c.used == {PathKey.Join(Visits(s.start, w))}
  {
    c := JoinTo(s, built, b, h, end, 1, w);
    FoundFirst(s, b, c, end);
  }

  lemma SecondWalk(s: Setting, built: ResGraph, b: Books, c: Books, h: ResGraph, end: Node, x: seq<Step>)
    returns (b': Books)
    requires Found(s, b, c, end, 1) && Calm(s, built, c) && c.g == h && end in s.ends
    requires s.start in h && Walkable(s, h, end, x) && !InUse(s, c.used, x)
    ensures Found(s, b, b', end, 2) && Calm(s, built, b') && b'.paths == c.paths + [RouteOf(s, end, x)]
  {
    b' := JoinBy(s, built, c, end, 2, x);
    FoundSecond(s, b, c, b', end);
  }

  /** Two walks found one after the other fill a destination. */
  lemma TwoWalksFill(s: Setting, built: ResGraph, b: Books, h: ResGraph, end: Node, w: seq<Step>, x: seq<Step>)
    returns (b': Books)
    requires Calm(s, built, b) && end in s.ends && s.start in h && b.used == {}
    requires Finds(s, b.g, {}, 1, RouteOf(s, end, w), w)
    requires Along(b.g, h, Visits(s.start, w), Filled)
    requires Walkable(s, h, end, x) && PathKey.Join(Visits(s.start, x)) != PathKey.Join(Visits(s.start, w))
    ensures Found(s, b, b', end, 2) && Calm(s, built, b')
    ensures b'.paths == b.paths + [RouteOf(s, end, w)] + [RouteOf(s, end, x)]
  {
    var c := FirstWalk(s, built, b, h, end, w);
    assert InUse(s, c.used, x) <==> PathKey.Join(Visits(s.start, x)) == PathKey.Join(Visits(s.start, w));
    b' := SecondWalk(s, built, b, c, h, end, x);
  }

  lemma OneFilled(s: Setting, built: ResGraph, b: Books, w: seq<Step>)
    requires |s.ends| == 1 && s.start in built && Found(s, NoRoutes(built), b, s.ends[0], 2)
    requires Walkable(s, built, s.ends[0], w)
    ensures FilledBy(s, NoRoutes(built), b, s.ends[0], 2) && InitialRun(s, built, [NoRoutes(built), b], b)
  {
    assert !InUse(s, NoRoutes(built).used, w);
    assert FilledBy(s, NoRoutes(built), b, s.ends[0], 2);
    assert ChainLink(s, [NoRoutes(built), b], 0);
  }

  /** A single destination filled by two walks. */
  lemma FilledByWalks(s: Setting, built: ResGraph, h: ResGraph, end: Node, w: seq<Step>, x: seq<Step>)
    returns (b: Books)
    requires Calm(s, built, NoRoutes(built)) && s.ends == [end] && s.start in h
    requires Finds(s, built, {}, 1, RouteOf(s, end, w), w) && Along(built, h, Visits(s.start, w), Filled)
    requires Walkable(s, h, end, x) && PathKey.Join(Visits(s.start, x)) != PathKey.Join(Visits(s.start, w))
    ensures FilledBy(s, NoRoutes(built), b, end, 2) && InitialRun(s, built, [NoRoutes(built), b], b)
    ensures Calm(s, built, b) && b.paths == [RouteOf(s, end, w), RouteOf(s, end, x)]
  {
    assert end == s.ends[0];
    b := TwoWalksFill(s, built, NoRoutes(built), h, end, w, x);
    OneFilled(s, built, b, w);
  }

  lemma DiamondStart()
    ensures Calm(DiamondSetting(14.5), DiamondGraph(0.0), NoRoutes(DiamondGraph(0.0)))
  {
    DiamondValid(14.5);
    DiamondDrawn();
    DiamondIdle();
    CalmStart(DiamondSetting(14.5), DiamondGraph(0.0));
  }

  function First(): PathWithInfo {
    RouteBy(DiamondSetting(14.5), "T", ["S", "A", "B", "T"], 9.0)
  }

  function Second(): PathWithInfo {
    RouteBy(DiamondSetting(14.5), "T", ["S", "B", "A", "T"], 12.0)
  }

  lemma DiamondWalks()
    ensures var s, built, h := DiamondSetting(14.5), DiamondGraph(0.0), DiamondGraph(1.0);
            && RouteOf(s, "T", LONG_ROUTE) == First() && Finds(s, built, {}, 1, First(), LONG_ROUTE)
            && Along(built, h, Visits("S", LONG_ROUTE), Filled) && s.start in h && s.start in built
            && RouteOf(s, "T", CROSSING) == Second() && Walkable(s, h, "T", CROSSING)
            && PathKey.Join(Visits("S", CROSSING)) != PathKey.Join(Visits("S", LONG_ROUTE))
  {
    LongRoute(14.5);
    FirstSearch(14.5);
    LongRouteTaken();
    Crossing(14.5);
    OtherKey();
  }

  /** Filling T may add S, A, B, T and then S, B, A, T. */
  lemma FillsT() returns (b: Books)
    ensures var s, built := DiamondSetting(14.5), DiamondGraph(0.0);
            && FilledBy(s, NoRoutes(built), b, "T", 2) && Calm(s, built, b) && b.paths == [First(), Second()]
            && InitialRun(s, built, [NoRoutes(built), b], b)
  {
    var s, built := DiamondSetting(14.5), DiamondGraph(0.0);
    DiamondStart();
    DiamondWalks();
    b := FilledByWalks(s, built, DiamondGraph(1.0), "T", LONG_ROUTE, CROSSING);
  }

  // ---------- The initial solution scores best ----------

  /** No edge is taken by both routes. */
  lemma TakenOnce(u: Node, v: Node)
    ensures Traversals([First(), Second()], u, v) <= 1
  {
    ThreeHops("S", "A", "B", "T", u, v);
    ThreeHops("S", "B", "A", "T", u, v);
    assert "S"[0] == 'S' && "A"[0] == 'A' && "B"[0] == 'B' && "T"[0] == 'T';
    assert [First(), Second()][1..] == [Second()] && [Second()][1..] == [];
    assert Traversals([Second()], u, v) == if Uses(Second().path, u, v) then 1 else 0;
  }

  lemma ThreeCongestions(g: ResGraph, a: Node, b: Node, c: Node, d: Node)
    ensures PathCongestion(g, [a, b, c, d])
            == EdgeCongestion(g, a, b) + EdgeCongestion(g, b, c) + EdgeCongestion(g, c, d)
  {
    assert [a, b, c, d][..3] == [a, b, c] && [a, b, c][..2] == [a, b] && [a, b][..1] == [a];
    assert PathCongestion(g, [a]) == 0.0;
    assert PathCongestion(g, [a, b]) == PathCongestion(g, [a, b][..1]) + EdgeCongestion(g, a, b);
    assert PathCongestion(g, [a, b, c]) == PathCongestion(g, [a, b, c][..2]) + EdgeCongestion(g, b, c);
  }

  /** Routes whose edges are all taken once, with room for two on each edge. */
  ghost predicate HalfFull(g: ResGraph, ps: seq<PathWithInfo>) {
    && FlowsMatch(g, ps) && (forall u, v :: Traversals(ps, u, v) <= 1)
    && (forall u, v :: u in g && v in g[u] ==> g[u][v].effCap == 2.0)
  }

  lemma FourNodeCongestion(g: ResGraph, ps: seq<PathWithInfo>, a: Node, b: Node, c: Node, d: Node)
    requires HalfFull(g, ps)
    ensures PathCongestion(g, [a, b, c, d]) <= 1.5
  {
    ThreeCongestions(g, a, b, c, d);
    HalfUsed(g, ps, a, b);
    HalfUsed(g, ps, b, c);
    HalfUsed(g, ps, c, d);
  }

  lemma PairScore(g: ResGraph, p: PathWithInfo, q: PathWithInfo)
    requires PathCongestion(g, p.path) <= 1.5 && PathCongestion(g, q.path) <= 1.5
    ensures Score([p, q], g) >= 17.0 - (p.latency + q.latency) * LATENCY_WEIGHT
  {
    DiversityWithin([p, q]);
    assert [p, q][..1] == [p] && [p][..0] == [];
    assert TotalLatency([p][..0]) == 0.0 && TotalCongestion(g, [p][..0]) == 0.0;
    assert TotalLatency([p]) == p.latency && TotalCongestion(g, [p]) == PathCongestion(g, p.path);
    assert TotalLatency([p, q]) == p.latency + q.latency;
    assert TotalCongestion(g, [p, q]) == PathCongestion(g, p.path) + PathCongestion(g, q.path);
  }

  lemma DiamondScore(b: Books)
    requires Running(DiamondSetting(14.5), DiamondGraph(0.0), b) && b.paths == [First(), Second()]
    ensures Score(b.paths, b.g) > 14.0
  {
    forall u, v {
      TakenOnce(u, v);
    }
    forall u, v | u in b.g && v in b.g[u]
      ensures b.g[u][v].effCap == 2.0
    {
      DiamondEdge(0.0, u, v);
    }
    FourNodeCongestion(b.g, b.paths, "S", "A", "B", "T");
    FourNodeCongestion(b.g, b.paths, "S", "B", "A", "T");
    PairScore(b.g, First(), Second());
  }

  lemma SingleStateScore(s: Setting, built: ResGraph, b: Books)
    requires s.Valid() && |s.nodes| <= 4 && Running(s, built, b) && |b.paths| == 1
    ensures Score(b.paths, b.g) <= 13.0
  {
    var p := b.paths[0];
    assert b.paths == [p] && GoodPath(s.start, s.thetaL, p) && Held(s, built, p);
    HeldWithin(s, built, p);
    SingleScore(b.g, p);
  }

  /** After trimming, one of two routes is left, and turns add none. */
  lemma {:induction false} OneAtMost(s: Setting, built: ResGraph, states: seq<State>, k: nat)
    requires CarouselRun(s, built, states) && |states[0].b.paths| == 2 && 1 <= k < |states|
    ensures |states[k].b.paths| <= 1
  {
    if k > 1 {
      OneAtMost(s, built, states, k - 1);
      assert TurnedAt(s, states, k);
      TurnSize(s, states[k - 1], states[k], k - 1);
    }
  }

  lemma InitialIsBest(s: Setting, built: ResGraph, states: seq<State>)
    requires s.Valid() && |s.nodes| <= 4 && CarouselRun(s, built, states) && |states[0].b.paths| == 2
    requires ScoreOf(states[0]) > 14.0
    ensures Best(states, 0)
  {
    forall k | Scored(states, k)
      ensures ScoreOf(states[k]) <= ScoreOf(states[0])
    {
      if k > 0 {
        OneAtMost(s, built, states, k);
        assert Steady(s, built, states[k].b, |states[0].b.paths|);
        SingleStateScore(s, built, states[k].b);
      }
    }
  }

  // ---------- The report ----------

  lemma DiamondNodes()
    ensures |DiamondSetting(14.5).nodes| <= 4
  {
    var all := DiamondSetting(14.5).nodes;
    assert all == {"S"} + {"A"} + {"B"} + {"T"};
  }

  /** A single destination with two routes is filled. */
  lemma PairFills(s: Setting, built: ResGraph, b: Books, p: PathWithInfo, q: PathWithInfo, w: seq<Step>)
    requires Running(s, built, b) && Unbanned(b.g) && b.paths == [p, q] && |s.ends| == 1
    requires p.dest == q.dest == s.ends[0] && s.start in built && Walkable(s, built, s.ends[0], w)
    ensures Filling(s, built, b, 1)
  {
    assert s.ends[..1] == s.ends && s.ends[0] in s.ends;
    assert RoutesTo(b.paths, s.ends[0]) >= 1;
  }

  lemma DiamondFilling(b: Books)
    requires Calm(DiamondSetting(14.5), DiamondGraph(0.0), b) && b.paths == [First(), Second()]
    ensures Filling(DiamondSetting(14.5), DiamondGraph(0.0), b, 1)
  {
    DiamondWalks();
    PairFills(DiamondSetting(14.5), DiamondGraph(0.0), b, First(), Second(), LONG_ROUTE);
  }

  lemma DiamondSteady(b: Books)
    requires Calm(DiamondSetting(14.5), DiamondGraph(0.0), b) && b.paths == [First(), Second()]
    ensures Steady(DiamondSetting(14.5), DiamondGraph(0.0), b, 2)
  {
  }

  lemma DiamondPrepared(b: Books, states: seq<State>) returns (run: Record)
    requires var s, built := DiamondSetting(14.5), DiamondGraph(0.0);
             && Calm(s, built, b) && b.paths == [First(), Second()] && InitialRun(s, built, [NoRoutes(built), b], b)
             && |states| > 0 && states[0].b == b
    ensures run == Record(DiamondSetting(14.5), DiamondGraph(0.0), [NoRoutes(DiamondGraph(0.0)), b], states, 0)
    ensures Prepared(run)
  {
    var s, built := DiamondSetting(14.5), DiamondGraph(0.0);
    run := Record(s, built, [NoRoutes(built), b], states, 0);
    DiamondValid(14.5);
    DiamondBound(14.5);
    DiamondIdle();
    DiamondRates();
    ShapedIsProvisioned(DIAMOND, LoadPercentile(DIAMOND, HOT_PERCENTILE), s.Cap(), built);
    DiamondFilling(b);
  }

  lemma PairReported(run: Record, p: PathWithInfo, q: PathWithInfo)
    requires CarouselRun(run.s, run.built, run.states) && Finished(run.states) && Best(run.states, 0) && run.at == 0
    requires run.states[0].b.paths == [p, q]
    ensures Reports(run, [PathInfo(p.path, p.latency, p.latency), PathInfo(q.path, q.latency, q.latency)])
  {
  }

  /** From two routes that score best a report exists. */
  lemma CompletedRun(s: Setting, built: ResGraph, b: Books) returns (states: seq<State>)
    requires s.Valid() && |s.nodes| <= 4 && Steady(s, built, b, 2) && |b.paths| == 2 && Score(b.paths, b.g) > 14.0
    ensures CarouselRun(s, built, states) && Finished(states) && Best(states, 0) && states[0].b == b
  {
    states := RunExists(s, built, b);
    InitialIsBest(s, built, states);
  }

  lemma NoPath()
    ensures !IsWalk(Adjacency(DIAMOND), ["S", "B", "A", "T"])
  {
    NoEdgeBack();
    EdgeOfWalkBack();
  }

  lemma DiamondBest(b: Books) returns (states: seq<State>)
    requires Calm(DiamondSetting(14.5), DiamondGraph(0.0), b) && b.paths == [First(), Second()]
    ensures CarouselRun(DiamondSetting(14.5), DiamondGraph(0.0), states) && Finished(states)
    ensures Best(states, 0) && states[0].b == b
  {
    DiamondSteady(b);
    DiamondValid(14.5);
    DiamondNodes();
    DiamondScore(b);
    states := CompletedRun(DiamondSetting(14.5), DiamondGraph(0.0), b);
  }

  lemma DiamondReport() returns (run: Record)
    ensures run.s == DiamondSetting(14.5) && run.built == DiamondGraph(0.0) && Prepared(run)
    ensures Reports(run, [PathInfo(["S", "A", "B", "T"], 9.0, 9.0), PathInfo(["S", "B", "A", "T"], 12.0, 12.0)])
  {
    var b := FillsT();
    var states := DiamondBest(b);
    run := DiamondPrepared(b, states);
    PairReported(run, First(), Second());
  }

  /**
   For the request S to T on this network, with the bound the rule gives and the graph the solver
   builds, a complete run reports S, B, A, T with a latency of 12, although no edge leads from B to A.
   */
  lemma ReportsNoPath() returns (run: Record, infos: seq<PathInfo>)
    ensures run.s == DiamondSetting(14.5) && Prepared(run) && Reports(run, infos)
    ensures Rates(DIAMOND, LoadPercentile(DIAMOND, HOT_PERCENTILE), run.s.Cap(), run.built)
    ensures infos == [PathInfo(["S", "A", "B", "T"], 9.0, 9.0), PathInfo(["S", "B", "A", "T"], 12.0, 12.0)]
    ensures !IsWalk(Adjacency(DIAMOND), infos[1].hops)
  {
    run := DiamondReport();
    infos := [PathInfo(["S", "A", "B", "T"], 9.0, 9.0), PathInfo(["S", "B", "A", "T"], 12.0, 12.0)];
    DiamondRates();
    NoPath();
  }
}
