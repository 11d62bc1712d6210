/**
 A request on which the flow solver reports a route that is no path of the network.
 */
module Diamond {
  import opened NetworkGraph
  import opened ShortestPath
  import opened Spur
  import opened Yen
  import opened KShortest
  import opened FlowSearch
  import opened FlowAccounting
  import opened Carousel
  import opened Coverage
  import opened RouteFinding
  import opened ReportedLatency
  import opened FlowSolver
  import PathKey

  // ---------- A route that is no path ----------

  const DIAMOND := [Edge("S", "A", 0.0, 0.0, 4.0), Edge("A", "B", 0.0, 0.0, 1.0), Edge("B", "T", 0.0, 0.0, 4.0),
                    Edge("S", "B", 0.0, 0.0, 6.0), Edge("A", "T", 0.0, 0.0, 6.0)]

  function Spare(flow: real): EdgeFlow {
    EdgeFlow(flow, 2.0, 1.0, 2.0, false, 2.0 - flow)
  }

  /** The diamond's residual graph with the given flow on the edges of its long route. */
  function DiamondGraph(flow: real): ResGraph {
    map["S" := map["A" := Spare(flow), "B" := Spare(0.0)],
        "A" := map["B" := Spare(flow), "T" := Spare(0.0)],
        "B" := map["T" := Spare(flow)]]
  }

  function DiamondSetting(theta: real): Setting {
    Setting(DIAMOND, {"S", "A", "B", "T"},
            map["S->A" := 4.0, "A->B" := 1.0, "B->T" := 4.0, "S->B" := 6.0, "A->T" := 6.0],
            "S", ["T"], map["T" := theta])
  }

  const LONG_ROUTE := [Step("A", 4.0, false), Step("B", 1.0, false), Step("T", 4.0, false)]
  const CROSSING := [Step("B", 6.0, false), Step("A", 0.0, true), Step("T", 6.0, false)]

  lemma ThreeSteps(s: Node, a: Step, b: Step, c: Step)
    ensures Visits(s, [a, b, c]) == [s, a.to, b.to, c.to] && Cost([a, b, c]) == a.cost + b.cost + c.cost
  {
    assert [a, b, c][..2] == [a, b] && [a, b][..1] == [a] && [a][..0] == [];
    assert Visits(s, [a]) == [s, a.to] && Cost([a]) == a.cost;
    assert Visits(s, [a, b]) == [s, a.to, b.to] && Cost([a, b]) == a.cost + b.cost;
  }

  lemma ThreeHops(a: Node, b: Node, c: Node, d: Node, u: Node, v: Node)
    ensures Uses([a, b, c, d], u, v) <==> (u == a && v == b) || (u == b && v == c) || (u == c && v == d)
  {
    assert [a, b, c, d][..3] == [a, b, c] && [a, b, c][..2] == [a, b] && [a, b][..1] == [a];
    assert Uses([a, b], u, v) <==> u == a && v == b;
    assert Uses([a, b, c], u, v) <==> (u == a && v == b) || (u == b && v == c);
  }

  lemma Names()
    ensures Simple(["S", "A", "B", "T"]) && Simple(["S", "B", "A", "T"])
    ensures forall x, y :: x in {"S", "A", "B", "T"} && y in {"S", "A", "B", "T"} && x[0] == y[0] ==> x == y
  {
    assert "S"[0] == 'S' && "A"[0] == 'A' && "B"[0] == 'B' && "T"[0] == 'T';
  }

  lemma Keys()
    ensures EdgeKey("S", "A") == "S->A" && EdgeKey("A", "B") == "A->B" && EdgeKey("B", "T") == "B->T"
    ensures EdgeKey("S", "B") == "S->B" && EdgeKey("A", "T") == "A->T"
  {
  }

  lemma Table(theta: real)
    ensures var s := DiamondSetting(theta);
            && s.Latency("S", "A") == 4.0 && s.Latency("A", "B") == 1.0 && s.Latency("B", "T") == 4.0
            && s.Latency("S", "B") == 6.0 && s.Latency("A", "T") == 6.0
  {
    Keys();
    assert "S->A"[0] == 'S' && "S->B"[0] == 'S' && "A->B"[0] == 'A' && "A->T"[0] == 'A' && "B->T"[0] == 'B';
    assert "S->A"[3] == 'A' && "S->B"[3] == 'B' && "A->B"[3] == 'B' && "A->T"[3] == 'T' && "B->T"[3] == 'T';
  }

  /** The cheapest route of the diamond takes A->B. */
  lemma LongRoute(theta: real)
    requires theta >= 12.0
    ensures Walkable(DiamondSetting(theta), DiamondGraph(0.0), "T", LONG_ROUTE)
    ensures Visits("S", LONG_ROUTE) == ["S", "A", "B", "T"]
    ensures Cost(LONG_ROUTE) == 9.0
  {
    ThreeSteps("S", Step("A", 4.0, false), Step("B", 1.0, false), Step("T", 4.0, false));
    Names();
    Table(theta);
  }

  predicate OnLongRoute(u: Node, v: Node) {
    (u == "S" && v == "A") || (u == "A" && v == "B") || (u == "B" && v == "T")
  }

  lemma DiamondEdge(flow: real, u: Node, v: Node)
    requires u in DiamondGraph(0.0) && v in DiamondGraph(0.0)[u]
    ensures u in DiamondGraph(flow) && v in DiamondGraph(flow)[u]
    ensures DiamondGraph(flow)[u][v] == Spare(if OnLongRoute(u, v) then flow else 0.0)
  {
    Names();
    if u == "S" {
      assert v == "A" || v == "B";
    } else if u == "A" {
      assert v == "B" || v == "T";
    } else {
      assert u == "B" && v == "T";
    }
  }

  lemma DiamondKeys()
    ensures DiamondGraph(0.0).Keys == DiamondGraph(1.0).Keys
    ensures forall u :: u in DiamondGraph(0.0) ==> DiamondGraph(0.0)[u].Keys == DiamondGraph(1.0)[u].Keys
  {
    Names();
    forall u | u in DiamondGraph(0.0)
      ensures DiamondGraph(0.0)[u].Keys == DiamondGraph(1.0)[u].Keys
    {
      if u == "S" {
      } else if u == "A" {
      } else {
        assert u == "B";
      }
    }
  }

  lemma LongRouteTaken()
    ensures Along(DiamondGraph(0.0), DiamondGraph(1.0), ["S", "A", "B", "T"], Filled)
  {
    var g, h := DiamondGraph(0.0), DiamondGraph(1.0);
    DiamondKeys();
    forall u, v | u in g && v in g[u]
      ensures h[u][v] == if Uses(["S", "A", "B", "T"], u, v) then Filled(g[u][v]) else g[u][v]
    {
      ThreeHops("S", "A", "B", "T", u, v);
      DiamondEdge(0.0, u, v);
      DiamondEdge(1.0, u, v);
    }
  }

  lemma Crossing(theta: real)
    requires theta >= 12.0
    ensures Walkable(DiamondSetting(theta), DiamondGraph(1.0), "T", CROSSING)
    ensures Visits("S", CROSSING) == ["S", "B", "A", "T"]
    ensures Cost(CROSSING) == 12.0
  {
    ThreeSteps("S", Step("B", 6.0, false), Step("A", 0.0, true), Step("T", 6.0, false));
    Names();
    Table(theta);
  }

  lemma NoEdgeBack()
    ensures !HasEdge(Adjacency(DIAMOND), "B", "A")
  {
    AdjacencyMembers(DIAMOND);
    Names();
    assert forall e :: e in DIAMOND && e.source == "B" ==> e.destination == "T";
  }

  /** A lower bound on the cost of reaching a node. */
  function Potential(u: Node): real {
    if u == "A" then 4.0 else if u == "B" then 5.0 else if u == "T" then 9.0 else 0.0
  }

  lemma StepBound(theta: real, u: Node, st: Step)
    requires DiamondSetting(theta).NetOf(DiamondGraph(0.0)).Offers(u, st)
    ensures st.cost >= Potential(st.to) - Potential(u)
  {
    Names();
    Table(theta);
    if st.reverse {
      DiamondEdge(0.0, st.to, u);
      assert false;
    } else {
      DiamondEdge(0.0, u, st.to);
      if u == "S" {
        assert st.to == "A" || st.to == "B";
      } else if u == "A" {
        assert st.to == "B" || st.to == "T";
      } else {
        assert u == "B" && st.to == "T";
      }
    }
  }

  lemma {:induction false} CostBound(theta: real, w: seq<Step>)
    requires ResidualWalk(DiamondSetting(theta).NetOf(DiamondGraph(0.0)), "S", w)
    ensures Cost(w) >= Potential(Visits("S", w)[|w|])
  {
    if w != [] {
      var rest, last := w[..|w| - 1], w[|w| - 1];
      VisitsPrefix("S", rest, w);
      CostBound(theta, rest);
      assert DiamondSetting(theta).NetOf(DiamondGraph(0.0)).Offers(Visits("S", w)[|rest|], last);
      StepBound(theta, Visits("S", rest)[|rest|], last);
    }
  }

  /** The first search finds the long route. */
  lemma FirstSearch(theta: real)
    requires theta >= 12.0
    ensures var s := DiamondSetting(theta);
            Finds(s, DiamondGraph(0.0), {}, 1, RouteBy(s, "T", ["S", "A", "B", "T"], 9.0), LONG_ROUTE)
  {
    var s := DiamondSetting(theta);
    LongRoute(theta);
    forall x | Walkable(s, DiamondGraph(0.0), "T", x)
      ensures Cost(x) >= 9.0
    {
      CostBound(theta, x);
    }
  }

  lemma OtherKey()
    ensures PathKey.Join(["S", "B", "A", "T"]) != PathKey.Join(["S", "A", "B", "T"])
  {
    var p, q := ["S", "B", "A", "T"], ["S", "A", "B", "T"];
    assert PathKey.Join(p) == "S" + "->" + PathKey.Join(p[1..]) && PathKey.Join(q) == "S" + "->" + PathKey.Join(q[1..]);
    assert p[1..] == ["B", "A", "T"] && q[1..] == ["A", "B", "T"];
    assert PathKey.Join(p[1..]) == "B" + "->" + PathKey.Join(p[1..][1..]);
    assert PathKey.Join(q[1..]) == "A" + "->" + PathKey.Join(q[1..][1..]);
    assert PathKey.Join(p)[3] == 'B' && PathKey.Join(q)[3] == 'A';
  }

  lemma EdgeOfWalkBack()
    ensures IsWalk(Adjacency(DIAMOND), ["S", "B", "A", "T"]) ==> HasEdge(Adjacency(DIAMOND), "B", "A")
  {
    var p := ["S", "B", "A", "T"];
    if IsWalk(Adjacency(DIAMOND), p) {
      EdgeOfWalk(Adjacency(DIAMOND), p, 1);
    }
  }

  // ---------- The request ----------

  lemma Arrowless(c: char)
    requires c in {'S', 'A', 'B', 'T'}
    ensures ProperName([c])
  {
  }

  lemma Members()
    ensures forall e :: e in DIAMOND <==>
              || e == Edge("S", "A", 0.0, 0.0, 4.0) || e == Edge("A", "B", 0.0, 0.0, 1.0)
              || e == Edge("B", "T", 0.0, 0.0, 4.0) || e == Edge("S", "B", 0.0, 0.0, 6.0)
              || e == Edge("A", "T", 0.0, 0.0, 6.0)
  {
    assert DIAMOND[0] in DIAMOND && DIAMOND[1] in DIAMOND && DIAMOND[2] in DIAMOND;
    assert DIAMOND[3] in DIAMOND && DIAMOND[4] in DIAMOND;
  }

  lemma ProperNames()
    ensures ProperName("S") && ProperName("A") && ProperName("B") && ProperName("T")
  {
    Arrowless('S');
    Arrowless('A');
    Arrowless('B');
    Arrowless('T');
    assert "S" == ['S'] && "A" == ['A'] && "B" == ['B'] && "T" == ['T'];
  }

  lemma OneEdgeEach(e: Edge, f: Edge)
    requires e in DIAMOND && f in DIAMOND && e.source == f.source && e.destination == f.destination
    ensures e == f
  {
    Members();
    assert "S"[0] == 'S' && "A"[0] == 'A' && "B"[0] == 'B' && "T"[0] == 'T';
  }

  lemma DiamondEdges()
    ensures GoodEdges(DIAMOND) && NonNegativeEdges(DIAMOND, ByLatency) && SafeLoads(DIAMOND)
  {
    Members();
    ProperNames();
    forall e, f | e in DIAMOND && f in DIAMOND && e.source == f.source && e.destination == f.destination {
      OneEdgeEach(e, f);
    }
  }

  lemma DiamondEnds()
    ensures EndPoints(DIAMOND) == {"S", "A", "B", "T"}
  {
    Members();
  }

  lemma DiamondTable(theta: real)
    ensures Latencies(DIAMOND, DiamondSetting(theta).latencies)
  {
    Keys();
    Table(theta);
    Members();
  }

  /** The setting is that of a request for T. */
  lemma DiamondValid(theta: real)
    ensures DiamondSetting(theta).Valid()
  {
    DiamondEdges();
    DiamondEnds();
    DiamondTable(theta);
  }

  lemma DiamondDrawn()
    ensures Drawn(DIAMOND, DiamondGraph(0.0))
  {
    Members();
    forall u, v | u in DiamondGraph(0.0) && v in DiamondGraph(0.0)[u]
      ensures exists e :: e in DIAMOND && e.source == u && e.destination == v
    {
      DiamondPair(u, v);
    }
  }

  lemma DiamondPair(u: Node, v: Node)
    requires u in DiamondGraph(0.0) && v in DiamondGraph(0.0)[u]
    ensures OnLongRoute(u, v) || (u == "S" && v == "B") || (u == "A" && v == "T")
  {
    Names();
    if u == "S" {
      assert v == "A" || v == "B";
    } else if u == "A" {
      assert v == "B" || v == "T";
    } else {
      assert u == "B" && v == "T";
    }
  }

  lemma DiamondRated(uhot: real)
    ensures AllRated(DIAMOND, uhot, 2.0, DiamondGraph(0.0))
  {
    Members();
    Names();
    assert ComputeThetaA(0.0, uhot) == 1.0;
  }

  /** The graph is the one the solver builds for it. */
  lemma DiamondRates()
    ensures Rates(DIAMOND, LoadPercentile(DIAMOND, HOT_PERCENTILE), DiamondSetting(14.5).Cap(), DiamondGraph(0.0))
  {
    DiamondDrawn();
    DiamondRated(LoadPercentile(DIAMOND, HOT_PERCENTILE));
    DiamondIdle();
  }

  lemma DiamondIdle()
    ensures Idle(DiamondGraph(0.0))
  {
    forall u, v | u in DiamondGraph(0.0) && v in DiamondGraph(0.0)[u] {
      DiamondEdge(0.0, u, v);
    }
  }

  // ---------- The latency bound ----------

  lemma DiamondHas(u: Node, v: Node)
    ensures HasEdge(Adjacency(DIAMOND), u, v) <==>
              OnLongRoute(u, v) || (u == "S" && v == "B") || (u == "A" && v == "T")
  {
    DiamondEdges();
    AdjacencyWellFormed(DIAMOND, ByLatency);
    DiamondLinks(u, v);
  }

  lemma DiamondLinks(u: Node, v: Node)
    ensures (exists e :: e in DIAMOND && e.source == u && e.destination == v) <==>
              OnLongRoute(u, v) || (u == "S" && v == "B") || (u == "A" && v == "T")
  {
    Members();
    if OnLongRoute(u, v) || (u == "S" && v == "B") || (u == "A" && v == "T") {
      var d := if u == "S" then (if v == "A" then 4.0 else 6.0)
               else if u == "A" then (if v == "B" then 1.0 else 6.0) else 4.0;
      Distinguished();
      assert Edge(u, v, 0.0, 0.0, d) in DIAMOND;
    }
  }

  lemma Distinguished()
    ensures "S" != "A" && "S" != "B" && "S" != "T" && "A" != "B" && "A" != "T" && "B" != "T"
  {
    assert "S"[0] == 'S' && "A"[0] == 'A' && "B"[0] == 'B' && "T"[0] == 'T';
  }

  lemma DiamondWeight(e: Edge)
    requires e in DIAMOND
    ensures HasEdge(Adjacency(DIAMOND), e.source, e.destination)
    ensures Weight(Adjacency(DIAMOND), e.source, e.destination, ByLatency) == e.latency
  {
    DiamondEdges();
    AdjacencyMembers(DIAMOND);
    AdjacencyWellFormed(DIAMOND, ByLatency);
    WeightOfEdge(Adjacency(DIAMOND), e.source, e, ByLatency);
  }

  lemma DiamondWeights()
    ensures var g := Adjacency(DIAMOND);
            && Weight(g, "S", "A", ByLatency) == 4.0 && Weight(g, "A", "B", ByLatency) == 1.0
            && Weight(g, "B", "T", ByLatency) == 4.0 && Weight(g, "S", "B", ByLatency) == 6.0
            && Weight(g, "A", "T", ByLatency) == 6.0
  {
    Members();
    DiamondWeight(Edge("S", "A", 0.0, 0.0, 4.0));
    DiamondWeight(Edge("A", "B", 0.0, 0.0, 1.0));
    DiamondWeight(Edge("B", "T", 0.0, 0.0, 4.0));
    DiamondWeight(Edge("S", "B", 0.0, 0.0, 6.0));
    DiamondWeight(Edge("A", "T", 0.0, 0.0, 6.0));
  }

  lemma TwoHopWalk(g: Graph, a: Node, b: Node, c: Node)
    requires HasEdge(g, a, b) && HasEdge(g, b, c)
    ensures IsWalk(g, [a, b, c])
    ensures Length(g, [a, b, c], ByLatency) == Weight(g, a, b, ByLatency) + Weight(g, b, c, ByLatency)
  {
    WalkSnoc(g, [a], b, ByLatency);
    WalkSnoc(g, [a, b], c, ByLatency);
    assert [a] + [b] == [a, b] && [a, b] + [c] == [a, b, c];
  }

  ghost function DiamondProblem(): Problem {
    ProblemOf(LatencySolver(DIAMOND), "S", "T")
  }

  lemma LongPriced()
    ensures DiamondProblem().Priced(Path(["S", "A", "B", "T"], 9.0, 9.0))
  {
    var g := Adjacency(DIAMOND);
    Names();
    DiamondWeights();
    DiamondHas("S", "A");
    DiamondHas("A", "B");
    DiamondHas("B", "T");
    TwoHopWalk(g, "S", "A", "B");
    WalkSnoc(g, ["S", "A", "B"], "T", ByLatency);
    assert ["S", "A", "B"] + ["T"] == ["S", "A", "B", "T"];
  }

  lemma ShortPriced(x: Node)
    requires x == "A" || x == "B"
    ensures DiamondProblem().Priced(Path(["S", x, "T"], 10.0, 10.0))
  {
    Names();
    DiamondWeights();
    DiamondHas("S", x);
    DiamondHas(x, "T");
    TwoHopWalk(Adjacency(DIAMOND), "S", x, "T");
    assert "S"[0] == 'S' && "A"[0] == 'A' && "B"[0] == 'B' && "T"[0] == 'T';
  }

  ghost predicate IsDiamondRoute(p: seq<Node>) {
    p == ["S", "A", "B", "T"] || p == ["S", "A", "T"] || p == ["S", "B", "T"]
  }

  /** The start stands only at the beginning of a route. */
  lemma FromStart(p: seq<Node>, i: nat)
    requires Simple(p) && i < |p| && p[0] == "S" && p[i] == "S"
    ensures i == 0
  {
  }

  /** The hop before position i of a route, by the one at i. */
  lemma HopBefore(p: seq<Node>, i: nat)
    requires IsWalk(Adjacency(DIAMOND), p) && 0 < i < |p|
    ensures p[i] != "S"
    ensures p[i] == "T" ==> p[i - 1] == "A" || p[i - 1] == "B"
    ensures p[i] == "B" ==> p[i - 1] == "A" || p[i - 1] == "S"
    ensures p[i] == "A" ==> p[i - 1] == "S"
  {
    EdgeOfWalk(Adjacency(DIAMOND), p, i - 1);
    DiamondHas(p[i - 1], p[i]);
    Distinguished();
  }

  /** There are three routes. */
  lemma DiamondRoutes(p: seq<Node>)
    requires DiamondProblem().Route(p)
    ensures IsDiamondRoute(p)
  {
    var n := |p|;
    Distinguished();
    HopBefore(p, n - 1);
    HopBefore(p, n - 2);
    if p[n - 3] == "S" {
      FromStart(p, n - 3);
      assert p == ["S", p[1], "T"];
    } else {
      HopBefore(p, n - 3);
      FromStart(p, n - 4);
      assert p == ["S", "A", "B", "T"];
    }
  }

  lemma AtLeastThree(rs: seq<Path>)
    requires forall p :: DiamondProblem().Route(p) ==> exists r :: r in rs && r.hops == p
    ensures |rs| >= 3
  {
    LongPriced();
    ShortPriced("A");
    ShortPriced("B");
    AllThree(rs);
  }

  ghost predicate CostsRight(r: Path) {
    IsDiamondRoute(r.hops) && r.cost == if r.hops == ["S", "A", "B", "T"] then 9.0 else 10.0
  }

  /** What any three-route query returns costs 29 in all. */
  lemma DiamondTotal(rs: seq<Path>)
    requires |rs| == 3 && DistinctHops(rs) && forall r :: r in rs ==> CostsRight(r)
    ensures TotalCost(rs) == 29.0
  {
    DifferentRoutes();
    assert rs == [rs[0], rs[1], rs[2]];
    assert CostsRight(rs[0]) && CostsRight(rs[1]) && CostsRight(rs[2]);
    assert rs[0].hops != rs[1].hops && rs[0].hops != rs[2].hops && rs[1].hops != rs[2].hops;
    SumOfThree(rs[0], rs[1], rs[2]);
  }

  lemma MeanOf(total: real, n: nat)
    requires total == 29.0 && n == 3
    ensures total / n as real * 1.5 == 14.5
  {
  }

  lemma AllThree(rs: seq<Path>)
    requires (exists r :: r in rs && r.hops == ["S", "A", "B", "T"])
    requires (exists r :: r in rs && r.hops == ["S", "A", "T"])
    requires exists r :: r in rs && r.hops == ["S", "B", "T"]
    ensures |rs| >= 3
  {
    var i :| 0 <= i < |rs| && rs[i].hops == ["S", "A", "B", "T"];
    var j :| 0 <= j < |rs| && rs[j].hops == ["S", "A", "T"];
    var k :| 0 <= k < |rs| && rs[k].hops == ["S", "B", "T"];
    DifferentRoutes();
    assert i != j && j != k && i != k;
  }

  lemma DifferentRoutes()
    ensures ["S", "A", "B", "T"] != ["S", "A", "T"] && ["S", "A", "B", "T"] != ["S", "B", "T"]
    ensures ["S", "A", "T"] != ["S", "B", "T"]
  {
    assert ["S", "A", "T"][1] == "A" && ["S", "B", "T"][1] == "B" && "A"[0] != "B"[0];
    assert |["S", "A", "B", "T"]| == 4 && |["S", "A", "T"]| == 3 && |["S", "B", "T"]| == 3;
  }

  lemma RouteCost(r: Path)
    requires DiamondProblem().Priced(r)
    ensures CostsRight(r)
  {
    DiamondRoutes(r.hops);
    DifferentRoutes();
    LongPriced();
    ShortPriced("A");
    ShortPriced("B");
  }

  lemma SumOfThree(a: Path, b: Path, c: Path)
    ensures TotalCost([a, b, c]) == a.cost + b.cost + c.cost
  {
    assert [a, b, c][..2] == [a, b] && [a, b][..1] == [a] && [a][..0] == [];
    assert TotalCost([a, b]) == a.cost + b.cost by {
      assert TotalCost([a]) == a.cost;
    }
  }

  function ThreeRoutes(): seq<Path> {
    [Path(["S", "A", "B", "T"], 9.0, 9.0), Path(["S", "A", "T"], 10.0, 10.0), Path(["S", "B", "T"], 10.0, 10.0)]
  }

  lemma NoneMissing(p: seq<Node>)
    requires DiamondProblem().Route(p)
    ensures !Missing(ThreeRoutes(), p)
  {
    DiamondRoutes(p);
    var rs := ThreeRoutes();
    assert rs[0] in rs && rs[1] in rs && rs[2] in rs;
  }

  lemma AllPriced()
    ensures forall r :: r in ThreeRoutes() ==> DiamondProblem().Priced(r)
  {
    LongPriced();
    ShortPriced("A");
    ShortPriced("B");
  }

  lemma DiamondKRoutes() returns (rs: seq<Path>)
    ensures KRoutes(DiamondProblem(), KSP_K, rs)
  {
    rs := ThreeRoutes();
    AllPriced();
    DifferentRoutes();
    forall p | DiamondProblem().Route(p)
      ensures !Missing(rs, p)
    {
      NoneMissing(p);
    }
  }

  lemma DiamondSolvable()
    ensures Solvable(LatencySolver(DIAMOND), "S", "T")
  {
    LongPriced();
    DiamondEnds();
    assert DiamondProblem().Route(["S", "A", "B", "T"]);
  }

  lemma DiamondMean(rs: seq<Path>)
    requires KRoutes(DiamondProblem(), KSP_K, rs)
    ensures TotalCost(rs) / |rs| as real * 1.5 == 14.5
  {
    if |rs| < 3 {
      AtLeastThree(rs);
    }
    forall r | r in rs {
      RouteCost(r);
    }
    DiamondTotal(rs);
    MeanOf(TotalCost(rs), |rs|);
  }

  /** The rule gives the destination exactly this bound. */
  lemma DiamondBound(theta: real)
    ensures ThetaRule(DIAMOND, "S", "T", theta) <==> theta == 14.5
  {
    DiamondSolvable();
    if ThetaRule(DIAMOND, "S", "T", theta) {
      var rs :| KRoutes(DiamondProblem(), KSP_K, rs) && theta == TotalCost(rs) / |rs| as real * 1.5;
      DiamondMean(rs);
    }
    DiamondRule();
  }

  lemma DiamondRule()
    ensures ThetaRule(DIAMOND, "S", "T", 14.5)
  {
    DiamondSolvable();
    var rs := DiamondKRoutes();
    DiamondMean(rs);
  }
}
