/**
 One run of the multi-destination flow solver, from the request to the returned routes.
 */
module FlowSolver {
  import opened NetworkGraph
  import opened Wrappers
  import opened KShortest
  import opened FlowSearch
  import opened FlowAccounting
  import opened Carousel
  import opened Coverage
  import opened FlowObjective
  import opened RouteFinding
  import opened InitialRoutes
  import opened CarouselTurns
  import opened ReportedLatency
  import Sorting

  const HOT_PERCENTILE := 90.0

  // ---------- A whole run ----------

  /**
   The states of a run: the initial solution with its routes recorded, what is left after
   trimming, and the state at the end of every turn, each reached from the one before by a turn.
   The books agree in all of them and no bans are left behind.
   */
  ghost predicate CarouselRun(s: Setting, built: ResGraph, states: seq<State>) {
    && |states| >= 2
    && (forall k :: 0 <= k < |states| ==> Steady(s, built, states[k].b, |states[0].b.paths|))
    && states[0].acc == states[1].acc == Recorded(states[0].b.paths)
    && states[1].b.paths == states[0].b.paths[|states[0].b.paths| / 2..]
    && (forall k :: 2 <= k < |states| ==> TurnedAt(s, states, k))
  }

  /** What holds at the end of every turn. */
  ghost predicate Steady(s: Setting, built: ResGraph, b: Books, bound: nat) {
    && Running(s, built, b) && Unbanned(b.g) && |b.paths| <= bound
    && (Distinct(s.ends) ==> WithinQuota(b.paths))
  }

  ghost predicate TurnedAt(s: Setting, states: seq<State>, k: nat)
    requires 1 <= k < |states|
  {
    Turned(s, states[k - 1], states[k], k - 1)
  }

  /** The run goes on for two turns per initial route unless no route is left. */
  ghost predicate Finished(states: seq<State>) {
    && 2 <= |states| <= 2 + 2 * |states[0].b.paths|
    && (|states| == 2 + 2 * |states[0].b.paths| || states[|states| - 1].b.paths == [])
  }

  /** The states whose score is compared. */
  ghost predicate Scored(states: seq<State>, k: int) {
    0 <= k < |states| && (k == 0 || (k >= 2 && states[k].b.paths != []))
  }

  ghost function ScoreOf(x: State): real {
    Score(x.b.paths, x.b.g)
  }

  /** States[at] scores at least as high as every scored state, and higher than the earlier ones. */
  ghost predicate Best(states: seq<State>, at: nat) {
    && Scored(states, at)
    && (forall k :: Scored(states, k) ==> ScoreOf(states[k]) <= ScoreOf(states[at]))
    && (forall k :: Scored(states, k) && k < at ==> ScoreOf(states[k]) < ScoreOf(states[at]))
  }

  /** Dropping the older half of the routes. */
  method Trim(s: Setting, ghost built: ResGraph, b0: Books) returns (b: Books)
    requires Running(s, built, b0) && Unbanned(b0.g)
    ensures Running(s, built, b) && Unbanned(b.g) && b.paths == b0.paths[|b0.paths| / 2..]
    ensures WithinQuota(b0.paths) ==> WithinQuota(b.paths)
  {
    b := b0;
    for i := 0 to |b0.paths| / 2
      invariant Running(s, built, b) && Unbanned(b.g) && b.paths == b0.paths[i..]
      invariant WithinQuota(b0.paths) ==> WithinQuota(b.paths)
    {
      if WithinQuota(b.paths) {
        QuotaAfterDrop(b.paths);
      }
      b := Drop(s, built, b);
    }
  }

  lemma RoutesAreSimple(s: Setting, built: ResGraph, b: Books)
    requires Running(s, built, b)
    ensures forall p :: p in b.paths ==> Simple(p.path) && |p.path| >= 1
  {
    forall p | p in b.paths
      ensures Simple(p.path) && |p.path| >= 1
    {
      assert GoodPath(s.start, s.thetaL, p);
    }
  }

  method RecordAll(s: Setting, ghost built: ResGraph, b: Books) returns (acc: PathAccumulator)
    requires Running(s, built, b)
    ensures acc == Recorded(b.paths) && acc.Valid(s.start, s.thetaL)
  {
    acc := PathAccumulator(map[], map[]);
    for i := 0 to |b.paths|
      invariant acc == Recorded(b.paths[..i]) && acc.Valid(s.start, s.thetaL)
    {
      assert b.paths[..i + 1][..i] == b.paths[..i];
      assert GoodPath(s.start, s.thetaL, b.paths[i]);
      AddPathValid(s, acc, b.paths[i]);
      acc := acc.AddPath(b.paths[i]);
    }
    assert b.paths[..|b.paths|] == b.paths;
  }

  lemma RunGrows(s: Setting, built: ResGraph, states: seq<State>, y: State)
    requires CarouselRun(s, built, states) && Steady(s, built, y.b, |states[0].b.paths|)
    requires Turned(s, states[|states| - 1], y, |states| - 1)
    ensures CarouselRun(s, built, states + [y])
  {
    var all := states + [y];
    forall k | 2 <= k < |all|
      ensures TurnedAt(s, all, k)
    {
      if k < |states| {
        assert TurnedAt(s, states, k);
        assert all[k - 1] == states[k - 1] && all[k] == states[k];
      } else {
        assert all[k - 1] == states[|states| - 1] && all[k] == y;
      }
    }
  }

  /** Comparing the newest state with the incumbent. */
  method Compare(s: Setting, ghost built: ResGraph, ghost states: seq<State>, ghost at0: nat,
                 best0: seq<PathWithInfo>, score0: real, y: State)
    returns (best: seq<PathWithInfo>, score: real, ghost at: nat)
    requires Best(states, at0) && |states| >= 2 && Running(s, built, y.b)
    requires best0 == states[at0].b.paths && score0 == ScoreOf(states[at0])
    ensures var all := states + [y];
            Best(all, at) && best == all[at].b.paths && score == ScoreOf(all[at])
  {
    best, score, at := best0, score0, at0;
    ghost var all := states + [y];
    assert forall k :: Scored(all, k) <==> Scored(states, k) || (k == |states| && y.b.paths != []);
    if |y.b.paths| > 0 {
      RoutesAreSimple(s, built, y.b);
      var current := Objective(y.b.paths, y.b.g);
      if current > score {
        best, score, at := y.b.paths, current, |states|;
      }
    }
  }

  /** A run in progress with its incumbent. */
  ghost predicate Spinning(s: Setting, built: ResGraph, states: seq<State>, at: nat, best: seq<PathWithInfo>,
                           score: real)
  {
    && CarouselRun(s, built, states) && Best(states, at)
    && best == states[at].b.paths && score == ScoreOf(states[at])
  }

  lemma SpinStart(s: Setting, built: ResGraph, x: State, y: State)
    requires Steady(s, built, x.b, |x.b.paths|) && Steady(s, built, y.b, |x.b.paths|)
    requires x.acc == y.acc == Recorded(x.b.paths) && y.b.paths == x.b.paths[|x.b.paths| / 2..]
    ensures Spinning(s, built, [x, y], 0, x.b.paths, ScoreOf(x))
  {
    assert forall k :: Scored([x, y], k) ==> k == 0;
  }

  /** A turn from one steady state to the next. */
  method SteadyTurn(s: Setting, ghost built: ResGraph, x: State, attempt: nat, ghost bound: nat) returns (y: State)
    requires s.Valid() && Steady(s, built, x.b, bound) && x.acc.Valid(s.start, s.thetaL) && x.b.paths != []
    ensures Steady(s, built, y.b, bound) && y.acc.Valid(s.start, s.thetaL) && Turned(s, x, y, attempt)
  {
    y := Turn(s, built, x, attempt);
    TurnSize(s, x, y, attempt);
  }

  /** One more turn of a run. */
  method RunOn(s: Setting, ghost built: ResGraph, ghost states: seq<State>, x: State, attempt: nat) returns (y: State)
    requires s.Valid() && CarouselRun(s, built, states) && x.acc.Valid(s.start, s.thetaL)
    requires |states| == attempt + 1 && x == states[|states| - 1] && x.b.paths != []
    ensures CarouselRun(s, built, states + [y]) && y.acc.Valid(s.start, s.thetaL) && Running(s, built, y.b)
  {
    assert Steady(s, built, states[|states| - 1].b, |states[0].b.paths|);
    y := SteadyTurn(s, built, x, attempt, |states[0].b.paths|);
    RunGrows(s, built, states, y);
  }

  /** One turn, and the comparison at its end. */
  method SpinOnce(s: Setting, ghost built: ResGraph, ghost states0: seq<State>, ghost at0: nat,
                  best0: seq<PathWithInfo>, score0: real, x: State, i: nat)
    returns (ghost states: seq<State>, ghost at: nat, best: seq<PathWithInfo>, score: real, y: State)
    requires s.Valid() && Spinning(s, built, states0, at0, best0, score0) && x.acc.Valid(s.start, s.thetaL)
    requires |states0| == i + 2 && x == states0[|states0| - 1] && x.b.paths != []
    ensures Spinning(s, built, states, at, best, score) && y.acc.Valid(s.start, s.thetaL)
    ensures states == states0 + [y]
  {
    y := RunOn(s, built, states0, x, i + 1);
    best, score, at := Compare(s, built, states0, at0, best0, score0, y);
    states := states0 + [y];
  }

  /** The turns of the carousel after the initial solution b0, which is not empty. */
  method Spin(s: Setting, ghost built: ResGraph, b0: Books)
    returns (best: seq<PathWithInfo>, ghost states: seq<State>, ghost at: nat)
    requires s.Valid() && Steady(s, built, b0, |b0.paths|) && b0.paths != []
    ensures CarouselRun(s, built, states) && Finished(states) && states[0].b == b0
    ensures Best(states, at) && best == states[at].b.paths
  {
    var acc := RecordAll(s, built, b0);
    RoutesAreSimple(s, built, b0);
    best, at := b0.paths, 0;
    var score := Objective(b0.paths, b0.g);
    var b := Trim(s, built, b0);
    var x := State(b, acc);
    SpinStart(s, built, State(b0, acc), x);
    states := [State(b0, acc), x];
    var i := 0;
    while i < 2 * |b0.paths| && |x.b.paths| > 0
      invariant 0 <= i <= 2 * |b0.paths| && |states| == 2 + i
      invariant Spinning(s, built, states, at, best, score) && x.acc.Valid(s.start, s.thetaL)
      invariant states[0].b == b0 && states[|states| - 1] == x
    {
      states, at, best, score, x := SpinOnce(s, built, states, at, best, score, x, i);
      i := i + 1;
    }
  }

  // ---------- The solver object ----------

  /**
   A run as it happened: its fixed data, the residual graph it started from, the books while the
   destinations were filled, the states of the carousel and the chosen one.
   */
  datatype Record = Record(s: Setting, built: ResGraph, books: seq<Books>, states: seq<State>, at: nat)

  /** The routes returned are those of the best scored state. */
  ghost predicate Reports(run: Record, infos: seq<PathInfo>) {
    && CarouselRun(run.s, run.built, run.states) && Finished(run.states) && Best(run.states, run.at)
    && var ps := run.states[run.at].b.paths;
       && |infos| == |ps| > 0
       && forall i :: 0 <= i < |ps| ==> infos[i] == PathInfo(ps[i].path, ps[i].latency, ps[i].latency)
  }

  /** The parameters of a run: its latency bounds, the capacities of its edges, and its initial solution. */
  ghost predicate Prepared(run: Record) {
    && run.s.Valid()
    && (forall d :: d in run.s.ends ==> ThetaRule(run.s.edges, run.s.start, d, ThetaLOf(run.s.thetaL, d)))
    && Idle(run.built) && Provisioned(run.s.edges, run.s.Cap(), run.built)
    && run.states != [] && Filling(run.s, run.built, run.states[0].b, |run.s.ends|)
    && InitialRun(run.s, run.built, run.books, run.states[0].b)
  }

  method DescribeAll(ps: seq<PathWithInfo>) returns (infos: seq<PathInfo>)
    ensures |infos| == |ps|
    ensures forall i :: 0 <= i < |ps| ==> infos[i] == PathInfo(ps[i].path, ps[i].latency, ps[i].latency)
  {
    infos := [];
    for i := 0 to |ps|
      invariant |infos| == i
      invariant forall n :: 0 <= n < i ==> infos[n] == PathInfo(ps[n].path, ps[n].latency, ps[n].latency)
    {
      infos := infos + [PathInfo(ps[i].path, ps[i].latency, ps[i].latency)];
    }
  }

  /** An error exactly when no search on the idle network succeeds for any destination, otherwise a report. */
  ghost predicate Outcome(run: Record, r: Result<seq<PathInfo>>) {
    && Prepared(run)
    && (r.Err? <==> !Answerable(run.s, run.built, run.s.ends))
    && (r.Ok? ==> Reports(run, r.value))
  }

  lemma FilledIsSteady(s: Setting, built: ResGraph, b: Books)
    requires Filling(s, built, b, |s.ends|)
    ensures Steady(s, built, b, |b.paths|)
  {
  }

  /** The part of a run that follows its preparation. */
  method Solve(s: Setting, built: ResGraph) returns (r: Result<seq<PathInfo>>, ghost run: Record)
    requires s.Valid() && Idle(built)
    requires Provisioned(s.edges, s.Cap(), built)
    requires forall d :: d in s.ends ==> ThetaRule(s.edges, s.start, d, ThetaLOf(s.thetaL, d))
    ensures run.s == s && run.built == built && Outcome(run, r)
  {
    ghost var books;
    var b: Books;
    b, books := InitialSolution(s, built);
    run := Record(s, built, books, [State(b, Recorded([]))], 0);
    if |b.paths| == 0 {
      return Err("no feasible path found to any destination"), run;
    }
    FilledIsSteady(s, built, b);
    var best;
    ghost var states, at;
    best, states, at := Spin(s, built, b);
    run := Record(s, built, books, states, at);
    var infos := DescribeAll(best);
    return Ok(infos), run;
  }

  /** The destinations the graph knows, in the order asked for. */
  function Known(nodes: set<Node>, ends: seq<Node>): seq<Node> {
    if ends == [] then [] else
    var rest, last := Known(nodes, ends[..|ends| - 1]), ends[|ends| - 1];
    if last in nodes then rest + [last] else rest
  }

  lemma {:induction false} KnownMembers(nodes: set<Node>, ends: seq<Node>)
    ensures forall d :: d in Known(nodes, ends) <==> d in ends && d in nodes
    ensures Known(nodes, ends) != [] <==> exists d :: d in ends && d in nodes
  {
    if ends != [] {
      var rest, last := ends[..|ends| - 1], ends[|ends| - 1];
      KnownMembers(nodes, rest);
      assert ends == rest + [last];
      Sorting.SnocMembers(rest, last);
      Sorting.SnocMembers(Known(nodes, rest), last);
    }
    if Known(nodes, ends) != [] {
      assert Known(nodes, ends)[0] in ends;
    }
  }

  /** The residual graph of a request: idle, with every edge rated by its load against the hot load. */
  ghost predicate Rates(edges: seq<Edge>, uhot: real, cap: real, built: ResGraph) {
    uhot == LoadPercentile(edges, HOT_PERCENTILE) && Shaped(edges, uhot, cap, built) && Idle(built)
  }

  method BuildRated(edges: seq<Edge>, uhot: real, cap: real) returns (built: ResGraph)
    requires GoodEdges(edges) && cap >= 0.0 && uhot == LoadPercentile(edges, HOT_PERCENTILE)
    ensures Rates(edges, uhot, cap, built) && Idle(built) && Provisioned(edges, cap, built)
  {
    built := BuildResidualGraph(edges, uhot, cap);
    ShapedIsProvisioned(edges, uhot, cap, built);
  }

  /** Every destination has the bound the rule prescribes. */
  ghost predicate BoundsRight(edges: seq<Edge>, start: Node, ends: seq<Node>, thetaL: map<Node, real>) {
    forall d :: d in ends ==> d in thetaL && ThetaRule(edges, start, d, thetaL[d])
  }

  lemma BoundsOneMore(edges: seq<Edge>, start: Node, ends: seq<Node>, d: Node, thetaL: map<Node, real>, theta: real)
    requires BoundsRight(edges, start, ends, thetaL) && ThetaRule(edges, start, d, theta)
    ensures BoundsRight(edges, start, ends + [d], thetaL[d := theta])
  {
    Sorting.SnocMembers(ends, d);
  }

  class FlowOptimizationSolver {
    const edges: seq<Edge>
    const nodes: set<Node>
    const latencies: map<string, real>
    var capacity: real
    var uhot: real
    var thetaL: map<Node, real>

    ghost predicate Valid() {
      && GoodEdges(edges) && NonNegativeEdges(edges, ByLatency)
      && nodes == EndPoints(edges) && Latencies(edges, latencies)
    }

    constructor (edges: seq<Edge>)
      requires GoodEdges(edges) && NonNegativeEdges(edges, ByLatency)
      ensures Valid() && this.edges == edges && thetaL == map[]
    {
      var lat := BuildLatencies(edges);
      this.edges, nodes, latencies := edges, EndPoints(edges), lat;
      capacity, uhot, thetaL := 0.0, 0.0, map[];
    }

    /** Every destination gets the bound the rule prescribes. */
    method ComputeThetaL(start: Node, ends: seq<Node>)
      requires Valid()
      modifies this`thetaL
      ensures BoundsRight(edges, start, ends, thetaL)
    {
      for i := 0 to |ends|
        invariant BoundsRight(edges, start, ends[..i], thetaL)
      {
        assert ends[..i + 1] == ends[..i] + [ends[i]];
        var theta := ThetaFor(edges, start, ends[i]);
        BoundsOneMore(edges, start, ends[..i], ends[i], thetaL, theta);
        thetaL := thetaL[ends[i] := theta];
      }
      assert ends[..|ends|] == ends;
    }

    /** The requested destinations the graph knows. */
    method ValidEnds(ends: seq<Node>) returns (valid: seq<Node>)
      ensures valid == Known(nodes, ends)
    {
      valid := [];
      for i := 0 to |ends|
        invariant valid == Known(nodes, ends[..i])
      {
        assert ends[..i + 1][..i] == ends[..i];
        if ends[i] in nodes {
          valid := valid + [ends[i]];
        }
      }
      assert ends[..|ends|] == ends;
    }

    /** Capacity, hot load and latency bounds of a run. */
    method Prepare(start: Node, valid: seq<Node>) returns (s: Setting, built: ResGraph)
      requires Valid() && start in nodes && forall d :: d in valid ==> d in nodes
      modifies this
      ensures s.Valid() && s.start == start && s.ends == valid && s.edges == edges && s.thetaL == thetaL
      ensures forall d :: d in valid ==> ThetaRule(edges, start, d, ThetaLOf(thetaL, d))
      ensures capacity == s.Cap() && Rates(edges, uhot, capacity, built) && Idle(built)
      ensures Provisioned(edges, capacity, built)
    {
      capacity := (|valid| * FLOWS_PER_DEST) as real;
      uhot := ComputePercentile(edges, HOT_PERCENTILE);
      ComputeThetaL(start, valid);
      s := Setting(edges, nodes, latencies, start, valid, thetaL);
      built := BuildRated(edges, uhot, capacity);
    }

    method AnswerFor(start: Node, valid: seq<Node>) returns (r: Result<seq<PathInfo>>, ghost run: Record)
      requires Valid() && start in nodes && forall d :: d in valid ==> d in nodes
      modifies this
      ensures Outcome(run, r) && run.s.start == start && run.s.edges == edges && run.s.ends == valid
      ensures Rates(edges, uhot, run.s.Cap(), run.built)
    {
      var s, built := Prepare(start, valid);
      r, run := Solve(s, built);
    }

    /** The graph knows the start and at least one of the destinations. */
    ghost predicate Usable(start: Node, ends: seq<Node>) {
      start in nodes && exists d :: d in ends && d in nodes
    }

    /**
     Multi-destination routing: an error exactly when the request is unusable or no search on the
     idle network succeeds, otherwise the best scored state of a run whose books agree throughout.
     */
    method ComputingMulti(start: Node, ends: seq<Node>) returns (r: Result<seq<PathInfo>>, ghost run: Record)
      requires Valid()
      modifies this
      ensures !Usable(start, ends) ==> r.Err?
      ensures Usable(start, ends) ==>
                && Outcome(run, r) && run.s.start == start && run.s.edges == edges
                && run.s.ends == Known(nodes, ends) && Rates(edges, uhot, run.s.Cap(), run.built)
    {
      run := Record(Setting([], {}, map[], "", [], map[]), map[], [], [], 0);
      if |ends| == 0 {
        return Err("no destinations provided"), run;
      }
      if start !in nodes {
        return Err("start node not found in graph"), run;
      }
      var valid := ValidEnds(ends);
      KnownMembers(nodes, ends);
      if |valid| == 0 {
        return Err("no valid destinations found in graph"), run;
      }
      r, run := AnswerFor(start, valid);
    }
  }

  // ---------- What a run amounts to ----------

  /** In every state of a run every edge's flow is within its capacity. */
  lemma FlowWithinCapacity(run: Record, k: nat, u: Node, v: Node)
    requires Prepared(run) && CarouselRun(run.s, run.built, run.states) && k < |run.states|
    requires run.s.NetOf(run.states[k].b.g).Has(u, v)
    ensures var ef := run.states[k].b.g[u][v];
            0.0 <= ef.flow <= ef.cap == run.s.Cap()
  {
    assert Steady(run.s, run.built, run.states[k].b, |run.states[0].b.paths|);
    BooksWithinCapacity(run.s, run.built, run.states[k].b, u, v);
  }

  lemma BooksWithinCapacity(s: Setting, built: ResGraph, b: Books, u: Node, v: Node)
    requires Provisioned(s.edges, s.Cap(), built) && SameShape(built, b.g) && FlowsMatch(b.g, b.paths)
    requires |b.paths| <= |s.ends| * FLOWS_PER_DEST && s.NetOf(b.g).Has(u, v)
    ensures 0.0 <= b.g[u][v].flow <= b.g[u][v].cap == s.Cap()
  {
    FlowAtMostRoutes(b.g, b.paths, u, v);
  }

  /** What a reported answer amounts to for the caller. */
  lemma ReportedRoutes(run: Record, infos: seq<PathInfo>)
    requires Reports(run, infos)
    ensures |infos| > 0 && forall i, j :: 0 <= i < j < |infos| ==> infos[i].hops != infos[j].hops
    ensures forall i :: 0 <= i < |infos| ==>
              var h := infos[i].hops;
              && 1 <= |h| <= MAX_HOPS && Simple(h) && h[0] == run.s.start
              && h[|h| - 1] in run.s.ends && infos[i].rtt <= ThetaLOf(run.s.thetaL, h[|h| - 1])
              && exists w :: Traces(run.s, run.built, h, infos[i].rtt, w)
  {
    var b := run.states[run.at].b;
    assert Steady(run.s, run.built, b, |run.states[0].b.paths|);
    forall i | 0 <= i < |infos|
      ensures GoodPath(run.s.start, run.s.thetaL, b.paths[i]) && Held(run.s, run.built, b.paths[i])
    {
      assert b.paths[i] in b.paths;
    }
  }

  /**
   The steps behind a reported route, and what they decide: the route is a path of the network with
   its true latency exactly when each step in reverse has an edge the other way and those edges'
   latencies make up for the surcharges. Where all edges have their opposites it is always a path.
   */
  lemma ReportedTruth(run: Record, infos: seq<PathInfo>, i: nat) returns (w: seq<Step>)
    requires Prepared(run) && Reports(run, infos) && i < |infos|
    ensures Traces(run.s, run.built, infos[i].hops, infos[i].rtt, w)
    ensures TrueRoute(run.s, infos[i].hops, infos[i].rtt) <==>
              ReversesAreEdges(run.s, w) && BANNED_PENALTY * Surcharges(run.s, w) as real == Uncounted(run.s, w)
    ensures Symmetric(run.s.edges) ==> IsWalk(Adjacency(run.s.edges), infos[i].hops)
  {
    ReportedRoutes(run, infos);
    w :| Traces(run.s, run.built, infos[i].hops, infos[i].rtt, w);
    TrueRouteIff(run.s, run.built, infos[i].hops, infos[i].rtt, w);
    if Symmetric(run.s.edges) {
      SymmetricIsWalk(run.s, run.built, infos[i].hops, infos[i].rtt, w);
    }
  }

  /** A destination other than the start is reached over an edge that leaves the start. */
  lemma ReachableLeavesStart(s: Setting, built: ResGraph, d: Node)
    requires Reachable(s, d) && d != s.start && HasAllEdges(s.edges, built)
    ensures s.start in built
  {
    var g := Adjacency(s.edges);
    AdjacencyMembers(s.edges);
    var p :| ProblemOf(LatencySolver(s.edges), s.start, d).Route(p);
    EdgeOfWalk(g, p, 0);
    var e := EdgeTo(g[p[0]], p[1]);
    assert e in s.edges && e.source == s.start;
  }

  /** In an uncongested network a request with a reachable destination is answered. */
  lemma UncongestedIsAnswered(run: Record, d: Node)
    requires Prepared(run) && Uncongested(run.s) && d in run.s.ends && Reachable(run.s, d)
    requires d == run.s.start ==> d in run.built
    ensures run.states[0].b.paths != [] && RoutesTo(run.states[0].b.paths, d) >= 1
    ensures Answerable(run.s, run.built, run.s.ends)
  {
    if d != run.s.start {
      ReachableLeavesStart(run.s, run.built, d);
    }
    CoveredIsAnswered(run.s, run.built, run.states[0].b, d);
  }

  lemma CoveredIsAnswered(s: Setting, built: ResGraph, b: Books, d: Node)
    requires Filling(s, built, b, |s.ends|) && Uncongested(s) && s.start in built && d in s.ends && Reachable(s, d)
    ensures b.paths != [] && RoutesTo(b.paths, d) >= 1 && Answerable(s, built, s.ends)
  {
    var m :| 0 <= m < |s.ends| && s.ends[m] == d;
    assert RoutesTo(b.paths, s.ends[m]) >= 1;
    FillingDone(s, built, b);
  }
}
