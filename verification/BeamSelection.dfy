/**
 The stochastic beam search of the ONE-WAN solver: a weighted random selection of two routes
 for each destination, repeated a hundred times, of which the best by latency and sharing
 is kept. The random numbers are an input, so the result is a function of them.
 */
module BeamSelection {
  import opened NetworkGraph
  import Sorting
  import Carousel
  import opened FlowAccounting
  import opened FlowObjective

  const ITERATIONS := 100
  const PATHS_PER_DEST := 2
  const LOAD_WEIGHT := 5.0

  type Weight = w: real | w > 0.0 witness 1.0
  type Draw = u: real | 0.0 <= u < 1.0

  /** The random numbers for the picks of a destination. */
  type Stream = nat -> Draw

  // ---------- Weights ----------

  function Ratio(a: real, b: real): (r: real)
    requires b > 0.0
    ensures a > 0.0 ==> r > 0.0
  {
    a / b
  }

  /** The sum of the inverse latencies of the first n routes that have one. */
  ghost function InverseTotal(paths: seq<PathWithInfo>, n: nat): (t: real)
    requires n <= |paths|
    ensures t >= 0.0
  {
    if n == 0 then 0.0 else
    InverseTotal(paths, n - 1) + if paths[n - 1].latency > 0.0 then Ratio(1.0, paths[n - 1].latency) else 0.0
  }

  /** The weight of a route: its share of the inverse latencies, or an even share without a latency. */
  function WeightOf(latency: real, total: real, count: nat): Weight
    requires count >= 1
  {
    if latency > 0.0 && total > 0.0 then Ratio(Ratio(1.0, latency), total) else Ratio(1.0, count as real)
  }

  ghost predicate Weighted(paths: seq<PathWithInfo>, probs: seq<Weight>, total: real) {
    |probs| == |paths| && forall i :: 0 <= i < |paths| ==> probs[i] == WeightOf(paths[i].latency, total, |paths|)
  }

  method Weigh(paths: seq<PathWithInfo>) returns (probs: seq<Weight>)
    ensures Weighted(paths, probs, InverseTotal(paths, |paths|))
  {
    var total := 0.0;
    for i := 0 to |paths|
      invariant total == InverseTotal(paths, i)
    {
      if paths[i].latency > 0.0 {
        total := total + Ratio(1.0, paths[i].latency);
      }
    }
    probs := [];
    for i := 0 to |paths|
      invariant |probs| == i
      invariant forall j :: 0 <= j < i ==> probs[j] == WeightOf(paths[j].latency, total, |paths|)
    {
      probs := probs + [WeightOf(paths[i].latency, total, |paths|)];
    }
  }

  /** The total weight of the first n entries that are still available. */
  ghost function Mass(probs: seq<Weight>, taken: set<nat>, n: nat): (m: real)
    requires n <= |probs|
    ensures m >= 0.0
  {
    if n == 0 then 0.0 else Mass(probs, taken, n - 1) + if n - 1 in taken then 0.0 else probs[n - 1]
  }

  ghost predicate AllTimed(paths: seq<PathWithInfo>) {
    forall i :: 0 <= i < |paths| ==> paths[i].latency > 0.0
  }

  lemma {:induction false} InverseTotalPositive(paths: seq<PathWithInfo>, n: nat)
    requires AllTimed(paths) && 0 < n <= |paths|
    ensures InverseTotal(paths, n) > 0.0
  {
    if n > 1 {
      InverseTotalPositive(paths, n - 1);
    }
  }

  /** Weights are in inverse ratio to latencies. */
  lemma InverseToLatency(paths: seq<PathWithInfo>, i: nat, j: nat)
    requires AllTimed(paths) && i < |paths| && j < |paths|
    ensures var total := InverseTotal(paths, |paths|);
            WeightOf(paths[i].latency, total, |paths|) * paths[i].latency
            == WeightOf(paths[j].latency, total, |paths|) * paths[j].latency
  {
    var total := InverseTotal(paths, |paths|);
    InverseTotalPositive(paths, |paths|);
    WeightTimesLatency(paths[i].latency, total, |paths|);
    WeightTimesLatency(paths[j].latency, total, |paths|);
  }

  lemma WeightTimesLatency(latency: real, total: real, count: nat)
    requires latency > 0.0 && total > 0.0 && count >= 1
    ensures WeightOf(latency, total, count) * latency == Ratio(1.0, total)
  {
    Cancels(latency, total);
  }

  lemma Cancels(latency: real, total: real)
    requires latency > 0.0 && total > 0.0
    ensures Ratio(Ratio(1.0, latency), total) * latency == Ratio(1.0, total)
  {
    var w := (1.0 / latency) / total;
    assert w * latency * total == 1.0;
    assert w * latency == 1.0 / total;
  }

  /** Weights of routes that all have a latency add up to one. */
  lemma WeightsAddUp(paths: seq<PathWithInfo>, probs: seq<Weight>, total: real)
    requires AllTimed(paths) && |paths| > 0 && total == InverseTotal(paths, |paths|) && Weighted(paths, probs, total)
    ensures Mass(probs, {}, |probs|) == 1.0
  {
    InverseTotalPositive(paths, |paths|);
    MassIsShare(paths, probs, total, |paths|);
    RatioSelf(total);
  }

  lemma RatioSelf(a: real)
    requires a > 0.0
    ensures Ratio(a, a) == 1.0
  {
  }

  lemma {:induction false} MassIsShare(paths: seq<PathWithInfo>, probs: seq<Weight>, total: real, n: nat)
    requires AllTimed(paths) && total > 0.0 && Weighted(paths, probs, total) && n <= |paths|
    ensures Mass(probs, {}, n) == Ratio(InverseTotal(paths, n), total)
  {
    if n > 0 {
      MassIsShare(paths, probs, total, n - 1);
      RatioAdds(InverseTotal(paths, n - 1), Ratio(1.0, paths[n - 1].latency), total);
    }
  }

  lemma RatioAdds(a: real, b: real, d: real)
    requires d > 0.0
    ensures Ratio(a, d) + Ratio(b, d) == Ratio(a + b, d)
  {
  }

  // ---------- Selection ----------

  /** Index k holds the point r of the available mass. */
  ghost predicate Holds(probs: seq<Weight>, taken: set<nat>, r: real, k: nat) {
    && k < |probs| && k !in taken && r <= Mass(probs, taken, k + 1)
    && forall j :: 0 <= j < k ==> Passed(probs, taken, r, j)
  }

  ghost predicate Passed(probs: seq<Weight>, taken: set<nat>, r: real, j: nat)
    requires j < |probs|
  {
    j in taken || Mass(probs, taken, j + 1) < r
  }

  /** The first index from n on at which the cumulated mass reaches r; index 0 when there is none. */
  ghost function Held(probs: seq<Weight>, taken: set<nat>, r: real, n: nat): (k: nat)
    requires n <= |probs|
    ensures |probs| > 0 ==> k < |probs|
    decreases |probs| - n
  {
    if n == |probs| then 0
    else if n !in taken && r <= Mass(probs, taken, n + 1) then n
    else Held(probs, taken, r, n + 1)
  }

  /** While an index is left, the walk stops at one not taken before: its default index is never used. */
  lemma {:induction false} HeldHolds(probs: seq<Weight>, taken: set<nat>, r: real, n: nat, free: nat)
    requires n <= |probs| && r <= Mass(probs, taken, |probs|)
    requires free < |probs| && free !in taken && (free < n ==> Mass(probs, taken, n) < r)
    requires forall j :: 0 <= j < n ==> Passed(probs, taken, r, j)
    ensures Holds(probs, taken, r, Held(probs, taken, r, n))
    decreases |probs| - n
  {
    if n == |probs| {
      assert false;
    } else if n in taken || Mass(probs, taken, n + 1) < r {
      assert Passed(probs, taken, r, n);
      HeldHolds(probs, taken, r, n + 1, free);
    }
  }

  method Available(probs: seq<Weight>, taken: set<nat>) returns (total: real)
    ensures total == Mass(probs, taken, |probs|)
  {
    total := 0.0;
    for i := 0 to |probs|
      invariant total == Mass(probs, taken, i)
    {
      if i !in taken {
        total := total + probs[i];
      }
    }
  }

  method Locate(probs: seq<Weight>, taken: set<nat>, r: real) returns (k: nat)
    ensures k == Held(probs, taken, r, 0)
  {
    var cumulative: real := 0.0;
    for i := 0 to |probs|
      invariant cumulative == Mass(probs, taken, i)
      invariant Held(probs, taken, r, 0) == Held(probs, taken, r, i)
    {
      if i !in taken {
        cumulative := cumulative + probs[i];
        if r <= cumulative {
          return i;
        }
      }
    }
    return 0;
  }

  /** The point of the available mass that a random number names. */
  function Portion(u: Draw, total: real): (r: real)
    requires total >= 0.0
    ensures 0.0 <= r <= total
  {
    Carousel.Interpolate(u, total);
    u * total
  }

  /** The indices taken so far are not all. */
  lemma {:induction false} IndexLeft(n: nat, taken: set<nat>) returns (free: nat)
    requires |taken| < n
    ensures free < n && free !in taken
  {
    free := n - 1;
    if n - 1 in taken {
      free := IndexLeft(n - 1, taken - {n - 1});
    }
  }

  function Members(ks: seq<nat>): set<nat> {
    set k | k in ks
  }

  lemma MembersSnoc(ks: seq<nat>, k: nat)
    ensures Members(ks + [k]) == Members(ks) + {k}
  {
    Sorting.SnocMembers(ks, k);
  }

  /** The index that a random number picks after those taken. */
  ghost function PickedBy(probs: seq<Weight>, taken: set<nat>, u: Draw): (k: nat)
    ensures |probs| > 0 ==> k < |probs|
  {
    Held(probs, taken, Portion(u, Mass(probs, taken, |probs|)), 0)
  }

  /** The indices that the first n random numbers pick. */
  ghost function Picks(probs: seq<Weight>, us: Stream, n: nat): (ks: seq<nat>)
    ensures |ks| == n && (|probs| > 0 ==> forall i :: 0 <= i < n ==> ks[i] < |probs|)
  {
    if n == 0 then [] else
    var before := Picks(probs, us, n - 1);
    before + [PickedBy(probs, Members(before), us(n - 1))]
  }

  /** No index is picked twice, and each pick holds the point its random number names. */
  lemma {:induction false} PicksDistinct(probs: seq<Weight>, us: Stream, n: nat)
    requires n <= |probs|
    ensures Sorting.NoDuplicates(Picks(probs, us, n)) && |Members(Picks(probs, us, n))| == n
    ensures n > 0 ==>
              var taken := Members(Picks(probs, us, n - 1));
              Holds(probs, taken, Portion(us(n - 1), Mass(probs, taken, |probs|)), Picks(probs, us, n)[n - 1])
  {
    if n > 0 {
      var before := Picks(probs, us, n - 1);
      var taken := Members(before);
      PicksDistinct(probs, us, n - 1);
      var free := IndexLeft(|probs|, taken);
      HeldHolds(probs, taken, Portion(us(n - 1), Mass(probs, taken, |probs|)), 0, free);
      Sorting.SnocDistinct(before, PickedBy(probs, taken, us(n - 1)));
      MembersSnoc(before, PickedBy(probs, taken, us(n - 1)));
    }
  }

  ghost function RoutesAt(paths: seq<PathWithInfo>, ks: seq<nat>): seq<PathWithInfo>
    requires forall i :: 0 <= i < |ks| ==> ks[i] < |paths|
  {
    seq(|ks|, i requires 0 <= i < |ks| => paths[ks[i]])
  }

  lemma RoutesDistinct(paths: seq<PathWithInfo>, ks: seq<nat>)
    requires (forall i :: 0 <= i < |ks| ==> ks[i] < |paths|) && Sorting.NoDuplicates(ks) && Sorting.NoDuplicates(paths)
    ensures Sorting.NoDuplicates(RoutesAt(paths, ks)) && forall p :: p in RoutesAt(paths, ks) ==> p in paths
  {
    forall i, j | 0 <= i < j < |ks|
      ensures RoutesAt(paths, ks)[i] != RoutesAt(paths, ks)[j]
    {
      assert ks[i] < ks[j] || ks[j] < ks[i];
    }
  }

  function Fewer(a: nat, b: nat): nat {
    if a < b then a else b
  }

  /** The routes that the random numbers select for a destination. */
  ghost function PartOf(paths: seq<PathWithInfo>, probs: seq<Weight>, us: Stream): seq<PathWithInfo>
    requires |probs| == |paths|
  {
    RoutesAt(paths, Picks(probs, us, Fewer(PATHS_PER_DEST, |paths|)))
  }

  /** As many candidates as asked for, none twice. */
  ghost predicate Picked(paths: seq<PathWithInfo>, sel: seq<PathWithInfo>) {
    |sel| == Fewer(PATHS_PER_DEST, |paths|) && Sorting.NoDuplicates(sel) && forall p :: p in sel ==> p in paths
  }

  lemma PartIsPicked(paths: seq<PathWithInfo>, probs: seq<Weight>, us: Stream)
    requires |probs| == |paths| && Sorting.NoDuplicates(paths)
    ensures Picked(paths, PartOf(paths, probs, us))
  {
    var n := Fewer(PATHS_PER_DEST, |paths|);
    PicksDistinct(probs, us, n);
    RoutesDistinct(paths, Picks(probs, us, n));
  }

  method Pick(paths: seq<PathWithInfo>, probs: seq<Weight>, us: Stream) returns (sel: seq<PathWithInfo>)
    requires |probs| == |paths|
    ensures sel == PartOf(paths, probs, us)
  {
    sel := [];
    var taken: set<nat> := {};
    while |sel| < PATHS_PER_DEST && |sel| < |paths|
      invariant |sel| <= Fewer(PATHS_PER_DEST, |paths|)
      invariant taken == Members(Picks(probs, us, |sel|)) && sel == RoutesAt(paths, Picks(probs, us, |sel|))
    {
      var total := Available(probs, taken);
      var k := Locate(probs, taken, Portion(us(|sel|), total));
      MembersSnoc(Picks(probs, us, |sel|), k);
      taken := taken + {k};
      sel := sel + [paths[k]];
    }
  }

  // ---------- Scoring a selection ----------

  type Loads = map<(Node, Node), real>

  /** What sharing an edge costs: the square of its routes times its load, at least 1, times 5. */
  function Penalty(routes: nat, load: real): real {
    routes as real * routes as real * (if load > 1.0 then load else 1.0) * LOAD_WEIGHT
  }

  function LoadAt(loads: Loads, e: (Node, Node)): real {
    if e in loads then loads[e] else 0.0
  }

  ghost function Sharing(ps: seq<PathWithInfo>, loads: Loads): ((Node, Node)) -> real {
    (e: (Node, Node)) => Penalty(Traversals(ps, e.0, e.1), LoadAt(loads, e))
  }

  /** The latency of the routes and, once per edge, the penalty for sharing it. */
  ghost function SelectionScore(ps: seq<PathWithInfo>, loads: Loads): real {
    TotalLatency(ps) + SumOver(Sharing(ps, loads), UsedEdges(ps))
  }

  ghost predicate SimpleRoutes(ps: seq<PathWithInfo>) {
    forall p :: p in ps ==> Simple(p.path) && |p.path| >= 1
  }

  method CountEdges(ps: seq<PathWithInfo>) returns (usage: Usage)
    requires SimpleRoutes(ps)
    ensures Counting(usage, ps, [])
  {
    usage := map[];
    for n := 0 to |ps|
      invariant Counting(usage, ps[..n], [])
    {
      assert ps[n] in ps && ps[..n + 1] == ps[..n] + [ps[n]];
      var path := ps[n].path;
      for i := 0 to |path| - 1
        invariant Counting(usage, ps[..n], path[..i + 1])
      {
        CountingStep(usage, ps[..n], path, i);
        usage := Bump(usage, (path[i], path[i + 1]));
      }
      assert path[..|path|] == path;
      CountingDone(usage, ps[..n], ps[n]);
    }
    assert ps[..|ps|] == ps;
  }

  /** The score with a sum over the edges already processed. */
  ghost predicate Scoring(ps: seq<PathWithInfo>, loads: Loads, latency: real, edges: set<(Node, Node)>, score: real) {
    score == latency + SumOver(Sharing(ps, loads), edges)
  }

  lemma ScoringStep(ps: seq<PathWithInfo>, loads: Loads, latency: real, edges: set<(Node, Node)>, score: real,
                    e: (Node, Node))
    requires Scoring(ps, loads, latency, edges, score) && e !in edges
    ensures Scoring(ps, loads, latency, edges + {e}, score + Sharing(ps, loads)(e))
  {
    SumAny(Sharing(ps, loads), edges + {e}, e);
    assert edges + {e} - {e} == edges;
  }

  /** The penalty of an edge, unless processed before. */
  method ScoreEdge(ghost ps: seq<PathWithInfo>, loads: Loads, usage: Usage, e: (Node, Node), ghost latency: real,
                   processed0: set<(Node, Node)>, score0: real)
    returns (processed: set<(Node, Node)>, score: real)
    requires Counting(usage, ps, []) && e in UsedEdges(ps)
    requires Scoring(ps, loads, latency, processed0, score0)
    ensures processed == processed0 + {e} && Scoring(ps, loads, latency, processed, score)
  {
    processed, score := processed0 + {e}, score0;
    if e in processed0 {
      assert processed == processed0;
    } else {
      ScoringStep(ps, loads, latency, processed0, score, e);
      assert (e.0, e.1) in usage && usage[(e.0, e.1)] == Traversals(ps, e.0, e.1);
      score := score + Penalty(usage[e], LoadAt(loads, e));
    }
  }

  /** The penalties of one more route's edges, skipping those processed. */
  method ScoreEdges(ghost ps: seq<PathWithInfo>, loads: Loads, usage: Usage, path: seq<Node>, ghost latency: real,
                    processed0: set<(Node, Node)>, score0: real)
    returns (processed: set<(Node, Node)>, score: real)
    requires Counting(usage, ps, []) && |path| >= 1 && EdgesOf(path) <= UsedEdges(ps)
    requires Scoring(ps, loads, latency, processed0, score0)
    ensures processed == processed0 + EdgesOf(path) && Scoring(ps, loads, latency, processed, score)
  {
    processed, score := processed0, score0;
    for i := 0 to |path| - 1
      invariant processed == processed0 + EdgesOf(path[..i + 1]) && Scoring(ps, loads, latency, processed, score)
    {
      var e := (path[i], path[i + 1]);
      assert path[..i + 2][..i + 1] == path[..i + 1];
      EdgeAt(path, i);
      processed, score := ScoreEdge(ps, loads, usage, e, latency, processed, score);
    }
    assert path[..|path|] == path;
  }

  lemma {:induction false} EdgeAt(path: seq<Node>, i: nat)
    requires i + 1 < |path|
    ensures (path[i], path[i + 1]) in EdgesOf(path)
  {
    if i + 2 < |path| {
      EdgeAt(path[..|path| - 1], i);
    }
  }

  lemma {:induction false} EdgesWithin(ps: seq<PathWithInfo>, n: nat)
    requires n < |ps|
    ensures EdgesOf(ps[n].path) <= UsedEdges(ps)
  {
    if n + 1 < |ps| {
      EdgesWithin(ps[..|ps| - 1], n);
    }
  }

  method ScoreSelection(ps: seq<PathWithInfo>, loads: Loads) returns (score: real)
    requires SimpleRoutes(ps)
    ensures score == SelectionScore(ps, loads)
  {
    var usage := CountEdges(ps);
    var processed: set<(Node, Node)> := {};
    score := 0.0;
    for n := 0 to |ps|
      invariant processed == UsedEdges(ps[..n])
      invariant Scoring(ps, loads, TotalLatency(ps[..n]), processed, score)
    {
      assert ps[n] in ps && ps[..n + 1][..n] == ps[..n] && ps[..n + 1][n] == ps[n];
      EdgesWithin(ps, n);
      score := score + ps[n].latency;
      processed, score := ScoreEdges(ps, loads, usage, ps[n].path, TotalLatency(ps[..n + 1]), processed, score);
    }
    assert ps[..|ps|] == ps;
  }

  // ---------- Stochastic beam search ----------

  /** The candidates of a destination with their weights. */
  datatype Choice = Choice(paths: seq<PathWithInfo>, probs: seq<Weight>)

  /** The random numbers of a run, by iteration and destination. */
  type Draws = (nat, nat) -> Stream

  ghost predicate Choices(cs: seq<Choice>) {
    forall d :: 0 <= d < |cs| ==>
      && Sorting.NoDuplicates(cs[d].paths) && SimpleRoutes(cs[d].paths)
      && Weighted(cs[d].paths, cs[d].probs, InverseTotal(cs[d].paths, |cs[d].paths|))
  }

  ghost function PartAt(c: Choice, us: Stream): seq<PathWithInfo> {
    if |c.probs| == |c.paths| then PartOf(c.paths, c.probs, us) else []
  }

  /** What an iteration's random numbers select for the first n destinations. */
  ghost function SelectionOf(cs: seq<Choice>, draws: Draws, it: nat, n: nat): seq<PathWithInfo>
    requires n <= |cs|
  {
    if n == 0 then [] else SelectionOf(cs, draws, it, n - 1) + PartAt(cs[n - 1], draws(it, n - 1))
  }

  lemma {:induction false} SelectionSimple(cs: seq<Choice>, draws: Draws, it: nat, n: nat)
    requires Choices(cs) && n <= |cs|
    ensures SimpleRoutes(SelectionOf(cs, draws, it, n))
  {
    if n > 0 {
      SelectionSimple(cs, draws, it, n - 1);
      PartIsPicked(cs[n - 1].paths, cs[n - 1].probs, draws(it, n - 1));
    }
  }

  method SelectRoutes(cs: seq<Choice>, draws: Draws, it: nat) returns (sel: seq<PathWithInfo>)
    requires Choices(cs)
    ensures sel == SelectionOf(cs, draws, it, |cs|)
  {
    sel := [];
    for d := 0 to |cs|
      invariant sel == SelectionOf(cs, draws, it, d)
    {
      var part := Pick(cs[d].paths, cs[d].probs, draws(it, d));
      sel := sel + part;
    }
  }

  /** The selections of the first n iterations. */
  ghost function Selections(cs: seq<Choice>, draws: Draws, n: nat): (sels: seq<seq<PathWithInfo>>)
    ensures |sels| == n
  {
    if n == 0 then [] else Selections(cs, draws, n - 1) + [SelectionOf(cs, draws, n - 1, |cs|)]
  }

  lemma {:induction false} SelectionsAt(cs: seq<Choice>, draws: Draws, n: nat, it: nat)
    requires it < n
    ensures Selections(cs, draws, n)[it] == SelectionOf(cs, draws, it, |cs|)
  {
    if it < n - 1 {
      SelectionsAt(cs, draws, n - 1, it);
    }
  }

  /** Selection `at` is the first among the first n with the least score. */
  ghost predicate FirstLeast(sels: seq<seq<PathWithInfo>>, loads: Loads, at: nat, n: nat) {
    && at < n <= |sels|
    && (forall i :: 0 <= i < n ==> SelectionScore(sels[at], loads) <= SelectionScore(sels[i], loads))
    && (forall i :: 0 <= i < at ==> SelectionScore(sels[at], loads) < SelectionScore(sels[i], loads))
  }

  lemma LeastOfMore(sels: seq<seq<PathWithInfo>>, loads: Loads, at: nat, n: nat)
    requires FirstLeast(sels, loads, at, n) && n < |sels|
    ensures var first := if SelectionScore(sels[n], loads) < SelectionScore(sels[at], loads) then n else at;
            FirstLeast(sels, loads, first, n + 1)
  {
  }

  /** One iteration: the selection its random numbers give, and its score. */
  method Sample(cs: seq<Choice>, loads: Loads, draws: Draws, it: nat, ghost sels: seq<seq<PathWithInfo>>)
    returns (sel: seq<PathWithInfo>, score: real)
    requires Choices(cs) && it < |sels| && sels == Selections(cs, draws, |sels|)
    ensures sel == sels[it] && score == SelectionScore(sel, loads)
  {
    sel := SelectRoutes(cs, draws, it);
    SelectionsAt(cs, draws, |sels|, it);
    SelectionSimple(cs, draws, it, |cs|);
    score := ScoreSelection(sel, loads);
  }

  /** Whatever the random numbers: the first selection with the least score of the hundred that they give. */
  method BeamSearch(cs: seq<Choice>, loads: Loads, draws: Draws) returns (best: seq<PathWithInfo>, ghost at: nat)
    requires Choices(cs)
    ensures FirstLeast(Selections(cs, draws, ITERATIONS), loads, at, ITERATIONS)
    ensures best == Selections(cs, draws, ITERATIONS)[at]
  {
    ghost var sels := Selections(cs, draws, ITERATIONS);
    var score: real;
    best, score := Sample(cs, loads, draws, 0, sels);
    at := 0;
    for n := 1 to ITERATIONS
      invariant FirstLeast(sels, loads, at, n)
      invariant best == sels[at] && score == SelectionScore(best, loads)
    {
      var sel, selScore := Sample(cs, loads, draws, n, sels);
      LeastOfMore(sels, loads, at, n);
      if selScore < score {
        best, score, at := sel, selScore, n;
      }
    }
  }
}
