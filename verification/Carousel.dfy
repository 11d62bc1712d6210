/**
 What a run of the multi-destination flow solver starts from and works on: the usable share
 of an edge's capacity, load percentiles, the residual graph, and bans on its edges.
 */
module Carousel {
  import opened NetworkGraph
  import opened KShortest
  import opened FlowSearch
  import opened FlowAccounting
  import Sorting

  const FLOWS_PER_DEST := 2
  const MAX_ATTEMPTS := FLOWS_PER_DEST * 10
  const SAFE_LOAD := 60.0
  const EPSILON := 0.001
  const KSP_K := 3

  // ---------- Parameters of a run ----------

  /** The share of an edge's capacity its load leaves usable. */
  function ComputeThetaA(load: real, uhot: real): (r: real)
    ensures 0.0 <= r <= 1.0
    ensures r == 1.0 <==> load <= SAFE_LOAD
  {
    var numerator := if load - SAFE_LOAD < 0.0 then 0.0 else load - SAFE_LOAD;
    var denominator := if uhot - SAFE_LOAD < EPSILON then EPSILON else uhot - SAFE_LOAD;
    var share := numerator / denominator;
    assert share >= 0.0;
    assert numerator > 0.0 ==> share > 0.0;
    1.0 - (if share > 1.0 then 1.0 else share)
  }

  function LoadOf(x: real): real {
    x
  }

  /** A higher load never leaves more of an edge usable. */
  lemma ThetaAMonotone(load: real, higher: real, uhot: real)
    requires load <= higher
    ensures ComputeThetaA(higher, uhot) <= ComputeThetaA(load, uhot)
  {
    var range := if uhot - SAFE_LOAD < EPSILON then EPSILON else uhot - SAFE_LOAD;
    if load > SAFE_LOAD {
      SmallerQuotient(load - SAFE_LOAD, higher - SAFE_LOAD, range);
    }
  }

  lemma SmallerQuotient(a: real, b: real, d: real)
    requires a <= b && d > 0.0
    ensures a / d <= b / d
  {
  }

  function LoadsOf(edges: seq<Edge>): (loads: seq<real>)
    ensures |loads| == |edges| && forall i :: 0 <= i < |edges| ==> loads[i] == edges[i].load
  {
    seq(|edges|, i requires 0 <= i < |edges| => edges[i].load)
  }

  /** The value at a fractional position of a sorted list. */
  function Percentile(loads: seq<real>, index: real): real
    requires |loads| > 0 && index >= 0.0
  {
    var lower := index.Floor;
    if lower + 1 >= |loads| then loads[|loads| - 1]
    else Lerp(loads[lower], loads[lower + 1], index - lower as real)
  }

  function Lerp(a: real, b: real, x: real): real {
    a + x * (b - a)
  }

  lemma LerpBetween(a: real, b: real, x: real)
    requires a <= b && 0.0 <= x <= 1.0
    ensures a <= Lerp(a, b, x) <= b
  {
    Offset(x, b - a, Lerp(a, b, x) - a);
  }

  lemma Offset(x: real, d: real, r: real)
    requires 0.0 <= x <= 1.0 && d >= 0.0 && r == x * d
    ensures 0.0 <= r <= d
  {
    Interpolate(x, d);
  }

  lemma LerpMonotone(a: real, b: real, x: real, y: real)
    requires a <= b && x <= y
    ensures Lerp(a, b, x) <= Lerp(a, b, y)
  {
    Steeper(x, y, b - a);
  }

  /** It lies between the neighbouring values. */
  lemma PercentileBetween(loads: seq<real>, index: real)
    requires |loads| > 0 && index >= 0.0 && Sorting.SortedBy(loads, LoadOf)
    ensures var lower := index.Floor;
            if lower + 1 >= |loads| then Percentile(loads, index) == loads[|loads| - 1]
            else loads[lower] <= Percentile(loads, index) <= loads[lower + 1]
  {
    var lower := index.Floor;
    if lower + 1 < |loads| {
      assert LoadOf(loads[lower]) <= LoadOf(loads[lower + 1]);
      LerpBetween(loads[lower], loads[lower + 1], index - lower as real);
    }
  }

  lemma SortedAt(loads: seq<real>, i: nat, j: nat)
    requires Sorting.SortedBy(loads, LoadOf) && i <= j < |loads|
    ensures loads[i] <= loads[j]
  {
    if i < j {
      assert LoadOf(loads[i]) <= LoadOf(loads[j]);
    }
  }

  /** A higher percentile is never a lower load. */
  lemma PercentileMonotone(loads: seq<real>, i: real, j: real)
    requires |loads| > 0 && 0.0 <= i <= j && Sorting.SortedBy(loads, LoadOf)
    ensures Percentile(loads, i) <= Percentile(loads, j)
  {
    var a, b := i.Floor, j.Floor;
    PercentileBetween(loads, i);
    PercentileBetween(loads, j);
    if a + 1 >= |loads| {
      assert b + 1 >= |loads|;
    } else if b + 1 >= |loads| {
      SortedAt(loads, a + 1, |loads| - 1);
    } else if a < b {
      SortedAt(loads, a + 1, b);
    } else {
      SortedAt(loads, a, a + 1);
      LerpMonotone(loads[a], loads[a + 1], i - a as real, j - a as real);
    }
  }

  lemma Steeper(x: real, y: real, d: real)
    requires x <= y && d >= 0.0
    ensures x * d <= y * d
  {
    Product(y - x, d);
    assert (y - x) * d == y * d - x * d;
  }

  /** The list with x put behind the elements that do not exceed it. */
  ghost function Inserted(s: seq<real>, x: real): (r: seq<real>)
    ensures |r| == |s| + 1 && multiset(r) == multiset(s) + multiset{x}
  {
    if s == [] || s[|s| - 1] <= x then s + [x]
    else
      assert s == s[..|s| - 1] + [s[|s| - 1]];
      Inserted(s[..|s| - 1], x) + [s[|s| - 1]]
  }

  lemma {:induction false} InsertedSorted(s: seq<real>, x: real)
    requires Sorting.SortedBy(s, LoadOf)
    ensures Sorting.SortedBy(Inserted(s, x), LoadOf)
  {
    if !(s == [] || s[|s| - 1] <= x) {
      var rest, last := s[..|s| - 1], s[|s| - 1];
      InsertedSorted(rest, x);
      forall i | 0 <= i < |rest| + 1
        ensures Inserted(rest, x)[i] <= last
      {
        assert Inserted(rest, x)[i] in multiset(Inserted(rest, x));
        assert Inserted(rest, x)[i] in rest || Inserted(rest, x)[i] == x;
        AllBelowLast(s, Inserted(rest, x)[i]);
      }
    } else {
      forall i | 0 <= i < |s|
        ensures s[i] <= x
      {
        AllBelowLast(s, s[i]);
      }
    }
  }

  lemma AllBelowLast(s: seq<real>, y: real)
    requires s != [] && Sorting.SortedBy(s, LoadOf)
    ensures y in s ==> y <= s[|s| - 1]
  {
    if y in s {
      var i :| 0 <= i < |s| && s[i] == y;
      SortedAt(s, i, |s| - 1);
    }
  }

  /** The loads in ascending order. */
  ghost function SortedLoads(edges: seq<Edge>): (r: seq<real>)
    ensures |r| == |edges|
  {
    if edges == [] then [] else Inserted(SortedLoads(edges[..|edges| - 1]), edges[|edges| - 1].load)
  }

  lemma {:induction false} SortedLoadsAscend(edges: seq<Edge>)
    ensures Sorting.SortedBy(SortedLoads(edges), LoadOf) && multiset(SortedLoads(edges)) == multiset(LoadsOf(edges))
  {
    if edges != [] {
      var rest := edges[..|edges| - 1];
      SortedLoadsAscend(rest);
      InsertedSorted(SortedLoads(rest), edges[|edges| - 1].load);
      assert LoadsOf(edges) == LoadsOf(rest) + [edges[|edges| - 1].load];
    }
  }

  /** Two ascending lists of the same values are equal. */
  lemma {:induction false} SortedUnique(a: seq<real>, b: seq<real>)
    requires Sorting.SortedBy(a, LoadOf) && Sorting.SortedBy(b, LoadOf) && multiset(a) == multiset(b)
    ensures a == b
  {
    assert |a| == |multiset(a)| == |multiset(b)| == |b|;
    if a != [] {
      var n := |a| - 1;
      SameLast(a, b);
      SameRest(a[..n], b[..n], a[n]);
      SortedUnique(a[..n], b[..n]);
    }
  }

  lemma SameLast(a: seq<real>, b: seq<real>)
    requires Sorting.SortedBy(a, LoadOf) && Sorting.SortedBy(b, LoadOf) && multiset(a) == multiset(b)
    requires |a| == |b| > 0
    ensures var n := |a| - 1;
            a[n] == b[n] && a == a[..n] + [a[n]] && b == b[..n] + [a[n]]
  {
    var n := |a| - 1;
    assert a[n] in multiset(b) && b[n] in multiset(a);
    AllBelowLast(a, b[n]);
    AllBelowLast(b, a[n]);
  }

  lemma SameRest(a: seq<real>, b: seq<real>, x: real)
    requires multiset(a + [x]) == multiset(b + [x])
    ensures multiset(a) == multiset(b)
  {
    assert multiset(a) == multiset(a + [x]) - multiset{x};
    assert multiset(b) == multiset(b + [x]) - multiset{x};
  }

  /** The interpolated percentile of the loads; zero without edges. */
  ghost function LoadPercentile(edges: seq<Edge>, percentile: real): real
    requires 0.0 <= percentile <= 100.0
  {
    if edges == [] then 0.0 else Percentile(SortedLoads(edges), Position(percentile, |edges|))
  }

  method SortLoads(edges: seq<Edge>) returns (loads: seq<real>)
    ensures loads == SortedLoads(edges)
  {
    loads := [];
    for i := 0 to |edges|
      invariant loads == LoadsOf(edges)[..i]
    {
      loads := loads + [edges[i].load];
    }
    assert loads == LoadsOf(edges);
    loads := Sorting.ExchangeSort(loads, LoadOf);
    SortedLoadsAscend(edges);
    SortedUnique(loads, SortedLoads(edges));
  }

  method ComputePercentile(edges: seq<Edge>, percentile: real) returns (r: real)
    requires 0.0 <= percentile <= 100.0
    ensures r == LoadPercentile(edges, percentile)
  {
    if |edges| == 0 {
      return 0.0;
    }
    var loads := SortLoads(edges);
    var index := Position(percentile, |loads|);
    var lower := index.Floor;
    if lower + 1 >= |loads| {
      return loads[|loads| - 1];
    }
    r := Lerp(loads[lower], loads[lower + 1], index - lower as real);
  }

  function Position(percentile: real, n: nat): (index: real)
    requires 0.0 <= percentile <= 100.0 && n >= 1
    ensures 0.0 <= index <= (n - 1) as real
  {
    LerpBetween(0.0, (n - 1) as real, percentile / 100.0);
    Lerp(0.0, (n - 1) as real, percentile / 100.0)
  }

  lemma Interpolate(x: real, d: real)
    requires 0.0 <= x <= 1.0 && d >= 0.0
    ensures 0.0 <= x * d <= d
  {
    Product(x, d);
    Product(1.0 - x, d);
    assert (1.0 - x) * d == d - x * d;
  }

  lemma Product(a: real, b: real)
    requires a >= 0.0 && b >= 0.0
    ensures a * b >= 0.0
  {
  }

  // ---------- The residual graph of a run ----------

  ghost predicate Rated(ef: EdgeFlow, e: Edge, uhot: real, cap: real) {
    ef.cap == cap && ef.thetaA == ComputeThetaA(e.load, uhot) && ef.effCap == ef.thetaA * cap
  }

  /** The residual graph has exactly the edges given, rated by their load. */
  ghost predicate Shaped(edges: seq<Edge>, uhot: real, cap: real, g: ResGraph) {
    Drawn(edges, g) && AllRated(edges, uhot, cap, g)
  }

  /** Every list and every entry of the graph comes from an edge. */
  ghost predicate Drawn(edges: seq<Edge>, g: ResGraph) {
    && (forall u :: u in g ==> exists e :: e in edges && e.source == u)
    && (forall u, v :: u in g && v in g[u] ==> exists e :: e in edges && e.source == u && e.destination == v)
  }

  ghost predicate AllRated(edges: seq<Edge>, uhot: real, cap: real, g: ResGraph) {
    forall e :: e in edges ==>
      e.source in g && e.destination in g[e.source] && Rated(g[e.source][e.destination], e, uhot, cap)
  }

  ghost predicate Unbanned(g: ResGraph) {
    forall u, v :: u in g && v in g[u] ==> !g[u][v].banned
  }

  /** The bookkeeping of an unused edge. */
  function FreshEdge(load: real, uhot: real, cap: real): EdgeFlow {
    var thetaA := ComputeThetaA(load, uhot);
    EdgeFlow(0.0, cap, thetaA, thetaA * cap, false, thetaA * cap)
  }

  ghost predicate Idle(g: ResGraph) {
    forall u, v :: u in g && v in g[u] ==> g[u][v].flow == 0.0 && g[u][v].residual == g[u][v].effCap && !g[u][v].banned
  }

  function Place(g: ResGraph, u: Node, v: Node, ef: EdgeFlow): ResGraph {
    g[u := (if u in g then g[u] else map[])[v := ef]]
  }

  method BuildResidualGraph(edges: seq<Edge>, uhot: real, cap: real) returns (g: ResGraph)
    requires GoodEdges(edges)
    ensures Shaped(edges, uhot, cap, g) && Idle(g)
  {
    g := map[];
    for i := 0 to |edges|
      invariant Shaped(edges[..i], uhot, cap, g) && Idle(g)
    {
      var e := edges[i];
      GoodPrefix(edges, i + 1);
      assert edges[..i + 1] == edges[..i] + [e];
      var ef := FreshEdge(e.load, uhot, cap);
      ShapedOneMore(edges[..i], e, uhot, cap, g, ef);
      IdleOneMore(g, e.source, e.destination, ef);
      g := Place(g, e.source, e.destination, ef);
    }
    assert edges[..|edges|] == edges;
  }

  lemma IdleOneMore(g: ResGraph, u: Node, v: Node, ef: EdgeFlow)
    requires Idle(g) && ef.flow == 0.0 && ef.residual == ef.effCap && !ef.banned
    ensures Idle(Place(g, u, v, ef))
  {
    PlaceKeeps(g, u, v, ef);
  }

  lemma GoodPrefix(edges: seq<Edge>, n: nat)
    requires n <= |edges| && GoodEdges(edges)
    ensures GoodEdges(edges[..n])
  {
    assert forall e :: e in edges[..n] ==> e in edges;
  }

  lemma DrawnOneMore(edges: seq<Edge>, e: Edge, g: ResGraph, ef: EdgeFlow)
    requires Drawn(edges, g)
    ensures Drawn(edges + [e], Place(g, e.source, e.destination, ef))
  {
    Sorting.SnocMembers(edges, e);
    PlaceKeeps(g, e.source, e.destination, ef);
  }

  lemma RatedOneMore(edges: seq<Edge>, e: Edge, uhot: real, cap: real, g: ResGraph, ef: EdgeFlow)
    requires GoodEdges(edges + [e]) && AllRated(edges, uhot, cap, g) && Rated(ef, e, uhot, cap)
    ensures AllRated(edges + [e], uhot, cap, Place(g, e.source, e.destination, ef))
  {
    var all := edges + [e];
    Sorting.SnocMembers(edges, e);
    PlaceKeeps(g, e.source, e.destination, ef);
    forall x | x in all && x != e
      ensures x in edges && (x.source != e.source || x.destination != e.destination)
    {
      assert e in all;
    }
  }

  lemma ShapedOneMore(edges: seq<Edge>, e: Edge, uhot: real, cap: real, g: ResGraph, ef: EdgeFlow)
    requires GoodEdges(edges + [e]) && Shaped(edges, uhot, cap, g) && Rated(ef, e, uhot, cap)
    ensures Shaped(edges + [e], uhot, cap, Place(g, e.source, e.destination, ef))
  {
    DrawnOneMore(edges, e, g, ef);
    RatedOneMore(edges, e, uhot, cap, g, ef);
  }

  lemma PlaceKeeps(g: ResGraph, u: Node, v: Node, ef: EdgeFlow)
    ensures var h := Place(g, u, v, ef);
            && h.Keys == g.Keys + {u} && v in h[u] && h[u][v] == ef
            && (forall x, y :: x in h && y in h[x] ==>
                  (x == u && y == v) || (x in g && y in g[x] && h[x][y] == g[x][y]))
            && (forall x, y :: x in g && y in g[x] && (x != u || y != v) ==> y in h[x] && h[x][y] == g[x][y])
  {
  }

  /** The same edges with the same ratings. */
  ghost predicate SameShape(g: ResGraph, h: ResGraph) {
    && g.Keys == h.Keys
    && (forall u :: u in g ==> g[u].Keys == h[u].Keys)
    && (forall u, v :: u in g && v in g[u] ==>
          h[u][v].cap == g[u][v].cap && h[u][v].thetaA == g[u][v].thetaA && h[u][v].effCap == g[u][v].effCap)
  }

  /** An update that leaves capacities and ratings alone. */
  ghost predicate KeepsRatings(f: EdgeFlow -> EdgeFlow) {
    forall ef :: f(ef).cap == ef.cap && f(ef).thetaA == ef.thetaA && f(ef).effCap == ef.effCap
  }

  lemma AlongKeepsShape(g: ResGraph, h: ResGraph, p: seq<Node>, f: EdgeFlow -> EdgeFlow)
    requires Along(g, h, p, f) && KeepsRatings(f)
    ensures SameShape(g, h)
  {
  }

  /** Effective capacity never exceeds capacity. */
  lemma EffectiveWithinCapacity(edges: seq<Edge>, uhot: real, cap: real, g: ResGraph, u: Node, v: Node)
    requires cap >= 0.0 && Shaped(edges, uhot, cap, g) && u in g && v in g[u]
    ensures 0.0 <= g[u][v].effCap <= g[u][v].cap == cap
  {
    var e :| e in edges && e.source == u && e.destination == v;
    RatedWithin(g[u][v], e, uhot, cap);
  }

  lemma RatedWithin(ef: EdgeFlow, e: Edge, uhot: real, cap: real)
    requires cap >= 0.0 && Rated(ef, e, uhot, cap)
    ensures 0.0 <= ef.effCap <= ef.cap == cap
  {
    Interpolate(ef.thetaA, cap);
  }

  // ---------- Bans ----------

  function Banned(ef: EdgeFlow): EdgeFlow {
    ef.(banned := true)
  }

  /** Exactly the edges of the route become banned. */
  method BanPathEdges(g0: ResGraph, path: seq<Node>) returns (g: ResGraph)
    requires |path| >= 1 && Simple(path)
    ensures Along(g0, g, path, Banned)
  {
    g := g0;
    for i := 0 to |path| - 1
      invariant Along(g0, g, path[..i + 1], Banned)
    {
      AlongStep(g0, g, path, i, Banned);
      var u, v := path[i], path[i + 1];
      if u in g && v in g[u] {
        g := SetEdge(g, u, v, Banned(g[u][v]));
      }
    }
    assert path[..|path|] == path;
  }

  function UnbanAllEdges(g: ResGraph): (h: ResGraph)
    ensures h.Keys == g.Keys && Unbanned(h)
    ensures forall u :: u in g ==> h[u].Keys == g[u].Keys
    ensures forall u, v :: u in g && v in g[u] ==> h[u][v] == g[u][v].(banned := false)
  {
    map u | u in g :: map v | v in g[u] :: g[u][v].(banned := false)
  }

  /** Bans touch neither flows nor ratings. */
  lemma BanKeepsFlows(g: ResGraph, h: ResGraph, p: seq<Node>, ps: seq<PathWithInfo>)
    requires FlowsMatch(g, ps) && Along(g, h, p, Banned)
    ensures FlowsMatch(h, ps)
  {
  }

  lemma UnbanKeeps(g: ResGraph, ps: seq<PathWithInfo>)
    requires FlowsMatch(g, ps)
    ensures FlowsMatch(UnbanAllEdges(g), ps) && SameShape(g, UnbanAllEdges(g))
  {
  }
}
