/**
 The k-route search: Yen's deviation scheme. The cut-off of its searches costs optimality of
 the order in which routes are found, but neither completeness nor exact pricing.
 */
module Yen {
  import opened NetworkGraph
  import opened ShortestPath
  import opened Optimality
  import opened Subnetworks
  import opened Wrappers
  import opened Spur
  import Routes
  import PathKey
  import Sorting

  // ---------- What the queue covers ----------

  /** The first m roots of this route have been dealt with. */
  ghost predicate CoveredTo(b: Problem, found: seq<Path>, queue: seq<PQNode>, hops: seq<Node>, m: int) {
    forall n {:trigger Covered(b, found, queue, hops[..n])} ::
      1 <= n <= m && n < |hops| ==> Covered(b, found, queue, hops[..n])
  }

  ghost predicate CoveredRoute(b: Problem, found: seq<Path>, queue: seq<PQNode>, hops: seq<Node>) {
    CoveredTo(b, found, queue, hops, |hops| - 1)
  }

  lemma CoveredOneMore(b: Problem, found: seq<Path>, queue: seq<PQNode>, more: seq<PQNode>, hops: seq<Node>, j: nat)
    requires j + 1 < |hops| && queue <= more
    requires CoveredTo(b, found, queue, hops, j) && Covered(b, found, more, hops[..j + 1])
    ensures CoveredTo(b, found, more, hops, j + 1)
  {
    CoveredToMore(b, found, queue, more, hops, j);
  }

  lemma CoveredToMore(b: Problem, found: seq<Path>, queue: seq<PQNode>, more: seq<PQNode>, hops: seq<Node>, m: int)
    requires queue <= more && CoveredTo(b, found, queue, hops, m)
    ensures CoveredTo(b, found, more, hops, m)
  {
    forall n | 1 <= n <= m && n < |hops|
      ensures Covered(b, found, more, hops[..n])
    {
      assert Covered(b, found, queue, hops[..n]);
      CoveredMore(b, found, queue, more, hops[..n]);
    }
  }

  /** A route that agrees with a found one for n nodes agrees with a found one for one more, or is covered. */
  lemma FollowedFurther(b: Problem, found: seq<Path>, queue: seq<PQNode>, p: seq<Node>, n: nat, x: Path)
    returns (r: Path)
    requires b.Route(p) && 1 <= n < |p| && !Covers(b, queue, p)
    requires x in found && b.Priced(x) && CoveredRoute(b, found, queue, x.hops) && |x.hops| >= n
    requires x.hops[..n] == p[..n]
    ensures r in found && |r.hops| > n && r.hops[..n + 1] == p[..n + 1]
  {
    var root := p[..n];
    assert |x.hops| > n by {
      assert x.hops[n - 1] == p[n - 1];
    }
    assert Covered(b, found, queue, x.hops[..n]);
    assert !LeavesAt(b, found, root, p);
    r := Continued(found, p, n);
  }

  lemma Continued(found: seq<Path>, p: seq<Node>, n: nat) returns (r: Path)
    requires Simple(p) && 1 <= n < |p| && !Deviates(found, p[..n], p[n])
    ensures r in found && |r.hops| > n && r.hops[..n + 1] == p[..n + 1]
  {
    var root := p[..n];
    assert p[n] !in root;
    r :| r in found && SharesRoot(r, root) && |r.hops| > n && r.hops[n] == p[n];
    assert r.hops[..n + 1] == root + [p[n]] == p[..n + 1];
  }

  lemma {:induction false} FollowedFor(b: Problem, found: seq<Path>, queue: seq<PQNode>, p: seq<Node>, n: nat)
    returns (r: Path)
    requires |found| > 0 && (forall x :: x in found ==> b.Priced(x) && CoveredRoute(b, found, queue, x.hops))
    requires b.Route(p) && 1 <= n <= |p| && !Covers(b, queue, p)
    ensures r in found && |r.hops| >= n && r.hops[..n] == p[..n]
  {
    if n == 1 {
      r := found[0];
      assert b.Priced(r);
      assert r.hops[..1] == [b.start] == p[..1];
    } else {
      var x := FollowedFor(b, found, queue, p, n - 1);
      r := FollowedFurther(b, found, queue, p, n - 1, x);
    }
  }

  ghost predicate Missing(found: seq<Path>, p: seq<Node>) {
    forall r :: r in found ==> r.hops != p
  }

  /** After a full pass a route is found or covered; with an empty queue it is found. */
  lemma MissingIsCovered(b: Problem, found: seq<Path>, queue: seq<PQNode>, p: seq<Node>)
    requires |found| > 0 && (forall x :: x in found ==> b.Priced(x) && CoveredRoute(b, found, queue, x.hops))
    requires b.Route(p) && Missing(found, p)
    ensures Covers(b, queue, p)
  {
    if !Covers(b, queue, p) {
      var r := FollowedFor(b, found, queue, p, |p|);
      WholeRoute(b, r, p);
    }
  }

  /** A route that starts with a whole other route is that route. */
  lemma WholeRoute(b: Problem, r: Path, p: seq<Node>)
    requires b.Priced(r) && b.Route(p) && |r.hops| >= |p| && r.hops[..|p|] == p
    ensures r.hops == p
  {
    assert r.hops[|p| - 1] == p[|p| - 1];
  }

  // ---------- The algorithm ----------

  /** Every root of one found route is tried. */
  method SpurRoute(b: Problem, working: Graph, found: seq<Path>, queue0: seq<PQNode>, hops: seq<Node>)
    returns (graphCopy: Graph, queue: seq<PQNode>)
    requires b.Valid() && working == b.graph && State(b, found, queue0) && b.Route(hops)
    ensures graphCopy == b.graph && State(b, found, queue) && queue0 <= queue
    ensures CoveredRoute(b, found, queue, hops)
  {
    graphCopy, queue := working, queue0;
    for j := 0 to |hops| - 1
      invariant graphCopy == b.graph && State(b, found, queue) && queue0 <= queue
      invariant CoveredTo(b, found, queue, hops, j)
    {
      ghost var before := queue;
      graphCopy, queue := SpurStep(b, graphCopy, found, queue, hops, j);
      CoveredOneMore(b, found, before, queue, hops, j);
    }
  }

  /** Every root of every found route is tried; the working copy comes back unchanged. */
  method GenerateCandidates(b: Problem, working: Graph, found: seq<Path>, queue0: seq<PQNode>)
    returns (graphCopy: Graph, queue: seq<PQNode>)
    requires b.Valid() && working == b.graph && State(b, found, queue0)
    ensures graphCopy == b.graph && State(b, found, queue)
    ensures forall x :: x in found ==> CoveredRoute(b, found, queue, x.hops)
  {
    graphCopy, queue := working, queue0;
    for i := 0 to |found|
      invariant graphCopy == b.graph && State(b, found, queue)
      invariant forall n :: 0 <= n < i ==> CoveredRoute(b, found, queue, found[n].hops)
    {
      ghost var before := queue;
      assert b.Priced(found[i]);
      graphCopy, queue := SpurRoute(b, graphCopy, found, queue, found[i].hops);
      forall n | 0 <= n < i {
        CoveredToMore(b, found, before, queue, found[n].hops, |found[n].hops| - 1);
      }
    }
  }

  /** Moving the cheapest candidate to the found routes. */
  lemma Promote(b: Problem, found: seq<Path>, queue: seq<PQNode>, i: nat)
    requires State(b, found, queue) && i < |queue|
    ensures State(b, found + [Path(PathKey.Split(queue[i].node), queue[i].cost, queue[i].rawRTT)], WithoutAt(queue, i))
  {
    var x := queue[i];
    var rest := WithoutAt(queue, i);
    var found' := found + [Path(PathKey.Split(x.node), x.cost, x.rawRTT)];
    assert b.Candidate(x);
    assert forall n :: 0 <= n < |rest| ==> rest[n] == queue[if n < i then n else n + 1];
    assert DistinctKeys(rest);
    forall y | y in rest
      ensures y in queue && PathKey.Split(y.node) != PathKey.Split(x.node)
    {
      assert b.Candidate(y);
    }
  }

  function CostOf(r: Path): real {
    r.cost
  }

  /** On a network without unfair forks, no other route is cheaper than one of these. */
  ghost predicate Cheapest(b: Problem, rs: seq<Path>) {
    ForkFair(b.graph, b.end, b.metric) ==> CheapestOf(b, rs)
  }

  ghost predicate CheapestOf(b: Problem, rs: seq<Path>) {
    forall r, p :: r in rs && b.Route(p) && Missing(rs, p) ==> r.cost <= Length(b.graph, p, b.metric)
  }

  /** What the caller gets: up to k different priced routes in order of cost, and all of them when fewer. */
  ghost predicate KRoutes(b: Problem, k: nat, rs: seq<Path>) {
    && (forall r :: r in rs ==> b.Priced(r))
    && DistinctHops(rs)
    && 1 <= |rs| <= k
    && (|rs| < k ==> forall p :: b.Route(p) ==> exists r :: r in rs && r.hops == p)
    && Sorting.SortedBy(rs, CostOf)
    && Cheapest(b, rs)
  }

  /** Sorting keeps the routes and their difference. */
  lemma SortedRoutes(b: Problem, found: seq<Path>, rs: seq<Path>)
    requires (forall r :: r in found ==> b.Priced(r)) && DistinctHops(found) && multiset(rs) == multiset(found)
    ensures (forall r :: r in rs <==> r in found) && DistinctHops(rs)
    ensures Cheapest(b, found) ==> Cheapest(b, rs)
  {
    Sorting.PermutationMembers(found, rs);
    Sorting.PermutationDistinct(found, rs);
    forall i, j | 0 <= i < j < |rs|
      ensures rs[i].hops != rs[j].hops
    {
      assert b.Priced(rs[i]) && b.Priced(rs[j]);
    }
    assert forall p :: Missing(rs, p) ==> Missing(found, p);
  }

  /** Appending the cheapest candidate after a full pass keeps the found routes the cheapest. */
  lemma CheapestKept(b: Problem, found: seq<Path>, queue: seq<PQNode>, x: PQNode, r: Path)
    requires |found| > 0 && (forall y :: y in found ==> b.Priced(y) && CoveredRoute(b, found, queue, y.hops))
    requires Cheapest(b, found) && (forall y :: y in queue ==> x.cost <= y.cost) && r.cost == x.cost
    ensures Cheapest(b, found + [r])
  {
    Sorting.SnocMembers(found, r);
    if ForkFair(b.graph, b.end, b.metric) {
      forall p | b.Route(p) && Missing(found + [r], p)
        ensures Missing(found, p) && r.cost <= Length(b.graph, p, b.metric)
      {
        assert forall y :: y in found ==> y in found + [r];
        MissingIsCovered(b, found, queue, p);
      }
    }
  }

  /** A full pass that leaves the queue empty has found every route. */
  lemma AllRoutesFound(b: Problem, found: seq<Path>, p: seq<Node>)
    requires |found| > 0 && (forall x :: x in found ==> b.Priced(x) && CoveredRoute(b, found, [], x.hops))
    requires b.Route(p)
    ensures exists r :: r in found && r.hops == p
  {
    if Missing(found, p) {
      MissingIsCovered(b, found, [], p);
    }
  }

  /** The main loop: each pass moves one candidate to the found routes, or stops with all routes found. */
  method CollectRoutes(b: Problem, first: Path, k: nat) returns (found: seq<Path>)
    requires b.Valid() && k >= 1 && b.Priced(first) && Cheapest(b, [first])
    ensures (forall r :: r in found ==> b.Priced(r)) && DistinctHops(found) && 1 <= |found| <= k && Cheapest(b, found)
    ensures first in found
    ensures |found| < k ==> forall p :: b.Route(p) ==> exists r :: r in found && r.hops == p
  {
    var graphCopy := b.graph;
    found := [first];
    var queue: seq<PQNode> := [];
    while |found| < k
      invariant graphCopy == b.graph && State(b, found, queue) && 1 <= |found| <= k && Cheapest(b, found)
      invariant first in found
      decreases k - |found|
    {
      graphCopy, queue := GenerateCandidates(b, graphCopy, found, queue);
      if |queue| == 0 {
        forall p | b.Route(p) {
          AllRoutesFound(b, found, p);
        }
        return;
      }
      var x, rest, i := PopMin(queue);
      ghost var before, r := queue, Path(PathKey.Split(x.node), x.cost, x.rawRTT);
      CheapestKept(b, found, before, x, r);
      found, queue := AddRoute(b, found, queue, x, rest, i);
    }
  }

  /** The popped key is split and its route appended, having never been found before. */
  method AddRoute(b: Problem, found0: seq<Path>, queue0: seq<PQNode>, x: PQNode, rest: seq<PQNode>, ghost i: nat)
    returns (found: seq<Path>, queue: seq<PQNode>)
    requires b.Valid() && State(b, found0, queue0) && i < |queue0| && x == queue0[i] && rest == WithoutAt(queue0, i)
    ensures State(b, found, queue) && found == found0 + [Path(PathKey.Split(x.node), x.cost, x.rawRTT)]
  {
    Promote(b, found0, queue0, i);
    assert b.Candidate(x);
    var hops := RemoveConsecutiveDuplicates(PathKey.Split(x.node));
    WalkNames(b, hops);
    forall r | r in found0
      ensures |r.hops| >= 1 && PathKey.ArrowFree(r.hops)
    {
      WalkNames(b, r.hops);
    }
    found, queue := found0, rest;
    var known := IsPathInList(hops, found);
    if !known {
      found := found + [Path(hops, x.cost, x.rawRTT)];
    }
  }

  /** The first search may return a route of this cost; with k = 1 it is the only one. */
  ghost predicate MayBeFirst(b: Problem, c: real) {
    Returnable(Query(b.graph, {}, b.start, b.end, b.metric), c)
  }

  /** Whatever the first route is, no route is cheaper. */
  ghost predicate FirstIsRight(b: Problem) {
    forall c, p :: MayBeFirst(b, c) && b.Route(p) ==> c <= Length(b.graph, p, b.metric)
  }

  lemma FirstIsRightIffShortest(b: Problem)
    requires WellFormed(b.graph) && NonNegative(b.graph, b.metric)
    ensures FirstIsRight(b) <==> AlwaysShortest(Query(b.graph, {}, b.start, b.end, b.metric))
  {
    var q := Query(b.graph, {}, b.start, b.end, b.metric);
    if FirstIsRight(b) {
      forall c, w | Returnable(q, c) && q.Reaches(q.end, w)
        ensures c <= Length(b.graph, w, b.metric)
      {
        var p := Routes.Shortcut(b.graph, w, b.metric);
        assert MayBeFirst(b, c) && b.Route(p);
      }
    }
    if AlwaysShortest(q) {
      forall c, p | MayBeFirst(b, c) && b.Route(p)
        ensures c <= Length(b.graph, p, b.metric)
      {
        assert Returnable(q, c) && q.Reaches(q.end, p);
      }
    }
  }

  /**
   The promise of the cheapest routes, on a network and all its subnetworks and from every start:
   it holds for every k when no fork is unfair, and already fails for k = 1 when one is.
   */
  lemma PromiseIffForkFair(g: Graph, end: Node, m: Metric)
    requires WellFormed(g) && NonNegative(g, m) && end != ""
    ensures ForkFair(g, end, m) <==> forall h, s :: Subnetwork(g, h) && s != "" ==> FirstIsRight(Problem(h, s, end, m))
    ensures ForkFair(g, end, m) ==>
              forall h, s, k, rs :: Subnetwork(g, h) && KRoutes(Problem(h, s, end, m), k, rs) ==>
                                      CheapestOf(Problem(h, s, end, m), rs)
  {
    RightIffForkFair(g, end, m);
    forall h, s | Subnetwork(g, h) && s != ""
      ensures FirstIsRight(Problem(h, s, end, m)) <==> AlwaysShortest(Query(h, {}, s, end, m))
    {
      SubnetworkValid(g, h, s, end, m);
      FirstIsRightIffShortest(Problem(h, s, end, m));
    }
    if ForkFair(g, end, m) {
      forall h, s, k: nat, rs | Subnetwork(g, h) && KRoutes(Problem(h, s, end, m), k, rs)
        ensures CheapestOf(Problem(h, s, end, m), rs)
      {
        SubnetworkFair(g, h, end, m);
      }
    }
  }

  lemma FirstIsCheapest(b: Problem, q: Query, first: Path)
    requires q == Query(b.graph, {}, b.start, b.end, b.metric) && q.Valid() && Answers(q, first)
    ensures Cheapest(b, [first])
  {
    if ForkFair(b.graph, b.end, b.metric) {
      forall p | b.Route(p)
        ensures first.cost <= Length(b.graph, p, b.metric)
      {
        FairIsShortest(q, first.hops, p);
      }
    }
  }

  /** The first route: none exactly when there is none at all. */
  method FirstRoute(b: Problem) returns (r: Option<Path>)
    requires b.Valid()
    ensures r.None? ==> forall p :: !b.Route(p)
    ensures r.Some? ==> b.Priced(r.value) && Cheapest(b, [r.value]) && MayBeFirst(b, r.value.cost)
  {
    var q := Query(b.graph, {}, b.start, b.end, b.metric);
    var first := FindShortestPath(q);
    if first.None? {
      forall p
        ensures !b.Route(p)
      {
        assert !q.Reaches(b.end, p);
      }
      return None;
    }
    var hops := RemoveConsecutiveDuplicates(first.value.hops);
    assert hops == first.value.hops;
    FirstIsCheapest(b, q, first.value);
    return Some(first.value.(hops := hops));
  }

  /** Cleaning up hops changes no route. */
  method CleanRoutes(b: Problem, sorted: seq<Path>) returns (rs: seq<Path>)
    requires forall r :: r in sorted ==> b.Priced(r)
    ensures rs == sorted
  {
    rs := [];
    for i := 0 to |sorted|
      invariant rs == sorted[..i]
    {
      assert b.Priced(sorted[i]);
      var clean := RemoveConsecutiveDuplicates(sorted[i].hops);
      rs := rs + [sorted[i].(hops := clean)];
    }
    assert sorted[..|sorted|] == sorted;
  }

  /** Exactly the routes the caller may rely on, or nothing exactly when there is no route. */
  method YensAlgorithm(b: Problem, k: nat) returns (r: Option<seq<Path>>)
    requires b.Valid() && k >= 1
    ensures r.None? <==> forall p :: !b.Route(p)
    ensures r.Some? ==> KRoutes(b, k, r.value) && exists x :: x in r.value && MayBeFirst(b, x.cost)
  {
    var first := FirstRoute(b);
    if first.None? {
      return None;
    }
    assert b.Route(first.value.hops);
    var found := CollectRoutes(b, first.value, k);
    var sorted := Sorting.ExchangeSort(found, CostOf);
    SortedRoutes(b, found, sorted);
    Sorting.PermutationMembers(found, sorted);
    var rs := CleanRoutes(b, sorted);
    return Some(rs);
  }
}
