/**
 One deviation of the k-route search. A working copy of the adjacency lists is edited around
 a spur node, searched with the cut-off search and restored; a new candidate waits in a queue
 under its joined key.
 */
module Spur {
  import opened NetworkGraph
  import opened ShortestPath
  import opened Optimality
  import opened Subnetworks
  import PathKey
  import Sorting

  /** A routing problem: k routes from start to end under a metric. */
  datatype Problem = Problem(graph: Graph, start: Node, end: Node, metric: Metric) {
    ghost predicate Valid() {
      && WellFormed(graph) && NonNegative(graph, metric)
      && start != "" && !PathKey.HasArrow(start)
      && end != "" && !PathKey.HasArrow(end)
      && (forall u, e :: u in graph && e in graph[u] ==> !PathKey.HasArrow(e.destination))
    }

    ghost predicate Route(p: seq<Node>) {
      SimplePath(graph, start, end, p)
    }

    /** A route carrying its exact price and latency. */
    ghost predicate Priced(r: Path) {
      && Route(r.hops)
      && r.cost == Length(graph, r.hops, metric)
      && r.rawRTT == Length(graph, r.hops, ByLatency)
    }

    /** A queued candidate: its key spells a priced route. */
    ghost predicate Candidate(x: PQNode) {
      && x.node == PathKey.Join(PathKey.Split(x.node))
      && Priced(Path(PathKey.Split(x.node), x.cost, x.rawRTT))
    }
  }

  // ---------- Small helpers of the source ----------

  method HasDuplicateNodes(hops: seq<Node>) returns (dup: bool)
    ensures dup <==> !Simple(hops)
  {
    var seen: set<Node> := {};
    for i := 0 to |hops|
      invariant Simple(hops[..i])
      invariant forall x :: x in seen <==> x in hops[..i]
    {
      if hops[i] in seen {
        var j :| 0 <= j < i && hops[j] == hops[i];
        return true;
      }
      seen := seen + {hops[i]};
    }
    assert hops[..|hops|] == hops;
    return false;
  }

  /** The nodes in order, each run of equal ones reduced to one. */
  function Squeezed(hops: seq<Node>): seq<Node> {
    if |hops| <= 1 then hops
    else if hops[|hops| - 1] == hops[|hops| - 2] then Squeezed(hops[..|hops| - 1])
    else Squeezed(hops[..|hops| - 1]) + [hops[|hops| - 1]]
  }

  lemma {:induction false} SqueezedFacts(hops: seq<Node>)
    ensures hops != [] ==> Squeezed(hops) != [] && Squeezed(hops)[|Squeezed(hops)| - 1] == hops[|hops| - 1]
    ensures forall i :: 0 < i < |Squeezed(hops)| ==> Squeezed(hops)[i] != Squeezed(hops)[i - 1]
    ensures forall x :: x in Squeezed(hops) <==> x in hops
  {
    if |hops| > 1 {
      var front, last := hops[..|hops| - 1], hops[|hops| - 1];
      SqueezedFacts(front);
      assert hops == front + [last];
      Sorting.SnocMembers(front, last);
      Sorting.SnocMembers(Squeezed(front), last);
      assert last == hops[|hops| - 2] ==> last in front;
    }
  }

  lemma {:induction false} SqueezedSimple(hops: seq<Node>)
    requires Simple(hops)
    ensures Squeezed(hops) == hops
  {
    if |hops| > 1 {
      SqueezedSimple(hops[..|hops| - 1]);
      assert hops == hops[..|hops| - 1] + [hops[|hops| - 1]];
    }
  }

  method RemoveConsecutiveDuplicates(hops: seq<Node>) returns (r: seq<Node>)
    ensures r == Squeezed(hops)
    ensures forall i :: 0 < i < |r| ==> r[i] != r[i - 1]
    ensures forall x :: x in r <==> x in hops
    ensures Simple(hops) ==> r == hops
  {
    SqueezedFacts(hops);
    if Simple(hops) {
      SqueezedSimple(hops);
    }
    if |hops| <= 1 {
      return hops;
    }
    r := [hops[0]];
    for i := 1 to |hops|
      invariant r == Squeezed(hops[..i])
    {
      assert hops[..i + 1][..i] == hops[..i];
      if hops[i] != hops[i - 1] {
        r := r + [hops[i]];
      }
    }
    assert hops[..|hops|] == hops;
  }

  /** The price of the first edge to dest, or nothing. */
  method EdgePrice(g: Graph, source: Node, dest: Node, m: Metric) returns (price: real)
    requires WellFormed(g)
    ensures price == if HasEdge(g, source, dest) then Weight(g, source, dest, m) else 0.0
  {
    var edges := if source in g then g[source] else [];
    for n := 0 to |edges|
      invariant forall k :: 0 <= k < n ==> edges[k].destination != dest
    {
      if edges[n].destination == dest {
        WeightOfEdge(g, source, edges[n], m);
        return Price(edges[n], m);
      }
    }
    return 0.0;
  }

  method CalculatePathCost(path: seq<Node>, g: Graph, m: Metric) returns (cost: real)
    requires WellFormed(g)
    ensures cost == Length(g, path, m)
  {
    cost := 0.0;
    if path == [] {
      return;
    }
    for i := 1 to |path|
      invariant cost == Length(g, path[..i], m)
    {
      var source, dest := path[i - 1], path[i];
      assert path[..i + 1][..i] == path[..i];
      var price := EdgePrice(g, source, dest, m);
      cost := cost + price;
    }
    assert path[..|path|] == path;
  }

  // ---------- The edited graph ----------

  function Elements(s: seq<Node>): set<Node> {
    set x | x in s
  }

  /** Whether a found route runs through this root. */
  predicate SharesRoot(r: Path, root: seq<Node>) {
    |r.hops| >= |root| && r.hops[..|root|] == root
  }

  /** A step to v leaves the root and no found route takes it there. */
  ghost predicate Deviates(found: seq<Path>, root: seq<Node>, v: Node) {
    && v !in root
    && (forall r :: r in found && SharesRoot(r, root) && |r.hops| > |root| ==> r.hops[|root|] != v)
  }

  lemma DeviatesFromBoth(found: seq<Path>, r: Path, root: seq<Node>, v: Node)
    ensures Deviates(found + [r], root, v) <==> Deviates(found, root, v) && Deviates([r], root, v)
  {
    assert r in found + [r];
    assert forall x :: x in found + [r] <==> x in found || x == r;
  }

  /** The edges left at the spur node, the last node of the root. */
  ghost predicate SpurEdges(g: Graph, found: seq<Path>, root: seq<Node>, edges: seq<Edge>)
    requires |root| >= 1 && root[|root| - 1] in g
  {
    forall e :: e in edges <==> e in g[root[|root| - 1]] && Deviates(found, root, e.destination)
  }

  method EditSpurEdges(g: Graph, found: seq<Path>, root: seq<Node>) returns (edges: seq<Edge>)
    requires |root| >= 1 && root[|root| - 1] in g
    ensures SpurEdges(g, found, root, edges)
  {
    var original := g[root[|root| - 1]];
    edges := [];
    for i := 0 to |original|
      invariant forall e :: e in edges <==> e in original[..i] && e.destination !in root
    {
      if original[i].destination !in root {
        edges := edges + [original[i]];
      }
    }
    assert original[..|original|] == original;
    for n := 0 to |found|
      invariant forall e :: e in edges <==> e in original && Deviates(found[..n], root, e.destination)
    {
      ghost var before := edges;
      assert found[..n + 1] == found[..n] + [found[n]];
      if SharesRoot(found[n], root) && |root| < |found[n].hops| {
        var target := found[n].hops[|root|];
        var kept: seq<Edge> := [];
        for i := 0 to |edges|
          invariant forall e :: e in kept <==> e in edges[..i] && e.destination != target
        {
          if edges[i].destination != target {
            kept := kept + [edges[i]];
          }
        }
        assert edges[..|edges|] == edges;
        edges := kept;
      }
      forall v
        ensures Deviates(found[..n + 1], root, v) <==> Deviates(found[..n], root, v) && Deviates([found[n]], root, v)
      {
        DeviatesFromBoth(found[..n], found[n], root, v);
      }
    }
    assert found[..|found|] == found;
  }

  /** h is g with some edges left out at one node. */
  ghost predicate Thinned(g: Graph, h: Graph, spur: Node) {
    && spur in g && spur in h
    && h == g[spur := h[spur]]
    && (forall e :: e in h[spur] ==> e in g[spur])
  }

  lemma {:induction false} ThinnedWalk(g: Graph, h: Graph, spur: Node, p: seq<Node>, m: Metric)
    requires WellFormed(g) && Thinned(g, h, spur) && IsWalk(h, p)
    ensures IsWalk(g, p) && Length(g, p, m) == Length(h, p, m)
  {
    if |p| > 1 {
      ThinnedWalk(g, h, spur, p[..|p| - 1], m);
      var u, v := p[|p| - 2], p[|p| - 1];
      var e := EdgeTo(h[u], v);
      assert e in g[u];
      WeightOfEdge(g, u, e, m);
    }
  }

  // ---------- The two halves of the deviation argument ----------

  /** Any route that leaves the root by a new step survives the edit as a spur walk. */
  lemma DeviationSurvives(b: Problem, h: Graph, found: seq<Path>, root: seq<Node>, p: seq<Node>)
    requires b.Valid() && b.Route(p) && 1 <= |root| < |p| && p[..|root|] == root
    requires root[|root| - 1] in b.graph && Thinned(b.graph, h, root[|root| - 1])
    requires SpurEdges(b.graph, found, root, h[root[|root| - 1]])
    requires Deviates(found, root, p[|root|])
    ensures Connects(h, Elements(root[..|root| - 1]), root[|root| - 1], b.end, p[|root| - 1..])
  {
    var w := p[|root| - 1..];
    forall i | 0 <= i && i + 1 < |w|
      ensures HasEdge(h, w[i], w[i + 1])
    {
      DeviationEdge(b, h, found, root, p, i);
    }
    WalkFromEdges(h, w);
    RestAvoidsRoot(p, root);
    assert w[0] == root[|root| - 1] && w[|w| - 1] == b.end;
  }

  lemma RestAvoidsRoot(p: seq<Node>, root: seq<Node>)
    requires Simple(p) && 1 <= |root| < |p| && p[..|root|] == root
    ensures Avoids(p[|root| - 1..], Elements(root[..|root| - 1]))
  {
    var w := p[|root| - 1..];
    forall i | 1 <= i < |w|
      ensures w[i] !in root[..|root| - 1]
    {
      assert w[i] == p[|root| - 1 + i];
      assert forall k :: 0 <= k < |root| - 1 ==> root[k] == p[k];
    }
  }

  lemma DeviationEdge(b: Problem, h: Graph, found: seq<Path>, root: seq<Node>, p: seq<Node>, i: nat)
    requires b.Valid() && b.Route(p) && 1 <= |root| < |p| && p[..|root|] == root && |root| + i < |p|
    requires root[|root| - 1] in b.graph && Thinned(b.graph, h, root[|root| - 1])
    requires SpurEdges(b.graph, found, root, h[root[|root| - 1]])
    requires Deviates(found, root, p[|root|])
    ensures HasEdge(h, p[|root| - 1 + i], p[|root| + i])
  {
    var j := |root| - 1;
    EdgeOfWalk(b.graph, p, j + i);
    if i == 0 {
      var e := EdgeTo(b.graph[root[j]], p[j + 1]);
      assert e in h[root[j]];
    } else {
      assert p[j + i] != p[j];
    }
  }

  /** A root and a spur walk that avoids it have no node in common but the spur. */
  lemma JoinIsSimple(root: seq<Node>, w: seq<Node>)
    requires |root| >= 1 && |w| >= 1 && Simple(root) && Simple(w) && w[0] == root[|root| - 1]
    requires Avoids(w, Elements(root[..|root| - 1]))
    ensures Simple(root[..|root| - 1] + w)
  {
    var c := root[..|root| - 1] + w;
    forall i, k | 0 <= i < k < |c|
      ensures c[i] != c[k]
    {
      if i < |root| - 1 <= k {
        assert c[i] in root[..|root| - 1];
        assert c[k] == w[k - (|root| - 1)];
      }
    }
  }

  /** A spur walk completes the root to an exactly priced route. */
  lemma SpurCompletes(b: Problem, h: Graph, root: seq<Node>, w: seq<Node>)
    requires b.Valid() && IsWalk(b.graph, root) && Simple(root) && root[0] == b.start
    requires Thinned(b.graph, h, root[|root| - 1])
    requires Connects(h, Elements(root[..|root| - 1]), root[|root| - 1], b.end, w) && Simple(w)
    ensures var c := root[..|root| - 1] + w;
            && b.Route(c)
            && Length(b.graph, c, b.metric) == Length(b.graph, root, b.metric) + Length(h, w, b.metric)
            && Length(b.graph, c, ByLatency) == Length(b.graph, root, ByLatency) + Length(h, w, ByLatency)
  {
    var spur := root[|root| - 1];
    ThinnedWalk(b.graph, h, spur, w, b.metric);
    ThinnedWalk(b.graph, h, spur, w, ByLatency);
    JoinWalks(b.graph, root, w, b.metric);
    JoinWalks(b.graph, root, w, ByLatency);
    JoinIsSimple(root, w);
  }

  /** The completed route differs from everything found so far. */
  lemma SpurIsNew(g: Graph, h: Graph, found: seq<Path>, root: seq<Node>, w: seq<Node>)
    requires |root| >= 1 && root[|root| - 1] in g && Thinned(g, h, root[|root| - 1])
    requires SpurEdges(g, found, root, h[root[|root| - 1]])
    requires IsWalk(h, w) && |w| >= 2 && w[0] == root[|root| - 1]
    ensures forall r :: r in found ==> r.hops != root[..|root| - 1] + w
  {
    var c := root[..|root| - 1] + w;
    EdgeOfWalk(h, w, 0);
    var e := EdgeTo(h[w[0]], w[1]);
    assert Deviates(found, root, w[1]);
    assert c[..|root|] == root && c[|root|] == w[1];
  }

  // ---------- State of the search ----------

  ghost predicate DistinctHops(found: seq<Path>) {
    forall i, j :: 0 <= i < j < |found| ==> found[i].hops != found[j].hops
  }

  ghost predicate DistinctKeys(queue: seq<PQNode>) {
    forall i, j :: 0 <= i < j < |queue| ==> queue[i].node != queue[j].node
  }

  /** Found routes and queued candidates are priced routes, all different from one another. */
  ghost predicate State(b: Problem, found: seq<Path>, queue: seq<PQNode>) {
    && (forall r :: r in found ==> b.Priced(r))
    && (forall x :: x in queue ==> b.Candidate(x))
    && DistinctHops(found) && DistinctKeys(queue)
    && (forall r, x :: r in found && x in queue ==> r.hops != PathKey.Split(x.node))
  }

  /** The queue holds a candidate, one that is no dearer than p when the network has no unfair fork. */
  ghost predicate Covers(b: Problem, queue: seq<PQNode>, p: seq<Node>) {
    exists x :: x in queue && (ForkFair(b.graph, b.end, b.metric) ==> x.cost <= Length(b.graph, p, b.metric))
  }

  /** p follows the root and leaves it by a step no found route takes. */
  ghost predicate LeavesAt(b: Problem, found: seq<Path>, root: seq<Node>, p: seq<Node>) {
    b.Route(p) && |root| < |p| && p[..|root|] == root && Deviates(found, root, p[|root|])
  }

  /** Every route that leaves the root by a new step is covered by the queue; with an empty queue there is none. */
  ghost predicate Covered(b: Problem, found: seq<Path>, queue: seq<PQNode>, root: seq<Node>) {
    forall p :: LeavesAt(b, found, root, p) ==> Covers(b, queue, p)
  }

  lemma CoversMore(b: Problem, queue: seq<PQNode>, more: seq<PQNode>, p: seq<Node>)
    requires Covers(b, queue, p) && queue <= more
    ensures Covers(b, more, p)
  {
    var x :| x in queue && (ForkFair(b.graph, b.end, b.metric) ==> x.cost <= Length(b.graph, p, b.metric));
    assert x in more;
  }

  lemma CoveredMore(b: Problem, found: seq<Path>, queue: seq<PQNode>, more: seq<PQNode>, root: seq<Node>)
    requires Covered(b, found, queue, root) && queue <= more
    ensures Covered(b, found, more, root)
  {
    forall p | LeavesAt(b, found, root, p)
      ensures Covers(b, more, p)
    {
      CoversMore(b, queue, more, p);
    }
  }

  lemma {:induction false} WalkNames(b: Problem, p: seq<Node>)
    requires b.Valid() && IsWalk(b.graph, p) && p[0] == b.start
    ensures PathKey.ArrowFree(p)
  {
    if |p| > 1 {
      WalkNames(b, p[..|p| - 1]);
      var e := EdgeTo(b.graph[p[|p| - 2]], p[|p| - 1]);
      forall i | 0 <= i < |p|
        ensures !PathKey.HasArrow(p[i])
      {
        assert i < |p| - 1 ==> p[i] == p[..|p| - 1][i];
      }
    }
  }

  method IsPathInList(hops: seq<Node>, list: seq<Path>) returns (r: bool)
    requires |hops| >= 1 && PathKey.ArrowFree(hops)
    requires forall p :: p in list ==> |p.hops| >= 1 && PathKey.ArrowFree(p.hops)
    ensures r <==> exists p :: p in list && p.hops == hops
  {
    var key := PathKey.Join(hops);
    for i := 0 to |list|
      invariant forall n :: 0 <= n < i ==> list[n].hops != hops
    {
      PathKey.KeysInjective(list[i].hops, hops);
      if PathKey.Join(list[i].hops) == key {
        return true;
      }
    }
    return false;
  }

  method IsPathInQueue(hops: seq<Node>, queue: seq<PQNode>) returns (r: bool)
    ensures r <==> exists x :: x in queue && x.node == PathKey.Join(hops)
  {
    var key := PathKey.Join(hops);
    for i := 0 to |queue|
      invariant forall n :: 0 <= n < i ==> queue[n].node != key
    {
      if queue[i].node == key {
        return true;
      }
    }
    return false;
  }

  /** A new candidate keeps the state. */
  lemma PushCandidate(b: Problem, found: seq<Path>, queue: seq<PQNode>, c: Path)
    requires b.Valid() && State(b, found, queue) && b.Priced(c)
    requires forall r :: r in found ==> r.hops != c.hops
    requires forall x :: x in queue ==> x.node != PathKey.Join(c.hops)
    ensures State(b, found, queue + [PQNode(PathKey.Join(c.hops), c.cost, c.rawRTT)])
  {
    WalkNames(b, c.hops);
    PathKey.SplitJoin(c.hops);
  }

  /** The query issued at a spur node is well formed. */
  lemma SpurQueryValid(b: Problem, h: Graph, spur: Node, forbidden: set<Node>)
    requires b.Valid() && Thinned(b.graph, h, spur)
    ensures Query(h, forbidden, spur, b.end, b.metric).Valid()
  {
    assert forall u, e :: u in h && e in h[u] ==> u in b.graph && e in b.graph[u];
  }

  /** When the spur search fails, no route leaves the root by a new step. */
  lemma SpurFails(b: Problem, h: Graph, found: seq<Path>, queue: seq<PQNode>, root: seq<Node>, q: Query)
    requires b.Valid() && |root| >= 1
    requires root[|root| - 1] in b.graph && Thinned(b.graph, h, root[|root| - 1])
    requires SpurEdges(b.graph, found, root, h[root[|root| - 1]])
    requires q == Query(h, Elements(root[..|root| - 1]), root[|root| - 1], b.end, b.metric)
    requires forall w :: !q.Reaches(b.end, w)
    ensures Covered(b, found, queue, root)
  {
    forall p
      ensures !LeavesAt(b, found, root, p)
    {
      if LeavesAt(b, found, root, p) {
        DeviationSurvives(b, h, found, root, p);
        assert q.Reaches(b.end, p[|root| - 1..]);
      }
    }
  }

  lemma ThinnedFair(b: Problem, h: Graph, spur: Node)
    requires b.Valid() && Thinned(b.graph, h, spur) && ForkFair(b.graph, b.end, b.metric)
    ensures ForkFair(h, b.end, b.metric)
  {
    assert Subnetwork(b.graph, h);
    SubnetworkFair(b.graph, h, b.end, b.metric);
  }

  /** Without unfair forks, root and spur path are no dearer than any route that leaves the root by a new step. */
  lemma SpurIsCheapest(b: Problem, h: Graph, found: seq<Path>, root: seq<Node>, q: Query, w: seq<Node>, p: seq<Node>)
    requires b.Valid() && |root| >= 1 && IsWalk(b.graph, root)
    requires root[|root| - 1] in b.graph && Thinned(b.graph, h, root[|root| - 1])
    requires SpurEdges(b.graph, found, root, h[root[|root| - 1]])
    requires q == Query(h, Elements(root[..|root| - 1]), root[|root| - 1], b.end, b.metric) && q.Valid()
    requires CutOffPath(q, w)
    requires LeavesAt(b, found, root, p) && ForkFair(b.graph, b.end, b.metric)
    ensures Length(b.graph, root, b.metric) + Length(h, w, b.metric) <= Length(b.graph, p, b.metric)
  {
    var spur, rest := root[|root| - 1], p[|root| - 1..];
    DeviationSurvives(b, h, found, root, p);
    ThinnedFair(b, h, spur);
    FairIsShortest(q, w, rest);
    ThinnedWalk(b.graph, h, spur, rest, b.metric);
    Rejoin(root, p);
    JoinWalks(b.graph, root, rest, b.metric);
  }

  lemma Rejoin(root: seq<Node>, p: seq<Node>)
    requires 1 <= |root| <= |p| && p[..|root|] == root
    ensures root[|root| - 1] == p[|root| - 1] && root[..|root| - 1] + p[|root| - 1..] == p
  {
  }

  /** What a root costs in the network it costs in the edited graph. */
  lemma RootUnchanged(b: Problem, h: Graph, root: seq<Node>)
    requires b.Valid() && IsWalk(b.graph, root) && Simple(root) && Thinned(b.graph, h, root[|root| - 1])
    ensures WellFormed(h)
    ensures Length(h, root, b.metric) == Length(b.graph, root, b.metric)
    ensures Length(h, root, ByLatency) == Length(b.graph, root, ByLatency)
  {
    SameEdges(b.graph, h, root, b.metric);
    SameEdges(b.graph, h, root, ByLatency);
    SpurQueryValid(b, h, root[|root| - 1], {});
  }

  /** The root and a spur path make a priced route that has not been found before. */
  method Complete(b: Problem, h: Graph, ghost found: seq<Path>, root: seq<Node>, w: Path) returns (c: Path)
    requires b.Valid() && IsWalk(b.graph, root) && Simple(root) && root[0] == b.start && b.end !in root
    requires Thinned(b.graph, h, root[|root| - 1]) && SpurEdges(b.graph, found, root, h[root[|root| - 1]])
    requires Answers(Query(h, Elements(root[..|root| - 1]), root[|root| - 1], b.end, b.metric), w)
    ensures b.Priced(c) && forall r :: r in found ==> r.hops != c.hops
    ensures c.cost == Length(b.graph, root, b.metric) + Length(h, w.hops, b.metric)
  {
    RootUnchanged(b, h, root);
    var rootCost := CalculatePathCost(root, h, b.metric);
    var rootRTT := CalculatePathCost(root, h, ByLatency);
    var clean := RemoveConsecutiveDuplicates(root[..|root| - 1] + w.hops);
    c := Path(clean, rootCost + w.cost, rootRTT + w.rawRTT);
    SpurCompletes(b, h, root, w.hops);
    SpurIsNew(b.graph, h, found, root, w.hops);
  }

  lemma SpurCovers(b: Problem, h: Graph, found: seq<Path>, queue: seq<PQNode>, root: seq<Node>, q: Query, w: seq<Node>,
                   c: Path)
    requires b.Valid() && |root| >= 1 && IsWalk(b.graph, root)
    requires root[|root| - 1] in b.graph && Thinned(b.graph, h, root[|root| - 1])
    requires SpurEdges(b.graph, found, root, h[root[|root| - 1]])
    requires q == Query(h, Elements(root[..|root| - 1]), root[|root| - 1], b.end, b.metric) && q.Valid()
    requires CutOffPath(q, w)
    requires c.cost == Length(b.graph, root, b.metric) + Length(h, w, b.metric)
    requires exists x :: x in queue && x.cost == c.cost
    ensures Covered(b, found, queue, root)
  {
    var x :| x in queue && x.cost == c.cost;
    forall p | LeavesAt(b, found, root, p)
      ensures Covers(b, queue, p)
    {
      if ForkFair(b.graph, b.end, b.metric) {
        SpurIsCheapest(b, h, found, root, q, w, p);
      }
      assert x in queue;
    }
  }

  /** The search on the edited graph h. It never takes the exit that would leave the edit in place. */
  method SpurSearch(b: Problem, h: Graph, found: seq<Path>, queue0: seq<PQNode>, root: seq<Node>)
    returns (skipped: bool, queue: seq<PQNode>)
    requires b.Valid() && State(b, found, queue0)
    requires IsWalk(b.graph, root) && Simple(root) && root[0] == b.start && b.end !in root
    requires Thinned(b.graph, h, root[|root| - 1]) && SpurEdges(b.graph, found, root, h[root[|root| - 1]])
    ensures !skipped
    ensures State(b, found, queue) && queue0 <= queue
    ensures Covered(b, found, queue, root)
  {
    skipped, queue := false, queue0;
    var spur := root[|root| - 1];
    var q := Query(h, Elements(root[..|root| - 1]), spur, b.end, b.metric);
    SpurQueryValid(b, h, spur, q.forbidden);
    var search := FindShortestPath(q);
    if search.Some? {
      skipped := HasDuplicateNodes(search.value.hops);
      if skipped {
        return;
      }
      var c := Complete(b, h, found, root, search.value);
      queue := Enqueue(b, found, queue, c);
      SpurCovers(b, h, found, queue, root, q, search.value.hops, c);
    } else {
      SpurFails(b, h, found, queue, root, q);
    }
  }

  /** The root of a route before its last node. */
  lemma RootOfRoute(b: Problem, hops: seq<Node>, j: nat)
    requires b.Route(hops) && j < |hops| - 1
    ensures var root := hops[..j + 1];
            IsWalk(b.graph, root) && Simple(root) && root[0] == b.start && b.end !in root && hops[j] in b.graph
  {
    EdgeOfWalk(b.graph, hops, j);
    PrefixWalk(b.graph, hops, j + 1);
  }

  /**
   One spur step. The working copy of the graph is what it was before, the queue only
   grows, and it covers every route that leaves this root by a new step.
   */
  method SpurStep(b: Problem, working: Graph, found: seq<Path>, queue0: seq<PQNode>, hops: seq<Node>, j: nat)
    returns (graphCopy: Graph, queue: seq<PQNode>)
    requires b.Valid() && working == b.graph && State(b, found, queue0)
    requires b.Route(hops) && j < |hops| - 1
    ensures graphCopy == b.graph
    ensures State(b, found, queue) && queue0 <= queue
    ensures Covered(b, found, queue, hops[..j + 1])
  {
    graphCopy, queue := working, queue0;
    var spur, root := hops[j], hops[..j + 1];
    RootOfRoute(b, hops, j);
    if spur !in graphCopy {
      return;
    }
    var originalEdges := graphCopy[spur];
    var edges := EditSpurEdges(graphCopy, found, root);
    graphCopy := graphCopy[spur := edges];
    if spur == b.end || b.end in root {
      graphCopy := graphCopy[spur := originalEdges];
      return;
    }
    var skipped;
    skipped, queue := SpurSearch(b, graphCopy, found, queue, root);
    if skipped {
      return;
    }
    graphCopy := graphCopy[spur := originalEdges];
  }

  /** A candidate queued under the key of c has the cost of c. */
  lemma QueuedCost(b: Problem, queue: seq<PQNode>, c: Path)
    requires b.Priced(c) && PathKey.ArrowFree(c.hops) && (forall x :: x in queue ==> b.Candidate(x))
    requires exists x :: x in queue && x.node == PathKey.Join(c.hops)
    ensures exists x :: x in queue && x.cost == c.cost
  {
    var x :| x in queue && x.node == PathKey.Join(c.hops);
    PathKey.SplitJoin(c.hops);
    assert b.Candidate(x);
  }

  /** Queue a completed route unless it is known already. */
  method Enqueue(b: Problem, found: seq<Path>, queue0: seq<PQNode>, c: Path) returns (queue: seq<PQNode>)
    requires b.Valid() && State(b, found, queue0) && b.Priced(c)
    requires forall r :: r in found ==> r.hops != c.hops
    ensures State(b, found, queue) && queue0 <= queue && exists x :: x in queue && x.cost == c.cost
  {
    queue := queue0;
    forall r | r in found
      ensures |r.hops| >= 1 && PathKey.ArrowFree(r.hops)
    {
      WalkNames(b, r.hops);
    }
    WalkNames(b, c.hops);
    var dup := HasDuplicateNodes(c.hops);
    if !dup {
      var inList := IsPathInList(c.hops, found);
      var inQueue := IsPathInQueue(c.hops, queue);
      if !inList && !inQueue {
        PushCandidate(b, found, queue, c);
        queue := queue + [PQNode(PathKey.Join(c.hops), c.cost, c.rawRTT)];
        assert queue[|queue| - 1] in queue;
      } else {
        QueuedCost(b, queue, c);
      }
    }
  }
}
