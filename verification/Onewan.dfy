/**
 The randomised route search of the ONE-WAN solver: a depth-first search that tries the
 neighbours of each node in random order, repeated to collect different routes, and a
 weighted selection among the collected routes.
 */
module Onewan {
  import opened NetworkGraph
  import opened ShortestPath
  import opened Wrappers
  import Routes
  import KShortest
  import Spur
  import PathKey
  import Sorting
  import FlowSearch
  import opened FlowAccounting
  import opened BeamSelection

  const MAX_ATTEMPTS := 100
  const MAX_EDGES := 15
  const HOP_LIMIT := 30

  /** q leads from u to t over at most `limit` edges, visits no node twice and none of `visited`. */
  ghost predicate Completes(g: Graph, u: Node, t: Node, visited: set<Node>, limit: int, q: seq<Node>) {
    && IsWalk(g, q) && q[0] == u && q[|q| - 1] == t && Simple(q)
    && (forall i :: 0 <= i < |q| ==> q[i] !in visited)
    && |q| - 1 <= limit
  }

  ghost predicate Stuck(g: Graph, u: Node, t: Node, visited: set<Node>, limit: int) {
    forall q :: !Completes(g, u, t, visited, limit, q)
  }

  /** Prepending a node to a completion. */
  lemma PrependCompletion(g: Graph, u: Node, e: Edge, t: Node, visited: set<Node>, limit: int, q: seq<Node>)
    requires WellFormed(g) && u in g && e in g[u] && u !in visited
    requires Completes(g, e.destination, t, visited + {u}, limit - 1, q)
    ensures Completes(g, u, t, visited, limit, [u] + q)
    ensures Length(g, [u] + q, ByLatency) == e.latency + Length(g, q, ByLatency)
  {
    PrependWalk(g, u, e, q);
    PrependSimple(u, q);
    assert ([u] + q)[|q|] == q[|q| - 1];
  }

  lemma PrependWalk(g: Graph, u: Node, e: Edge, q: seq<Node>)
    requires WellFormed(g) && u in g && e in g[u] && IsWalk(g, q) && q[0] == e.destination
    ensures IsWalk(g, [u] + q)
    ensures Length(g, [u] + q, ByLatency) == e.latency + Length(g, q, ByLatency)
  {
    WeightOfEdge(g, u, e, ByLatency);
    var first := [u, e.destination];
    assert first[..1] == [u];
    assert IsWalk(g, [u]) && IsWalk(g, first);
    assert Length(g, [u], ByLatency) == 0.0;
    JoinWalks(g, first, q, ByLatency);
  }

  lemma PrependSimple(u: Node, q: seq<Node>)
    requires Simple(q) && u !in q
    ensures Simple([u] + q)
  {
  }

  /** A completion that is not at its end continues along an edge to an unvisited node. */
  lemma CompletionStep(g: Graph, u: Node, t: Node, visited: set<Node>, limit: int, q: seq<Node>) returns (e: Edge)
    requires u != t && Completes(g, u, t, visited, limit, q)
    ensures u in g && e in g[u] && e.destination !in visited + {u}
    ensures Completes(g, e.destination, t, visited + {u}, limit - 1, q[1..])
  {
    assert q == [u] + q[1..];
    Routes.ConsWalk(g, u, q[1..]);
    e := EdgeTo(g[u], q[1]);
    assert q[1..][0] == q[1];
  }

  /** An arbitrary ordering of 0..n. */
  method Perm(n: nat) returns (p: seq<nat>)
    ensures |p| == n && forall i :: 0 <= i < n ==> i in p
    ensures forall j :: 0 <= j < n ==> p[j] < n
  {
    var id: seq<nat> := [];
    for i := 0 to n
      invariant |id| == i && forall k :: 0 <= k < i ==> id[k] == k
    {
      id := id + [i];
    }
    p := FlowSearch.Shuffle(id);
    Sorting.PermutationMembers(id, p);
    assert |p| == |multiset(p)| == |multiset(id)| == n;
    forall j | 0 <= j < n
      ensures p[j] < n
    {
      assert p[j] in id;
    }
    forall i | 0 <= i < n
      ensures i in p
    {
      assert id[i] == i && i in id;
    }
  }

  class RandomSearch {
    const g: Graph
    const target: Node
    const maxHops: int
    var visited: set<Node>
    var hops: seq<Node>
    var totalLatency: real

    constructor (g: Graph, target: Node, maxHops: int)
      ensures this.g == g && this.target == target && this.maxHops == maxHops
      ensures visited == {} && hops == [] && totalLatency == 0.0
    {
      this.g, this.target, this.maxHops := g, target, maxHops;
      visited, hops, totalLatency := {}, [], 0.0;
    }

    /**
     Whatever the order of neighbours: the rest of a route is appended with its latency, or nothing
     changes and there is none.
     */
    method Dfs(node: Node, depth: nat) returns (found: bool, ghost q: seq<Node>)
      requires WellFormed(g) && node !in visited && depth <= maxHops + 1
      modifies this
      ensures found ==>
                && Completes(g, node, target, old(visited), maxHops - depth, q)
                && hops == old(hops) + q && totalLatency == old(totalLatency) + Length(g, q, ByLatency)
      ensures !found ==>
                && Stuck(g, node, target, old(visited), maxHops - depth)
                && hops == old(hops) && visited == old(visited) && totalLatency == old(totalLatency)
      decreases maxHops + 1 - depth, 2
    {
      q := [];
      if depth > maxHops {
        return false, q;
      }
      visited := visited + {node};
      hops := hops + [node];
      if node == target {
        q := [node];
        return true, q;
      }
      var neighbors := if node in g then g[node] else [];
      found, q := Branch(node, depth, neighbors, old(visited), old(hops));
      if !found {
        hops := hops[..|hops| - 1];
        visited := visited - {node};
      }
    }

    /** Follows one edge; nothing changes unless it leads to the target. */
    method Follow(node: Node, depth: nat, e: Edge, ghost before: set<Node>, ghost prefix: seq<Node>)
      returns (found: bool, ghost q: seq<Node>)
      requires WellFormed(g) && node != target && depth <= maxHops && node !in before
      requires node in g && e in g[node] && e.destination !in visited
      requires visited == before + {node} && hops == prefix + [node]
      modifies this
      ensures found ==>
                && Completes(g, node, target, before, maxHops - depth, q)
                && hops == prefix + q && totalLatency == old(totalLatency) + Length(g, q, ByLatency)
      ensures !found ==>
                && DeadEnd(before + {node}, depth, e.destination)
                && hops == old(hops) && visited == old(visited) && totalLatency == old(totalLatency)
      decreases maxHops + 1 - depth, 0
    {
      ghost var rest;
      found, rest := Dfs(e.destination, depth + 1);
      q := [];
      if found {
        PrependCompletion(g, node, e, target, before, maxHops - depth, rest);
        q := [node] + rest;
        assert prefix + [node] + rest == prefix + q;
        totalLatency := totalLatency + e.latency;
      }
    }

    /** The neighbours in a random order, until one leads to the target. */
    method Branch(node: Node, depth: nat, neighbors: seq<Edge>, ghost before: set<Node>, ghost prefix: seq<Node>)
      returns (found: bool, ghost q: seq<Node>)
      requires WellFormed(g) && node != target && depth <= maxHops && node !in before
      requires neighbors == if node in g then g[node] else []
      requires visited == before + {node} && hops == prefix + [node]
      modifies this
      ensures found ==>
                && Completes(g, node, target, before, maxHops - depth, q)
                && hops == prefix + q && totalLatency == old(totalLatency) + Length(g, q, ByLatency)
      ensures !found ==>
                && Stuck(g, node, target, before, maxHops - depth)
                && hops == old(hops) && visited == old(visited) && totalLatency == old(totalLatency)
      decreases maxHops + 1 - depth, 1
    {
      q := [];
      var indices := Perm(|neighbors|);
      for i := 0 to |indices|
        invariant hops == old(hops) && visited == old(visited) && totalLatency == old(totalLatency)
        invariant forall j :: 0 <= j < i ==> DeadEnd(before + {node}, depth, neighbors[indices[j]].destination)
      {
        var e := neighbors[indices[i]];
        if e.destination !in visited {
          found, q := Follow(node, depth, e, before, prefix);
          if found {
            return;
          }
        }
      }
      AllDeadEnds(node, depth, neighbors, indices, before);
      found := false;
    }

    ghost predicate DeadEnd(avoid: set<Node>, depth: nat, v: Node) {
      v in avoid || Stuck(g, v, target, avoid, maxHops - depth - 1)
    }

    lemma AllDeadEnds(node: Node, depth: nat, neighbors: seq<Edge>, indices: seq<nat>, before: set<Node>)
      requires node != target && neighbors == if node in g then g[node] else []
      requires |indices| == |neighbors| && (forall j :: 0 <= j < |indices| ==> indices[j] < |neighbors|)
      requires forall i :: 0 <= i < |neighbors| ==> i in indices
      requires forall j :: 0 <= j < |indices| ==> DeadEnd(before + {node}, depth, neighbors[indices[j]].destination)
      ensures Stuck(g, node, target, before, maxHops - depth)
    {
      var limit := maxHops - depth;
      forall e | e in neighbors
        ensures DeadEnd(before + {node}, depth, e.destination)
      {
        var i :| 0 <= i < |neighbors| && neighbors[i] == e;
        assert i in indices;
      }
      forall x
        ensures !Completes(g, node, target, before, limit, x)
      {
        if Completes(g, node, target, before, limit, x) {
          var e := CompletionStep(g, node, target, before, limit, x);
        }
      }
    }
  }

  /**
   For every shuffle: a route of at most maxHops edges with its exact latency, or nothing exactly
   when there is none.
   */
  method DfsRandomPath(g: Graph, start: Node, target: Node, maxHops: nat) returns (r: Option<Path>)
    requires WellFormed(g)
    ensures r.Some? ==>
              && Completes(g, start, target, {}, maxHops, r.value.hops)
              && r.value.cost == r.value.rawRTT == Length(g, r.value.hops, ByLatency)
    ensures r.None? ==> Stuck(g, start, target, {}, maxHops)
  {
    var search := new RandomSearch(g, target, maxHops);
    var found, q := search.Dfs(start, 0);
    if !found {
      return None;
    }
    assert [] + q == q;
    return Some(Path(search.hops, search.totalLatency, search.totalLatency));
  }

  function CostOf(p: Path): real {
    p.cost
  }

  /** A priced route of at most fifteen edges. */
  ghost predicate Sampled(g: Graph, start: Node, target: Node, p: Path) {
    Completes(g, start, target, {}, MAX_EDGES, p.hops) && p.cost == p.rawRTT == Length(g, p.hops, ByLatency)
  }

  ghost predicate DistinctHops(ps: seq<Path>) {
    forall i, j :: 0 <= i < j < |ps| ==> ps[i].hops != ps[j].hops
  }

  /** Repeated searches: different priced routes, none exactly when there is no route short enough. */
  method SampleDistinct(g: Graph, start: Node, target: Node, maxPaths: int) returns (ps: seq<Path>)
    requires WellFormed(g)
    ensures DistinctHops(ps) && forall p :: p in ps ==> Sampled(g, start, target, p)
    ensures ps == [] <==> maxPaths < 1 || Stuck(g, start, target, {}, MAX_EDGES)
    ensures ps != [] ==> |ps| <= maxPaths
  {
    ps := [];
    var used: set<string> := {};
    var attempt := 0;
    while attempt < MAX_ATTEMPTS && |ps| < maxPaths
      invariant (ps != [] ==> |ps| <= maxPaths) && DistinctHops(ps)
      invariant forall p :: p in ps ==> Sampled(g, start, target, p)
      invariant forall p :: p in ps ==> PathKey.Join(p.hops) in used
      invariant ps == [] ==> used == {} && (attempt >= 1 ==> Stuck(g, start, target, {}, MAX_EDGES))
      decreases MAX_ATTEMPTS - attempt
    {
      var path := DfsRandomPath(g, start, target, MAX_EDGES);
      if path.Some? {
        var key := PathKey.Join(path.value.hops);
        if key !in used {
          used := used + {key};
          Sorting.SnocMembers(ps, path.value);
          ps := ps + [path.value];
        }
      }
      attempt := attempt + 1;
    }
    if ps != [] {
      assert ps[0] in ps;
    }
  }

  method RandomDfsPaths(g: Graph, start: Node, target: Node, maxPaths: int) returns (ps: seq<Path>)
    requires WellFormed(g)
    ensures DistinctHops(ps) && forall p :: p in ps ==> Sampled(g, start, target, p)
    ensures ps == [] <==> maxPaths < 1 || Stuck(g, start, target, {}, MAX_EDGES)
    ensures ps != [] ==> |ps| <= maxPaths
    ensures Sorting.SortedBy(ps, CostOf)
  {
    var found := SampleDistinct(g, start, target, maxPaths);
    ps := Sorting.ExchangeSort(found, CostOf);
    Sorting.PermutationMembers(found, ps);
    Sorting.PermutationDistinct(found, ps);
    forall i, j | 0 <= i < j < |ps|
      ensures ps[i].hops != ps[j].hops
    {
      assert Sampled(g, start, target, ps[i]) && Sampled(g, start, target, ps[j]);
    }
  }

  // ---------- The solver ----------

  /** A destination that a route of at most fifteen edges reaches. */
  ghost predicate Served(g: Graph, nodes: set<Node>, start: Node, end: Node) {
    end in nodes && !Stuck(g, start, end, {}, MAX_EDGES)
  }

  ghost function ServedEnds(g: Graph, nodes: set<Node>, start: Node, ends: seq<Node>): seq<Node> {
    if ends == [] then [] else
    ServedEnds(g, nodes, start, ends[..|ends| - 1])
    + if Served(g, nodes, start, ends[|ends| - 1]) then [ends[|ends| - 1]] else []
  }

  lemma {:induction false} ServedEndsMembers(g: Graph, nodes: set<Node>, start: Node, ends: seq<Node>)
    ensures forall d :: d in ServedEnds(g, nodes, start, ends) <==> d in ends && Served(g, nodes, start, d)
  {
    if ends != [] {
      var rest, last := ends[..|ends| - 1], ends[|ends| - 1];
      ServedEndsMembers(g, nodes, start, rest);
      Sorting.SnocMembers(rest, last);
      assert ends == rest + [last];
    }
  }

  /** One to maxPaths different routes to d with their latencies. */
  ghost predicate Serves(g: Graph, start: Node, d: Node, maxPaths: int, infos: seq<PathWithInfo>) {
    && 1 <= |infos| <= maxPaths && Sorting.NoDuplicates(infos) && SimpleRoutes(infos)
    && (forall p :: p in infos ==> p.dest == d && Completes(g, start, d, {}, MAX_EDGES, p.path)
                                   && p.latency == Length(g, p.path, ByLatency))
  }

  /** Neither the clean-up of hops nor the limit of thirty edges changes a sampled route. */
  method Describe(g: Graph, start: Node, end: Node, ps: seq<Path>) returns (infos: seq<PathWithInfo>)
    requires DistinctHops(ps) && forall p :: p in ps ==> Sampled(g, start, end, p)
    ensures |infos| == |ps|
    ensures forall i :: 0 <= i < |ps| ==> infos[i] == PathWithInfo(ps[i].hops, "", end, ps[i].rawRTT)
  {
    infos := [];
    for i := 0 to |ps|
      invariant |infos| == i
      invariant forall j :: 0 <= j < i ==> infos[j] == PathWithInfo(ps[j].hops, "", end, ps[j].rawRTT)
    {
      assert Sampled(g, start, end, ps[i]);
      var clean := Spur.RemoveConsecutiveDuplicates(ps[i].hops);
      if |clean| - 1 <= HOP_LIMIT {
        infos := infos + [PathWithInfo(clean, "", end, ps[i].rawRTT)];
      }
    }
  }

  /** The candidates of a destination: none exactly when no route reaches it. */
  method Candidates(g: Graph, start: Node, end: Node, maxPaths: int) returns (infos: seq<PathWithInfo>)
    requires WellFormed(g)
    ensures infos == [] <==> maxPaths < 1 || Stuck(g, start, end, {}, MAX_EDGES)
    ensures infos != [] ==> Serves(g, start, end, maxPaths, infos)
  {
    var ps := RandomDfsPaths(g, start, end, maxPaths);
    infos := Describe(g, start, end, ps);
    assert forall j :: 0 <= j < |ps| ==> Sampled(g, start, end, ps[j]);
  }

  /** The candidates of each served destination, in order. */
  method GenerateCandidates(g: Graph, nodes: set<Node>, start: Node, ends: seq<Node>, maxPaths: int)
    returns (cands: seq<seq<PathWithInfo>>, ghost dests: seq<Node>)
    requires WellFormed(g)
    ensures dests == (if maxPaths < 1 then [] else ServedEnds(g, nodes, start, ends)) && |cands| == |dests|
    ensures forall d :: 0 <= d < |cands| ==> Serves(g, start, dests[d], maxPaths, cands[d])
  {
    cands, dests := [], [];
    for i := 0 to |ends|
      invariant dests == (if maxPaths < 1 then [] else ServedEnds(g, nodes, start, ends[..i])) && |cands| == |dests|
      invariant forall d :: 0 <= d < |cands| ==> Serves(g, start, dests[d], maxPaths, cands[d])
    {
      assert ends[..i + 1][..i] == ends[..i];
      if ends[i] in nodes {
        var infos := Candidates(g, start, ends[i], maxPaths);
        if |infos| > 0 {
          cands, dests := cands + [infos], dests + [ends[i]];
        }
      }
    }
    assert ends[..|ends|] == ends;
  }

  /** Each edge's load under its endpoints. */
  ghost predicate Reported(edges: seq<Edge>, loads: Loads) {
    && (forall e :: e in edges ==> (e.source, e.destination) in loads && loads[(e.source, e.destination)] == e.load)
    && (forall u, v :: (u, v) in loads ==> exists e :: e in edges && e.source == u && e.destination == v)
  }

  method BuildLoads(edges: seq<Edge>) returns (loads: Loads)
    requires KShortest.GoodEdges(edges)
    ensures Reported(edges, loads)
  {
    loads := map[];
    for i := 0 to |edges|
      invariant Reported(edges[..i], loads)
    {
      Sorting.SnocMembers(edges[..i], edges[i]);
      assert edges[..i + 1] == edges[..i] + [edges[i]];
      loads := loads[(edges[i].source, edges[i].destination) := edges[i].load];
    }
    assert edges[..|edges|] == edges;
  }

  method WeighAll(cands: seq<seq<PathWithInfo>>) returns (cs: seq<Choice>)
    requires forall d :: 0 <= d < |cands| ==> Sorting.NoDuplicates(cands[d]) && SimpleRoutes(cands[d])
    ensures Choices(cs) && |cs| == |cands| && forall d :: 0 <= d < |cands| ==> cs[d].paths == cands[d]
  {
    cs := [];
    for d := 0 to |cands|
      invariant Choices(cs) && |cs| == d && forall e :: 0 <= e < d ==> cs[e].paths == cands[e]
    {
      var probs := Weigh(cands[d]);
      cs := cs + [Choice(cands[d], probs)];
    }
  }

  /** The best selection that the draws give among weighed candidates, under the loads of the edges. */
  ghost predicate BestChoice(edges: seq<Edge>, draws: Draws, routes: seq<PathWithInfo>, w: Witness) {
    && Choices(w.choices) && Reported(edges, w.loads)
    && FirstLeast(Selections(w.choices, draws, ITERATIONS), w.loads, w.at, ITERATIONS)
    && routes == Selections(w.choices, draws, ITERATIONS)[w.at]
  }

  method Choose(edges: seq<Edge>, cands: seq<seq<PathWithInfo>>, draws: Draws)
    returns (best: seq<PathWithInfo>, ghost w: Witness)
    requires KShortest.GoodEdges(edges)
    requires forall d :: 0 <= d < |cands| ==> Sorting.NoDuplicates(cands[d]) && SimpleRoutes(cands[d])
    ensures BestChoice(edges, draws, best, w)
    ensures |w.choices| == |cands| && forall d :: 0 <= d < |cands| ==> w.choices[d].paths == cands[d]
  {
    var loads := BuildLoads(edges);
    var cs := WeighAll(cands);
    ghost var at: nat;
    best, at := BeamSearch(cs, loads, draws);
    w := Witness(cs, loads, at);
  }

  /** The outcome of a run: candidates for every served destination, and the best selection its draws give. */
  ghost predicate Solution(edges: seq<Edge>, start: Node, ends: seq<Node>, maxPaths: int, draws: Draws,
                           routes: seq<PathWithInfo>, w: Witness)
  {
    var g := KShortest.Adjacency(edges);
    var dests := ServedEnds(g, KShortest.EndPoints(edges), start, ends);
    && |w.choices| == |dests| && BestChoice(edges, draws, routes, w)
    && forall d :: 0 <= d < |dests| ==> Serves(g, start, dests[d], maxPaths, w.choices[d].paths)
  }

  datatype Witness = Witness(choices: seq<Choice>, loads: Loads, at: nat)

  /** A selection for all served destinations, or an error exactly when the start is unknown or none is served. */
  method ComputingMulti(edges: seq<Edge>, start: Node, ends: seq<Node>, maxPaths: int, draws: Draws)
    returns (r: Result<seq<PathWithInfo>>, ghost w: Witness)
    requires KShortest.GoodEdges(edges)
    ensures r.Ok? <==>
              && start in KShortest.EndPoints(edges) && maxPaths >= 1
              && exists d :: d in ends && Served(KShortest.Adjacency(edges), KShortest.EndPoints(edges), start, d)
    ensures r.Ok? ==> Solution(edges, start, ends, maxPaths, draws, r.value, w)
  {
    w := Witness([], map[], 0);
    var g, nodes := KShortest.BuildGraph(edges);
    if start !in nodes {
      return Err("start node not found"), w;
    }
    KShortest.AdjacencyWellFormed(edges, ByLatency);
    var cands, dests := GenerateCandidates(g, nodes, start, ends, maxPaths);
    ServedEndsMembers(g, nodes, start, ends);
    if |cands| == 0 {
      assert maxPaths >= 1 ==> dests == ServedEnds(g, nodes, start, ends);
      return Err("no paths found"), w;
    }
    assert dests[0] in dests;
    ghost var chosen: Witness;
    var best: seq<PathWithInfo>;
    best, chosen := Choose(edges, cands, draws);
    return Ok(best), chosen;
  }
}
