/**
 The bookkeeping of the flow solver: which routes are current, how much flow each edge
 carries, how many routes each destination has and which route keys are taken. `Accounted`
 says that the four agree.
 */
module FlowAccounting {
  import opened NetworkGraph
  import opened FlowSearch
  import PathKey

  const DEFAULT_THETA_L := 100.0

  datatype PathWithInfo = PathWithInfo(path: seq<Node>, pathStr: string, dest: Node, latency: real)

  // ---------- Traversals ----------

  /** The route takes the edge u->v. */
  predicate Uses(p: seq<Node>, u: Node, v: Node) {
    |p| >= 2 && ((p[|p| - 2] == u && p[|p| - 1] == v) || Uses(p[..|p| - 1], u, v))
  }

  lemma {:induction false} UsesMembers(p: seq<Node>, u: Node, v: Node)
    requires Uses(p, u, v)
    ensures u in p && v in p
  {
    if !(p[|p| - 2] == u && p[|p| - 1] == v) {
      UsesMembers(p[..|p| - 1], u, v);
    }
  }

  /** How many of the routes take the edge u->v. */
  function Traversals(ps: seq<PathWithInfo>, u: Node, v: Node): (n: nat)
    ensures n <= |ps|
  {
    if ps == [] then 0 else (if Uses(ps[0].path, u, v) then 1 else 0) + Traversals(ps[1..], u, v)
  }

  lemma {:induction false} TraversalsSnoc(ps: seq<PathWithInfo>, p: PathWithInfo, u: Node, v: Node)
    ensures Traversals(ps + [p], u, v) == Traversals(ps, u, v) + if Uses(p.path, u, v) then 1 else 0
  {
    if ps != [] {
      TraversalsSnoc(ps[1..], p, u, v);
      assert (ps + [p])[1..] == ps[1..] + [p];
    }
  }

  /** How many of the routes lead to d. */
  function RoutesTo(ps: seq<PathWithInfo>, d: Node): (n: nat)
    ensures n <= |ps|
  {
    if ps == [] then 0 else (if ps[0].dest == d then 1 else 0) + RoutesTo(ps[1..], d)
  }

  lemma {:induction false} RoutesToSnoc(ps: seq<PathWithInfo>, p: PathWithInfo, d: Node)
    ensures RoutesTo(ps + [p], d) == RoutesTo(ps, d) + if p.dest == d then 1 else 0
  {
    if ps != [] {
      RoutesToSnoc(ps[1..], p, d);
      assert (ps + [p])[1..] == ps[1..] + [p];
    }
  }

  lemma {:induction false} NoRoutesTo(ps: seq<PathWithInfo>, d: Node)
    ensures RoutesTo(ps, d) == 0 <==> forall p :: p in ps ==> p.dest != d
  {
    if ps != [] {
      NoRoutesTo(ps[1..], d);
      assert ps == [ps[0]] + ps[1..];
    }
  }

  lemma {:induction false} RoutesToConcat(a: seq<PathWithInfo>, b: seq<PathWithInfo>, d: Node)
    ensures RoutesTo(a + b, d) == RoutesTo(a, d) + RoutesTo(b, d)
  {
    if a == [] {
      assert a + b == b;
    } else {
      RoutesToConcat(a[1..], b, d);
      assert (a + b)[1..] == a[1..] + b;
    }
  }

  lemma {:induction false} RoutesToSame(ps: seq<PathWithInfo>, end: Node, d: Node)
    requires forall i :: 0 <= i < |ps| ==> ps[i].dest == end
    ensures RoutesTo(ps, d) == if d == end then |ps| else 0
  {
    if ps != [] {
      RoutesToSame(ps[1..], end, d);
    }
  }

  // ---------- The four structures in agreement ----------

  /** Each edge carries one unit per route that takes it, and its residual is what is left. */
  ghost predicate FlowsMatch(g: ResGraph, ps: seq<PathWithInfo>) {
    forall u, v :: u in g && v in g[u] ==>
      && g[u][v].flow == Traversals(ps, u, v) as real
      && g[u][v].residual == g[u][v].effCap - g[u][v].flow
  }

  function CountAt(count: map<Node, int>, d: Node): int {
    if d in count then count[d] else 0
  }

  ghost predicate CountsMatch(count: map<Node, int>, ps: seq<PathWithInfo>) {
    forall d :: CountAt(count, d) == RoutesTo(ps, d)
  }

  ghost predicate KeysMatch(used: set<string>, ps: seq<PathWithInfo>) {
    && used == (set p | p in ps :: PathKey.Join(p.path))
    && (forall i, j :: 0 <= i < j < |ps| ==> ps[i].path != ps[j].path)
  }

  function ThetaLOf(thetaL: map<Node, real>, d: Node): real {
    if d in thetaL then thetaL[d] else DEFAULT_THETA_L
  }

  /** A route the solver may hold: simple, from start to its destination, within the latency bound. */
  ghost predicate GoodPath(start: Node, thetaL: map<Node, real>, p: PathWithInfo) {
    && 1 <= |p.path| <= MAX_HOPS && p.path[0] == start && p.path[|p.path| - 1] == p.dest
    && Simple(p.path) && PathKey.ArrowFree(p.path)
    && p.latency <= ThetaLOf(thetaL, p.dest)
  }

  ghost predicate GoodPaths(start: Node, thetaL: map<Node, real>, ps: seq<PathWithInfo>) {
    forall p :: p in ps ==> GoodPath(start, thetaL, p)
  }

  /** The residual graph, the current routes oldest first, routes per destination, and taken keys. */
  datatype Books = Books(g: ResGraph, paths: seq<PathWithInfo>, count: map<Node, int>, used: set<string>)

  ghost predicate Accounted(start: Node, thetaL: map<Node, real>, b: Books) {
    && GoodPaths(start, thetaL, b.paths)
    && FlowsMatch(b.g, b.paths) && CountsMatch(b.count, b.paths) && KeysMatch(b.used, b.paths)
  }

  // ---------- Flow updates ----------

  function SetEdge(g: ResGraph, u: Node, v: Node, ef: EdgeFlow): ResGraph
    requires u in g && v in g[u]
  {
    g[u := g[u][v := ef]]
  }

  function Filled(ef: EdgeFlow): EdgeFlow {
    ef.(flow := ef.flow + 1.0, residual := ef.effCap - (ef.flow + 1.0))
  }

  function Released(ef: EdgeFlow): EdgeFlow {
    var f := if ef.flow - 1.0 < 0.0 then 0.0 else ef.flow - 1.0;
    ef.(flow := f, residual := ef.effCap - f)
  }

  /** h is g with f applied once to every edge of the route and nowhere else. */
  ghost predicate Along(g: ResGraph, h: ResGraph, p: seq<Node>, f: EdgeFlow -> EdgeFlow) {
    && g.Keys == h.Keys
    && (forall u :: u in g ==> g[u].Keys == h[u].Keys)
    && (forall u, v :: u in g && v in g[u] ==> h[u][v] == if Uses(p, u, v) then f(g[u][v]) else g[u][v])
  }

  /** On a simple route the i-th edge has not been taken before. */
  lemma EdgeIsNew(p: seq<Node>, i: nat)
    requires Simple(p) && i + 1 < |p|
    ensures !Uses(p[..i + 1], p[i], p[i + 1])
  {
    if Uses(p[..i + 1], p[i], p[i + 1]) {
      UsesMembers(p[..i + 1], p[i], p[i + 1]);
    }
  }

  lemma UsesStep(p: seq<Node>, i: nat, u: Node, v: Node)
    requires i + 1 < |p|
    ensures Uses(p[..i + 2], u, v) <==> Uses(p[..i + 1], u, v) || (p[i] == u && p[i + 1] == v)
  {
    assert p[..i + 2][..i + 1] == p[..i + 1];
  }

  lemma AlongStep(g: ResGraph, h: ResGraph, p: seq<Node>, i: nat, f: EdgeFlow -> EdgeFlow)
    requires Simple(p) && i + 1 < |p| && Along(g, h, p[..i + 1], f)
    ensures var u, v := p[i], p[i + 1];
            Along(g, if u in h && v in h[u] then SetEdge(h, u, v, f(h[u][v])) else h, p[..i + 2], f)
  {
    var u, v := p[i], p[i + 1];
    EdgeIsNew(p, i);
    var h' := if u in h && v in h[u] then SetEdge(h, u, v, f(h[u][v])) else h;
    forall x, y | x in g && y in g[x]
      ensures h'[x][y] == if Uses(p[..i + 2], x, y) then f(g[x][y]) else g[x][y]
    {
      UsesStep(p, i, x, y);
    }
  }

  /** One more unit on each edge of the route. */
  method AllocateFlow(g0: ResGraph, path: seq<Node>) returns (g: ResGraph)
    requires |path| >= 1 && Simple(path)
    ensures Along(g0, g, path, Filled)
  {
    g := g0;
    for i := 0 to |path| - 1
      invariant Along(g0, g, path[..i + 1], Filled)
    {
      AlongStep(g0, g, path, i, Filled);
      var u, v := path[i], path[i + 1];
      if u in g && v in g[u] {
        g := SetEdge(g, u, v, Filled(g[u][v]));
      }
    }
    assert path[..|path|] == path;
  }

  /** One unit less on each edge of the route, never below zero. */
  method ReleaseFlow(g0: ResGraph, path: seq<Node>) returns (g: ResGraph)
    requires |path| >= 1 && Simple(path)
    ensures Along(g0, g, path, Released)
  {
    g := g0;
    for i := 0 to |path| - 1
      invariant Along(g0, g, path[..i + 1], Released)
    {
      AlongStep(g0, g, path, i, Released);
      var u, v := path[i], path[i + 1];
      if u in g && v in g[u] {
        g := SetEdge(g, u, v, Released(g[u][v]));
      }
    }
    assert path[..|path|] == path;
  }

  // ---------- Adding and removing a route ----------

  /** The clamp in a release never fires: each edge of a current route carries at least one unit. */
  lemma ReleaseIsExact(g: ResGraph, h: ResGraph, ps: seq<PathWithInfo>)
    requires ps != [] && FlowsMatch(g, ps) && Along(g, h, ps[0].path, Released)
    ensures forall u, v :: u in g && v in g[u] && Uses(ps[0].path, u, v) ==> g[u][v].flow >= 1.0
    ensures FlowsMatch(h, ps[1..])
  {
    forall u, v | u in g && v in g[u]
      ensures Uses(ps[0].path, u, v) ==> g[u][v].flow >= 1.0
      ensures h[u][v].flow == Traversals(ps[1..], u, v) as real
    {
      assert Traversals(ps, u, v) == (if Uses(ps[0].path, u, v) then 1 else 0) + Traversals(ps[1..], u, v);
    }
  }

  lemma AllocateIsExact(g: ResGraph, h: ResGraph, ps: seq<PathWithInfo>, p: PathWithInfo)
    requires FlowsMatch(g, ps) && Along(g, h, p.path, Filled)
    ensures FlowsMatch(h, ps + [p])
  {
    forall u, v | u in g && v in g[u]
      ensures h[u][v].flow == Traversals(ps + [p], u, v) as real
    {
      TraversalsSnoc(ps, p, u, v);
    }
  }

  /** The books after route p joined. */
  ghost predicate Joined(b: Books, b': Books, p: PathWithInfo) {
    && Along(b.g, b'.g, p.path, Filled) && b'.paths == b.paths + [p]
    && b'.count == b.count[p.dest := CountAt(b.count, p.dest) + 1] && b'.used == b.used + {PathKey.Join(p.path)}
  }

  /** The books after the oldest route left. */
  ghost predicate OldestLeft(b: Books, b': Books) {
    && b.paths != []
    && var p := b.paths[0];
       && Along(b.g, b'.g, p.path, Released) && b'.paths == b.paths[1..]
       && b'.count == b.count[p.dest := CountAt(b.count, p.dest) - 1] && b'.used == b.used - {PathKey.Join(p.path)}
  }

  /** Dropping the oldest route keeps the books. */
  lemma RemoveKeepsAccounts(start: Node, thetaL: map<Node, real>, b: Books, h: ResGraph)
    requires b.paths != [] && Accounted(start, thetaL, b) && Along(b.g, h, b.paths[0].path, Released)
    ensures var p := b.paths[0];
            Accounted(start, thetaL, Books(h, b.paths[1..], b.count[p.dest := CountAt(b.count, p.dest) - 1],
                                           b.used - {PathKey.Join(p.path)}))
  {
    var ps := b.paths;
    ReleaseIsExact(b.g, h, ps);
    var rest := ps[1..];
    assert ps == [ps[0]] + rest;
    var count := b.count[ps[0].dest := CountAt(b.count, ps[0].dest) - 1];
    forall d
      ensures CountAt(count, d) == RoutesTo(rest, d)
    {
      assert CountAt(b.count, d) == RoutesTo(ps, d) == (if ps[0].dest == d then 1 else 0) + RoutesTo(rest, d);
    }
    assert KeysMatch(b.used - {PathKey.Join(ps[0].path)}, rest) by {
      forall p | p in rest
        ensures PathKey.Join(p.path) != PathKey.Join(ps[0].path)
      {
        var i :| 0 <= i < |rest| && rest[i] == p;
        assert ps[i + 1] == p;
        assert GoodPath(start, thetaL, p) && GoodPath(start, thetaL, ps[0]);
        PathKey.KeysInjective(p.path, ps[0].path);
      }
    }
  }

  /** Adding a route under a fresh key keeps the books. */
  lemma AddKeepsAccounts(start: Node, thetaL: map<Node, real>, b: Books, h: ResGraph, p: PathWithInfo)
    requires Accounted(start, thetaL, b) && Along(b.g, h, p.path, Filled)
    requires GoodPath(start, thetaL, p) && PathKey.Join(p.path) !in b.used
    ensures Accounted(start, thetaL, Books(h, b.paths + [p], b.count[p.dest := CountAt(b.count, p.dest) + 1],
                                           b.used + {PathKey.Join(p.path)}))
  {
    AllocateIsExact(b.g, h, b.paths, p);
    forall d
      ensures RoutesTo(b.paths + [p], d) == RoutesTo(b.paths, d) + if p.dest == d then 1 else 0
    {
      RoutesToSnoc(b.paths, p, d);
    }
  }

  /** Recording a found route: list, counter, key set and flows move together. */
  method AddRoute(ghost start: Node, ghost thetaL: map<Node, real>, b0: Books, p: PathWithInfo) returns (b: Books)
    requires Accounted(start, thetaL, b0) && GoodPath(start, thetaL, p) && PathKey.Join(p.path) !in b0.used
    ensures Accounted(start, thetaL, b) && Joined(b0, b, p)
  {
    var g := AllocateFlow(b0.g, p.path);
    AddKeepsAccounts(start, thetaL, b0, g, p);
    b := Books(g, b0.paths + [p], b0.count[p.dest := CountAt(b0.count, p.dest) + 1], b0.used + {PathKey.Join(p.path)});
  }

  /** Dropping the oldest route undoes exactly what adding it did. */
  method RemoveOldest(ghost start: Node, ghost thetaL: map<Node, real>, b0: Books) returns (b: Books)
    requires Accounted(start, thetaL, b0) && b0.paths != []
    ensures Accounted(start, thetaL, b) && OldestLeft(b0, b)
  {
    var p := b0.paths[0];
    assert GoodPath(start, thetaL, p);
    var g := ReleaseFlow(b0.g, p.path);
    RemoveKeepsAccounts(start, thetaL, b0, g);
    b := Books(g, b0.paths[1..], b0.count[p.dest := CountAt(b0.count, p.dest) - 1], b0.used - {PathKey.Join(p.path)});
  }

  /** No edge carries more units than there are routes. */
  lemma FlowAtMostRoutes(g: ResGraph, ps: seq<PathWithInfo>, u: Node, v: Node)
    requires FlowsMatch(g, ps) && u in g && v in g[u]
    ensures 0.0 <= g[u][v].flow <= |ps| as real
  {
  }
}
