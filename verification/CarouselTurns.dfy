/**
 One turn of the carousel: the oldest route leaves, the edges of the most frequent route and
 the first edge of the one that left are banned, a destination below its quota gets a new
 route if a search finds one, and the bans are lifted.
 */
module CarouselTurns {
  import opened NetworkGraph
  import opened Wrappers
  import opened FlowSearch
  import opened FlowAccounting
  import opened Carousel
  import opened RouteFinding
  import PathKey
  import Sorting

  // ---------- The accumulator of historical routes ----------

  datatype PathAccumulator = PathAccumulator(paths: map<string, PathWithInfo>, freq: map<string, nat>) {
    function AddPath(p: PathWithInfo): PathAccumulator {
      PathAccumulator(paths[p.pathStr := p], freq[p.pathStr := (if p.pathStr in freq then freq[p.pathStr] else 0) + 1])
    }

    ghost predicate Valid(start: Node, thetaL: map<Node, real>) {
      && paths.Keys == freq.Keys
      && (forall k :: k in freq ==> freq[k] >= 1)
      && (forall k :: k in paths ==> GoodPath(start, thetaL, paths[k]))
    }
  }

  /** The routes recorded one after the other. */
  function Recorded(ps: seq<PathWithInfo>): PathAccumulator {
    if ps == [] then PathAccumulator(map[], map[]) else Recorded(ps[..|ps| - 1]).AddPath(ps[|ps| - 1])
  }

  /** A recorded route of maximal frequency; nothing only if no route was ever recorded. */
  ghost predicate MostFrequent(acc: PathAccumulator, r: Option<PathWithInfo>) {
    match r
    case None => acc.freq == map[]
    case Some(p) =>
      exists k :: k in acc.freq && k in acc.paths && acc.paths[k] == p
                  && forall x :: x in acc.freq ==> acc.freq[x] <= acc.freq[k]
  }

  method GetMostFrequent(acc: PathAccumulator, ghost start: Node, ghost thetaL: map<Node, real>)
    returns (r: Option<PathWithInfo>)
    requires acc.Valid(start, thetaL)
    ensures MostFrequent(acc, r)
    ensures r.Some? ==> GoodPath(start, thetaL, r.value)
  {
    var best := 0;
    r := None;
    var rest := acc.freq.Keys;
    ghost var key := "";
    while rest != {}
      invariant rest <= acc.freq.Keys
      invariant forall x :: x in acc.freq && x !in rest ==> acc.freq[x] <= best
      invariant r.None? ==> rest == acc.freq.Keys && best == 0
      invariant r.Some? ==> key in acc.freq && acc.freq[key] == best && acc.paths[key] == r.value
      decreases rest
    {
      var k :| k in rest;
      rest := rest - {k};
      if acc.freq[k] > best {
        best, r, key := acc.freq[k], Some(acc.paths[k]), k;
      }
    }
  }

  // ---------- One turn of the carousel ----------

  /** Replacing the graph by one with other bans keeps the run going. */
  lemma BanKeepsRunning(s: Setting, built: ResGraph, b: Books, h: ResGraph, p: seq<Node>)
    requires Running(s, built, b) && Along(b.g, h, p, Banned)
    ensures Running(s, built, b.(g := h))
  {
    FilledKeepsRatings();
    AlongKeepsShape(b.g, h, p, Banned);
    BanKeepsFlows(b.g, h, p, b.paths);
  }

  ghost predicate WithinQuota(ps: seq<PathWithInfo>) {
    forall d :: RoutesTo(ps, d) <= FLOWS_PER_DEST
  }

  /** An edge of the most frequent route, or the first of the dropped one. */
  ghost predicate Discouraged(freq: Option<PathWithInfo>, oldest: PathWithInfo, u: Node, v: Node) {
    || (freq.Some? && Uses(freq.value.path, u, v))
    || (|oldest.path| >= 2 && Uses(oldest.path[..2], u, v))
  }

  /** Exactly the discouraged edges become banned, and nothing else changes. */
  ghost predicate Marked(b: Books, b': Books, freq: Option<PathWithInfo>, oldest: PathWithInfo) {
    && b' == b.(g := b'.g) && b'.g.Keys == b.g.Keys && (forall u :: u in b.g ==> b'.g[u].Keys == b.g[u].Keys)
    && forall u, v :: u in b.g && v in b.g[u] ==>
         b'.g[u][v] == if Discouraged(freq, oldest, u, v) then Banned(b.g[u][v]) else b.g[u][v]
  }

  /** Bans the edges of a route and the first edge of the dropped one. */
  method Discourage(s: Setting, ghost built: ResGraph, b0: Books, freq: Option<PathWithInfo>, oldest: PathWithInfo)
    returns (b: Books)
    requires Running(s, built, b0) && GoodPath(s.start, s.thetaL, oldest)
    requires freq.Some? ==> GoodPath(s.start, s.thetaL, freq.value)
    ensures Running(s, built, b) && Marked(b0, b, freq, oldest)
  {
    b := b0;
    ghost var first, second: seq<Node> := [], [];
    if freq.Some? {
      first := freq.value.path;
      b := Ban(s, built, b, freq.value.path);
    }
    ghost var b1 := b;
    if |oldest.path| >= 2 {
      second := oldest.path[..2];
      b := Ban(s, built, b, oldest.path[..2]);
    }
    MarkedTwice(b0, b1, b, first, second, freq, oldest);
  }

  /** Bans the edges of one route. */
  method Ban(s: Setting, ghost built: ResGraph, b0: Books, path: seq<Node>) returns (b: Books)
    requires Running(s, built, b0) && |path| >= 1 && Simple(path)
    ensures Running(s, built, b) && b == b0.(g := b.g) && Along(b0.g, b.g, path, Banned)
  {
    var g := BanPathEdges(b0.g, path);
    BanKeepsRunning(s, built, b0, g, path);
    b := b0.(g := g);
  }

  lemma MarkedTwice(b0: Books, b1: Books, b: Books, first: seq<Node>, second: seq<Node>, freq: Option<PathWithInfo>,
                    oldest: PathWithInfo)
    requires b1 == b0.(g := b1.g) && Along(b0.g, b1.g, first, Banned)
    requires b == b1.(g := b.g) && Along(b1.g, b.g, second, Banned)
    requires forall u, v :: Discouraged(freq, oldest, u, v) <==> Uses(first, u, v) || Uses(second, u, v)
    ensures Marked(b0, b, freq, oldest)
  {
  }

  // ---------- The replacement ----------

  /**
   Why a destination gets no new route: its quota is reached, the start has no edges, all its
   feasible routes are in use, or a later attempt, which takes any feasible route, met a used one.
   */
  ghost predicate NoReplacement(s: Setting, b: Books, d: Node, attempt: nat) {
    || CountAt(b.count, d) >= FLOWS_PER_DEST
    || Unfindable(s, b.g, b.used, attempt, d)
    || (attempt > 1 && exists w :: Walkable(s, b.g, d, w) && InUse(s, b.used, w))
  }

  /** A route that may join: found by the search, not in use, to a destination below its quota. */
  ghost predicate Replacement(s: Setting, b: Books, attempt: nat, p: PathWithInfo) {
    && p.dest in s.ends && CountAt(b.count, p.dest) < FLOWS_PER_DEST && PathKey.Join(p.path) !in b.used
    && exists w :: Finds(s, b.g, b.used, attempt, p, w)
  }

  /** An unused route to a destination below its quota, found in the graph as it is. */
  method Candidate(s: Setting, b: Books, end: Node, attempt: nat) returns (r: Option<PathWithInfo>)
    requires Searchable(s, b.g) && end in s.ends
    ensures r.Some? ==>
              Replacement(s, b, attempt, r.value) && r.value.dest == end && GoodPath(s.start, s.thetaL, r.value)
    ensures r.None? ==> NoReplacement(s, b, end, attempt)
  {
    if CountAt(b.count, end) >= FLOWS_PER_DEST {
      return None;
    }
    ghost var w;
    r, w := FindFeasible(s, b.g, end, b.used, attempt);
    if r.Some? && PathKey.Join(r.value.path) in b.used {
      assert Walkable(s, b.g, end, w) && InUse(s, b.used, w);
      r := None;
    }
  }

  /** The first candidate in the given order. */
  method FirstCandidate(s: Setting, b: Books, ends: seq<Node>, attempt: nat) returns (r: Option<PathWithInfo>)
    requires Searchable(s, b.g) && forall d :: d in ends ==> d in s.ends
    ensures r.Some? ==> Replacement(s, b, attempt, r.value) && GoodPath(s.start, s.thetaL, r.value)
    ensures r.None? ==> forall d :: d in ends ==> NoReplacement(s, b, d, attempt)
  {
    r := None;
    for n := 0 to |ends|
      invariant r.None? && forall i :: 0 <= i < n ==> NoReplacement(s, b, ends[i], attempt)
    {
      r := Candidate(s, b, ends[n], attempt);
      if r.Some? {
        return;
      }
    }
  }

  /** Either a replacement has joined and is recorded, or there was none for any destination. */
  ghost predicate Replaced(s: Setting, x: State, y: State, attempt: nat) {
    || (y == x && forall d :: d in s.ends ==> NoReplacement(s, x.b, d, attempt))
    || (exists p :: Replacement(s, x.b, attempt, p) && Joined(x.b, y.b, p) && y.acc == x.acc.AddPath(p))
  }

  /** The books and the record of routes. */
  datatype State = State(b: Books, acc: PathAccumulator)

  /** Looks for a replacement among the destinations below their quota, in any order. */
  method Replace(s: Setting, ghost built: ResGraph, x: State, attempt: nat) returns (y: State)
    requires s.Valid() && Running(s, built, x.b) && x.acc.Valid(s.start, s.thetaL)
    ensures Running(s, built, y.b) && y.acc.Valid(s.start, s.thetaL)
    ensures Replaced(s, x, y, attempt)
    ensures WithinQuota(x.b.paths) ==> WithinQuota(y.b.paths)
  {
    var ends := Shuffle(s.ends);
    Sorting.PermutationMembers(s.ends, ends);
    RunIsSearchable(s, built, x.b.g);
    var found := FirstCandidate(s, x.b, ends, attempt);
    if found.None? {
      return x;
    }
    ghost var w :| Finds(s, x.b.g, x.b.used, attempt, found.value, w);
    y := TakeFound(s, built, x, found.value, w);
  }

  /** A replacement is taken and recorded. */
  method TakeFound(s: Setting, ghost built: ResGraph, x: State, p: PathWithInfo, ghost w: seq<Step>) returns (y: State)
    requires Running(s, built, x.b) && x.acc.Valid(s.start, s.thetaL) && GoodPath(s.start, s.thetaL, p)
    requires p.dest in s.ends && Walkable(s, x.b.g, p.dest, w) && p == RouteBy(s, p.dest, Visits(s.start, w), Cost(w))
    requires CountAt(x.b.count, p.dest) < FLOWS_PER_DEST && PathKey.Join(p.path) !in x.b.used
    ensures Running(s, built, y.b) && y.acc.Valid(s.start, s.thetaL)
    ensures Joined(x.b, y.b, p) && y.acc == x.acc.AddPath(p)
    ensures WithinQuota(x.b.paths) ==> WithinQuota(y.b.paths)
  {
    QuotaAfterAdd(s, x.b, p);
    var b := Take(s, built, x.b, p, w);
    AddPathValid(s, x.acc, p);
    y := State(b, x.acc.AddPath(p));
  }

  lemma AddPathValid(s: Setting, acc: PathAccumulator, p: PathWithInfo)
    requires acc.Valid(s.start, s.thetaL) && GoodPath(s.start, s.thetaL, p)
    ensures acc.AddPath(p).Valid(s.start, s.thetaL)
  {
  }

  lemma QuotaAfterAdd(s: Setting, b: Books, p: PathWithInfo)
    requires CountsMatch(b.count, b.paths) && CountAt(b.count, p.dest) < FLOWS_PER_DEST
    ensures WithinQuota(b.paths) ==> WithinQuota(b.paths + [p])
  {
    forall d
      ensures RoutesTo(b.paths + [p], d) == RoutesTo(b.paths, d) + if p.dest == d then 1 else 0
    {
      RoutesToSnoc(b.paths, p, d);
    }
  }

  lemma QuotaAfterDrop(ps: seq<PathWithInfo>)
    requires ps != [] && WithinQuota(ps)
    ensures WithinQuota(ps[1..])
  {
    forall d
      ensures RoutesTo(ps[1..], d) <= FLOWS_PER_DEST
    {
      assert RoutesTo(ps[1..], d) <= RoutesTo(ps, d);
    }
  }

  // ---------- A whole turn ----------

  /** What happens within a turn: the route banned as most frequent, and the states in between. */
  datatype Stages = Stages(freq: Option<PathWithInfo>, dropped: Books, marked: Books, replaced: State)

  ghost predicate TurnVia(s: Setting, x: State, y: State, attempt: nat, v: Stages) {
    && OldestLeft(x.b, v.dropped) && MostFrequent(x.acc, v.freq)
    && Marked(v.dropped, v.marked, v.freq, x.b.paths[0])
    && Replaced(s, State(v.marked, x.acc), v.replaced, attempt)
    && y == State(v.replaced.b.(g := UnbanAllEdges(v.replaced.b.g)), v.replaced.acc)
  }

  /** A turn takes x to y. */
  ghost predicate Turned(s: Setting, x: State, y: State, attempt: nat) {
    exists v :: TurnVia(s, x, y, attempt, v)
  }

  method Turn(s: Setting, ghost built: ResGraph, x: State, attempt: nat) returns (y: State)
    requires s.Valid() && Running(s, built, x.b) && x.acc.Valid(s.start, s.thetaL) && x.b.paths != []
    ensures Running(s, built, y.b) && Unbanned(y.b.g) && y.acc.Valid(s.start, s.thetaL)
    ensures Turned(s, x, y, attempt)
    ensures WithinQuota(x.b.paths) ==> WithinQuota(y.b.paths)
  {
    var oldest := x.b.paths[0];
    assert GoodPath(s.start, s.thetaL, oldest);
    var dropped := Drop(s, built, x.b);
    var freq := GetMostFrequent(x.acc, s.start, s.thetaL);
    var marked := Discourage(s, built, dropped, freq, oldest);
    y := Finish(s, built, x, attempt, dropped, freq, marked);
  }

  lemma UnbanKeepsRunning(s: Setting, built: ResGraph, b: Books)
    requires Running(s, built, b)
    ensures Running(s, built, b.(g := UnbanAllEdges(b.g)))
  {
    UnbanKeeps(b.g, b.paths);
    SameShapeChain(built, b.g, UnbanAllEdges(b.g));
  }

  /** The second half of a turn: the search, and the lifting of the bans. */
  method Finish(s: Setting, ghost built: ResGraph, x: State, attempt: nat,
                ghost dropped: Books, ghost freq: Option<PathWithInfo>, marked: Books)
    returns (y: State)
    requires s.Valid() && Running(s, built, marked) && x.acc.Valid(s.start, s.thetaL)
    requires OldestLeft(x.b, dropped) && MostFrequent(x.acc, freq) && Marked(dropped, marked, freq, x.b.paths[0])
    ensures Running(s, built, y.b) && Unbanned(y.b.g) && y.acc.Valid(s.start, s.thetaL)
    ensures Turned(s, x, y, attempt)
    ensures WithinQuota(x.b.paths) ==> WithinQuota(y.b.paths)
  {
    var replaced := Replace(s, built, State(marked, x.acc), attempt);
    if WithinQuota(x.b.paths) {
      QuotaAfterDrop(x.b.paths);
    }
    UnbanKeepsRunning(s, built, replaced.b);
    y := State(replaced.b.(g := UnbanAllEdges(replaced.b.g)), replaced.acc);
    assert TurnVia(s, x, y, attempt, Stages(freq, dropped, marked, replaced));
  }

  /** Over a turn the oldest route goes and at most one comes. */
  lemma TurnSize(s: Setting, x: State, y: State, attempt: nat)
    requires Turned(s, x, y, attempt)
    ensures x.b.paths != [] && (y.b.paths == x.b.paths[1..] || exists p :: y.b.paths == x.b.paths[1..] + [p])
  {
  }
}
