/**
 Promises that hold along whole runs of the flow solver: where every crossing edge is harmless,
 all routes found while the destinations are filled, all routes of every later turn and hence
 all reported routes are paths of the network, or paths with their true latency.
 */
module TrustedRuns {
  import opened NetworkGraph
  import opened Wrappers
  import opened KShortest
  import opened FlowSearch
  import opened FlowAccounting
  import opened Carousel
  import opened Coverage
  import opened RouteFinding
  import opened InitialRoutes
  import opened CarouselTurns
  import opened FlowSolver
  import opened ReportedLatency
  import opened Crossings
  import PathKey
  import Sorting

  /** The network allows the promise for routes to d. */
  ghost predicate AllowedFor(s: Setting, built: ResGraph, pr: Promise, d: Node) {
    Network(s, built) && Safe(Adjacency(s.edges), s.start, pr) && BoundedFor(s, pr, d)
  }

  /** The network allows the promise for this run. */
  ghost predicate Allowed(s: Setting, built: ResGraph, pr: Promise) {
    forall d {:trigger AllowedFor(s, built, pr, d)} :: d in s.ends ==> AllowedFor(s, built, pr, d)
  }

  ghost predicate Trusty(s: Setting, built: ResGraph, pr: Promise, b: Books) {
    Running(s, built, b) && AllKeep(s, pr, b.paths)
  }

  lemma TrustyIsSound(s: Setting, built: ResGraph, pr: Promise, b: Books)
    requires Trusty(s, built, pr, b) && Network(s, built) && Safe(Adjacency(s.edges), s.start, pr)
    ensures Sound(s, built, b.g, b.paths, pr)
  {
  }

  // ---------- While the destinations are filled ----------

  lemma JoinKeeps(s: Setting, built: ResGraph, pr: Promise, b: Books, b': Books, p: PathWithInfo, w: seq<Step>)
    requires AllowedFor(s, built, pr, p.dest) && Trusty(s, built, pr, b) && b'.paths == b.paths + [p]
    requires Walkable(s, b.g, p.dest, w) && p == RouteBy(s, p.dest, Visits(s.start, w), Cost(w))
    ensures AllKeep(s, pr, b'.paths)
  {
    TrustyIsSound(s, built, pr, b);
    FoundKeeps(s, built, b.g, b.paths, pr, p.dest, w);
    Sorting.SnocMembers(b.paths, p);
  }

  lemma JoinFound(s: Setting, built: ResGraph, pr: Promise, b: Books, b': Books, p: PathWithInfo, w: seq<Step>)
    requires AllowedFor(s, built, pr, p.dest) && Trusty(s, built, pr, b) && p.dest in s.ends
    requires Joined(b, b', p) && PathKey.Join(p.path) !in b.used
    requires Walkable(s, b.g, p.dest, w) && p == RouteBy(s, p.dest, Visits(s.start, w), Cost(w))
    ensures Trusty(s, built, pr, b')
  {
    JoinAccounts(s, built, b, b', p, w);
    JoinKeepsRunning(s, built, b, b', p, w);
    JoinKeeps(s, built, pr, b, b', p, w);
  }

  lemma JoinIsTrusty(s: Setting, built: ResGraph, pr: Promise, b: Books, b': Books, end: Node, attempt: nat)
    requires Allowed(s, built, pr) && Trusty(s, built, pr, b) && FoundNext(s, b, b', end, attempt) && end in s.ends
    ensures Trusty(s, built, pr, b')
  {
    var p: PathWithInfo, w :| p.dest == end && Finds(s, b.g, b.used, attempt, p, w)
                              && PathKey.Join(p.path) !in b.used && Joined(b, b', p);
    assert AllowedFor(s, built, pr, end);
    JoinFound(s, built, pr, b, b', p, w);
  }

  lemma LinkIsTrusty(s: Setting, built: ResGraph, pr: Promise, trail: seq<Books>, end: Node, k: nat)
    requires Allowed(s, built, pr) && Trail(s, trail, end) && end in s.ends && k + 1 < |trail|
    requires Trusty(s, built, pr, trail[k])
    ensures Trusty(s, built, pr, trail[k + 1])
  {
    assert TrailLink(s, trail, end, k);
    JoinIsTrusty(s, built, pr, trail[k], trail[k + 1], end, if k == 0 then 1 else 2);
  }

  lemma {:induction false} TrailIsTrusty(s: Setting, built: ResGraph, pr: Promise, trail: seq<Books>, end: Node, k: nat)
    requires Allowed(s, built, pr) && Trail(s, trail, end) && end in s.ends && k < |trail|
    requires Trusty(s, built, pr, trail[0])
    ensures Trusty(s, built, pr, trail[k])
  {
    if k > 0 {
      TrailIsTrusty(s, built, pr, trail, end, k - 1);
      LinkIsTrusty(s, built, pr, trail, end, k - 1);
    }
  }

  lemma FilledIsTrusty(s: Setting, built: ResGraph, pr: Promise, b: Books, b': Books, end: Node)
    requires Allowed(s, built, pr) && Trusty(s, built, pr, b) && FilledAt(s, b, b', end) && end in s.ends
    ensures Trusty(s, built, pr, b')
  {
    var added: nat :| FilledBy(s, b, b', end, added);
    var trail :| Trail(s, trail, end) && |trail| == added + 1 && trail[0] == b && trail[added] == b';
    TrailIsTrusty(s, built, pr, trail, end, added);
  }

  lemma NoRoutesIsTrusty(s: Setting, built: ResGraph, pr: Promise)
    requires EdgesOnly(s.edges, built) && Idle(built)
    ensures Trusty(s, built, pr, NoRoutes(built))
  {
    FillingStart(s, built);
  }

  lemma {:induction false} ChainIsTrusty(s: Setting, built: ResGraph, pr: Promise, books: seq<Books>, k: nat)
    requires Allowed(s, built, pr) && Chain(s, books) && k < |books| && Trusty(s, built, pr, books[0])
    ensures Trusty(s, built, pr, books[k])
  {
    if k > 0 {
      ChainIsTrusty(s, built, pr, books, k - 1);
      assert ChainLink(s, books, k - 1);
      FilledIsTrusty(s, built, pr, books[k - 1], books[k], s.ends[k - 1]);
    }
  }

  /** Every initial solution keeps the promise. */
  lemma InitialIsTrusty(s: Setting, built: ResGraph, pr: Promise, books: seq<Books>, b: Books)
    requires Allowed(s, built, pr) && EdgesOnly(s.edges, built) && Idle(built) && InitialRun(s, built, books, b)
    ensures Trusty(s, built, pr, b)
  {
    NoRoutesIsTrusty(s, built, pr);
    ChainIsTrusty(s, built, pr, books, |s.ends|);
  }

  // ---------- Along the turns ----------

  /** Bans change no flows. */
  lemma MarkedKeeps(b: Books, b': Books, freq: Option<PathWithInfo>, oldest: PathWithInfo)
    requires FlowsMatch(b.g, b.paths) && Marked(b, b', freq, oldest)
    ensures FlowsMatch(b'.g, b'.paths) && SameShape(b.g, b'.g)
  {
  }

  lemma DroppedIsSound(s: Setting, built: ResGraph, pr: Promise, b: Books, b': Books)
    requires Network(s, built) && Safe(Adjacency(s.edges), s.start, pr)
    requires Trusty(s, built, pr, b) && OldestLeft(b, b')
    ensures Sound(s, built, b'.g, b'.paths, pr)
  {
    TrustyIsSound(s, built, pr, b);
    RemoveKeepsAccounts(s.start, s.thetaL, b, b'.g);
    FilledKeepsRatings();
    FlowKeepsShape(built, b.g, b'.g, b.paths[0].path, Released);
  }

  lemma MarkedIsSound(s: Setting, built: ResGraph, pr: Promise, b: Books, b': Books, freq: Option<PathWithInfo>,
                      oldest: PathWithInfo)
    requires Sound(s, built, b.g, b.paths, pr) && Marked(b, b', freq, oldest)
    ensures Sound(s, built, b'.g, b'.paths, pr)
  {
    MarkedKeeps(b, b', freq, oldest);
    SameShapeChain(built, b.g, b'.g);
  }

  lemma ReplacementKeeps(s: Setting, built: ResGraph, pr: Promise, x: Books, y: Books, p: PathWithInfo, w: seq<Step>)
    requires AllowedFor(s, built, pr, p.dest) && Sound(s, built, x.g, x.paths, pr) && y.paths == x.paths + [p]
    requires Walkable(s, x.g, p.dest, w) && p == RouteBy(s, p.dest, Visits(s.start, w), Cost(w))
    ensures AllKeep(s, pr, y.paths)
  {
    FoundKeeps(s, built, x.g, x.paths, pr, p.dest, w);
    Sorting.SnocMembers(x.paths, p);
  }

  lemma ReplacedKeeps(s: Setting, built: ResGraph, pr: Promise, x: State, y: State, attempt: nat)
    requires Allowed(s, built, pr) && Sound(s, built, x.b.g, x.b.paths, pr) && Replaced(s, x, y, attempt)
    ensures AllKeep(s, pr, y.b.paths)
  {
    if y != x {
      var p :| Replacement(s, x.b, attempt, p) && Joined(x.b, y.b, p) && y.acc == x.acc.AddPath(p);
      var w :| Finds(s, x.b.g, x.b.used, attempt, p, w);
      assert AllowedFor(s, built, pr, p.dest);
      ReplacementKeeps(s, built, pr, x.b, y.b, p, w);
    }
  }

  lemma StagesKeep(s: Setting, built: ResGraph, pr: Promise, x: State, y: State, attempt: nat, v: Stages)
    requires Allowed(s, built, pr) && Network(s, built) && Safe(Adjacency(s.edges), s.start, pr)
    requires Trusty(s, built, pr, x.b) && TurnVia(s, x, y, attempt, v)
    ensures AllKeep(s, pr, y.b.paths)
  {
    DroppedIsSound(s, built, pr, x.b, v.dropped);
    MarkedIsSound(s, built, pr, v.dropped, v.marked, v.freq, x.b.paths[0]);
    ReplacedKeeps(s, built, pr, State(v.marked, x.acc), v.replaced, attempt);
  }

  lemma TurnKeeps(s: Setting, built: ResGraph, pr: Promise, x: State, y: State, attempt: nat)
    requires Allowed(s, built, pr) && Trusty(s, built, pr, x.b) && Turned(s, x, y, attempt)
    ensures AllKeep(s, pr, y.b.paths)
  {
    var v :| TurnVia(s, x, y, attempt, v);
    var oldest := x.b.paths[0];
    assert Held(s, built, oldest) && AllowedFor(s, built, pr, oldest.dest);
    StagesKeep(s, built, pr, x, y, attempt, v);
  }

  lemma NextKeeps(s: Setting, built: ResGraph, pr: Promise, states: seq<State>, k: nat)
    requires Allowed(s, built, pr) && CarouselRun(s, built, states) && 2 <= k < |states|
    requires AllKeep(s, pr, states[k - 1].b.paths)
    ensures AllKeep(s, pr, states[k].b.paths)
  {
    assert Steady(s, built, states[k - 1].b, |states[0].b.paths|);
    assert TurnedAt(s, states, k);
    TurnKeeps(s, built, pr, states[k - 1], states[k], k - 1);
  }

  lemma TrimKeeps(s: Setting, built: ResGraph, pr: Promise, states: seq<State>)
    requires CarouselRun(s, built, states) && AllKeep(s, pr, states[0].b.paths)
    ensures AllKeep(s, pr, states[1].b.paths)
  {
    forall p | p in states[1].b.paths
      ensures Keeps(s, pr, p)
    {
      assert p in states[0].b.paths;
    }
  }

  /** Every state of a run keeps the promise. */
  lemma {:induction false} RunKeeps(s: Setting, built: ResGraph, pr: Promise, states: seq<State>, k: nat)
    requires Allowed(s, built, pr) && CarouselRun(s, built, states) && AllKeep(s, pr, states[0].b.paths) && k < |states|
    ensures AllKeep(s, pr, states[k].b.paths)
  {
    if k == 1 {
      TrimKeeps(s, built, pr, states);
    } else if k > 1 {
      RunKeeps(s, built, pr, states, k - 1);
      NextKeeps(s, built, pr, states, k);
    }
  }

  /**
   Known before the call: where every crossing edge of the network has its opposite, all reported
   routes are paths; with bounds below the surcharge for bans, and where every edge crossing within
   them has an opposite without latency, all are paths with their true latency.
   */
  lemma TrustedReport(run: Record, infos: seq<PathInfo>, pr: Promise, i: nat)
    requires Prepared(run) && Reports(run, infos) && i < |infos|
    requires Safe(Adjacency(run.s.edges), run.s.start, pr) && Bounded(run.s, pr)
    ensures IsWalk(Adjacency(run.s.edges), infos[i].hops)
    ensures pr.Truth? ==> TrueRoute(run.s, infos[i].hops, infos[i].rtt)
  {
    assert Allowed(run.s, run.built, pr);
    InitialIsTrusty(run.s, run.built, pr, run.books, run.states[0].b);
    RunKeeps(run.s, run.built, pr, run.states, run.at);
    assert Keeps(run.s, pr, run.states[run.at].b.paths[i]);
  }
}
