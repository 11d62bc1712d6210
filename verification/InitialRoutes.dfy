/**
 The initial solution of the flow solver: up to two routes for each destination in turn.
 There is one exactly when a search on the idle network succeeds for some destination.
 */
module InitialRoutes {
  import opened NetworkGraph
  import opened KShortest
  import opened FlowSearch
  import opened FlowAccounting
  import opened Carousel
  import opened Coverage
  import opened RouteFinding
  import PathKey
  import Sorting

  // ---------- One destination ----------

  /** A walkable unused route to `end` exists right now. */
  ghost predicate Findable(s: Setting, b: Books, end: Node) {
    s.start in b.g && exists w :: Walkable(s, b.g, end, w) && !InUse(s, b.used, w)
  }

  /** The first attempt succeeds exactly when a route is findable. */
  lemma FirstAttempt(s: Setting, b: Books, end: Node)
    ensures Unfindable(s, b.g, b.used, 1, end) <==> !Findable(s, b, end)
  {
  }

  /** A later attempt has failed, or has met a route in use. */
  ghost predicate RanOut(s: Setting, b: Books, end: Node) {
    || Unfindable(s, b.g, b.used, 2, end)
    || exists w :: Walkable(s, b.g, end, w) && InUse(s, b.used, w)
  }

  /** One route to `end` joins: found in the books as they were, and not in use. */
  ghost predicate FoundNext(s: Setting, b: Books, b': Books, end: Node, attempt: nat) {
    exists p: PathWithInfo, w ::
      p.dest == end && Finds(s, b.g, b.used, attempt, p, w) && PathKey.Join(p.path) !in b.used && Joined(b, b', p)
  }

  /** The books before and after each route added, the first a cheapest. */
  ghost predicate Trail(s: Setting, trail: seq<Books>, end: Node) {
    |trail| >= 1 && forall k :: 0 <= k < |trail| - 1 ==> TrailLink(s, trail, end, k)
  }

  ghost predicate TrailLink(s: Setting, trail: seq<Books>, end: Node, k: nat)
    requires k + 1 < |trail|
  {
    FoundNext(s, trail[k], trail[k + 1], end, if k == 0 then 1 else 2)
  }

  /** The i routes added to b0, one after the other. */
  ghost predicate Found(s: Setting, b0: Books, b: Books, end: Node, i: nat) {
    exists trail :: Trail(s, trail, end) && |trail| == i + 1 && trail[0] == b0 && trail[i] == b
  }

  lemma FoundNone(s: Setting, b0: Books, end: Node)
    ensures Found(s, b0, b0, end, 0)
  {
    assert Trail(s, [b0], end);
  }

  lemma FoundOneMore(s: Setting, b0: Books, b: Books, b': Books, end: Node, i: nat)
    requires Found(s, b0, b, end, i) && FoundNext(s, b, b', end, if i == 0 then 1 else 2)
    ensures Found(s, b0, b', end, i + 1)
  {
    var trail :| Trail(s, trail, end) && |trail| == i + 1 && trail[0] == b0 && trail[i] == b;
    var all := trail + [b'];
    forall k | 0 <= k < |all| - 1
      ensures TrailLink(s, all, end, k)
    {
      if k < i {
        assert TrailLink(s, trail, end, k);
        assert all[k] == trail[k] && all[k + 1] == trail[k + 1];
      } else {
        assert all[k] == b && all[k + 1] == b';
      }
    }
    assert Trail(s, all, end);
  }

  lemma FoundOne(s: Setting, b0: Books, b: Books, b': Books, end: Node, i: nat, attempt: nat, p: PathWithInfo,
                 w: seq<Step>)
    requires Found(s, b0, b, end, i) && (i == 0 <==> attempt <= 1)
    requires p.dest == end && Finds(s, b.g, b.used, attempt, p, w) && PathKey.Join(p.path) !in b.used
    requires Joined(b, b', p)
    ensures Found(s, b0, b', end, i + 1)
  {
    assert FoundNext(s, b, b', end, if i == 0 then 1 else 2) by {
      assert Finds(s, b.g, b.used, if i == 0 then 1 else 2, p, w);
    }
    FoundOneMore(s, b0, b, b', end, i);
  }

  /** Filling in progress: i routes to `end` added to b0. */
  ghost predicate Adding(s: Setting, built: ResGraph, b0: Books, b: Books, end: Node, i: nat) {
    && Running(s, built, b) && Unbanned(b.g)
    && b0.paths <= b.paths && |b.paths| == |b0.paths| + i
    && (forall n :: |b0.paths| <= n < |b.paths| ==> b.paths[n].dest == end)
    && (i == 0 ==> b == b0)
  }

  lemma AddingOneMore(s: Setting, built: ResGraph, b0: Books, b: Books, b': Books, end: Node, i: nat, p: PathWithInfo)
    requires Adding(s, built, b0, b, end, i) && p.dest == end && b'.paths == b.paths + [p]
    requires Running(s, built, b') && Unbanned(b'.g)
    ensures Adding(s, built, b0, b', end, i + 1)
  {
  }

  /** A found route joins. */
  method AddFound(s: Setting, ghost built: ResGraph, ghost b0: Books, b1: Books, end: Node, ghost i: nat,
                  ghost attempt: nat, p: PathWithInfo, ghost w: seq<Step>)
    returns (b: Books)
    requires end in s.ends && Adding(s, built, b0, b1, end, i) && Found(s, b0, b1, end, i) && (i == 0 <==> attempt <= 1)
    requires p.dest == end && Finds(s, b1.g, b1.used, attempt, p, w) && PathKey.Join(p.path) !in b1.used
    requires GoodPath(s.start, s.thetaL, p)
    ensures Adding(s, built, b0, b, end, i + 1) && Found(s, b0, b, end, i + 1)
  {
    b := Take(s, built, b1, p, w);
    AddingOneMore(s, built, b0, b1, b, end, i, p);
    FoundOne(s, b0, b1, b, end, i, attempt, p, w);
  }

  datatype Attempt = Failed | Repeated | Added

  /** One attempt: it fails, meets a route in use, or adds a route. */
  method TryOnce(s: Setting, ghost built: ResGraph, ghost b0: Books, b1: Books, end: Node, ghost i: nat, attempt: nat)
    returns (b: Books, outcome: Attempt)
    requires s.Valid() && end in s.ends && attempt >= 1 && (i == 0 <==> attempt == 1)
    requires Adding(s, built, b0, b1, end, i) && Found(s, b0, b1, end, i)
    ensures outcome.Added? ==> Adding(s, built, b0, b, end, i + 1) && Found(s, b0, b, end, i + 1)
    ensures !outcome.Added? ==> b == b1
    ensures attempt == 1 ==> outcome == if Findable(s, b1, end) then Added else Failed
    ensures !outcome.Added? && attempt > 1 ==> RanOut(s, b1, end)
  {
    b := b1;
    FirstAttempt(s, b1, end);
    RunIsSearchable(s, built, b.g);
    var found, w := FindFeasible(s, b.g, end, b.used, attempt);
    if found.None? {
      return b, Failed;
    }
    if PathKey.Join(found.value.path) in b.used {
      assert Walkable(s, b.g, end, w) && InUse(s, b.used, w);
      return b, Repeated;
    }
    b := AddFound(s, built, b0, b, end, i, attempt, found.value, w);
    outcome := Added;
  }

  /** Routes to `end` were added as long as they could be found. */
  ghost predicate FilledBy(s: Setting, b0: Books, b: Books, end: Node, added: nat) {
    && added <= FLOWS_PER_DEST && Found(s, b0, b, end, added)
    && (Findable(s, b0, end) <==> added > 0)
    && (0 < added < FLOWS_PER_DEST ==> RanOut(s, b, end))
  }

  /**
   Up to FLOWS_PER_DEST routes for one destination, starting with a cheapest one: none exactly when
   none can be found, and fewer only when later attempts fail or meet a route in use.
   */
  method FillDestination(s: Setting, ghost built: ResGraph, b0: Books, end: Node) returns (b: Books, ghost added: nat)
    requires s.Valid() && Running(s, built, b0) && Unbanned(b0.g) && end in s.ends
    ensures Adding(s, built, b0, b, end, added) && FilledBy(s, b0, b, end, added)
  {
    b := b0;
    var i, attempt := 0, 0;
    FoundNone(s, b0, end);
    while i < FLOWS_PER_DEST
      invariant 0 <= i <= FLOWS_PER_DEST && 0 <= attempt <= MAX_ATTEMPTS && (attempt == 0 <==> i == 0)
      invariant Adding(s, built, b0, b, end, i) && Found(s, b0, b, end, i)
      invariant i > 0 ==> Findable(s, b0, end)
      invariant i == 1 && attempt > 1 ==> RanOut(s, b, end)
      decreases MAX_ATTEMPTS - attempt
    {
      attempt := attempt + 1;
      if attempt > MAX_ATTEMPTS {
        break;
      }
      var outcome;
      b, outcome := TryOnce(s, built, b0, b, end, i, attempt);
      if outcome.Failed? {
        break;
      }
      if outcome.Repeated? {
        continue;
      }
      i := i + 1;
    }
    added := i;
  }

  ghost predicate Distinct(ends: seq<Node>) {
    forall i, j :: 0 <= i < j < |ends| ==> ends[i] != ends[j]
  }

  /** Safe loads everywhere, distinct destinations, a small network, and bounds computed by the rule. */
  ghost predicate Uncongested(s: Setting) {
    && SafeLoads(s.edges)
    && Distinct(s.ends) && |s.nodes| <= MAX_HOPS
    && (forall d :: d in s.ends ==> ThetaRule(s.edges, s.start, d, ThetaLOf(s.thetaL, d)))
  }

  ghost predicate Reachable(s: Setting, d: Node) {
    Solvable(LatencySolver(s.edges), s.start, d)
  }

  /** A key that ends in a destination without routes is unused. */
  lemma FreshKey(s: Setting, b: Books, p: PathWithInfo)
    requires Accounted(s.start, s.thetaL, b) && GoodPath(s.start, s.thetaL, p)
    requires forall x :: x in b.paths ==> x.dest != p.dest
    ensures PathKey.Join(p.path) !in b.used
  {
    if PathKey.Join(p.path) in b.used {
      var x :| x in b.paths && PathKey.Join(x.path) == PathKey.Join(p.path);
      assert GoodPath(s.start, s.thetaL, x);
      PathKey.KeysInjective(x.path, p.path);
    }
  }

  /** A walkable route to a destination without routes is not in use. */
  lemma WalkableIsUnused(s: Setting, built: ResGraph, b: Books, end: Node, w: seq<Step>)
    requires s.Valid() && Running(s, built, b) && Walkable(s, b.g, end, w)
    requires forall x :: x in b.paths ==> x.dest != end
    ensures !InUse(s, b.used, w) && PathKey.ArrowFree(Visits(s.start, w))
  {
    var p := RouteBy(s, end, Visits(s.start, w), Cost(w));
    RunIsSearchable(s, built, b.g);
    FeasibleIsGood(s, b.g, end, w, p);
    FreshKey(s, b, p);
  }

  /** In an uncongested network the first attempt for a reachable destination succeeds. */
  lemma CoveredNow(s: Setting, built: ResGraph, b: Books, n: nat)
    requires s.Valid() && n < |s.ends| && Filling(s, built, b, n)
    requires Provisioned(s.edges, s.Cap(), built)
    requires Uncongested(s) && Reachable(s, s.ends[n]) && s.start in built
    ensures Findable(s, b, s.ends[n])
  {
    var end := s.ends[n];
    assert |b.paths| as real < s.Cap();
    SafeLoadsAreOpen(s.edges, s.Cap(), built, b.g, b.paths);
    var w := ReachableIsFeasible(s.edges, s.NetOf(b.g), s.start, end, ThetaLOf(s.thetaL, end));
    NotServedYet(s.ends, n, b.paths);
    WalkableIsUnused(s, built, b, end, w);
  }

  // ---------- All destinations ----------

  /** The books before the first route. */
  function NoRoutes(built: ResGraph): Books {
    Books(built, [], map[], {})
  }

  /** A search on the idle network succeeds for one of the destinations. */
  ghost predicate Answerable(s: Setting, built: ResGraph, ends: seq<Node>) {
    s.start in built && exists d, w :: d in ends && Walkable(s, built, d, w)
  }

  /** What filling one destination does to the number of routes per destination. */
  lemma FillCounts(before: seq<PathWithInfo>, after: seq<PathWithInfo>, end: Node, d: Node)
    requires before <= after && forall i :: |before| <= i < |after| ==> after[i].dest == end
    ensures RoutesTo(after, d) == RoutesTo(before, d) + if d == end then |after| - |before| else 0
  {
    var added := after[|before|..];
    assert after == before + added;
    RoutesToConcat(before, added, d);
    RoutesToSame(added, end, d);
  }

  /** State after the first n destinations have been filled. */
  ghost predicate Filling(s: Setting, built: ResGraph, b: Books, n: nat)
    requires n <= |s.ends|
  {
    && Running(s, built, b) && Unbanned(b.g)
    && |b.paths| <= n * FLOWS_PER_DEST
    && (forall p :: p in b.paths ==> p.dest in s.ends[..n])
    && (Distinct(s.ends) ==> forall d :: RoutesTo(b.paths, d) <= FLOWS_PER_DEST)
    && Covering(s, built, b, n)
    && Answering(s, built, b, n)
  }

  /** There is a route exactly when some destination so far is answerable; until then nothing has changed. */
  ghost predicate Answering(s: Setting, built: ResGraph, b: Books, n: nat)
    requires n <= |s.ends|
  {
    if Answerable(s, built, s.ends[..n]) then b.paths != [] else b == NoRoutes(built)
  }

  /** In an uncongested network every reachable destination has a route. */
  ghost predicate Covering(s: Setting, built: ResGraph, b: Books, n: nat)
    requires n <= |s.ends|
  {
    Uncongested(s) && s.start in built ==>
      forall m :: 0 <= m < n && Reachable(s, s.ends[m]) ==> RoutesTo(b.paths, s.ends[m]) >= 1
  }

  lemma DestsExtend(ends: seq<Node>, n: nat, before: seq<PathWithInfo>, after: seq<PathWithInfo>)
    requires n < |ends| && before <= after
    requires forall p :: p in before ==> p.dest in ends[..n]
    requires forall i :: |before| <= i < |after| ==> after[i].dest == ends[n]
    ensures forall p :: p in after ==> p.dest in ends[..n + 1]
  {
    forall p | p in after
      ensures p.dest in ends[..n + 1]
    {
      var i :| 0 <= i < |after| && after[i] == p;
      if i < |before| {
        assert before[i] == p;
        assert p.dest in ends[..n];
      } else {
        assert ends[..n + 1][n] == p.dest;
      }
    }
  }

  lemma NotServedYet(ends: seq<Node>, n: nat, ps: seq<PathWithInfo>)
    requires n < |ends| && Distinct(ends) && forall p :: p in ps ==> p.dest in ends[..n]
    ensures RoutesTo(ps, ends[n]) == 0 && forall p :: p in ps ==> p.dest != ends[n]
  {
    NoRoutesTo(ps, ends[n]);
  }

  /** With no routes yet, the next destination decides. */
  lemma AnswerableOneMore(s: Setting, built: ResGraph, n: nat)
    requires n < |s.ends|
    ensures Answerable(s, built, s.ends[..n + 1]) <==>
              Answerable(s, built, s.ends[..n]) || Findable(s, NoRoutes(built), s.ends[n])
  {
    assert s.ends[..n + 1] == s.ends[..n] + [s.ends[n]];
    Sorting.SnocMembers(s.ends[..n], s.ends[n]);
  }

  lemma AnsweringOneMore(s: Setting, built: ResGraph, b: Books, b': Books, n: nat)
    requires n < |s.ends| && Answering(s, built, b, n)
    requires if Findable(s, b, s.ends[n]) then b'.paths != [] else b' == b
    ensures Answering(s, built, b', n + 1)
  {
    AnswerableOneMore(s, built, n);
  }

  lemma CoveringOneMore(s: Setting, built: ResGraph, b: Books, b': Books, n: nat)
    requires n < |s.ends| && Covering(s, built, b, n)
    requires forall d :: RoutesTo(b'.paths, d) >= RoutesTo(b.paths, d)
    requires Uncongested(s) && s.start in built && Reachable(s, s.ends[n]) ==> RoutesTo(b'.paths, s.ends[n]) >= 1
    ensures Covering(s, built, b', n + 1)
  {
  }

  /** What the routes of all destinations so far amount to. */
  lemma CountsOneMore(s: Setting, b: Books, b': Books, n: nat)
    requires n < |s.ends| && b.paths <= b'.paths && |b'.paths| <= |b.paths| + FLOWS_PER_DEST
    requires forall i :: |b.paths| <= i < |b'.paths| ==> b'.paths[i].dest == s.ends[n]
    requires forall p :: p in b.paths ==> p.dest in s.ends[..n]
    requires Distinct(s.ends) ==> forall d :: RoutesTo(b.paths, d) <= FLOWS_PER_DEST
    ensures forall d ::
              RoutesTo(b'.paths, d) == RoutesTo(b.paths, d) + if d == s.ends[n] then |b'.paths| - |b.paths| else 0
    ensures forall p :: p in b'.paths ==> p.dest in s.ends[..n + 1]
    ensures Distinct(s.ends) ==> forall d :: RoutesTo(b'.paths, d) <= FLOWS_PER_DEST
  {
    forall d
      ensures RoutesTo(b'.paths, d) == RoutesTo(b.paths, d) + if d == s.ends[n] then |b'.paths| - |b.paths| else 0
    {
      FillCounts(b.paths, b'.paths, s.ends[n], d);
    }
    DestsExtend(s.ends, n, b.paths, b'.paths);
    if Distinct(s.ends) {
      NotServedYet(s.ends, n, b.paths);
    }
  }

  lemma FillingStep(s: Setting, built: ResGraph, b: Books, b': Books, n: nat)
    requires n < |s.ends| && Filling(s, built, b, n) && Running(s, built, b') && Unbanned(b'.g)
    requires b.paths <= b'.paths && |b'.paths| <= |b.paths| + FLOWS_PER_DEST
    requires forall i :: |b.paths| <= i < |b'.paths| ==> b'.paths[i].dest == s.ends[n]
    requires if Findable(s, b, s.ends[n]) then |b'.paths| > |b.paths| else b' == b
    requires Uncongested(s) && s.start in built && Reachable(s, s.ends[n]) ==> Findable(s, b, s.ends[n])
    ensures Filling(s, built, b', n + 1)
  {
    CountsOneMore(s, b, b', n);
    CoveringOneMore(s, built, b, b', n);
    AnsweringOneMore(s, built, b, b', n);
  }

  lemma FillingStart(s: Setting, built: ResGraph)
    requires EdgesOnly(s.edges, built) && Idle(built)
    ensures Filling(s, built, NoRoutes(built), 0)
  {
  }

  /** The destinations were filled in order: `books` holds the books before the first and after each. */
  ghost predicate Chain(s: Setting, books: seq<Books>) {
    1 <= |books| <= |s.ends| + 1 && forall k :: 0 <= k < |books| - 1 ==> ChainLink(s, books, k)
  }

  ghost predicate ChainLink(s: Setting, books: seq<Books>, k: nat)
    requires k + 1 < |books| <= |s.ends| + 1
  {
    FilledAt(s, books[k], books[k + 1], s.ends[k])
  }

  ghost predicate FilledAt(s: Setting, b: Books, b': Books, end: Node) {
    exists added :: FilledBy(s, b, b', end, added)
  }

  lemma ChainGrows(s: Setting, books: seq<Books>, b: Books)
    requires Chain(s, books) && |books| <= |s.ends| && FilledAt(s, books[|books| - 1], b, s.ends[|books| - 1])
    ensures Chain(s, books + [b])
  {
    var all := books + [b];
    forall k | 0 <= k < |all| - 1
      ensures ChainLink(s, all, k)
    {
      if k < |books| - 1 {
        assert ChainLink(s, books, k);
        assert all[k] == books[k] && all[k + 1] == books[k + 1];
      } else {
        assert all[k] == books[|books| - 1] && all[k + 1] == b;
      }
    }
  }

  /** The filling of all destinations, from the idle network to b. */
  ghost predicate InitialRun(s: Setting, built: ResGraph, books: seq<Books>, b: Books) {
    Chain(s, books) && |books| == |s.ends| + 1 && books[0] == NoRoutes(built) && books[|s.ends|] == b
  }

  /**
   The initial solution: at most FLOWS_PER_DEST routes per destination, none at all exactly when no
   destination is answerable, and in an uncongested network one for every reachable destination,
   provided the start has an outgoing edge.
   */
  method InitialSolution(s: Setting, built: ResGraph) returns (b: Books, ghost books: seq<Books>)
    requires s.Valid() && Idle(built)
    requires Provisioned(s.edges, s.Cap(), built)
    ensures Filling(s, built, b, |s.ends|) && InitialRun(s, built, books, b)
    ensures b.paths == [] <==> !Answerable(s, built, s.ends)
  {
    FillingStart(s, built);
    b, books := FillAll(s, built, NoRoutes(built));
    FillingDone(s, built, b);
  }

  method FillAll(s: Setting, built: ResGraph, b0: Books) returns (b: Books, ghost books: seq<Books>)
    requires s.Valid() && Filling(s, built, b0, 0)
    requires Provisioned(s.edges, s.Cap(), built)
    ensures Filling(s, built, b, |s.ends|) && Chain(s, books)
    ensures |books| == |s.ends| + 1 && books[0] == b0 && books[|s.ends|] == b
  {
    b, books := b0, [b0];
    for n := 0 to |s.ends|
      invariant Filling(s, built, b, n) && Chain(s, books)
      invariant |books| == n + 1 && books[0] == b0 && books[n] == b
    {
      b, books := FillOn(s, built, b, n, books);
    }
  }

  method FillOn(s: Setting, built: ResGraph, b0: Books, n: nat, ghost books0: seq<Books>)
    returns (b: Books, ghost books: seq<Books>)
    requires s.Valid() && n < |s.ends| && Filling(s, built, b0, n)
    requires Provisioned(s.edges, s.Cap(), built)
    requires Chain(s, books0) && |books0| == n + 1 && books0[n] == b0
    ensures Filling(s, built, b, n + 1) && Chain(s, books) && books == books0 + [b]
  {
    b := FillNext(s, built, b0, n);
    ChainGrows(s, books0, b);
    books := books0 + [b];
  }

  lemma FillingDone(s: Setting, built: ResGraph, b: Books)
    requires Filling(s, built, b, |s.ends|)
    ensures b.paths == [] <==> !Answerable(s, built, s.ends)
  {
    assert s.ends[..|s.ends|] == s.ends;
  }

  method FillNext(s: Setting, built: ResGraph, b0: Books, n: nat) returns (b: Books)
    requires s.Valid() && n < |s.ends| && Filling(s, built, b0, n)
    requires Provisioned(s.edges, s.Cap(), built)
    ensures Filling(s, built, b, n + 1) && FilledAt(s, b0, b, s.ends[n])
  {
    if Uncongested(s) && s.start in built && Reachable(s, s.ends[n]) {
      CoveredNow(s, built, b0, n);
    }
    ghost var added: nat;
    b, added := FillDestination(s, built, b0, s.ends[n]);
    FillingStep(s, built, b0, b, n);
  }
}
