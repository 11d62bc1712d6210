/**
 The exact condition, on one network and for one pair of endpoints, under which the k-route
 search finds cheapest routes first for every k: no query that it can issue, neither the first
 one nor a spur query, has a dear entry to the destination.
 */
module FairQueries {
  import opened NetworkGraph
  import opened ShortestPath
  import opened Optimality
  import opened Routes
  import opened Wrappers
  import opened Spur
  import opened Yen
  import opened RouteOrder

  // ---------- Searches ----------

  /** A search that answers equal queries equally; an absent query has no answer. */
  type Search = imap<Query, Path>

  /** Every valid query is answered as the cut-off search answers it. */
  ghost predicate Correct(f: Search) {
    && (forall q: Query :: q.Valid() && q in f ==> Answers(q, f[q]))
    && (forall q: Query, p :: q.Valid() && q.Reaches(q.end, p) ==> q in f)
  }

  ghost function Bare(q: Query, p: seq<Node>): Path {
    Path(p, Length(q.graph, p, q.metric), Length(q.graph, p, ByLatency))
  }

  ghost predicate Fair(q: Query)
    requires q.Valid()
  {
    q.start == q.end || NoDearEntry(q)
  }

  // ---------- Spur queries ----------

  /** The edges that the edit leaves at the spur node. */
  ghost function Open(es: seq<Edge>, found: seq<Path>, root: seq<Node>): (r: seq<Edge>)
    ensures forall e :: e in r <==> e in es && Deviates(found, root, e.destination)
  {
    if es == [] then []
    else
      var last := es[|es| - 1];
      var r := Open(es[..|es| - 1], found, root);
      assert forall e :: e in es <==> e in es[..|es| - 1] || e == last;
      if Deviates(found, root, last.destination) then r + [last] else r
  }

  lemma {:induction false} OpenSame(es: seq<Edge>, found: seq<Path>, more: seq<Path>, root: seq<Node>)
    requires SameSteps(found, more, root)
    ensures Open(es, found, root) == Open(es, more, root)
  {
    if es != [] {
      OpenSame(es[..|es| - 1], found, more, root);
    }
  }

  ghost predicate SpurAt(b: Problem, root: seq<Node>) {
    |root| >= 1 && root[|root| - 1] in b.graph
  }

  ghost function SpurQuery(b: Problem, found: seq<Path>, root: seq<Node>): Query
    requires SpurAt(b, root)
  {
    var spur := root[|root| - 1];
    Query(b.graph[spur := Open(b.graph[spur], found, root)], Elements(root[..|root| - 1]), spur, b.end, b.metric)
  }

  /** Root and answer joined. */
  ghost function Joined(b: Problem, root: seq<Node>, w: Path): Path
    requires |root| >= 1
  {
    Path(root[..|root| - 1] + w.hops, Length(b.graph, root, b.metric) + w.cost,
         Length(b.graph, root, ByLatency) + w.rawRTT)
  }

  ghost function SpurOf(b: Problem, f: Search, found: seq<Path>, root: seq<Node>): Option<Path> {
    if SpurAt(b, root) && SpurQuery(b, found, root) in f
    then Some(Joined(b, root, f[SpurQuery(b, found, root)]))
    else None
  }

  ghost function SpursBy(b: Problem, f: Search): Spurs {
    (found, root) => SpurOf(b, f, found, root)
  }

  lemma RootIsSpur(b: Problem, found: seq<Path>, root: seq<Node>)
    requires Known(b, found) && IsRoot(found, root)
    ensures SpurAt(b, root) && IsWalk(b.graph, root) && Simple(root) && root[0] == b.start && b.end !in root
  {
    var r :| r in found && |root| < |r.hops| && SharesRoot(r, root);
    assert b.Priced(r);
    RootOfRoute(b, r.hops, |root| - 1);
  }

  /** q is the query issued at a root: the edited graph without the way to the spur node. */
  ghost predicate Issues(b: Problem, found: seq<Path>, root: seq<Node>, q: Query) {
    && |root| >= 1 && IsWalk(b.graph, root) && Simple(root) && root[0] == b.start && b.end !in root
    && q.forbidden == Elements(root[..|root| - 1]) && q.start == root[|root| - 1] && q.end == b.end
    && q.metric == b.metric && q.Valid()
    && Thinned(b.graph, q.graph, q.start) && SpurEdges(b.graph, found, root, q.graph[q.start])
  }

  lemma SpurQueryEdits(b: Problem, found: seq<Path>, root: seq<Node>)
    requires b.Valid() && Known(b, found) && IsRoot(found, root) && SpurAt(b, root)
    ensures Issues(b, found, root, SpurQuery(b, found, root))
  {
    var q := SpurQuery(b, found, root);
    RootIsSpur(b, found, root);
    assert Thinned(b.graph, q.graph, q.start);
    SpurQueryValid(b, q.graph, q.start, q.forbidden);
  }

  /** A route that leaves the root gives a walk of the spur query, root and walk being as long as the route. */
  lemma LeavingWalk(b: Problem, found: seq<Path>, root: seq<Node>, q: Query, p: seq<Node>)
    requires b.Valid() && Issues(b, found, root, q) && LeavesAt(b, found, root, p)
    ensures q.Reaches(q.end, p[|root| - 1..])
    ensures Length(b.graph, p, b.metric)
            == Length(b.graph, root, b.metric) + Length(q.graph, p[|root| - 1..], b.metric)
  {
    DeviationSurvives(b, q.graph, found, root, p);
    RestLength(b, q.graph, root, p);
  }

  lemma RestLength(b: Problem, h: Graph, root: seq<Node>, p: seq<Node>)
    requires b.Valid() && IsWalk(b.graph, root) && 1 <= |root| < |p| && p[..|root|] == root
    requires Thinned(b.graph, h, root[|root| - 1]) && IsWalk(h, p[|root| - 1..])
    ensures Length(b.graph, p, b.metric) == Length(b.graph, root, b.metric) + Length(h, p[|root| - 1..], b.metric)
  {
    var rest := p[|root| - 1..];
    ThinnedWalk(b.graph, h, root[|root| - 1], rest, b.metric);
    Rejoin(root, p);
    JoinWalks(b.graph, root, rest, b.metric);
  }

  /** A simple walk of the spur query completes the root to a route that leaves it. */
  lemma WalkLeaves(b: Problem, found: seq<Path>, root: seq<Node>, q: Query, w: seq<Node>)
    requires b.Valid() && Issues(b, found, root, q) && q.Reaches(q.end, w) && Simple(w)
    ensures var p := root[..|root| - 1] + w;
            && LeavesAt(b, found, root, p)
            && Length(b.graph, p, b.metric) == Length(b.graph, root, b.metric) + Length(q.graph, w, b.metric)
            && Length(b.graph, p, ByLatency) == Length(b.graph, root, ByLatency) + Length(q.graph, w, ByLatency)
  {
    SpurCompletes(b, q.graph, root, w);
    NewStep(b, found, root, q, w);
  }

  lemma NewStep(b: Problem, found: seq<Path>, root: seq<Node>, q: Query, w: seq<Node>)
    requires Issues(b, found, root, q) && IsWalk(q.graph, w) && w[0] == q.start && w[|w| - 1] == q.end
    ensures var p := root[..|root| - 1] + w;
            |root| < |p| && p[..|root|] == root && Deviates(found, root, p[|root|])
  {
    var p := root[..|root| - 1] + w;
    assert |w| >= 2;
    EdgeOfWalk(q.graph, w, 0);
    assert EdgeTo(q.graph[w[0]], w[1]) in q.graph[w[0]];
    assert p[..|root|] == root && p[|root|] == w[1];
  }

  /** An answered spur query gives a priced route that leaves the root. */
  lemma AnswerLeaves(b: Problem, found: seq<Path>, root: seq<Node>, q: Query, w: Path)
    requires b.Valid() && Issues(b, found, root, q) && Answers(q, w)
    ensures b.Priced(Joined(b, root, w)) && LeavesAt(b, found, root, Joined(b, root, w).hops)
  {
    WalkLeaves(b, found, root, q, w.hops);
  }

  lemma NothingLeaves(b: Problem, found: seq<Path>, root: seq<Node>, q: Query, p: seq<Node>)
    requires b.Valid() && Issues(b, found, root, q) && forall w :: !q.Reaches(q.end, w)
    ensures !LeavesAt(b, found, root, p)
  {
    if LeavesAt(b, found, root, p) {
      LeavingWalk(b, found, root, q, p);
    }
  }

  lemma CorrectIsSound(b: Problem, f: Search, found: seq<Path>, root: seq<Node>)
    requires b.Valid() && Correct(f) && Known(b, found) && IsRoot(found, root)
    ensures Sound(b, SpursBy(b, f), found, root)
  {
    RootIsSpur(b, found, root);
    SpurQueryEdits(b, found, root);
    var q := SpurQuery(b, found, root);
    if q in f {
      AnswerLeaves(b, found, root, q, f[q]);
    } else {
      forall p
        ensures !LeavesAt(b, found, root, p)
      {
        NothingLeaves(b, found, root, q, p);
      }
    }
  }

  lemma CorrectIsSpurring(b: Problem, f: Search)
    requires b.Valid() && Correct(f)
    ensures Spurring(b, SpursBy(b, f))
  {
    forall found, root | Known(b, found) && IsRoot(found, root)
      ensures Sound(b, SpursBy(b, f), found, root)
    {
      CorrectIsSound(b, f, found, root);
    }
    forall found, more, root
      ensures Local(SpursBy(b, f), found, more, root)
    {
      if SameSteps(found, more, root) && SpurAt(b, root) {
        OpenSame(b.graph[root[|root| - 1]], found, more, root);
      }
    }
  }

  // ---------- Right candidates are shortest answers ----------

  ghost predicate Shortest(q: Query, w: Path) {
    forall v :: q.Reaches(q.end, v) ==> w.cost <= Length(q.graph, v, q.metric)
  }

  lemma ShortestIsRight(b: Problem, found: seq<Path>, root: seq<Node>, q: Query, w: Path, p: seq<Node>)
    requires b.Valid() && Issues(b, found, root, q) && Shortest(q, w) && LeavesAt(b, found, root, p)
    ensures Joined(b, root, w).cost <= Length(b.graph, p, b.metric)
  {
    LeavingWalk(b, found, root, q, p);
  }

  lemma RightIsShortest(b: Problem, found: seq<Path>, root: seq<Node>, q: Query, w: Path, v: seq<Node>)
    requires b.Valid() && Issues(b, found, root, q) && CheapestAt(b, found, root, Joined(b, root, w))
    requires q.Reaches(q.end, v)
    ensures w.cost <= Length(q.graph, v, q.metric)
  {
    var r := SimpleWalk(q, v);
    WalkLeaves(b, found, root, q, r);
  }

  lemma RightIffShortest(b: Problem, found: seq<Path>, root: seq<Node>, q: Query, w: Path)
    requires b.Valid() && Issues(b, found, root, q)
    ensures CheapestAt(b, found, root, Joined(b, root, w)) <==> Shortest(q, w)
  {
    if Shortest(q, w) {
      forall p | LeavesAt(b, found, root, p)
        ensures Joined(b, root, w).cost <= Length(b.graph, p, b.metric)
      {
        ShortestIsRight(b, found, root, q, w, p);
      }
    }
    if CheapestAt(b, found, root, Joined(b, root, w)) {
      forall v | q.Reaches(q.end, v)
        ensures w.cost <= Length(q.graph, v, q.metric)
      {
        RightIsShortest(b, found, root, q, w, v);
      }
    }
  }

  lemma SimpleWalk(q: Query, v: seq<Node>) returns (r: seq<Node>)
    requires q.Valid() && q.Reaches(q.end, v)
    ensures q.Reaches(q.end, r) && Simple(r) && Length(q.graph, r, q.metric) <= Length(q.graph, v, q.metric)
  {
    r := Shortcut(q.graph, v, q.metric);
    ShortcutAvoids(v, r, q.forbidden);
  }

  // ---------- There is always an answer ----------

  lemma {:induction false} LeastKey(d: map<Node, real>) returns (u: Node)
    requires |d| > 0
    ensures u in d && forall v :: v in d ==> d[u] <= d[v]
  {
    var one :| one in d;
    var rest := d - {one};
    assert forall v :: v in d ==> v == one || v in rest;
    u := one;
    if |rest| > 0 {
      var near := LeastKey(rest);
      if d[near] < d[one] {
        u := near;
      }
    }
  }

  ghost predicate Nearest(q: Query, u: Node)
    requires q.Valid()
  {
    Predecessor(q, u) && forall x :: Predecessor(q, x) ==> DistanceTo(q, u) <= DistanceTo(q, x)
  }

  lemma NearestExists(q: Query, v: Node) returns (u: Node)
    requires q.Valid() && Predecessor(q, v)
    ensures Nearest(q, u)
  {
    var d := map x | x in q.graph && Predecessor(q, x) :: DistanceTo(q, x);
    assert v in d;
    u := LeastKey(d);
    assert forall x :: Predecessor(q, x) ==> x in d;
  }

  /** The first predecessor on the way to a nearest one is foremost. */
  lemma FirstOnTheWay(q: Query, u: Node) returns (v: Node)
    requires q.Valid() && Nearest(q, u)
    ensures Foremost(q, v)
  {
    var x := ShortestWalk(q, u);
    var i := 0;
    while !HasEdge(q.graph, x[i], q.end)
      invariant i < |x| && forall k :: 0 <= k < i ==> !HasEdge(q.graph, x[k], q.end)
      decreases |x| - i
    {
      i := i + 1;
    }
    v := x[i];
    EarlierIsForemost(q, u, x, i);
  }

  lemma EarlierIsForemost(q: Query, u: Node, x: seq<Node>, i: nat)
    requires q.Valid() && Nearest(q, u) && q.Reaches(u, x) && Length(q.graph, x, q.metric) == DistanceTo(q, u)
    requires i < |x| && HasEdge(q.graph, x[i], q.end)
    requires forall k :: 0 <= k < i ==> !HasEdge(q.graph, x[k], q.end)
    ensures Foremost(q, x[i])
  {
    PrefixConnects(q.graph, q.forbidden, q.start, u, x, i);
    PrefixNoLonger(q.graph, x, i + 1, q.metric);
    NoFurther(q, u, x[i], x[..i + 1]);
    ClearPrefix(q, x, i);
  }

  lemma ClearPrefix(q: Query, x: seq<Node>, i: nat)
    requires q.Valid() && i < |x| && Nearest(q, x[i]) && q.Reaches(x[i], x[..i + 1])
    requires Length(q.graph, x[..i + 1], q.metric) == DistanceTo(q, x[i])
    requires forall k :: 0 <= k < i ==> !HasEdge(q.graph, x[k], q.end)
    ensures Foremost(q, x[i])
  {
    assert ClearWay(q, x[i], x[..i + 1]);
  }

  /** A predecessor no further than a nearest one is a nearest one. */
  lemma NoFurther(q: Query, u: Node, v: Node, y: seq<Node>)
    requires q.Valid() && Nearest(q, u) && HasEdge(q.graph, v, q.end) && q.Reaches(v, y)
    requires Length(q.graph, y, q.metric) <= DistanceTo(q, u)
    ensures Nearest(q, v) && Length(q.graph, y, q.metric) == DistanceTo(q, v)
  {
    assert Predecessor(q, v);
    assert DistanceTo(q, v) <= Length(q.graph, y, q.metric);
  }

  /** A query whose destination can be reached has a cut-off path. */
  lemma AnswerExists(q: Query, w: seq<Node>)
    requires q.Valid() && q.Reaches(q.end, w)
    ensures exists r :: Answers(q, r)
  {
    var p := [q.start];
    if q.start != q.end {
      AtLeastVia(q, w);
      var u := NearestExists(q, w[|w| - 2]);
      var v := FirstOnTheWay(q, u);
      p := ForemostHasCutOff(q, v);
    }
    assert Answers(q, Bare(q, p));
  }

  ghost function AnySearch(): Search {
    imap q: Query | q.Valid() && (exists r :: Answers(q, r)) :: var r :| Answers(q, r); r
  }

  lemma CorrectExists() returns (f: Search)
    ensures Correct(f)
  {
    f := AnySearch();
    forall q: Query, p | q.Valid() && q.Reaches(q.end, p)
      ensures q in AnySearch()
    {
      AnswerExists(q, p);
    }
  }

  // ---------- The condition ----------

  ghost function FirstQuery(b: Problem): Query {
    Query(b.graph, {}, b.start, b.end, b.metric)
  }

  /** A run of the k-route search with this search inside. */
  ghost predicate Finds(b: Problem, f: Search, first: Path, xs: seq<Stage>) {
    && Correct(f) && FirstQuery(b) in f && f[FirstQuery(b)] == first
    && IsRun(b, SpursBy(b, f), first, xs)
  }

  /** Some run issues this query at a root of the routes it has found. */
  ghost predicate IssuedIn(b: Problem, xs: seq<Stage>, q: Query) {
    |xs| >= 1 && IssuedAt(b, xs[|xs| - 1].found, q)
  }

  ghost predicate IssuedAt(b: Problem, found: seq<Path>, q: Query) {
    exists root :: IsRoot(found, root) && SpurAt(b, root) && SpurQuery(b, found, root) == q
  }

  ghost predicate CanIssue(b: Problem, q: Query) {
    q == FirstQuery(b) || exists f, first, xs :: Finds(b, f, first, xs) && IssuedIn(b, xs, q)
  }

  /** Whatever the search answers, the routes found are never dearer than one not found. */
  ghost predicate OrderKept(b: Problem) {
    forall f, first, xs: seq<Stage> :: Finds(b, f, first, xs) ==> CheapestOf(b, xs[|xs| - 1].found)
  }

  ghost predicate FairThroughout(b: Problem) {
    forall q: Query :: CanIssue(b, q) && q.Valid() ==> Fair(q)
  }

  lemma FairAnswer(q: Query, w: Path)
    requires q.Valid() && Fair(q) && Answers(q, w)
    ensures Shortest(q, w)
  {
    ShortestIffNoDearEntry(q);
    ShortestIfCutOffs(q);
  }

  lemma UnfairAnswer(q: Query) returns (w: Path)
    requires q.Valid() && q.end !in q.forbidden && !Fair(q)
    ensures Answers(q, w) && !Shortest(q, w)
  {
    ShortestIffNoDearEntry(q);
    ShortestIfCutOffs(q);
    var p, v :| CutOffPath(q, p) && q.Reaches(q.end, v) && Length(q.graph, p, q.metric) > Length(q.graph, v, q.metric);
    w := Bare(q, p);
  }

  /** The first route is the cheapest exactly when it is a shortest answer. */
  lemma FirstRightIffShortest(b: Problem, w: Path)
    requires b.Valid() && Answers(FirstQuery(b), w)
    ensures b.Priced(w) && (CheapestOf(b, [w]) <==> Shortest(FirstQuery(b), w))
  {
    var q := FirstQuery(b);
    if Shortest(q, w) {
      forall r, p | r in [w] && b.Route(p)
        ensures r.cost <= Length(b.graph, p, b.metric)
      {
        assert q.Reaches(q.end, p);
      }
    }
    if CheapestOf(b, [w]) {
      forall v | q.Reaches(q.end, v)
        ensures w.cost <= Length(b.graph, v, b.metric)
      {
        var r := SimpleWalk(q, v);
        assert w in [w] && b.Route(r) && (w.hops == r || Missing([w], r));
      }
    }
  }

  lemma RootQuery(b: Problem, found: seq<Path>, root: seq<Node>) returns (q: Query)
    requires b.Valid() && Known(b, found) && IsRoot(found, root)
    ensures SpurAt(b, root) && q == SpurQuery(b, found, root) && Issues(b, found, root, q)
  {
    RootIsSpur(b, found, root);
    SpurQueryEdits(b, found, root);
    q := SpurQuery(b, found, root);
  }

  /** The candidate of a root is right exactly when it comes from a shortest answer. */
  lemma CandidateIffShortest(b: Problem, f: Search, found: seq<Path>, root: seq<Node>, q: Query)
    requires b.Valid() && Correct(f) && IsRoot(found, root) && SpurAt(b, root)
    requires q == SpurQuery(b, found, root) && Issues(b, found, root, q) && q in f
    ensures RightAt(b, SpursBy(b, f), found, root) <==> Shortest(q, f[q])
  {
    RightIffShortest(b, found, root, q, f[q]);
  }

  lemma FairRun(b: Problem, f: Search, first: Path, xs: seq<Stage>)
    requires b.Valid() && FairThroughout(b) && Finds(b, f, first, xs)
    ensures AllRight(b, SpursBy(b, f), xs[|xs| - 1].found)
  {
    var found := xs[|xs| - 1].found;
    CorrectIsSpurring(b, f);
    RunIsCurrent(b, SpursBy(b, f), first, xs);
    forall root | IsRoot(found, root)
      ensures RightAt(b, SpursBy(b, f), found, root)
    {
      var q := RootQuery(b, found, root);
      assert IssuedIn(b, xs, q) && CanIssue(b, q);
      if q in f {
        CandidateIffShortest(b, f, found, root, q);
        FairAnswer(q, f[q]);
      }
    }
  }

  lemma FairKeepsOrder(b: Problem, f: Search, first: Path)
    requires b.Valid() && FairThroughout(b) && Correct(f) && FirstQuery(b) in f && f[FirstQuery(b)] == first
    ensures AlwaysCheapest(b, SpursBy(b, f), first)
  {
    assert CanIssue(b, FirstQuery(b));
    FairAnswer(FirstQuery(b), first);
    FirstRightIffShortest(b, first);
    CorrectIsSpurring(b, f);
    forall xs: seq<Stage> | IsRun(b, SpursBy(b, f), first, xs)
      ensures AllRight(b, SpursBy(b, f), xs[|xs| - 1].found)
    {
      FairRun(b, f, first, xs);
    }
    CheapestIffRight(b, SpursBy(b, f), first);
  }

  // ---------- An unfair query can be answered dearly ----------

  lemma Amended(f: Search, q: Query, w: Path)
    requires Correct(f) && (q.Valid() ==> Answers(q, w))
    ensures Correct(f[q := w])
  {
  }

  lemma DearFirst(b: Problem, w: Path)
    requires b.Valid() && OrderKept(b) && Answers(FirstQuery(b), w)
    ensures Shortest(FirstQuery(b), w)
  {
    var f := CorrectExists();
    Amended(f, FirstQuery(b), w);
    FirstRightIffShortest(b, w);
    assert Finds(b, f[FirstQuery(b) := w], w, [Stage([w], {})]);
  }

  lemma UnfairFirst(b: Problem)
    requires b.Valid() && OrderKept(b)
    ensures Fair(FirstQuery(b))
  {
    if !Fair(FirstQuery(b)) {
      var w := UnfairAnswer(FirstQuery(b));
      DearFirst(b, w);
    }
  }

  /** The first stage of a run that issues the query. */
  lemma {:induction false} FirstIssue(b: Problem, f: Search, first: Path, xs: seq<Stage>, q: Query)
    returns (ys: seq<Stage>)
    requires Finds(b, f, first, xs) && IssuedIn(b, xs, q)
    ensures Finds(b, f, first, ys) && IssuedIn(b, ys, q)
    ensures forall i :: 0 <= i < |ys| - 1 ==> !IssuedAt(b, ys[i].found, q)
    decreases |xs|
  {
    ys := xs;
    if i :| 0 <= i < |xs| - 1 && IssuedAt(b, xs[i].found, q) {
      var front := xs[..i + 1];
      forall k | 0 <= k < |front| - 1
        ensures AdvancesAt(SpursBy(b, f), front, k)
      {
        assert AdvancesAt(SpursBy(b, f), xs, k);
      }
      ys := FirstIssue(b, f, first, front, q);
    }
  }

  /** A query that is not issued has no say in what is offered. */
  lemma SameOffers(b: Problem, f: Search, q: Query, w: Path, found: seq<Path>)
    requires !IssuedAt(b, found, q)
    ensures Offered(SpursBy(b, f), found) == Offered(SpursBy(b, f[q := w]), found)
  {
    forall root | root in RootsOf(found)
      ensures SpursBy(b, f)(found, root) == SpursBy(b, f[q := w])(found, root)
    {
      RootsAreRoots(found, root);
    }
  }

  lemma SameRun(b: Problem, f: Search, first: Path, xs: seq<Stage>, q: Query, w: Path)
    requires IsRun(b, SpursBy(b, f), first, xs)
    requires forall i :: 0 <= i < |xs| - 1 ==> !IssuedAt(b, xs[i].found, q)
    ensures IsRun(b, SpursBy(b, f[q := w]), first, xs)
  {
    var c := SpursBy(b, f[q := w]);
    forall i | 0 <= i < |xs| - 1
      ensures AdvancesAt(c, xs, i)
    {
      assert AdvancesAt(SpursBy(b, f), xs, i);
      var r :| Pops(SpursBy(b, f), xs[i], xs[i + 1], r);
      SameOffers(b, f, q, w, xs[i].found);
      assert Pops(c, xs[i], xs[i + 1], r);
    }
  }

  lemma DearAnswer(b: Problem, f: Search, first: Path, xs: seq<Stage>, q: Query, w: Path)
    requires b.Valid() && OrderKept(b) && Finds(b, f, first, xs) && IssuedIn(b, xs, q) && q != FirstQuery(b)
    requires q.Valid() && Answers(q, w)
    ensures Shortest(q, w)
  {
    var ys := FirstIssue(b, f, first, xs, q);
    var f' := f[q := w];
    var c, found := SpursBy(b, f'), ys[|ys| - 1].found;
    SameRun(b, f, first, ys, q, w);
    assert Finds(b, f', first, ys);
    CorrectIsSpurring(b, f');
    forall zs: seq<Stage> | IsRun(b, c, first, zs)
      ensures CheapestOf(b, zs[|zs| - 1].found)
    {
      assert Finds(b, f', first, zs);
    }
    CheapestIffRight(b, c, first);
    RunIsCurrent(b, c, first, ys);
    var root :| IsRoot(found, root) && SpurAt(b, root) && SpurQuery(b, found, root) == q;
    var _ := RootQuery(b, found, root);
    CandidateIffShortest(b, f', found, root, q);
    assert RightAt(b, c, found, root);
  }

  lemma UnfairSpur(b: Problem, f: Search, first: Path, xs: seq<Stage>, q: Query)
    requires b.Valid() && OrderKept(b) && Finds(b, f, first, xs) && IssuedIn(b, xs, q) && q.Valid()
    ensures Fair(q)
  {
    UnfairFirst(b);
    if q != FirstQuery(b) && !Fair(q) {
      var found := xs[|xs| - 1].found;
      CorrectIsSpurring(b, f);
      RunIsCurrent(b, SpursBy(b, f), first, xs);
      var root :| IsRoot(found, root) && SpurAt(b, root) && SpurQuery(b, found, root) == q;
      var _ := RootQuery(b, found, root);
      var w := UnfairAnswer(q);
      DearAnswer(b, f, first, xs, q, w);
    }
  }

  /**
   Whatever the search answers, all runs find cheapest routes first, for every number of routes,
   exactly when no query that can be issued has a dear entry.
   */
  lemma OrderIffFair(b: Problem)
    requires b.Valid()
    ensures OrderKept(b) <==> FairThroughout(b)
  {
    if FairThroughout(b) {
      forall f, first, xs: seq<Stage> | Finds(b, f, first, xs)
        ensures CheapestOf(b, xs[|xs| - 1].found)
      {
        FairKeepsOrder(b, f, first);
      }
    }
    if OrderKept(b) {
      forall q: Query | CanIssue(b, q) && q.Valid()
        ensures Fair(q)
      {
        if q == FirstQuery(b) {
          UnfairFirst(b);
        } else {
          var f, first, xs :| Finds(b, f, first, xs) && IssuedIn(b, xs, q);
          UnfairSpur(b, f, first, xs, q);
        }
      }
    }
  }
}
