/**
 When the k-route search keeps its promise on one network, for one pair of endpoints. For a
 search that answers equal queries equally, the routes come out cheapest first, for every k,
 exactly when every spur search that a run issues is answered with a cheapest deviation: one
 dear answer is enough to let a dearer route come before a cheaper one.
 */
module RouteOrder {
  import opened NetworkGraph
  import opened ShortestPath
  import opened Wrappers
  import opened Spur
  import opened Yen
  import RouteCount
  import Sorting

  // ---------- Runs ----------

  /** The routes found so far, and the candidates that wait. */
  datatype Stage = Stage(found: seq<Path>, queue: set<Path>)

  /** The candidate for each root, given the routes found. */
  type Spurs = (seq<Path>, seq<Node>) -> Option<Path>

  ghost predicate IsRoot(found: seq<Path>, root: seq<Node>) {
    |root| >= 1 && exists r :: r in found && |root| < |r.hops| && SharesRoot(r, root)
  }

  ghost predicate Known(b: Problem, found: seq<Path>) {
    |found| >= 1 && (forall r :: r in found ==> b.Priced(r)) && DistinctHops(found)
  }

  ghost predicate SameSteps(found: seq<Path>, more: seq<Path>, root: seq<Node>) {
    forall v :: Deviates(found, root, v) <==> Deviates(more, root, v)
  }

  /** A candidate is a route that leaves its root by a new step, and there is one if there is such a route. */
  ghost predicate Sound(b: Problem, c: Spurs, found: seq<Path>, root: seq<Node>) {
    match c(found, root)
    case None => forall p :: !LeavesAt(b, found, root, p)
    case Some(r) => b.Priced(r) && LeavesAt(b, found, root, r.hops)
  }

  /** Candidates depend on the routes found only by the steps these leave open. */
  ghost predicate Local(c: Spurs, found: seq<Path>, more: seq<Path>, root: seq<Node>) {
    SameSteps(found, more, root) ==> c(found, root) == c(more, root)
  }

  ghost predicate Spurring(b: Problem, c: Spurs) {
    && (forall found, root :: Known(b, found) && IsRoot(found, root) ==> Sound(b, c, found, root))
    && (forall found, more, root :: Local(c, found, more, root))
  }

  ghost function RootsOf(found: seq<Path>): set<seq<Node>> {
    set r, n | r in found && 1 <= n < |r.hops| :: r.hops[..n]
  }

  lemma RootsAreRoots(found: seq<Path>, root: seq<Node>)
    ensures root in RootsOf(found) <==> IsRoot(found, root)
  {
    if IsRoot(found, root) {
      var r :| r in found && |root| < |r.hops| && SharesRoot(r, root);
      assert r.hops[..|root|] == root;
    }
  }

  /** What a full pass over all roots adds to the queue. */
  ghost function Offered(c: Spurs, found: seq<Path>): set<Path> {
    set root | root in RootsOf(found) && c(found, root).Some? :: c(found, root).value
  }

  ghost predicate OfferedAt(c: Spurs, found: seq<Path>, root: seq<Node>, r: Path) {
    IsRoot(found, root) && c(found, root) == Some(r)
  }

  lemma OfferedSomewhere(c: Spurs, found: seq<Path>, r: Path)
    ensures r in Offered(c, found) <==> exists root :: OfferedAt(c, found, root, r)
  {
    if r in Offered(c, found) {
      var root :| root in RootsOf(found) && c(found, root).Some? && c(found, root).value == r;
      RootsAreRoots(found, root);
      assert OfferedAt(c, found, root, r);
    }
    if root :| OfferedAt(c, found, root, r) {
      RootsAreRoots(found, root);
    }
  }

  /** A pass, and the move of a cheapest candidate to the routes found. */
  ghost predicate Pops(c: Spurs, x: Stage, y: Stage, r: Path) {
    var all := x.queue + Offered(c, x.found);
    && r in all && (forall z :: z in all ==> r.cost <= z.cost)
    && y == Stage(x.found + [r], all - {r})
  }

  ghost predicate Advances(c: Spurs, x: Stage, y: Stage) {
    exists r :: Pops(c, x, y, r)
  }

  ghost predicate AdvancesAt(c: Spurs, xs: seq<Stage>, i: nat)
    requires i + 1 < |xs|
  {
    Advances(c, xs[i], xs[i + 1])
  }

  /** A run from a first route. */
  ghost predicate IsRun(b: Problem, c: Spurs, first: Path, xs: seq<Stage>) {
    && |xs| >= 1 && b.Priced(first) && xs[0] == Stage([first], {})
    && forall i :: 0 <= i < |xs| - 1 ==> AdvancesAt(c, xs, i)
  }

  // ---------- The queue holds the current candidates ----------

  /** Some found route takes the step that a root takes after a shorter one. */
  lemma TakenStep(found: seq<Path>, root: seq<Node>, n: nat)
    requires IsRoot(found, root) && n < |root|
    ensures !Deviates(found, root[..n], root[n])
  {
    var x :| x in found && |root| < |x.hops| && SharesRoot(x, root);
    assert x.hops[..n] == x.hops[..|root|][..n] && x.hops[n] == x.hops[..|root|][n];
  }

  /** A route that leaves the found ones at one root takes a known step at every other root. */
  lemma KnownStep(found: seq<Path>, r: Path, own: seq<Node>, root: seq<Node>)
    requires IsRoot(found, own) && IsRoot(found, root) && root != own
    requires |own| < |r.hops| && SharesRoot(r, own) && Deviates(found, own, r.hops[|own|])
    requires |root| < |r.hops| && SharesRoot(r, root)
    ensures !Deviates(found, root, r.hops[|root|])
  {
    if |root| < |own| {
      assert own[..|root|] == root && own[|root|] == r.hops[|root|];
      TakenStep(found, own, |root|);
    } else if |own| < |root| {
      assert root[..|own|] == own && root[|own|] == r.hops[|own|];
      TakenStep(found, root, |own|);
    }
  }

  /** Finding r changes the open steps at no root but the one it leaves. */
  lemma OtherRoots(found: seq<Path>, r: Path, own: seq<Node>, root: seq<Node>)
    requires IsRoot(found, own) && IsRoot(found, root) && root != own
    requires |own| < |r.hops| && SharesRoot(r, own) && Deviates(found, own, r.hops[|own|])
    ensures SameSteps(found, found + [r], root)
  {
    forall v
      ensures Deviates(found, root, v) <==> Deviates(found + [r], root, v)
    {
      DeviatesFromBoth(found, r, root, v);
      if SharesRoot(r, root) && |root| < |r.hops| && r.hops[|root|] == v {
        KnownStep(found, r, own, root);
      }
    }
  }

  lemma RootStays(found: seq<Path>, r: Path, root: seq<Node>)
    requires IsRoot(found, root)
    ensures IsRoot(found + [r], root)
  {
    var x :| x in found && |root| < |x.hops| && SharesRoot(x, root);
    assert x in found + [r];
  }

  /** Another candidate stays the candidate of its root. */
  lemma CandidateStays(b: Problem, c: Spurs, found: seq<Path>, r: Path, own: seq<Node>, z: Path, root: seq<Node>)
    requires Spurring(b, c) && Known(b, found) && OfferedAt(c, found, own, r) && OfferedAt(c, found, root, z) && z != r
    ensures OfferedAt(c, found + [r], root, z) && SameSteps(found, found + [r], root)
  {
    assert Sound(b, c, found, own);
    OtherRoots(found, r, own, root);
    RootStays(found, r, root);
    assert Local(c, found, found + [r], root);
  }

  lemma KnownMore(b: Problem, c: Spurs, found: seq<Path>, r: Path, own: seq<Node>)
    requires Spurring(b, c) && Known(b, found) && OfferedAt(c, found, own, r)
    ensures Known(b, found + [r])
  {
    assert Sound(b, c, found, own);
    forall x | x in found
      ensures x.hops != r.hops
    {
      assert SharesRoot(x, own) && |x.hops| > |own| ==> x.hops[|own|] != r.hops[|own|];
    }
    Sorting.SnocMembers(found, r);
  }

  /** The candidates that wait are among those a pass would offer. */
  ghost predicate Current(b: Problem, c: Spurs, x: Stage) {
    Known(b, x.found) && x.queue <= Offered(c, x.found)
  }

  lemma StaysCurrent(b: Problem, c: Spurs, x: Stage, y: Stage, r: Path)
    requires Spurring(b, c) && Current(b, c, x) && Pops(c, x, y, r)
    ensures Current(b, c, y) && r in Offered(c, x.found) && y.found == x.found + [r]
    ensures forall z :: z in Offered(c, x.found) ==> r.cost <= z.cost
  {
    OfferedSomewhere(c, x.found, r);
    var own :| OfferedAt(c, x.found, own, r);
    KnownMore(b, c, x.found, r, own);
    forall z | z in y.queue
      ensures z in Offered(c, y.found)
    {
      OfferedSomewhere(c, x.found, z);
      var root :| OfferedAt(c, x.found, root, z);
      CandidateStays(b, c, x.found, r, own, z, root);
      OfferedSomewhere(c, y.found, z);
    }
  }

  lemma {:induction false} RunIsCurrent(b: Problem, c: Spurs, first: Path, xs: seq<Stage>)
    requires Spurring(b, c) && IsRun(b, c, first, xs)
    ensures Current(b, c, xs[|xs| - 1])
  {
    var n := |xs| - 1;
    if n > 0 {
      var front := xs[..n];
      forall i | 0 <= i < |front| - 1
        ensures AdvancesAt(c, front, i)
      {
        assert AdvancesAt(c, xs, i);
      }
      RunIsCurrent(b, c, first, front);
      assert AdvancesAt(c, xs, n - 1);
      var r :| Pops(c, xs[n - 1], xs[n], r);
      StaysCurrent(b, c, xs[n - 1], xs[n], r);
    }
  }

  // ---------- Right answers keep the order ----------

  /** A candidate no dearer than any route that leaves its root by a new step. */
  ghost predicate CheapestAt(b: Problem, found: seq<Path>, root: seq<Node>, r: Path) {
    forall p :: LeavesAt(b, found, root, p) ==> r.cost <= Length(b.graph, p, b.metric)
  }

  ghost predicate RightAt(b: Problem, c: Spurs, found: seq<Path>, root: seq<Node>) {
    IsRoot(found, root) && c(found, root).Some? ==> CheapestAt(b, found, root, c(found, root).value)
  }

  ghost predicate AllRight(b: Problem, c: Spurs, found: seq<Path>) {
    forall root :: RightAt(b, c, found, root)
  }

  lemma {:induction false} LeavesSomewhere(b: Problem, found: seq<Path>, p: seq<Node>, n: nat) returns (root: seq<Node>)
    requires b.Route(p) && Missing(found, p) && (forall r :: r in found ==> b.Priced(r))
    requires 1 <= n < |p| && IsRoot(found, p[..n])
    ensures IsRoot(found, root) && LeavesAt(b, found, root, p)
    decreases |p| - n
  {
    root := p[..n];
    if !Deviates(found, root, p[n]) {
      var r := Continued(found, p, n);
      Unended(b, r, p, n + 1);
      assert SharesRoot(r, p[..n + 1]);
      root := LeavesSomewhere(b, found, p, n + 1);
    }
  }

  /** Two different routes that agree for n nodes both go on. */
  lemma Unended(b: Problem, r: Path, p: seq<Node>, n: nat)
    requires b.Priced(r) && b.Route(p) && r.hops != p && 1 <= n <= |r.hops| && n <= |p| && r.hops[..n] == p[..n]
    ensures n < |r.hops| && n < |p|
  {
    assert r.hops[n - 1] == p[n - 1];
    if n == |p| {
      WholeRoute(b, r, p);
    }
  }

  lemma MissingLeaves(b: Problem, found: seq<Path>, p: seq<Node>) returns (root: seq<Node>)
    requires b.Route(p) && Missing(found, p) && Known(b, found)
    ensures IsRoot(found, root) && LeavesAt(b, found, root, p)
  {
    var r := found[0];
    assert b.Priced(r);
    assert r.hops[..1] == [b.start] == p[..1];
    Unended(b, r, p, 1);
    assert SharesRoot(r, p[..1]);
    root := LeavesSomewhere(b, found, p, 1);
  }

  /** With right answers everywhere, the next route keeps the found ones the cheapest. */
  lemma StaysCheapest(b: Problem, c: Spurs, found: seq<Path>, r: Path)
    requires Spurring(b, c) && Known(b, found) && CheapestOf(b, found)
    requires forall z :: z in Offered(c, found) ==> r.cost <= z.cost
    requires AllRight(b, c, found)
    ensures CheapestOf(b, found + [r])
  {
    Sorting.SnocMembers(found, r);
    forall p | b.Route(p) && Missing(found + [r], p)
      ensures Missing(found, p) && r.cost <= Length(b.graph, p, b.metric)
    {
      assert forall y :: y in found ==> y in found + [r];
      var root := MissingLeaves(b, found, p);
      assert Sound(b, c, found, root) && RightAt(b, c, found, root);
      var z := c(found, root).value;
      assert OfferedAt(c, found, root, z);
      OfferedSomewhere(c, found, z);
    }
  }

  // ---------- One dear answer breaks it ----------

  lemma {:induction false} CheapestPath(s: set<Path>) returns (r: Path)
    requires s != {}
    ensures r in s && forall z :: z in s ==> r.cost <= z.cost
  {
    r :| r in s;
    if s != {r} {
      var least := CheapestPath(s - {r});
      if least.cost < r.cost {
        r := least;
      }
    }
  }

  lemma FoundWithinAll(b: Problem, found: seq<Path>)
    requires Known(b, found)
    ensures |found| <= |RouteCount.AllRoutes(b)|
  {
    RouteCount.HopSetSize(found);
    forall p | p in RouteCount.HopSet(found)
      ensures p in RouteCount.AllRoutes(b)
    {
      var r :| r in found && r.hops == p;
      assert b.Priced(r);
      RouteCount.AllRoutesExact(b, p);
    }
    RouteCount.SubsetSize(RouteCount.HopSet(found), RouteCount.AllRoutes(b));
  }

  lemma RunOn(b: Problem, c: Spurs, first: Path, xs: seq<Stage>, y: Stage, r: Path)
    requires IsRun(b, c, first, xs) && Pops(c, xs[|xs| - 1], y, r)
    ensures IsRun(b, c, first, xs + [y])
  {
    var ys := xs + [y];
    forall i | 0 <= i < |ys| - 1
      ensures AdvancesAt(c, ys, i)
    {
      if i < |xs| - 1 {
        assert AdvancesAt(c, xs, i);
      }
    }
  }

  /** While a candidate waits, a run goes on. */
  lemma GoesOn(b: Problem, c: Spurs, first: Path, xs: seq<Stage>) returns (y: Stage, r: Path)
    requires Spurring(b, c) && IsRun(b, c, first, xs) && Current(b, c, xs[|xs| - 1])
    requires Offered(c, xs[|xs| - 1].found) != {}
    ensures IsRun(b, c, first, xs + [y]) && Current(b, c, y)
    ensures r in Offered(c, xs[|xs| - 1].found) && y.found == xs[|xs| - 1].found + [r]
  {
    var x := xs[|xs| - 1];
    var all := x.queue + Offered(c, x.found);
    r := CheapestPath(all);
    y := Stage(x.found + [r], all - {r});
    assert Pops(c, x, y, r);
    RunOn(b, c, first, xs, y, r);
    StaysCurrent(b, c, x, y, r);
  }

  /** z waits as the candidate of its root, and p, which leaves that root, is cheaper. */
  ghost predicate Dear(b: Problem, c: Spurs, found: seq<Path>, root: seq<Node>, z: Path, p: seq<Node>) {
    && OfferedAt(c, found, root, z)
    && LeavesAt(b, found, root, p)
    && Length(b.graph, p, b.metric) < z.cost
  }

  lemma StaysDear(b: Problem, c: Spurs, found: seq<Path>, r: Path, root: seq<Node>, z: Path, p: seq<Node>)
    requires Spurring(b, c) && Known(b, found) && r in Offered(c, found) && Dear(b, c, found, root, z, p) && r != z
    ensures Dear(b, c, found + [r], root, z, p)
  {
    OfferedSomewhere(c, found, r);
    var own :| OfferedAt(c, found, own, r);
    CandidateStays(b, c, found, r, own, z, root);
  }

  /** A dear candidate is found while the cheaper route is not. */
  lemma {:induction false} DearComesFirst(b: Problem, c: Spurs, first: Path, xs: seq<Stage>, root: seq<Node>, z: Path,
                                          p: seq<Node>) returns (ys: seq<Stage>)
    requires Spurring(b, c) && IsRun(b, c, first, xs) && Current(b, c, xs[|xs| - 1])
    requires Dear(b, c, xs[|xs| - 1].found, root, z, p)
    ensures IsRun(b, c, first, ys) && !CheapestOf(b, ys[|ys| - 1].found)
    decreases |RouteCount.AllRoutes(b)| - |xs[|xs| - 1].found|
  {
    var found := xs[|xs| - 1].found;
    OfferedSomewhere(c, found, z);
    var y, r := GoesOn(b, c, first, xs);
    ys := xs + [y];
    FoundWithinAll(b, y.found);
    if r == z {
      DearFound(b, c, found, root, z, p);
    } else {
      StaysDear(b, c, found, r, root, z, p);
      ys := DearComesFirst(b, c, first, ys, root, z, p);
    }
  }

  lemma DearFound(b: Problem, c: Spurs, found: seq<Path>, root: seq<Node>, z: Path, p: seq<Node>)
    requires Spurring(b, c) && Known(b, found) && Dear(b, c, found, root, z, p)
    ensures !CheapestOf(b, found + [z])
  {
    assert Sound(b, c, found, root);
    forall r | r in found + [z]
      ensures r.hops != p
    {
      assert r in found && SharesRoot(r, root) && |r.hops| > |root| ==> r.hops[|root|] != p[|root|];
    }
    assert Missing(found + [z], p);
    assert z in found + [z];
  }

  // ---------- The exact condition for one search ----------

  ghost predicate AlwaysCheapest(b: Problem, c: Spurs, first: Path) {
    forall xs: seq<Stage> :: IsRun(b, c, first, xs) ==> CheapestOf(b, xs[|xs| - 1].found)
  }

  ghost predicate AlwaysRight(b: Problem, c: Spurs, first: Path) {
    && CheapestOf(b, [first])
    && forall xs: seq<Stage> :: IsRun(b, c, first, xs) ==> AllRight(b, c, xs[|xs| - 1].found)
  }

  lemma {:induction false} RightRun(b: Problem, c: Spurs, first: Path, xs: seq<Stage>)
    requires Spurring(b, c) && AlwaysRight(b, c, first) && IsRun(b, c, first, xs)
    ensures CheapestOf(b, xs[|xs| - 1].found)
  {
    var n := |xs| - 1;
    if n > 0 {
      var front := xs[..n];
      forall i | 0 <= i < |front| - 1
        ensures AdvancesAt(c, front, i)
      {
        assert AdvancesAt(c, xs, i);
      }
      RightRun(b, c, first, front);
      RunIsCurrent(b, c, first, front);
      assert AdvancesAt(c, xs, n - 1);
      var r :| Pops(c, xs[n - 1], xs[n], r);
      StaysCurrent(b, c, xs[n - 1], xs[n], r);
      StaysCheapest(b, c, xs[n - 1].found, r);
    }
  }

  /** All runs find cheapest routes first, exactly when the first route and all candidates are right. */
  lemma CheapestIffRight(b: Problem, c: Spurs, first: Path)
    requires Spurring(b, c) && b.Priced(first)
    ensures AlwaysCheapest(b, c, first) <==> AlwaysRight(b, c, first)
  {
    if AlwaysRight(b, c, first) {
      forall xs: seq<Stage> | IsRun(b, c, first, xs)
        ensures CheapestOf(b, xs[|xs| - 1].found)
      {
        RightRun(b, c, first, xs);
      }
    }
    if AlwaysCheapest(b, c, first) {
      assert IsRun(b, c, first, [Stage([first], {})]);
      forall xs: seq<Stage> | IsRun(b, c, first, xs)
        ensures AllRight(b, c, xs[|xs| - 1].found)
      {
        NeverDear(b, c, first, xs);
      }
    }
  }

  lemma NeverDear(b: Problem, c: Spurs, first: Path, xs: seq<Stage>)
    requires Spurring(b, c) && IsRun(b, c, first, xs) && AlwaysCheapest(b, c, first)
    ensures AllRight(b, c, xs[|xs| - 1].found)
  {
    var found := xs[|xs| - 1].found;
    RunIsCurrent(b, c, first, xs);
    forall root, p | IsRoot(found, root) && c(found, root).Some? && LeavesAt(b, found, root, p)
      ensures c(found, root).value.cost <= Length(b.graph, p, b.metric)
    {
      var z := c(found, root).value;
      if Length(b.graph, p, b.metric) < z.cost {
        var ys := DearComesFirst(b, c, first, xs, root, z, p);
      }
    }
  }
}
