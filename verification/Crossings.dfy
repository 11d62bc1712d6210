/**
 When the flow solver's routes can be trusted, by a look at the network alone. A search goes
 against an edge u->v only if a held route takes it; then the start reaches u without v and v
 without u. Where no such crossing edge is harmful, every search keeps the promise that
 routes are paths, or that they are paths with their true latency.
 */
module Crossings {
  import opened NetworkGraph
  import opened KShortest
  import opened FlowSearch
  import opened FlowAccounting
  import opened Carousel
  import opened RouteFinding
  import opened ReportedLatency
  import Routes

  /** Routes are paths of the network, or paths with their true latency under bounds up to a limit. */
  datatype Promise = Paths | Truth(limit: real)

  ghost predicate Keeps(s: Setting, pr: Promise, p: PathWithInfo) {
    IsWalk(Adjacency(s.edges), p.path) && (pr.Truth? ==> TrueRoute(s, p.path, p.latency) && p.latency <= pr.limit)
  }

  ghost predicate AllKeep(s: Setting, pr: Promise, ps: seq<PathWithInfo>) {
    forall p {:trigger Keeps(s, pr, p)} :: p in ps ==> Keeps(s, pr, p)
  }

  // ---------- Crossing edges ----------

  /** A simple walk from s to u that avoids v and leaves room for one more node. */
  ghost predicate Approach(g: Graph, s: Node, u: Node, v: Node, p: seq<Node>) {
    IsWalk(g, p) && Simple(p) && p[0] == s && p[|p| - 1] == u && v !in p && |p| < MAX_HOPS
  }

  ghost predicate Crossing(g: Graph, s: Node, u: Node, v: Node, p: seq<Node>, q: seq<Node>) {
    HasEdge(g, u, v) && Approach(g, s, u, v, p) && Approach(g, s, v, u, q)
  }

  /** The walks over the edge and to its far end are within the limit. */
  ghost predicate Within(g: Graph, pr: Promise, u: Node, v: Node, p: seq<Node>, q: seq<Node>) {
    pr.Truth? ==>
      && Length(g, p, ByLatency) + Weight(g, u, v, ByLatency) <= pr.limit
      && Length(g, q, ByLatency) <= pr.limit
  }

  ghost predicate Crosses(g: Graph, s: Node, pr: Promise, u: Node, v: Node) {
    exists p, q :: Crossing(g, s, u, v, p, q) && Within(g, pr, u, v, p, q)
  }

  /** Going against the edge follows another one, for the truth one without latency. */
  ghost predicate Harmless(g: Graph, pr: Promise, u: Node, v: Node) {
    HasEdge(g, v, u) && (pr.Truth? ==> Weight(g, v, u, ByLatency) == 0.0)
  }

  /** Every crossing edge is harmless. */
  ghost predicate Safe(g: Graph, s: Node, pr: Promise) {
    forall u, v :: Crosses(g, s, pr, u, v) ==> Harmless(g, pr, u, v)
  }

  /** The latency bound of d is within the limit, and below the surcharge for bans. */
  ghost predicate BoundedFor(s: Setting, pr: Promise, d: Node) {
    pr.Truth? ==> ThetaLOf(s.thetaL, d) <= pr.limit < BANNED_PENALTY
  }

  ghost predicate Bounded(s: Setting, pr: Promise) {
    forall d :: d in s.ends ==> BoundedFor(s, pr, d)
  }

  // ---------- Flow comes from held routes ----------

  lemma {:induction false} UsesAt(p: seq<Node>, u: Node, v: Node) returns (j: nat)
    requires Uses(p, u, v)
    ensures j + 1 < |p| && p[j] == u && p[j + 1] == v
  {
    if p[|p| - 2] == u && p[|p| - 1] == v {
      j := |p| - 2;
    } else {
      j := UsesAt(p[..|p| - 1], u, v);
    }
  }

  lemma {:induction false} TraversedBy(ps: seq<PathWithInfo>, u: Node, v: Node) returns (p: PathWithInfo)
    requires Traversals(ps, u, v) > 0
    ensures p in ps && Uses(p.path, u, v)
  {
    if Uses(ps[0].path, u, v) {
      p := ps[0];
    } else {
      p := TraversedBy(ps[1..], u, v);
    }
  }

  /** The part of a path up to an edge it takes. */
  lemma PathApproach(g: Graph, p: seq<Node>, u: Node, v: Node) returns (x: seq<Node>)
    requires WellFormed(g) && NonNegative(g, ByLatency)
    requires IsWalk(g, p) && Simple(p) && |p| <= MAX_HOPS && Uses(p, u, v)
    ensures Approach(g, p[0], u, v, x) && HasEdge(g, u, v)
    ensures Length(g, x, ByLatency) + Weight(g, u, v, ByLatency) <= Length(g, p, ByLatency)
  {
    var j := UsesAt(p, u, v);
    x := p[..j + 1];
    PrefixWalk(g, p, j + 1);
    EdgeOfWalk(g, p, j);
    PrefixSimple(p, j);
    UpToEdge(g, p, j);
  }

  lemma UpToEdge(g: Graph, p: seq<Node>, j: nat)
    requires WellFormed(g) && NonNegative(g, ByLatency) && j + 1 < |p|
    ensures Length(g, p[..j + 1], ByLatency) + Weight(g, p[j], p[j + 1], ByLatency) <= Length(g, p, ByLatency)
  {
    WalkSnoc(g, p[..j + 1], p[j + 1], ByLatency);
    assert p[..j + 1] + [p[j + 1]] == p[..j + 2];
    Routes.PrefixNoLonger(g, p, j + 2, ByLatency);
  }

  lemma HeldApproach(s: Setting, pr: Promise, p: PathWithInfo, u: Node, v: Node) returns (x: seq<Node>)
    requires s.Valid() && GoodPath(s.start, s.thetaL, p) && Keeps(s, pr, p) && Uses(p.path, u, v)
    ensures var g := Adjacency(s.edges);
            && Approach(g, s.start, u, v, x) && HasEdge(g, u, v)
            && Length(g, x, ByLatency) + Weight(g, u, v, ByLatency) <= Length(g, p.path, ByLatency)
  {
    AdjacencyWellFormed(s.edges, ByLatency);
    x := PathApproach(Adjacency(s.edges), p.path, u, v);
  }

  // ---------- One search ----------

  /** Books that keep a promise the network allows. */
  ghost predicate Sound(s: Setting, built: ResGraph, g: ResGraph, ps: seq<PathWithInfo>, pr: Promise) {
    && Network(s, built) && SameShape(built, g) && FlowsMatch(g, ps)
    && GoodPaths(s.start, s.thetaL, ps) && AllKeep(s, pr, ps)
    && Safe(Adjacency(s.edges), s.start, pr)
  }

  /** The first k steps follow edges, for the truth at their latencies. */
  ghost predicate KeptUpTo(s: Setting, pr: Promise, w: seq<Step>, k: nat)
    requires k <= |w|
  {
    var x := Visits(s.start, w[..k]);
    IsWalk(Adjacency(s.edges), x) && (pr.Truth? ==> TrueRoute(s, x, Cost(w[..k])))
  }

  /** An edge that carries flow is reached, and taken, by a held route. */
  lemma FlowApproach(s: Setting, built: ResGraph, g: ResGraph, ps: seq<PathWithInfo>, pr: Promise, u: Node, v: Node)
    returns (x: seq<Node>)
    requires Sound(s, built, g, ps, pr) && s.NetOf(g).Has(u, v) && g[u][v].flow > 0.0
    ensures var a := Adjacency(s.edges);
            && Approach(a, s.start, u, v, x) && HasEdge(a, u, v)
            && (pr.Truth? ==> Length(a, x, ByLatency) + Weight(a, u, v, ByLatency) <= pr.limit)
  {
    var p := TraversedBy(ps, u, v);
    assert GoodPath(s.start, s.thetaL, p) && Keeps(s, pr, p);
    x := HeldApproach(s, pr, p, u, v);
  }

  /** The steps so far approach where they stand, without the node they go to next. */
  lemma WalkedApproach(s: Setting, g: ResGraph, pr: Promise, d: Node, w: seq<Step>, k: nat)
    requires s.NetOf(g).NonNegative() && BoundedFor(s, pr, d) && Walkable(s, g, d, w)
    requires k < |w| && KeptUpTo(s, pr, w, k)
    ensures var a, q := Adjacency(s.edges), Visits(s.start, w[..k]);
            && Approach(a, s.start, Visits(s.start, w)[k], w[k].to, q)
            && (pr.Truth? ==> Length(a, q, ByLatency) <= pr.limit)
  {
    VisitsPrefix(s.start, w[..k], w);
    PrefixSimple(Visits(s.start, w), k);
    if pr.Truth? {
      PrefixCost(s.NetOf(g), s.start, w[..k], w);
    }
  }

  /** A step against an edge crosses it. */
  lemma ReverseCrosses(s: Setting, built: ResGraph, g: ResGraph, ps: seq<PathWithInfo>, pr: Promise, d: Node,
                       w: seq<Step>, k: nat)
    requires Sound(s, built, g, ps, pr) && BoundedFor(s, pr, d) && Walkable(s, g, d, w)
    requires k < |w| && KeptUpTo(s, pr, w, k) && w[k].reverse
    ensures Crosses(Adjacency(s.edges), s.start, pr, w[k].to, Visits(s.start, w)[k])
  {
    var x, y := Visits(s.start, w)[k], w[k].to;
    RunIsNonNegative(s);
    WalkedApproach(s, g, pr, d, w, k);
    assert s.NetOf(g).Offers(x, w[k]);
    var r := FlowApproach(s, built, g, ps, pr, y, x);
    CrossesBy(Adjacency(s.edges), s.start, pr, y, x, r, Visits(s.start, w[..k]));
  }

  lemma CrossesBy(g: Graph, s: Node, pr: Promise, u: Node, v: Node, p: seq<Node>, q: seq<Node>)
    requires Crossing(g, s, u, v, p, q) && Within(g, pr, u, v, p, q)
    ensures Crosses(g, s, pr, u, v)
  {
  }

  lemma PrefixSimple(v: seq<Node>, k: nat)
    requires Simple(v) && k + 1 < |v|
    ensures Simple(v[..k + 1]) && v[k + 1] !in v[..k + 1] && v[..k + 1][k] == v[k]
  {
  }

  lemma RunIsNonNegative(s: Setting)
    requires s.Valid()
    ensures forall k :: k in s.latencies ==> s.latencies[k] >= 0.0
  {
    forall k | k in s.latencies
      ensures s.latencies[k] >= 0.0
    {
      var e :| e in s.edges && k == EdgeKey(e.source, e.destination);
      assert Price(e, ByLatency) >= 0.0;
    }
  }

  /** A step of a walk costs no more than the walk. */
  lemma StepWithin(n: Net, s: Node, w: seq<Step>, k: nat)
    requires n.NonNegative() && ResidualWalk(n, s, w) && k < |w|
    ensures w[k].cost <= Cost(w)
  {
    OfferedCosts(n, s, w);
    PrefixCost(n, s, w[..k + 1], w);
    assert w[..k + 1][..k] == w[..k];
    CostNonNegative(w[..k]);
  }

  /** A step that pays the surcharge costs at least as much. */
  lemma ChargedIsDear(s: Setting, built: ResGraph, u: Node, st: Step)
    requires s.NetOf(built).NonNegative() && Licit(s, built, u, st) && Charged(s, u, st)
    ensures st.cost >= BANNED_PENALTY
  {
  }

  /** Under a bound below the surcharge no step pays it. */
  lemma NoSurcharge(s: Setting, built: ResGraph, g: ResGraph, d: Node, w: seq<Step>, k: nat)
    requires s.NetOf(g).NonNegative() && SameShape(built, g) && Walkable(s, g, d, w) && k < |w|
    requires ThetaLOf(s.thetaL, d) < BANNED_PENALTY
    ensures !Charged(s, Visits(s.start, w)[k], w[k])
  {
    var u := Visits(s.start, w)[k];
    assert s.NetOf(g).Offers(u, w[k]);
    OfferIsLicit(s, built, g, u, w[k]);
    StepWithin(s.NetOf(g), s.start, w, k);
    if Charged(s, u, w[k]) {
      ChargedIsDear(s, built, u, w[k]);
    }
  }

  lemma {:induction false} CostNonNegative(w: seq<Step>)
    requires forall i :: 0 <= i < |w| ==> w[i].cost >= 0.0
    ensures Cost(w) >= 0.0
  {
    if w != [] {
      CostNonNegative(w[..|w| - 1]);
    }
  }

  /** A step that is forward or over a harmless edge follows an edge, for the truth at its latency. */
  lemma StepFollows(s: Setting, built: ResGraph, pr: Promise, u: Node, st: Step)
    requires Network(s, built) && Licit(s, built, u, st)
    requires st.reverse ==> Harmless(Adjacency(s.edges), pr, st.to, u)
    ensures HasEdge(Adjacency(s.edges), u, st.to)
    ensures pr.Truth? && !Charged(s, u, st) ==> st.cost == Weight(Adjacency(s.edges), u, st.to, ByLatency)
  {
    StepAccount(s, built, u, st);
  }

  lemma KeptOneMore(s: Setting, pr: Promise, w: seq<Step>, k: nat)
    requires k < |w| && KeptUpTo(s, pr, w, k)
    requires var u := Visits(s.start, w[..k])[k];
             && HasEdge(Adjacency(s.edges), u, w[k].to)
             && (pr.Truth? ==> w[k].cost == Weight(Adjacency(s.edges), u, w[k].to, ByLatency))
    ensures KeptUpTo(s, pr, w, k + 1)
  {
    assert w[..k + 1][..k] == w[..k] && w[..k + 1][k] == w[k];
    WalkSnoc(Adjacency(s.edges), Visits(s.start, w[..k]), w[k].to, ByLatency);
  }

  lemma StepKeeps(s: Setting, built: ResGraph, g: ResGraph, ps: seq<PathWithInfo>, pr: Promise, d: Node, w: seq<Step>,
                  k: nat)
    requires Sound(s, built, g, ps, pr) && BoundedFor(s, pr, d) && Walkable(s, g, d, w)
    requires k < |w| && KeptUpTo(s, pr, w, k)
    ensures KeptUpTo(s, pr, w, k + 1)
  {
    var u := Visits(s.start, w)[k];
    VisitsPrefix(s.start, w[..k], w);
    assert s.NetOf(g).Offers(u, w[k]);
    OfferIsLicit(s, built, g, u, w[k]);
    if w[k].reverse {
      ReverseCrosses(s, built, g, ps, pr, d, w, k);
    }
    if pr.Truth? {
      RunIsNonNegative(s);
      NoSurcharge(s, built, g, d, w, k);
    }
    StepFollows(s, built, pr, u, w[k]);
    KeptOneMore(s, pr, w, k);
  }

  lemma {:induction false} StepsKeep(s: Setting, built: ResGraph, g: ResGraph, ps: seq<PathWithInfo>, pr: Promise,
                                     d: Node, w: seq<Step>, k: nat)
    requires Sound(s, built, g, ps, pr) && BoundedFor(s, pr, d) && Walkable(s, g, d, w) && k <= |w|
    ensures KeptUpTo(s, pr, w, k)
  {
    if k > 0 {
      StepsKeep(s, built, g, ps, pr, d, w, k - 1);
      StepKeeps(s, built, g, ps, pr, d, w, k - 1);
    }
  }

  /** From sound books a search finds only routes that keep the promise. */
  lemma FoundKeeps(s: Setting, built: ResGraph, g: ResGraph, ps: seq<PathWithInfo>, pr: Promise, d: Node, w: seq<Step>)
    requires Sound(s, built, g, ps, pr) && BoundedFor(s, pr, d) && Walkable(s, g, d, w)
    ensures Keeps(s, pr, RouteBy(s, d, Visits(s.start, w), Cost(w)))
  {
    StepsKeep(s, built, g, ps, pr, d, w, |w|);
    assert w[..|w|] == w;
  }
}
