/**
 Why unfair forks matter: leave only an unfair fork of a network, and the search from its first
 node may return the dearer of the two ways. Fair forks are therefore exactly what it takes for
 the search to be right on a network and on everything that remains of it when edges go.
 */
module Subnetworks {
  import opened NetworkGraph
  import opened ShortestPath
  import opened TieBreaks
  import opened Optimality

  ghost predicate Subnetwork(g: Graph, h: Graph) {
    forall u :: u in h ==> u in g && forall e :: e in h[u] ==> e in g[u]
  }

  lemma SubnetworkEdge(g: Graph, h: Graph, u: Node, v: Node, m: Metric)
    requires WellFormed(g) && Subnetwork(g, h) && HasEdge(h, u, v)
    ensures HasEdge(g, u, v) && Weight(h, u, v, m) == Weight(g, u, v, m)
  {
    var e := EdgeTo(h[u], v);
    assert e in g[u];
    WeightOfEdge(g, u, e, m);
  }

  lemma {:induction false} SubnetworkWalk(g: Graph, h: Graph, p: seq<Node>, m: Metric)
    requires WellFormed(g) && Subnetwork(g, h) && IsWalk(h, p)
    ensures IsWalk(g, p) && Length(g, p, m) == Length(h, p, m)
  {
    if |p| > 1 {
      SubnetworkWalk(g, h, p[..|p| - 1], m);
      SubnetworkEdge(g, h, p[|p| - 2], p[|p| - 1], m);
    }
  }

  /** A subnetwork has no other forks. */
  lemma SubnetworkFair(g: Graph, h: Graph, end: Node, m: Metric)
    requires WellFormed(g) && Subnetwork(g, h) && ForkFair(g, end, m)
    ensures ForkFair(h, end, m)
  {
    forall x, y | Fork(h, end, x, y) && Length(h, x, m) <= Length(h, y, m)
      ensures TailCost(h, end, x, m) <= TailCost(h, end, y, m)
    {
      SubnetworkWalk(g, h, x, m);
      SubnetworkWalk(g, h, y, m);
      SubnetworkEdge(g, h, x[|x| - 1], end, m);
      SubnetworkEdge(g, h, y[|y| - 1], end, m);
      FairAt(g, end, x, y, m);
    }
  }

  // ---------- What remains of a network when only a fork is left ----------

  ghost function Hops(x: seq<Node>): set<(Node, Node)> {
    if |x| < 2 then {} else Hops(x[..|x| - 1]) + {(x[|x| - 2], x[|x| - 1])}
  }

  lemma {:induction false} HopAt(x: seq<Node>, i: nat)
    requires i + 1 < |x|
    ensures (x[i], x[i + 1]) in Hops(x)
  {
    if i + 2 < |x| {
      HopAt(x[..|x| - 1], i);
    }
  }

  lemma {:induction false} HopIndex(x: seq<Node>, u: Node, v: Node) returns (i: nat)
    requires (u, v) in Hops(x)
    ensures i + 1 < |x| && x[i] == u && x[i + 1] == v
  {
    if (u, v) == (x[|x| - 2], x[|x| - 1]) {
      i := |x| - 2;
    } else {
      i := HopIndex(x[..|x| - 1], u, v);
    }
  }

  /** The hops of a fork and of its two entries. */
  ghost function ForkHops(x: seq<Node>, y: seq<Node>, end: Node): set<(Node, Node)> {
    Hops(x + [end]) + Hops(y + [end])
  }

  ghost function Kept(es: seq<Edge>, u: Node, hops: set<(Node, Node)>): (r: seq<Edge>)
    ensures forall e :: e in r <==> e in es && (u, e.destination) in hops
  {
    if es == [] then [] else
    var n := |es| - 1;
    assert es == es[..n] + [es[n]];
    Kept(es[..n], u, hops) + if (u, es[n].destination) in hops then [es[n]] else []
  }

  ghost function Restricted(g: Graph, hops: set<(Node, Node)>): Graph {
    map u | u in g :: Kept(g[u], u, hops)
  }

  lemma RestrictedEdges(g: Graph, hops: set<(Node, Node)>, u: Node, v: Node)
    ensures Subnetwork(g, Restricted(g, hops))
    ensures HasEdge(Restricted(g, hops), u, v) <==> HasEdge(g, u, v) && (u, v) in hops
  {
    if HasEdge(g, u, v) && (u, v) in hops {
      var e := EdgeTo(g[u], v);
      assert e in Restricted(g, hops)[u];
    }
  }

  /** Walks over kept hops remain. */
  lemma RestrictedWalk(g: Graph, hops: set<(Node, Node)>, p: seq<Node>)
    requires IsWalk(g, p) && Hops(p) <= hops
    ensures IsWalk(Restricted(g, hops), p)
  {
    forall i | 0 <= i && i + 1 < |p|
      ensures HasEdge(Restricted(g, hops), p[i], p[i + 1])
    {
      EdgeOfWalk(g, p, i);
      HopAt(p, i);
      RestrictedEdges(g, hops, p[i], p[i + 1]);
    }
    WalkFromEdges(Restricted(g, hops), p);
  }

  /** h has no edges but these. */
  ghost predicate KeptTo(h: Graph, hops: set<(Node, Node)>) {
    forall u, v {:trigger HasEdge(h, u, v)} :: HasEdge(h, u, v) ==> (u, v) in hops
  }

  /** The two arms of a fork, each with its entry. */
  ghost predicate Arms(x: seq<Node>, y: seq<Node>, end: Node) {
    && |x| >= 1 && |y| >= 2 && x[0] == y[0] && Simple(x) && Simple(y) && end !in x && end !in y
    && (forall i, j :: 1 <= i < |x| && 1 <= j < |y| ==> x[i] != y[j])
  }

  /** From a node of the first arm the only way is along it, but for the other arm at the first node. */
  lemma NextOnArm(x: seq<Node>, y: seq<Node>, end: Node, k: nat, b: Node)
    requires Arms(x, y, end) && k <= |x| && ((x + [end])[k], b) in ForkHops(x, y, end)
    ensures k < |x| && (b == (x + [end])[k + 1] || (k == 0 && b == (y + [end])[1]))
  {
    var X, Y := x + [end], y + [end];
    var a := X[k];
    if (a, b) in Hops(X) {
      var i := HopIndex(X, a, b);
      assert X[i] == x[i];
      assert i == k;
    } else {
      var i := HopIndex(Y, a, b);
      assert Y[i] == y[i];
      assert k < |x|;
      assert x[k] == y[i];
      OnlyFirstShared(x, y, end, k, i);
    }
  }

  lemma OnlyFirstShared(x: seq<Node>, y: seq<Node>, end: Node, i: nat, j: nat)
    requires Arms(x, y, end) && i < |x| && j < |y| && x[i] == y[j]
    ensures i == 0 && j == 0
  {
  }

  lemma NextOnOther(x: seq<Node>, y: seq<Node>, end: Node, k: nat, b: Node)
    requires Arms(x, y, end) && k <= |y| && ((y + [end])[k], b) in ForkHops(x, y, end)
    ensures k < |y| && (b == (y + [end])[k + 1] || (k == 0 && b == (x + [end])[1]))
  {
    var X, Y := x + [end], y + [end];
    var a := Y[k];
    if (a, b) in Hops(Y) {
      var i := HopIndex(Y, a, b);
      assert Y[i] == y[i];
      assert i == k;
    } else {
      var i := HopIndex(X, a, b);
      assert X[i] == x[i];
      assert k < |y|;
      assert x[i] == y[k];
      OnlyFirstShared(x, y, end, i, k);
    }
  }

  ghost predicate Follows(w: seq<Node>, arm: seq<Node>) {
    |w| <= |arm| && forall i :: 0 <= i < |w| ==> w[i] == arm[i]
  }

  lemma FollowsFurther(v: seq<Node>, b: Node, arm: seq<Node>)
    requires Follows(v, arm) && |v| < |arm| && b == arm[|v|]
    ensures Follows(v + [b], arm)
  {
  }

  /** Every walk over the hops of a fork follows one of its arms. */
  lemma FollowsAnArm(h: Graph, x: seq<Node>, y: seq<Node>, end: Node, w: seq<Node>)
    requires Arms(x, y, end) && IsWalk(h, w) && w[0] == x[0]
    requires KeptTo(h, ForkHops(x, y, end))
    ensures Follows(w, x + [end]) || Follows(w, y + [end])
  {
    for n := 1 to |w|
      invariant Follows(w[..n], x + [end]) || Follows(w[..n], y + [end])
    {
      HopOfWalk(h, ForkHops(x, y, end), w, n - 1);
      FollowsOn(x, y, end, w[..n], w[n]);
      assert w[..n + 1] == w[..n] + [w[n]];
    }
    assert w[..|w|] == w;
  }

  lemma HopOfWalk(h: Graph, hops: set<(Node, Node)>, w: seq<Node>, i: nat)
    requires IsWalk(h, w) && KeptTo(h, hops) && i + 1 < |w|
    ensures (w[i], w[i + 1]) in hops
  {
    EdgeOfWalk(h, w, i);
  }

  lemma FollowsOn(x: seq<Node>, y: seq<Node>, end: Node, v: seq<Node>, b: Node)
    requires Arms(x, y, end) && |v| >= 1 && (v[|v| - 1], b) in ForkHops(x, y, end)
    requires Follows(v, x + [end]) || Follows(v, y + [end])
    ensures Follows(v + [b], x + [end]) || Follows(v + [b], y + [end])
  {
    var X, Y, k := x + [end], y + [end], |v| - 1;
    if Follows(v, X) {
      NextOnArm(x, y, end, k, b);
      if b == X[k + 1] {
        FollowsFurther(v, b, X);
      } else {
        FollowsFurther(v, b, Y);
      }
    } else {
      NextOnOther(x, y, end, k, b);
      if b == Y[k + 1] {
        FollowsFurther(v, b, Y);
      } else {
        FollowsFurther(v, b, X);
      }
    }
  }

  /** The entries of a fork are the ends of its arms. */
  lemma EntriesOfFork(x: seq<Node>, y: seq<Node>, end: Node, u: Node)
    requires Arms(x, y, end) && (u, end) in ForkHops(x, y, end)
    ensures u == x[|x| - 1] || u == y[|y| - 1]
  {
    var X, Y := x + [end], y + [end];
    if (u, end) in Hops(X) {
      var i := HopIndex(X, u, end);
    } else {
      var i := HopIndex(Y, u, end);
    }
  }

  /** A walk to an entry of the fork is one of its arms. */
  lemma WalkToEntry(h: Graph, x: seq<Node>, y: seq<Node>, end: Node, w: seq<Node>)
    requires Arms(x, y, end) && IsWalk(h, w) && w[0] == x[0]
    requires KeptTo(h, ForkHops(x, y, end))
    requires HasEdge(h, w[|w| - 1], end)
    ensures w == x || w == y
  {
    var X, Y, n := x + [end], y + [end], |w| - 1;
    FollowsAnArm(h, x, y, end, w);
    EntriesOfFork(x, y, end, w[n]);
    if Follows(w, X) {
      assert w[n] == X[n];
      assert n == |x| - 1;
    } else {
      assert w[n] == Y[n];
      assert n == |y| - 1 || (n == 0 && |x| == 1);
    }
  }

  // ---------- An unfair fork misleads the search ----------

  /** h is what remains of g when only a fork and its entries are left. */
  ghost predicate OnlyFork(g: Graph, h: Graph, x: seq<Node>, y: seq<Node>, end: Node) {
    && Subnetwork(g, h) && IsWalk(h, x + [end]) && IsWalk(h, y + [end])
    && KeptTo(h, ForkHops(x, y, end))
  }

  lemma ForkRemains(g: Graph, x: seq<Node>, y: seq<Node>, end: Node) returns (h: Graph)
    requires Fork(g, end, x, y)
    ensures OnlyFork(g, h, x, y, end)
  {
    var hops := ForkHops(x, y, end);
    h := Restricted(g, hops);
    RestrictedEdges(g, hops, "", "");
    forall u, v | HasEdge(h, u, v)
      ensures (u, v) in hops
    {
      RestrictedEdges(g, hops, u, v);
    }
    ArmRemains(g, x, end, hops);
    ArmRemains(g, y, end, hops);
  }

  lemma ArmRemains(g: Graph, x: seq<Node>, end: Node, hops: set<(Node, Node)>)
    requires Tail(g, end, x) && Hops(x + [end]) <= hops
    ensures IsWalk(Restricted(g, hops), x + [end])
  {
    ExtendWalk(g, x, end, ByWeight);
    RestrictedWalk(g, hops, x + [end]);
  }

  /** An arm and its entry keep their lengths. */
  lemma ArmLengths(g: Graph, h: Graph, x: seq<Node>, end: Node, m: Metric)
    requires WellFormed(g) && Subnetwork(g, h) && |x| >= 1 && IsWalk(h, x + [end])
    ensures IsWalk(h, x) && HasEdge(h, x[|x| - 1], end) && Length(h, x, m) == Length(g, x, m)
    ensures Length(h, x + [end], m) == TailCost(g, end, x, m)
  {
    var X := x + [end];
    assert X[..|x|] == x && X[|X| - 2] == x[|x| - 1];
    SubnetworkWalk(g, h, x, m);
    SubnetworkEdge(g, h, x[|x| - 1], end, m);
  }

  /** With only the fork left, its shorter arm is a nearest way. */
  lemma ShorterArmIsNearest(g: Graph, h: Graph, x: seq<Node>, y: seq<Node>, end: Node, m: Metric)
    requires WellFormed(g) && Arms(x, y, end) && OnlyFork(g, h, x, y, end) && Length(g, x, m) <= Length(g, y, m)
    ensures NearestPredecessor(Query(h, {}, x[0], end, m), Length(h, x, m))
  {
    var q := Query(h, {}, x[0], end, m);
    ArmLengths(g, h, x, end, m);
    ArmLengths(g, h, y, end, m);
    forall v, w | q.Reaches(v, w) && HasEdge(h, v, end)
      ensures Length(h, x, m) <= Length(h, w, m)
    {
      WalkToEntry(h, x, y, end, w);
    }
  }

  lemma NoEntryBefore(g: Graph, h: Graph, x: seq<Node>, y: seq<Node>, end: Node, i: nat)
    requires Arms(x, y, end) && OnlyFork(g, h, x, y, end) && i < |x| - 1
    ensures !HasEdge(h, x[i], end)
  {
    if (x[i], end) in ForkHops(x, y, end) {
      EntriesOfFork(x, y, end, x[i]);
    }
  }

  lemma ShorterArmIsCutOff(g: Graph, h: Graph, x: seq<Node>, y: seq<Node>, end: Node, m: Metric)
    requires WellFormed(g) && Arms(x, y, end) && OnlyFork(g, h, x, y, end) && Length(g, x, m) <= Length(g, y, m)
    ensures CutOffPath(Query(h, {}, x[0], end, m), x + [end])
  {
    var q, X := Query(h, {}, x[0], end, m), x + [end];
    ShorterArmIsNearest(g, h, x, y, end, m);
    assert X[..|X| - 1] == x;
    forall i | 0 <= i < |X| - 2
      ensures !HasEdge(h, X[i], end)
    {
      NoEntryBefore(g, h, x, y, end, i);
    }
  }

  /** An unfair fork alone makes the search fail. */
  lemma UnfairForkMisleads(g: Graph, x: seq<Node>, y: seq<Node>, end: Node, m: Metric) returns (h: Graph)
    requires WellFormed(g) && NonNegative(g, m) && end != "" && Fork(g, end, x, y)
    requires Length(g, x, m) <= Length(g, y, m) && TailCost(g, end, x, m) > TailCost(g, end, y, m)
    ensures Subnetwork(g, h) && x[0] != "" && !AlwaysShortest(Query(h, {}, x[0], end, m))
  {
    h := ForkRemains(g, x, y, end);
    EdgeOfWalk(g, y, 0);
    SubnetworkValid(g, h, x[0], end, m);
    Misled(g, h, x, y, end, m);
  }

  lemma Misled(g: Graph, h: Graph, x: seq<Node>, y: seq<Node>, end: Node, m: Metric)
    requires WellFormed(g) && Arms(x, y, end) && OnlyFork(g, h, x, y, end) && Query(h, {}, x[0], end, m).Valid()
    requires Length(g, x, m) <= Length(g, y, m) && TailCost(g, end, x, m) > TailCost(g, end, y, m)
    ensures !AlwaysShortest(Query(h, {}, x[0], end, m))
  {
    var q := Query(h, {}, x[0], end, m);
    ShorterArmIsCutOff(g, h, x, y, end, m);
    ArmLengths(g, h, x, end, m);
    ArmLengths(g, h, y, end, m);
    ReturnableIffCutOff(q, Length(h, x + [end], m));
    ArmReaches(h, y, end, m);
    NotAlways(q, Length(h, x + [end], m), y + [end]);
  }

  lemma ArmReaches(h: Graph, y: seq<Node>, end: Node, m: Metric)
    requires |y| >= 1 && IsWalk(h, y + [end])
    ensures Query(h, {}, y[0], end, m).Reaches(end, y + [end])
  {
  }

  lemma NotAlways(q: Query, c: real, w: seq<Node>)
    requires Returnable(q, c) && q.Reaches(q.end, w) && Length(q.graph, w, q.metric) < c
    ensures !AlwaysShortest(q)
  {
  }

  /** The search is right on every subnetwork, from every start. */
  ghost predicate RightOnSubnetworks(g: Graph, end: Node, m: Metric) {
    forall h, s :: Subnetwork(g, h) && s != "" ==> AlwaysShortest(Query(h, {}, s, end, m))
  }

  lemma SubnetworkValid(g: Graph, h: Graph, s: Node, end: Node, m: Metric)
    requires WellFormed(g) && NonNegative(g, m) && Subnetwork(g, h) && s != "" && end != ""
    ensures Query(h, {}, s, end, m).Valid()
  {
  }

  lemma FairIsRight(g: Graph, end: Node, m: Metric)
    requires WellFormed(g) && NonNegative(g, m) && end != "" && ForkFair(g, end, m)
    ensures RightOnSubnetworks(g, end, m)
  {
    forall h, s | Subnetwork(g, h) && s != ""
      ensures AlwaysShortest(Query(h, {}, s, end, m))
    {
      SubnetworkValid(g, h, s, end, m);
      SubnetworkFair(g, h, end, m);
      FairSearch(Query(h, {}, s, end, m));
    }
  }

  /** Fair forks are exactly what makes the search right on a network and all its subnetworks. */
  lemma RightIffForkFair(g: Graph, end: Node, m: Metric)
    requires WellFormed(g) && NonNegative(g, m) && end != ""
    ensures RightOnSubnetworks(g, end, m) <==> ForkFair(g, end, m)
  {
    if ForkFair(g, end, m) {
      FairIsRight(g, end, m);
    } else {
      var x, y :| Fork(g, end, x, y) && Length(g, x, m) <= Length(g, y, m)
                  && TailCost(g, end, x, m) > TailCost(g, end, y, m);
      var h := UnfairForkMisleads(g, x, y, end, m);
    }
  }

  lemma FairSearch(q: Query)
    requires q.Valid() && ForkFair(q.graph, q.end, q.metric)
    ensures AlwaysShortest(q)
  {
    ShortestIfCutOffs(q);
    forall p, w | CutOffPath(q, p) && q.Reaches(q.end, w)
      ensures Length(q.graph, p, q.metric) <= Length(q.graph, w, q.metric)
    {
      FairIsShortest(q, p, w);
    }
  }
}
