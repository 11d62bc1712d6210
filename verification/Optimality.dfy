/**
 When the cut-off search is a shortest-path search: on one network exactly when no foremost
 predecessor of the destination is a dear entry, and on a network and all its subnetworks
 exactly when no fork is unfair.
 */
module Optimality {
  import opened NetworkGraph
  import opened ShortestPath
  import opened Routes
  import opened TieBreaks

  /** Whatever order equally cheap entries are popped in, no walk is shorter than the returned cost. */
  ghost predicate AlwaysShortest(q: Query) {
    forall c, w :: Returnable(q, c) && q.Reaches(q.end, w) ==> c <= Length(q.graph, w, q.metric)
  }

  lemma ShortestIfCutOffs(q: Query)
    requires q.Valid()
    ensures AlwaysShortest(q) <==>
              forall p, w :: CutOffPath(q, p) && q.Reaches(q.end, w) ==>
                               Length(q.graph, p, q.metric) <= Length(q.graph, w, q.metric)
  {
    if AlwaysShortest(q) {
      forall p, w | CutOffPath(q, p) && q.Reaches(q.end, w)
        ensures Length(q.graph, p, q.metric) <= Length(q.graph, w, q.metric)
      {
        ReturnableIffCutOff(q, Length(q.graph, p, q.metric));
      }
    }
    forall c | Returnable(q, c)
      ensures exists p :: CutOffPath(q, p) && Length(q.graph, p, q.metric) == c
    {
      ReturnableIffCutOff(q, c);
    }
  }

  // ---------- One network ----------

  ghost predicate Reachable(q: Query, v: Node) {
    exists p :: Connects(q.graph, q.forbidden, q.start, v, p)
  }

  ghost function DistanceTo(q: Query, v: Node): (d: real)
    requires q.Valid() && Reachable(q, v)
    ensures IsDistance(q.graph, q.forbidden, q.start, v, q.metric, d)
  {
    Distance(q.graph, q.forbidden, q.start, v, q.metric)
  }

  lemma ShortestWalk(q: Query, v: Node) returns (w: seq<Node>)
    requires q.Valid() && Reachable(q, v)
    ensures q.Reaches(v, w) && Length(q.graph, w, q.metric) == DistanceTo(q, v)
  {
    var d := DistanceTo(q, v);
    w :| Connects(q.graph, q.forbidden, q.start, v, w) && Length(q.graph, w, q.metric) == d;
  }

  ghost predicate Predecessor(q: Query, u: Node) {
    HasEdge(q.graph, u, q.end) && Reachable(q, u)
  }

  /** x is a shortest walk to u that passes no predecessor of the destination before u. */
  ghost predicate ClearWay(q: Query, u: Node, x: seq<Node>)
    requires q.Valid() && Reachable(q, u)
  {
    && q.Reaches(u, x) && Length(q.graph, x, q.metric) == DistanceTo(q, u)
    && (forall i :: 0 <= i < |x| - 1 ==> !HasEdge(q.graph, x[i], q.end))
  }

  /** u can be the first predecessor to be popped: none is nearer, and it has a clear way. */
  ghost predicate Foremost(q: Query, u: Node)
    requires q.Valid()
  {
    && Predecessor(q, u)
    && (forall v :: Predecessor(q, v) ==> DistanceTo(q, u) <= DistanceTo(q, v))
    && (exists x :: ClearWay(q, u, x))
  }

  /** The length of a shortest walk that enters the destination from u. */
  ghost function Via(q: Query, u: Node): real
    requires q.Valid() && Predecessor(q, u)
  {
    DistanceTo(q, u) + Weight(q.graph, u, q.end, q.metric)
  }

  /** Entering from a foremost predecessor is never dearer than entering from any other one. */
  ghost predicate NoDearEntry(q: Query)
    requires q.Valid()
  {
    forall u, v :: Foremost(q, u) && Predecessor(q, v) ==> Via(q, u) <= Via(q, v)
  }

  /** A cut-off path enters from a foremost predecessor and has the length of the way via it. */
  lemma CutOffIsForemost(q: Query, p: seq<Node>)
    requires q.Valid() && q.start != q.end && CutOffPath(q, p)
    ensures Foremost(q, p[|p| - 2]) && Length(q.graph, p, q.metric) == Via(q, p[|p| - 2])
  {
    var x, u := p[..|p| - 1], p[|p| - 2];
    PrefixReaches(q, p);
    LastEdge(q.graph, p, q.metric);
    assert q.Reaches(u, x) && Predecessor(q, u);
    NearestDistances(q, u, x);
    assert ClearWay(q, u, x);
  }

  /** A walk to a predecessor that no walk to a predecessor undercuts is as long as the least distance of one. */
  lemma NearestDistances(q: Query, u: Node, x: seq<Node>)
    requires q.Valid() && Predecessor(q, u) && q.Reaches(u, x) && NearestPredecessor(q, Length(q.graph, x, q.metric))
    ensures DistanceTo(q, u) == Length(q.graph, x, q.metric)
    ensures forall v :: Predecessor(q, v) ==> DistanceTo(q, u) <= DistanceTo(q, v)
  {
    forall v | Predecessor(q, v)
      ensures Length(q.graph, x, q.metric) <= DistanceTo(q, v)
    {
      var w := ShortestWalk(q, v);
    }
  }

  /** Every foremost predecessor has a cut-off path. */
  lemma ForemostHasCutOff(q: Query, u: Node) returns (p: seq<Node>)
    requires q.Valid() && q.start != q.end && q.end !in q.forbidden && Foremost(q, u)
    ensures CutOffPath(q, p) && Length(q.graph, p, q.metric) == Via(q, u)
  {
    var x :| ClearWay(q, u, x);
    var r := Shortcut(q.graph, x, q.metric);
    ShortcutAvoids(x, r, q.forbidden);
    assert q.Reaches(u, r);
    ClearShortcut(q, x, r);
    p := r + [q.end];
    ExtendWalk(q.graph, r, q.end, q.metric);
    assert p[..|p| - 1] == r;
    forall v, w | q.Reaches(v, w) && HasEdge(q.graph, v, q.end)
      ensures Length(q.graph, r, q.metric) <= Length(q.graph, w, q.metric)
    {
      assert Predecessor(q, v);
    }
  }

  /** A shortcut of a clear way is clear and does not visit the destination. */
  lemma ClearShortcut(q: Query, x: seq<Node>, r: seq<Node>)
    requires IsWalk(q.graph, x) && x[0] == q.start != q.end && Shortens(q.graph, x, q.metric, r)
    requires forall i :: 0 <= i < |x| - 1 ==> !HasEdge(q.graph, x[i], q.end)
    ensures q.end !in r && forall i :: 0 <= i < |r| - 1 ==> !HasEdge(q.graph, r[i], q.end)
  {
    forall k | 0 <= k < |x|
      ensures x[k] != q.end
    {
      if k > 0 {
        EdgeOfWalk(q.graph, x, k - 1);
      }
    }
    forall i | 0 <= i < |r| - 1
      ensures !HasEdge(q.graph, r[i], q.end)
    {
      assert r[i] in x && r[i] != x[|x| - 1];
    }
  }

  /** The search always returns a shortest path exactly when no foremost predecessor is a dear entry. */
  lemma ShortestIffNoDearEntry(q: Query)
    requires q.Valid()
    ensures AlwaysShortest(q) <==> q.start == q.end || q.end in q.forbidden || NoDearEntry(q)
  {
    ShortestIfCutOffs(q);
    if q.start == q.end {
      forall p, w | CutOffPath(q, p) && q.Reaches(q.end, w)
        ensures Length(q.graph, p, q.metric) <= Length(q.graph, w, q.metric)
      {
        LengthNonNegative(q.graph, w, q.metric);
      }
    } else if q.end !in q.forbidden {
      if AlwaysShortest(q) {
        forall u, v | Foremost(q, u) && Predecessor(q, v)
          ensures Via(q, u) <= Via(q, v)
        {
          var p := ForemostHasCutOff(q, u);
          var w := WayVia(q, v);
        }
      }
      if NoDearEntry(q) {
        forall p, w | CutOffPath(q, p) && q.Reaches(q.end, w)
          ensures Length(q.graph, p, q.metric) <= Length(q.graph, w, q.metric)
        {
          CutOffIsForemost(q, p);
          AtLeastVia(q, w);
        }
      }
    }
  }

  lemma WayVia(q: Query, v: Node) returns (w: seq<Node>)
    requires q.Valid() && q.end !in q.forbidden && Predecessor(q, v)
    ensures q.Reaches(q.end, w) && Length(q.graph, w, q.metric) == Via(q, v)
  {
    var y := ShortestWalk(q, v);
    ExtendWalk(q.graph, y, q.end, q.metric);
    w := y + [q.end];
  }

  lemma AtLeastVia(q: Query, w: seq<Node>)
    requires q.Valid() && q.start != q.end && q.Reaches(q.end, w)
    ensures |w| >= 2 && Predecessor(q, w[|w| - 2]) && Via(q, w[|w| - 2]) <= Length(q.graph, w, q.metric)
  {
    PrefixReaches(q, w);
    LastEdge(q.graph, w, q.metric);
    assert q.Reaches(w[|w| - 2], w[..|w| - 1]);
  }

  /** With positive prices the foremost predecessors are simply the nearest ones. */
  lemma PositiveForemost(q: Query, u: Node)
    requires q.Valid() && forall a, b :: HasEdge(q.graph, a, b) ==> Weight(q.graph, a, b, q.metric) > 0.0
    ensures Foremost(q, u) <==>
              Predecessor(q, u) && forall v :: Predecessor(q, v) ==> DistanceTo(q, u) <= DistanceTo(q, v)
  {
    if Predecessor(q, u) && forall v :: Predecessor(q, v) ==> DistanceTo(q, u) <= DistanceTo(q, v) {
      var x := ShortestWalk(q, u);
      forall i | 0 <= i < |x| - 1
        ensures !HasEdge(q.graph, x[i], q.end)
      {
        NearerOnTheWay(q, u, x, i);
      }
      assert ClearWay(q, u, x);
    }
  }

  /** A node before the end of a walk is nearer than the walk is long. */
  lemma NearerOnTheWay(q: Query, v: Node, x: seq<Node>, i: nat)
    requires q.Valid() && i < |x| - 1 && q.Reaches(v, x)
    requires forall a, b :: HasEdge(q.graph, a, b) ==> Weight(q.graph, a, b, q.metric) > 0.0
    ensures Reachable(q, x[i]) && DistanceTo(q, x[i]) < Length(q.graph, x, q.metric)
  {
    EdgeOfWalk(q.graph, x, |x| - 2);
    ProperPrefixShorter(q.graph, x, i, q.metric);
    PrefixConnects(q.graph, q.forbidden, q.start, v, x, i);
  }

  lemma ProperPrefixShorter(g: Graph, x: seq<Node>, i: nat, m: Metric)
    requires WellFormed(g) && NonNegative(g, m) && i < |x| - 1 && Weight(g, x[|x| - 2], x[|x| - 1], m) > 0.0
    ensures Length(g, x[..i + 1], m) < Length(g, x, m)
  {
    var y := x[..|x| - 1];
    PrefixNoLonger(g, y, i + 1, m);
    assert y[..i + 1] == x[..i + 1];
  }

  // ---------- A network and its subnetworks ----------

  /** x leads to a predecessor of the destination without visiting the destination. */
  ghost predicate Tail(g: Graph, end: Node, x: seq<Node>) {
    IsWalk(g, x) && Simple(x) && end !in x && HasEdge(g, x[|x| - 1], end)
  }

  /** Two tails that part at their first node and never meet again. */
  ghost predicate Fork(g: Graph, end: Node, x: seq<Node>, y: seq<Node>) {
    && Tail(g, end, x) && Tail(g, end, y) && x[0] == y[0] && |y| >= 2
    && (forall i, j :: 1 <= i < |x| && 1 <= j < |y| ==> x[i] != y[j])
  }

  ghost function TailCost(g: Graph, end: Node, x: seq<Node>, m: Metric): real
    requires |x| >= 1
  {
    Length(g, x, m) + Weight(g, x[|x| - 1], end, m)
  }

  /** At every fork the tail that is no longer up to the last edge is no longer with it. */
  ghost predicate ForkFair(g: Graph, end: Node, m: Metric) {
    forall x, y ::
      Fork(g, end, x, y) && Length(g, x, m) <= Length(g, y, m) ==> TailCost(g, end, x, m) <= TailCost(g, end, y, m)
  }

  /** Equal prices into the destination make every fork fair. */
  lemma UniformIsFair(g: Graph, end: Node, m: Metric)
    requires UniformEntry(g, end, m)
    ensures ForkFair(g, end, m)
  {
  }

  /** The last node of y that lies on x. */
  lemma LastShared(x: seq<Node>, y: seq<Node>) returns (i: nat, j: nat)
    requires |x| >= 1 && |y| >= 1 && x[0] == y[0]
    ensures i < |x| && j < |y| && x[i] == y[j] && forall k :: j < k < |y| ==> y[k] !in x
  {
    j := |y| - 1;
    while y[j] !in x
      invariant 0 <= j < |y| && forall k :: j < k < |y| ==> y[k] !in x
      decreases j
    {
      j := j - 1;
    }
    i :| 0 <= i < |x| && x[i] == y[j];
  }

  /** Leaving x for y at a shared node gives a walk of the joint length. */
  lemma Switch(q: Query, x: seq<Node>, i: nat, y: seq<Node>, j: nat) returns (w: seq<Node>)
    requires IsWalk(q.graph, x) && x[0] == q.start && Avoids(x, q.forbidden) && i < |x|
    requires IsWalk(q.graph, y) && y[0] == q.start && Avoids(y, q.forbidden) && j < |y| && x[i] == y[j]
    ensures q.Reaches(y[|y| - 1], w)
    ensures Length(q.graph, w, q.metric) == Length(q.graph, x[..i + 1], q.metric) + Length(q.graph, y[j..], q.metric)
  {
    PrefixWalk(q.graph, x, i + 1);
    SuffixWalk(q.graph, y, j);
    var a, b := x[..i + 1], y[j..];
    JoinWalks(q.graph, a, b, q.metric);
    w := a[..i] + b;
    SwitchAvoids(q, x, i, y, j);
    assert a[..|a| - 1] == x[..i];
  }

  lemma SwitchAvoids(q: Query, x: seq<Node>, i: nat, y: seq<Node>, j: nat)
    requires i < |x| && x[0] == q.start && Avoids(x, q.forbidden)
    requires j < |y| && y[0] == q.start && Avoids(y, q.forbidden) && x[i] == y[j]
    ensures var w := x[..i] + y[j..]; w[0] == q.start && w[|w| - 1] == y[|y| - 1] && Avoids(w, q.forbidden)
  {
    var w := x[..i] + y[j..];
    forall k | 1 <= k < |w|
      ensures w[k] !in q.forbidden
    {
      if k < i {
        assert w[k] == x[k];
      } else if k == i {
        assert w[k] == x[i];
      } else {
        assert w[k] == y[j + k - i];
      }
    }
  }

  /** The tails of x and y behind their last shared node form a fork. */
  lemma TailsFork(g: Graph, end: Node, x: seq<Node>, i: nat, y: seq<Node>, j: nat)
    requires Tail(g, end, x) && Tail(g, end, y) && i < |x| && j < |y| - 1 && x[i] == y[j]
    requires forall k :: j < k < |y| ==> y[k] !in x
    ensures Fork(g, end, x[i..], y[j..])
  {
    SuffixWalk(g, x, i);
    SuffixWalk(g, y, j);
    var a, b := x[i..], y[j..];
    forall s, t | 1 <= s < |a| && 1 <= t < |b|
      ensures a[s] != b[t]
    {
      assert a[s] in x && b[t] == y[j + t];
    }
  }

  /** A nearest way is no longer than another one on either side of a shared node. */
  lemma NearestOnBothSides(q: Query, x: seq<Node>, i: nat, y: seq<Node>, j: nat)
    requires x != [] && q.Reaches(x[|x| - 1], x) && HasEdge(q.graph, x[|x| - 1], q.end) && i < |x|
    requires y != [] && q.Reaches(y[|y| - 1], y) && HasEdge(q.graph, y[|y| - 1], q.end) && j < |y| && x[i] == y[j]
    requires NearestPredecessor(q, Length(q.graph, x, q.metric))
    ensures Length(q.graph, x[i..], q.metric) <= Length(q.graph, y[j..], q.metric)
    ensures Length(q.graph, x[..i + 1], q.metric) <= Length(q.graph, y[..j + 1], q.metric)
  {
    SplitWalk(q.graph, x, i, q.metric);
    var there := Switch(q, x, i, y, j);
    var back := Switch(q, y, j, x, i);
  }

  /** On a network without unfair forks a nearest way is also the cheapest to enter from. */
  lemma FairTails(q: Query, x: seq<Node>, y: seq<Node>)
    requires q.Valid() && ForkFair(q.graph, q.end, q.metric)
    requires Tail(q.graph, q.end, x) && q.Reaches(x[|x| - 1], x) && NearestPredecessor(q, Length(q.graph, x, q.metric))
    requires forall i :: 0 <= i < |x| - 1 ==> !HasEdge(q.graph, x[i], q.end)
    requires Tail(q.graph, q.end, y) && q.Reaches(y[|y| - 1], y)
    ensures TailCost(q.graph, q.end, x, q.metric) <= TailCost(q.graph, q.end, y, q.metric)
  {
    var i, j := LastShared(x, y);
    if j < |y| - 1 {
      NearestOnBothSides(q, x, i, y, j);
      TailsFork(q.graph, q.end, x, i, y, j);
      FairAt(q.graph, q.end, x[i..], y[j..], q.metric);
      SplitCost(q.graph, q.end, x, i, q.metric);
      SplitCost(q.graph, q.end, y, j, q.metric);
    } else {
      assert HasEdge(q.graph, x[i], q.end);
      assert i == |x| - 1;
    }
  }

  lemma SplitCost(g: Graph, end: Node, x: seq<Node>, i: nat, m: Metric)
    requires IsWalk(g, x) && i < |x|
    ensures TailCost(g, end, x, m) == Length(g, x[..i + 1], m) + TailCost(g, end, x[i..], m)
  {
    SplitWalk(g, x, i, m);
    assert x[i..][|x[i..]| - 1] == x[|x| - 1];
  }

  lemma FairAt(g: Graph, end: Node, x: seq<Node>, y: seq<Node>, m: Metric)
    requires ForkFair(g, end, m) && Fork(g, end, x, y) && Length(g, x, m) <= Length(g, y, m)
    ensures TailCost(g, end, x, m) <= TailCost(g, end, y, m)
  {
  }

  /** The way of a route up to its last edge. */
  lemma TailOf(q: Query, r: seq<Node>) returns (y: seq<Node>)
    requires q.start != q.end && q.Reaches(q.end, r) && Simple(r)
    ensures |r| >= 2 && y == r[..|r| - 1] && Tail(q.graph, q.end, y) && q.Reaches(y[|y| - 1], y)
    ensures Length(q.graph, r, q.metric) == TailCost(q.graph, q.end, y, q.metric)
  {
    PrefixReaches(q, r);
    LastEdge(q.graph, r, q.metric);
    y := r[..|r| - 1];
  }

  lemma FairIsShortest(q: Query, p: seq<Node>, w: seq<Node>)
    requires q.Valid() && CutOffPath(q, p) && ForkFair(q.graph, q.end, q.metric) && q.Reaches(q.end, w)
    ensures Length(q.graph, p, q.metric) <= Length(q.graph, w, q.metric)
  {
    if q.start == q.end {
      LengthNonNegative(q.graph, w, q.metric);
    } else {
      var r := Shortcut(q.graph, w, q.metric);
      ShortcutAvoids(w, r, q.forbidden);
      var x := TailOf(q, p);
      var y := TailOf(q, r);
      assert forall i :: 0 <= i < |x| - 1 ==> x[i] == p[i];
      FairTails(q, x, y);
    }
  }
}
