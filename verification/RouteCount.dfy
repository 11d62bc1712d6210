/**
 The number of routes there are, and how many of them a k-route query returns.
 */
module RouteCount {
  import opened NetworkGraph
  import opened ShortestPath
  import opened Routes
  import opened Spur
  import opened Yen

  /** The routes of a problem, as a finite set. */
  ghost function AllRoutes(b: Problem): set<seq<Node>> {
    RoutesFrom(b.graph, b.start, b.end, Nodes(b.graph) - {b.start})
  }

  lemma AllRoutesExact(b: Problem, p: seq<Node>)
    ensures p in AllRoutes(b) <==> b.Route(p)
  {
    var avail := Nodes(b.graph) - {b.start};
    if p in AllRoutes(b) {
      RoutesFromSound(b.graph, b.start, b.end, avail, p);
    }
    if b.Route(p) {
      WalkInNodes(b.graph, p);
      RoutesFromComplete(b.graph, b.start, b.end, avail, p);
    }
  }

  ghost function HopSet(rs: seq<Path>): set<seq<Node>> {
    set r | r in rs :: r.hops
  }

  lemma {:induction false} HopSetSize(rs: seq<Path>)
    requires DistinctHops(rs)
    ensures |HopSet(rs)| == |rs|
  {
    if |rs| > 0 {
      var n := |rs| - 1;
      HopSetSize(rs[..n]);
      assert rs == rs[..n] + [rs[n]];
      assert HopSet(rs) == HopSet(rs[..n]) + {rs[n].hops};
      assert rs[n].hops !in HopSet(rs[..n]);
    }
  }

  lemma SubsetSize<T>(a: set<T>, b: set<T>)
    requires a <= b
    ensures |a| <= |b|
  {
    assert b == a + (b - a);
  }

  /** A k-route query returns exactly min(k, N) routes, N being the number of routes there are. */
  lemma ReturnsMinOfKAndN(b: Problem, k: nat, rs: seq<Path>)
    requires KRoutes(b, k, rs)
    ensures |rs| == if k <= |AllRoutes(b)| then k else |AllRoutes(b)|
  {
    HopSetSize(rs);
    assert HopSet(rs) <= AllRoutes(b) by {
      forall p | p in HopSet(rs)
        ensures p in AllRoutes(b)
      {
        var r :| r in rs && r.hops == p;
        assert b.Priced(r);
        AllRoutesExact(b, p);
      }
    }
    SubsetSize(HopSet(rs), AllRoutes(b));
    if |rs| < k {
      assert HopSet(rs) == AllRoutes(b) by {
        forall p | p in AllRoutes(b)
          ensures p in HopSet(rs)
        {
          AllRoutesExact(b, p);
        }
      }
    }
  }
}
