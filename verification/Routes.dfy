/**
 Simple walks: finitely many, no longer than the walks they shorten, and hence a distance
 between any two connected nodes.
 */
module Routes {
  import opened NetworkGraph

  /** All simple walks from u to t whose later nodes are taken from `avail`. */
  ghost function RoutesFrom(g: Graph, u: Node, t: Node, avail: set<Node>): set<seq<Node>>
    decreases |avail|
  {
    if u == t then {[t]}
    else set v, p | v in avail && HasEdge(g, u, v) && p in RoutesFrom(g, v, t, avail - {v}) :: [u] + p
  }

  ghost predicate Within(p: seq<Node>, avail: set<Node>) {
    forall i :: 1 <= i < |p| ==> p[i] in avail
  }

  lemma ConsWalk(g: Graph, u: Node, p: seq<Node>)
    requires |p| >= 1
    ensures IsWalk(g, [u] + p) <==> HasEdge(g, u, p[0]) && IsWalk(g, p)
  {
    var c := [u] + p;
    if IsWalk(g, c) {
      EdgeOfWalk(g, c, 0);
      forall i | 0 <= i && i + 1 < |p|
        ensures HasEdge(g, p[i], p[i + 1])
      {
        EdgeOfWalk(g, c, i + 1);
      }
      WalkFromEdges(g, p);
    }
    if HasEdge(g, u, p[0]) && IsWalk(g, p) {
      forall i | 0 <= i && i + 1 < |c|
        ensures HasEdge(g, c[i], c[i + 1])
      {
        if i > 0 {
          EdgeOfWalk(g, p, i - 1);
        }
      }
      WalkFromEdges(g, c);
    }
  }

  lemma {:induction false} RoutesFromSound(g: Graph, u: Node, t: Node, avail: set<Node>, p: seq<Node>)
    requires u !in avail && p in RoutesFrom(g, u, t, avail)
    ensures IsWalk(g, p) && p[0] == u && p[|p| - 1] == t && Simple(p) && Within(p, avail)
    decreases |avail|
  {
    if u != t {
      var v, q :| v in avail && HasEdge(g, u, v) && q in RoutesFrom(g, v, t, avail - {v}) && p == [u] + q;
      RoutesFromSound(g, v, t, avail - {v}, q);
      ConsWalk(g, u, q);
    }
  }

  lemma {:induction false} RoutesFromComplete(g: Graph, u: Node, t: Node, avail: set<Node>, p: seq<Node>)
    requires IsWalk(g, p) && p[0] == u && p[|p| - 1] == t && Simple(p) && Within(p, avail)
    ensures p in RoutesFrom(g, u, t, avail)
    decreases |p|
  {
    if u == t {
      assert p == [t];
    } else {
      var q := p[1..];
      assert p == [u] + q;
      ConsWalk(g, u, q);
      assert Within(q, avail - {q[0]}) by {
        assert forall i :: 1 <= i < |q| ==> q[i] == p[i + 1];
      }
      RoutesFromComplete(g, q[0], t, avail - {q[0]}, q);
    }
  }

  lemma {:induction false} WalkInNodes(g: Graph, p: seq<Node>)
    requires IsWalk(g, p)
    ensures forall i :: 1 <= i < |p| ==> p[i] in Nodes(g)
  {
    if |p| > 1 {
      WalkInNodes(g, p[..|p| - 1]);
      var e := EdgeTo(g[p[|p| - 2]], p[|p| - 1]);
      assert e in g[p[|p| - 2]];
    }
  }

  // ---------- Walks without detours ----------

  lemma {:induction false} PrefixNoLonger(g: Graph, x: seq<Node>, k: nat, m: Metric)
    requires WellFormed(g) && NonNegative(g, m) && k <= |x|
    ensures Length(g, x[..k], m) <= Length(g, x, m)
    decreases |x|
  {
    if k < |x| {
      PrefixNoLonger(g, x[..|x| - 1], k, m);
      assert x[..|x| - 1][..k] == x[..k];
    } else {
      assert x[..k] == x;
    }
  }

  lemma SuffixWalk(g: Graph, p: seq<Node>, i: nat)
    requires IsWalk(g, p) && i < |p|
    ensures IsWalk(g, p[i..])
  {
    var rest := p[i..];
    forall k | 0 <= k && k + 1 < |rest|
      ensures HasEdge(g, rest[k], rest[k + 1])
    {
      EdgeOfWalk(g, p, i + k);
    }
    WalkFromEdges(g, rest);
  }

  lemma Rejoined<T>(p: seq<T>, i: nat)
    requires i < |p|
    ensures p[..i + 1][i] == p[i..][0] && p[..i + 1][..i] + p[i..] == p
  {
  }

  /** Cutting a walk at one of its nodes. */
  lemma SplitWalk(g: Graph, p: seq<Node>, i: nat, m: Metric)
    requires IsWalk(g, p) && i < |p|
    ensures IsWalk(g, p[..i + 1]) && IsWalk(g, p[i..])
    ensures Length(g, p, m) == Length(g, p[..i + 1], m) + Length(g, p[i..], m)
  {
    PrefixWalk(g, p, i + 1);
    SuffixWalk(g, p, i);
    Rejoined(p, i);
    JoinWalks(g, p[..i + 1], p[i..], m);
  }

  /** r is a simple walk that does not exceed p and visits no other nodes. */
  ghost predicate Shortens(g: Graph, p: seq<Node>, m: Metric, r: seq<Node>)
    requires |p| >= 1
  {
    && IsWalk(g, r) && Simple(r) && r[0] == p[0] && r[|r| - 1] == p[|p| - 1]
    && Length(g, r, m) <= Length(g, p, m) && (forall v :: v in r ==> v in p)
  }

  /** A walk that returns to a node of its shortcut is cut back to it. */
  lemma CutBack(g: Graph, p: seq<Node>, m: Metric, s: seq<Node>, k: nat)
    requires WellFormed(g) && NonNegative(g, m) && |p| >= 2 && Shortens(g, p[..|p| - 1], m, s)
    requires k < |s| && s[k] == p[|p| - 1]
    ensures Shortens(g, p, m, s[..k + 1])
  {
    var r := s[..k + 1];
    PrefixWalk(g, s, k + 1);
    PrefixNoLonger(g, s, k + 1, m);
    PrefixNoLonger(g, p, |p| - 1, m);
    forall v | v in r
      ensures v in p
    {
      assert v in s && v in p[..|p| - 1];
    }
  }

  lemma GrowShortcut(g: Graph, p: seq<Node>, m: Metric, s: seq<Node>)
    requires |p| >= 2 && IsWalk(g, p) && Shortens(g, p[..|p| - 1], m, s) && p[|p| - 1] !in s
    ensures Shortens(g, p, m, s + [p[|p| - 1]])
  {
    ExtendWalk(g, s, p[|p| - 1], m);
    forall v | v in s
      ensures v in p
    {
      assert v in p[..|p| - 1];
    }
  }

  /** Every walk shortens to a simple one between the same ends. */
  lemma {:induction false} Shortcut(g: Graph, p: seq<Node>, m: Metric) returns (r: seq<Node>)
    requires WellFormed(g) && NonNegative(g, m) && IsWalk(g, p)
    ensures Shortens(g, p, m, r)
  {
    if |p| == 1 {
      r := p;
    } else {
      var v := p[|p| - 1];
      r := Shortcut(g, p[..|p| - 1], m);
      if v in r {
        var k :| 0 <= k < |r| && r[k] == v;
        CutBack(g, p, m, r, k);
        r := r[..k + 1];
      } else {
        GrowShortcut(g, p, m, r);
        r := r + [v];
      }
    }
  }

  /** A shortcut steps on no forbidden node that the walk avoids. */
  lemma ShortcutAvoids(p: seq<Node>, r: seq<Node>, forbidden: set<Node>)
    requires |p| >= 1 && |r| >= 1 && Simple(r) && r[0] == p[0] && (forall v :: v in r ==> v in p)
    requires Avoids(p, forbidden)
    ensures Avoids(r, forbidden)
  {
    forall i | 1 <= i < |r|
      ensures r[i] !in forbidden
    {
      assert r[i] in p && r[i] != r[0];
    }
  }

  // ---------- Distances ----------

  ghost predicate IsDistance(g: Graph, forbidden: set<Node>, s: Node, t: Node, m: Metric, d: real) {
    && (exists p :: Connects(g, forbidden, s, t, p) && Length(g, p, m) == d)
    && (forall p :: Connects(g, forbidden, s, t, p) ==> d <= Length(g, p, m))
  }

  lemma {:induction false} ShortestOf(g: Graph, ps: set<seq<Node>>, m: Metric) returns (r: seq<Node>)
    requires ps != {}
    ensures r in ps && forall p :: p in ps ==> Length(g, r, m) <= Length(g, p, m)
    decreases |ps|
  {
    r :| r in ps;
    if ps != {r} {
      var s := ShortestOf(g, ps - {r}, m);
      if Length(g, s, m) < Length(g, r, m) {
        r := s;
      }
    }
  }

  lemma DistanceExists(g: Graph, forbidden: set<Node>, s: Node, t: Node, m: Metric)
    requires WellFormed(g) && NonNegative(g, m) && exists p :: Connects(g, forbidden, s, t, p)
    ensures exists d :: IsDistance(g, forbidden, s, t, m, d)
  {
    var avail := Nodes(g) - {s} - forbidden;
    var all := RoutesFrom(g, s, t, avail);
    forall p | Connects(g, forbidden, s, t, p)
      ensures exists r :: r in all && Length(g, r, m) <= Length(g, p, m)
    {
      var r := ShortRoute(g, forbidden, s, t, m, p);
    }
    var p :| Connects(g, forbidden, s, t, p);
    var best := ShortestOf(g, all, m);
    RoutesFromSound(g, s, t, avail, best);
    assert Connects(g, forbidden, s, t, best);
    assert IsDistance(g, forbidden, s, t, m, Length(g, best, m));
  }

  lemma ShortRoute(g: Graph, forbidden: set<Node>, s: Node, t: Node, m: Metric, p: seq<Node>) returns (r: seq<Node>)
    requires WellFormed(g) && NonNegative(g, m) && Connects(g, forbidden, s, t, p)
    ensures r in RoutesFrom(g, s, t, Nodes(g) - {s} - forbidden) && Length(g, r, m) <= Length(g, p, m)
  {
    r := Shortcut(g, p, m);
    ShortcutAvoids(p, r, forbidden);
    WalkInNodes(g, r);
    RoutesFromComplete(g, s, t, Nodes(g) - {s} - forbidden, r);
  }

  /** The length of a shortest walk from s to t around the forbidden nodes. */
  ghost function Distance(g: Graph, forbidden: set<Node>, s: Node, t: Node, m: Metric): (d: real)
    requires WellFormed(g) && NonNegative(g, m) && exists p :: Connects(g, forbidden, s, t, p)
    ensures IsDistance(g, forbidden, s, t, m, d)
  {
    DistanceExists(g, forbidden, s, t, m);
    var d :| IsDistance(g, forbidden, s, t, m, d);
    d
  }
}
