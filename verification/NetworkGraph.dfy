/**
 The directed network the routing solvers work on: adjacency lists of telemetry edges,
 walks through them, and the price of a walk under either of the two metrics the
 solvers use (edge weight or latency).
 */
module NetworkGraph {

  type Node = string

  /** A directed edge as the telemetry reports it. */
  datatype Edge = Edge(source: Node, destination: Node, weight: real, load: real, latency: real)

  /** The textual key of an edge. */
  function EdgeKey(u: Node, v: Node): string {
    u + "->" + v
  }

  /** Adjacency lists, keyed by source. */
  type Graph = map<Node, seq<Edge>>

  /** Which edge attribute a search minimises. */
  datatype Metric = ByWeight | ByLatency

  const ALPHA := 1.0

  function Price(e: Edge, m: Metric): real {
    (if m == ByLatency then e.latency else e.weight) * ALPHA
  }

  function Nodes(g: Graph): set<Node> {
    g.Keys + (set u, e | u in g && e in g[u] :: e.destination)
  }

  predicate HasEdge(g: Graph, u: Node, v: Node) {
    u in g && exists e :: e in g[u] && e.destination == v
  }

  /** Every list is stored under its own source, and no two edges share both endpoints. */
  ghost predicate WellFormed(g: Graph) {
    forall u :: u in g ==>
      && u != ""
      && (forall e :: e in g[u] ==> e.source == u && e.destination != "")
      && (forall e, f :: e in g[u] && f in g[u] && e.destination == f.destination ==> e == f)
  }

  ghost predicate NonNegative(g: Graph, m: Metric) {
    forall u, e :: u in g && e in g[u] ==> Price(e, m) >= 0.0
  }

  ghost function EdgeTo(es: seq<Edge>, v: Node): (e: Edge)
    requires exists e :: e in es && e.destination == v
    ensures e in es && e.destination == v
  {
    var e :| e in es && e.destination == v;
    e
  }

  /** The price of the edge u->v; meaningful where the edge exists. */
  ghost function Weight(g: Graph, u: Node, v: Node, m: Metric): real {
    if HasEdge(g, u, v) then Price(EdgeTo(g[u], v), m) else 0.0
  }

  lemma WeightOfEdge(g: Graph, u: Node, e: Edge, m: Metric)
    requires WellFormed(g) && u in g && e in g[u]
    ensures HasEdge(g, u, e.destination) && Weight(g, u, e.destination, m) == Price(e, m)
  {
  }

  /** A non-empty node sequence whose consecutive nodes are joined by edges. */
  ghost predicate IsWalk(g: Graph, p: seq<Node>) {
    |p| >= 1 && (|p| > 1 ==> IsWalk(g, p[..|p| - 1]) && HasEdge(g, p[|p| - 2], p[|p| - 1]))
  }

  /** The total price of the edges along a node sequence. */
  ghost function Length(g: Graph, p: seq<Node>, m: Metric): real {
    if |p| <= 1 then 0.0 else Length(g, p[..|p| - 1], m) + Weight(g, p[|p| - 2], p[|p| - 1], m)
  }

  /** No node after the first is forbidden. */
  ghost predicate Avoids(p: seq<Node>, forbidden: set<Node>) {
    forall i :: 1 <= i < |p| ==> p[i] !in forbidden
  }

  ghost predicate Simple(p: seq<Node>) {
    forall i, j :: 0 <= i < j < |p| ==> p[i] != p[j]
  }

  /** p leads from s to t without stepping on a forbidden node. */
  ghost predicate Connects(g: Graph, forbidden: set<Node>, s: Node, t: Node, p: seq<Node>) {
    IsWalk(g, p) && p[0] == s && p[|p| - 1] == t && Avoids(p, forbidden)
  }

  /** The routes a routing query may answer with. */
  ghost predicate SimplePath(g: Graph, s: Node, t: Node, p: seq<Node>) {
    Connects(g, {}, s, t, p) && Simple(p)
  }

  lemma {:induction false} LengthNonNegative(g: Graph, p: seq<Node>, m: Metric)
    requires WellFormed(g) && NonNegative(g, m)
    ensures Length(g, p, m) >= 0.0
  {
    if |p| > 1 {
      LengthNonNegative(g, p[..|p| - 1], m);
    }
  }

  /** Appending one edge to a walk. */
  lemma ExtendWalk(g: Graph, p: seq<Node>, v: Node, m: Metric)
    requires IsWalk(g, p) && HasEdge(g, p[|p| - 1], v)
    ensures IsWalk(g, p + [v])
    ensures Length(g, p + [v], m) == Length(g, p, m) + Weight(g, p[|p| - 1], v, m)
  {
    assert (p + [v])[..|p|] == p;
  }

  lemma {:induction false} EdgeOfWalk(g: Graph, p: seq<Node>, i: nat)
    requires IsWalk(g, p) && i + 1 < |p|
    ensures HasEdge(g, p[i], p[i + 1])
    decreases |p|
  {
    if i + 2 < |p| {
      EdgeOfWalk(g, p[..|p| - 1], i);
    }
  }

  lemma {:induction false} PrefixWalk(g: Graph, p: seq<Node>, n: nat)
    requires IsWalk(g, p) && 1 <= n <= |p|
    ensures IsWalk(g, p[..n])
    decreases |p|
  {
    if n < |p| {
      PrefixWalk(g, p[..|p| - 1], n);
      assert p[..|p| - 1][..n] == p[..n];
    } else {
      assert p[..n] == p;
    }
  }

  lemma PrefixConnects(g: Graph, forbidden: set<Node>, s: Node, t: Node, p: seq<Node>, i: nat)
    requires Connects(g, forbidden, s, t, p) && i < |p|
    ensures Connects(g, forbidden, s, p[i], p[..i + 1])
  {
    PrefixWalk(g, p, i + 1);
  }

  /** A sequence is a walk as soon as each of its steps is an edge. */
  lemma {:induction false} WalkFromEdges(g: Graph, p: seq<Node>)
    requires |p| >= 1
    requires forall i :: 0 <= i && i + 1 < |p| ==> HasEdge(g, p[i], p[i + 1])
    ensures IsWalk(g, p)
  {
    if |p| > 1 {
      var q := p[..|p| - 1];
      forall i | 0 <= i && i + 1 < |q|
        ensures HasEdge(g, q[i], q[i + 1])
      {
        assert HasEdge(g, p[i], p[i + 1]);
      }
      WalkFromEdges(g, q);
      assert HasEdge(g, p[|p| - 2], p[|p| - 2 + 1]);
    }
  }

  /** Only the edges a walk uses matter to whether it is a walk and what it costs. */
  lemma {:induction false} SameEdges(g: Graph, h: Graph, p: seq<Node>, m: Metric)
    requires IsWalk(g, p)
    requires forall i :: 0 <= i < |p| - 1 && p[i] in g ==> p[i] in h && g[p[i]] == h[p[i]]
    ensures IsWalk(h, p) && Length(h, p, m) == Length(g, p, m)
  {
    if |p| > 1 {
      var u := p[|p| - 2];
      SameEdges(g, h, p[..|p| - 1], m);
      assert u in g && u in h && g[u] == h[u];
    }
  }

  /** Joining two walks at a shared node adds their lengths. */
  lemma {:induction false} JoinWalks(g: Graph, p: seq<Node>, q: seq<Node>, m: Metric)
    requires IsWalk(g, p) && IsWalk(g, q) && p[|p| - 1] == q[0]
    ensures IsWalk(g, p[..|p| - 1] + q)
    ensures Length(g, p[..|p| - 1] + q, m) == Length(g, p, m) + Length(g, q, m)
    decreases |q|
  {
    if |q| == 1 {
      assert p[..|p| - 1] + q == p;
    } else {
      var q' := q[..|q| - 1];
      JoinWalks(g, p, q', m);
      var r := p[..|p| - 1] + q';
      assert r + [q[|q| - 1]] == p[..|p| - 1] + q;
      assert r[|r| - 1] == q'[|q'| - 1];
      ExtendWalk(g, r, q[|q| - 1], m);
    }
  }
}
