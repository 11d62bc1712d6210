/**
 What a run may do next always exists: among finitely many feasible walks there is a cheapest
 one, and books after a route has joined or left can be written down.
 */
module CheapestWalks {
  import opened NetworkGraph
  import opened FlowSearch
  import opened FlowAccounting
  import opened RouteFinding
  import PathKey

  // ---------- Finitely many walks ----------

  function Surcharge(ef: EdgeFlow): real {
    if ef.banned then BANNED_PENALTY else 0.0
  }

  ghost function ForwardSteps(n: Net): set<Step> {
    set u, v | u in n.g && v in n.g[u] :: Step(v, n.Latency(u, v) + Surcharge(n.g[u][v]), false)
  }

  ghost function ReverseSteps(n: Net): set<Step> {
    set v, u | v in n.g && u in n.g[v] :: Step(v, Surcharge(n.g[v][u]), true)
  }

  lemma OffersAreSteps(n: Net, u: Node, st: Step)
    requires n.Offers(u, st)
    ensures st in ForwardSteps(n) + ReverseSteps(n)
  {
  }

  /** The sequences of at most k elements. */
  ghost function Sequences<T(!new)>(elements: set<T>, k: nat): set<seq<T>> {
    if k == 0 then {[]} else
    var shorter := Sequences(elements, k - 1);
    shorter + set s, x | s in shorter && x in elements :: s + [x]
  }

  lemma {:induction false} AmongSequences<T(!new)>(elements: set<T>, s: seq<T>, k: nat)
    requires |s| <= k && forall i :: 0 <= i < |s| ==> s[i] in elements
    ensures s in Sequences(elements, k)
  {
    if k > 0 {
      if s == [] {
        AmongSequences(elements, s, k - 1);
      } else {
        AmongSequences(elements, s[..|s| - 1], k - 1);
        assert s == s[..|s| - 1] + [s[|s| - 1]];
      }
    }
  }

  lemma WalksAmong(n: Net, s: Node, w: seq<Step>)
    requires ResidualWalk(n, s, w) && |w| <= MAX_HOPS
    ensures w in Sequences(ForwardSteps(n) + ReverseSteps(n), MAX_HOPS)
  {
    forall i | 0 <= i < |w|
      ensures w[i] in ForwardSteps(n) + ReverseSteps(n)
    {
      OffersAreSteps(n, Visits(s, w)[i], w[i]);
    }
    AmongSequences(ForwardSteps(n) + ReverseSteps(n), w, MAX_HOPS);
  }

  lemma {:induction false} CheapestAmong(ws: set<seq<Step>>) returns (w: seq<Step>)
    requires ws != {}
    ensures w in ws && forall x :: x in ws ==> Cost(w) <= Cost(x)
    decreases |ws|
  {
    w :| w in ws;
    var rest := ws - {w};
    if rest != {} {
      var x := CheapestAmong(rest);
      if Cost(x) < Cost(w) {
        w := x;
      }
    }
  }

  /** Where an unused walk exists, the first attempt finds one. */
  lemma CheapestExists(s: Setting, g: ResGraph, used: set<string>, d: Node, x: seq<Step>) returns (w: seq<Step>)
    requires s.start in g && Walkable(s, g, d, x) && !InUse(s, used, x)
    ensures Finds(s, g, used, 1, RouteBy(s, d, Visits(s.start, w), Cost(w)), w) && Cost(w) <= Cost(x)
    ensures !InUse(s, used, w)
  {
    var n := s.NetOf(g);
    var some := Sequences(ForwardSteps(n) + ReverseSteps(n), MAX_HOPS);
    var all := set y | y in some && Walkable(s, g, d, y) && !InUse(s, used, y);
    forall y | Walkable(s, g, d, y)
      ensures y in some
    {
      WalksAmong(n, s.start, y);
    }
    assert x in all;
    w := CheapestAmong(all);
  }

  // ---------- Books written down ----------

  /** The graph with f applied to the edges of the route. */
  ghost function AlongRoute(g: ResGraph, p: seq<Node>, f: EdgeFlow -> EdgeFlow): (h: ResGraph)
    ensures Along(g, h, p, f)
  {
    map u | u in g :: map v | v in g[u] :: if Uses(p, u, v) then f(g[u][v]) else g[u][v]
  }

  /** The books after p joined. */
  ghost function WithRoute(b: Books, p: PathWithInfo): (b': Books)
    ensures Joined(b, b', p)
  {
    Books(AlongRoute(b.g, p.path, Filled), b.paths + [p], b.count[p.dest := CountAt(b.count, p.dest) + 1],
          b.used + {PathKey.Join(p.path)})
  }
}
