/**
 The residual network of the multi-destination flow solver and the branch-and-bound
 depth-first search over it. A step follows an edge with capacity left, or an edge
 carrying flow against its direction.
 */
module FlowSearch {
  import opened NetworkGraph
  import opened Wrappers
  import PathKey
  import Sorting

  const MAX_HOPS := 30
  const BANNED_PENALTY := 100.0
  /** The largest 64-bit float, the latency of an edge nobody reported. */
  const UNKNOWN_LATENCY: real :=
    179769313486231570814527423731704356798070567525844996598917476803157260780028538760589558632766878171540458953514382464234321326889464182768467546703537516986049910576551282076245490090389328944075868508455133942304583236903222948165808559332123348274797826204144723168738177180919299881250404026184124858368.0

  /** Flow bookkeeping of one edge. */
  datatype EdgeFlow = EdgeFlow(flow: real, cap: real, thetaA: real, effCap: real, banned: bool, residual: real)

  type ResGraph = map<Node, map<Node, EdgeFlow>>

  /** What a search reads: the residual graph, the node set and the reported latencies. */
  datatype Net = Net(g: ResGraph, nodes: set<Node>, latencies: map<string, real>) {
    predicate Has(u: Node, v: Node) {
      u in g && v in g[u]
    }

    function Latency(u: Node, v: Node): real {
      if EdgeKey(u, v) in latencies then latencies[EdgeKey(u, v)] else UNKNOWN_LATENCY
    }

    ghost predicate NonNegative() {
      forall k :: k in latencies ==> latencies[k] >= 0.0
    }

    /** A move the residual network offers at u, with its price. */
    ghost predicate Offers(u: Node, st: Step) {
      if st.reverse
      then st.to in nodes && st.to != u && Has(st.to, u) && g[st.to][u].flow > 0.0
           && st.cost == (if g[st.to][u].banned then BANNED_PENALTY else 0.0)
      else Has(u, st.to) && g[u][st.to].residual > 0.0
           && st.cost == Latency(u, st.to) + (if g[u][st.to].banned then BANNED_PENALTY else 0.0)
    }
  }

  datatype Step = Step(to: Node, cost: real, reverse: bool)

  function StepCost(st: Step): real {
    st.cost
  }

  // ---------- Residual walks ----------

  /** The nodes visited when the steps are taken from s. */
  function Visits(s: Node, w: seq<Step>): (p: seq<Node>)
    ensures |p| == |w| + 1 && p[0] == s
    ensures forall i :: 0 <= i < |w| ==> p[i + 1] == w[i].to
  {
    if |w| == 0 then [s] else Visits(s, w[..|w| - 1]) + [w[|w| - 1].to]
  }

  ghost function Cost(w: seq<Step>): real {
    if |w| == 0 then 0.0 else Cost(w[..|w| - 1]) + w[|w| - 1].cost
  }

  /** The residual network offers every step, and no node is visited twice. */
  ghost predicate ResidualWalk(n: Net, s: Node, w: seq<Step>) {
    && (forall i :: 0 <= i < |w| ==> n.Offers(Visits(s, w)[i], w[i]))
    && Simple(Visits(s, w))
  }

  /** A walk from s to t with at most MAX_HOPS nodes within the latency bound. */
  ghost predicate Feasible(n: Net, s: Node, t: Node, thetaL: real, w: seq<Step>) {
    && ResidualWalk(n, s, w) && Visits(s, w)[|w|] == t
    && |w| + 1 <= MAX_HOPS && Cost(w) <= thetaL
  }

  lemma {:induction false} CostSplit(w: seq<Step>, k: nat)
    requires k <= |w| && forall i :: 0 <= i < |w| ==> w[i].cost >= 0.0
    ensures Cost(w[..k]) <= Cost(w)
  {
    if k < |w| {
      CostSplit(w[..|w| - 1], k);
      assert w[..|w| - 1][..k] == w[..k];
    } else {
      assert w[..k] == w;
    }
  }

  lemma OfferedCosts(n: Net, s: Node, w: seq<Step>)
    requires n.NonNegative() && ResidualWalk(n, s, w)
    ensures forall i :: 0 <= i < |w| ==> w[i].cost >= 0.0
  {
    forall i | 0 <= i < |w|
      ensures w[i].cost >= 0.0
    {
      assert n.Offers(Visits(s, w)[i], w[i]);
    }
  }

  /** A walk costs at least as much as any of its beginnings. */
  lemma PrefixCost(n: Net, s: Node, pre: seq<Step>, w: seq<Step>)
    requires n.NonNegative() && ResidualWalk(n, s, w) && pre <= w
    ensures Cost(pre) <= Cost(w)
  {
    OfferedCosts(n, s, w);
    CostSplit(w, |pre|);
    assert pre == w[..|pre|];
  }

  /** Extending a walk by an offered step to a fresh node. */
  lemma GrowResidualWalk(n: Net, s: Node, w: seq<Step>, st: Step)
    requires ResidualWalk(n, s, w) && n.Offers(Visits(s, w)[|w|], st) && st.to !in Visits(s, w)
    ensures ResidualWalk(n, s, w + [st]) && Visits(s, w + [st]) == Visits(s, w) + [st.to]
    ensures Cost(w + [st]) == Cost(w) + st.cost
  {
    assert (w + [st])[..|w|] == w;
    assert Visits(s, w + [st]) == Visits(s, w) + [st.to];
  }

  // ---------- Edges out of a node ----------

  /** All moves offered at u, cheapest first. Map order is arbitrary in the source. */
  method GetSortedEdges(n: Net, u: Node) returns (r: seq<Step>)
    ensures forall st :: st in r <==> n.Offers(u, st)
    ensures Sorting.SortedBy(r, StepCost)
  {
    var edges: seq<Step> := [];
    var keys := if u in n.g then n.g[u].Keys else {};
    ghost var all := keys;
    while keys != {}
      invariant keys <= all
      invariant forall st :: st in edges <==> !st.reverse && n.Offers(u, st) && st.to !in keys
      decreases keys
    {
      var v :| v in keys;
      keys := keys - {v};
      var ef := n.g[u][v];
      if ef.residual > 0.0 {
        edges := edges + [Step(v, n.Latency(u, v) + (if ef.banned then BANNED_PENALTY else 0.0), false)];
      }
    }
    ghost var forward := edges;
    var rest := n.nodes;
    while rest != {}
      invariant rest <= n.nodes
      invariant forall st :: st in edges <==> st in forward || (st.reverse && n.Offers(u, st) && st.to !in rest)
      decreases rest
    {
      var v :| v in rest;
      rest := rest - {v};
      if v != u && n.Has(v, u) && n.g[v][u].flow > 0.0 {
        edges := edges + [Step(v, if n.g[v][u].banned then BANNED_PENALTY else 0.0, true)];
      }
    }
    r := Sorting.ExchangeSort(edges, StepCost);
    Sorting.PermutationMembers(edges, r);
  }

  /** A Fisher-Yates pass with arbitrary draws. */
  method Shuffle<T>(a: seq<T>) returns (r: seq<T>)
    ensures multiset(r) == multiset(a)
  {
    r := a;
    var j := |a| - 1;
    while j > 0
      invariant |r| == |a| && multiset(r) == multiset(a) && -1 <= j < |a|
    {
      var k :| 0 <= k <= j;
      r := r[j := r[k]][k := r[j]];
      j := j - 1;
    }
  }

  // ---------- Facts about completions ----------

  /** A walk that stands on t already has no longer completion. */
  lemma CompletionAtTarget(n: Net, s: Node, t: Node, pre: seq<Step>, w: seq<Step>)
    requires ResidualWalk(n, s, w) && pre <= w && Visits(s, pre)[|pre|] == t && Visits(s, w)[|w|] == t
    ensures w == pre
  {
    assert Visits(s, w)[|pre|] == t by {
      VisitsPrefix(s, pre, w);
    }
  }

  lemma {:induction false} VisitsPrefix(s: Node, pre: seq<Step>, w: seq<Step>)
    requires pre <= w
    ensures Visits(s, pre) == Visits(s, w)[..|pre| + 1]
  {
    if |pre| < |w| {
      VisitsPrefix(s, pre, w[..|w| - 1]);
    } else {
      assert pre == w;
    }
  }

  /** A completion of a walk that is not at t takes a next step, offered there, to a fresh node. */
  lemma NextStep(n: Net, s: Node, t: Node, pre: seq<Step>, w: seq<Step>)
    requires ResidualWalk(n, s, w) && pre <= w && Visits(s, pre)[|pre|] != t && Visits(s, w)[|w|] == t
    ensures |w| > |pre| && n.Offers(Visits(s, pre)[|pre|], w[|pre|])
    ensures w[|pre|].to !in Visits(s, pre)
  {
    VisitsPrefix(s, pre, w);
    var v := Visits(s, w);
    assert Visits(s, pre)[|pre|] == v[|pre|];
    assert |w| > |pre|;
    assert n.Offers(v[|pre|], w[|pre|]);
    FreshNext(v, |pre|);
    assert v[|pre| + 1] == w[|pre|].to;
  }

  lemma PrefixSnoc<T>(pre: seq<T>, w: seq<T>)
    requires pre <= w && |pre| < |w|
    ensures pre + [w[|pre|]] <= w
  {
    assert w[..|pre| + 1] == pre + [w[|pre|]];
  }

  lemma FreshNext(v: seq<Node>, k: nat)
    requires Simple(v) && k + 1 < |v|
    ensures v[k + 1] !in v[..k + 1]
  {
  }

  /** No walk continues by returning to a node it has visited. */
  lemma RevisitImpossible(n: Net, s: Node, pre: seq<Step>, st: Step, w: seq<Step>)
    requires st.to in Visits(s, pre) && pre + [st] <= w
    ensures !ResidualWalk(n, s, w)
  {
    VisitsPrefix(s, pre, w);
    var v := Visits(s, w);
    assert w[|pre|] == (pre + [st])[|pre|] == st;
    assert v[|pre| + 1] == st.to;
    var i :| 0 <= i <= |pre| && Visits(s, pre)[i] == st.to;
    assert v[i] == v[|pre| + 1];
  }

  /** Any walk that continues with this step pays for it. */
  lemma ContinuationCost(n: Net, s: Node, pre: seq<Step>, st: Step, w: seq<Step>)
    requires n.NonNegative() && ResidualWalk(n, s, w) && pre + [st] <= w
    ensures Cost(pre) + st.cost <= Cost(w)
  {
    PrefixCost(n, s, pre + [st], w);
    assert (pre + [st])[..|pre|] == pre;
  }

  lemma LastIsNew(p: seq<Node>, u: Node)
    requires Simple(p + [u])
    ensures u !in p
  {
    forall i | 0 <= i < |p|
      ensures p[i] != u
    {
      assert (p + [u])[i] == p[i] && (p + [u])[|p|] == u;
    }
  }

  /**
   The search and its working state. `visited` and `path` describe the branch being
   explored; `bestPath` and `bestLatency` are the incumbent, and the ghost `bestWalk`
   remembers by which steps it was reached.
   */
  class PathSearch {
    const n: Net
    const s: Node
    const t: Node
    const thetaL: real
    const used: set<string>
    const optimize: bool
    const randomize: bool

    var visited: set<Node>
    var path: seq<Node>
    var bestPath: Option<seq<Node>>
    var bestLatency: real
    ghost var bestWalk: seq<Step>

    constructor (n: Net, s: Node, t: Node, thetaL: real, used: set<string>, optimize: bool, randomize: bool)
      ensures this.n == n && this.s == s && this.t == t && this.thetaL == thetaL && this.used == used
      ensures this.optimize == optimize && this.randomize == randomize
      ensures visited == {} && path == [] && bestPath == None && bestLatency == thetaL + 1.0
    {
      this.n, this.s, this.t, this.thetaL, this.used := n, s, t, thetaL, used;
      this.optimize, this.randomize := optimize, randomize;
      visited, path, bestPath, bestLatency := {}, [], None, thetaL + 1.0;
    }

    /** Feasible, and in optimising mode not among the used routes. */
    ghost predicate Eligible(w: seq<Step>) {
      Feasible(n, s, t, thetaL, w) && (optimize ==> PathKey.Join(Visits(s, w)) !in used)
    }

    ghost predicate Incumbent()
      reads this
    {
      match bestPath
      case None => bestLatency == thetaL + 1.0
      case Some(p) => Eligible(bestWalk) && p == Visits(s, bestWalk) && bestLatency == Cost(bestWalk)
    }

    /** The branch being explored is the walk `pre`, which stands on u. */
    ghost predicate Exploring(u: Node, current: real, pre: seq<Step>)
      reads this
    {
      && n.NonNegative() && ResidualWalk(n, s, pre)
      && path + [u] == Visits(s, pre) && current == Cost(pre)
      && (forall x :: x in visited <==> x in path)
    }

    /** Optimising mode: no eligible completion of `pre` beats the incumbent. */
    ghost predicate Beaten(pre: seq<Step>, best: real) {
      forall w {:trigger Eligible(w)} :: pre <= w && Eligible(w) ==> best <= Cost(w)
    }

    /** After trying the first i moves: none of them leads to a better walk, or to any. */
    ghost predicate Tried(pre: seq<Step>, edges: seq<Step>, i: nat, best: real)
      requires i <= |edges|
    {
      forall j :: 0 <= j < i ==> Settled(pre, edges[j], best)
    }

    /** Behind this move there is no better walk, or none at all. */
    ghost predicate Settled(pre: seq<Step>, st: Step, best: real) {
      if optimize then Beaten(pre + [st], best) else Hopeless(pre + [st])
    }

    lemma SettledForLess(pre: seq<Step>, st: Step, before: real, best: real)
      requires best <= before && Settled(pre, st, before)
      ensures Settled(pre, st, best)
    {
    }

    lemma TriedForLess(pre: seq<Step>, edges: seq<Step>, i: nat, before: real, best: real)
      requires i <= |edges| && best <= before && Tried(pre, edges, i, before)
      ensures Tried(pre, edges, i, best)
    {
      forall j | 0 <= j < i {
        SettledForLess(pre, edges[j], before, best);
      }
    }

    lemma TriedOneMore(pre: seq<Step>, edges: seq<Step>, i: nat, before: real, best: real)
      requires i < |edges| && best <= before && Tried(pre, edges, i, before)
      requires Settled(pre, edges[i], best)
      ensures Tried(pre, edges, i + 1, best)
    {
      TriedForLess(pre, edges, i, before, best);
    }

    /** Exploring mode: `pre` has no eligible completion. */
    ghost predicate Hopeless(pre: seq<Step>) {
      forall w {:trigger Eligible(w)} :: pre <= w ==> !Eligible(w)
    }

    method Dfs(u: Node, current: real, ghost pre: seq<Step>) returns (found: bool)
      requires Exploring(u, current, pre) && Incumbent()
      modifies this
      ensures path == old(path) && visited == old(visited)
      ensures Incumbent()
      ensures optimize ==> !found && bestLatency <= old(bestLatency) && Beaten(pre, bestLatency)
      ensures !optimize ==>
                if found then bestPath.Some?
                else Hopeless(pre) && bestPath == old(bestPath) && bestLatency == old(bestLatency)
      decreases MAX_HOPS + 1 - |path|, 0
    {
      if |path| >= MAX_HOPS {
        TooLong(pre);
        return false;
      }
      if u == t {
        found := AtTarget(u, current, pre);
        return;
      }
      LastIsNew(path, u);
      visited := visited + {u};
      path := path + [u];
      assert u == Visits(s, pre)[|pre|];
      var edges := Moves(u);
      found := Branch(u, current, edges, pre);
      path := path[..|path| - 1];
      visited := visited - {u};
    }

    /** A branch with too many nodes has no feasible completion. */
    lemma TooLong(pre: seq<Step>)
      requires |pre| >= MAX_HOPS
      ensures Hopeless(pre) && forall best :: Beaten(pre, best)
    {
    }

    /** The moves at u, cheapest first or shuffled. */
    method Moves(u: Node) returns (edges: seq<Step>)
      ensures forall st :: st in edges <==> n.Offers(u, st)
    {
      edges := GetSortedEdges(n, u);
      if randomize {
        ghost var ordered := edges;
        edges := Shuffle(edges);
        Sorting.PermutationMembers(ordered, edges);
      }
    }

    /** The branch that reached u is within the bound and, in optimising mode, unused and better than the incumbent. */
    ghost predicate Accepts(u: Node, current: real)
      reads this
    {
      current <= thetaL && (optimize ==> current < bestLatency && PathKey.Join(path + [u]) !in used)
    }

    /** The destination is reached: the branch becomes the incumbent exactly when it is accepted. */
    method AtTarget(u: Node, current: real, ghost pre: seq<Step>) returns (found: bool)
      requires Exploring(u, current, pre) && Incumbent() && u == t && |path| < MAX_HOPS
      modifies this`bestPath, this`bestLatency, this`bestWalk
      ensures Incumbent()
      ensures if old(Accepts(u, current)) then bestPath == Some(path + [u]) && bestLatency == current
              else bestPath == old(bestPath) && bestLatency == old(bestLatency)
      ensures found <==> !optimize && old(Accepts(u, current))
      ensures if optimize then Beaten(pre, bestLatency) else found || Hopeless(pre)
    {
      forall w | pre <= w && Eligible(w)
        ensures w == pre
      {
        CompletionAtTarget(n, s, t, pre, w);
      }
      found := false;
      if current <= thetaL {
        if optimize {
          if current < bestLatency {
            var candidate := path + [u];
            if PathKey.Join(candidate) !in used {
              bestLatency, bestPath, bestWalk := current, Some(candidate), pre;
            }
          }
        } else {
          bestLatency, bestPath, bestWalk := current, Some(path + [u]), pre;
          found := true;
        }
      }
    }

    lemma SkipVisited(pre: seq<Step>, st: Step, best: real)
      requires st.to in Visits(s, pre)
      ensures Hopeless(pre + [st]) && Beaten(pre + [st], best)
    {
      forall w | pre + [st] <= w
        ensures !ResidualWalk(n, s, w)
      {
        RevisitImpossible(n, s, pre, st, w);
      }
    }

    lemma SkipDear(pre: seq<Step>, st: Step, best: real)
      requires n.NonNegative()
      ensures Cost(pre) + st.cost >= best ==> Beaten(pre + [st], best)
      ensures Cost(pre) + st.cost > thetaL ==> Hopeless(pre + [st]) && Beaten(pre + [st], best)
    {
      forall w | pre + [st] <= w && Eligible(w)
        ensures Cost(pre) + st.cost <= Cost(w)
      {
        ContinuationCost(n, s, pre, st, w);
      }
    }

    /** What holds behind every offered step holds for the branch. */
    lemma AllStepsTried(pre: seq<Step>, edges: seq<Step>, best: real)
      requires Visits(s, pre)[|pre|] != t
      requires forall st :: n.Offers(Visits(s, pre)[|pre|], st) ==> st in edges
      requires Tried(pre, edges, |edges|, best)
      ensures if optimize then Beaten(pre, best) else Hopeless(pre)
    {
      forall w | pre <= w && Eligible(w)
        ensures exists j :: 0 <= j < |edges| && pre + [edges[j]] <= w
      {
        NextStep(n, s, t, pre, w);
        PrefixSnoc(pre, w);
        var j :| 0 <= j < |edges| && edges[j] == w[|pre|];
        assert pre + [edges[j]] <= w;
      }
    }

    /** Trying the moves at u one after the other. */
    method Branch(u: Node, current: real, edges: seq<Step>, ghost pre: seq<Step>) returns (found: bool)
      requires n.NonNegative() && ResidualWalk(n, s, pre) && Incumbent()
      requires path == Visits(s, pre) && current == Cost(pre) && u == Visits(s, pre)[|pre|] && u != t
      requires forall x :: x in visited <==> x in path
      requires forall st :: st in edges <==> n.Offers(u, st)
      requires |path| <= MAX_HOPS
      modifies this
      ensures path == old(path) && visited == old(visited)
      ensures Incumbent()
      ensures optimize ==> !found && bestLatency <= old(bestLatency) && Beaten(pre, bestLatency)
      ensures !optimize ==>
                if found then bestPath.Some?
                else Hopeless(pre) && bestPath == old(bestPath) && bestLatency == old(bestLatency)
      decreases MAX_HOPS + 1 - |path|, 1
    {
      found := false;
      for i := 0 to |edges|
        invariant path == old(path) && visited == old(visited)
        invariant Incumbent() && !found
        invariant optimize ==> bestLatency <= old(bestLatency)
        invariant !optimize ==> bestPath == old(bestPath) && bestLatency == old(bestLatency)
        invariant Tried(pre, edges, i, bestLatency)
      {
        var ei := edges[i];
        ghost var before := bestLatency;
        assert n.Offers(u, ei);
        if ei.to in visited {
          SkipVisited(pre, ei, bestLatency);
          TriedOneMore(pre, edges, i, before, bestLatency);
          continue;
        }
        GrowResidualWalk(n, s, pre, ei);
        SkipDear(pre, ei, bestLatency);
        if optimize && current + ei.cost >= bestLatency {
          TriedOneMore(pre, edges, i, before, bestLatency);
          continue;
        }
        if current + ei.cost > thetaL {
          TriedOneMore(pre, edges, i, before, bestLatency);
          continue;
        }
        found := Dfs(ei.to, current + ei.cost, pre + [ei]);
        if found && !optimize {
          return;
        }
        TriedOneMore(pre, edges, i, before, bestLatency);
      }
      AllStepsTried(pre, edges, bestLatency);
    }
  }

  /**
   One search. In optimising mode it returns a cheapest eligible walk, in exploring mode some
   feasible walk for every shuffle, and nothing exactly when there is none.
   */
  method DfsPathSearch(n: Net, s: Node, t: Node, thetaL: real, used: set<string>, optimize: bool, randomize: bool)
    returns (r: Option<(seq<Node>, real)>, ghost w: seq<Step>)
    requires n.NonNegative()
    ensures r.None? ==> forall x :: Feasible(n, s, t, thetaL, x) ==> optimize && PathKey.Join(Visits(s, x)) in used
    ensures r.Some? ==>
              && Feasible(n, s, t, thetaL, w) && r.value == (Visits(s, w), Cost(w))
              && (optimize ==> PathKey.Join(Visits(s, w)) !in used)
    ensures r.Some? && optimize ==>
              forall x :: Feasible(n, s, t, thetaL, x) && PathKey.Join(Visits(s, x)) !in used ==> Cost(w) <= Cost(x)
  {
    var search := new PathSearch(n, s, t, thetaL, used, optimize, randomize);
    assert Visits(s, []) == [s];
    var found := search.Dfs(s, 0.0, []);
    w := search.bestWalk;
    forall x | Feasible(n, s, t, thetaL, x) && (optimize ==> PathKey.Join(Visits(s, x)) !in used)
      ensures search.bestPath.Some? && (optimize ==> search.bestLatency <= Cost(x))
    {
      assert [] <= x && search.Eligible(x);
    }
    if search.bestPath.Some? {
      r := Some((search.bestPath.value, search.bestLatency));
    } else {
      r := None;
    }
  }
}
