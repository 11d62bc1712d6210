/**
 Every initial solution has a complete run of the carousel: from any state in order a turn can
 be taken, whatever the search has to say, and the run can go on until it is finished.
 */
module CompleteRuns {
  import opened NetworkGraph
  import opened Wrappers
  import opened FlowSearch
  import opened FlowAccounting
  import opened Carousel
  import opened RouteFinding
  import opened CarouselTurns
  import opened FlowSolver
  import opened CheapestWalks
  import opened TrustedRuns
  import PathKey

  // ---------- A turn ----------

  /** The books after the oldest route left. */
  ghost function WithoutOldest(b: Books): (b': Books)
    requires b.paths != []
    ensures OldestLeft(b, b')
  {
    var p := b.paths[0];
    Books(AlongRoute(b.g, p.path, Released), b.paths[1..], b.count[p.dest := CountAt(b.count, p.dest) - 1],
          b.used - {PathKey.Join(p.path)})
  }

  lemma DropKeepsRunning(s: Setting, built: ResGraph, b: Books, b': Books)
    requires Running(s, built, b) && OldestLeft(b, b')
    ensures Running(s, built, b') && (Unbanned(b.g) ==> Unbanned(b'.g))
  {
    RemoveKeepsAccounts(s.start, s.thetaL, b, b'.g);
    FilledKeepsRatings();
    FlowKeepsShape(built, b.g, b'.g, b.paths[0].path, Released);
    assert forall p :: p in b'.paths ==> p in b.paths;
  }

  lemma {:induction false} LargestKey(freq: map<string, nat>, keys: set<string>) returns (k: string)
    requires keys != {} && keys <= freq.Keys
    ensures k in keys && forall x :: x in keys ==> freq[x] <= freq[k]
    decreases |keys|
  {
    k :| k in keys;
    var rest := keys - {k};
    if rest != {} {
      var x := LargestKey(freq, rest);
      if freq[k] < freq[x] {
        k := x;
      }
    }
  }

  lemma MostFrequentExists(s: Setting, acc: PathAccumulator) returns (r: Option<PathWithInfo>)
    requires acc.Valid(s.start, s.thetaL)
    ensures MostFrequent(acc, r) && (r.Some? ==> GoodPath(s.start, s.thetaL, r.value))
  {
    if acc.freq == map[] {
      r := None;
    } else {
      assert acc.freq.Keys != {} by {
        var k :| k in acc.freq;
      }
      var k := LargestKey(acc.freq, acc.freq.Keys);
      assert k in acc.paths;
      r := Some(acc.paths[k]);
    }
  }

  ghost function WithBans(b: Books, freq: Option<PathWithInfo>, oldest: PathWithInfo): (b': Books)
    ensures Marked(b, b', freq, oldest)
  {
    b.(g := map u | u in b.g :: map v | v in b.g[u] ::
              if Discouraged(freq, oldest, u, v) then Banned(b.g[u][v]) else b.g[u][v])
  }

  lemma BansKeepRunning(s: Setting, built: ResGraph, b: Books, b': Books, freq: Option<PathWithInfo>,
                        oldest: PathWithInfo)
    requires Running(s, built, b) && Marked(b, b', freq, oldest)
    ensures Running(s, built, b')
  {
    MarkedKeeps(b, b', freq, oldest);
    SameShapeChain(built, b.g, b'.g);
  }

  /** A route that may join for d, if nothing speaks against it. */
  lemma ReplacementExists(s: Setting, b: Books, d: Node, attempt: nat) returns (p: PathWithInfo, w: seq<Step>)
    requires d in s.ends && !NoReplacement(s, b, d, attempt)
    ensures p.dest == d && Replacement(s, b, attempt, p) && Finds(s, b.g, b.used, attempt, p, w)
  {
    w :| Walkable(s, b.g, d, w) && !(attempt <= 1 && InUse(s, b.used, w));
    if attempt <= 1 {
      w := CheapestExists(s, b.g, b.used, d, w);
    }
    p := RouteBy(s, d, Visits(s.start, w), Cost(w));
    assert Finds(s, b.g, b.used, attempt, p, w);
  }

  lemma JoinExists(s: Setting, built: ResGraph, x: State, attempt: nat, p: PathWithInfo, w: seq<Step>)
    returns (y: State)
    requires s.Valid() && Running(s, built, x.b) && x.acc.Valid(s.start, s.thetaL)
    requires Replacement(s, x.b, attempt, p) && Finds(s, x.b.g, x.b.used, attempt, p, w)
    ensures Replaced(s, x, y, attempt) && Running(s, built, y.b) && y.acc.Valid(s.start, s.thetaL)
    ensures y.b.paths == x.b.paths + [p]
  {
    var b := WithRoute(x.b, p);
    JoinAccounts(s, built, x.b, b, p, w);
    JoinKeepsRunning(s, built, x.b, b, p, w);
    RunIsSearchable(s, built, x.b.g);
    FeasibleIsGood(s, x.b.g, p.dest, w, p);
    AddPathValid(s, x.acc, p);
    y := State(b, x.acc.AddPath(p));
  }

  lemma ReplacedExists(s: Setting, built: ResGraph, x: State, attempt: nat) returns (y: State)
    requires s.Valid() && Running(s, built, x.b) && x.acc.Valid(s.start, s.thetaL)
    ensures Replaced(s, x, y, attempt) && Running(s, built, y.b) && y.acc.Valid(s.start, s.thetaL)
    ensures WithinQuota(x.b.paths) ==> WithinQuota(y.b.paths)
  {
    if forall d :: d in s.ends ==> NoReplacement(s, x.b, d, attempt) {
      y := x;
    } else {
      var d :| d in s.ends && !NoReplacement(s, x.b, d, attempt);
      var p, w := ReplacementExists(s, x.b, d, attempt);
      y := JoinExists(s, built, x, attempt, p, w);
      QuotaAfterAdd(s, x.b, p);
    }
  }

  /** A turn can always be taken. */
  lemma TurnExists(s: Setting, built: ResGraph, x: State, attempt: nat) returns (y: State)
    requires s.Valid() && Running(s, built, x.b) && x.acc.Valid(s.start, s.thetaL) && x.b.paths != []
    ensures Turned(s, x, y, attempt) && Running(s, built, y.b) && Unbanned(y.b.g) && y.acc.Valid(s.start, s.thetaL)
    ensures WithinQuota(x.b.paths) ==> WithinQuota(y.b.paths)
  {
    var dropped := WithoutOldest(x.b);
    DropKeepsRunning(s, built, x.b, dropped);
    var freq := MostFrequentExists(s, x.acc);
    var marked := WithBans(dropped, freq, x.b.paths[0]);
    BansKeepRunning(s, built, dropped, marked, freq, x.b.paths[0]);
    var replaced := ReplacedExists(s, built, State(marked, x.acc), attempt);
    if WithinQuota(x.b.paths) {
      QuotaAfterDrop(x.b.paths);
    }
    UnbanKeepsRunning(s, built, replaced.b);
    y := State(replaced.b.(g := UnbanAllEdges(replaced.b.g)), replaced.acc);
    assert TurnVia(s, x, y, attempt, Stages(freq, dropped, marked, replaced));
  }

  // ---------- A run ----------

  lemma {:induction false} TrimExists(s: Setting, built: ResGraph, b: Books, n: nat) returns (b': Books)
    requires Running(s, built, b) && Unbanned(b.g) && n <= |b.paths|
    ensures Running(s, built, b') && Unbanned(b'.g) && b'.paths == b.paths[n..]
    ensures WithinQuota(b.paths) ==> WithinQuota(b'.paths)
  {
    b' := b;
    if n > 0 {
      var c := TrimExists(s, built, b, n - 1);
      b' := WithoutOldest(c);
      DropKeepsRunning(s, built, c, b');
      if WithinQuota(c.paths) {
        QuotaAfterDrop(c.paths);
      }
    }
  }

  lemma {:induction false} RecordedIsValid(s: Setting, ps: seq<PathWithInfo>)
    requires GoodPaths(s.start, s.thetaL, ps)
    ensures Recorded(ps).Valid(s.start, s.thetaL)
  {
    if ps != [] {
      RecordedIsValid(s, ps[..|ps| - 1]);
      assert GoodPath(s.start, s.thetaL, ps[|ps| - 1]);
      AddPathValid(s, Recorded(ps[..|ps| - 1]), ps[|ps| - 1]);
    }
  }

  lemma SteadyNext(s: Setting, built: ResGraph, x: State, attempt: nat, bound: nat) returns (y: State)
    requires ValidForAll(s) && Steady(s, built, x.b, bound) && x.acc.Valid(s.start, s.thetaL) && x.b.paths != []
    ensures Turned(s, x, y, attempt) && Steady(s, built, y.b, bound) && y.acc.Valid(s.start, s.thetaL)
  {
    assert Held(s, built, x.b.paths[0]) && ValidFor(s, x.b.paths[0].dest);
    y := TurnExists(s, built, x, attempt);
    TurnSize(s, x, y, attempt);
  }

  /** One more turn of a run. */
  lemma NextTurn(s: Setting, built: ResGraph, states: seq<State>) returns (y: State)
    requires ValidForAll(s) && CarouselRun(s, built, states)
    requires states[|states| - 1].acc.Valid(s.start, s.thetaL) && states[|states| - 1].b.paths != []
    ensures CarouselRun(s, built, states + [y]) && y.acc.Valid(s.start, s.thetaL)
  {
    var x := states[|states| - 1];
    assert Steady(s, built, x.b, |states[0].b.paths|);
    y := SteadyNext(s, built, x, |states| - 1, |states[0].b.paths|);
    RunGrows(s, built, states, y);
  }

  lemma {:induction false} RunOnToEnd(s: Setting, built: ResGraph, states: seq<State>) returns (all: seq<State>)
    requires ValidForAll(s) && CarouselRun(s, built, states) && |states| <= 2 + 2 * |states[0].b.paths|
    requires states[|states| - 1].acc.Valid(s.start, s.thetaL)
    ensures CarouselRun(s, built, all) && Finished(all) && states <= all
    decreases 2 + 2 * |states[0].b.paths| - |states|
  {
    all := states;
    if !Finished(states) {
      var y := NextTurn(s, built, states);
      all := RunOnToEnd(s, built, states + [y]);
    }
  }

  /** From an initial solution a complete run exists. */
  lemma RunExists(s: Setting, built: ResGraph, b: Books) returns (states: seq<State>)
    requires s.Valid() && Steady(s, built, b, |b.paths|)
    ensures CarouselRun(s, built, states) && Finished(states) && states[0].b == b
  {
    var acc := Recorded(b.paths);
    RecordedIsValid(s, b.paths);
    var c := TrimExists(s, built, b, |b.paths| / 2);
    SpinStart(s, built, State(b, acc), State(c, acc));
    states := RunOnToEnd(s, built, [State(b, acc), State(c, acc)]);
  }
}
