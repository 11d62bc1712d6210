/**
 Whole runs of an aggregation worker: the invariants hold throughout, and from them follows
 what leaves the worker, under which header, and when.
 */
module AggregatorRuns {
  import opened TunnelPacket
  import opened Wrappers
  import opened Aggregator
  import opened MessageFlow

  // ---------- Runs ----------

  ghost predicate Inv(c: Config, s: State) {
    && RefsOk(s) && TimersOk(c, s) && PacketsOk(c, s)
    && Conserved(s) && HandlesBatched(c, s) && LossesOk(c, s) && OriginsOk(s)
  }

  lemma InvInit(c: Config)
    ensures Inv(c, INIT)
  {
  }

  lemma InvStep(c: Config, s: State, e: Event)
    requires Inv(c, s) && Enabled(c, s, e)
    ensures Inv(c, Next(c, s, e))
  {
    RefsKept(c, s, e);
    TimersKept(c, s, e);
    PacketsKept(c, s, e);
    ConservedKept(c, s, e);
    BatchedKept(c, s, e);
    LossesKept(c, s, e);
    OriginsKept(c, s, e);
  }

  ghost predicate StepAt(c: Config, es: seq<Event>, ss: seq<State>, i: nat)
    requires i < |es| && |ss| == |es| + 1
  {
    Enabled(c, ss[i], es[i]) && ss[i + 1] == Next(c, ss[i], es[i])
  }

  /** A run of the worker from its start, under any interleaving. */
  ghost predicate IsRun(c: Config, es: seq<Event>, ss: seq<State>) {
    |ss| == |es| + 1 && ss[0] == INIT && forall i :: 0 <= i < |es| ==> StepAt(c, es, ss, i)
  }

  lemma {:induction false} RunInvariant(c: Config, es: seq<Event>, ss: seq<State>, i: nat)
    requires IsRun(c, es, ss) && i < |ss|
    ensures Inv(c, ss[i])
  {
    if i == 0 {
      InvInit(c);
    } else {
      RunInvariant(c, es, ss, i - 1);
      assert StepAt(c, es, ss, i - 1);
      InvStep(c, ss[i - 1], es[i - 1]);
    }
  }

  // ---------- Losses ----------

  lemma {:induction false} NotPending(c: Config, s: State, m: Message)
    requires PacketsOk(c, s) && Lost(c, m)
    ensures m !in Pending(s.pool)
  {
    forall b, i | 0 <= b < |s.pool| && 0 <= i < |s.pool[b].msgs|
      ensures s.pool[b].msgs[i] != m
    {
      assert PacketOk(c, s, b);
      PendingFits(s.pool[b].msgs, i);
    }
    NotInPool(s.pool, m);
  }

  lemma {:induction false} NotInPool(pool: seq<Batch>, m: Message)
    requires forall b, i :: 0 <= b < |pool| && 0 <= i < |pool[b].msgs| ==> pool[b].msgs[i] != m
    ensures m !in Pending(pool)
  {
    if pool != [] {
      NotInPool(pool[..|pool| - 1], m);
      assert m !in multiset(pool[|pool| - 1].msgs);
    }
  }

  lemma {:induction false} NotFlushed(fs: seq<Flush>, m: Message)
    requires forall k, i :: 0 <= k < |fs| && 0 <= i < |fs[k].msgs| ==> fs[k].msgs[i] != m
    ensures m !in FlushedMsgs(fs)
  {
    if fs != [] {
      NotFlushed(fs[..|fs| - 1], m);
      assert m !in multiset(fs[|fs| - 1].msgs);
    }
  }

  /** What has been dropped, message by message: all of the lost kind that was handled, and nothing else. */
  lemma DroppedExactly(c: Config, es: seq<Event>, ss: seq<State>, n: nat, m: Message)
    requires IsRun(c, es, ss) && n < |ss|
    ensures if Lost(c, m) then ss[n].dropped[m] + InHand(ss[n].handler)[m] == ss[n].submitted[m]
            else ss[n].dropped[m] == 0
  {
    RunInvariant(c, es, ss, n);
    if Lost(c, m) {
      NotPending(c, ss[n], m);
      NotFlushed(ss[n].flushed, m);
    }
  }

  lemma RunSnoc(c: Config, es: seq<Event>, ss: seq<State>, e: Event)
    requires IsRun(c, es, ss) && Enabled(c, ss[|es|], e)
    ensures IsRun(c, es + [e], ss + [Next(c, ss[|es|], e)])
  {
    var es', ss' := es + [e], ss + [Next(c, ss[|es|], e)];
    forall i | 0 <= i < |es'|
      ensures StepAt(c, es', ss', i)
    {
      if i < |es| {
        assert StepAt(c, es, ss, i);
        assert es'[i] == es[i] && ss'[i] == ss[i] && ss'[i + 1] == ss[i + 1];
      } else {
        assert es'[i] == e && ss'[i] == ss[|es|] && ss'[i + 1] == Next(c, ss[|es|], e);
      }
    }
  }

  /** Every message of the lost kind is lost by a run that submits it alone, however many batches a key gets. */
  lemma LossHappens(c: Config, m: Message, num: nat) returns (es: seq<Event>, ss: seq<State>)
    requires Lost(c, m) && num >= 1
    ensures IsRun(c, es, ss) && ss[|es|].submitted == ss[|es|].dropped == multiset{m}
  {
    es, ss := [], [INIT];
    if Urgent(c, m) {
      RunSnoc(c, es, ss, SendNow(m));
      es, ss := [SendNow(m)], [INIT, Next(c, INIT, SendNow(m))];
    } else {
      es, ss := Opening(c, m, num);
      var s := ss[|es|];
      RunSnoc(c, es, ss, Append);
      es, ss := es + [Append], ss + [Next(c, s, Append)];
    }
  }

  /** The worker up to the point where it has opened its first batches, for m. */
  lemma Opening(c: Config, m: Message, num: nat) returns (es: seq<Event>, ss: seq<State>)
    requires !Urgent(c, m) && num >= 1
    ensures IsRun(c, es, ss)
    ensures ss[|es|] == INIT.(batches := map[m.key := Range(0, num)], pool := Copies(m, num),
                              handler := Chosen(m, Choice(Range(0, num), m)), submitted := multiset{m})
  {
    es, ss := [], [INIT];
    RunSnoc(c, es, ss, Lookup(m));
    var s1 := Next(c, INIT, Lookup(m));
    es, ss := es + [Lookup(m)], ss + [s1];
    RunSnoc(c, es, ss, Create(num));
    es, ss := es + [Create(num)], ss + [Next(c, s1, Create(num))];
    assert multiset{} + multiset{m} == multiset{m} && [] + Copies(m, num) == Copies(m, num);
  }

  /** A message can be lost exactly when it is of the lost kind. */
  lemma LostIffOversized(c: Config, m: Message)
    ensures (exists es: seq<Event>, ss: seq<State> :: IsRun(c, es, ss) && m in ss[|es|].dropped) <==> Lost(c, m)
  {
    if es: seq<Event>, ss: seq<State> :| IsRun(c, es, ss) && m in ss[|es|].dropped {
      DroppedExactly(c, es, ss, |es|, m);
    }
    if Lost(c, m) {
      var es, ss := LossHappens(c, m, 1);
    }
  }

  ghost predicate NothingOversized(c: Config, s: State) {
    forall m :: m in s.submitted ==> !Lost(c, m)
  }

  lemma NothingDropped(c: Config, s: State)
    requires Inv(c, s) && NothingOversized(c, s)
    ensures s.dropped == multiset{}
  {
    forall m
      ensures m !in s.dropped
    {
      assert m in s.dropped ==> m in s.submitted;
    }
  }

  /** Content and timer go together: a batch nobody works on is written to exactly when its timer is live. */
  lemma ContentIffTimer(c: Config, es: seq<Event>, ss: seq<State>, i: nat, b: nat)
    requires IsRun(c, es, ss) && i < |ss| && b < |ss[i].pool| && !Locked(ss[i], b) && NothingOversized(c, ss[i])
    ensures var x := ss[i].pool[b];
            && (Wp(x) > HEADER_SIZE <==> x.timer.Some?)
            && (x.timer.Some? ==> Live(ss[i], x.timer.value))
  {
    RunInvariant(c, es, ss, i);
    NothingDropped(c, ss[i]);
    assert PacketOk(c, ss[i], b) && TimerOf(ss[i], b) == ss[i].pool[b].timer;
    if ss[i].pool[b].msgs != [] {
      assert |EncodeSubs(SubsOf(ss[i].pool[b].msgs))| > 0;
    }
  }

  lemma {:induction false} NothingPending(pool: seq<Batch>)
    requires forall b :: 0 <= b < |pool| ==> pool[b].msgs == []
    ensures Pending(pool) == multiset{}
  {
    if pool != [] {
      NothingPending(pool[..|pool| - 1]);
    }
  }

  /** When nothing is in progress and no timer is left, everything submitted has been flushed. */
  lemma QuiescentMeansFlushed(c: Config, es: seq<Event>, ss: seq<State>, i: nat)
    requires IsRun(c, es, ss) && i < |ss| && NothingOversized(c, ss[i])
    requires ss[i].handler.Idle? && ss[i].heap == {} && ss[i].expired == []
    ensures FlushedMsgs(ss[i].flushed) == ss[i].submitted
  {
    RunInvariant(c, es, ss, i);
    NothingDropped(c, ss[i]);
    IdleHasNothingPending(c, ss[i]);
  }

  lemma IdleHasNothingPending(c: Config, s: State)
    requires TimersOk(c, s) && PacketsOk(c, s) && s.handler.Idle? && s.heap == {} && s.expired == []
    ensures Pending(s.pool) == multiset{}
  {
    forall b | 0 <= b < |s.pool|
      ensures s.pool[b].msgs == []
    {
      assert PacketOk(c, s, b);
    }
    NothingPending(s.pool);
  }

  /** Equal keys mean equal routes and ports among the submitted messages. */
  ghost predicate KeyDeterminesRoute(s: State) {
    forall m, n :: m in s.submitted && n in s.submitted && m.key == n.key ==> m.route == n.route && m.port == n.port
  }

  lemma {:induction false} FlushedWasSubmitted(fs: seq<Flush>, k: nat, i: nat)
    requires k < |fs| && i < |fs[k].msgs|
    ensures fs[k].msgs[i] in FlushedMsgs(fs)
    decreases |fs|
  {
    if k < |fs| - 1 {
      FlushedWasSubmitted(fs[..|fs| - 1], k, i);
    } else {
      assert fs[k].msgs[i] in multiset(fs[k].msgs);
    }
  }

  /** Then every message leaves under its own hop list and port. */
  lemma LeavesUnderOwnRoute(c: Config, es: seq<Event>, ss: seq<State>, n: nat, k: nat, i: nat)
    requires IsRun(c, es, ss) && n < |ss| && KeyDeterminesRoute(ss[n])
    requires k < |ss[n].flushed| && i < |ss[n].flushed[k].msgs|
    ensures var f := ss[n].flushed[k]; f.msgs[i].key == f.key && f.msgs[i].route == f.route && f.msgs[i].port == f.port
  {
    RunInvariant(c, es, ss, n);
    var f := ss[n].flushed[k];
    assert FlushOk(ss[n].submitted, f);
    FlushedWasSubmitted(ss[n].flushed, k, i);
  }

  /**
   What the next hop reads from a flush: its messages exactly when the payload fits 16 bits and does
   not end in an empty one.
   */
  lemma FlushIsReadBack(c: Config, es: seq<Event>, ss: seq<State>, n: nat, k: nat)
    requires IsRun(c, es, ss) && n < |ss| && k < |ss[n].flushed| && ss[n].flushed[k].msgs != []
    ensures var f := ss[n].flushed[k];
            var body := Body(f.msgs);
            var h := Header(1, HopField(f.route.hops), |body| % 0x1_0000, f.port, f.protocol);
            ParseRaw(f.raw, |f.raw|) == Ok((h, SubsOf(f.msgs)))
            <==> |body| < 0x1_0000 && f.msgs[|f.msgs| - 1].data != []
  {
    RunInvariant(c, es, ss, n);
    var f := ss[n].flushed[k];
    assert FlushOk(ss[n].submitted, f);
    CodecRoundTrip(Header(1, HopField(f.route.hops), 0, f.port, f.protocol), SubsOf(f.msgs));
  }
}
