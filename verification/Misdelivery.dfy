/**
 Ports. The key of a batch does not name the port, so messages for different ports of one origin
 share batches, and all of a batch leaves under the port of the message it was opened for. What
 submitted messages let that happen is stated exactly.
 */
module Misdelivery {
  import opened TunnelPacket
  import opened Aggregator
  import opened MessageFlow
  import opened AggregatorRuns

  /** Some message has left under a port that is not its own. */
  ghost predicate Misdelivered(s: State) {
    exists k, i ::
      0 <= k < |s.flushed| && 0 <= i < |s.flushed[k].msgs| && s.flushed[k].msgs[i].port != s.flushed[k].port
  }

  /** Two batched messages of one key for different ports, the second of which fits a buffer. */
  ghost predicate Clash(c: Config, m: Message, n: Message) {
    !Urgent(c, m) && !Urgent(c, n) && m.key == n.key && m.port != n.port && !Oversized(c, n)
  }

  ghost predicate Drawn(s: State, all: set<Message>) {
    forall m :: m in s.submitted ==> m in all
  }

  // ---------- No misdelivery without a clash ----------

  /** A batched message brought in this key and port. */
  ghost predicate OpenedFor(c: Config, all: set<Message>, key: Key, port: uint16) {
    exists m :: m in all && !Urgent(c, m) && m.key == key && m.port == port
  }

  /** A batched message of this key that fits a buffer. */
  ghost predicate Carried(c: Config, all: set<Message>, key: Key, m: Message) {
    m in all && !Urgent(c, m) && m.key == key && !Oversized(c, m)
  }

  ghost predicate BatchPort(c: Config, all: set<Message>, x: Batch) {
    OpenedFor(c, all, x.key, x.port) && forall i :: 0 <= i < |x.msgs| ==> Carried(c, all, x.key, x.msgs[i])
  }

  /** A flush is a message sent alone under its own port, or what a batch carried. */
  ghost predicate FlushPort(c: Config, all: set<Message>, f: Flush) {
    || (|f.msgs| == 1 && f.msgs[0].port == f.port)
    || (OpenedFor(c, all, f.key, f.port) && forall i :: 0 <= i < |f.msgs| ==> Carried(c, all, f.key, f.msgs[i]))
  }

  ghost predicate PortsOk(c: Config, all: set<Message>, s: State) {
    && (forall b :: 0 <= b < |s.pool| ==> BatchPort(c, all, s.pool[b]))
    && (forall k :: 0 <= k < |s.flushed| ==> FlushPort(c, all, s.flushed[k]))
    && (s.handler.Looked? || s.handler.Chosen? ==> s.handler.m in all && !Urgent(c, s.handler.m))
  }

  lemma PortsJoin(c: Config, all: set<Message>, s: State)
    requires RefsOk(s) && PortsOk(c, all, s) && s.handler.Chosen? && s.handler.b < |s.pool|
    requires Fits(c, s.pool[s.handler.b], s.handler.m)
    ensures PortsOk(c, all, JoinNext(s))
  {
    var x, m := s.pool[s.handler.b], s.handler.m;
    assert BatchPort(c, all, x);
    assert Carried(c, all, x.key, m);
    assert BatchPort(c, all, Appended(x, m));
  }

  lemma PortsOpen(c: Config, all: set<Message>, m: Message)
    requires m in all && !Urgent(c, m)
    ensures BatchPort(c, all, NewBatch(m)) && BatchPort(c, all, Opened(c, m))
  {
    assert OpenedFor(c, all, m.key, m.port);
  }

  lemma PortsFlush(c: Config, all: set<Message>, s: State)
    requires PortsOk(c, all, s) && s.expired != [] && s.expired[0].batch < |s.pool|
    ensures PortsOk(c, all, FlushNextNext(s))
  {
    var x := s.pool[s.expired[0].batch];
    assert BatchPort(c, all, x);
    assert FlushPort(c, all, FlushOf(x)) && BatchPort(c, all, Reset(x));
  }

  /** A step that neither sends nor writes messages, and opens batches only for the message in hand. */
  lemma PortsQuiet(c: Config, all: set<Message>, s: State, s': State)
    requires PortsOk(c, all, s) && s'.flushed == s.flushed && |s.pool| <= |s'.pool|
    requires forall b :: 0 <= b < |s.pool| ==> SameRouting(s'.pool[b], s.pool[b]) && s'.pool[b].msgs == s.pool[b].msgs
    requires forall b :: |s.pool| <= b < |s'.pool| ==> BatchPort(c, all, s'.pool[b])
    requires s'.handler.Looked? || s'.handler.Chosen? ==> s'.handler.m in all && !Urgent(c, s'.handler.m)
    ensures PortsOk(c, all, s')
  {
    forall b | 0 <= b < |s'.pool|
      ensures BatchPort(c, all, s'.pool[b])
    {
      if b < |s.pool| {
        assert BatchPort(c, all, s.pool[b]);
      }
    }
  }

  lemma PortsSendNow(c: Config, all: set<Message>, s: State, m: Message)
    requires PortsOk(c, all, s) && s.handler.Idle?
    ensures PortsOk(c, all, SendNowNext(c, s, m))
  {
    var f := FlushOf(Appended(NewBatch(m), m));
    assert f.msgs == [m] && FlushPort(c, all, f);
  }

  lemma PortsLookup(c: Config, all: set<Message>, s: State, m: Message)
    requires PortsOk(c, all, s) && !Urgent(c, m) && Drawn(LookupNext(s, m), all)
    ensures PortsOk(c, all, LookupNext(s, m))
  {
    assert m in LookupNext(s, m).submitted;
    PortsQuiet(c, all, s, LookupNext(s, m));
  }

  lemma PortsCreate(c: Config, all: set<Message>, s: State, num: nat)
    requires PortsOk(c, all, s) && s.handler.Looked? && num >= 1
    ensures PortsOk(c, all, CreateNext(s, num))
  {
    PortsOpen(c, all, s.handler.m);
    PortsQuiet(c, all, s, CreateNext(s, num));
  }

  lemma PortsAppend(c: Config, all: set<Message>, s: State)
    requires RefsOk(s) && PortsOk(c, all, s) && s.handler.Chosen? && s.handler.b < |s.pool|
    ensures PortsOk(c, all, AppendNext(c, s))
  {
    PortsOpen(c, all, s.handler.m);
    if MustOverflow(c, s.pool[s.handler.b], s.handler.m) {
      PortsQuiet(c, all, s, OverflowNext(c, s));
    } else {
      PortsJoin(c, all, s);
    }
  }

  lemma PortsKept(c: Config, all: set<Message>, s: State, e: Event)
    requires RefsOk(s) && PortsOk(c, all, s) && Enabled(c, s, e) && Drawn(Next(c, s, e), all)
    ensures PortsOk(c, all, Next(c, s, e))
  {
    match e
    case SendNow(m) => PortsSendNow(c, all, s, m);
    case Lookup(m) => PortsLookup(c, all, s, m);
    case FlushNext => PortsFlush(c, all, s);
    case Create(num) => PortsCreate(c, all, s, num);
    case Append => PortsAppend(c, all, s);
    case SetTimer => PortsQuiet(c, all, s, SetTimerNext(s));
    case PushTimer => PortsQuiet(c, all, s, PushTimerNext(c, s));
    case PopExpired(now, due) => PortsQuiet(c, all, s, PopExpiredNext(s, due));
    case Tick(time) => PortsQuiet(c, all, s, s.(clock := time));
  }

  /** Submitted messages stay submitted. */
  lemma DrawnBefore(c: Config, s: State, e: Event, all: set<Message>)
    requires Enabled(c, s, e) && Drawn(Next(c, s, e), all)
    ensures Drawn(s, all)
  {
    forall m | m in s.submitted
      ensures m in all
    {
      assert m in Next(c, s, e).submitted;
    }
  }

  lemma {:induction false} PortsThroughout(c: Config, all: set<Message>, es: seq<Event>, ss: seq<State>, i: nat)
    requires IsRun(c, es, ss) && i < |ss| && Drawn(ss[i], all)
    ensures PortsOk(c, all, ss[i])
  {
    if i > 0 {
      assert StepAt(c, es, ss, i - 1);
      DrawnBefore(c, ss[i - 1], es[i - 1], all);
      PortsThroughout(c, all, es, ss, i - 1);
      RunInvariant(c, es, ss, i - 1);
      PortsKept(c, all, ss[i - 1], es[i - 1]);
    }
  }

  lemma MisdeliveredClashes(c: Config, all: set<Message>, s: State) returns (m: Message, n: Message)
    requires PortsOk(c, all, s) && Misdelivered(s)
    ensures m in all && n in all && Clash(c, m, n)
  {
    var k, i :| 0 <= k < |s.flushed| && 0 <= i < |s.flushed[k].msgs| && s.flushed[k].msgs[i].port != s.flushed[k].port;
    var f := s.flushed[k];
    assert FlushPort(c, all, f);
    n := f.msgs[i];
    assert Carried(c, all, f.key, n);
    m :| m in all && !Urgent(c, m) && m.key == f.key && m.port == f.port;
  }

  // ---------- A clash misdelivers ----------

  /** Nothing is going on, and every batch stored under the key is empty and has the port. */
  ghost predicate Primed(s: State, key: Key, port: uint16) {
    && s.handler.Idle? && s.heap == {} && s.expired == [] && key in s.batches && |s.batches[key]| > 0
    && (forall i :: 0 <= i < |s.batches[key]| ==> s.batches[key][i] < |s.pool|)
    && (forall b :: 0 <= b < |s.pool| ==> s.pool[b].port == port && s.pool[b].msgs == [] && s.pool[b].timer.None?)
  }

  /** The handler holds batch b, which has no timer, and no timer is live. */
  ghost predicate Alone(s: State, b: nat) {
    s.handler.Holding? && s.handler.b == b < |s.pool| && s.pool[b].timer.None? && s.heap == {} && s.expired == []
  }

  /** From there the batch gets its timer, the timeout passes, and the batch is flushed. */
  lemma Finish(c: Config, es: seq<Event>, ss: seq<State>, b: nat) returns (es': seq<Event>, ss': seq<State>)
    requires c.timeout > 0 && IsRun(c, es, ss) && Alone(ss[|es|], b)
    ensures IsRun(c, es', ss')
    ensures var s, s' := ss[|es|], ss'[|es'|];
            && s'.handler.Idle? && s'.heap == {} && s'.expired == []
            && s'.submitted == s.submitted && s'.batches == s.batches
            && |s'.pool| == |s.pool| && (forall x :: 0 <= x < |s.pool| && x != b ==> s'.pool[x] == s.pool[x])
            && s'.pool[b].port == s.pool[b].port && s'.pool[b].msgs == [] && s'.pool[b].timer.None?
            && |s'.flushed| > 0
            && var f := s'.flushed[|s'.flushed| - 1]; f.port == s.pool[b].port && f.msgs == s.pool[b].msgs
  {
    var s0 := ss[|es|];
    RunSnoc(c, es, ss, PushTimer);
    var s1 := Next(c, s0, PushTimer);
    es', ss' := es + [PushTimer], ss + [s1];
    var t := s1.handler.t;
    RunSnoc(c, es', ss', SetTimer);
    var s2 := Next(c, s1, SetTimer);
    es', ss' := es' + [SetTimer], ss' + [s2];
    var tick := Tick(t.deadline);
    RunSnoc(c, es', ss', tick);
    var s3 := Next(c, s2, tick);
    es', ss' := es' + [tick], ss' + [s3];
    var pop := PopExpired(t.deadline, [t]);
    assert s3.heap == {t} && Elements([t]) == {t};
    assert (set x | x in s3.heap && x.deadline <= t.deadline) == {t};
    RunSnoc(c, es', ss', pop);
    var s4 := Next(c, s3, pop);
    es', ss' := es' + [pop], ss' + [s4];
    assert s4.heap == {} && s4.expired == [t];
    RunSnoc(c, es', ss', FlushNext);
    es', ss' := es' + [FlushNext], ss' + [Next(c, s4, FlushNext)];
  }

  /** A run that opens batches for m and lets them empty again. */
  lemma Prime(c: Config, m: Message, num: nat) returns (es: seq<Event>, ss: seq<State>)
    requires !Urgent(c, m) && num >= 1
    ensures IsRun(c, es, ss) && Primed(ss[|es|], m.key, m.port) && ss[|es|].submitted == multiset{m}
  {
    es, ss := Opening(c, m, num);
    var s := ss[|es|];
    RunSnoc(c, es, ss, Append);
    es, ss := es + [Append], ss + [Next(c, s, Append)];
    es, ss := Finish(c, es, ss, ss[|es|].handler.b);
  }

  /** A run in which n leaves under the port of m, however many batches a key gets. */
  lemma ClashMisdelivers(c: Config, m: Message, n: Message, num: nat) returns (es: seq<Event>, ss: seq<State>)
    requires Clash(c, m, n) && num >= 1
    ensures IsRun(c, es, ss) && Misdelivered(ss[|es|]) && Drawn(ss[|es|], {m, n})
  {
    es, ss := Prime(c, m, num);
    var s0 := ss[|es|];
    RunSnoc(c, es, ss, Lookup(n));
    var s1 := Next(c, s0, Lookup(n));
    es, ss := es + [Lookup(n)], ss + [s1];
    var b := s1.handler.b;
    assert Body([]) == [];
    RunSnoc(c, es, ss, Append);
    var s2 := Next(c, s1, Append);
    es, ss := es + [Append], ss + [s2];
    assert s2.pool[b].msgs == [n] && s2.pool[b].port == m.port;
    es, ss := Finish(c, es, ss, b);
    var s := ss[|es|];
    var k := |s.flushed| - 1;
    assert s.flushed[k].msgs[0].port != s.flushed[k].port;
  }

  /** Some run that submits messages of the set delivers one under a foreign port. */
  ghost predicate CanMisdeliver(c: Config, all: set<Message>) {
    exists es: seq<Event>, ss: seq<State> ::
      IsRun(c, es, ss) && Drawn(ss[|es|], all) && Misdelivered(ss[|es|])
  }

  /**
   Messages out of a set can leave under a foreign port exactly when the set holds two batched
   messages of one key for different ports, one of which fits a buffer.
   */
  lemma MisdeliveryIffClash(c: Config, all: set<Message>)
    ensures CanMisdeliver(c, all) <==> exists m, n :: m in all && n in all && Clash(c, m, n)
  {
    if es: seq<Event>, ss: seq<State> :| IsRun(c, es, ss) && Drawn(ss[|es|], all) && Misdelivered(ss[|es|]) {
      PortsThroughout(c, all, es, ss, |es|);
      var m, n := MisdeliveredClashes(c, all, ss[|es|]);
    }
    if m, n :| m in all && n in all && Clash(c, m, n) {
      var es, ss := ClashMisdelivers(c, m, n, 1);
    }
  }

  function Sample(port: uint16): Message {
    Message(false, "10.0.0.1,10.0.0.2", Route([1, 2, 3], 2), port, 6, 7, seq(128, i => 0))
  }

  /** Two messages of 128 bytes for ports 80 and 443, buffers of 1500 bytes and a timeout of 50. */
  lemma ForeignPort() returns (es: seq<Event>, ss: seq<State>)
    ensures IsRun(Config(1500, 50), es, ss) && Misdelivered(ss[|es|]) && Drawn(ss[|es|], {Sample(80), Sample(443)})
  {
    es, ss := ClashMisdelivers(Config(1500, 50), Sample(80), Sample(443), 1);
  }
}
