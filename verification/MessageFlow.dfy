/**
 Where messages are: every step of an aggregation worker moves a message from one place to
 the next, loses only oversized ones, and keeps batches under the header they were opened with.
 */
module MessageFlow {
  import opened TunnelPacket
  import opened Wrappers
  import opened Aggregator

  // ---------- Conservation ----------

  ghost function Pending(pool: seq<Batch>): multiset<Message> {
    if pool == [] then multiset{} else Pending(pool[..|pool| - 1]) + multiset(pool[|pool| - 1].msgs)
  }

  ghost function FlushedMsgs(fs: seq<Flush>): multiset<Message> {
    if fs == [] then multiset{} else FlushedMsgs(fs[..|fs| - 1]) + multiset(fs[|fs| - 1].msgs)
  }

  /** A message the handler has taken but not yet placed. */
  ghost function InHand(h: Handler): multiset<Message> {
    if h.Looked? || h.Chosen? then multiset{h.m} else multiset{}
  }

  lemma Cancel<T>(a: multiset<T>, b: multiset<T>, c: multiset<T>)
    requires a + c == b + c
    ensures a == b
  {
    forall x
      ensures a[x] == b[x]
    {
      assert (a + c)[x] == (b + c)[x];
    }
  }

  lemma Exchange<T>(a: multiset<T>, b: multiset<T>, c: multiset<T>, d: multiset<T>, e: multiset<T>)
    requires a + b == c + d
    ensures (a + e) + b == (c + e) + d
  {
    assert (a + e) + b == (a + b) + e && (c + e) + d == (c + d) + e;
  }

  lemma PendingSnoc(pool: seq<Batch>, x: Batch)
    ensures Pending(pool + [x]) == Pending(pool) + multiset(x.msgs)
  {
    assert (pool + [x])[..|pool|] == pool;
  }

  lemma {:induction false} PendingUpdate(pool: seq<Batch>, b: nat, x: Batch)
    requires b < |pool|
    ensures Pending(pool[b := x]) + multiset(pool[b].msgs) == Pending(pool) + multiset(x.msgs)
  {
    var n := |pool| - 1;
    if b < n {
      PendingUpdate(pool[..n], b, x);
      assert pool[b := x][..n] == pool[..n][b := x];
      Exchange(Pending(pool[..n][b := x]), multiset(pool[b].msgs), Pending(pool[..n]),
               multiset(x.msgs), multiset(pool[n].msgs));
    } else {
      assert pool[b := x][..n] == pool[..n];
    }
  }

  lemma {:induction false} PendingCopies(pool: seq<Batch>, xs: seq<Batch>)
    requires forall i :: 0 <= i < |xs| ==> xs[i].msgs == []
    ensures Pending(pool + xs) == Pending(pool)
  {
    if xs == [] {
      assert pool + xs == pool;
    } else {
      var n := |xs| - 1;
      PendingCopies(pool, xs[..n]);
      assert pool + xs == (pool + xs[..n]) + [xs[n]];
      PendingSnoc(pool + xs[..n], xs[n]);
    }
  }

  lemma FlushedSnoc(fs: seq<Flush>, f: Flush)
    ensures FlushedMsgs(fs + [f]) == FlushedMsgs(fs) + multiset(f.msgs)
  {
    assert (fs + [f])[..|fs|] == fs;
  }

  /** Every message submitted is in the handler's hands, pending in a batch, flushed or dropped, and only once. */
  ghost predicate Conserved(s: State) {
    s.submitted == InHand(s.handler) + Pending(s.pool) + FlushedMsgs(s.flushed) + s.dropped
  }

  ghost predicate Oversized(c: Config, m: Message) {
    HEADER_SIZE + 6 + |m.data| > c.bufferSize
  }

  /** Too large for a buffer, and not sent in a packet of its own size. */
  ghost predicate Lost(c: Config, m: Message) {
    Oversized(c, m) && |m.data| >= 128 && c.timeout > 20
  }

  /** Nothing but such messages is dropped, and no such message is ever sent. */
  ghost predicate LossesOk(c: Config, s: State) {
    && (forall m :: m in s.dropped ==> Lost(c, m))
    && (forall k, i :: 0 <= k < |s.flushed| && 0 <= i < |s.flushed[k].msgs| ==> !Lost(c, s.flushed[k].msgs[i]))
  }

  lemma PendingJoin(pool: seq<Batch>, b: nat, m: Message)
    requires b < |pool|
    ensures Pending(pool[b := Appended(pool[b], m)]) == Pending(pool) + multiset{m}
  {
    var x := Appended(pool[b], m);
    var before := multiset(pool[b].msgs);
    PendingUpdate(pool, b, x);
    assert multiset(x.msgs) == before + multiset{m};
    assert Pending(pool) + (before + multiset{m}) == (Pending(pool) + multiset{m}) + before;
    Cancel(Pending(pool[b := x]), Pending(pool) + multiset{m}, before);
  }

  lemma PendingFlush(pool: seq<Batch>, b: nat)
    requires b < |pool|
    ensures Pending(pool[b := Reset(pool[b])]) + multiset(pool[b].msgs) == Pending(pool)
  {
    PendingUpdate(pool, b, Reset(pool[b]));
    assert multiset(Reset(pool[b]).msgs) == multiset{};
  }

  lemma PendingSame(pool: seq<Batch>, b: nat, x: Batch)
    requires b < |pool| && x.msgs == pool[b].msgs
    ensures Pending(pool[b := x]) == Pending(pool)
  {
    PendingUpdate(pool, b, x);
    Cancel(Pending(pool[b := x]), Pending(pool), multiset(x.msgs));
  }

  lemma ConservedJoin(s: State)
    requires Conserved(s) && s.handler.Chosen? && s.handler.b < |s.pool|
    ensures Conserved(JoinNext(s))
  {
    var m, b := s.handler.m, s.handler.b;
    PendingJoin(s.pool, b, m);
  }

  lemma ConservedOverflow(c: Config, s: State)
    requires Conserved(s) && s.handler.Chosen?
    ensures Conserved(OverflowNext(c, s))
  {
    var m := s.handler.m;
    var x := Opened(c, m);
    PendingSnoc(s.pool, x);
    OpenedMsgs(c, m);
  }

  lemma OpenedMsgs(c: Config, m: Message)
    ensures multiset(Opened(c, m).msgs) == if Fits(c, NewBatch(m), m) then multiset{m} else multiset{}
  {
  }

  /** A step that moves no message but may add batches. */
  lemma ConservedPool(s: State, s': State)
    requires Conserved(s) && Pending(s'.pool) == Pending(s.pool) && s'.submitted == s.submitted
    requires s'.flushed == s.flushed && s'.dropped == s.dropped && InHand(s'.handler) == InHand(s.handler)
    ensures Conserved(s')
  {
  }

  lemma ConservedCreate(s: State, num: nat)
    requires Conserved(s) && s.handler.Looked? && num >= 1
    requires s.handler.m.key in s.batches ==> |s.batches[s.handler.m.key]| > 0
    ensures Conserved(CreateNext(s, num))
  {
    var s', m := CreateNext(s, num), s.handler.m;
    if m.key in s.batches {
      ConservedPool(s, s');
    } else {
      PendingCopies(s.pool, Copies(m, num));
      ConservedPool(s, s');
    }
  }

  lemma ConservedFlush(s: State)
    requires Conserved(s) && s.expired != [] && s.expired[0].batch < |s.pool|
    ensures Conserved(FlushNextNext(s))
  {
    var b := s.expired[0].batch;
    PendingFlush(s.pool, b);
    FlushedSnoc(s.flushed, FlushOf(s.pool[b]));
  }

  lemma ConservedSendNow(c: Config, s: State, m: Message)
    requires Conserved(s) && s.handler.Idle?
    ensures Conserved(SendNowNext(c, s, m))
  {
    FlushedSnoc(s.flushed, FlushOf(Appended(NewBatch(m), m)));
    SentAlone(m);
  }

  lemma SentAlone(m: Message)
    ensures multiset(FlushOf(Appended(NewBatch(m), m)).msgs) == multiset{m}
  {
  }

  lemma ConservedSet(s: State)
    requires Conserved(s) && s.handler.Pushed? && s.handler.b < |s.pool|
    ensures Conserved(SetTimerNext(s))
  {
    PendingSame(s.pool, s.handler.b, s.pool[s.handler.b].(timer := Some(s.handler.t)));
  }

  lemma ConservedLookup(s: State, m: Message)
    requires Conserved(s) && s.handler.Idle?
    ensures Conserved(LookupNext(s, m))
  {
  }

  lemma ConservedKept(c: Config, s: State, e: Event)
    requires RefsOk(s) && Conserved(s) && Enabled(c, s, e)
    ensures Conserved(Next(c, s, e))
  {
    match e
    case FlushNext => ConservedFlush(s);
    case Create(num) => ConservedCreate(s, num);
    case Append =>
      if MustOverflow(c, s.pool[s.handler.b], s.handler.m) {
        ConservedOverflow(c, s);
      } else {
        ConservedJoin(s);
      }
    case SetTimer => ConservedSet(s);
    case SendNow(m) => ConservedSendNow(c, s, m);
    case Lookup(m) => ConservedLookup(s, m);
    case PushTimer => ConservedPool(s, PushTimerNext(c, s));
    case PopExpired(now, due) => ConservedPool(s, PopExpiredNext(s, due));
    case Tick(time) => ConservedPool(s, s.(clock := time));
  }

  /** A message in a batch fits a buffer. */
  lemma {:induction false} PendingFits(ms: seq<Message>, i: nat)
    requires i < |ms|
    ensures 6 + |ms[i].data| <= |Body(ms)|
  {
    var n := |ms| - 1;
    assert ms == ms[..n] + [ms[n]];
    BodySnoc(ms[..n], ms[n]);
    if i < n {
      PendingFits(ms[..n], i);
    }
  }

  lemma LossesFlush(c: Config, s: State)
    requires PacketsOk(c, s) && LossesOk(c, s) && Enabled(c, s, FlushNext)
    ensures LossesOk(c, FlushNextNext(s))
  {
    var b := s.expired[0].batch;
    var x := s.pool[b];
    assert PacketOk(c, s, b);
    forall i | 0 <= i < |x.msgs|
      ensures !Lost(c, x.msgs[i])
    {
      PendingFits(x.msgs, i);
    }
  }

  lemma LossesSendNow(c: Config, s: State, m: Message)
    requires LossesOk(c, s)
    ensures LossesOk(c, SendNowNext(c, s, m))
  {
    assert FlushOf(Appended(NewBatch(m), m)).msgs == [m];
  }

  lemma LossesOverflow(c: Config, s: State)
    requires LossesOk(c, s) && s.handler.Chosen? && !Urgent(c, s.handler.m)
    ensures LossesOk(c, OverflowNext(c, s))
  {
  }

  /** The message the handler works on was not urgent. */
  ghost predicate HandlesBatched(c: Config, s: State) {
    s.handler.Looked? || s.handler.Chosen? ==> !Urgent(c, s.handler.m)
  }

  lemma BatchedKept(c: Config, s: State, e: Event)
    requires HandlesBatched(c, s) && Enabled(c, s, e)
    ensures HandlesBatched(c, Next(c, s, e))
  {
  }

  lemma LossesKept(c: Config, s: State, e: Event)
    requires RefsOk(s) && PacketsOk(c, s) && HandlesBatched(c, s) && LossesOk(c, s) && Enabled(c, s, e)
    ensures LossesOk(c, Next(c, s, e))
  {
    match e
    case Append => LossesOverflow(c, s);
    case SendNow(m) => LossesSendNow(c, s, m);
    case FlushNext => LossesFlush(c, s);
    case _ =>
  }

  // ---------- Under which header messages leave ----------

  /** The routing data was brought in by some submitted message with this key. */
  ghost predicate Originates(submitted: multiset<Message>, key: Key, route: Route, port: uint16, protocol: byte) {
    exists m :: m in submitted && m.key == key && m.route == route && m.port == port && m.protocol == protocol
  }

  ghost predicate BatchOrigin(submitted: multiset<Message>, x: Batch) {
    Originates(submitted, x.key, x.route, x.port, x.protocol)
  }

  /** A flush carries messages of one key, in wire form, or a bare header. */
  ghost predicate FlushOk(submitted: multiset<Message>, f: Flush) {
    && Originates(submitted, f.key, f.route, f.port, f.protocol)
    && (forall i :: 0 <= i < |f.msgs| ==> f.msgs[i].key == f.key)
    && var h := Header(1, HopField(f.route.hops), 0, f.port, f.protocol);
       f.raw == if f.msgs == [] then EncodeHeader(h) else Emitted(h, SubsOf(f.msgs))
  }

  ghost predicate OriginsOk(s: State) {
    && (forall b :: 0 <= b < |s.pool| ==> BatchOrigin(s.submitted, s.pool[b]))
    && (forall i :: 0 <= i < |s.flushed| ==> FlushOk(s.submitted, s.flushed[i]))
    && (s.handler.Looked? || s.handler.Chosen? ==> s.handler.m in s.submitted)
  }

  lemma OriginsMonotone(s: State, m: Message)
    requires OriginsOk(s)
    ensures forall b :: 0 <= b < |s.pool| ==> BatchOrigin(s.submitted + multiset{m}, s.pool[b])
    ensures forall i :: 0 <= i < |s.flushed| ==> FlushOk(s.submitted + multiset{m}, s.flushed[i])
  {
    assert forall x :: x in s.submitted ==> x in s.submitted + multiset{m};
  }

  /** What a due batch sends is exactly its messages; an empty one sends no stale bytes. */
  lemma FlushOfBatch(c: Config, s: State, b: nat)
    requires RefsOk(s) && PacketsOk(c, s) && b < |s.pool| && s.pool[b].timer.Some? && !Locked(s, b)
    requires BatchOrigin(s.submitted, s.pool[b])
    ensures FlushOk(s.submitted, FlushOf(s.pool[b]))
  {
    var x := s.pool[b];
    assert PacketOk(c, s, b);
    if x.msgs == [] {
      assert EncodeHeader(HeaderOf(x)) + x.stale == EncodeHeader(HeaderOf(x));
    }
  }

  ghost predicate SameRouting(x: Batch, y: Batch) {
    x.key == y.key && x.route == y.route && x.port == y.port && x.protocol == y.protocol
  }

  /** A step that sends nothing and only opens batches for the message in hand. */
  lemma OriginsQuiet(s: State, s': State)
    requires OriginsOk(s) && s'.submitted == s.submitted && s'.flushed == s.flushed && |s.pool| <= |s'.pool|
    requires forall b :: 0 <= b < |s.pool| ==> SameRouting(s'.pool[b], s.pool[b])
    requires |s.pool| < |s'.pool| ==> s.handler.Looked? || s.handler.Chosen?
    requires forall b :: |s.pool| <= b < |s'.pool| ==> SameRouting(s'.pool[b], NewBatch(s.handler.m))
    requires s'.handler.Looked? || s'.handler.Chosen? ==> s'.handler.m in s.submitted
    ensures OriginsOk(s')
  {
    forall b | 0 <= b < |s'.pool|
      ensures BatchOrigin(s'.submitted, s'.pool[b])
    {
      if b < |s.pool| {
        assert BatchOrigin(s.submitted, s.pool[b]);
      }
    }
  }

  lemma OriginsSendNow(c: Config, s: State, m: Message)
    requires OriginsOk(s) && s.handler.Idle?
    ensures OriginsOk(SendNowNext(c, s, m))
  {
    var x := Appended(NewBatch(m), m);
    var all := s.submitted + multiset{m};
    OriginsMonotone(s, m);
    assert m in all;
    assert FlushOk(all, FlushOf(x)) by {
      assert Originates(all, m.key, m.route, m.port, m.protocol);
      assert x.msgs == [m];
    }
  }

  lemma OriginsFlush(c: Config, s: State)
    requires RefsOk(s) && TimersOk(c, s) && PacketsOk(c, s) && OriginsOk(s) && Enabled(c, s, FlushNext)
    ensures OriginsOk(FlushNextNext(s))
  {
    var b := s.expired[0].batch;
    FlushedTimer(c, s);
    assert BatchOrigin(s.submitted, s.pool[b]);
    FlushOfBatch(c, s, b);
    var s' := FlushNextNext(s);
    forall x | 0 <= x < |s'.pool|
      ensures BatchOrigin(s'.submitted, s'.pool[x])
    {
      assert BatchOrigin(s.submitted, s.pool[x]);
    }
  }

  lemma OriginsLookup(s: State, m: Message)
    requires OriginsOk(s)
    ensures OriginsOk(LookupNext(s, m))
  {
    OriginsMonotone(s, m);
  }

  lemma OriginsAppend(c: Config, s: State)
    requires RefsOk(s) && OriginsOk(s) && Enabled(c, s, Append)
    ensures OriginsOk(Next(c, s, Append))
  {
    OriginsQuiet(s, JoinNext(s));
    OriginsQuiet(s, OverflowNext(c, s));
  }

  lemma OriginsKept(c: Config, s: State, e: Event)
    requires RefsOk(s) && TimersOk(c, s) && PacketsOk(c, s) && OriginsOk(s) && Enabled(c, s, e)
    ensures OriginsOk(Next(c, s, e))
  {
    match e
    case SendNow(m) => OriginsSendNow(c, s, m);
    case Lookup(m) => OriginsLookup(s, m);
    case FlushNext => OriginsFlush(c, s);
    case Create(num) => OriginsQuiet(s, CreateNext(s, num));
    case Append => OriginsAppend(c, s);
    case SetTimer => OriginsQuiet(s, SetTimerNext(s));
    case PushTimer => OriginsQuiet(s, PushTimerNext(c, s));
    case PopExpired(now, due) => OriginsQuiet(s, PopExpiredNext(s, due));
    case Tick(time) => OriginsQuiet(s, s.(clock := time));
  }
}
