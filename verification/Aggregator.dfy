/**
 An aggregation worker as a transition system. One goroutine handles messages, another
 flushes expired batches; each transition is one region under a lock. A handled message
 is sent at once or appended to a batch whose timer sits in the heap; expired timers are
 popped together and their batches flushed one by one while the handler goes on.
 */
module Aggregator {
  import opened TunnelPacket
  import opened Wrappers

  type Key = string

  datatype Route = Route(hops: seq<uint32>, nextHop: uint32)

  datatype Message = Message(emerge: bool, key: Key, route: Route, port: uint16, protocol: byte,
                             userID: uint32, data: seq<byte>)

  /** A buffer holds at least a header. */
  type BufferSize = n: nat | n >= HEADER_SIZE witness HEADER_SIZE

  datatype Config = Config(bufferSize: BufferSize, timeout: int)

  /** A heap item; the serial number stands for its identity. */
  datatype Timer = Timer(serial: nat, batch: nat, created: int, deadline: int)

  /** `stale` is what the buffer still holds from before the last reset. */
  datatype Batch = Batch(key: Key, route: Route, port: uint16, protocol: byte,
                         msgs: seq<Message>, payloadLen: uint16, stale: seq<byte>, timer: Option<Timer>)

  /** Where the handling goroutine stands, and which batch it has locked. */
  datatype Handler =
    | Idle
    | Looked(m: Message)
    | Chosen(m: Message, b: nat)
    | Holding(m: Message, b: nat)
    | Pushed(m: Message, b: nat, t: Timer)

  datatype Flush = Flush(key: Key, route: Route, port: uint16, protocol: byte, msgs: seq<Message>, raw: seq<byte>)

  datatype State = State(batches: map<Key, seq<nat>>, pool: seq<Batch>, heap: set<Timer>, expired: seq<Timer>,
                         handler: Handler, clock: int, serial: nat,
                         submitted: multiset<Message>, flushed: seq<Flush>, dropped: multiset<Message>)

  const INIT := State(map[], [], {}, [], Idle, 0, 0, multiset{}, [], multiset{})

  // ---------- Packets of a batch ----------

  function SubsOf(ms: seq<Message>): (subs: seq<SubPacket>)
    ensures |subs| == |ms|
    ensures forall i :: 0 <= i < |ms| ==> subs[i] == SubPacket(ms[i].userID, ms[i].data)
  {
    if ms == [] then [] else SubsOf(ms[..|ms| - 1]) + [SubPacket(ms[|ms| - 1].userID, ms[|ms| - 1].data)]
  }

  function Body(ms: seq<Message>): seq<byte> {
    EncodeSubs(SubsOf(ms))
  }

  lemma BodySnoc(ms: seq<Message>, m: Message)
    ensures |Body(ms + [m])| == |Body(ms)| + 6 + |m.data|
  {
    assert (ms + [m])[..|ms|] == ms;
    EncodeSubsSnoc(SubsOf(ms), SubPacket(m.userID, m.data));
  }

  /** The write offset of the batch's packet. */
  function Wp(x: Batch): nat {
    HEADER_SIZE + |Body(x.msgs)|
  }

  function HeaderOf(x: Batch): Header {
    Header(1, HopField(x.route.hops), x.payloadLen, x.port, x.protocol)
  }

  /** The bytes a flush sends: header and as many payload bytes as the length field says. */
  function RawOf(x: Batch): seq<byte> {
    if x.msgs == [] then EncodeHeader(HeaderOf(x)) + x.stale else Emitted(HeaderOf(x), SubsOf(x.msgs))
  }

  function FlushOf(x: Batch): Flush {
    Flush(x.key, x.route, x.port, x.protocol, x.msgs, RawOf(x))
  }

  function NewBatch(m: Message): Batch {
    Batch(m.key, m.route, m.port, m.protocol, [], 0, [], None)
  }

  predicate Fits(c: Config, x: Batch, m: Message) {
    Wp(x) + 6 + |m.data| <= c.bufferSize
  }

  function Appended(x: Batch, m: Message): Batch {
    x.(msgs := x.msgs + [m], payloadLen := |Body(x.msgs + [m])| % 0x1_0000)
  }

  /** After a flush the offset is reset; the length field and the bytes are left behind. */
  function Reset(x: Batch): Batch {
    var body := Body(x.msgs);
    x.(msgs := [], stale := if x.msgs == [] then x.stale else body[..|body| % 0x1_0000], timer := None)
  }

  // ---------- Transitions ----------

  datatype Event =
    | SendNow(m: Message)
    | Lookup(m: Message)
    | Create(num: nat)
    | Append
    | PushTimer
    | SetTimer
    | PopExpired(now: int, due: seq<Timer>)
    | FlushNext
    | Tick(time: int)

  /** Small messages, short timeouts and flagged messages are not batched. */
  predicate Urgent(c: Config, m: Message) {
    m.emerge || |m.data| < 128 || c.timeout <= 20
  }

  function UrgentSize(c: Config, m: Message): nat {
    if |m.data| < 128 || c.timeout <= 20 then HEADER_SIZE + 6 + |m.data| else c.bufferSize
  }

  predicate Distinct<T(==)>(s: seq<T>) {
    forall i, j :: 0 <= i < j < |s| ==> s[i] != s[j]
  }

  function Elements<T>(s: seq<T>): set<T> {
    set x | x in s
  }

  /** The handler has batch b locked. */
  predicate Locked(s: State, b: nat) {
    (s.handler.Holding? || s.handler.Pushed?) && s.handler.b == b
  }

  function Choice(ids: seq<nat>, m: Message): nat
    requires |ids| > 0
  {
    ids[m.userID % |ids|]
  }

  predicate Enabled(c: Config, s: State, e: Event) {
    match e
    case SendNow(m) => s.handler.Idle? && Urgent(c, m)
    case Lookup(m) => s.handler.Idle? && !Urgent(c, m)
    case Create(num) => s.handler.Looked? && num >= 1
    case Append => s.handler.Chosen? && s.handler.b < |s.pool|
    case PushTimer => s.handler.Holding? && s.handler.b < |s.pool|
    case SetTimer => s.handler.Pushed? && s.handler.b < |s.pool|
    case PopExpired(now, due) =>
      s.expired == [] && now <= s.clock && Distinct(due) && Elements(due) == set t | t in s.heap && t.deadline <= now
    case FlushNext => s.expired != [] && s.expired[0].batch < |s.pool| && !Locked(s, s.expired[0].batch)
    case Tick(time) => s.clock <= time
  }

  function SendNowNext(c: Config, s: State, m: Message): State {
    var x := Appended(NewBatch(m), m);
    var s' := s.(submitted := s.submitted + multiset{m});
    if HEADER_SIZE + 6 + |m.data| <= UrgentSize(c, m)
    then s'.(flushed := s.flushed + [FlushOf(x)])
    else s'.(dropped := s.dropped + multiset{m})
  }

  function LookupNext(s: State, m: Message): State {
    s.(submitted := s.submitted + multiset{m},
       handler := if m.key in s.batches && |s.batches[m.key]| > 0 then Chosen(m, Choice(s.batches[m.key], m))
                  else Looked(m))
  }

  function Copies(m: Message, n: nat): (xs: seq<Batch>)
    ensures |xs| == n && forall i :: 0 <= i < n ==> xs[i] == NewBatch(m)
  {
    seq(n, i => NewBatch(m))
  }

  function Range(lo: nat, n: nat): (ids: seq<nat>)
    ensures |ids| == n && forall i :: 0 <= i < n ==> ids[i] == lo + i
  {
    seq(n, i => lo + i)
  }

  /** New batches are stored unless the key has some by now. */
  function CreateNext(s: State, num: nat): State
    requires s.handler.Looked? && num >= 1
  {
    var m := s.handler.m;
    if m.key in s.batches
    then if |s.batches[m.key]| > 0 then s.(handler := Chosen(m, Choice(s.batches[m.key], m)))
         else s.(handler := Idle, dropped := s.dropped + multiset{m})
    else var ids := Range(|s.pool|, num);
         s.(pool := s.pool + Copies(m, num), batches := s.batches[m.key := ids], handler := Chosen(m, Choice(ids, m)))
  }

  /** The chosen batch cannot take the message. */
  predicate MustOverflow(c: Config, x: Batch, m: Message) {
    (x.timer.None? && Wp(x) > HEADER_SIZE) || !Fits(c, x, m)
  }

  /** The message joins the chosen batch. */
  function JoinNext(s: State): State
    requires s.handler.Chosen? && s.handler.b < |s.pool|
  {
    var m, b := s.handler.m, s.handler.b;
    s.(pool := s.pool[b := Appended(s.pool[b], m)], handler := Holding(m, b))
  }

  /** A further batch opened for the message, which it may not fit either. */
  function Opened(c: Config, m: Message): Batch {
    if Fits(c, NewBatch(m), m) then Appended(NewBatch(m), m) else NewBatch(m)
  }

  /** Storing a batch that the handler keeps locked. */
  function Store(s: State, m: Message, x: Batch): State {
    s.(pool := s.pool + [x],
       batches := s.batches[m.key := (if m.key in s.batches then s.batches[m.key] else []) + [|s.pool|]],
       handler := Holding(m, |s.pool|))
  }

  function OverflowNext(c: Config, s: State): State
    requires s.handler.Chosen?
  {
    var m := s.handler.m;
    Store(s, m, Opened(c, m)).(dropped := if Fits(c, NewBatch(m), m) then s.dropped else s.dropped + multiset{m})
  }

  function AppendNext(c: Config, s: State): State
    requires s.handler.Chosen? && s.handler.b < |s.pool|
  {
    if MustOverflow(c, s.pool[s.handler.b], s.handler.m) then OverflowNext(c, s) else JoinNext(s)
  }

  function PushTimerNext(c: Config, s: State): State
    requires s.handler.Holding? && s.handler.b < |s.pool|
  {
    var m, b := s.handler.m, s.handler.b;
    if s.pool[b].timer.Some? then s.(handler := Idle) else
    var t := Timer(s.serial, b, s.clock, s.clock + c.timeout);
    s.(heap := s.heap + {t}, serial := s.serial + 1, handler := Pushed(m, b, t))
  }

  function SetTimerNext(s: State): State
    requires s.handler.Pushed? && s.handler.b < |s.pool|
  {
    s.(pool := s.pool[s.handler.b := s.pool[s.handler.b].(timer := Some(s.handler.t))], handler := Idle)
  }

  function PopExpiredNext(s: State, due: seq<Timer>): State {
    s.(heap := s.heap - Elements(due), expired := due)
  }

  function FlushNextNext(s: State): State
    requires s.expired != [] && s.expired[0].batch < |s.pool|
  {
    var b := s.expired[0].batch;
    var x := s.pool[b];
    s.(expired := s.expired[1..], pool := s.pool[b := Reset(x)],
       flushed := s.flushed + [FlushOf(x)])
  }

  function Next(c: Config, s: State, e: Event): State
    requires Enabled(c, s, e)
  {
    match e
    case SendNow(m) => SendNowNext(c, s, m)
    case Lookup(m) => LookupNext(s, m)
    case Create(num) => CreateNext(s, num)
    case Append => AppendNext(c, s)
    case PushTimer => PushTimerNext(c, s)
    case SetTimer => SetTimerNext(s)
    case PopExpired(now, due) => PopExpiredNext(s, due)
    case FlushNext => FlushNextNext(s)
    case Tick(time) => s.(clock := time)
  }

  // ---------- Invariants ----------

  /** Batches are stored under their own key, and the handler's batch carries its message's key. */
  ghost predicate RefsOk(s: State) {
    && (forall k :: k in s.batches ==> |s.batches[k]| > 0)
    && (forall k, i :: k in s.batches && 0 <= i < |s.batches[k]| ==>
          s.batches[k][i] < |s.pool| && s.pool[s.batches[k][i]].key == k)
    && (s.handler.Chosen? || s.handler.Holding? || s.handler.Pushed? ==>
          s.handler.b < |s.pool| && s.pool[s.handler.b].key == s.handler.m.key)
    && (forall b, i :: 0 <= b < |s.pool| && 0 <= i < |s.pool[b].msgs| ==> s.pool[b].msgs[i].key == s.pool[b].key)
  }

  ghost predicate Live(s: State, t: Timer) {
    t in s.heap || t in s.expired
  }

  /** The one timer a batch has, if any: its own, or the one just pushed for it. */
  ghost function TimerOf(s: State, b: nat): Option<Timer>
    requires b < |s.pool|
  {
    if s.handler.Pushed? && s.handler.b == b then Some(s.handler.t) else s.pool[b].timer
  }

  /** Live timers and batch timers are the same thing, one per batch, due `timeout` after creation. */
  ghost predicate TimersOk(c: Config, s: State) {
    && (forall t :: Live(s, t) ==>
          && t.batch < |s.pool| && TimerOf(s, t.batch) == Some(t) && t.serial < s.serial
          && t.created <= s.clock && t.deadline == t.created + c.timeout)
    && (forall b :: 0 <= b < |s.pool| && TimerOf(s, b).Some? ==>
          TimerOf(s, b).value.batch == b && Live(s, TimerOf(s, b).value))
    && (s.handler.Pushed? ==> s.handler.b < |s.pool| && s.pool[s.handler.b].timer.None?)
    && Distinct(s.expired) && (forall t :: t in s.expired ==> t !in s.heap)
  }

  /**
   A batch holding messages has a timer unless it is being worked on; its length field is never
   stale when it has one.
   */
  ghost predicate PacketOk(c: Config, s: State, b: nat)
    requires b < |s.pool|
  {
    var x := s.pool[b];
    && (x.msgs != [] ==>
          && x.payloadLen == |Body(x.msgs)| % 0x1_0000 && Wp(x) <= c.bufferSize
          && (TimerOf(s, b).Some? || Locked(s, b)))
    && (x.msgs == [] ==> |x.stale| == x.payloadLen)
    && (x.msgs == [] && (TimerOf(s, b).Some? || Locked(s, b)) ==> x.payloadLen == 0 && s.dropped != multiset{})
  }

  ghost predicate PacketsOk(c: Config, s: State) {
    forall b :: 0 <= b < |s.pool| ==> PacketOk(c, s, b)
  }

  lemma RefsCreate(s: State, num: nat)
    requires RefsOk(s) && s.handler.Looked? && num >= 1
    ensures RefsOk(CreateNext(s, num))
  {
    var s' := CreateNext(s, num);
    forall k, i | k in s'.batches && 0 <= i < |s'.batches[k]|
      ensures s'.batches[k][i] < |s'.pool| && s'.pool[s'.batches[k][i]].key == k
    {
    }
    forall b, i | 0 <= b < |s'.pool| && 0 <= i < |s'.pool[b].msgs|
      ensures s'.pool[b].msgs[i].key == s'.pool[b].key
    {
    }
  }

  lemma RefsJoin(s: State)
    requires RefsOk(s) && s.handler.Chosen?
    ensures RefsOk(JoinNext(s))
  {
    var s' := JoinNext(s);
    var b := s.handler.b;
    assert s'.pool[b].msgs == s.pool[b].msgs + [s.handler.m];
    assert |s'.pool| == |s.pool| && forall x :: 0 <= x < |s.pool| ==> s'.pool[x].key == s.pool[x].key;
  }

  lemma RefsStore(s: State, m: Message, x: Batch)
    requires RefsOk(s) && x.key == m.key && (x.msgs == [] || x.msgs == [m])
    ensures RefsOk(Store(s, m, x))
  {
    var s' := Store(s, m, x);
    forall k, i | k in s'.batches && 0 <= i < |s'.batches[k]|
      ensures s'.batches[k][i] < |s'.pool| && s'.pool[s'.batches[k][i]].key == k
    {
      if k in s.batches && i < |s.batches[k]| {
        assert s'.batches[k][i] == s.batches[k][i];
      }
    }
  }

  lemma RefsFlush(s: State)
    requires RefsOk(s) && s.expired != [] && s.expired[0].batch < |s.pool|
    ensures RefsOk(FlushNextNext(s))
  {
    var s' := FlushNextNext(s);
    assert |s'.pool| == |s.pool| && forall b :: 0 <= b < |s.pool| ==> s'.pool[b].key == s.pool[b].key;
  }

  lemma RefsKept(c: Config, s: State, e: Event)
    requires RefsOk(s) && Enabled(c, s, e)
    ensures RefsOk(Next(c, s, e))
  {
    match e
    case Create(num) => RefsCreate(s, num);
    case Append =>
      RefsJoin(s);
      RefsStore(s, s.handler.m, Opened(c, s.handler.m));
    case FlushNext => RefsFlush(s);
    case _ =>
  }

  /** A step that leaves every batch's timer alone keeps the timers in order. */
  lemma TimersUntouched(c: Config, s: State, s': State)
    requires TimersOk(c, s) && s'.heap == s.heap && s'.expired == s.expired && s'.serial == s.serial
    requires s.clock <= s'.clock
    requires |s.pool| <= |s'.pool| && (forall b :: 0 <= b < |s.pool| ==> TimerOf(s', b) == TimerOf(s, b))
    requires forall b :: |s.pool| <= b < |s'.pool| ==> TimerOf(s', b).None?
    requires s'.handler.Pushed? ==> s'.handler.b < |s'.pool| && s'.pool[s'.handler.b].timer.None?
    ensures TimersOk(c, s')
  {
    forall t | Live(s', t)
      ensures t.batch < |s'.pool| && TimerOf(s', t.batch) == Some(t) && t.serial < s'.serial
      ensures t.created <= s'.clock && t.deadline == t.created + c.timeout
    {
      assert Live(s, t);
    }
    forall b | 0 <= b < |s'.pool| && TimerOf(s', b).Some?
      ensures TimerOf(s', b).value.batch == b && Live(s', TimerOf(s', b).value)
    {
      assert Live(s, TimerOf(s, b).value);
    }
  }

  lemma TimersPush(c: Config, s: State)
    requires RefsOk(s) && TimersOk(c, s) && s.handler.Holding? && s.pool[s.handler.b].timer.None?
    ensures TimersOk(c, PushTimerNext(c, s))
  {
    var s' := PushTimerNext(c, s);
    var t := s'.handler.t;
    forall x | Live(s', x)
      ensures x.batch < |s'.pool| && TimerOf(s', x.batch) == Some(x) && x.serial < s'.serial
      ensures x.created <= s'.clock && x.deadline == x.created + c.timeout
    {
      assert x == t || Live(s, x);
    }
    forall b | 0 <= b < |s'.pool| && TimerOf(s', b).Some?
      ensures TimerOf(s', b).value.batch == b && Live(s', TimerOf(s', b).value)
    {
      if b != s.handler.b {
        assert TimerOf(s, b) == TimerOf(s', b) && Live(s, TimerOf(s, b).value);
      } else {
        assert t in s'.heap;
      }
    }
    assert forall x :: x in s.expired ==> Live(s, x) && x != t;
  }

  lemma TimersPop(c: Config, s: State, now: int, due: seq<Timer>)
    requires TimersOk(c, s) && Enabled(c, s, PopExpired(now, due))
    ensures TimersOk(c, PopExpiredNext(s, due))
    ensures forall t :: Live(PopExpiredNext(s, due), t) <==> Live(s, t)
    ensures forall t :: t in PopExpiredNext(s, due).heap ==> t.deadline > now
  {
    var s' := PopExpiredNext(s, due);
    forall t
      ensures Live(s', t) <==> Live(s, t)
    {
      assert t in due <==> t in Elements(due);
    }
    forall t | t in s'.expired
      ensures t !in s'.heap
    {
      assert t in Elements(due);
    }
    forall b | 0 <= b < |s'.pool|
      ensures TimerOf(s', b) == TimerOf(s, b)
    {
    }
  }

  /** The timer about to be flushed is its batch's own. */
  lemma FlushedTimer(c: Config, s: State)
    requires TimersOk(c, s) && Enabled(c, s, FlushNext)
    ensures s.pool[s.expired[0].batch].timer == Some(s.expired[0])
  {
    assert Live(s, s.expired[0]);
  }

  lemma TimersFlush(c: Config, s: State)
    requires TimersOk(c, s) && Enabled(c, s, FlushNext)
    ensures TimersOk(c, FlushNextNext(s))
    ensures forall t :: Live(FlushNextNext(s), t) <==> Live(s, t) && t != s.expired[0]
  {
    var s' := FlushNextNext(s);
    var t0 := s.expired[0];
    FlushedTimer(c, s);
    assert s.expired == [t0] + s'.expired;
    forall t
      ensures Live(s', t) <==> Live(s, t) && t != t0
    {
    }
    forall b | 0 <= b < |s'.pool|
      ensures TimerOf(s', b) == if b == t0.batch then None else TimerOf(s, b)
    {
    }
    forall t | Live(s', t)
      ensures t.batch != t0.batch
    {
      assert Live(s, t);
    }
    forall b | 0 <= b < |s'.pool| && TimerOf(s', b).Some?
      ensures TimerOf(s', b).value.batch == b && Live(s', TimerOf(s', b).value)
    {
      assert Live(s, TimerOf(s, b).value);
    }
  }

  lemma TimersCreate(c: Config, s: State, num: nat)
    requires TimersOk(c, s) && s.handler.Looked? && num >= 1
    ensures TimersOk(c, CreateNext(s, num))
  {
    TimersUntouched(c, s, CreateNext(s, num));
  }

  lemma TimersJoin(c: Config, s: State)
    requires TimersOk(c, s) && s.handler.Chosen? && s.handler.b < |s.pool|
    ensures TimersOk(c, JoinNext(s))
  {
    TimersUntouched(c, s, JoinNext(s));
  }

  lemma TimersStore(c: Config, s: State, m: Message, x: Batch, dropped: multiset<Message>)
    requires TimersOk(c, s) && s.handler.Chosen? && x.timer.None?
    ensures TimersOk(c, Store(s, m, x).(dropped := dropped))
  {
    TimersUntouched(c, s, Store(s, m, x).(dropped := dropped));
  }

  lemma TimersSet(c: Config, s: State)
    requires TimersOk(c, s) && s.handler.Pushed? && s.handler.b < |s.pool|
    ensures TimersOk(c, SetTimerNext(s))
  {
    TimersUntouched(c, s, SetTimerNext(s));
  }

  lemma TimersAppend(c: Config, s: State)
    requires TimersOk(c, s) && s.handler.Chosen? && s.handler.b < |s.pool|
    ensures TimersOk(c, AppendNext(c, s))
  {
    TimersJoin(c, s);
    TimersStore(c, s, s.handler.m, Opened(c, s.handler.m), OverflowNext(c, s).dropped);
  }

  lemma TimersKept(c: Config, s: State, e: Event)
    requires RefsOk(s) && TimersOk(c, s) && Enabled(c, s, e)
    ensures TimersOk(c, Next(c, s, e))
  {
    match e
    case PopExpired(now, due) => TimersPop(c, s, now, due);
    case FlushNext => TimersFlush(c, s);
    case Create(num) => TimersCreate(c, s, num);
    case Append => TimersAppend(c, s);
    case SetTimer => TimersSet(c, s);
    case PushTimer =>
      if s.pool[s.handler.b].timer.None? {
        TimersPush(c, s);
      } else {
        TimersUntouched(c, s, PushTimerNext(c, s));
      }
    case SendNow(m) => TimersUntouched(c, s, SendNowNext(c, s, m));
    case Lookup(m) => TimersUntouched(c, s, LookupNext(s, m));
    case Tick(time) => TimersUntouched(c, s, s.(clock := time));
  }

  /** A batch whose content, timer and lock are as before is as good as before. */
  lemma PacketUntouched(c: Config, s: State, s': State, b: nat)
    requires b < |s.pool| && b < |s'.pool| && PacketOk(c, s, b) && s'.pool[b] == s.pool[b]
    requires TimerOf(s', b).Some? || Locked(s', b) <==> TimerOf(s, b).Some? || Locked(s, b)
    requires s.dropped <= s'.dropped
    ensures PacketOk(c, s', b)
  {
    assert s.dropped != multiset{} ==> s'.dropped != multiset{} by {
      if s.dropped != multiset{} {
        var m :| m in s.dropped;
        assert m in s'.dropped;
      }
    }
  }

  lemma PacketsUntouched(c: Config, s: State, s': State)
    requires PacketsOk(c, s) && s'.pool == s.pool && s.dropped <= s'.dropped
    requires forall b :: 0 <= b < |s.pool| ==>
               (TimerOf(s', b).Some? || Locked(s', b) <==> TimerOf(s, b).Some? || Locked(s, b))
    ensures PacketsOk(c, s')
  {
    forall b | 0 <= b < |s'.pool|
      ensures PacketOk(c, s', b)
    {
      PacketUntouched(c, s, s', b);
    }
  }

  /** An appended message leaves a well-formed packet behind. */
  lemma AppendedPacket(c: Config, x: Batch, m: Message)
    requires Fits(c, x, m)
    ensures Appended(x, m).msgs != [] && Appended(x, m).payloadLen == |Body(Appended(x, m).msgs)| % 0x1_0000
    ensures Wp(Appended(x, m)) <= c.bufferSize
  {
    BodySnoc(x.msgs, m);
  }

  lemma PacketsJoin(c: Config, s: State)
    requires RefsOk(s) && PacketsOk(c, s) && s.handler.Chosen? && Fits(c, s.pool[s.handler.b], s.handler.m)
    ensures PacketsOk(c, JoinNext(s))
  {
    var s' := JoinNext(s);
    AppendedPacket(c, s.pool[s.handler.b], s.handler.m);
    forall b | 0 <= b < |s'.pool|
      ensures PacketOk(c, s', b)
    {
      if b != s.handler.b {
        PacketUntouched(c, s, s', b);
      }
    }
  }

  lemma PacketsOverflow(c: Config, s: State)
    requires RefsOk(s) && PacketsOk(c, s) && s.handler.Chosen?
    ensures PacketsOk(c, OverflowNext(c, s))
  {
    var s' := OverflowNext(c, s);
    var m := s.handler.m;
    if Fits(c, NewBatch(m), m) {
      AppendedPacket(c, NewBatch(m), m);
    } else {
      assert m in s'.dropped;
    }
    forall b | 0 <= b < |s'.pool|
      ensures PacketOk(c, s', b)
    {
      if b < |s.pool| {
        PacketUntouched(c, s, s', b);
      }
    }
  }

  lemma PacketsCreate(c: Config, s: State, num: nat)
    requires PacketsOk(c, s) && s.handler.Looked? && num >= 1
    ensures PacketsOk(c, CreateNext(s, num))
  {
    var s' := CreateNext(s, num);
    forall b | 0 <= b < |s'.pool|
      ensures PacketOk(c, s', b)
    {
      if b < |s.pool| {
        PacketUntouched(c, s, s', b);
      }
    }
  }

  lemma PacketsSet(c: Config, s: State)
    requires TimersOk(c, s) && PacketsOk(c, s) && s.handler.Pushed?
    ensures PacketsOk(c, SetTimerNext(s))
  {
    var s' := SetTimerNext(s);
    forall b | 0 <= b < |s'.pool|
      ensures PacketOk(c, s', b)
    {
      if b != s.handler.b {
        PacketUntouched(c, s, s', b);
      } else {
        assert PacketOk(c, s, b);
      }
    }
  }

  lemma PacketsFlush(c: Config, s: State)
    requires TimersOk(c, s) && PacketsOk(c, s) && Enabled(c, s, FlushNext)
    ensures PacketsOk(c, FlushNextNext(s))
  {
    var s' := FlushNextNext(s);
    FlushedTimer(c, s);
    forall b | 0 <= b < |s'.pool|
      ensures PacketOk(c, s', b)
    {
      if b != s.expired[0].batch {
        PacketUntouched(c, s, s', b);
      } else {
        assert PacketOk(c, s, b);
      }
    }
  }

  lemma PacketsKept(c: Config, s: State, e: Event)
    requires RefsOk(s) && TimersOk(c, s) && PacketsOk(c, s) && Enabled(c, s, e)
    ensures PacketsOk(c, Next(c, s, e))
  {
    match e
    case FlushNext => PacketsFlush(c, s);
    case Create(num) => PacketsCreate(c, s, num);
    case Append =>
      if MustOverflow(c, s.pool[s.handler.b], s.handler.m) {
        PacketsOverflow(c, s);
      } else {
        PacketsJoin(c, s);
      }
    case SetTimer => PacketsSet(c, s);
    case PushTimer => PacketsUntouched(c, s, PushTimerNext(c, s));
    case PopExpired(now, due) => PacketsUntouched(c, s, PopExpiredNext(s, due));
    case SendNow(m) => PacketsUntouched(c, s, SendNowNext(c, s, m));
    case Lookup(m) => PacketsUntouched(c, s, LookupNext(s, m));
    case Tick(time) => PacketsUntouched(c, s, s.(clock := time));
  }

  /** The handler never meets an unlocked batch with content and no timer: that exit is dead. */
  lemma OrphanBatchImpossible(c: Config, s: State)
    requires RefsOk(s) && PacketsOk(c, s) && s.handler.Chosen?
    ensures var x := s.pool[s.handler.b]; !(x.timer.None? && Wp(x) > HEADER_SIZE)
    ensures MustOverflow(c, s.pool[s.handler.b], s.handler.m) <==> !Fits(c, s.pool[s.handler.b], s.handler.m)
  {
    assert PacketOk(c, s, s.handler.b);
  }
}
