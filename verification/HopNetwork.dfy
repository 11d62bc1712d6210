/**
 The nodes together: sources batch requests, relays forward or submit them, origins answer,
 and the answers come back. Packets may be taken off the wire in any order.
 */
module HopNetwork {
  import opened TunnelPacket
  import opened HopProtocol

  /** A packet in flight. Nodes see destination and bytes; the load records what was put in. */
  datatype Wire = Wire(dst: uint32, raw: seq<byte>, load: Load)

  /**
   `tasks` were submitted for the requests `asked`; the origin gave nothing for those in `failed`;
   `made` are the replies to the requests `answered`; `delivered` is what the homes of the
   replies `home` received.
   */
  datatype Net = Net(submitted: multiset<Request>, waiting: multiset<Request>, wires: seq<Wire>,
                     tasks: seq<Task>, asked: seq<Request>, failed: multiset<Request>,
                     answered: seq<Request>, made: seq<Reply>,
                     replies: multiset<Reply>, delivered: seq<Delivery>, home: seq<Reply>, lost: bool)

  const START := Net(multiset{}, multiset{}, [], [], [], multiset{}, [], [], multiset{}, [], [], false)

  /** A request or answer that fits a packet of its own. */
  ghost predicate GoodRequest(r: Request) {
    GoodPath(r.path) && r.port != 0 && r.data != [] && 6 + |r.data| < 0x1_0000
  }

  datatype Event =
    | Accept(r: Request)
    | SendBatch(rs: seq<Request>)
    | Receive(i: nat)
    | Answer(i: nat, data: seq<byte>)
    | Fail(i: nat)
    | SendReplies(back: seq<Reply>)

  ghost predicate Enabled(s: Net, e: Event) {
    match e
    case Accept(r) => GoodRequest(r)
    case SendBatch(rs) => RequestBatch(rs) && multiset(rs) <= s.waiting
    case Receive(i) => i < |s.wires|
    case Answer(i, data) => i < |s.tasks| && i < |s.asked| && data != [] && 6 + |data| < 0x1_0000
    case Fail(i) => i < |s.tasks| && i < |s.asked|
    case SendReplies(rs) => ReplyBatch(rs) && multiset(rs) <= s.replies
  }

  function Without<T>(s: seq<T>, i: nat): seq<T>
    requires i < |s|
  {
    s[..i] + s[i + 1..]
  }

  function DeliveriesAt(node: uint32, subs: seq<SubPacket>): (ds: seq<Delivery>)
    ensures |ds| == |subs| && forall i :: 0 <= i < |subs| ==> ds[i] == Delivery(node, subs[i].userID, subs[i].data)
  {
    seq(|subs|, i requires 0 <= i < |subs| => Delivery(node, subs[i].userID, subs[i].data))
  }

  function RequestsIn(l: Load): seq<Request> {
    if l.Carrying? then l.requests else []
  }

  function RepliesIn(l: Load): seq<Reply> {
    if l.Returning? then l.replies else []
  }

  /** What the network becomes when the node at w.dst acts on w. */
  ghost function ReceiveNext(s: Net, i: nat): Net
    requires i < |s.wires|
  {
    var w := s.wires[i];
    var rest := s.(wires := Without(s.wires, i));
    match Handle(w.raw)
    case Forward(next, raw) =>
      rest.(wires := rest.wires + [Wire(next, raw, if w.load.pos < 3 then w.load.Ahead() else w.load)])
    case Submit(ts) => rest.(tasks := s.tasks + ts, asked := s.asked + RequestsIn(w.load))
    case Deliver(subs) =>
      rest.(delivered := s.delivered + DeliveriesAt(w.dst, subs), home := s.home + RepliesIn(w.load))
    case Discard => rest.(lost := true)
    case Panic => rest.(lost := true)
  }

  /** The answer to a task goes into the response aggregator; a route without a next hop would panic. */
  function AnswerNext(s: Net, i: nat, data: seq<byte>): Net
    requires i < |s.tasks| && i < |s.asked|
  {
    var hops := ReturnHops(s.tasks[i].hopIP);
    var reply := Reply(hops, s.tasks[i].userID, data);
    s.(tasks := Without(s.tasks, i), asked := Without(s.asked, i),
       answered := s.answered + [s.asked[i]], made := s.made + [reply],
       replies := s.replies + multiset{reply}, lost := s.lost || |hops| < 2)
  }

  /** A task whose origin fails or answers nothing is dropped. */
  function FailNext(s: Net, i: nat): Net
    requires i < |s.tasks| && i < |s.asked|
  {
    s.(tasks := Without(s.tasks, i), asked := Without(s.asked, i), failed := s.failed + multiset{s.asked[i]})
  }

  ghost function Next(s: Net, e: Event): Net
    requires Enabled(s, e)
  {
    match e
    case Accept(r) => s.(submitted := s.submitted + multiset{r}, waiting := s.waiting + multiset{r})
    case SendBatch(rs) =>
      var l := Carrying(rs, 1);
      s.(waiting := s.waiting - multiset(rs), wires := s.wires + [Wire(rs[0].path[1], l.Raw(), l)])
    case Receive(i) => ReceiveNext(s, i)
    case Answer(i, data) => AnswerNext(s, i, data)
    case Fail(i) => FailNext(s, i)
    case SendReplies(rs) =>
      var l := Returning(rs, 1);
      s.(replies := s.replies - multiset(rs), wires := s.wires + [Wire(rs[0].hops[1], l.Raw(), l)])
  }

  // ---------- Invariants ----------

  /** Every packet in flight is addressed to the hop its position names and holds its load's bytes. */
  ghost predicate WireOk(w: Wire) {
    w.load.Valid() && w.raw == w.load.Raw() && w.dst == w.load.Hops()[w.load.pos]
  }

  /** The reply travels the request's relays backwards and ends at its first hop. */
  ghost predicate GoesBack(r: Request, y: Reply) {
    && GoodPath(r.path) && y.userID == r.userID && |y.hops| == |r.path| - 1
    && (forall i :: 0 <= i < |y.hops| ==> y.hops[i] == r.path[|r.path| - 2 - i])
  }

  ghost predicate GoodReply(y: Reply) {
    2 <= |y.hops| <= 3 && (forall i :: 0 <= i < |y.hops| ==> y.hops[i] != 0) && y.data != [] && 6 + |y.data| < 0x1_0000
  }

  ghost predicate WiresOk(ws: seq<Wire>) {
    forall i :: 0 <= i < |ws| ==> WireOk(ws[i])
  }

  ghost predicate TasksOk(ts: seq<Task>, asked: seq<Request>) {
    |ts| == |asked| && forall i :: 0 <= i < |ts| ==> GoodPath(asked[i].path) && ts[i] == TaskOf(asked[i])
  }

  ghost predicate MadeOk(answered: seq<Request>, made: seq<Reply>) {
    |made| == |answered| && forall i :: 0 <= i < |made| ==> GoesBack(answered[i], made[i])
  }

  ghost predicate HomeOk(delivered: seq<Delivery>, home: seq<Reply>) {
    |delivered| == |home| && forall i :: 0 <= i < |home| ==> |home[i].hops| >= 1 && delivered[i] == Home(home[i])
  }

  ghost predicate Shapes(s: Net) {
    && !s.lost && WiresOk(s.wires) && TasksOk(s.tasks, s.asked)
    && MadeOk(s.answered, s.made) && HomeOk(s.delivered, s.home)
    && (forall r :: r in s.waiting ==> GoodRequest(r)) && (forall y :: y in s.replies ==> GoodReply(y))
  }

  function Home(y: Reply): Delivery
    requires |y.hops| >= 1
  {
    Delivery(y.hops[|y.hops| - 1], y.userID, y.data)
  }

  /** The last relay's tasks are those of the requests on board. */
  lemma SubmitsItsRequests(w: Wire)
    requires WireOk(w) && w.load.Carrying? && w.load.pos == |w.load.Hops()| - 2
    ensures Handle(w.raw).Submit? && TasksOk(Handle(w.raw).tasks, w.load.requests)
  {
    LastRelaySubmits(w.load);
  }

  lemma DeliversItsReplies(w: Wire)
    requires WireOk(w) && w.load.Returning? && w.load.pos == |w.load.Hops()| - 1
    ensures Handle(w.raw).Deliver? && HomeOk(DeliveriesAt(w.dst, Handle(w.raw).subs), w.load.replies)
  {
    HomeDelivers(w.load);
  }

  /** The load has further to go. */
  ghost predicate OnItsWay(l: Load)
    requires l.Valid()
  {
    if l.Carrying? then l.pos < |l.Hops()| - 2 else l.pos < |l.Hops()| - 1
  }

  lemma ForwardsItsLoad(w: Wire)
    requires WireOk(w) && OnItsWay(w.load)
    ensures Handle(w.raw).Forward? && w.load.pos < 3
    ensures WireOk(Wire(Handle(w.raw).next, Handle(w.raw).raw, w.load.Ahead()))
  {
    if w.load.Carrying? {
      RelayForwards(w.load);
    } else {
      ResponseForwards(w.load);
    }
  }

  lemma WithoutKeepsWires(ws: seq<Wire>, i: nat)
    requires WiresOk(ws) && i < |ws|
    ensures WiresOk(Without(ws, i))
  {
    forall k | 0 <= k < |Without(ws, i)|
      ensures WireOk(Without(ws, i)[k])
    {
      assert Without(ws, i)[k] == ws[if k < i then k else k + 1];
    }
  }

  lemma WithoutKeepsTasks(ts: seq<Task>, asked: seq<Request>, i: nat)
    requires TasksOk(ts, asked) && i < |ts|
    ensures TasksOk(Without(ts, i), Without(asked, i))
  {
    assert forall k :: 0 <= k < |ts| - 1 ==> Without(ts, i)[k] == ts[if k < i then k else k + 1];
    assert forall k :: 0 <= k < |ts| - 1 ==> Without(asked, i)[k] == asked[if k < i then k else k + 1];
  }

  lemma ActionCases(w: Wire)
    requires WireOk(w)
    ensures var a := Handle(w.raw);
            || (a.Forward? && w.load.pos < 3 && WireOk(Wire(a.next, a.raw, w.load.Ahead())))
            || (a.Submit? && w.load.Carrying? && TasksOk(a.tasks, w.load.requests))
            || (a.Deliver? && w.load.Returning? && HomeOk(DeliveriesAt(w.dst, a.subs), w.load.replies))
  {
    if OnItsWay(w.load) {
      ForwardsItsLoad(w);
    } else if w.load.Carrying? {
      SubmitsItsRequests(w);
    } else {
      DeliversItsReplies(w);
    }
  }

  /** One of three things happens to a packet, and never a loss. */
  lemma ReceiveCases(s: Net, i: nat)
    requires Shapes(s) && i < |s.wires|
    ensures var w := s.wires[i]; var a := Handle(w.raw);
            var rest := s.(wires := Without(s.wires, i));
            || (a.Forward? && w.load.pos < 3 && WireOk(Wire(a.next, a.raw, w.load.Ahead()))
                && ReceiveNext(s, i) == rest.(wires := rest.wires + [Wire(a.next, a.raw, w.load.Ahead())]))
            || (w.load.Carrying? && a.Submit? && TasksOk(a.tasks, w.load.requests)
                && ReceiveNext(s, i) == rest.(tasks := s.tasks + a.tasks, asked := s.asked + w.load.requests))
            || (w.load.Returning? && a.Deliver? && HomeOk(DeliveriesAt(w.dst, a.subs), w.load.replies)
                && ReceiveNext(s, i) == rest.(delivered := s.delivered + DeliveriesAt(w.dst, a.subs),
                                              home := s.home + w.load.replies))
  {
    assert WireOk(s.wires[i]);
    ActionCases(s.wires[i]);
  }

  lemma TasksConcat(ts: seq<Task>, asked: seq<Request>, more: seq<Task>, these: seq<Request>)
    requires TasksOk(ts, asked) && TasksOk(more, these)
    ensures TasksOk(ts + more, asked + these)
  {
  }

  lemma HomeConcat(ds: seq<Delivery>, home: seq<Reply>, more: seq<Delivery>, these: seq<Reply>)
    requires HomeOk(ds, home) && HomeOk(more, these)
    ensures HomeOk(ds + more, home + these)
  {
  }

  lemma ShapesReceive(s: Net, i: nat)
    requires Shapes(s) && i < |s.wires|
    ensures Shapes(ReceiveNext(s, i))
  {
    var w := s.wires[i];
    WithoutKeepsWires(s.wires, i);
    ReceiveCases(s, i);
    var a := Handle(w.raw);
    if a.Submit? {
      TasksConcat(s.tasks, s.asked, a.tasks, w.load.requests);
    } else if a.Deliver? {
      HomeConcat(s.delivered, s.home, DeliveriesAt(w.dst, a.subs), w.load.replies);
    }
  }

  lemma ShapesAnswer(s: Net, i: nat, data: seq<byte>)
    requires Shapes(s) && Enabled(s, Answer(i, data))
    ensures Shapes(AnswerNext(s, i, data))
  {
    ReplyGoesBack(s.asked[i], data);
    WithoutKeepsTasks(s.tasks, s.asked, i);
  }

  lemma ReplyGoesBack(r: Request, data: seq<byte>)
    requires GoodPath(r.path) && data != [] && 6 + |data| < 0x1_0000
    ensures var y := Reply(ReturnHops(TaskOf(r).hopIP), TaskOf(r).userID, data); GoesBack(r, y) && GoodReply(y)
  {
    ReturnRoute(r.path);
  }

  lemma ShapesSend(s: Net, l: Load, waiting: multiset<Request>, replies: multiset<Reply>)
    requires Shapes(s) && l.Valid() && waiting <= s.waiting && replies <= s.replies
    ensures Shapes(s.(waiting := waiting, replies := replies, wires := s.wires + [Wire(l.Hops()[l.pos], l.Raw(), l)]))
  {
    assert forall r :: r in waiting ==> r in s.waiting;
    assert forall y :: y in replies ==> y in s.replies;
  }

  lemma ShapesKept(s: Net, e: Event)
    requires Shapes(s) && Enabled(s, e)
    ensures Shapes(Next(s, e))
  {
    match e
    case Receive(i) => ShapesReceive(s, i);
    case Answer(i, data) => ShapesAnswer(s, i, data);
    case Fail(i) => WithoutKeepsTasks(s.tasks, s.asked, i);
    case SendBatch(rs) => ShapesSend(s, Carrying(rs, 1), s.waiting - multiset(rs), s.replies);
    case SendReplies(rs) => ShapesSend(s, Returning(rs, 1), s.waiting, s.replies - multiset(rs));
    case Accept(r) =>
  }

  // ---------- Conservation ----------

  /** Everything of one kind on the wires. */
  ghost function Gather<T>(ws: seq<Wire>, f: Load -> seq<T>): multiset<T> {
    if ws == [] then multiset{} else multiset(f(ws[0].load)) + Gather(ws[1..], f)
  }

  ghost function RequestsOn(ws: seq<Wire>): multiset<Request> {
    Gather(ws, RequestsIn)
  }

  ghost function RepliesOn(ws: seq<Wire>): multiset<Reply> {
    Gather(ws, RepliesIn)
  }

  lemma Reassociate<T>(a: multiset<T>, b: multiset<T>, c: multiset<T>)
    ensures a + (b + c) == (a + b) + c
  {
  }

  lemma {:induction false} GatherSnoc<T>(ws: seq<Wire>, w: Wire, f: Load -> seq<T>)
    ensures Gather(ws + [w], f) == Gather(ws, f) + multiset(f(w.load))
  {
    if ws == [] {
      assert ws + [w] == [w];
    } else {
      GatherSnoc(ws[1..], w, f);
      assert (ws + [w])[1..] == ws[1..] + [w];
      Reassociate(multiset(f(ws[0].load)), Gather(ws[1..], f), multiset(f(w.load)));
    }
  }

  lemma WithoutTail<T>(s: seq<T>, i: nat)
    requires 0 < i < |s|
    ensures |Without(s, i)| > 0 && Without(s, i)[0] == s[0] && Without(s, i)[1..] == Without(s[1..], i - 1)
  {
  }

  lemma {:induction false} GatherWithout<T>(ws: seq<Wire>, i: nat, f: Load -> seq<T>)
    requires i < |ws|
    ensures Gather(ws, f) == Gather(Without(ws, i), f) + multiset(f(ws[i].load))
  {
    if i == 0 {
      assert Without(ws, 0) == ws[1..];
    } else {
      GatherWithout(ws[1..], i - 1, f);
      WithoutTail(ws, i);
      Reassociate(multiset(f(ws[0].load)), Gather(Without(ws[1..], i - 1), f), multiset(f(ws[i].load)));
    }
  }

  /** Moving m from one part of a sum to another. */
  lemma Move<T>(w: multiset<T>, r: multiset<T>, m: multiset<T>, a: multiset<T>, d: multiset<T>)
    ensures w + (r + m) + a + d == w + r + (a + m) + d
  {
  }

  lemma MultisetWithout<T>(s: seq<T>, i: nat)
    requires i < |s|
    ensures multiset(s) == multiset(Without(s, i)) + multiset{s[i]}
  {
    assert s == s[..i] + [s[i]] + s[i + 1..];
  }

  /** Each accepted request is waiting, in flight, with the origin, answered or failed, and only once. */
  ghost predicate RequestsConserved(s: Net) {
    s.submitted == s.waiting + RequestsOn(s.wires) + multiset(s.asked) + (multiset(s.answered) + s.failed)
  }

  /** Each reply made is waiting, in flight or delivered, and only once. */
  ghost predicate RepliesConserved(s: Net) {
    multiset(s.made) == s.replies + RepliesOn(s.wires) + multiset(s.home)
  }

  lemma ConservedForward(s: Net, i: nat, w': Wire, s': Net)
    requires i < |s.wires| && RequestsIn(w'.load) == RequestsIn(s.wires[i].load)
    requires RepliesIn(w'.load) == RepliesIn(s.wires[i].load)
    requires s' == s.(wires := Without(s.wires, i) + [w'])
    ensures RequestsConserved(s) ==> RequestsConserved(s')
    ensures RepliesConserved(s) ==> RepliesConserved(s')
  {
    GatherWithout(s.wires, i, RequestsIn);
    GatherWithout(s.wires, i, RepliesIn);
    GatherSnoc(Without(s.wires, i), w', RequestsIn);
    GatherSnoc(Without(s.wires, i), w', RepliesIn);
  }

  lemma ConservedSubmit(s: Net, i: nat, ts: seq<Task>, s': Net)
    requires i < |s.wires| && s.wires[i].load.Carrying?
    requires s' == s.(wires := Without(s.wires, i), tasks := ts, asked := s.asked + s.wires[i].load.requests)
    ensures RequestsConserved(s) ==> RequestsConserved(s')
    ensures RepliesConserved(s) ==> RepliesConserved(s')
  {
    GatherWithout(s.wires, i, RequestsIn);
    GatherWithout(s.wires, i, RepliesIn);
    var m := multiset(s.wires[i].load.requests);
    assert multiset(s'.asked) == multiset(s.asked) + m;
    Move(s.waiting, RequestsOn(s'.wires), m, multiset(s.asked), multiset(s.answered) + s.failed);
  }

  lemma ConservedDeliver(s: Net, i: nat, ds: seq<Delivery>, s': Net)
    requires i < |s.wires| && s.wires[i].load.Returning?
    requires s' == s.(wires := Without(s.wires, i), delivered := ds, home := s.home + s.wires[i].load.replies)
    ensures RequestsConserved(s) ==> RequestsConserved(s')
    ensures RepliesConserved(s) ==> RepliesConserved(s')
  {
    GatherWithout(s.wires, i, RequestsIn);
    GatherWithout(s.wires, i, RepliesIn);
    var m := multiset(s.wires[i].load.replies);
    assert multiset(s'.home) == multiset(s.home) + m;
    Move(s.replies, RepliesOn(s'.wires), m, multiset(s.home), multiset{});
  }

  lemma ConservedReceive(s: Net, i: nat)
    requires Shapes(s) && i < |s.wires|
    ensures RequestsConserved(s) ==> RequestsConserved(ReceiveNext(s, i))
    ensures RepliesConserved(s) ==> RepliesConserved(ReceiveNext(s, i))
  {
    var w, s' := s.wires[i], ReceiveNext(s, i);
    ReceiveCases(s, i);
    var a := Handle(w.raw);
    if a.Forward? {
      ConservedForward(s, i, Wire(a.next, a.raw, w.load.Ahead()), s');
    } else if a.Submit? {
      ConservedSubmit(s, i, s.tasks + a.tasks, s');
    } else {
      ConservedDeliver(s, i, s.delivered + DeliveriesAt(w.dst, a.subs), s');
    }
  }

  lemma ConservedAnswer(s: Net, i: nat, data: seq<byte>)
    requires i < |s.tasks| && i < |s.asked|
    ensures RequestsConserved(s) ==> RequestsConserved(AnswerNext(s, i, data))
    ensures RepliesConserved(s) ==> RepliesConserved(AnswerNext(s, i, data))
  {
    MultisetWithout(s.asked, i);
    assert multiset(s.answered + [s.asked[i]]) == multiset(s.answered) + multiset{s.asked[i]};
    var y := Reply(ReturnHops(s.tasks[i].hopIP), s.tasks[i].userID, data);
    assert multiset(s.made + [y]) == multiset(s.made) + multiset{y};
  }

  lemma ConservedFail(s: Net, i: nat)
    requires i < |s.tasks| && i < |s.asked|
    ensures RequestsConserved(s) ==> RequestsConserved(FailNext(s, i))
    ensures RepliesConserved(s) ==> RepliesConserved(FailNext(s, i))
  {
    MultisetWithout(s.asked, i);
  }

  lemma ConservedSend(s: Net, w: Wire, waiting: multiset<Request>, replies: multiset<Reply>)
    requires waiting + multiset(RequestsIn(w.load)) == s.waiting
    requires replies + multiset(RepliesIn(w.load)) == s.replies
    ensures var s' := s.(waiting := waiting, replies := replies, wires := s.wires + [w]);
            && (RequestsConserved(s) ==> RequestsConserved(s'))
            && (RepliesConserved(s) ==> RepliesConserved(s'))
  {
    GatherSnoc(s.wires, w, RequestsIn);
    GatherSnoc(s.wires, w, RepliesIn);
  }

  lemma ConservedSendBatch(s: Net, rs: seq<Request>)
    requires RequestsConserved(s) && RepliesConserved(s) && Enabled(s, SendBatch(rs))
    ensures RequestsConserved(Next(s, SendBatch(rs))) && RepliesConserved(Next(s, SendBatch(rs)))
  {
    assert s.waiting - multiset(rs) + multiset(rs) == s.waiting;
    ConservedSend(s, Wire(rs[0].path[1], Carrying(rs, 1).Raw(), Carrying(rs, 1)), s.waiting - multiset(rs), s.replies);
  }

  lemma ConservedSendReplies(s: Net, rs: seq<Reply>)
    requires RequestsConserved(s) && RepliesConserved(s) && Enabled(s, SendReplies(rs))
    ensures RequestsConserved(Next(s, SendReplies(rs))) && RepliesConserved(Next(s, SendReplies(rs)))
  {
    assert s.replies - multiset(rs) + multiset(rs) == s.replies;
    var l := Returning(rs, 1);
    ConservedSend(s, Wire(rs[0].hops[1], l.Raw(), l), s.waiting, s.replies - multiset(rs));
  }

  lemma ConservedAccept(s: Net, r: Request)
    requires RequestsConserved(s) && GoodRequest(r)
    ensures RequestsConserved(Next(s, Accept(r)))
  {
  }

  lemma ConservedKept(s: Net, e: Event)
    requires Shapes(s) && RequestsConserved(s) && RepliesConserved(s) && Enabled(s, e)
    ensures RequestsConserved(Next(s, e)) && RepliesConserved(Next(s, e))
  {
    match e
    case Receive(i) => ConservedReceive(s, i);
    case Answer(i, data) => ConservedAnswer(s, i, data);
    case Fail(i) => ConservedFail(s, i);
    case SendBatch(rs) => ConservedSendBatch(s, rs);
    case SendReplies(rs) => ConservedSendReplies(s, rs);
    case Accept(r) => ConservedAccept(s, r);
  }

  // ---------- Runs ----------

  ghost predicate Inv(s: Net) {
    Shapes(s) && RequestsConserved(s) && RepliesConserved(s)
  }

  lemma InvStart()
    ensures Inv(START)
  {
  }

  lemma InvStep(s: Net, e: Event)
    requires Inv(s) && Enabled(s, e)
    ensures Inv(Next(s, e))
  {
    ShapesKept(s, e);
    ConservedKept(s, e);
  }

  ghost predicate StepAt(es: seq<Event>, ss: seq<Net>, i: nat)
    requires i < |es| && |ss| == |es| + 1
  {
    Enabled(ss[i], es[i]) && ss[i + 1] == Next(ss[i], es[i])
  }

  ghost predicate IsRun(es: seq<Event>, ss: seq<Net>) {
    |ss| == |es| + 1 && ss[0] == START && forall i :: 0 <= i < |es| ==> StepAt(es, ss, i)
  }

  lemma {:induction false} RunInvariant(es: seq<Event>, ss: seq<Net>, i: nat)
    requires IsRun(es, ss) && i < |ss|
    ensures Inv(ss[i])
  {
    if i == 0 {
      InvStart();
    } else {
      RunInvariant(es, ss, i - 1);
      assert StepAt(es, ss, i - 1);
      InvStep(ss[i - 1], es[i - 1]);
    }
  }

  /** In every run, every packet in flight is at position 1 or 2 and addressed to that hop. */
  lemma PacketsOnTrack(es: seq<Event>, ss: seq<Net>, n: nat, k: nat)
    requires IsRun(es, ss) && n < |ss| && k < |ss[n].wires|
    ensures var w := ss[n].wires[k];
            && |w.raw| >= HEADER_SIZE
            && var h := DecodeHeader(w.raw);
               (h.hopPos == 1 || h.hopPos == 2) && w.dst == h.hopIP[h.hopPos] && w.dst != 0
    ensures !Handle(ss[n].wires[k].raw).Panic? && !Handle(ss[n].wires[k].raw).Discard?
  {
    RunInvariant(es, ss, n);
    assert WireOk(ss[n].wires[k]);
    LoadIsReadBack(ss[n].wires[k].load);
    ReceiveCases(ss[n], k);
  }

  /** A run may stop accepting requests; nothing is left to do. */
  ghost predicate Quiescent(s: Net) {
    s.waiting == multiset{} && s.wires == [] && s.tasks == [] && s.replies == multiset{}
  }

  /** Where and for whom the answer to a request is expected. */
  function Expected(r: Request): (uint32, uint32)
    requires |r.path| >= 1
  {
    (r.path[0], r.userID)
  }

  /** Then every accepted request has been answered or failed exactly once, and the replies delivered are those made. */
  lemma AllDelivered(es: seq<Event>, ss: seq<Net>, n: nat)
    requires IsRun(es, ss) && n < |ss| && Quiescent(ss[n])
    ensures var s := ss[n];
            && multiset(s.answered) + s.failed == s.submitted && multiset(s.home) == multiset(s.made)
            && |s.delivered| == |s.home| == |s.made| == |s.answered| == |s.submitted| - |s.failed|
            && (forall i :: 0 <= i < |s.made| ==>
                  |s.answered[i].path| >= 1 && |s.made[i].hops| >= 1
                  && (Home(s.made[i]).node, Home(s.made[i]).userID) == Expected(s.answered[i]))
            && (forall i :: 0 <= i < |s.home| ==> |s.home[i].hops| >= 1 && s.delivered[i] == Home(s.home[i]))
  {
    RunInvariant(es, ss, n);
    var s := ss[n];
    assert multiset(s.answered) + s.failed == s.submitted;
    assert multiset(s.home) == multiset(s.made);
    assert |s.home| == |multiset(s.home)| && |s.made| == |multiset(s.made)| && |s.answered| == |multiset(s.answered)|;
    forall i | 0 <= i < |s.made|
      ensures |s.answered[i].path| >= 1 && |s.made[i].hops| >= 1
      ensures (Home(s.made[i]).node, Home(s.made[i]).userID) == Expected(s.answered[i])
    {
      assert GoesBack(s.answered[i], s.made[i]);
    }
  }

  // ---------- Progress ----------

  function Weight(l: Load): int {
    match l
    case Carrying(rs, pos) => 8 * |rs| - pos
    case Returning(rs, pos) => 3 * |rs| - pos
  }

  function WireWeight(ws: seq<Wire>): int {
    if ws == [] then 0 else Weight(ws[0].load) + WireWeight(ws[1..])
  }

  /** How much is left to do. */
  ghost function Rank(s: Net): int {
    9 * |s.waiting| + WireWeight(s.wires) + 5 * |s.tasks| + 4 * |s.replies|
  }

  lemma {:induction false} WireWeightSnoc(ws: seq<Wire>, w: Wire)
    ensures WireWeight(ws + [w]) == WireWeight(ws) + Weight(w.load)
  {
    if ws == [] {
      assert ws + [w] == [w];
    } else {
      WireWeightSnoc(ws[1..], w);
      assert (ws + [w])[1..] == ws[1..] + [w];
    }
  }

  lemma {:induction false} WireWeightWithout(ws: seq<Wire>, i: nat)
    requires i < |ws|
    ensures WireWeight(ws) == WireWeight(Without(ws, i)) + Weight(ws[i].load)
  {
    if i == 0 {
      assert Without(ws, 0) == ws[1..];
    } else {
      WireWeightWithout(ws[1..], i - 1);
      WithoutTail(ws, i);
    }
  }

  lemma {:induction false} WireWeightPositive(ws: seq<Wire>)
    requires WiresOk(ws)
    ensures WireWeight(ws) >= |ws|
  {
    if ws != [] {
      assert WireOk(ws[0]) && WiresOk(ws[1..]);
      WireWeightPositive(ws[1..]);
    }
  }

  lemma RankReceive(s: Net, i: nat)
    requires Shapes(s) && i < |s.wires|
    ensures Rank(ReceiveNext(s, i)) < Rank(s)
  {
    var w := s.wires[i];
    assert WireOk(w);
    WireWeightWithout(s.wires, i);
    ReceiveCases(s, i);
    if Handle(w.raw).Forward? {
      WireWeightSnoc(Without(s.wires, i), Wire(Handle(w.raw).next, Handle(w.raw).raw, w.load.Ahead()));
    }
  }

  lemma RankSendBatch(s: Net, rs: seq<Request>)
    requires Enabled(s, SendBatch(rs))
    ensures Rank(Next(s, SendBatch(rs))) < Rank(s)
  {
    var l := Carrying(rs, 1);
    WireWeightSnoc(s.wires, Wire(rs[0].path[1], l.Raw(), l));
    assert |s.waiting - multiset(rs)| == |s.waiting| - |rs|;
  }

  lemma RankSendReplies(s: Net, rs: seq<Reply>)
    requires Enabled(s, SendReplies(rs))
    ensures Rank(Next(s, SendReplies(rs))) < Rank(s)
  {
    var l := Returning(rs, 1);
    WireWeightSnoc(s.wires, Wire(rs[0].hops[1], l.Raw(), l));
    assert |s.replies - multiset(rs)| == |s.replies| - |rs|;
  }

  lemma RankAnswer(s: Net, i: nat, data: seq<byte>)
    requires i < |s.tasks| && i < |s.asked|
    ensures Rank(AnswerNext(s, i, data)) < Rank(s)
  {
  }

  lemma RankFail(s: Net, i: nat)
    requires i < |s.tasks| && i < |s.asked|
    ensures Rank(FailNext(s, i)) < Rank(s)
  {
  }

  lemma RankNonNegative(s: Net)
    requires Shapes(s)
    ensures Rank(s) >= 0
  {
    WireWeightPositive(s.wires);
  }

  /** Every step but the acceptance of a new request leaves strictly less to do. */
  lemma EveryStepProgresses(s: Net, e: Event)
    requires Shapes(s) && Enabled(s, e) && !e.Accept?
    ensures 0 <= Rank(Next(s, e)) < Rank(s)
  {
    ShapesKept(s, e);
    RankNonNegative(Next(s, e));
    match e
    case Receive(i) => RankReceive(s, i);
    case Answer(i, data) => RankAnswer(s, i, data);
    case Fail(i) => RankFail(s, i);
    case SendBatch(rs) => RankSendBatch(s, rs);
    case SendReplies(rs) => RankSendReplies(s, rs);
  }

  lemma SingleSub(s: SubPacket)
    ensures |EncodeSubs([s])| == 6 + |s.data|
  {
    assert EncodeSubs([s][1..]) == [];
  }

  lemma RequestAlone(r: Request)
    requires GoodRequest(r)
    ensures RequestBatch([r])
  {
    assert RequestSubs([r]) == [SubPacket(r.userID, r.data)];
    SingleSub(SubPacket(r.userID, r.data));
  }

  lemma ReplyAlone(y: Reply)
    requires GoodReply(y)
    ensures ReplyBatch([y])
  {
    assert ReplySubs([y]) == [SubPacket(y.userID, y.data)];
    SingleSub(SubPacket(y.userID, y.data));
  }

  /** Short of quiescence some step can be taken, and one in which no origin fails. */
  lemma NeverStuck(s: Net) returns (e: Event)
    requires Shapes(s) && !Quiescent(s)
    ensures Enabled(s, e) && !e.Accept? && !e.Fail?
  {
    if s.waiting != multiset{} {
      var r :| r in s.waiting;
      RequestAlone(r);
      e := SendBatch([r]);
    } else if s.wires != [] {
      e := Receive(0);
    } else if s.tasks != [] {
      e := Answer(0, [0]);
    } else {
      var y :| y in s.replies;
      ReplyAlone(y);
      e := SendReplies([y]);
    }
  }

  // ---------- Completion ----------

  lemma RunOn(es: seq<Event>, ss: seq<Net>, e: Event)
    requires IsRun(es, ss) && Enabled(ss[|es|], e)
    ensures IsRun(es + [e], ss + [Next(ss[|es|], e)])
  {
    var es', ss' := es + [e], ss + [Next(ss[|es|], e)];
    forall i | 0 <= i < |es'|
      ensures StepAt(es', ss', i)
    {
      if i < |es| {
        assert StepAt(es, ss, i);
        assert ss'[i] == ss[i] && ss'[i + 1] == ss[i + 1];
      } else {
        assert ss'[i] == ss[|es|] && ss'[i + 1] == Next(ss[|es|], e);
      }
    }
  }

  /** From event n on nothing is accepted. */
  ghost predicate Closed(es: seq<Event>, n: nat) {
    forall i :: n <= i < |es| ==> !es[i].Accept?
  }

  /** After the last acceptance a run takes at most as many steps as its rank, whatever they are. */
  lemma {:induction false} StepsBounded(es: seq<Event>, ss: seq<Net>, n: nat, k: nat)
    requires IsRun(es, ss) && n <= k < |ss| && Closed(es, n)
    ensures 0 <= Rank(ss[k]) <= Rank(ss[n]) - (k - n)
  {
    if k == n {
      RanksNonNegative(es, ss, n);
    } else {
      StepsBounded(es, ss, n, k - 1);
      StepLowers(es, ss, k - 1);
    }
  }

  lemma RanksNonNegative(es: seq<Event>, ss: seq<Net>, n: nat)
    requires IsRun(es, ss) && n < |ss|
    ensures Rank(ss[n]) >= 0
  {
    RunInvariant(es, ss, n);
    RankNonNegative(ss[n]);
  }

  lemma StepLowers(es: seq<Event>, ss: seq<Net>, k: nat)
    requires IsRun(es, ss) && k < |es| && !es[k].Accept?
    ensures 0 <= Rank(ss[k + 1]) < Rank(ss[k])
  {
    RunInvariant(es, ss, k);
    assert StepAt(es, ss, k);
    EveryStepProgresses(ss[k], es[k]);
  }

  /** Every reachable state can be brought to rest within as many steps as its rank, without a further failure. */
  lemma {:induction false} CanRest(es: seq<Event>, ss: seq<Net>) returns (es': seq<Event>, ss': seq<Net>)
    requires IsRun(es, ss)
    ensures IsRun(es', ss') && es <= es' && ss <= ss' && |es'| - |es| <= Rank(ss[|es|])
    ensures var last := ss'[|es'|];
            Quiescent(last) && last.submitted == ss[|es|].submitted && last.failed == ss[|es|].failed
    decreases Rank(ss[|es|])
  {
    es', ss' := es, ss;
    var s := ss[|es|];
    RunInvariant(es, ss, |es|);
    RankNonNegative(s);
    if !Quiescent(s) {
      var e := NeverStuck(s);
      EveryStepProgresses(s, e);
      RunOn(es, ss, e);
      KeepsFailed(s, e);
      es', ss' := CanRest(es + [e], ss + [Next(s, e)]);
    }
  }

  lemma KeepsFailed(s: Net, e: Event)
    requires Enabled(s, e) && !e.Accept? && !e.Fail?
    ensures Next(s, e).failed == s.failed && Next(s, e).submitted == s.submitted
  {
  }

  /**
   Every reachable state has a finite continuation in which all requests accepted so far, but those
   that had failed by then, are answered, and every reply is delivered to its user at the first hop.
   */
  lemma CanComplete(es: seq<Event>, ss: seq<Net>) returns (es': seq<Event>, ss': seq<Net>)
    requires IsRun(es, ss)
    ensures IsRun(es', ss') && es <= es' && ss <= ss' && |es'| - |es| <= Rank(ss[|es|])
    ensures var s, last := ss[|es|], ss'[|es'|];
            && multiset(last.answered) + s.failed == s.submitted && multiset(last.home) == multiset(last.made)
            && |last.delivered| == |last.home| == |last.made| == |last.answered|
            && (forall i :: 0 <= i < |last.made| ==>
                  |last.answered[i].path| >= 1 && |last.made[i].hops| >= 1
                  && (Home(last.made[i]).node, Home(last.made[i]).userID) == Expected(last.answered[i]))
            && (forall i :: 0 <= i < |last.home| ==>
                  |last.home[i].hops| >= 1 && last.delivered[i] == Home(last.home[i]))
  {
    es', ss' := CanRest(es, ss);
    AllDelivered(es', ss', |es'|);
  }

  /** A run that accepts nothing more and cannot go on has everything delivered. */
  lemma MaximalIsComplete(es: seq<Event>, ss: seq<Net>)
    requires IsRun(es, ss) && forall e :: Enabled(ss[|es|], e) ==> e.Accept?
    ensures Quiescent(ss[|es|])
  {
    RunInvariant(es, ss, |es|);
    if !Quiescent(ss[|es|]) {
      var e := NeverStuck(ss[|es|]);
      assert false;
    }
  }
}
