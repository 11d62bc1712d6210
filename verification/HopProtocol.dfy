/**
 Multi-hop forwarding as a distributed protocol. A request travels h1..h(n-2) and is
 submitted to the origin h(n-1) by the last relay; the answer travels the reversed hops
 and is delivered at h0 under the same user id. Nodes act on the raw bytes alone.
 */
module HopProtocol {
  import opened TunnelPacket
  import opened Wrappers

  datatype Task = Task(hopIP: seq<uint32>, port: uint16, userID: uint32, originIP: uint32, data: seq<byte>)

  /** What a node does with a packet it receives. */
  datatype Action =
    | Discard
    | Panic
    | Forward(next: uint32, raw: seq<byte>)
    | Submit(tasks: seq<Task>)
    | Deliver(subs: seq<SubPacket>)

  // ---------- The handler of a node ----------

  predicate IsLastRequestHop(h: Header)
    requires |h.hopIP| == PACKET_HOPS
  {
    h.hopPos == 2 || (h.hopPos + 2 < PACKET_HOPS && h.hopIP[h.hopPos + 2] == 0)
  }

  predicate IsLastResponseHop(h: Header)
    requires |h.hopIP| == PACKET_HOPS
  {
    h.hopPos == 3 || (h.hopPos + 1 < PACKET_HOPS && h.hopIP[h.hopPos + 1] == 0)
  }

  function TasksFor(h: Header, origin: uint32, subs: seq<SubPacket>): (ts: seq<Task>)
    ensures |ts| == |subs|
    ensures forall i :: 0 <= i < |subs| ==> ts[i] == Task(h.hopIP, h.port, subs[i].userID, origin, subs[i].data)
  {
    seq(|subs|, i requires 0 <= i < |subs| => Task(h.hopIP, h.port, subs[i].userID, origin, subs[i].data))
  }

  /** The next position as a byte: the one after the largest is the first. */
  function NextHop(pos: byte): byte {
    if pos == 0xFF then 0 else pos + 1
  }

  function ForwardOn(h: Header, raw: seq<byte>): Action
    requires |h.hopIP| == PACKET_HOPS
  {
    if NextHop(h.hopPos) < PACKET_HOPS then Forward(h.hopIP[NextHop(h.hopPos)], Advanced(raw)) else Panic
  }

  function Handle(raw: seq<byte>): Action {
    if |raw| < HEADER_SIZE then Discard else
    var h := DecodeHeader(raw);
    if h.port != 0 then
      if IsLastRequestHop(h) then
        match ParseRaw(raw, |raw|)
        case Err(_) => Discard
        case Ok((_, subs)) =>
          if subs == [] || h.hopIP[h.hopPos + 1] == 0 then Discard
          else Submit(TasksFor(h, h.hopIP[h.hopPos + 1], subs))
      else ForwardOn(h, raw)
    else
      if IsLastResponseHop(h) then
        match ParseRaw(raw, |raw|)
        case Err(_) => Discard
        case Ok((_, subs)) => if subs == [] then Discard else Deliver(subs)
      else ForwardOn(h, raw)
  }

  /** At the largest position a packet goes, unchanged, to the first hop. */
  lemma WrapsRound(raw: seq<byte>)
    requires |raw| >= HEADER_SIZE && raw[0] == 0xFF
    ensures Handle(raw) == Forward(DecodeHeader(raw).hopIP[0], raw)
  {
  }

  /** The handler as it works on the received buffer: it advances the hop in place and submits in a loop. */
  method HandleQUICPacket(pkt: array<byte>) returns (a: Action)
    modifies pkt
    ensures a == Handle(old(pkt[..]))
    ensures a.Forward? ==> pkt[..] == a.raw
    ensures !a.Forward? ==> pkt[..] == old(pkt[..])
  {
    if pkt.Length < HEADER_SIZE {
      return Discard;
    }
    ghost var received := pkt[..];
    var h := DecodeHeader(pkt[..]);
    var last := if h.port != 0 then IsLastRequestHop(h) else IsLastResponseHop(h);
    if !last {
      if NextHop(h.hopPos) >= PACKET_HOPS {
        return Panic;
      }
      AdvanceRawHop(pkt);
      return Forward(h.hopIP[NextHop(h.hopPos)], pkt[..]);
    }
    var parsed := Parse(pkt[..], pkt.Length);
    if parsed.Err? || parsed.value.1 == [] {
      return Discard;
    }
    var subs := parsed.value.1;
    if h.port == 0 {
      return Deliver(subs);
    }
    var origin := h.hopIP[h.hopPos + 1];
    if origin == 0 {
      return Discard;
    }
    var tasks: seq<Task> := [];
    for i := 0 to |subs|
      invariant tasks == TasksFor(h, origin, subs)[..i]
    {
      tasks := tasks + [Task(h.hopIP, h.port, subs[i].userID, origin, subs[i].data)];
    }
    assert TasksFor(h, origin, subs)[..|subs|] == TasksFor(h, origin, subs);
    return Submit(tasks);
  }

  // ---------- The way back ----------

  /** The non-zero entries, last first. */
  function NonZeroReversed(hopIP: seq<uint32>): seq<uint32> {
    if hopIP == [] then [] else NonZeroReversed(hopIP[1..]) + (if hopIP[0] == 0 then [] else [hopIP[0]])
  }

  /** The response route: reversed hops without the origin. */
  function ReturnHops(hopIP: seq<uint32>): seq<uint32> {
    var hops := NonZeroReversed(hopIP);
    if |hops| > 1 then hops[1..] else hops
  }

  method BuildReturnHops(hopIP: seq<uint32>) returns (hops: seq<uint32>)
    ensures hops == ReturnHops(hopIP)
  {
    hops := [];
    var i := |hopIP|;
    assert hopIP[|hopIP|..] == [];
    while i > 0
      invariant 0 <= i <= |hopIP| && hops == NonZeroReversed(hopIP[i..])
    {
      i := i - 1;
      assert hopIP[i..][1..] == hopIP[i + 1..];
      if hopIP[i] != 0 {
        hops := hops + [hopIP[i]];
      }
    }
    assert hopIP[0..] == hopIP;
    if |hops| > 1 {
      hops := hops[1..];
    }
  }

  ghost predicate GoodPath(path: seq<uint32>) {
    3 <= |path| <= PACKET_HOPS && forall i :: 0 <= i < |path| ==> path[i] != 0
  }

  /** The response route of a path is the path backwards from its last relay. */
  lemma ReturnRoute(path: seq<uint32>)
    requires GoodPath(path)
    ensures var back := ReturnHops(HopField(path));
            |back| == |path| - 1 && forall i :: 0 <= i < |back| ==> back[i] == path[|path| - 2 - i]
  {
    var f := HopField(path);
    assert f[3..][1..] == [] && f[2..][1..] == f[3..] && f[1..][1..] == f[2..];
    assert NonZeroReversed(f[3..][1..]) == [];
    var r3 := NonZeroReversed(f[3..]);
    var r2 := NonZeroReversed(f[2..]);
    var r1 := NonZeroReversed(f[1..]);
    assert r3 == if f[3] == 0 then [] else [f[3]];
    assert r2 == r3 + [f[2]] && r1 == r2 + [f[1]] && NonZeroReversed(f) == r1 + [f[0]];
  }

  // ---------- What packets carry ----------

  /** A user request on its way along a path of 3 or 4 hops, the last being the origin. */
  datatype Request = Request(path: seq<uint32>, port: uint16, protocol: byte, userID: uint32, data: seq<byte>)

  /** An answer on its way along the reversed relays. */
  datatype Reply = Reply(hops: seq<uint32>, userID: uint32, data: seq<byte>)

  datatype Delivery = Delivery(node: uint32, userID: uint32, data: seq<byte>)

  function RequestSubs(rs: seq<Request>): (subs: seq<SubPacket>)
    ensures |subs| == |rs| && forall i :: 0 <= i < |rs| ==> subs[i] == SubPacket(rs[i].userID, rs[i].data)
  {
    seq(|rs|, i requires 0 <= i < |rs| => SubPacket(rs[i].userID, rs[i].data))
  }

  function ReplySubs(rs: seq<Reply>): (subs: seq<SubPacket>)
    ensures |subs| == |rs| && forall i :: 0 <= i < |rs| ==> subs[i] == SubPacket(rs[i].userID, rs[i].data)
  {
    seq(|rs|, i requires 0 <= i < |rs| => SubPacket(rs[i].userID, rs[i].data))
  }

  /** Requests that may share a packet. */
  ghost predicate RequestBatch(rs: seq<Request>) {
    && rs != [] && GoodPath(rs[0].path) && rs[0].port != 0
    && (forall i :: 0 <= i < |rs| ==>
          rs[i].path == rs[0].path && rs[i].port == rs[0].port && rs[i].protocol == rs[0].protocol && rs[i].data != [])
    && |EncodeSubs(RequestSubs(rs))| < 0x1_0000
  }

  ghost predicate ReplyBatch(rs: seq<Reply>) {
    && rs != [] && 2 <= |rs[0].hops| <= 3 && (forall i :: 0 <= i < |rs[0].hops| ==> rs[0].hops[i] != 0)
    && (forall i :: 0 <= i < |rs| ==> rs[i].hops == rs[0].hops && rs[i].data != [])
    && |EncodeSubs(ReplySubs(rs))| < 0x1_0000
  }

  /** The content of a packet and the hop position it is addressed to. */
  datatype Load = Carrying(requests: seq<Request>, pos: byte) | Returning(replies: seq<Reply>, pos: byte) {
    ghost predicate Valid() {
      match this
      case Carrying(rs, pos) => RequestBatch(rs) && 1 <= pos <= |rs[0].path| - 2
      case Returning(rs, pos) => ReplyBatch(rs) && 1 <= pos <= |rs[0].hops| - 1
    }

    /** The same content one hop further. */
    function Ahead(): Load
      requires pos < 3
    {
      match this
      case Carrying(rs, pos) => Carrying(rs, pos + 1)
      case Returning(rs, pos) => Returning(rs, pos + 1)
    }

    ghost function Hops(): seq<uint32>
      requires Valid()
    {
      match this
      case Carrying(rs, _) => rs[0].path
      case Returning(rs, _) => rs[0].hops
    }

    ghost function Subs(): seq<SubPacket> {
      match this
      case Carrying(rs, _) => RequestSubs(rs)
      case Returning(rs, _) => ReplySubs(rs)
    }

    ghost function HeaderOf(): Header
      requires Valid()
    {
      match this
      case Carrying(rs, pos) => Header(pos, HopField(rs[0].path), 0, rs[0].port, rs[0].protocol)
      case Returning(rs, pos) => Header(pos, HopField(rs[0].hops), 0, 0, RESPONSE_PROTOCOL)
    }

    ghost function Raw(): seq<byte>
      requires Valid()
    {
      Emitted(HeaderOf(), Subs())
    }
  }

  /** A response names no protocol, which is written as UDP. */
  const RESPONSE_PROTOCOL: byte := 17

  /** A valid load is read back from its bytes. */
  lemma LoadIsReadBack(l: Load)
    requires l.Valid()
    ensures |l.Raw()| >= HEADER_SIZE
    ensures DecodeHeader(l.Raw()) == l.HeaderOf().(payloadLen := |EncodeSubs(l.Subs())|)
    ensures ParseRaw(l.Raw(), |l.Raw()|) == Ok((l.HeaderOf().(payloadLen := |EncodeSubs(l.Subs())|), l.Subs()))
  {
    EmittedReadBack(l.HeaderOf(), l.Subs());
  }

  /** Forwarding rewrites the first byte only. */
  lemma EmittedAdvanced(h: Header, subs: seq<SubPacket>)
    requires h.Valid() && h.hopPos < PACKET_HOPS - 1
    ensures Advanced(Emitted(h, subs)) == Emitted(h.(hopPos := h.hopPos + 1), subs)
  {
    var n := |EncodeSubs(subs)| % 0x1_0000;
    PositionByte(h.(payloadLen := n), h.hopPos + 1, EncodeSubs(subs)[..n]);
  }

  lemma PositionByte(h: Header, pos: byte, body: seq<byte>)
    requires h.Valid()
    ensures EncodeHeader(h.(hopPos := pos)) + body == (EncodeHeader(h) + body)[0 := pos]
    ensures (EncodeHeader(h) + body)[0] == h.hopPos
  {
    assert EncodeHeader(h.(hopPos := pos)) == EncodeHeader(h)[0 := pos];
  }

  lemma AdvanceLoad(l: Load)
    requires l.Valid() && l.pos < 3 && l.Ahead().Valid()
    ensures Advanced(l.Raw()) == l.Ahead().Raw()
  {
    EmittedAdvanced(l.HeaderOf(), l.Subs());
    assert l.Ahead().HeaderOf() == l.HeaderOf().(hopPos := l.pos + 1);
    assert l.Ahead().Subs() == l.Subs();
  }

  function TaskOf(r: Request): Task
    requires |r.path| >= 1
  {
    Task(HopField(r.path), r.port, r.userID, r.path[|r.path| - 1], r.data)
  }

  /** A relay that is not the last one sends a request to the next hop. */
  lemma RelayForwards(l: Load)
    requires l.Valid() && l.Carrying? && l.pos < |l.Hops()| - 2
    ensures l.Ahead().Valid()
    ensures Handle(l.Raw()) == Forward(l.Hops()[l.pos + 1], l.Ahead().Raw())
  {
    LoadIsReadBack(l);
    AdvanceLoad(l);
  }

  lemma SubmitsAll(raw: seq<byte>, h: Header, subs: seq<SubPacket>, origin: uint32)
    requires |raw| >= HEADER_SIZE && h == DecodeHeader(raw) && ParseRaw(raw, |raw|) == Ok((h, subs))
    requires h.port != 0 && IsLastRequestHop(h) && subs != [] && h.hopPos + 1 < PACKET_HOPS
    requires h.hopIP[h.hopPos + 1] == origin != 0
    ensures Handle(raw) == Submit(TasksFor(h, origin, subs))
  {
  }

  /** What the last relay reads. */
  lemma LastRelayReads(l: Load)
    requires l.Valid() && l.Carrying? && l.pos == |l.Hops()| - 2
    ensures var raw := l.Raw();
            && |raw| >= HEADER_SIZE
            && var h := DecodeHeader(raw);
               && ParseRaw(raw, |raw|) == Ok((h, l.Subs())) && h.port != 0 && IsLastRequestHop(h) && l.Subs() != []
               && h.hopPos + 1 < PACKET_HOPS && h.hopIP[h.hopPos + 1] == l.Hops()[|l.Hops()| - 1] != 0
               && h.hopIP == HopField(l.Hops()) && h.port == l.requests[0].port
  {
    LoadIsReadBack(l);
  }

  /** The last relay submits every request exactly once, to the origin. */
  lemma LastRelaySubmits(l: Load)
    requires l.Valid() && l.Carrying? && l.pos == |l.Hops()| - 2
    ensures Handle(l.Raw()).Submit? && |Handle(l.Raw()).tasks| == |l.requests|
    ensures forall i :: 0 <= i < |l.requests| ==> Handle(l.Raw()).tasks[i] == TaskOf(l.requests[i])
  {
    LastRelayReads(l);
    SubmitsRequests(l.Raw(), l.requests);
  }

  lemma SubmitsRequests(raw: seq<byte>, rs: seq<Request>)
    requires RequestBatch(rs) && |raw| >= HEADER_SIZE
    requires var h := DecodeHeader(raw);
             && ParseRaw(raw, |raw|) == Ok((h, RequestSubs(rs))) && RequestSubs(rs) != []
             && h.port != 0 && IsLastRequestHop(h)
             && h.hopPos + 1 < PACKET_HOPS && h.hopIP[h.hopPos + 1] == rs[0].path[|rs[0].path| - 1] != 0
             && h.hopIP == HopField(rs[0].path) && h.port == rs[0].port
    ensures Handle(raw).Submit? && |Handle(raw).tasks| == |rs|
    ensures forall i :: 0 <= i < |rs| ==> Handle(raw).tasks[i] == TaskOf(rs[i])
  {
    var h := DecodeHeader(raw);
    SubmitsAll(raw, h, RequestSubs(rs), rs[0].path[|rs[0].path| - 1]);
    TasksOfBatch(rs, h);
  }

  lemma TasksOfBatch(rs: seq<Request>, h: Header)
    requires RequestBatch(rs) && h.hopIP == HopField(rs[0].path) && h.port == rs[0].port
    ensures var ts := TasksFor(h, rs[0].path[|rs[0].path| - 1], RequestSubs(rs));
            |ts| == |rs| && forall i :: 0 <= i < |rs| ==> ts[i] == TaskOf(rs[i])
  {
  }

  /** A response is forwarded until it reaches the first hop of the request, and delivered there. */
  lemma ResponseForwards(l: Load)
    requires l.Valid() && l.Returning? && l.pos < |l.Hops()| - 1
    ensures l.Ahead().Valid()
    ensures Handle(l.Raw()) == Forward(l.Hops()[l.pos + 1], l.Ahead().Raw())
  {
    LoadIsReadBack(l);
    AdvanceLoad(l);
  }

  lemma HomeDelivers(l: Load)
    requires l.Valid() && l.Returning? && l.pos == |l.Hops()| - 1
    ensures Handle(l.Raw()) == Deliver(ReplySubs(l.replies))
  {
    LoadIsReadBack(l);
  }
}
