/**
 The tunnel packet: a 24-byte header followed by sub-packets, each a user id, a 16-bit
 length and data. Packets are written into a fixed buffer at a moving offset and parsed
 with a reader that accepts short data.
 */
module TunnelPacket {
  import opened Wrappers

  const HEADER_SIZE := 24
  const PACKET_HOPS := 4

  type byte = x: int | 0 <= x < 0x100
  type uint16 = x: int | 0 <= x < 0x1_0000
  type uint32 = x: int | 0 <= x < 0x1_0000_0000

  datatype SubPacket = SubPacket(userID: uint32, data: seq<byte>)

  datatype Header = Header(hopPos: byte, hopIP: seq<uint32>, payloadLen: uint16, port: uint16, protocol: byte) {
    ghost predicate Valid() {
      |hopIP| == PACKET_HOPS
    }
  }

  // ---------- Big-endian numbers ----------

  function BE16(n: uint16): (b: seq<byte>)
    ensures |b| == 2
  {
    [n / 0x100, n % 0x100]
  }

  function BE32(n: uint32): (b: seq<byte>)
    ensures |b| == 4
  {
    var high := n / 0x100;
    var higher := high / 0x100;
    [higher / 0x100, higher % 0x100, high % 0x100, n % 0x100]
  }

  function U16(b: seq<byte>, i: nat): uint16
    requires i + 2 <= |b|
  {
    b[i] as int * 0x100 + b[i + 1]
  }

  function U32(b: seq<byte>, i: nat): uint32
    requires i + 4 <= |b|
  {
    b[i] as int * 0x100_0000 + b[i + 1] as int * 0x1_0000 + b[i + 2] as int * 0x100 + b[i + 3]
  }

  lemma RoundTrip16(n: uint16, b: seq<byte>, i: nat)
    requires i + 2 <= |b| && b[i..i + 2] == BE16(n)
    ensures U16(b, i) == n
  {
    assert b[i] == b[i..i + 2][0] && b[i + 1] == b[i..i + 2][1];
  }

  lemma RoundTrip32(n: uint32, b: seq<byte>, i: nat)
    requires i + 4 <= |b| && b[i..i + 4] == BE32(n)
    ensures U32(b, i) == n
  {
    var s := b[i..i + 4];
    assert b[i] == s[0] && b[i + 1] == s[1] && b[i + 2] == s[2] && b[i + 3] == s[3];
  }

  // ---------- The wire format ----------

  /** One sub-packet on the wire; the length field keeps the low 16 bits of the length. */
  function EncodeSub(s: SubPacket): (b: seq<byte>)
    ensures |b| == 6 + |s.data|
  {
    BE32(s.userID) + BE16(|s.data| % 0x1_0000) + s.data
  }

  function EncodeSubs(subs: seq<SubPacket>): seq<byte> {
    if subs == [] then [] else EncodeSub(subs[0]) + EncodeSubs(subs[1..])
  }

  lemma {:induction false} EncodeSubsSnoc(subs: seq<SubPacket>, s: SubPacket)
    ensures EncodeSubs(subs + [s]) == EncodeSubs(subs) + EncodeSub(s)
  {
    if subs == [] {
      assert subs + [s] == [s];
    } else {
      EncodeSubsSnoc(subs[1..], s);
      assert (subs + [s])[1..] == subs[1..] + [s];
    }
  }

  /** The 24 header bytes; the last two are padding. */
  function EncodeHeader(h: Header): (b: seq<byte>)
    requires |h.hopIP| == PACKET_HOPS
    ensures |b| == HEADER_SIZE
  {
    [h.hopPos] + BE32(h.hopIP[0]) + BE32(h.hopIP[1]) + BE32(h.hopIP[2]) + BE32(h.hopIP[3])
    + BE16(h.payloadLen) + BE16(h.port) + [h.protocol] + [0, 0]
  }

  /** The header field of a hop list: unused positions are zero. */
  function HopField(hops: seq<uint32>): (f: seq<uint32>)
    ensures |f| == PACKET_HOPS
    ensures forall i :: 0 <= i < PACKET_HOPS ==> f[i] == if i < |hops| then hops[i] else 0
  {
    seq(PACKET_HOPS, i requires 0 <= i < PACKET_HOPS => if i < |hops| then hops[i] else 0)
  }

  /** Reading the header fields back. */
  function DecodeHeader(b: seq<byte>): (h: Header)
    requires |b| >= HEADER_SIZE
    ensures |h.hopIP| == PACKET_HOPS
  {
    Header(b[0], [U32(b, 1), U32(b, 5), U32(b, 9), U32(b, 13)], U16(b, 17), U16(b, 19), b[21])
  }

  lemma HeaderRoundTrip(h: Header, rest: seq<byte>)
    requires h.Valid()
    ensures DecodeHeader(EncodeHeader(h) + rest) == h
  {
    var b := EncodeHeader(h) + rest;
    assert b[1..5] == BE32(h.hopIP[0]) && b[5..9] == BE32(h.hopIP[1]);
    assert b[9..13] == BE32(h.hopIP[2]) && b[13..17] == BE32(h.hopIP[3]);
    assert b[17..19] == BE16(h.payloadLen) && b[19..21] == BE16(h.port) && b[21] == h.protocol;
    RoundTrip32(h.hopIP[0], b, 1);
    RoundTrip32(h.hopIP[1], b, 5);
    RoundTrip32(h.hopIP[2], b, 9);
    RoundTrip32(h.hopIP[3], b, 13);
    RoundTrip16(h.payloadLen, b, 17);
    RoundTrip16(h.port, b, 19);
  }

  /** n zero bytes. */
  function Zeros(n: nat): (z: seq<byte>)
    ensures |z| == n && forall i :: 0 <= i < n ==> z[i] == 0
  {
    seq(n, i => 0)
  }

  /** How many data bytes the first sub-packet gets. */
  function DataRead(payload: seq<byte>): (got: nat)
    requires |payload| > 6
    ensures 6 + got <= |payload|
  {
    var n := U16(payload, 4);
    if n <= |payload| - 6 then n else |payload| - 6
  }

  /** The first sub-packet; a short read is padded with zeros. */
  function FirstSub(payload: seq<byte>): (s: SubPacket)
    requires |payload| > 6
    ensures |s.data| < 0x1_0000
  {
    var got := DataRead(payload);
    SubPacket(U32(payload, 0), payload[6..6 + got] + Zeros(U16(payload, 4) - got))
  }

  /**
   What the reader loop makes of a payload: a sub-packet whose data would start at the very
   end is dropped even when it is empty.
   */
  function ParseSubs(payload: seq<byte>): (subs: seq<SubPacket>)
    ensures forall s :: s in subs ==> |s.data| < 0x1_0000
    decreases |payload|
  {
    if |payload| <= 6 then [] else [FirstSub(payload)] + ParseSubs(payload[6 + DataRead(payload)..])
  }

  /** The outcome of parsing raw bytes into a buffer of the given size. */
  function ParseRaw(raw: seq<byte>, bufferSize: nat): (r: Result<(Header, seq<SubPacket>)>)
    requires |raw| >= HEADER_SIZE ==> bufferSize >= HEADER_SIZE
  {
    if |raw| < HEADER_SIZE then Err("raw data too short") else
    var h := DecodeHeader(raw);
    var end := HEADER_SIZE + h.payloadLen;
    if end > |raw| || end > bufferSize then Err("invalid payload length")
    else Ok((h, ParseSubs(raw[HEADER_SIZE..end])))
  }

  // ---------- When parsing undoes writing ----------

  /** The first bytes of a sub-packet tell its user and its length. */
  lemma SubFields(s: SubPacket, rest: seq<byte>)
    requires |s.data| < 0x1_0000
    ensures var b := EncodeSub(s) + rest;
            U32(b, 0) == s.userID && U16(b, 4) == |s.data| && b[6..6 + |s.data|] == s.data && b[6 + |s.data|..] == rest
  {
    var b := EncodeSub(s) + rest;
    assert b[0..4] == BE32(s.userID) && b[4..6] == BE16(|s.data|);
    RoundTrip32(s.userID, b, 0);
    RoundTrip16(|s.data|, b, 4);
  }

  ghost predicate LastNonEmpty(subs: seq<SubPacket>) {
    subs != [] ==> subs[|subs| - 1].data != []
  }

  ghost predicate ShortData(subs: seq<SubPacket>) {
    forall i :: 0 <= i < |subs| ==> |subs[i].data| < 0x1_0000
  }

  /** The first sub-packet written is the first one read. */
  lemma FirstEncoded(s: SubPacket, rest: seq<byte>)
    requires |s.data| < 0x1_0000 && (s.data != [] || rest != [])
    ensures var b := EncodeSub(s) + rest;
            |b| > 6 && FirstSub(b) == s && DataRead(b) == |s.data| && b[6 + |s.data|..] == rest
  {
    SubFields(s, rest);
    assert s.data + Zeros(0) == s.data;
  }

  lemma {:induction false} ParseEncoded(subs: seq<SubPacket>)
    requires ShortData(subs) && LastNonEmpty(subs)
    ensures ParseSubs(EncodeSubs(subs)) == subs
  {
    if subs != [] {
      var s, rest := subs[0], EncodeSubs(subs[1..]);
      assert LastNonEmpty(subs[1..]);
      ParseEncoded(subs[1..]);
      assert s.data != [] || rest != [] by {
        assert |subs| > 1 ==> rest == EncodeSub(subs[1]) + EncodeSubs(subs[1..][1..]);
      }
      FirstEncoded(s, rest);
    }
  }

  /** Cut before the data of the last sub-packet begins, a payload yields too few sub-packets. */
  lemma {:induction false} CutTooShort(front: seq<SubPacket>, s: SubPacket, m: nat)
    requires ShortData(front) && m <= |EncodeSubs(front)| + 6
    ensures m <= |EncodeSubs(front + [s])|
    ensures |ParseSubs(EncodeSubs(front + [s])[..m])| <= |front|
  {
    EncodeSubsSnoc(front, s);
    if front != [] && m > 6 {
      var f, rest := front[0], EncodeSubs(front[1..] + [s]);
      assert (front + [s])[1..] == front[1..] + [s];
      var whole := EncodeSub(f) + rest;
      var cut := whole[..m];
      SubFields(f, rest);
      assert U16(cut, 4) == |f.data|;
      if 6 + |f.data| <= m {
        var m' := m - 6 - |f.data|;
        assert cut[6 + |f.data|..] == rest[..m'];
        CutTooShort(front[1..], s, m');
      } else {
        assert cut[m..] == [];
      }
    }
  }

  /** The bytes sent for a packet: the payload length, like the cut, keeps 16 bits. */
  function Emitted(h: Header, subs: seq<SubPacket>): seq<byte>
    requires |h.hopIP| == PACKET_HOPS
  {
    var body := EncodeSubs(subs);
    EncodeHeader(h.(payloadLen := |body| % 0x1_0000)) + body[..|body| % 0x1_0000]
  }

  lemma ParseEmitted(h: Header, subs: seq<SubPacket>)
    requires h.Valid()
    ensures var body := EncodeSubs(subs);
            var raw := Emitted(h, subs);
            ParseRaw(raw, |raw|) == Ok((h.(payloadLen := |body| % 0x1_0000), ParseSubs(body[..|body| % 0x1_0000])))
  {
    var body := EncodeSubs(subs);
    var n := |body| % 0x1_0000;
    HeaderRoundTrip(h.(payloadLen := n), body[..n]);
    assert Emitted(h, subs)[HEADER_SIZE..HEADER_SIZE + n] == body[..n];
  }

  /** A payload cut to its 16-bit length never yields sub-packets it should not. */
  lemma CutPayload(subs: seq<SubPacket>)
    requires subs != [] && !(|EncodeSubs(subs)| < 0x1_0000 && subs[|subs| - 1].data != [])
    ensures ParseSubs(EncodeSubs(subs)[..|EncodeSubs(subs)| % 0x1_0000]) != subs
  {
    var body := EncodeSubs(subs);
    var m := |body| % 0x1_0000;
    if ShortData(subs) {
      var front, s := subs[..|subs| - 1], subs[|subs| - 1];
      assert front + [s] == subs;
      EncodeSubsSnoc(front, s);
      assert m <= |EncodeSubs(front)| + 6;
      CutTooShort(front, s, m);
    } else {
      var i :| 0 <= i < |subs| && |subs[i].data| >= 0x1_0000;
      assert subs[i] in subs;
    }
  }

  lemma WholePayload(subs: seq<SubPacket>)
    requires |EncodeSubs(subs)| < 0x1_0000 && LastNonEmpty(subs)
    ensures ParseSubs(EncodeSubs(subs)[..|EncodeSubs(subs)| % 0x1_0000]) == subs
  {
    var body := EncodeSubs(subs);
    assert ShortData(subs) by {
      ShortBody(subs);
    }
    ParseEncoded(subs);
    var n := |body| % 0x1_0000;
    assert n == |body|;
    assert body[..n] == body;
  }

  /**
   A packet is read back as written exactly when its payload length fits the 16-bit field and
   its last sub-packet is not empty.
   */
  lemma CodecRoundTrip(h: Header, subs: seq<SubPacket>)
    requires h.Valid() && subs != []
    ensures var body := EncodeSubs(subs);
            var raw := Emitted(h, subs);
            ParseRaw(raw, |raw|) == Ok((h.(payloadLen := |body| % 0x1_0000), subs))
            <==> |body| < 0x1_0000 && subs[|subs| - 1].data != []
  {
    ParseEmitted(h, subs);
    if |EncodeSubs(subs)| < 0x1_0000 && subs[|subs| - 1].data != [] {
      WholePayload(subs);
    } else {
      CutPayload(subs);
    }
  }

  /** A packet within the limits is read back, header and all. */
  lemma EmittedReadBack(h: Header, subs: seq<SubPacket>)
    requires h.Valid() && subs != [] && |EncodeSubs(subs)| < 0x1_0000 && subs[|subs| - 1].data != []
    ensures var full := h.(payloadLen := |EncodeSubs(subs)|);
            var raw := Emitted(h, subs);
            |raw| >= HEADER_SIZE && DecodeHeader(raw) == full && ParseRaw(raw, |raw|) == Ok((full, subs))
  {
    var body := EncodeSubs(subs);
    CodecRoundTrip(h, subs);
    var n := |body| % 0x1_0000;
    assert n == |body|;
    HeaderRoundTrip(h.(payloadLen := n), body[..n]);
  }

  lemma {:induction false} ShortBody(subs: seq<SubPacket>)
    ensures forall i :: 0 <= i < |subs| ==> |subs[i].data| < |EncodeSubs(subs)|
  {
    if subs != [] {
      ShortBody(subs[1..]);
      assert forall i :: 0 < i < |subs| ==> subs[i] == subs[1..][i - 1];
    }
  }

  // ---------- The packet object ----------

  /**
   A packet under construction. The ghost `subs` lists what was appended since the last reset, and
   `covered` what the length field covers: the same, or after a reset what was there before.
   */
  class Packet {
    const buf: array<byte>
    const buffSize: nat
    var hopPos: byte
    var hopIP: seq<uint32>
    var payloadLen: uint16
    var port: uint16
    var protocol: byte
    var wp: nat
    ghost var subs: seq<SubPacket>
    ghost var covered: seq<SubPacket>

    /** The payload area of the buffer starts with these bytes. */
    ghost predicate Holds(bytes: seq<byte>)
      reads this, buf
    {
      HEADER_SIZE + |bytes| <= buf.Length && buf[HEADER_SIZE..HEADER_SIZE + |bytes|] == bytes
    }

    lemma HoldsPrefix(bytes: seq<byte>, n: nat)
      requires Holds(bytes) && n <= |bytes|
      ensures Holds(bytes[..n])
    {
      assert buf[HEADER_SIZE..HEADER_SIZE + n] == buf[HEADER_SIZE..HEADER_SIZE + |bytes|][..n];
    }

    ghost predicate Valid()
      reads this, buf
    {
      && buf.Length == buffSize && |hopIP| == PACKET_HOPS
      && HEADER_SIZE <= wp && wp == HEADER_SIZE + |EncodeSubs(subs)|
      && (wp > HEADER_SIZE ==> wp <= buffSize && covered == subs)
      && (wp <= buffSize ==> Holds(EncodeSubs(subs)) && buf[22] == buf[23] == 0)
      && payloadLen == |EncodeSubs(covered)| % 0x1_0000
      && (buffSize >= HEADER_SIZE ==> Holds(EncodeSubs(covered)[..payloadLen]))
    }

    ghost function HeaderOf(): Header
      reads this
    {
      Header(hopPos, hopIP, payloadLen, port, protocol)
    }

    constructor (buffSizes: nat)
      ensures Valid() && fresh(buf) && buffSize == buffSizes && subs == covered == []
      ensures HeaderOf() == Header(0, [0, 0, 0, 0], 0, 0, 0) && wp == HEADER_SIZE
    {
      buffSize := buffSizes;
      buf := new byte[buffSizes](i => 0);
      hopPos, hopIP, payloadLen, port, protocol, wp := 0, [0, 0, 0, 0], 0, 0, 0, HEADER_SIZE;
      subs, covered := [], [];
    }

    /** Ignores positions outside the header and addresses that are not IPv4. */
    method SetHopIP(i: int, ip: Option<uint32>)
      requires Valid()
      modifies this`hopIP
      ensures Valid()
      ensures hopIP == if 0 <= i < PACKET_HOPS && ip.Some? then old(hopIP)[i := ip.value] else old(hopIP)
    {
      if 0 <= i < PACKET_HOPS && ip.Some? {
        hopIP := hopIP[i := ip.value];
      }
    }

    method SetHopPos(pos: byte)
      requires Valid()
      modifies this`hopPos
      ensures Valid() && hopPos == if pos < PACKET_HOPS then pos else old(hopPos)
    {
      if pos < PACKET_HOPS {
        hopPos := pos;
      }
    }

    /** Writes bytes behind the payload. */
    method Put(bytes: seq<byte>, ghost payload: seq<byte>)
      requires Holds(payload) && wp == HEADER_SIZE + |payload| && wp + |bytes| <= buf.Length
      modifies buf
      ensures Holds(payload + bytes) && buf[22] == old(buf[22]) && buf[23] == old(buf[23])
    {
      ghost var before := buf[..];
      forall i | 0 <= i < |bytes| {
        buf[wp + i] := bytes[i];
      }
      assert buf[HEADER_SIZE..wp] == before[HEADER_SIZE..wp];
      assert buf[wp..wp + |bytes|] == bytes;
      assert buf[HEADER_SIZE..wp + |bytes|] == buf[HEADER_SIZE..wp] + buf[wp..wp + |bytes|];
    }

    /** Writes one sub-packet, or changes nothing when it does not fit. */
    method AppendUserPacket(userID: uint32, data: seq<byte>) returns (ok: bool)
      requires Valid()
      modifies this`wp, this`payloadLen, this`subs, this`covered, buf
      ensures Valid()
      ensures ok <==> old(wp) + 6 + |data| <= buffSize
      ensures ok ==> subs == covered == old(subs) + [SubPacket(userID, data)]
      ensures !ok ==>
                && subs == old(subs) && covered == old(covered) && wp == old(wp)
                && payloadLen == old(payloadLen) && buf[..] == old(buf[..])
    {
      if wp + 6 + |data| > buffSize {
        return false;
      }
      var s := SubPacket(userID, data);
      Put(EncodeSub(s), EncodeSubs(subs));
      EncodeSubsSnoc(subs, s);
      wp := wp + 6 + |data|;
      Cover(subs + [s]);
      return true;
    }

    /** The payload is now what `all` encodes. */
    method Cover(ghost all: seq<SubPacket>)
      requires buf.Length == buffSize && |hopIP| == PACKET_HOPS && Holds(EncodeSubs(all))
      requires wp == HEADER_SIZE + |EncodeSubs(all)| && buf[22] == buf[23] == 0
      modifies this`payloadLen, this`subs, this`covered
      ensures Valid() && subs == covered == all
    {
      payloadLen := (wp - HEADER_SIZE) % 0x1_0000;
      subs, covered := all, all;
      HoldsPrefix(EncodeSubs(all), payloadLen);
    }

    /** Writes the header fields; the padding is left as it is. */
    method SerializeHead()
      requires Valid() && buffSize >= HEADER_SIZE
      modifies buf
      ensures Valid() && buf[..HEADER_SIZE] == EncodeHeader(HeaderOf())
    {
      var head := EncodeHeader(Header(hopPos, hopIP, payloadLen, port, protocol));
      ghost var before := buf[..];
      forall i | 0 <= i < 22 {
        buf[i] := head[i];
      }
      assert buf[HEADER_SIZE..] == before[HEADER_SIZE..];
      assert wp <= buffSize ==> buf[HEADER_SIZE..wp] == buf[HEADER_SIZE..][..wp - HEADER_SIZE];
      assert buf[HEADER_SIZE..HEADER_SIZE + payloadLen] == buf[HEADER_SIZE..][..payloadLen];
      assert buf[..HEADER_SIZE] == head;
    }

    function TotalBytes(): nat
      reads this
    {
      HEADER_SIZE + payloadLen
    }

    /**
     The bytes to send: the emitted form of what was appended, or, of a packet emptied since, once
     more of what it held.
     */
    method Emit() returns (raw: seq<byte>)
      requires Valid() && buffSize >= HEADER_SIZE
      modifies buf
      ensures Valid() && raw == Emitted(HeaderOf(), covered)
      ensures subs != [] ==> raw == Emitted(HeaderOf(), subs)
    {
      SerializeHead();
      raw := buf[..TotalBytes()];
      assert buf[HEADER_SIZE..TotalBytes()] == EncodeSubs(covered)[..payloadLen];
      assert raw == buf[..HEADER_SIZE] + buf[HEADER_SIZE..TotalBytes()];
    }

    /** A batch starts over; the stale length stays until the next append. */
    method ResetPayload()
      requires Valid() && wp <= buffSize
      modifies this`wp, this`subs
      ensures Valid() && subs == [] && covered == old(covered) && wp == HEADER_SIZE
    {
      wp, subs := HEADER_SIZE, [];
    }
  }

  /** Steps the hop position of a raw packet and touches nothing else. */
  method AdvanceRawHop(pkt: array<byte>)
    modifies pkt
    ensures pkt[..] == Advanced(old(pkt[..]))
  {
    if pkt.Length >= HEADER_SIZE && pkt[0] < PACKET_HOPS - 1 {
      pkt[0] := pkt[0] + 1;
    }
  }

  function Advanced(raw: seq<byte>): seq<byte> {
    if |raw| >= HEADER_SIZE && raw[0] < PACKET_HOPS - 1 then raw[0 := raw[0] + 1] else raw
  }

  /** Advancing a packet changes its hop position and neither the other fields nor the payload. */
  lemma AdvancedHeader(raw: seq<byte>)
    requires |raw| >= HEADER_SIZE && raw[0] < PACKET_HOPS - 1
    ensures DecodeHeader(Advanced(raw)) == DecodeHeader(raw).(hopPos := raw[0] + 1)
    ensures Advanced(raw)[1..] == raw[1..]
  {
    var a := Advanced(raw);
    assert forall i :: 1 <= i < |raw| ==> a[i] == raw[i];
  }

  method Parse(raw: seq<byte>, bufferSize: nat) returns (r: Result<(Header, seq<SubPacket>)>)
    requires |raw| >= HEADER_SIZE ==> bufferSize >= HEADER_SIZE
    ensures r == ParseRaw(raw, bufferSize)
  {
    if |raw| < HEADER_SIZE {
      return Err("raw data too short");
    }
    var h := DecodeHeader(raw);
    var end := HEADER_SIZE + h.payloadLen;
    if end > |raw| || end > bufferSize {
      return Err("invalid payload length");
    }
    var subs := ReadSubs(raw[HEADER_SIZE..end]);
    return Ok((h, subs));
  }

  /** The reader loop. */
  method ReadSubs(payload: seq<byte>) returns (subs: seq<SubPacket>)
    ensures subs == ParseSubs(payload)
  {
    subs := [];
    var at := 0;
    assert payload[0..] == payload;
    while at + 6 < |payload|
      invariant 0 <= at <= |payload|
      invariant subs + ParseSubs(payload[at..]) == ParseSubs(payload)
    {
      var rest := payload[at..];
      var s, next := FirstSub(rest), at + 6 + DataRead(rest);
      assert rest[6 + DataRead(rest)..] == payload[next..];
      ghost var more := ParseSubs(payload[next..]);
      assert subs + ([s] + more) == (subs + [s]) + more;
      subs, at := subs + [s], next;
    }
  }
}
