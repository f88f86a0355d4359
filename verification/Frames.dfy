/** Link, network and transport headers as they are on the wire, and that the program finds its way through them. */
module Frames {
  import opened Ints
  import opened Rpc

  type u16 = h: int | 0 <= h < 0x1_0000

  function Half(h: u16): (b: bytes)
    ensures |b| == 2
  {
    [h / 0x100, h % 0x100]
  }

  lemma HoldsHalf(mem: Memory, at: int, h: u16)
    requires Holds(mem, at, Half(h))
    ensures HalfAt(mem, at) == h
  {
    var b := Half(h);
    assert mem(at + 0) == b[0] && mem(at + 1) == b[1];
  }

  lemma HoldsTwo(mem: Memory, at: int, a: byte, b: byte)
    requires Holds(mem, at, [a, b])
    ensures mem(at) == a && mem(at + 1) == b
  {
    assert mem(at + 0) == [a, b][0] && mem(at + 1) == [a, b][1];
  }

  // ---------------------------------------------------------------- Ethernet

  /** Addresses, then either the type (RFC 894), or a length and the LLC and SNAP headers with the type (RFC 1042). */
  datatype Link = Link(addresses: bytes, length: Option<u16>)

  /** A length is a length and not a type, or is right for the captured frame. */
  ghost predicate LinkOk(l: Link, packetLen: u32) {
    |l.addresses| == 12 && (l.length.Some? ==> l.length.value <= ETHERMTU || l.length.value == WrapU32(packetLen - 22))
  }

  function EncodeLink(l: Link, kind: u16): bytes {
    l.addresses
    + (if l.length.Some? then Half(l.length.value) + ([0xAA, 0xAA, 0x03, 0, 0, 0] + Half(kind)) else Half(kind))
  }

  /** A frame without LLC header whose type could be its length, and whose first three bytes behind the type could be
      the LLC header. */
  ghost predicate LooksLikeLlc(mem: Memory, packetLen: u32, l: Link, kind: u16) {
    l.length == None && kind == WrapU32(packetLen - 22) && mem(14) == 0xAA && mem(15) == 0xAA && mem(16) == 0x03
  }

  /** The link header's length and the type are found in both forms, except for exactly such a frame. */
  lemma LinkFields(mem: Memory, packetLen: u32, l: Link, kind: u16)
    requires LinkOk(l, packetLen) && Holds(mem, 0, EncodeLink(l, kind)) && kind > ETHERMTU
    ensures GetEtherHeader(mem, packetLen) == Ether(|EncodeLink(l, kind)|, kind)
            <==> !LooksLikeLlc(mem, packetLen, l, kind)
  {
    if l.length.Some? {
      var llc: bytes := [0xAA, 0xAA, 0x03, 0, 0, 0];
      HoldsSplit(mem, 0, l.addresses, Half(l.length.value) + (llc + Half(kind)));
      HoldsSplit(mem, 12, Half(l.length.value), llc + Half(kind));
      HoldsSplit(mem, 14, llc, Half(kind));
      HoldsHalf(mem, 12, l.length.value);
      HoldsHalf(mem, 20, kind);
      assert mem(14 + 0) == llc[0] && mem(14 + 1) == llc[1] && mem(14 + 2) == llc[2];
    } else {
      HoldsSplit(mem, 0, l.addresses, Half(kind));
      HoldsHalf(mem, 12, kind);
    }
  }

  // ---------------------------------------------------------------- IPv4 (RFC 791, section 3.1)

  datatype IpHeader = IpHeader(tos: byte, length: u16, id: u16, flags: nat, fragment: nat, ttl: byte, proto: byte,
                               checksum: u16, src: u32, dst: u32, options: bytes)

  ghost predicate IpOk(h: IpHeader) {
    h.flags < 8 && h.fragment < 0x2000 && |h.options| % 4 == 0 && |h.options| <= 40
  }

  function EncodeIp(h: IpHeader): (b: bytes)
    requires h.flags < 8 && h.fragment < 0x2000 && |h.options| <= 40
    ensures |b| == 20 + |h.options|
  {
    [0x45 + |h.options| / 4, h.tos] + (Half(h.length) + (Half(h.id) + (Half(h.flags * 0x2000 + h.fragment)
      + ([h.ttl, h.proto] + (Half(h.checksum) + (Bytes(h.src) + (Bytes(h.dst) + h.options)))))))
  }

  /** The header's length, protocol and addresses are found; a later fragment has length 0. */
  lemma IpFields(mem: Memory, at: int, h: IpHeader)
    requires IpOk(h) && Holds(mem, at, EncodeIp(h))
    ensures GetIpHeader(mem, at) == Ip(if h.fragment == 0 then |EncodeIp(h)| else 0, h.proto, h.src, h.dst)
    ensures mem(at) == 0x45 + |h.options| / 4
  {
    var f := h.flags * 0x2000 + h.fragment;
    var dst := Bytes(h.dst) + h.options;
    var src := Bytes(h.src) + dst;
    var sum := Half(h.checksum) + src;
    var proto: bytes := [h.ttl, h.proto] + sum;
    var frag := Half(f) + proto;
    HoldsSplit(mem, at, [0x45 + |h.options| / 4, h.tos], Half(h.length) + (Half(h.id) + frag));
    HoldsSplit(mem, at + 2, Half(h.length), Half(h.id) + frag);
    HoldsSplit(mem, at + 4, Half(h.id), frag);
    HoldsSplit(mem, at + 6, Half(f), proto);
    HoldsSplit(mem, at + 8, [h.ttl, h.proto], sum);
    HoldsSplit(mem, at + 10, Half(h.checksum), src);
    HoldsSplit(mem, at + 12, Bytes(h.src), dst);
    HoldsSplit(mem, at + 16, Bytes(h.dst), h.options);
    HoldsTwo(mem, at, 0x45 + |h.options| / 4, h.tos);
    HoldsHalf(mem, at + 6, f);
    HoldsTwo(mem, at + 8, h.ttl, h.proto);
    HoldsWord(mem, at + 12, h.src);
    HoldsWord(mem, at + 16, h.dst);
  }

  // ---------------------------------------------------------------- TCP (RFC 9293, section 3.1) and UDP (RFC 768)

  datatype Transport =
    | Tcp(srcPort: u16, dstPort: u16, sequence: u32, ack: u32, flags: byte, rest: bytes)
    | Udp(srcPort: u16, dstPort: u16, length: u16, checksum: u16)

  /** `rest` is the window, checksum and urgent pointer, and the options. */
  ghost predicate TransportOk(t: Transport) {
    t.Tcp? ==> 6 <= |t.rest| <= 46 && (|t.rest| - 6) % 4 == 0
  }

  function EncodeTransport(t: Transport): (b: bytes)
    requires t.Tcp? ==> 6 <= |t.rest| <= 46
    ensures |b| == if t.Tcp? then 14 + |t.rest| else 8
  {
    match t
    case Tcp(srcPort, dstPort, sequence, ack, flags, rest) =>
      Half(srcPort) + (Half(dstPort) + (Bytes(sequence) + (Bytes(ack) + ([(14 + |rest|) / 4 * 16, flags] + rest))))
    case Udp(srcPort, dstPort, length, checksum) => Half(srcPort) + (Half(dstPort) + (Half(length) + Half(checksum)))
  }

  lemma TransportFields(mem: Memory, at: int, t: Transport)
    requires TransportOk(t) && Holds(mem, at, EncodeTransport(t))
    ensures HalfAt(mem, at) == t.srcPort && HalfAt(mem, at + 2) == t.dstPort
    ensures t.Tcp? ==> mem(at + 12) / 16 * 4 == |EncodeTransport(t)|
  {
    match t
    case Tcp(srcPort, dstPort, sequence, ack, flags, rest) =>
      var tail: bytes := [(14 + |rest|) / 4 * 16, flags] + rest;
      HoldsSplit(mem, at, Half(srcPort), Half(dstPort) + (Bytes(sequence) + (Bytes(ack) + tail)));
      HoldsSplit(mem, at + 2, Half(dstPort), Bytes(sequence) + (Bytes(ack) + tail));
      HoldsSplit(mem, at + 4, Bytes(sequence), Bytes(ack) + tail);
      HoldsSplit(mem, at + 8, Bytes(ack), tail);
      HoldsSplit(mem, at + 12, [(14 + |rest|) / 4 * 16, flags], rest);
      HoldsHalf(mem, at, srcPort);
      HoldsHalf(mem, at + 2, dstPort);
      HoldsTwo(mem, at + 12, (14 + |rest|) / 4 * 16, flags);
    case Udp(srcPort, dstPort, length, checksum) =>
      HoldsSplit(mem, at, Half(srcPort), Half(dstPort) + (Half(length) + Half(checksum)));
      HoldsSplit(mem, at + 2, Half(dstPort), Half(length) + Half(checksum));
      HoldsHalf(mem, at, srcPort);
      HoldsHalf(mem, at + 2, dstPort);
  }

  // ---------------------------------------------------------------- the whole frame

  const ETHERTYPE_IP: u16 := 0x0800

  function EncodeFrame(l: Link, h: IpHeader, t: Transport): bytes
    requires h.flags < 8 && h.fragment < 0x2000 && |h.options| <= 40 && (t.Tcp? ==> 6 <= |t.rest| <= 46)
  {
    EncodeLink(l, ETHERTYPE_IP) + (EncodeIp(h) + EncodeTransport(t))
  }

  /** Where the program finds what in a frame of these three parts. */
  ghost predicate FieldsFound(p: Packet, n: nat, i: nat, h: IpHeader, t: Transport, size: nat) {
    && GetEtherHeader(p.mem, p.caplen) == Ether(n, ETHERTYPE_IP)
    && GetIpHeader(p.mem, n) == Ip(if h.fragment == 0 then i else 0, h.proto, h.src, h.dst)
    && HalfAt(p.mem, n + i) == t.srcPort && HalfAt(p.mem, n + i + 2) == t.dstPort
    && (t.Tcp? ==> p.mem(n + i + 12) / 16 * 4 == size)
  }

  lemma FrameFields(p: Packet, l: Link, h: IpHeader, t: Transport)
    requires LinkOk(l, p.caplen) && IpOk(h) && TransportOk(t) && Holds(p.mem, 0, EncodeFrame(l, h, t))
    ensures FieldsFound(p, |EncodeLink(l, ETHERTYPE_IP)|, |EncodeIp(h)|, h, t, |EncodeTransport(t)|)
  {
    FrameLink(p, l, h, EncodeTransport(t));
    FrameIp(p, EncodeLink(l, ETHERTYPE_IP), h, EncodeTransport(t));
    FrameTransport(p, EncodeLink(l, ETHERTYPE_IP), EncodeIp(h), t);
  }

  lemma FrameIp(p: Packet, link: bytes, h: IpHeader, segment: bytes)
    requires IpOk(h) && Holds(p.mem, 0, link + (EncodeIp(h) + segment))
    ensures GetIpHeader(p.mem, |link|) == Ip(if h.fragment == 0 then |EncodeIp(h)| else 0, h.proto, h.src, h.dst)
    ensures p.mem(|link|) == 0x45 + |h.options| / 4
  {
    ThreeParts(p.mem, link, EncodeIp(h), segment);
    IpFields(p.mem, |link|, h);
  }

  lemma FrameLink(p: Packet, l: Link, h: IpHeader, segment: bytes)
    requires LinkOk(l, p.caplen) && IpOk(h) && Holds(p.mem, 0, EncodeLink(l, ETHERTYPE_IP) + (EncodeIp(h) + segment))
    ensures GetEtherHeader(p.mem, p.caplen) == Ether(|EncodeLink(l, ETHERTYPE_IP)|, ETHERTYPE_IP)
  {
    FrameIp(p, EncodeLink(l, ETHERTYPE_IP), h, segment);
    ThreeParts(p.mem, EncodeLink(l, ETHERTYPE_IP), EncodeIp(h), segment);
    LinkBeforeIp(p.mem, p.caplen, l, 0x45 + |h.options| / 4);
  }

  lemma FrameTransport(p: Packet, link: bytes, ip: bytes, t: Transport)
    requires TransportOk(t) && Holds(p.mem, 0, link + (ip + EncodeTransport(t)))
    ensures HalfAt(p.mem, |link| + |ip|) == t.srcPort && HalfAt(p.mem, |link| + |ip| + 2) == t.dstPort
    ensures t.Tcp? ==> p.mem(|link| + |ip| + 12) / 16 * 4 == |EncodeTransport(t)|
  {
    ThreeParts(p.mem, link, ip, EncodeTransport(t));
    TransportFields(p.mem, |link| + |ip|, t);
  }

  /** An IPv4 header does not start like an LLC header. */
  lemma LinkBeforeIp(mem: Memory, packetLen: u32, l: Link, next: byte)
    requires LinkOk(l, packetLen) && Holds(mem, 0, EncodeLink(l, ETHERTYPE_IP))
    requires mem(|EncodeLink(l, ETHERTYPE_IP)|) == next != 0xAA
    ensures GetEtherHeader(mem, packetLen) == Ether(|EncodeLink(l, ETHERTYPE_IP)|, ETHERTYPE_IP)
  {
    LinkFields(mem, packetLen, l, ETHERTYPE_IP);
  }

  lemma ThreeParts(mem: Memory, a: bytes, b: bytes, c: bytes)
    requires Holds(mem, 0, a + (b + c))
    ensures Holds(mem, 0, a) && Holds(mem, |a|, b) && Holds(mem, |a| + |b|, c)
  {
    HoldsSplit(mem, 0, a, b + c);
    HoldsSplit(mem, |a|, b, c);
  }

  /** Of every TCP or UDP frame over IPv4 with at least one byte behind its headers, got_packet finds the hosts, the
      ports and the place where the RPC records start. */
  lemma ParseFindsRecords(p: Packet, l: Link, h: IpHeader, t: Transport)
    requires LinkOk(l, p.caplen) && IpOk(h) && TransportOk(t) && h.fragment == 0
    requires h.proto == if t.Tcp? then IPPROTO_TCP else IPPROTO_UDP
    requires Holds(p.mem, 0, EncodeFrame(l, h, t)) && |EncodeFrame(l, h, t)| < p.caplen
    ensures var n := |EncodeFrame(l, h, t)|;
            Parse(p) == Some(Frame(n, t.Tcp?, if t.Tcp? then n + 4 else n, h.src, h.dst, t.srcPort, t.dstPort))
  {
    FrameFields(p, l, h, t);
    ParseOf(p, |EncodeLink(l, ETHERTYPE_IP)|, |EncodeIp(h)|, h, t, |EncodeTransport(t)|);
  }

  lemma ParseOf(p: Packet, n: nat, i: nat, h: IpHeader, t: Transport, size: nat)
    requires FieldsFound(p, n, i, h, t, size) && h.fragment == 0 && n >= 14 && i >= 20 && n + i + size < p.caplen
    requires h.proto == if t.Tcp? then IPPROTO_TCP else IPPROTO_UDP
    requires if t.Tcp? then size >= 20 else size == 8
    ensures var start := n + i + size;
            Parse(p) == Some(Frame(start, t.Tcp?, if t.Tcp? then start + 4 else start,
                                   h.src, h.dst, t.srcPort, t.dstPort))
  {
  }

  /** Later fragments and other protocols are left alone. */
  lemma ParseIgnores(p: Packet, l: Link, h: IpHeader, t: Transport)
    requires LinkOk(l, p.caplen) && IpOk(h) && TransportOk(t) && Holds(p.mem, 0, EncodeFrame(l, h, t))
    requires h.fragment != 0 || (h.proto != IPPROTO_TCP && h.proto != IPPROTO_UDP)
    ensures Parse(p) == None
  {
    FrameFields(p, l, h, t);
    ParseNot(p, |EncodeLink(l, ETHERTYPE_IP)|, |EncodeIp(h)|, h, t, |EncodeTransport(t)|);
  }

  lemma ParseNot(p: Packet, n: nat, i: nat, h: IpHeader, t: Transport, size: nat)
    requires FieldsFound(p, n, i, h, t, size) && (h.fragment != 0 || (h.proto != IPPROTO_TCP && h.proto != IPPROTO_UDP))
    ensures Parse(p) == None
  {
  }

  /** So are frames with nothing behind their headers. */
  lemma ParseBare(p: Packet, l: Link, h: IpHeader, t: Transport)
    requires LinkOk(l, p.caplen) && IpOk(h) && TransportOk(t) && h.fragment == 0
    requires h.proto == if t.Tcp? then IPPROTO_TCP else IPPROTO_UDP
    requires Holds(p.mem, 0, EncodeFrame(l, h, t)) && |EncodeFrame(l, h, t)| == p.caplen
    ensures Parse(p) == None
  {
    FrameFields(p, l, h, t);
    ParseShort(p, |EncodeLink(l, ETHERTYPE_IP)|, |EncodeIp(h)|, h, t, |EncodeTransport(t)|);
  }

  lemma ParseShort(p: Packet, n: nat, i: nat, h: IpHeader, t: Transport, size: nat)
    requires FieldsFound(p, n, i, h, t, size) && h.fragment == 0 && n >= 14 && i >= 20 && n + i + size == p.caplen
    requires h.proto == if t.Tcp? then IPPROTO_TCP else IPPROTO_UDP
    requires if t.Tcp? then size >= 20 else size == 8
    ensures Parse(p) == None
  {
  }

  /** And frames of other types than 0x0800, and IP packets of other versions than 4. */
  lemma ParseOtherType(p: Packet, l: Link, kind: u16)
    requires LinkOk(l, p.caplen) && Holds(p.mem, 0, EncodeLink(l, kind)) && kind > ETHERMTU
    requires !LooksLikeLlc(p.mem, p.caplen, l, kind)
    requires kind != 0x0800 || p.mem(|EncodeLink(l, kind)|) / 16 != 4
    ensures Parse(p) == None
  {
    LinkFields(p.mem, p.caplen, l, kind);
  }

  /** And all packets of at most 42 captured bytes, the least that the headers of a UDP packet take. */
  lemma ParseTiny(p: Packet)
    requires p.caplen <= 42
    ensures Parse(p) == None
  {
  }
}
