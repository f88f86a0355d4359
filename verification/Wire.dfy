/** Packets as peers put them on the wire: a frame around RPC records, and what the capture and the log make of it. */
module Wire {
  import opened Ints
  import opened Rpc
  import opened Frames
  import opened XidSpec
  import opened Capture
  import opened Denials
  import CaptureRuns

  // ---------------------------------------------------------------- frames around records

  /** A frame's three headers. */
  datatype Headers = Headers(link: Link, ip: IpHeader, transport: Transport)

  ghost predicate HeadersOk(hs: Headers, caplen: u32) {
    && LinkOk(hs.link, caplen) && IpOk(hs.ip) && TransportOk(hs.transport) && hs.ip.fragment == 0
    && hs.ip.proto == if hs.transport.Tcp? then IPPROTO_TCP else IPPROTO_UDP
  }

  function EncodeHeaders(hs: Headers): bytes
    requires hs.ip.flags < 8 && hs.ip.fragment < 0x2000 && |hs.ip.options| <= 40
    requires hs.transport.Tcp? ==> 6 <= |hs.transport.rest| <= 46
  {
    EncodeFrame(hs.link, hs.ip, hs.transport)
  }

  /** What the program makes of the headers. */
  function FrameOf(hs: Headers, start: u32): Frame
    requires start < 0xFFFF_FFFC
  {
    var tcp := hs.transport.Tcp?;
    Frame(start, tcp, if tcp then start + 4 else start, hs.ip.src, hs.ip.dst, hs.transport.srcPort,
          hs.transport.dstPort)
  }

  /** The packet is these headers and this payload, captured whole. */
  ghost predicate Carries(p: Packet, hs: Headers, payload: bytes) {
    && HeadersOk(hs, p.caplen) && |payload| > 0
    && Holds(p.mem, 0, EncodeHeaders(hs) + payload) && |EncodeHeaders(hs)| + |payload| == p.caplen <= BUFSIZ
  }

  lemma HeadersParsed(p: Packet, hs: Headers)
    requires HeadersOk(hs, p.caplen) && Holds(p.mem, 0, EncodeHeaders(hs)) && |EncodeHeaders(hs)| < p.caplen <= BUFSIZ
    ensures Parse(p) == Some(FrameOf(hs, |EncodeHeaders(hs)|))
  {
    var l, h, t := hs.link, hs.ip, hs.transport;
    assert EncodeHeaders(hs) == EncodeFrame(l, h, t);
    ParseFindsRecords(p, l, h, t);
  }

  lemma CarriedPayload(p: Packet, hs: Headers, payload: bytes)
    requires Carries(p, hs, payload)
    ensures Parse(p) == Some(FrameOf(hs, |EncodeHeaders(hs)|)) && Holds(p.mem, |EncodeHeaders(hs)|, payload)
  {
    HeadAndPayload(p.mem, EncodeHeaders(hs), payload);
    HeadersParsed(p, hs);
  }

  lemma HeadAndPayload(mem: Memory, head: bytes, payload: bytes)
    requires Holds(mem, 0, head + payload)
    ensures Holds(mem, 0, head) && Holds(mem, |head|, payload)
  {
    HoldsSplit(mem, 0, head, payload);
  }

  /** A message as a record of section 11 of RFC 5531, over UDP on its own. */
  function EncodeRecord(tcp: bool, msg: bytes): (b: bytes)
    requires |msg| < 0x8000_0000
    ensures |b| == |msg| + if tcp then 4 else 0
  {
    if tcp then Bytes(0x8000_0000 + |msg|) + msg else msg
  }

  /** The message of a record that starts at the loop head, and over UDP ends the packet. */
  lemma RecordFound(p: Packet, f: Frame, consumed: u32, msg: bytes)
    requires |msg| <= BUFSIZ && Holds(p.mem, consumed, EncodeRecord(f.tcp, msg))
    requires !f.tcp ==> consumed == f.start && p.caplen == f.start + |msg|
    ensures Holds(p.mem, Start(f, consumed), msg) && RecordLength(p, f, consumed) == |msg|
  {
    if f.tcp {
      HoldsSplit(p.mem, consumed, Bytes(0x8000_0000 + |msg|), msg);
      HoldsWord(p.mem, consumed, 0x8000_0000 + |msg|);
    } else {
      Wraps(|msg|);
    }
  }

  // ---------------------------------------------------------------- calls

  /** A call with its arguments. */
  datatype CallMsg = CallMsg(head: CallHead, args: bytes)

  predicate CallOk(c: CallMsg) {
    HeadOk(c.head) && |c.args| > 0
  }

  function EncodeCallMsg(c: CallMsg): bytes
    requires HeadOk(c.head)
  {
    EncodeCall(c.head) + c.args
  }

  lemma AssembleCall(h: RpcHeader, bp: u32, rpcLen: u32, procWord: u32, caplen: u32)
    requires h.dir == CALL && h.rc > 0 && bp + h.rc < caplen <= BUFSIZ
    ensures var m := Assemble(h, bp, rpcLen, procWord, caplen);
            && m.Message? && m.bp == bp && m.rc == h.rc && m.dir == CALL && m.data == bp + h.rc
            && m.payloadLen == WrapU32(rpcLen - h.rc)
  {
    Wraps(bp + h.rc);
  }

  /** The program finds this call, of `size` bytes, at `bp`. */
  predicate CallAt(mem: Memory, bp: nat, left: u32, c: CallMsg, n: nat, size: nat) {
    && GetRpcHeader(mem, bp, left) == RpcHeader(n, CALL) && 0 < n < size <= left
    && WordAt(mem, bp) == c.head.xid && WordAt(mem, bp + 16) == c.head.version && WordAt(mem, bp + 20) == c.head.proc
  }

  lemma CallStarts(mem: Memory, bp: nat, left: u32, c: CallMsg)
    requires CallOk(c) && IsNfsCall(c.head) && Holds(mem, bp, EncodeCallMsg(c)) && |EncodeCallMsg(c)| <= left
    ensures CallAt(mem, bp, left, c, |EncodeCall(c.head)|, |EncodeCallMsg(c)|)
    ensures Holds(mem, bp + |EncodeCall(c.head)|, c.args)
  {
    HoldsSplit(mem, bp, EncodeCall(c.head), c.args);
    CallHeaderLength(mem, bp, left, c.head);
  }

  lemma IterateCall(p: Packet, f: Frame, consumed: u32, n: nat)
    requires consumed < p.caplen <= BUFSIZ && 0 < n && Start(f, consumed) + n < p.caplen
    requires GetRpcHeader(p.mem, Start(f, consumed), p.caplen - Start(f, consumed)) == RpcHeader(n, CALL)
    ensures var bp, m := Start(f, consumed), Iterate(p, f, consumed);
            && m.Message? && m.bp == bp && m.rc == n && m.dir == CALL && m.data == bp + n
            && m.payloadLen == WrapU32(RecordLength(p, f, consumed) - n)
  {
    var bp, left := Start(f, consumed), p.caplen - Start(f, consumed);
    StartFits(p, f, consumed);
    IterateFrom(p, f, consumed, bp, left, RpcHeader(n, CALL));
    AssembleCall(RpcHeader(n, CALL), bp, RecordLength(p, f, consumed), WordAt(p.mem, bp + 20), p.caplen);
  }

  lemma DataHeld(p: Packet, off: nat, b: bytes)
    requires Holds(p.mem, off, b) && off + |b| == p.caplen
    ensures DataAt(p, off) == b
  {
    forall i | 0 <= i < |b|
      ensures DataAt(p, off)[i] == b[i]
    {
    }
  }

  /** Which transport a packet came over. */
  function ProtoOf(f: Frame): u32 {
    if f.tcp then 6 else 17
  }

  /** What delivering a call with a known procedure queues and inserts; `status` is left over from the message
      before. */
  predicate CallEvent(ev: Event, p: Packet, f: Frame, c: CallMsg, status: u32, t: Table) {
    && ev.Call? && |c.args| <= BUFSIZ
    && ev.entry == Entry(Key(c.head.xid, f.srcHost, f.srcPort), c.head.version, c.head.proc, p.secs, t.serials)
    && ev.out == Some(Queued(Record(p.secs, p.usecs, f.srcHost, f.dstHost, f.srcPort, f.dstPort, c.head.xid, 0,
                                    c.head.version, c.head.proc, status, |c.args|, |c.args|, ProtoOf(f)),
                             c.args))
  }

  lemma DeliverCall(p: Packet, f: Frame, at: u32, m: Iteration, status: u32, t: Table, c: CallMsg)
    requires ValidTable(t) && c.head.proc != NO_PROC && p.caplen <= BUFSIZ && Delivers(p, m, c)
    ensures var (ev, t') := Deliver(p, f, at, m, status, t);
            && CallEvent(ev, p, f, c, status, t)
            && t' == Insert(t, p.secs, Key(c.head.xid, f.srcHost, f.srcPort), c.head.version, c.head.proc)
  {
    Wraps(p.caplen - m.data);
  }

  /** The iteration delivers this call, with everything behind its header as its arguments. */
  predicate Delivers(p: Packet, m: Iteration, c: CallMsg) {
    && m.Message? && m.dir == CALL && m.data < p.caplen && DataAt(p, m.data) == c.args && m.payloadLen == |c.args|
    && WordAt(p.mem, m.bp) == c.head.xid
    && WordAt(p.mem, m.bp + 16) == c.head.version && WordAt(p.mem, m.bp + 20) == c.head.proc
  }

  /** The next loop head is where the message ends. */
  lemma RecordEnds(p: Packet, f: Frame, consumed: u32)
    requires f.start <= consumed < p.caplen <= BUFSIZ && Step(p, f, consumed).Message?
             && (!f.tcp ==> consumed == f.start)
    ensures Step(p, f, consumed).next == Start(f, consumed) + RecordLength(p, f, consumed)
  {
    MessageAdvances(p, f, consumed);
  }

  /** A record that ends the capture is the last one. */
  lemma LastRecord(p: Packet, f: Frame, consumed: u32, status: u32, t: Table)
    requires ValidTable(t) && f.start <= consumed < p.caplen <= BUFSIZ && Step(p, f, consumed).Message?
    requires Start(f, consumed) + RecordLength(p, f, consumed) == p.caplen && (!f.tcp ==> consumed == f.start)
    ensures var d := Deliver(p, f, consumed, Step(p, f, consumed), status, t);
            Walk(p, f, consumed, status, t) == ([d.0], d.1)
  {
    var m := Step(p, f, consumed);
    RecordEnds(p, f, consumed);
    WalkOn(p, f, consumed, status, t);
    var d, s := Deliver(p, f, consumed, m, status, t), StatusAfter(p, f, m.rc, m.dir, status);
    CaptureRuns.WalkPastEnd(p, f, m.next, s, d.1);
    assert [d.0] + [] == [d.0];
  }

  lemma CallFound(p: Packet, bp: nat, c: CallMsg)
    requires CallOk(c) && IsNfsCall(c.head) && Holds(p.mem, bp, EncodeCallMsg(c))
    requires bp + |EncodeCallMsg(c)| == p.caplen
    ensures CallAt(p.mem, bp, p.caplen - bp, c, |EncodeCall(c.head)|, p.caplen - bp)
    ensures DataAt(p, bp + |EncodeCall(c.head)|) == c.args
  {
    CallStarts(p.mem, bp, p.caplen - bp, c);
    DataHeld(p, bp + |EncodeCall(c.head)|, c.args);
  }

  lemma DeliveredFrom(p: Packet, f: Frame, consumed: u32, c: CallMsg, n: nat)
    requires consumed < p.caplen <= BUFSIZ && Start(f, consumed) < p.caplen
    requires var left := p.caplen - Start(f, consumed); CallAt(p.mem, Start(f, consumed), left, c, n, left)
    requires DataAt(p, Start(f, consumed) + n) == c.args
             && RecordLength(p, f, consumed) == p.caplen - Start(f, consumed)
    ensures Delivers(p, Iterate(p, f, consumed), c)
  {
    IterateCall(p, f, consumed, n);
    Wraps(|c.args|);
  }

  lemma CallDelivered(p: Packet, f: Frame, consumed: u32, c: CallMsg)
    requires CallOk(c) && IsNfsCall(c.head) && consumed < p.caplen <= BUFSIZ
    requires Holds(p.mem, Start(f, consumed), EncodeCallMsg(c)) && Start(f, consumed) + |EncodeCallMsg(c)| == p.caplen
    requires RecordLength(p, f, consumed) == |EncodeCallMsg(c)|
    ensures Delivers(p, Iterate(p, f, consumed), c)
  {
    CallFound(p, Start(f, consumed), c);
    DeliveredFrom(p, f, consumed, c, |EncodeCall(c.head)|);
  }

  lemma LastDelivered(p: Packet, f: Frame, consumed: u32, c: CallMsg, status: u32, t: Table)
    requires ValidTable(t) && c.head.proc != NO_PROC && f.start <= consumed < p.caplen <= BUFSIZ
    requires Delivers(p, Step(p, f, consumed), c)
    requires Start(f, consumed) + RecordLength(p, f, consumed) == p.caplen && (!f.tcp ==> consumed == f.start)
    ensures var (evs, t') := Walk(p, f, consumed, status, t);
            && |evs| == 1 && CallEvent(evs[0], p, f, c, status, t)
            && t' == Insert(t, p.secs, Key(c.head.xid, f.srcHost, f.srcPort), c.head.version, c.head.proc)
  {
    DeliverCall(p, f, consumed, Step(p, f, consumed), status, t, c);
    LastRecord(p, f, consumed, status, t);
  }

  /** A call with arguments that ends the capture: it is inserted and queued, and nothing else happens. */
  lemma LastCall(p: Packet, f: Frame, consumed: u32, c: CallMsg, status: u32, t: Table)
    requires ValidTable(t) && CallOk(c) && IsNfsCall(c.head) && c.head.proc != NO_PROC
    requires f.start <= consumed < p.caplen <= BUFSIZ
    requires Holds(p.mem, Start(f, consumed), EncodeCallMsg(c)) && Start(f, consumed) + |EncodeCallMsg(c)| == p.caplen
    requires RecordLength(p, f, consumed) == |EncodeCallMsg(c)| && (!f.tcp ==> consumed == f.start)
    ensures var (evs, t') := Walk(p, f, consumed, status, t);
            && |evs| == 1 && CallEvent(evs[0], p, f, c, status, t)
            && t' == Insert(t, p.secs, Key(c.head.xid, f.srcHost, f.srcPort), c.head.version, c.head.proc)
  {
    CallDelivered(p, f, consumed, c);
    LastDelivered(p, f, consumed, c, status, t);
  }

  /** So it is with a packet of one call, over TCP or UDP. */
  lemma CapturedCall(p: Packet, hs: Headers, c: CallMsg, status: u32, t: Table)
    requires ValidTable(t) && CallOk(c) && IsNfsCall(c.head) && c.head.proc != NO_PROC && |EncodeCallMsg(c)| <= BUFSIZ
    requires Carries(p, hs, EncodeRecord(hs.transport.Tcp?, EncodeCallMsg(c)))
    ensures var (evs, t'), f := PacketEvents(p, status, t), FrameOf(hs, |EncodeHeaders(hs)|);
            && |evs| == 1 && CallEvent(evs[0], p, f, c, status, t)
            && t' == Insert(t, p.secs, Key(c.head.xid, f.srcHost, f.srcPort), c.head.version, c.head.proc)
  {
    var f, msg := FrameOf(hs, |EncodeHeaders(hs)|), EncodeCallMsg(c);
    CarriedPayload(p, hs, EncodeRecord(f.tcp, msg));
    RecordFound(p, f, f.start, msg);
    LastCall(p, f, f.start, c, status, t);
  }

  // ---------------------------------------------------------------- calls of other programs

  /** Anything but an NFS call ends the walk. */
  lemma ForeignReturns(p: Packet, f: Frame, consumed: u32, c: CallHead)
    requires HeadOk(c) && !IsNfsCall(c) && consumed < p.caplen <= BUFSIZ
    requires Holds(p.mem, Start(f, consumed), EncodeCall(c)) && Start(f, consumed) + |EncodeCall(c)| <= p.caplen
    ensures Iterate(p, f, consumed) == Return
  {
    var bp, left := Start(f, consumed), p.caplen - Start(f, consumed);
    CallHeaderLength(p.mem, bp, left, c);
    StartFits(p, f, consumed);
    IterateFrom(p, f, consumed, bp, left, GetRpcHeader(p.mem, bp, left));
  }

  lemma HeadPositive(c: CallHead)
    requires HeadOk(c)
    ensures |EncodeCall(c)| > 0
  {
  }

  /** An NFS call is delivered if anything lies behind its header, and ends the walk otherwise. */
  lemma NfsDelivered(p: Packet, f: Frame, consumed: u32, c: CallHead)
    requires HeadOk(c) && IsNfsCall(c) && consumed < p.caplen <= BUFSIZ
    requires Holds(p.mem, Start(f, consumed), EncodeCall(c)) && Start(f, consumed) + |EncodeCall(c)| <= p.caplen
    ensures var m := Iterate(p, f, consumed);
            && (m.Message? <==> Start(f, consumed) + |EncodeCall(c)| < p.caplen)
            && (m.Message? ==> m.dir == CALL && m.bp == Start(f, consumed))
    ensures WordAt(p.mem, Start(f, consumed)) == c.xid
  {
    var bp, left := Start(f, consumed), p.caplen - Start(f, consumed);
    CallHeaderLength(p.mem, bp, left, c);
    HeadPositive(c);
    if bp + |EncodeCall(c)| < p.caplen {
      IterateCall(p, f, consumed, |EncodeCall(c)|);
    } else {
      StartFits(p, f, consumed);
      IterateFrom(p, f, consumed, bp, left, GetRpcHeader(p.mem, bp, left));
      Wraps(bp + |EncodeCall(c)|);
    }
  }

  /** A call whose header is captured whole, wherever in a packet: it gives an event if and only if its RPC version
      is 2, its program 100003, its credentials AUTH_UNIX, and anything lies behind the header. Otherwise the walk
      ends, and neither table nor queue changes. */
  lemma EventIffNfs(p: Packet, f: Frame, consumed: u32, c: CallHead, status: u32, t: Table)
    requires ValidTable(t) && HeadOk(c) && f.start <= consumed < p.caplen <= BUFSIZ
    requires Holds(p.mem, Start(f, consumed), EncodeCall(c)) && Start(f, consumed) + |EncodeCall(c)| <= p.caplen
    ensures var w := Walk(p, f, consumed, status, t);
            if c.rpcvers == 2 && c.prog == 100003 && c.flavor == 1 && Start(f, consumed) + |EncodeCall(c)| < p.caplen
            then w.0 != [] && w.0[0].Call? && w.0[0].entry.key == Key(c.xid, f.srcHost, f.srcPort)
            else w == ([], t)
  {
    if IsNfsCall(c) {
      NfsDelivered(p, f, consumed, c);
      if Step(p, f, consumed).Message? {
        WalkOn(p, f, consumed, status, t);
      }
    } else {
      ForeignReturns(p, f, consumed, c);
    }
  }

  lemma HeldAhead(p: Packet, f: Frame, msg: bytes, more: bytes)
    requires |msg| <= BUFSIZ && Holds(p.mem, f.start, EncodeRecord(f.tcp, msg) + more)
    ensures Holds(p.mem, Start(f, f.start), msg)
  {
    HoldsSplit(p.mem, f.start, EncodeRecord(f.tcp, msg), more);
    if f.tcp {
      HoldsSplit(p.mem, f.start, Bytes(0x8000_0000 + |msg|), msg);
    }
  }

  lemma HeldCall(p: Packet, f: Frame, c: CallMsg, more: bytes, status: u32, t: Table)
    requires ValidTable(t) && HeadOk(c.head) && |EncodeCallMsg(c)| <= BUFSIZ && f.start < p.caplen <= BUFSIZ
    requires Holds(p.mem, f.start, EncodeRecord(f.tcp, EncodeCallMsg(c)) + more)
    requires f.start + |EncodeRecord(f.tcp, EncodeCallMsg(c)) + more| == p.caplen
    ensures var w := Walk(p, f, f.start, status, t);
            if c.head.rpcvers == 2 && c.head.prog == 100003 && c.head.flavor == 1 && |c.args| + |more| > 0
            then w.0 != [] && w.0[0].Call? && w.0[0].entry.key == Key(c.head.xid, f.srcHost, f.srcPort)
            else w == ([], t)
  {
    HeldAhead(p, f, EncodeCallMsg(c), more);
    HoldsSplit(p.mem, Start(f, f.start), EncodeCall(c.head), c.args);
    EventIffNfs(p, f, f.start, c.head, status, t);
  }

  /** So it is with a packet that starts with a call. */
  lemma CapturedIffNfs(p: Packet, hs: Headers, c: CallMsg, more: bytes, status: u32, t: Table)
    requires ValidTable(t) && HeadOk(c.head) && |EncodeCallMsg(c)| <= BUFSIZ
    requires Carries(p, hs, EncodeRecord(hs.transport.Tcp?, EncodeCallMsg(c)) + more)
    ensures var w := PacketEvents(p, status, t);
            if c.head.rpcvers == 2 && c.head.prog == 100003 && c.head.flavor == 1 && |c.args| + |more| > 0
            then w.0 != [] && w.0[0].Call? && w.0[0].entry.key == Key(c.head.xid, hs.ip.src, hs.transport.srcPort)
            else w == ([], t)
  {
    var f := FrameOf(hs, |EncodeHeaders(hs)|);
    CarriedPayload(p, hs, EncodeRecord(f.tcp, EncodeCallMsg(c)) + more);
    HeldCall(p, f, c, more, status, t);
  }

  // ---------------------------------------------------------------- denied replies

  /** A call just inserted is found by its reply, if its key was not outstanding and the clock is past its first
      seconds. */
  lemma FreshFound(t: Table, now: u32, k: Key, version: u32, proc: u32)
    requires ValidTable(t) && StackOf(t, k) == [] && MAX_AGE <= now
    ensures ValidTable(Insert(t, now, k, version, proc))
    ensures Lookup(Insert(t, now, k, version, proc), k).0 == Some(NewEntry(t, now, k, version, proc))
  {
    var e := NewEntry(t, now, k, version, proc);
    InsertPushesThenCulls(t, now, k, version, proc, k);
    LimitWraps(now);
    assert [e] + [] == [e] && [e][1..] == [] && StaleCount([e], Limit(now)) == 0;
    LookupPops(Insert(t, now, k, version, proc), k, k);
  }

  lemma DeniedHeld(p: Packet, f: Frame, xid: u32, d: Denial, more: bytes, status: u32, t: Table)
    requires ValidTable(t) && Holds(p.mem, f.start, EncodeRecord(f.tcp, EncodeDenied(xid, d)) + more)
    requires f.start + |EncodeRecord(f.tcp, EncodeDenied(xid, d)) + more| == p.caplen <= BUFSIZ
    ensures Fate(Walk(p, f, f.start, status, t), t, Lookup(t, Key(xid, f.dstHost, f.dstPort)).0,
                 ReplyHeader(TakenLength(d)), |EncodeDenied(xid, d)| + |more|)
  {
    var msg := EncodeDenied(xid, d);
    HoldsSplit(p.mem, f.start, EncodeRecord(f.tcp, msg), more);
    if f.tcp {
      HoldsSplit(p.mem, f.start, Bytes(0x8000_0000 + |msg|), msg);
    }
    DeniedFate(p, f, f.start, status, t, xid, d);
  }

  /** A packet of a denied reply and more. */
  lemma CapturedDenied(p: Packet, hs: Headers, xid: u32, d: Denial, more: bytes, status: u32, t: Table)
    requires ValidTable(t)
    requires Carries(p, hs, EncodeRecord(hs.transport.Tcp?, EncodeDenied(xid, d)) + more)
    ensures Fate(PacketEvents(p, status, t), t, Lookup(t, Key(xid, hs.ip.dst, hs.transport.dstPort)).0,
                 ReplyHeader(TakenLength(d)), |EncodeDenied(xid, d)| + |more|)
  {
    var f := FrameOf(hs, |EncodeHeaders(hs)|);
    CarriedPayload(p, hs, EncodeRecord(f.tcp, EncodeDenied(xid, d)) + more);
    DeniedHeld(p, f, xid, d, more, status, t);
  }

  lemma RunOfOne(p: Packet, status: u32, t: Table)
    requires ValidTable(t) && p.caplen <= BUFSIZ
    ensures CaptureRuns.Run([(p, status)], t).0 == PacketEvents(p, status, t).0
  {
    var ps := [(p, status)];
    assert |ps[1..]| == 0;
    var evs := PacketEvents(p, status, t).0;
    assert evs + [] == evs;
  }

  lemma RunOfTwo(a: Packet, sa: u32, b: Packet, sb: u32, t: Table)
    requires ValidTable(t) && a.caplen <= BUFSIZ && b.caplen <= BUFSIZ
    ensures var (evs, t') := PacketEvents(a, sa, t);
            CaptureRuns.Run([(a, sa), (b, sb)], t).0 == evs + PacketEvents(b, sb, t').0
  {
    var ps := [(a, sa), (b, sb)];
    assert ps[1..] == [(b, sb)];
    RunOfOne(b, sb, PacketEvents(a, sa, t).1);
  }

  /** A packet with a call leaves it outstanding. */
  lemma CallOutstanding(p: Packet, hs: Headers, c: CallMsg, status: u32, t: Table)
    requires ValidTable(t) && StackOf(t, Key(c.head.xid, hs.ip.src, hs.transport.srcPort)) == [] && MAX_AGE <= p.secs
    requires CallOk(c) && IsNfsCall(c.head) && c.head.proc != NO_PROC && |EncodeCallMsg(c)| <= BUFSIZ
    requires Carries(p, hs, EncodeRecord(hs.transport.Tcp?, EncodeCallMsg(c)))
    ensures var (evs, t') := PacketEvents(p, status, t);
            && |evs| == 1 && evs[0].Call? && evs[0].entry.proc != NO_PROC
            && Lookup(t', Key(c.head.xid, hs.ip.src, hs.transport.srcPort)).0 == Some(evs[0].entry)
  {
    CapturedCall(p, hs, c, status, t);
    FreshFound(t, p.secs, Key(c.head.xid, hs.ip.src, hs.transport.srcPort), c.head.version, c.head.proc);
  }

  /** What a call and a reply to it come to: the reply is found for its call if it is delivered, and then queued if
      enough lies behind it. */
  predicate Answered(evs: seq<Event>, n: int, left: int) {
    && |evs| >= 1 && evs[0].Call? && (|evs| > 1 <==> 0 < n < left)
    && (|evs| > 1 ==> evs[1].Reply? && evs[1].found == Some(evs[0].entry) && (evs[1].out.Some? <==> n + 8 < left))
  }

  lemma CallThenReply(call: seq<Event>, reply: (seq<Event>, Table), t: Table, n: int, left: int)
    requires |call| == 1 && call[0].Call? && call[0].entry.proc != NO_PROC
             && Fate(reply, t, Some(call[0].entry), n, left)
    ensures Answered(call + reply.0, n, left)
  {
  }

  /** The headers of a packet that goes back where another came from. */
  predicate Returns(back: Headers, hs: Headers) {
    back.ip.dst == hs.ip.src && back.transport.dstPort == hs.transport.srcPort
  }

  /** A call, and a denied reply to it, with anything behind: the reply takes its call off the table and is queued
      like any other, whenever enough lies behind it. */
  lemma DeniedAnswer(call: Packet, hs: Headers, c: CallMsg, sc: u32,
                     reply: Packet, hs': Headers, d: Denial, more: bytes, sr: u32, t: Table)
    requires ValidTable(t) && StackOf(t, Key(c.head.xid, hs.ip.src, hs.transport.srcPort)) == [] && MAX_AGE <= call.secs
    requires CallOk(c) && IsNfsCall(c.head) && c.head.proc != NO_PROC && |EncodeCallMsg(c)| <= BUFSIZ
    requires Carries(call, hs, EncodeRecord(hs.transport.Tcp?, EncodeCallMsg(c)))
    requires Carries(reply, hs', EncodeRecord(hs'.transport.Tcp?, EncodeDenied(c.head.xid, d)) + more)
    requires Returns(hs', hs)
    ensures Answered(CaptureRuns.Run([(call, sc), (reply, sr)], t).0,
                     ReplyHeader(TakenLength(d)), |EncodeDenied(c.head.xid, d)| + |more|)
  {
    CallOutstanding(call, hs, c, sc, t);
    var (evs, t') := PacketEvents(call, sc, t);
    CapturedDenied(reply, hs', c.head.xid, d, more, sr, t');
    CallThenReply(evs, PacketEvents(reply, sr, t'), t',
                  ReplyHeader(TakenLength(d)), |EncodeDenied(c.head.xid, d)| + |more|);
    RunOfTwo(call, sc, reply, sr, t);
  }

  // ---------------------------------------------------------------- accepted replies

  /** An accepted reply of the NFS program: its accept status, the NFS status, and the results behind it. */
  datatype ReplyMsg = ReplyMsg(xid: u32, verfFlavor: u32, verf: bytes, accept: u32, status: u32, results: bytes)

  function ReplyHead(r: ReplyMsg): bytes
    requires |r.verf| <= 400
  {
    EncodeReply(r.xid, r.verfFlavor, r.verf)
  }

  function EncodeReplyMsg(r: ReplyMsg): bytes
    requires |r.verf| <= 400
  {
    ReplyHead(r) + (EncodeWords([r.accept, r.status]) + r.results)
  }

  /** The program finds this reply, with a header of `n` bytes, at `bp`. */
  predicate ReplyAt(mem: Memory, bp: nat, r: ReplyMsg, n: nat) {
    && WordAt(mem, bp) == r.xid && WordAt(mem, bp + 4) == REPLY && WordAt(mem, bp + 16) == |r.verf|
    && WordAt(mem, bp + n + 4) == r.status && ReplyHeader(|r.verf|) == n
  }

  lemma ReplyFound(mem: Memory, bp: nat, r: ReplyMsg)
    requires |r.verf| <= 400 && Holds(mem, bp, EncodeReplyMsg(r))
    ensures ReplyAt(mem, bp, r, |ReplyHead(r)|) && |ReplyHead(r)| >= 20
    ensures |EncodeReplyMsg(r)| == |ReplyHead(r)| + 8 + |r.results|
  {
    var words := EncodeWords([r.accept, r.status]);
    HoldsSplit(mem, bp, ReplyHead(r), words + r.results);
    HoldsSplit(mem, bp + |ReplyHead(r)|, words, r.results);
    HoldsWords(mem, bp + |ReplyHead(r)|, [r.accept, r.status], 1);
    ReplyHeadWords(mem, bp, r);
  }

  lemma ReplyHeadWords(mem: Memory, bp: nat, r: ReplyMsg)
    requires |r.verf| <= 400 && Holds(mem, bp, ReplyHead(r))
    ensures WordAt(mem, bp) == r.xid && WordAt(mem, bp + 4) == REPLY && WordAt(mem, bp + 16) == |r.verf|
    ensures ReplyHeader(|r.verf|) == |ReplyHead(r)| >= 20
  {
    HoldsSplit(mem, bp, EncodeWords([r.xid, REPLY, MSG_ACCEPTED]), EncodeAuth(r.verfFlavor, r.verf));
    ThreeWords(mem, bp, r.xid, REPLY, MSG_ACCEPTED);
    HoldsAuth(mem, bp + 12, r.verfFlavor, r.verf);
  }

  /** The event of a reply with results: its call is looked up, and if that is known, it is queued with this status. */
  predicate ReplyEvent(ev: Event, f: Frame, r: ReplyMsg, status: u32, t: Table)
    requires ValidTable(t)
  {
    && ev.Reply? && ev.found == Lookup(t, Key(r.xid, f.dstHost, f.dstPort)).0
    && (ev.out.Some? <==> Known(ev.found))
    && (ev.out.Some? ==> ev.out.value.record.status == status)
  }

  lemma DeliverReply(p: Packet, f: Frame, at: u32, r: ReplyMsg, m: Iteration, status: u32, t: Table)
    requires ValidTable(t) && m.Message? && m.dir == REPLY && m.data < p.caplen && WordAt(p.mem, m.bp) == r.xid
    ensures ReplyEvent(Deliver(p, f, at, m, status, t).0, f, r, StatusAt(p, f, m.rc), t)
  {
    ReplyQueued(p, f, at, m, status, t);
  }

  /** A reply with results is delivered. */
  lemma ReplyDeliveredAt(p: Packet, f: Frame, consumed: u32, r: ReplyMsg, n: nat)
    requires f.start <= consumed < p.caplen <= BUFSIZ && Start(f, consumed) + n + 8 < p.caplen && n >= 20
    requires ReplyAt(p.mem, Start(f, consumed), r, n)
    ensures var m := Step(p, f, consumed);
            m.Message? && m.bp == Start(f, consumed) && m.rc == n && m.dir == REPLY && m.data == m.bp + n + 8
  {
    ReplyDelivered(p, f, consumed, |r.verf|);
  }
  /** What a lone reply with results queues, if its call is known. */
  predicate LoneReplyEvent(ev: Event, p: Packet, f: Frame, r: ReplyMsg, found: Option<Entry>) {
    && ev.Reply? && |r.results| <= BUFSIZ && ev.key == Key(r.xid, f.dstHost, f.dstPort) && ev.found == found
    && ev.out ==
       if Known(found) then
         Some(Queued(Record(p.secs, p.usecs, f.srcHost, f.dstHost, f.srcPort, f.dstPort, r.xid, 1,
                            found.value.version, found.value.proc, r.status, |r.results|, |r.results|, ProtoOf(f)),
                     r.results))
       else None
  }

  lemma DeliverLone(p: Packet, f: Frame, at: u32, r: ReplyMsg, m: Iteration, status: u32, t: Table)
    requires ValidTable(t) && m.Message? && m.dir == REPLY && m.data < p.caplen <= BUFSIZ
    requires WordAt(p.mem, m.bp) == r.xid && StatusAt(p, f, m.rc) == r.status
    requires DataAt(p, m.data) == r.results && m.payloadLen == |r.results|
    ensures var k := Key(r.xid, f.dstHost, f.dstPort);
            var (ev, t') := Deliver(p, f, at, m, status, t);
            LoneReplyEvent(ev, p, f, r, Lookup(t, k).0) && t' == Lookup(t, k).1
  {
    Wraps(p.caplen - m.data);
  }

  lemma LonePayload(p: Packet, f: Frame, r: ReplyMsg, n: nat)
    requires f.start < p.caplen <= BUFSIZ && n >= 20 && ReplyAt(p.mem, Start(f, f.start), r, n)
    requires Start(f, f.start) + n + 8 + |r.results| == p.caplen && |r.results| > 0
    requires RecordLength(p, f, f.start) == n + 8 + |r.results|
    ensures Step(p, f, f.start).Message? && Step(p, f, f.start).payloadLen == |r.results|
  {
    ReplyDeliveredAt(p, f, f.start, r, n);
    CaptureRuns.PayloadIsRest(p, f, f.start);
    MessageAdvances(p, f, f.start);
    Wraps(|r.results|);
  }

  lemma LoneHeld(p: Packet, f: Frame, r: ReplyMsg, n: nat, status: u32, t: Table)
    requires ValidTable(t) && f.base == Start(f, f.start) && f.start < p.caplen <= BUFSIZ && n >= 20
    requires ReplyAt(p.mem, f.base, r, n) && |r.results| > 0 && DataAt(p, f.base + n + 8) == r.results
    requires f.base + n + 8 + |r.results| == p.caplen && RecordLength(p, f, f.start) == n + 8 + |r.results|
    ensures var k, w := Key(r.xid, f.dstHost, f.dstPort), Walk(p, f, f.start, status, t);
            && |w.0| == 1 && LoneReplyEvent(w.0[0], p, f, r, Lookup(t, k).0) && w.1 == Lookup(t, k).1
  {
    ReplyDeliveredAt(p, f, f.start, r, n);
    LonePayload(p, f, r, n);
    DeliverLone(p, f, f.start, r, Step(p, f, f.start), status, t);
    LastRecord(p, f, f.start, status, t);
  }

  lemma ReplyMsgFound(p: Packet, bp: nat, r: ReplyMsg)
    requires |r.verf| <= 400 && Holds(p.mem, bp, EncodeReplyMsg(r)) && bp + |EncodeReplyMsg(r)| == p.caplen
    ensures ReplyAt(p.mem, bp, r, |ReplyHead(r)|) && |ReplyHead(r)| >= 20
    ensures |EncodeReplyMsg(r)| == |ReplyHead(r)| + 8 + |r.results|
    ensures DataAt(p, bp + |ReplyHead(r)| + 8) == r.results
  {
    var n, words := |ReplyHead(r)|, EncodeWords([r.accept, r.status]);
    ReplyFound(p.mem, bp, r);
    HoldsSplit(p.mem, bp, ReplyHead(r), words + r.results);
    HoldsSplit(p.mem, bp + n, words, r.results);
    DataHeld(p, bp + n + 8, r.results);
  }

  lemma LastReply(p: Packet, f: Frame, r: ReplyMsg, status: u32, t: Table)
    requires ValidTable(t) && f.base == Start(f, f.start) && f.start < p.caplen <= BUFSIZ
    requires |r.verf| <= 400 && |r.results| > 0 && Holds(p.mem, f.base, EncodeReplyMsg(r))
    requires f.base + |EncodeReplyMsg(r)| == p.caplen && RecordLength(p, f, f.start) == |EncodeReplyMsg(r)|
    ensures var k, w := Key(r.xid, f.dstHost, f.dstPort), Walk(p, f, f.start, status, t);
            && |w.0| == 1 && LoneReplyEvent(w.0[0], p, f, r, Lookup(t, k).0) && w.1 == Lookup(t, k).1
  {
    ReplyMsgFound(p, f.base, r);
    LoneHeld(p, f, r, |ReplyHead(r)|, status, t);
  }

  /** A packet with one accepted reply, over TCP or UDP: its call is taken off the table, and if that is known the
      reply is queued with that call's version and procedure, its own status, and exactly its results. */
  lemma CapturedReply(p: Packet, hs: Headers, r: ReplyMsg, status: u32, t: Table)
    requires ValidTable(t) && |r.verf| <= 400 && |r.results| > 0 && |EncodeReplyMsg(r)| <= BUFSIZ
    requires Carries(p, hs, EncodeRecord(hs.transport.Tcp?, EncodeReplyMsg(r)))
    ensures var w, f := PacketEvents(p, status, t), FrameOf(hs, |EncodeHeaders(hs)|);
            var k := Key(r.xid, f.dstHost, f.dstPort);
            && |w.0| == 1 && LoneReplyEvent(w.0[0], p, f, r, Lookup(t, k).0) && w.1 == Lookup(t, k).1
  {
    var f, msg := FrameOf(hs, |EncodeHeaders(hs)|), EncodeReplyMsg(r);
    CarriedPayload(p, hs, EncodeRecord(f.tcp, msg));
    RecordFound(p, f, f.start, msg);
    LastReply(p, f, r, status, t);
  }

  /** The status that the program reads for any reply of the same header length as the first one: that of the first. */
  lemma StatusOfFirst(p: Packet, f: Frame, r: ReplyMsg, n: nat)
    requires f.tcp && f.base == Start(f, f.start) && ReplyAt(p.mem, f.base, r, n)
    ensures StatusAt(p, f, n) == r.status
  {
  }

  lemma WalkReply(p: Packet, f: Frame, consumed: u32, r: ReplyMsg, n: nat, status: u32, t: Table)
    requires ValidTable(t) && f.tcp && f.start <= consumed < p.caplen <= BUFSIZ
    requires Start(f, consumed) + n + 8 < p.caplen && n >= 20 && ReplyAt(p.mem, Start(f, consumed), r, n)
    ensures var m, t' := Step(p, f, consumed), Lookup(t, Key(r.xid, f.dstHost, f.dstPort)).1;
            && m.Message? && m.next == Start(f, consumed) + RecordLength(p, f, consumed) && ValidTable(t')
            && var evs, w := Walk(p, f, consumed, status, t), Walk(p, f, m.next, StatusAt(p, f, n), t').0;
            && |evs.0| == 1 + |w| && evs.0[1..] == w && ReplyEvent(evs.0[0], f, r, StatusAt(p, f, n), t)
  {
    ReplyDeliveredAt(p, f, consumed, r, n);
    var m := Step(p, f, consumed);
    RecordEnds(p, f, consumed);
    LookupPops(t, Key(r.xid, f.dstHost, f.dstPort), Key(r.xid, f.dstHost, f.dstPort));
    DeliverReply(p, f, consumed, r, m, status, t);
    WalkOn(p, f, consumed, status, t);
  }

  /** Two replies in one packet, with verifiers of the same length: the second is recorded with the status of the
      first. */
  lemma TwoReplies(p: Packet, f: Frame, a: ReplyMsg, b: ReplyMsg, n: nat, second: u32, status: u32, t: Table)
    requires ValidTable(t) && f.tcp && f.base == Start(f, f.start) && n >= 20
    requires f.start < second < p.caplen <= BUFSIZ
    requires ReplyAt(p.mem, Start(f, f.start), a, n) && Start(f, f.start) + n + 8 < p.caplen
    requires ReplyAt(p.mem, Start(f, second), b, n) && Start(f, second) + n + 8 < p.caplen
    requires Start(f, f.start) + RecordLength(p, f, f.start) == second
    requires Start(f, second) + RecordLength(p, f, second) == p.caplen
    ensures ValidTable(Lookup(t, Key(a.xid, f.dstHost, f.dstPort)).1)
    ensures var evs := Walk(p, f, f.start, status, t).0;
            && |evs| == 2 && ReplyEvent(evs[0], f, a, a.status, t)
            && ReplyEvent(evs[1], f, b, a.status, Lookup(t, Key(a.xid, f.dstHost, f.dstPort)).1)
  {
    var t' := Lookup(t, Key(a.xid, f.dstHost, f.dstPort)).1;
    StatusOfFirst(p, f, a, n);
    WalkReply(p, f, f.start, a, n, status, t);
    WalkReply(p, f, second, b, n, a.status, t');
    var t'' := Lookup(t', Key(b.xid, f.dstHost, f.dstPort)).1;
    CaptureRuns.WalkPastEnd(p, f, p.caplen, a.status, t'');
  }

  lemma SameHead(a: ReplyMsg, b: ReplyMsg)
    requires |a.verf| == |b.verf| <= 400
    ensures |ReplyHead(a)| == |ReplyHead(b)|
  {
  }

  /** A record over TCP that holds a reply. */
  lemma ReplyRecord(p: Packet, f: Frame, consumed: u32, r: ReplyMsg)
    requires f.tcp && |r.verf| <= 400 && |EncodeReplyMsg(r)| <= BUFSIZ
    requires Holds(p.mem, consumed, EncodeRecord(true, EncodeReplyMsg(r)))
    ensures ReplyAt(p.mem, Start(f, consumed), r, |ReplyHead(r)|) && |ReplyHead(r)| >= 20
    ensures RecordLength(p, f, consumed) == |EncodeReplyMsg(r)| == |ReplyHead(r)| + 8 + |r.results|
  {
    RecordFound(p, f, consumed, EncodeReplyMsg(r));
    ReplyFound(p.mem, Start(f, consumed), r);
  }

  lemma TwoRecords(p: Packet, f: Frame, a: ReplyMsg, b: ReplyMsg, one: bytes, two: bytes)
    requires f.tcp && |a.verf| == |b.verf| <= 400 && |EncodeReplyMsg(a)| <= BUFSIZ && |EncodeReplyMsg(b)| <= BUFSIZ
    requires one == EncodeRecord(true, EncodeReplyMsg(a)) && two == EncodeRecord(true, EncodeReplyMsg(b))
    requires Holds(p.mem, f.start, one + two) && f.start + |one| + |two| == p.caplen <= BUFSIZ
    ensures var n, second := |ReplyHead(a)|, f.start + |one|;
            && n >= 20 && ReplyAt(p.mem, Start(f, f.start), a, n) && ReplyAt(p.mem, Start(f, second), b, n)
            && Start(f, f.start) + n + 8 + |a.results| == second
            && Start(f, second) + n + 8 + |b.results| == p.caplen
            && Start(f, f.start) + RecordLength(p, f, f.start) == second
            && Start(f, second) + RecordLength(p, f, second) == p.caplen
  {
    HoldsSplit(p.mem, f.start, one, two);
    ReplyRecord(p, f, f.start, a);
    ReplyRecord(p, f, f.start + |one|, b);
    SameHead(a, b);
  }

  lemma TwoHeld(p: Packet, f: Frame, a: ReplyMsg, b: ReplyMsg, status: u32, t: Table)
    requires ValidTable(t) && f.tcp && f.base == Start(f, f.start)
    requires |a.verf| == |b.verf| <= 400 && |a.results| > 0 && |b.results| > 0
    requires |EncodeReplyMsg(a)| <= BUFSIZ && |EncodeReplyMsg(b)| <= BUFSIZ
    requires var one, two := EncodeRecord(true, EncodeReplyMsg(a)), EncodeRecord(true, EncodeReplyMsg(b));
             Holds(p.mem, f.start, one + two) && f.start + |one| + |two| == p.caplen <= BUFSIZ
    ensures ValidTable(Lookup(t, Key(a.xid, f.dstHost, f.dstPort)).1)
    ensures var evs := Walk(p, f, f.start, status, t).0;
            && |evs| == 2 && ReplyEvent(evs[0], f, a, a.status, t)
            && ReplyEvent(evs[1], f, b, a.status, Lookup(t, Key(a.xid, f.dstHost, f.dstPort)).1)
  {
    var one, two := EncodeRecord(true, EncodeReplyMsg(a)), EncodeRecord(true, EncodeReplyMsg(b));
    TwoRecords(p, f, a, b, one, two);
    TwoReplies(p, f, a, b, |ReplyHead(a)|, f.start + |one|, status, t);
  }

  /** So it is in a packet of two replies: with calls that are known, both are queued with the status of the first. */
  lemma CapturedReplies(p: Packet, hs: Headers, a: ReplyMsg, b: ReplyMsg, status: u32, t: Table)
    requires ValidTable(t) && hs.transport.Tcp?
    requires |a.verf| == |b.verf| <= 400 && |a.results| > 0 && |b.results| > 0
    requires |EncodeReplyMsg(a)| <= BUFSIZ && |EncodeReplyMsg(b)| <= BUFSIZ
    requires Carries(p, hs, EncodeRecord(true, EncodeReplyMsg(a)) + EncodeRecord(true, EncodeReplyMsg(b)))
    ensures ValidTable(Lookup(t, Key(a.xid, hs.ip.dst, hs.transport.dstPort)).1)
    ensures var evs, f := PacketEvents(p, status, t).0, FrameOf(hs, |EncodeHeaders(hs)|);
            && |evs| == 2 && ReplyEvent(evs[0], f, a, a.status, t)
            && ReplyEvent(evs[1], f, b, a.status, Lookup(t, Key(a.xid, hs.ip.dst, hs.transport.dstPort)).1)
  {
    CarriedPayload(p, hs, EncodeRecord(true, EncodeReplyMsg(a)) + EncodeRecord(true, EncodeReplyMsg(b)));
    TwoHeld(p, FrameOf(hs, |EncodeHeaders(hs)|), a, b, status, t);
  }

  // ---------------------------------------------------------------- packets made of bytes

  /** Headers of the usual size, TCP over IPv4 over RFC 894 without options. */
  ghost predicate Plain(hs: Headers) {
    HeadersOk(hs, 0) && hs.link.length == None && hs.transport.Tcp? && |EncodeHeaders(hs)| == 54
  }

  function PlainHeaders(src: u32, dst: u32, srcPort: u16, dstPort: u16): (hs: Headers)
    ensures Plain(hs) && hs.ip.src == src && hs.ip.dst == dst
    ensures hs.transport.srcPort == srcPort && hs.transport.dstPort == dstPort
  {
    Headers(Link(seq(12, _ => 0), None),
            IpHeader(0, 0, 0, 0, 0, 64, IPPROTO_TCP, 0, src, dst, []),
            Tcp(srcPort, dstPort, 0, 0, 0, seq(6, _ => 0)))
  }

  /** The packet of these bytes, with zeros in the memory around it. */
  function PacketOf(secs: u32, b: bytes): (p: Packet)
    requires |b| <= BUFSIZ
    ensures Holds(p.mem, 0, b) && p.caplen == |b| && p.secs == secs
  {
    Packet(secs, 0, |b|, i => if 0 <= i < |b| then b[i] else 0)
  }

  lemma PlainLink(hs: Headers, caplen: u32)
    requires Plain(hs)
    ensures HeadersOk(hs, caplen)
  {
  }

  function PlainPacket(secs: u32, hs: Headers, payload: bytes): (p: Packet)
    requires Plain(hs) && 0 < |payload| <= 8000
    ensures Carries(p, hs, payload) && p.secs == secs
  {
    PlainLink(hs, |EncodeHeaders(hs) + payload|);
    PacketOf(secs, EncodeHeaders(hs) + payload)
  }

  const AUTH_BADCRED: u32 := 1

  function BadCredentials(xid: u32): (b: bytes)
    ensures |b| == 24
  {
    EncodeRecord(true, EncodeDenied(xid, AuthError(AUTH_BADCRED)))
  }

  lemma BadCredHeader(xid: u32)
    ensures ReplyHeader(TakenLength(AuthError(AUTH_BADCRED))) == 24
    ensures |EncodeDenied(xid, AuthError(AUTH_BADCRED))| == 20
  {
  }

  /** A call, and in the next packet a reply that its credentials are bad, with some bytes of another record behind. */
  function DeniedRun(c: CallMsg, there: Headers, back: Headers, more: bytes): seq<(Packet, u32)>
    requires CallOk(c) && |EncodeCallMsg(c)| <= 7000 && |more| <= 7000 && Plain(there) && Plain(back)
  {
    [(PlainPacket(MAX_AGE, there, EncodeRecord(true, EncodeCallMsg(c))), 0),
     (PlainPacket(MAX_AGE, back, BadCredentials(c.head.xid) + more), 0)]
  }

  /** The denied reply takes its call off the table if more than four of those bytes are captured, and it is queued
      if more than twelve are; otherwise not. */
  lemma DeniedQueued(c: CallMsg, there: Headers, back: Headers, more: bytes)
    requires CallOk(c) && IsNfsCall(c.head) && c.head.proc != NO_PROC && |EncodeCallMsg(c)| <= 7000 && |more| <= 7000
    requires Plain(there) && Plain(back) && Returns(back, there)
    ensures CaptureRuns.Captured(DeniedRun(c, there, back, more)) && ValidTable(EmptyTable)
    ensures Answered(CaptureRuns.Run(DeniedRun(c, there, back, more), EmptyTable).0, 24, 20 + |more|)
  {
    var ps := DeniedRun(c, there, back, more);
    BadCredHeader(c.head.xid);
    DeniedAnswer(ps[0].0, there, c, 0, ps[1].0, back, AuthError(AUTH_BADCRED), more, 0, EmptyTable);
  }

  /** A packet in which the second reply is queued with a status that it does not have. */
  lemma WrongStatus(secs: u32, hs: Headers, a: ReplyMsg, b: ReplyMsg, status: u32, t: Table)
    requires ValidTable(t) && Plain(hs) && |a.verf| == |b.verf| <= 400 && |a.results| > 0 && |b.results| > 0
    requires |EncodeReplyMsg(a)| <= 3000 && |EncodeReplyMsg(b)| <= 3000 && a.status != b.status
    requires var (found, t') := Lookup(t, Key(a.xid, hs.ip.dst, hs.transport.dstPort));
             ValidTable(t') && Known(Lookup(t', Key(b.xid, hs.ip.dst, hs.transport.dstPort)).0)
    ensures var payload := EncodeRecord(true, EncodeReplyMsg(a)) + EncodeRecord(true, EncodeReplyMsg(b));
            var evs := PacketEvents(PlainPacket(secs, hs, payload), status, t).0;
            && |evs| == 2 && evs[1].Reply? && evs[1].out.Some?
            && evs[1].out.value.record.status == a.status != b.status
  {
    var p := PlainPacket(secs, hs, EncodeRecord(true, EncodeReplyMsg(a)) + EncodeRecord(true, EncodeReplyMsg(b)));
    CapturedReplies(p, hs, a, b, status, t);
  }
}
