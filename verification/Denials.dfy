/** Replies that were not accepted, or not successfully: when the walk over the records delivers and queues them. */
module Denials {
  import opened Ints
  import opened Rpc
  import opened XidSpec
  import opened Capture

  /** Where the message behind the loop head `consumed` starts. */
  function Start(f: Frame, consumed: nat): nat {
    if f.tcp then consumed + 4 else consumed
  }

  /** A length that fits is computed without wrapping; one that does not, or is not positive, stays so. */
  lemma LengthKept(n: int, left: nat)
    requires -0x8000_0000 <= n < 0x9000_0000 && left <= BUFSIZ
    ensures var h := ToInt32(WrapU32(n)); (0 < h < left <==> 0 < n < left) && (0 < n < left ==> h == n)
  {
    Wraps(n);
  }

  lemma ReplyHead(mem: Memory, bp: int, maxlen: u32, verf: u32)
    requires WordAt(mem, bp + 4) == REPLY && WordAt(mem, bp + 16) == verf && 20 <= maxlen
    ensures GetRpcHeader(mem, bp, maxlen) == RpcHeader(ToInt32(WrapU32(ReplyHeader(verf))), REPLY)
    ensures -0x8000_0000 <= ReplyHeader(verf) < 0x9000_0000
  {
  }

  lemma AssembleReply(h: RpcHeader, bp: u32, rpcLen: u32, procWord: u32, caplen: u32)
    requires h.dir == REPLY && h.rc < 0x8000_0000 && bp < caplen <= BUFSIZ
    ensures var m := Assemble(h, bp, rpcLen, procWord, caplen);
            && (m.Message? <==> 0 < h.rc < caplen - bp)
            && (m.Message? ==> m.bp == bp && m.rc == h.rc && m.dir == REPLY && m.data == bp + h.rc + 8)
  {
    Wraps(bp + h.rc);
    Wraps(bp + h.rc + 8);
  }

  lemma StartFits(p: Packet, f: Frame, consumed: u32)
    requires consumed < p.caplen <= BUFSIZ && Start(f, consumed) <= p.caplen
    ensures BodyPointer(f, consumed) == Start(f, consumed)
    ensures WrapU32(p.caplen - Start(f, consumed)) == p.caplen - Start(f, consumed)
  {
    Wraps(consumed + 4);
    Wraps(p.caplen - Start(f, consumed));
  }

  lemma IterateFrom(p: Packet, f: Frame, consumed: u32, bp: u32, left: u32, h: RpcHeader)
    requires BodyPointer(f, consumed) == bp && WrapU32(p.caplen - bp) == left && GetRpcHeader(p.mem, bp, left) == h
    ensures Iterate(p, f, consumed)
         == Assemble(h, bp, RecordLength(p, f, consumed), WordAt(p.mem, bp + 20), p.caplen)
  {
  }

  /** The header length of a reply, for every verifier length word, with all wraps of the 32-bit arithmetic: the message
      is delivered exactly if that length, as an integer, is positive and ends inside the capture. */
  lemma ReplyDelivered(p: Packet, f: Frame, consumed: u32, verf: u32)
    requires f.start <= consumed < p.caplen <= BUFSIZ
    requires var bp := Start(f, consumed);
             bp + 20 <= p.caplen && WordAt(p.mem, bp + 4) == REPLY && WordAt(p.mem, bp + 16) == verf
    ensures var bp, n, m := Start(f, consumed), ReplyHeader(verf), Iterate(p, f, consumed);
            && (m.Message? <==> 0 < n < p.caplen - bp)
            && (m.Message? ==> m.bp == bp && m.rc == n && m.dir == REPLY && m.data == bp + n + 8)
  {
    var bp, left, h := Start(f, consumed), p.caplen - Start(f, consumed), ToInt32(WrapU32(ReplyHeader(verf)));
    StartFits(p, f, consumed);
    ReplyHead(p.mem, bp, left, verf);
    LengthKept(ReplyHeader(verf), left);
    IterateFrom(p, f, consumed, bp, left, RpcHeader(h, REPLY));
    AssembleReply(RpcHeader(h, REPLY), bp, RecordLength(p, f, consumed), WordAt(p.mem, bp + 20), p.caplen);
  }

  /** A node whose procedure is known. */
  predicate Known(found: Option<Entry>) {
    found.Some? && found.value.proc != NO_PROC
  }

  /** Neither the reply's status nor its accept status is looked at: it takes its call off the table, and is queued
      if that call is known and something lies behind the two words that follow the header. */
  lemma ReplyQueued(p: Packet, f: Frame, at: u32, m: Iteration, status: u32, t: Table)
    requires ValidTable(t) && m.Message? && m.dir == REPLY
    ensures var ev := Deliver(p, f, at, m, status, t).0;
            && ev.Reply? && ev.found == Lookup(t, KeyOf(p, f, m.bp, REPLY)).0
            && (ev.out.Some? <==> Known(ev.found) && m.data < p.caplen)
  {
  }

  /** What becomes of a reply whose header is taken to be `n` bytes long and to answer the call `found`. */
  predicate Fate(walk: (seq<Event>, Table), t: Table, found: Option<Entry>, n: int, left: int) {
    && (walk.0 != [] <==> 0 < n < left)
    && (walk.0 == [] ==> walk.1 == t)
    && (walk.0 != [] ==>
          var ev := walk.0[0];
          ev.Reply? && ev.found == found && (ev.out.Some? <==> Known(found) && n + 8 < left))
  }

  lemma ReplyFate(p: Packet, f: Frame, consumed: u32, status: u32, t: Table, verf: u32)
    requires ValidTable(t) && f.start <= consumed < p.caplen <= BUFSIZ
    requires var bp := Start(f, consumed);
             bp + 20 <= p.caplen && WordAt(p.mem, bp + 4) == REPLY && WordAt(p.mem, bp + 16) == verf
    ensures var bp := Start(f, consumed);
            Fate(Walk(p, f, consumed, status, t), t, Lookup(t, KeyOf(p, f, bp, REPLY)).0,
                 ReplyHeader(verf), p.caplen - bp)
  {
    ReplyDelivered(p, f, consumed, verf);
    var m := Step(p, f, consumed);
    if m.Message? {
      ReplyQueued(p, f, consumed, m, status, t);
      WalkOn(p, f, consumed, status, t);
    } else {
      DoneStop(p, f, consumed, status, t, []);
    }
  }

  /** A denied reply, captured whole: it is delivered exactly if the header length that its third or second word
      behind the status stands for ends inside the capture, and is then queued like any other. */
  lemma DeniedFate(p: Packet, f: Frame, consumed: u32, status: u32, t: Table, xid: u32, d: Denial)
    requires ValidTable(t) && f.start <= consumed < p.caplen <= BUFSIZ
    requires var bp := Start(f, consumed);
             Holds(p.mem, bp, EncodeDenied(xid, d)) && bp + |EncodeDenied(xid, d)| <= p.caplen
    ensures Fate(Walk(p, f, consumed, status, t), t, Lookup(t, Key(xid, f.dstHost, f.dstPort)).0,
                 ReplyHeader(TakenLength(d)), p.caplen - Start(f, consumed))
  {
    DeniedWords(p.mem, Start(f, consumed), xid, d);
    ReplyFate(p, f, consumed, status, t, TakenLength(d));
  }

  /** With nothing behind it, a denied reply leaves table and queue alone, except for values that its words should
      not have: a lowest version of zero, and lengths between -19 and 0, or -4. */
  lemma DeniedLast(p: Packet, f: Frame, consumed: u32, status: u32, t: Table, xid: u32, d: Denial)
    requires ValidTable(t) && f.start <= consumed < p.caplen <= BUFSIZ
    requires var bp := Start(f, consumed);
             Holds(p.mem, bp, EncodeDenied(xid, d)) && bp + |EncodeDenied(xid, d)| == p.caplen
    ensures Walk(p, f, consumed, status, t).0 == []
            <==> !(-19 <= ToInt32(TakenLength(d)) <= if d.RpcMismatch? then 0 else -4)
    ensures d.RpcMismatch? && 1 <= d.low <= RPC_VERSION ==> Walk(p, f, consumed, status, t) == ([], t)
    ensures d.AuthError? && d.stat <= RPCSEC_GSS_CTXPROBLEM ==> Walk(p, f, consumed, status, t) == ([], t)
  {
    DeniedFate(p, f, consumed, status, t, xid, d);
    DeniedLengths(d);
  }

  lemma DeniedLengths(d: Denial)
    ensures 0 < ReplyHeader(TakenLength(d)) < (if d.RpcMismatch? then 24 else 20)
            <==> -19 <= ToInt32(TakenLength(d)) <= if d.RpcMismatch? then 0 else -4
  {
  }

  /** An accepted reply, captured whole up to its accept status: whatever that is, success or error, the reply is
      delivered exactly if something lies behind the header, and queued exactly if its call is known and more than
      two words do. */
  lemma AcceptedFate(p: Packet, f: Frame, consumed: u32, status: u32, t: Table, xid: u32, flavor: u32, verf: bytes)
    requires ValidTable(t) && f.start <= consumed < p.caplen <= BUFSIZ && |verf| <= 400
    requires var bp := Start(f, consumed);
             Holds(p.mem, bp, EncodeReply(xid, flavor, verf)) && bp + |EncodeReply(xid, flavor, verf)| <= p.caplen
    ensures Fate(Walk(p, f, consumed, status, t), t, Lookup(t, Key(xid, f.dstHost, f.dstPort)).0,
                 |EncodeReply(xid, flavor, verf)|, p.caplen - Start(f, consumed))
  {
    var bp := Start(f, consumed);
    HoldsSplit(p.mem, bp, EncodeWords([xid, REPLY, MSG_ACCEPTED]), EncodeAuth(flavor, verf));
    ThreeWords(p.mem, bp, xid, REPLY, MSG_ACCEPTED);
    HoldsAuth(p.mem, bp + 12, flavor, verf);
    ReplyFate(p, f, consumed, status, t, |verf|);
  }
}
