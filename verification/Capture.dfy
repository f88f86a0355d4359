/** got_packet: the walk over the RPC records of one captured packet. */
module Capture {
  import opened Ints
  import opened Rpc
  import opened XidSpec
  import XidTable

  /** `nfs_pkt_t`. */
  datatype Record = Record(secs: u32, usecs: u32, srcHost: u32, dstHost: u32, srcPort: u32, dstPort: u32,
                           xid: u32, call: u32, version: u32, proc: u32, status: u32,
                           payloadLen: u32, actualLen: u32, proto: u32)

  /** `TPacketNfs`. */
  datatype Queued = Queued(record: Record, data: bytes)

  const NO_PROC: u32 := 0xFFFF_FFFF

  // ---------------------------------------------------------------- one iteration of the loop

  /** What an iteration makes of the bytes at the loop head: leave the function, skip a NULL call that ends the
      capture, or deliver a message. Of a message: `bp` is the offset of its RPC header, `rc` the length of that
      header, `data` the offset of its payload and `next` the next loop head. */
  datatype Iteration =
    | Return
    | NullCall
    | Message(bp: u32, rc: int, dir: u32, data: u32, payloadLen: u32, next: u32)

  /** The record length: the marker without its top bit over TCP, the rest of the packet over UDP. */
  function RecordLength(p: Packet, f: Frame, consumed: u32): u32 {
    if f.tcp then WordAt(p.mem, consumed) % 0x8000_0000 else WrapU32(p.caplen - f.start)
  }

  /** An iteration, given the header found at `bp`, the record length, and the word where a call has its procedure.
      All arithmetic is in 32 bits, as the program has it: `payloadLen` may wrap below zero. */
  function Assemble(h: RpcHeader, bp: u32, rpcLen: u32, procWord: u32, caplen: u32): Iteration {
    var body := WrapU32(bp + h.rc);
    if h.rc <= 0 then Return
    else if body == caplen && h.dir == CALL && procWord == 0 then NullCall
    else if body >= caplen then Return
    else MessageAt(bp, h.rc, h.dir, body, rpcLen)
  }

  /** The two words behind a reply's header, its accept and call status, count as part of that header. */
  function MessageAt(bp: u32, rc: int, dir: u32, body: u32, rpcLen: u32): (m: Iteration)
    ensures m.Message?
  {
    var extra := if dir == CALL then 0 else 8;
    var data := WrapU32(body + extra);
    var payloadLen := WrapU32(rpcLen - (rc + extra));
    Message(bp, rc, dir, data, payloadLen, WrapU32(data + payloadLen))
  }

  function BodyPointer(f: Frame, consumed: u32): u32 {
    if f.tcp then WrapU32(consumed + 4) else consumed
  }

  function Iterate(p: Packet, f: Frame, consumed: u32): Iteration {
    var bp := BodyPointer(f, consumed);
    Assemble(GetRpcHeader(p.mem, bp, WrapU32(p.caplen - bp)), bp, RecordLength(p, f, consumed),
             WordAt(p.mem, bp + 20), p.caplen)
  }

  /** Section 11 of RFC 5531: one record on from `consumed`, over the unbounded integers. */
  function NextRecord(p: Packet, f: Frame, consumed: nat): nat {
    if f.tcp then consumed + 4 + WordAt(p.mem, consumed) % 0x8000_0000
    else consumed + WrapU32(p.caplen - f.start)
  }

  lemma HeaderFits(mem: Memory, bp: u32, maxlen: u32)
    ensures var h := GetRpcHeader(mem, bp, maxlen);
            h.rc > 0 ==> h.rc < 0x8000_0000 && (h.dir == CALL || h.dir == REPLY)
  {
  }

  lemma Wraps(x: int)
    ensures 0 <= x < 0x1_0000_0000 ==> WrapU32(x) == x
    ensures -0x1_0000_0000 <= x < 0 ==> WrapU32(x) == x + 0x1_0000_0000
    ensures 0x1_0000_0000 <= x < 0x2_0000_0000 ==> WrapU32(x) == x - 0x1_0000_0000
  {
  }

  /** A length that may have wrapped below zero, or whatever else it is, added back to what it was taken from. */
  lemma LengthCancels(data: int, len: int, hdr: int)
    ensures WrapU32(data + WrapU32(len - hdr)) == WrapU32(data - hdr + len)
  {
    WrapSum(data, len - hdr);
  }

  lemma AssembleAdvances(h: RpcHeader, bp: u32, rpcLen: u32, procWord: u32, caplen: u32)
    requires Assemble(h, bp, rpcLen, procWord, caplen).Message?
    requires h.rc < 0x8000_0000 && bp <= 2 * BUFSIZ && rpcLen < 0x8000_0000 && caplen <= BUFSIZ
    ensures var m := Assemble(h, bp, rpcLen, procWord, caplen);
            && m.rc > 0 && m.next == bp + rpcLen && m.bp + m.rc < caplen
            && m.data == bp + m.rc + (if m.dir == CALL then 0 else 8)
  {
    var extra := if h.dir == CALL then 0 else 8;
    Wraps(bp + h.rc);
    Wraps(bp + h.rc + extra);
    LengthCancels(bp + h.rc + extra, rpcLen, h.rc + extra);
    Wraps(bp + rpcLen);
  }

  /** The header length cancels out: a delivered message leaves the loop head exactly one record on. */
  lemma MessageAdvances(p: Packet, f: Frame, consumed: u32)
    requires f.start <= consumed < p.caplen <= BUFSIZ && Iterate(p, f, consumed).Message?
    ensures Iterate(p, f, consumed).next == NextRecord(p, f, consumed) > consumed
    ensures var m := Iterate(p, f, consumed);
            && m.rc > 0 && (m.dir == CALL || m.dir == REPLY)
            && m.bp == consumed + (if f.tcp then 4 else 0)
            && m.data == m.bp + m.rc + (if m.dir == CALL then 0 else 8)
            && m.bp + m.rc < p.caplen
  {
    var bp := BodyPointer(f, consumed);
    var maxlen := WrapU32(p.caplen - bp);
    var h := GetRpcHeader(p.mem, bp, maxlen);
    Wraps(consumed + 4);
    Wraps(p.caplen - f.start);
    HeaderFits(p.mem, bp, maxlen);
    AssembleAdvances(h, bp, RecordLength(p, f, consumed), WordAt(p.mem, bp + 20), p.caplen);
  }

  // ---------------------------------------------------------------- what a delivered message does

  /** `found` and `entry` are the table node a message took out or put in; `out` is what it queued. `at` is the
      loop head of its iteration. */
  datatype Event =
    | Call(at: u32, entry: Entry, out: Option<Queued>)
    | Reply(at: u32, key: Key, found: Option<Entry>, out: Option<Queued>)

  function DataAt(p: Packet, off: nat): (d: bytes)
    ensures |d| == if off <= p.caplen then p.caplen - off else 0
  {
    seq(if off <= p.caplen then p.caplen - off else 0, i => p.mem(off + i))
  }

  /** Queue the record with the payload bytes in the capture, if there are any and the procedure is known. */
  function Enqueue(p: Packet, data: u32, r: Record): Option<Queued> {
    if p.caplen > data && r.proc != NO_PROC then Some(Queued(r, DataAt(p, data))) else None
  }

  function RecordOf(p: Packet, f: Frame, m: Iteration, version: u32, proc: u32, status: u32): Record
    requires m.Message?
  {
    Record(p.secs, p.usecs, f.srcHost, f.dstHost, f.srcPort, f.dstPort, WordAt(p.mem, m.bp), m.dir,
           version, proc, status, m.payloadLen, WrapU32(p.caplen - m.data), if f.tcp then IPPROTO_TCP else IPPROTO_UDP)
  }

  /** The status word of a reply, read relative to the first record of the packet. */
  function StatusAt(p: Packet, f: Frame, rc: int): u32 {
    WordAt(p.mem, f.base + rc + 4)
  }

  function KeyOf(p: Packet, f: Frame, bp: u32, dir: u32): Key {
    if dir == CALL then Key(WordAt(p.mem, bp), f.srcHost, f.srcPort) else Key(WordAt(p.mem, bp), f.dstHost, f.dstPort)
  }

  /** What the table answers to a message: the version and procedure to record, the node taken, the table left. */
  datatype Answer = Answer(version: u32, proc: u32, found: Option<Entry>, table: Table)

  function Ask(p: Packet, f: Frame, bp: u32, dir: u32, t: Table): (a: Answer)
    requires ValidTable(t)
    ensures ValidTable(a.table)
  {
    var k := KeyOf(p, f, bp, dir);
    if dir == CALL then
      var version, proc := WordAt(p.mem, bp + 16), WordAt(p.mem, bp + 20);
      InsertPushesThenCulls(t, p.secs, k, version, proc, k);
      Answer(version, proc, None, Insert(t, p.secs, k, version, proc))
    else
      LookupPops(t, k, k);
      match Lookup(t, k)
      case (None, t') => Answer(3, NO_PROC, None, t')
      case (Some(e), t') => Answer(e.version, e.proc, Some(e), t')
  }

  function StatusAfter(p: Packet, f: Frame, rc: int, dir: u32, status: u32): u32 {
    if dir == CALL then status else StatusAt(p, f, rc)
  }

  /** The table and queue effects of a message; `status` is the status of the record left over from before. */
  function Deliver(p: Packet, f: Frame, at: u32, m: Iteration, status: u32, t: Table): (r: (Event, Table))
    requires ValidTable(t) && m.Message?
    ensures ValidTable(r.1)
  {
    var a := Ask(p, f, m.bp, m.dir, t);
    var out := Enqueue(p, m.data, RecordOf(p, f, m, a.version, a.proc, StatusAfter(p, f, m.rc, m.dir, status)));
    var k := KeyOf(p, f, m.bp, m.dir);
    (if m.dir == CALL then Event.Call(at, NewEntry(t, p.secs, k, a.version, a.proc), out)
     else Event.Reply(at, k, a.found, out),
     a.table)
  }

  /** One iteration at a loop head inside the capture. */
  function Step(p: Packet, f: Frame, consumed: u32): (m: Iteration)
    requires f.start <= consumed < p.caplen <= BUFSIZ
    ensures m == Iterate(p, f, consumed)
    ensures m.Message? ==> consumed < m.next
  {
    var m := Iterate(p, f, consumed);
    if m.Message? then MessageAdvances(p, f, consumed); m else m
  }

  /** The loop, from a loop head on. */
  function Walk(p: Packet, f: Frame, consumed: u32, status: u32, t: Table): (r: (seq<Event>, Table))
    requires ValidTable(t) && p.caplen <= BUFSIZ && f.start <= consumed
    ensures ValidTable(r.1)
    decreases p.caplen - consumed
  {
    if consumed >= p.caplen || !Step(p, f, consumed).Message? then ([], t)
    else
      var m := Step(p, f, consumed);
      var (ev, t') := Deliver(p, f, consumed, m, status, t);
      var (evs, t'') := Walk(p, f, m.next, StatusAfter(p, f, m.rc, m.dir, status), t');
      ([ev] + evs, t'')
  }

  /** One captured packet; `status` is the uninitialised status field of the record on the stack. */
  function PacketEvents(p: Packet, status: u32, t: Table): (r: (seq<Event>, Table))
    requires ValidTable(t) && p.caplen <= BUFSIZ
    ensures ValidTable(r.1)
  {
    match Parse(p)
    case None => ([], t)
    case Some(f) => Walk(p, f, f.start, status, t)
  }

  function Sent(out: Option<Queued>): seq<Queued> {
    if out.Some? then [out.value] else []
  }

  /** What a history adds to the queue. */
  function Outputs(evs: seq<Event>): seq<Queued> {
    if evs == [] then [] else Sent(evs[0].out) + Outputs(evs[1..])
  }

  // ---------------------------------------------------------------- the program

  /** The queue between the capture thread and the server thread; each method is one step under its lock. */
  class SynchronizedDequeue {
    var items: seq<Queued>

    constructor ()
      ensures items == []
    {
      items := [];
    }

    method Add(q: Queued)
      modifies this
      ensures items == old(items) + [q]
    {
      items := items + [q];
    }

    /** The oldest packet, or none. */
    method Get() returns (q: Option<Queued>)
      modifies this
      ensures if old(items) == [] then q == None && items == []
              else q == Some(old(items)[0]) && items == old(items)[1..]
    {
      if items == [] {
        return None;
      }
      q := Some(items[0]);
      items := items[1..];
    }
  }

  lemma WalkOn(p: Packet, f: Frame, consumed: u32, status: u32, t: Table)
    requires ValidTable(t) && f.start <= consumed < p.caplen <= BUFSIZ && Step(p, f, consumed).Message?
    ensures var m := Step(p, f, consumed);
            var d := Deliver(p, f, consumed, m, status, t);
            var w := Walk(p, f, m.next, StatusAfter(p, f, m.rc, m.dir, status), d.1);
            Walk(p, f, consumed, status, t) == ([d.0] + w.0, w.1)
  {
  }

  /** The loop takes table `t` and queue `q`, at a loop head, to `t'` and `q'`. */
  ghost predicate Done(p: Packet, f: Frame, consumed: u32, status: u32, t: Table, q: seq<Queued>, t': Table,
                       q': seq<Queued>)
  {
    && ValidTable(t) && p.caplen <= BUFSIZ && f.start <= consumed
    && t' == Walk(p, f, consumed, status, t).1
    && q' == q + Outputs(Walk(p, f, consumed, status, t).0)
  }

  /** A message takes table `t` and queue `q` to `t'` and `q'`. */
  ghost predicate Delivered(p: Packet, f: Frame, at: u32, m: Iteration, status: u32,
                            t: Table, q: seq<Queued>, t': Table, q': seq<Queued>) {
    && ValidTable(t) && m.Message?
    && t' == Deliver(p, f, at, m, status, t).1
    && q' == q + Sent(Deliver(p, f, at, m, status, t).0.out)
  }

  lemma DeliveredFrom(p: Packet, f: Frame, at: u32, m: Iteration, status: u32, t: Table, q: seq<Queued>, r: Record)
    requires ValidTable(t) && m.Message?
    requires var a := Ask(p, f, m.bp, m.dir, t);
             r == RecordOf(p, f, m, a.version, a.proc, StatusAfter(p, f, m.rc, m.dir, status))
    ensures Delivered(p, f, at, m, status, t, q, Ask(p, f, m.bp, m.dir, t).table, q + Sent(Enqueue(p, m.data, r)))
  {
  }

  lemma DonePast(p: Packet, f: Frame, consumed: u32, status: u32, t: Table, q: seq<Queued>)
    requires ValidTable(t) && p.caplen <= BUFSIZ && f.start <= consumed && p.caplen <= consumed
    ensures Done(p, f, consumed, status, t, q, t, q)
  {
  }

  lemma DoneStop(p: Packet, f: Frame, consumed: u32, status: u32, t: Table, q: seq<Queued>)
    requires ValidTable(t) && f.start <= consumed < p.caplen <= BUFSIZ && !Step(p, f, consumed).Message?
    ensures Done(p, f, consumed, status, t, q, t, q)
  {
  }

  lemma OutputsCons(ev: Event, evs: seq<Event>)
    ensures Outputs([ev] + evs) == Sent(ev.out) + Outputs(evs)
  {
    assert ([ev] + evs)[1..] == evs;
  }

  lemma DoneFrom(p: Packet, f: Frame, consumed: u32, status: u32, t: Table, q: seq<Queued>,
                 t1: Table, q1: seq<Queued>, t': Table, q': seq<Queued>)
    requires ValidTable(t) && f.start <= consumed < p.caplen <= BUFSIZ && Step(p, f, consumed).Message?
    requires Delivered(p, f, consumed, Step(p, f, consumed), status, t, q, t1, q1)
    requires var m := Step(p, f, consumed); Done(p, f, m.next, StatusAfter(p, f, m.rc, m.dir, status), t1, q1, t', q')
    ensures Done(p, f, consumed, status, t, q, t', q')
  {
    var m := Step(p, f, consumed);
    var s := StatusAfter(p, f, m.rc, m.dir, status);
    WalkOn(p, f, consumed, status, t);
    var ev, rest := Deliver(p, f, consumed, m, status, t).0, Walk(p, f, m.next, s, t1).0;
    OutputsCons(ev, rest);
    ConcatAssoc(q, Sent(ev.out), Outputs(rest));
  }

  lemma DoneStep(p: Packet, f: Frame, consumed: u32, status: u32, t: Table, q: seq<Queued>, t1: Table, q1: seq<Queued>)
    requires ValidTable(t) && f.start <= consumed < p.caplen <= BUFSIZ && Step(p, f, consumed).Message?
    requires Delivered(p, f, consumed, Step(p, f, consumed), status, t, q, t1, q1)
    ensures var m := Step(p, f, consumed);
            forall t', q' :: Done(p, f, m.next, StatusAfter(p, f, m.rc, m.dir, status), t1, q1, t', q')
                         ==> Done(p, f, consumed, status, t, q, t', q')
  {
    var m := Step(p, f, consumed);
    var s := StatusAfter(p, f, m.rc, m.dir, status);
    forall t', q' | Done(p, f, m.next, s, t1, q1, t', q')
      ensures Done(p, f, consumed, status, t, q, t', q')
    {
      DoneFrom(p, f, consumed, status, t, q, t1, q1, t', q');
    }
  }

  class Sniffer {
    const table: XidTable.HashTable
    const queue: SynchronizedDequeue

    constructor ()
      ensures table.Valid() && table.State() == EmptyTable && queue.items == []
      ensures fresh(table) && fresh(table.heads) && table.nodes == {} && fresh(queue)
    {
      table := new XidTable.HashTable();
      queue := new SynchronizedDequeue();
    }

    /** Insert a call into the table, or look a reply up in it. */
    method Consult(p: Packet, f: Frame, bp: u32, dir: u32) returns (version: u32, proc: u32)
      requires table.Valid()
      modifies table, table.heads, table.nodes
      ensures table.Valid() && fresh(table.nodes - old(table.nodes))
      ensures var a := Ask(p, f, bp, dir, old(table.State()));
              version == a.version && proc == a.proc && table.State() == a.table
    {
      var xid := WordAt(p.mem, bp);
      if dir == CALL {
        version, proc := WordAt(p.mem, bp + 16), WordAt(p.mem, bp + 20);
        table.Insert(p.secs, Key(xid, f.srcHost, f.srcPort), version, proc);
      } else {
        var found := table.Lookup(Key(xid, f.dstHost, f.dstPort));
        if found == null {
          version, proc := 3, NO_PROC;
        } else {
          version, proc := found.entry.version, found.entry.proc;
        }
      }
    }

    /** Queue a record with its payload, as far as captured. */
    method Post(p: Packet, data: u32, record: Record)
      modifies queue
      ensures queue.items == old(queue.items) + Sent(Enqueue(p, data, record))
    {
      if p.caplen > data && record.proc != NO_PROC {
        queue.Add(Queued(record, DataAt(p, data)));
      }
    }

    /** The start of the loop body: the record marker over TCP, and the message header behind it. */
    method Header(p: Packet, f: Frame, at: u32, rpcLen0: u32) returns (bp: u32, rpcLen: u32, h: RpcHeader)
      requires rpcLen0 == WrapU32(p.caplen - f.start)
      ensures bp == BodyPointer(f, at) && rpcLen == RecordLength(p, f, at)
      ensures h == GetRpcHeader(p.mem, bp, WrapU32(p.caplen - bp))
    {
      bp, rpcLen := at, rpcLen0;
      if f.tcp {
        rpcLen := WordAt(p.mem, at) % 0x8000_0000;
        bp := WrapU32(at + 4);
      }
      h := GetRpcHeader(p.mem, bp, WrapU32(p.caplen - bp));
    }

    /** Whether the message header is accepted. */
    method Accept(p: Packet, bp: u32, h: RpcHeader, ghost rpcLen: u32) returns (more: bool, body: u32)
      ensures var m := Assemble(h, bp, rpcLen, WordAt(p.mem, bp + 20), p.caplen);
              more == m.Message? && (more ==> m == MessageAt(bp, h.rc, h.dir, body, rpcLen))
    {
      more, body := false, bp;
      if h.rc <= 0 {
        return;
      }
      body := WrapU32(bp + h.rc);
      if body == p.caplen && h.dir == CALL && WordAt(p.mem, bp + 20) == 0 {
        return;
      }
      if body >= p.caplen {
        return;
      }
      more := true;
    }

    /** The loop body up to the point where the message header has been accepted; `more` is whether it was. */
    method Scan(p: Packet, f: Frame, at: u32, rpcLen0: u32)
      returns (more: bool, bp: u32, rc: int, dir: u32, body: u32, rpcLen: u32)
      requires rpcLen0 == WrapU32(p.caplen - f.start)
      ensures more == Iterate(p, f, at).Message?
      ensures more ==> Iterate(p, f, at) == MessageAt(bp, rc, dir, body, rpcLen)
    {
      var h;
      bp, rpcLen, h := Header(p, f, at, rpcLen0);
      more, body := Accept(p, bp, h, rpcLen);
      rc, dir := h.rc, h.dir;
      assert Iterate(p, f, at) == Assemble(h, bp, rpcLen, WordAt(p.mem, bp + 20), p.caplen);
    }

    /** The end of the loop body: fill in the record, queue it, and step over the payload. */
    method Finish(p: Packet, f: Frame, bp: u32, rc: int, dir: u32, body: u32, rpcLen: u32, status: u32,
                  version: u32, proc: u32)
      returns (consumed: u32, st: u32)
      modifies queue
      ensures var m := MessageAt(bp, rc, dir, body, rpcLen);
              && consumed == m.next && st == StatusAfter(p, f, rc, dir, status)
              && queue.items == old(queue.items) + Sent(Enqueue(p, m.data, RecordOf(p, f, m, version, proc, st)))
    {
      consumed, st := body, status;
      var rh: int := rc;
      if dir != CALL {
        st := StatusAt(p, f, rc);
        rh := rh + 8;
        consumed := WrapU32(consumed + 8);
      }
      var payloadLen: u32 := WrapU32(rpcLen - rh);
      var record := Record(p.secs, p.usecs, f.srcHost, f.dstHost, f.srcPort, f.dstPort, WordAt(p.mem, bp), dir,
                           version, proc, st, payloadLen, WrapU32(p.caplen - consumed),
                           if f.tcp then IPPROTO_TCP else IPPROTO_UDP);
      Post(p, consumed, record);
      consumed := WrapU32(consumed + payloadLen);
    }

    /** The rest of the loop body: consult the table, then record and queue the message. */
    method Message(p: Packet, f: Frame, ghost at: u32, bp: u32, rc: int, dir: u32, body: u32, rpcLen: u32, status: u32)
      returns (consumed: u32, st: u32)
      requires table.Valid()
      modifies table, table.heads, table.nodes, queue
      ensures table.Valid() && fresh(table.nodes - old(table.nodes))
      ensures consumed == MessageAt(bp, rc, dir, body, rpcLen).next && st == StatusAfter(p, f, rc, dir, status)
      ensures Delivered(p, f, at, MessageAt(bp, rc, dir, body, rpcLen), status,
                        old(table.State()), old(queue.items), table.State(), queue.items)
    {
      ghost var t, q, m := table.State(), queue.items, MessageAt(bp, rc, dir, body, rpcLen);
      var version, proc := Consult(p, f, bp, dir);
      consumed, st := Finish(p, f, bp, rc, dir, body, rpcLen, status, version, proc);
      DeliveredFrom(p, f, at, m, status, t, q, RecordOf(p, f, m, version, proc, st));
    }

    /** The loop. */
    method Records(p: Packet, f: Frame, status: u32)
      requires table.Valid() && p.caplen <= BUFSIZ
      modifies table, table.heads, table.nodes, queue
      ensures table.Valid() && fresh(table.nodes - old(table.nodes))
      ensures Done(p, f, f.start, status, old(table.State()), old(queue.items), table.State(), queue.items)
    {
      var consumed: u32, st: u32 := f.start, status;
      while consumed < p.caplen
        invariant f.start <= consumed
        invariant table.Valid() && fresh(table.nodes - old(table.nodes))
        invariant forall t, q :: Done(p, f, consumed, st, table.State(), queue.items, t, q)
                             ==> Done(p, f, f.start, status, old(table.State()), old(queue.items), t, q)
        decreases p.caplen - consumed
      {
        ghost var at, st0, t0, q0 := consumed, st, table.State(), queue.items;
        var more, bp, rc, dir, body, rpcLen := Scan(p, f, consumed, WrapU32(p.caplen - f.start));
        if !more {
          DoneStop(p, f, at, st0, t0, q0);
          return;
        }
        consumed, st := Message(p, f, consumed, bp, rc, dir, body, rpcLen, st);
        DoneStep(p, f, at, st0, t0, q0, table.State(), queue.items);
      }
      DonePast(p, f, consumed, st, table.State(), queue.items);
    }

    /** got_packet. `status` is the uninitialised status field of the record on the stack. */
    method GotPacket(p: Packet, status: u32)
      requires table.Valid() && p.caplen <= BUFSIZ
      modifies table, table.heads, table.nodes, queue
      ensures table.Valid() && fresh(table.nodes - old(table.nodes))
      ensures var (evs, t') := PacketEvents(p, status, old(table.State()));
              table.State() == t' && queue.items == old(queue.items) + Outputs(evs)
    {
      var frame := Parse(p);
      if frame.Some? {
        Records(p, frame.value, status);
      }
    }
  }
}
