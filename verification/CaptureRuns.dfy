/** What holds of every packet, and of every run of packets, that got_packet sees. */
module CaptureRuns {
  import opened Ints
  import opened Rpc
  import opened XidSpec
  import opened Capture
  import opened XidRuns

  // ---------------------------------------------------------------- one packet

  /** Record boundaries as section 11 of RFC 5531 has them: `i` records on from `consumed`. */
  function Boundary(p: Packet, f: Frame, consumed: nat, i: nat): nat
    decreases i
  {
    if i == 0 then consumed else Boundary(p, f, NextRecord(p, f, consumed), i - 1)
  }

  lemma {:induction false} WalkHeads(p: Packet, f: Frame, consumed: u32, status: u32, t: Table, i: nat)
    requires ValidTable(t) && p.caplen <= BUFSIZ && f.start <= consumed
    requires i < |Walk(p, f, consumed, status, t).0|
    ensures Walk(p, f, consumed, status, t).0[i].at == Boundary(p, f, consumed, i)
    decreases i
  {
    if i > 0 {
      var m := Step(p, f, consumed);
      MessageAdvances(p, f, consumed);
      var (ev, t') := Deliver(p, f, consumed, m, status, t);
      var s' := StatusAfter(p, f, m.rc, m.dir, status);
      WalkHeads(p, f, m.next, s', t', i - 1);
      var evs := Walk(p, f, m.next, s', t').0;
      assert ([ev] + evs)[i] == evs[i - 1];
    }
  }

  /** The messages of a packet lie one to a record, in order, from the first record on: calls and replies alike, and
      whatever the header lengths. */
  lemma MessagesAreRecords(p: Packet, status: u32, t: Table)
    requires ValidTable(t) && p.caplen <= BUFSIZ
    ensures var evs := PacketEvents(p, status, t).0;
            && (evs != [] ==> Parse(p).Some?)
            && forall i :: 0 <= i < |evs| ==>
                 evs[i].at == Boundary(p, Parse(p).value, Parse(p).value.start, i) < p.caplen
  {
    forall i | 0 <= i < |PacketEvents(p, status, t).0|
      ensures PacketEvents(p, status, t).0[i].at == Boundary(p, Parse(p).value, Parse(p).value.start, i) < p.caplen
    {
      var f := Parse(p).value;
      WalkHeads(p, f, f.start, status, t, i);
      WalkOutputs(p, f, f.start, status, t, i);
    }
  }

  /** What an event queues is a non-empty tail of the capture behind its loop head. */
  ghost predicate QueuesTail(p: Packet, f: Frame, ev: Event) {
    ev.out.Some? ==>
      exists off: nat ::
        && ev.at < off < p.caplen
        && ev.out.value.data == DataAt(p, off)
        && ev.out.value.record.actualLen == p.caplen - off
        && ev.out.value.record.payloadLen == WrapU32(NextRecord(p, f, ev.at) - off)
  }

  lemma DeliverOutput(p: Packet, f: Frame, consumed: u32, status: u32, t: Table)
    requires ValidTable(t) && f.start <= consumed < p.caplen <= BUFSIZ && Step(p, f, consumed).Message?
    ensures QueuesTail(p, f, Deliver(p, f, consumed, Step(p, f, consumed), status, t).0)
    ensures Deliver(p, f, consumed, Step(p, f, consumed), status, t).0.at == consumed
  {
    var m := Step(p, f, consumed);
    var ev := Deliver(p, f, consumed, m, status, t).0;
    if ev.out.Some? {
      var off: nat := m.data;
      TailOffset(p, f, consumed);
      PayloadIsRest(p, f, consumed);
      assert ev.out.value.data == DataAt(p, off);
    }
  }

  lemma TailOffset(p: Packet, f: Frame, consumed: u32)
    requires f.start <= consumed < p.caplen <= BUFSIZ && Step(p, f, consumed).Message?
    ensures consumed < Step(p, f, consumed).data
    ensures Step(p, f, consumed).data < p.caplen ==>
              WrapU32(p.caplen - Step(p, f, consumed).data) == p.caplen - Step(p, f, consumed).data
  {
    MessageAdvances(p, f, consumed);
    Wraps(p.caplen - Step(p, f, consumed).data);
  }

  lemma PayloadIsRest(p: Packet, f: Frame, consumed: u32)
    requires f.start <= consumed < p.caplen <= BUFSIZ && Step(p, f, consumed).Message?
    ensures Step(p, f, consumed).payloadLen == WrapU32(NextRecord(p, f, consumed) - Step(p, f, consumed).data)
  {
    MessageAdvances(p, f, consumed);
    var m := Step(p, f, consumed);
    assert RecordLength(p, f, consumed) == NextRecord(p, f, consumed) - m.bp;
  }

  lemma {:induction false} WalkOutputs(p: Packet, f: Frame, consumed: u32, status: u32, t: Table, i: nat)
    requires ValidTable(t) && p.caplen <= BUFSIZ && f.start <= consumed
    requires i < |Walk(p, f, consumed, status, t).0|
    ensures QueuesTail(p, f, Walk(p, f, consumed, status, t).0[i]) && Walk(p, f, consumed, status, t).0[i].at < p.caplen
    decreases i
  {
    var m := Step(p, f, consumed);
    DeliverOutput(p, f, consumed, status, t);
    if i > 0 {
      WalkOutputs(p, f, m.next, StatusAfter(p, f, m.rc, m.dir, status), Deliver(p, f, consumed, m, status, t).1, i - 1);
    }
  }

  /** Every queued packet holds a non-empty tail of the capture, and its lengths are those of that tail and record. */
  lemma QueuedDataIsTail(p: Packet, status: u32, t: Table)
    requires ValidTable(t) && p.caplen <= BUFSIZ
    ensures var evs := PacketEvents(p, status, t).0;
            forall i :: 0 <= i < |evs| ==> Parse(p).Some? && QueuesTail(p, Parse(p).value, evs[i])
  {
    forall i | 0 <= i < |PacketEvents(p, status, t).0|
      ensures Parse(p).Some? && QueuesTail(p, Parse(p).value, PacketEvents(p, status, t).0[i])
    {
      var f := Parse(p).value;
      WalkOutputs(p, f, f.start, status, t, i);
    }
  }

  /** Over UDP the loop body runs at most once to its end. */
  lemma UdpOnce(p: Packet, status: u32, t: Table)
    requires ValidTable(t) && p.caplen <= BUFSIZ && Parse(p).Some? && !Parse(p).value.tcp
    ensures |PacketEvents(p, status, t).0| <= 1
  {
    var f := Parse(p).value;
    if Step(p, f, f.start).Message? {
      UdpEnds(p, f);
      var m := Step(p, f, f.start);
      WalkPastEnd(p, f, m.next, StatusAfter(p, f, m.rc, m.dir, status), Deliver(p, f, f.start, m, status, t).1);
    }
  }

  lemma WalkPastEnd(p: Packet, f: Frame, consumed: u32, status: u32, t: Table)
    requires ValidTable(t) && p.caplen <= BUFSIZ && f.start <= consumed && p.caplen <= consumed
    ensures Walk(p, f, consumed, status, t) == ([], t)
  {
  }

  lemma UdpEnds(p: Packet, f: Frame)
    requires !f.tcp && f.start < p.caplen <= BUFSIZ && Step(p, f, f.start).Message?
    ensures Step(p, f, f.start).next == p.caplen
  {
    MessageAdvances(p, f, f.start);
    Wraps(p.caplen - f.start);
  }

  /** With less than a record marker, over TCP, and five words of capture left at a loop head, nothing more happens,
      whatever lies behind. */
  lemma TrailingFragment(p: Packet, f: Frame, consumed: u32, status: u32, t: Table)
    requires ValidTable(t) && p.caplen <= BUFSIZ && f.start <= consumed
    requires p.caplen < consumed + (if f.tcp then 24 else 20)
    ensures Walk(p, f, consumed, status, t) == ([], t)
  {
    if consumed < p.caplen {
      Wraps(consumed + 4);
      FragmentReturns(p, f, consumed, BodyPointer(f, consumed));
    }
  }

  lemma FragmentReturns(p: Packet, f: Frame, consumed: u32, bp: u32)
    requires bp == BodyPointer(f, consumed) <= 2 * BUFSIZ && p.caplen <= BUFSIZ && p.caplen < bp + 20
    ensures Iterate(p, f, consumed) == Return
  {
    var left := WrapU32(p.caplen - bp);
    Wraps(p.caplen - bp);
    if bp <= p.caplen {
      ShortHeader(p.mem, bp, left);
    } else {
      HeaderFits(p.mem, bp, left);
      PastReturns(GetRpcHeader(p.mem, bp, left), bp, RecordLength(p, f, consumed), WordAt(p.mem, bp + 20), p.caplen);
    }
  }

  /** Behind the capture, whatever is taken for a header ends the walk. */
  lemma PastReturns(h: RpcHeader, bp: u32, rpcLen: u32, procWord: u32, caplen: u32)
    requires caplen < bp <= 2 * BUFSIZ && h.rc < 0x8000_0000
    ensures Assemble(h, bp, rpcLen, procWord, caplen) == Return
  {
    Wraps(bp + h.rc);
  }

  /** No header is found in less than five words. */
  lemma ShortHeader(mem: Memory, bp: u32, maxlen: u32)
    requires maxlen < 20
    ensures GetRpcHeader(mem, bp, maxlen).rc < 0
  {
  }

  /** The status of a reply is read at the right place, behind its own accept status, exactly in the first record. */
  lemma StatusOffset(p: Packet, consumed: u32)
    requires Parse(p).Some?
    requires var f := Parse(p).value; f.start <= consumed < p.caplen <= BUFSIZ && Step(p, f, consumed).Message?
    requires Step(p, Parse(p).value, consumed).dir == REPLY
    ensures var f := Parse(p).value; var m := Step(p, f, consumed);
            f.base + m.rc + 4 == m.data - 4 <==> consumed == f.start
  {
    MessageAdvances(p, Parse(p).value, consumed);
    assert Parse(p).value.base == Parse(p).value.start + (if Parse(p).value.tcp then 4 else 0);
  }

  // ---------------------------------------------------------------- runs of packets

  /** At most BUFSIZ bytes are captured of a packet. */
  predicate Captured(ps: seq<(Packet, u32)>) {
    forall i :: 0 <= i < |ps| ==> ps[i].0.caplen <= BUFSIZ
  }

  /** A run: each packet with the stack word its record's status field starts out with. */
  function Run(ps: seq<(Packet, u32)>, t: Table): (r: (seq<Event>, Table))
    requires ValidTable(t) && Captured(ps)
    ensures ValidTable(r.1)
    decreases |ps|
  {
    if ps == [] then ([], t)
    else
      var (evs, t') := PacketEvents(ps[0].0, ps[0].1, t);
      var (rest, t'') := Run(ps[1..], t');
      (evs + rest, t'')
  }

  /** The table operation behind an event. */
  function OpOf(ev: Event): Op {
    match ev
    case Call(_, e, _) => Ins(e.callTime, e.key, e.version, e.proc)
    case Reply(_, k, _, _) => Look(k)
  }

  function Ops(evs: seq<Event>): seq<Op> {
    if evs == [] then [] else [OpOf(evs[0])] + Ops(evs[1..])
  }

  /** A queued record belongs to the call it carries the version and procedure of. */
  ghost predicate Queues(ev: Event) {
    match ev
    case Call(_, e, out) =>
      out.Some? ==>
        var r := out.value.record;
        && e.key == Key(r.xid, r.srcHost, r.srcPort) && r.call == CALL
        && r.version == e.version && r.proc == e.proc && r.secs == e.callTime
    case Reply(_, k, found, out) =>
      out.Some? ==>
        var r := out.value.record;
        && k == Key(r.xid, r.dstHost, r.dstPort) && r.call == REPLY
        && found.Some? && r.version == found.value.version && r.proc == found.value.proc
  }

  /** The event is what the table in state `t` answers. */
  ghost predicate Answers(t: Table, ev: Event)
    requires ValidTable(t)
  {
    && Queues(ev)
    && match ev
       case Call(_, e, _) => e == NewEntry(t, e.callTime, e.key, e.version, e.proc)
       case Reply(_, k, found, _) => found == Lookup(t, k).0
  }

  /** Each event of a history is what the table answered when its turn came. */
  ghost predicate Trace(t: Table, evs: seq<Event>)
    requires ValidTable(t)
    decreases |evs|
  {
    evs != [] ==> Answers(t, evs[0]) && Trace(Apply(t, OpOf(evs[0])), evs[1..])
  }

  lemma {:induction false} OpsAppend(a: seq<Event>, b: seq<Event>)
    ensures Ops(a + b) == Ops(a) + Ops(b)
  {
    if a == [] {
      assert a + b == b;
    } else {
      OpsAppend(a[1..], b);
      assert (a + b)[1..] == a[1..] + b;
      assert Ops(a + b) == [OpOf(a[0])] + Ops(a[1..] + b);
    }
  }

  lemma RunCons(t: Table, op: Op, ops: seq<Op>)
    requires ValidTable(t)
    ensures XidRuns.Run(t, [op] + ops) == XidRuns.Run(Apply(t, op), ops)
  {
    assert ([op] + ops)[1..] == ops;
  }

  lemma {:induction false} RunAppend(t: Table, a: seq<Op>, b: seq<Op>)
    requires ValidTable(t)
    ensures XidRuns.Run(t, a + b) == XidRuns.Run(XidRuns.Run(t, a), b)
    decreases |a|
  {
    if a == [] {
      assert a + b == b;
    } else {
      var op, rest := a[0], a[1..];
      assert a == [op] + rest && a + b == [op] + (rest + b);
      RunCons(t, op, rest);
      RunCons(t, op, rest + b);
      RunAppend(Apply(t, op), rest, b);
    }
  }

  lemma TraceCons(t: Table, ev: Event, evs: seq<Event>)
    requires ValidTable(t)
    ensures Trace(t, [ev] + evs) <==> Answers(t, ev) && Trace(Apply(t, OpOf(ev)), evs)
    ensures Ops([ev] + evs) == [OpOf(ev)] + Ops(evs)
    ensures XidRuns.Run(t, Ops([ev] + evs)) == XidRuns.Run(Apply(t, OpOf(ev)), Ops(evs))
  {
    assert ([ev] + evs)[1..] == evs;
    assert ([OpOf(ev)] + Ops(evs))[1..] == Ops(evs);
  }

  lemma {:induction false} TraceAppend(t: Table, a: seq<Event>, b: seq<Event>)
    requires ValidTable(t) && Trace(t, a) && Trace(XidRuns.Run(t, Ops(a)), b)
    ensures Trace(t, a + b)
    decreases |a|
  {
    if a == [] {
      assert a + b == b;
    } else {
      var ev, rest := a[0], a[1..];
      Cons(a);
      ConcatAssoc([ev], rest, b);
      TraceCons(t, ev, rest);
      TraceCons(t, ev, rest + b);
      TraceAppend(Apply(t, OpOf(ev)), rest, b);
    }
  }

  lemma DeliverTrace(p: Packet, f: Frame, at: u32, m: Iteration, status: u32, t: Table)
    requires ValidTable(t) && m.Message? && (m.dir == CALL || m.dir == REPLY)
    ensures var (ev, t') := Deliver(p, f, at, m, status, t); Answers(t, ev) && t' == Apply(t, OpOf(ev))
  {
  }

  lemma {:induction false} WalkTrace(p: Packet, f: Frame, consumed: u32, status: u32, t: Table)
    requires ValidTable(t) && p.caplen <= BUFSIZ && f.start <= consumed
    ensures var (evs, t') := Walk(p, f, consumed, status, t); Trace(t, evs) && t' == XidRuns.Run(t, Ops(evs))
    decreases p.caplen - consumed
  {
    if consumed < p.caplen && Step(p, f, consumed).Message? {
      var m := Step(p, f, consumed);
      MessageAdvances(p, f, consumed);
      DeliverTrace(p, f, consumed, m, status, t);
      var (ev, t') := Deliver(p, f, consumed, m, status, t);
      var s' := StatusAfter(p, f, m.rc, m.dir, status);
      WalkTrace(p, f, m.next, s', t');
      var evs := Walk(p, f, m.next, s', t').0;
      assert ([ev] + evs)[1..] == evs;
      assert Ops([ev] + evs)[1..] == Ops(evs);
    }
  }

  /** A run of packets is a run of table operations, and its events are what the table answered. */
  lemma {:induction false} RunTrace(ps: seq<(Packet, u32)>, t: Table)
    requires ValidTable(t) && Captured(ps)
    ensures var (evs, t') := Run(ps, t); Trace(t, evs) && t' == XidRuns.Run(t, Ops(evs))
    decreases |ps|
  {
    if ps != [] {
      var p, status := ps[0].0, ps[0].1;
      if Parse(p).Some? {
        WalkTrace(p, Parse(p).value, Parse(p).value.start, status, t);
      }
      var (evs, t') := PacketEvents(p, status, t);
      RunTrace(ps[1..], t');
      var rest := Run(ps[1..], t').0;
      TraceAppend(t, evs, rest);
      OpsAppend(evs, rest);
      RunAppend(t, Ops(evs), Ops(rest));
    }
  }

  // ---------------------------------------------------------------- how long calls stay in the table

  lemma {:induction false} ClockAppend(a: seq<Op>, b: seq<Op>, t0: u32)
    requires ClockFrom(a, t0) && ClockFrom(b, t0)
    ensures ClockFrom(a + b, t0)
  {
    if a == [] {
      assert a + b == b;
    } else {
      assert (a + b)[0] == a[0] && (a + b)[1..] == a[1..] + b;
      ClockAppend(a[1..], b, t0);
    }
  }

  lemma {:induction false} WalkClock(p: Packet, f: Frame, consumed: u32, status: u32, t: Table, t0: u32)
    requires ValidTable(t) && p.caplen <= BUFSIZ && f.start <= consumed && t0 <= p.secs
    ensures ClockFrom(Ops(Walk(p, f, consumed, status, t).0), t0)
    decreases p.caplen - consumed
  {
    if consumed < p.caplen && Step(p, f, consumed).Message? {
      var m := Step(p, f, consumed);
      var (ev, t') := Deliver(p, f, consumed, m, status, t);
      var s' := StatusAfter(p, f, m.rc, m.dir, status);
      WalkClock(p, f, m.next, s', t', t0);
      var evs := Walk(p, f, m.next, s', t').0;
      TraceCons(t, ev, evs);
      assert ClockFrom([OpOf(ev)], t0);
      ClockAppend([OpOf(ev)], Ops(evs), t0);
    }
  }

  lemma {:induction false} RunClock(ps: seq<(Packet, u32)>, t: Table, t0: u32)
    requires ValidTable(t) && Captured(ps) && forall i :: 0 <= i < |ps| ==> t0 <= ps[i].0.secs
    ensures ClockFrom(Ops(Run(ps, t).0), t0)
    decreases |ps|
  {
    if ps != [] {
      var p, status := ps[0].0, ps[0].1;
      if Parse(p).Some? {
        WalkClock(p, Parse(p).value, Parse(p).value.start, status, t, t0);
      }
      var (evs, t') := PacketEvents(p, status, t);
      RunClock(ps[1..], t', t0);
      OpsAppend(evs, Run(ps[1..], t').0);
      ClockAppend(Ops(evs), Ops(Run(ps[1..], t').0), t0);
    }
  }

  /** Bounded garbage over captured packets: once packets of at least time `t0` have inserted HASHSIZE calls, none
      with a key that was outstanding, no call of the table is older than `t0 - MAX_AGE`. */
  lemma CapturedGarbage(ps: seq<(Packet, u32)>, t: Table, t0: u32)
    requires ValidTable(t) && UniqueKeys(t) && MAX_AGE <= t0
    requires Captured(ps) && forall i :: 0 <= i < |ps| ==> t0 <= ps[i].0.secs
    requires FreshInserts(t, Ops(Run(ps, t).0)) && Inserts(Ops(Run(ps, t).0)) >= HASHSIZE
    ensures forall b :: 0 <= b < HASHSIZE ==> CleanBucket(Run(ps, t).1.buckets[b], t0 - MAX_AGE)
  {
    RunTrace(ps, t);
    RunClock(ps, t, t0);
    BoundedGarbage(t, Ops(Run(ps, t).0), t0);
  }

  /** The same bound for any keys: of each key, at most the entries that were not too old at the start, and the calls
      inserted. */
  lemma CapturedStacks(ps: seq<(Packet, u32)>, t: Table, k: Key, t0: u32)
    requires ValidTable(t) && MAX_AGE <= t0
    requires Captured(ps) && forall i :: 0 <= i < |ps| ==> t0 <= ps[i].0.secs
    requires Inserts(Ops(Run(ps, t).0)) >= HASHSIZE
    ensures |StackOf(Run(ps, t).1, k)| <= FreshCount(StackOf(t, k), t0 - MAX_AGE) + InsertsOf(Ops(Run(ps, t).0), k)
  {
    RunTrace(ps, t);
    RunClock(ps, t, t0);
    BoundedStacks(t, Ops(Run(ps, t).0), k, t0);
  }

  // ---------------------------------------------------------------- calls and replies of a history

  /** The nodes inserted, in order. */
  function Calls(evs: seq<Event>): seq<Entry> {
    if evs == [] then []
    else var front := Calls(evs[..|evs| - 1]); var ev := evs[|evs| - 1];
         if ev.Call? then front + [ev.entry] else front
  }

  /** The nodes handed out to replies, in order. */
  function Matched(evs: seq<Event>): seq<Entry> {
    if evs == [] then []
    else var front := Matched(evs[..|evs| - 1]); var ev := evs[|evs| - 1];
         if ev.Reply? && ev.found.Some? then front + [ev.found.value] else front
  }

  /** `e` was inserted, as the call its serial number says. */
  predicate Inserted(calls: seq<Entry>, e: Entry) {
    e.serial < |calls| && calls[e.serial] == e
  }

  ghost predicate BucketFrom(b: Bucket, calls: seq<Entry>, matched: seq<Entry>) {
    && (forall i :: 0 <= i < |b| ==> Inserted(calls, b[i]) && b[i] !in matched)
    && (forall i, j :: 0 <= i < j < |b| ==> b[i] != b[j])
  }

  /** The table holds calls of the history that no reply has taken, each once; no call was taken twice. */
  ghost predicate Ledger(t: Table, evs: seq<Event>) {
    var calls, matched := Calls(evs), Matched(evs);
    && ValidTable(t)
    && t.serials == |calls|
    && (forall i :: 0 <= i < |calls| ==> calls[i].serial == i)
    && (forall b :: 0 <= b < HASHSIZE ==> BucketFrom(t.buckets[b], calls, matched))
    && (forall i :: 0 <= i < |matched| ==> Inserted(calls, matched[i]))
    && (forall i, j :: 0 <= i < j < |matched| ==> matched[i] != matched[j])
  }

  lemma RemoveFirstKeepsBucket(b: Bucket, k: Key, calls: seq<Entry>, matched: seq<Entry>)
    requires BucketFrom(b, calls, matched)
    ensures BucketFrom(RemoveFirst(b, k), calls, matched)
  {
    var i, r := FirstIndex(b, k), RemoveFirst(b, k);
    assert forall j :: 0 <= j < |r| ==> r[j] == if j < i then b[j] else b[j + 1];
  }

  lemma {:induction false} CullKeepsBucket(kept: Bucket, rest: Bucket, limit: u32, calls: seq<Entry>,
                                           matched: seq<Entry>)
    requires BucketFrom(kept + rest, calls, matched)
    ensures BucketFrom(CullWalk(kept, rest, limit), calls, matched)
    decreases |rest|
  {
    if rest == [] {
      assert kept + rest == kept;
    } else {
      var passed := kept + [rest[0]];
      assert kept + rest == passed + rest[1..];
      if Stale(rest[0], limit) {
        var k := rest[0].key;
        var i := FirstIndex(passed, k);
        assert passed[|kept|].key == k;
        var r := RemoveFirst(passed, k) + rest[1..];
        assert forall j :: 0 <= j < |r| ==> r[j] == (kept + rest)[if j < i then j else j + 1];
        CullKeepsBucket(RemoveFirst(passed, k), rest[1..], limit, calls, matched);
      } else {
        CullKeepsBucket(passed, rest[1..], limit, calls, matched);
      }
    }
  }

  lemma MoreCallsKeepBucket(b: Bucket, calls: seq<Entry>, matched: seq<Entry>, e: Entry)
    requires BucketFrom(b, calls, matched)
    ensures BucketFrom(b, calls + [e], matched)
  {
  }

  lemma NewHeadKeepsBucket(b: Bucket, calls: seq<Entry>, matched: seq<Entry>, e: Entry)
    requires BucketFrom(b, calls, matched) && e.serial == |calls|
    requires forall i :: 0 <= i < |matched| ==> Inserted(calls, matched[i])
    ensures BucketFrom([e] + b, calls + [e], matched)
  {
    assert e !in b && e !in matched;
  }

  lemma CallKeepsLedger(t: Table, evs: seq<Event>, ev: Event)
    requires Ledger(t, evs) && ev.Call? && Answers(t, ev)
    ensures Ledger(Apply(t, OpOf(ev)), evs + [ev])
  {
    var e := ev.entry;
    var calls, matched := Calls(evs), Matched(evs);
    assert (evs + [ev])[..|evs|] == evs;
    var p := Push(t, e);
    var t' := Cull(p, Limit(e.callTime));
    forall b | 0 <= b < HASHSIZE
      ensures BucketFrom(t'.buckets[b], calls + [e], matched)
    {
      assert BucketFrom(t.buckets[b], calls, matched);
      MoreCallsKeepBucket(t.buckets[b], calls, matched, e);
      NewHeadKeepsBucket(t.buckets[b], calls, matched, e);
      assert [] + p.buckets[b] == p.buckets[b];
      CullKeepsBucket([], p.buckets[b], Limit(e.callTime), calls + [e], matched);
    }
  }

  lemma TakenFromBucket(b: Bucket, k: Key, calls: seq<Entry>, matched: seq<Entry>)
    requires BucketFrom(b, calls, matched) && FirstIndex(b, k) < |b|
    ensures BucketFrom(RemoveFirst(b, k), calls, matched + [b[FirstIndex(b, k)]])
  {
    var i, r := FirstIndex(b, k), RemoveFirst(b, k);
    RemoveFirstKeepsBucket(b, k, calls, matched);
    assert forall j :: 0 <= j < |r| ==> r[j] == if j < i then b[j] else b[j + 1];
  }

  lemma TakenElsewhere(t: Table, b: nat, e: Entry, calls: seq<Entry>, matched: seq<Entry>)
    requires ValidTable(t) && b < HASHSIZE && Hash(e.key) != b && BucketFrom(t.buckets[b], calls, matched)
    ensures BucketFrom(t.buckets[b], calls, matched + [e])
  {
    forall j | 0 <= j < |t.buckets[b]|
      ensures t.buckets[b][j] != e
    {
      assert Hash(t.buckets[b][j].key) == b;
    }
  }

  lemma ReplyKeepsLedger(t: Table, evs: seq<Event>, ev: Event)
    requires Ledger(t, evs) && ev.Reply? && Answers(t, ev)
    ensures Ledger(Apply(t, OpOf(ev)), evs + [ev])
    ensures ev.found.Some? ==> Inserted(Calls(evs), ev.found.value) && ev.found.value.key == ev.key
  {
    var calls, matched := Calls(evs), Matched(evs);
    assert (evs + [ev])[..|evs|] == evs;
    if ev.found.Some? {
      var h, e, t' := Hash(ev.key), ev.found.value, Apply(t, OpOf(ev));
      assert BucketFrom(t.buckets[h], calls, matched);
      forall b | 0 <= b < HASHSIZE
        ensures BucketFrom(t'.buckets[b], calls, matched + [e])
      {
        assert BucketFrom(t.buckets[b], calls, matched);
        if b == h {
          TakenFromBucket(t.buckets[h], ev.key, calls, matched);
        } else {
          TakenElsewhere(t, b, e, calls, matched);
        }
      }
    }
  }

  lemma EventKeepsLedger(t: Table, evs: seq<Event>, ev: Event)
    requires Ledger(t, evs) && Answers(t, ev)
    ensures Ledger(Apply(t, OpOf(ev)), evs + [ev])
  {
    if ev.Call? {
      CallKeepsLedger(t, evs, ev);
    } else {
      ReplyKeepsLedger(t, evs, ev);
    }
  }

  lemma {:induction false} RunKeepsLedger(t: Table, hist: seq<Event>, evs: seq<Event>)
    requires Ledger(t, hist) && Trace(t, evs)
    ensures Ledger(XidRuns.Run(t, Ops(evs)), hist + evs)
    decreases |evs|
  {
    if evs == [] {
      assert hist + evs == hist;
    } else {
      var ev, rest := evs[0], evs[1..];
      assert evs == [ev] + rest && hist + evs == hist + [ev] + rest;
      TraceCons(t, ev, rest);
      EventKeepsLedger(t, hist, ev);
      RunKeepsLedger(Apply(t, OpOf(ev)), hist + [ev], rest);
    }
  }

  lemma EmptyLedger()
    ensures Ledger(EmptyTable, [])
  {
  }

  lemma {:induction false} TracePrefix(t: Table, evs: seq<Event>, n: nat)
    requires ValidTable(t) && Trace(t, evs) && n < |evs|
    ensures Trace(t, evs[..n]) && Answers(XidRuns.Run(t, Ops(evs[..n])), evs[n])
    decreases n
  {
    if n > 0 {
      TracePrefix(Apply(t, OpOf(evs[0])), evs[1..], n - 1);
      assert evs[..n][1..] == evs[1..][..n - 1];
      assert Ops(evs[..n])[1..] == Ops(evs[1..][..n - 1]);
    }
  }

  /** A node inserted in a history comes from one of its call events. */
  lemma {:induction false} CallOf(evs: seq<Event>, s: nat) returns (j: nat)
    requires s < |Calls(evs)|
    ensures j < |evs| && evs[j].Call? && evs[j].entry == Calls(evs)[s]
  {
    var n := |evs| - 1;
    if s < |Calls(evs[..n])| {
      j := CallOf(evs[..n], s);
    } else {
      j := n;
    }
  }

  lemma {:induction false} MatchedAt(evs: seq<Event>, j: nat) returns (m: nat)
    requires j < |evs| && evs[j].Reply? && evs[j].found.Some?
    ensures m < |Matched(evs)| && Matched(evs)[m] == evs[j].found.value
  {
    var n := |evs| - 1;
    if j < n {
      m := MatchedAt(evs[..n], j);
    } else {
      m := |Matched(evs[..n])|;
    }
  }

  lemma {:induction false} InsertedAt(evs: seq<Event>, j: nat) returns (s: nat)
    requires j < |evs| && evs[j].Call?
    ensures s < |Calls(evs)| && Calls(evs)[s] == evs[j].entry
  {
    var n := |evs| - 1;
    if j < n {
      s := InsertedAt(evs[..n], j);
    } else {
      s := |Calls(evs[..n])|;
    }
  }

  /** An event behind a history is safe: a reply that took a call took one that was inserted earlier, for the same
      transaction, host and port, and that no earlier reply took; a call is inserted as a new node. */
  ghost predicate SafeAfter(hist: seq<Event>, ev: Event) {
    && Queues(ev)
    && (ev.Reply? && ev.found.Some? ==> CalledBefore(hist, ev.key, ev.found.value) && NotTaken(hist, ev.found))
    && (ev.Call? ==> NotCalled(hist, ev.entry))
  }

  ghost predicate CalledBefore(hist: seq<Event>, k: Key, e: Entry) {
    exists j :: 0 <= j < |hist| && hist[j].Call? && hist[j].entry == e && e.key == k
  }

  ghost predicate NotTaken(hist: seq<Event>, found: Option<Entry>) {
    forall j :: 0 <= j < |hist| && hist[j].Reply? ==> hist[j].found != found
  }

  ghost predicate NotCalled(hist: seq<Event>, e: Entry) {
    forall j :: 0 <= j < |hist| && hist[j].Call? ==> hist[j].entry != e
  }

  /** Whole-run safety: over every run of packets from an empty table, every event is safe. */
  lemma MatchedToEarlierCall(ps: seq<(Packet, u32)>)
    requires Captured(ps)
    ensures var evs := Run(ps, EmptyTable).0; forall i :: 0 <= i < |evs| ==> SafeAfter(evs[..i], evs[i])
  {
    var evs := Run(ps, EmptyTable).0;
    RunTrace(ps, EmptyTable);
    forall i | 0 <= i < |evs|
      ensures SafeAfter(evs[..i], evs[i])
    {
      EventIsSafe(evs, i);
    }
  }

  lemma EventIsSafe(evs: seq<Event>, i: nat)
    requires Trace(EmptyTable, evs) && i < |evs|
    ensures SafeAfter(evs[..i], evs[i])
  {
    TracePrefix(EmptyTable, evs, i);
    EmptyLedger();
    RunKeepsLedger(EmptyTable, [], evs[..i]);
    assert [] + evs[..i] == evs[..i];
    LedgerIsSafe(XidRuns.Run(EmptyTable, Ops(evs[..i])), evs[..i], evs[i]);
  }

  lemma LedgerIsSafe(t: Table, hist: seq<Event>, ev: Event)
    requires Ledger(t, hist) && Answers(t, ev)
    ensures SafeAfter(hist, ev)
  {
    if ev.Reply? && ev.found.Some? {
      ReplyKeepsLedger(t, hist, ev);
      var j := CallOf(hist, ev.found.value.serial);
      assert hist[j].entry == ev.found.value;
      TakenOnce(t, hist, ev);
    } else if ev.Call? {
      forall j | 0 <= j < |hist| && hist[j].Call?
        ensures hist[j].entry != ev.entry
      {
        var s := InsertedAt(hist, j);
      }
    }
  }

  lemma TakenOnce(t: Table, hist: seq<Event>, ev: Event)
    requires Ledger(t, hist) && ev.Reply? && ev.found.Some? && Answers(t, ev)
    ensures NotTaken(hist, ev.found)
  {
    forall j | 0 <= j < |hist| && hist[j].Reply?
      ensures hist[j].found != ev.found
    {
      if hist[j].found.Some? {
        TwiceTaken(t, hist, ev, j);
      }
    }
  }

  lemma TwiceTaken(t: Table, evs: seq<Event>, ev: Event, j: nat)
    requires Ledger(t, evs) && ev.Reply? && ev.found.Some? && Answers(t, ev)
    requires j < |evs| && evs[j].Reply? && evs[j].found.Some?
    ensures evs[j].found.value != ev.found.value
  {
    var m := MatchedAt(evs, j);
    assert BucketFrom(t.buckets[Hash(ev.key)], Calls(evs), Matched(evs));
  }
}
