/** From the captured packets through the queue to the log: which request a captured reply is credited to. */
module EndToEnd {
  import opened Ints
  import opened XidSpec
  import opened Rpc
  import opened Keys
  import opened Codecs
  import opened Nfs3
  import opened Procs
  import opened Calls
  import opened Requests
  import Capture
  import CaptureRuns
  import Server
  import Wire

  type Packet = Rpc.Packet
  type Queued = Capture.Queued
  type Record = Capture.Record

  // ---------------------------------------------------------------- the queue

  /** What the capture of some packets queues. */
  function Queue(ps: seq<(Packet, u32)>, t: Table): seq<Queued>
    requires ValidTable(t) && CaptureRuns.Captured(ps)
  {
    Capture.Outputs(CaptureRuns.Run(ps, t).0)
  }

  /** A call is queued exactly if its procedure is known: one with nothing behind its header is not delivered at all.
      What is queued has a known procedure. */
  predicate QueuesKnown(ev: Capture.Event) {
    && (ev.Call? && ev.entry.proc != Capture.NO_PROC ==> ev.out.Some?)
    && (ev.out.Some? ==> ev.out.value.record.proc != Capture.NO_PROC)
  }

  lemma DeliverQueues(p: Packet, f: Frame, consumed: u32, status: u32, t: Table)
    requires ValidTable(t) && f.start <= consumed < p.caplen <= BUFSIZ && Capture.Step(p, f, consumed).Message?
    ensures QueuesKnown(Capture.Deliver(p, f, consumed, Capture.Step(p, f, consumed), status, t).0)
  {
    Capture.MessageAdvances(p, f, consumed);
  }

  lemma {:induction false} WalkQueues(p: Packet, f: Frame, consumed: u32, status: u32, t: Table)
    requires ValidTable(t) && p.caplen <= BUFSIZ && f.start <= consumed
    ensures forall ev :: ev in Capture.Walk(p, f, consumed, status, t).0 ==> QueuesKnown(ev)
    decreases p.caplen - consumed
  {
    if consumed < p.caplen && Capture.Step(p, f, consumed).Message? {
      var m := Capture.Step(p, f, consumed);
      DeliverQueues(p, f, consumed, status, t);
      Capture.WalkOn(p, f, consumed, status, t);
      WalkQueues(p, f, m.next, Capture.StatusAfter(p, f, m.rc, m.dir, status),
                 Capture.Deliver(p, f, consumed, m, status, t).1);
    }
  }

  lemma {:induction false} RunQueues(ps: seq<(Packet, u32)>, t: Table)
    requires ValidTable(t) && CaptureRuns.Captured(ps)
    ensures forall ev :: ev in CaptureRuns.Run(ps, t).0 ==> QueuesKnown(ev)
    decreases |ps|
  {
    if ps != [] {
      var p, status := ps[0].0, ps[0].1;
      if Parse(p).Some? {
        WalkQueues(p, Parse(p).value, Parse(p).value.start, status, t);
      }
      RunQueues(ps[1..], Capture.PacketEvents(p, status, t).1);
    }
  }

  lemma {:induction false} OutputsAppend(a: seq<Capture.Event>, b: seq<Capture.Event>)
    ensures Capture.Outputs(a + b) == Capture.Outputs(a) + Capture.Outputs(b)
    decreases |a|
  {
    if a == [] {
      assert a + b == b;
    } else {
      Cons(a);
      ConcatAssoc([a[0]], a[1..], b);
      OutputsAppend(a[1..], b);
      Capture.OutputsCons(a[0], a[1..] + b);
      ConcatAssoc(Capture.Sent(a[0].out), Capture.Outputs(a[1..]), Capture.Outputs(b));
    }
  }

  /** Where in the queue an event's packet is put. */
  function Place(evs: seq<Capture.Event>, e: nat): nat
    requires e <= |evs|
  {
    |Capture.Outputs(evs[..e])|
  }

  lemma PlaceHolds(evs: seq<Capture.Event>, e: nat)
    requires e < |evs| && evs[e].out.Some?
    ensures Place(evs, e) < |Capture.Outputs(evs)| && Capture.Outputs(evs)[Place(evs, e)] == evs[e].out.value
  {
    var front, back := evs[..e], evs[e + 1..];
    assert evs == front + ([evs[e]] + back);
    OutputsAppend(front, [evs[e]] + back);
    Capture.OutputsCons(evs[e], back);
  }

  lemma PlacesGrow(evs: seq<Capture.Event>, c: nat, e: nat)
    requires c < e <= |evs| && evs[c].out.Some?
    ensures Place(evs, c) < Place(evs, e)
  {
    PlaceHolds(evs[..e], c);
    assert evs[..e][..c] == evs[..c];
  }

  /** Which event queued the `j`-th packet. */
  lemma {:induction false} QueuedBy(evs: seq<Capture.Event>, j: nat) returns (e: nat)
    requires j < |Capture.Outputs(evs)|
    ensures e < |evs| && Place(evs, e) == j && evs[e].out == Some(Capture.Outputs(evs)[j])
    decreases |evs|
  {
    var n := |Capture.Sent(evs[0].out)|;
    if j < n {
      e := 0;
      assert evs[..0] == [];
    } else {
      var e' := QueuedBy(evs[1..], j - n);
      e := e' + 1;
      assert evs[..e][1..] == evs[1..][..e'];
    }
  }

  /** This reply carries the transaction id, version and procedure of this call, and goes back to where it came from. */
  predicate AnswersTo(reply: Record, call: Record) {
    && reply.call == REPLY && call.call == CALL
    && reply.xid == call.xid && reply.dstHost == call.srcHost && reply.dstPort == call.srcPort
    && reply.version == call.version && reply.proc == call.proc
  }

  /** The event at `c` inserted the call that the reply event at `e` took. */
  predicate TookCall(evs: seq<Capture.Event>, c: nat, e: nat) {
    && c < e < |evs| && evs[c].Call? && evs[e].Reply? && evs[e].found == Some(evs[c].entry)
    && evs[c].entry.key == evs[e].key
  }

  /** Each queued reply's call is in the queue, before it. */
  lemma CallIsQueued(evs: seq<Capture.Event>, e: nat) returns (c: nat)
    requires Told(evs) && e < |evs| && evs[e].Reply? && evs[e].out.Some?
    ensures TookCall(evs, c, e) && evs[c].out.Some?
    ensures Place(evs, c) < Place(evs, e) && AnswersTo(evs[e].out.value.record, evs[c].out.value.record)
  {
    assert CaptureRuns.SafeAfter(evs[..e], evs[e]) && QueuesKnown(evs[e]);
    var hist, found := evs[..e], evs[e].found.value;
    assert CaptureRuns.CalledBefore(hist, evs[e].key, found);
    c :| 0 <= c < e && hist[c].Call? && hist[c].entry == found && found.key == evs[e].key;
    assert CaptureRuns.SafeAfter(evs[..c], evs[c]) && QueuesKnown(evs[c]);
    PlacesGrow(evs, c, e);
  }

  /** What is known of every history of captured packets. */
  ghost predicate Told(evs: seq<Capture.Event>) {
    forall i :: 0 <= i < |evs| ==> CaptureRuns.SafeAfter(evs[..i], evs[i]) && QueuesKnown(evs[i])
  }

  lemma RunTold(ps: seq<(Packet, u32)>)
    requires CaptureRuns.Captured(ps)
    ensures Told(CaptureRuns.Run(ps, EmptyTable).0)
  {
    CaptureRuns.MatchedToEarlierCall(ps);
    RunQueues(ps, EmptyTable);
  }

  /** No two replies take the same node. */
  lemma TookOnce(evs: seq<Capture.Event>, d: nat, e: nat)
    requires Told(evs) && d < e < |evs| && evs[d].Reply? && evs[e].Reply? && evs[e].found.Some?
    ensures evs[d].found != evs[e].found
  {
    assert CaptureRuns.SafeAfter(evs[..e], evs[e]);
    assert evs[..e][d] == evs[d];
  }

  /** Every queued reply has its call before it in the queue, and no two replies have the same. */
  ghost predicate Matching(q: seq<Queued>, of: map<nat, nat>) {
    && (forall j :: j in of <==> 0 <= j < |q| && q[j].record.call == REPLY)
    && (forall j :: j in of ==> of[j] < j && AnswersTo(q[j].record, q[of[j]].record))
    && (forall i, j :: i in of && j in of && of[i] == of[j] ==> i == j)
  }

  /** Event `e` queued the `j`-th packet, a reply, and event `c` queued its call. */
  ghost predicate Behind(evs: seq<Capture.Event>, j: nat, c: nat, e: nat) {
    && TookCall(evs, c, e) && evs[c].out.Some? && evs[e].out.Some? && Place(evs, e) == j
    && AnswersTo(evs[e].out.value.record, evs[c].out.value.record)
  }

  /** The events behind the replies among the first `n` packets. */
  lemma {:induction false} MatchEvents(evs: seq<Capture.Event>, n: nat) returns (pairs: map<nat, (nat, nat)>)
    requires Told(evs) && n <= |Capture.Outputs(evs)|
    ensures forall j :: j in pairs <==> 0 <= j < n && Capture.Outputs(evs)[j].record.call == REPLY
    ensures forall j :: j in pairs ==> Behind(evs, j, pairs[j].0, pairs[j].1)
    decreases n
  {
    pairs := map[];
    if n > 0 {
      var j := n - 1;
      pairs := MatchEvents(evs, j);
      var e := QueuedBy(evs, j);
      assert CaptureRuns.SafeAfter(evs[..e], evs[e]);
      if evs[e].Reply? {
        var c := CallIsQueued(evs, e);
        pairs := pairs[j := (c, e)];
      }
    }
  }

  lemma SameReply(evs: seq<Capture.Event>, i: nat, b: nat, d: nat, j: nat, c: nat, e: nat)
    requires Told(evs) && Behind(evs, i, b, d) && Behind(evs, j, c, e) && Place(evs, b) == Place(evs, c)
    ensures i == j
  {
    if b < c {
      PlacesGrow(evs, b, c);
    } else if c < b {
      PlacesGrow(evs, c, b);
    } else if d < e {
      TookOnce(evs, d, e);
    } else if e < d {
      TookOnce(evs, e, d);
    }
  }

  lemma EachBehind(evs: seq<Capture.Event>, j: nat, c: nat, e: nat)
    requires Behind(evs, j, c, e)
    ensures j < |Capture.Outputs(evs)| && Place(evs, c) < j
    ensures AnswersTo(Capture.Outputs(evs)[j].record, Capture.Outputs(evs)[Place(evs, c)].record)
  {
    PlaceHolds(evs, e);
    PlaceHolds(evs, c);
    PlacesGrow(evs, c, e);
  }

  lemma IsMatching(evs: seq<Capture.Event>, pairs: map<nat, (nat, nat)>, of: map<nat, nat>)
    requires Told(evs) && pairs.Keys == of.Keys
    requires forall j :: j in pairs ==> Behind(evs, j, pairs[j].0, pairs[j].1) && of[j] == Place(evs, pairs[j].0)
    requires forall j :: j in pairs <==> 0 <= j < |Capture.Outputs(evs)| && Capture.Outputs(evs)[j].record.call == REPLY
    ensures Matching(Capture.Outputs(evs), of)
  {
    var q := Capture.Outputs(evs);
    forall j | j in of
      ensures of[j] < j && AnswersTo(q[j].record, q[of[j]].record)
    {
      EachBehind(evs, j, pairs[j].0, pairs[j].1);
    }
    forall i, j | i in of && j in of && of[i] == of[j]
      ensures i == j
    {
      SameReply(evs, i, pairs[i].0, pairs[i].1, j, pairs[j].0, pairs[j].1);
    }
  }

  lemma ToldPairs(evs: seq<Capture.Event>)
    requires Told(evs)
    ensures exists of :: Matching(Capture.Outputs(evs), of)
  {
    var pairs := MatchEvents(evs, |Capture.Outputs(evs)|);
    var of := map j | j in pairs :: Place(evs, pairs[j].0);
    IsMatching(evs, pairs, of);
  }

  /** Over every run of packets from an empty table: each queued reply has its call before it in the queue, and no two
      replies have the same. */
  lemma QueuePairsReplies(ps: seq<(Packet, u32)>)
    requires CaptureRuns.Captured(ps)
    ensures exists of :: Matching(Queue(ps, EmptyTable), of)
  {
    RunTold(ps);
    ToldPairs(CaptureRuns.Run(ps, EmptyTable).0);
    assert Queue(ps, EmptyTable) == Capture.Outputs(CaptureRuns.Run(ps, EmptyTable).0);
  }

  // ---------------------------------------------------------------- the log

  /** The event of a call on the queue: if it is filed, it is filed under the call's hosts and procedure. */
  lemma CallFiled(q: Queued, cursor: nat)
    requires q.record.call == CALL && Server.PacketEvent(q, cursor).File?
    ensures LaneOf(Server.PacketEvent(q, cursor).slot) == Server.LaneOfRecord(q.record)
    ensures Server.PacketEvent(q, cursor).origin.xid == q.record.xid
  {
    DecodeTyped(q.record.proc, q.data, cursor);
  }

  /** A reply is matched to the slot of its call exactly if it comes from the host that the call went to. */
  lemma SameLane(reply: Record, call: Record)
    requires AnswersTo(reply, call)
    ensures Server.LaneOfRecord(reply) == Server.LaneOfRecord(call) <==> reply.srcHost == call.dstHost
  {
    var a, b, c := GetStringIp(call.srcHost), GetStringIp(call.dstHost), GetStringIp(reply.srcHost);
    if {a, b} == {c, a} {
      assert c in {a, b} && b in {c, a};
      GetStringIpInjective(call.dstHost, reply.srcHost);
    }
  }

  /** The reply handled at turn `r` finds the request of the call handled at turn `c` in its slot. */
  ghost predicate Finds(work: seq<Server.Work>, c: nat, r: nat)
    requires c <= r < |work| && work[r].Packet?
  {
    var es := Server.Events(work[..r]);
    var m, l := Requests.Run(Start, es), Server.LaneOfRecord(work[r].q.record);
    l in m.active && m.active[l] == Filed(es[..c])
  }

  /** Between the two, nothing has disturbed the call's slot. */
  ghost predicate Undisturbed(work: seq<Server.Work>, c: nat, r: nat)
    requires c < r < |work| && work[c].Packet?
  {
    forall k :: c < k < r ==> !Disturbs(Server.WorkEvent(work[k]), Server.LaneOfRecord(work[c].q.record))
  }

  lemma {:induction false} EventsAt(work: seq<Server.Work>, i: nat)
    requires i < |work|
    ensures Server.Events(work)[i] == Server.WorkEvent(work[i])
  {
    var before, last := work[..|work| - 1], work[|work| - 1];
    Snoc(work);
    Server.EventsLast(before, last);
    if i < |before| {
      EventsAt(before, i);
    }
  }

  /** If the call's arguments decode, the reply finds its request if and only if it comes from the host that the call
      went to and nothing has disturbed the slot in between. */
  lemma ReplyFindsRequest(work: seq<Server.Work>, c: nat, r: nat)
    requires c < r < |work| && work[c].Packet? && work[r].Packet? && AnswersTo(work[r].q.record, work[c].q.record)
    requires Server.WorkEvent(work[c]).File?
    ensures Finds(work, c, r) <==> work[r].q.record.srcHost == work[c].q.record.dstHost && Undisturbed(work, c, r)
  {
    var es, reply, call := Server.Events(work[..r]), work[r].q.record, work[c].q.record;
    forall k | 0 <= k < r
      ensures es[k] == Server.WorkEvent(work[k])
    {
      EventsAt(work[..r], k);
    }
    CallFiled(work[c].q, work[c].cursor);
    SameLane(reply, call);
    ReplyFindsItsCall(es, c);
    ActiveIsPending(es, Server.LaneOfRecord(reply));
    LogIsFiled(es, c);
    if Finds(work, c, r) {
      ActiveIsOfItsLane(es, Server.LaneOfRecord(reply));
    }
  }

  /** The run loop takes the packets off the queue in order: the `i`-th at turn `at[i]`, with reports in between. */
  ghost predicate Handled(work: seq<Server.Work>, q: seq<Queued>, at: seq<nat>) {
    && |at| <= |q|
    && (forall i :: 0 <= i < |at| ==> at[i] < |work| && work[at[i]].Packet? && work[at[i]].q == q[i])
    && (forall i, j :: 0 <= i < j < |at| ==> at[i] < at[j])
  }

  /** Each reply handled has its own call handled before it, and finds that call's request exactly in this case. */
  ghost predicate Explained(work: seq<Server.Work>, at: seq<nat>, of: map<nat, nat>, j: nat)
    requires j in of && of[j] < j < |at| && at[of[j]] < at[j] < |work| && work[at[j]].Packet? && work[at[of[j]]].Packet?
  {
    var c, r := at[of[j]], at[j];
    Server.WorkEvent(work[c]).File? ==>
      (Finds(work, c, r) <==> work[r].q.record.srcHost == work[c].q.record.dstHost && Undisturbed(work, c, r))
  }

  /** From packets to the log: for every run of captured packets and every schedule of the run loop, each reply
      handled has its own call handled before it, and is credited to that call's request exactly if it comes from the
      call's server and nothing has disturbed the slot in between. */
  lemma CapturedReplies(ps: seq<(Packet, u32)>, work: seq<Server.Work>, at: seq<nat>)
    requires CaptureRuns.Captured(ps) && Handled(work, Queue(ps, EmptyTable), at)
    ensures exists of ::
              && Matching(Queue(ps, EmptyTable), of)
              && forall j :: j in of && j < |at| ==> Explained(work, at, of, j)
  {
    var q := Queue(ps, EmptyTable);
    QueuePairsReplies(ps);
    var of :| Matching(q, of);
    forall j | j in of && j < |at|
      ensures Explained(work, at, of, j)
    {
      if Server.WorkEvent(work[at[of[j]]]).File? {
        ReplyFindsRequest(work, at[of[j]], at[j]);
      }
    }
  }

  // ---------------------------------------------------------------- one call, all the way

  /** A READ call of NFS version 3. */
  function ReadCall(xid: u32, cred: bytes, flavor: u32, verf: bytes, fh: bytes, offset: u64, count: u32): Wire.CallMsg {
    Wire.CallMsg(CallHead(xid, RPC_VERSION, NFS_PROGRAM, 3, NFSPROC3_READ, AUTH_UNIX, cred, flavor, verf),
                 ReadArgs().enc((fh, (offset, count))))
  }

  lemma ReadCallOk(xid: u32, cred: bytes, flavor: u32, verf: bytes, fh: bytes, offset: u64, count: u32)
    requires |cred| <= 400 && |verf| <= 400
    ensures Wire.CallOk(ReadCall(xid, cred, flavor, verf, fh, offset, count))
  {
  }

  lemma ReadDecoded(hosts: set<string>, xid: u32, data: bytes, e: bytes, fh: bytes, offset: u64, count: u32,
                    cursor: nat)
    requires |fh| <= NFS3_FHSIZE && data == e + [] && e == ReadArgs().enc((fh, (offset, count)))
    ensures EventOf(hosts, xid, DecodeCall(NFSPROC3_READ, data, cursor))
         == File(Slot(hosts, GetDir(fh), NFSPROC3_READ), Origin(ReadObj, "", xid), count)
  {
    ReadFiled(hosts, xid, fh, offset, count, [], cursor);
  }

  lemma AppendNothing<T>(xs: seq<T>)
    ensures xs + [] == xs
  {
  }

  lemma CallEventOf(q: Queued, hosts: set<string>, cursor: nat)
    requires q.record.version == 3 && q.record.call == CALL
    requires hosts == {GetStringIp(q.record.srcHost), GetStringIp(q.record.dstHost)}
    ensures Server.PacketEvent(q, cursor) == EventOf(hosts, q.record.xid, DecodeCall(q.record.proc, q.data, cursor))
  {
  }

  lemma ReadQueued(q: Queued, fh: bytes, offset: u64, count: u32, cursor: nat)
    requires |fh| <= NFS3_FHSIZE && q.data == ReadArgs().enc((fh, (offset, count)))
    requires q.record.version == 3 && q.record.call == CALL && q.record.proc == NFSPROC3_READ
    ensures Server.PacketEvent(q, cursor)
         == File(Slot({GetStringIp(q.record.srcHost), GetStringIp(q.record.dstHost)}, GetDir(fh), NFSPROC3_READ),
                 Origin(ReadObj, "", q.record.xid), count)
  {
    var hosts := {GetStringIp(q.record.srcHost), GetStringIp(q.record.dstHost)};
    CallEventOf(q, hosts, cursor);
    AppendNothing(q.data);
    ReadDecoded(hosts, q.record.xid, q.data, q.data, fh, offset, count, cursor);
  }

  /** From the wire to the log: a frame around a record around a READ call, over TCP or UDP, comes to one event of
      the log, and that files the call's handle, count and transaction id under its hosts. */
  lemma CapturedRead(p: Packet, hs: Wire.Headers, xid: u32, cred: bytes, flavor: u32, verf: bytes,
                     fh: bytes, offset: u64, count: u32, status: u32, t: Table, cursor: nat)
    requires ValidTable(t) && |cred| <= 400 && |verf| <= 400 && |fh| <= NFS3_FHSIZE
    requires var msg := Wire.EncodeCallMsg(ReadCall(xid, cred, flavor, verf, fh, offset, count));
             |msg| <= BUFSIZ && Wire.Carries(p, hs, Wire.EncodeRecord(hs.transport.Tcp?, msg))
    ensures var evs := Capture.PacketEvents(p, status, t).0;
            && |evs| == 1 && evs[0].out.Some?
            && Server.PacketEvent(evs[0].out.value, cursor)
            == File(Slot({GetStringIp(hs.ip.src), GetStringIp(hs.ip.dst)}, GetDir(fh), NFSPROC3_READ),
                    Origin(ReadObj, "", xid), count)
  {
    var c := ReadCall(xid, cred, flavor, verf, fh, offset, count);
    ReadCallOk(xid, cred, flavor, verf, fh, offset, count);
    Wire.CapturedCall(p, hs, c, status, t);
    ReadQueued(Capture.PacketEvents(p, status, t).0[0].out.value, fh, offset, count, cursor);
  }
}
