/** What the server thread knows about requests, as one flat log: the index it keeps must agree with this. */
module Requests {
  import opened Ints
  import opened Procs

  /** Where a request is filed: by the two hosts, in either direction, the handle's key and the procedure. */
  datatype Slot = Slot(hosts: set<string>, handle: string, proc: u32)

  /** What a call is kept as: the class of its object, the name it carries, and its RPC transaction id, which the
      program does not keep. */
  datatype Origin = Origin(kind: Kind, name: string, xid: u32)

  datatype Request = Request(slot: Slot, origin: Origin, answered: bool, bytes: nat)

  /** Replies are matched by hosts and procedure alone. */
  datatype Lane = Lane(hosts: set<string>, proc: u32)

  function LaneOf(s: Slot): Lane {
    Lane(s.hosts, s.proc)
  }

  /** `log` holds every request ever filed. The first `drained` of them are printed, the others are held. `active` is
      the request that the next reply of a lane is taken to answer. */
  datatype State = State(log: seq<Request>, drained: nat, active: map<Lane, nat>)

  const Start: State := State([], 0, map[])

  datatype Event =
    | File(slot: Slot, origin: Origin, bytes: nat)  // a call whose arguments decode
    | StrayCount(hosts: set<string>, count: u32)    // a WRITE call whose count decodes although its handle does not
    | Ignore                                        // any other call
    | Reply(lane: Lane, xid: u32)
    | Report(writable: bool)                        // whether the report's file can be opened

  // ---------------------------------------------------------------- steps

  /** Each active request was filed by a call of its own lane, is the newest of that lane, and is held and
      unanswered. */
  ghost predicate Inv(m: State) {
    && m.drained <= |m.log|
    && forall l :: l in m.active ==> IsActive(m, l, m.active[l])
  }

  ghost predicate IsActive(m: State, l: Lane, i: nat) {
    && m.drained <= i < |m.log| && LaneOf(m.log[i].slot) == l && !m.log[i].answered
    && forall j :: i < j < |m.log| ==> LaneOf(m.log[j].slot) != l
  }

  function StepFile(m: State, slot: Slot, origin: Origin, bytes: nat): State {
    State(m.log + [Request(slot, origin, false, bytes)], m.drained, m.active[LaneOf(slot) := |m.log|])
  }

  /** The active request of a lane is taken off and becomes `r`. */
  function StepTake(m: State, l: Lane, r: Request): State
    requires l in m.active && m.active[l] < |m.log|
  {
    State(m.log[m.active[l] := r], m.drained, m.active - {l})
  }

  function Credited(r: Request, count: nat): Request {
    r.(bytes := r.bytes + count)
  }

  function Answered(r: Request): Request {
    r.(answered := true)
  }

  /** A stray count. */
  function StepCount(m: State, l: Lane, count: u32): State
    requires Inv(m)
  {
    if l in m.active then StepTake(m, l, Credited(m.log[m.active[l]], count)) else m
  }

  function Step(m: State, e: Event): State
    requires Inv(m)
  {
    match e
    case File(slot, origin, bytes) => StepFile(m, slot, origin, bytes)
    case StrayCount(hosts, count) => StepCount(m, Lane(hosts, NFSPROC3_WRITE), count)
    case Ignore => m
    case Reply(l, _) => if l in m.active then StepTake(m, l, Answered(m.log[m.active[l]])) else m
    case Report(writable) => if writable then State(m.log, |m.log|, map[]) else m
  }

  lemma TakeInv(m: State, l: Lane, r: Request)
    requires Inv(m) && l in m.active && r.slot == m.log[m.active[l]].slot
    ensures Inv(StepTake(m, l, r))
  {
    var m' := StepTake(m, l, r);
    forall k | k in m'.active
      ensures IsActive(m', k, m'.active[k])
    {
      assert IsActive(m, k, m.active[k]) && IsActive(m, l, m.active[l]);
    }
  }

  lemma FileInv(m: State, slot: Slot, origin: Origin, bytes: nat)
    requires Inv(m)
    ensures Inv(StepFile(m, slot, origin, bytes))
  {
    var m' := StepFile(m, slot, origin, bytes);
    forall k | k in m'.active
      ensures IsActive(m', k, m'.active[k])
    {
      assert k != LaneOf(slot) ==> IsActive(m, k, m.active[k]);
    }
  }

  /** Every step keeps the invariant. */
  lemma StepInv(m: State, e: Event)
    requires Inv(m)
    ensures Inv(Step(m, e))
  {
    match e
    case File(slot, origin, bytes) => FileInv(m, slot, origin, bytes);
    case StrayCount(hosts, count) =>
      var l := Lane(hosts, NFSPROC3_WRITE);
      if l in m.active {
        assert IsActive(m, l, m.active[l]);
        TakeInv(m, l, Credited(m.log[m.active[l]], count));
      }
    case Ignore =>
    case Reply(l, _) =>
      if l in m.active {
        assert IsActive(m, l, m.active[l]);
        TakeInv(m, l, Answered(m.log[m.active[l]]));
      }
    case Report(writable) =>
  }

  // ---------------------------------------------------------------- runs

  /** The state after a sequence of events. */
  function Run(m: State, es: seq<Event>): (m': State)
    requires Inv(m)
    ensures Inv(m')
  {
    if es == [] then m
    else
      var m1 := Run(m, es[..|es| - 1]);
      StepInv(m1, es[|es| - 1]);
      Step(m1, es[|es| - 1])
  }

  function Filed(es: seq<Event>): (n: nat)
  {
    if es == [] then 0 else Filed(es[..|es| - 1]) + (if es[|es| - 1].File? then 1 else 0)
  }

  /** The request a reply on lane `l` would be matched to, told from the history alone: the lane's last call, unless
      that call was answered, taken by a stray count, or reported since. */
  function Pending(es: seq<Event>, l: Lane): Option<nat> {
    if es == [] then None
    else
      var before, e := es[..|es| - 1], es[|es| - 1];
      if e.File? && LaneOf(e.slot) == l then Some(Filed(before))
      else if Disturbs(e, l) then None
      else Pending(before, l)
  }

  /** Whether an event changes what is in a lane's slot, when there is a request in it. */
  predicate Disturbs(e: Event, l: Lane) {
    match e
    case File(slot, _, _) => LaneOf(slot) == l
    case StrayCount(hosts, _) => Lane(hosts, NFSPROC3_WRITE) == l
    case Ignore => false
    case Reply(lane, _) => lane == l
    case Report(writable) => writable
  }

  /** The active slots are exactly that, after any history. */
  lemma {:induction false} ActiveIsPending(es: seq<Event>, l: Lane)
    ensures |Run(Start, es).log| == Filed(es)
    ensures l in Run(Start, es).active <==> Pending(es, l).Some?
    ensures l in Run(Start, es).active ==> Run(Start, es).active[l] == Pending(es, l).value
  {
    if es != [] {
      ActiveIsPending(es[..|es| - 1], l);
    }
  }

  /** In every reachable state the request in an active slot is of that slot's procedure and hosts, held, unanswered and
      the newest of its lane; so no request is in two slots. */
  lemma ActiveIsOfItsLane(es: seq<Event>, l: Lane)
    requires l in Run(Start, es).active
    ensures var m, i := Run(Start, es), Run(Start, es).active[l];
            && m.drained <= i < |m.log| && m.log[i].slot.proc == l.proc && m.log[i].slot.hosts == l.hosts
            && !m.log[i].answered
            && (forall j :: i < j < |m.log| ==> LaneOf(m.log[j].slot) != l)
            && (forall k :: k in m.active && m.active[k] == i ==> k == l)
  {
    var m := Run(Start, es);
    assert IsActive(m, l, m.active[l]);
    forall k | k in m.active && m.active[k] == m.active[l]
      ensures k == l
    {
      assert IsActive(m, k, m.active[k]);
    }
  }

  /** Whether an event touches request `i`. */
  predicate Touches(m: State, e: Event, i: nat) {
    match e
    case Reply(l, _) => l in m.active && m.active[l] == i
    case StrayCount(hosts, _) => Lane(hosts, NFSPROC3_WRITE) in m.active && m.active[Lane(hosts, NFSPROC3_WRITE)] == i
    case _ => false
  }

  /** No slot refers to request `i`. */
  ghost predicate Settled(m: State, i: nat) {
    i < |m.log| && forall l :: l in m.active ==> m.active[l] != i
  }

  /** So it is with every request that is printed or answered, or that a later call of its lane has overtaken. */
  lemma WhenSettled(m: State, i: nat)
    requires Inv(m) && i < |m.log|
    ensures i < m.drained || m.log[i].answered ==> Settled(m, i)
    ensures (exists j :: i < j < |m.log| && LaneOf(m.log[j].slot) == LaneOf(m.log[i].slot)) ==> Settled(m, i)
  {
    forall l | l in m.active
      ensures IsActive(m, l, m.active[l])
    {
    }
  }

  lemma SettledStep(m: State, e: Event, i: nat)
    requires Inv(m) && Settled(m, i)
    ensures !Touches(m, e, i) && Settled(Step(m, e), i) && Step(m, e).log[i] == m.log[i]
  {
  }

  /** A settled request never changes again: an overtaken one is never answered, none is answered twice, and what a
      report said stays true. */
  lemma {:induction false} SettledForGood(m: State, es: seq<Event>, i: nat)
    requires Inv(m) && Settled(m, i)
    ensures Settled(Run(m, es), i) && Run(m, es).log[i] == m.log[i]
    ensures Answers(m, es, i) == 0
  {
    if es != [] {
      SettledForGood(m, es[..|es| - 1], i);
      SettledStep(Run(m, es[..|es| - 1]), es[|es| - 1], i);
    }
  }

  /** How often request `i` is answered in a run. */
  function Answers(m: State, es: seq<Event>, i: nat): nat
    requires Inv(m)
  {
    if es == [] then 0
    else
      var before, e := es[..|es| - 1], es[|es| - 1];
      Answers(m, before, i) + (if e.Reply? && Touches(Run(m, before), e, i) then 1 else 0)
  }

  /** A request is answered at most once, and counts as answered exactly if it was. */
  lemma {:induction false} AnsweredOnce(es: seq<Event>, i: nat)
    ensures Answers(Start, es, i) <= 1
    ensures i < |Run(Start, es).log| ==> (Run(Start, es).log[i].answered <==> Answers(Start, es, i) == 1)
    ensures i >= |Run(Start, es).log| ==> Answers(Start, es, i) == 0
  {
    if es != [] {
      var before, e := es[..|es| - 1], es[|es| - 1];
      AnsweredOnce(before, i);
      var m := Run(Start, before);
      if i < |m.log| && m.log[i].answered {
        WhenSettled(m, i);
        SettledStep(m, e, i);
      }
      if e.Reply? && e.lane in m.active {
        assert IsActive(m, e.lane, m.active[e.lane]);
      }
    }
  }

  lemma RunLast(m: State, es: seq<Event>, e: Event)
    requires Inv(m)
    ensures Run(m, es + [e]) == Step(Run(m, es), e)
  {
    assert (es + [e])[..|es|] == es;
  }

  // ---------------------------------------------------------------- which call a reply is credited to

  lemma {:induction false} FiledMonotone(es: seq<Event>, i: nat)
    requires i <= |es|
    ensures Filed(es[..i]) <= Filed(es)
    decreases |es|
  {
    if i < |es| {
      FiledMonotone(es[..|es| - 1], i);
      assert es[..|es| - 1][..i] == es[..i];
    } else {
      assert es[..i] == es;
    }
  }

  /** Where in a history its `k`-th call was filed. */
  function FiledAt(es: seq<Event>, k: nat): (i: nat)
    requires k < Filed(es)
    ensures i < |es| && es[i].File? && Filed(es[..i]) == k
  {
    var before := es[..|es| - 1];
    if es[|es| - 1].File? && Filed(before) == k then |es| - 1
    else
      var i := FiledAt(before, k);
      assert before[..i] == es[..i];
      i
  }

  /** No step changes what a request was filed as. */
  lemma StepKeeps(m: State, e: Event, k: nat)
    requires Inv(m) && k < |m.log|
    ensures k < |Step(m, e).log| && Step(m, e).log[k].slot == m.log[k].slot
            && Step(m, e).log[k].origin == m.log[k].origin
  {
  }

  /** The log holds the calls that were filed, each in its place. */
  lemma {:induction false} LogIsFiled(es: seq<Event>, i: nat)
    requires i < |es| && es[i].File?
    ensures var m, k := Run(Start, es), Filed(es[..i]);
            k < |m.log| == Filed(es) && m.log[k].slot == es[i].slot && m.log[k].origin == es[i].origin
    decreases |es|
  {
    var before, e := es[..|es| - 1], es[|es| - 1];
    LogLength(es);
    LogLength(before);
    if i < |before| {
      assert before[..i] == es[..i];
      LogIsFiled(before, i);
      StepKeeps(Run(Start, before), e, Filed(es[..i]));
    }
  }

  lemma {:induction false} LogLength(es: seq<Event>)
    ensures |Run(Start, es).log| == Filed(es)
  {
    if es != [] {
      LogLength(es[..|es| - 1]);
    }
  }

  /** A reply to the call filed at `i` finds that call in its slot if and only if nothing in between has disturbed
      the slot: no other call of the same hosts and procedure, no reply to one, no stray count, and no report. */
  lemma {:induction false} ReplyFindsItsCall(es: seq<Event>, i: nat)
    requires i < |es| && es[i].File?
    ensures Pending(es, LaneOf(es[i].slot)) == Some(Filed(es[..i]))
            <==> forall j :: i < j < |es| ==> !Disturbs(es[j], LaneOf(es[i].slot))
    decreases |es|
  {
    var l, n := LaneOf(es[i].slot), |es| - 1;
    if i < n {
      var before := es[..n];
      assert before[..i] == es[..i];
      ReplyFindsItsCall(before, i);
      if Disturbs(es[n], l) {
        FiledMonotone(before, i + 1);
        assert before[..i + 1][..i] == es[..i];
      } else {
        assert forall j :: i < j < n ==> before[j] == es[j];
      }
    }
  }

  /** So, with transaction ids that no other call of the lane has, a reply is credited to a request with its own
      transaction id if and only if nothing in between has disturbed the slot. */
  lemma ReplyToItsTransaction(es: seq<Event>, i: nat)
    requires i < |es| && es[i].File?
    requires forall j :: 0 <= j < |es| && j != i && es[j].File? && LaneOf(es[j].slot) == LaneOf(es[i].slot) ==>
               es[j].origin.xid != es[i].origin.xid
    ensures var m, l := Run(Start, es), LaneOf(es[i].slot);
            l in m.active && m.log[m.active[l]].origin.xid == es[i].origin.xid
            <==> forall j :: i < j < |es| ==> !Disturbs(es[j], l)
  {
    var m, l := Run(Start, es), LaneOf(es[i].slot);
    ReplyFindsItsCall(es, i);
    ActiveIsPending(es, l);
    LogIsFiled(es, i);
    if l in m.active {
      var j := FiledAt(es, m.active[l]);
      LogIsFiled(es, j);
      assert IsActive(m, l, m.active[l]);
    }
  }

  /** Two calls of one lane before the first reply: the reply is taken to answer the second call, although it carries
      the transaction id of the first. The first is never answered, and the second reply finds an empty slot. */
  lemma OverlappingCalls(a: Slot, b: Slot, x: Origin, y: Origin, more: seq<Event>)
    requires LaneOf(a) == LaneOf(b)
    ensures var m := Run(Start, [File(a, x, 0), File(b, y, 0), Reply(LaneOf(a), x.xid)]);
            && |m.log| == 2 && m.log[1].origin == y && m.log[1].answered && LaneOf(a) !in m.active
            && 0 < |Run(m, more).log| && !Run(m, more).log[0].answered
  {
    var e0, e1, e2 := File(a, x, 0), File(b, y, 0), Reply(LaneOf(a), x.xid);
    TwoCalls(a, b, x, y);
    RunLast(Start, [e0, e1], e2);
    assert [e0, e1] + [e2] == [e0, e1, e2];
    SettledForGood(Run(Start, [e0, e1, e2]), more, 0);
  }

  lemma TwoCalls(a: Slot, b: Slot, x: Origin, y: Origin)
    requires LaneOf(a) == LaneOf(b)
    ensures Run(Start, [File(a, x, 0), File(b, y, 0)])
         == State([Request(a, x, false, 0), Request(b, y, false, 0)], 0, map[LaneOf(a) := 1])
  {
    var e0, e1 := File(a, x, 0), File(b, y, 0);
    RunLast(Start, [], e0);
    RunLast(Start, [e0], e1);
    assert [] + [e0] == [e0] && [e0] + [e1] == [e0, e1];
  }

  // ---------------------------------------------------------------- the classes of the objects in the slots

  /** The call's object is of the class that is meant for the procedure it is filed under. */
  predicate Typed(e: Event) {
    e.File? ==> ProcOf(e.origin.kind) == e.slot.proc
  }

  /** Every request of the log is in an object of the class that is meant for its procedure. */
  ghost predicate LogTyped(m: State) {
    forall i :: 0 <= i < |m.log| ==> ProcOf(m.log[i].origin.kind) == m.log[i].slot.proc
  }

  lemma StepTyped(m: State, e: Event)
    requires Inv(m) && LogTyped(m) && Typed(e)
    ensures LogTyped(Step(m, e))
  {
  }

  lemma {:induction false} RunTyped(es: seq<Event>)
    requires forall e :: e in es ==> Typed(e)
    ensures LogTyped(Run(Start, es))
  {
    if es != [] {
      RunTyped(es[..|es| - 1]);
      StepTyped(Run(Start, es[..|es| - 1]), es[|es| - 1]);
    }
  }

  /** If each call branch files its object under the procedure its class is for, then in every reachable state the
      object in a slot is of the class that the code that takes it out casts it to. */
  lemma CastIsSafe(es: seq<Event>, l: Lane)
    requires forall e :: e in es ==> Typed(e)
    requires l in Run(Start, es).active
    ensures var m := Run(Start, es);
            && m.active[l] < |m.log|
            && var kind := m.log[m.active[l]].origin.kind;
            ProcOf(kind) == l.proc && (CastOf(l.proc).Some? ==> CastOf(l.proc).value == kind)
  {
    var m := Run(Start, es);
    RunTyped(es);
    assert IsActive(m, l, m.active[l]);
  }

  // ---------------------------------------------------------------- conservation

  /** Counts of requests and bytes; like the program's, they are integers. */
  datatype Totals = Totals(requests: int, bytes: int)

  function Plus(a: Totals, b: Totals): Totals {
    Totals(a.requests + b.requests, a.bytes + b.bytes)
  }

  const Nothing: Totals := Totals(0, 0)

  /** What a report says about a slot: how many requests, and how many bytes they read or wrote. */
  function Tally(rs: seq<Request>, s: Slot): Totals {
    if rs == [] then Nothing
    else
      var before, r := Tally(rs[..|rs| - 1], s), rs[|rs| - 1];
      if r.slot == s then Plus(before, Totals(1, r.bytes)) else before
  }

  function Held(m: State): seq<Request>
    requires m.drained <= |m.log|
  {
    m.log[m.drained..]
  }

  /** What a stray count adds to a slot. */
  function CountCredit(m: State, l: Lane, count: u32, s: Slot): Totals
    requires Inv(m)
  {
    if l in m.active && m.log[m.active[l]].slot == s then Totals(0, count) else Nothing
  }

  /** What an event adds to a slot. */
  function Credit(m: State, e: Event, s: Slot): Totals
    requires Inv(m)
  {
    match e
    case File(slot, _, bytes) => if slot == s then Totals(1, bytes) else Nothing
    case StrayCount(hosts, count) => CountCredit(m, Lane(hosts, NFSPROC3_WRITE), count, s)
    case _ => Nothing
  }

  /** What an event prints about a slot. */
  function Output(m: State, e: Event, s: Slot): Totals
    requires Inv(m)
  {
    if e == Report(true) then Tally(Held(m), s) else Nothing
  }

  function Credits(m: State, es: seq<Event>, s: Slot): Totals
    requires Inv(m)
  {
    if es == [] then Nothing
    else Plus(Credits(m, es[..|es| - 1], s), Credit(Run(m, es[..|es| - 1]), es[|es| - 1], s))
  }

  function Printed(m: State, es: seq<Event>, s: Slot): Totals
    requires Inv(m)
  {
    if es == [] then Nothing
    else Plus(Printed(m, es[..|es| - 1], s), Output(Run(m, es[..|es| - 1]), es[|es| - 1], s))
  }

  /** What was held and what is added is what is printed and what is held then. */
  predicate Balance(was: Totals, added: Totals, printed: Totals, now: Totals) {
    && printed.requests + now.requests == was.requests + added.requests
    && printed.bytes + now.bytes == was.bytes + added.bytes
  }

  /** What one request adds to a slot. */
  function Share(r: Request, s: Slot): Totals {
    if r.slot == s then Totals(1, r.bytes) else Nothing
  }

  lemma TallyLast(rs: seq<Request>, r: Request, s: Slot)
    ensures Tally(rs + [r], s) == if r.slot == s then Plus(Tally(rs, s), Totals(1, r.bytes)) else Tally(rs, s)
  {
    assert (rs + [r])[..|rs|] == rs;
  }

  lemma {:induction false} TallyAppend(front: seq<Request>, back: seq<Request>, s: Slot)
    ensures Balance(Tally(front, s), Tally(back, s), Nothing, Tally(front + back, s))
    decreases |back|
  {
    if |back| == 0 {
      assert front + back == front;
    } else {
      var init, last := back[..|back| - 1], back[|back| - 1];
      Snoc(back);
      ConcatAssoc(front, init, [last]);
      TallyAppend(front, init, s);
      TallyLast(front + init, last, s);
      TallyLast(init, last, s);
    }
  }

  lemma TallyMiddle(front: seq<Request>, r: Request, back: seq<Request>, s: Slot)
    ensures Balance(Plus(Tally(front, s), Tally(back, s)), Share(r, s), Nothing, Tally(front + [r] + back, s))
  {
    TallyAppend(front + [r], back, s);
    TallyLast(front, r, s);
  }

  lemma TallyUpdate(rs: seq<Request>, i: nat, r: Request, more: nat, s: Slot)
    requires i < |rs| && r.slot == rs[i].slot && r.bytes == rs[i].bytes + more
    ensures Balance(Tally(rs, s), if r.slot == s then Totals(0, more) else Nothing, Nothing, Tally(rs[i := r], s))
  {
    var front, back := rs[..i], rs[i + 1..];
    assert rs == front + [rs[i]] + back && rs[i := r] == front + [r] + back;
    TallyMiddle(front, rs[i], back, s);
    TallyMiddle(front, r, back, s);
  }

  lemma TakeTally(m: State, l: Lane, r: Request, more: nat, s: Slot)
    requires Inv(m) && l in m.active && r.slot == m.log[m.active[l]].slot && r.bytes == m.log[m.active[l]].bytes + more
    ensures StepTake(m, l, r).drained <= |StepTake(m, l, r).log|
    ensures Balance(Tally(Held(m), s), if r.slot == s then Totals(0, more) else Nothing, Nothing,
                    Tally(Held(StepTake(m, l, r)), s))
  {
    var i := m.active[l];
    assert IsActive(m, l, i);
    assert m.log[i := r][m.drained..] == Held(m)[i - m.drained := r];
    TallyUpdate(Held(m), i - m.drained, r, more, s);
  }

  lemma FileTally(m: State, slot: Slot, origin: Origin, bytes: nat, s: Slot)
    requires Inv(m)
    ensures Balance(Tally(Held(m), s), if slot == s then Totals(1, bytes) else Nothing, Nothing,
                    Tally(Held(StepFile(m, slot, origin, bytes)), s))
  {
    var r := Request(slot, origin, false, bytes);
    assert (m.log + [r])[m.drained..] == Held(m) + [r];
    TallyLast(Held(m), r, s);
  }

  /** One event: what it prints and leaves held is what was held and what it adds. */
  lemma StepConserves(m: State, e: Event, s: Slot)
    requires Inv(m)
    ensures Step(m, e).drained <= |Step(m, e).log|
    ensures Balance(Tally(Held(m), s), Credit(m, e, s), Output(m, e, s), Tally(Held(Step(m, e)), s))
  {
    match e
    case File(slot, origin, bytes) => FileTally(m, slot, origin, bytes, s);
    case StrayCount(hosts, count) => CountTally(m, Lane(hosts, NFSPROC3_WRITE), count, s);
    case Ignore =>
    case Reply(l, xid) => ReplyTally(m, l, xid, s);
    case Report(writable) =>
  }

  lemma CountTally(m: State, l: Lane, count: u32, s: Slot)
    requires Inv(m)
    ensures var m' := StepCount(m, l, count);
            && m'.drained <= |m'.log|
            && Balance(Tally(Held(m), s), CountCredit(m, l, count, s), Nothing, Tally(Held(m'), s))
  {
    if l in m.active {
      assert IsActive(m, l, m.active[l]);
      TakeTally(m, l, Credited(m.log[m.active[l]], count), count, s);
    }
  }

  lemma ReplyTally(m: State, l: Lane, xid: u32, s: Slot)
    requires Inv(m)
    ensures var m' := Step(m, Reply(l, xid));
            m'.drained <= |m'.log| && Balance(Tally(Held(m), s), Nothing, Nothing, Tally(Held(m'), s))
  {
    if l in m.active {
      assert IsActive(m, l, m.active[l]);
      TakeTally(m, l, Answered(m.log[m.active[l]]), 0, s);
    }
  }

  /** Conservation: at every point of a run, and for every slot, what was printed so far and what is still held together
      are what was decoded, in requests and in bytes. Reports whose file cannot be opened lose nothing. */
  lemma {:induction false} Conservation(m: State, es: seq<Event>, s: Slot)
    requires Inv(m)
    ensures Balance(Tally(Held(m), s), Credits(m, es, s), Printed(m, es, s), Tally(Held(Run(m, es)), s))
  {
    if es != [] {
      Conservation(m, es[..|es| - 1], s);
      StepConserves(Run(m, es[..|es| - 1]), es[|es| - 1], s);
    }
  }

  /** The requests and bytes of the calls filed under a slot, from the events alone. */
  function Decoded(es: seq<Event>, s: Slot): Totals {
    if es == [] then Nothing
    else
      var before, e := Decoded(es[..|es| - 1], s), es[|es| - 1];
      if e.File? && e.slot == s then Plus(before, Totals(1, e.bytes)) else before
  }

  /** Where the call last in a lane's slot was filed, told from the history alone. */
  function SlotOfPending(es: seq<Event>, l: Lane): Option<Slot> {
    if es == [] then None
    else
      var before, e := es[..|es| - 1], es[|es| - 1];
      if e.File? && LaneOf(e.slot) == l then Some(e.slot)
      else if Disturbs(e, l) then None
      else SlotOfPending(before, l)
  }

  function ActiveSlot(m: State, l: Lane): Option<Slot>
    requires Inv(m)
  {
    if l in m.active then
      assert IsActive(m, l, m.active[l]);
      Some(m.log[m.active[l]].slot)
    else None
  }

  lemma ActiveSlotStep(m: State, e: Event, l: Lane)
    requires Inv(m)
    ensures Inv(Step(m, e))
    ensures ActiveSlot(Step(m, e), l) == if e.File? && LaneOf(e.slot) == l then Some(e.slot)
                                         else if Disturbs(e, l) then None
                                         else ActiveSlot(m, l)
  {
    StepInv(m, e);
    assert l in m.active ==> IsActive(m, l, m.active[l]);
  }

  lemma {:induction false} ActiveSlotOf(es: seq<Event>, l: Lane)
    ensures ActiveSlot(Run(Start, es), l) == SlotOfPending(es, l)
  {
    if es != [] {
      ActiveSlotOf(es[..|es| - 1], l);
      ActiveSlotStep(Run(Start, es[..|es| - 1]), es[|es| - 1], l);
    }
  }

  /** Whether an event is a stray count that hits slot `s`: the WRITE call last in the lane's slot was filed under
      `s`. */
  predicate Hits(before: seq<Event>, e: Event, s: Slot) {
    e.StrayCount? && SlotOfPending(before, Lane(e.hosts, NFSPROC3_WRITE)) == Some(s)
  }

  /** The stray counts of a history that hit a slot. */
  function StrayBytes(es: seq<Event>, s: Slot): nat {
    if es == [] then 0
    else
      var before, e := es[..|es| - 1], es[|es| - 1];
      StrayBytes(before, s) + (if Hits(before, e, s) then e.count else 0)
  }

  /** From the start: requests printed and held are exactly the decoded calls; their bytes are those of the decoded
      calls and of the stray counts that hit the slot. So they are exactly the decoded bytes if and only if those
      counts are all zero, and in particular for every procedure but WRITE. */
  lemma ConservedFromStart(es: seq<Event>, s: Slot)
    ensures var all := Plus(Printed(Start, es, s), Tally(Held(Run(Start, es)), s));
            && all == Plus(Decoded(es, s), Totals(0, StrayBytes(es, s)))
            && (all == Decoded(es, s) <==> StrayBytes(es, s) == 0)
            && (s.proc != NFSPROC3_WRITE ==> StrayBytes(es, s) == 0)
  {
    Conservation(Start, es, s);
    CreditedRequests(es, s);
    CreditedBytes(es, s);
    StraysAreWrites(es, s);
  }

  lemma {:induction false} CreditedRequests(es: seq<Event>, s: Slot)
    ensures Credits(Start, es, s).requests == Decoded(es, s).requests
  {
    if es != [] {
      CreditedRequests(es[..|es| - 1], s);
    }
  }

  lemma {:induction false} CreditedBytes(es: seq<Event>, s: Slot)
    ensures Credits(Start, es, s).bytes == Decoded(es, s).bytes + StrayBytes(es, s)
  {
    if es != [] {
      var before, e := es[..|es| - 1], es[|es| - 1];
      CreditedBytes(before, s);
      if e.StrayCount? {
        ActiveSlotOf(before, Lane(e.hosts, NFSPROC3_WRITE));
      }
    }
  }

  lemma {:induction false} SlotIsOfItsLane(es: seq<Event>, l: Lane)
    ensures SlotOfPending(es, l).Some? ==> LaneOf(SlotOfPending(es, l).value) == l
  {
    if es != [] {
      SlotIsOfItsLane(es[..|es| - 1], l);
    }
  }

  lemma {:induction false} StraysAreWrites(es: seq<Event>, s: Slot)
    ensures s.proc != NFSPROC3_WRITE ==> StrayBytes(es, s) == 0
  {
    if es != [] {
      var before, e := es[..|es| - 1], es[|es| - 1];
      StraysAreWrites(before, s);
      if e.StrayCount? {
        SlotIsOfItsLane(before, Lane(e.hosts, NFSPROC3_WRITE));
      }
    }
  }

  /** So the bytes of a WRITE call and of a stray count behind it are both reported for the slot. */
  lemma StrayCredited(s: Slot, x: Origin, bytes: nat, count: u32)
    requires s.proc == NFSPROC3_WRITE
    ensures var es := [File(s, x, bytes), StrayCount(s.hosts, count), Report(true)];
            Printed(Start, es, s) == Totals(1, bytes + count) && Decoded(es, s) == Totals(1, bytes)
  {
    var e0, e1, e2 := File(s, x, bytes), StrayCount(s.hosts, count), Report(true);
    var es := [e0, e1, e2];
    StrayHits(s, x, bytes, count);
    assert es[..2] == [e0, e1] && [e0, e1] + [e2] == es;
    assert Decoded(es, s) == Totals(1, bytes) && StrayBytes(es, s) == count;
    ConservedFromStart(es, s);
    RunLast(Start, [e0, e1], e2);
    assert Held(Run(Start, es)) == [];
  }

  lemma StrayHits(s: Slot, x: Origin, bytes: nat, count: u32)
    requires s.proc == NFSPROC3_WRITE
    ensures var es := [File(s, x, bytes), StrayCount(s.hosts, count)];
            Decoded(es, s) == Totals(1, bytes) && StrayBytes(es, s) == count
  {
    var e0, e1 := File(s, x, bytes), StrayCount(s.hosts, count);
    assert [e0, e1][..1] == [e0] && [e0][..0] == [];
    assert SlotOfPending([e0], LaneOf(s)) == Some(s);
    assert Decoded([e0], s) == Totals(1, bytes) && StrayBytes([e0], s) == 0;
  }
}
