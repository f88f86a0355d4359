/** Runs of lookups and inserts: how long garbage can stay in the table. */
module XidRuns {
  import opened Ints
  import opened XidSpec

  datatype Op =
    | Ins(now: u32, key: Key, version: u32, proc: u32)
    | Look(key: Key)

  function Apply(t: Table, op: Op): (t': Table)
    requires ValidTable(t)
    ensures ValidTable(t')
  {
    match op
    case Ins(now, k, version, proc) =>
      InsertPushesThenCulls(t, now, k, version, proc, k);
      Insert(t, now, k, version, proc)
    case Look(k) =>
      LookupPops(t, k, k);
      Lookup(t, k).1
  }

  function Run(t: Table, ops: seq<Op>): (t': Table)
    requires ValidTable(t)
    ensures ValidTable(t')
    decreases |ops|
  {
    if ops == [] then t else Run(Apply(t, ops[0]), ops[1..])
  }

  function Inserts(ops: seq<Op>): nat {
    if ops == [] then 0 else (if ops[0].Ins? then 1 else 0) + Inserts(ops[1..])
  }

  /** No key has two outstanding calls. */
  ghost predicate UniqueKeys(t: Table)
    requires ValidTable(t)
  {
    forall k :: |StackOf(t, k)| <= 1
  }

  /** No insert of the run reuses a key that is still outstanding. */
  ghost predicate FreshInserts(t: Table, ops: seq<Op>)
    requires ValidTable(t)
    decreases |ops|
  {
    ops != [] ==>
      && (ops[0].Ins? ==> StackOf(t, ops[0].key) == [])
      && FreshInserts(Apply(t, ops[0]), ops[1..])
  }

  /** Every insert of the run carries a time of at least `t0`. */
  predicate ClockFrom(ops: seq<Op>, t0: u32) {
    ops != [] ==> (ops[0].Ins? ==> t0 <= ops[0].now) && ClockFrom(ops[1..], t0)
  }

  predicate CleanBucket(b: Bucket, bound: int) {
    forall i :: 0 <= i < |b| ==> bound <= b[i].callTime
  }

  /** The bucket CullIndex names `m` inserts after it named `c0`. */
  function Nth(c0: nat, m: nat): (b: nat)
    requires c0 < HASHSIZE
    ensures b < HASHSIZE
  {
    if m == 0 then c0 else (Nth(c0, m - 1) + 1) % HASHSIZE
  }

  lemma {:induction false} NthClosed(c0: nat, m: nat)
    requires c0 < HASHSIZE && m < HASHSIZE
    ensures Nth(c0, m) == if c0 + m < HASHSIZE then c0 + m else c0 + m - HASHSIZE
  {
    if m > 0 {
      NthClosed(c0, m - 1);
    }
  }

  /** The `j` buckets from `c0` on, cyclically, hold nothing older than `bound`, and CullIndex is just past them. */
  ghost predicate Swept(t: Table, c0: nat, j: nat, bound: int)
    requires ValidTable(t) && c0 < HASHSIZE
  {
    && t.cull == Nth(c0, j)
    && forall m :: 0 <= m < j && m < HASHSIZE ==> CleanBucket(t.buckets[Nth(c0, m)], bound)
  }

  lemma {:induction false} InOfKey(b: Bucket, i: nat)
    requires i < |b|
    ensures b[i] in OfKey(b, b[i].key)
  {
    if i > 0 {
      InOfKey(b[1..], i - 1);
    }
  }

  lemma UniqueAfter(t: Table, op: Op)
    requires ValidTable(t) && UniqueKeys(t)
    requires op.Ins? ==> StackOf(t, op.key) == []
    ensures UniqueKeys(Apply(t, op))
  {
    forall k
      ensures |StackOf(Apply(t, op), k)| <= 1
    {
      match op
      case Ins(now, key, version, proc) =>
        InsertPushesThenCulls(t, now, key, version, proc, k);
      case Look(key) =>
        LookupPops(t, key, k);
    }
  }

  /** With unique keys a cull leaves no stale entry in its bucket. */
  lemma CullCleans(b: Bucket, limit: u32)
    requires forall k :: |OfKey(b, k)| <= 1
    ensures CleanBucket(CullWalk([], b, limit), limit)
  {
    var c := CullWalk([], b, limit);
    forall i | 0 <= i < |c|
      ensures limit <= c[i].callTime
    {
      var k := c[i].key;
      InOfKey(c, i);
      CullWalkOfKey(b, k, limit);
    }
  }

  lemma LookKeepsSwept(t: Table, k: Key, c0: nat, j: nat, bound: int)
    requires ValidTable(t) && c0 < HASHSIZE && Swept(t, c0, j, bound)
    ensures Swept(Apply(t, Look(k)), c0, j, bound)
  {
    var t' := Apply(t, Look(k));
    forall m | 0 <= m < j && m < HASHSIZE
      ensures CleanBucket(t'.buckets[Nth(c0, m)], bound)
    {
      assert CleanBucket(t.buckets[Nth(c0, m)], bound);
    }
  }

  lemma InsertSweeps(t: Table, op: Op, c0: nat, j: nat, t0: u32)
    requires ValidTable(t) && UniqueKeys(t)
    requires op.Ins? && StackOf(t, op.key) == []
    requires MAX_AGE <= t0 <= op.now
    requires c0 < HASHSIZE && Swept(t, c0, j, t0 - MAX_AGE)
    ensures Swept(Apply(t, op), c0, j + 1, t0 - MAX_AGE)
  {
    var bound := t0 - MAX_AGE;
    var e := NewEntry(t, op.now, op.key, op.version, op.proc);
    var p := Push(t, e);
    var limit := Limit(op.now);
    var t' := Cull(p, limit);
    assert t' == Apply(t, op);
    forall k
      ensures |OfKey(p.buckets[t.cull], k)| <= 1
    {
      PushStack(t, e, k);
      if Hash(k) != t.cull {
        OfKeyElsewhere(p, t.cull, k);
      }
    }
    CullCleans(p.buckets[t.cull], limit);
    forall m | 0 <= m < j + 1 && m < HASHSIZE
      ensures CleanBucket(t'.buckets[Nth(c0, m)], bound)
    {
      var b := Nth(c0, m);
      if b != t.cull {
        assert CleanBucket(t.buckets[b], bound);
      }
    }
  }

  lemma OfKeyElsewhere(t: Table, b: nat, k: Key)
    requires ValidTable(t) && b < HASHSIZE && Hash(k) != b
    ensures OfKey(t.buckets[b], k) == []
  {
    RemoveFirstOfKey(t.buckets[b], k, k);
    assert FirstIndex(t.buckets[b], k) == |t.buckets[b]|;
  }

  lemma SweepStep(t: Table, op: Op, c0: nat, j: nat, t0: u32)
    requires ValidTable(t) && UniqueKeys(t)
    requires op.Ins? ==> StackOf(t, op.key) == [] && MAX_AGE <= t0 <= op.now
    requires c0 < HASHSIZE && Swept(t, c0, j, t0 - MAX_AGE)
    ensures UniqueKeys(Apply(t, op))
    ensures Swept(Apply(t, op), c0, if op.Ins? then j + 1 else j, t0 - MAX_AGE)
  {
    UniqueAfter(t, op);
    if op.Ins? {
      InsertSweeps(t, op, c0, j, t0);
    } else {
      LookKeepsSwept(t, op.key, c0, j, t0 - MAX_AGE);
    }
  }

  lemma FreshTail(t: Table, ops: seq<Op>, t0: u32)
    requires ValidTable(t) && ops != [] && FreshInserts(t, ops) && ClockFrom(ops, t0)
    ensures ops[0].Ins? ==> StackOf(t, ops[0].key) == [] && t0 <= ops[0].now
    ensures FreshInserts(Apply(t, ops[0]), ops[1..]) && ClockFrom(ops[1..], t0)
  {
  }

  lemma {:induction false} SweepFrom(t: Table, ops: seq<Op>, c0: nat, j: nat, t0: u32)
    requires ValidTable(t) && UniqueKeys(t) && FreshInserts(t, ops)
    requires MAX_AGE <= t0 && ClockFrom(ops, t0)
    requires c0 < HASHSIZE && Swept(t, c0, j, t0 - MAX_AGE)
    ensures Swept(Run(t, ops), c0, j + Inserts(ops), t0 - MAX_AGE)
    decreases |ops|
  {
    if ops != [] {
      var op, rest := ops[0], ops[1..];
      var j' := if op.Ins? then j + 1 else j;
      FreshTail(t, ops, t0);
      SweepStep(t, op, c0, j, t0);
      var t' := Apply(t, op);
      SweepFrom(t', rest, c0, j', t0);
      assert Run(t, ops) == Run(t', rest);
      assert j' + Inserts(rest) == j + Inserts(ops);
    }
  }

  /** In any HASHSIZE consecutive inserts CullIndex names every bucket exactly once. */
  lemma VisitOf(c0: nat, b: nat) returns (m: nat)
    requires c0 < HASHSIZE && b < HASHSIZE
    ensures m < HASHSIZE && Nth(c0, m) == b
    ensures forall m' :: 0 <= m' < HASHSIZE && Nth(c0, m') == b ==> m' == m
  {
    m := if b >= c0 then b - c0 else b - c0 + HASHSIZE;
    NthClosed(c0, m);
    forall m' | 0 <= m' < HASHSIZE && Nth(c0, m') == b
      ensures m' == m
    {
      NthClosed(c0, m');
    }
  }

  /** Bounded garbage: once HASHSIZE inserts with times of at least `t0` have been made, and no key was ever
      outstanding twice, no node of the table is older than `t0 - MAX_AGE`. */
  lemma BoundedGarbage(t: Table, ops: seq<Op>, t0: u32)
    requires ValidTable(t) && UniqueKeys(t) && FreshInserts(t, ops)
    requires MAX_AGE <= t0 && ClockFrom(ops, t0)
    requires Inserts(ops) >= HASHSIZE
    ensures forall b :: 0 <= b < HASHSIZE ==> CleanBucket(Run(t, ops).buckets[b], t0 - MAX_AGE)
  {
    SweepFrom(t, ops, t.cull, 0, t0);
    forall b | 0 <= b < HASHSIZE
      ensures CleanBucket(Run(t, ops).buckets[b], t0 - MAX_AGE)
    {
      var m := VisitOf(t.cull, b);
      assert CleanBucket(Run(t, ops).buckets[Nth(t.cull, m)], t0 - MAX_AGE);
    }
  }

  // ---------------------------------------------------------------- keys that are outstanding more than once

  /** How many entries are not older than `bound`. */
  function FreshCount(s: seq<Entry>, bound: int): (n: nat)
    ensures n <= |s|
  {
    if s == [] then 0 else (if bound <= s[0].callTime then 1 else 0) + FreshCount(s[1..], bound)
  }

  function InsertsOf(ops: seq<Op>, k: Key): nat {
    if ops == [] then 0 else (if ops[0].Ins? && ops[0].key == k then 1 else 0) + InsertsOf(ops[1..], k)
  }

  lemma {:induction false} FreshDrop(s: seq<Entry>, n: nat, bound: int)
    requires n <= |s|
    ensures FreshCount(s[n..], bound) <= FreshCount(s, bound)
  {
    if n > 0 {
      FreshDrop(s[1..], n - 1, bound);
      assert s[n..] == s[1..][n - 1..];
    }
  }

  lemma {:induction false} StaleOrFresh(s: seq<Entry>, limit: u32, bound: int)
    requires bound <= limit
    ensures |s| - StaleCount(s, limit) <= FreshCount(s, bound)
  {
    if s != [] {
      StaleOrFresh(s[1..], limit, bound);
    }
  }

  ghost predicate Visited(c0: nat, j: nat, h: nat)
    requires c0 < HASHSIZE
  {
    exists m :: 0 <= m < j && Nth(c0, m) == h
  }

  /** Of this key there are at most `n` entries that are not too old, and, once its bucket was culled, at most `n` at
      all. */
  ghost predicate KeyBound(t: Table, k: Key, c0: nat, j: nat, bound: int, n: nat)
    requires ValidTable(t) && c0 < HASHSIZE
  {
    && t.cull == Nth(c0, j) && FreshCount(StackOf(t, k), bound) <= n
    && (Visited(c0, j, Hash(k)) ==> |StackOf(t, k)| <= n)
  }

  lemma PushBound(s: seq<Entry>, e: Entry, bound: int)
    ensures FreshCount([e] + s, bound) <= FreshCount(s, bound) + 1
  {
    assert ([e] + s)[1..] == s;
  }

  lemma CullBound(s: seq<Entry>, limit: u32, bound: int)
    requires bound <= limit
    ensures |s[StaleCount(s, limit)..]| <= FreshCount(s, bound)
    ensures FreshCount(s[StaleCount(s, limit)..], bound) <= FreshCount(s, bound)
  {
    StaleOrFresh(s, limit, bound);
    FreshDrop(s, StaleCount(s, limit), bound);
  }

  lemma LookBound(t: Table, key: Key, k: Key, c0: nat, j: nat, bound: int, n: nat)
    requires ValidTable(t) && c0 < HASHSIZE && KeyBound(t, k, c0, j, bound, n)
    ensures KeyBound(Apply(t, Look(key)), k, c0, j, bound, n)
  {
    LookupPops(t, key, k);
    if key == k && StackOf(t, k) != [] {
      FreshDrop(StackOf(t, k), 1, bound);
    }
  }

  /** One insert, seen from the stack `s` of a key that was, or was not, inserted, and whose bucket was, or was not,
      culled. */
  lemma StackBound(s: seq<Entry>, e: Entry, pushes: bool, culls: bool, limit: u32, bound: int, n: nat)
    requires bound <= limit && FreshCount(s, bound) <= n
    ensures var pushed, n' := if pushes then [e] + s else s, if pushes then n + 1 else n;
            var s' := if culls then pushed[StaleCount(pushed, limit)..] else pushed;
            FreshCount(s', bound) <= n' && (culls || |s| <= n ==> |s'| <= n')
  {
    PushBound(s, e, bound);
    CullBound(if pushes then [e] + s else s, limit, bound);
  }

  lemma InsertBound(t: Table, op: Op, k: Key, c0: nat, j: nat, t0: u32, n: nat)
    requires ValidTable(t) && c0 < HASHSIZE && op.Ins? && MAX_AGE <= t0 <= op.now
    requires KeyBound(t, k, c0, j, t0 - MAX_AGE, n)
    ensures KeyBound(Apply(t, op), k, c0, j + 1, t0 - MAX_AGE, if op.key == k then n + 1 else n)
  {
    var e := NewEntry(t, op.now, op.key, op.version, op.proc);
    InsertPushesThenCulls(t, op.now, op.key, op.version, op.proc, k);
    LimitWraps(op.now);
    StackBound(StackOf(t, k), e, k == op.key, Hash(k) == t.cull, Limit(op.now), t0 - MAX_AGE, n);
    if Visited(c0, j + 1, Hash(k)) && Hash(k) != t.cull {
      var m :| 0 <= m < j + 1 && Nth(c0, m) == Hash(k);
      assert m != j && Visited(c0, j, Hash(k));
    }
  }

  lemma OpBound(t: Table, op: Op, k: Key, c0: nat, j: nat, t0: u32, n: nat)
    requires ValidTable(t) && c0 < HASHSIZE && MAX_AGE <= t0 && (op.Ins? ==> t0 <= op.now)
    requires KeyBound(t, k, c0, j, t0 - MAX_AGE, n)
    ensures KeyBound(Apply(t, op), k, c0, if op.Ins? then j + 1 else j, t0 - MAX_AGE,
                     if op.Ins? && op.key == k then n + 1 else n)
  {
    if op.Ins? {
      InsertBound(t, op, k, c0, j, t0, n);
    } else {
      LookBound(t, op.key, k, c0, j, t0 - MAX_AGE, n);
    }
  }

  lemma {:induction false} RunBound(t: Table, ops: seq<Op>, k: Key, c0: nat, j: nat, t0: u32, n: nat)
    requires ValidTable(t) && MAX_AGE <= t0 && ClockFrom(ops, t0)
    requires c0 < HASHSIZE && KeyBound(t, k, c0, j, t0 - MAX_AGE, n)
    ensures KeyBound(Run(t, ops), k, c0, j + Inserts(ops), t0 - MAX_AGE, n + InsertsOf(ops, k))
    decreases |ops|
  {
    if ops != [] {
      var op, rest := ops[0], ops[1..];
      var j', n' := if op.Ins? then j + 1 else j, if op.Ins? && op.key == k then n + 1 else n;
      OpBound(t, op, k, c0, j, t0, n);
      RunBound(Apply(t, op), rest, k, c0, j', t0, n');
      assert j' + Inserts(rest) == j + Inserts(ops) && n' + InsertsOf(rest, k) == n + InsertsOf(ops, k);
    }
  }

  /** Bounded garbage for any keys: once HASHSIZE inserts with times of at least `t0` have been made, each key has at
      most as many outstanding entries as it had at the start that were not older than `t0 - MAX_AGE`, and inserts in
      the run. */
  lemma BoundedStacks(t: Table, ops: seq<Op>, k: Key, t0: u32)
    requires ValidTable(t) && MAX_AGE <= t0 && ClockFrom(ops, t0) && Inserts(ops) >= HASHSIZE
    ensures |StackOf(Run(t, ops), k)| <= FreshCount(StackOf(t, k), t0 - MAX_AGE) + InsertsOf(ops, k)
  {
    RunBound(t, ops, k, t.cull, 0, t0, FreshCount(StackOf(t, k), t0 - MAX_AGE));
    var m := VisitOf(t.cull, Hash(k));
    assert Visited(t.cull, Inserts(ops), Hash(k));
  }
}
