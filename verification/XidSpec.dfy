/** The XID call table as a value: what one lookup, one insert and one cull do to it. */
module XidSpec {
  import opened Ints

  const HASHSIZE: nat := 3301
  const MAX_AGE: nat := 30

  /** What a reply is matched on: the RPC transaction id and the calling host and port. */
  datatype Key = Key(xid: u32, host: u32, port: u32)

  /** One table node. `serial` numbers the allocations, and so stands for the node's address. */
  datatype Entry = Entry(key: Key, version: u32, proc: u32, callTime: u32, serial: nat)

  function Hash(k: Key): nat {
    (k.xid % HASHSIZE + k.host % HASHSIZE + k.port % HASHSIZE) % HASHSIZE
  }

  /** All 96 bits of the key go in, and the sum is taken modulo the table's size. */
  lemma HashIsSum(k: Key)
    ensures Hash(k) == (k.xid + k.host + k.port) % 3301
  {
  }

  /** A chain, head first; the head is the newest entry. */
  type Bucket = seq<Entry>

  predicate Stale(e: Entry, limit: u32) {
    e.callTime < limit
  }

  // ---------------------------------------------------------------- one chain

  /** Position of the first entry for `k`, or the length of the chain. */
  function FirstIndex(b: Bucket, k: Key): (i: nat)
    ensures i <= |b|
    ensures i < |b| ==> b[i].key == k
    ensures forall j :: 0 <= j < i ==> b[j].key != k
  {
    if b == [] then 0
    else if b[0].key == k then 0
    else 1 + FirstIndex(b[1..], k)
  }

  /** The chain after the first entry for `k`, if any, is unlinked. */
  function RemoveFirst(b: Bucket, k: Key): Bucket {
    var i := FirstIndex(b, k);
    if i < |b| then b[..i] + b[i + 1..] else b
  }

  /** The culling walk: `kept` are the survivors among the nodes already passed, `rest` the nodes still ahead.
      A stale node triggers a lookup of its key, which unlinks the first match in the whole chain. */
  function CullWalk(kept: Bucket, rest: Bucket, limit: u32): Bucket
    decreases |rest|
  {
    if rest == [] then kept
    else if Stale(rest[0], limit) then CullWalk(RemoveFirst(kept + [rest[0]], rest[0].key), rest[1..], limit)
    else CullWalk(kept + [rest[0]], rest[1..], limit)
  }

  /** The entries of one key, newest first. */
  function OfKey(b: Bucket, k: Key): Bucket {
    if b == [] then []
    else if b[0].key == k then [b[0]] + OfKey(b[1..], k)
    else OfKey(b[1..], k)
  }

  function StaleCount(b: Bucket, limit: u32): (n: nat)
    ensures n <= |b|
  {
    if b == [] then 0 else (if Stale(b[0], limit) then 1 else 0) + StaleCount(b[1..], limit)
  }

  /** The chain without its stale entries: what culling is for. */
  function Fresh(b: Bucket, limit: u32): Bucket {
    if b == [] then []
    else if Stale(b[0], limit) then Fresh(b[1..], limit)
    else [b[0]] + Fresh(b[1..], limit)
  }

  // ---------------------------------------------------------------- the whole table

  /** `cull` is the static CullIndex, `serials` the number of nodes allocated so far. */
  datatype Table = Table(buckets: seq<Bucket>, cull: nat, serials: nat)

  ghost predicate ValidTable(t: Table) {
    && |t.buckets| == HASHSIZE
    && t.cull < HASHSIZE
    && forall b, i :: 0 <= b < HASHSIZE && 0 <= i < |t.buckets[b]| ==> Hash(t.buckets[b][i].key) == b
  }

  const EmptyTable: Table := Table(seq(HASHSIZE, i => []), 0, 0)

  /** Sum of the chain lengths. */
  function Total(buckets: seq<Bucket>): nat {
    if buckets == [] then 0 else |buckets[0]| + Total(buckets[1..])
  }

  /** hashLookupXid: the matched entry, if any, and the table without it. */
  function Lookup(t: Table, k: Key): (Option<Entry>, Table)
    requires ValidTable(t)
  {
    var b := t.buckets[Hash(k)];
    var i := FirstIndex(b, k);
    if i < |b| then (Some(b[i]), t.(buckets := t.buckets[Hash(k) := RemoveFirst(b, k)]))
    else (None, t)
  }

  function NewEntry(t: Table, now: u32, k: Key, version: u32, proc: u32): Entry {
    Entry(k, version, proc, now, t.serials)
  }

  /** Head insertion. */
  function Push(t: Table, e: Entry): Table
    requires ValidTable(t)
  {
    t.(buckets := t.buckets[Hash(e.key) := [e] + t.buckets[Hash(e.key)]], serials := t.serials + 1)
  }

  /** The cull threshold `now - MAX_AGE`, in 32 bits: it wraps during the first MAX_AGE seconds. */
  function Limit(now: u32): u32 {
    WrapU32(now - MAX_AGE)
  }

  /** Cull one bucket and move on to the next. */
  function Cull(t: Table, limit: u32): Table
    requires ValidTable(t)
  {
    t.(buckets := t.buckets[t.cull := CullWalk([], t.buckets[t.cull], limit)], cull := (t.cull + 1) % HASHSIZE)
  }

  /** hashInsertXid. */
  function Insert(t: Table, now: u32, k: Key, version: u32, proc: u32): Table
    requires ValidTable(t)
  {
    Cull(Push(t, NewEntry(t, now, k, version, proc)), Limit(now))
  }

  /** The abstract value: for each key, its outstanding calls, newest first. */
  function StackOf(t: Table, k: Key): seq<Entry>
    requires ValidTable(t)
  {
    OfKey(t.buckets[Hash(k)], k)
  }

  // ---------------------------------------------------------------- lookup pops

  lemma {:induction false} RemoveFirstOfKey(b: Bucket, k: Key, k': Key)
    ensures FirstIndex(b, k) < |b| <==> OfKey(b, k) != []
    ensures FirstIndex(b, k) < |b| ==> b[FirstIndex(b, k)] == OfKey(b, k)[0]
    ensures OfKey(RemoveFirst(b, k), k') ==
            if k' == k && OfKey(b, k) != [] then OfKey(b, k)[1..] else OfKey(b, k')
  {
    if b == [] {
    } else if b[0].key == k {
      assert RemoveFirst(b, k) == b[1..];
    } else {
      RemoveFirstOfKey(b[1..], k, k');
      if FirstIndex(b, k) < |b| {
        assert RemoveFirst(b, k) == [b[0]] + RemoveFirst(b[1..], k);
      }
    }
  }

  // ---------------------------------------------------------------- what one cull removes

  /** Reference form: pass over the chain once, newest first, and let each key lose as many entries as `quota` says. */
  function DropNewest(b: Bucket, quota: multiset<Key>): Bucket {
    if b == [] then []
    else if b[0].key in quota then DropNewest(b[1..], quota - multiset{b[0].key})
    else [b[0]] + DropNewest(b[1..], quota)
  }

  /** The keys of the stale entries, with multiplicity. */
  function StaleKeys(b: Bucket, limit: u32): multiset<Key> {
    if b == [] then multiset{}
    else (if Stale(b[0], limit) then multiset{b[0].key} else multiset{}) + StaleKeys(b[1..], limit)
  }

  lemma {:induction false} StaleKeysAppend(b: Bucket, e: Entry, limit: u32)
    ensures StaleKeys(b + [e], limit) ==
            StaleKeys(b, limit) + (if Stale(e, limit) then multiset{e.key} else multiset{})
  {
    if b == [] {
      assert StaleKeys([e], limit) == (if Stale(e, limit) then multiset{e.key} else multiset{});
    } else {
      assert (b + [e])[1..] == b[1..] + [e];
      StaleKeysAppend(b[1..], e, limit);
    }
  }

  /** A quota within the entries at hand is used up by the end of the chain. */
  lemma {:induction false} DropNewestAppend(b: Bucket, e: Entry, quota: multiset<Key>)
    requires quota[e.key] <= |OfKey(b, e.key)|
    ensures DropNewest(b + [e], quota) == DropNewest(b, quota) + [e]
  {
    if b == [] {
      assert e.key !in quota;
    } else {
      assert (b + [e])[1..] == b[1..] + [e];
      DropNewestAppend(b[1..], e, if b[0].key in quota then quota - multiset{b[0].key} else quota);
    }
  }

  /** One more unit of quota for a key is one more unlink of its first match. */
  lemma {:induction false} DropNewestOneMore(b: Bucket, k: Key, quota: multiset<Key>)
    ensures DropNewest(b, quota + multiset{k}) == RemoveFirst(DropNewest(b, quota), k)
  {
    if b == [] {
    } else if b[0].key in quota {
      DropNewestOneMore(b[1..], k, quota - multiset{b[0].key});
      assert (quota + multiset{k}) - multiset{b[0].key} == (quota - multiset{b[0].key}) + multiset{k};
    } else if b[0].key == k {
      assert (quota + multiset{k}) - multiset{k} == quota;
      RemoveFirstCons(b[0], DropNewest(b[1..], quota), k);
    } else {
      DropNewestOneMore(b[1..], k, quota);
      var d := DropNewest(b[1..], quota);
      RemoveFirstCons(b[0], d, k);
    }
  }

  lemma RemoveFirstCons(e: Entry, b: Bucket, k: Key)
    ensures RemoveFirst([e] + b, k) == if e.key == k then b else [e] + RemoveFirst(b, k)
  {
    assert ([e] + b)[1..] == b;
  }

  lemma {:induction false} StaleKeysCount(b: Bucket, k: Key, limit: u32)
    ensures StaleKeys(b, limit)[k] == StaleCount(OfKey(b, k), limit)
  {
    if b != [] {
      StaleKeysCount(b[1..], k, limit);
      if b[0].key == k {
        assert OfKey(b, k)[1..] == OfKey(b[1..], k);
      }
    }
  }

  /** The walk, which mutates the chain it is traversing, equals the single pass of DropNewest. */
  lemma {:induction false} CullWalkFrom(passed: Bucket, kept: Bucket, rest: Bucket, limit: u32)
    requires kept == DropNewest(passed, StaleKeys(passed, limit))
    ensures CullWalk(kept, rest, limit) == DropNewest(passed + rest, StaleKeys(passed + rest, limit))
    decreases |rest|
  {
    if rest == [] {
      assert passed + rest == passed;
    } else {
      var e := rest[0];
      var quota := StaleKeys(passed, limit);
      StaleKeysCount(passed, e.key, limit);
      DropNewestAppend(passed, e, quota);
      StaleKeysAppend(passed, e, limit);
      if Stale(e, limit) {
        DropNewestOneMore(passed + [e], e.key, quota);
        CullWalkFrom(passed + [e], RemoveFirst(kept + [e], e.key), rest[1..], limit);
      } else {
        assert quota + multiset{} == quota;
        CullWalkFrom(passed + [e], kept + [e], rest[1..], limit);
      }
      Cons(rest);
      ConcatAssoc(passed, [e], rest[1..]);
    }
  }

  /** Main result on culling: each key loses exactly as many entries as it had stale ones, but its newest ones. */
  lemma CullWalkIsDropNewest(b: Bucket, limit: u32)
    ensures CullWalk([], b, limit) == DropNewest(b, StaleKeys(b, limit))
  {
    CullWalkFrom([], [], b, limit);
    assert [] + b == b;
  }

  lemma {:induction false} DropNewestOfKey(b: Bucket, quota: multiset<Key>, k: Key)
    requires quota[k] <= |OfKey(b, k)|
    ensures OfKey(DropNewest(b, quota), k) == OfKey(b, k)[quota[k]..]
  {
    if b == [] {
    } else if b[0].key in quota {
      DropNewestOfKey(b[1..], quota - multiset{b[0].key}, k);
    } else {
      DropNewestOfKey(b[1..], quota, k);
    }
  }

  /** The same, seen from one key's stack. */
  lemma CullWalkOfKey(b: Bucket, k: Key, limit: u32)
    ensures OfKey(CullWalk([], b, limit), k) == OfKey(b, k)[StaleCount(OfKey(b, k), limit)..]
  {
    CullWalkIsDropNewest(b, limit);
    StaleKeysCount(b, k, limit);
    DropNewestOfKey(b, StaleKeys(b, limit), k);
  }

  /** No fresh entry stands in front of a stale entry with the same key. */
  ghost predicate StaleInFront(b: Bucket, limit: u32) {
    forall i, j :: 0 <= i < j < |b| && b[i].key == b[j].key && Stale(b[j], limit) ==> Stale(b[i], limit)
  }

  lemma {:induction false} StaleKeysIn(b: Bucket, j: nat, limit: u32)
    requires j < |b| && Stale(b[j], limit)
    ensures b[j].key in StaleKeys(b, limit)
  {
    if j > 0 {
      StaleKeysIn(b[1..], j - 1, limit);
    }
  }

  lemma {:induction false} StaleKeysWitness(b: Bucket, k: Key, limit: u32) returns (j: nat)
    requires k in StaleKeys(b, limit)
    ensures j < |b| && b[j].key == k && Stale(b[j], limit)
  {
    if Stale(b[0], limit) && b[0].key == k {
      j := 0;
    } else {
      j := StaleKeysWitness(b[1..], k, limit);
      j := j + 1;
    }
  }

  lemma FreshHeadBeforeStale(b: Bucket, limit: u32)
    requires b != [] && !Stale(b[0], limit) && b[0].key in StaleKeys(b[1..], limit)
    ensures !StaleInFront(b, limit)
  {
    var j := StaleKeysWitness(b[1..], b[0].key, limit);
    assert b[j + 1].key == b[0].key;
  }

  lemma {:induction false} CullExactIf(b: Bucket, limit: u32)
    requires StaleInFront(b, limit)
    ensures DropNewest(b, StaleKeys(b, limit)) == Fresh(b, limit)
  {
    if b != [] {
      assert StaleInFront(b[1..], limit) by {
        forall i, j | 0 <= i < j < |b[1..]| && b[1..][i].key == b[1..][j].key && Stale(b[1..][j], limit)
          ensures Stale(b[1..][i], limit)
        {
          assert b[i + 1].key == b[j + 1].key;
        }
      }
      CullExactIf(b[1..], limit);
      var tail := StaleKeys(b[1..], limit);
      if Stale(b[0], limit) {
        assert multiset{b[0].key} + tail - multiset{b[0].key} == tail;
      } else {
        assert multiset{} + tail == tail;
        if b[0].key in tail {
          FreshHeadBeforeStale(b, limit);
        }
      }
    }
  }

  /** Too small a quota for one key leaves a stale entry of that key behind. */
  lemma {:induction false} ShortQuotaLeavesStale(b: Bucket, quota: multiset<Key>, k: Key, limit: u32) returns (i: nat)
    requires quota[k] < StaleKeys(b, limit)[k]
    ensures i < |DropNewest(b, quota)| && Stale(DropNewest(b, quota)[i], limit)
  {
    if b[0].key in quota {
      i := ShortQuotaLeavesStale(b[1..], quota - multiset{b[0].key}, k, limit);
    } else if Stale(b[0], limit) {
      i := 0;
    } else {
      i := ShortQuotaLeavesStale(b[1..], quota, k, limit);
      i := i + 1;
    }
  }

  lemma {:induction false} FreshHasNoStale(b: Bucket, limit: u32)
    ensures forall i :: 0 <= i < |Fresh(b, limit)| ==> !Stale(Fresh(b, limit)[i], limit)
  {
    if b != [] {
      FreshHasNoStale(b[1..], limit);
    }
  }

  lemma {:induction false} CullExactOnlyIf(b: Bucket, limit: u32)
    requires DropNewest(b, StaleKeys(b, limit)) == Fresh(b, limit)
    ensures StaleInFront(b, limit)
  {
    if b != [] {
      var tail := StaleKeys(b[1..], limit);
      if Stale(b[0], limit) {
        assert multiset{b[0].key} + tail - multiset{b[0].key} == tail;
        CullExactOnlyIf(b[1..], limit);
      } else {
        assert multiset{} + tail == tail;
        if b[0].key in tail {
          var i := ShortQuotaLeavesStale(b[1..], tail - multiset{b[0].key}, b[0].key, limit);
          FreshHasNoStale(b[1..], limit);
          FreshHasNoStale(b, limit);
          assert false;
        }
        assert DropNewest(b, tail)[1..] == DropNewest(b[1..], tail);
        assert Fresh(b, limit)[1..] == Fresh(b[1..], limit);
        CullExactOnlyIf(b[1..], limit);
        forall i, j | 0 <= i < j < |b| && b[i].key == b[j].key && Stale(b[j], limit)
          ensures Stale(b[i], limit)
        {
          StaleKeysIn(b[1..], j - 1, limit);
          if i > 0 {
            assert b[1..][i - 1].key == b[1..][j - 1].key;
          }
        }
      }
      forall i, j | 0 <= i < j < |b| && b[i].key == b[j].key && Stale(b[j], limit)
        ensures Stale(b[i], limit)
      {
        if i > 0 {
          assert b[1..][i - 1].key == b[1..][j - 1].key;
        }
      }
    }
  }

  /** A cull removes exactly the stale entries if and only if no key has a fresh entry in front of a stale one. */
  lemma CullExact(b: Bucket, limit: u32)
    ensures CullWalk([], b, limit) == Fresh(b, limit) <==> StaleInFront(b, limit)
  {
    CullWalkIsDropNewest(b, limit);
    if StaleInFront(b, limit) {
      CullExactIf(b, limit);
    } else if CullWalk([], b, limit) == Fresh(b, limit) {
      CullExactOnlyIf(b, limit);
    }
  }

  /** A call alone in its bucket is freed if and only if it is older than the limit. */
  lemma CullSingle(e: Entry, limit: u32)
    ensures CullWalk([], [e], limit) == if e.callTime < limit then [] else [e]
  {
    assert [] + [e] == [e] && [e][1..] == [];
    assert RemoveFirst([e], e.key) == [];
  }

  /** Two calls with one key, the older one stale: the cull frees the newer call and keeps the stale one. */
  lemma CullRemovesNewerTwin(k: Key, limit: u32)
    requires limit > 0
    ensures var newer := Entry(k, 3, 1, limit, 1);
            var older := Entry(k, 3, 1, 0, 0);
            CullWalk([], [newer, older], limit) == [older] && Fresh([newer, older], limit) == [newer]
  {
    var newer := Entry(k, 3, 1, limit, 1);
    var older := Entry(k, 3, 1, 0, 0);
    assert CullWalk([], [newer, older], limit) == CullWalk([newer], [older], limit);
    assert RemoveFirst([newer, older], k) == [older];
    assert [newer, older][1..] == [older];
    assert [newer] + [older] == [newer, older];
    assert Fresh([older], limit) == [];
    assert CullWalk([newer], [older], limit) == CullWalk([older], [], limit);
  }

  /** A limit taken before MAX_AGE seconds have passed wraps, and the cull empties its bucket of everything older. */
  lemma LimitWraps(now: u32)
    ensures now >= 30 ==> Limit(now) == now - 30
    ensures now < 30 ==> Limit(now) > now
  {
  }

  // ---------------------------------------------------------------- the table refines a map of stacks

  /** A lookup pops the newest call of its key and leaves every other key alone. */
  lemma LookupPops(t: Table, k: Key, k': Key)
    requires ValidTable(t)
    ensures ValidTable(Lookup(t, k).1)
    ensures Lookup(t, k).0 == if StackOf(t, k) == [] then None else Some(StackOf(t, k)[0])
    ensures StackOf(Lookup(t, k).1, k') ==
            if k' == k && StackOf(t, k) != [] then StackOf(t, k)[1..] else StackOf(t, k')
  {
    RemoveFirstOfKey(t.buckets[Hash(k)], k, k');
    RemoveFirstOfKey(t.buckets[Hash(k)], k, k);
  }

  lemma {:induction false} CullWalkSubset(kept: Bucket, rest: Bucket, limit: u32)
    ensures forall e :: e in CullWalk(kept, rest, limit) ==> e in kept || e in rest
    decreases |rest|
  {
    if rest != [] {
      var k := kept + [rest[0]];
      if Stale(rest[0], limit) {
        CullWalkSubset(RemoveFirst(k, rest[0].key), rest[1..], limit);
      } else {
        CullWalkSubset(k, rest[1..], limit);
      }
    }
  }

  lemma CullValid(t: Table, limit: u32)
    requires ValidTable(t)
    ensures ValidTable(Cull(t, limit))
  {
    var culled := CullWalk([], t.buckets[t.cull], limit);
    CullWalkSubset([], t.buckets[t.cull], limit);
    forall i | 0 <= i < |culled|
      ensures Hash(culled[i].key) == t.cull
    {
      assert culled[i] in t.buckets[t.cull];
    }
  }

  lemma PushStack(t: Table, e: Entry, k: Key)
    requires ValidTable(t)
    ensures ValidTable(Push(t, e))
    ensures StackOf(Push(t, e), k) == if k == e.key then [e] + StackOf(t, k) else StackOf(t, k)
  {
    var b := t.buckets[Hash(e.key)];
    assert ([e] + b)[1..] == b;
  }

  lemma CullStack(t: Table, limit: u32, k: Key)
    requires ValidTable(t)
    ensures ValidTable(Cull(t, limit))
    ensures StackOf(Cull(t, limit), k) ==
            if Hash(k) == t.cull then StackOf(t, k)[StaleCount(StackOf(t, k), limit)..] else StackOf(t, k)
  {
    CullValid(t, limit);
    CullWalkOfKey(t.buckets[t.cull], k, limit);
    StackAfterCull(t, limit, k, Hash(k));
  }

  lemma StackAfterCull(t: Table, limit: u32, k: Key, h: nat)
    requires ValidTable(t) && ValidTable(Cull(t, limit)) && h == Hash(k)
    ensures StackOf(Cull(t, limit), k)
         == OfKey(if h == t.cull then CullWalk([], t.buckets[h], limit) else t.buckets[h], k)
  {
  }

  /** An insert pushes, and then each key of the culled bucket loses its newest entries, one for each stale one. */
  lemma InsertPushesThenCulls(t: Table, now: u32, k: Key, version: u32, proc: u32, k': Key)
    requires ValidTable(t)
    ensures ValidTable(Insert(t, now, k, version, proc))
    ensures var pushed := if k' == k then [NewEntry(t, now, k, version, proc)] + StackOf(t, k) else StackOf(t, k');
            StackOf(Insert(t, now, k, version, proc), k') ==
            if Hash(k') == t.cull then pushed[StaleCount(pushed, Limit(now))..] else pushed
  {
    var e := NewEntry(t, now, k, version, proc);
    PushStack(t, e, k');
    CullStack(Push(t, e), Limit(now), k');
  }
}
