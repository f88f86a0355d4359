/** The XID call table as the program keeps it: an array of singly linked chains, relinked in place. */
module XidTable {
  import opened Ints
  import opened XidSpec

  /** `hash_t`. */
  class Node {
    const entry: Entry
    var next: Node?

    constructor (entry: Entry, next: Node?)
      ensures this.entry == entry && this.next == next
    {
      this.entry, this.next := entry, next;
    }
  }

  ghost function Entries(chain: seq<Node>): (b: Bucket)
    ensures |b| == |chain|
    ensures forall i :: 0 <= i < |b| ==> b[i] == chain[i].entry
  {
    seq(|chain|, i requires 0 <= i < |chain| => chain[i].entry)
  }

  ghost function AllEntries(chains: seq<seq<Node>>): (bs: seq<Bucket>)
    ensures |bs| == |chains|
    ensures forall b :: 0 <= b < |bs| ==> bs[b] == Entries(chains[b])
  {
    seq(|chains|, b requires 0 <= b < |chains| => Entries(chains[b]))
  }

  /** The node after position `i` of a chain, or null at its end. */
  ghost function After(chain: seq<Node>, i: nat): Node? {
    if i + 1 < |chain| then chain[i + 1] else null
  }

  ghost function First(chain: seq<Node>): Node? {
    if chain == [] then null else chain[0]
  }

  /** Every node of chain `h` belongs there, and the chain runs from newest to oldest, without repetition. */
  ghost predicate ChainOk(c: seq<Node>, h: nat, serials: nat, nodes: set<Node>) {
    && (forall i :: 0 <= i < |c| ==> c[i] in nodes && Hash(c[i].entry.key) == h && c[i].entry.serial < serials)
    && (forall i, j :: 0 <= i < j < |c| ==> c[j].entry.serial < c[i].entry.serial)
  }

  ghost predicate ChainsOk(chains: seq<seq<Node>>, serials: nat, nodes: set<Node>) {
    && |chains| == HASHSIZE
    && (forall b :: 0 <= b < |chains| ==> ChainOk(chains[b], b, serials, nodes))
  }

  lemma DistinctNodes(chains: seq<seq<Node>>, serials: nat, nodes: set<Node>, b: nat, i: nat, c: nat, j: nat)
    requires ChainsOk(chains, serials, nodes)
    requires b < |chains| && i < |chains[b]| && c < |chains| && j < |chains[c]|
    ensures chains[b][i] == chains[c][j] ==> b == c && i == j
  {
    assert ChainOk(chains[b], b, serials, nodes) && ChainOk(chains[c], c, serials, nodes);
  }

  ghost function DropAt(chain: seq<Node>, i: nat): seq<Node>
    requires i < |chain|
  {
    chain[..i] + chain[i + 1..]
  }

  /** What follows a node once node `i` is gone. */
  lemma AfterDrop(c: seq<Node>, i: nat, j: nat)
    requires i < |c| && j < |c| - 1
    ensures DropAt(c, i)[j] == c[if j >= i then j + 1 else j]
    ensures After(DropAt(c, i), j)
         == if j >= i then After(c, j + 1) else if j + 1 == i then After(c, i) else After(c, j)
  {
  }

  lemma {:induction false} FirstIndexIs(b: Bucket, k: Key, i: nat)
    requires i <= |b| && (i < |b| ==> b[i].key == k)
    requires forall j :: 0 <= j < i ==> b[j].key != k
    ensures FirstIndex(b, k) == i
  {
  }

  lemma {:induction false} TotalUpdate(bs: seq<Bucket>, h: nat, b: Bucket)
    requires h < |bs|
    ensures Total(bs[h := b]) == Total(bs) - |bs[h]| + |b|
  {
    if h > 0 {
      assert bs[h := b][1..] == bs[1..][h - 1 := b];
      TotalUpdate(bs[1..], h - 1, b);
    }
  }

  lemma {:induction false} EmptyTotal(chains: seq<seq<Node>>)
    requires forall b :: 0 <= b < |chains| ==> chains[b] == []
    ensures Total(AllEntries(chains)) == 0
  {
    if chains != [] {
      EmptyTotal(chains[1..]);
      assert AllEntries(chains)[1..] == AllEntries(chains[1..]);
    }
  }

  lemma EntriesUpdate(chains: seq<seq<Node>>, h: nat, c: seq<Node>)
    requires h < |chains|
    ensures AllEntries(chains[h := c]) == AllEntries(chains)[h := Entries(c)]
    ensures Total(AllEntries(chains[h := c])) == Total(AllEntries(chains)) - |chains[h]| + |c|
  {
    assert AllEntries(chains[h := c]) == AllEntries(chains)[h := Entries(c)];
    TotalUpdate(AllEntries(chains), h, Entries(c));
  }

  lemma EntriesDrop(chains: seq<seq<Node>>, h: nat, k: Key, i: nat)
    requires h < |chains| && i < |chains[h]| && i == FirstIndex(Entries(chains[h]), k)
    ensures AllEntries(chains[h := DropAt(chains[h], i)]) == AllEntries(chains)[h := RemoveFirst(Entries(chains[h]), k)]
    ensures Total(AllEntries(chains[h := DropAt(chains[h], i)])) == Total(AllEntries(chains)) - 1
  {
    var c := DropAt(chains[h], i);
    EntriesUpdate(chains, h, c);
    assert Entries(c) == RemoveFirst(Entries(chains[h]), k);
  }

  lemma EntriesPush(chains: seq<seq<Node>>, h: nat, n: Node)
    requires h < |chains|
    ensures AllEntries(chains[h := [n] + chains[h]]) == AllEntries(chains)[h := [n.entry] + Entries(chains[h])]
    ensures Total(AllEntries(chains[h := [n] + chains[h]])) == Total(AllEntries(chains)) + 1
  {
    EntriesUpdate(chains, h, [n] + chains[h]);
    assert Entries([n] + chains[h]) == [n.entry] + Entries(chains[h]);
  }

  lemma DropKeepsChains(chains: seq<seq<Node>>, serials: nat, nodes: set<Node>, h: nat, i: nat)
    requires ChainsOk(chains, serials, nodes) && h < |chains| && i < |chains[h]|
    ensures ChainsOk(chains[h := DropAt(chains[h], i)], serials, nodes)
  {
    var c, d := chains[h], DropAt(chains[h], i);
    assert ChainOk(d, h, serials, nodes) by {
      assert ChainOk(c, h, serials, nodes);
      assert forall j :: 0 <= j < |d| ==> d[j] == if j < i then c[j] else c[j + 1];
    }
  }

  lemma PushKeepsChains(chains: seq<seq<Node>>, serials: nat, nodes: set<Node>, h: nat, n: Node)
    requires ChainsOk(chains, serials, nodes) && h < |chains| && Hash(n.entry.key) == h && n.entry.serial == serials
    ensures ChainsOk(chains[h := [n] + chains[h]], serials + 1, nodes + {n})
  {
    var chains' := chains[h := [n] + chains[h]];
    forall b | 0 <= b < |chains'|
      ensures ChainOk(chains'[b], b, serials + 1, nodes + {n})
    {
      assert ChainOk(chains[b], b, serials, nodes);
    }
  }

  /** The match that a stale node's lookup unlinks is that node or one already passed, never one still ahead. */
  lemma MatchNotAhead(kept: seq<Node>, rest: seq<Node>)
    requires rest != []
    ensures FirstIndex(Entries(kept + rest), rest[0].entry.key) <= |kept|
    ensures FirstIndex(Entries(kept + [rest[0]]), rest[0].entry.key)
         == FirstIndex(Entries(kept + rest), rest[0].entry.key)
  {
    var all, some := Entries(kept + rest), Entries(kept + [rest[0]]);
    var k := rest[0].entry.key;
    assert all[|kept|].key == k;
    assert forall j :: 0 <= j <= |kept| ==> some[j] == all[j];
    FirstIndexIs(some, k, FirstIndex(all, k));
  }

  lemma DropSplit(kept: seq<Node>, rest: seq<Node>, i: nat)
    requires rest != [] && i <= |kept|
    ensures DropAt(kept + rest, i) == DropAt(kept + [rest[0]], i) + rest[1..]
  {
  }

  /** The survivors after one step of the culling walk. */
  ghost function Survivors(kept: seq<Node>, rest: seq<Node>, limit: u32): seq<Node>
    requires rest != []
  {
    if Stale(rest[0].entry, limit) then
      MatchNotAhead(kept, rest);
      DropAt(kept + [rest[0]], FirstIndex(Entries(kept + rest), rest[0].entry.key))
    else kept + [rest[0]]
  }

  lemma CullStep(kept: seq<Node>, rest: seq<Node>, limit: u32)
    requires rest != []
    ensures CullWalk(Entries(kept), Entries(rest), limit)
         == CullWalk(Entries(Survivors(kept, rest, limit)), Entries(rest[1..]), limit)
  {
    var e := rest[0].entry;
    assert Entries(rest)[1..] == Entries(rest[1..]);
    assert Entries(kept + [rest[0]]) == Entries(kept) + [e];
    if Stale(e, limit) {
      MatchNotAhead(kept, rest);
      var n := FirstIndex(Entries(kept + rest), e.key);
      assert Entries(DropAt(kept + [rest[0]], n)) == RemoveFirst(Entries(kept + [rest[0]]), e.key);
    }
  }

  class HashTable {
    const heads: array<Node?>
    var elemCnt: int
    var cullIndex: nat
    var serials: nat
    ghost var chains: seq<seq<Node>>
    ghost var nodes: set<Node>

    /** The links in the heap are those of `chains`. */
    ghost predicate Linked()
      reads this`chains, heads, nodes, this`nodes, this`serials
    {
      && heads.Length == HASHSIZE
      && ChainsOk(chains, serials, nodes)
      && (forall b :: 0 <= b < |chains| ==> heads[b] == First(chains[b]))
      && (forall b, i {:trigger After(chains[b], i)} ::
            0 <= b < |chains| && 0 <= i < |chains[b]| ==> chains[b][i].next == After(chains[b], i))
    }

    /** Linked, with the right count. */
    ghost predicate Counted()
      reads this, heads, nodes
    {
      Linked() && cullIndex < HASHSIZE && elemCnt == Total(AllEntries(chains))
    }

    ghost predicate Valid()
      reads this, heads, nodes
      ensures Valid() ==> ValidTable(State())
    {
      Counted()
    }

    /** The abstract value. */
    ghost function State(): Table
      reads this
    {
      Table(AllEntries(chains), cullIndex, serials)
    }

    /** Take node `i` of chain `h` out, given the node before it, or null for the head. */
    method Unlink(h: nat, ghost i: nat, prev: Node?, curr: Node)
      requires Linked() && h < HASHSIZE && i < |chains[h]| && curr == chains[h][i]
      requires prev == if i == 0 then null else chains[h][i - 1]
      modifies this`chains, heads, nodes`next
      ensures Linked() && chains == old(chains)[h := DropAt(old(chains)[h], i)]
    {
      ghost var c := chains[h];
      assert curr.next == After(c, i);
      if prev == null {
        heads[h] := curr.next;
      } else {
        prev.next := curr.next;
      }
      chains := chains[h := DropAt(c, i)];
      DropKeepsChains(old(chains), serials, nodes, h, i);
      UnlinkedAll(h, i);
    }

    /** Behind the node before the one taken out comes now what came behind that; every other node is as it was. */
    twostate predicate OnlyBefore(c: seq<Node>, new i: nat)
      requires i < |c|
      reads this`nodes, nodes
    {
      && (i > 0 ==> c[i - 1] in nodes && c[i - 1].next == After(c, i))
      && forall n :: n in nodes && n in old(nodes) && (i == 0 || n != c[i - 1]) ==> n.next == old(n.next)
    }

    twostate lemma UnlinkedNext(h: nat, new i: nat, new b: nat, new j: nat)
      requires old(Linked()) && h < HASHSIZE && i < |old(chains)[h]| && serials == old(serials) && nodes == old(nodes)
      requires chains == old(chains)[h := DropAt(old(chains)[h], i)] && OnlyBefore(old(chains)[h], i)
      requires b < |chains| && j < |chains[b]|
      ensures chains[b][j].next == After(chains[b], j)
    {
      var j' := if b == h && j >= i then j + 1 else j;
      if b == h {
        AfterDrop(old(chains)[h], i, j);
      }
      assert old(chains[b][j'].next) == After(old(chains)[b], j');
      if i > 0 {
        DistinctNodes(old(chains), serials, nodes, b, j', h, i - 1);
      }
    }

    twostate lemma UnlinkedAll(h: nat, new i: nat)
      requires old(Linked()) && h < HASHSIZE && i < |old(chains)[h]| && serials == old(serials) && nodes == old(nodes)
      requires chains == old(chains)[h := DropAt(old(chains)[h], i)] && OnlyBefore(old(chains)[h], i)
      ensures forall b, j {:trigger After(chains[b], j)} :: 0 <= b < |chains| && 0 <= j < |chains[b]| ==>
                chains[b][j].next == After(chains[b], j)
    {
      forall b, j {:trigger After(chains[b], j)} | 0 <= b < |chains| && 0 <= j < |chains[b]|
        ensures chains[b][j].next == After(chains[b], j)
      {
        UnlinkedNext(h, i, b, j);
      }
    }

    /** Walk the chain of `k` up to its first node for `k`. */
    method Find(k: Key) returns (prev: Node?, curr: Node?, ghost i: nat)
      requires Linked()
      ensures i == FirstIndex(Entries(chains[Hash(k)]), k)
      ensures prev == if i == 0 then null else chains[Hash(k)][i - 1]
      ensures curr == if i < |chains[Hash(k)]| then chains[Hash(k)][i] else null
      ensures curr != null ==> curr.entry.key == k
    {
      ghost var c := chains[Hash(k)];
      prev, curr, i := null, heads[Hash(k)], 0;
      while curr != null && curr.entry.key != k
        invariant i <= |c|
        invariant curr == if i < |c| then c[i] else null
        invariant prev == if i == 0 then null else c[i - 1]
        invariant forall j :: 0 <= j < i ==> c[j].entry.key != k
        decreases |c| - i
      {
        assert c[i].next == After(c, i);
        prev, curr := curr, curr.next;
        i := i + 1;
      }
      FirstIndexIs(Entries(c), k, i);
    }

    /** Find the first node for `k`, unlink it and uncount it. */
    method Take(k: Key) returns (found: Node?)
      requires Counted()
      modifies this`elemCnt, this`chains, heads, nodes`next
      ensures Counted()
      ensures var c := old(chains)[Hash(k)]; var i := FirstIndex(Entries(c), k);
              && found == (if i < |c| then c[i] else null)
              && chains == if i < |c| then old(chains)[Hash(k) := DropAt(c, i)] else old(chains)
    {
      var h := Hash(k);
      var prev;
      ghost var i;
      prev, found, i := Find(k);
      if found != null {
        EntriesDrop(chains, h, k, i);
        Unlink(h, i, prev, found);
        elemCnt := elemCnt - 1;
      }
    }

    /** hashLookupXid: the first node for `k`, no longer in the table, or null. */
    method Lookup(k: Key) returns (found: Node?)
      requires Valid()
      modifies this`elemCnt, this`chains, heads, nodes`next
      ensures Valid()
      ensures State() == XidSpec.Lookup(old(State()), k).1
      ensures XidSpec.Lookup(old(State()), k).0 == if found == null then None else Some(found.entry)
      ensures found != null ==> found in nodes
    {
      ghost var c := chains[Hash(k)];
      ghost var i := FirstIndex(Entries(c), k);
      if i < |c| {
        EntriesDrop(chains, Hash(k), k, i);
        assert c[i] in nodes;
      }
      found := Take(k);
    }

    /** The table at program start: static storage, all null. */
    constructor ()
      ensures Valid() && fresh(heads) && nodes == {}
      ensures State() == EmptyTable
    {
      heads := new Node?[HASHSIZE](_ => null);
      elemCnt, cullIndex, serials := 0, 0, 0;
      chains, nodes := seq(HASHSIZE, _ => []), {};
      new;
      EmptyTotal(chains);
      assert AllEntries(chains) == EmptyTable.buckets;
    }

    /** Put a new node in front of the chain of its key. */
    method Link(e: Entry)
      requires Linked() && e.serial == serials
      modifies this`chains, this`nodes, this`serials, heads
      ensures Linked() && fresh(nodes - old(nodes)) && old(nodes) <= nodes && serials == old(serials) + 1
      ensures var h := Hash(e.key);
              |chains[h]| > 0 && chains[h][0].entry == e && chains == old(chains)[h := [chains[h][0]] + old(chains)[h]]
    {
      var h := Hash(e.key);
      ghost var c := chains[h];
      var newEl := new Node(e, heads[h]);
      heads[h] := newEl;
      serials := serials + 1;
      chains, nodes := chains[h := [newEl] + c], nodes + {newEl};
      PushKeepsChains(old(chains), old(serials), old(nodes), h, newEl);
      forall b, j {:trigger After(chains[b], j)} | 0 <= b < |chains| && 0 <= j < |chains[b]|
        ensures chains[b][j].next == After(chains[b], j)
      {
        if b != h {
          assert old(chains[b][j].next) == After(old(chains)[b], j);
        } else if j > 0 {
          assert chains[b][j] == c[j - 1];
          assert old(c[j - 1].next) == After(old(chains)[b], j - 1);
        }
      }
    }

    /** The first half of hashInsertXid: count and link a new node. */
    method Push(now: u32, k: Key, version: u32, proc: u32)
      requires Valid()
      modifies this`elemCnt, this`chains, this`nodes, this`serials, heads
      ensures Valid() && fresh(nodes - old(nodes)) && old(nodes) <= nodes && cullIndex == old(cullIndex)
      ensures State() == XidSpec.Push(old(State()), NewEntry(old(State()), now, k, version, proc))
    {
      Link(Entry(k, version, proc, now, serials));
      elemCnt := elemCnt + 1;
      EntriesPush(old(chains), Hash(k), chains[Hash(k)][0]);
    }

    /** One step of the culling walk, at a node the walk has reached. The next node is read before the lookup of
        a stale node's key, and is still the next node after it. */
    method CullNode(curr: Node, limit: u32, ghost kept: seq<Node>, ghost rest: seq<Node>) returns (next: Node?)
      requires Counted() && rest != [] && curr == rest[0] && chains[cullIndex] == kept + rest
      modifies this`elemCnt, this`chains, heads, nodes`next
      ensures Counted() && next == First(rest[1..])
      ensures chains == old(chains)[cullIndex := Survivors(kept, rest, limit) + rest[1..]]
    {
      ghost var c := chains[cullIndex];
      assert curr == c[|kept|];
      assert curr.next == After(c, |kept|) == First(rest[1..]);
      assert ChainOk(c, cullIndex, serials, nodes);
      next := curr.next;
      if curr.entry.callTime < limit {
        MatchNotAhead(kept, rest);
        DropSplit(kept, rest, FirstIndex(Entries(kept + rest), curr.entry.key));
        var dead := Take(curr.entry.key);
        assert dead != null;
      } else {
        Ints.Cons(rest);
        ConcatAssoc(kept, [rest[0]], rest[1..]);
        assert chains == chains[cullIndex := kept + rest];
      }
    }

    /** Walk one bucket, looking up the key of every stale node on the way. */
    method CullChain(limit: u32) returns (ghost kept: seq<Node>)
      requires Counted()
      modifies this`elemCnt, this`chains, heads, nodes`next
      ensures Counted() && chains == old(chains)[cullIndex := kept]
      ensures Entries(kept) == CullWalk([], Entries(old(chains)[cullIndex]), limit)
    {
      ghost var rest := chains[cullIndex];
      kept := [];
      assert kept + rest == rest && chains == chains[cullIndex := rest];
      var curr := heads[cullIndex];
      while curr != null
        invariant Counted() && chains == old(chains)[cullIndex := kept + rest]
        invariant curr == First(rest)
        invariant CullWalk(Entries(kept), Entries(rest), limit) == CullWalk([], Entries(old(chains)[cullIndex]), limit)
        decreases |rest|
      {
        CullStep(kept, rest, limit);
        curr := CullNode(curr, limit, kept, rest);
        kept, rest := Survivors(kept, rest, limit), rest[1..];
      }
      assert kept + rest == kept;
    }

    /** The second half of hashInsertXid: cull one bucket and step CullIndex. */
    method Cull(limit: u32)
      requires Valid()
      modifies this`elemCnt, this`chains, this`cullIndex, heads, nodes`next
      ensures Valid()
      ensures State() == XidSpec.Cull(old(State()), limit)
    {
      ghost var kept := CullChain(limit);
      EntriesUpdate(old(chains), cullIndex, kept);
      cullIndex := (cullIndex + 1) % HASHSIZE;
    }

    /** hashInsertXid. */
    method Insert(now: u32, k: Key, version: u32, proc: u32)
      requires Valid()
      modifies this, heads, nodes`next
      ensures Valid() && fresh(nodes - old(nodes))
      ensures State() == XidSpec.Insert(old(State()), now, k, version, proc)
    {
      Push(now, k, version, proc);
      Cull(Limit(now));
    }
  }
}
