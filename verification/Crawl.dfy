/** NFSServerHandleDir: read a directory page by page, stitch the pages' linked lists together, then walk the list. */
module Crawl {
  import opened Ints
  import opened Keys

  datatype Entry = Entry(name: string, handle: bytes, cookie: u64, isDir: bool)

  /** The answer to one READDIRPLUS call. */
  datatype Reply =
    | NoReply
    | Failed
    | Page(entries: seq<Entry>, verf: bytes, eof: bool)

  /** The server: a function of directory, cookie and cookie verifier. */
  type Server = (bytes, u64, bytes) -> Reply

  const NO_VERF: bytes := [0, 0, 0, 0, 0, 0, 0, 0]

  // ---------------------------------------------------------------- what there is to crawl

  /** A file tree as the server shows it: each entry with the listing it has if it is a directory. */
  datatype Tree = Tree(entry: Entry, listing: Listing)

  /** A listing is served in pages, one for each cut. An incomplete one fails behind its last page. A directory whose
      first page is empty is `Hollow`, whatever would come behind that page. */
  datatype Listing = Listing(nodes: seq<Tree>, cuts: seq<Cut>, complete: bool) | Hollow

  datatype Cut = Cut(size: nat, verf: bytes)

  function EntriesOf(nodes: seq<Tree>): (es: seq<Entry>)
    ensures |es| == |nodes|
  {
    seq(|nodes|, i requires 0 <= i < |nodes| => nodes[i].entry)
  }

  predicate IsDot(e: Entry) {
    e.name == "." || e.name == ".."
  }

  /** The cookie of the next call: that of the last entry, or the same as before behind an empty page. */
  function NextCookie(cookie: u64, page: seq<Entry>): u64 {
    if page == [] then cookie else page[|page| - 1].cookie
  }

  /** From this cookie on, the server delivers exactly these nodes in these pages, some of which may be empty. */
  ghost predicate ServesFrom(serve: Server, dir: bytes, cookie: u64, verf: bytes, nodes: seq<Tree>, cuts: seq<Cut>,
                             complete: bool)
    decreases |cuts|
  {
    if cuts == [] then
      nodes == [] && !complete && !serve(dir, cookie, verf).Page?
    else
      var n, last := cuts[0].size, complete && |cuts| == 1;
      && n <= |nodes|
      && serve(dir, cookie, verf) == Page(EntriesOf(nodes[..n]), cuts[0].verf, last)
      && if last then n == |nodes|
         else ServesFrom(serve, dir, NextCookie(cookie, EntriesOf(nodes[..n])), cuts[0].verf, nodes[n..], cuts[1..],
                         complete)
  }

  predicate StartsFull(cuts: seq<Cut>) {
    cuts == [] || cuts[0].size > 0
  }

  /** The server serves this directory, and the directories below it that a crawl gets to. */
  ghost predicate Serves(serve: Server, dir: bytes, l: Listing)
    decreases l
  {
    match l
    case Hollow => serve(dir, 0, NO_VERF).Page? && serve(dir, 0, NO_VERF).entries == []
    case Listing(nodes, cuts, complete) =>
      && StartsFull(cuts) && ServesFrom(serve, dir, 0, NO_VERF, nodes, cuts, complete)
      && (complete ==> ServesAll(serve, nodes))
  }

  /** Nodes behind one in which the crawl dies do not matter. */
  ghost predicate ServesAll(serve: Server, nodes: seq<Tree>)
    decreases nodes
  {
    nodes == [] || (ServesTree(serve, nodes[0]) && (DiesIn(nodes[0]) || ServesAll(serve, nodes[1..])))
  }

  ghost predicate ServesTree(serve: Server, t: Tree)
    decreases t
  {
    t.entry.isDir && !IsDot(t.entry) ==> Serves(serve, t.entry.handle, t.listing)
  }

  /** A directory that a crawl of this listing may get to has an empty first page. */
  predicate Dies(l: Listing)
    decreases l
  {
    match l
    case Hollow => true
    case Listing(nodes, _, complete) => complete && exists i :: 0 <= i < |nodes| && DiesIn(nodes[i])
  }

  predicate DiesIn(t: Tree)
    decreases t
  {
    t.entry.isDir && !IsDot(t.entry) && Dies(t.listing)
  }

  // ---------------------------------------------------------------- what a crawl reports

  type Report = seq<(string, string)>

  function Below(path: string, e: Entry): string {
    path + "/" + e.name
  }

  /** Pre-order: an entry before what is below it, entries in listing order, without "." and "..". */
  function Preorder(nodes: seq<Tree>, path: string): Report
    decreases nodes
  {
    if nodes == [] then [] else TreeReport(nodes[0], path) + Preorder(nodes[1..], path)
  }

  function TreeReport(t: Tree, path: string): Report
    decreases t
  {
    if IsDot(t.entry) then []
    else [(GetDir(t.entry.handle), Below(path, t.entry))]
         + (if t.entry.isDir then ReportOf(t.listing, Below(path, t.entry)) else [])
  }

  /** A directory is reported only if all of its pages arrive. */
  function ReportOf(l: Listing, path: string): Report
    decreases l
  {
    if l.Listing? && l.complete then Preorder(l.nodes, path) else []
  }

  /** What a crawl has reported, and whether the program has died over it. */
  datatype Outcome = Outcome(report: Report, crashed: bool)

  const Silent: Outcome := Outcome([], false)

  function Then(a: Outcome, b: Outcome): Outcome {
    if a.crashed then a else Outcome(a.report + b.report, b.crashed)
  }

  lemma ThenAssoc(a: Outcome, b: Outcome, c: Outcome)
    ensures Then(Then(a, b), c) == Then(a, Then(b, c))
  {
    ConcatAssoc(a.report, b.report, c.report);
  }

  lemma ThenSilent(a: Outcome)
    ensures Then(a, Silent) == a && Then(Silent, a) == a
  {
    assert a.report + [] == a.report && [] + a.report == a.report;
  }

  function Walk(nodes: seq<Tree>, path: string): Outcome
    decreases nodes
  {
    if nodes == [] then Silent else Then(WalkTree(nodes[0], path), Walk(nodes[1..], path))
  }

  function WalkTree(t: Tree, path: string): Outcome
    decreases t
  {
    if IsDot(t.entry) then Silent
    else Then(Outcome([(GetDir(t.entry.handle), Below(path, t.entry))], false),
              if t.entry.isDir then WalkDir(t.listing, Below(path, t.entry)) else Silent)
  }

  function WalkDir(l: Listing, path: string): Outcome
    decreases l
  {
    match l
    case Hollow => Outcome([], true)
    case Listing(nodes, _, complete) => if complete then Walk(nodes, path) else Silent
  }

  /** What was reported is the pre-order, or, if the program died, the part of it before that. */
  predicate Partly(o: Outcome, whole: Report) {
    o.report <= whole && (!o.crashed ==> o.report == whole)
  }

  lemma PartlyThen(a: Outcome, b: Outcome, x: Report, y: Report)
    requires Partly(a, x) && Partly(b, y)
    ensures Partly(Then(a, b), x + y)
  {
    if !a.crashed {
      assert x + y == a.report + y && a.report + b.report <= a.report + y;
    }
  }

  /** A crawl reports the pre-order of what can be read, up to the directory that it dies over; and it dies if and
      only if some directory that it gets to has an empty first page. */
  lemma {:induction false} CrawlExact(l: Listing, path: string)
    ensures WalkDir(l, path).crashed <==> Dies(l)
    ensures Partly(WalkDir(l, path), ReportOf(l, path))
    decreases l
  {
    if l.Listing? && l.complete {
      WalkExact(l.nodes, path);
    }
  }

  lemma {:induction false} WalkExact(nodes: seq<Tree>, path: string)
    ensures Walk(nodes, path).crashed <==> exists i :: 0 <= i < |nodes| && DiesIn(nodes[i])
    ensures Partly(Walk(nodes, path), Preorder(nodes, path))
    decreases nodes
  {
    if nodes != [] {
      TreeExact(nodes[0], path);
      WalkExact(nodes[1..], path);
      PartlyThen(WalkTree(nodes[0], path), Walk(nodes[1..], path), TreeReport(nodes[0], path),
                 Preorder(nodes[1..], path));
      assert forall i :: 1 <= i < |nodes| ==> nodes[i] == nodes[1..][i - 1];
    }
  }

  lemma {:induction false} TreeExact(t: Tree, path: string)
    ensures WalkTree(t, path).crashed <==> DiesIn(t)
    ensures Partly(WalkTree(t, path), TreeReport(t, path))
    decreases t
  {
    if !IsDot(t.entry) {
      var here := [(GetDir(t.entry.handle), Below(path, t.entry))];
      if t.entry.isDir {
        CrawlExact(t.listing, Below(path, t.entry));
        PartlyThen(Outcome(here, false), WalkDir(t.listing, Below(path, t.entry)), here,
                   ReportOf(t.listing, Below(path, t.entry)));
      }
    }
  }

  lemma WalkStep(serve: Server, said: Report, nodes: seq<Tree>, path: string)
    requires nodes != [] && ServesAll(serve, nodes)
    ensures var o := WalkTree(nodes[0], path);
            && Then(Outcome(said + o.report, o.crashed), Walk(nodes[1..], path))
               == Then(Outcome(said, false), Walk(nodes, path))
            && (!o.crashed ==> ServesAll(serve, nodes[1..]))
  {
    ThenAssoc(Outcome(said, false), WalkTree(nodes[0], path), Walk(nodes[1..], path));
    TreeExact(nodes[0], path);
  }

  /** A directory with nothing in it, not even "." and "..", is enough. */
  lemma EmptyDirectory(serve: Server, dir: bytes, verf: bytes, path: string)
    requires serve(dir, 0, NO_VERF) == Page([], verf, true)
    ensures Serves(serve, dir, Hollow) && WalkDir(Hollow, path) == Outcome([], true)
  {
  }

  /** An empty page behind others is not: this listing ends in one, and is reported whole. */
  lemma EmptyLastPage(serve: Server, dir: bytes, e: Entry, verf: bytes, path: string)
    requires !e.isDir && !IsDot(e) && serve(dir, 0, NO_VERF) == Page([e], verf, false)
    requires serve(dir, e.cookie, verf) == Page([], verf, true)
    ensures var l := Listing([Tree(e, Hollow)], [Cut(1, verf), Cut(0, verf)], true);
            Serves(serve, dir, l) && WalkDir(l, path) == Outcome([(GetDir(e.handle), Below(path, e))], false)
  {
    var nodes, cuts := [Tree(e, Hollow)], [Cut(1, verf), Cut(0, verf)];
    assert EntriesOf(nodes[..1]) == [e] && nodes[1..] == [] && cuts[1..] == [Cut(0, verf)];
    assert EntriesOf(nodes[1..][..0]) == [];
    assert ServesFrom(serve, dir, e.cookie, verf, nodes[1..], cuts[1..], true);
    assert ServesAll(serve, nodes[1..]);
    var here := Outcome([(GetDir(e.handle), Below(path, e))], false);
    ThenSilent(here);
    assert WalkTree(nodes[0], path) == here && Walk(nodes[1..], path) == Silent;
  }

  // ---------------------------------------------------------------- the program

  /** `entryplus3`. */
  class EntryNode {
    const entry: Entry
    var nextentry: EntryNode?

    constructor (entry: Entry, nextentry: EntryNode?)
      ensures this.entry == entry && this.nextentry == nextentry
    {
      this.entry, this.nextentry := entry, nextentry;
    }
  }

  ghost function After(chain: seq<EntryNode>, i: nat): EntryNode? {
    if i + 1 < |chain| then chain[i + 1] else null
  }

  ghost function First(chain: seq<EntryNode>): EntryNode? {
    if chain == [] then null else chain[0]
  }

  ghost function Last(chain: seq<EntryNode>): EntryNode? {
    if chain == [] then null else chain[|chain| - 1]
  }

  /** The chain holds these entries, in this order, linked by its next pointers. */
  ghost predicate Linked(chain: seq<EntryNode>, entries: seq<Entry>)
    reads chain
  {
    && |chain| == |entries|
    && (forall i :: 0 <= i < |chain| ==> chain[i].entry == entries[i])
    && (forall i {:trigger After(chain, i)} :: 0 <= i < |chain| ==> chain[i].nextentry == After(chain, i))
    && (forall i, j :: 0 <= i < j < |chain| ==> chain[i] != chain[j])
  }

  /** The decoded list of one page: fresh nodes. */
  method Decode(entries: seq<Entry>) returns (head: EntryNode?, ghost chain: seq<EntryNode>)
    ensures Linked(chain, entries) && head == First(chain) && (forall i :: 0 <= i < |chain| ==> fresh(chain[i]))
  {
    head, chain := null, [];
    var i := |entries|;
    while i > 0
      invariant 0 <= i <= |entries|
      invariant Linked(chain, entries[i..]) && head == First(chain)
                && (forall i :: 0 <= i < |chain| ==> fresh(chain[i]))
    {
      i := i - 1;
      ghost var tail := chain;
      head := new EntryNode(entries[i], head);
      chain := [head] + tail;
      forall j {:trigger After(chain, j)} | 0 <= j < |chain|
        ensures chain[j].nextentry == After(chain, j)
      {
        if j > 0 {
          assert chain[j] == tail[j - 1] && tail[j - 1].nextentry == After(tail, j - 1);
        }
      }
    }
  }

  /** The inner loop: the last node, found from the first node of the last page; an empty page leaves it as it was. */
  method FindLast(head: EntryNode?, lastE: EntryNode?, ghost a: seq<EntryNode>, ghost b: seq<EntryNode>,
                  ghost es: seq<Entry>)
    returns (last: EntryNode?)
    requires Linked(a + b, es) && head == First(b) && lastE == Last(a)
    ensures last == Last(a + b)
  {
    var e := head;
    last := lastE;
    ghost var c, i := a + b, |a|;
    while e != null
      invariant |a| <= i <= |c|
      invariant e == if i < |c| then c[i] else null
      invariant last == if i == |a| then Last(a) else c[i - 1]
      decreases |c| - i
    {
      assert c[i].nextentry == After(c, i);
      last := e;
      e := e.nextentry;
      i := i + 1;
    }
  }

  /** `lastE->nextentry = e`: hang one page behind the pages before. */
  method Stitch(last: EntryNode?, head: EntryNode?, ghost a: seq<EntryNode>, ghost b: seq<EntryNode>,
                ghost xs: seq<Entry>, ghost ys: seq<Entry>)
    requires Linked(a, xs) && Linked(b, ys) && last == Last(a) && head == First(b)
    requires forall i, j :: 0 <= i < |a| && 0 <= j < |b| ==> a[i] != b[j]
    modifies last
    ensures Linked(a + b, xs + ys)
  {
    if last != null {
      last.nextentry := head;
    }
    ghost var c := a + b;
    forall i {:trigger After(c, i)} | 0 <= i < |c|
      ensures c[i].nextentry == After(c, i)
    {
      if i < |a| {
        assert old(a[i].nextentry) == After(a, i);
      } else {
        assert old(b[i - |a|].nextentry) == After(b, i - |a|);
      }
    }
  }

  /** At the head of the paging loop: `got` are the entries read so far, `rest` the nodes to come in pages `cuts`. */
  ghost predicate ToCome(serve: Server, dir: bytes, l: Listing, eof: bool, cookie: u64, verf: bytes,
                         got: seq<Entry>, rest: seq<Tree>, cuts: seq<Cut>)
  {
    match l
    case Hollow => !eof && got == [] && serve(dir, cookie, verf).Page? && serve(dir, cookie, verf).entries == []
    case Listing(nodes, _, complete) =>
      && got + EntriesOf(rest) == EntriesOf(nodes)
      && (got == [] ==> !eof && StartsFull(cuts))
      && if eof then complete && rest == [] else ServesFrom(serve, dir, cookie, verf, rest, cuts, complete)
  }

  lemma NothingServed(serve: Server, dir: bytes, l: Listing, cookie: u64, verf: bytes,
                      got: seq<Entry>, rest: seq<Tree>, cuts: seq<Cut>)
    requires ToCome(serve, dir, l, false, cookie, verf, got, rest, cuts) && !serve(dir, cookie, verf).Page?
    ensures l.Listing? && !l.complete
  {
  }

  lemma AllServed(serve: Server, dir: bytes, l: Listing, cookie: u64, verf: bytes,
                  got: seq<Entry>, rest: seq<Tree>, cuts: seq<Cut>)
    requires ToCome(serve, dir, l, true, cookie, verf, got, rest, cuts)
    ensures l.Listing? && l.complete && got == EntriesOf(l.nodes)
  {
    assert got + [] == got;
  }

  /** What the next call returns, when it returns a page: nothing at all, at the start of a hollow listing, or what
      comes next of the listing. */
  lemma PageServed(serve: Server, dir: bytes, l: Listing, cookie: u64, verf: bytes,
                   got: seq<Entry>, rest: seq<Tree>, cuts: seq<Cut>)
    requires ToCome(serve, dir, l, false, cookie, verf, got, rest, cuts) && serve(dir, cookie, verf).Page?
    ensures var page := serve(dir, cookie, verf);
            if l.Hollow? then got + page.entries == []
            else
              && cuts != [] && cuts[0].size <= |rest| && got + page.entries != []
              && ToCome(serve, dir, l, page.eof, NextCookie(cookie, page.entries), page.verf,
                        got + page.entries, rest[cuts[0].size..], cuts[1..])
  {
    if l.Listing? {
      var k, page := cuts[0].size, serve(dir, cookie, verf);
      assert EntriesOf(rest) == page.entries + EntriesOf(rest[k..]);
      ConcatAssoc(got, page.entries, EntriesOf(rest[k..]));
    }
  }

  lemma LinkedTail(chain: seq<EntryNode>, entries: seq<Entry>)
    requires Linked(chain, entries) && chain != []
    ensures Linked(chain[1..], entries[1..]) && chain[0].nextentry == First(chain[1..])
  {
    assert chain[0].nextentry == After(chain, 0);
    forall i {:trigger After(chain[1..], i)} | 0 <= i < |chain[1..]|
      ensures chain[1..][i].nextentry == After(chain[1..], i)
    {
      assert chain[i + 1].nextentry == After(chain, i + 1);
    }
  }

  /** One page, appended to the pages read so far. */
  method AppendPage(page: seq<Entry>, firstE: EntryNode?, lastE: EntryNode?, ghost chain: seq<EntryNode>,
                    ghost got: seq<Entry>)
    returns (first: EntryNode?, last: EntryNode?, ghost more: seq<EntryNode>)
    requires Linked(chain, got) && firstE == First(chain) && lastE == Last(chain)
    modifies lastE
    ensures Linked(chain + more, got + page) && first == First(chain + more) && last == Last(chain + more)
    ensures last != null && last != lastE ==> fresh(last)
  {
    var e;
    e, more := Decode(page);
    first := if firstE == null then e else firstE;
    Stitch(lastE, e, chain, more, got, page);
    last := FindLast(e, lastE, chain, more, got + page);
  }

  class NFSServer {
    const serve: Server
    /** The calls of resultCallback so far. */
    var reported: Report

    constructor (serve: Server)
      ensures this.serve == serve && reported == []
    {
      this.serve, reported := serve, [];
    }

    /** The paging loop: all pages in one list, or failure at the first page that does not arrive. Behind a page, the
        cookie is read from the last entry so far: the program dies if there is none. */
    method ReadPages(dir: bytes, ghost l: Listing)
      returns (ok: bool, crashed: bool, firstE: EntryNode?, ghost chain: seq<EntryNode>)
      requires Serves(serve, dir, l)
      ensures crashed == l.Hollow? && ok == (l.Listing? && l.complete)
      ensures ok ==> Linked(chain, EntriesOf(l.nodes)) && firstE == First(chain)
    {
      var cookie: u64, cookieverf := 0, NO_VERF;
      var lastE: EntryNode? := null;
      ghost var got: seq<Entry>, rest, cuts := [], if l.Hollow? then [] else l.nodes, if l.Hollow? then [] else l.cuts;
      ok, crashed, firstE, chain := false, false, null, [];
      var eof := false;
      assert got + EntriesOf(rest) == EntriesOf(rest);
      while !eof
        invariant ToCome(serve, dir, l, eof, cookie, cookieverf, got, rest, cuts)
        invariant Linked(chain, got) && firstE == First(chain) && lastE == Last(chain)
        invariant lastE != null ==> fresh(lastE) && lastE.entry.cookie == cookie
        decreases !eof, |cuts|
      {
        var page := serve(dir, cookie, cookieverf);
        if !page.Page? {
          NothingServed(serve, dir, l, cookie, cookieverf, got, rest, cuts);
          return;
        }
        PageServed(serve, dir, l, cookie, cookieverf, got, rest, cuts);
        ghost var more;
        firstE, lastE, more := AppendPage(page.entries, firstE, lastE, chain, got);
        if lastE == null {
          crashed := true;
          return;
        }
        LastCookie(chain, more, got, page.entries, cookie);
        chain, got, rest, cuts := chain + more, got + page.entries, rest[cuts[0].size..], cuts[1..];
        cookie, cookieverf, eof := lastE.entry.cookie, page.verf, page.eof;
      }
      AllServed(serve, dir, l, cookie, cookieverf, got, rest, cuts);
      ok := true;
    }

    /** One entry: the callback, and the crawl of what is below it; "." and ".." are passed over. */
    method Visit(e: EntryNode, dirPath: string, ghost t: Tree) returns (crashed: bool)
      requires e.entry == t.entry && ServesTree(serve, t)
      modifies this
      ensures var o := WalkTree(t, dirPath); reported == old(reported) + o.report && crashed == o.crashed
      decreases t
    {
      if e.entry.name == "." || e.entry.name == ".." {
        assert reported + [] == reported;
        return false;
      }
      var fPath := dirPath + "/" + e.entry.name;
      ghost var here := [(GetDir(e.entry.handle), fPath)];
      reported := reported + [(GetDir(e.entry.handle), fPath)];
      crashed := false;
      if e.entry.isDir {
        crashed := HandleDir(e.entry.handle, fPath, t.listing);
        ConcatAssoc(old(reported), here, WalkDir(t.listing, fPath).report);
      } else {
        ThenSilent(Outcome(here, false));
      }
    }

    /** NFSServerHandleDir: if all pages arrive, report every entry, each directory followed by what is below it. */
    method HandleDir(dir: bytes, dirPath: string, ghost l: Listing) returns (crashed: bool)
      requires Serves(serve, dir, l)
      modifies this
      ensures var o := WalkDir(l, dirPath); reported == old(reported) + o.report && crashed == o.crashed
      decreases l
    {
      var ok, e;
      ghost var chain;
      ok, crashed, e, chain := ReadPages(dir, l);
      if !ok {
        assert reported + [] == reported;
        return;
      }
      ghost var rest, n, said: Report := l.nodes, 0, [];
      ThenSilent(Walk(rest, dirPath));
      assert reported + [] == reported;
      while e != null && !crashed
        invariant 0 <= n <= |l.nodes| && rest == l.nodes[n..]
        invariant Linked(chain, EntriesOf(rest)) && e == First(chain)
        invariant reported == old(reported) + said && (!crashed ==> ServesAll(serve, rest))
        invariant Then(Outcome(said, crashed), Walk(rest, dirPath)) == WalkDir(l, dirPath)
        decreases |chain|, !crashed
      {
        LinkedTail(chain, EntriesOf(rest));
        assert EntriesOf(rest)[1..] == EntriesOf(rest[1..]);
        assert rest[0] == l.nodes[n];
        ghost var o := WalkTree(rest[0], dirPath);
        crashed := Visit(e, dirPath, rest[0]);
        ConcatAssoc(old(reported), said, o.report);
        WalkStep(serve, said, rest, dirPath);
        chain, rest, n, said := chain[1..], rest[1..], n + 1, said + o.report;
        e := e.nextentry;
      }
      ThenSilent(Outcome(said, crashed));
    }

    /** NFSServerCallbackThread: report every share that can be mounted, and crawl it. */
    method HandleShares(shares: seq<string>, mount: string -> Option<bytes>, ghost listings: map<bytes, Listing>)
      returns (crashed: bool)
      requires SharesServed(serve, shares, mount, listings)
      modifies this
      ensures var o := SharesOutcome(shares, mount, listings);
              reported == old(reported) + o.report && crashed == o.crashed
    {
      var i := 0;
      crashed := false;
      ghost var said: Report := [];
      assert reported + [] == reported && shares[0..] == shares;
      ThenSilent(SharesOutcome(shares, mount, listings));
      while i < |shares| && !crashed
        invariant 0 <= i <= |shares| && (!crashed ==> SharesServed(serve, shares[i..], mount, listings))
        invariant reported == old(reported) + said
        invariant Then(Outcome(said, crashed), SharesOutcome(shares[i..], mount, listings))
               == SharesOutcome(shares, mount, listings)
      {
        ghost var o := ShareOutcome(shares[i], mount, listings);
        crashed := HandleShare(shares[i], mount, listings);
        assert shares[i..][1..] == shares[i + 1..];
        ConcatAssoc(old(reported), said, o.report);
        ThenAssoc(Outcome(said, false), o, SharesOutcome(shares[i + 1..], mount, listings));
        i, said := i + 1, said + o.report;
      }
      ThenSilent(Outcome(said, crashed));
    }

    method HandleShare(share: string, mount: string -> Option<bytes>, ghost listings: map<bytes, Listing>)
      returns (crashed: bool)
      requires ShareServed(serve, share, mount, listings)
      modifies this
      ensures var o := ShareOutcome(share, mount, listings);
              reported == old(reported) + o.report && crashed == o.crashed
    {
      var handle := mount(share);
      if handle == None {
        assert reported + [] == reported;
        return false;
      }
      ghost var here := [(GetDir(handle.value), share)];
      reported := reported + [(GetDir(handle.value), share)];
      crashed := HandleDir(handle.value, share, listings[handle.value]);
      ConcatAssoc(old(reported), here, WalkDir(listings[handle.value], share).report);
    }
  }

  /** The next cookie is that of the last entry read so far. */
  lemma LastCookie(chain: seq<EntryNode>, more: seq<EntryNode>, got: seq<Entry>, page: seq<Entry>, cookie: u64)
    requires |chain| == |got| && Linked(chain + more, got + page) && chain + more != []
    requires chain != [] ==> Last(chain).entry.cookie == cookie
    ensures Last(chain + more).entry.cookie == NextCookie(cookie, page)
  {
    var c := chain + more;
    assert c[|c| - 1].entry == (got + page)[|c| - 1];
  }

  ghost predicate ShareServed(serve: Server, share: string, mount: string -> Option<bytes>,
                              listings: map<bytes, Listing>)
  {
    mount(share).Some? ==>
      mount(share).value in listings && Serves(serve, mount(share).value, listings[mount(share).value])
  }

  /** Shares behind one in which the crawl dies do not matter. */
  ghost predicate SharesServed(serve: Server, shares: seq<string>, mount: string -> Option<bytes>,
                               listings: map<bytes, Listing>)
  {
    |shares| == 0
    || (ShareServed(serve, shares[0], mount, listings)
        && (ShareOutcome(shares[0], mount, listings).crashed || SharesServed(serve, shares[1..], mount, listings)))
  }

  /** What the shares of a server report: each that is mounted, followed by what is below it. */
  function SharesOutcome(shares: seq<string>, mount: string -> Option<bytes>, listings: map<bytes, Listing>): Outcome {
    if |shares| == 0 then Silent
    else Then(ShareOutcome(shares[0], mount, listings), SharesOutcome(shares[1..], mount, listings))
  }

  function ShareOutcome(share: string, mount: string -> Option<bytes>, listings: map<bytes, Listing>): Outcome {
    if mount(share).Some? && mount(share).value in listings
    then Then(Outcome([(GetDir(mount(share).value), share)], false), WalkDir(listings[mount(share).value], share))
    else Silent
  }

  /** The directory that a share stands for, if it can be mounted and its listing is known. */
  function ListingOf(share: string, mount: string -> Option<bytes>, listings: map<bytes, Listing>): Option<Listing> {
    if mount(share).Some? && mount(share).value in listings then Some(listings[mount(share).value]) else None
  }

  function SharesReport(shares: seq<string>, mount: string -> Option<bytes>, listings: map<bytes, Listing>): Report {
    if |shares| == 0 then [] else ShareReport(shares[0], mount, listings) + SharesReport(shares[1..], mount, listings)
  }

  function ShareReport(share: string, mount: string -> Option<bytes>, listings: map<bytes, Listing>): Report {
    match ListingOf(share, mount, listings)
    case None => []
    case Some(l) => [(GetDir(mount(share).value), share)] + ReportOf(l, share)
  }

  /** The crawl of all shares dies if and only if that of one of them does; what it has reported by then is the
      report of the shares, up to there. */
  lemma {:induction false} SharesExact(shares: seq<string>, mount: string -> Option<bytes>,
                                       listings: map<bytes, Listing>)
    ensures var o := SharesOutcome(shares, mount, listings);
            && (o.crashed <==> exists s :: s in shares && ListingOf(s, mount, listings).Some?
                                           && Dies(ListingOf(s, mount, listings).value))
            && Partly(o, SharesReport(shares, mount, listings))
    decreases |shares|
  {
    if |shares| > 0 {
      var s := shares[0];
      ShareExact(s, mount, listings);
      SharesExact(shares[1..], mount, listings);
      PartlyThen(ShareOutcome(s, mount, listings), SharesOutcome(shares[1..], mount, listings),
                 ShareReport(s, mount, listings), SharesReport(shares[1..], mount, listings));
      Cons(shares);
    }
  }

  lemma ShareExact(share: string, mount: string -> Option<bytes>, listings: map<bytes, Listing>)
    ensures var o, l := ShareOutcome(share, mount, listings), ListingOf(share, mount, listings);
            (o.crashed <==> l.Some? && Dies(l.value)) && Partly(o, ShareReport(share, mount, listings))
  {
    if ListingOf(share, mount, listings).Some? {
      var here, l := [(GetDir(mount(share).value), share)], ListingOf(share, mount, listings).value;
      CrawlExact(l, share);
      PartlyThen(Outcome(here, false), WalkDir(l, share), here, ReportOf(l, share));
    }
  }
}
