/** What a crawl reports, told by routes down the tree: each route is the position of an entry in every listing on the
    way. */
module CrawlRoutes {
  import opened Ints
  import opened Keys
  import opened Crawl

  // ---------------------------------------------------------------- routes

  type Route = seq<nat>

  /** A route among these nodes, numbered from `k` on: through directories whose listings are complete, and past no
      entry called "." or "..". */
  predicate RouteIn(nodes: seq<Tree>, k: nat, r: Route)
    decreases |r|
  {
    && r != [] && k <= r[0] < k + |nodes|
    && var t := nodes[r[0] - k];
    && t.entry.name != "." && t.entry.name != ".."
    && (|r| == 1 || (t.entry.isDir && t.listing.Listing? && t.listing.complete && RouteIn(t.listing.nodes, 0, r[1..])))
  }

  predicate IsRoute(l: Listing, r: Route) {
    l.Listing? && l.complete && RouteIn(l.nodes, 0, r)
  }

  /** The node at the end of a route. */
  function NodeIn(nodes: seq<Tree>, k: nat, r: Route): Tree
    requires RouteIn(nodes, k, r)
    decreases |r|
  {
    if |r| == 1 then nodes[r[0] - k] else NodeIn(nodes[r[0] - k].listing.nodes, 0, r[1..])
  }

  /** The path of a route: a "/" and a name for each step. */
  function PathIn(nodes: seq<Tree>, k: nat, r: Route, path: string): string
    requires RouteIn(nodes, k, r)
    decreases |r|
  {
    var here := path + "/" + nodes[r[0] - k].entry.name;
    if |r| == 1 then here else PathIn(nodes[r[0] - k].listing.nodes, 0, r[1..], here)
  }

  /** What is reported at the end of a route. */
  function CallbackIn(nodes: seq<Tree>, k: nat, r: Route, path: string): (string, string)
    requires RouteIn(nodes, k, r)
  {
    (GetDir(NodeIn(nodes, k, r).entry.handle), PathIn(nodes, k, r, path))
  }

  /** Lexicographic order: what is above comes before what is below, and siblings come in listing order. */
  predicate Before(a: Route, b: Route)
    decreases |a|
  {
    b != [] && (a == [] || a[0] < b[0] || (a[0] == b[0] && Before(a[1..], b[1..])))
  }

  ghost predicate InOrder(rs: seq<Route>) {
    forall i, j :: 0 <= i < j < |rs| ==> Before(rs[i], rs[j])
  }

  /** All the routes, in order. */
  function RoutesFrom(nodes: seq<Tree>, k: nat): seq<Route>
    decreases nodes
  {
    if nodes == [] then [] else RoutesVia(nodes[0], k) + RoutesFrom(nodes[1..], k + 1)
  }

  function RoutesVia(t: Tree, k: nat): seq<Route>
    decreases t
  {
    if t.entry.name == "." || t.entry.name == ".." then []
    else [[k]] + (if t.entry.isDir then Longer(k, RoutesOf(t.listing)) else [])
  }

  function RoutesOf(l: Listing): seq<Route>
    decreases l
  {
    if l.Listing? && l.complete then RoutesFrom(l.nodes, 0) else []
  }

  function Longer(k: nat, rs: seq<Route>): (more: seq<Route>)
    ensures |more| == |rs| && forall i :: 0 <= i < |rs| ==> more[i] == [k] + rs[i]
  {
    seq(|rs|, i requires 0 <= i < |rs| => [k] + rs[i])
  }

  // ---------------------------------------------------------------- reports

  /** The report has one callback for each of these routes, in their order. */
  ghost predicate Tells(rs: seq<Route>, report: Report, nodes: seq<Tree>, k: nat, path: string) {
    && |rs| == |report| && InOrder(rs)
    && forall i :: 0 <= i < |rs| ==> RouteIn(nodes, k, rs[i]) && report[i] == CallbackIn(nodes, k, rs[i], path)
  }

  lemma LaterRoute(t: Tree, nodes: seq<Tree>, k: nat, r: Route, path: string)
    requires RouteIn(nodes, k + 1, r)
    ensures RouteIn([t] + nodes, k, r) && CallbackIn([t] + nodes, k, r, path) == CallbackIn(nodes, k + 1, r, path)
    ensures NodeIn([t] + nodes, k, r) == NodeIn(nodes, k + 1, r)
  {
    assert ([t] + nodes)[r[0] - k] == nodes[r[0] - (k + 1)];
  }

  lemma ViaRoute(t: Tree, nodes: seq<Tree>, k: nat, r: Route, path: string)
    requires t.entry.name != "." && t.entry.name != ".." && t.entry.isDir && IsRoute(t.listing, r)
    ensures var here := path + "/" + t.entry.name;
            && RouteIn([t] + nodes, k, [k] + r)
            && CallbackIn([t] + nodes, k, [k] + r, path) == CallbackIn(t.listing.nodes, 0, r, here)
            && NodeIn([t] + nodes, k, [k] + r) == NodeIn(t.listing.nodes, 0, r)
  {
    assert ([k] + r)[1..] == r && ([t] + nodes)[0] == t;
  }

  lemma BeforeLonger(k: nat, a: Route, b: Route)
    ensures Before([k] + a, [k] + b) <==> Before(a, b)
    ensures b != [] ==> Before([k], [k] + b)
  {
    assert ([k] + a)[1..] == a && ([k] + b)[1..] == b && [k][1..] == [];
  }

  lemma {:induction false} ListingTells(l: Listing, path: string)
    requires l.Listing? && l.complete
    ensures Tells(RoutesOf(l), ReportOf(l, path), l.nodes, 0, path)
    decreases l
  {
    NodesTell(l.nodes, 0, path);
  }

  lemma {:induction false} NodesTell(nodes: seq<Tree>, k: nat, path: string)
    ensures Tells(RoutesFrom(nodes, k), Preorder(nodes, path), nodes, k, path)
    decreases nodes
  {
    if nodes != [] {
      TreeTells(nodes[0], nodes[1..], k, path);
      NodesTell(nodes[1..], k + 1, path);
      Cons(nodes);
      BothTell(nodes[0], nodes[1..], k, path, RoutesVia(nodes[0], k), TreeReport(nodes[0], path),
               RoutesFrom(nodes[1..], k + 1), Preorder(nodes[1..], path));
    }
  }

  lemma BothTell(t: Tree, nodes: seq<Tree>, k: nat, path: string, rs: seq<Route>, xs: Report, rs': seq<Route>,
                 xs': Report)
    requires Tells(rs, xs, [t] + nodes, k, path) && (forall i :: 0 <= i < |rs| ==> rs[i][0] == k)
    requires Tells(rs', xs', nodes, k + 1, path)
    ensures Tells(rs + rs', xs + xs', [t] + nodes, k, path)
  {
    var all := rs + rs';
    forall i | 0 <= i < |all|
      ensures RouteIn([t] + nodes, k, all[i]) && (xs + xs')[i] == CallbackIn([t] + nodes, k, all[i], path)
    {
      if i >= |rs| {
        LaterRoute(t, nodes, k, rs'[i - |rs|], path);
      }
    }
  }

  lemma {:induction false} TreeTells(t: Tree, nodes: seq<Tree>, k: nat, path: string)
    ensures Tells(RoutesVia(t, k), TreeReport(t, path), [t] + nodes, k, path)
    ensures forall i :: 0 <= i < |RoutesVia(t, k)| ==> RoutesVia(t, k)[i][0] == k
    decreases t
  {
    if t.entry.name != "." && t.entry.name != ".." {
      var here := path + "/" + t.entry.name;
      assert Below(path, t.entry) == here;
      if t.entry.isDir && t.listing.Listing? && t.listing.complete {
        ListingTells(t.listing, here);
        DirTells(t, nodes, k, path, RoutesOf(t.listing), ReportOf(t.listing, here));
      }
    }
  }

  lemma DirTells(t: Tree, nodes: seq<Tree>, k: nat, path: string, rs: seq<Route>, xs: Report)
    requires t.entry.name != "." && t.entry.name != ".." && t.entry.isDir && t.listing.Listing? && t.listing.complete
    requires Tells(rs, xs, t.listing.nodes, 0, path + "/" + t.entry.name)
    ensures Tells([[k]] + Longer(k, rs), [(GetDir(t.entry.handle), path + "/" + t.entry.name)] + xs,
                  [t] + nodes, k, path)
  {
    var all := [[k]] + Longer(k, rs);
    LongerInOrder(k, rs, t.listing.nodes);
    forall i | 1 <= i < |all|
      ensures RouteIn([t] + nodes, k, all[i]) && xs[i - 1] == CallbackIn([t] + nodes, k, all[i], path)
    {
      ViaRoute(t, nodes, k, rs[i - 1], path);
    }
  }

  lemma LongerInOrder(k: nat, rs: seq<Route>, nodes: seq<Tree>)
    requires InOrder(rs) && forall i :: 0 <= i < |rs| ==> RouteIn(nodes, 0, rs[i])
    ensures InOrder([[k]] + Longer(k, rs))
  {
    var all := [[k]] + Longer(k, rs);
    forall i, j | 0 <= i < j < |all|
      ensures Before(all[i], all[j])
    {
      BeforeLonger(k, if i == 0 then [] else rs[i - 1], rs[j - 1]);
    }
  }

  /** Every route is among them. */
  lemma {:induction false} RouteListed(nodes: seq<Tree>, k: nat, r: Route)
    requires RouteIn(nodes, k, r)
    ensures r in RoutesFrom(nodes, k)
    decreases nodes
  {
    if r[0] == k {
      RouteVia(nodes[0], k, r);
    } else {
      assert nodes[1..][r[0] - (k + 1)] == nodes[r[0] - k];
      RouteListed(nodes[1..], k + 1, r);
    }
  }

  lemma {:induction false} RouteVia(t: Tree, k: nat, r: Route)
    requires RouteIn([t], k, r)
    ensures r in RoutesVia(t, k)
    decreases t
  {
    if |r| == 1 {
      assert r == [k] && RoutesVia(t, k)[0] == [k];
    } else {
      RouteListed(t.listing.nodes, 0, r[1..]);
      var rs := RoutesOf(t.listing);
      var i :| 0 <= i < |rs| && rs[i] == r[1..];
      Cons(r);
      assert RoutesVia(t, k)[1 + i] == Longer(k, rs)[i] == r;
    }
  }

  /** The report of a directory whose pages all arrive: one callback for each route, with the handle's hex and the
      path of the entry at its end, in lexicographic order; and nothing else. */
  lemma ReportIsRoutes(l: Listing, path: string)
    requires l.Listing? && l.complete
    ensures Tells(RoutesOf(l), ReportOf(l, path), l.nodes, 0, path)
    ensures forall r: Route :: IsRoute(l, r) <==> r in RoutesOf(l)
  {
    ListingTells(l, path);
    forall r: Route | IsRoute(l, r)
      ensures r in RoutesOf(l)
    {
      RouteListed(l.nodes, 0, r);
    }
    forall r: Route | r in RoutesOf(l)
      ensures IsRoute(l, r)
    {
      var i :| 0 <= i < |RoutesOf(l)| && RoutesOf(l)[i] == r;
    }
  }

  // ---------------------------------------------------------------- where the crawl dies

  /** A route to a directory whose first page is empty. */
  predicate Fatal(nodes: seq<Tree>, k: nat, r: Route) {
    RouteIn(nodes, k, r) && NodeIn(nodes, k, r).entry.isDir && NodeIn(nodes, k, r).listing.Hollow?
  }

  /** What was reported when the crawl died: everything up to and including the first such directory. */
  ghost predicate DiedAt(rs: seq<Route>, o: Outcome, nodes: seq<Tree>, k: nat) {
    if o.crashed then
      && 0 < |o.report| <= |rs| && Fatal(nodes, k, rs[|o.report| - 1])
      && forall i :: 0 <= i < |o.report| - 1 ==> !Fatal(nodes, k, rs[i])
    else |o.report| == |rs| && forall i :: 0 <= i < |rs| ==> !Fatal(nodes, k, rs[i])
  }

  lemma {:induction false} NodesDie(nodes: seq<Tree>, k: nat, path: string)
    ensures DiedAt(RoutesFrom(nodes, k), Walk(nodes, path), nodes, k)
    decreases nodes
  {
    if nodes != [] {
      TreeDies(nodes[0], nodes[1..], k, path);
      NodesDie(nodes[1..], k + 1, path);
      Cons(nodes);
      NodesTell(nodes[1..], k + 1, path);
      BothDie(nodes[0], nodes[1..], k, RoutesVia(nodes[0], k), WalkTree(nodes[0], path),
              RoutesFrom(nodes[1..], k + 1), Walk(nodes[1..], path));
    }
  }

  lemma LaterFatal(t: Tree, nodes: seq<Tree>, k: nat, r: Route)
    requires RouteIn(nodes, k + 1, r)
    ensures Fatal([t] + nodes, k, r) <==> Fatal(nodes, k + 1, r)
  {
    LaterRoute(t, nodes, k, r, "");
  }

  lemma BothDie(t: Tree, nodes: seq<Tree>, k: nat, rs: seq<Route>, o: Outcome, rs': seq<Route>, o': Outcome)
    requires DiedAt(rs, o, [t] + nodes, k) && DiedAt(rs', o', nodes, k + 1)
    requires forall i :: 0 <= i < |rs'| ==> RouteIn(nodes, k + 1, rs'[i])
    ensures DiedAt(rs + rs', Then(o, o'), [t] + nodes, k)
  {
    var all := rs + rs';
    forall i | |rs| <= i < |all|
      ensures all[i] == rs'[i - |rs|] && (Fatal([t] + nodes, k, all[i]) <==> Fatal(nodes, k + 1, rs'[i - |rs|]))
    {
      LaterFatal(t, nodes, k, rs'[i - |rs|]);
    }
  }

  lemma {:induction false} TreeDies(t: Tree, nodes: seq<Tree>, k: nat, path: string)
    ensures DiedAt(RoutesVia(t, k), WalkTree(t, path), [t] + nodes, k)
    decreases t
  {
    if t.entry.name != "." && t.entry.name != ".." {
      var here := path + "/" + t.entry.name;
      assert Below(path, t.entry) == here && ([t] + nodes)[0] == t;
      if t.entry.isDir && t.listing.Listing? && t.listing.complete {
        NodesDie(t.listing.nodes, 0, here);
        ListingTells(t.listing, here);
        DirDies(t, nodes, k, path, RoutesOf(t.listing), WalkDir(t.listing, here));
      } else {
        assert RoutesVia(t, k) == [[k]];
      }
    }
  }

  lemma DirDies(t: Tree, nodes: seq<Tree>, k: nat, path: string, rs: seq<Route>, o: Outcome)
    requires t.entry.name != "." && t.entry.name != ".." && t.entry.isDir && t.listing.Listing? && t.listing.complete
    requires DiedAt(rs, o, t.listing.nodes, 0) && forall i :: 0 <= i < |rs| ==> RouteIn(t.listing.nodes, 0, rs[i])
    ensures DiedAt([[k]] + Longer(k, rs), Then(Outcome([(GetDir(t.entry.handle), path + "/" + t.entry.name)], false),
                                               o),
                   [t] + nodes, k)
  {
    var all := [[k]] + Longer(k, rs);
    NotFatal(t, nodes, k);
    forall i | 1 <= i < |all|
      ensures Fatal([t] + nodes, k, all[i]) <==> Fatal(t.listing.nodes, 0, rs[i - 1])
    {
      LongerFatal(t, nodes, k, rs[i - 1]);
    }
    var x := (GetDir(t.entry.handle), path + "/" + t.entry.name);
    assert |[x] + o.report| == 1 + |o.report|;
  }

  lemma NotFatal(t: Tree, nodes: seq<Tree>, k: nat)
    requires t.listing.Listing?
    ensures !Fatal([t] + nodes, k, [k])
  {
    assert ([t] + nodes)[0] == t;
  }

  lemma LongerFatal(t: Tree, nodes: seq<Tree>, k: nat, r: Route)
    requires t.entry.name != "." && t.entry.name != ".." && t.entry.isDir && IsRoute(t.listing, r)
    ensures Fatal([t] + nodes, k, [k] + r) <==> Fatal(t.listing.nodes, 0, r)
  {
    ViaRoute(t, nodes, k, r, "");
  }

  /** The crawl of a directory dies if and only if that directory's first page is empty or some route leads to one whose
      first page is; and it has then reported exactly the routes up to and including the first of these. */
  lemma DiesOnRoute(l: Listing, path: string)
    ensures l.Hollow? ==> WalkDir(l, path) == Outcome([], true)
    ensures l.Listing? && !l.complete ==> WalkDir(l, path) == Outcome([], false)
    ensures l.Listing? && l.complete ==>
              && DiedAt(RoutesOf(l), WalkDir(l, path), l.nodes, 0)
              && (WalkDir(l, path).crashed <==> exists r: Route :: Fatal(l.nodes, 0, r))
  {
    if l.Listing? && l.complete {
      NodesDie(l.nodes, 0, path);
      ReportIsRoutes(l, path);
      var rs, o := RoutesOf(l), WalkDir(l, path);
      if o.crashed {
        assert Fatal(l.nodes, 0, rs[|o.report| - 1]);
      } else if r: Route :| Fatal(l.nodes, 0, r) {
        assert IsRoute(l, r);
      }
    }
  }

  // ---------------------------------------------------------------- the usual listing

  /** A share with ".", "..", both directories, and one file: the share and the file are reported. */
  lemma UsualListing(share: string, fh: bytes, dot: Entry, dotdot: Entry, file: Entry, l: Listing, cuts: seq<Cut>)
    requires dot.name == "." && dotdot.name == ".." && dot.isDir && dotdot.isDir && file.name == "a" && !file.isDir
    requires l == Listing([Tree(dot, Hollow), Tree(dotdot, Hollow), Tree(file, Hollow)], cuts, true)
    ensures SharesOutcome([share], s => if s == share then Some(fh) else None, map[fh := l])
         == Outcome([(GetDir(fh), share), (GetDir(file.handle), share + "/a")], false)
  {
    var nodes := l.nodes;
    var here := Outcome([(GetDir(file.handle), share + "/a")], false);
    assert nodes[1..] == [Tree(dotdot, Hollow), Tree(file, Hollow)] && nodes[1..][1..] == [Tree(file, Hollow)];
    ThenSilent(here);
    assert share + "/" + "a" == share + "/a";
    assert WalkTree(Tree(file, Hollow), share) == here;
    assert Walk([Tree(file, Hollow)], share) == here;
    assert Walk(nodes[1..], share) == Then(Silent, here);
    assert Walk(nodes, share) == Then(Silent, Then(Silent, here));
    ThenSilent(Outcome([(GetDir(fh), share), (GetDir(file.handle), share + "/a")], false));
  }

  // ---------------------------------------------------------------- pages and shares

  /** A listing in two pages: the second one is asked for with the last cookie and the verifier of the first. */
  lemma TwoPages(serve: Server, dir: bytes, a: Entry, b: Entry, c: Entry, v: bytes, w: bytes)
    requires !a.isDir && !b.isDir && !c.isDir
    requires serve(dir, 0, [0, 0, 0, 0, 0, 0, 0, 0]) == Page([a, b], v, false)
    requires serve(dir, b.cookie, v) == Page([c], w, true)
    ensures Serves(serve, dir, Listing([Tree(a, Hollow), Tree(b, Hollow), Tree(c, Hollow)], [Cut(2, v), Cut(1, w)],
                                       true))
  {
    var nodes, cuts := [Tree(a, Hollow), Tree(b, Hollow), Tree(c, Hollow)], [Cut(2, v), Cut(1, w)];
    assert EntriesOf(nodes[..2]) == [a, b] && nodes[2..] == [Tree(c, Hollow)] && cuts[1..] == [Cut(1, w)];
    assert nodes[2..][..1] == nodes[2..] && EntriesOf(nodes[2..]) == [c];
    assert ServesFrom(serve, dir, b.cookie, v, nodes[2..], cuts[1..], true);
    assert NextCookie(0, [a, b]) == b.cookie;
    NothingBelow(serve, nodes);
  }

  lemma {:induction false} NothingBelow(serve: Server, nodes: seq<Tree>)
    requires forall i :: 0 <= i < |nodes| ==> !nodes[i].entry.isDir
    ensures ServesAll(serve, nodes)
    decreases |nodes|
  {
    if nodes != [] {
      NothingBelow(serve, nodes[1..]);
    }
  }

  /** Shares are crawled one after the other, up to the one that the crawl dies in. */
  lemma {:induction false} SharesInOrder(front: seq<string>, back: seq<string>, mount: string -> Option<bytes>,
                                         listings: map<bytes, Listing>)
    ensures SharesOutcome(front + back, mount, listings)
         == Then(SharesOutcome(front, mount, listings), SharesOutcome(back, mount, listings))
    decreases |front|
  {
    if front == [] {
      assert front + back == back;
      ThenSilent(SharesOutcome(back, mount, listings));
    } else {
      assert (front + back)[1..] == front[1..] + back;
      SharesInOrder(front[1..], back, mount, listings);
      ThenAssoc(ShareOutcome(front[0], mount, listings), SharesOutcome(front[1..], mount, listings),
                SharesOutcome(back, mount, listings));
    }
  }

  /** A share that cannot be mounted is passed over; another is reported and then crawled. */
  lemma OneShare(share: string, mount: string -> Option<bytes>, listings: map<bytes, Listing>)
    ensures mount(share) == None ==> SharesOutcome([share], mount, listings) == Outcome([], false)
    ensures mount(share).Some? && mount(share).value in listings ==>
              var o := WalkDir(listings[mount(share).value], share);
              SharesOutcome([share], mount, listings)
              == Outcome([(GetDir(mount(share).value), share)] + o.report, o.crashed)
  {
    var o := ShareOutcome(share, mount, listings);
    ThenSilent(o);
    assert [share][1..] == [];
  }
}
