/** What a crawl leaves in the path maps: each of its callbacks is a setPath. */
module CrawlPaths {
  import opened Ints
  import opened PathMaps
  import Crawl

  /** The locked steps of a report: one setPath for each callback. */
  function SetsOf(report: Crawl.Report): (steps: seq<Step>)
    ensures |steps| == |report|
  {
    if report == [] then [] else [Set(report[0].0, report[0].1)] + SetsOf(report[1..])
  }

  /** The first path reported for an id. */
  function FirstPath(report: Crawl.Report, id: Id): Option<Path> {
    if report == [] then None
    else if report[0].0 == id then Some(report[0].1)
    else FirstPath(report[1..], id)
  }

  lemma {:induction false} FirstSetCounts(report: Crawl.Report, bound: Option<Path>, id: Id)
    ensures LastBinding(bound, SetsOf(report), id) == if bound.Some? then bound else FirstPath(report, id)
    decreases |report|
  {
    if report != [] {
      var s, rest := Set(report[0].0, report[0].1), SetsOf(report[1..]);
      assert ([s] + rest)[0] == s && ([s] + rest)[1..] == rest;
      FirstSetCounts(report[1..], if s.id == id && bound == None then Some(s.path) else bound, id);
    }
  }

  /** Every bound path leads to some id. */
  ghost predicate PathsKnown(m: Maps) {
    forall i :: i in m.id2Path ==> m.id2Path[i] in m.path2Id
  }

  lemma {:induction false} SetsKeepKnown(m: Maps, report: Crawl.Report)
    requires PathsKnown(m) && Consistent(m)
    ensures PathsKnown(Run(m, SetsOf(report))) && Consistent(Run(m, SetsOf(report)))
    decreases |report|
  {
    if report != [] {
      var s, rest := Set(report[0].0, report[0].1), SetsOf(report[1..]);
      assert ([s] + rest)[0] == s && ([s] + rest)[1..] == rest;
      StepConsistent(m, s);
      SetsKeepKnown(Do(m, s), report[1..]);
    }
  }

  /** No two ids have the same first path. */
  ghost predicate FirstPathsDiffer(report: Crawl.Report) {
    forall a, b :: FirstPath(report, a).Some? && FirstPath(report, a) == FirstPath(report, b) ==> a == b
  }

  ghost predicate IsFirstPath(report: Crawl.Report, path: Path) {
    exists id :: FirstPath(report, id) == Some(path)
  }

  /** After a crawl into empty maps, each id is bound to the first path that was reported for it, exactly the first
      paths are known, each by an id that has it, and the maps are each other's inverse if and only if no two ids
      have the same first path. */
  lemma CrawlTeaches(report: Crawl.Report)
    ensures var m := Run(EmptyMaps, SetsOf(report));
            && (forall id :: Binding(m, id) == FirstPath(report, id))
            && (forall p :: p in m.path2Id <==> IsFirstPath(report, p))
            && (forall p :: p in m.path2Id ==> FirstPath(report, m.path2Id[p]) == Some(p))
            && (Inverse(m) <==> FirstPathsDiffer(report))
  {
    var m := Run(EmptyMaps, SetsOf(report));
    SetsKeepKnown(EmptyMaps, report);
    forall id
      ensures Binding(m, id) == FirstPath(report, id)
    {
      RunBinding(EmptyMaps, SetsOf(report), id);
      FirstSetCounts(report, None, id);
    }
    KnownPaths(m, report);
    InverseIfDiffer(m, report);
  }

  lemma KnownPaths(m: Maps, report: Crawl.Report)
    requires Consistent(m) && PathsKnown(m) && forall id :: Binding(m, id) == FirstPath(report, id)
    ensures forall p :: p in m.path2Id <==> IsFirstPath(report, p)
    ensures forall p :: p in m.path2Id ==> FirstPath(report, m.path2Id[p]) == Some(p)
  {
    forall p | p in m.path2Id
      ensures FirstPath(report, m.path2Id[p]) == Some(p)
    {
      assert Binding(m, m.path2Id[p]) == Some(p);
    }
    forall p
      ensures p in m.path2Id <==> IsFirstPath(report, p)
    {
      if p in m.path2Id {
        assert FirstPath(report, m.path2Id[p]) == Some(p);
      }
      if IsFirstPath(report, p) {
        var id :| FirstPath(report, id) == Some(p);
        assert Binding(m, id) == Some(p);
      }
    }
  }

  lemma InverseIfDiffer(m: Maps, report: Crawl.Report)
    requires Consistent(m) && PathsKnown(m) && forall id :: Binding(m, id) == FirstPath(report, id)
    ensures Inverse(m) <==> FirstPathsDiffer(report)
  {
    if Inverse(m) {
      forall a, b | FirstPath(report, a).Some? && FirstPath(report, a) == FirstPath(report, b)
        ensures a == b
      {
        assert Binding(m, a) == Binding(m, b);
        assert a in m.id2Path && b in m.id2Path && m.id2Path[a] == m.id2Path[b];
      }
    }
    if FirstPathsDiffer(report) {
      forall i | i in m.id2Path
        ensures m.path2Id[m.id2Path[i]] == i
      {
        var j := m.path2Id[m.id2Path[i]];
        assert Binding(m, i) == Binding(m, j);
        assert FirstPath(report, i) == FirstPath(report, j);
      }
    }
  }

  /** Two names for one file: only the first one becomes known. */
  lemma HardLink(id: Id, p: Path, q: Path)
    requires p != q
    ensures var m := Run(EmptyMaps, SetsOf([(id, p), (id, q)]));
            GetPath(m, id) == p && GetId(m, p) == id && q !in m.path2Id
  {
    var report := [(id, p), (id, q)];
    CrawlTeaches(report);
    assert report[1..] == [(id, q)];
    var m := Run(EmptyMaps, SetsOf(report));
    assert Binding(m, id) == Some(p);
    forall j
      ensures FirstPath(report, j) == if j == id then Some(p) else None
    {
      assert FirstPath(report, j) == if id == j then Some(p) else FirstPath([(id, q)], j);
    }
  }
}
