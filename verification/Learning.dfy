/** What replies teach: the paths of the handles that they return, told from the bytes of the results. */
module Learning {
  import opened Ints
  import opened Codecs
  import opened Nfs3
  import opened Keys
  import opened PathMaps
  import opened Procs
  import opened Calls

  // ---------------------------------------------------------------- one new handle

  /** What learning one handle changes: nothing if it is known; otherwise it gets a path, under its parent's path or,
      while the parent has none, under the parent's handle, and that path leads to it. Nothing else changes. */
  lemma LearnChanges(m: Maps, parent: Id, name: string, id: Id)
    ensures var m' := Learn(m, parent, name, id);
            var dir := if parent in m.id2Path && m.id2Path[parent] != "" then m.id2Path[parent] else parent;
            var path := dir + "/" + name;
            && (id in m.id2Path ==> m' == m)
            && (id !in m.id2Path ==> Binding(m', id) == Some(path) && Owner(m', path) == Some(id))
            && (id !in m.id2Path ==> forall p :: p != path ==> Owner(m', p) == Owner(m, p))
            && (forall i :: i != id ==> Binding(m', i) == Binding(m, i))
  {
  }

  /** CREATE and MKDIR replies that start with a handle teach its padded key the path of the name that was asked for. */
  lemma MadeLearns(m: Maps, parent: Id, name: string, proc: u32, data: bytes, h: bytes, past: int -> u32)
    requires proc in {8, 9} && 1 <= |h| <= NFS3_FHSIZE && 4 + |EncodeVar(h)| <= |data|
    requires data[..4] == Bytes(1) && data[4..4 + |EncodeVar(h)|] == EncodeVar(h)
    ensures ReplyPaths(m, proc, true, Payload(data, past), Some((parent, name)))
         == Learn(m, parent, name, GetDir(h + Padding(|h|)))
  {
    MadeHandle(proc, data, h, past);
    MadeTaught(m, parent, name, proc, Payload(data, past), GetDir(h + Padding(|h|)));
  }

  lemma MadeTaught(m: Maps, parent: Id, name: string, proc: u32, r: Results, id: Id)
    requires proc in {8, 9} && NewHandle(proc, true, r) == Some(id)
    ensures ReplyPaths(m, proc, true, r, Some((parent, name))) == Learn(m, parent, name, id)
  {
  }

  /** Nothing is learned from a reply that failed, from one that finds no request in its slot, from one of a procedure
      other than LOOKUP, CREATE, MKDIR and READDIRPLUS, or from a CREATE or MKDIR without a handle. */
  lemma NothingLearned(m: Maps, proc: u32, ok: bool, r: Results, asked: Asked)
    requires !ok || asked == None || proc !in {3, 8, 9, 17} || (proc in {8, 9} && r.words(0) == 0)
    ensures ReplyPaths(m, proc, ok, r, asked) == m
  {
  }

  // ---------------------------------------------------------------- a listing

  /** The key of an entry's handle; an entry without one has the key of the empty handle. */
  function HandleOf(e: EntryPlus3): bytes {
    match e.handle
    case Some(h) => h
    case None => []
  }

  /** Entry `i` is the first one with a handle that was not known before. */
  predicate NewAt(m: Maps, es: seq<EntryPlus3>, i: nat) {
    && i < |es| && GetDir(HandleOf(es[i])) !in m.id2Path
    && forall j :: 0 <= j < i ==> HandleOf(es[j]) != HandleOf(es[i])
  }

  function PathUnder(dirPath: Path, e: EntryPlus3): Path {
    dirPath + "/" + Chars(e.name)
  }

  /** Some entry is the first one with this handle, which was not known before. */
  ghost predicate Brings(m: Maps, es: seq<EntryPlus3>, id: Id) {
    exists i :: 0 <= i < |es| && NewAt(m, es, i) && GetDir(HandleOf(es[i])) == id
  }

  /** Every handle has the path it had, or that of the first entry that carries it. */
  ghost predicate Bound(m: Maps, dirPath: Path, es: seq<EntryPlus3>, m': Maps) {
    && (forall id :: id in m.id2Path ==> Binding(m', id) == Binding(m, id))
    && (forall i :: 0 <= i < |es| && NewAt(m, es, i) ==>
          Binding(m', GetDir(HandleOf(es[i]))) == Some(PathUnder(dirPath, es[i])))
    && (forall id :: id in m'.id2Path ==>
          id in m.id2Path || Brings(m, es, id))
  }

  /** No new handle gets this path. */
  ghost predicate NoneGets(m: Maps, dirPath: Path, es: seq<EntryPlus3>, p: Path) {
    forall i :: 0 <= i < |es| && NewAt(m, es, i) ==> PathUnder(dirPath, es[i]) != p
  }

  /** No new handle behind entry `i` gets the path of that entry. */
  ghost predicate LastOf(m: Maps, dirPath: Path, es: seq<EntryPlus3>, i: nat)
    requires i < |es|
  {
    forall j :: i < j < |es| && NewAt(m, es, j) ==> PathUnder(dirPath, es[j]) != PathUnder(dirPath, es[i])
  }

  /** Every path leads where it led, or to the last new handle that got it. */
  ghost predicate Owned(m: Maps, dirPath: Path, es: seq<EntryPlus3>, m': Maps) {
    && (forall p :: NoneGets(m, dirPath, es, p) ==> Owner(m', p) == Owner(m, p))
    && (forall i :: 0 <= i < |es| && NewAt(m, es, i) && LastOf(m, dirPath, es, i) ==>
          Owner(m', PathUnder(dirPath, es[i])) == Some(GetDir(HandleOf(es[i]))))
  }

  lemma {:induction false} FirstWith(m: Maps, es: seq<EntryPlus3>, j: nat) returns (i: nat)
    requires j < |es| && GetDir(HandleOf(es[j])) !in m.id2Path
    ensures i <= j && HandleOf(es[i]) == HandleOf(es[j]) && NewAt(m, es, i)
    decreases j
  {
    if k :| 0 <= k < j && HandleOf(es[k]) == HandleOf(es[j]) {
      i := FirstWith(m, es, k);
    } else {
      i := j;
    }
  }

  lemma NewBefore(m: Maps, es: seq<EntryPlus3>, e: EntryPlus3, i: nat)
    requires i < |es|
    ensures (NewAt(m, es + [e], i) <==> NewAt(m, es, i)) && (es + [e])[i] == es[i]
  {
    assert forall j :: 0 <= j <= i ==> (es + [e])[j] == es[j];
  }

  lemma KnownIfListed(m: Maps, dirPath: Path, es: seq<EntryPlus3>, m1: Maps, j: nat)
    requires Bound(m, dirPath, es, m1) && j < |es|
    ensures GetDir(HandleOf(es[j])) in m1.id2Path
  {
    if GetDir(HandleOf(es[j])) in m.id2Path {
      assert Binding(m1, GetDir(HandleOf(es[j]))) == Binding(m, GetDir(HandleOf(es[j])));
    } else {
      var i := FirstWith(m, es, j);
      assert Binding(m1, GetDir(HandleOf(es[i]))) == Some(PathUnder(dirPath, es[i]));
    }
  }

  /** The last entry is new exactly if its handle is not bound yet. */
  lemma LastIsNew(m: Maps, dirPath: Path, es: seq<EntryPlus3>, e: EntryPlus3, m1: Maps)
    requires Bound(m, dirPath, es, m1)
    ensures NewAt(m, es + [e], |es|) <==> GetDir(HandleOf(e)) !in m1.id2Path
  {
    var id, all := GetDir(HandleOf(e)), es + [e];
    assert forall j :: 0 <= j < |es| ==> all[j] == es[j];
    if id in m1.id2Path && id !in m.id2Path {
      var i :| 0 <= i < |es| && NewAt(m, es, i) && GetDir(HandleOf(es[i])) == id;
      GetDirInjective(HandleOf(es[i]), HandleOf(e));
    } else if id !in m1.id2Path {
      assert id in m.id2Path ==> Binding(m1, id) == Binding(m, id);
      forall j | 0 <= j < |es|
        ensures HandleOf(es[j]) != HandleOf(e)
      {
        KnownIfListed(m, dirPath, es, m1, j);
      }
    }
  }

  lemma BringsMore(m: Maps, es: seq<EntryPlus3>, e: EntryPlus3, id: Id)
    ensures Brings(m, es, id) ==> Brings(m, es + [e], id)
    ensures NewAt(m, es + [e], |es|) && GetDir(HandleOf(e)) == id ==> Brings(m, es + [e], id)
  {
    if Brings(m, es, id) {
      var i :| 0 <= i < |es| && NewAt(m, es, i) && GetDir(HandleOf(es[i])) == id;
      NewBefore(m, es, e, i);
    }
    assert (es + [e])[|es|] == e;
  }

  lemma BindingStep(m: Maps, dirPath: Path, es: seq<EntryPlus3>, e: EntryPlus3, m1: Maps, i: nat)
    requires Bound(m, dirPath, es, m1) && i <= |es| && NewAt(m, es + [e], i)
    ensures var m', x := SetPath(m1, GetDir(HandleOf(e)), PathUnder(dirPath, e)), (es + [e])[i];
            Binding(m', GetDir(HandleOf(x))) == Some(PathUnder(dirPath, x))
  {
    LastIsNew(m, dirPath, es, e, m1);
    if i < |es| {
      NewBefore(m, es, e, i);
    }
  }

  lemma BoundStep(m: Maps, dirPath: Path, es: seq<EntryPlus3>, e: EntryPlus3, m1: Maps)
    requires Bound(m, dirPath, es, m1)
    ensures Bound(m, dirPath, es + [e], SetPath(m1, GetDir(HandleOf(e)), PathUnder(dirPath, e)))
  {
    var id, all := GetDir(HandleOf(e)), es + [e];
    var m' := SetPath(m1, id, PathUnder(dirPath, e));
    LastIsNew(m, dirPath, es, e, m1);
    forall i | 0 <= i < |all| && NewAt(m, all, i)
      ensures Binding(m', GetDir(HandleOf(all[i]))) == Some(PathUnder(dirPath, all[i]))
    {
      BindingStep(m, dirPath, es, e, m1, i);
    }
    forall k | k in m'.id2Path
      ensures k in m.id2Path || Brings(m, all, k)
    {
      BringsMore(m, es, e, k);
    }
  }

  lemma OwnerStep(m: Maps, dirPath: Path, es: seq<EntryPlus3>, e: EntryPlus3, m1: Maps, i: nat)
    requires Bound(m, dirPath, es, m1) && Owned(m, dirPath, es, m1) && i <= |es| && NewAt(m, es + [e], i)
    requires LastOf(m, dirPath, es + [e], i)
    ensures var m', x := SetPath(m1, GetDir(HandleOf(e)), PathUnder(dirPath, e)), (es + [e])[i];
            Owner(m', PathUnder(dirPath, x)) == Some(GetDir(HandleOf(x)))
  {
    var all := es + [e];
    LastIsNew(m, dirPath, es, e, m1);
    if i < |es| {
      NewBefore(m, es, e, i);
      forall j | i < j < |es| && NewAt(m, es, j)
        ensures PathUnder(dirPath, es[j]) != PathUnder(dirPath, es[i])
      {
        NewBefore(m, es, e, j);
      }
      assert NewAt(m, all, |es|) ==> PathUnder(dirPath, all[|es|]) != PathUnder(dirPath, all[i]);
    }
  }

  lemma UnownedStep(m: Maps, dirPath: Path, es: seq<EntryPlus3>, e: EntryPlus3, m1: Maps, p: Path)
    requires Bound(m, dirPath, es, m1) && Owned(m, dirPath, es, m1) && NoneGets(m, dirPath, es + [e], p)
    ensures Owner(SetPath(m1, GetDir(HandleOf(e)), PathUnder(dirPath, e)), p) == Owner(m, p)
  {
    LastIsNew(m, dirPath, es, e, m1);
    forall i | 0 <= i < |es| && NewAt(m, es, i)
      ensures PathUnder(dirPath, es[i]) != p
    {
      NewBefore(m, es, e, i);
    }
    assert (es + [e])[|es|] == e;
  }

  lemma {:induction false} ListingLearned(m: Maps, dirPath: Path, es: seq<EntryPlus3>)
    requires dirPath != ""
    ensures Bound(m, dirPath, es, LearnAll(m, dirPath, EntryKeys(es)))
    ensures Owned(m, dirPath, es, LearnAll(m, dirPath, EntryKeys(es)))
  {
    if es != [] {
      var before, e := es[..|es| - 1], es[|es| - 1];
      var m1 := LearnAll(m, dirPath, EntryKeys(before));
      Snoc(es);
      ListingLearned(m, dirPath, before);
      LearnedLast(m, dirPath, before, e);
      BoundStep(m, dirPath, before, e, m1);
      forall i | 0 <= i < |es| && NewAt(m, es, i) && LastOf(m, dirPath, es, i)
        ensures Owner(SetPath(m1, GetDir(HandleOf(e)), PathUnder(dirPath, e)), PathUnder(dirPath, es[i]))
             == Some(GetDir(HandleOf(es[i])))
      {
        OwnerStep(m, dirPath, before, e, m1, i);
      }
      forall p | NoneGets(m, dirPath, es, p)
        ensures Owner(SetPath(m1, GetDir(HandleOf(e)), PathUnder(dirPath, e)), p) == Owner(m, p)
      {
        UnownedStep(m, dirPath, before, e, m1, p);
      }
    }
  }

  lemma LearnedLast(m: Maps, dirPath: Path, es: seq<EntryPlus3>, e: EntryPlus3)
    requires dirPath != ""
    ensures LearnAll(m, dirPath, EntryKeys(es + [e]))
         == SetPath(LearnAll(m, dirPath, EntryKeys(es)), GetDir(HandleOf(e)), PathUnder(dirPath, e))
  {
    assert (es + [e])[..|es|] == es;
    assert (EntryKeys(es) + [EntryKey(e)])[..|es|] == EntryKeys(es);
  }

  lemma ListingTaught(m: Maps, parent: Id, name: string, r: Results, es: seq<(Id, string)>)
    requires NewEntries(NFSPROC3_READDIRPLUS, true, r) == Some(es)
    ensures ReplyPaths(m, NFSPROC3_READDIRPLUS, true, r, Some((parent, name))) == LearnAll(m, GetPath(m, parent), es)
  {
    NoNewHandle(r);
  }

  lemma NoNewHandle(r: Results)
    ensures NewHandle(NFSPROC3_READDIRPLUS, true, r) == None
  {
  }

  /** A READDIRPLUS reply with an encoded listing, and whatever behind. While the directory has no path, nothing is
      learned. Otherwise each handle keeps the path it had, or gets that of the first entry that carries it, the
      directory's path, "/" and the entry's name up to a zero byte; and each new path leads to the last handle that got
      it. */
  lemma ListingTeaches(m: Maps, parent: Id, name: string, r: Results, rest: bytes,
                       v: (Option<Fattr3>, (bytes, (seq<EntryPlus3>, bool))))
    requires ReaddirPlusOk().ok(v) && r.data == ReaddirPlusOk().enc(v) + rest
    ensures var m', es, dirPath := ReplyPaths(m, 17, true, r, Some((parent, name))), v.1.1.0, GetPath(m, parent);
            if dirPath == "" then m' == m else Bound(m, dirPath, es, m') && Owned(m, dirPath, es, m')
  {
    ListingRead(r, v, rest);
    ListingTaught(m, parent, name, r, EntryKeys(v.1.1.0));
    if GetPath(m, parent) != "" {
      ListingLearned(m, GetPath(m, parent), v.1.1.0);
    }
  }

  lemma OneBound(m: Maps, dirPath: Path, es: seq<EntryPlus3>, m': Maps)
    requires |es| == 1 && GetDir(HandleOf(es[0])) !in m.id2Path
    requires Bound(m, dirPath, es, m') && Owned(m, dirPath, es, m')
    ensures var path := dirPath + "/" + Chars(es[0].name);
            Binding(m', GetDir(HandleOf(es[0]))) == Some(path) && Owner(m', path) == Some(GetDir(HandleOf(es[0])))
  {
    assert NewAt(m, es, 0) && LastOf(m, dirPath, es, 0);
  }

  lemma NameA(b: bytes)
    requires b == [97]
    ensures "/export" + "/" + Chars(b) == "/export/a"
  {
    assert b[1..] == [];
    assert Chars(b) == ['a'];
  }

  /** A listing of "/export" whose only entry is "a", with a handle not known before: its path is then "/export/a", and
      leads to it. */
  lemma OneEntry(m: Maps, parent: Id, name: string, r: Results, rest: bytes, h: bytes,
                 v: (Option<Fattr3>, (bytes, (seq<EntryPlus3>, bool))))
    requires ReaddirPlusOk().ok(v) && r.data == ReaddirPlusOk().enc(v) + rest && |v.1.1.0| == 1
    requires v.1.1.0[0].name == [97] && v.1.1.0[0].handle == Some(h) && GetDir(h) !in m.id2Path
    requires GetPath(m, parent) == "/export"
    ensures var m' := ReplyPaths(m, 17, true, r, Some((parent, name)));
            Binding(m', GetDir(h)) == Some("/export/a") && Owner(m', "/export/a") == Some(GetDir(h))
  {
    ListingTeaches(m, parent, name, r, rest, v);
    OneBound(m, GetPath(m, parent), v.1.1.0, ReplyPaths(m, 17, true, r, Some((parent, name))));
    NameA(v.1.1.0[0].name);
  }
}
