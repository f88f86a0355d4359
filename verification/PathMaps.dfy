/** The two maps between file handles and paths, as a value that locked steps of several threads transform. */
module PathMaps {
  import opened Ints

  /** Handle keys and paths; the program uses strings for both, and the empty string for "not found". */
  type Id = string
  type Path = string

  datatype Maps = Maps(id2Path: map<Id, Path>, path2Id: map<Path, Id>)

  const EmptyMaps: Maps := Maps(map[], map[])

  // ---------------------------------------------------------------- the locked methods, as atomic steps

  function GetPath(m: Maps, id: Id): Path {
    if id in m.id2Path then m.id2Path[id] else ""
  }

  function GetId(m: Maps, path: Path): Id {
    if path in m.path2Id then m.path2Id[path] else ""
  }

  /** Bind a new id; the path may be taken away from another id. An id that is bound stays as it is. */
  function SetPath(m: Maps, id: Id, path: Path): Maps {
    if id in m.id2Path then m else Maps(m.id2Path[id := path], m.path2Id[path := id])
  }

  /** Forget an id, and whatever id its path is bound to. */
  function DeletePath(m: Maps, id: Id): Maps {
    if id in m.id2Path then Maps(m.id2Path - {id}, m.path2Id - {m.id2Path[id]}) else m
  }

  datatype Step =
    | Set(id: Id, path: Path)
    | Delete(id: Id)
    | ReadPath(id: Id)
    | ReadId(path: Path)

  function Do(m: Maps, s: Step): Maps {
    match s
    case Set(id, path) => SetPath(m, id, path)
    case Delete(id) => DeletePath(m, id)
    case ReadPath(_) => m
    case ReadId(_) => m
  }

  /** Every interleaving of the threads' locked calls is some sequence of steps. */
  function Run(m: Maps, steps: seq<Step>): Maps
    decreases |steps|
  {
    if steps == [] then m else Run(Do(m, steps[0]), steps[1..])
  }

  // ---------------------------------------------------------------- what every interleaving keeps

  /** A path leads to an id that leads back to it. */
  ghost predicate Consistent(m: Maps) {
    forall p :: p in m.path2Id ==> m.path2Id[p] in m.id2Path && m.id2Path[m.path2Id[p]] == p
  }

  /** The maps are each other's inverse. */
  ghost predicate Inverse(m: Maps) {
    && Consistent(m)
    && forall i :: i in m.id2Path ==> m.id2Path[i] in m.path2Id && m.path2Id[m.id2Path[i]] == i
  }

  lemma StepConsistent(m: Maps, s: Step)
    requires Consistent(m)
    ensures Consistent(Do(m, s))
  {
    match s
    case Set(id, path) =>
      if id !in m.id2Path {
        forall p | p in Do(m, s).path2Id
          ensures Do(m, s).path2Id[p] in Do(m, s).id2Path && Do(m, s).id2Path[Do(m, s).path2Id[p]] == p
        {
          if p != path {
            assert p in m.path2Id;
          }
        }
      }
    case Delete(id) =>
    case ReadPath(_) =>
    case ReadId(_) =>
  }

  /** In every reachable state each path leads back to itself, so no two paths share an id. */
  lemma {:induction false} RunConsistent(m: Maps, steps: seq<Step>)
    requires Consistent(m)
    ensures Consistent(Run(m, steps))
    ensures var m' := Run(m, steps);
            forall p, q :: p in m'.path2Id && q in m'.path2Id && m'.path2Id[p] == m'.path2Id[q] ==> p == q
    decreases |steps|
  {
    if steps != [] {
      StepConsistent(m, steps[0]);
      RunConsistent(Do(m, steps[0]), steps[1..]);
    }
  }

  /** A bound id keeps its path until it is deleted, whatever the other threads do in between. */
  lemma {:induction false} BoundUntilDeleted(m: Maps, steps: seq<Step>, id: Id)
    requires id in m.id2Path && Delete(id) !in steps
    ensures id in Run(m, steps).id2Path && Run(m, steps).id2Path[id] == m.id2Path[id]
    decreases |steps|
  {
    if steps != [] {
      BoundUntilDeleted(Do(m, steps[0]), steps[1..], id);
    }
  }

  /** A step that binds a path which another live id already has. */
  predicate Steals(m: Maps, s: Step) {
    s.Set? && s.id !in m.id2Path && s.path in m.id2Path.Values
  }

  /** One step keeps the maps inverse to each other if and only if it steals no path. */
  lemma StepInverse(m: Maps, s: Step)
    requires Inverse(m)
    ensures Inverse(Do(m, s)) <==> !Steals(m, s)
  {
    StepConsistent(m, s);
    if Steals(m, s) {
      var j :| j in m.id2Path && m.id2Path[j] == s.path;
      assert j in Do(m, s).id2Path && Do(m, s).path2Id[s.path] == s.id != j;
    } else {
      var m' := Do(m, s);
      forall i | i in m'.id2Path
        ensures m'.id2Path[i] in m'.path2Id && m'.path2Id[m'.id2Path[i]] == i
      {
        if i in m.id2Path {
          assert m.path2Id[m.id2Path[i]] == i;
        }
      }
    }
  }

  ghost predicate NeverSteals(m: Maps, steps: seq<Step>)
    decreases |steps|
  {
    steps != [] ==> !Steals(m, steps[0]) && NeverSteals(Do(m, steps[0]), steps[1..])
  }

  /** If no step of a run gives one path to two live ids, the maps are exact inverses at its end. */
  lemma {:induction false} RunInverse(m: Maps, steps: seq<Step>)
    requires Inverse(m) && NeverSteals(m, steps)
    ensures Inverse(Run(m, steps))
    decreases |steps|
  {
    if steps != [] {
      StepInverse(m, steps[0]);
      RunInverse(Do(m, steps[0]), steps[1..]);
    }
  }

  /** Deleting one of two ids with the same path makes the path of the other one unknown. */
  lemma DeleteHitsTheOther(a: Id, b: Id, p: Path)
    requires a != b && b != ""
    ensures var m := Run(EmptyMaps, [Set(a, p), Set(b, p), Delete(a)]);
            GetPath(m, b) == p && GetId(m, p) == ""
  {
    var m1 := Do(EmptyMaps, Set(a, p));
    var m2 := Do(m1, Set(b, p));
    var s: seq<Step> := [Set(a, p), Set(b, p), Delete(a)];
    assert s[1..] == [Set(b, p), Delete(a)];
    assert s[1..][1..] == [Delete(a)];
    assert Run(m2, [Delete(a)]) == Run(Do(m2, Delete(a)), []);
  }

  // ---------------------------------------------------------------- rename

  /** What a LOOKUP, CREATE or MKDIR reply teaches: the path of the new handle under its parent, or under the
      parent's handle while the parent has no path. */
  function Learn(m: Maps, parent: Id, name: string, id: Id): Maps {
    SetPath(m, id, (if GetPath(m, parent) == "" then parent else GetPath(m, parent)) + "/" + name)
  }

  /** What is learned once stays: a second reply for the same handle, under whatever parent and name, changes
      nothing. */
  lemma LearnOnce(m: Maps, parent: Id, name: string, id: Id, parent': Id, name': string)
    requires Consistent(m)
    ensures Consistent(Learn(m, parent, name, id))
    ensures Learn(Learn(m, parent, name, id), parent', name', id) == Learn(m, parent, name, id)
    ensures id !in m.id2Path && GetPath(m, parent) != "" ==>
              GetPath(Learn(m, parent, name, id), id) == GetPath(m, parent) + "/" + name
  {
    StepConsistent(m, Set(id, (if GetPath(m, parent) == "" then parent else GetPath(m, parent)) + "/" + name));
  }

  /** The lookup of the renamed file: by its path, or by its directory's handle when the path is not bound. */
  function RenamedId(m: Maps, fromDir: Id, fromPath: Path, name: string): Id {
    var id := GetId(m, fromPath + "/" + name);
    if id == "" then GetId(m, fromDir + "/" + name) else id
  }

  /** The rename branch of storeNfs3Message, run without interference. */
  function Rename(m: Maps, fromDir: Id, name: string, toDir: Id, newName: string): Maps {
    var fromPath, toPath := GetPath(m, fromDir), GetPath(m, toDir);
    if fromPath == "" || toPath == "" then m
    else
      var id := RenamedId(m, fromDir, fromPath, name);
      if id == "" then m else SetPath(DeletePath(m, id), id, toPath + "/" + newName)
  }

  /** Known or not, a rename keeps the maps consistent. */
  lemma RenameConsistent(m: Maps, fromDir: Id, name: string, toDir: Id, newName: string)
    requires Consistent(m)
    ensures Consistent(Rename(m, fromDir, name, toDir, newName))
  {
    var id := RenamedId(m, fromDir, GetPath(m, fromDir), name);
    StepConsistent(m, Delete(id));
    StepConsistent(DeletePath(m, id), Set(id, GetPath(m, toDir) + "/" + newName));
  }

  /** The id of the file that a rename is about, and the path it is known by: its directory's path and its name, or
      else its directory's handle and its name. */
  predicate Renames(m: Maps, fromDir: Id, name: string, id: Id, was: Path)
    requires fromDir in m.id2Path
  {
    var byPath := m.id2Path[fromDir] + "/" + name;
    if byPath in m.path2Id && m.path2Id[byPath] != "" then id == m.path2Id[byPath] && was == byPath
    else
      was == fromDir + "/" + name
      && id == if was in m.path2Id then m.path2Id[was] else ""
  }

  /** An uninterrupted rename of a known id moves its binding and no other. */
  lemma RenameMoves(m: Maps, fromDir: Id, name: string, toDir: Id, newName: string, id: Id, was: Path)
    requires Consistent(m) && fromDir in m.id2Path && m.id2Path[fromDir] != "" && toDir in m.id2Path
    requires m.id2Path[toDir] != "" && Renames(m, fromDir, name, id, was) && id != ""
    ensures var now, m' := m.id2Path[toDir] + "/" + newName, Rename(m, fromDir, name, toDir, newName);
            && Consistent(m')
            && Binding(m, id) == Some(was) && Binding(m', id) == Some(now) && Owner(m', now) == Some(id)
            && (was != now ==> Owner(m', was) == None)
            && (forall j :: j != id ==> Binding(m', j) == Binding(m, j))
            && (forall p :: p != was && p != now ==> Owner(m', p) == Owner(m, p))
  {
    assert was in m.path2Id && m.path2Id[was] == id;
    StepConsistent(m, Delete(id));
    StepConsistent(DeletePath(m, id), Set(id, GetPath(m, toDir) + "/" + newName));
  }

  /** Nothing happens if one of the directories has no path, or the file is not known. */
  lemma RenameNothing(m: Maps, fromDir: Id, name: string, toDir: Id, newName: string)
    requires
      || fromDir !in m.id2Path || m.id2Path[fromDir] == "" || toDir !in m.id2Path || m.id2Path[toDir] == ""
      || exists was :: Renames(m, fromDir, name, "", was)
    ensures Rename(m, fromDir, name, toDir, newName) == m
  {
  }

  function Binding(m: Maps, id: Id): Option<Path> {
    if id in m.id2Path then Some(m.id2Path[id]) else None
  }

  /** What a sequence of steps makes of one id's binding: the first Set after each Delete of that id counts. */
  function LastBinding(bound: Option<Path>, steps: seq<Step>, id: Id): Option<Path>
    decreases |steps|
  {
    if steps == [] then bound
    else
      var s := steps[0];
      var bound' := if s.Set? && s.id == id && bound == None then Some(s.path)
                    else if s == Delete(id) then None
                    else bound;
      LastBinding(bound', steps[1..], id)
  }

  /** An id's binding depends on the steps for that id alone, not on the rest of the interleaving. */
  lemma {:induction false} RunBinding(m: Maps, steps: seq<Step>, id: Id)
    ensures Binding(Run(m, steps), id) == LastBinding(Binding(m, id), steps, id)
    decreases |steps|
  {
    if steps != [] {
      RunBinding(Do(m, steps[0]), steps[1..], id);
    }
  }

  function Owner(m: Maps, path: Path): Option<Id> {
    if path in m.path2Id then Some(m.path2Id[path]) else None
  }

  /** Which id a path leads to after some steps, told from the steps: the last id that was bound to it while unbound,
      unless an id with that path was deleted since. */
  function LastOwner(m: Maps, steps: seq<Step>, path: Path): Option<Id>
    decreases |steps|
  {
    if steps == [] then Owner(m, path)
    else
      var before, s := steps[..|steps| - 1], steps[|steps| - 1];
      if s.Set? && s.path == path && LastBinding(Binding(m, s.id), before, s.id) == None then Some(s.id)
      else if s.Delete? && LastBinding(Binding(m, s.id), before, s.id) == Some(path) then None
      else LastOwner(m, before, path)
  }

  lemma {:induction false} RunSnoc(m: Maps, steps: seq<Step>, s: Step)
    ensures Run(m, steps + [s]) == Do(Run(m, steps), s)
    decreases |steps|
  {
    if steps == [] {
      assert [] + [s] == [s] && [s][1..] == [];
    } else {
      assert (steps + [s])[1..] == steps[1..] + [s];
      RunSnoc(Do(m, steps[0]), steps[1..], s);
    }
  }

  lemma {:induction false} RunOwner(m: Maps, steps: seq<Step>, path: Path)
    ensures Owner(Run(m, steps), path) == LastOwner(m, steps, path)
    decreases |steps|
  {
    if |steps| > 0 {
      var before, s := steps[..|steps| - 1], steps[|steps| - 1];
      RunOwner(m, before, path);
      Snoc(steps);
      RunSnoc(m, before, s);
      if s.Set? || s.Delete? {
        RunBinding(m, before, s.id);
      }
    }
  }

  /** With other threads' steps between the deletion and the new binding, the rename takes effect, in both maps, if
      and only if those steps leave the id unbound, or bound to the very path it is to get, with that path leading to
      it. The old path is unknown afterwards if and only if those steps leave it so and it is not the new one. */
  lemma InterruptedRename(m: Maps, id: Id, was: Path, now: Path, between: seq<Step>)
    ensures var m0 := DeletePath(m, id);
            var m' := SetPath(Run(m0, between), id, now);
            var bound := LastBinding(None, between, id);
            && (Binding(m', id) == Some(now) && Owner(m', now) == Some(id)
                <==> bound == None || (bound == Some(now) && LastOwner(m0, between, now) == Some(id)))
            && (Owner(m', was) == None <==> LastOwner(m0, between, was) == None && !(bound == None && was == now))
  {
    var m0 := DeletePath(m, id);
    RunBinding(m0, between, id);
    RunOwner(m0, between, now);
    RunOwner(m0, between, was);
  }

  /** An id bound to the new path in between is not enough: another id may get that path after it. */
  lemma RenameShadowed(m: Maps, id: Id, other: Id, now: Path)
    requires id in m.id2Path && other !in m.id2Path
    ensures var m' := SetPath(Run(DeletePath(m, id), [Set(id, now), Set(other, now)]), id, now);
            Binding(m', id) == Some(now) && Owner(m', now) == Some(other)
  {
    var m0 := DeletePath(m, id);
    var m1 := Do(m0, Set(id, now));
    assert [Set(id, now), Set(other, now)][1..] == [Set(other, now)];
    assert Run(m1, [Set(other, now)]) == Run(Do(m1, Set(other, now)), []);
  }

  /** The crawler binding the old path again in that window undoes the rename for good. */
  lemma RenameLost(m: Maps, id: Id, now: Path)
    requires Consistent(m) && id in m.id2Path && m.id2Path[id] != now
    ensures var was := m.id2Path[id];
            GetPath(SetPath(Run(DeletePath(m, id), [Set(id, was)]), id, now), id) == was
  {
    var was := m.id2Path[id];
    var m1 := DeletePath(m, id);
    assert Run(m1, [Set(id, was)]) == Run(Do(m1, Set(id, was)), []);
  }
}
