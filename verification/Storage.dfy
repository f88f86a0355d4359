/** HandlerStorage: the shared maps, each method run under the lock. */
module Storage {
  import opened PathMaps

  class HandlerStorage {
    var id2Path: map<Id, Path>
    var path2Id: map<Path, Id>

    ghost function State(): Maps
      reads this
    {
      Maps(id2Path, path2Id)
    }

    constructor ()
      ensures State() == EmptyMaps
    {
      id2Path, path2Id := map[], map[];
    }

    method GetPath(id: Id) returns (path: Path)
      ensures path == PathMaps.GetPath(State(), id)
    {
      path := if id in id2Path then id2Path[id] else "";
    }

    method GetId(path: Path) returns (id: Id)
      ensures id == PathMaps.GetId(State(), path)
    {
      id := if path in path2Id then path2Id[path] else "";
    }

    method SetPath(id: Id, path: Path)
      modifies this
      ensures State() == PathMaps.SetPath(old(State()), id, path)
    {
      if id !in id2Path {
        id2Path := id2Path[id := path];
        path2Id := path2Id[path := id];
      }
    }

    method DeletePath(id: Id)
      modifies this
      ensures State() == PathMaps.DeletePath(old(State()), id)
    {
      if id in id2Path {
        path2Id := path2Id - {id2Path[id]};
        id2Path := id2Path - {id};
      }
    }

    /** The rename branch of storeNfs3Message, run without interference. */
    method Rename(fromDir: Id, name: string, toDir: Id, newName: string)
      modifies this
      ensures State() == PathMaps.Rename(old(State()), fromDir, name, toDir, newName)
    {
      var fromPath := GetPath(fromDir);
      var toPath := GetPath(toDir);
      if fromPath != "" && toPath != "" {
        var id := GetId(fromPath + "/" + name);
        if id == "" {
          id := GetId(fromDir + "/" + name);
        }
        if id != "" {
          DeletePath(id);
          SetPath(id, toPath + "/" + newName);
        }
      }
    }

    /** What a LOOKUP, CREATE or MKDIR reply teaches: the path of the new handle under its parent. */
    method Learn(parent: Id, name: string, id: Id)
      modifies this
      ensures State() == PathMaps.Learn(old(State()), parent, name, id)
    {
      var dir := GetPath(parent);
      if |dir| > 0 {
        SetPath(id, dir + "/" + name);
      } else {
        SetPath(id, parent + "/" + name);
      }
    }
  }
}
