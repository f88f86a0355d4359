/** The server thread's index of requests: clients hold files, files hold a queue for each procedure. */
module Clients {
  import opened Ints
  import opened PathMaps
  import opened Procs
  import opened Requests
  import opened Storage

  /** A request. `kind` says which subclass of the program's BaseObject it belongs to. */
  class BaseObject {
    const kind: Kind
    const parentId: Id
    const name: string
    var isExUnswer: bool
    var countBytes: nat
    /** Whose request it is, its transaction, which of all the requests, and the path its handle had when it came. */
    ghost const hosts: set<string>
    ghost const xid: u32
    ghost const serial: nat
    ghost const pathThen: Path

    constructor (kind: Kind, parentId: Id, name: string, count: nat, ghost hosts: set<string>, ghost xid: u32,
                 ghost serial: nat, ghost pathThen: Path)
      ensures this.kind == kind && this.parentId == parentId && this.name == name
      ensures this.hosts == hosts && this.xid == xid && this.serial == serial && this.pathThen == pathThen
      ensures !isExUnswer && countBytes == count
    {
      this.kind, this.parentId, this.name := kind, parentId, name;
      this.hosts, this.xid, this.serial, this.pathThen := hosts, xid, serial, pathThen;
      isExUnswer, countBytes := false, count;
    }
  }

  // ---------------------------------------------------------------- which requests belong where

  datatype Group = OfHosts(hosts: set<string>) | OfHandle(id: Id) | OfProc(proc: u32)

  ghost predicate Belongs(o: BaseObject, g: Group) {
    match g
    case OfHosts(hosts) => o.hosts == hosts
    case OfHandle(id) => o.parentId == id
    case OfProc(proc) => ProcOf(o.kind) == proc
  }

  /** Those of the requests, in order. */
  ghost function Where(objs: seq<BaseObject>, g: Group): (r: seq<BaseObject>) {
    if objs == [] then []
    else
      var o := objs[|objs| - 1];
      Where(objs[..|objs| - 1], g) + (if Belongs(o, g) then [o] else [])
  }

  lemma WhereLast(objs: seq<BaseObject>, o: BaseObject, g: Group)
    ensures Where(objs + [o], g) == if Belongs(o, g) then Where(objs, g) + [o] else Where(objs, g)
  {
    assert (objs + [o])[..|objs|] == objs;
  }

  lemma {:induction false} WhereMembers(objs: seq<BaseObject>, g: Group)
    ensures var r := Where(objs, g); forall i :: 0 <= i < |r| ==> r[i] in objs && Belongs(r[i], g)
  {
    if objs != [] {
      var init, r := objs[..|objs| - 1], Where(objs, g);
      WhereMembers(init, g);
      forall i | 0 <= i < |r|
        ensures r[i] in objs && Belongs(r[i], g)
      {
        if i < |Where(init, g)| {
          assert r[i] == Where(init, g)[i];
        }
      }
    }
  }

  lemma {:induction false} WhereFrom(objs: seq<BaseObject>, g: Group, i: nat) returns (j: nat)
    requires i < |Where(objs, g)|
    ensures j < |objs| && objs[j] == Where(objs, g)[i]
  {
    var n := |objs| - 1;
    if i < |Where(objs[..n], g)| {
      j := WhereFrom(objs[..n], g, i);
    } else {
      j := n;
    }
  }

  lemma {:induction false} WhereNone(objs: seq<BaseObject>, g: Group)
    requires forall i :: 0 <= i < |objs| ==> !Belongs(objs[i], g)
    ensures Where(objs, g) == []
  {
    if objs != [] {
      WhereNone(objs[..|objs| - 1], g);
    }
  }

  /** A request's bytes, as the log has them. */
  ghost function BytesOf(o: BaseObject, log: seq<Request>): nat {
    if o.serial < |log| then log[o.serial].bytes else 0
  }

  /** The log is right about these requests. */
  ghost predicate Logged(objs: seq<BaseObject>, log: seq<Request>)
    reads objs
  {
    forall i :: 0 <= i < |objs| ==> objs[i].countBytes == BytesOf(objs[i], log)
  }

  ghost function Weigh(objs: seq<BaseObject>, log: seq<Request>): Totals {
    if objs == [] then Nothing
    else Plus(Totals(1, BytesOf(objs[0], log)), Weigh(objs[1..], log))
  }

  lemma {:induction false} WeighLast(objs: seq<BaseObject>, o: BaseObject, log: seq<Request>)
    ensures Weigh(objs + [o], log) == Plus(Weigh(objs, log), Totals(1, BytesOf(o, log)))
  {
    if objs == [] {
      assert objs + [o] == [o];
    } else {
      assert (objs + [o])[1..] == objs[1..] + [o];
      WeighLast(objs[1..], o, log);
    }
  }

  lemma WeighNext(objs: seq<BaseObject>, i: nat, log: seq<Request>)
    requires i < |objs|
    ensures Weigh(objs[i..], log) == Plus(Totals(1, BytesOf(objs[i], log)), Weigh(objs[i + 1..], log))
  {
    assert objs[i..][1..] == objs[i + 1..];
  }

  lemma LoggedWhere(objs: seq<BaseObject>, g: Group, log: seq<Request>)
    requires Logged(objs, log)
    ensures Logged(Where(objs, g), log)
  {
    var q := Where(objs, g);
    forall i | 0 <= i < |q|
      ensures q[i].countBytes == BytesOf(q[i], log)
    {
      var j := WhereFrom(objs, g, i);
      assert objs[j].countBytes == BytesOf(objs[j], log);
    }
  }

  /** How many of the requests are of a procedure, and their bytes. */
  ghost function Sum(objs: seq<BaseObject>, log: seq<Request>, proc: u32): Totals {
    Weigh(Where(objs, OfProc(proc)), log)
  }

  /** The same of a handle and a procedure. */
  ghost function SumAt(objs: seq<BaseObject>, log: seq<Request>, id: Id, proc: u32): Totals {
    Sum(Where(objs, OfHandle(id)), log, proc)
  }

  // ---------------------------------------------------------------- files

  /** A line of a report: the bytes are printed for reads and writes only. */
  datatype Line = Line(name: string, requests: int, bytes: Option<int>)

  function LineOf(name: string, requests: int, countBytes: int): Line {
    Line(name, requests, if name == "Write" || name == "Read" then Some(countBytes) else None)
  }

  /** Bytes are printed for READ and WRITE only. */
  lemma BytesPrinted(proc: u32, requests: int, countBytes: int)
    ensures LineOf(NameFor(proc), requests, countBytes).bytes == if proc in {6, 7} then Some(countBytes) else None
  {
  }

  /** No two kinds of request are printed under the same name. */
  lemma NamesDiffer(a: Kind, b: Kind)
    requires KindName(a) == KindName(b)
    ensures a == b
  {
  }

  function AddLine(lines: map<u32, Line>, proc: u32, t: Totals): map<u32, Line> {
    if t.requests == 0 then lines else lines[proc := LineOf(NameFor(proc), t.requests, t.bytes)]
  }

  /** The lines say this about a procedure: nothing if there was no request. */
  predicate LineSays(lines: map<u32, Line>, proc: u32, t: Totals) {
    if t.requests == 0 then proc !in lines
    else proc in lines && lines[proc] == LineOf(NameFor(proc), t.requests, t.bytes)
  }

  datatype FileReport = FileReport(path: Path, id: Id, lines: map<u32, Line>)

  class FileObject {
    const fileId: Id
    ghost const owner: ClientObject
    var path: Path
    var m_nfs_objects: map<u32, seq<BaseObject>>
    /** Every request added, in order. */
    ghost var held: seq<BaseObject>

    ghost function QueueOf(proc: u32): seq<BaseObject>
      reads this
    {
      if proc in m_nfs_objects then m_nfs_objects[proc] else []
    }

    ghost predicate Valid()
      reads this
    {
      forall proc :: QueueOf(proc) == Where(held, OfProc(proc))
    }

    constructor (id: Id, path: Path, ghost owner: ClientObject)
      ensures fileId == id && this.path == path && this.owner == owner
      ensures held == [] && Valid()
    {
      fileId, this.path, this.owner := id, path, owner;
      m_nfs_objects, held := map[], [];
    }

    /** Its path is the one that its handle had when the first request came. */
    ghost predicate Titled()
      reads this
    {
      held != [] && path == held[0].pathThen
    }

    method AddObject(id: u32, obj: BaseObject)
      requires Valid() && ProcOf(obj.kind) == id && if held == [] then path == obj.pathThen else Titled()
      modifies this`m_nfs_objects, this`held
      ensures Valid() && held == old(held) + [obj] && Titled()
    {
      var list := if id in m_nfs_objects then m_nfs_objects[id] else [];
      m_nfs_objects := m_nfs_objects[id := list + [obj]];
      held := held + [obj];
      forall proc
        ensures QueueOf(proc) == Where(held, OfProc(proc))
      {
        assert old(QueueOf(proc)) == Where(old(held), OfProc(proc));
        WhereLast(old(held), obj, OfProc(proc));
      }
    }

    /** Empty one queue, adding up. */
    method Drain(proc: u32, ghost q: seq<BaseObject>, ghost log: seq<Request>)
      returns (name: string, count: nat, countBytes: nat)
      requires proc in m_nfs_objects && m_nfs_objects[proc] == q
      requires Logged(q, log) && forall i :: 0 <= i < |q| ==> ProcOf(q[i].kind) == proc
      modifies this`m_nfs_objects
      ensures count == Weigh(q, log).requests && countBytes == Weigh(q, log).bytes
              && (count > 0 ==> name == NameFor(proc))
      ensures m_nfs_objects == old(m_nfs_objects)[proc := []]
    {
      name, count, countBytes := "", 0, 0;
      while m_nfs_objects[proc] != []
        invariant count <= |q| && m_nfs_objects == old(m_nfs_objects)[proc := q[count..]]
        invariant Balance(Totals(count, countBytes), Weigh(q[count..], log), Nothing, Weigh(q, log))
        invariant count > 0 ==> name == NameFor(proc)
        decreases |q| - count
      {
        var objects := m_nfs_objects[proc];
        var ob := objects[0];
        WeighNext(q, count, log);
        KindForProc(ob.kind);
        name := KindName(ob.kind);
        countBytes := countBytes + ob.countBytes;
        m_nfs_objects := m_nfs_objects[proc := objects[1..]];
        count := count + 1;
      }
    }

    /** One queue's line of a report. */
    method PrintQueue(lines: map<u32, Line>, proc: u32, ghost log: seq<Request>) returns (more: map<u32, Line>)
      requires proc in m_nfs_objects && m_nfs_objects[proc] == Where(held, OfProc(proc)) && Logged(held, log)
      modifies this`m_nfs_objects
      ensures m_nfs_objects == old(m_nfs_objects)[proc := []]
      ensures more == AddLine(lines, proc, Sum(held, log, proc))
    {
      WhereMembers(held, OfProc(proc));
      LoggedWhere(held, OfProc(proc), log);
      var name, count, countBytes := Drain(proc, m_nfs_objects[proc], log);
      more := if count > 0 then lines[proc := LineOf(name, count, countBytes)] else lines;
    }

    /** The queues not in `todo` are printed, the others are as they were. */
    ghost predicate Halfway(lines: map<u32, Line>, todo: set<u32>, log: seq<Request>)
      reads this
    {
      && todo <= m_nfs_objects.Keys
      && (forall proc :: proc in todo ==> m_nfs_objects[proc] == Where(held, OfProc(proc)) && proc !in lines)
      && (forall proc :: proc !in todo ==> LineSays(lines, proc, Sum(held, log, proc)))
    }

    method PrintNext(lines: map<u32, Line>, todo: set<u32>, proc: u32, ghost log: seq<Request>)
      returns (more: map<u32, Line>)
      requires Halfway(lines, todo, log) && proc in todo && Logged(held, log)
      modifies this`m_nfs_objects
      ensures Halfway(more, todo - {proc}, log)
    {
      more := PrintQueue(lines, proc, log);
    }

    /** The file's lines of a report. All queues are emptied. */
    method PrintQueues(ghost log: seq<Request>) returns (lines: map<u32, Line>)
      requires Valid() && Logged(held, log)
      modifies this`m_nfs_objects
      ensures forall proc :: LineSays(lines, proc, Sum(held, log, proc))
    {
      lines := map[];
      var todo := m_nfs_objects.Keys;
      NoQueueNoLine(log);
      while todo != {}
        invariant Halfway(lines, todo, log)
        decreases |todo|
      {
        var proc :| proc in todo;
        lines := PrintNext(lines, todo, proc, log);
        todo := todo - {proc};
      }
    }

    lemma NoQueueNoLine(log: seq<Request>)
      requires Valid()
      ensures forall proc :: if proc in m_nfs_objects then m_nfs_objects[proc] == Where(held, OfProc(proc))
                             else Sum(held, log, proc) == Nothing
    {
      forall proc
        ensures if proc in m_nfs_objects then m_nfs_objects[proc] == Where(held, OfProc(proc))
                else Sum(held, log, proc) == Nothing
      {
        assert QueueOf(proc) == Where(held, OfProc(proc));
      }
    }

    /** The file's part of a report. */
    method GenerateReport(storage: HandlerStorage, ghost log: seq<Request>) returns (report: FileReport)
      requires Valid() && Logged(held, log)
      modifies this`path, this`m_nfs_objects
      ensures report.id == fileId && forall proc :: LineSays(report.lines, proc, Sum(held, log, proc))
      ensures report.path == if old(path) == "" then GetPath(storage.State(), fileId) else old(path)
    {
      if path == "" {
        path := storage.GetPath(fileId);
      }
      var lines := PrintQueues(log);
      report := FileReport(path, fileId, lines);
    }
  }

  // ---------------------------------------------------------------- clients

  datatype ClientReport = ClientReport(srcAddr: string, dstAddr: string, files: map<Id, FileReport>)

  /** A client's files say this about a handle and a procedure. */
  predicate FileTells(files: map<Id, FileReport>, id: Id, proc: u32, t: Totals) {
    if id in files then LineSays(files[id].lines, proc, t) else t == Nothing
  }

  /** They say what these requests and the log say. */
  ghost predicate FileSays(files: map<Id, FileReport>, id: Id, held: seq<BaseObject>, log: seq<Request>) {
    forall proc :: FileTells(files, id, proc, SumAt(held, log, id, proc))
  }

  /** The path that a report gives a file: the one it had when its first request came, or else the one it has now. */
  function ReportPath(first: Path, now: Path): Path {
    if first == "" then now else first
  }

  /** Exactly the handles that were asked about have a file in the report, under their own id, with that path. */
  ghost predicate Titled(files: map<Id, FileReport>, id: Id, held: seq<BaseObject>, now: Maps) {
    var objs := Where(held, OfHandle(id));
    && (id in files <==> objs != [])
    && (id in files ==>
          files[id].id == id && objs != [] && files[id].path == ReportPath(objs[0].pathThen, GetPath(now, id)))
  }

  ghost predicate AllTitled(files: map<Id, FileReport>, held: seq<BaseObject>, now: Maps) {
    forall id :: Titled(files, id, held, now)
  }

  /** A client's part of a report is about these hosts, and says what these requests and the log say. */
  ghost predicate ClientSays(r: ClientReport, hosts: set<string>, held: seq<BaseObject>, log: seq<Request>, now: Maps) {
    && {r.srcAddr, r.dstAddr} == hosts && (forall id :: FileSays(r.files, id, held, log))
    && AllTitled(r.files, held, now)
  }

  class ClientObject {
    const srcAddr: string
    const dstAddr: string
    /** The same as an unordered pair. */
    ghost const hosts: set<string>
    var files: map<Id, FileObject>
    var active_object: map<u32, BaseObject>
    /** Every request added, in order. */
    ghost var held: seq<BaseObject>

    ghost predicate FileAt(id: Id)
      requires id in files
      reads this, files.Values
    {
      var f := files[id];
      && f.fileId == id && f.owner == this && f.Valid() && f.held == Where(held, OfHandle(id))
      && f.Titled()
    }

    ghost predicate Valid()
      reads this, files.Values
    {
      && (forall id :: id in files ==> FileAt(id))
      && (forall i :: 0 <= i < |held| ==> held[i].parentId in files && held[i].hosts == hosts)
      && (forall proc :: proc in active_object ==>
            active_object[proc] in held && ProcOf(active_object[proc].kind) == proc)
    }

    constructor (srcAddr: string, dstAddr: string)
      ensures this.srcAddr == srcAddr && this.dstAddr == dstAddr && hosts == {srcAddr, dstAddr}
      ensures files == map[] && active_object == map[] && held == [] && Valid()
    {
      this.srcAddr, this.dstAddr, hosts := srcAddr, dstAddr, {srcAddr, dstAddr};
      files, active_object, held := map[], map[], [];
    }

    /** Take the request out of a procedure's slot. */
    method GetActiveObject(id: u32) returns (obj: BaseObject?)
      modifies this`active_object
      ensures obj == if id in old(active_object) then old(active_object[id]) else null
      ensures active_object == old(active_object) - {id} && (id !in old(active_object) ==> unchanged(this))
    {
      obj := null;
      if id in active_object {
        obj := active_object[id];
        active_object := active_object - {id};
      }
    }

    method SetActiveObject(id: u32, obj: BaseObject)
      modifies this`active_object
      ensures active_object == old(active_object)[id := obj]
    {
      active_object := active_object[id := obj];
    }

    /** The file of a handle, made with its current path if there is none. */
    method GetFileObject(id: Id, storage: HandlerStorage) returns (f: FileObject)
      requires Valid()
      modifies this`files
      ensures id in files && files[id] == f && f.fileId == id && f.owner == this && f.Valid()
      ensures f.held == Where(held, OfHandle(id))
      ensures if id in old(files) then files == old(files) else fresh(f) && files == old(files)[id := f]
      ensures if f.held == [] then f.path == GetPath(storage.State(), id) else f.Titled()
      ensures forall k :: k in files && k != id ==> k in old(files) && files[k] == old(files[k]) && files[k] != f
      ensures fresh(files.Values - old(files.Values))
    {
      if id in files {
        f := files[id];
        assert forall k :: k in files ==> FileAt(k);
      } else {
        var path := storage.GetPath(id);
        f := new FileObject(id, path, this);
        WhereNone(held, OfHandle(id));
        files := files[id := f];
      }
    }

    /** Between two states, a request was queued in a file. */
    twostate predicate Queued(new f: FileObject, new obj: BaseObject)
      reads this, files.Values
    {
      && old(Valid()) && obj.hosts == hosts && held == old(held) + [obj] && active_object == old(active_object)
      && obj.parentId in files && files[obj.parentId] == f && f.fileId == obj.parentId && f.owner == this
      && f.Valid() && f.held == Where(old(held), OfHandle(obj.parentId)) + [obj] && f.Titled()
      && (forall id :: id in files && id != obj.parentId ==>
            id in old(files) && files[id] == old(files[id]) && unchanged(files[id]))
      && old(files.Keys) <= files.Keys
    }

    twostate lemma QueuedValid(new f: FileObject, new obj: BaseObject)
      requires Queued(f, obj)
      ensures Valid()
    {
      forall id | id in files
        ensures FileAt(id)
      {
        WhereLast(old(held), obj, OfHandle(id));
        assert id != obj.parentId ==> old(FileAt(id));
      }
    }

    /** Queue a new request in its file. */
    method QueueRequest(key: u32, obj: BaseObject, storage: HandlerStorage) returns (ghost f: FileObject)
      requires Valid() && obj.hosts == hosts && ProcOf(obj.kind) == key
      requires obj.pathThen == GetPath(storage.State(), obj.parentId)
      modifies this`files, this`held, files.Values
      ensures Queued(f, obj)
      ensures fresh(files.Values - old(files.Values))
    {
      var file := GetFileObject(obj.parentId, storage);
      file.AddObject(key, obj);
      Hold(obj);
      f := file;
    }

    ghost method Hold(obj: BaseObject)
      modifies this`held
      ensures held == old(held) + [obj]
    {
      held := held + [obj];
    }

    /** What each branch of storeNfs3Message does with a new request: queue it in its file, and put it in its slot, both
        under the branch's own key. */
    method AddRequest(key: u32, obj: BaseObject, storage: HandlerStorage)
      requires Valid() && obj.hosts == hosts && ProcOf(obj.kind) == key
      requires obj.pathThen == GetPath(storage.State(), obj.parentId)
      modifies this, files.Values
      ensures Valid() && held == old(held) + [obj]
      ensures active_object == old(active_object)[key := obj]
      ensures fresh(files.Values - old(files.Values))
    {
      ghost var f := QueueRequest(key, obj, storage);
      QueuedValid(f, obj);
      label Queued:
      SetActiveObject(key, obj);
      SlotValid@Queued(key, obj);
    }

    twostate lemma SlotValid(new key: u32, new obj: BaseObject)
      requires old(Valid()) && files == old(files) && held == old(held) && obj in held && ProcOf(obj.kind) == key
      requires active_object == old(active_object)[key := obj]
      requires forall id :: id in files ==> unchanged(files[id])
      ensures Valid()
    {
      forall id | id in files
        ensures FileAt(id)
      {
        assert old(FileAt(id));
      }
    }

    /** The files not in `todo` are printed, under their ids and paths; the others are as they were. */
    ghost predicate Halfway(parts: map<Id, FileReport>, todo: set<Id>, now: Maps, log: seq<Request>)
      reads this, files.Values
    {
      && todo <= files.Keys
      && (forall id :: id in todo ==> FileAt(id))
      && (forall id :: id !in todo ==> FileSays(parts, id, held, log) && Titled(parts, id, held, now))
    }

    /** The client's part of a report. It has no files afterwards. */
    method GenerateReport(storage: HandlerStorage, ghost log: seq<Request>) returns (report: ClientReport)
      requires Valid() && Logged(held, log)
      modifies this`files, files.Values
      ensures report.srcAddr == srcAddr && report.dstAddr == dstAddr && files == map[]
      ensures forall id :: FileSays(report.files, id, held, log)
      ensures AllTitled(report.files, held, storage.State())
    {
      var parts := map[];
      var todo := files.Keys;
      NoFileNoRequest(storage.State(), log);
      while todo != {}
        invariant files == old(files) && Halfway(parts, todo, storage.State(), log)
        decreases |todo|
      {
        var id :| id in todo;
        parts := PrintNext(parts, todo, id, storage, log);
        todo := todo - {id};
      }
      report := ClientReport(srcAddr, dstAddr, parts);
      files := map[];
    }

    method PrintNext(parts: map<Id, FileReport>, todo: set<Id>, id: Id, storage: HandlerStorage,
                     ghost log: seq<Request>)
      returns (more: map<Id, FileReport>)
      requires Halfway(parts, todo, storage.State(), log) && id in todo && Logged(held, log)
      modifies files[id]
      ensures Halfway(more, todo - {id}, storage.State(), log)
    {
      var part := PrintFile(id, storage, log);
      more := parts[id := part];
    }

    method PrintFile(id: Id, storage: HandlerStorage, ghost log: seq<Request>) returns (part: FileReport)
      requires id in files && FileAt(id) && Logged(held, log)
      modifies files[id]
      ensures forall proc :: LineSays(part.lines, proc, SumAt(held, log, id, proc))
      ensures var objs := Where(held, OfHandle(id));
              && objs != [] && part.id == id
              && part.path == ReportPath(objs[0].pathThen, GetPath(storage.State(), id))
    {
      LoggedWhere(held, OfHandle(id), log);
      var f := files[id];
      part := f.GenerateReport(storage, log);
      assert forall proc :: SumAt(held, log, id, proc) == Sum(f.held, log, proc);
    }

    lemma NoFileNoRequest(now: Maps, log: seq<Request>)
      requires Valid()
      ensures forall id :: id !in files ==> FileSays(map[], id, held, log) && Titled(map[], id, held, now)
    {
      forall id | id !in files
        ensures Where(held, OfHandle(id)) == []
      {
        WhereNone(held, OfHandle(id));
      }
    }
  }
}
