/** ServerThread: files the requests it sees under client, file and procedure, matches replies, and prints reports. */
module Server {
  import opened Ints
  import opened Rpc
  import opened Capture
  import opened Keys
  import opened PathMaps
  import opened Procs
  import opened Requests
  import opened Skips
  import opened Storage
  import opened Clients
  import opened Calls
  import opened Codecs
  import opened Nfs3

  /** Which request an object is. */
  ghost function SlotOfObject(o: BaseObject): Slot {
    Slot(o.hosts, o.parentId, ProcOf(o.kind))
  }

  /** What its call was kept as. */
  ghost function OriginOf(o: BaseObject): Origin {
    Origin(o.kind, o.name, o.xid)
  }

  /** A request after its slot was read. */
  function Changed(r: Request, answered: bool, count: nat): Request {
    Request(r.slot, r.origin, answered, r.bytes + count)
  }

  const NFS3_OK: u32 := 0

  function LaneOfRecord(r: Record): Lane {
    Lane({GetStringIp(r.srcHost), GetStringIp(r.dstHost)}, r.proc)
  }

  /** What a packet off the queue means for the log. */
  function PacketEvent(q: Queued, cursor: nat): Requests.Event {
    var r := q.record;
    if r.version != 3 then Ignore
    else if r.call == CALL then
      EventOf({GetStringIp(r.srcHost), GetStringIp(r.dstHost)}, r.xid, DecodeCall(r.proc, q.data, cursor))
    else Requests.Reply(LaneOfRecord(r), r.xid)
  }

  /** The directory handle and the name of the request in a slot. */
  function Asking(m: State, l: Lane): Asked {
    if l in m.active && m.active[l] < |m.log| then
      Some((m.log[m.active[l]].slot.handle, m.log[m.active[l]].origin.name))
    else None
  }

  /** A slot was read, and its request changed. */
  ghost predicate Took(m: State, m': State, l: Lane, answered: bool, count: nat) {
    l in m.active && m.active[l] < |m.log| && m' == StepTake(m, l, Changed(m.log[m.active[l]], answered, count))
  }

  lemma TookStray(m: State, m': State, hosts: set<string>, count: u32)
    requires Inv(m) && Took(m, m', Lane(hosts, NFSPROC3_WRITE), false, count)
    ensures m' == Requests.Step(m, StrayCount(hosts, count))
  {
    var l := Lane(hosts, NFSPROC3_WRITE);
    assert IsActive(m, l, m.active[l]);
  }

  class ServerThread {
    const storage: HandlerStorage
    var clients: map<string, ClientObject>
    var number_out: nat
    /** The log of all requests, as objects and as values, and the key of each pair of hosts that has a client. */
    ghost var objects: seq<BaseObject>
    ghost var state: State
    ghost var keyOf: map<set<string>, string>
    ghost var repr: set<object>

    /** An object is the request that the log says. */
    ghost predicate ObjectAt(i: nat)
      requires i < |objects| && i < |state.log|
      reads `clients, `objects, `state, `keyOf, `repr, repr
    {
      var o := objects[i];
      o in repr && o.serial == i
      && state.log[i] == Request(SlotOfObject(o), OriginOf(o), o.isExUnswer, o.countBytes)
    }

    /** A client is filed under the hosts it belongs to and holds their requests. */
    ghost predicate ClientAt(k: string)
      requires k in clients
      reads `clients, `objects, `state, `keyOf, `repr, repr
    {
      var c := clients[k];
      && c in repr && c.files.Values <= repr && c.Valid()
      && k == PairKey(c.dstAddr, c.srcAddr) && c.hosts == {c.srcAddr, c.dstAddr}
      && Without(c.srcAddr, '/') && Without(c.dstAddr, '/')
      && c.hosts in keyOf && keyOf[c.hosts] == k
      && state.drained <= |objects| && c.held == Where(objects[state.drained..], OfHosts(c.hosts))
    }

    /** What the nested index has in a slot. */
    ghost function InSlot(l: Lane): BaseObject?
      reads `clients, `objects, `state, `keyOf, `repr, repr
    {
      if l.hosts in keyOf && keyOf[l.hosts] in clients && clients[keyOf[l.hosts]] in repr
         && l.proc in clients[keyOf[l.hosts]].active_object
      then clients[keyOf[l.hosts]].active_object[l.proc]
      else null
    }

    /** What the flat log has. */
    ghost function Expected(l: Lane): BaseObject?
      reads `objects, `state
    {
      if l in state.active && state.active[l] < |objects| then objects[state.active[l]] else null
    }

    /** The path that the handle of each request had when the request came. */
    ghost function Thens(): (ps: seq<Path>)
      reads `objects
      ensures |ps| == |objects|
    {
      ThensOf(objects)
    }

    /** What the server knows. */
    ghost function Now(): World
      reads `state, `objects, `keyOf, storage
    {
      World(state, Thens(), storage.State(), keyOf)
    }

    twostate lemma OneMoreThen(new obj: BaseObject)
      requires objects == old(objects) + [obj]
      ensures Thens() == old(Thens()) + [obj.pathThen]
    {
    }

    /** The nested index agrees with the flat log. */
    ghost predicate Valid()
      reads `clients, `objects, `state, `keyOf, `repr, repr
    {
      && this !in repr && storage !in repr && Inv(state) && |objects| == |state.log|
      && (forall i :: 0 <= i < |objects| ==> ObjectAt(i))
      && (forall k :: k in clients ==> ClientAt(k))
      && (forall h :: h in keyOf ==> keyOf[h] in clients && clients[keyOf[h]].hosts == h)
      && (forall i :: state.drained <= i < |objects| ==> objects[i].hosts in keyOf)
      && (forall l :: InSlot(l) == Expected(l))
    }

    constructor (storage: HandlerStorage)
      ensures this.storage == storage && clients == map[] && state == Start && Valid() && fresh(repr)
    {
      this.storage := storage;
      clients, number_out := map[], 0;
      objects, state, keyOf, repr := [], Start, map[], {};
    }

    lemma KeyBelongs(key: string, src: string, dst: string)
      requires Valid() && key in clients && Without(src, '/') && Without(dst, '/')
      requires key == PairKey(src, dst) || key == PairKey(dst, src)
      ensures clients[key].hosts == {src, dst} && keyOf[{src, dst}] == key
    {
      assert ClientAt(key);
      var c := clients[key];
      if key == PairKey(src, dst) {
        PairKeySplits(src, dst, c.dstAddr, c.srcAddr);
      } else {
        PairKeySplits(dst, src, c.dstAddr, c.srcAddr);
      }
    }

    lemma HostsHaveKey(src: string, dst: string)
      requires Valid() && {src, dst} in keyOf
      ensures var k := keyOf[{src, dst}]; k in clients && (k == PairKey(src, dst) || k == PairKey(dst, src))
    {
      var k := keyOf[{src, dst}];
      assert ClientAt(k);
      SamePair(clients[k].srcAddr, clients[k].dstAddr, src, dst);
    }

    /** getClient: the one client of two hosts, in whichever direction they talk. */
    method GetClient(srcAddr: string, dstAddr: string) returns (c: ClientObject)
      requires Valid() && Without(srcAddr, '/') && Without(dstAddr, '/')
      modifies this`clients, this`keyOf, this`repr
      ensures Valid() && IsClientOf(c, c.hosts) && c.hosts == {srcAddr, dstAddr}
      ensures fresh(repr - old(repr)) && old(repr) <= repr
      ensures {srcAddr, dstAddr} in old(keyOf) ==> clients == old(clients)
      ensures keyOf == WithClient(old(keyOf), srcAddr, dstAddr)
    {
      var key := PairKey(srcAddr, dstAddr);
      if key !in clients {
        key := PairKey(dstAddr, srcAddr);
      }
      if {srcAddr, dstAddr} in keyOf {
        HostsHaveKey(srcAddr, dstAddr);
      }
      if key in clients {
        KeyBelongs(key, srcAddr, dstAddr);
        c := clients[key];
        assert ClientAt(key);
      } else {
        c := NewClient(key, srcAddr, dstAddr);
      }
    }

    ghost predicate IsClientOf(c: ClientObject, hosts: set<string>)
      reads this
    {
      hosts in keyOf && keyOf[hosts] in clients && clients[keyOf[hosts]] == c
    }

    method NewClient(key: string, srcAddr: string, dstAddr: string) returns (c: ClientObject)
      requires Valid() && key !in clients && key == PairKey(dstAddr, srcAddr) && {srcAddr, dstAddr} !in keyOf
      requires Without(srcAddr, '/') && Without(dstAddr, '/')
      modifies this`clients, this`keyOf, this`repr
      ensures Valid() && IsClientOf(c, c.hosts) && c.hosts == {srcAddr, dstAddr}
      ensures fresh(repr - old(repr)) && old(repr) <= repr && keyOf == old(keyOf)[{srcAddr, dstAddr} := key]
    {
      c := new ClientObject(srcAddr, dstAddr);
      clients := clients[key := c];
      keyOf := keyOf[c.hosts := key];
      repr := repr + {c};
      AddedValid(c, key);
    }

    twostate lemma AddedValid(new c: ClientObject, key: string)
      requires old(Valid()) && Added(c, key) && this !in repr
      ensures Valid()
    {
      AddedClients(c, key);
      AddedSlots(c, key);
    }

    /** Between two states, an empty client was added. */
    twostate predicate Added(new c: ClientObject, key: string)
      reads this, repr, c
    {
      && clients == old(clients)[key := c] && keyOf == old(keyOf)[c.hosts := key] && repr == old(repr) + {c}
      && objects == old(objects) && state == old(state) && storage !in repr
      && key !in old(clients) && c.hosts !in old(keyOf) && c !in old(repr)
      && c.files == map[] && c.active_object == map[] && c.held == []
      && key == PairKey(c.dstAddr, c.srcAddr) && c.hosts == {c.srcAddr, c.dstAddr}
      && Without(c.srcAddr, '/') && Without(c.dstAddr, '/')
      && (forall o :: o in old(repr) ==> unchanged(o))
    }

    twostate lemma AddedClients(new c: ClientObject, key: string)
      requires old(Valid()) && Added(c, key)
      ensures forall i :: 0 <= i < |objects| ==> ObjectAt(i)
      ensures forall k :: k in clients ==> ClientAt(k)
    {
      forall i | 0 <= i < |objects|
        ensures ObjectAt(i)
      {
        assert old(ObjectAt(i));
      }
      WhereNone(objects[state.drained..], OfHosts(c.hosts));
      forall k | k in clients
        ensures ClientAt(k)
      {
        if k != key {
          assert old(ClientAt(k));
        }
      }
    }

    twostate lemma AddedSlots(new c: ClientObject, key: string)
      requires old(Valid()) && Added(c, key)
      ensures forall l :: InSlot(l) == Expected(l)
    {
      forall l
        ensures InSlot(l) == Expected(l)
      {
        assert old(InSlot(l)) == old(Expected(l));
        if l.hosts == c.hosts {
          assert InSlot(l) == null;
        } else if l.hosts in keyOf {
          assert keyOf[l.hosts] in old(clients) && old(ClientAt(keyOf[l.hosts]));
        } else {
          assert InSlot(l) == null;
        }
      }
    }

    /** Between two states, nothing of the index but one client and its files has changed. */
    twostate predicate OnlyClient(c: ClientObject)
      reads this, repr
    {
      && clients == old(clients) && keyOf == old(keyOf) && old(repr) <= repr
      && old(IsClientOf(c, c.hosts))
      && (forall o :: o in old(repr) && o != c && o !in old(c.files.Values) ==> unchanged(o))
    }

    /** Between two states, a request of this client was filed. */
    twostate predicate Filed(c: ClientObject, new obj: BaseObject)
      reads this, repr, c, c.files.Values, obj
    {
      && OnlyClient(c)
      && objects == old(objects) + [obj] && obj in repr && c.files.Values <= repr && obj.serial == old(|objects|)
      && obj.hosts == c.hosts && !obj.isExUnswer
      && state == StepFile(old(state), SlotOfObject(obj), OriginOf(obj), obj.countBytes)
      && c.Valid() && c.held == old(c.held) + [obj] && c.active_object == old(c.active_object)[ProcOf(obj.kind) := obj]
    }

    twostate lemma FiledObjects(c: ClientObject, new obj: BaseObject)
      requires old(Valid()) && Filed(c, obj)
      ensures |objects| == |state.log| && forall i :: 0 <= i < |objects| ==> ObjectAt(i)
    {
      forall i | 0 <= i < |objects|
        ensures ObjectAt(i)
      {
        if i < |old(objects)| {
          assert old(ObjectAt(i)) && objects[i] == old(objects)[i];
        }
      }
    }

    twostate lemma FiledClients(c: ClientObject, new obj: BaseObject)
      requires old(Valid()) && Filed(c, obj)
      ensures forall k :: k in clients ==> ClientAt(k)
    {
      assert objects[state.drained..] == old(objects[state.drained..]) + [obj];
      forall k | k in clients
        ensures ClientAt(k)
      {
        assert old(ClientAt(k));
        WhereLast(old(objects[state.drained..]), obj, OfHosts(clients[k].hosts));
        if clients[k] != c {
          FiledOther(c, obj, k);
        }
      }
    }

    /** Another client is as it was, but that it does not hold the new request. */
    twostate lemma FiledOther(c: ClientObject, new obj: BaseObject, new k: string)
      requires old(Valid()) && Filed(c, obj) && k in clients && clients[k] != c
      ensures clients[k].hosts != c.hosts && clients[k].Valid() && clients[k].held == old(clients[k].held)
      ensures clients[k].files == old(clients[k].files)
    {
      assert old(ClientAt(k)) && old(ClientAt(keyOf[c.hosts]));
    }

    twostate lemma FiledSlots(c: ClientObject, new obj: BaseObject)
      requires old(Valid()) && Filed(c, obj)
      ensures forall l :: InSlot(l) == Expected(l)
    {
      forall l
        ensures InSlot(l) == Expected(l)
      {
        assert old(InSlot(l)) == old(Expected(l));
        if l.hosts != c.hosts && l.hosts in keyOf {
          assert old(ClientAt(keyOf[l.hosts])) && clients[keyOf[l.hosts]] != c;
        }
      }
    }

    /** A call's branch: make an object of the branch's class, queue it and put it in its slot under the branch's
        key. */
    method FileRequest(c: ClientObject, kind: Kind, key: u32, id: Id, name: string, count: nat, ghost xid: u32)
      requires Valid() && IsClientOf(c, c.hosts) && ProcOf(kind) == key
      modifies this`objects, this`state, this`repr, c, c.files.Values
      ensures Valid() && fresh(repr - old(repr))
      ensures state == StepFile(old(state), Slot(c.hosts, id, key), Origin(kind, name, xid), count)
      ensures Thens() == old(Thens()) + [GetPath(old(storage.State()), id)]
    {
      assert ClientAt(keyOf[c.hosts]);
      var obj := MakeRequest(c, kind, key, id, name, count, xid, GetPath(storage.State(), id));
      FiledValid(c, obj);
      OneMoreThen(obj);
    }

    twostate lemma FiledValid(c: ClientObject, new obj: BaseObject)
      requires old(Valid()) && Filed(c, obj) && this !in repr && storage !in repr
      ensures Valid()
    {
      FileInv(old(state), SlotOfObject(obj), OriginOf(obj), obj.countBytes);
      FiledObjects(c, obj);
      FiledClients(c, obj);
      FiledSlots(c, obj);
    }

    method MakeRequest(c: ClientObject, kind: Kind, key: u32, id: Id, name: string, count: nat, ghost xid: u32,
                       ghost pathThen: Path)
      returns (obj: BaseObject)
      requires pathThen == GetPath(storage.State(), id)
      requires IsClientOf(c, c.hosts) && ClientAt(keyOf[c.hosts]) && this !in repr && ProcOf(kind) == key
      modifies this`objects, this`state, this`repr, c, c.files.Values
      ensures Filed(c, obj) && fresh(repr - old(repr)) && obj.pathThen == pathThen
      ensures state == StepFile(old(state), Slot(c.hosts, id, key), Origin(kind, name, xid), count)
    {
      obj := AddTo(c, kind, key, id, name, count, xid, |objects|, pathThen);
      NoteRequest(c, obj);
    }

    /** The log follows. */
    ghost method NoteRequest(c: ClientObject, obj: BaseObject)
      modifies this`objects, this`state, this`repr
      ensures objects == old(objects) + [obj] && repr == old(repr) + {obj} + c.files.Values
      ensures state == StepFile(old(state), SlotOfObject(obj), OriginOf(obj), obj.countBytes)
    {
      objects := objects + [obj];
      state := StepFile(state, SlotOfObject(obj), OriginOf(obj), obj.countBytes);
      repr := repr + {obj} + c.files.Values;
    }

    method AddTo(c: ClientObject, kind: Kind, key: u32, id: Id, name: string, count: nat, ghost xid: u32,
                 ghost serial: nat, ghost pathThen: Path)
      returns (obj: BaseObject)
      requires c.Valid() && ProcOf(kind) == key && pathThen == GetPath(storage.State(), id)
      modifies c, c.files.Values
      ensures fresh(obj) && fresh(c.files.Values - old(c.files.Values))
      ensures SlotOfObject(obj) == Slot(c.hosts, id, key) && OriginOf(obj) == Origin(kind, name, xid)
      ensures obj.serial == serial && !obj.isExUnswer && obj.countBytes == count
      ensures obj.pathThen == pathThen
      ensures c.Valid() && c.held == old(c.held) + [obj] && c.active_object == old(c.active_object)[key := obj]
    {
      obj := new BaseObject(kind, id, name, count, c.hosts, xid, serial, pathThen);
      c.AddRequest(key, obj, storage);
    }

    /** Between two states, a request was taken off its slot, and is now as the log has it. */
    twostate predicate Taken(c: ClientObject, new obj: BaseObject, new l: Lane)
      reads this, repr, c, obj
    {
      && clients == old(clients) && keyOf == old(keyOf) && objects == old(objects) && repr == old(repr)
      && old(IsClientOf(c, l.hosts)) && c.hosts == l.hosts && obj in repr && c in repr
      && l in old(state.active) && old(state.active[l]) < |objects| == |old(state).log|
      && obj == objects[old(state).active[l]]
      && state == StepTake(old(state), l, Request(SlotOfObject(obj), OriginOf(obj), obj.isExUnswer, obj.countBytes))
      && c.active_object == old(c.active_object) - {l.proc} && c.files == old(c.files) && c.held == old(c.held)
      && (forall o :: o in old(repr) && o != c && o != obj ==> unchanged(o))
    }

    twostate lemma TakenObjects(c: ClientObject, new obj: BaseObject, new l: Lane)
      requires old(Valid()) && Taken(c, obj, l)
      ensures |objects| == |state.log| && forall i :: 0 <= i < |objects| ==> ObjectAt(i)
    {
      assert old(ObjectAt(state.active[l]));
      forall i | 0 <= i < |objects|
        ensures ObjectAt(i)
      {
        assert old(ObjectAt(i));
      }
    }

    twostate lemma TakenClients(c: ClientObject, new obj: BaseObject, new l: Lane)
      requires old(Valid()) && Taken(c, obj, l)
      ensures forall k :: k in clients ==> ClientAt(k)
    {
      forall k | k in clients
        ensures ClientAt(k)
      {
        assert old(ClientAt(k));
        if clients[k] == c {
          TakenValid(c, obj, l, k);
        }
      }
    }

    /** The client whose slot was emptied is still in order: its files and requests are as they were. */
    twostate lemma TakenValid(c: ClientObject, new obj: BaseObject, new l: Lane, new k: string)
      requires Taken(c, obj, l) && k in clients && clients[k] == c && old(ClientAt(k))
      ensures c.Valid()
    {
      forall id | id in c.files
        ensures c.FileAt(id)
      {
        assert old(c.FileAt(id)) && c.files[id] in c.files.Values && c.files[id] in old(repr);
      }
    }

    twostate lemma TakenExpected(c: ClientObject, new obj: BaseObject, new l: Lane, new k: Lane)
      requires Taken(c, obj, l)
      ensures Expected(k) == if k == l then null else old(Expected(k))
    {
    }

    twostate lemma TakenInSlot(c: ClientObject, new obj: BaseObject, new l: Lane, new k: Lane)
      requires old(Valid()) && Taken(c, obj, l)
      ensures InSlot(k) == if k == l then null else old(InSlot(k))
    {
      if k.hosts != l.hosts && k.hosts in keyOf {
        assert old(ClientAt(keyOf[k.hosts])) && clients[keyOf[k.hosts]] != c;
      }
    }

    twostate lemma TakenSlots(c: ClientObject, new obj: BaseObject, new l: Lane)
      requires old(Valid()) && Taken(c, obj, l)
      ensures forall k :: InSlot(k) == Expected(k)
    {
      forall k
        ensures InSlot(k) == Expected(k)
      {
        assert old(InSlot(k)) == old(Expected(k));
        TakenExpected(c, obj, l, k);
        TakenInSlot(c, obj, l, k);
      }
    }

    /** Take the request of a procedure off its slot and note what was learned of it: that it is answered, or bytes. */
    method PopRequest(c: ClientObject, proc: u32, answered: bool, count: nat) returns (obj: BaseObject?)
      requires IsClientOf(c, c.hosts) && c in repr && this !in repr && |objects| == |state.log|
      requires InSlot(Lane(c.hosts, proc)) == Expected(Lane(c.hosts, proc))
      requires forall i :: 0 <= i < |objects| ==> ObjectAt(i)
      modifies this`state, repr
      ensures obj == old(Expected(Lane(c.hosts, proc)))
      ensures obj == null ==> unchanged(this) && forall o :: o in old(repr) ==> unchanged(o)
      ensures obj != null ==>
                Taken(c, obj, Lane(c.hosts, proc)) && Took(old(state), state, Lane(c.hosts, proc), answered, count)
    {
      ghost var l := Lane(c.hosts, proc);
      obj := c.GetActiveObject(proc);
      if obj != null {
        assert old(ObjectAt(state.active[l]));
        obj.isExUnswer := answered;
        obj.countBytes := obj.countBytes + count;
        state := StepTake(state, l, Changed(state.log[state.active[l]], answered, count));
      }
    }

    /** What was in the slot is of the class for the slot's procedure. */
    method TakeRequest(c: ClientObject, proc: u32, answered: bool, count: nat) returns (obj: BaseObject?)
      requires Valid() && IsClientOf(c, c.hosts)
      modifies this`state, c`active_object, repr
      ensures Valid() && repr == old(repr)
      ensures Asking(old(state), Lane(c.hosts, proc)) == if obj == null then None else Some((obj.parentId, obj.name))
      ensures obj == null ==> state == old(state)
      ensures obj != null ==> ProcOf(obj.kind) == proc && Took(old(state), state, Lane(c.hosts, proc), answered, count)
    {
      assert ClientAt(keyOf[c.hosts]);
      ghost var l := Lane(c.hosts, proc);
      assert l in state.active ==> IsActive(state, l, state.active[l]) && ObjectAt(state.active[l]);
      obj := PopRequest(c, proc, answered, count);
      PoppedValid(c, obj, l, answered, count);
    }

    twostate lemma PoppedValid(c: ClientObject, new obj: BaseObject?, new l: Lane, new answered: bool, new count: nat)
      requires old(Valid()) && old(IsClientOf(c, c.hosts)) && obj == old(Expected(l))
      requires if obj == null then unchanged(this) && forall o :: o in old(repr) ==> unchanged(o)
               else Taken(c, obj, l) && Took(old(state), state, l, answered, count)
      ensures Valid()
    {
      if obj != null {
        TakenObjects(c, obj, l);
        TakenClients(c, obj, l);
        TakenSlots(c, obj, l);
        TakeInv(old(state), l, Changed(old(state.log[state.active[l]]), answered, count));
      }
    }

    /** A reply takes the request from its slot, answered. */
    method AnswerRequest(c: ClientObject, proc: u32, ghost xid: u32) returns (obj: BaseObject?)
      requires Valid() && IsClientOf(c, c.hosts)
      modifies this`state, c`active_object, repr
      ensures Valid() && repr == old(repr)
      ensures Asking(old(state), Lane(c.hosts, proc)) == if obj == null then None else Some((obj.parentId, obj.name))
      ensures state == Requests.Step(old(state), Requests.Reply(Lane(c.hosts, proc), xid))
      ensures obj != null ==> ProcOf(obj.kind) == proc
    {
      obj := TakeRequest(c, proc, true, 0);
    }

    /** A WRITE call without a handle takes the request from the slot, with its count. It casts it to a WriteObj, and
        it is one. */
    method CountStray(c: ClientObject, count: u32)
      requires Valid() && IsClientOf(c, c.hosts)
      modifies this`state, c`active_object, repr
      ensures Valid() && repr == old(repr)
      ensures state == Requests.Step(old(state), StrayCount(c.hosts, count))
    {
      var obj := TakeRequest(c, NFSPROC3_WRITE, false, count);
      if obj != null {
        TookStray(old(state), state, c.hosts, count);
        WriteKind(obj.kind);
        assert obj.kind == WriteObj;
      }
    }

    /** A call is filed, and a RENAME changes the paths, as its arguments say. */
    method StoreCall(c: ClientObject, proc: u32, call: Call, ghost hosts: set<string>, ghost xid: u32)
      requires Valid() && IsClientOf(c, c.hosts) && c.hosts == hosts && Fits(proc, call)
      modifies this`objects, this`state, this`repr, repr, storage
      ensures Valid() && fresh(repr - old(repr))
      ensures state == Requests.Step(old(state), EventOf(hosts, xid, call))
      ensures storage.State() == CallPaths(old(storage.State()), call)
      ensures Thens() == old(Thens()) + EventThens(old(storage.State()), EventOf(hosts, xid, call))
    {
      assert ClientAt(keyOf[c.hosts]);
      match call {
        case Dropped =>
        case Plain(kind, key, handle, name, count) =>
          FileRequest(c, kind, key, GetDir(handle), name, count, xid);
        case Renaming(kind, key, fromDir, name, toDir, newName) =>
          FileRequest(c, kind, key, GetDir(fromDir), "", 0, xid);
          storage.Rename(GetDir(fromDir), name, GetDir(toDir), newName);
        case Stray(count) =>
          CountStray(c, count);
      }
    }

    /** storeNfs3Message. */
    method StoreNfs3Message(src: u32, dst: u32, proc: u32, data: bytes, cursor: nat, ghost xid: u32)
      requires Valid()
      modifies this`clients, this`keyOf, this`objects, this`state, this`repr, repr, storage
      ensures Valid() && fresh(repr - old(repr))
      ensures var call := DecodeCall(proc, data, cursor);
              var e := EventOf({GetStringIp(src), GetStringIp(dst)}, xid, call);
              && state == Requests.Step(old(state), e) && storage.State() == CallPaths(old(storage.State()), call)
              && Thens() == old(Thens()) + EventThens(old(storage.State()), e)
      ensures keyOf == WithClient(old(keyOf), GetStringIp(src), GetStringIp(dst))
    {
      var call, srcIp, dstIp := DecodeCall(proc, data, cursor), GetStringIp(src), GetStringIp(dst);
      DecodeTyped(proc, data, cursor);
      IpWithoutSlash(src);
      IpWithoutSlash(dst);
      StoreDecoded(srcIp, dstIp, proc, call, {srcIp, dstIp}, xid);
    }

    method StoreDecoded(srcIp: string, dstIp: string, proc: u32, call: Call, ghost hosts: set<string>, ghost xid: u32)
      requires Valid() && Fits(proc, call) && Without(srcIp, '/') && Without(dstIp, '/') && hosts == {srcIp, dstIp}
      modifies this`clients, this`keyOf, this`objects, this`state, this`repr, repr, storage
      ensures Valid() && fresh(repr - old(repr))
      ensures state == Requests.Step(old(state), EventOf(hosts, xid, call))
      ensures storage.State() == CallPaths(old(storage.State()), call)
      ensures Thens() == old(Thens()) + EventThens(old(storage.State()), EventOf(hosts, xid, call))
      ensures keyOf == WithClient(old(keyOf), srcIp, dstIp)
    {
      var c := GetClient(srcIp, dstIp);
      ghost var withClient := repr;
      StoreCall(c, proc, call, hosts, xid);
      assert repr - old(repr) <= (repr - withClient) + (withClient - old(repr));
    }

    /** The paths of a directory's entries. */
    method LearnEntries(parent: Id, entries: seq<(Id, string)>)
      modifies storage
      ensures storage.State() == LearnAll(old(storage.State()), GetPath(old(storage.State()), parent), entries)
    {
      var dirPath := storage.GetPath(parent);
      var i := 0;
      assert entries[..0] == [];
      while i < |entries|
        invariant 0 <= i <= |entries|
        invariant storage.State() == LearnAll(old(storage.State()), dirPath, entries[..i])
      {
        if dirPath != "" {
          storage.SetPath(entries[i].0, dirPath + "/" + entries[i].1);
        }
        i := i + 1;
        assert entries[..i][..i - 1] == entries[..i - 1];
      }
      assert entries[..i] == entries;
    }

    /** A WRITE reply is skipped through, and then, if it succeeded, its count is read. */
    method SkipReply(proc: u32, ok: bool, r: Results) returns (crashed: bool)
      ensures crashed <==> proc == NFSPROC3_WRITE && WriteCrashes(ok, r)
    {
      crashed := false;
      if proc == NFSPROC3_WRITE {
        var p := SkipWccData3(r.words, At(0), r.end);
        crashed := p == Crash || (ok && p == Wild);
      }
    }

    /** What the reply handler does with the request it has taken from the slot: LOOKUP, CREATE and MKDIR cast it,
        and it is of the class they cast to. */
    method UseReply(obj: BaseObject?, proc: u32, ok: bool, r: Results) returns (crashed: bool)
      requires obj != null ==> ProcOf(obj.kind) == proc
      modifies storage
      ensures var asked := if obj == null then None else Some((obj.parentId, obj.name));
              && crashed == Crashes(proc, ok, r, asked)
              && storage.State() == ReplyPaths(old(storage.State()), proc, ok, r, asked)
    {
      var handle, entries := NewHandle(proc, ok, r), NewEntries(proc, ok, r);
      crashed := SkipReply(proc, ok, r);
      if handle.Some? {
        if obj != null {
          assert CastOf(proc) == Some(obj.kind) by { CastFits(proc, obj.kind); }
          storage.Learn(obj.parentId, obj.name, handle.value);
        } else {
          crashed := proc == NFSPROC3_MKDIR;
        }
      }
      if entries.Some? {
        if obj != null {
          LearnEntries(obj.parentId, entries.value);
        } else {
          crashed := true;
        }
      }
    }

    /** The reply takes the request from its slot and may teach paths. */
    method StoreReply(c: ClientObject, proc: u32, ok: bool, r: Results, ghost l: Lane, ghost xid: u32)
      returns (crashed: bool)
      requires Valid() && IsClientOf(c, c.hosts) && l == Lane(c.hosts, proc)
      modifies this`state, repr, storage
      ensures Valid() && repr == old(repr)
      ensures state == Requests.Step(old(state), Requests.Reply(l, xid))
      ensures crashed == Crashes(proc, ok, r, Asking(old(state), l))
      ensures storage.State() == ReplyPaths(old(storage.State()), proc, ok, r, Asking(old(state), l))
    {
      var obj := AnswerRequest(c, proc, xid);
      crashed := UseReply(obj, proc, ok, r);
    }

    /** storeNfs3MessageResponse. */
    method StoreNfs3MessageResponse(src: u32, dst: u32, proc: u32, ok: bool, r: Results, ghost xid: u32)
      returns (crashed: bool)
      requires Valid()
      modifies this`clients, this`keyOf, this`state, this`repr, repr, storage
      ensures Valid() && fresh(repr - old(repr))
      ensures var l := Lane({GetStringIp(src), GetStringIp(dst)}, proc);
              && state == Requests.Step(old(state), Requests.Reply(l, xid))
              && crashed == Crashes(proc, ok, r, Asking(old(state), l))
              && storage.State() == ReplyPaths(old(storage.State()), proc, ok, r, Asking(old(state), l))
      ensures keyOf == WithClient(old(keyOf), GetStringIp(src), GetStringIp(dst))
    {
      var srcIp, dstIp := GetStringIp(src), GetStringIp(dst);
      IpWithoutSlash(src);
      IpWithoutSlash(dst);
      crashed := ReplyFrom(srcIp, dstIp, proc, ok, r, Lane({srcIp, dstIp}, proc), xid);
    }

    method ReplyFrom(srcIp: string, dstIp: string, proc: u32, ok: bool, r: Results, ghost l: Lane, ghost xid: u32)
      returns (crashed: bool)
      requires Valid() && Without(srcIp, '/') && Without(dstIp, '/') && l == Lane({srcIp, dstIp}, proc)
      modifies this`clients, this`keyOf, this`state, this`repr, repr, storage
      ensures Valid() && fresh(repr - old(repr))
      ensures state == Requests.Step(old(state), Requests.Reply(l, xid))
      ensures crashed == Crashes(proc, ok, r, Asking(old(state), l))
      ensures storage.State() == ReplyPaths(old(storage.State()), proc, ok, r, Asking(old(state), l))
      ensures keyOf == WithClient(old(keyOf), srcIp, dstIp)
    {
      var c := GetClient(srcIp, dstIp);
      crashed := StoreReply(c, proc, ok, r, l, xid);
    }

    /** The body of the run loop: a packet off the queue goes to the handler of its kind; only NFS version 3 has one. */
    method Handle(q: Queued, past: int -> u32, cursor: nat) returns (crashed: bool)
      requires Valid()
      modifies this`clients, this`keyOf, this`objects, this`state, this`repr, repr, storage
      ensures Valid() && fresh(repr - old(repr))
      ensures Now() == StepWorld(old(Now()), Work.Packet(q, past, cursor))
      ensures crashed <==> Kills(old(state), Work.Packet(q, past, cursor))
    {
      crashed := false;
      if q.record.version == 3 {
        if q.record.call == CALL {
          HandleCall(q, past, cursor);
        } else {
          crashed := HandleReply(q, past, cursor);
        }
      } else {
        NothingMeant(Now(), q, past, cursor);
      }
    }

    method HandleCall(q: Queued, ghost past: int -> u32, cursor: nat)
      requires Valid() && q.record.version == 3 && q.record.call == CALL
      modifies this`clients, this`keyOf, this`objects, this`state, this`repr, repr, storage
      ensures Valid() && fresh(repr - old(repr))
      ensures Now() == StepWorld(old(Now()), Work.Packet(q, past, cursor))
      ensures !Kills(old(state), Work.Packet(q, past, cursor))
    {
      var r := q.record;
      CallMeans(Now(), q, past, cursor);
      StoreNfs3Message(r.srcHost, r.dstHost, r.proc, q.data, cursor, r.xid);
    }

    method HandleReply(q: Queued, past: int -> u32, ghost cursor: nat) returns (crashed: bool)
      requires Valid() && q.record.version == 3 && q.record.call != CALL
      modifies this`clients, this`keyOf, this`state, this`repr, repr, storage
      ensures Valid() && fresh(repr - old(repr))
      ensures Now() == StepWorld(old(Now()), Work.Packet(q, past, cursor))
      ensures crashed <==> Kills(old(state), Work.Packet(q, past, cursor))
    {
      var r := q.record;
      var ok, results := r.status == NFS3_OK, Payload(q.data, past);
      ReplyMeans(Now(), q, past, cursor, LaneOfRecord(r), ok, results);
      crashed := StoreNfs3MessageResponse(r.srcHost, r.dstHost, r.proc, ok, results, r.xid);
    }

    ghost function AllFiles(): set<FileObject>
      reads this, clients.Values
    {
      set k, id | k in clients && id in clients[k].files :: clients[k].files[id]
    }

    /** A client that can be printed. */
    ghost predicate Printable(k: string)
      requires k in clients
      reads this, clients[k], clients[k].files.Values, clients[k].held
    {
      var c := clients[k];
      c.Valid() && Logged(c.held, state.log) && k == PairKey(c.dstAddr, c.srcAddr) && c.hosts == {c.srcAddr, c.dstAddr}
    }

    lemma AllPrintable()
      requires Valid()
      ensures forall k :: k in clients ==>
                Printable(k) && clients[k].held == Where(objects[state.drained..], OfHosts(clients[k].hosts))
    {
      var held := objects[state.drained..];
      forall i | 0 <= i < |held|
        ensures held[i].countBytes == BytesOf(held[i], state.log)
      {
        assert ObjectAt(state.drained + i);
      }
      forall k | k in clients
        ensures Printable(k) && clients[k].held == Where(held, OfHosts(clients[k].hosts))
      {
        assert ClientAt(k);
        LoggedWhere(held, OfHosts(clients[k].hosts), state.log);
      }
    }

    /** One client's part; the others stay as they are. */
    method PrintClient(k: string) returns (part: ClientReport)
      requires k in clients && Printable(k)
      modifies {clients[k]}`files, clients[k].files.Values
      ensures ClientSays(part, clients[k].hosts, clients[k].held, state.log, storage.State())
      ensures k == PairKey(part.dstAddr, part.srcAddr)
      ensures forall j :: j in clients && j != k && old(Printable(j)) ==>
                Printable(j) && SnapshotOf(clients[j]) == old(SnapshotOf(clients[j]))
    {
      var c := clients[k];
      part := c.GenerateReport(storage, state.log);
      forall j | j in clients && j != k && old(Printable(j))
        ensures Printable(j) && SnapshotOf(clients[j]) == old(SnapshotOf(clients[j]))
      {
        assert clients[j] != c;
        forall f | f in clients[j].files.Values
          ensures f !in old(c.files.Values)
        {
          assert f.owner == clients[j];
        }
      }
    }

    /** The clients in `todo` are as they were; of the others, the parts are done. */
    ghost predicate Halfway(parts: map<string, ClientReport>, todo: set<string>, was: map<string, Snapshot>)
      reads *
    {
      && todo <= clients.Keys == was.Keys && parts.Keys == was.Keys - todo
      && (forall k :: k in todo ==> Printable(k) && SnapshotOf(clients[k]) == was[k])
      && (forall k :: k in parts ==>
            && ClientSays(parts[k], was[k].hosts, was[k].held, state.log, storage.State())
            && k == PairKey(parts[k].dstAddr, parts[k].srcAddr))
    }

    method PrintNext(parts: map<string, ClientReport>, todo: set<string>, k: string, ghost was: map<string, Snapshot>)
      returns (more: map<string, ClientReport>)
      requires Halfway(parts, todo, was) && k in todo
      modifies {clients[k]}`files, was[k].files.Values
      ensures Halfway(more, todo - {k}, was)
    {
      var part := PrintClient(k);
      more := parts[k := part];
    }

    /** All clients' parts of a report. */
    method PrintClients(ghost was: map<string, Snapshot>, ghost all: set<FileObject>)
      returns (parts: map<string, ClientReport>)
      requires Halfway(map[], clients.Keys, was) && forall k :: k in was ==> was[k].files.Values <= all
      modifies clients.Values`files, all
      ensures Halfway(parts, {}, was)
    {
      parts := map[];
      var todo := clients.Keys;
      while todo != {}
        invariant Halfway(parts, todo, was)
        decreases |todo|
      {
        var k :| k in todo;
        parts := PrintNext(parts, todo, k, was);
        OneLess(todo, k);
        todo := todo - {k};
      }
    }

    /** What the clients hold of a slot is what the log holds of it. */
    lemma HeldTally(s: Slot)
      requires Valid()
      ensures Agrees(objects[state.drained..], state, keyOf, s)
    {
      var objs, rs := objects[state.drained..], Held(state);
      forall i | 0 <= i < |objs|
        ensures rs[i].slot == SlotOfObject(objs[i]) && rs[i].bytes == BytesOf(objs[i], state.log)
      {
        assert ObjectAt(state.drained + i);
      }
      WeighTally(objs, rs, state.log, s);
      if s.hosts !in keyOf {
        WhereNone(objs, OfHosts(s.hosts));
      }
    }

    /** Before a report: the clients can be printed, and together they hold what the log holds. */
    lemma BeforeReport(was: map<string, Snapshot>)
      requires Valid() && was.Keys == clients.Keys && forall k :: k in clients ==> was[k] == SnapshotOf(clients[k])
      ensures Halfway(map[], clients.Keys, was) && Complete(was, keyOf, objects[state.drained..], state)
      ensures AllFiles() <= repr && clients.Values <= repr && forall k :: k in was ==> was[k].files.Values <= AllFiles()
    {
      forall s
        ensures Agrees(objects[state.drained..], state, keyOf, s)
      {
        HeldTally(s);
      }
      AllPrintable();
      assert forall k :: k in clients ==> ClientAt(k);
    }

    /** The clients' parts of a report; their requests stay as they are. */
    method PrintHeld(ghost was: map<string, Snapshot>, ghost all: set<FileObject>)
      returns (parts: map<string, ClientReport>)
      requires Halfway(map[], clients.Keys, was) && forall k :: k in was ==> was[k].files.Values <= all
      modifies clients.Values`files, all
      ensures Said(parts, was, state.log, storage.State())
      ensures forall i :: 0 <= i < |objects| ==> unchanged(objects[i])
    {
      parts := PrintClients(was, all);
    }

    lemma AllNoted()
      requires Valid()
      ensures Noted(objects, state.log, Thens())
    {
      forall i | 0 <= i < |objects|
        ensures state.log[i].slot == SlotOfObject(objects[i]) && Thens()[i] == objects[i].pathThen
      {
        assert ObjectAt(i);
      }
    }

    method PrintAll() returns (parts: map<string, ClientReport>)
      requires Valid()
      modifies repr
      ensures TellsAll(parts, Now())
      ensures forall i :: 0 <= i < |objects| ==> unchanged(objects[i])
    {
      ghost var was := map k | k in clients :: SnapshotOf(clients[k]);
      BeforeReport(was);
      AllNoted();
      parts := PrintHeld(was, AllFiles());
      AllTold(parts, was, objects, Now());
    }

    twostate lemma Cleared()
      requires old(Valid()) && objects == old(objects) && repr == old(repr)
      requires state == Requests.Step(old(state), Report(true)) && clients == map[] && keyOf == map[]
      requires forall i :: 0 <= i < |objects| ==> unchanged(objects[i])
      ensures Valid()
    {
      StepInv(old(state), Report(true));
      forall i | 0 <= i < |objects|
        ensures ObjectAt(i)
      {
        assert old(ObjectAt(i));
      }
    }

    /** A report whose file is open: print all that is held, and start anew. */
    method PrintAndClear() returns (parts: map<string, ClientReport>)
      requires Valid()
      modifies this`clients, this`keyOf, this`state, repr
      ensures Valid() && clients == map[]
      ensures WorkTold(old(Now()), Tick(true), Some(parts)) && Now() == StepWorld(old(Now()), Tick(true))
    {
      parts := PrintAll();
      clients, keyOf := map[], map[];
      state := Requests.Step(state, Report(true));
      Cleared();
      AddNothing(Thens());
      TickTold(old(Now()), Some(parts));
    }

    /** generateReport: what is printed of each slot is what was held of it, each pair of hosts printed once. If the
        file cannot be opened, nothing is lost. */
    method GenerateReport(writable: bool) returns (report: Option<map<string, ClientReport>>)
      requires Valid()
      modifies this`clients, this`number_out, this`keyOf, this`state, repr
      ensures Valid() && number_out == old(number_out) + 1 && Now() == StepWorld(old(Now()), Tick(writable))
      ensures WorkTold(old(Now()), Tick(writable), report)
      ensures if writable then clients == map[] else clients == old(clients)
    {
      number_out := number_out + 1;
      report := None;
      if writable {
        var parts := PrintAndClear();
        report := Some(parts);
      } else {
        NotTold(Now());
      }
    }

    /** One packet, or one report that has become due. */
    method DoWork(w: Work) returns (crashed: bool, report: Option<Parts>)
      requires Valid()
      modifies this`clients, this`number_out, this`keyOf, this`objects, this`state, this`repr, repr, storage
      ensures Valid() && fresh(repr - old(repr))
      ensures Now() == StepWorld(old(Now()), w)
      ensures crashed <==> Kills(old(state), w)
      ensures WorkTold(old(Now()), w, report)
    {
      match w {
        case Packet(q, past, cursor) =>
          report := None;
          crashed := Handle(q, past, cursor);
        case Tick(writable) =>
          crashed := false;
          report := GenerateReport(writable);
      }
    }

    /** One turn of the loop, behind the work done since the world was `x0`. */
    method Turn(ghost x0: World, work: seq<Work>, n: nat, out: seq<Option<Parts>>)
      returns (crashed: bool, more: seq<Option<Parts>>)
      requires Valid() && n < |work| && Inv(x0.log) && Progress(x0, work[..n], Now(), out, false)
      modifies this`clients, this`number_out, this`keyOf, this`objects, this`state, this`repr, repr, storage
      ensures Valid() && fresh(repr - old(repr)) && Progress(x0, work[..n + 1], Now(), more, crashed)
    {
      var report;
      crashed, report := DoWork(work[n]);
      ProgressStep(x0, work[..n], old(Now()), out, work[n], report, crashed);
      TakeOneMore(work, n);
      more := out + [report];
    }

    ghost method Started(work: seq<Work>) returns (x0: World)
      requires Valid()
      ensures x0 == Now() && Inv(x0.log) && Progress(x0, work[..0], x0, [], false)
    {
      x0 := Now();
      NothingDone(x0, work);
    }

    /** run, for any work that comes: the log, the paths and the clients are what the packets and reports make of them,
        and each report tells what there was when it was due. The loop ends early exactly if a reply kills the program,
        and then at the first that does. */
    method Run(work: seq<Work>) returns (n: nat, out: seq<Option<Parts>>, crashed: bool)
      requires Valid()
      modifies this`clients, this`number_out, this`keyOf, this`objects, this`state, this`repr, repr, storage
      ensures Valid() && n <= |work| && (!crashed ==> n == |work|)
      ensures Progress(old(Now()), work[..n], Now(), out, crashed)
    {
      n, out, crashed := 0, [], false;
      ghost var x0 := Started(work);
      while n < |work| && !crashed
        invariant Valid() && fresh(repr - old(repr)) && n <= |work|
        invariant Progress(x0, work[..n], Now(), out, crashed)
        decreases |work| - n
      {
        crashed, out := Turn(x0, work, n, out);
        n := n + 1;
      }
    }
  }

  lemma OneLess<T>(s: set<T>, x: T)
    requires x in s
    ensures |s - {x}| < |s|
  {
  }

  lemma SamePair(a: string, b: string, c: string, d: string)
    requires {a, b} == {c, d}
    ensures (a == c && b == d) || (a == d && b == c)
  {
    assert a in {c, d} && b in {c, d} && c in {a, b} && d in {a, b};
  }

  /** The objects held by clients and the log agree on a slot; hosts without a client hold nothing. */
  ghost predicate Agrees(objs: seq<BaseObject>, m: State, keys: map<set<string>, string>, s: Slot)
    requires m.drained <= |m.log|
  {
    && SumAt(Where(objs, OfHosts(s.hosts)), m.log, s.handle, s.proc) == Tally(Held(m), s)
    && (s.hosts !in keys ==> Tally(Held(m), s) == Nothing)
  }

  /** A client before it is printed. */
  datatype Snapshot = Snapshot(hosts: set<string>, held: seq<BaseObject>, files: map<Id, FileObject>)

  ghost function SnapshotOf(c: ClientObject): Snapshot
    reads c
  {
    Snapshot(c.hosts, c.held, c.files)
  }

  /** The parts say what these clients held. */
  ghost predicate Said(parts: map<string, ClientReport>, was: map<string, Snapshot>, log: seq<Request>, now: Maps) {
    && parts.Keys == was.Keys
    && forall k :: k in parts ==>
         ClientSays(parts[k], was[k].hosts, was[k].held, log, now) && k == PairKey(parts[k].dstAddr, parts[k].srcAddr)
  }

  /** Each client holds the requests of its hosts, and together they hold what the log holds. */
  ghost predicate Complete(was: map<string, Snapshot>, keys: map<set<string>, string>, objs: seq<BaseObject>,
                           m: State)
  {
    && m.drained <= |m.log|
    && (forall k :: k in was ==>
          was[k].held == Where(objs, OfHosts(was[k].hosts)) && was[k].hosts in keys && keys[was[k].hosts] == k)
    && (forall h :: h in keys ==> keys[h] in was && was[keys[h]].hosts == h)
    && (forall s :: Agrees(objs, m, keys, s))
  }

  lemma AllTold(parts: map<string, ClientReport>, was: map<string, Snapshot>, objs: seq<BaseObject>, x: World)
    requires x.log.drained <= |objs| && Noted(objs, x.log.log, x.thens)
    requires Said(parts, was, x.log.log, x.paths) && Complete(was, x.keys, objs[x.log.drained..], x.log)
    ensures TellsAll(parts, x)
  {
    var m := x.log;
    Listed(parts, was, x.keys, objs[m.drained..], m, x.paths);
    forall s
      ensures Tells(parts, s, Tally(Held(m), s))
    {
      assert Agrees(objs[m.drained..], m, x.keys, s);
      forall k | k in parts && HostsOf(parts[k]) == s.hosts
        ensures FileTells(parts[k].files, s.handle, s.proc, Tally(Held(m), s))
      {
        assert FileSays(parts[k].files, s.handle, was[k].held, m.log);
      }
      if s.hosts in x.keys {
        assert HostsOf(parts[x.keys[s.hosts]]) == s.hosts;
      }
    }
    forall k, id | k in parts
      ensures TitleTells(parts[k].files, id, FirstThen(Held(m), x.thens[m.drained..], HostsOf(parts[k]), id), x.paths)
    {
      NotedHeld(objs, m.log, x.thens, m.drained);
      FirstIsFirst(objs[m.drained..], Held(m), x.thens[m.drained..], was[k].hosts, id);
      assert Titled(parts[k].files, id, was[k].held, x.paths);
    }
  }

  ghost function ThensOf(objs: seq<BaseObject>): (ps: seq<Path>)
    ensures |ps| == |objs|
  {
    seq(|objs|, i requires 0 <= i < |objs| => objs[i].pathThen)
  }

  lemma Listed(parts: map<string, ClientReport>, was: map<string, Snapshot>, keys: map<set<string>, string>,
               objs: seq<BaseObject>, m: State, now: Maps)
    requires Said(parts, was, m.log, now) && Complete(was, keys, objs, m)
    ensures ClientsTell(parts, keys)
  {
    forall k | k in parts
      ensures k in keys.Values
    {
      assert keys[was[k].hosts] == k;
    }
  }

  /** The objects are these requests, whose handles had these paths. */
  ghost predicate Noted(objs: seq<BaseObject>, rs: seq<Request>, thens: seq<Path>) {
    && |objs| == |rs| == |thens|
    && forall i :: 0 <= i < |objs| ==> rs[i].slot == SlotOfObject(objs[i]) && thens[i] == objs[i].pathThen
  }

  lemma NotedHeld(objs: seq<BaseObject>, rs: seq<Request>, thens: seq<Path>, n: nat)
    requires Noted(objs, rs, thens) && n <= |objs|
    ensures Noted(objs[n..], rs[n..], thens[n..])
  {
  }

  /** The first request of a file is the first one of its hosts and its handle. */
  lemma {:induction false} FirstIsFirst(objs: seq<BaseObject>, rs: seq<Request>, thens: seq<Path>, hosts: set<string>,
                                        id: Id)
    requires Noted(objs, rs, thens)
    ensures var w := Where(Where(objs, OfHosts(hosts)), OfHandle(id));
            FirstThen(rs, thens, hosts, id) == if w == [] then None else Some(w[0].pathThen)
    decreases |objs|
  {
    if objs != [] {
      var n := |objs| - 1;
      var before, o := objs[..n], objs[n];
      Snoc(objs);
      assert Noted(before, rs[..n], thens[..n]);
      FirstIsFirst(before, rs[..n], thens[..n], hosts, id);
      WhereLast(before, o, OfHosts(hosts));
      WhereLast(Where(before, OfHosts(hosts)), o, OfHandle(id));
    }
  }

  // ---------------------------------------------------------------- runs

  type Parts = map<string, ClientReport>

  /** What the run loop does: a packet, with the memory around its payload, or a report, if its file can be opened. */
  datatype Work = Packet(q: Queued, past: int -> u32, cursor: nat) | Tick(writable: bool)

  function WorkEvent(w: Work): Requests.Event {
    match w
    case Packet(q, _, cursor) => PacketEvent(q, cursor)
    case Tick(writable) => Report(writable)
  }

  function Events(work: seq<Work>): (es: seq<Requests.Event>)
    ensures |es| == |work|
  {
    if |work| == 0 then [] else Events(work[..|work| - 1]) + [WorkEvent(work[|work| - 1])]
  }

  lemma EventsLast(work: seq<Work>, w: Work)
    ensures Events(work + [w]) == Events(work) + [WorkEvent(w)]
  {
    assert (work + [w])[..|work|] == work;
  }

  lemma {:induction false} EventsTyped(work: seq<Work>)
    ensures forall e :: e in Events(work) ==> Typed(e)
  {
    if |work| > 0 {
      EventsTyped(work[..|work| - 1]);
      WorkTyped(work[|work| - 1]);
    }
  }

  lemma WorkTyped(w: Work)
    ensures Typed(WorkEvent(w))
  {
    if w.Packet? {
      var r := w.q.record;
      DecodeTyped(r.proc, w.q.data, w.cursor);
      var call := DecodeCall(r.proc, w.q.data, w.cursor);
      EventTyped({GetStringIp(r.srcHost), GetStringIp(r.dstHost)}, r.xid, r.proc, call);
    }
  }

  lemma EventTyped(hosts: set<string>, xid: u32, proc: u32, call: Call)
    requires Fits(proc, call)
    ensures Typed(EventOf(hosts, xid, call))
  {
  }

  /** After any work on captured packets, the object in a slot is of the class that the code casts it to. */
  lemma CapturedCastIsSafe(work: seq<Work>, l: Lane)
    requires l in Requests.Run(Start, Events(work)).active
    ensures var m := Requests.Run(Start, Events(work));
            && m.active[l] < |m.log|
            && var kind := m.log[m.active[l]].origin.kind;
            ProcOf(kind) == l.proc && (CastOf(l.proc).Some? ==> CastOf(l.proc).value == kind)
  {
    EventsTyped(work);
    CastIsSafe(Events(work), l);
  }

  lemma TakeOneMore<T>(xs: seq<T>, n: nat)
    requires n < |xs|
    ensures xs[..n] + [xs[n]] == xs[..n + 1]
  {
  }

  /** What the server knows: the log, the path that each request's handle had when the request came, the paths, and the
      pairs of hosts that have talked since the last report. */
  datatype World = World(log: State, thens: seq<Path>, paths: Maps, keys: map<set<string>, string>)

  /** What one piece of work makes of it. */
  function StepWorld(x: World, w: Work): (x': World)
    requires Inv(x.log)
    ensures Inv(x'.log)
  {
    StepInv(x.log, WorkEvent(w));
    World(Requests.Step(x.log, WorkEvent(w)), x.thens + EventThens(x.paths, WorkEvent(w)), WorkPaths(x.log, x.paths, w),
          WorkKeys(x.keys, w))
  }

  function RunWorld(x: World, work: seq<Work>): (x': World)
    requires Inv(x.log)
    ensures Inv(x'.log)
  {
    if work == [] then x else StepWorld(RunWorld(x, work[..|work| - 1]), work[|work| - 1])
  }

  lemma RunWorldStep(x: World, work: seq<Work>, w: Work)
    requires Inv(x.log)
    ensures RunWorld(x, work + [w]) == StepWorld(RunWorld(x, work), w)
  {
    assert (work + [w])[..|work|] == work;
  }

  /** Its log is that of the events. */
  lemma {:induction false} LogOfWorld(x: World, work: seq<Work>)
    requires Inv(x.log)
    ensures RunWorld(x, work).log == Requests.Run(x.log, Events(work))
  {
    if work != [] {
      var before, w := work[..|work| - 1], work[|work| - 1];
      LogOfWorld(x, before);
      RunLast(x.log, Events(before), WorkEvent(w));
    }
  }

  /** Every report on the way told what there was. */
  ghost predicate Reported(x: World, work: seq<Work>, out: seq<Option<Parts>>)
    requires Inv(x.log)
    decreases |work|
  {
    if work == [] || out == [] then work == [] && out == []
    else
      var before := work[..|work| - 1];
      && WorkTold(RunWorld(x, before), work[|work| - 1], out[|out| - 1])
      && Reported(x, before, out[..|out| - 1])
  }

  /** This work has been done: the world and the reports are what it makes of them, and it has or has not killed the
      program. */
  ghost predicate Progress(x0: World, work: seq<Work>, x: World, out: seq<Option<Parts>>, crashed: bool)
    requires Inv(x0.log)
  {
    x == RunWorld(x0, work) && Reported(x0, work, out) && Ended(x0, work, crashed)
  }

  lemma NothingDone(x0: World, work: seq<Work>)
    requires Inv(x0.log)
    ensures Progress(x0, work[..0], x0, [], false)
  {
  }

  lemma ReportedStep(x: World, work: seq<Work>, out: seq<Option<Parts>>, w: Work, report: Option<Parts>)
    requires Inv(x.log) && Reported(x, work, out) && WorkTold(RunWorld(x, work), w, report)
    ensures Reported(x, work + [w], out + [report])
  {
    assert (work + [w])[..|work|] == work && (out + [report])[..|out|] == out;
  }

  /** One more piece of work. */
  lemma ProgressStep(x0: World, work: seq<Work>, x: World, out: seq<Option<Parts>>, w: Work, report: Option<Parts>,
                     crashed: bool)
    requires Inv(x0.log) && Inv(x.log) && Progress(x0, work, x, out, false)
    requires WorkTold(x, w, report) && (crashed <==> Kills(x.log, w))
    ensures Progress(x0, work + [w], StepWorld(x, w), out + [report], crashed)
  {
    RunWorldStep(x0, work, w);
    ReportedStep(x0, work, out, w, report);
    EndedStep(x0, work, w, crashed);
  }

  /** A packet on which the program crashes: one of the replies that do, with this request or none in its slot. */
  predicate Kills(m: State, w: Work) {
    w.Packet? && w.q.record.version == 3 && w.q.record.call != CALL &&
    var r := w.q.record;
    Crashes(r.proc, r.status == NFS3_OK, Payload(w.q.data, w.past), Asking(m, LaneOfRecord(r)))
  }

  /** A WRITE reply of which one word is captured, announcing old attributes, kills the program in every state. */
  lemma TruncatedWriteKills(m: State, q: Queued, past: int -> u32, cursor: nat)
    requires q.record.version == 3 && q.record.call == REPLY && q.record.proc == NFSPROC3_WRITE
             && q.data == [0, 0, 0, 1]
    ensures Kills(m, Work.Packet(q, past, cursor))
  {
    TruncatedWrite(q.record.status == NFS3_OK, past);
  }

  /** So does a MKDIR reply with a handle, if there is no request in its slot, as at the start. */
  lemma LoneMkdirKills(m: State, q: Queued, h: bytes, past: int -> u32, cursor: nat)
    requires q.record.version == 3 && q.record.call == REPLY && q.record.proc == NFSPROC3_MKDIR
    requires q.record.status == NFS3_OK && 1 <= |h| <= NFS3_FHSIZE && 4 + |EncodeVar(h)| <= |q.data|
    requires q.data[..4] == Bytes(1) && q.data[4..4 + |EncodeVar(h)|] == EncodeVar(h)
    ensures LaneOfRecord(q.record) !in m.active ==> Kills(m, Work.Packet(q, past, cursor))
    ensures Kills(Start, Work.Packet(q, past, cursor))
  {
    MadeHandle(NFSPROC3_MKDIR, q.data, h, past);
    NewHandleKills(m, q, past, cursor);
    NewHandleKills(Start, q, past, cursor);
  }

  lemma NewHandleKills(m: State, q: Queued, past: int -> u32, cursor: nat)
    requires q.record.version == 3 && q.record.call == REPLY && q.record.proc == NFSPROC3_MKDIR
    requires q.record.status == NFS3_OK && NewHandle(NFSPROC3_MKDIR, true, Payload(q.data, past)).Some?
    ensures LaneOfRecord(q.record) !in m.active ==> Kills(m, Work.Packet(q, past, cursor))
  {
  }

  /** So does a READDIRPLUS reply with a listing. */
  lemma LoneListingKills(m: State, q: Queued, v: (Option<Fattr3>, (bytes, (seq<EntryPlus3>, bool))), rest: bytes,
                         past: int -> u32, cursor: nat)
    requires q.record.version == 3 && q.record.call == REPLY && q.record.proc == NFSPROC3_READDIRPLUS
    requires q.record.status == NFS3_OK && ReaddirPlusOk().ok(v)
    requires Payload(q.data, past).data == ReaddirPlusOk().enc(v) + rest
    ensures LaneOfRecord(q.record) !in m.active ==> Kills(m, Work.Packet(q, past, cursor))
    ensures Kills(Start, Work.Packet(q, past, cursor))
  {
    ListingRead(Payload(q.data, past), v, rest);
    NewEntriesKill(m, q, past, cursor);
    NewEntriesKill(Start, q, past, cursor);
  }

  lemma NewEntriesKill(m: State, q: Queued, past: int -> u32, cursor: nat)
    requires q.record.version == 3 && q.record.call == REPLY && q.record.proc == NFSPROC3_READDIRPLUS
    requires q.record.status == NFS3_OK && NewEntries(NFSPROC3_READDIRPLUS, true, Payload(q.data, past)).Some?
    ensures LaneOfRecord(q.record) !in m.active ==> Kills(m, Work.Packet(q, past, cursor))
  {
  }

  /** Nothing else kills it: no report, no packet of another version, no call, and of the replies only a WRITE, a
      MKDIR or a READDIRPLUS, the last two only with NFS3_OK and if no request is in their slot. */
  lemma KillsOnly(m: State, w: Work)
    requires Inv(m) && Kills(m, w)
    ensures w.Packet? && w.q.record.version == 3 && w.q.record.call != 0 && w.q.record.proc in {7, 9, 17}
    ensures w.q.record.proc != 7 ==> w.q.record.status == 0 && LaneOfRecord(w.q.record) !in m.active
  {
    var r, l := w.q.record, LaneOfRecord(w.q.record);
    CrashesOnly(r.proc, r.status == NFS3_OK, Payload(w.q.data, w.past), Asking(m, l));
    assert l in m.active ==> IsActive(m, l, m.active[l]);
  }

  /** No work kills the program, except that the last piece does if it has `crashed`. */
  ghost predicate Ended(x: World, work: seq<Work>, crashed: bool)
    requires Inv(x.log)
  {
    if work == [] then !crashed
    else
      var before := work[..|work| - 1];
      Ended(x, before, false) && (crashed <==> Kills(RunWorld(x, before).log, work[|work| - 1]))
  }

  lemma EndedStep(x: World, work: seq<Work>, w: Work, crashed: bool)
    requires Inv(x.log) && Ended(x, work, false) && (crashed <==> Kills(RunWorld(x, work).log, w))
    ensures Ended(x, work + [w], crashed)
  {
    assert (work + [w])[..|work|] == work;
  }

  /** What a packet off the queue means for the paths. */
  function PacketPaths(m: State, paths: Maps, q: Queued, past: int -> u32, cursor: nat): Maps {
    var r := q.record;
    if r.version != 3 then paths
    else if r.call == CALL then CallPaths(paths, DecodeCall(r.proc, q.data, cursor))
    else ReplyPaths(paths, r.proc, r.status == NFS3_OK, Payload(q.data, past), Asking(m, LaneOfRecord(r)))
  }

  function WorkPaths(m: State, paths: Maps, w: Work): Maps {
    match w
    case Packet(q, past, cursor) => PacketPaths(m, paths, q, past, cursor)
    case Tick(_) => paths
  }

  /** The path that a request's handle has when the request comes. */
  function EventThens(paths: Maps, e: Requests.Event): seq<Path> {
    if e.File? then [GetPath(paths, e.slot.handle)] else []
  }

  /** Packets of other NFS versions do nothing. */
  lemma OtherVersions(m: State, paths: Maps, q: Queued, past: int -> u32, cursor: nat)
    requires q.record.version != 3
    ensures PacketEvent(q, cursor) == Ignore && PacketPaths(m, paths, q, past, cursor) == paths
    ensures !Kills(m, Work.Packet(q, past, cursor))
  {
  }

  lemma PacketConsistent(m: State, paths: Maps, q: Queued, past: int -> u32, cursor: nat)
    requires Consistent(paths)
    ensures Consistent(PacketPaths(m, paths, q, past, cursor))
  {
    var r := q.record;
    if r.version == 3 {
      if r.call == CALL {
        CallConsistent(paths, DecodeCall(r.proc, q.data, cursor));
      } else {
        ReplyConsistent(paths, r.proc, r.status == NFS3_OK, Payload(q.data, past), Asking(m, LaneOfRecord(r)));
      }
    }
  }

  lemma TwoSteps(x: World, a: Work, b: Work)
    requires Inv(x.log)
    ensures RunWorld(x, [a, b]) == StepWorld(StepWorld(x, a), b)
  {
    RunWorldStep(x, [a], b);
    RunWorldStep(x, [], a);
    assert [a] + [b] == [a, b] && [] + [a] == [a];
  }

  lemma AskingFiled(m: State, slot: Slot, origin: Origin, bytes: nat)
    ensures Asking(StepFile(m, slot, origin, bytes), LaneOf(slot)) == Some((slot.handle, origin.name))
  {
  }

  /** A LOOKUP call's event, and that it leaves the paths as they are. */
  lemma LookupPacket(m: State, paths: Maps, q: Queued, v: (bytes, bytes), rest: bytes, past: int -> u32, cursor: nat)
    requires q.record.version == 3 && q.record.call == CALL && q.record.proc == 3
    requires DirOpArgs().ok(v) && q.data == DirOpArgs().enc(v) + rest
    ensures PacketEvent(q, cursor) == File(Slot(LaneOfRecord(q.record).hosts, GetDir(v.0), 3),
                                           Origin(LookUpObject, Chars(v.1), q.record.xid), 0)
    ensures PacketPaths(m, paths, q, past, cursor) == paths
  {
    LookupFiled(LaneOfRecord(q.record).hosts, q.record.xid, v, rest, cursor);
    NotRenaming(paths, q, cursor);
  }

  lemma NotRenaming(paths: Maps, q: Queued, cursor: nat)
    requires q.record.proc != NFSPROC3_RENAME
    ensures CallPaths(paths, DecodeCall(q.record.proc, q.data, cursor)) == paths
  {
  }

  lemma ReplyPacket(m: State, paths: Maps, q: Queued, past: int -> u32, cursor: nat)
    requires q.record.version == 3 && q.record.call == REPLY && q.record.status == 0
    ensures PacketPaths(m, paths, q, past, cursor)
         == ReplyPaths(paths, q.record.proc, true, Payload(q.data, past), Asking(m, LaneOfRecord(q.record)))
  {
  }

  /** A LOOKUP call and the reply to it, one after the other: the handle returned gets the path of the name asked for
      under the directory asked about. */
  lemma LookupThenReply(x: World, call: Queued, reply: Queued, v: (bytes, bytes), rest: bytes, h: bytes,
                        past: int -> u32, cursor: nat)
    requires Inv(x.log) && call.record.version == 3 && call.record.call == CALL && call.record.proc == 3
    requires reply.record.version == 3 && reply.record.call == REPLY && reply.record.proc == 3
    requires reply.record.status == 0 && LaneOfRecord(reply.record) == LaneOfRecord(call.record)
    requires DirOpArgs().ok(v) && call.data == DirOpArgs().enc(v) + rest
    requires 1 <= |h| <= NFS3_FHSIZE && |EncodeVar(h)| <= |reply.data|
    requires reply.data[0..|EncodeVar(h)|] == EncodeVar(h)
    ensures RunWorld(x, [Work.Packet(call, past, cursor), Work.Packet(reply, past, cursor)]).paths
         == Learn(x.paths, GetDir(v.0), Chars(v.1), GetDir(h + Padding(|h|)))
  {
    var slot, origin := Slot(LaneOfRecord(call.record).hosts, GetDir(v.0), 3),
                        Origin(LookUpObject, Chars(v.1), call.record.xid);
    TwoSteps(x, Work.Packet(call, past, cursor), Work.Packet(reply, past, cursor));
    LookupPacket(x.log, x.paths, call, v, rest, past, cursor);
    AskingFiled(x.log, slot, origin, 0);
    ReplyPacket(StepFile(x.log, slot, origin, 0), x.paths, reply, past, cursor);
    LookupLearns(x.paths, GetDir(v.0), Chars(v.1), reply.data, h, past);
  }

  /** After any packets and reports, a path that leads to a handle leads back. */
  lemma {:induction false} PathsConsistent(x: World, work: seq<Work>)
    requires Inv(x.log) && Consistent(x.paths)
    ensures Consistent(RunWorld(x, work).paths)
  {
    if work != [] {
      var before, w := work[..|work| - 1], work[|work| - 1];
      PathsConsistent(x, before);
      if w.Packet? {
        PacketConsistent(RunWorld(x, before).log, RunWorld(x, before).paths, w.q, w.past, w.cursor);
      }
    }
  }

  /** A report is printed exactly when one is due and its file can be opened; it says of each slot what the log held. */
  ghost predicate WorkTold(x: World, w: Work, report: Option<Parts>)
    requires Inv(x.log)
  {
    (report.Some? <==> w == Tick(true)) && (report.Some? ==> TellsAll(report.value, x))
  }

  /** What a reply of NFS version 3 means, at once. */
  lemma ReplyMeans(x: World, q: Queued, past: int -> u32, cursor: nat, l: Lane, ok: bool, results: Results)
    requires Inv(x.log) && q.record.version == 3 && q.record.call != CALL && l == LaneOfRecord(q.record)
    requires ok == (q.record.status == NFS3_OK) && results == Payload(q.data, past)
    ensures StepWorld(x, Work.Packet(q, past, cursor))
         == World(Requests.Step(x.log, Requests.Reply(l, q.record.xid)), x.thens,
                  ReplyPaths(x.paths, q.record.proc, ok, results, Asking(x.log, l)),
                  WithClient(x.keys, GetStringIp(q.record.srcHost), GetStringIp(q.record.dstHost)))
    ensures Kills(x.log, Work.Packet(q, past, cursor)) <==> Crashes(q.record.proc, ok, results, Asking(x.log, l))
  {
    AddNothing(x.thens);
  }

  /** What a call means. */
  lemma CallMeans(x: World, q: Queued, past: int -> u32, cursor: nat)
    requires Inv(x.log) && q.record.version == 3 && q.record.call == CALL
    ensures var call := DecodeCall(q.record.proc, q.data, cursor);
            var src, dst := GetStringIp(q.record.srcHost), GetStringIp(q.record.dstHost);
            var e := EventOf({src, dst}, q.record.xid, call);
            StepWorld(x, Work.Packet(q, past, cursor))
            == World(Requests.Step(x.log, e), x.thens + EventThens(x.paths, e), CallPaths(x.paths, call),
                     WithClient(x.keys, src, dst))
    ensures !Kills(x.log, Work.Packet(q, past, cursor))
  {
  }

  lemma NothingMeant(x: World, q: Queued, past: int -> u32, cursor: nat)
    requires Inv(x.log) && q.record.version != 3
    ensures StepWorld(x, Work.Packet(q, past, cursor)) == x && !Kills(x.log, Work.Packet(q, past, cursor))
  {
    OtherVersions(x.log, x.paths, q, past, cursor);
    AddNothing(x.thens);
  }

  lemma TickTold(x: World, report: Option<Parts>)
    requires Inv(x.log) && report.Some? && TellsAll(report.value, x)
    ensures WorkTold(x, Tick(true), report)
  {
  }

  lemma NotTold(x: World)
    requires Inv(x.log)
    ensures StepWorld(x, Tick(false)) == x && WorkTold(x, Tick(false), None)
  {
    AddNothing(x.thens);
  }

  lemma AddNothing<T>(xs: seq<T>)
    ensures xs + [] == xs
  {
  }

  /** The path that the handle had when the first of these requests of the two hosts came for it, if there is one. */
  function FirstThen(rs: seq<Request>, thens: seq<Path>, hosts: set<string>, id: Id): Option<Path>
    requires |rs| == |thens|
  {
    if rs == [] then None
    else
      var n := |rs| - 1;
      match FirstThen(rs[..n], thens[..n], hosts, id)
      case Some(p) => Some(p)
      case None => if rs[n].slot.hosts == hosts && rs[n].slot.handle == id then Some(thens[n]) else None
  }

  /** A handle has a file in the report exactly if a request of the two hosts for it is held. The file is under its
      own id, with the path that the handle had when the first of these came, or, if it had none then, the one it has
      now. */
  ghost predicate TitleTells(files: map<Id, FileReport>, id: Id, first: Option<Path>, now: Maps) {
    match first
    case None => id !in files
    case Some(p) => id in files && files[id].id == id && files[id].path == if p != "" then p else GetPath(now, id)
  }

  /** Exactly the pairs of hosts that have talked have a part, and its source is who talked first. */
  ghost predicate ClientsTell(parts: Parts, keys: map<set<string>, string>) {
    && parts.Keys == keys.Values
    && (forall h :: h in keys ==> keys[h] in parts && HostsOf(parts[keys[h]]) == h)
    && (forall k :: k in parts ==> k == PairKey(parts[k].dstAddr, parts[k].srcAddr))
  }

  /** The pairs of hosts that have talked since the last report, each with its key: the receiver of the first packet, a
      slash, and its sender. */
  function WithClient(keys: map<set<string>, string>, src: string, dst: string): map<set<string>, string> {
    if {src, dst} in keys then keys else keys[{src, dst} := PairKey(dst, src)]
  }

  function PacketKeys(keys: map<set<string>, string>, q: Queued): map<set<string>, string> {
    if q.record.version == 3 then WithClient(keys, GetStringIp(q.record.srcHost), GetStringIp(q.record.dstHost))
      else keys
  }

  function WorkKeys(keys: map<set<string>, string>, w: Work): map<set<string>, string> {
    match w
    case Packet(q, _, _) => PacketKeys(keys, q)
    case Tick(writable) => if writable then map[] else keys
  }

  ghost predicate TitlesTell(parts: Parts, m: State, thens: seq<Path>, now: Maps) {
    && m.drained <= |m.log| == |thens|
    && forall k, id :: k in parts ==>
         TitleTells(parts[k].files, id, FirstThen(Held(m), thens[m.drained..], HostsOf(parts[k]), id), now)
  }

  /** The hosts that a client's part of a report is about. */
  function HostsOf(r: ClientReport): set<string> {
    {r.srcAddr, r.dstAddr}
  }

  /** No pair of hosts is in a report twice, in either direction. */
  ghost predicate OncePerPair(parts: map<string, ClientReport>) {
    forall j, k :: j in parts && k in parts && HostsOf(parts[j]) == HostsOf(parts[k]) ==> j == k
  }

  /** A report says this about a slot. */
  ghost predicate Tells(parts: map<string, ClientReport>, s: Slot, t: Totals) {
    && (forall k :: k in parts && HostsOf(parts[k]) == s.hosts ==> FileTells(parts[k].files, s.handle, s.proc, t))
    && (t != Nothing ==> exists k :: k in parts && HostsOf(parts[k]) == s.hosts)
  }

  /** A report says of every slot what is held of it, has each pair of hosts once, and says of every file and every
      client what it should. */
  ghost predicate TellsAll(parts: Parts, x: World)
    requires x.log.drained <= |x.log.log|
  {
    && OncePerPair(parts) && (forall s :: Tells(parts, s, Tally(Held(x.log), s)))
    && TitlesTell(parts, x.log, x.thens, x.paths) && ClientsTell(parts, x.keys)
  }

  /** The objects are these requests. */
  ghost predicate Stands(objs: seq<BaseObject>, rs: seq<Request>, log: seq<Request>) {
    && |objs| == |rs|
    && forall i :: 0 <= i < |rs| ==> rs[i].slot == SlotOfObject(objs[i]) && rs[i].bytes == BytesOf(objs[i], log)
  }

  /** Filtering by client, file and procedure is the same as looking a slot up in the log. */
  lemma {:induction false} WeighTally(objs: seq<BaseObject>, rs: seq<Request>, log: seq<Request>, s: Slot)
    requires Stands(objs, rs, log)
    ensures SumAt(Where(objs, OfHosts(s.hosts)), log, s.handle, s.proc) == Tally(rs, s)
    decreases |objs|
  {
    if |objs| > 0 {
      Snoc(objs);
      Snoc(rs);
      StandsSnoc(objs, rs, log);
      WeighTally(objs[..|objs| - 1], rs[..|objs| - 1], log, s);
      WeighOneMore(objs[..|objs| - 1], objs[|objs| - 1], rs[..|objs| - 1], rs[|objs| - 1], log, s);
    }
  }

  lemma StandsSnoc(objs: seq<BaseObject>, rs: seq<Request>, log: seq<Request>)
    requires Stands(objs, rs, log) && |objs| > 0
    ensures Stands(objs[..|objs| - 1], rs[..|objs| - 1], log)
    ensures rs[|objs| - 1].slot == SlotOfObject(objs[|objs| - 1])
            && rs[|objs| - 1].bytes == BytesOf(objs[|objs| - 1], log)
  {
  }

  lemma WeighOneMore(objs: seq<BaseObject>, o: BaseObject, rs: seq<Request>, r: Request, log: seq<Request>, s: Slot)
    requires SumAt(Where(objs, OfHosts(s.hosts)), log, s.handle, s.proc) == Tally(rs, s)
    requires r.slot == SlotOfObject(o) && r.bytes == BytesOf(o, log)
    ensures SumAt(Where(objs + [o], OfHosts(s.hosts)), log, s.handle, s.proc) == Tally(rs + [r], s)
  {
    var ofHosts := Where(objs, OfHosts(s.hosts));
    var ofFile := Where(ofHosts, OfHandle(s.handle));
    WhereLast(objs, o, OfHosts(s.hosts));
    WhereLast(ofHosts, o, OfHandle(s.handle));
    WhereLast(ofFile, o, OfProc(s.proc));
    WeighLast(Where(ofFile, OfProc(s.proc)), o, log);
    TallyLast(rs, r, s);
  }
}
