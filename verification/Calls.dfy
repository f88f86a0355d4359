/** What the server thread reads out of a call's arguments and a reply's results. */
module Calls {
  import opened Ints
  import opened Codecs
  import opened Nfs3
  import opened Keys
  import opened PathMaps
  import opened Procs
  import opened Requests
  import opened Skips

  // ---------------------------------------------------------------- calls

  /** What a call leaves behind: the class of the object that its branch makes, and the key that it is queued and put
      into a slot under. */
  datatype Call =
    | Dropped
    | Plain(kind: Kind, key: u32, handle: bytes, name: string, count: u32)
    | Renaming(kind: Kind, key: u32, fromDir: bytes, name: string, toDir: bytes, newName: string)
    | Stray(count: u32)

  /** A name as the program copies it, up to its first zero byte. */
  function Chars(b: bytes): (s: string)
    ensures |s| <= |b|
  {
    if b == [] || b[0] == 0 then "" else [b[0] as char] + Chars(b[1..])
  }

  /** That is, all bytes before the first zero byte. */
  lemma {:induction false} CharsIs(b: bytes)
    ensures forall i :: 0 <= i < |Chars(b)| ==> b[i] != 0 && Chars(b)[i] == b[i] as char
    ensures |Chars(b)| < |b| ==> b[|Chars(b)|] == 0
  {
    if b != [] && b[0] != 0 {
      CharsIs(b[1..]);
      assert forall i :: 1 <= i < |Chars(b)| ==> Chars(b)[i] == Chars(b[1..])[i - 1] && b[i] == b[1..][i - 1];
    }
  }

  /** The branch of a procedure whose arguments are read by one filter: nothing is kept of arguments that do not
      decode. */
  function Read<T>(c: Codec<T>, data: bytes, keep: T -> Call): Call {
    match c.dec(data)
    case None => Dropped
    case Some((v, _)) => keep(v)
  }

  function ReadHandle(kind: Kind, key: u32, data: bytes): Call {
    Read(Fh3(), data, (fh: bytes) => Plain(kind, key, fh, "", 0))
  }

  function ReadDirOp(kind: Kind, key: u32, data: bytes): Call {
    Read(DirOpArgs(), data, (v: (bytes, bytes)) => PlainDirOp(kind, key, v))
  }

  function PlainDirOp(kind: Kind, key: u32, v: (bytes, bytes)): Call {
    Plain(kind, key, v.0, Chars(v.1), 0)
  }

  function RenamingOf(v: ((bytes, bytes), (bytes, bytes))): Call {
    Renaming(RenameObj, NFSPROC3_RENAME, v.0.0, Chars(v.0.1), v.1.0, Chars(v.1.1))
  }

  function RenameArgs(): Codec<((bytes, bytes), (bytes, bytes))> {
    Pair(DirOpArgs(), DirOpArgs())
  }

  function ReadArgs(): Codec<(bytes, (u64, u32))> {
    Pair(Fh3(), Pair(U64(), U32))
  }

  function ReaddirArgs(): Codec<(bytes, (u64, (bytes, u32)))> {
    Pair(Fh3(), Pair(U64(), Pair(Opaque(NFS3_COOKIEVERFSIZE), U32)))
  }

  function ReaddirPlusArgs(): Codec<(bytes, (u64, (bytes, (u32, u32))))> {
    Pair(Fh3(), Pair(U64(), Pair(Opaque(NFS3_COOKIEVERFSIZE), Pair(U32, U32))))
  }

  function AccessArgs(): Codec<(bytes, u32)> {
    Pair(Fh3(), U32)
  }

  function MkdirArgs(): Codec<((bytes, bytes), Sattr3)> {
    Pair(DirOpArgs(), SattrCodec())
  }

  function SymlinkArgs(): Codec<((bytes, bytes), (Sattr3, bytes))> {
    Pair(DirOpArgs(), Pair(SattrCodec(), String(MAX_UINT)))
  }

  function CountOf(data: bytes): Option<u32> {
    match Pair(U64(), U32).dec(data)
    case None => None
    case Some((v, _)) => Some(v.1)
  }

  /** Nothing is kept, or an object of this class, under this key. */
  predicate KeptAs(call: Call, kind: Kind, key: u32) {
    match call
    case Dropped => true
    case Plain(k, p, _, _, _) => k == kind && p == key
    case Renaming(k, p, _, _, _, _) => k == kind && p == key
    case Stray(_) => kind == WriteObj && key == NFSPROC3_WRITE
  }

  /** In every branch that keeps a call: the class of the object made there, and the branch's own procedure as its
      key. */
  predicate Branches(proc: u32, call: Call) {
    && (proc == NFSPROC3_GETATTR ==> KeptAs(call, GetAttrObj, NFSPROC3_GETATTR))
    && (proc == NFSPROC3_SETATTR ==> KeptAs(call, SetAttrObj, NFSPROC3_SETATTR))
    && (proc == NFSPROC3_LOOKUP ==> KeptAs(call, LookUpObject, NFSPROC3_LOOKUP))
    && (proc == NFSPROC3_ACCESS ==> KeptAs(call, AccessObj, NFSPROC3_ACCESS))
    && (proc == NFSPROC3_READ ==> KeptAs(call, ReadObj, NFSPROC3_READ))
    && (proc == NFSPROC3_WRITE ==> KeptAs(call, WriteObj, NFSPROC3_WRITE))
    && (proc == NFSPROC3_CREATE ==> KeptAs(call, CreateObject, NFSPROC3_CREATE))
    && (proc == NFSPROC3_MKDIR ==> KeptAs(call, MkDirObject, NFSPROC3_MKDIR))
    && (proc == NFSPROC3_SYMLINK ==> KeptAs(call, SymLinkObj, NFSPROC3_SYMLINK))
    && (proc == NFSPROC3_MKNOD ==> KeptAs(call, MkNodObj, NFSPROC3_MKNOD))
    && (proc == NFSPROC3_REMOVE ==> KeptAs(call, RemoveObj, NFSPROC3_REMOVE))
    && (proc == NFSPROC3_RMDIR ==> KeptAs(call, RmDirObj, NFSPROC3_RMDIR))
    && (proc == NFSPROC3_RENAME ==> KeptAs(call, RenameObj, NFSPROC3_RENAME))
    && (proc == NFSPROC3_READDIR ==> KeptAs(call, ReadDirObj, NFSPROC3_READDIR))
    && (proc == NFSPROC3_READDIRPLUS ==> KeptAs(call, ReadDirPlusObj, NFSPROC3_READDIRPLUS))
    && (proc == NFSPROC3_FSSTAT ==> KeptAs(call, FsStatObj, NFSPROC3_FSSTAT))
    && (proc == NFSPROC3_FSINFO ==> KeptAs(call, FsInfoObj, NFSPROC3_FSINFO))
    && (proc == NFSPROC3_PATHCONF ==> KeptAs(call, PathConfObj, NFSPROC3_PATHCONF))
    && (proc == NFSPROC3_COMMIT ==> KeptAs(call, CommitObj, NFSPROC3_COMMIT))
    && (KindFor(proc) == None ==> call == Dropped)
  }

  /** WRITE is read field by field. When its handle does not decode, the fields behind are read all the same, from
      wherever the failed filter has left the cursor. */
  function DecodeWrite(data: bytes, cursor: nat): Call {
    match Fh3().dec(data)
    case Some((fh, rest)) =>
      Plain(WriteObj, NFSPROC3_WRITE, fh, "", if CountOf(rest).Some? then CountOf(rest).value else 0)
    case None =>
      if cursor <= |data| && CountOf(data[cursor..]).Some? then Stray(CountOf(data[cursor..]).value) else Dropped
  }

  /** The procedures that make something: a directory handle and a name come first. */
  function DecodeMaking(proc: u32, data: bytes): (call: Call)
    ensures proc == NFSPROC3_CREATE ==> KeptAs(call, CreateObject, proc)
    ensures proc == NFSPROC3_MKDIR ==> KeptAs(call, MkDirObject, proc)
    ensures proc == NFSPROC3_SYMLINK ==> KeptAs(call, SymLinkObj, proc)
    ensures proc == NFSPROC3_MKNOD ==> KeptAs(call, MkNodObj, proc)
    ensures !call.Renaming? && (proc < NFSPROC3_CREATE || proc > NFSPROC3_MKNOD ==> call == Dropped)
  {
    if proc == NFSPROC3_CREATE then
      Read(CreateArgs(), data, (v: ((bytes, bytes), CreateHow3)) => PlainDirOp(CreateObject, NFSPROC3_CREATE, v.0))
    else if proc == NFSPROC3_MKDIR then
      Read(MkdirArgs(), data,
           (v: ((bytes, bytes), Sattr3)) => PlainDirOp(MkDirObject, NFSPROC3_MKDIR, v.0))
    else if proc == NFSPROC3_SYMLINK then
      Read(SymlinkArgs(), data, (v: ((bytes, bytes), (Sattr3, bytes))) => PlainDirOp(SymLinkObj, NFSPROC3_SYMLINK, v.0))
    else if proc == NFSPROC3_MKNOD then
      Read(MknodArgs(), data, (v: ((bytes, bytes), MknodData3)) => PlainDirOp(MkNodObj, NFSPROC3_MKNOD, v.0))
    else Dropped
  }

  /** The procedures that ask about one file, or about a directory's entries. */
  function DecodeAsking(proc: u32, data: bytes): (call: Call)
    ensures !call.Renaming? && (proc == NFSPROC3_GETATTR ==> KeptAs(call, GetAttrObj, proc))
    ensures proc == NFSPROC3_ACCESS ==> KeptAs(call, AccessObj, proc)
    ensures proc == NFSPROC3_READDIR ==> KeptAs(call, ReadDirObj, proc)
    ensures proc == NFSPROC3_READDIRPLUS ==> KeptAs(call, ReadDirPlusObj, proc)
    ensures proc == NFSPROC3_FSSTAT ==> KeptAs(call, FsStatObj, proc)
    ensures proc == NFSPROC3_FSINFO ==> KeptAs(call, FsInfoObj, proc)
    ensures proc == NFSPROC3_PATHCONF ==> KeptAs(call, PathConfObj, proc)
  {
    if proc == NFSPROC3_GETATTR then ReadHandle(GetAttrObj, NFSPROC3_GETATTR, data)
    else if proc == NFSPROC3_ACCESS then
      Read(AccessArgs(), data, (v: (bytes, u32)) => Plain(AccessObj, NFSPROC3_ACCESS, v.0, "", 0))
    else if proc == NFSPROC3_READDIR then
      Read(ReaddirArgs(), data, (v: (bytes, (u64, (bytes, u32)))) => Plain(ReadDirObj, NFSPROC3_READDIR, v.0, "", 0))
    else if proc == NFSPROC3_READDIRPLUS then
      Read(ReaddirPlusArgs(), data,
           (v: (bytes, (u64, (bytes, (u32, u32))))) => Plain(ReadDirPlusObj, NFSPROC3_READDIRPLUS, v.0, "", 0))
    else if proc == NFSPROC3_FSSTAT then ReadHandle(FsStatObj, NFSPROC3_FSSTAT, data)
    else if proc == NFSPROC3_FSINFO then ReadHandle(FsInfoObj, NFSPROC3_FSINFO, data)
    else if proc == NFSPROC3_PATHCONF then ReadHandle(PathConfObj, NFSPROC3_PATHCONF, data)
    else Dropped
  }

  /** The procedures that take a directory handle and a name, or two of each. */
  function DecodeNaming(proc: u32, data: bytes): (call: Call)
    ensures proc == NFSPROC3_LOOKUP ==> KeptAs(call, LookUpObject, proc)
    ensures proc == NFSPROC3_REMOVE ==> KeptAs(call, RemoveObj, proc)
    ensures proc == NFSPROC3_RMDIR ==> KeptAs(call, RmDirObj, proc)
    ensures proc == NFSPROC3_RENAME ==> KeptAs(call, RenameObj, proc)
    ensures proc < NFSPROC3_LOOKUP || NFSPROC3_RENAME < proc ==> call == Dropped
    ensures call.Renaming? ==> proc == NFSPROC3_RENAME && RenameArgs().dec(data).Some?
  {
    if proc == NFSPROC3_LOOKUP then ReadDirOp(LookUpObject, NFSPROC3_LOOKUP, data)
    else if proc == NFSPROC3_REMOVE then ReadDirOp(RemoveObj, NFSPROC3_REMOVE, data)
    else if proc == NFSPROC3_RMDIR then ReadDirOp(RmDirObj, NFSPROC3_RMDIR, data)
    else if proc == NFSPROC3_RENAME then Read(RenameArgs(), data, RenamingOf)
    else Dropped
  }

  /** The procedures that move data, and SETATTR. */
  function DecodeData(proc: u32, data: bytes, cursor: nat): (call: Call)
    ensures !call.Renaming? && (proc == NFSPROC3_READ ==> KeptAs(call, ReadObj, proc))
    ensures proc == NFSPROC3_WRITE ==> KeptAs(call, WriteObj, proc)
    ensures proc == NFSPROC3_COMMIT ==> KeptAs(call, CommitObj, proc)
    ensures proc == NFSPROC3_SETATTR ==> KeptAs(call, SetAttrObj, proc)
  {
    if proc == NFSPROC3_READ then
      Read(ReadArgs(), data, (v: (bytes, (u64, u32))) => Plain(ReadObj, NFSPROC3_READ, v.0, "", v.1.1))
    else if proc == NFSPROC3_WRITE then DecodeWrite(data, cursor)
    else if proc == NFSPROC3_COMMIT then
      Read(ReadArgs(), data, (v: (bytes, (u64, u32))) => Plain(CommitObj, NFSPROC3_COMMIT, v.0, "", 0))
    else if proc == NFSPROC3_SETATTR then
      Read(SetattrArgs(), data, (v: (bytes, (Sattr3, Option<Time>))) => Plain(SetAttrObj, NFSPROC3_SETATTR, v.0, "", 0))
    else Dropped
  }

  /** storeNfs3Message's switch, as far as a call is kept: NULL, READLINK, LINK and unknown procedures are not. */
  function DecodeCall(proc: u32, data: bytes, cursor: nat): (call: Call)
    ensures Branches(proc, call) && (call.Renaming? ==> proc == NFSPROC3_RENAME && RenameArgs().dec(data).Some?)
  {
    if proc in {NFSPROC3_LOOKUP, NFSPROC3_REMOVE, NFSPROC3_RMDIR, NFSPROC3_RENAME} then DecodeNaming(proc, data)
    else if proc in {NFSPROC3_READ, NFSPROC3_WRITE, NFSPROC3_COMMIT, NFSPROC3_SETATTR} then
      DecodeData(proc, data, cursor)
    else if NFSPROC3_CREATE <= proc <= NFSPROC3_MKNOD then DecodeMaking(proc, data)
    else DecodeAsking(proc, data)
  }

  /** So the object of a call is of the class for the call's procedure, and filed under that procedure. */
  lemma DecodeTyped(proc: u32, data: bytes, cursor: nat)
    ensures Fits(proc, DecodeCall(proc, data, cursor))
  {
    BranchesFit(proc, DecodeCall(proc, data, cursor));
  }

  predicate Fits(proc: u32, call: Call) {
    match call
    case Dropped => true
    case Plain(kind, key, _, _, _) => key == proc && ProcOf(kind) == proc
    case Renaming(kind, key, _, _, _, _) => key == proc && ProcOf(kind) == proc
    case Stray(_) => proc == NFSPROC3_WRITE
  }

  lemma BranchesFit(proc: u32, call: Call)
    requires Branches(proc, call)
    ensures Fits(proc, call)
  {
  }

  /** What the call means for the log of requests. */
  function EventOf(hosts: set<string>, xid: u32, call: Call): Event {
    match call
    case Dropped => Ignore
    case Plain(kind, key, handle, name, count) => File(Slot(hosts, GetDir(handle), key), Origin(kind, name, xid), count)
    case Renaming(kind, key, fromDir, _, _, _) => File(Slot(hosts, GetDir(fromDir), key), Origin(kind, "", xid), 0)
    case Stray(count) => StrayCount(hosts, count)
  }

  /** What it means for the paths. */
  function CallPaths(m: Maps, call: Call): Maps {
    match call
    case Renaming(_, _, fromDir, name, toDir, newName) => Rename(m, GetDir(fromDir), name, GetDir(toDir), newName)
    case _ => m
  }

  // ---------------------------------------------------------------- calls that peers send

  /** A READ's handle and count, as a client encodes them, reach the log whatever follows. */
  lemma ReadFiled(hosts: set<string>, xid: u32, fh: bytes, offset: u64, count: u32, rest: bytes, cursor: nat)
    requires |fh| <= NFS3_FHSIZE
    ensures EventOf(hosts, xid, DecodeCall(NFSPROC3_READ, ReadArgs().enc((fh, (offset, count))) + rest, cursor))
         == File(Slot(hosts, GetDir(fh), NFSPROC3_READ), Origin(ReadObj, "", xid), count)
  {
    ReadArgsBack(fh, offset, count, rest);
    ReadOnce(ReadArgs().enc((fh, (offset, count))) + rest, (fh, (offset, count)), rest, cursor);
  }

  lemma ReadOnce(data: bytes, v: (bytes, (u64, u32)), rest: bytes, cursor: nat)
    requires ReadArgs().dec(data) == Some((v, rest))
    ensures DecodeCall(NFSPROC3_READ, data, cursor) == Plain(ReadObj, NFSPROC3_READ, v.0, "", v.1.1)
  {
  }

  lemma ReadArgsBack(fh: bytes, offset: u64, count: u32, rest: bytes)
    requires |fh| <= NFS3_FHSIZE
    ensures ReadArgs().dec(ReadArgs().enc((fh, (offset, count))) + rest) == Some(((fh, (offset, count)), rest))
  {
    ReadArgsLawful();
    RoundTrip(ReadArgs(), (fh, (offset, count)), rest);
  }

  lemma FieldsBack(fh: bytes, offset: u64, count: u32, tail: bytes, rest: bytes)
    requires |fh| <= NFS3_FHSIZE
    ensures Fh3().dec(Fh3().enc(fh) + tail) == Some((fh, tail))
    ensures Pair(U64(), U32).dec(Pair(U64(), U32).enc((offset, count)) + rest) == Some(((offset, count), rest))
  {
    ReadArgsLawful();
    RoundTrip(Fh3(), fh, tail);
    RoundTrip(Pair(U64(), U32), (offset, count), rest);
  }

  lemma ReadArgsLawful()
    ensures Lawful(Fh3()) && Lawful(Pair(U64(), U32)) && Lawful(ReadArgs())
  {
    VarOpaqueLawful(NFS3_FHSIZE);
    U64Lawful();
    U32Lawful();
    PairLawful(U64(), U32);
    PairLawful(Fh3(), Pair(U64(), U32));
  }

  /** So do a WRITE's, although the data behind them is not looked at. */
  lemma WriteFiled(hosts: set<string>, xid: u32, fh: bytes, offset: u64, count: u32, rest: bytes, cursor: nat)
    requires |fh| <= NFS3_FHSIZE
    ensures EventOf(hosts, xid,
                    DecodeCall(NFSPROC3_WRITE, Fh3().enc(fh) + (Pair(U64(), U32).enc((offset, count)) + rest), cursor))
         == File(Slot(hosts, GetDir(fh), NFSPROC3_WRITE), Origin(WriteObj, "", xid), count)
  {
    var tail := Pair(U64(), U32).enc((offset, count)) + rest;
    FieldsBack(fh, offset, count, tail, rest);
    WriteOnce(Fh3().enc(fh) + tail, fh, tail, offset, count, rest, cursor);
  }

  lemma WriteOnce(data: bytes, fh: bytes, tail: bytes, offset: u64, count: u32, rest: bytes, cursor: nat)
    requires Fh3().dec(data) == Some((fh, tail)) && Pair(U64(), U32).dec(tail) == Some(((offset, count), rest))
    ensures DecodeCall(NFSPROC3_WRITE, data, cursor) == Plain(WriteObj, NFSPROC3_WRITE, fh, "", count)
  {
  }

  /** A WRITE call whose handle claims to be too long is taken to have no handle, and yet its count is used, if the
      decoder has stopped behind the length word. */
  lemma OverlongHandleStrays(n: u32, offset: u64, count: u32, rest: bytes)
    requires n > NFS3_FHSIZE
    ensures DecodeCall(NFSPROC3_WRITE, Ints.Bytes(n) + (Pair(U64(), U32).enc((offset, count)) + rest), 4)
         == Stray(count)
  {
    var tail := Pair(U64(), U32).enc((offset, count)) + rest;
    WordReadsBack(n, tail);
    FieldsBack([], offset, count, [], rest);
    StrayOnce(Ints.Bytes(n) + tail, tail, n, offset, count, rest);
  }

  lemma StrayOnce(data: bytes, tail: bytes, n: u32, offset: u64, count: u32, rest: bytes)
    requires n > NFS3_FHSIZE && DecodeWord(data) == Some((n, tail))
             && Pair(U64(), U32).dec(tail) == Some(((offset, count), rest))
    ensures DecodeCall(NFSPROC3_WRITE, data, 4) == Stray(count)
  {
    assert data[4..] == tail;
    assert DecodeWrite(data, 4) == Stray(count);
  }

  /** A RENAME's handles and names reach the maps. */
  lemma RenameFiled(m: Maps, from: (bytes, bytes), to: (bytes, bytes), rest: bytes, cursor: nat)
    requires DirOpArgs().ok(from) && DirOpArgs().ok(to)
    ensures CallPaths(m, DecodeCall(NFSPROC3_RENAME, RenameArgs().enc((from, to)) + rest, cursor))
         == Rename(m, GetDir(from.0), Chars(from.1), GetDir(to.0), Chars(to.1))
  {
    RenameBack(from, to, rest);
    RenameOnce(RenameArgs().enc((from, to)) + rest, (from, to), rest, cursor);
  }

  lemma RenameBack(from: (bytes, bytes), to: (bytes, bytes), rest: bytes)
    requires DirOpArgs().ok(from) && DirOpArgs().ok(to)
    ensures RenameArgs().dec(RenameArgs().enc((from, to)) + rest) == Some(((from, to), rest))
  {
    DirOpArgsLawful();
    PairLawful(DirOpArgs(), DirOpArgs());
    RoundTrip(RenameArgs(), (from, to), rest);
  }

  lemma RenameOnce(data: bytes, v: ((bytes, bytes), (bytes, bytes)), rest: bytes, cursor: nat)
    requires RenameArgs().dec(data) == Some((v, rest))
    ensures DecodeCall(NFSPROC3_RENAME, data, cursor) == RenamingOf(v)
  {
  }

  /** A LOOKUP's handle and name reach the log. */
  lemma LookupFiled(hosts: set<string>, xid: u32, v: (bytes, bytes), rest: bytes, cursor: nat)
    requires DirOpArgs().ok(v)
    ensures EventOf(hosts, xid, DecodeCall(NFSPROC3_LOOKUP, DirOpArgs().enc(v) + rest, cursor))
         == File(Slot(hosts, GetDir(v.0), NFSPROC3_LOOKUP), Origin(LookUpObject, Chars(v.1), xid), 0)
  {
    DirOpBack(v, rest);
    LookupOnce(DirOpArgs().enc(v) + rest, v, rest, cursor);
  }

  lemma DirOpBack(v: (bytes, bytes), rest: bytes)
    requires DirOpArgs().ok(v)
    ensures DirOpArgs().dec(DirOpArgs().enc(v) + rest) == Some((v, rest))
  {
    DirOpArgsLawful();
    RoundTrip(DirOpArgs(), v, rest);
  }

  lemma LookupOnce(data: bytes, v: (bytes, bytes), rest: bytes, cursor: nat)
    requires DirOpArgs().dec(data) == Some((v, rest))
    ensures DecodeCall(NFSPROC3_LOOKUP, data, cursor) == PlainDirOp(LookUpObject, NFSPROC3_LOOKUP, v)
  {
  }

  // ---------------------------------------------------------------- replies

  /** A reply's results: their words, read beyond the captured end too, and their captured bytes. */
  datatype Results = Results(words: int -> u32, end: nat, data: bytes)

  /** The results in a captured payload; `past` are the words of memory around it. */
  function Payload(data: bytes, past: int -> u32): Results {
    var end := |data| / 4;
    Results(i => if 0 <= i < end then Number(data[4 * i..4 * i + 4]) else past(i), end, data[..4 * end])
  }

  /** The handle that a successful LOOKUP, CREATE or MKDIR returns. CREATE and MKDIR have a bool before it. */
  function NewHandle(proc: u32, ok: bool, r: Results): Option<Id> {
    if !ok then None
    else if proc == NFSPROC3_LOOKUP then HandleAt(r, 0)
    else if (proc == NFSPROC3_CREATE || proc == NFSPROC3_MKDIR) && r.words(0) != 0 then HandleAt(r, 1)
    else None
  }

  function HandleAt(r: Results, p: nat): Option<Id> {
    match ReadDir(r.words, p, r.end)
    case None => None
    case Some((_, key)) => Some(key)
  }

  /** The entries that a successful READDIRPLUS returns: handle key and name. An entry without handle has an empty
      key. */
  function NewEntries(proc: u32, ok: bool, r: Results): Option<seq<(Id, string)>> {
    if proc != NFSPROC3_READDIRPLUS || !ok then None
    else
      match ReaddirPlusOk().dec(r.data)
      case None => None
      case Some((v, _)) => Some(EntryKeys(v.1.1.0))
  }

  function EntryKeys(es: seq<EntryPlus3>): (ks: seq<(Id, string)>)
    ensures |ks| == |es|
  {
    if es == [] then [] else EntryKeys(es[..|es| - 1]) + [EntryKey(es[|es| - 1])]
  }

  function EntryKey(e: EntryPlus3): (Id, string) {
    (GetDir(if e.handle.Some? then e.handle.value else []), Chars(e.name))
  }

  /** The paths of a directory's entries, if the directory's own path is known. */
  function LearnAll(m: Maps, dirPath: Path, es: seq<(Id, string)>): Maps {
    if es == [] || dirPath == "" then m
    else SetPath(LearnAll(m, dirPath, es[..|es| - 1]), es[|es| - 1].0, dirPath + "/" + es[|es| - 1].1)
  }

  /** The request in the reply's slot, as far as the reply uses it: its directory's handle and its name. */
  type Asked = Option<(Id, string)>

  /** A MKDIR or READDIRPLUS reply uses the request without checking that there is one. A WRITE reply is skipped
      through, whatever its status and its slot, and then, if it succeeded, its count is read where the skip ended. */
  predicate Crashes(proc: u32, ok: bool, r: Results, asked: Asked) {
    || (asked == None && ((proc == NFSPROC3_MKDIR && NewHandle(proc, ok, r).Some?) || NewEntries(proc, ok, r).Some?))
    || (proc == NFSPROC3_WRITE && WriteCrashes(ok, r))
  }

  predicate WriteCrashes(ok: bool, r: Results) {
    var p := SkipWccData3(r.words, At(0), r.end);
    p == Crash || (ok && p == Wild)
  }

  /** So a WRITE reply crashes the program exactly if its first word announces old attributes and fewer than five of
      their six words are captured, or, with NFS3_OK, if it announces new ones and fewer than fourteen of their words
      are. */
  lemma WriteCrashesExactly(ok: bool, r: Results)
    ensures var j := if r.words(0) != 0 then 7 else 1;
            WriteCrashes(ok, r) <==>
              (r.words(0) != 0 && r.end < 6)
              || (ok && (r.words(0) == 0 || r.end >= 6) && r.words(j) != 0 && j + 1 <= r.end < j + 15)
  {
    SkipCrashes(r.words, r.end);
  }

  /** No other replies crash it but, without a request in their slot, a MKDIR reply with a handle and a READDIRPLUS
      reply with a listing; both only if they report success. */
  lemma CrashesExactly(proc: u32, ok: bool, r: Results, asked: Asked)
    ensures Crashes(proc, ok, r, asked) <==>
              || (proc == 7 && WriteCrashes(ok, r))
              || (proc == 9 && ok && asked == None && r.words(0) != 0 && HandleAt(r, 1).Some?)
              || (proc == 17 && ok && asked == None && ReaddirPlusOk().dec(r.data).Some?)
  {
  }

  lemma CrashesOnly(proc: u32, ok: bool, r: Results, asked: Asked)
    requires Crashes(proc, ok, r, asked)
    ensures proc in {7, 9, 17} && (proc != 7 ==> ok && asked == None)
  {
  }

  /** A WRITE reply of which one word is captured, announcing old attributes, crashes the program. */
  lemma TruncatedWrite(ok: bool, past: int -> u32)
    ensures WriteCrashes(ok, Payload([0, 0, 0, 1], past))
  {
    NumberOfBytes(1);
    assert Bytes(1) == [0, 0, 0, 1] && [0, 0, 0, 1][..4] == [0, 0, 0, 1];
    SkipCrashes(Payload([0, 0, 0, 1], past).words, 1);
  }

  /** What a reply means for the paths. */
  function ReplyPaths(m: Maps, proc: u32, ok: bool, r: Results, asked: Asked): Maps {
    match asked
    case None => m
    case Some((parent, name)) =>
      var m' := if NewHandle(proc, ok, r).Some? then Learn(m, parent, name, NewHandle(proc, ok, r).value) else m;
      if NewEntries(proc, ok, r).Some? then LearnAll(m', GetPath(m', parent), NewEntries(proc, ok, r).value) else m'
  }

  lemma PayloadWords(data: bytes, past: int -> u32, p: nat, e: bytes)
    requires 4 * p + |e| <= |data| && data[4 * p..4 * p + |e|] == e
    ensures Keys.WordsOf(Payload(data, past).words, p, e)
  {
    forall j | 0 <= j && 4 * j + 4 <= |e|
      ensures Payload(data, past).words(p + j) == Number(e[4 * j..4 * j + 4])
    {
      SliceOfSlice(data, 4 * p, 4 * p + |e|, 4 * j, 4 * j + 4);
      assert 4 * (p + j) == 4 * p + 4 * j && 0 <= p + j < |data| / 4;
    }
  }

  /** An encoded handle takes its length word and `n` words more. */
  lemma VarLength(h: bytes) returns (n: nat)
    requires 1 <= |h| <= NFS3_FHSIZE
    ensures n >= 1 && |EncodeVar(h)| == 4 * (1 + n)
  {
    n := (|h| + 3) / 4;
  }

  /** Where a payload has an encoded handle, the key found is the hex of the zero-padded handle. */
  lemma HandleInPayload(data: bytes, past: int -> u32, p: nat, h: bytes)
    requires 1 <= |h| <= NFS3_FHSIZE && 4 * p + |EncodeVar(h)| <= |data|
    requires data[4 * p..4 * p + |EncodeVar(h)|] == EncodeVar(h)
    ensures HandleAt(Payload(data, past), p) == Some(GetDir(h + Padding(|h|)))
  {
    var n := VarLength(h);
    PayloadWords(data, past, p, EncodeVar(h));
    ReadDirKey(Payload(data, past).words, p, |data| / 4, h, n);
  }

  lemma HandleTaken(proc: u32, r: Results, id: Id)
    requires || (proc in {NFSPROC3_CREATE, NFSPROC3_MKDIR} && r.words(0) != 0 && HandleAt(r, 1) == Some(id))
             || (proc == NFSPROC3_LOOKUP && HandleAt(r, 0) == Some(id))
    ensures NewHandle(proc, true, r) == Some(id)
  {
  }

  lemma FirstWord(w: u32, data: bytes, past: int -> u32)
    requires |data| >= 4 && data[..4] == Bytes(w)
    ensures Payload(data, past).words(0) == w
  {
    assert data[0..4] == data[..4];
    NumberOfBytes(w);
  }

  /** A CREATE or MKDIR reply that starts with the new handle. */
  lemma MadeHandle(proc: u32, data: bytes, h: bytes, past: int -> u32)
    requires proc in {NFSPROC3_CREATE, NFSPROC3_MKDIR} && 1 <= |h| <= NFS3_FHSIZE && 4 + |EncodeVar(h)| <= |data|
    requires data[..4] == Bytes(1) && data[4..4 + |EncodeVar(h)|] == EncodeVar(h)
    ensures NewHandle(proc, true, Payload(data, past)) == Some(GetDir(h + Padding(|h|)))
  {
    HandleInPayload(data, past, 1, h);
    FirstWord(1, data, past);
    HandleTaken(proc, Payload(data, past), GetDir(h + Padding(|h|)));
  }

  /** A READDIRPLUS reply with an encoded listing, and whatever behind. */
  lemma ListingRead(r: Results, v: (Option<Fattr3>, (bytes, (seq<EntryPlus3>, bool))), rest: bytes)
    requires ReaddirPlusOk().ok(v) && r.data == ReaddirPlusOk().enc(v) + rest
    ensures NewEntries(NFSPROC3_READDIRPLUS, true, r) == Some(EntryKeys(v.1.1.0))
  {
    ListingsFaithful();
  }

  lemma HandleLearned(m: Maps, parent: Id, name: string, r: Results, id: Id)
    requires NewHandle(NFSPROC3_LOOKUP, true, r) == Some(id)
    ensures ReplyPaths(m, NFSPROC3_LOOKUP, true, r, Some((parent, name))) == Learn(m, parent, name, id)
  {
  }

  /** A LOOKUP reply that starts with an encoded handle teaches the padded handle's key the path of the name that was
      asked for. */
  lemma LookupLearns(m: Maps, parent: Id, name: string, data: bytes, h: bytes, past: int -> u32)
    requires 1 <= |h| <= NFS3_FHSIZE && |EncodeVar(h)| <= |data| && data[0..|EncodeVar(h)|] == EncodeVar(h)
    ensures ReplyPaths(m, NFSPROC3_LOOKUP, true, Payload(data, past), Some((parent, name)))
         == Learn(m, parent, name, GetDir(h + Padding(|h|)))
  {
    HandleInPayload(data, past, 0, h);
    HandleTaken(NFSPROC3_LOOKUP, Payload(data, past), GetDir(h + Padding(|h|)));
    HandleLearned(m, parent, name, Payload(data, past), GetDir(h + Padding(|h|)));
  }

  /** When a reply teaches a handle not known before, the path can then be found under the key that calls use for that
      handle exactly if the handle's length is a multiple of four; under the padded key it can be found always. */
  lemma LookupTeaches(m: Maps, parent: Id, name: string, h: bytes)
    requires GetDir(h) !in m.id2Path && GetDir(h + Padding(|h|)) !in m.id2Path
    ensures var m' := Learn(m, parent, name, GetDir(h + Padding(|h|)));
            && GetDir(h + Padding(|h|)) in m'.id2Path
            && (GetDir(h) in m'.id2Path <==> |h| % 4 == 0)
  {
    KeysAgree(h);
    LearnBinds(m, parent, name, GetDir(h + Padding(|h|)), GetDir(h));
  }

  lemma LearnBinds(m: Maps, parent: Id, name: string, id: Id, other: Id)
    requires id !in m.id2Path && other !in m.id2Path
    ensures id in Learn(m, parent, name, id).id2Path && (other in Learn(m, parent, name, id).id2Path <==> other == id)
  {
  }

  /** Nor does any call. */
  lemma CallConsistent(m: Maps, call: Call)
    requires Consistent(m)
    ensures Consistent(CallPaths(m, call))
  {
    if call.Renaming? {
      RenameConsistent(m, GetDir(call.fromDir), call.name, GetDir(call.toDir), call.newName);
    }
  }

  /** No reply makes the maps inconsistent. */
  lemma ReplyConsistent(m: Maps, proc: u32, ok: bool, r: Results, asked: Asked)
    requires Consistent(m)
    ensures Consistent(ReplyPaths(m, proc, ok, r, asked))
  {
    if asked.Some? {
      var (parent, name) := asked.value;
      var m' := m;
      if NewHandle(proc, ok, r).Some? {
        LearnOnce(m, parent, name, NewHandle(proc, ok, r).value, "", "");
        m' := Learn(m, parent, name, NewHandle(proc, ok, r).value);
      }
      if NewEntries(proc, ok, r).Some? {
        LearnAllConsistent(m', GetPath(m', parent), NewEntries(proc, ok, r).value);
      }
    }
  }

  lemma {:induction false} LearnAllConsistent(m: Maps, dirPath: Path, es: seq<(Id, string)>)
    requires Consistent(m)
    ensures Consistent(LearnAll(m, dirPath, es))
  {
    if es != [] && dirPath != "" {
      LearnAllConsistent(m, dirPath, es[..|es| - 1]);
      StepConsistent(LearnAll(m, dirPath, es[..|es| - 1]), Set(es[|es| - 1].0, dirPath + "/" + es[|es| - 1].1));
    }
  }
}
