/** Every kind of call that is kept, from its arguments to the log: what is filed of it, and that nothing is filed of
    arguments that do not decode. */
module Filing {
  import opened Ints
  import opened Codecs
  import opened Nfs3
  import opened Keys
  import opened Procs
  import opened Requests
  import opened Calls
  import opened Layout
  import PathMaps

  /** The procedure numbers of RFC 1813, section 3.3, for the classes of objects. */
  predicate IsProc(proc: u32, kind: Kind) {
    match kind
    case GetAttrObj => proc == 1
    case SetAttrObj => proc == 2
    case LookUpObject => proc == 3
    case AccessObj => proc == 4
    case ReadObj => proc == 6
    case WriteObj => proc == 7
    case CreateObject => proc == 8
    case MkDirObject => proc == 9
    case SymLinkObj => proc == 10
    case MkNodObj => proc == 11
    case RemoveObj => proc == 12
    case RmDirObj => proc == 13
    case RenameObj => proc == 14
    case ReadDirObj => proc == 16
    case ReadDirPlusObj => proc == 17
    case FsStatObj => proc == 18
    case FsInfoObj => proc == 19
    case PathConfObj => proc == 20
    case CommitObj => proc == 21
  }

  lemma ProcNumbers(kind: Kind)
    ensures IsProc(ProcOf(kind), kind)
  {
  }

  /** Of a call by these hosts is filed: its handle, its class and name, and its count. */
  function Kept(hosts: set<string>, proc: u32, kind: Kind, handle: bytes, name: string, xid: u32, count: u32): Event {
    File(Slot(hosts, GetDir(handle), proc), Origin(kind, name, xid), count)
  }

  // ---------------------------------------------------------------- arguments that decode, and arguments that do not

  /** GETATTR, FSSTAT, FSINFO and PATHCONF: a handle. */
  lemma HandleRead(hosts: set<string>, xid: u32, proc: u32, kind: Kind, data: bytes, cursor: nat)
    requires kind in {GetAttrObj, FsStatObj, FsInfoObj, PathConfObj} && IsProc(proc, kind)
    ensures EventOf(hosts, xid, DecodeCall(proc, data, cursor)) ==
            match Fh3().dec(data)
            case None => Ignore
            case Some((v, _)) => Kept(hosts, proc, kind, v, "", xid, 0)
  {
    HandleDecoded(proc, kind, data, cursor);
  }

  lemma HandleDecoded(proc: u32, kind: Kind, data: bytes, cursor: nat)
    requires kind in {GetAttrObj, FsStatObj, FsInfoObj, PathConfObj} && IsProc(proc, kind)
    ensures DecodeCall(proc, data, cursor) == ReadHandle(kind, proc, data)
  {
  }

  /** LOOKUP, REMOVE and RMDIR: a directory's handle and a name. */
  lemma DirOpRead(hosts: set<string>, xid: u32, proc: u32, kind: Kind, data: bytes, cursor: nat)
    requires kind in {LookUpObject, RemoveObj, RmDirObj} && IsProc(proc, kind)
    ensures EventOf(hosts, xid, DecodeCall(proc, data, cursor)) ==
            match DirOpArgs().dec(data)
            case None => Ignore
            case Some((v, _)) => Kept(hosts, proc, kind, v.0, Chars(v.1), xid, 0)
  {
  }

  /** ACCESS: a handle and the access asked for. */
  lemma AccessRead(hosts: set<string>, xid: u32, proc: u32, kind: Kind, data: bytes, cursor: nat)
    requires kind == AccessObj && IsProc(proc, kind)
    ensures EventOf(hosts, xid, DecodeCall(proc, data, cursor)) ==
            match AccessArgs().dec(data)
            case None => Ignore
            case Some((v, _)) => Kept(hosts, proc, kind, v.0, "", xid, 0)
  {
  }

  /** SETATTR: a handle, attributes and a guard. */
  lemma SetattrRead(hosts: set<string>, xid: u32, proc: u32, kind: Kind, data: bytes, cursor: nat)
    requires kind == SetAttrObj && IsProc(proc, kind)
    ensures EventOf(hosts, xid, DecodeCall(proc, data, cursor)) ==
            match SetattrArgs().dec(data)
            case None => Ignore
            case Some((v, _)) => Kept(hosts, proc, kind, v.0, "", xid, 0)
  {
  }

  /** CREATE: a directory's handle and a name, and how to create. */
  lemma CreateRead(hosts: set<string>, xid: u32, proc: u32, kind: Kind, data: bytes, cursor: nat)
    requires kind == CreateObject && IsProc(proc, kind)
    ensures EventOf(hosts, xid, DecodeCall(proc, data, cursor)) ==
            match CreateArgs().dec(data)
            case None => Ignore
            case Some((v, _)) => Kept(hosts, proc, kind, v.0.0, Chars(v.0.1), xid, 0)
  {
  }

  /** MKDIR: a directory's handle and a name, and attributes. */
  lemma MkdirRead(hosts: set<string>, xid: u32, proc: u32, kind: Kind, data: bytes, cursor: nat)
    requires kind == MkDirObject && IsProc(proc, kind)
    ensures EventOf(hosts, xid, DecodeCall(proc, data, cursor)) ==
            match MkdirArgs().dec(data)
            case None => Ignore
            case Some((v, _)) => Kept(hosts, proc, kind, v.0.0, Chars(v.0.1), xid, 0)
  {
  }

  /** SYMLINK: a directory's handle and a name, attributes and the target. */
  lemma SymlinkRead(hosts: set<string>, xid: u32, proc: u32, kind: Kind, data: bytes, cursor: nat)
    requires kind == SymLinkObj && IsProc(proc, kind)
    ensures EventOf(hosts, xid, DecodeCall(proc, data, cursor)) ==
            match SymlinkArgs().dec(data)
            case None => Ignore
            case Some((v, _)) => Kept(hosts, proc, kind, v.0.0, Chars(v.0.1), xid, 0)
  {
  }

  /** MKNOD: a directory's handle and a name, and what to make. */
  lemma MknodRead(hosts: set<string>, xid: u32, proc: u32, kind: Kind, data: bytes, cursor: nat)
    requires kind == MkNodObj && IsProc(proc, kind)
    ensures EventOf(hosts, xid, DecodeCall(proc, data, cursor)) ==
            match MknodArgs().dec(data)
            case None => Ignore
            case Some((v, _)) => Kept(hosts, proc, kind, v.0.0, Chars(v.0.1), xid, 0)
  {
  }

  /** READDIR: a directory's handle, a cookie, a verifier and a count. */
  lemma ReaddirRead(hosts: set<string>, xid: u32, proc: u32, kind: Kind, data: bytes, cursor: nat)
    requires kind == ReadDirObj && IsProc(proc, kind)
    ensures EventOf(hosts, xid, DecodeCall(proc, data, cursor)) ==
            match ReaddirArgs().dec(data)
            case None => Ignore
            case Some((v, _)) => Kept(hosts, proc, kind, v.0, "", xid, 0)
  {
  }

  /** READDIRPLUS: the same with two counts. */
  lemma ReaddirPlusRead(hosts: set<string>, xid: u32, proc: u32, kind: Kind, data: bytes, cursor: nat)
    requires kind == ReadDirPlusObj && IsProc(proc, kind)
    ensures EventOf(hosts, xid, DecodeCall(proc, data, cursor)) ==
            match ReaddirPlusArgs().dec(data)
            case None => Ignore
            case Some((v, _)) => Kept(hosts, proc, kind, v.0, "", xid, 0)
  {
  }

  /** COMMIT: a handle, an offset and a count, which is not kept. */
  lemma CommitRead(hosts: set<string>, xid: u32, proc: u32, kind: Kind, data: bytes, cursor: nat)
    requires kind == CommitObj && IsProc(proc, kind)
    ensures EventOf(hosts, xid, DecodeCall(proc, data, cursor)) ==
            match ReadArgs().dec(data)
            case None => Ignore
            case Some((v, _)) => Kept(hosts, proc, kind, v.0, "", xid, 0)
  {
  }

  /** RENAME: two directories' handles and names; the request is filed under the first. */
  lemma RenameRead(hosts: set<string>, xid: u32, proc: u32, data: bytes, cursor: nat)
    requires IsProc(proc, RenameObj)
    ensures EventOf(hosts, xid, DecodeCall(proc, data, cursor)) ==
            match RenameArgs().dec(data)
            case None => Ignore
            case Some((v, _)) => Kept(hosts, proc, RenameObj, v.0.0, "", xid, 0)
  {
    RenameDecoded(proc, data, cursor);
    match RenameArgs().dec(data)
    case None =>
    case Some((v, _)) => RenamingEvent(hosts, xid, proc, v);
  }

  lemma RenamingEvent(hosts: set<string>, xid: u32, proc: u32, v: ((bytes, bytes), (bytes, bytes)))
    requires IsProc(proc, RenameObj)
    ensures EventOf(hosts, xid, RenamingOf(v)) == Kept(hosts, proc, RenameObj, v.0.0, "", xid, 0)
  {
  }

  lemma RenameDecoded(proc: u32, data: bytes, cursor: nat)
    requires IsProc(proc, RenameObj)
    ensures DecodeCall(proc, data, cursor) == Read(RenameArgs(), data, RenamingOf)
  {
    assert DecodeNaming(proc, data) == Read(RenameArgs(), data, RenamingOf);
  }

  /** READ: a handle, an offset and the count, which is kept. */
  lemma ReadRead(hosts: set<string>, xid: u32, proc: u32, data: bytes, cursor: nat)
    requires IsProc(proc, ReadObj)
    ensures EventOf(hosts, xid, DecodeCall(proc, data, cursor)) ==
            match ReadArgs().dec(data)
            case None => Ignore
            case Some((v, _)) => Kept(hosts, proc, ReadObj, v.0, "", xid, v.1.1)
  {
  }

  /** WRITE: a handle and, behind an offset, the count, each as far as it decodes. Without a handle the count is
      looked for where the decoder has stopped, and strays. */
  lemma WriteRead(hosts: set<string>, xid: u32, proc: u32, data: bytes, cursor: nat)
    requires IsProc(proc, WriteObj)
    ensures EventOf(hosts, xid, DecodeCall(proc, data, cursor)) ==
            match Fh3().dec(data)
            case Some((fh, rest)) =>
              (match Pair(U64(), U32).dec(rest)
               case None => Kept(hosts, proc, WriteObj, fh, "", xid, 0)
               case Some((v, _)) => Kept(hosts, proc, WriteObj, fh, "", xid, v.1))
            case None =>
              if cursor > |data| then Ignore
              else
                match Pair(U64(), U32).dec(data[cursor..])
                case None => Ignore
                case Some((v, _)) => StrayCount(hosts, v.1)
  {
  }

  /** NULL, READLINK, LINK and numbers that no procedure has: nothing is filed. */
  lemma OthersRead(hosts: set<string>, xid: u32, proc: u32, data: bytes, cursor: nat)
    requires proc in {0, 5, 15} || proc > 21
    ensures EventOf(hosts, xid, DecodeCall(proc, data, cursor)) == Ignore
  {
  }

  // ---------------------------------------------------------------- arguments that peers encode

  lemma FaithfulBack<T(!new)>(c: Codec<T>, v: T, rest: bytes)
    requires Faithful(c) && c.ok(v)
    ensures c.dec(c.enc(v) + rest) == Some((v, rest))
  {
  }

  lemma HandleFiled(hosts: set<string>, xid: u32, proc: u32, kind: Kind, v: bytes, rest: bytes, cursor: nat)
    requires kind in {GetAttrObj, FsStatObj, FsInfoObj, PathConfObj} && IsProc(proc, kind) && Fh3().ok(v)
    ensures EventOf(hosts, xid, DecodeCall(proc, Fh3().enc(v) + rest, cursor))
         == Kept(hosts, proc, kind, v, "", xid, 0)
  {
    HandleBack(v, rest);
    HandleRead(hosts, xid, proc, kind, Fh3().enc(v) + rest, cursor);
  }

  lemma HandleBack(v: bytes, rest: bytes)
    requires Fh3().ok(v)
    ensures Fh3().dec(Fh3().enc(v) + rest) == Some((v, rest))
  {
    VarOpaqueLawful(NFS3_FHSIZE);
    RoundTrip(Fh3(), v, rest);
  }

  lemma DirOpFiled(hosts: set<string>, xid: u32, proc: u32, kind: Kind, v: (bytes, bytes), rest: bytes, cursor: nat)
    requires kind in {LookUpObject, RemoveObj, RmDirObj} && IsProc(proc, kind) && DirOpArgs().ok(v)
    ensures EventOf(hosts, xid, DecodeCall(proc, DirOpArgs().enc(v) + rest, cursor))
         == Kept(hosts, proc, kind, v.0, Chars(v.1), xid, 0)
  {
    DirOpBack(v, rest);
    DirOpRead(hosts, xid, proc, kind, DirOpArgs().enc(v) + rest, cursor);
  }

  lemma DirOpBack(v: (bytes, bytes), rest: bytes)
    requires DirOpArgs().ok(v)
    ensures DirOpArgs().dec(DirOpArgs().enc(v) + rest) == Some((v, rest))
  {
    DirOpArgsLawful();
    RoundTrip(DirOpArgs(), v, rest);
  }

  lemma AccessFiled(hosts: set<string>, xid: u32, proc: u32, kind: Kind, v: (bytes, u32), rest: bytes, cursor: nat)
    requires kind == AccessObj && IsProc(proc, kind) && AccessArgs().ok(v)
    ensures EventOf(hosts, xid, DecodeCall(proc, AccessArgs().enc(v) + rest, cursor))
         == Kept(hosts, proc, kind, v.0, "", xid, 0)
  {
    AccessBack(v, rest);
    AccessRead(hosts, xid, proc, kind, AccessArgs().enc(v) + rest, cursor);
  }

  lemma AccessBack(v: (bytes, u32), rest: bytes)
    requires AccessArgs().ok(v)
    ensures AccessArgs().dec(AccessArgs().enc(v) + rest) == Some((v, rest))
  {
    VarOpaqueLawful(NFS3_FHSIZE);
    U32Lawful();
    PairLawful(Fh3(), U32);
    RoundTrip(AccessArgs(), v, rest);
  }

  lemma SetattrFiled(hosts: set<string>, xid: u32, proc: u32, kind: Kind, v: (bytes, (Sattr3, Option<Time>)),
                     rest: bytes, cursor: nat)
    requires kind == SetAttrObj && IsProc(proc, kind) && SetattrArgs().ok(v)
    ensures EventOf(hosts, xid, DecodeCall(proc, SetattrArgs().enc(v) + rest, cursor))
         == Kept(hosts, proc, kind, v.0, "", xid, 0)
  {
    SetattrBack(v, rest);
    SetattrRead(hosts, xid, proc, kind, SetattrArgs().enc(v) + rest, cursor);
  }

  lemma SetattrBack(v: (bytes, (Sattr3, Option<Time>)), rest: bytes)
    requires SetattrArgs().ok(v)
    ensures SetattrArgs().dec(SetattrArgs().enc(v) + rest) == Some((v, rest))
  {
    SetattrFaithful();
    FaithfulBack(SetattrArgs(), v, rest);
  }

  lemma CreateFiled(hosts: set<string>, xid: u32, proc: u32, kind: Kind, v: ((bytes, bytes), CreateHow3), rest: bytes,
                    cursor: nat)
    requires kind == CreateObject && IsProc(proc, kind) && CreateArgs().ok(v)
    ensures EventOf(hosts, xid, DecodeCall(proc, CreateArgs().enc(v) + rest, cursor))
         == Kept(hosts, proc, kind, v.0.0, Chars(v.0.1), xid, 0)
  {
    CreateBack(v, rest);
    CreateRead(hosts, xid, proc, kind, CreateArgs().enc(v) + rest, cursor);
  }

  lemma CreateBack(v: ((bytes, bytes), CreateHow3), rest: bytes)
    requires CreateArgs().ok(v)
    ensures CreateArgs().dec(CreateArgs().enc(v) + rest) == Some((v, rest))
  {
    CreateFaithful();
    FaithfulBack(CreateArgs(), v, rest);
  }

  lemma MkdirFiled(hosts: set<string>, xid: u32, proc: u32, kind: Kind, v: ((bytes, bytes), Sattr3), rest: bytes,
                   cursor: nat)
    requires kind == MkDirObject && IsProc(proc, kind) && MkdirArgs().ok(v)
    ensures EventOf(hosts, xid, DecodeCall(proc, MkdirArgs().enc(v) + rest, cursor))
         == Kept(hosts, proc, kind, v.0.0, Chars(v.0.1), xid, 0)
  {
    MkdirBack(v, rest);
    MkdirRead(hosts, xid, proc, kind, MkdirArgs().enc(v) + rest, cursor);
  }

  lemma MkdirBack(v: ((bytes, bytes), Sattr3), rest: bytes)
    requires MkdirArgs().ok(v)
    ensures MkdirArgs().dec(MkdirArgs().enc(v) + rest) == Some((v, rest))
  {
    DirOpArgsLawful();
    SattrLawful();
    PairLawful(DirOpArgs(), SattrCodec());
    RoundTrip(MkdirArgs(), v, rest);
  }

  lemma SymlinkFiled(hosts: set<string>, xid: u32, proc: u32, kind: Kind, v: ((bytes, bytes), (Sattr3, bytes)),
                     rest: bytes, cursor: nat)
    requires kind == SymLinkObj && IsProc(proc, kind) && SymlinkArgs().ok(v)
    ensures EventOf(hosts, xid, DecodeCall(proc, SymlinkArgs().enc(v) + rest, cursor))
         == Kept(hosts, proc, kind, v.0.0, Chars(v.0.1), xid, 0)
  {
    SymlinkBack(v, rest);
    SymlinkRead(hosts, xid, proc, kind, SymlinkArgs().enc(v) + rest, cursor);
  }

  lemma SymlinkBack(v: ((bytes, bytes), (Sattr3, bytes)), rest: bytes)
    requires SymlinkArgs().ok(v)
    ensures SymlinkArgs().dec(SymlinkArgs().enc(v) + rest) == Some((v, rest))
  {
    DirOpArgsLawful();
    SattrLawful();
    StringLawful(MAX_UINT);
    PairLawful(SattrCodec(), String(MAX_UINT));
    PairLawful(DirOpArgs(), Pair(SattrCodec(), String(MAX_UINT)));
    RoundTrip(SymlinkArgs(), v, rest);
  }

  lemma MknodFiled(hosts: set<string>, xid: u32, proc: u32, kind: Kind, v: ((bytes, bytes), MknodData3), rest: bytes,
                   cursor: nat)
    requires kind == MkNodObj && IsProc(proc, kind) && MknodArgs().ok(v)
    ensures EventOf(hosts, xid, DecodeCall(proc, MknodArgs().enc(v) + rest, cursor))
         == Kept(hosts, proc, kind, v.0.0, Chars(v.0.1), xid, 0)
  {
    MknodBack(v, rest);
    MknodRead(hosts, xid, proc, kind, MknodArgs().enc(v) + rest, cursor);
  }

  lemma MknodBack(v: ((bytes, bytes), MknodData3), rest: bytes)
    requires MknodArgs().ok(v)
    ensures MknodArgs().dec(MknodArgs().enc(v) + rest) == Some((v, rest))
  {
    MknodFaithful();
    FaithfulBack(MknodArgs(), v, rest);
  }

  lemma ReaddirFiled(hosts: set<string>, xid: u32, proc: u32, kind: Kind, v: (bytes, (u64, (bytes, u32))), rest: bytes,
                     cursor: nat)
    requires kind == ReadDirObj && IsProc(proc, kind) && ReaddirArgs().ok(v)
    ensures EventOf(hosts, xid, DecodeCall(proc, ReaddirArgs().enc(v) + rest, cursor))
         == Kept(hosts, proc, kind, v.0, "", xid, 0)
  {
    ReaddirBack(v, rest);
    ReaddirRead(hosts, xid, proc, kind, ReaddirArgs().enc(v) + rest, cursor);
  }

  lemma ReaddirBack(v: (bytes, (u64, (bytes, u32))), rest: bytes)
    requires ReaddirArgs().ok(v)
    ensures ReaddirArgs().dec(ReaddirArgs().enc(v) + rest) == Some((v, rest))
  {
    VarOpaqueLawful(NFS3_FHSIZE);
    U64Lawful();
    OpaqueLawful(NFS3_COOKIEVERFSIZE);
    U32Lawful();
    PairLawful(Opaque(NFS3_COOKIEVERFSIZE), U32);
    PairLawful(U64(), Pair(Opaque(NFS3_COOKIEVERFSIZE), U32));
    PairLawful(Fh3(), Pair(U64(), Pair(Opaque(NFS3_COOKIEVERFSIZE), U32)));
    RoundTrip(ReaddirArgs(), v, rest);
  }

  lemma ReaddirPlusFiled(hosts: set<string>, xid: u32, proc: u32, kind: Kind, v: (bytes, (u64, (bytes, (u32, u32)))),
                         rest: bytes, cursor: nat)
    requires kind == ReadDirPlusObj && IsProc(proc, kind) && ReaddirPlusArgs().ok(v)
    ensures EventOf(hosts, xid, DecodeCall(proc, ReaddirPlusArgs().enc(v) + rest, cursor))
         == Kept(hosts, proc, kind, v.0, "", xid, 0)
  {
    ReaddirPlusBack(v, rest);
    ReaddirPlusRead(hosts, xid, proc, kind, ReaddirPlusArgs().enc(v) + rest, cursor);
  }

  lemma ReaddirPlusBack(v: (bytes, (u64, (bytes, (u32, u32)))), rest: bytes)
    requires ReaddirPlusArgs().ok(v)
    ensures ReaddirPlusArgs().dec(ReaddirPlusArgs().enc(v) + rest) == Some((v, rest))
  {
    VarOpaqueLawful(NFS3_FHSIZE);
    U64Lawful();
    OpaqueLawful(NFS3_COOKIEVERFSIZE);
    U32Lawful();
    PairLawful(U32, U32);
    PairLawful(Opaque(NFS3_COOKIEVERFSIZE), Pair(U32, U32));
    PairLawful(U64(), Pair(Opaque(NFS3_COOKIEVERFSIZE), Pair(U32, U32)));
    PairLawful(Fh3(), Pair(U64(), Pair(Opaque(NFS3_COOKIEVERFSIZE), Pair(U32, U32))));
    RoundTrip(ReaddirPlusArgs(), v, rest);
  }

  lemma CommitFiled(hosts: set<string>, xid: u32, proc: u32, kind: Kind, v: (bytes, (u64, u32)), rest: bytes,
                    cursor: nat)
    requires kind == CommitObj && IsProc(proc, kind) && ReadArgs().ok(v)
    ensures EventOf(hosts, xid, DecodeCall(proc, ReadArgs().enc(v) + rest, cursor))
         == Kept(hosts, proc, kind, v.0, "", xid, 0)
  {
    CommitBack(v, rest);
    CommitRead(hosts, xid, proc, kind, ReadArgs().enc(v) + rest, cursor);
  }

  lemma CommitBack(v: (bytes, (u64, u32)), rest: bytes)
    requires ReadArgs().ok(v)
    ensures ReadArgs().dec(ReadArgs().enc(v) + rest) == Some((v, rest))
  {
    ReadArgsLawful();
    RoundTrip(ReadArgs(), v, rest);
  }

  lemma RenameEventFiled(hosts: set<string>, xid: u32, proc: u32, from: (bytes, bytes), to: (bytes, bytes),
                         rest: bytes, cursor: nat)
    requires IsProc(proc, RenameObj) && DirOpArgs().ok(from) && DirOpArgs().ok(to)
    ensures EventOf(hosts, xid, DecodeCall(proc, RenameArgs().enc((from, to)) + rest, cursor))
         == Kept(hosts, proc, RenameObj, from.0, "", xid, 0)
  {
    RenameBack(from, to, rest);
    RenameRead(hosts, xid, proc, RenameArgs().enc((from, to)) + rest, cursor);
  }

  // ---------------------------------------------------------------- where the arguments lie

  /** A directory's handle and a name. */
  function WhereBytes(v: (bytes, bytes)): bytes
    requires |v.0| <= 64 && |v.1| <= 0xFFFF_FFFF
  {
    Var(v.0) + Var(v.1)
  }

  lemma DirOpBytes(v: (bytes, bytes))
    requires DirOpArgs().ok(v)
    ensures |v.0| <= 64 && |v.1| <= 0xFFFF_FFFF && DirOpArgs().enc(v) == WhereBytes(v)
  {
    VarIs(v.0);
    NameIs(v.1);
  }

  lemma AccessBytes(v: (bytes, u32))
    requires |v.0| <= 64
    ensures AccessArgs().enc(v) == Var(v.0) + Bytes(v.1)
  {
    VarIs(v.0);
  }

  /** The guard of SETATTR is an optional time. */
  lemma SetattrBytes(v: (bytes, (Sattr3, Option<Time>)))
    requires |v.0| <= 64 && SattrCodec().ok(v.1.0)
    ensures SetattrArgs().enc(v)
         == Var(v.0) + (SattrWords(v.1.0) + May(v.1.1.Some?, if v.1.1.Some? then TimeWords(v.1.1.value) else []))
  {
    var guard := May(v.1.1.Some?, if v.1.1.Some? then TimeWords(v.1.1.value) else []);
    VarIs(v.0);
    SattrIs(v.1.0);
    MayIs(NfsTime3(), v.1.1, if v.1.1.Some? then TimeWords(v.1.1.value) else []);
    PairIs(SattrCodec(), Optional(NfsTime3()), v.1.0, v.1.1, SattrWords(v.1.0), guard);
    PairIs(Fh3(), Pair(SattrCodec(), Optional(NfsTime3())), v.0, v.1, Var(v.0), SattrWords(v.1.0) + guard);
  }

  lemma CreateBytes(v: ((bytes, bytes), CreateHow3))
    requires DirOpArgs().ok(v.0) && CreateHowCodec().ok(v.1)
    ensures |v.0.0| <= 64 && |v.0.1| <= 0xFFFF_FFFF && CreateArgs().enc(v) == WhereBytes(v.0) + HowWords(v.1)
  {
    DirOpBytes(v.0);
    HowLayout(v.1);
    PairIs(DirOpArgs(), CreateHowCodec(), v.0, v.1, WhereBytes(v.0), HowWords(v.1));
  }

  lemma MkdirBytes(v: ((bytes, bytes), Sattr3))
    requires DirOpArgs().ok(v.0) && SattrCodec().ok(v.1)
    ensures |v.0.0| <= 64 && |v.0.1| <= 0xFFFF_FFFF && MkdirArgs().enc(v) == WhereBytes(v.0) + SattrWords(v.1)
  {
    DirOpBytes(v.0);
    SattrIs(v.1);
    PairIs(DirOpArgs(), SattrCodec(), v.0, v.1, WhereBytes(v.0), SattrWords(v.1));
  }

  lemma SymlinkBytes(v: ((bytes, bytes), (Sattr3, bytes)))
    requires DirOpArgs().ok(v.0) && SattrCodec().ok(v.1.0) && |v.1.1| <= 0xFFFF_FFFF && 0 !in v.1.1
    ensures |v.0.0| <= 64 && |v.0.1| <= 0xFFFF_FFFF
    ensures SymlinkArgs().enc(v) == WhereBytes(v.0) + (SattrWords(v.1.0) + Var(v.1.1))
  {
    DirOpBytes(v.0);
    SattrIs(v.1.0);
    NameIs(v.1.1);
    PairIs(SattrCodec(), FileName3(), v.1.0, v.1.1, SattrWords(v.1.0), Var(v.1.1));
    PairIs(DirOpArgs(), Pair(SattrCodec(), FileName3()), v.0, v.1, WhereBytes(v.0), SattrWords(v.1.0) + Var(v.1.1));
  }

  lemma MknodBytes(v: ((bytes, bytes), MknodData3))
    requires DirOpArgs().ok(v.0) && MknodCodec().ok(v.1)
    ensures |v.0.0| <= 64 && |v.0.1| <= 0xFFFF_FFFF && MknodArgs().enc(v) == WhereBytes(v.0) + NodeWords(v.1)
  {
    DirOpBytes(v.0);
    NodeIs(v.1);
    PairIs(DirOpArgs(), MknodCodec(), v.0, v.1, WhereBytes(v.0), NodeWords(v.1));
  }

  lemma RenameBytes(v: ((bytes, bytes), (bytes, bytes)))
    requires DirOpArgs().ok(v.0) && DirOpArgs().ok(v.1)
    ensures |v.0.0| <= 64 && |v.0.1| <= 0xFFFF_FFFF && |v.1.0| <= 64 && |v.1.1| <= 0xFFFF_FFFF
    ensures RenameArgs().enc(v) == WhereBytes(v.0) + WhereBytes(v.1)
  {
    DirOpBytes(v.0);
    DirOpBytes(v.1);
    PairIs(DirOpArgs(), DirOpArgs(), v.0, v.1, WhereBytes(v.0), WhereBytes(v.1));
  }

  /** READ, and COMMIT: handle, offset, count. */
  lemma ReadBytes(v: (bytes, (u64, u32)))
    requires |v.0| <= 64
    ensures ReadArgs().enc(v) == Var(v.0) + (Hyper(v.1.0) + Bytes(v.1.1))
  {
    VarIs(v.0);
    HyperIs(v.1.0);
    PairIs(U64(), U32, v.1.0, v.1.1, Hyper(v.1.0), Bytes(v.1.1));
    PairIs(Fh3(), Pair(U64(), U32), v.0, v.1, Var(v.0), Hyper(v.1.0) + Bytes(v.1.1));
  }

  /** The verifier is eight bytes as they are. */
  lemma VerifierIs(verf: bytes)
    requires |verf| == 8
    ensures Opaque(NFS3_COOKIEVERFSIZE).enc(verf) == verf
  {
    assert verf + Padding(8) == verf;
  }

  lemma ReaddirBytes(v: (bytes, (u64, (bytes, u32))))
    requires |v.0| <= 64 && |v.1.1.0| == 8
    ensures ReaddirArgs().enc(v) == Var(v.0) + (Hyper(v.1.0) + (v.1.1.0 + Bytes(v.1.1.1)))
  {
    var o, tail := Opaque(NFS3_COOKIEVERFSIZE), v.1.1.0 + Bytes(v.1.1.1);
    VarIs(v.0);
    HyperIs(v.1.0);
    VerifierIs(v.1.1.0);
    PairIs(o, U32, v.1.1.0, v.1.1.1, v.1.1.0, Bytes(v.1.1.1));
    PairIs(U64(), Pair(o, U32), v.1.0, v.1.1, Hyper(v.1.0), tail);
    PairIs(Fh3(), Pair(U64(), Pair(o, U32)), v.0, v.1, Var(v.0), Hyper(v.1.0) + tail);
  }

  lemma ReaddirPlusBytes(v: (bytes, (u64, (bytes, (u32, u32)))))
    requires |v.0| <= 64 && |v.1.1.0| == 8
    ensures ReaddirPlusArgs().enc(v)
         == Var(v.0) + (Hyper(v.1.0) + (v.1.1.0 + (Bytes(v.1.1.1.0) + Bytes(v.1.1.1.1))))
  {
    var o, counts := Opaque(NFS3_COOKIEVERFSIZE), Bytes(v.1.1.1.0) + Bytes(v.1.1.1.1);
    VarIs(v.0);
    HyperIs(v.1.0);
    VerifierIs(v.1.1.0);
    PairIs(U32, U32, v.1.1.1.0, v.1.1.1.1, Bytes(v.1.1.1.0), Bytes(v.1.1.1.1));
    PairIs(o, Pair(U32, U32), v.1.1.0, v.1.1.1, v.1.1.0, counts);
    PairIs(U64(), Pair(o, Pair(U32, U32)), v.1.0, v.1.1, Hyper(v.1.0), v.1.1.0 + counts);
    PairIs(Fh3(), Pair(U64(), Pair(o, Pair(U32, U32))), v.0, v.1, Var(v.0), Hyper(v.1.0) + (v.1.1.0 + counts));
  }

  /** READDIRPLUS3resok: directory attributes, verifier, listing. */
  lemma ReaddirPlusOkBytes(v: (Option<Fattr3>, (bytes, (seq<EntryPlus3>, bool))), listing: bytes)
    requires |v.1.0| == 8 && DirListPlus().enc(v.1.1) == listing
    ensures ReaddirPlusOk().enc(v) == MayFattr(v.0) + (v.1.0 + listing)
  {
    VerifierIs(v.1.0);
    MayFattrIs(v.0);
    PairIs(Opaque(NFS3_COOKIEVERFSIZE), DirListPlus(), v.1.0, v.1.1, v.1.0, listing);
    PairIs(Optional(FattrCodec()), Pair(Opaque(NFS3_COOKIEVERFSIZE), DirListPlus()), v.0, v.1, MayFattr(v.0),
           v.1.0 + listing);
  }

  // ---------------------------------------------------------------- paths

  /** No call but a RENAME whose arguments decode touches the paths. */
  lemma OthersKeepPaths(m: PathMaps.Maps, proc: u32, data: bytes, cursor: nat)
    requires proc != 14 || RenameArgs().dec(data) == None
    ensures CallPaths(m, DecodeCall(proc, data, cursor)) == m
  {
  }
}
