/** The NFSv3 procedures, and the classes of request objects that their calls are kept as. */
module Procs {
  import opened Ints

  const NFSPROC3_GETATTR: u32 := 1
  const NFSPROC3_SETATTR: u32 := 2
  const NFSPROC3_LOOKUP: u32 := 3
  const NFSPROC3_ACCESS: u32 := 4
  const NFSPROC3_READ: u32 := 6
  const NFSPROC3_WRITE: u32 := 7
  const NFSPROC3_CREATE: u32 := 8
  const NFSPROC3_MKDIR: u32 := 9
  const NFSPROC3_SYMLINK: u32 := 10
  const NFSPROC3_MKNOD: u32 := 11
  const NFSPROC3_REMOVE: u32 := 12
  const NFSPROC3_RMDIR: u32 := 13
  const NFSPROC3_RENAME: u32 := 14
  const NFSPROC3_READDIR: u32 := 16
  const NFSPROC3_READDIRPLUS: u32 := 17
  const NFSPROC3_FSSTAT: u32 := 18
  const NFSPROC3_FSINFO: u32 := 19
  const NFSPROC3_PATHCONF: u32 := 20
  const NFSPROC3_COMMIT: u32 := 21

  /** The subclasses of BaseObject. An object's class is fixed when it is made. */
  datatype Kind =
    | GetAttrObj | SetAttrObj | LookUpObject | AccessObj | ReadObj | WriteObj | CreateObject | MkDirObject | SymLinkObj
    | MkNodObj | RemoveObj | RmDirObj | RenameObj | ReadDirObj | ReadDirPlusObj | FsStatObj | FsInfoObj | PathConfObj
    | CommitObj

  /** The name that a class's constructor passes on for reports. */
  function KindName(kind: Kind): string {
    match kind
    case GetAttrObj => "GetAttr"
    case SetAttrObj => "SetAttr"
    case LookUpObject => "LookUp"
    case AccessObj => "Access"
    case ReadObj => "Read"
    case WriteObj => "Write"
    case CreateObject => "Create"
    case MkDirObject => "MkDir"
    case SymLinkObj => "SymLink"
    case MkNodObj => "MkNod"
    case RemoveObj => "Remove"
    case RmDirObj => "RmDir"
    case RenameObj => "rename"
    case ReadDirObj => "ReadDir"
    case ReadDirPlusObj => "ReadDirPlus"
    case FsStatObj => "FsStat"
    case FsInfoObj => "FsInfo"
    case PathConfObj => "PathConf"
    case CommitObj => "Commit"
  }

  /** The procedure whose calls a class is for. */
  function ProcOf(kind: Kind): u32 {
    match kind
    case GetAttrObj => NFSPROC3_GETATTR
    case SetAttrObj => NFSPROC3_SETATTR
    case LookUpObject => NFSPROC3_LOOKUP
    case AccessObj => NFSPROC3_ACCESS
    case ReadObj => NFSPROC3_READ
    case WriteObj => NFSPROC3_WRITE
    case CreateObject => NFSPROC3_CREATE
    case MkDirObject => NFSPROC3_MKDIR
    case SymLinkObj => NFSPROC3_SYMLINK
    case MkNodObj => NFSPROC3_MKNOD
    case RemoveObj => NFSPROC3_REMOVE
    case RmDirObj => NFSPROC3_RMDIR
    case RenameObj => NFSPROC3_RENAME
    case ReadDirObj => NFSPROC3_READDIR
    case ReadDirPlusObj => NFSPROC3_READDIRPLUS
    case FsStatObj => NFSPROC3_FSSTAT
    case FsInfoObj => NFSPROC3_FSINFO
    case PathConfObj => NFSPROC3_PATHCONF
    case CommitObj => NFSPROC3_COMMIT
  }

  /** The class for a procedure, if its calls are kept. */
  function KindFor(proc: u32): (k: Option<Kind>)
    ensures k.Some? ==> ProcOf(k.value) == proc
  {
    if proc == NFSPROC3_GETATTR then Some(GetAttrObj)
    else if proc == NFSPROC3_SETATTR then Some(SetAttrObj)
    else if proc == NFSPROC3_LOOKUP then Some(LookUpObject)
    else if proc == NFSPROC3_ACCESS then Some(AccessObj)
    else if proc == NFSPROC3_READ then Some(ReadObj)
    else if proc == NFSPROC3_WRITE then Some(WriteObj)
    else if proc == NFSPROC3_CREATE then Some(CreateObject)
    else if proc == NFSPROC3_MKDIR then Some(MkDirObject)
    else if proc == NFSPROC3_SYMLINK then Some(SymLinkObj)
    else if proc == NFSPROC3_MKNOD then Some(MkNodObj)
    else if proc == NFSPROC3_REMOVE then Some(RemoveObj)
    else if proc == NFSPROC3_RMDIR then Some(RmDirObj)
    else if proc == NFSPROC3_RENAME then Some(RenameObj)
    else if proc == NFSPROC3_READDIR then Some(ReadDirObj)
    else if proc == NFSPROC3_READDIRPLUS then Some(ReadDirPlusObj)
    else if proc == NFSPROC3_FSSTAT then Some(FsStatObj)
    else if proc == NFSPROC3_FSINFO then Some(FsInfoObj)
    else if proc == NFSPROC3_PATHCONF then Some(PathConfObj)
    else if proc == NFSPROC3_COMMIT then Some(CommitObj)
    else None
  }

  lemma ProcOfInjective(a: Kind, b: Kind)
    requires ProcOf(a) == ProcOf(b)
    ensures a == b
  {
  }

  lemma KindForProc(kind: Kind)
    ensures KindFor(ProcOf(kind)) == Some(kind)
  {
    ProcOfInjective(kind, KindFor(ProcOf(kind)).value);
  }

  /** The name that reports give a procedure. */
  function NameFor(proc: u32): string {
    if KindFor(proc).Some? then KindName(KindFor(proc).value) else ""
  }

  /** The class that code dealing with a procedure's slot casts the object to: the reply handler in its branches for
      LOOKUP, CREATE and MKDIR, and the WRITE call branch. */
  function CastOf(proc: u32): Option<Kind> {
    if proc == NFSPROC3_LOOKUP then Some(LookUpObject)
    else if proc == NFSPROC3_CREATE then Some(CreateObject)
    else if proc == NFSPROC3_MKDIR then Some(MkDirObject)
    else if proc == NFSPROC3_WRITE then Some(WriteObj)
    else None
  }

  /** What a cast expects is the class for the procedure. */
  lemma CastFits(proc: u32, kind: Kind)
    requires ProcOf(kind) == proc && CastOf(proc).Some?
    ensures CastOf(proc) == Some(kind)
  {
    ProcOfInjective(kind, CastOf(proc).value);
  }

  lemma WriteKind(kind: Kind)
    requires ProcOf(kind) == NFSPROC3_WRITE
    ensures kind == WriteObj
  {
  }
}
