/** The NFSv3 and MOUNT types of the protocol (RFC 1813) and their filters, built from the combinators. */
module Nfs3 {
  import opened Ints
  import opened Codecs

  const NFS3_FHSIZE: u32 := 64
  const NFS3_COOKIEVERFSIZE: nat := 8
  const NFS3_CREATEVERFSIZE: nat := 8
  const MNTPATHLEN: u32 := 1024
  const MNTNAMLEN: u32 := 255

  // ---------------------------------------------------------------- hyper integers and times

  function U64Of(w: (u32, u32)): u64 {
    w.0 * 0x1_0000_0000 + w.1
  }

  function WordsOf(n: u64): (u32, u32) {
    (n / 0x1_0000_0000, n % 0x1_0000_0000)
  }

  function U64(): Codec<u64> {
    Map(Pair(U32, U32), (w: (u32, u32)) => U64Of(w), (n: u64) => WordsOf(n), (n: u64) => true)
  }

  lemma U64Lawful()
    ensures Lawful(U64()) && Closed(U64())
  {
    U32Lawful();
    PairLawful(U32, U32);
    MapLawful(Pair(U32, U32), (w: (u32, u32)) => U64Of(w), (n: u64) => WordsOf(n), (n: u64) => true);
  }

  datatype Time = Time(seconds: u32, nseconds: u32)

  function NfsTime3(): Codec<Time> {
    Map(Pair(U32, U32), (w: (u32, u32)) => Time(w.0, w.1), (t: Time) => (t.seconds, t.nseconds), (t: Time) => true)
  }

  lemma NfsTime3Lawful()
    ensures Lawful(NfsTime3()) && Closed(NfsTime3())
  {
    U32Lawful();
    PairLawful(U32, U32);
    MapLawful(Pair(U32, U32), (w: (u32, u32)) => Time(w.0, w.1), (t: Time) => (t.seconds, t.nseconds),
              (t: Time) => true);
  }

  // ---------------------------------------------------------------- handles, names and attributes

  function Fh3(): Codec<bytes> {
    VarOpaque(NFS3_FHSIZE)
  }

  function FileName3(): Codec<bytes> {
    String(MAX_UINT)
  }

  type Five = (u32, (u32, (u32, (u32, u32))))

  datatype Fattr3 = Fattr3(kind: u32, mode: u32, nlink: u32, uid: u32, gid: u32, size: u64, used: u64,
                           specdata1: u32, specdata2: u32, fsid: u64, fileid: u64,
                           atime: Time, mtime: Time, ctime: Time)

  function FiveWords(): Codec<Five> {
    Pair(U32, Pair(U32, Pair(U32, Pair(U32, U32))))
  }

  /** fsid, fileid and the three times. */
  function FattrTail(): Codec<(u64, (u64, (Time, (Time, Time))))> {
    Pair(U64(), Pair(U64(), Pair(NfsTime3(), Pair(NfsTime3(), NfsTime3()))))
  }

  type FattrTuple = (Five, (u64, (u64, ((u32, u32), (u64, (u64, (Time, (Time, Time))))))))

  function FattrFields(): Codec<FattrTuple> {
    Pair(FiveWords(), Pair(U64(), Pair(U64(), Pair(Pair(U32, U32), FattrTail()))))
  }

  function ToFattr(t: FattrTuple): Fattr3 {
    var head, body := t.0, t.1;
    var rest := body.1.1;
    var times := rest.1.1.1;
    Fattr3(head.0, head.1.0, head.1.1.0, head.1.1.1.0, head.1.1.1.1, body.0, body.1.0, rest.0.0, rest.0.1,
           rest.1.0, rest.1.1.0, times.0, times.1.0, times.1.1)
  }

  function FromFattr(a: Fattr3): FattrTuple {
    ((a.kind, (a.mode, (a.nlink, (a.uid, a.gid)))),
     (a.size, (a.used, ((a.specdata1, a.specdata2), (a.fsid, (a.fileid, (a.atime, (a.mtime, a.ctime))))))))
  }

  function FattrCodec(): Codec<Fattr3> {
    Map(FattrFields(), (t: FattrTuple) => ToFattr(t), (a: Fattr3) => FromFattr(a), (a: Fattr3) => true)
  }

  lemma FiveWordsLawful()
    ensures Lawful(FiveWords()) && Closed(FiveWords())
  {
    U32Lawful();
    PairLawful(U32, U32);
    PairLawful(U32, Pair(U32, U32));
    PairLawful(U32, Pair(U32, Pair(U32, U32)));
    PairLawful(U32, Pair(U32, Pair(U32, Pair(U32, U32))));
  }

  lemma FattrTailLawful()
    ensures Lawful(FattrTail()) && Closed(FattrTail())
  {
    U64Lawful();
    NfsTime3Lawful();
    var t, u := NfsTime3(), U64();
    PairLawful(t, t);
    PairLawful(t, Pair(t, t));
    PairLawful(u, Pair(t, Pair(t, t)));
    PairLawful(u, Pair(u, Pair(t, Pair(t, t))));
  }

  lemma FattrLawful()
    ensures Lawful(FattrCodec()) && Closed(FattrCodec())
  {
    U32Lawful();
    U64Lawful();
    FiveWordsLawful();
    FattrTailLawful();
    var two, tail := Pair(U32, U32), FattrTail();
    PairLawful(U32, U32);
    PairLawful(two, tail);
    PairLawful(U64(), Pair(two, tail));
    PairLawful(U64(), Pair(U64(), Pair(two, tail)));
    PairLawful(FiveWords(), Pair(U64(), Pair(U64(), Pair(two, tail))));
    MapLawful(FattrFields(), (t: FattrTuple) => ToFattr(t), (a: Fattr3) => FromFattr(a), (a: Fattr3) => true);
  }

  /** wcc_attr: size, mtime, ctime. */
  function WccAttr(): Codec<(u64, (Time, Time))> {
    Pair(U64(), Pair(NfsTime3(), NfsTime3()))
  }

  /** wcc_data: pre_op_attr and post_op_attr. */
  function WccData(): Codec<(Option<(u64, (Time, Time))>, Option<Fattr3>)> {
    Pair(Optional(WccAttr()), Optional(FattrCodec()))
  }

  // ---------------------------------------------------------------- settable attributes: unions with void defaults

  const SET_TO_CLIENT_TIME: u32 := 2

  /** set_atime and set_mtime: a time under SET_TO_CLIENT_TIME, nothing under every other discriminant. */
  datatype SetTime = ClientTime(time: Time) | OtherHow(how: u32)

  function HowOf(s: SetTime): u32 {
    if s.ClientTime? then SET_TO_CLIENT_TIME else s.how
  }

  function SetTimeArm(how: u32): Codec<SetTime> {
    if how == SET_TO_CLIENT_TIME then
      Map(NfsTime3(), (t: Time) => ClientTime(t), (s: SetTime) => if s.ClientTime? then s.time else Time(0, 0),
          (s: SetTime) => s.ClientTime?)
    else Void(OtherHow(how))
  }

  function SetTimeCodec(): Codec<SetTime> {
    Tagged((s: SetTime) => HowOf(s), (how: u32) => SetTimeArm(how))
  }

  lemma SetTimeArmLawful(how: u32)
    ensures Lawful(SetTimeArm(how)) && Closed(SetTimeArm(how))
    ensures TagFits((s: SetTime) => HowOf(s), (how: u32) => SetTimeArm(how), how)
  {
    if how == SET_TO_CLIENT_TIME {
      NfsTime3Lawful();
      MapLawful(NfsTime3(), (t: Time) => ClientTime(t), (s: SetTime) => if s.ClientTime? then s.time else Time(0, 0),
                (s: SetTime) => s.ClientTime?);
    } else {
      VoidLawful(OtherHow(how));
    }
  }

  lemma SetTimeLawful()
    ensures Lawful(SetTimeCodec()) && Closed(SetTimeCodec())
  {
    forall how: u32
      ensures Lawful(SetTimeArm(how)) && Closed(SetTimeArm(how))
      ensures TagFits((s: SetTime) => HowOf(s), (how: u32) => SetTimeArm(how), how)
    {
      SetTimeArmLawful(how);
    }
    TaggedLawful((s: SetTime) => HowOf(s), (how: u32) => SetTimeArm(how));
  }

  datatype Sattr3 = Sattr3(mode: Option<u32>, uid: Option<u32>, gid: Option<u32>, size: Option<u64>,
                           atime: SetTime, mtime: SetTime)

  type SattrTuple = (Option<u32>, (Option<u32>, (Option<u32>, (Option<u64>, (SetTime, SetTime)))))

  function SattrFields(): Codec<SattrTuple> {
    Pair(Optional(U32),
         Pair(Optional(U32), Pair(Optional(U32), Pair(Optional(U64()), Pair(SetTimeCodec(), SetTimeCodec())))))
  }

  function ToSattr(t: SattrTuple): Sattr3 {
    var rest := t.1.1.1;
    Sattr3(t.0, t.1.0, t.1.1.0, rest.0, rest.1.0, rest.1.1)
  }

  function FromSattr(a: Sattr3): SattrTuple {
    (a.mode, (a.uid, (a.gid, (a.size, (a.atime, a.mtime)))))
  }

  function SattrCodec(): Codec<Sattr3> {
    Map(SattrFields(), (t: SattrTuple) => ToSattr(t), (a: Sattr3) => FromSattr(a), (a: Sattr3) => true)
  }

  lemma SattrLawful()
    ensures Lawful(SattrCodec()) && Closed(SattrCodec())
  {
    U32Lawful();
    U64Lawful();
    SetTimeLawful();
    OptionalLawful(U32);
    OptionalLawful(U64());
    var times := Pair(SetTimeCodec(), SetTimeCodec());
    PairLawful(SetTimeCodec(), SetTimeCodec());
    PairLawful(Optional(U64()), times);
    PairLawful(Optional(U32), Pair(Optional(U64()), times));
    PairLawful(Optional(U32), Pair(Optional(U32), Pair(Optional(U64()), times)));
    PairLawful(Optional(U32), Pair(Optional(U32), Pair(Optional(U32), Pair(Optional(U64()), times))));
    MapLawful(SattrFields(), (t: SattrTuple) => ToSattr(t), (a: Sattr3) => FromSattr(a), (a: Sattr3) => true);
  }

  const NO_SATTR: Sattr3 := Sattr3(None, None, None, None, OtherHow(0), OtherHow(0))

  /** createhow3: every discriminant but the three of createmode3 is rejected. */
  datatype CreateHow3 = Unchecked(attrs: Sattr3) | Guarded(attrs: Sattr3) | Exclusive(verf: bytes)

  function ModeOf(h: CreateHow3): u32 {
    match h
    case Unchecked(_) => 0
    case Guarded(_) => 1
    case Exclusive(_) => 2
  }

  function CreateArm(mode: u32): Codec<CreateHow3> {
    if mode == 0 then
      Map(SattrCodec(), (a: Sattr3) => Unchecked(a), (h: CreateHow3) => if h.Unchecked? then h.attrs else NO_SATTR,
          (h: CreateHow3) => h.Unchecked?)
    else if mode == 1 then
      Map(SattrCodec(), (a: Sattr3) => Guarded(a), (h: CreateHow3) => if h.Guarded? then h.attrs else NO_SATTR,
          (h: CreateHow3) => h.Guarded?)
    else if mode == 2 then
      Map(Opaque(NFS3_CREATEVERFSIZE), (v: bytes) => Exclusive(v),
          (h: CreateHow3) => if h.Exclusive? then h.verf else [],
          (h: CreateHow3) => h.Exclusive?)
    else Reject()
  }

  function CreateHowCodec(): Codec<CreateHow3> {
    Tagged((h: CreateHow3) => ModeOf(h), (mode: u32) => CreateArm(mode))
  }

  lemma CreateArmLawful(mode: u32)
    ensures Lawful(CreateArm(mode)) && Closed(CreateArm(mode))
    ensures TagFits((h: CreateHow3) => ModeOf(h), (mode: u32) => CreateArm(mode), mode)
  {
    if mode == 0 {
      SattrLawful();
      MapLawful(SattrCodec(), (a: Sattr3) => Unchecked(a),
                (h: CreateHow3) => if h.Unchecked? then h.attrs else NO_SATTR,
                (h: CreateHow3) => h.Unchecked?);
    } else if mode == 1 {
      SattrLawful();
      MapLawful(SattrCodec(), (a: Sattr3) => Guarded(a), (h: CreateHow3) => if h.Guarded? then h.attrs else NO_SATTR,
                (h: CreateHow3) => h.Guarded?);
    } else if mode == 2 {
      OpaqueLawful(NFS3_CREATEVERFSIZE);
      MapLawful(Opaque(NFS3_CREATEVERFSIZE), (v: bytes) => Exclusive(v),
                (h: CreateHow3) => if h.Exclusive? then h.verf else [], (h: CreateHow3) => h.Exclusive?);
    } else {
      RejectLawful<CreateHow3>();
    }
  }

  lemma CreateHowLawful()
    ensures Lawful(CreateHowCodec()) && Closed(CreateHowCodec())
  {
    forall mode: u32
      ensures Lawful(CreateArm(mode)) && Closed(CreateArm(mode))
      ensures TagFits((h: CreateHow3) => ModeOf(h), (mode: u32) => CreateArm(mode), mode)
    {
      CreateArmLawful(mode);
    }
    TaggedLawful((h: CreateHow3) => ModeOf(h), (mode: u32) => CreateArm(mode));
  }

  /** The rejecting default: no createhow3 decodes from a discriminant above EXCLUSIVE, and none is written with one. */
  lemma CreateHowRejects(b: bytes)
    requires |b| >= 4
    ensures DecodeWord(b).value.0 > 2 ==> CreateHowCodec().dec(b) == None
  {
  }

  /** A value of each mode. */
  function SampleOf(mode: u32): (h: CreateHow3)
    requires mode <= 2
    ensures ModeOf(h) == mode && CreateHowCodec().ok(h)
  {
    if mode == 0 then Unchecked(NO_SATTR)
    else if mode == 1 then Guarded(NO_SATTR)
    else Exclusive([0, 0, 0, 0, 0, 0, 0, 0])
  }

  lemma TagDecodes<T(!new)>(tagOf: T -> u32, arm: u32 -> Codec<T>, v: T)
    requires Lawful(Tagged(tagOf, arm)) && Tagged(tagOf, arm).ok(v)
    ensures Tagged(tagOf, arm).dec(Bytes(tagOf(v)) + arm(tagOf(v)).enc(v)).Some?
  {
    var b := Bytes(tagOf(v)) + arm(tagOf(v)).enc(v);
    RoundTrip(Tagged(tagOf, arm), v, []);
    assert b + [] == b;
  }

  lemma CreateUnknownMode(mode: u32, rest: bytes)
    requires mode > 2
    ensures CreateHowCodec().dec(Bytes(mode) + rest) == None
  {
    WordReadsBack(mode, rest);
    CreateHowRejects(Bytes(mode) + rest);
  }

  /** Some createhow3 decodes behind this mode. */
  ghost predicate StartsCreate(mode: u32) {
    exists rest: bytes :: CreateHowCodec().dec(Bytes(mode) + rest).Some?
  }

  /** Exactly the modes UNCHECKED, GUARDED and EXCLUSIVE start the encoding of some createhow3. */
  lemma CreateModes(mode: u32)
    ensures StartsCreate(mode) <==> mode <= 2
  {
    if mode <= 2 {
      CreateHowLawful();
      TagDecodes((h: CreateHow3) => ModeOf(h), (m: u32) => CreateArm(m), SampleOf(mode));
    } else if StartsCreate(mode) {
      var rest: bytes :| CreateHowCodec().dec(Bytes(mode) + rest).Some?;
      CreateUnknownMode(mode, rest);
    }
  }

  const NF3BLK: u32 := 3
  const NF3CHR: u32 := 4
  const NF3SOCK: u32 := 6
  const NF3FIFO: u32 := 7

  /** mknoddata3: attributes and device numbers, attributes alone, or nothing, by file type. */
  datatype MknodData3 =
    | Device(kind: u32, attrs: Sattr3, specdata1: u32, specdata2: u32)
    | Pipe(kind: u32, attrs: Sattr3)
    | NoData(kind: u32)

  type DeviceTuple = (Sattr3, (u32, u32))

  function FromDevice(d: MknodData3): DeviceTuple {
    if d.Device? then (d.attrs, (d.specdata1, d.specdata2)) else (NO_SATTR, (0, 0))
  }

  function MknodArm(kind: u32): Codec<MknodData3> {
    if kind == NF3CHR || kind == NF3BLK then
      Map(Pair(SattrCodec(), Pair(U32, U32)), (t: DeviceTuple) => Device(kind, t.0, t.1.0, t.1.1),
          (d: MknodData3) => FromDevice(d), (d: MknodData3) => d.Device? && d.kind == kind)
    else if kind == NF3SOCK || kind == NF3FIFO then
      Map(SattrCodec(), (a: Sattr3) => Pipe(kind, a), (d: MknodData3) => if d.Pipe? then d.attrs else NO_SATTR,
          (d: MknodData3) => d.Pipe? && d.kind == kind)
    else Void(NoData(kind))
  }

  function MknodCodec(): Codec<MknodData3> {
    Tagged((d: MknodData3) => d.kind, (kind: u32) => MknodArm(kind))
  }

  lemma MknodArmLawful(kind: u32)
    ensures Lawful(MknodArm(kind)) && Closed(MknodArm(kind))
    ensures TagFits((d: MknodData3) => d.kind, (kind: u32) => MknodArm(kind), kind)
  {
    SattrLawful();
    if kind == NF3CHR || kind == NF3BLK {
      U32Lawful();
      PairLawful(U32, U32);
      PairLawful(SattrCodec(), Pair(U32, U32));
      MapLawful(Pair(SattrCodec(), Pair(U32, U32)), (t: DeviceTuple) => Device(kind, t.0, t.1.0, t.1.1),
                (d: MknodData3) => FromDevice(d), (d: MknodData3) => d.Device? && d.kind == kind);
    } else if kind == NF3SOCK || kind == NF3FIFO {
      MapLawful(SattrCodec(), (a: Sattr3) => Pipe(kind, a), (d: MknodData3) => if d.Pipe? then d.attrs else NO_SATTR,
                (d: MknodData3) => d.Pipe? && d.kind == kind);
    } else {
      VoidLawful(NoData(kind));
    }
  }

  lemma MknodLawful()
    ensures Lawful(MknodCodec()) && Closed(MknodCodec())
  {
    forall kind: u32
      ensures Lawful(MknodArm(kind)) && Closed(MknodArm(kind))
      ensures TagFits((d: MknodData3) => d.kind, (kind: u32) => MknodArm(kind), kind)
    {
      MknodArmLawful(kind);
    }
    TaggedLawful((d: MknodData3) => d.kind, (kind: u32) => MknodArm(kind));
  }

  // ---------------------------------------------------------------- arguments of the calls

  /** diropargs3: directory handle and name. */
  function DirOpArgs(): Codec<(bytes, bytes)> {
    Pair(Fh3(), FileName3())
  }

  function SetattrArgs(): Codec<(bytes, (Sattr3, Option<Time>))> {
    Pair(Fh3(), Pair(SattrCodec(), Optional(NfsTime3())))
  }

  function CreateArgs(): Codec<((bytes, bytes), CreateHow3)> {
    Pair(DirOpArgs(), CreateHowCodec())
  }

  function MknodArgs(): Codec<((bytes, bytes), MknodData3)> {
    Pair(DirOpArgs(), MknodCodec())
  }

  lemma DirOpArgsLawful()
    ensures Lawful(DirOpArgs())
  {
    VarOpaqueLawful(NFS3_FHSIZE);
    StringLawful(MAX_UINT);
    PairLawful(Fh3(), FileName3());
  }

  /** SETATTR arguments survive encoding and decoding through every arm of their unions, and whatever is decoded can be
      encoded again. */
  lemma SetattrFaithful()
    ensures Faithful(SetattrArgs()) && Closed(SetattrArgs())
  {
    VarOpaqueLawful(NFS3_FHSIZE);
    SattrLawful();
    NfsTime3Lawful();
    OptionalLawful(NfsTime3());
    PairLawful(SattrCodec(), Optional(NfsTime3()));
    PairLawful(Fh3(), Pair(SattrCodec(), Optional(NfsTime3())));
    LawfulIsFaithful(SetattrArgs());
  }

  /** CREATE arguments likewise. */
  lemma CreateFaithful()
    ensures Faithful(CreateArgs())
  {
    DirOpArgsLawful();
    CreateHowLawful();
    PairLawful(DirOpArgs(), CreateHowCodec());
    LawfulIsFaithful(CreateArgs());
  }

  /** MKNOD arguments likewise. */
  lemma MknodFaithful()
    ensures Faithful(MknodArgs())
  {
    DirOpArgsLawful();
    MknodLawful();
    PairLawful(DirOpArgs(), MknodCodec());
    LawfulIsFaithful(MknodArgs());
  }

  // ---------------------------------------------------------------- directory listings

  datatype EntryPlus3 = EntryPlus3(fileid: u64, name: bytes, cookie: u64, attrs: Option<Fattr3>, handle: Option<bytes>)

  type EntryTuple = (u64, (bytes, (u64, (Option<Fattr3>, Option<bytes>))))

  function EntryFields(): Codec<EntryTuple> {
    Pair(U64(), Pair(FileName3(), Pair(U64(), Pair(Optional(FattrCodec()), Optional(Fh3())))))
  }

  function ToEntry(t: EntryTuple): EntryPlus3 {
    EntryPlus3(t.0, t.1.0, t.1.1.0, t.1.1.1.0, t.1.1.1.1)
  }

  function FromEntry(e: EntryPlus3): EntryTuple {
    (e.fileid, (e.name, (e.cookie, (e.attrs, e.handle))))
  }

  /** entryplus3 up to its next pointer. */
  function EntryCodec(): Codec<EntryPlus3> {
    Map(EntryFields(), (t: EntryTuple) => ToEntry(t), (e: EntryPlus3) => FromEntry(e), (e: EntryPlus3) => true)
  }

  lemma EntryLawful()
    ensures Lawful(EntryCodec())
  {
    U64Lawful();
    StringLawful(MAX_UINT);
    FattrLawful();
    OptionalLawful(FattrCodec());
    VarOpaqueLawful(NFS3_FHSIZE);
    OptionalLawful(Fh3());
    var tail := Pair(Optional(FattrCodec()), Optional(Fh3()));
    PairLawful(Optional(FattrCodec()), Optional(Fh3()));
    PairLawful(U64(), tail);
    PairLawful(FileName3(), Pair(U64(), tail));
    PairLawful(U64(), Pair(FileName3(), Pair(U64(), tail)));
    MapLawful(EntryFields(), (t: EntryTuple) => ToEntry(t), (e: EntryPlus3) => FromEntry(e), (e: EntryPlus3) => true);
  }

  /** dirlistplus3: the linked entries and the end-of-listing flag. */
  function DirListPlus(): Codec<(seq<EntryPlus3>, bool)> {
    Pair(List(EntryCodec()), Bool)
  }

  /** READDIRPLUS3resok: directory attributes, cookie verifier and listing. */
  function ReaddirPlusOk(): Codec<(Option<Fattr3>, (bytes, (seq<EntryPlus3>, bool)))> {
    Pair(Optional(FattrCodec()), Pair(Opaque(NFS3_COOKIEVERFSIZE), DirListPlus()))
  }

  /** Directory listings of any length round-trip; their encodings are prefix-free and no strict prefix decodes. */
  lemma ListingsFaithful()
    ensures Lawful(DirListPlus()) && Faithful(DirListPlus()) && Faithful(ReaddirPlusOk())
  {
    EntryLawful();
    ListLawful(EntryCodec());
    BoolLawful();
    PairLawful(List(EntryCodec()), Bool);
    LawfulIsFaithful(DirListPlus());
    FattrLawful();
    OptionalLawful(FattrCodec());
    OpaqueLawful(NFS3_COOKIEVERFSIZE);
    PairLawful(Opaque(NFS3_COOKIEVERFSIZE), DirListPlus());
    PairLawful(Optional(FattrCodec()), Pair(Opaque(NFS3_COOKIEVERFSIZE), DirListPlus()));
    LawfulIsFaithful(ReaddirPlusOk());
  }

  // ---------------------------------------------------------------- export lists

  /** groups: a linked list of names. */
  function Groups(): Codec<seq<bytes>> {
    List(String(MNTNAMLEN))
  }

  /** The fields of an exportnode: directory and groups. */
  function ExportFields(): Codec<(bytes, seq<bytes>)> {
    Pair(String(MNTPATHLEN), Groups())
  }

  /** exports: a linked list of directories, each with its own linked list of groups. */
  function Exports(): Codec<seq<(bytes, seq<bytes>)>> {
    List(ExportFields())
  }

  lemma ExportFieldsLawful()
    ensures Lawful(ExportFields())
  {
    StringLawful(MNTNAMLEN);
    ListLawful(String(MNTNAMLEN));
    StringLawful(MNTPATHLEN);
    PairLawful(String(MNTPATHLEN), Groups());
  }

  /** The same for export lists, lists within a list. */
  lemma ExportsFaithful()
    ensures Lawful(Exports()) && Faithful(Exports())
  {
    ExportFieldsLawful();
    ListLawful(ExportFields());
    LawfulIsFaithful(Exports());
  }

  // ---------------------------------------------------------------- mount results

  const MNT3_OK: u32 := 0
  const FHSIZE3: u32 := 64
  /** The most 4-byte integers that xdr_array takes. */
  const MAX_INTS: u32 := 0x3FFF_FFFF

  /** mountres3: a handle and authentication flavours, or the status of a failure alone. */
  datatype MountRes3 = Mounted(handle: bytes, flavors: seq<u32>) | NotMounted(status: u32)

  function StatusOf(m: MountRes3): u32 {
    if m.Mounted? then MNT3_OK else m.status
  }

  function MountFields(): Codec<(bytes, seq<u32>)> {
    Pair(VarOpaque(FHSIZE3), Array(U32, MAX_INTS))
  }

  function MountArm(status: u32): Codec<MountRes3> {
    if status == MNT3_OK then
      Map(MountFields(), (t: (bytes, seq<u32>)) => Mounted(t.0, t.1),
          (m: MountRes3) => if m.Mounted? then (m.handle, m.flavors) else ([], []), (m: MountRes3) => m.Mounted?)
    else Void(NotMounted(status))
  }

  function MountCodec(): Codec<MountRes3> {
    Tagged((m: MountRes3) => StatusOf(m), (status: u32) => MountArm(status))
  }

  lemma MountArmLawful(status: u32)
    ensures Lawful(MountArm(status))
    ensures TagFits((m: MountRes3) => StatusOf(m), (status: u32) => MountArm(status), status)
  {
    if status == MNT3_OK {
      VarOpaqueLawful(FHSIZE3);
      U32Lawful();
      ArrayLawful(U32, MAX_INTS);
      PairLawful(VarOpaque(FHSIZE3), Array(U32, MAX_INTS));
      MapLawful(MountFields(), (t: (bytes, seq<u32>)) => Mounted(t.0, t.1),
                (m: MountRes3) => if m.Mounted? then (m.handle, m.flavors) else ([], []), (m: MountRes3) => m.Mounted?);
    } else {
      VoidLawful(NotMounted(status));
    }
  }

  /** Mount results likewise, through both arms of the union. */
  lemma MountFaithful()
    ensures Faithful(MountCodec())
  {
    forall status: u32
      ensures Lawful(MountArm(status))
      ensures TagFits((m: MountRes3) => StatusOf(m), (status: u32) => MountArm(status), status)
    {
      MountArmLawful(status);
    }
    TaggedLawful((m: MountRes3) => StatusOf(m), (status: u32) => MountArm(status));
    LawfulIsFaithful(MountCodec());
  }
}
