/** Where the bytes of each type lie (RFC 4506, sections 4.1 to 4.19; RFC 1813, section 2.5 and the argument types),
    field by field and with the protocol's numbers, and that the filters write and read exactly that. */
module Layout {
  import opened Ints
  import opened Codecs
  import opened Nfs3

  /** The filter writes these bytes for this value, and reads the value from them whatever follows. */
  ghost predicate LaidOut<T>(c: Codec<T>, v: T, b: bytes) {
    c.enc(v) == b && forall rest :: ReadsFrom(c, v, b, rest)
  }

  ghost predicate ReadsFrom<T>(c: Codec<T>, v: T, b: bytes, rest: bytes) {
    c.dec(b + rest) == Some((v, rest))
  }

  lemma LaysOut<T(!new)>(c: Codec<T>, v: T, b: bytes)
    requires Lawful(c) && c.ok(v) && c.enc(v) == b
    ensures LaidOut(c, v, b)
  {
    forall rest: bytes
      ensures ReadsFrom(c, v, b, rest)
    {
      RoundTrip(c, v, rest);
    }
  }

  // ---------------------------------------------------------------- the layouts

  /** A hyper integer: its upper word comes first. */
  function Hyper(n: u64): bytes {
    Bytes(n / 0x1_0000_0000) + Bytes(n % 0x1_0000_0000)
  }

  /** Bytes of variable length: the length, the bytes, and zeros up to a multiple of four. */
  function Var(v: bytes): bytes
    requires |v| <= 0xFFFF_FFFF
  {
    Bytes(|v|) + (v + seq((4 - |v| % 4) % 4, _ => 0))
  }

  /** Optional data: 1 and the data, or 0. */
  function May(present: bool, b: bytes): bytes {
    if present then Bytes(1) + b else Bytes(0)
  }

  /** A linked list: each element behind a 1, and a 0 at the end. */
  function Linked(parts: seq<bytes>): bytes {
    if parts == [] then Bytes(0) else Bytes(1) + (parts[0] + Linked(parts[1..]))
  }

  function TimeWords(t: Time): bytes {
    Bytes(t.seconds) + Bytes(t.nseconds)
  }

  /** SET_TO_CLIENT_TIME is 2. */
  function SetTimeWords(s: SetTime): bytes {
    match s
    case ClientTime(t) => Bytes(2) + TimeWords(t)
    case OtherHow(how) => Bytes(how)
  }

  function MayWord(w: Option<u32>): bytes {
    May(w.Some?, if w.Some? then Bytes(w.value) else [])
  }

  function SattrWords(a: Sattr3): bytes {
    MayWord(a.mode)
    + (MayWord(a.uid)
       + (MayWord(a.gid)
          + (May(a.size.Some?, if a.size.Some? then Hyper(a.size.value) else [])
             + (SetTimeWords(a.atime) + SetTimeWords(a.mtime)))))
  }

  /** UNCHECKED is 0, GUARDED 1 and EXCLUSIVE 2. */
  function HowWords(h: CreateHow3): bytes {
    match h
    case Unchecked(a) => Bytes(0) + SattrWords(a)
    case Guarded(a) => Bytes(1) + SattrWords(a)
    case Exclusive(verf) => Bytes(2) + verf
  }

  /** NF3BLK is 3 and NF3CHR 4, and these have device numbers; NF3SOCK is 6 and NF3FIFO 7. */
  function NodeWords(d: MknodData3): bytes {
    match d
    case Device(kind, a, specdata1, specdata2) =>
      Bytes(kind) + (SattrWords(a) + (Bytes(specdata1) + Bytes(specdata2)))
    case Pipe(kind, a) => Bytes(kind) + SattrWords(a)
    case NoData(kind) => Bytes(kind)
  }

  function FattrWords(a: Fattr3): bytes {
    (Bytes(a.kind) + (Bytes(a.mode) + (Bytes(a.nlink) + (Bytes(a.uid) + Bytes(a.gid)))))
    + (Hyper(a.size)
       + (Hyper(a.used)
          + ((Bytes(a.specdata1) + Bytes(a.specdata2))
             + (Hyper(a.fsid) + (Hyper(a.fileid) + (TimeWords(a.atime) + (TimeWords(a.mtime) + TimeWords(a.ctime))))))))
  }

  function EntryWords(e: EntryPlus3): bytes
    requires |e.name| <= 0xFFFF_FFFF && (e.handle.Some? ==> |e.handle.value| <= 0xFFFF_FFFF)
  {
    Hyper(e.fileid)
    + (Var(e.name)
       + (Hyper(e.cookie)
          + (MayFattr(e.attrs) + MayHandle(e.handle))))
  }

  // ---------------------------------------------------------------- small types

  lemma HyperLayout(n: u64)
    ensures LaidOut(U64(), n, Hyper(n))
  {
    U64Lawful();
    LaysOut(U64(), n, Hyper(n));
  }

  lemma VarIs(v: bytes)
    requires |v| <= 0xFFFF_FFFF
    ensures EncodeVar(v) == Var(v)
  {
    assert Padding(|v|) == seq((4 - |v| % 4) % 4, _ => 0);
  }

  /** Handles have at most 64 bytes. */
  lemma HandleLayout(h: bytes)
    requires |h| <= 64
    ensures LaidOut(Fh3(), h, Var(h))
  {
    VarIs(h);
    VarOpaqueLawful(NFS3_FHSIZE);
    LaysOut(Fh3(), h, Var(h));
  }

  lemma NameLayout(n: bytes)
    requires |n| <= 0xFFFF_FFFF && 0 !in n
    ensures LaidOut(FileName3(), n, Var(n))
  {
    VarIs(n);
    CStringWhole(n);
    StringLawful(MAX_UINT);
    LaysOut(FileName3(), n, Var(n));
  }

  lemma {:induction false} CStringWhole(v: bytes)
    requires 0 !in v
    ensures CString(v) == v
  {
    if v != [] {
      CStringWhole(v[1..]);
      Cons(v);
    }
  }

  lemma MayIs<T(!new)>(c: Codec<T>, v: Option<T>, b: bytes)
    requires v.Some? ==> c.enc(v.value) == b
    ensures Optional(c).enc(v) == May(v.Some?, b)
  {
    if v.None? {
      assert Bytes(0) + [] == Bytes(0);
    }
  }

  /** Any word but zero is read as true. */
  lemma BoolRead(w: u32, rest: bytes)
    ensures DecodeBool(Bytes(w) + rest) == Some((w != 0, rest))
  {
    WordReadsBack(w, rest);
  }

  lemma PaddedBack(v: bytes, fill: bytes, rest: bytes)
    requires |fill| < 4 && (|v| + |fill|) % 4 == 0
    ensures var b := v + (fill + rest);
            PadLength(|v|) == |fill| && |b| >= |v| + |fill| && b[..|v|] == v && b[|v| + |fill|..] == rest
  {
  }

  /** A length over the maximum is refused; otherwise the bytes are read, and the bytes that fill up to a multiple of
      four are passed over whatever they are. */
  lemma VarRead(max: u32, v: bytes, fill: bytes, rest: bytes)
    requires |v| <= 0xFFFF_FFFF && |fill| < 4 && (|v| + |fill|) % 4 == 0
    ensures VarOpaque(max).dec(Bytes(|v|) + (v + (fill + rest))) == if |v| <= max then Some((v, rest)) else None
    ensures String(max).dec(Bytes(|v|) + (v + (fill + rest))) == if |v| <= max then Some((v, rest)) else None
  {
    WordReadsBack(|v|, v + (fill + rest));
    PaddedBack(v, fill, rest);
  }

  // ---------------------------------------------------------------- attributes

  lemma SetTimeIs(s: SetTime)
    requires SetTimeCodec().ok(s)
    ensures SetTimeCodec().enc(s) == SetTimeWords(s)
  {
    if s.OtherHow? {
      assert Bytes(s.how) + [] == Bytes(s.how);
    }
  }

  lemma MayWordIs(w: Option<u32>)
    ensures Optional(U32).enc(w) == MayWord(w)
  {
    MayIs(U32, w, if w.Some? then Bytes(w.value) else []);
  }

  lemma SattrIs(a: Sattr3)
    requires SattrCodec().ok(a)
    ensures SattrCodec().enc(a) == SattrWords(a)
  {
    MayWordIs(a.mode);
    MayWordIs(a.uid);
    MayWordIs(a.gid);
    MayIs(U64(), a.size, if a.size.Some? then Hyper(a.size.value) else []);
    SetTimeIs(a.atime);
    SetTimeIs(a.mtime);
  }

  /** sattr3: mode, uid, gid, size, atime, mtime. */
  lemma SattrLayout(a: Sattr3)
    requires SattrCodec().ok(a)
    ensures LaidOut(SattrCodec(), a, SattrWords(a))
  {
    SattrIs(a);
    SattrLawful();
    LaysOut(SattrCodec(), a, SattrWords(a));
  }

  /** createhow3. */
  lemma HowLayout(h: CreateHow3)
    requires CreateHowCodec().ok(h)
    ensures LaidOut(CreateHowCodec(), h, HowWords(h))
  {
    if h.Exclusive? {
      assert h.verf + Padding(8) == h.verf;
    } else {
      SattrIs(h.attrs);
    }
    CreateHowLawful();
    LaysOut(CreateHowCodec(), h, HowWords(h));
  }

  /** mknoddata3, and which types have which data. */
  lemma NodeLayout(d: MknodData3)
    requires MknodCodec().ok(d)
    ensures LaidOut(MknodCodec(), d, NodeWords(d))
    ensures d.Device? <==> d.kind in {3, 4}
    ensures d.Pipe? <==> d.kind in {6, 7}
  {
    NodeIs(d);
    MknodLawful();
    LaysOut(MknodCodec(), d, NodeWords(d));
  }

  lemma NodeIs(d: MknodData3)
    requires MknodCodec().ok(d)
    ensures MknodCodec().enc(d) == NodeWords(d)
  {
    if d.NoData? {
      assert Bytes(d.kind) + [] == Bytes(d.kind);
    } else {
      SattrIs(d.attrs);
    }
  }

  /** fattr3: type, mode, nlink, uid, gid, size, used, rdev, fsid, fileid, atime, mtime, ctime. */
  lemma FattrLayout(a: Fattr3)
    ensures LaidOut(FattrCodec(), a, FattrWords(a))
  {
    FattrIs(a);
    FattrLays(a, FattrWords(a));
  }

  lemma FattrLays(a: Fattr3, b: bytes)
    requires FattrCodec().enc(a) == b
    ensures LaidOut(FattrCodec(), a, b)
  {
    FattrLawful();
    FattrOk(a);
    LaysOut(FattrCodec(), a, b);
  }

  lemma FattrOk(a: Fattr3)
    ensures FattrCodec().ok(a)
  {
  }

  // ---------------------------------------------------------------- listings and exports

  lemma HyperIs(n: u64)
    ensures U64().enc(n) == Hyper(n)
  {
  }

  lemma TimeIs(t: Time)
    ensures NfsTime3().enc(t) == TimeWords(t)
  {
  }

  lemma PairIs<A, B>(a: Codec<A>, b: Codec<B>, x: A, y: B, p: bytes, q: bytes)
    requires a.enc(x) == p && b.enc(y) == q
    ensures Pair(a, b).enc((x, y)) == p + q
  {
  }

  lemma FattrTailIs(a: Fattr3)
    ensures FattrTail().enc((a.fsid, (a.fileid, (a.atime, (a.mtime, a.ctime)))))
         == Hyper(a.fsid) + (Hyper(a.fileid) + (TimeWords(a.atime) + (TimeWords(a.mtime) + TimeWords(a.ctime))))
  {
    var t, u := NfsTime3(), U64();
    var mc := TimeWords(a.mtime) + TimeWords(a.ctime);
    HyperIs(a.fsid);
    HyperIs(a.fileid);
    TimeIs(a.atime);
    TimeIs(a.mtime);
    TimeIs(a.ctime);
    PairIs(t, t, a.mtime, a.ctime, TimeWords(a.mtime), TimeWords(a.ctime));
    PairIs(t, Pair(t, t), a.atime, (a.mtime, a.ctime), TimeWords(a.atime), mc);
    PairIs(u, Pair(t, Pair(t, t)), a.fileid, (a.atime, (a.mtime, a.ctime)), Hyper(a.fileid), TimeWords(a.atime) + mc);
    PairIs(u, Pair(u, Pair(t, Pair(t, t))), a.fsid, (a.fileid, (a.atime, (a.mtime, a.ctime))), Hyper(a.fsid),
           Hyper(a.fileid) + (TimeWords(a.atime) + mc));
  }

  lemma FattrHeadIs(a: Fattr3)
    ensures FiveWords().enc((a.kind, (a.mode, (a.nlink, (a.uid, a.gid)))))
         == Bytes(a.kind) + (Bytes(a.mode) + (Bytes(a.nlink) + (Bytes(a.uid) + Bytes(a.gid))))
  {
  }

  /** The fields of fattr3 as the filter nests them. */
  function FattrParts(a: Fattr3): FattrTuple {
    ((a.kind, (a.mode, (a.nlink, (a.uid, a.gid)))),
     (a.size, (a.used, ((a.specdata1, a.specdata2), (a.fsid, (a.fileid, (a.atime, (a.mtime, a.ctime))))))))
  }

  lemma FattrIs(a: Fattr3)
    ensures FattrCodec().enc(a) == FattrWords(a)
  {
    FattrFrom(a);
    FattrJoins(a, FattrParts(a).0, FattrParts(a).1.1.1.1);
  }

  lemma FattrFrom(a: Fattr3)
    ensures FattrCodec().enc(a) == FattrFields().enc(FattrParts(a))
  {
  }

  lemma FattrJoins(a: Fattr3, head: Five, tail: (u64, (u64, (Time, (Time, Time)))))
    requires head == (a.kind, (a.mode, (a.nlink, (a.uid, a.gid))))
    requires tail == (a.fsid, (a.fileid, (a.atime, (a.mtime, a.ctime))))
    ensures FattrFields().enc((head, (a.size, (a.used, ((a.specdata1, a.specdata2), tail))))) == FattrWords(a)
  {
    var u, two, t := U64(), Pair(U32, U32), FattrTail();
    FattrHeadIs(a);
    FattrTailIs(a);
    HyperIs(a.size);
    HyperIs(a.used);
    var spec, times := (a.specdata1, a.specdata2), t.enc(tail);
    var specWords := Bytes(a.specdata1) + Bytes(a.specdata2);
    PairIs(two, t, spec, tail, specWords, times);
    PairIs(u, Pair(two, t), a.used, (spec, tail), Hyper(a.used), specWords + times);
    PairIs(u, Pair(u, Pair(two, t)), a.size, (a.used, (spec, tail)), Hyper(a.size),
           Hyper(a.used) + (specWords + times));
    PairIs(FiveWords(), Pair(u, Pair(u, Pair(two, t))), head, (a.size, (a.used, (spec, tail))), FiveWords().enc(head),
           Hyper(a.size) + (Hyper(a.used) + (specWords + times)));
  }

  function MayFattr(a: Option<Fattr3>): bytes {
    May(a.Some?, if a.Some? then FattrWords(a.value) else [])
  }

  function MayHandle(h: Option<bytes>): bytes
    requires h.Some? ==> |h.value| <= 0xFFFF_FFFF
  {
    May(h.Some?, if h.Some? then Var(h.value) else [])
  }

  lemma MayFattrIs(a: Option<Fattr3>)
    ensures Optional(FattrCodec()).enc(a) == MayFattr(a)
  {
    if a.Some? {
      FattrIs(a.value);
    }
    MayIs(FattrCodec(), a, if a.Some? then FattrWords(a.value) else []);
  }

  lemma MayHandleIs(h: Option<bytes>)
    requires h.Some? ==> |h.value| <= 64
    ensures Optional(Fh3()).enc(h) == MayHandle(h)
  {
    if h.Some? {
      VarIs(h.value);
    }
    MayIs(Fh3(), h, if h.Some? then Var(h.value) else []);
  }

  lemma EntryJoins(e: EntryPlus3, name: bytes, attrs: bytes, handle: bytes)
    requires FileName3().enc(e.name) == name && Optional(FattrCodec()).enc(e.attrs) == attrs
    requires Optional(Fh3()).enc(e.handle) == handle
    ensures EntryCodec().enc(e) == Hyper(e.fileid) + (name + (Hyper(e.cookie) + (attrs + handle)))
  {
    var ah, u := Pair(Optional(FattrCodec()), Optional(Fh3())), U64();
    HyperIs(e.fileid);
    HyperIs(e.cookie);
    PairIs(Optional(FattrCodec()), Optional(Fh3()), e.attrs, e.handle, attrs, handle);
    PairIs(u, ah, e.cookie, (e.attrs, e.handle), Hyper(e.cookie), attrs + handle);
    var rest := Hyper(e.cookie) + (attrs + handle);
    PairIs(FileName3(), Pair(u, ah), e.name, (e.cookie, (e.attrs, e.handle)), name, rest);
    PairIs(u, Pair(FileName3(), Pair(u, ah)), e.fileid, (e.name, (e.cookie, (e.attrs, e.handle))),
           Hyper(e.fileid), name + rest);
    EntryFrom(e);
  }

  lemma EntryFrom(e: EntryPlus3)
    ensures EntryCodec().enc(e) == EntryFields().enc((e.fileid, (e.name, (e.cookie, (e.attrs, e.handle)))))
  {
  }

  lemma NameIs(n: bytes)
    requires |n| <= 0xFFFF_FFFF && 0 !in n
    ensures FileName3().enc(n) == Var(n)
  {
    VarIs(n);
    CStringWhole(n);
  }

  lemma EntryOk(e: EntryPlus3)
    requires EntryCodec().ok(e)
    ensures |e.name| <= 0xFFFF_FFFF && 0 !in e.name && (e.handle.Some? ==> |e.handle.value| <= 64)
  {
  }

  lemma EntryIs(e: EntryPlus3)
    requires EntryCodec().ok(e)
    ensures |e.name| <= 0xFFFF_FFFF && (e.handle.Some? ==> |e.handle.value| <= 0xFFFF_FFFF)
    ensures EntryCodec().enc(e) == EntryWords(e)
  {
    EntryOk(e);
    NameIs(e.name);
    MayFattrIs(e.attrs);
    MayHandleIs(e.handle);
    EntryJoins(e, Var(e.name), MayFattr(e.attrs), MayHandle(e.handle));
  }

  /** entryplus3: fileid, name, cookie, attributes, handle. */
  lemma EntryLayout(e: EntryPlus3)
    requires EntryCodec().ok(e)
    ensures |e.name| <= 0xFFFF_FFFF && (e.handle.Some? ==> |e.handle.value| <= 0xFFFF_FFFF)
    ensures LaidOut(EntryCodec(), e, EntryWords(e))
  {
    EntryIs(e);
    EntryLawful();
    LaysOut(EntryCodec(), e, EntryWords(e));
  }

  lemma {:induction false} LinkedIs<T(!new)>(c: Codec<T>, vs: seq<T>, parts: seq<bytes>)
    requires |vs| == |parts| && forall i :: 0 <= i < |vs| ==> c.enc(vs[i]) == parts[i]
    ensures EncodeList(c, vs) == Linked(parts)
    decreases |vs|
  {
    if vs == [] {
      assert Bytes(0) + [] == Bytes(0);
    } else {
      LinkedIs(c, vs[1..], parts[1..]);
    }
  }

  lemma FlaggedList<T(!new)>(c: Codec<T>, vs: seq<T>, flag: bool, parts: seq<bytes>)
    requires Lawful(Pair(List(c), Bool)) && Pair(List(c), Bool).ok((vs, flag)) && |parts| == |vs|
    requires forall i :: 0 <= i < |vs| ==> LaidOut(c, vs[i], parts[i])
    ensures LaidOut(Pair(List(c), Bool), (vs, flag), Linked(parts) + Bytes(if flag then 1 else 0))
  {
    LinkedIs(c, vs, parts);
    LaysOut(Pair(List(c), Bool), (vs, flag), Linked(parts) + Bytes(if flag then 1 else 0));
  }

  /** dirlistplus3: the linked entries, and whether the listing ends here. */
  lemma ListingLayout(es: seq<EntryPlus3>, eof: bool, parts: seq<bytes>)
    requires DirListPlus().ok((es, eof)) && |parts| == |es|
    requires forall i :: 0 <= i < |es| ==> LaidOut(EntryCodec(), es[i], parts[i])
    ensures LaidOut(DirListPlus(), (es, eof), Linked(parts) + Bytes(if eof then 1 else 0))
  {
    ListingsFaithful();
    FlaggedList(EntryCodec(), es, eof, parts);
  }

  /** An export: its directory, and its linked groups. */
  lemma ExportIs(e: (bytes, seq<bytes>))
    requires ExportFields().ok(e)
    ensures |e.0| <= 1024 && forall i :: 0 <= i < |e.1| ==> |e.1[i]| <= 255
    ensures ExportFields().enc(e) == Var(e.0) + Linked(Vars(e.1))
  {
    VarIs(e.0);
    CStringWhole(e.0);
    forall i | 0 <= i < |e.1|
      ensures |e.1[i]| <= 255 && String(MNTNAMLEN).enc(e.1[i]) == Var(e.1[i])
    {
      VarIs(e.1[i]);
      CStringWhole(e.1[i]);
    }
    LinkedIs(String(MNTNAMLEN), e.1, Vars(e.1));
  }

  function Vars(vs: seq<bytes>): (bs: seq<bytes>)
    requires forall i :: 0 <= i < |vs| ==> |vs[i]| <= 255
    ensures |bs| == |vs| && forall i :: 0 <= i < |vs| ==> bs[i] == Var(vs[i])
  {
    seq(|vs|, i requires 0 <= i < |vs| => Var(vs[i]))
  }

  /** exports: linked exports. */
  lemma ExportsLayout(es: seq<(bytes, seq<bytes>)>, parts: seq<bytes>)
    requires Exports().ok(es) && |parts| == |es|
    requires forall i :: 0 <= i < |es| ==> LaidOut(ExportFields(), es[i], parts[i])
    ensures LaidOut(Exports(), es, Linked(parts))
  {
    LinkedIs(ExportFields(), es, parts);
    ExportsFaithful();
    LaysOut(Exports(), es, Linked(parts));
  }
}
