/** The larger filters as the program runs them, over the cursor: attributes, directory listings, call arguments. */
module XdrRecords {
  import opened Ints
  import opened Codecs
  import opened Nfs3
  import opened XdrStream

  // ---------------------------------------------------------------- file attributes

  method ThreeWords(x: Xdr, v: (u32, (u32, u32))) returns (ok: bool, r: (u32, (u32, u32)))
    requires InBuffer(x.At())
    modifies x
    ensures Filters(Pair(U32, Pair(U32, U32)), x.encode, v, old(x.At()), ok, r, x.At())
  {
    ghost var s := x.At();
    var a: u32, rest: (u32, u32) := v.0, v.1;
    ok, a := x.Word(v.0);
    ghost var ok1, s1 := ok, x.At();
    if ok {
      ok, rest := x.TwoWords(v.1.0, v.1.1);
    }
    Sequence(U32, Pair(U32, U32), x.encode, v, s, ok1, a, s1, ok, rest, x.At());
    r := (a, rest);
  }

  /** type, mode, nlink, uid and gid. */
  method Five(x: Xdr, v: Nfs3.Five) returns (ok: bool, r: Nfs3.Five)
    requires InBuffer(x.At())
    modifies x
    ensures Filters(FiveWords(), x.encode, v, old(x.At()), ok, r, x.At())
  {
    ghost var s := x.At();
    var a: u32, b: u32, rest: (u32, (u32, u32)) := v.0, v.1.0, v.1.1;
    ok, a := x.Word(v.0);
    ghost var ok1, s1 := ok, x.At();
    if ok {
      ok, b := x.Word(v.1.0);
    }
    ghost var ok2, s2 := ok, x.At();
    if ok {
      ok, rest := ThreeWords(x, v.1.1);
    }
    ghost var tail := Pair(U32, Pair(U32, U32));
    if ok1 {
      Sequence(U32, tail, x.encode, v.1, s1, ok2, b, s2, ok, rest, x.At());
    }
    Sequence(U32, Pair(U32, tail), x.encode, v, s, ok1, a, s1, ok, (b, rest), x.At());
    r := (a, (b, rest));
  }

  /** atime, mtime and ctime. */
  method Times(x: Xdr, v: (Time, (Time, Time))) returns (ok: bool, r: (Time, (Time, Time)))
    requires InBuffer(x.At())
    modifies x
    ensures Filters(Pair(NfsTime3(), Pair(NfsTime3(), NfsTime3())), x.encode, v, old(x.At()), ok, r, x.At())
  {
    ghost var s := x.At();
    var a, b, c := v.0, v.1.0, v.1.1;
    ok, a := x.NfsTime(v.0);
    ghost var ok1, s1 := ok, x.At();
    if ok {
      ok, b := x.NfsTime(v.1.0);
    }
    ghost var ok2, s2 := ok, x.At();
    if ok {
      ok, c := x.NfsTime(v.1.1);
    }
    ghost var t := NfsTime3();
    if ok1 {
      Sequence(t, t, x.encode, v.1, s1, ok2, b, s2, ok, c, x.At());
    }
    Sequence(t, Pair(t, t), x.encode, v, s, ok1, a, s1, ok, (b, c), x.At());
    r := (a, (b, c));
  }

  type IdsAndTimes = (u64, (u64, (Time, (Time, Time))))

  /** fsid, fileid and the times. */
  method Ids(x: Xdr, v: IdsAndTimes) returns (ok: bool, r: IdsAndTimes)
    requires InBuffer(x.At())
    modifies x
    ensures Filters(FattrTail(), x.encode, v, old(x.At()), ok, r, x.At())
  {
    ghost var s := x.At();
    var a: u64, b: u64, rest: (Time, (Time, Time)) := v.0, v.1.0, v.1.1;
    ok, a := x.Size3(v.0);
    ghost var ok1, s1 := ok, x.At();
    if ok {
      ok, b := x.Size3(v.1.0);
    }
    ghost var ok2, s2 := ok, x.At();
    if ok {
      ok, rest := Times(x, v.1.1);
    }
    ghost var tail := Pair(NfsTime3(), Pair(NfsTime3(), NfsTime3()));
    if ok1 {
      Sequence(U64(), tail, x.encode, v.1, s1, ok2, b, s2, ok, rest, x.At());
    }
    Sequence(U64(), Pair(U64(), tail), x.encode, v, s, ok1, a, s1, ok, (b, rest), x.At());
    r := (a, (b, rest));
  }

  /** rdev and what follows it. */
  method Rdev(x: Xdr, v: ((u32, u32), IdsAndTimes)) returns (ok: bool, r: ((u32, u32), IdsAndTimes))
    requires InBuffer(x.At())
    modifies x
    ensures Filters(Pair(Pair(U32, U32), FattrTail()), x.encode, v, old(x.At()), ok, r, x.At())
  {
    ghost var s := x.At();
    var rdev: (u32, u32), rest: IdsAndTimes := v.0, v.1;
    ok, rdev := x.TwoWords(v.0.0, v.0.1);
    ghost var ok1, s1 := ok, x.At();
    if ok {
      ok, rest := Ids(x, v.1);
    }
    Sequence(Pair(U32, U32), FattrTail(), x.encode, v, s, ok1, rdev, s1, ok, rest, x.At());
    r := (rdev, rest);
  }

  type SizesAndAll = (u64, (u64, ((u32, u32), IdsAndTimes)))

  /** size, used and what follows them. */
  method Sizes(x: Xdr, v: SizesAndAll) returns (ok: bool, r: SizesAndAll)
    requires InBuffer(x.At())
    modifies x
    ensures Filters(Pair(U64(), Pair(U64(), Pair(Pair(U32, U32), FattrTail()))), x.encode, v, old(x.At()), ok, r,
                    x.At())
  {
    ghost var s := x.At();
    var a: u64, b: u64, rest: ((u32, u32), IdsAndTimes) := v.0, v.1.0, v.1.1;
    ok, a := x.Size3(v.0);
    ghost var ok1, s1 := ok, x.At();
    if ok {
      ok, b := x.Size3(v.1.0);
    }
    ghost var ok2, s2 := ok, x.At();
    if ok {
      ok, rest := Rdev(x, v.1.1);
    }
    ghost var tail := Pair(Pair(U32, U32), FattrTail());
    if ok1 {
      Sequence(U64(), tail, x.encode, v.1, s1, ok2, b, s2, ok, rest, x.At());
    }
    Sequence(U64(), Pair(U64(), tail), x.encode, v, s, ok1, a, s1, ok, (b, rest), x.At());
    r := (a, (b, rest));
  }

  /** xdr_fattr3. */
  method Fattr(x: Xdr, v: Fattr3) returns (ok: bool, r: Fattr3)
    requires InBuffer(x.At())
    modifies x
    ensures Filters(FattrCodec(), x.encode, v, old(x.At()), ok, r, x.At())
  {
    var t;
    ok, t := FattrParts(x, FromFattr(v));
    MapFilters(FattrFields(), (t: FattrTuple) => ToFattr(t), (a: Fattr3) => FromFattr(a), (a: Fattr3) => true,
               x.encode, v, old(x.At()), ok, t, x.At());
    r := ToFattr(t);
  }

  method FattrParts(x: Xdr, v: FattrTuple) returns (ok: bool, r: FattrTuple)
    requires InBuffer(x.At())
    modifies x
    ensures Filters(FattrFields(), x.encode, v, old(x.At()), ok, r, x.At())
  {
    ghost var s := x.At();
    var head: Nfs3.Five, rest: SizesAndAll := v.0, v.1;
    ok, head := Five(x, v.0);
    ghost var ok1, s1 := ok, x.At();
    if ok {
      ok, rest := Sizes(x, v.1);
    }
    Sequence(FiveWords(), Pair(U64(), Pair(U64(), Pair(Pair(U32, U32), FattrTail()))), x.encode, v, s, ok1, head, s1,
             ok, rest, x.At());
    r := (head, rest);
  }

  /** xdr_post_op_attr. */
  method PostOpAttr(x: Xdr, v: Option<Fattr3>) returns (ok: bool, r: Option<Fattr3>)
    requires InBuffer(x.At())
    modifies x
    ensures Filters(Optional(FattrCodec()), x.encode, v, old(x.At()), ok, r, x.At())
  {
    ghost var s := x.At();
    r := v;
    var follows;
    ok, follows := x.BoolWord(v.Some?);
    if !ok {
      OptionalFailed(FattrCodec(), x.encode, v, s, follows, x.At(), v);
    } else if follows {
      ghost var s1 := x.At();
      var a := if v.Some? then v.value else NO_FATTR;
      var b;
      ok, b := Fattr(x, a);
      OptionalSome(FattrCodec(), x.encode, v, s, s1, a, ok, b, x.At());
      r := Some(b);
    } else {
      OptionalNone(FattrCodec(), x.encode, v, s, x.At());
      r := None;
    }
  }

  const NO_FATTR: Fattr3 := Fattr3(0, 0, 0, 0, 0, 0, 0, 0, 0, 0, 0, Time(0, 0), Time(0, 0), Time(0, 0))

  // ---------------------------------------------------------------- weak cache consistency

  type Wcc = (u64, (Time, Time))

  /** xdr_wcc_attr. */
  method WccSizeTimes(x: Xdr, v: Wcc) returns (ok: bool, r: Wcc)
    requires InBuffer(x.At())
    modifies x
    ensures Filters(WccAttr(), x.encode, v, old(x.At()), ok, r, x.At())
  {
    ghost var s := x.At();
    var a: u64, b: Time, c: Time := v.0, v.1.0, v.1.1;
    ok, a := x.Size3(v.0);
    ghost var ok1, s1 := ok, x.At();
    if ok {
      ok, b := x.NfsTime(v.1.0);
    }
    ghost var ok2, s2 := ok, x.At();
    if ok {
      ok, c := x.NfsTime(v.1.1);
    }
    if ok1 {
      Sequence(NfsTime3(), NfsTime3(), x.encode, v.1, s1, ok2, b, s2, ok, c, x.At());
    }
    Sequence(U64(), Pair(NfsTime3(), NfsTime3()), x.encode, v, s, ok1, a, s1, ok, (b, c), x.At());
    r := (a, (b, c));
  }

  /** xdr_pre_op_attr. */
  method PreOpAttr(x: Xdr, v: Option<Wcc>) returns (ok: bool, r: Option<Wcc>)
    requires InBuffer(x.At())
    modifies x
    ensures Filters(Optional(WccAttr()), x.encode, v, old(x.At()), ok, r, x.At())
  {
    ghost var s := x.At();
    r := v;
    var follows;
    ok, follows := x.BoolWord(v.Some?);
    if !ok {
      OptionalFailed(WccAttr(), x.encode, v, s, follows, x.At(), v);
    } else if follows {
      ghost var s1 := x.At();
      var a: Wcc := if v.Some? then v.value else (0, (Time(0, 0), Time(0, 0)));
      var b;
      ok, b := WccSizeTimes(x, a);
      OptionalSome(WccAttr(), x.encode, v, s, s1, a, ok, b, x.At());
      r := Some(b);
    } else {
      OptionalNone(WccAttr(), x.encode, v, s, x.At());
      r := None;
    }
  }

  /** xdr_wcc_data. */
  method WccDataOf(x: Xdr, v: (Option<Wcc>, Option<Fattr3>)) returns (ok: bool, r: (Option<Wcc>, Option<Fattr3>))
    requires InBuffer(x.At())
    modifies x
    ensures Filters(WccData(), x.encode, v, old(x.At()), ok, r, x.At())
  {
    ghost var s := x.At();
    var before, after := v.0, v.1;
    ok, before := PreOpAttr(x, v.0);
    ghost var ok1, s1 := ok, x.At();
    if ok {
      ok, after := PostOpAttr(x, v.1);
    }
    Sequence(Optional(WccAttr()), Optional(FattrCodec()), x.encode, v, s, ok1, before, s1, ok, after, x.At());
    r := (before, after);
  }

  // ---------------------------------------------------------------- directory listings

  /** xdr_post_op_fh3. */
  method PostOpFh(x: Xdr, v: Option<bytes>) returns (ok: bool, r: Option<bytes>)
    requires InBuffer(x.At())
    modifies x
    ensures Filters(Optional(Fh3()), x.encode, v, old(x.At()), ok, r, x.At())
  {
    ghost var s := x.At();
    r := v;
    var follows;
    ok, follows := x.BoolWord(v.Some?);
    if !ok {
      OptionalFailed(Fh3(), x.encode, v, s, follows, x.At(), v);
    } else if follows {
      ghost var s1 := x.At();
      var a := if v.Some? then v.value else [];
      var b;
      ok, b := x.CountedBytes(NFS3_FHSIZE, a, false);
      OptionalSome(Fh3(), x.encode, v, s, s1, a, ok, b, x.At());
      r := Some(b);
    } else {
      OptionalNone(Fh3(), x.encode, v, s, x.At());
      r := None;
    }
  }

  type CookieAndRest = (u64, (Option<Fattr3>, Option<bytes>))

  method CookieAttrsHandle(x: Xdr, v: CookieAndRest) returns (ok: bool, r: CookieAndRest)
    requires InBuffer(x.At())
    modifies x
    ensures Filters(Pair(U64(), Pair(Optional(FattrCodec()), Optional(Fh3()))), x.encode, v, old(x.At()), ok, r, x.At())
  {
    ghost var s := x.At();
    var cookie: u64, attrs: Option<Fattr3>, handle: Option<bytes> := v.0, v.1.0, v.1.1;
    ok, cookie := x.Size3(v.0);
    ghost var ok1, s1 := ok, x.At();
    if ok {
      ok, attrs := PostOpAttr(x, v.1.0);
    }
    ghost var ok2, s2 := ok, x.At();
    if ok {
      ok, handle := PostOpFh(x, v.1.1);
    }
    ghost var a, h := Optional(FattrCodec()), Optional(Fh3());
    if ok1 {
      Sequence(a, h, x.encode, v.1, s1, ok2, attrs, s2, ok, handle, x.At());
    }
    Sequence(U64(), Pair(a, h), x.encode, v, s, ok1, cookie, s1, ok, (attrs, handle), x.At());
    r := (cookie, (attrs, handle));
  }

  method EntryParts(x: Xdr, v: EntryTuple) returns (ok: bool, r: EntryTuple)
    requires InBuffer(x.At())
    modifies x
    ensures Filters(EntryFields(), x.encode, v, old(x.At()), ok, r, x.At())
  {
    ghost var s := x.At();
    var fileid: u64, name: bytes, rest: CookieAndRest := v.0, v.1.0, v.1.1;
    ok, fileid := x.Size3(v.0);
    ghost var ok1, s1 := ok, x.At();
    if ok {
      ok, name := x.CountedBytes(MAX_UINT, v.1.0, true);
    }
    ghost var ok2, s2 := ok, x.At();
    if ok {
      ok, rest := CookieAttrsHandle(x, v.1.1);
    }
    ghost var tail := Pair(U64(), Pair(Optional(FattrCodec()), Optional(Fh3())));
    if ok1 {
      Sequence(FileName3(), tail, x.encode, v.1, s1, ok2, name, s2, ok, rest, x.At());
    }
    Sequence(U64(), Pair(FileName3(), tail), x.encode, v, s, ok1, fileid, s1, ok, (name, rest), x.At());
    r := (fileid, (name, rest));
  }

  /** The five fields of an entryplus3 before its next pointer. */
  method EntryOf(x: Xdr, v: EntryPlus3) returns (ok: bool, r: EntryPlus3)
    requires InBuffer(x.At())
    modifies x
    ensures Filters(EntryCodec(), x.encode, v, old(x.At()), ok, r, x.At())
  {
    var t;
    ok, t := EntryParts(x, FromEntry(v));
    MapFilters(EntryFields(), (t: EntryTuple) => ToEntry(t), (e: EntryPlus3) => FromEntry(e), (e: EntryPlus3) => true,
               x.encode, v, old(x.At()), ok, t, x.At());
    r := ToEntry(t);
  }

  const NO_ENTRY: EntryPlus3 := EntryPlus3(0, [], 0, None, None)

  lemma ConsEntry(encode: bool, v: seq<EntryPlus3>, s: Cursor, s1: Cursor, e: EntryPlus3, es: seq<EntryPlus3>,
                  ok: bool, r: (EntryPlus3, seq<EntryPlus3>), s2: Cursor)
    requires InBuffer(s) && Filters(Bool, encode, v != [], s, true, true, s1)
    requires Filters(Pair(EntryCodec(), List(EntryCodec())), encode, (e, es), s1, ok, r, s2)
             && (encode ==> v == [e] + es)
    ensures Filters(List(EntryCodec()), encode, v, s, ok, [r.0] + r.1, s2)
  {
    EntryLawful();
    ConsFilters(EntryCodec(), encode, v, s, s1, e, es, ok, r, s2);
  }

  /** The pointer to an entryplus3: entries of a dirlistplus3, and nextentry. */
  method EntryList(x: Xdr, v: seq<EntryPlus3>) returns (ok: bool, r: seq<EntryPlus3>)
    requires InBuffer(x.At())
    modifies x
    ensures Filters(List(EntryCodec()), x.encode, v, old(x.At()), ok, r, x.At())
    decreases if x.encode then |v| else |x.buf| - x.pos, 0
  {
    ghost var s := x.At();
    r := v;
    var follows;
    ok, follows := x.BoolWord(v != []);
    if !ok {
      ListFailed(EntryCodec(), x.encode, v, s, follows, x.At(), v);
    } else if follows {
      ghost var s1 := x.At();
      var e: EntryPlus3, es: seq<EntryPlus3> := if x.encode then v[0] else NO_ENTRY, if x.encode then v[1..] else [];
      if x.encode {
        Cons(v);
      }
      var node;
      ok, node := EntryPlus(x, (e, es));
      ConsEntry(x.encode, v, s, s1, e, es, ok, node, x.At());
      r := [node.0] + node.1;
    } else {
      NilFilters(EntryCodec(), x.encode, v, s, x.At());
      r := [];
    }
  }

  /** xdr_entryplus3: the fields and the next pointer. */
  method EntryPlus(x: Xdr, v: (EntryPlus3, seq<EntryPlus3>)) returns (ok: bool, r: (EntryPlus3, seq<EntryPlus3>))
    requires InBuffer(x.At())
    modifies x
    ensures Filters(Pair(EntryCodec(), List(EntryCodec())), x.encode, v, old(x.At()), ok, r, x.At())
    decreases if x.encode then |v.1| else |x.buf| - x.pos, 1
  {
    ghost var s := x.At();
    var e, next := v.0, v.1;
    ok, e := EntryOf(x, v.0);
    ghost var ok1, s1 := ok, x.At();
    if ok {
      ok, next := EntryList(x, v.1);
    }
    Sequence(EntryCodec(), List(EntryCodec()), x.encode, v, s, ok1, e, s1, ok, next, x.At());
    r := (e, next);
  }

  type Listed = (seq<EntryPlus3>, bool)

  /** xdr_dirlistplus3. */
  method DirList(x: Xdr, v: Listed) returns (ok: bool, r: Listed)
    requires InBuffer(x.At())
    modifies x
    ensures Filters(DirListPlus(), x.encode, v, old(x.At()), ok, r, x.At())
  {
    ghost var s := x.At();
    var entries, eof := v.0, v.1;
    ok, entries := EntryList(x, v.0);
    ghost var ok1, s1 := ok, x.At();
    if ok {
      ok, eof := x.BoolWord(v.1);
    }
    Sequence(List(EntryCodec()), Bool, x.encode, v, s, ok1, entries, s1, ok, eof, x.At());
    r := (entries, eof);
  }

  /** xdr_READDIRPLUS3resok. */
  method ReaddirPlus(x: Xdr, v: (Option<Fattr3>, (bytes, Listed)))
    returns (ok: bool, r: (Option<Fattr3>, (bytes, Listed)))
    requires InBuffer(x.At()) && (x.encode ==> |v.1.0| == NFS3_COOKIEVERFSIZE)
    modifies x
    ensures Filters(ReaddirPlusOk(), x.encode, v, old(x.At()), ok, r, x.At())
  {
    ghost var s := x.At();
    var attrs: Option<Fattr3>, verf: bytes, listed: Listed := v.0, v.1.0, v.1.1;
    ok, attrs := PostOpAttr(x, v.0);
    ghost var ok1, s1 := ok, x.At();
    if ok {
      ok, verf := x.OpaqueBytes(NFS3_COOKIEVERFSIZE, v.1.0);
    }
    ghost var ok2, s2 := ok, x.At();
    if ok {
      ok, listed := DirList(x, v.1.1);
    }
    ghost var c := Opaque(NFS3_COOKIEVERFSIZE);
    if ok1 {
      Sequence(c, DirListPlus(), x.encode, v.1, s1, ok2, verf, s2, ok, listed, x.At());
    }
    Sequence(Optional(FattrCodec()), Pair(c, DirListPlus()), x.encode, v, s, ok1, attrs, s1, ok, (verf, listed),
             x.At());
    r := (attrs, (verf, listed));
  }

  // ---------------------------------------------------------------- call arguments

  /** xdr_diropargs3. */
  method DirOp(x: Xdr, v: (bytes, bytes)) returns (ok: bool, r: (bytes, bytes))
    requires InBuffer(x.At())
    modifies x
    ensures Filters(DirOpArgs(), x.encode, v, old(x.At()), ok, r, x.At())
  {
    ghost var s := x.At();
    var dir, name := v.0, v.1;
    ok, dir := x.CountedBytes(NFS3_FHSIZE, v.0, false);
    ghost var ok1, s1 := ok, x.At();
    if ok {
      ok, name := x.CountedBytes(MAX_UINT, v.1, true);
    }
    Sequence(Fh3(), FileName3(), x.encode, v, s, ok1, dir, s1, ok, name, x.At());
    r := (dir, name);
  }

  /** xdr_devicedata3. */
  method DeviceData(x: Xdr, v: DeviceTuple) returns (ok: bool, r: DeviceTuple)
    requires InBuffer(x.At()) && (x.encode ==> ProperTimes(v.0))
    modifies x
    ensures Filters(Pair(SattrCodec(), Pair(U32, U32)), x.encode, v, old(x.At()), ok, r, x.At())
  {
    ghost var s := x.At();
    var attrs: Sattr3, spec: (u32, u32) := v.0, v.1;
    ok, attrs := x.Sattr(v.0);
    ghost var ok1, s1 := ok, x.At();
    if ok {
      ok, spec := x.TwoWords(v.1.0, v.1.1);
    }
    Sequence(SattrCodec(), Pair(U32, U32), x.encode, v, s, ok1, attrs, s1, ok, spec, x.At());
    r := (attrs, spec);
  }

  /** The data of a MKNOD has the fields of its type's arm. */
  predicate ProperMknod(v: MknodData3) {
    match v
    case Device(kind, attrs, _, _) => (kind == NF3CHR || kind == NF3BLK) && ProperTimes(attrs)
    case Pipe(kind, attrs) => (kind == NF3SOCK || kind == NF3FIFO) && ProperTimes(attrs)
    case NoData(kind) => kind != NF3CHR && kind != NF3BLK && kind != NF3SOCK && kind != NF3FIFO
  }

  /** xdr_mknoddata3. */
  method Mknod(x: Xdr, v: MknodData3) returns (ok: bool, r: MknodData3)
    requires InBuffer(x.At()) && (x.encode ==> ProperMknod(v))
    modifies x
    ensures Filters(MknodCodec(), x.encode, v, old(x.At()), ok, r, x.At())
  {
    ghost var s := x.At();
    ghost var tagOf, arm := (d: MknodData3) => d.kind, (kind: u32) => MknodArm(kind);
    r := v;
    var kind;
    ok, kind := x.Word(v.kind);
    if !ok {
      TaggedFailed(tagOf, arm, x.encode, v, s, kind, x.At(), v);
      return;
    }
    ghost var s1 := x.At();
    ok, r := MknodBody(x, kind, v);
    TaggedFilters(tagOf, arm, x.encode, v, s, kind, s1, ok, r, x.At());
  }

  /** The switch of xdr_mknoddata3. */
  method MknodBody(x: Xdr, kind: u32, v: MknodData3) returns (ok: bool, r: MknodData3)
    requires InBuffer(x.At()) && (x.encode ==> kind == v.kind && ProperMknod(v))
    modifies x
    ensures Filters(MknodArm(kind), x.encode, v, old(x.At()), ok, r, x.At())
  {
    ghost var s := x.At();
    if kind == NF3CHR || kind == NF3BLK {
      var t: DeviceTuple := FromDevice(v);
      ok, t := DeviceData(x, FromDevice(v));
      MapFilters(Pair(SattrCodec(), Pair(U32, U32)), (t: DeviceTuple) => Device(kind, t.0, t.1.0, t.1.1),
                 (d: MknodData3) => FromDevice(d), (d: MknodData3) => d.Device? && d.kind == kind,
                 x.encode, v, s, ok, t, x.At());
      r := Device(kind, t.0, t.1.0, t.1.1);
    } else if kind == NF3SOCK || kind == NF3FIFO {
      var a;
      ok, a := x.Sattr(if v.Pipe? then v.attrs else NO_SATTR);
      MapFilters(SattrCodec(), (a: Sattr3) => Pipe(kind, a), (d: MknodData3) => if d.Pipe? then d.attrs else NO_SATTR,
                 (d: MknodData3) => d.Pipe? && d.kind == kind, x.encode, v, s, ok, a, x.At());
      r := Pipe(kind, a);
    } else {
      ok, r := true, NoData(kind);
      VoidFilters(NoData(kind), x.encode, v, s);
    }
  }

  /** xdr_CREATE3args. */
  method Create(x: Xdr, v: ((bytes, bytes), CreateHow3)) returns (ok: bool, r: ((bytes, bytes), CreateHow3))
    requires InBuffer(x.At()) && (x.encode ==> ProperCreate(v.1))
    modifies x
    ensures Filters(CreateArgs(), x.encode, v, old(x.At()), ok, r, x.At())
  {
    ghost var s := x.At();
    var dirOp, how := v.0, v.1;
    ok, dirOp := DirOp(x, v.0);
    ghost var ok1, s1 := ok, x.At();
    if ok {
      ok, how := x.CreateHow(v.1);
    }
    Sequence(DirOpArgs(), CreateHowCodec(), x.encode, v, s, ok1, dirOp, s1, ok, how, x.At());
    r := (dirOp, how);
  }

  /** xdr_MKNOD3args. */
  method MknodOf(x: Xdr, v: ((bytes, bytes), MknodData3)) returns (ok: bool, r: ((bytes, bytes), MknodData3))
    requires InBuffer(x.At()) && (x.encode ==> ProperMknod(v.1))
    modifies x
    ensures Filters(MknodArgs(), x.encode, v, old(x.At()), ok, r, x.At())
  {
    ghost var s := x.At();
    var dirOp, data := v.0, v.1;
    ok, dirOp := DirOp(x, v.0);
    ghost var ok1, s1 := ok, x.At();
    if ok {
      ok, data := Mknod(x, v.1);
    }
    Sequence(DirOpArgs(), MknodCodec(), x.encode, v, s, ok1, dirOp, s1, ok, data, x.At());
    r := (dirOp, data);
  }

  /** xdr_sattrguard3. */
  method Guard(x: Xdr, v: Option<Time>) returns (ok: bool, r: Option<Time>)
    requires InBuffer(x.At())
    modifies x
    ensures Filters(Optional(NfsTime3()), x.encode, v, old(x.At()), ok, r, x.At())
  {
    ghost var s := x.At();
    r := v;
    var check;
    ok, check := x.BoolWord(v.Some?);
    if !ok {
      OptionalFailed(NfsTime3(), x.encode, v, s, check, x.At(), v);
    } else if check {
      ghost var s1 := x.At();
      var a := if v.Some? then v.value else Time(0, 0);
      var b;
      ok, b := x.NfsTime(a);
      OptionalSome(NfsTime3(), x.encode, v, s, s1, a, ok, b, x.At());
      r := Some(b);
    } else {
      OptionalNone(NfsTime3(), x.encode, v, s, x.At());
      r := None;
    }
  }

  /** xdr_SETATTR3args. */
  method Setattr(x: Xdr, v: (bytes, (Sattr3, Option<Time>))) returns (ok: bool, r: (bytes, (Sattr3, Option<Time>)))
    requires InBuffer(x.At()) && (x.encode ==> ProperTimes(v.1.0))
    modifies x
    ensures Filters(SetattrArgs(), x.encode, v, old(x.At()), ok, r, x.At())
  {
    ghost var s := x.At();
    var handle: bytes, attrs: Sattr3, guard: Option<Time> := v.0, v.1.0, v.1.1;
    ok, handle := x.CountedBytes(NFS3_FHSIZE, v.0, false);
    ghost var ok1, s1 := ok, x.At();
    if ok {
      ok, attrs := x.Sattr(v.1.0);
    }
    ghost var ok2, s2 := ok, x.At();
    if ok {
      ok, guard := Guard(x, v.1.1);
    }
    ghost var g := Optional(NfsTime3());
    if ok1 {
      Sequence(SattrCodec(), g, x.encode, v.1, s1, ok2, attrs, s2, ok, guard, x.At());
    }
    Sequence(Fh3(), Pair(SattrCodec(), g), x.encode, v, s, ok1, handle, s1, ok, (attrs, guard), x.At());
    r := (handle, (attrs, guard));
  }
}
