/** The filters as the program runs them: one method that encodes or decodes, over a memory buffer and a cursor. */
module XdrStream {
  import opened Ints
  import opened Codecs
  import opened Nfs3

  /** Buffer and cursor. */
  datatype Cursor = Cursor(buf: bytes, pos: nat)

  ghost predicate InBuffer(s: Cursor) {
    s.pos <= |s.buf|
  }

  /** What a filter for `c` does in encoding mode. A failed filter may have written a part. */
  ghost predicate Encodes<T>(c: Codec<T>, v: T, s: Cursor, ok: bool, s': Cursor)
    requires InBuffer(s)
  {
    var e := c.enc(v);
    && InBuffer(s') && |s'.buf| == |s.buf| && s.pos <= s'.pos && s'.buf[..s.pos] == s.buf[..s.pos]
    && (ok <==> c.can(v) && s.pos + |e| <= |s.buf|)
    && (ok ==> s'.pos == s.pos + |e| && s'.buf == s.buf[..s.pos] + e + s.buf[s'.pos..])
  }

  /** What a filter for `c` does in decoding mode. A failed filter may have moved the cursor. */
  ghost predicate Decodes<T>(c: Codec<T>, s: Cursor, ok: bool, r: T, s': Cursor)
    requires InBuffer(s)
  {
    var d := c.dec(s.buf[s.pos..]);
    && InBuffer(s') && s'.buf == s.buf && s.pos <= s'.pos
    && (ok <==> d.Some?)
    && (ok ==> d == Some((r, s.buf[s'.pos..])))
  }

  ghost predicate Filters<T>(c: Codec<T>, encode: bool, v: T, s: Cursor, ok: bool, r: T, s': Cursor)
    requires InBuffer(s)
  {
    if encode then Encodes(c, v, s, ok, s') && (ok ==> r == v) else Decodes(c, s, ok, r, s')
  }

  /** Encoding a value and decoding from where it was written gives the value back and leaves the cursor where encoding
      left it, whatever the buffer holds around it. */
  lemma StreamRoundTrip<T(!new)>(c: Codec<T>, v: T, s: Cursor, written: T, s1: Cursor, any: T, ok: bool, r: T,
                                 s2: Cursor)
    requires Lawful(c) && c.ok(v) && InBuffer(s)
    requires Filters(c, true, v, s, true, written, s1)
    requires Filters(c, false, any, Cursor(s1.buf, s.pos), ok, r, s2)
    ensures ok && r == v && s2 == s1
  {
    var e := c.enc(v);
    assert s1.buf[s.pos..] == e + s1.buf[s1.pos..];
    RoundTrip(c, v, s1.buf[s1.pos..]);
  }

  lemma PairFilters<A, B>(a: Codec<A>, b: Codec<B>, encode: bool, v: (A, B), s: Cursor, r: A, s1: Cursor,
                          ok: bool, r': B, s2: Cursor)
    requires InBuffer(s) && Filters(a, encode, v.0, s, true, r, s1)
    requires Filters(b, encode, v.1, s1, ok, r', s2)
    ensures Filters(Pair(a, b), encode, v, s, ok, (r, r'), s2)
  {
    if encode {
      var x, y := a.enc(v.0), b.enc(v.1);
      assert s1.buf[..s.pos] == s.buf[..s.pos];
      assert s2.buf[..s.pos] == s2.buf[..s1.pos][..s.pos] == s1.buf[..s1.pos][..s.pos];
      if ok {
        assert s1.buf[..s1.pos] == s.buf[..s.pos] + x;
        assert s1.buf[s2.pos..] == s.buf[s2.pos..];
        assert s2.buf == s.buf[..s.pos] + (x + y) + s.buf[s2.pos..];
      }
    }
  }

  /** Two filters in sequence, the second run only if the first succeeded. */
  lemma Sequence<A, B>(a: Codec<A>, b: Codec<B>, encode: bool, v: (A, B), s: Cursor, ok: bool, r: A, s1: Cursor,
                       ok': bool, r': B, s2: Cursor)
    requires InBuffer(s) && Filters(a, encode, v.0, s, ok, r, s1)
    requires if ok then Filters(b, encode, v.1, s1, ok', r', s2) else !ok' && s2 == s1
    ensures Filters(Pair(a, b), encode, v, s, ok', (r, r'), s2)
  {
    if ok {
      PairFilters(a, b, encode, v, s, r, s1, ok', r', s2);
    }
  }

  lemma MapFilters<A, B>(c: Codec<A>, to: A -> B, from: B -> A, dom: B -> bool, encode: bool, v: B, s: Cursor,
                         ok: bool, x: A, s': Cursor)
    requires InBuffer(s) && Filters(c, encode, from(v), s, ok, x, s')
    requires encode ==> dom(v) && to(from(v)) == v
    ensures Filters(Map(c, to, from, dom), encode, v, s, ok, to(x), s')
  {
  }

  /** A union on a bool, its arm taken. */
  lemma OptionalSome<A>(c: Codec<A>, encode: bool, v: Option<A>, s: Cursor, s1: Cursor, x: A, ok: bool, r: A,
                        s2: Cursor)
    requires InBuffer(s) && Filters(Bool, encode, v.Some?, s, true, true, s1)
    requires Filters(c, encode, x, s1, ok, r, s2) && (encode ==> v == Some(x))
    ensures Filters(Optional(c), encode, v, s, ok, Some(r), s2)
  {
    if encode {
      PairFilters(Bool, c, encode, (true, x), s, true, s1, ok, r, s2);
    }
  }

  /** Its void arm. */
  lemma OptionalNone<A>(c: Codec<A>, encode: bool, v: Option<A>, s: Cursor, s1: Cursor)
    requires InBuffer(s) && Filters(Bool, encode, v.Some?, s, true, false, s1)
    ensures Filters(Optional(c), encode, v, s, true, None, s1)
  {
    if encode {
      assert EncodeOptional(c, v) == EncodeBool(false);
    }
  }

  lemma OptionalFailed<A>(c: Codec<A>, encode: bool, v: Option<A>, s: Cursor, b: bool, s1: Cursor, r: Option<A>)
    requires InBuffer(s) && Filters(Bool, encode, v.Some?, s, false, b, s1)
    ensures Filters(Optional(c), encode, v, s, false, r, s1)
  {
  }

  /** A union on a word. */
  lemma TaggedFilters<T>(tagOf: T -> u32, arm: u32 -> Codec<T>, encode: bool, v: T, s: Cursor, tag: u32, s1: Cursor,
                         ok: bool, r: T, s2: Cursor)
    requires InBuffer(s) && Filters(U32, encode, tagOf(v), s, true, tag, s1)
    requires Filters(arm(tag), encode, v, s1, ok, r, s2)
    ensures Filters(Tagged(tagOf, arm), encode, v, s, ok, r, s2)
  {
    if encode {
      PairFilters(U32, arm(tag), encode, (tag, v), s, tag, s1, ok, r, s2);
    }
  }

  lemma TaggedFailed<T>(tagOf: T -> u32, arm: u32 -> Codec<T>, encode: bool, v: T, s: Cursor, tag: u32, s1: Cursor,
                        r: T)
    requires InBuffer(s) && Filters(U32, encode, tagOf(v), s, false, tag, s1)
    ensures Filters(Tagged(tagOf, arm), encode, v, s, false, r, s1)
  {
  }

  /** A void arm moves nothing. */
  lemma VoidFilters<T>(x: T, encode: bool, v: T, s: Cursor)
    requires InBuffer(s) && (encode ==> v == x)
    ensures Filters(Void(x), encode, v, s, true, x, s)
  {
    assert s.buf == s.buf[..s.pos] + [] + s.buf[s.pos..];
  }

  lemma RejectFilters<T>(encode: bool, v: T, s: Cursor, r: T)
    requires InBuffer(s)
    ensures Filters(Reject<T>(), encode, v, s, false, r, s)
  {
  }

  /** The end of a linked list. */
  lemma NilFilters<A(!new)>(c: Codec<A>, encode: bool, vs: seq<A>, s: Cursor, s1: Cursor)
    requires InBuffer(s) && Filters(Bool, encode, vs != [], s, true, false, s1)
    ensures Filters(List(c), encode, vs, s, true, [], s1)
  {
    if encode {
      assert EncodeList(c, vs) == EncodeBool(false);
    }
  }

  lemma ListFailed<A(!new)>(c: Codec<A>, encode: bool, vs: seq<A>, s: Cursor, b: bool, s1: Cursor, r: seq<A>)
    requires InBuffer(s) && Filters(Bool, encode, vs != [], s, false, b, s1)
    ensures Filters(List(c), encode, vs, s, false, r, s1)
  {
  }

  /** A node of a linked list: the pointer's bool, the fields, and the rest of the list behind its last pointer. */
  lemma ConsFilters<A(!new)>(c: Codec<A>, encode: bool, vs: seq<A>, s: Cursor, s1: Cursor, x: A, xs: seq<A>,
                             ok: bool, r: (A, seq<A>), s2: Cursor)
    requires Lawful(c)
    requires InBuffer(s) && Filters(Bool, encode, vs != [], s, true, true, s1)
    requires Filters(Pair(c, List(c)), encode, (x, xs), s1, ok, r, s2) && (encode ==> vs == [x] + xs)
    ensures Filters(List(c), encode, vs, s, ok, [r.0] + r.1, s2)
  {
    if encode {
      PairFilters(Bool, Pair(c, List(c)), encode, (true, (x, xs)), s, true, s1, ok, r, s2);
      assert ([x] + xs)[1..] == xs;
      assert All(c.can, vs) <==> c.can(x) && All(c.can, xs) by {
        assert vs[0] == x && forall i :: 0 <= i < |xs| ==> vs[i + 1] == xs[i];
      }
    } else {
      DecodeListStep(c, s.buf[s.pos..]);
    }
  }

  /** The void arms of a time union do not carry the discriminant of the other arm. */
  predicate ProperHow(t: SetTime) {
    t.OtherHow? ==> t.how != SET_TO_CLIENT_TIME
  }

  predicate ProperCreate(h: CreateHow3) {
    if h.Exclusive? then |h.verf| == NFS3_CREATEVERFSIZE else ProperTimes(h.attrs)
  }

  predicate ProperTimes(a: Sattr3) {
    ProperHow(a.atime) && ProperHow(a.mtime)
  }

  lemma ConsGroup(encode: bool, v: seq<bytes>, s: Cursor, s1: Cursor, x: bytes, xs: seq<bytes>,
                  ok: bool, r: (bytes, seq<bytes>), s2: Cursor)
    requires InBuffer(s) && Filters(Bool, encode, v != [], s, true, true, s1)
    requires Filters(Pair(String(MNTNAMLEN), Groups()), encode, (x, xs), s1, ok, r, s2) && (encode ==> v == [x] + xs)
    ensures Filters(Groups(), encode, v, s, ok, [r.0] + r.1, s2)
  {
    StringLawful(MNTNAMLEN);
    ConsFilters(String(MNTNAMLEN), encode, v, s, s1, x, xs, ok, r, s2);
  }

  lemma ConsExport(encode: bool, v: seq<(bytes, seq<bytes>)>, s: Cursor, s1: Cursor, x: (bytes, seq<bytes>),
                   xs: seq<(bytes, seq<bytes>)>, ok: bool, r: ((bytes, seq<bytes>), seq<(bytes, seq<bytes>)>),
                   s2: Cursor)
    requires InBuffer(s) && Filters(Bool, encode, v != [], s, true, true, s1)
    requires Filters(Pair(ExportFields(), Exports()), encode, (x, xs), s1, ok, r, s2) && (encode ==> v == [x] + xs)
    ensures Filters(Exports(), encode, v, s, ok, [r.0] + r.1, s2)
  {
    ExportFieldsLawful();
    ConsFilters(ExportFields(), encode, v, s, s1, x, xs, ok, r, s2);
  }

  class Xdr {
    const encode: bool
    var buf: bytes
    var pos: nat

    constructor (buf: bytes, encode: bool)
      ensures this.encode == encode && At() == Cursor(buf, 0)
    {
      this.buf, this.encode, pos := buf, encode, 0;
    }

    ghost function At(): Cursor
      reads this
    {
      Cursor(buf, pos)
    }

    /** Write bytes at the cursor, if they fit. */
    method Put(b: bytes) returns (ok: bool)
      requires InBuffer(At())
      modifies this
      ensures ok <==> old(pos) + |b| <= |old(buf)|
      ensures if ok then pos == old(pos) + |b| && buf == old(buf)[..old(pos)] + b + old(buf)[pos..]
              else At() == old(At())
    {
      ok := pos + |b| <= |buf|;
      if ok {
        buf := buf[..pos] + b + buf[pos + |b|..];
        pos := pos + |b|;
      }
    }

    /** xdr_u_int, xdr_uint32 and xdr_enum: one word. */
    method Word(v: u32) returns (ok: bool, r: u32)
      requires InBuffer(At())
      modifies this
      ensures Filters(U32, encode, v, old(At()), ok, r, At())
    {
      r := v;
      if encode {
        ok := Put(Bytes(v));
      } else {
        ok := pos + 4 <= |buf|;
        if ok {
          assert buf[pos..][..4] == buf[pos..pos + 4];
          r := Number(buf[pos..pos + 4]);
          pos := pos + 4;
        }
      }
    }

    /** xdr_bool. */
    method BoolWord(v: bool) returns (ok: bool, r: bool)
      requires InBuffer(At())
      modifies this
      ensures Filters(Bool, encode, v, old(At()), ok, r, At())
    {
      var w;
      ok, w := Word(if v then 1 else 0);
      r := if encode then v else w != 0;
    }

    /** xdr_opaque of a fixed length. */
    method OpaqueBytes(n: nat, v: bytes) returns (ok: bool, r: bytes)
      requires InBuffer(At()) && (encode ==> |v| == n)
      modifies this
      ensures Filters(Opaque(n), encode, v, old(At()), ok, r, At())
    {
      r := v;
      if encode {
        ok := Put(v + Padding(n));
      } else {
        ok := pos + n + PadLength(n) <= |buf|;
        if ok {
          assert buf[pos..][..n] == buf[pos..pos + n];
          assert buf[pos..][n + PadLength(n)..] == buf[pos + n + PadLength(n)..];
          r := buf[pos..pos + n];
          pos := pos + n + PadLength(n);
        }
      }
    }

    /** xdr_bytes and xdr_string: a length word, then that many bytes. A string is written up to its first zero. */
    method CountedBytes(max: u32, v: bytes, text: bool) returns (ok: bool, r: bytes)
      requires InBuffer(At())
      modifies this
      ensures Filters(if text then String(max) else VarOpaque(max), encode, v, old(At()), ok, r, At())
    {
      r := v;
      if encode {
        var body := if text then CString(v) else v;
        if |body| > max {
          return false, r;
        }
        ok := Put(EncodeVar(body));
      } else {
        var n;
        ok, n := Word(0);
        if ok {
          if n > max {
            return false, r;
          }
          ok, r := OpaqueBytes(n, []);
        }
      }
    }

    // -------------------------------------------------------------- attributes to set

    method TwoWords(a: u32, b: u32) returns (ok: bool, r: (u32, u32))
      requires InBuffer(At())
      modifies this
      ensures Filters(Pair(U32, U32), encode, (a, b), old(At()), ok, r, At())
    {
      ghost var s := At();
      var x, y: u32 := a, b;
      ok, x := Word(a);
      ghost var ok1, s1 := ok, At();
      if ok {
        ok, y := Word(b);
      }
      Sequence(U32, U32, encode, (a, b), s, ok1, x, s1, ok, y, At());
      r := (x, y);
    }

    /** xdr_size3: a hyper integer. */
    method Size3(v: u64) returns (ok: bool, r: u64)
      requires InBuffer(At())
      modifies this
      ensures Filters(U64(), encode, v, old(At()), ok, r, At())
    {
      ghost var s := At();
      var w;
      ok, w := TwoWords(v / 0x1_0000_0000, v % 0x1_0000_0000);
      MapFilters(Pair(U32, U32), (w: (u32, u32)) => U64Of(w), (n: u64) => WordsOf(n), (n: u64) => true,
                 encode, v, s, ok, w, At());
      r := U64Of(w);
    }

    /** xdr_nfstime3. */
    method NfsTime(v: Time) returns (ok: bool, r: Time)
      requires InBuffer(At())
      modifies this
      ensures Filters(NfsTime3(), encode, v, old(At()), ok, r, At())
    {
      ghost var s := At();
      var w;
      ok, w := TwoWords(v.seconds, v.nseconds);
      MapFilters(Pair(U32, U32), (w: (u32, u32)) => Time(w.0, w.1), (t: Time) => (t.seconds, t.nseconds),
                 (t: Time) => true,
                 encode, v, s, ok, w, At());
      r := Time(w.0, w.1);
    }

    /** xdr_set_mode3, xdr_set_uid3 and xdr_set_gid3. */
    method SetWord(v: Option<u32>) returns (ok: bool, r: Option<u32>)
      requires InBuffer(At())
      modifies this
      ensures Filters(Optional(U32), encode, v, old(At()), ok, r, At())
    {
      ghost var s := At();
      r := v;
      var setIt;
      ok, setIt := BoolWord(v.Some?);
      if !ok {
        OptionalFailed(U32, encode, v, s, setIt, At(), v);
      } else if setIt {
        ghost var s1 := At();
        var x := if v.Some? then v.value else 0;
        var y;
        ok, y := Word(x);
        OptionalSome(U32, encode, v, s, s1, x, ok, y, At());
        r := Some(y);
      } else {
        OptionalNone(U32, encode, v, s, At());
        r := None;
      }
    }

    /** xdr_set_size3. */
    method SetSize(v: Option<u64>) returns (ok: bool, r: Option<u64>)
      requires InBuffer(At())
      modifies this
      ensures Filters(Optional(U64()), encode, v, old(At()), ok, r, At())
    {
      ghost var s := At();
      r := v;
      var setIt;
      ok, setIt := BoolWord(v.Some?);
      if !ok {
        OptionalFailed(U64(), encode, v, s, setIt, At(), v);
      } else if setIt {
        ghost var s1 := At();
        var x := if v.Some? then v.value else 0;
        var y;
        ok, y := Size3(x);
        OptionalSome(U64(), encode, v, s, s1, x, ok, y, At());
        r := Some(y);
      } else {
        OptionalNone(U64(), encode, v, s, At());
        r := None;
      }
    }

    /** xdr_set_atime and xdr_set_mtime. */
    method SetTimeHow(v: SetTime) returns (ok: bool, r: SetTime)
      requires InBuffer(At()) && (encode ==> ProperHow(v))
      modifies this
      ensures Filters(SetTimeCodec(), encode, v, old(At()), ok, r, At())
    {
      ghost var s := At();
      ghost var tagOf, arm := (s: SetTime) => HowOf(s), (how: u32) => SetTimeArm(how);
      r := v;
      var setIt;
      ok, setIt := Word(HowOf(v));
      if !ok {
        TaggedFailed(tagOf, arm, encode, v, s, setIt, At(), v);
        return;
      }
      ghost var s1 := At();
      if setIt == SET_TO_CLIENT_TIME {
        var t;
        ok, t := NfsTime(if v.ClientTime? then v.time else Time(0, 0));
        MapFilters(NfsTime3(), (t: Time) => ClientTime(t), (s: SetTime) => if s.ClientTime? then s.time else Time(0, 0),
                   (s: SetTime) => s.ClientTime?, encode, v, s1, ok, t, At());
        r := ClientTime(t);
      } else {
        r := OtherHow(setIt);
        VoidFilters(OtherHow(setIt), encode, v, s1);
      }
      TaggedFilters(tagOf, arm, encode, v, s, setIt, s1, ok, r, At());
    }

    /** xdr_sattr3: six unions in a row, up to the first that fails. */
    method Sattr(v: Sattr3) returns (ok: bool, r: Sattr3)
      requires InBuffer(At()) && (encode ==> ProperTimes(v))
      modifies this
      ensures Filters(SattrCodec(), encode, v, old(At()), ok, r, At())
    {
      ghost var s := At();
      var mode, uid := v.mode, v.uid;
      var rest: (Option<u32>, (Option<u64>, (SetTime, SetTime))) := (v.gid, (v.size, (v.atime, v.mtime)));
      ok, mode := SetWord(v.mode);
      ghost var ok1, s1 := ok, At();
      if ok {
        ok, uid := SetWord(v.uid);
      }
      ghost var ok2, s2 := ok, At();
      if ok {
        ok, rest := SetGidSizeTimes(v);
      }
      ghost var w, z := Optional(U32), Pair(Optional(U64()), Pair(SetTimeCodec(), SetTimeCodec()));
      if ok1 {
        Sequence(w, Pair(w, z), encode, (v.uid, (v.gid, (v.size, (v.atime, v.mtime)))), s1, ok2, uid, s2, ok, rest,
                 At());
      }
      Sequence(w, Pair(w, Pair(w, z)), encode, FromSattr(v), s, ok1, mode, s1, ok, (uid, rest), At());
      MapFilters(SattrFields(), (t: SattrTuple) => ToSattr(t), (a: Sattr3) => FromSattr(a), (a: Sattr3) => true,
                 encode, v, s, ok, (mode, (uid, rest)), At());
      r := ToSattr((mode, (uid, rest)));
    }

    method SetGidSizeTimes(v: Sattr3) returns (ok: bool, r: (Option<u32>, (Option<u64>, (SetTime, SetTime))))
      requires InBuffer(At()) && (encode ==> ProperTimes(v))
      modifies this
      ensures Filters(Pair(Optional(U32), Pair(Optional(U64()), Pair(SetTimeCodec(), SetTimeCodec()))), encode,
                      (v.gid, (v.size, (v.atime, v.mtime))), old(At()), ok, r, At())
    {
      ghost var s := At();
      var gid, size, atime, mtime := v.gid, v.size, v.atime, v.mtime;
      ok, gid := SetWord(v.gid);
      ghost var ok1, s1 := ok, At();
      if ok {
        ok, size := SetSize(v.size);
      }
      ghost var ok2, s2 := ok, At();
      if ok {
        ok, atime, mtime := SetTimes(v.atime, v.mtime);
      }
      ghost var t := Pair(SetTimeCodec(), SetTimeCodec());
      if ok1 {
        Sequence(Optional(U64()), t, encode, (v.size, (v.atime, v.mtime)), s1, ok2, size, s2, ok, (atime, mtime), At());
      }
      Sequence(Optional(U32), Pair(Optional(U64()), t), encode, (v.gid, (v.size, (v.atime, v.mtime))), s, ok1, gid, s1,
               ok, (size, (atime, mtime)), At());
      r := (gid, (size, (atime, mtime)));
    }

    method SetTimes(atime: SetTime, mtime: SetTime) returns (ok: bool, a: SetTime, m: SetTime)
      requires InBuffer(At()) && (encode ==> ProperHow(atime) && ProperHow(mtime))
      modifies this
      ensures Filters(Pair(SetTimeCodec(), SetTimeCodec()), encode, (atime, mtime), old(At()), ok, (a, m), At())
    {
      ghost var s := At();
      m := mtime;
      ok, a := SetTimeHow(atime);
      ghost var ok1, s1 := ok, At();
      if ok {
        ok, m := SetTimeHow(mtime);
      }
      Sequence(SetTimeCodec(), SetTimeCodec(), encode, (atime, mtime), s, ok1, a, s1, ok, m, At());
    }

    /** xdr_createhow3: attributes under UNCHECKED and GUARDED, a verifier under EXCLUSIVE, failure otherwise. */
    method CreateHow(v: CreateHow3) returns (ok: bool, r: CreateHow3)
      requires InBuffer(At()) && (encode ==> ProperCreate(v))
      modifies this
      ensures Filters(CreateHowCodec(), encode, v, old(At()), ok, r, At())
    {
      ghost var s := At();
      ghost var tagOf, arm := (h: CreateHow3) => ModeOf(h), (mode: u32) => CreateArm(mode);
      r := v;
      var mode;
      ok, mode := Word(ModeOf(v));
      if !ok {
        TaggedFailed(tagOf, arm, encode, v, s, mode, At(), v);
        return;
      }
      ghost var s1 := At();
      ok, r := CreateBody(mode, v);
      TaggedFilters(tagOf, arm, encode, v, s, mode, s1, ok, r, At());
    }

    /** The switch of xdr_createhow3. */
    method CreateBody(mode: u32, v: CreateHow3) returns (ok: bool, r: CreateHow3)
      requires InBuffer(At()) && (encode ==> mode == ModeOf(v) && ProperCreate(v))
      modifies this
      ensures Filters(CreateArm(mode), encode, v, old(At()), ok, r, At())
    {
      ghost var s := At();
      r := v;
      if mode == 0 {
        var a;
        ok, a := Sattr(if v.Unchecked? then v.attrs else NO_SATTR);
        MapFilters(SattrCodec(), (a: Sattr3) => Unchecked(a),
                   (h: CreateHow3) => if h.Unchecked? then h.attrs else NO_SATTR,
                   (h: CreateHow3) => h.Unchecked?, encode, v, s, ok, a, At());
        r := Unchecked(a);
      } else if mode == 1 {
        var a;
        ok, a := Sattr(if v.Guarded? then v.attrs else NO_SATTR);
        MapFilters(SattrCodec(), (a: Sattr3) => Guarded(a), (h: CreateHow3) => if h.Guarded? then h.attrs else NO_SATTR,
                   (h: CreateHow3) => h.Guarded?, encode, v, s, ok, a, At());
        r := Guarded(a);
      } else if mode == 2 {
        var b;
        ok, b := OpaqueBytes(NFS3_CREATEVERFSIZE, if v.Exclusive? then v.verf else []);
        MapFilters(Opaque(NFS3_CREATEVERFSIZE), (v: bytes) => Exclusive(v),
                   (h: CreateHow3) => if h.Exclusive? then h.verf else [], (h: CreateHow3) => h.Exclusive?,
                   encode, v, s, ok, b, At());
        r := Exclusive(b);
      } else {
        ok := false;
        RejectFilters(encode, v, s, v);
      }
    }

    // -------------------------------------------------------------- export lists

    /** xdr_groups: a pointer to a node, or null. */
    method GroupList(v: seq<bytes>) returns (ok: bool, r: seq<bytes>)
      requires InBuffer(At())
      modifies this
      ensures Filters(Groups(), encode, v, old(At()), ok, r, At())
      decreases if encode then |v| else |buf| - pos, 0
    {
      ghost var s := At();
      r := v;
      var follows;
      ok, follows := BoolWord(v != []);
      if !ok {
        ListFailed(String(MNTNAMLEN), encode, v, s, follows, At(), v);
      } else if follows {
        ghost var s1 := At();
        var x: bytes, xs: seq<bytes> := if encode then v[0] else [], if encode then v[1..] else [];
        if encode {
          Cons(v);
        }
        var node;
        ok, node := GroupNode((x, xs));
        ConsGroup(encode, v, s, s1, x, xs, ok, node, At());
        r := [node.0] + node.1;
      } else {
        NilFilters(String(MNTNAMLEN), encode, v, s, At());
        r := [];
      }
    }

    /** xdr_groupnode: a name and the next pointer. */
    method GroupNode(v: (bytes, seq<bytes>)) returns (ok: bool, r: (bytes, seq<bytes>))
      requires InBuffer(At())
      modifies this
      ensures Filters(Pair(String(MNTNAMLEN), Groups()), encode, v, old(At()), ok, r, At())
      decreases if encode then |v.1| else |buf| - pos, 1
    {
      ghost var s := At();
      var name, next := v.0, v.1;
      ok, name := CountedBytes(MNTNAMLEN, v.0, true);
      ghost var ok1, s1 := ok, At();
      if ok {
        ok, next := GroupList(v.1);
      }
      Sequence(String(MNTNAMLEN), Groups(), encode, v, s, ok1, name, s1, ok, next, At());
      r := (name, next);
    }

    /** xdr_exports: a list whose nodes hold lists. */
    method ExportList(v: seq<(bytes, seq<bytes>)>) returns (ok: bool, r: seq<(bytes, seq<bytes>)>)
      requires InBuffer(At())
      modifies this
      ensures Filters(Exports(), encode, v, old(At()), ok, r, At())
      decreases if encode then |v| else |buf| - pos, 0
    {
      ghost var s, c := At(), ExportFields();
      r := v;
      var follows;
      ok, follows := BoolWord(v != []);
      if !ok {
        ListFailed(c, encode, v, s, follows, At(), v);
      } else if follows {
        ghost var s1 := At();
        var x: (bytes, seq<bytes>) := if encode then v[0] else ([], []);
        var xs: seq<(bytes, seq<bytes>)> := if encode then v[1..] else [];
        if encode {
          Cons(v);
        }
        var node;
        ok, node := ExportNode((x, xs));
        ConsExport(encode, v, s, s1, x, xs, ok, node, At());
        r := [node.0] + node.1;
      } else {
        NilFilters(c, encode, v, s, At());
        r := [];
      }
    }

    /** xdr_exportnode: the fields of one export and the next pointer. */
    method ExportNode(v: ((bytes, seq<bytes>), seq<(bytes, seq<bytes>)>))
      returns (ok: bool, r: ((bytes, seq<bytes>), seq<(bytes, seq<bytes>)>))
      requires InBuffer(At())
      modifies this
      ensures Filters(Pair(ExportFields(), Exports()), encode, v, old(At()), ok, r, At())
      decreases if encode then |v.1| else |buf| - pos, 1
    {
      ghost var s := At();
      var fields, next := v.0, v.1;
      ok, fields := ExportDirAndGroups(v.0);
      ghost var ok1, s1 := ok, At();
      if ok {
        ok, next := ExportList(v.1);
      }
      Sequence(ExportFields(), Exports(), encode, v, s, ok1, fields, s1, ok, next, At());
      r := (fields, next);
    }

    /** ex_dir and ex_groups of an exportnode. */
    method ExportDirAndGroups(v: (bytes, seq<bytes>)) returns (ok: bool, r: (bytes, seq<bytes>))
      requires InBuffer(At())
      modifies this
      ensures Filters(ExportFields(), encode, v, old(At()), ok, r, At())
    {
      ghost var s, d := At(), String(MNTPATHLEN);
      var dir, groups := v.0, v.1;
      ok, dir := CountedBytes(MNTPATHLEN, v.0, true);
      ghost var ok1, s1 := ok, At();
      if ok {
        ok, groups := GroupList(v.1);
      }
      Sequence(d, Groups(), encode, v, s, ok1, dir, s1, ok, groups, At());
      r := (dir, groups);
    }
  }
}
