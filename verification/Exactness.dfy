/** Exactly which values survive encoding: strings with a zero byte decode, but are encoded up to that byte only. */
module Exactness {
  import opened Ints
  import opened Codecs
  import opened Nfs3

  // ---------------------------------------------------------------- values that can be encoded

  /** A value that the filter encodes although it is not `ok` does not come back. */
  ghost predicate ExactAt<T>(c: Codec<T>, v: T, x: bytes) {
    c.can(v) && !c.ok(v) ==> c.dec(c.enc(v) + x) == None || c.dec(c.enc(v) + x).value.0 != v
  }

  ghost predicate Exact<T(!new)>(c: Codec<T>) {
    forall v, x :: ExactAt(c, v, x)
  }

  /** Of all values that the filter encodes, exactly the `ok` ones are read back. */
  lemma RoundTripExact<T(!new)>(c: Codec<T>, v: T, rest: bytes)
    requires Lawful(c) && Exact(c) && c.can(v)
    ensures c.dec(c.enc(v) + rest) == Some((v, rest)) <==> c.ok(v)
  {
    assert BackAt(c, v, rest) && ExactAt(c, v, rest);
  }

  /** A filter that only encodes what is `ok`. */
  lemma StrictExact<T(!new)>(c: Codec<T>)
    requires forall v :: c.can(v) ==> c.ok(v)
    ensures Exact(c)
  {
  }

  predicate NoZero(v: bytes) {
    0 !in v
  }

  lemma {:induction false} CStringExact(v: bytes)
    ensures CString(v) == v <==> NoZero(v)
    decreases |v|
  {
    if |v| > 0 {
      CStringExact(v[1..]);
      Cons(v);
      if v[0] != 0 {
        assert ([v[0]] + CString(v[1..]))[1..] == CString(v[1..]);
      }
    }
  }

  /** Whatever string is encoded, its part before the first zero byte is read back. So it comes back whole if and
      only if it has no zero byte. */
  lemma StringTruncates(max: u32, v: bytes, rest: bytes)
    requires |CString(v)| <= max
    ensures String(max).can(v) && String(max).dec(String(max).enc(v) + rest) == Some((CString(v), rest))
    ensures String(max).dec(String(max).enc(v) + rest) == Some((v, rest)) <==> NoZero(v)
  {
    VarReadsBack(max, CString(v), rest);
    CStringExact(v);
  }

  lemma StringExact(max: u32)
    ensures Exact(String(max))
  {
    forall v: bytes, x: bytes
      ensures ExactAt(String(max), v, x)
    {
      if |CString(v)| <= max {
        StringTruncates(max, v, x);
      }
    }
  }

  /** A name of three bytes, of which the second is zero, decodes as it is, and comes back as its first byte. */
  lemma ZeroByteName(x: byte, y: byte, rest: bytes)
    requires x != 0
    ensures FileName3().dec(EncodeVar([x, 0, y]) + rest) == Some(([x, 0, y], rest))
    ensures FileName3().dec(FileName3().enc([x, 0, y]) + rest) == Some(([x], rest))
  {
    VarReadsBack(MAX_UINT, [x, 0, y], rest);
    BeforeZero(x, [0, y]);
    StringTruncates(MAX_UINT, [x, 0, y], rest);
  }

  lemma BeforeZero(x: byte, v: bytes)
    requires x != 0 && |v| > 0 && v[0] == 0
    ensures CString([x] + v) == [x] && forall y :: v == [0, y] ==> [x] + v == [x, 0, y]
  {
    assert ([x] + v)[1..] == v;
  }

  lemma PairExact<A(!new), B(!new)>(a: Codec<A>, b: Codec<B>)
    requires Lawful(a) && Exact(a) && Exact(b)
    ensures Exact(Pair(a, b))
  {
    forall v: (A, B), x: bytes
      ensures ExactAt(Pair(a, b), v, x)
    {
      var tail := b.enc(v.1) + x;
      ConcatAssoc(a.enc(v.0), b.enc(v.1), x);
      assert ExactAt(a, v.0, tail) && BackAt(a, v.0, tail) && ExactAt(b, v.1, x);
    }
  }

  lemma MapExact<A(!new), B(!new)>(c: Codec<A>, to: A -> B, from: B -> A, dom: B -> bool)
    requires Exact(c) && forall x :: from(to(x)) == x
    ensures Exact(Map(c, to, from, dom))
  {
    forall v: B, x: bytes
      ensures ExactAt(Map(c, to, from, dom), v, x)
    {
      assert ExactAt(c, from(v), x);
    }
  }

  lemma RestNotOk<A(!new)>(c: Codec<A>, vs: seq<A>)
    requires |vs| > 0 && c.ok(vs[0]) && All(c.can, vs) && !All(c.ok, vs)
    ensures All(c.can, vs[1..]) && !All(c.ok, vs[1..])
  {
    var i :| 0 <= i < |vs| && !c.ok(vs[i]);
    assert vs[1..][i - 1] == vs[i];
  }

  lemma {:induction false} ListExactAt<A(!new)>(c: Codec<A>, vs: seq<A>, x: bytes)
    requires Lawful(c) && Exact(c) && All(c.can, vs) && !All(c.ok, vs)
    ensures DecodeList(c, EncodeList(c, vs) + x) == None || DecodeList(c, EncodeList(c, vs) + x).value.0 != vs
    decreases |vs|
  {
    var v, vs' := vs[0], vs[1..];
    var tail := EncodeList(c, vs') + x;
    ListHead(c, vs, x);
    DecodeListStep(c, EncodeList(c, vs) + x);
    assert ExactAt(c, v, tail) && BackAt(c, v, tail);
    if c.ok(v) {
      RestNotOk(c, vs);
      ListExactAt(c, vs', x);
      if DecodeList(c, tail).Some? {
        var ws := DecodeList(c, tail).value.0;
        assert ([v] + ws)[1..] == ws;
      }
    }
  }

  lemma ListExact<A(!new)>(c: Codec<A>)
    requires Lawful(c) && Exact(c)
    ensures Exact(List(c))
  {
    forall vs: seq<A>, x: bytes
      ensures ExactAt(List(c), vs, x)
    {
      if All(c.can, vs) && !All(c.ok, vs) {
        ListExactAt(c, vs, x);
      }
    }
  }

  // ---------------------------------------------------------------- values that were decoded

  /** What was decoded can be encoded, and is `ok` exactly if it is `clean`. */
  ghost predicate AdmitsAt<T>(c: Codec<T>, clean: T -> bool, b: bytes) {
    c.dec(b).Some? ==> c.can(c.dec(b).value.0) && (c.ok(c.dec(b).value.0) <==> clean(c.dec(b).value.0))
  }

  ghost predicate Admits<T(!new)>(c: Codec<T>, clean: T -> bool) {
    forall b :: AdmitsAt(c, clean, b)
  }

  /** Whatever was decoded can be encoded again, and then decodes to the same if and only if it is `clean`. */
  ghost predicate Survives<T(!new)>(c: Codec<T>, clean: T -> bool) {
    forall b :: c.dec(b).Some? ==>
      var (v, rest) := c.dec(b).value;
      c.can(v) && (c.dec(c.enc(v) + rest) == Some((v, rest)) <==> clean(v))
  }

  lemma ReencodeExact<T(!new)>(c: Codec<T>, clean: T -> bool)
    requires Lawful(c) && Exact(c) && Admits(c, clean)
    ensures Survives(c, clean)
  {
    forall b | c.dec(b).Some?
      ensures var (v, rest) := c.dec(b).value;
              c.can(v) && (c.dec(c.enc(v) + rest) == Some((v, rest)) <==> clean(v))
    {
      assert AdmitsAt(c, clean, b);
      RoundTripExact(c, c.dec(b).value.0, c.dec(b).value.1);
    }
  }

  lemma ClosedAdmits<T(!new)>(c: Codec<T>, clean: T -> bool)
    requires Lawful(c) && Closed(c) && forall v :: clean(v)
    ensures Admits(c, clean)
  {
    forall b: bytes
      ensures AdmitsAt(c, clean, b)
    {
      if c.dec(b).Some? {
        assert BackAt(c, c.dec(b).value.0, []);
      }
    }
  }

  lemma StringAdmits(max: u32, clean: bytes -> bool)
    requires forall v :: clean(v) <==> NoZero(v)
    ensures Admits(String(max), clean)
  {
    forall b: bytes
      ensures AdmitsAt(String(max), clean, b)
    {
      if DecodeVar(max, b).Some? {
        VarReadsPrefix(max, b, []);
      }
    }
  }

  lemma PairAdmits<A(!new), B(!new)>(a: Codec<A>, p: A -> bool, b: Codec<B>, q: B -> bool, r: ((A, B)) -> bool)
    requires Admits(a, p) && Admits(b, q) && forall v: (A, B) :: r(v) <==> p(v.0) && q(v.1)
    ensures Admits(Pair(a, b), r)
  {
    forall s: bytes
      ensures AdmitsAt(Pair(a, b), r, s)
    {
      assert AdmitsAt(a, p, s);
      if a.dec(s).Some? {
        assert AdmitsAt(b, q, a.dec(s).value.1);
      }
    }
  }

  lemma MapAdmits<A(!new), B(!new)>(c: Codec<A>, p: A -> bool, to: A -> B, from: B -> A, dom: B -> bool, q: B -> bool)
    requires Admits(c, p) && forall x :: dom(to(x)) && from(to(x)) == x && (q(to(x)) <==> p(x))
    ensures Admits(Map(c, to, from, dom), q)
  {
    forall s: bytes
      ensures AdmitsAt(Map(c, to, from, dom), q, s)
    {
      assert AdmitsAt(c, p, s);
    }
  }

  lemma {:induction false} ListAdmitsAt<A(!new)>(c: Codec<A>, p: A -> bool, s: bytes)
    requires Lawful(c) && Admits(c, p) && DecodeList(c, s).Some?
    ensures var vs := DecodeList(c, s).value.0; All(c.can, vs) && (All(c.ok, vs) <==> All(p, vs))
    decreases |s|
  {
    var rest := DecodeBool(s).value.1;
    if DecodeBool(s).value.0 {
      DecodeListStep(c, s);
      assert AdmitsAt(c, p, rest) && ReadAt(c, rest, []);
      var (v, rest') := c.dec(rest).value;
      ListAdmitsAt(c, p, rest');
      var vs := DecodeList(c, rest').value.0;
      AllCons(c.can, v, vs);
      AllCons(c.ok, v, vs);
      AllCons(p, v, vs);
    }
  }

  lemma ListAdmits<A(!new)>(c: Codec<A>, p: A -> bool, q: seq<A> -> bool)
    requires Lawful(c) && Admits(c, p) && forall vs :: q(vs) <==> All(p, vs)
    ensures Admits(List(c), q)
  {
    forall s: bytes
      ensures AdmitsAt(List(c), q, s)
    {
      if DecodeList(c, s).Some? {
        ListAdmitsAt(c, p, s);
      }
    }
  }

  // ---------------------------------------------------------------- names in calls

  lemma DirOpExact()
    ensures Lawful(DirOpArgs()) && Exact(DirOpArgs()) && Admits(DirOpArgs(), (v: (bytes, bytes)) => NoZero(v.1))
  {
    DirOpArgsLawful();
    VarOpaqueLawful(NFS3_FHSIZE);
    StrictExact(Fh3());
    ClosedAdmits(Fh3(), (h: bytes) => true);
    StringExact(MAX_UINT);
    PairExact(Fh3(), FileName3());
    StringAdmits(MAX_UINT, (n: bytes) => NoZero(n));
    PairAdmits(Fh3(), (h: bytes) => true, FileName3(), (n: bytes) => NoZero(n), (v: (bytes, bytes)) => NoZero(v.1));
  }

  /** A directory handle and a name, and more that holds no string. */
  lemma NamedSurvives<T(!new)>(c: Codec<T>)
    requires Lawful(c) && Closed(c) && forall v :: c.can(v) ==> c.ok(v)
    ensures Survives(Pair(DirOpArgs(), c), (v: ((bytes, bytes), T)) => NoZero(v.0.1))
  {
    DirOpExact();
    PairLawful(DirOpArgs(), c);
    StrictExact(c);
    PairExact(DirOpArgs(), c);
    ClosedAdmits(c, (x: T) => true);
    PairAdmits(DirOpArgs(), (v: (bytes, bytes)) => NoZero(v.1), c, (x: T) => true,
               (v: ((bytes, bytes), T)) => NoZero(v.0.1));
    ReencodeExact(Pair(DirOpArgs(), c), (v: ((bytes, bytes), T)) => NoZero(v.0.1));
  }

  /** Decoded arguments of LOOKUP, CREATE and MKNOD, encoded again, decode to the same if and only if the name has no
      zero byte. */
  lemma DecodedArguments()
    ensures Survives(DirOpArgs(), (v: (bytes, bytes)) => NoZero(v.1))
    ensures Survives(CreateArgs(), (v: ((bytes, bytes), CreateHow3)) => NoZero(v.0.1))
    ensures Survives(MknodArgs(), (v: ((bytes, bytes), MknodData3)) => NoZero(v.0.1))
  {
    DirOpExact();
    ReencodeExact(DirOpArgs(), (v: (bytes, bytes)) => NoZero(v.1));
    CreateHowLawful();
    CreateHowStrict();
    NamedSurvives(CreateHowCodec());
    MknodLawful();
    MknodStrict();
    NamedSurvives(MknodCodec());
  }

  lemma SattrStrict(a: Sattr3)
    requires SattrCodec().can(a)
    ensures SattrCodec().ok(a)
  {
  }

  lemma CreateHowStrict()
    ensures forall h :: CreateHowCodec().can(h) ==> CreateHowCodec().ok(h)
  {
    forall h | CreateHowCodec().can(h)
      ensures CreateHowCodec().ok(h)
    {
      if !h.Exclusive? {
        SattrStrict(h.attrs);
      }
    }
  }

  lemma MknodStrict()
    ensures forall d :: MknodCodec().can(d) ==> MknodCodec().ok(d)
  {
    forall d | MknodCodec().can(d)
      ensures MknodCodec().ok(d)
    {
      if !d.NoData? {
        SattrStrict(d.attrs);
      }
    }
  }

  // ---------------------------------------------------------------- names in listings

  lemma EntryExact()
    ensures Lawful(EntryCodec()) && Exact(EntryCodec()) && Admits(EntryCodec(), (e: EntryPlus3) => NoZero(e.name))
  {
    EntryLawful();
    U64Lawful();
    StringLawful(MAX_UINT);
    EntryTailExact();
    StringExact(MAX_UINT);
    StringAdmits(MAX_UINT, (n: bytes) => NoZero(n));
    var tail := Pair(U64(), Pair(Optional(FattrCodec()), Optional(Fh3())));
    StrictExact(U64());
    ClosedAdmits(U64(), (n: u64) => true);
    PairLawful(FileName3(), tail);
    PairExact(FileName3(), tail);
    PairExact(U64(), Pair(FileName3(), tail));
    PairAdmits(FileName3(), (n: bytes) => NoZero(n), tail, (t: EntryTail) => true,
               (t: (bytes, EntryTail)) => NoZero(t.0));
    PairAdmits(U64(), (n: u64) => true, Pair(FileName3(), tail), (t: (bytes, EntryTail)) => NoZero(t.0),
               (t: EntryTuple) => NoZero(t.1.0));
    MapExact(EntryFields(), (t: EntryTuple) => ToEntry(t), (e: EntryPlus3) => FromEntry(e), (e: EntryPlus3) => true);
    MapAdmits(EntryFields(), (t: EntryTuple) => NoZero(t.1.0), (t: EntryTuple) => ToEntry(t),
              (e: EntryPlus3) => FromEntry(e), (e: EntryPlus3) => true, (e: EntryPlus3) => NoZero(e.name));
  }

  /** What follows an entry's name. */
  type EntryTail = (u64, (Option<Fattr3>, Option<bytes>))

  lemma EntryTailExact()
    ensures var tail := Pair(U64(), Pair(Optional(FattrCodec()), Optional(Fh3())));
            Lawful(tail) && Exact(tail) && Admits(tail, (t: EntryTail) => true)
  {
    U64Lawful();
    FattrLawful();
    OptionalLawful(FattrCodec());
    VarOpaqueLawful(NFS3_FHSIZE);
    OptionalLawful(Fh3());
    var attrs := Pair(Optional(FattrCodec()), Optional(Fh3()));
    PairLawful(Optional(FattrCodec()), Optional(Fh3()));
    PairLawful(U64(), attrs);
    StrictExact(Pair(U64(), attrs));
    ClosedAdmits(Pair(U64(), attrs), (t: EntryTail) => true);
  }

  /** A decoded listing, encoded again, decodes to the same if and only if no name in it has a zero byte. */
  lemma DecodedListings()
    ensures Survives(DirListPlus(), (v: (seq<EntryPlus3>, bool)) => forall i :: 0 <= i < |v.0| ==> NoZero(v.0[i].name))
  {
    EntryExact();
    ListLawful(EntryCodec());
    ListExact(EntryCodec());
    var clean := (es: seq<EntryPlus3>) => forall i :: 0 <= i < |es| ==> NoZero(es[i].name);
    ListAdmits(EntryCodec(), (e: EntryPlus3) => NoZero(e.name), clean);
    BoolLawful();
    StrictExact(Bool);
    ClosedAdmits(Bool, (eof: bool) => true);
    PairLawful(List(EntryCodec()), Bool);
    PairExact(List(EntryCodec()), Bool);
    var all := (v: (seq<EntryPlus3>, bool)) => forall i :: 0 <= i < |v.0| ==> NoZero(v.0[i].name);
    PairAdmits(List(EntryCodec()), clean, Bool, (eof: bool) => true, all);
    ReencodeExact(DirListPlus(), all);
  }

  lemma ExportFieldsExact(clean: ((bytes, seq<bytes>)) -> bool)
    requires forall e :: clean(e) <==> NoZero(e.0) && forall i :: 0 <= i < |e.1| ==> NoZero(e.1[i])
    ensures Lawful(ExportFields()) && Exact(ExportFields()) && Admits(ExportFields(), clean)
  {
    ExportFieldsLawful();
    StringLawful(MNTNAMLEN);
    StringExact(MNTNAMLEN);
    StringAdmits(MNTNAMLEN, (n: bytes) => NoZero(n));
    ListLawful(String(MNTNAMLEN));
    ListExact(String(MNTNAMLEN));
    var names := (gs: seq<bytes>) => forall i :: 0 <= i < |gs| ==> NoZero(gs[i]);
    ListAdmits(String(MNTNAMLEN), (n: bytes) => NoZero(n), names);
    StringLawful(MNTPATHLEN);
    StringExact(MNTPATHLEN);
    StringAdmits(MNTPATHLEN, (n: bytes) => NoZero(n));
    PairExact(String(MNTPATHLEN), Groups());
    PairAdmits(String(MNTPATHLEN), (n: bytes) => NoZero(n), Groups(), names, clean);
  }

  /** An export as a peer can have meant it. */
  predicate PlainExport(e: (bytes, seq<bytes>)) {
    NoZero(e.0) && forall i :: 0 <= i < |e.1| ==> NoZero(e.1[i])
  }

  /** A decoded export list likewise, with its directories and its groups. */
  lemma DecodedExports()
    ensures Survives(Exports(), (es: seq<(bytes, seq<bytes>)>) => forall i :: 0 <= i < |es| ==> PlainExport(es[i]))
  {
    var plain := (e: (bytes, seq<bytes>)) => PlainExport(e);
    ExportFieldsExact(plain);
    ListLawful(ExportFields());
    ListExact(ExportFields());
    var all := (es: seq<(bytes, seq<bytes>)>) => forall i :: 0 <= i < |es| ==> PlainExport(es[i]);
    ListAdmits(ExportFields(), plain, all);
    ReencodeExact(Exports(), all);
  }
}
