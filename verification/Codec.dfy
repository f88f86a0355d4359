/** XDR encodings (RFC 4506) as values: how a type is encoded and decoded, and the combinators rpcgen builds from. */
module Codecs {
  import opened Ints

  /** `enc` writes a value, `dec` reads one and returns it with the bytes behind it. `can` is whether the filter agrees
      to encode the value; `ok` is whether the value is one that a peer could read back. */
  datatype Codec<!T> = Codec(enc: T -> bytes, dec: bytes -> Option<(T, bytes)>, can: T -> bool, ok: T -> bool)

  // ---------------------------------------------------------------- the laws

  /** An encoded value is read back, and what follows it is left alone. */
  ghost predicate BackAt<T>(c: Codec<T>, v: T, rest: bytes) {
    c.ok(v) ==> c.can(v) && c.dec(c.enc(v) + rest) == Some((v, rest))
  }

  /** Decoding looks at a prefix only, whatever `x` follows, and returns the bytes behind it as they are; what was
      decoded takes as many bytes when encoded again. */
  ghost predicate ReadAt<T>(c: Codec<T>, b: bytes, x: bytes) {
    match c.dec(b)
    case None => true
    case Some((v, rest)) =>
      && |rest| <= |b| && rest == b[|b| - |rest|..]
      && c.dec(b + x) == Some((v, rest + x))
      && (c.ok(v) ==> |c.enc(v)| + |rest| == |b|)
  }

  ghost predicate Lawful<T(!new)>(c: Codec<T>) {
    && (forall v, rest :: BackAt(c, v, rest))
    && (forall b, x :: ReadAt(c, b, x))
  }

  /** Whatever is decoded survives being encoded again. Strings are the exception: they may hold a zero byte. */
  ghost predicate Closed<T(!new)>(c: Codec<T>) {
    forall b :: c.dec(b).Some? ==> c.ok(c.dec(b).value.0)
  }

  /** Everything an encoding is for, at once. */
  ghost predicate Faithful<T(!new)>(c: Codec<T>) {
    && (forall v, rest :: c.ok(v) ==> c.dec(c.enc(v) + rest) == Some((v, rest)))
    && (forall v, n: nat :: c.ok(v) && n < |c.enc(v)| ==> c.dec(c.enc(v)[..n]) == None)
    && (forall v, w :: c.ok(v) && c.ok(w) && c.enc(v) <= c.enc(w) ==> v == w)
    && (forall b :: c.dec(b).Some? && c.ok(c.dec(b).value.0) ==>
          var (v, rest) := c.dec(b).value;
          |c.enc(v) + rest| == |b| && c.dec(c.enc(v) + rest) == Some((v, rest)))
  }

  /** A lawful codec reads back what it writes, rejects every strict prefix of it, writes no two values so that one is a
      prefix of the other, and re-encodes what it reads in a canonical form of the same length. */
  lemma LawfulIsFaithful<T(!new)>(c: Codec<T>)
    requires Lawful(c)
    ensures Faithful(c)
  {
    forall v, rest | c.ok(v)
      ensures c.dec(c.enc(v) + rest) == Some((v, rest))
    {
      RoundTrip(c, v, rest);
    }
    forall v, n: nat | c.ok(v) && n < |c.enc(v)|
      ensures c.dec(c.enc(v)[..n]) == None
    {
      StrictPrefixFails(c, v, n);
    }
    forall v, w | c.ok(v) && c.ok(w) && c.enc(v) <= c.enc(w)
      ensures v == w
    {
      PrefixFree(c, v, w);
    }
    forall b | c.dec(b).Some? && c.ok(c.dec(b).value.0)
      ensures var (v, rest) := c.dec(b).value;
              |c.enc(v) + rest| == |b| && c.dec(c.enc(v) + rest) == Some((v, rest))
    {
      Canonical(c, b);
    }
  }

  /** Round trip: an encoding followed by anything decodes to the value and leaves what follows. */
  lemma RoundTrip<T(!new)>(c: Codec<T>, v: T, rest: bytes)
    requires Lawful(c) && c.ok(v)
    ensures c.can(v) && c.dec(c.enc(v) + rest) == Some((v, rest))
  {
    assert BackAt(c, v, rest);
  }

  /** Decoding any strict prefix of an encoding fails. */
  lemma StrictPrefixFails<T(!new)>(c: Codec<T>, v: T, n: nat)
    requires Lawful(c) && c.ok(v) && n < |c.enc(v)|
    ensures c.dec(c.enc(v)[..n]) == None
  {
    var b := c.enc(v);
    assert b[..n] + b[n..] == b == b + [];
    assert BackAt(c, v, []) && ReadAt(c, b[..n], b[n..]);
  }

  /** No encoding is a prefix of another value's encoding; in particular encoding is injective. */
  lemma PrefixFree<T(!new)>(c: Codec<T>, v: T, w: T)
    requires Lawful(c) && c.ok(v) && c.ok(w) && c.enc(v) <= c.enc(w)
    ensures v == w
  {
    var rest := c.enc(w)[|c.enc(v)|..];
    assert c.enc(v) + rest == c.enc(w) == c.enc(w) + [];
    assert BackAt(c, v, rest) && BackAt(c, w, []);
  }

  /** Decoding and encoding again gives bytes of the same length that decode to the same value: a canonical form. */
  lemma Canonical<T(!new)>(c: Codec<T>, b: bytes)
    requires Lawful(c) && c.dec(b).Some? && c.ok(c.dec(b).value.0)
    ensures var (v, rest) := c.dec(b).value;
            && |c.enc(v) + rest| == |b|
            && c.dec(c.enc(v) + rest) == Some((v, rest))
  {
    assert ReadAt(c, b, []) && BackAt(c, c.dec(b).value.0, c.dec(b).value.1);
  }

  // ---------------------------------------------------------------- primitives

  function DecodeWord(b: bytes): Option<(u32, bytes)> {
    if |b| < 4 then None else Some((Number(b[..4]), b[4..]))
  }

  const U32: Codec<u32> := Codec(w => Bytes(w), b => DecodeWord(b), _ => true, _ => true)

  lemma WordReadsBack(w: u32, rest: bytes)
    ensures DecodeWord(Bytes(w) + rest) == Some((w, rest))
  {
    var b := Bytes(w) + rest;
    assert b[..4] == Bytes(w) && b[4..] == rest;
    NumberOfBytes(w);
  }

  lemma WordReadsPrefix(b: bytes, x: bytes)
    requires |b| >= 4
    ensures DecodeWord(b + x) == Some((DecodeWord(b).value.0, b[4..] + x))
  {
    assert (b + x)[..4] == b[..4] && (b + x)[4..] == b[4..] + x;
  }

  lemma U32Lawful()
    ensures Lawful(U32) && Closed(U32)
  {
    forall w: u32, rest: bytes
      ensures BackAt(U32, w, rest)
    {
      WordReadsBack(w, rest);
    }
    forall b: bytes, x: bytes
      ensures ReadAt(U32, b, x)
    {
      if |b| >= 4 {
        WordReadsPrefix(b, x);
      }
    }
  }

  /** xdr_bool: every word but zero decodes to true. */
  function DecodeBool(b: bytes): Option<(bool, bytes)> {
    match DecodeWord(b)
    case None => None
    case Some((w, rest)) => Some((w != 0, rest))
  }

  function EncodeBool(v: bool): (b: bytes)
    ensures |b| == 4
  {
    Bytes(if v then 1 else 0)
  }

  const Bool: Codec<bool> := Codec(v => EncodeBool(v), b => DecodeBool(b), _ => true, _ => true)

  lemma BoolReadsBack(v: bool, rest: bytes)
    ensures DecodeBool(EncodeBool(v) + rest) == Some((v, rest))
  {
    WordReadsBack(if v then 1 else 0, rest);
  }

  lemma BoolReadsPrefix(b: bytes, x: bytes)
    requires |b| >= 4
    ensures DecodeBool(b).Some? && DecodeBool(b).value.1 == b[4..]
    ensures DecodeBool(b + x) == Some((DecodeBool(b).value.0, b[4..] + x))
  {
    WordReadsPrefix(b, x);
  }

  lemma BoolLawful()
    ensures Lawful(Bool) && Closed(Bool)
  {
    forall v: bool, rest: bytes
      ensures BackAt(Bool, v, rest)
    {
      BoolReadsBack(v, rest);
    }
    forall b: bytes, x: bytes
      ensures ReadAt(Bool, b, x)
    {
      if |b| >= 4 {
        BoolReadsPrefix(b, x);
      }
    }
  }

  /** xdr_opaque: `n` bytes and zero padding; padding is skipped unread. */
  function DecodeOpaque(n: nat, b: bytes): Option<(bytes, bytes)> {
    if |b| < n + PadLength(n) then None else Some((b[..n], b[n + PadLength(n)..]))
  }

  function Opaque(n: nat): Codec<bytes> {
    Codec((v: bytes) => v + Padding(n), (b: bytes) => DecodeOpaque(n, b), (v: bytes) => |v| == n,
          (v: bytes) => |v| == n)
  }

  lemma OpaqueReadsBack(v: bytes, rest: bytes)
    ensures DecodeOpaque(|v|, v + Padding(|v|) + rest) == Some((v, rest))
  {
    var b := v + Padding(|v|) + rest;
    assert b[..|v|] == v && b[|v| + PadLength(|v|)..] == rest;
  }

  lemma OpaqueReadsPrefix(n: nat, b: bytes, x: bytes)
    requires n + PadLength(n) <= |b|
    ensures DecodeOpaque(n, b + x) == Some((b[..n], b[n + PadLength(n)..] + x))
  {
    assert (b + x)[..n] == b[..n];
    assert (b + x)[n + PadLength(n)..] == b[n + PadLength(n)..] + x;
  }

  lemma OpaqueLawful(n: nat)
    ensures Lawful(Opaque(n)) && Closed(Opaque(n))
  {
    forall v: bytes, rest: bytes
      ensures BackAt(Opaque(n), v, rest)
    {
      OpaqueReadsBack(v, rest);
    }
    forall b: bytes, x: bytes
      ensures ReadAt(Opaque(n), b, x)
    {
      if n + PadLength(n) <= |b| {
        OpaqueReadsPrefix(n, b, x);
      }
    }
  }

  // ---------------------------------------------------------------- combinators

  /** Two filters in sequence. */
  function DecodePair<A, B>(a: Codec<A>, b: Codec<B>, s: bytes): Option<((A, B), bytes)> {
    match a.dec(s)
    case None => None
    case Some((x, rest)) =>
      match b.dec(rest)
      case None => None
      case Some((y, rest')) => Some(((x, y), rest'))
  }

  function Pair<A, B>(a: Codec<A>, b: Codec<B>): Codec<(A, B)> {
    Codec((v: (A, B)) => a.enc(v.0) + b.enc(v.1), (s: bytes) => DecodePair(a, b, s),
          (v: (A, B)) => a.can(v.0) && b.can(v.1), (v: (A, B)) => a.ok(v.0) && b.ok(v.1))
  }

  lemma PairBack<A(!new), B(!new)>(a: Codec<A>, b: Codec<B>, v: (A, B), rest: bytes)
    requires Lawful(a) && Lawful(b)
    ensures BackAt(Pair(a, b), v, rest)
  {
    var tail := b.enc(v.1) + rest;
    assert a.enc(v.0) + b.enc(v.1) + rest == a.enc(v.0) + tail;
    assert BackAt(a, v.0, tail) && BackAt(b, v.1, rest);
  }

  lemma PairRead<A(!new), B(!new)>(a: Codec<A>, b: Codec<B>, s: bytes, x: bytes)
    requires Lawful(a) && Lawful(b)
    ensures ReadAt(Pair(a, b), s, x)
  {
    assert ReadAt(a, s, x);
    if a.dec(s).Some? {
      assert ReadAt(b, a.dec(s).value.1, x);
    }
  }

  lemma PairLawful<A(!new), B(!new)>(a: Codec<A>, b: Codec<B>)
    requires Lawful(a) && Lawful(b)
    ensures Lawful(Pair(a, b))
    ensures Closed(a) && Closed(b) ==> Closed(Pair(a, b))
  {
    forall v: (A, B), rest: bytes
      ensures BackAt(Pair(a, b), v, rest)
    {
      PairBack(a, b, v, rest);
    }
    forall s: bytes, x: bytes
      ensures ReadAt(Pair(a, b), s, x)
    {
      PairRead(a, b, s, x);
    }
  }

  /** A type in the place of an equivalent one: a C struct for the tuple of its fields, or the values `dom` of one arm
      of a union for what that arm holds. */
  function Map<A, B>(c: Codec<A>, to: A -> B, from: B -> A, dom: B -> bool): Codec<B> {
    Codec((v: B) => c.enc(from(v)),
          (s: bytes) => match c.dec(s) case None => None case Some((x, rest)) => Some((to(x), rest)),
          (v: B) => dom(v) && c.can(from(v)), (v: B) => dom(v) && c.ok(from(v)))
  }

  lemma MapLawful<A(!new), B(!new)>(c: Codec<A>, to: A -> B, from: B -> A, dom: B -> bool)
    requires Lawful(c)
    requires forall x :: dom(to(x)) && from(to(x)) == x
    requires forall y :: dom(y) ==> to(from(y)) == y
    ensures Lawful(Map(c, to, from, dom))
    ensures Closed(c) ==> Closed(Map(c, to, from, dom))
  {
    forall v: B, rest: bytes
      ensures BackAt(Map(c, to, from, dom), v, rest)
    {
      assert BackAt(c, from(v), rest);
    }
    forall s: bytes, x: bytes
      ensures ReadAt(Map(c, to, from, dom), s, x)
    {
      assert ReadAt(c, s, x);
    }
  }

  /** A bool, and the value if it is true. */
  function DecodeOptional<A>(c: Codec<A>, s: bytes): Option<(Option<A>, bytes)> {
    match DecodeBool(s)
    case None => None
    case Some((follows, rest)) =>
      if !follows then Some((None, rest))
      else
        match c.dec(rest)
        case None => None
        case Some((x, rest')) => Some((Some(x), rest'))
  }

  function EncodeOptional<A>(c: Codec<A>, v: Option<A>): bytes {
    EncodeBool(v.Some?) + (if v.Some? then c.enc(v.value) else [])
  }

  function Optional<A>(c: Codec<A>): Codec<Option<A>> {
    Codec((v: Option<A>) => EncodeOptional(c, v), (s: bytes) => DecodeOptional(c, s),
          (v: Option<A>) => v.Some? ==> c.can(v.value), (v: Option<A>) => v.Some? ==> c.ok(v.value))
  }

  lemma SomeReadsBack<A(!new)>(c: Codec<A>, v: A, rest: bytes)
    requires Lawful(c) && c.ok(v)
    ensures c.can(v) && DecodeOptional(c, EncodeOptional(c, Some(v)) + rest) == Some((Some(v), rest))
  {
    ConcatAssoc(EncodeBool(true), c.enc(v), rest);
    BoolReadsBack(true, c.enc(v) + rest);
    assert BackAt(c, v, rest);
  }

  lemma NoneReadsBack<A(!new)>(c: Codec<A>, rest: bytes)
    ensures DecodeOptional(c, EncodeOptional(c, None) + rest) == Some((None, rest))
  {
    assert EncodeBool(false) + [] == EncodeBool(false);
    BoolReadsBack(false, rest);
  }

  lemma OptionalBack<A(!new)>(c: Codec<A>, v: Option<A>, rest: bytes)
    requires Lawful(c)
    ensures BackAt(Optional(c), v, rest)
  {
    if v == None {
      NoneReadsBack(c, rest);
    } else if c.ok(v.value) {
      SomeReadsBack(c, v.value, rest);
    }
  }

  lemma OptionalRead<A(!new)>(c: Codec<A>, s: bytes, x: bytes)
    requires Lawful(c)
    ensures ReadAt(Optional(c), s, x)
  {
    if |s| >= 4 {
      BoolReadsPrefix(s, x);
      assert ReadAt(c, s[4..], x);
    }
  }

  lemma OptionalLawful<A(!new)>(c: Codec<A>)
    requires Lawful(c)
    ensures Lawful(Optional(c))
    ensures Closed(c) ==> Closed(Optional(c))
  {
    forall v: Option<A>, rest: bytes
      ensures BackAt(Optional(c), v, rest)
    {
      OptionalBack(c, v, rest);
    }
    forall s: bytes, x: bytes
      ensures ReadAt(Optional(c), s, x)
    {
      OptionalRead(c, s, x);
    }
  }

  /** A discriminated union (RFC 4506, section 4.15): the tag word, then the filter of the tag's arm. */
  function DecodeTagged<T>(tagOf: T -> u32, arm: u32 -> Codec<T>, s: bytes): Option<(T, bytes)> {
    match DecodeWord(s)
    case None => None
    case Some((tag, rest)) => arm(tag).dec(rest)
  }

  function Tagged<T>(tagOf: T -> u32, arm: u32 -> Codec<T>): Codec<T> {
    Codec((v: T) => Bytes(tagOf(v)) + arm(tagOf(v)).enc(v), (s: bytes) => DecodeTagged(tagOf, arm, s),
          (v: T) => arm(tagOf(v)).can(v), (v: T) => arm(tagOf(v)).ok(v))
  }

  lemma TaggedBack<T(!new)>(tagOf: T -> u32, arm: u32 -> Codec<T>, v: T, rest: bytes)
    requires Lawful(arm(tagOf(v)))
    ensures BackAt(Tagged(tagOf, arm), v, rest)
  {
    var tag := tagOf(v);
    var tail := arm(tag).enc(v) + rest;
    assert Bytes(tag) + arm(tag).enc(v) + rest == Bytes(tag) + tail;
    WordReadsBack(tag, tail);
    assert BackAt(arm(tag), v, rest);
  }

  lemma TaggedRead<T(!new)>(tagOf: T -> u32, arm: u32 -> Codec<T>, s: bytes, x: bytes)
    requires forall tag :: Lawful(arm(tag)) && TagFits(tagOf, arm, tag)
    ensures ReadAt(Tagged(tagOf, arm), s, x)
  {
    if |s| >= 4 {
      WordReadsPrefix(s, x);
      var tag, rest := DecodeWord(s).value.0, s[4..];
      assert Lawful(arm(tag)) && TagFits(tagOf, arm, tag);
      assert ReadAt(arm(tag), rest, x);
    }
  }

  /** An arm decodes to values of its own tag. */
  ghost predicate TagFits<T>(tagOf: T -> u32, arm: u32 -> Codec<T>, tag: u32) {
    forall s :: arm(tag).dec(s).Some? ==> tagOf(arm(tag).dec(s).value.0) == tag
  }

  lemma TaggedLawful<T(!new)>(tagOf: T -> u32, arm: u32 -> Codec<T>)
    requires forall tag :: Lawful(arm(tag)) && TagFits(tagOf, arm, tag)
    ensures Lawful(Tagged(tagOf, arm))
    ensures (forall tag :: Closed(arm(tag))) ==> Closed(Tagged(tagOf, arm))
  {
    forall v: T, rest: bytes
      ensures BackAt(Tagged(tagOf, arm), v, rest)
    {
      TaggedBack(tagOf, arm, v, rest);
    }
    forall s: bytes, x: bytes
      ensures ReadAt(Tagged(tagOf, arm), s, x)
    {
      TaggedRead(tagOf, arm, s, x);
    }
  }

  /** A void arm: nothing on the wire, for the value `v` alone. */
  function Void<T(==)>(v: T): Codec<T> {
    Codec((w: T) => [], (s: bytes) => Some((v, s)), (w: T) => w == v, (w: T) => w == v)
  }

  lemma VoidLawful<T(!new)>(v: T)
    ensures Lawful(Void(v)) && Closed(Void(v))
  {
    forall w: T, rest: bytes
      ensures BackAt(Void(v), w, rest)
    {
      assert [] + rest == rest;
    }
  }

  /** The arm of a tag the filter rejects. */
  function Reject<T>(): Codec<T> {
    Codec((w: T) => [], (s: bytes) => None, (w: T) => false, (w: T) => false)
  }

  lemma RejectLawful<T(!new)>()
    ensures Lawful(Reject<T>()) && Closed(Reject<T>())
  {
  }

  // ---------------------------------------------------------------- variable length

  const MAX_UINT: nat := 0xFFFF_FFFF

  /** xdr_bytes: a length of at most `max`, the bytes and zero padding. */
  function EncodeVar(v: bytes): bytes
    requires |v| <= MAX_UINT
  {
    Bytes(|v|) + (v + Padding(|v|))
  }

  function DecodeVar(max: u32, b: bytes): Option<(bytes, bytes)> {
    match DecodeWord(b)
    case None => None
    case Some((n, rest)) => if n > max then None else DecodeOpaque(n, rest)
  }

  function VarOpaque(max: u32): Codec<bytes> {
    Codec((v: bytes) => if |v| <= max then EncodeVar(v) else [], (b: bytes) => DecodeVar(max, b),
          (v: bytes) => |v| <= max, (v: bytes) => |v| <= max)
  }

  lemma VarReadsBack(max: u32, v: bytes, rest: bytes)
    requires |v| <= max
    ensures DecodeVar(max, EncodeVar(v) + rest) == Some((v, rest))
  {
    var tail := v + Padding(|v|) + rest;
    assert EncodeVar(v) + rest == Bytes(|v|) + tail;
    WordReadsBack(|v|, tail);
    OpaqueReadsBack(v, rest);
  }

  lemma VarReadsPrefix(max: u32, b: bytes, x: bytes)
    requires DecodeVar(max, b).Some?
    ensures var (v, rest) := DecodeVar(max, b).value;
            && |v| <= max && |rest| <= |b| && rest == b[|b| - |rest|..] && |EncodeVar(v)| + |rest| == |b|
            && DecodeVar(max, b + x) == Some((v, rest + x))
  {
    WordReadsPrefix(b, x);
    OpaqueReadsPrefix(DecodeWord(b).value.0, b[4..], x);
  }

  lemma VarOpaqueLawful(max: u32)
    ensures Lawful(VarOpaque(max)) && Closed(VarOpaque(max))
  {
    forall v: bytes, rest: bytes
      ensures BackAt(VarOpaque(max), v, rest)
    {
      if |v| <= max {
        VarReadsBack(max, v, rest);
      }
    }
    forall b: bytes, x: bytes
      ensures ReadAt(VarOpaque(max), b, x)
    {
      if DecodeVar(max, b).Some? {
        VarReadsPrefix(max, b, x);
      }
    }
  }

  /** The part of a buffer that strlen counts. */
  function CString(v: bytes): (s: bytes)
    ensures |s| <= |v|
    ensures 0 !in v ==> s == v
  {
    if v == [] || v[0] == 0 then [] else [v[0]] + CString(v[1..])
  }

  /** xdr_string: decoded by its length word, encoded up to its first zero byte. */
  function String(max: u32): Codec<bytes> {
    Codec((v: bytes) => if |CString(v)| <= max then EncodeVar(CString(v)) else [], (b: bytes) => DecodeVar(max, b),
          (v: bytes) => |CString(v)| <= max, (v: bytes) => |v| <= max && 0 !in v)
  }

  lemma StringLawful(max: u32)
    ensures Lawful(String(max))
  {
    forall v: bytes, rest: bytes
      ensures BackAt(String(max), v, rest)
    {
      if |v| <= max {
        VarReadsBack(max, v, rest);
      }
    }
    forall b: bytes, x: bytes
      ensures ReadAt(String(max), b, x)
    {
      if DecodeVar(max, b).Some? {
        VarReadsPrefix(max, b, x);
      }
    }
  }

  // ---------------------------------------------------------------- linked lists

  /** xdr_pointer to a node whose last field is the next pointer (RFC 4506, section 4.19): a true word before each
      element and a false word at the end. */
  function EncodeList<A>(c: Codec<A>, vs: seq<A>): bytes {
    EncodeBool(vs != []) + (if vs == [] then [] else c.enc(vs[0]) + EncodeList(c, vs[1..]))
  }

  function DecodeList<A(!new)>(c: Codec<A>, s: bytes): Option<(seq<A>, bytes)>
    decreases |s|
  {
    match DecodeBool(s)
    case None => None
    case Some((follows, rest)) =>
      if !follows then Some(([], rest))
      else
        match c.dec(rest)
        case None => None
        case Some((x, rest')) =>
          if |rest'| > |rest| then None
          else
            match DecodeList(c, rest')
            case None => None
            case Some((xs, rest'')) => Some(([x] + xs, rest''))
  }

  predicate All<A>(p: A -> bool, vs: seq<A>) {
    forall i :: 0 <= i < |vs| ==> p(vs[i])
  }

  function List<A(!new)>(c: Codec<A>): Codec<seq<A>> {
    Codec((vs: seq<A>) => EncodeList(c, vs), (s: bytes) => DecodeList(c, s),
          (vs: seq<A>) => All(c.can, vs), (vs: seq<A>) => All(c.ok, vs))
  }

  lemma AllCons<A>(p: A -> bool, v: A, vs: seq<A>)
    ensures All(p, [v] + vs) <==> p(v) && All(p, vs)
  {
    if All(p, [v] + vs) {
      assert ([v] + vs)[0] == v && forall i :: 0 <= i < |vs| ==> vs[i] == ([v] + vs)[i + 1];
    }
  }

  /** An encoded list that is not empty: a true word, the first element, the list of the others. */
  lemma ListHead<A>(c: Codec<A>, vs: seq<A>, rest: bytes)
    requires |vs| > 0
    ensures DecodeBool(EncodeList(c, vs) + rest) == Some((true, c.enc(vs[0]) + (EncodeList(c, vs[1..]) + rest)))
  {
    ConcatAssoc(EncodeBool(true), c.enc(vs[0]) + EncodeList(c, vs[1..]), rest);
    ConcatAssoc(c.enc(vs[0]), EncodeList(c, vs[1..]), rest);
    BoolReadsBack(true, c.enc(vs[0]) + (EncodeList(c, vs[1..]) + rest));
  }

  lemma {:induction false} ListBack<A(!new)>(c: Codec<A>, vs: seq<A>, rest: bytes)
    requires Lawful(c) && All(c.ok, vs)
    ensures All(c.can, vs) && DecodeList(c, EncodeList(c, vs) + rest) == Some((vs, rest))
    decreases |vs|
  {
    if |vs| == 0 {
      ConcatAssoc(EncodeBool(false), [], rest);
      BoolReadsBack(false, rest);
    } else {
      var v, vs' := vs[0], vs[1..];
      Cons(vs);
      AllCons(c.ok, v, vs');
      AllCons(c.can, v, vs');
      ListHead(c, vs, rest);
      assert BackAt(c, v, EncodeList(c, vs') + rest);
      ListBack(c, vs', rest);
    }
  }

  lemma {:induction false} ListRead<A(!new)>(c: Codec<A>, s: bytes, x: bytes)
    requires Lawful(c)
    ensures ReadAt(List(c), s, x)
    decreases |s|
  {
    if |s| >= 4 && DecodeList(c, s).Some? {
      BoolReadsPrefix(s, x);
      if DecodeBool(s).value.0 {
        var (v, rest) := c.dec(s[4..]).value;
        assert ReadAt(c, s[4..], x);
        ListRead(c, rest, x);
        var vs := DecodeList(c, rest).value.0;
        assert ([v] + vs)[1..] == vs;
        if All(c.ok, [v] + vs) {
          assert c.ok(([v] + vs)[0]);
          assert forall i :: 0 <= i < |vs| ==> vs[i] == ([v] + vs)[i + 1];
        }
      }
    }
  }

  /** A list of any length round-trips if its elements do. */
  lemma ListLawful<A(!new)>(c: Codec<A>)
    requires Lawful(c)
    ensures Lawful(List(c))
  {
    forall vs: seq<A>, rest: bytes
      ensures BackAt(List(c), vs, rest)
    {
      if All(c.ok, vs) {
        ListBack(c, vs, rest);
      }
    }
    forall s: bytes, x: bytes
      ensures ReadAt(List(c), s, x)
    {
      ListRead(c, s, x);
    }
  }

  /** The guard that makes decoding a list terminate never fires: no filter returns more bytes than it was given. */
  lemma DecodeListStep<A(!new)>(c: Codec<A>, s: bytes)
    requires Lawful(c) && DecodeBool(s).Some? && DecodeBool(s).value.0
    ensures var rest := DecodeBool(s).value.1;
            DecodeList(c, s) ==
              if c.dec(rest).None? then None
              else if DecodeList(c, c.dec(rest).value.1).None? then None
              else Some(([c.dec(rest).value.0] + DecodeList(c, c.dec(rest).value.1).value.0,
                         DecodeList(c, c.dec(rest).value.1).value.1))
  {
    assert ReadAt(c, DecodeBool(s).value.1, []);
  }

  // ---------------------------------------------------------------- variable-length arrays

  function EncodeAll<A>(c: Codec<A>, vs: seq<A>): bytes {
    if vs == [] then [] else c.enc(vs[0]) + EncodeAll(c, vs[1..])
  }

  function DecodeAll<A>(c: Codec<A>, n: nat, s: bytes): Option<(seq<A>, bytes)> {
    if n == 0 then Some(([], s))
    else
      match c.dec(s)
      case None => None
      case Some((x, rest)) =>
        match DecodeAll(c, n - 1, rest)
        case None => None
        case Some((xs, rest')) => Some(([x] + xs, rest'))
  }

  /** xdr_array (RFC 4506, section 4.13): a count of at most `max`, then the elements. */
  function DecodeArray<A>(c: Codec<A>, max: u32, s: bytes): Option<(seq<A>, bytes)> {
    match DecodeWord(s)
    case None => None
    case Some((n, rest)) => if n > max then None else DecodeAll(c, n, rest)
  }

  function Array<A>(c: Codec<A>, max: u32): Codec<seq<A>> {
    Codec((vs: seq<A>) => if |vs| <= max then Bytes(|vs|) + EncodeAll(c, vs) else [],
          (s: bytes) => DecodeArray(c, max, s),
          (vs: seq<A>) => |vs| <= max && All(c.can, vs), (vs: seq<A>) => |vs| <= max && All(c.ok, vs))
  }

  lemma {:induction false} AllBack<A(!new)>(c: Codec<A>, vs: seq<A>, rest: bytes)
    requires Lawful(c) && All(c.ok, vs)
    ensures All(c.can, vs) && DecodeAll(c, |vs|, EncodeAll(c, vs) + rest) == Some((vs, rest))
    decreases |vs|
  {
    if |vs| == 0 {
      assert [] + rest == rest;
    } else {
      var v, vs' := vs[0], vs[1..];
      var tail := EncodeAll(c, vs') + rest;
      ConcatAssoc(c.enc(v), EncodeAll(c, vs'), rest);
      assert BackAt(c, v, tail);
      AllBack(c, vs', rest);
      Cons(vs);
      forall i | 0 <= i < |vs|
        ensures c.can(vs[i])
      {
        assert i > 0 ==> vs[i] == vs'[i - 1];
      }
    }
  }

  lemma {:induction false} AllRead<A(!new)>(c: Codec<A>, n: nat, s: bytes, x: bytes)
    requires Lawful(c) && DecodeAll(c, n, s).Some?
    ensures var (vs, rest) := DecodeAll(c, n, s).value;
            && |vs| == n && |rest| <= |s| && rest == s[|s| - |rest|..] && DecodeAll(c, n, s + x) == Some((vs, rest + x))
            && (All(c.ok, vs) ==> |EncodeAll(c, vs)| + |rest| == |s|)
    decreases n
  {
    if n > 0 {
      var (v, rest) := c.dec(s).value;
      assert ReadAt(c, s, x);
      AllRead(c, n - 1, rest, x);
      var vs := DecodeAll(c, n - 1, rest).value.0;
      assert ([v] + vs)[1..] == vs;
      if All(c.ok, [v] + vs) {
        assert c.ok(([v] + vs)[0]);
        assert forall i :: 0 <= i < |vs| ==> vs[i] == ([v] + vs)[i + 1];
      }
    }
  }

  lemma ArrayBack<A(!new)>(c: Codec<A>, max: u32, vs: seq<A>, rest: bytes)
    requires Lawful(c)
    ensures BackAt(Array(c, max), vs, rest)
  {
    if |vs| <= max && All(c.ok, vs) {
      ConcatAssoc(Bytes(|vs|), EncodeAll(c, vs), rest);
      WordReadsBack(|vs|, EncodeAll(c, vs) + rest);
      AllBack(c, vs, rest);
    }
  }

  lemma ArrayRead<A(!new)>(c: Codec<A>, max: u32, s: bytes, x: bytes)
    requires Lawful(c)
    ensures ReadAt(Array(c, max), s, x)
  {
    if DecodeArray(c, max, s).Some? {
      WordReadsPrefix(s, x);
      AllRead(c, DecodeWord(s).value.0, s[4..], x);
    }
  }

  /** An array round-trips if its elements do. */
  lemma ArrayLawful<A(!new)>(c: Codec<A>, max: u32)
    requires Lawful(c)
    ensures Lawful(Array(c, max))
  {
    forall vs: seq<A>, rest: bytes
      ensures BackAt(Array(c, max), vs, rest)
    {
      ArrayBack(c, max, vs, rest);
    }
    forall s: bytes, x: bytes
      ensures ReadAt(Array(c, max), s, x)
    {
      ArrayRead(c, max, s, x);
    }
  }
}
