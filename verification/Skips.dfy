/** The hand-written cursor functions of nfs.cc, against the XDR filters they stand in for. */
module Skips {
  import opened Ints
  import opened Codecs
  import opened Nfs3

  /** A word pointer: `At(i)` is word `i` of the payload. `Wild` is a null pointer that was moved on and no longer
      compares as null; `Crash` is a read through a null pointer. */
  datatype Ptr = Null | At(i: int) | Wild | Crash

  /** The words of the payload; from word `end` on they lie behind it, and are arbitrary. */
  type Words = int -> u32

  function ReadUint32(p: Ptr, end: int): Ptr {
    match p
    case At(i) => if end < i then Null else At(i + 1)
    case other => other
  }

  function ReadUint64(p: Ptr, end: int): Ptr {
    match p
    case At(i) => if end < i + 1 then Null else At(i + 2)
    case other => other
  }

  function SkipPreOpAttr3(p: Ptr, end: int): Ptr {
    match p
    case At(i) => if end < i then Null else ReadUint64(ReadUint64(ReadUint64(p, end), end), end)
    case other => other
  }

  /** The three times at the end are stepped over without any check. */
  function StepTimes(p: Ptr): Ptr {
    match p
    case At(i) => At(i + 6)
    case Null => Wild
    case other => other
  }

  function SkipFattr3(p: Ptr, end: int): Ptr {
    match p
    case At(i) =>
      if end < i then Null
      else
        var five := ReadUint32(ReadUint32(ReadUint32(ReadUint32(ReadUint32(p, end), end), end), end), end);
        var used := ReadUint64(ReadUint64(five, end), end);
        var rdev := ReadUint32(ReadUint32(used, end), end);
        StepTimes(ReadUint64(ReadUint64(rdev, end), end))
    case other => other
  }

  /** skip_wcc_data3: each of the two flags is read without a check. */
  function SkipWccData3(w: Words, p: Ptr, end: int): Ptr {
    match p
    case At(i) =>
      if end < i then Null
      else
        var before := if w(i) != 0 then SkipPreOpAttr3(At(i + 1), end) else At(i + 1);
        (match before
         case At(j) => if w(j) != 0 then SkipFattr3(At(j + 1), end) else At(j + 1)
         case _ => Crash)
    case other => other
  }

  // ---------------------------------------------------------------- filters of a fixed size

  ghost predicate SizeAt<T>(c: Codec<T>, n: nat, b: bytes) {
    (c.dec(b).Some? <==> n <= |b|) && (c.dec(b).Some? ==> |c.dec(b).value.1| == |b| - n)
  }

  ghost predicate FixedSize<T(!new)>(c: Codec<T>, n: nat) {
    forall b :: SizeAt(c, n, b)
  }

  lemma PairFixed<A(!new), B(!new)>(a: Codec<A>, n: nat, b: Codec<B>, m: nat, both: nat)
    requires FixedSize(a, n) && FixedSize(b, m) && both == n + m
    ensures FixedSize(Pair(a, b), both)
  {
    forall s: bytes
      ensures SizeAt(Pair(a, b), both, s)
    {
      assert SizeAt(a, n, s);
      if a.dec(s).Some? {
        assert SizeAt(b, m, a.dec(s).value.1);
      }
    }
  }

  lemma MapFixed<A(!new), B(!new)>(c: Codec<A>, to: A -> B, from: B -> A, dom: B -> bool, n: nat)
    requires FixedSize(c, n)
    ensures FixedSize(Map(c, to, from, dom), n)
  {
    var m := Map(c, to, from, dom);
    assert forall s: bytes {:trigger SizeAt(m, n, s)} :: SizeAt(c, n, s) ==> SizeAt(m, n, s);
  }

  lemma SmallSizes()
    ensures FixedSize(U32, 4) && FixedSize(Pair(U32, U32), 8) && FixedSize(U64(), 8) && FixedSize(NfsTime3(), 8)
  {
    assert FixedSize(U32, 4);
    PairFixed(U32, 4, U32, 4, 8);
    MapFixed(Pair(U32, U32), (w: (u32, u32)) => U64Of(w), (n: u64) => WordsOf(n), (n: u64) => true, 8);
    MapFixed(Pair(U32, U32), (w: (u32, u32)) => Time(w.0, w.1), (t: Time) => (t.seconds, t.nseconds),
             (t: Time) => true, 8);
  }

  lemma WccAttrSize()
    ensures FixedSize(WccAttr(), 24)
  {
    SmallSizes();
    PairFixed(NfsTime3(), 8, NfsTime3(), 8, 16);
    PairFixed(U64(), 8, Pair(NfsTime3(), NfsTime3()), 16, 24);
  }

  lemma FiveWordsSize()
    ensures FixedSize(FiveWords(), 20)
  {
    SmallSizes();
    PairFixed(U32, 4, Pair(U32, U32), 8, 12);
    PairFixed(U32, 4, Pair(U32, Pair(U32, U32)), 12, 16);
    PairFixed(U32, 4, Pair(U32, Pair(U32, Pair(U32, U32))), 16, 20);
  }

  lemma FattrTailSize()
    ensures FixedSize(FattrTail(), 40)
  {
    SmallSizes();
    var t, u := NfsTime3(), U64();
    PairFixed(t, 8, t, 8, 16);
    PairFixed(t, 8, Pair(t, t), 16, 24);
    PairFixed(u, 8, Pair(t, Pair(t, t)), 24, 32);
    PairFixed(u, 8, Pair(u, Pair(t, Pair(t, t))), 32, 40);
  }

  lemma FattrSize()
    ensures FixedSize(FattrCodec(), 84)
  {
    SmallSizes();
    FiveWordsSize();
    FattrTailSize();
    var two, tail := Pair(U32, U32), FattrTail();
    PairFixed(two, 8, tail, 40, 48);
    PairFixed(U64(), 8, Pair(two, tail), 48, 56);
    PairFixed(U64(), 8, Pair(U64(), Pair(two, tail)), 56, 64);
    PairFixed(FiveWords(), 20, Pair(U64(), Pair(U64(), Pair(two, tail))), 64, 84);
    MapFixed(FattrFields(), (t: FattrTuple) => ToFattr(t), (a: Fattr3) => FromFattr(a), (a: Fattr3) => true, 84);
  }

  /** How many bytes an optional attribute takes, if they are all there. */
  lemma OptionalSize<A(!new)>(c: Codec<A>, n: nat, b: bytes)
    requires FixedSize(c, n)
    ensures var size := if |b| >= 4 && Number(b[..4]) != 0 then 4 + n else 4;
            && (Optional(c).dec(b).Some? <==> size <= |b|)
            && (Optional(c).dec(b).Some? ==> |Optional(c).dec(b).value.1| == |b| - size)
  {
    if |b| >= 4 {
      assert SizeAt(c, n, b[4..]);
    }
  }

  /** The words of a buffer. */
  ghost predicate HoldsWords(w: Words, b: bytes) {
    forall i :: 0 <= i < |b| / 4 ==> w(i) == Number(b[4 * i..4 * i + 4])
  }

  /** The words a skip passes over: one for each flag, six and twenty-one for what the flags announce. */
  function SkipLength(w: Words): nat {
    var j := if w(0) != 0 then 7 else 1;
    j + (if w(j) != 0 then 22 else 1)
  }

  lemma PreOpSkips(i: int, end: int)
    ensures SkipPreOpAttr3(At(i), end) == if end < i + 5 then Null else At(i + 6)
  {
  }

  lemma FattrSkips(i: int, end: int)
    ensures SkipFattr3(At(i), end).At? ==> SkipFattr3(At(i), end) == At(i + 21)
    ensures i + 21 <= end ==> SkipFattr3(At(i), end) == At(i + 21)
  {
  }

  lemma SkipCounts(w: Words, end: nat)
    ensures var p := SkipWccData3(w, At(0), end);
            && (p.At? && p.i <= end <==> SkipLength(w) <= end)
            && (SkipLength(w) <= end ==> p == At(SkipLength(w)))
  {
    PreOpSkips(1, end);
    FattrSkips((if w(0) != 0 then 7 else 1) + 1, end);
  }

  /** The skip reads through a null pointer exactly if the old attributes are announced and fewer than five of their
      six words are there. It leaves a null pointer moved on, which later reads go through, exactly if the new
      attributes are announced in the payload and fewer than fourteen of their words are there. */
  lemma SkipCrashes(w: Words, end: nat)
    ensures SkipWccData3(w, At(0), end) == Crash <==> w(0) != 0 && end < 6
    ensures var j := if w(0) != 0 then 7 else 1;
            SkipWccData3(w, At(0), end) == Wild <==> (w(0) == 0 || end >= 6) && w(j) != 0 && j + 1 <= end < j + 15
  {
    PreOpSkips(1, end);
    FattrRuns((if w(0) != 0 then 7 else 1) + 1, end);
  }

  lemma FattrRuns(i: int, end: int)
    ensures SkipFattr3(At(i), end) == if end < i then Null else if end < i + 14 then Wild else At(i + 21)
  {
  }

  lemma WordOf(w: Words, b: bytes, i: nat)
    requires HoldsWords(w, b) && 4 * i + 4 <= |b|
    ensures w(i) == Number(b[4 * i..][..4])
  {
    assert b[4 * i..][..4] == b[4 * i..4 * i + 4];
  }

  /** The skip ends inside the payload exactly when decoding wcc_data succeeds, and at the same place. */
  lemma SkipIsDecode(w: Words, b: bytes)
    requires HoldsWords(w, b)
    ensures var p, end, d := SkipWccData3(w, At(0), |b| / 4), |b| / 4, WccData().dec(b);
            && (d.Some? <==> p.At? && p.i <= end)
            && (d.Some? ==> 4 * p.i == |b| - |d.value.1|)
  {
    SkipCounts(w, |b| / 4);
    DecodeCounts(w, b);
  }

  lemma DecodeCounts(w: Words, b: bytes)
    requires HoldsWords(w, b)
    ensures WccData().dec(b).Some? <==> SkipLength(w) <= |b| / 4
    ensures WccData().dec(b).Some? ==> 4 * SkipLength(w) == |b| - |WccData().dec(b).value.1|
  {
    WccAttrSize();
    FattrSize();
    OptionalSize(WccAttr(), 24, b);
    if |b| >= 4 {
      WordOf(w, b, 0);
      assert b[4 * 0..] == b;
      var before := Optional(WccAttr()).dec(b);
      if before.Some? {
        var rest, j := before.value.1, if w(0) != 0 then 7 else 1;
        PreOpSuffix(b, j);
        OptionalSize(FattrCodec(), 84, rest);
        if |rest| >= 4 {
          WordOf(w, b, j);
        }
      }
    }
  }

  lemma PreOpSuffix(b: bytes, j: nat)
    requires Optional(WccAttr()).dec(b).Some? && 4 * j == |b| - |Optional(WccAttr()).dec(b).value.1|
    ensures Optional(WccAttr()).dec(b).value.1 == b[4 * j..]
  {
    U64Lawful();
    NfsTime3Lawful();
    PairLawful(NfsTime3(), NfsTime3());
    PairLawful(U64(), Pair(NfsTime3(), NfsTime3()));
    OptionalLawful(WccAttr());
    assert ReadAt(Optional(WccAttr()), b, []);
  }
}
