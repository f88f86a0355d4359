/** Fixed-width integers, written out on `int` so that wrap-around is explicit. */
module Ints {

  type byte = b: int | 0 <= b < 0x100
  type u32 = w: int | 0 <= w < 0x1_0000_0000
  type u64 = w: int | 0 <= w < 0x1_0000_0000_0000_0000
  type bytes = seq<byte>

  datatype Option<+T> = None | Some(value: T)

  /** The value a 32-bit unsigned variable holds after being assigned `x`. */
  function WrapU32(x: int): (w: u32)
    decreases if x < 0 then -x else x
  {
    if x < -0x1_0000_0000 then WrapU32(x + 0x1_0000_0000)
    else if x < 0 then x + 0x1_0000_0000
    else if x < 0x1_0000_0000 then x
    else WrapU32(x - 0x1_0000_0000)
  }

  /** It is the residue modulo 2^32. */
  lemma WrapIsResidue(x: int)
    ensures WrapU32(x) == x % 0x1_0000_0000
  {
    var k := WrapSteps(x);
  }

  lemma {:induction false} WrapSteps(x: int) returns (k: int)
    ensures x == WrapU32(x) + k * 0x1_0000_0000
    decreases if x < 0 then -x else x
  {
    if x < -0x1_0000_0000 {
      k := WrapSteps(x + 0x1_0000_0000);
      k := k - 1;
    } else if x >= 0x1_0000_0000 {
      k := WrapSteps(x - 0x1_0000_0000);
      k := k + 1;
    } else {
      k := if x < 0 then -1 else 0;
    }
  }

  lemma {:induction false} WrapShift(x: int, k: int)
    ensures WrapU32(x + k * 0x1_0000_0000) == WrapU32(x)
    decreases if k < 0 then -k else k
  {
    if k != 0 {
      var k' := if k < 0 then k + 1 else k - 1;
      WrapShift(x, k');
      WrapIsResidue(x + k' * 0x1_0000_0000);
      WrapIsResidue(x + k * 0x1_0000_0000);
    }
  }

  /** A sum may be wrapped on the way. */
  lemma WrapSum(x: int, y: int)
    ensures WrapU32(x + WrapU32(y)) == WrapU32(x + y)
  {
    var k := WrapSteps(y);
    WrapShift(x + WrapU32(y), k);
  }

  /** The value an `int` variable holds after being assigned the 32-bit word `w`. */
  function ToInt32(w: u32): (i: int)
    ensures -0x8000_0000 <= i < 0x8000_0000
    ensures WrapU32(i) == w
  {
    if w < 0x8000_0000 then w else w - 0x1_0000_0000
  }

  /** `ntohl` of four bytes in network order. */
  function Word(a: byte, b: byte, c: byte, d: byte): u32 {
    a * 0x100_0000 + b * 0x1_0000 + c * 0x100 + d
  }

  /** `htonl`: the four bytes of a word in network order. */
  function Bytes(w: u32): (b: bytes)
    ensures |b| == 4
    ensures Word(b[0], b[1], b[2], b[3]) == w
  {
    var hi, lo := w / 0x1_0000, w % 0x1_0000;
    [hi / 0x100, hi % 0x100, lo / 0x100, lo % 0x100]
  }

  /** At most four bytes in network order, as a number. */
  function Number(b: bytes): (w: u32)
    requires |b| <= 4
    ensures |b| == 0 ==> w == 0
    ensures |b| == 1 ==> w < 0x100
    ensures |b| == 2 ==> w < 0x1_0000
    ensures |b| == 3 ==> w < 0x100_0000
  {
    if b == [] then 0 else Number(b[..|b| - 1]) * 0x100 + b[|b| - 1]
  }

  lemma NumberIsWord(b: bytes)
    requires |b| == 4
    ensures Number(b) == Word(b[0], b[1], b[2], b[3])
  {
    assert b[..3][..2] == b[..2] && b[..2][..1] == b[..1] && b[..1][..0] == [];
    assert Number(b[..1]) == b[0];
    assert Number(b[..2]) == Number(b[..1]) * 0x100 + b[1];
    assert Number(b[..3]) == Number(b[..2]) * 0x100 + b[2];
  }

  lemma NumberOfBytes(w: u32)
    ensures Number(Bytes(w)) == w
  {
    NumberIsWord(Bytes(w));
  }

  function EncodeWords(ws: seq<u32>): (b: bytes)
    ensures |b| == 4 * |ws|
  {
    if ws == [] then [] else Bytes(ws[0]) + EncodeWords(ws[1..])
  }

  /** The residual bytes that bring `n` bytes up to a multiple of four (RFC 4506, section 3). */
  function PadLength(n: nat): (p: nat)
    ensures p < 4 && (n + p) % 4 == 0
    ensures n + p == (n + 3) / 4 * 4
  {
    (4 - n % 4) % 4
  }

  function Padding(n: nat): (p: bytes)
    ensures |p| == PadLength(n)
  {
    seq(PadLength(n), _ => 0)
  }

  lemma ConcatAssoc<T>(a: seq<T>, b: seq<T>, c: seq<T>)
    ensures a + b + c == a + (b + c)
  {
  }

  lemma SliceOfSlice<T>(s: seq<T>, a: nat, b: nat, i: nat, j: nat)
    requires a <= b <= |s| && i <= j <= b - a
    ensures s[a..b][i..j] == s[a + i..a + j]
  {
    forall k | 0 <= k < j - i
      ensures s[a..b][i..j][k] == s[a + i..a + j][k]
    {
      assert s[a..b][i..j][k] == s[a..b][i + k];
    }
  }

  lemma SliceOfTail<T>(s: seq<T>, a: nat, i: nat, j: nat)
    requires a <= |s| && i <= j <= |s| - a
    ensures s[a..][i..j] == s[a + i..a + j]
  {
    assert s[a..] == s[a..|s|];
    SliceOfSlice(s, a, |s|, i, j);
  }

  lemma Cons<T>(xs: seq<T>)
    requires |xs| > 0
    ensures [xs[0]] + xs[1..] == xs
  {
  }

  lemma TakeDrop<T>(xs: seq<T>, n: nat)
    requires n <= |xs|
    ensures xs[..n] + xs[n..] == xs
  {
  }

  lemma Snoc<T>(xs: seq<T>)
    requires |xs| > 0
    ensures xs[..|xs| - 1] + [xs[|xs| - 1]] == xs
  {
  }
}
