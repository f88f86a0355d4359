/** Filters with two paths: one bulk access when XDR_INLINE grants it, one field at a time when it does not. */
module Inline {
  import opened Ints
  import opened Codecs

  // ---------------------------------------------------------------- plain words: xdr_fattr, xdr_sattr and their like

  /** `n` words read straight from the buffer. */
  function GetInline(n: nat, b: bytes): Option<(seq<u32>, bytes)> {
    if |b| < 4 * n then None else Some((seq(n, i requires 0 <= i < n => Number(b[4 * i..4 * i + 4])), b[4 * n..]))
  }

  /** `n` words read by `n` calls of xdr_u_int. */
  function GetEach(n: nat, b: bytes): Option<(seq<u32>, bytes)> {
    if n == 0 then Some(([], b))
    else
      match DecodeWord(b)
      case None => None
      case Some((w, rest)) =>
        match GetEach(n - 1, rest)
        case None => None
        case Some((ws, rest')) => Some(([w] + ws, rest'))
  }

  /** Decoding gives the same fields on either path, and fails on the same buffers. */
  lemma {:induction false} GetPathsAgree(n: nat, b: bytes)
    ensures GetEach(n, b) == GetInline(n, b)
  {
    if n == 0 {
      assert b[4 * 0..] == b;
    } else if |b| >= 4 {
      GetPathsAgree(n - 1, b[4..]);
      if |b| >= 4 * n {
        var ws, tail := GetInline(n, b).value.0, GetInline(n - 1, b[4..]).value.0;
        assert b[4..][4 * (n - 1)..] == b[4 * n..];
        assert ws[0] == Number(b[..4]) by {
          assert b[4 * 0..4 * 0 + 4] == b[..4];
        }
        forall i | 0 <= i < n - 1
          ensures tail[i] == ws[i + 1]
        {
          SliceOfTail(b, 4, 4 * i, 4 * i + 4);
          assert tail[i] == Number(b[4..][4 * i..4 * i + 4]) && ws[i + 1] == Number(b[4 * (i + 1)..4 * (i + 1) + 4]);
        }
        assert ws == [ws[0]] + tail;
      }
    }
  }

  /** Words written in one go at `pos`. */
  function PutInline(ws: seq<u32>, buf: bytes, pos: nat): Option<bytes>
    requires pos <= |buf|
  {
    if |buf| - pos < 4 * |ws| then None else Some(buf[..pos] + EncodeWords(ws) + buf[pos + 4 * |ws|..])
  }

  /** Words written by one call of xdr_u_int each. */
  function PutEach(ws: seq<u32>, buf: bytes, pos: nat): Option<bytes>
    requires pos <= |buf|
  {
    if ws == [] then Some(buf)
    else if |buf| - pos < 4 then None
    else PutEach(ws[1..], buf[..pos] + Bytes(ws[0]) + buf[pos + 4..], pos + 4)
  }

  /** Encoding leaves the same buffer on either path, and fails for the same room. */
  lemma {:induction false} PutPathsAgree(ws: seq<u32>, buf: bytes, pos: nat)
    requires pos <= |buf|
    ensures PutEach(ws, buf, pos) == PutInline(ws, buf, pos)
    decreases |ws|
  {
    if ws == [] {
      assert buf == buf[..pos] + [] + buf[pos..];
    } else if |buf| - pos >= 4 {
      var buf' := buf[..pos] + Bytes(ws[0]) + buf[pos + 4..];
      PutPathsAgree(ws[1..], buf', pos + 4);
      if |buf| - pos >= 4 * |ws| {
        assert buf'[..pos + 4] == buf[..pos] + Bytes(ws[0]);
        assert buf'[pos + 4 * |ws|..] == buf[pos + 4 * |ws|..];
        ConcatAssoc(buf[..pos], Bytes(ws[0]), EncodeWords(ws[1..]));
      }
    }
  }

  // ---------------------------------------------------------------- booleans: xdr_PATHCONF3resok

  /** xdr_bool stores 0 or 1; IXDR_GET_BOOL stores the word as it is. */
  function Normal(w: u32): u32 {
    if w != 0 then 1 else 0
  }

  function Normals(ws: seq<u32>): (ns: seq<u32>)
    ensures |ns| == |ws|
    ensures forall i :: 0 <= i < |ns| ==> ns[i] == Normal(ws[i])
  {
    seq(|ws|, i requires 0 <= i < |ws| => Normal(ws[i]))
  }

  /** The last four fields of a decoded PATHCONF3resok; `granted` is whether XDR_INLINE finds the buffer aligned. */
  function PathconfBools(b: bytes, granted: bool): Option<(seq<u32>, bytes)> {
    if granted && |b| >= 16 then GetInline(4, b)
    else
      match GetEach(4, b)
      case None => None
      case Some((ws, rest)) => Some((Normals(ws), rest))
  }

  predicate ZeroOrOne(ws: seq<u32>) {
    forall i :: 0 <= i < |ws| ==> ws[i] <= 1
  }

  lemma NormalsFixed(ws: seq<u32>)
    ensures Normals(ws) == ws <==> ZeroOrOne(ws)
  {
    if Normals(ws) == ws {
      assert forall i :: 0 <= i < |ws| ==> ws[i] == Normals(ws)[i];
    }
  }

  /** The two paths of PATHCONF agree if and only if each boolean in the buffer is 0 or 1. */
  lemma PathconfPathsAgree(b: bytes)
    ensures PathconfBools(b, true) == PathconfBools(b, false)
            <==> GetInline(4, b).Some? ==> ZeroOrOne(GetInline(4, b).value.0)
  {
    GetPathsAgree(4, b);
    if |b| >= 16 {
      NormalsFixed(GetInline(4, b).value.0);
    }
  }

  /** The last four fields of a PATHCONF3resok, encoded: IXDR_PUT_BOOL writes the field as it is. */
  function PutPathconf(ws: seq<u32>, buf: bytes, pos: nat, granted: bool): Option<bytes>
    requires |ws| == 4 && pos <= |buf|
  {
    if granted && |buf| - pos >= 16 then PutInline(ws, buf, pos) else PutEach(Normals(ws), buf, pos)
  }

  lemma {:induction false} EncodeWordsInjective(vs: seq<u32>, ws: seq<u32>)
    requires |vs| == |ws| && EncodeWords(vs) == EncodeWords(ws)
    ensures vs == ws
    decreases |vs|
  {
    if |vs| > 0 {
      var v, w := EncodeWords(vs), EncodeWords(ws);
      assert v[..4] == Bytes(vs[0]) && w[..4] == Bytes(ws[0]);
      assert v[4..] == EncodeWords(vs[1..]) && w[4..] == EncodeWords(ws[1..]);
      NumberOfBytes(vs[0]);
      NumberOfBytes(ws[0]);
      EncodeWordsInjective(vs[1..], ws[1..]);
      Cons(vs);
      Cons(ws);
    }
  }

  lemma PutInlineInjective(vs: seq<u32>, ws: seq<u32>, buf: bytes, pos: nat)
    requires |vs| == |ws| && pos + 4 * |vs| <= |buf| && PutInline(vs, buf, pos) == PutInline(ws, buf, pos)
    ensures vs == ws
  {
    var n := 4 * |vs|;
    var tail := buf[pos + n..];
    assert (buf[..pos] + EncodeWords(vs) + tail)[pos..pos + n] == EncodeWords(vs);
    assert (buf[..pos] + EncodeWords(ws) + tail)[pos..pos + n] == EncodeWords(ws);
    EncodeWordsInjective(vs, ws);
  }

  /** Encoding, they agree if and only if there is no room for all four, or each of them is 0 or 1. */
  lemma PutPathconfAgree(ws: seq<u32>, buf: bytes, pos: nat)
    requires |ws| == 4 && pos <= |buf|
    ensures PutPathconf(ws, buf, pos, true) == PutPathconf(ws, buf, pos, false)
            <==> |buf| - pos >= 16 ==> ZeroOrOne(ws)
  {
    PutPathsAgree(Normals(ws), buf, pos);
    NormalsFixed(ws);
    if |buf| - pos >= 16 && PutInline(ws, buf, pos) == PutInline(Normals(ws), buf, pos) {
      PutInlineInjective(ws, Normals(ws), buf, pos);
    }
  }
}
