/** The strings the server keys its tables by: file handles in hex, and host addresses as dotted quads. */
module Keys {
  import opened Ints
  import opened Codecs

  // ---------------------------------------------------------------- hexadecimal

  const HEX: string := "0123456789abcdef"

  function Hex(n: nat): (c: char)
    requires n < 16
  {
    HEX[n]
  }

  lemma HexInjective(a: nat, b: nat)
    requires a < 16 && b < 16 && Hex(a) == Hex(b)
    ensures a == b
  {
  }

  /** "%.2x" of one byte. */
  function HexByte(b: byte): (s: string)
    ensures |s| == 2
  {
    [Hex(b / 16), Hex(b % 16)]
  }

  /** getDir and Handle2Hex: two digits for each byte. */
  function GetDir(handle: bytes): (s: string)
    ensures |s| == 2 * |handle|
  {
    if handle == [] then "" else HexByte(handle[0]) + GetDir(handle[1..])
  }

  /** "%.8x" of one word: its low `n` hex digits. */
  function HexDigits(w: u32, n: nat): (s: string)
    ensures |s| == n
  {
    if n == 0 then "" else HexDigits(w / 16, n - 1) + [Hex(w % 16)]
  }

  lemma {:induction false} GetDirInjective(g: bytes, h: bytes)
    requires GetDir(g) == GetDir(h)
    ensures g == h
  {
    if g != [] && h != [] {
      var s, t := GetDir(g), GetDir(h);
      assert s[0] == Hex(g[0] / 16) && s[1] == Hex(g[0] % 16) && t[0] == Hex(h[0] / 16) && t[1] == Hex(h[0] % 16);
      HexInjective(g[0] / 16, h[0] / 16);
      HexInjective(g[0] % 16, h[0] % 16);
      assert s[2..] == GetDir(g[1..]) && t[2..] == GetDir(h[1..]);
      GetDirInjective(g[1..], h[1..]);
    } else {
      assert |GetDir(g)| == |GetDir(h)|;
    }
  }

  /** Byte `i` of a handle is spelled by two lower-case digits, the upper half first. */
  lemma {:induction false} GetDirSpelled(h: bytes, i: nat)
    requires i < |h|
    ensures GetDir(h)[2 * i] == "0123456789abcdef"[h[i] / 16]
    ensures GetDir(h)[2 * i + 1] == "0123456789abcdef"[h[i] % 16]
  {
    if i > 0 {
      GetDirSpelled(h[1..], i - 1);
      assert GetDir(h)[2..] == GetDir(h[1..]);
    }
  }

  lemma {:induction false} GetDirAppend(g: bytes, h: bytes)
    ensures GetDir(g + h) == GetDir(g) + GetDir(h)
  {
    if g == [] {
      assert g + h == h;
    } else {
      assert (g + h)[1..] == g[1..] + h;
      GetDirAppend(g[1..], h);
    }
  }

  /** The eight digits of a word are the two digits of each of its bytes. */
  lemma HexOfWord(b: bytes)
    requires |b| == 4
    ensures HexDigits(Number(b), 8) == GetDir(b)
  {
    NumberIsWord(b);
    EightDigits(Number(b), b[0], b[1], b[2], b[3]);
    FourBytes(b);
  }

  lemma EightDigits(w: u32, b0: byte, b1: byte, b2: byte, b3: byte)
    requires w == Word(b0, b1, b2, b3)
    ensures HexDigits(w, 8) == HexByte(b0) + HexByte(b1) + HexByte(b2) + HexByte(b3)
  {
    var c0: int, c1: int, c2: int := b0, b1, b2;
    var w2 := c0 * 0x100 + c1;
    var w3 := w2 * 0x100 + c2;
    TwoDigits(w, 6, w3, b3);
    TwoDigits(w3, 4, w2, b2);
    TwoDigits(w2, 2, c0, b1);
    TwoDigits(c0, 0, 0, b0);
    assert HexDigits(0, 0) == "";
  }

  lemma FourBytes(b: bytes)
    requires |b| == 4
    ensures GetDir(b) == HexByte(b[0]) + HexByte(b[1]) + HexByte(b[2]) + HexByte(b[3])
  {
    assert b[1..][1..] == b[2..] && b[2..][1..] == b[3..] && b[3..][1..] == [];
    assert GetDir(b[3..]) == HexByte(b[3]) + "";
    assert GetDir(b[2..]) == HexByte(b[2]) + GetDir(b[3..]);
    assert GetDir(b[1..]) == HexByte(b[1]) + GetDir(b[2..]);
  }

  lemma TwoDigits(w: u32, n: nat, hi: u32, lo: byte)
    requires w == hi * 0x100 + lo
    ensures HexDigits(w, n + 2) == HexDigits(hi, n) + HexByte(lo)
  {
    assert w % 16 == lo % 16 && w / 16 == hi * 16 + lo / 16;
    assert (w / 16) % 16 == lo / 16 && w / 16 / 16 == hi;
    assert HexDigits(w / 16, n + 1) == HexDigits(hi, n) + [Hex(lo / 16)];
  }

  /** The digits of `n` words from word `i` on. */
  function HexWords(words: int -> u32, i: nat, n: nat): string
    decreases n
  {
    if n == 0 then "" else HexDigits(words(i), 8) + HexWords(words, i + 1, n - 1)
  }

  /** readDir, at word `p` of a payload that ends before word `end`: the word behind the handle, and its key. */
  function ReadDir(words: int -> u32, p: nat, end: int): Option<(nat, string)> {
    if end < p + 2 then None
    else
      var n := words(p) / 4 + (if words(p) % 4 != 0 then 1 else 0);
      if end < p + 1 + n then None else Some((p + 1 + n, HexWords(words, p + 1, n)))
  }

  /** A handle is found exactly if there are two words, and the bytes that its length word claims, before the end. */
  lemma ReadDirFinds(words: int -> u32, p: nat, end: int)
    ensures ReadDir(words, p, end).Some? <==> p + 2 <= end && words(p) <= 4 * (end - (p + 1))
  {
  }

  /** The words at `i` are those of the bytes `b`. */
  ghost predicate WordsOf(words: int -> u32, i: nat, b: bytes) {
    forall j :: 0 <= j && 4 * j + 4 <= |b| ==> words(i + j) == Number(b[4 * j..4 * j + 4])
  }

  lemma WordsOfTail(words: int -> u32, i: nat, b: bytes)
    requires |b| >= 4 && WordsOf(words, i, b)
    ensures words(i) == Number(b[..4]) && WordsOf(words, i + 1, b[4..])
  {
    assert words(i + 0) == Number(b[4 * 0..4 * 0 + 4]);
    forall j | 0 <= j && 4 * j + 4 <= |b[4..]|
      ensures words(i + 1 + j) == Number(b[4..][4 * j..4 * j + 4])
    {
      assert words(i + (j + 1)) == Number(b[4 * (j + 1)..4 * (j + 1) + 4]);
      SliceOfTail(b, 4, 4 * j, 4 * j + 4);
    }
  }

  lemma {:induction false} HexOfWords(words: int -> u32, i: nat, b: bytes, n: nat)
    requires |b| == 4 * n && WordsOf(words, i, b)
    ensures HexWords(words, i, n) == GetDir(b)
    decreases n
  {
    if n > 0 {
      WordsOfTail(words, i, b);
      HexOfWords(words, i + 1, b[4..], n - 1);
      HexOfWord(b[..4]);
      GetDirAppend(b[..4], b[4..]);
      TakeDrop(b, 4);
    }
  }

  /** An encoded handle is its length word and the words of the padded handle. */
  lemma WordsOfVar(words: int -> u32, p: nat, h: bytes)
    requires |h| <= 64 && WordsOf(words, p, EncodeVar(h))
    ensures words(p) == |h| && WordsOf(words, p + 1, h + Padding(|h|))
  {
    var e, padded := EncodeVar(h), h + Padding(|h|);
    assert words(p + 0) == Number(e[4 * 0..4 * 0 + 4]);
    assert e[..4] == Bytes(|h|) && e[4..] == padded;
    NumberOfBytes(|h|);
    forall j | 0 <= j && 4 * j + 4 <= |padded|
      ensures words(p + 1 + j) == Number(padded[4 * j..4 * j + 4])
    {
      assert words(p + (j + 1)) == Number(e[4 * (j + 1)..4 * (j + 1) + 4]);
      SliceOfTail(e, 4, 4 * j, 4 * j + 4);
    }
  }

  /** A reply's encoded handle `h`, of `n` words behind its length word, gives as key the hex of the zero-padded
      handle, and the cursor lands just behind it. */
  lemma ReadDirKey(words: int -> u32, p: nat, end: int, h: bytes, n: nat)
    requires |h| <= 64 && WordsOf(words, p, EncodeVar(h)) && |EncodeVar(h)| == 4 * (1 + n)
    requires p + 2 <= end && p + 1 + n <= end
    ensures ReadDir(words, p, end) == Some((p + 1 + n, GetDir(h + Padding(|h|))))
  {
    WordsOfVar(words, p, h);
    PaddedWords(h, n);
    ReadDirPadded(words, p, end, |h|, h + Padding(|h|), n);
  }

  lemma PaddedWords(h: bytes, n: nat)
    requires |h| <= MAX_UINT && |EncodeVar(h)| == 4 * (1 + n)
    ensures |h + Padding(|h|)| == 4 * n && n == (|h| + 3) / 4
  {
  }

  lemma ReadDirPadded(words: int -> u32, p: nat, end: int, size: nat, padded: bytes, n: nat)
    requires words(p) == size && n == (size + 3) / 4 && |padded| == 4 * n && WordsOf(words, p + 1, padded)
    requires p + 2 <= end && p + 1 + n <= end
    ensures ReadDir(words, p, end) == Some((p + 1 + n, GetDir(padded)))
  {
    HexOfWords(words, p + 1, padded, n);
    ReadDirOf(words, p, end, size, n);
  }

  /** The word count that readDir computes is that of the padded handle. */
  lemma ReadDirOf(words: int -> u32, p: nat, end: int, size: nat, n: nat)
    requires words(p) == size && n == (size + 3) / 4 && p + 2 <= end && p + 1 + n <= end
    ensures ReadDir(words, p, end) == Some((p + 1 + n, HexWords(words, p + 1, n)))
  {
    assert size == 4 * (size / 4) + size % 4;
  }

  lemma PadZero(n: nat)
    ensures PadLength(n) == 0 <==> n % 4 == 0
  {
  }

  /** So call and reply agree on a handle's key exactly when its length is a multiple of four. */
  lemma KeysAgree(h: bytes)
    ensures GetDir(h + Padding(|h|)) == GetDir(h) <==> |h| % 4 == 0
  {
    PadZero(|h|);
    var padded := h + Padding(|h|);
    assert |padded| == |h| + PadLength(|h|);
    if PadLength(|h|) == 0 {
      assert padded == h;
    } else {
      assert |GetDir(padded)| > |GetDir(h)|;
    }
  }

  /** Replies confuse two handles exactly when they are the same once padded; calls confuse none. */
  lemma KeysDistinct(g: bytes, h: bytes)
    ensures GetDir(g) == GetDir(h) <==> g == h
    ensures GetDir(g + Padding(|g|)) == GetDir(h + Padding(|h|)) <==> g + Padding(|g|) == h + Padding(|h|)
    ensures |g| == |h| && g != h ==> GetDir(g + Padding(|g|)) != GetDir(h + Padding(|h|))
  {
    if GetDir(g) == GetDir(h) {
      GetDirInjective(g, h);
    }
    if GetDir(g + Padding(|g|)) == GetDir(h + Padding(|h|)) {
      GetDirInjective(g + Padding(|g|), h + Padding(|h|));
      assert |g| == |h| ==> g == (g + Padding(|g|))[..|g|] && h == (h + Padding(|h|))[..|h|];
    }
  }

  /** Two handles that replies confuse. */
  lemma ConfusedHandles()
    ensures var g: bytes, h: bytes := [1, 2, 3], [1, 2, 3, 0];
            g != h && GetDir(g + Padding(|g|)) == GetDir(h + Padding(|h|))
  {
    var g: bytes, h: bytes := [1, 2, 3], [1, 2, 3, 0];
    assert g + Padding(3) == h;
    assert h + Padding(4) == h;
  }

  // ---------------------------------------------------------------- dotted quads

  /** An octet in decimal, without leading zeros. */
  function Decimal(n: nat): (s: string)
    requires n < 256
    ensures 1 <= |s| <= 3
    ensures forall i :: 0 <= i < |s| ==> '0' <= s[i] <= '9'
  {
    if n < 10 then ['0' + n as char]
    else if n < 100 then ['0' + (n / 10) as char, '0' + (n % 10) as char]
    else ['0' + (n / 100) as char, '0' + (n / 10 % 10) as char, '0' + (n % 10) as char]
  }

  lemma DecimalInjective(a: nat, b: nat)
    requires a < 256 && b < 256 && Decimal(a) == Decimal(b)
    ensures a == b
  {
    var s, t := Decimal(a), Decimal(b);
    assert |s| == |t| && s[0] == t[0] && s[|s| - 1] == t[|t| - 1];
  }

  /** getStringIp. */
  function GetStringIp(host: u32): string {
    Decimal(host / 0x100_0000) + ("." + (Decimal(host / 0x1_0000 % 0x100) + ("." + (Decimal(host / 0x100 % 0x100)
      + ("." + Decimal(host % 0x100))))))
  }

  /** The number that decimal digits stand for. */
  function DecimalValue(s: string): int {
    if s == "" then 0 else 10 * DecimalValue(s[..|s| - 1]) + (s[|s| - 1] as int - '0' as int)
  }

  /** The digits of a number stand for it, and start with a zero for zero only. */
  lemma DecimalSpelled(n: nat)
    requires n < 256
    ensures DecimalValue(Decimal(n)) == n && (Decimal(n)[0] == '0' ==> n == 0)
  {
    var s := Decimal(n);
    assert s[..0] == "";
    if |s| > 1 {
      assert s[..1][..0] == "" && DecimalValue(s[..1]) == s[0] as int - '0' as int;
    }
    if |s| > 2 {
      assert s[..2][..1] == s[..1];
    }
  }

  lemma WordOctets(a: byte, b: byte, c: byte, d: byte)
    ensures var w := Word(a, b, c, d);
            w / 0x100_0000 == a && w / 0x1_0000 % 0x100 == b && w / 0x100 % 0x100 == c && w % 0x100 == d
  {
    var w := Word(a, b, c, d);
    assert w / 0x1_0000 == a * 0x100 + b && w / 0x100 == a * 0x1_0000 + b * 0x100 + c;
  }

  /** A host is spelled byte by byte, in network order. */
  lemma IpSpelled(a: byte, b: byte, c: byte, d: byte)
    ensures GetStringIp(Word(a, b, c, d))
         == Decimal(a) + ("." + (Decimal(b) + ("." + (Decimal(c) + ("." + Decimal(d))))))
  {
    WordOctets(a, b, c, d);
  }

  lemma IpExample()
    ensures GetStringIp(Word(10, 0, 2, 15)) == "10.0.2.15"
  {
    IpSpelled(10, 0, 2, 15);
    assert Decimal(10) == "10" && Decimal(0) == "0" && Decimal(2) == "2" && Decimal(15) == "15";
  }

  /** No character of `s` is `c`. */
  predicate Without(s: string, c: char) {
    forall i :: 0 <= i < |s| ==> s[i] != c
  }

  /** Position of the first `c`. */
  function IndexOf(s: string, c: char): (i: nat)
    ensures i <= |s|
  {
    if s == "" || s[0] == c then 0 else 1 + IndexOf(s[1..], c)
  }

  lemma {:induction false} IndexOfSeparator(a: string, b: string, c: char)
    requires Without(a, c)
    ensures IndexOf(a + ([c] + b), c) == |a|
  {
    if a != "" {
      assert (a + ([c] + b))[1..] == a[1..] + ([c] + b);
      IndexOfSeparator(a[1..], b, c);
    }
  }

  /** Strings joined by a separator that the first ones do not contain can be told apart. */
  lemma SplitAtSeparator(a: string, b: string, a': string, b': string, c: char)
    requires Without(a, c) && Without(a', c)
    requires a + ([c] + b) == a' + ([c] + b')
    ensures a == a' && b == b'
  {
    var s, s' := a + ([c] + b), a' + ([c] + b');
    IndexOfSeparator(a, b, c);
    IndexOfSeparator(a', b', c);
    assert s[..|a|] == a && s'[..|a'|] == a';
    assert s[|a| + 1..] == b && s'[|a'| + 1..] == b';
  }

  /** Different hosts print differently. */
  lemma GetStringIpInjective(g: u32, h: u32)
    requires GetStringIp(g) == GetStringIp(h)
    ensures g == h
  {
    var a, b, c, d :=
      Decimal(g / 0x100_0000), Decimal(g / 0x1_0000 % 0x100), Decimal(g / 0x100 % 0x100), Decimal(g % 0x100);
    var a', b', c', d' :=
      Decimal(h / 0x100_0000), Decimal(h / 0x1_0000 % 0x100), Decimal(h / 0x100 % 0x100), Decimal(h % 0x100);
    SplitAtSeparator(a, b + ("." + (c + ("." + d))), a', b' + ("." + (c' + ("." + d'))), '.');
    SplitAtSeparator(b, c + ("." + d), b', c' + ("." + d'), '.');
    SplitAtSeparator(c, d, c', d', '.');
    DecimalInjective(g / 0x100_0000, h / 0x100_0000);
    DecimalInjective(g / 0x1_0000 % 0x100, h / 0x1_0000 % 0x100);
    DecimalInjective(g / 0x100 % 0x100, h / 0x100 % 0x100);
    DecimalInjective(g % 0x100, h % 0x100);
    SameOctets(g, h);
  }

  lemma SameOctets(g: u32, h: u32)
    requires g / 0x100_0000 == h / 0x100_0000 && g / 0x1_0000 % 0x100 == h / 0x1_0000 % 0x100
    requires g / 0x100 % 0x100 == h / 0x100 % 0x100 && g % 0x100 == h % 0x100
    ensures g == h
  {
    Octets(g);
    Octets(h);
  }

  lemma Octets(g: u32)
    ensures g == g / 0x100_0000 * 0x100_0000 + g / 0x1_0000 % 0x100 * 0x1_0000 + g / 0x100 % 0x100 * 0x100 + g % 0x100
  {
    var h := g / 0x100;
    var i := h / 0x100;
    assert i == g / 0x1_0000 && i / 0x100 == g / 0x100_0000;
  }

  lemma IpWithoutSlash(host: u32)
    ensures Without(GetStringIp(host), '/')
  {
  }

  /** The key of a pair of hosts, in one direction. */
  function PairKey(a: string, b: string): string {
    a + "/" + b
  }

  /** A key belongs to one ordered pair of addresses. */
  lemma PairKeySplits(a: string, b: string, c: string, d: string)
    requires Without(a, '/') && Without(c, '/') && PairKey(a, b) == PairKey(c, d)
    ensures a == c && b == d
  {
    ConcatAssoc(a, "/", b);
    ConcatAssoc(c, "/", d);
    SplitAtSeparator(a, b, c, d, '/');
  }

  /** So it belongs to one ordered pair of hosts. */
  lemma PairKeyInjective(a: u32, b: u32, c: u32, d: u32)
    requires PairKey(GetStringIp(a), GetStringIp(b)) == PairKey(GetStringIp(c), GetStringIp(d))
    ensures a == c && b == d
  {
    IpWithoutSlash(a);
    IpWithoutSlash(c);
    PairKeySplits(GetStringIp(a), GetStringIp(b), GetStringIp(c), GetStringIp(d));
    GetStringIpInjective(a, c);
    GetStringIpInjective(b, d);
  }

  // ---------------------------------------------------------------- finding a client

  /** getClient's key: a/b if there is a client of that name, else b/a, found or to be made. */
  function ClientKey(keys: set<string>, a: u32, b: u32): string {
    if PairKey(GetStringIp(a), GetStringIp(b)) in keys then PairKey(GetStringIp(a), GetStringIp(b))
    else PairKey(GetStringIp(b), GetStringIp(a))
  }

  /** No pair of hosts has a client for each direction. */
  ghost predicate OneDirection(keys: set<string>) {
    forall a: u32, b: u32 :: a != b && PairKey(GetStringIp(a), GetStringIp(b)) in keys ==>
      PairKey(GetStringIp(b), GetStringIp(a)) !in keys
  }

  /** The keys of two pairs of hosts are the same only for the same two hosts. */
  lemma KeyOfPair(a: u32, b: u32, c: u32, d: u32)
    requires PairKey(GetStringIp(a), GetStringIp(b)) == PairKey(GetStringIp(c), GetStringIp(d))
             || PairKey(GetStringIp(a), GetStringIp(b)) == PairKey(GetStringIp(d), GetStringIp(c))
    ensures {a, b} == {c, d}
  {
    if PairKey(GetStringIp(a), GetStringIp(b)) == PairKey(GetStringIp(c), GetStringIp(d)) {
      PairKeyInjective(a, b, c, d);
    } else {
      PairKeyInjective(a, b, d, c);
    }
  }

  /** Looking a client up, and making it if there is none, never gives a pair of hosts two clients, finds the same
      client in both directions, and finds different clients for different pairs. */
  lemma ClientLookup(keys: set<string>, a: u32, b: u32)
    requires OneDirection(keys)
    ensures var key := ClientKey(keys, a, b);
            && OneDirection(keys + {key})
            && ClientKey(keys + {key}, a, b) == ClientKey(keys + {key}, b, a) == key
            && (forall c: u32, d: u32 :: ClientKey(keys, c, d) == key ==> {c, d} == {a, b})
  {
    var key := ClientKey(keys, a, b);
    forall c: u32, d: u32 | ClientKey(keys, c, d) == key
      ensures {c, d} == {a, b}
    {
      SameKeySamePair(keys, a, b, c, d);
    }
    forall c: u32, d: u32 | c != d && PairKey(GetStringIp(c), GetStringIp(d)) in keys + {key}
      ensures PairKey(GetStringIp(d), GetStringIp(c)) !in keys + {key}
    {
      StillOneDirection(keys, a, b, c, d);
    }
    if a != b {
      assert PairKey(GetStringIp(a), GetStringIp(b)) !in keys || PairKey(GetStringIp(b), GetStringIp(a)) !in keys;
      if PairKey(GetStringIp(a), GetStringIp(b)) == PairKey(GetStringIp(b), GetStringIp(a)) {
        PairKeyInjective(a, b, b, a);
      }
    }
  }

  lemma SameKeySamePair(keys: set<string>, a: u32, b: u32, c: u32, d: u32)
    requires ClientKey(keys, c, d) == ClientKey(keys, a, b)
    ensures {c, d} == {a, b}
  {
    if PairKey(GetStringIp(c), GetStringIp(d)) in keys {
      KeyOfPair(c, d, a, b);
    } else {
      KeyOfPair(d, c, a, b);
    }
  }

  lemma StillOneDirection(keys: set<string>, a: u32, b: u32, c: u32, d: u32)
    requires OneDirection(keys) && c != d && PairKey(GetStringIp(c), GetStringIp(d)) in keys + {ClientKey(keys, a, b)}
    ensures PairKey(GetStringIp(d), GetStringIp(c)) !in keys + {ClientKey(keys, a, b)}
  {
    var there, back := PairKey(GetStringIp(c), GetStringIp(d)), PairKey(GetStringIp(d), GetStringIp(c));
    var key := ClientKey(keys, a, b);
    if there == back {
      PairKeyInjective(c, d, d, c);
    }
    if key !in keys && (there == key || back == key) {
      if there == key {
        PairKeyInjective(c, d, b, a);
      } else {
        PairKeyInjective(d, c, b, a);
      }
    }
  }
}
