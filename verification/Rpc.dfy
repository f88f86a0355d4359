/** The headers of a captured packet: Ethernet, IP, TCP or UDP, and the RPC message header. */
module Rpc {
  import opened Ints

  const BUFSIZ: nat := 8192
  const ETHERMTU: nat := 1500
  const IPPROTO_TCP: nat := 6
  const IPPROTO_UDP: nat := 17
  const RPC_VERSION: nat := 2
  const NFS_PROGRAM: nat := 100003
  const CALL: nat := 0
  const REPLY: nat := 1
  const AUTH_UNIX: nat := 1

  /** Memory around the captured bytes, by offset from the start of the packet. Only offsets from 0 up to `caplen`
      are the capture; what lies elsewhere is arbitrary. */
  type Memory = int -> byte

  datatype Packet = Packet(secs: u32, usecs: u32, caplen: u32, mem: Memory)

  /** `ntohl` of the word at `off`. */
  function WordAt(mem: Memory, off: int): u32 {
    BigEndian(mem, off, 4)
  }

  /** The `n` bytes from `off` on as a number, most significant byte first. */
  function BigEndian(mem: Memory, off: int, n: nat): (w: nat)
    requires n <= 4
    ensures w < if n == 0 then 1 else if n == 1 then 0x100 else if n == 2 then 0x1_0000
                else if n == 3 then 0x100_0000 else 0x1_0000_0000
  {
    if n == 0 then 0 else BigEndian(mem, off, n - 1) * 0x100 + mem(off + n - 1)
  }

  /** `ntohs` of the half word at `off`. */
  function HalfAt(mem: Memory, off: int): (h: u32)
    ensures h < 0x1_0000 {
    mem(off) * 0x100 + mem(off + 1)
  }

  // ---------------------------------------------------------------- link, network and transport headers

  datatype Ether = Ether(len: nat, proto: nat)

  function GetEtherHeader(mem: Memory, packetLen: u32): Ether {
    var length := HalfAt(mem, 12);
    if length <= ETHERMTU
       || (length == WrapU32(packetLen - 22) && mem(14) == 0xAA && mem(15) == 0xAA && mem(16) == 0x03)
    then Ether(22, HalfAt(mem, 20))
    else Ether(14, length)
  }

  datatype Ip = Ip(len: int, proto: nat, src: u32, dst: u32)

  /** The length is -1 for another IP version and 0 for a later fragment. */
  function GetIpHeader(mem: Memory, at: int): Ip {
    var len := if mem(at) / 16 != 4 then -1
               else if HalfAt(mem, at + 6) % 0x2000 != 0 then 0
               else mem(at) % 16 * 4;
    Ip(len, mem(at + 9), WordAt(mem, at + 12), WordAt(mem, at + 16))
  }

  /** What is known of a packet when the record walk starts. `base` is the sum `e_len + i_len + h_len`, in which a
      TCP header counts 4 bytes extra for the first record marker. */
  datatype Frame = Frame(start: u32, tcp: bool, base: u32,
                         srcHost: u32, dstHost: u32, srcPort: u32, dstPort: u32)

  /** The checks got_packet makes before its loop. */
  function Parse(p: Packet): Option<Frame> {
    if p.caplen <= 14 + 20 + 8 then None
    else
      var ether := GetEtherHeader(p.mem, p.caplen);
      if ether.proto != 0x0800 then None
      else
        var ip := GetIpHeader(p.mem, ether.len);
        if ip.len <= 0 then None
        else
          var l4 := ether.len + ip.len;
          if l4 >= p.caplen then None
          else if ip.proto == IPPROTO_TCP then
            var h := p.mem(l4 + 12) / 16 * 4;
            if l4 + 20 >= p.caplen || h <= 0 || l4 + h >= p.caplen then None
            else Some(Frame(l4 + h, true, l4 + h + 4, ip.src, ip.dst, HalfAt(p.mem, l4), HalfAt(p.mem, l4 + 2)))
          else if ip.proto == IPPROTO_UDP then
            if l4 + 8 >= p.caplen then None
            else Some(Frame(l4 + 8, false, l4 + 8, ip.src, ip.dst, HalfAt(p.mem, l4), HalfAt(p.mem, l4 + 2)))
          else None
  }

  // ---------------------------------------------------------------- the RPC message header

  /** `rc` is the header length, or an error code that is not positive. */
  datatype RpcHeader = RpcHeader(rc: int, dir: u32)

  /** The words by which an opaque authenticator body of the declared length moves the cursor, with its flavor and
      length words. A declared length is a signed integer; on a negative one the cursor moves back. */
  function AuthWords(len: int): int {
    (len + 11) / 4
  }

  /** The header length as the function returns it: computed in 32 bits and returned as an int. */
  function HeaderLength(words: int): int {
    ToInt32(WrapU32(4 * words))
  }

  /** The call branch, on the words it reads: `cred` and `verf` are the declared lengths of the two authenticators. */
  function CallLength(rpcvers: u32, prog: u32, flavor: u32, cred: int, verf: int, maxWords: nat): int {
    var at := 6 + AuthWords(cred);
    if rpcvers != RPC_VERSION || prog != NFS_PROGRAM then -1
    else if 7 >= maxWords then -2
    else if at + 1 >= maxWords then -3
    else if flavor != AUTH_UNIX then -4
    else HeaderLength(at + AuthWords(verf))
  }

  /** The reply branch. */
  function ReplyLength(verf: int, maxWords: nat): int {
    if 4 >= maxWords then -5 else HeaderLength(3 + AuthWords(verf))
  }

  /** getRpcHeader, at offset `bp`, told that `maxlen` bytes were captured from there on. */
  function GetRpcHeader(mem: Memory, bp: int, maxlen: u32): RpcHeader {
    var dir := WordAt(mem, bp + 4);
    if dir == CALL then
      var cred := ToInt32(WordAt(mem, bp + 28));
      var verf := ToInt32(WordAt(mem, bp + 28 + 4 * AuthWords(cred)));
      RpcHeader(CallLength(WordAt(mem, bp + 8), WordAt(mem, bp + 12), WordAt(mem, bp + 24), cred, verf, maxlen / 4),
                dir)
    else if dir == REPLY then
      RpcHeader(ReplyLength(ToInt32(WordAt(mem, bp + 16)), maxlen / 4), dir)
    else RpcHeader(-6, dir)
  }

  // ---------------------------------------------------------------- the encoded headers of RFC 5531, section 9

  /** An opaque_auth: flavor, length, and body of at most 400 bytes, padded. */
  function EncodeAuth(flavor: u32, body: bytes): bytes
    requires |body| <= 400
  {
    EncodeWords([flavor, |body|]) + (body + Padding(|body|))
  }

  /** The header of a call, of whatever program. */
  datatype CallHead = CallHead(xid: u32, rpcvers: u32, prog: u32, version: u32, proc: u32, flavor: u32, cred: bytes,
                               verfFlavor: u32, verf: bytes)

  predicate HeadOk(c: CallHead) {
    |c.cred| <= 400 && |c.verf| <= 400
  }

  function EncodeCall(c: CallHead): bytes
    requires HeadOk(c)
  {
    EncodeWords([c.xid, CALL, c.rpcvers])
    + (EncodeWords([c.prog, c.version, c.proc]) + (EncodeAuth(c.flavor, c.cred) + EncodeAuth(c.verfFlavor, c.verf)))
  }

  /** RPC version 2, the program number of NFS, and AUTH_UNIX credentials. */
  predicate IsNfsCall(c: CallHead) {
    c.rpcvers == 2 && c.prog == 100003 && c.flavor == 1
  }

  /** An accepted reply, up to but not including its accept_stat. */
  function EncodeReply(xid: u32, verfFlavor: u32, verf: bytes): bytes
    requires |verf| <= 400
  {
    EncodeWords([xid, REPLY, MSG_ACCEPTED]) + EncodeAuth(verfFlavor, verf)
  }

  /** A rejected_reply. */
  datatype Denial = RpcMismatch(low: u32, high: u32) | AuthError(stat: u32)

  const MSG_ACCEPTED: u32 := 0
  const MSG_DENIED: u32 := 1

  /** The last auth_stat that the protocol defines. */
  const RPCSEC_GSS_CTXPROBLEM: u32 := 14

  function EncodeDenied(xid: u32, d: Denial): (b: bytes)
    ensures |b| == if d.RpcMismatch? then 24 else 20
  {
    EncodeWords([xid, REPLY, MSG_DENIED])
    + (match d
       case RpcMismatch(low, high) => EncodeWords([0, low, high])
       case AuthError(stat) => EncodeWords([1, stat]))
  }

  /** The bytes `b` lie at offset `at`. */
  ghost predicate Holds(mem: Memory, at: int, b: bytes) {
    forall i :: 0 <= i < |b| ==> mem(at + i) == b[i]
  }

  lemma HoldsSplit(mem: Memory, at: int, a: bytes, b: bytes)
    requires Holds(mem, at, a + b)
    ensures Holds(mem, at, a) && Holds(mem, at + |a|, b)
  {
    forall i | 0 <= i < |a|
      ensures mem(at + i) == a[i]
    {
      assert (a + b)[i] == a[i];
    }
    forall i | 0 <= i < |b|
      ensures mem(at + |a| + i) == b[i]
    {
      assert (a + b)[|a| + i] == b[i];
    }
  }

  lemma HoldsWord(mem: Memory, at: int, w: u32)
    requires Holds(mem, at, Bytes(w))
    ensures WordAt(mem, at) == w
  {
    var b := Bytes(w);
    assert mem(at + 0) == b[0] && mem(at + 1) == b[1] && mem(at + 2) == b[2] && mem(at + 3) == b[3];
    var b0: int, b1: int, b2: int := b[0], b[1], b[2];
    assert BigEndian(mem, at, 1) == b0;
    assert BigEndian(mem, at, 2) == b0 * 0x100 + b1;
    assert BigEndian(mem, at, 3) == (b0 * 0x100 + b1) * 0x100 + b2;
  }

  lemma {:induction false} HoldsWords(mem: Memory, at: int, ws: seq<u32>, i: nat)
    requires Holds(mem, at, EncodeWords(ws)) && i < |ws|
    ensures WordAt(mem, at + 4 * i) == ws[i]
    decreases |ws|
  {
    HoldsSplit(mem, at, Bytes(ws[0]), EncodeWords(ws[1..]));
    if i == 0 {
      HoldsWord(mem, at, ws[0]);
    } else {
      HoldsWords(mem, at + 4, ws[1..], i - 1);
    }
  }

  lemma HoldsAuth(mem: Memory, at: int, flavor: u32, body: bytes)
    requires |body| <= 400 && Holds(mem, at, EncodeAuth(flavor, body))
    ensures WordAt(mem, at) == flavor && WordAt(mem, at + 4) == |body|
    ensures |EncodeAuth(flavor, body)| == 4 * AuthWords(|body|)
  {
    var ws: seq<u32> := [flavor, |body|];
    HoldsSplit(mem, at, EncodeWords(ws), body + Padding(|body|));
    HoldsWords(mem, at, ws, 0);
    HoldsWords(mem, at, ws, 1);
  }

  lemma CallLengthOf(rpcvers: u32, prog: u32, flavor: u32, cred: nat, verf: nat, maxlen: u32)
    requires cred <= 400 && verf <= 400
    requires 24 + 4 * AuthWords(cred) + 4 * AuthWords(verf) <= maxlen
    ensures ToInt32(cred) == cred && ToInt32(verf) == verf
    ensures var rc := CallLength(rpcvers, prog, flavor, cred, verf, maxlen / 4);
            if rpcvers == 2 && prog == 100003 && flavor == 1 then rc == 24 + 4 * AuthWords(cred) + 4 * AuthWords(verf)
            else rc < 0
  {
  }

  lemma ReplyLengthOf(verf: nat, maxlen: u32)
    requires verf <= 400 && 12 + 4 * AuthWords(verf) <= maxlen
    ensures ToInt32(verf) == verf
    ensures ReplyLength(verf, maxlen / 4) == 12 + 4 * AuthWords(verf)
  {
  }

  lemma ThreeWords(mem: Memory, at: int, a: u32, b: u32, c: u32)
    requires Holds(mem, at, EncodeWords([a, b, c]))
    ensures WordAt(mem, at) == a && WordAt(mem, at + 4) == b && WordAt(mem, at + 8) == c
  {
    HoldsWords(mem, at, [a, b, c], 0);
    HoldsWords(mem, at, [a, b, c], 1);
    HoldsWords(mem, at, [a, b, c], 2);
  }

  lemma CallAuths(mem: Memory, at: int, flavor: u32, cred: bytes, verfFlavor: u32, verf: bytes)
    requires |cred| <= 400 && |verf| <= 400
    requires Holds(mem, at, EncodeAuth(flavor, cred) + EncodeAuth(verfFlavor, verf))
    ensures WordAt(mem, at) == flavor && WordAt(mem, at + 4) == |cred|
    ensures WordAt(mem, at + 4 + 4 * AuthWords(|cred|)) == |verf|
    ensures |EncodeAuth(flavor, cred) + EncodeAuth(verfFlavor, verf)|
         == 4 * AuthWords(|cred|) + 4 * AuthWords(|verf|)
  {
    HoldsSplit(mem, at, EncodeAuth(flavor, cred), EncodeAuth(verfFlavor, verf));
    HoldsAuth(mem, at, flavor, cred);
    HoldsAuth(mem, at + 4 * AuthWords(|cred|), verfFlavor, verf);
  }

  lemma CallFromWords(mem: Memory, bp: int, maxlen: u32, c: CallHead)
    requires HeadOk(c) && WordAt(mem, bp + 4) == CALL
    requires 24 + 4 * AuthWords(|c.cred|) + 4 * AuthWords(|c.verf|) <= maxlen
    requires WordAt(mem, bp + 8) == c.rpcvers && WordAt(mem, bp + 12) == c.prog && WordAt(mem, bp + 24) == c.flavor
    requires WordAt(mem, bp + 28) == |c.cred| && WordAt(mem, bp + 28 + 4 * AuthWords(|c.cred|)) == |c.verf|
    ensures var h := GetRpcHeader(mem, bp, maxlen);
            && h.dir == CALL
            && if IsNfsCall(c) then h.rc == 24 + 4 * AuthWords(|c.cred|) + 4 * AuthWords(|c.verf|) else h.rc < 0
  {
    CallLengthOf(c.rpcvers, c.prog, c.flavor, |c.cred|, |c.verf|, maxlen);
  }

  /** On an encoded call that is captured whole, getRpcHeader returns exactly the header's length if it is an NFS
      call with AUTH_UNIX credentials, and an error for any other program, RPC version or credentials. */
  lemma CallHeaderLength(mem: Memory, bp: int, maxlen: u32, c: CallHead)
    requires HeadOk(c) && Holds(mem, bp, EncodeCall(c)) && |EncodeCall(c)| <= maxlen
    ensures var h := GetRpcHeader(mem, bp, maxlen);
            h.dir == CALL && if IsNfsCall(c) then h.rc == |EncodeCall(c)| else h.rc < 0
    ensures WordAt(mem, bp) == c.xid && WordAt(mem, bp + 16) == c.version && WordAt(mem, bp + 20) == c.proc
  {
    var auths := EncodeAuth(c.flavor, c.cred) + EncodeAuth(c.verfFlavor, c.verf);
    var prog := EncodeWords([c.prog, c.version, c.proc]);
    HoldsSplit(mem, bp, EncodeWords([c.xid, CALL, c.rpcvers]), prog + auths);
    HoldsSplit(mem, bp + 12, prog, auths);
    ThreeWords(mem, bp, c.xid, CALL, c.rpcvers);
    ThreeWords(mem, bp + 12, c.prog, c.version, c.proc);
    CallAuths(mem, bp + 24, c.flavor, c.cred, c.verfFlavor, c.verf);
    CallFromWords(mem, bp, maxlen, c);
  }

  /** The same for an accepted reply. */
  lemma ReplyHeaderLength(mem: Memory, bp: int, maxlen: u32, xid: u32, verfFlavor: u32, verf: bytes)
    requires |verf| <= 400
    requires Holds(mem, bp, EncodeReply(xid, verfFlavor, verf)) && |EncodeReply(xid, verfFlavor, verf)| <= maxlen
    ensures GetRpcHeader(mem, bp, maxlen) == RpcHeader(|EncodeReply(xid, verfFlavor, verf)|, REPLY)
    ensures WordAt(mem, bp) == xid
  {
    HoldsSplit(mem, bp, EncodeWords([xid, REPLY, MSG_ACCEPTED]), EncodeAuth(verfFlavor, verf));
    ThreeWords(mem, bp, xid, REPLY, MSG_ACCEPTED);
    HoldsAuth(mem, bp + 12, verfFlavor, verf);
    ReplyLengthOf(|verf|, maxlen);
  }

  /** The word that getRpcHeader takes for a denied reply's verifier length. */
  function TakenLength(d: Denial): u32 {
    match d
    case RpcMismatch(low, _) => low
    case AuthError(stat) => stat
  }

  /** The header length that a reply's verifier length word stands for. */
  function ReplyHeader(verf: u32): int {
    12 + 4 * AuthWords(ToInt32(verf))
  }

  lemma DeniedWords(mem: Memory, at: int, xid: u32, d: Denial)
    requires Holds(mem, at, EncodeDenied(xid, d))
    ensures WordAt(mem, at) == xid && WordAt(mem, at + 4) == REPLY && WordAt(mem, at + 8) == MSG_DENIED
    ensures WordAt(mem, at + 16) == TakenLength(d)
  {
    match d
    case RpcMismatch(low, high) =>
      HoldsSplit(mem, at, EncodeWords([xid, REPLY, MSG_DENIED]), EncodeWords([0, low, high]));
      ThreeWords(mem, at, xid, REPLY, MSG_DENIED);
      ThreeWords(mem, at + 12, 0, low, high);
    case AuthError(stat) =>
      HoldsSplit(mem, at, EncodeWords([xid, REPLY, MSG_DENIED]), EncodeWords([1, stat]));
      ThreeWords(mem, at, xid, REPLY, MSG_DENIED);
      HoldsWords(mem, at + 12, [1, stat], 1);
  }
}
