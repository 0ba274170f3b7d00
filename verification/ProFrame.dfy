/** The reply to a captured TCP frame.  The header structs hold network-order bytes in fields that
    a little-endian machine loads and stores (`long` has 32 bits); both checksums are computed
    over a scratch buffer with the bytes of every word exchanged and stored through `htons`. */
module ProFrame {
  import opened Checksum
  import opened Common

  type Long = x: int | 0 <= x < 0x1_0000_0000

  const PROTO_TCP: Byte := 6
  const MAX_PAYLOAD := 4096

  /** The bytes of a 32-bit field, from the lowest address up. */
  function ByteOf(d: nat, i: nat): Byte {
    if i == 0 then d % 0x100 else ByteOf(d / 0x100, i - 1)
  }

  function Load16(a: Byte, b: Byte): Word {
    Little(a, b)
  }

  function Load32(a: Byte, b: Byte, c: Byte, d: Byte): Long {
    a + 0x100 * (b + 0x100 * (c + 0x100 * d))
  }

  lemma LoadedBytes(a: Byte, b: Byte, c: Byte, d: Byte)
    ensures Bytes32(Load32(a, b, c, d)) == [a, b, c, d]
  {
    var cd := c + 0x100 * d;
    var bcd := b + 0x100 * cd;
    var abcd := a + 0x100 * bcd;
    assert abcd / 0x100 == bcd && abcd % 0x100 == a;
    assert bcd / 0x100 == cd && bcd % 0x100 == b;
    assert cd / 0x100 == d && cd % 0x100 == c;
    assert ByteOf(abcd, 1) == ByteOf(bcd, 0);
    assert ByteOf(abcd, 2) == ByteOf(bcd, 1) == ByteOf(cd, 0);
    assert ByteOf(abcd, 3) == ByteOf(bcd, 2) == ByteOf(cd, 1) == ByteOf(d, 0);
  }

  lemma BytesLoaded(d: Long)
    ensures Load32(ByteOf(d, 0), ByteOf(d, 1), ByteOf(d, 2), ByteOf(d, 3)) == d
  {
    var d1 := d / 0x100;
    var d2 := d1 / 0x100;
    var d3 := d2 / 0x100;
    assert ByteOf(d, 1) == d1 % 0x100;
    assert ByteOf(d, 2) == ByteOf(d1, 1) == d2 % 0x100;
    assert ByteOf(d, 3) == ByteOf(d1, 2) == ByteOf(d2, 1) == d3 % 0x100;
    assert d3 < 0x100;
  }

  function Bytes16(w: Word): seq<Byte> {
    [Low(w), High(w)]
  }

  function Bytes32(d: Long): seq<Byte> {
    [ByteOf(d, 0), ByteOf(d, 1), ByteOf(d, 2), ByteOf(d, 3)]
  }

  class IpHdr {
    var verIhl: Byte
    var serviceType: Byte
    var totalLength: Word
    var identification: Word
    var flagsFragmentOffset: Word
    var time2live: Byte
    var protocol: Byte
    var hdrChksum: Word
    var srcIp: Long
    var dstIp: Long

    function Bytes(): (b: seq<Byte>)
      reads this
      ensures |b| == 20
    {
      ([verIhl, serviceType] + Bytes16(totalLength))
      + (Bytes16(identification) + Bytes16(flagsFragmentOffset))
      + ([time2live, protocol] + Bytes16(hdrChksum))
      + Bytes32(srcIp)
      + Bytes32(dstIp)
    }
  }

  class TcpHdr {
    var srcPort: Word
    var dstPort: Word
    var seqNo: Long
    var ack: Long
    var dOffset: Byte
    var flags: Byte
    var window: Word
    var chksum: Word
    var urgentPointer: Word

    function Bytes(): (b: seq<Byte>)
      reads this
      ensures |b| == 20
    {
      (Bytes16(srcPort) + Bytes16(dstPort))
      + Bytes32(seqNo)
      + Bytes32(ack)
      + ([dOffset, flags] + Bytes16(window))
      + (Bytes16(chksum) + Bytes16(urgentPointer))
    }
  }

  /** `pre` is the two bytes of padding and the Ethernet header. */
  class TcpFrame {
    const pre: array<Byte>
    const ipHeader: IpHdr
    const tcpHeader: TcpHdr
    const payload: array<Byte>

    constructor (pre: array<Byte>, ip: IpHdr, tcp: TcpHdr, payload: array<Byte>)
      ensures this.pre == pre && this.ipHeader == ip && this.tcpHeader == tcp && this.payload == payload
    {
      this.pre, this.ipHeader, this.tcpHeader, this.payload := pre, ip, tcp, payload;
    }
  }

  function Pseudo(ip: IpHdr, len: Word): (b: seq<Byte>)
    reads ip
    ensures |b| == 12
  {
    Bytes32(ip.srcIp) + Bytes32(ip.dstIp) + [0, ip.protocol, High(len), Low(len)]
  }

  /** What the TCP checksum covers (section 3.1 of RFC 9293): the pseudo-header, the TCP header as
      stored, and the data. */
  function Covered(ip: IpHdr, tcp: TcpHdr, data: seq<Byte>): (b: seq<Byte>)
    requires |data| <= MAX_PAYLOAD
    reads ip, tcp
    ensures |b| == 32 + |data|
  {
    Pseudo(ip, |data| + 20) + tcp.Bytes() + data
  }

  method FillIpHeader(header: IpHdr, payloadLen: nat)
    requires payloadLen <= MAX_PAYLOAD
    modifies header
    ensures header.verIhl == 0x45 && header.serviceType == 0
    ensures header.totalLength == Swap(40 + payloadLen)
    ensures header.flagsFragmentOffset == 0x40 && header.time2live == 0x32
    ensures header.protocol == PROTO_TCP && header.hdrChksum == 0
    ensures unchanged(header`identification, header`srcIp, header`dstIp)
  {
    header.verIhl := 0x45;
    header.serviceType := 0;
    header.totalLength := Swap(20 + 20 + payloadLen);
    header.flagsFragmentOffset := 2 * 0x20;
    header.time2live := 0x32;
    header.protocol := PROTO_TCP;
    header.hdrChksum := 0;
  }

  method FillTcpHeader(header: TcpHdr)
    modifies header
    ensures header.dOffset == 0x50 && header.flags == 0x18 && header.window == 0xff00
    ensures header.chksum == 0 && header.urgentPointer == 0
    ensures unchanged(header`srcPort, header`dstPort, header`seqNo, header`ack)
  {
    header.dOffset := 5 * 0x10;
    header.flags := 0x18;
    header.window := 0xff * 0x100;
    header.chksum := 0;
    header.urgentPointer := 0;
  }

  method ConvertByteOrder(data: array<Byte>, at: nat, val: Long)
    requires at + 4 <= data.Length
    modifies data
    ensures data[at] == ByteOf(val, 1) && data[at + 1] == ByteOf(val, 0)
    ensures data[at + 2] == ByteOf(val, 3) && data[at + 3] == ByteOf(val, 2)
    ensures forall i :: 0 <= i < data.Length && !(at <= i < at + 4) ==> data[i] == old(data[i])
  {
    data[at] := ByteOf(val, 1);
    data[at + 1] := ByteOf(val, 0);
    data[at + 2] := ByteOf(val, 3);
    data[at + 3] := ByteOf(val, 2);
  }

  lemma {:induction false} SwapPairsConcat(x: seq<Byte>, y: seq<Byte>)
    requires |x| % 2 == 0
    ensures SwapPairs(x + y) == SwapPairs(x) + SwapPairs(y)
  {
    var z := x + y;
    if |x| == 0 {
      assert z == y;
    } else {
      assert z[2..] == x[2..] + y && z[0] == x[0] && z[1] == x[1];
      SwapPairsConcat(x[2..], y);
    }
  }

  /** Four bytes of the scratch buffer that hold a header's four bytes pair by pair exchanged. */
  lemma Quad(s: seq<Byte>, i: nat, h: seq<Byte>)
    requires i + 4 <= |s| && |h| == 4
    requires s[i] == h[1] && s[i + 1] == h[0] && s[i + 2] == h[3] && s[i + 3] == h[2]
    ensures SwappedAt(s, i, h)
  {
    assert h[2..][2..] == [];
    assert SwapPairs(h[2..]) == [h[3], h[2]];
  }

  /** The scratch buffer holds `x` from position `i` on, pair by pair exchanged. */
  predicate SwappedAt(s: seq<Byte>, i: nat, x: seq<Byte>) {
    |x| % 2 == 0 && i + |x| <= |s| && s[i..i + |x|] == SwapPairs(x)
  }

  /** Header words put side by side. */
  lemma Join(s: seq<Byte>, i: nat, x: seq<Byte>, y: seq<Byte>)
    requires SwappedAt(s, i, x) && SwappedAt(s, i + |x|, y)
    ensures SwappedAt(s, i, x + y)
  {
    SwapPairsConcat(x, y);
    assert s[i..i + |x + y|] == s[i..i + |x|] + s[i + |x|..i + |x| + |y|];
  }

  lemma Join5(s: seq<Byte>, i: nat, a: seq<Byte>, b: seq<Byte>, c: seq<Byte>, d: seq<Byte>, e: seq<Byte>)
    requires |a| == |b| == |c| == |d| == |e| == 4
    requires SwappedAt(s, i, a) && SwappedAt(s, i + 4, b) && SwappedAt(s, i + 8, c)
    requires SwappedAt(s, i + 12, d) && SwappedAt(s, i + 16, e)
    ensures SwappedAt(s, i, a + b + c + d + e)
  {
    Join(s, i, a, b);
    Join(s, i, a + b, c);
    Join(s, i, a + b + c, d);
    Join(s, i, a + b + c + d, e);
  }

  method FillPseudo(checkBuf: array<Byte>, ip: IpHdr, payloadLen: nat)
    requires payloadLen <= MAX_PAYLOAD && checkBuf.Length >= 32
    modifies checkBuf
    ensures checkBuf[..12] == SwapPairs(Pseudo(ip, payloadLen + 20))
  {
    ConvertByteOrder(checkBuf, 0, ip.srcIp);
    ConvertByteOrder(checkBuf, 4, ip.dstIp);
    checkBuf[8] := ip.protocol;
    checkBuf[9] := 0;
    checkBuf[10] := (payloadLen + 20) % 0x100;
    checkBuf[11] := (payloadLen + 20) / 0x100;
    ghost var s := checkBuf[..];
    ghost var len := [0, ip.protocol, High(payloadLen + 20), Low(payloadLen + 20)];
    Quad(s, 0, Bytes32(ip.srcIp));
    Quad(s, 4, Bytes32(ip.dstIp));
    Quad(s, 8, len);
    Join(s, 0, Bytes32(ip.srcIp), Bytes32(ip.dstIp));
    Join(s, 0, Bytes32(ip.srcIp) + Bytes32(ip.dstIp), len);
  }

  method FillTcpWords(checkBuf: array<Byte>, tcp: TcpHdr)
    requires checkBuf.Length >= 32 && tcp.chksum == 0 && tcp.urgentPointer == 0
    modifies checkBuf
    ensures checkBuf[12..32] == SwapPairs(tcp.Bytes())
    ensures checkBuf[..12] == old(checkBuf[..12])
  {
    checkBuf[12] := High(tcp.srcPort);
    checkBuf[13] := Low(tcp.srcPort);
    checkBuf[14] := High(tcp.dstPort);
    checkBuf[15] := Low(tcp.dstPort);
    ConvertByteOrder(checkBuf, 16, tcp.seqNo);
    ConvertByteOrder(checkBuf, 20, tcp.ack);
    checkBuf[24] := tcp.flags;
    checkBuf[25] := tcp.dOffset;
    checkBuf[26] := High(tcp.window);
    checkBuf[27] := Low(tcp.window);
    checkBuf[28] := 0;
    checkBuf[29] := 0;
    checkBuf[30] := 0;
    checkBuf[31] := 0;
    TcpQuads(checkBuf[..], tcp);
  }

  lemma TcpQuads(s: seq<Byte>, tcp: TcpHdr)
    requires |s| >= 32
    requires s[12] == High(tcp.srcPort) && s[13] == Low(tcp.srcPort)
    requires s[14] == High(tcp.dstPort) && s[15] == Low(tcp.dstPort)
    requires s[16] == ByteOf(tcp.seqNo, 1) && s[17] == ByteOf(tcp.seqNo, 0)
    requires s[18] == ByteOf(tcp.seqNo, 3) && s[19] == ByteOf(tcp.seqNo, 2)
    requires s[20] == ByteOf(tcp.ack, 1) && s[21] == ByteOf(tcp.ack, 0)
    requires s[22] == ByteOf(tcp.ack, 3) && s[23] == ByteOf(tcp.ack, 2)
    requires s[24] == tcp.flags && s[25] == tcp.dOffset && s[26] == High(tcp.window) && s[27] == Low(tcp.window)
    requires s[28] == High(tcp.chksum) && s[29] == Low(tcp.chksum)
    requires s[30] == High(tcp.urgentPointer) && s[31] == Low(tcp.urgentPointer)
    ensures s[12..32] == SwapPairs(tcp.Bytes())
  {
    var ports, window, tail := Bytes16(tcp.srcPort) + Bytes16(tcp.dstPort),
      [tcp.dOffset, tcp.flags] + Bytes16(tcp.window), Bytes16(tcp.chksum) + Bytes16(tcp.urgentPointer);
    Quad(s, 12, ports);
    Quad(s, 16, Bytes32(tcp.seqNo));
    Quad(s, 20, Bytes32(tcp.ack));
    Quad(s, 24, window);
    Quad(s, 28, tail);
    Join5(s, 12, ports, Bytes32(tcp.seqNo), Bytes32(tcp.ack), window, tail);
  }

  /** `payloadLen + 1 >> 1 << 1` */
  function RoundUp(n: nat): nat {
    (n + 1) / 2 * 2
  }

  method FillPayload(checkBuf: array<Byte>, tcpPayload: array<Byte>, payloadLen: nat, ghost w: seq<Byte>)
    requires payloadLen <= tcpPayload.Length && checkBuf.Length == 32 + |w| && checkBuf != tcpPayload
    requires w == SwapPairs(tcpPayload[..payloadLen])
    modifies checkBuf
    ensures forall j :: 0 <= j < |w| ==> checkBuf[32 + j] == w[j]
    ensures forall j :: 0 <= j < 32 ==> checkBuf[j] == old(checkBuf[j])
  {
    var even := if payloadLen % 2 == 0 then payloadLen else (payloadLen - 1) / 2 * 2;
    ghost var half := 0;
    assert even == payloadLen / 2 * 2 && (even == payloadLen || even == payloadLen - 1);
    var i := 0;
    while i < even
      invariant i == 2 * half && half <= payloadLen / 2
      invariant forall j :: 0 <= j < i ==> checkBuf[32 + j] == w[j]
      invariant forall j :: 0 <= j < 32 ==> checkBuf[j] == old(checkBuf[j])
    {
      PairAt(tcpPayload[..payloadLen], i, half);
      checkBuf[32 + i] := tcpPayload[i + 1];
      checkBuf[32 + i + 1] := tcpPayload[i];
      i := i + 2;
      half := half + 1;
    }
    if payloadLen - even != 0 {
      PairAt(tcpPayload[..payloadLen], even, half);
      checkBuf[32 + even] := 0;
      checkBuf[32 + even + 1] := tcpPayload[payloadLen - 1];
    }
  }

  lemma PairAt(b: seq<Byte>, i: nat, half: nat)
    requires i < |b| && i == 2 * half
    ensures i + 1 < |SwapPairs(b)|
    ensures SwapPairs(b)[i] == (if i + 1 < |b| then b[i + 1] else 0) && SwapPairs(b)[i + 1] == b[i]
  {
    SwapPairsAt(b, i);
    SwapPairsAt(b, i + 1);
  }

  /** `fill_tcp_check_buffer` lays out the covered bytes, word by word exchanged, an odd last byte
      padded. */
  method FillTcpCheckBuffer(checkBuf: array<Byte>, ip: IpHdr, tcp: TcpHdr, tcpPayload: array<Byte>, payloadLen: nat)
    requires payloadLen <= MAX_PAYLOAD && payloadLen <= tcpPayload.Length
    requires checkBuf.Length == 32 + RoundUp(payloadLen) && checkBuf != tcpPayload
    requires tcp.chksum == 0 && tcp.urgentPointer == 0
    modifies checkBuf
    ensures checkBuf[..] == SwapPairs(Covered(ip, tcp, tcpPayload[..payloadLen]))
  {
    FillPseudo(checkBuf, ip, payloadLen);
    FillTcpWords(checkBuf, tcp);
    ghost var p := tcpPayload[..payloadLen];
    ghost var header := checkBuf[..32];
    FillPayload(checkBuf, tcpPayload, payloadLen, SwapPairs(p));
    assert checkBuf[..32] == header;
    assert checkBuf[32..] == SwapPairs(p);
    ghost var pseudo, h := Pseudo(ip, payloadLen + 20), tcp.Bytes();
    SwapPairsConcat(pseudo, h);
    SwapPairsConcat(pseudo + h, p);
    assert checkBuf[..] == header[..12] + header[12..] + checkBuf[32..];
  }

  /** `fill_ip_checkbuf` lays out the IP header, word by word exchanged. */
  method FillIpCheckBuf(buf: array<Byte>, ip: IpHdr)
    requires buf.Length >= 20 && ip.hdrChksum == 0
    modifies buf
    ensures buf[..20] == SwapPairs(ip.Bytes())
  {
    buf[1] := ip.verIhl;
    buf[0] := ip.serviceType;
    buf[2] := High(ip.totalLength);
    buf[3] := Low(ip.totalLength);
    buf[4] := High(ip.identification);
    buf[5] := Low(ip.identification);
    buf[6] := High(ip.flagsFragmentOffset);
    buf[7] := Low(ip.flagsFragmentOffset);
    buf[9] := ip.time2live;
    buf[8] := ip.protocol;
    buf[10] := 0;
    buf[11] := 0;
    ConvertByteOrder(buf, 12, ip.srcIp);
    ConvertByteOrder(buf, 16, ip.dstIp);
    IpQuads(buf[..], ip);
  }

  lemma IpQuads(s: seq<Byte>, ip: IpHdr)
    requires |s| >= 20
    requires s[0] == ip.serviceType && s[1] == ip.verIhl && s[2] == High(ip.totalLength) && s[3] == Low(ip.totalLength)
    requires s[4] == High(ip.identification) && s[5] == Low(ip.identification)
    requires s[6] == High(ip.flagsFragmentOffset) && s[7] == Low(ip.flagsFragmentOffset)
    requires s[8] == ip.protocol && s[9] == ip.time2live && s[10] == High(ip.hdrChksum) && s[11] == Low(ip.hdrChksum)
    requires s[12] == ByteOf(ip.srcIp, 1) && s[13] == ByteOf(ip.srcIp, 0)
    requires s[14] == ByteOf(ip.srcIp, 3) && s[15] == ByteOf(ip.srcIp, 2)
    requires s[16] == ByteOf(ip.dstIp, 1) && s[17] == ByteOf(ip.dstIp, 0)
    requires s[18] == ByteOf(ip.dstIp, 3) && s[19] == ByteOf(ip.dstIp, 2)
    ensures s[..20] == SwapPairs(ip.Bytes())
  {
    var first, second, third := [ip.verIhl, ip.serviceType] + Bytes16(ip.totalLength),
      Bytes16(ip.identification) + Bytes16(ip.flagsFragmentOffset), [ip.time2live, ip.protocol] + Bytes16(ip.hdrChksum);
    Quad(s, 0, first);
    Quad(s, 4, second);
    Quad(s, 8, third);
    Quad(s, 12, Bytes32(ip.srcIp));
    Quad(s, 16, Bytes32(ip.dstIp));
    Join5(s, 0, first, second, third, Bytes32(ip.srcIp), Bytes32(ip.dstIp));
  }

  // ---- Storing the checksum ----------------------------------------------------------------

  lemma StoredBytesVerify(b: seq<Byte>, k: nat, c: Word, hi: Byte, lo: Byte)
    requires k + 1 < |b| && k % 2 == 0 && b[k] == 0 && b[k + 1] == 0
    requires c == Complement(SwapPairs(b)) && hi == High(c) && lo == Low(c)
    ensures OnesBig(SetWord(b, k, hi, lo)) == M
  {
    PairAt(b, k, k / 2);
    SetWordSwap(b, k, hi, lo);
    InsertedChecksumVerifies(SwapPairs(b), k);
    SwappedSum(SetWord(b, k, hi, lo));
  }

  /** The checksum of the exchanged buffer, stored through `htons` into a zeroed word of the
      buffer itself, makes that buffer check. */
  lemma StoredChecksumVerifies(b: seq<Byte>, k: nat, field: Word)
    requires k + 1 < |b| && k % 2 == 0 && b[k] == 0 && b[k + 1] == 0
    requires field == Swap(Complement(SwapPairs(b)))
    ensures OnesBig(SetWord(b, k, Low(field), High(field))) == M
  {
    StoredBytesVerify(b, k, Complement(SwapPairs(b)), Low(field), High(field));
  }

  lemma SwapComplement(w: Word)
    ensures Swap(M - w) == M - Swap(w) && Swap(Swap(w)) == w
  {
    assert Low(M - w) == 0xff - Low(w) && High(M - w) == 0xff - High(w);
  }

  /** The two files' methods agree on every buffer: checksumming the exchanged buffer and storing
      through `htons`, or checksumming the buffer as it lies in memory and storing directly. */
  lemma SwapEquivalence(b: seq<Byte>)
    ensures Swap(Complement(SwapPairs(b))) == Complement(b)
  {
    SwappedSum(b);
    ByteOrderIndependence(b);
    SwapComplement(OnesLittle(b));
    SwapComplement(OnesBig(b));
  }

  /** Values pass through a signed `short` between `cal_checksum` and `htons`. */
  function ToShort(w: Word): int {
    if w < 0x8000 then w else w - 0x1_0000
  }

  function Htons(s: int): Word
    requires -0x8000 <= s < 0x8000
  {
    Swap(if s < 0 then s + 0x1_0000 else s)
  }

  // ---- The reply frame ---------------------------------------------------------------------

  /** A loopback capture starts with the 32-bit value 2, an Ethernet capture with its header. */
  predicate Loopback(f: seq<Byte>)
    requires |f| >= 4
    ensures Loopback(f) <==> f[..4] == [2, 0, 0, 0]
  {
    Load32(f[0], f[1], f[2], f[3]) == 2
  }

  /** The capture reaches at least to the acknowledgement number of the TCP header. */
  predicate Complete(f: seq<Byte>) {
    |f| >= 4 && |f| >= (if f[..4] == [2, 0, 0, 0] then 36 else 46)
  }

  /** The IP packet in the capture. */
  function Packet(f: seq<Byte>): (p: seq<Byte>)
    requires Complete(f)
    ensures |p| >= 32
    ensures p == if f[..4] == [2, 0, 0, 0] then f[4..] else f[14..]
  {
    if Loopback(f) then f[4..] else f[14..]
  }

  /** The fields taken over from the request `p`, as they are loaded: both addresses and both ports
      change places, the acknowledgement number comes back as the sequence number; the identification
      and the acknowledgement number are counted on, in the byte order in which they lie there. */
  predicate FieldsFrom(ip: IpHdr, tcp: TcpHdr, p: seq<Byte>, blen: int)
    requires |p| >= 32
    reads ip, tcp
  {
    && ip.identification == (Load16(p[4], p[5]) + 1) % 0x1_0000
    && ip.srcIp == Load32(p[16], p[17], p[18], p[19])
    && ip.dstIp == Load32(p[12], p[13], p[14], p[15])
    && tcp.srcPort == Load16(p[22], p[23])
    && tcp.dstPort == Load16(p[20], p[21])
    && tcp.seqNo == Load32(p[28], p[29], p[30], p[31])
    && tcp.ack == (Load32(p[24], p[25], p[26], p[27]) + blen - 44) % W32
  }

  /** What becomes of the padding and the Ethernet header: a loopback capture leaves its four bytes at
      the end, an Ethernet capture its two addresses exchanged and its type. */
  function PreFrom(pre: seq<Byte>, f: seq<Byte>): (pre': seq<Byte>)
    requires |pre| == 16 && Complete(f)
    ensures |pre'| == 16
    ensures f[..4] == [2, 0, 0, 0] ==> pre'[12..] == [2, 0, 0, 0] && pre'[..12] == pre[..12]
    ensures f[..4] != [2, 0, 0, 0] ==>
      pre'[2..8] == f[6..12] && pre'[8..14] == f[..6] && pre'[14..] == f[12..14] && pre'[..2] == pre[..2]
  {
    if Loopback(f) then pre[..12] + f[..4] else pre[..2] + f[6..12] + f[..6] + f[12..14]
  }

  /** Lines 23 to 31: where the IP packet starts, and the reply's Ethernet header. */
  method ReadLink(pre: array<Byte>, bytes: array<Byte>) returns (off: nat)
    requires Complete(bytes[..]) && pre.Length == 16 && bytes != pre
    modifies pre
    ensures off + 32 <= bytes.Length && bytes[off..] == Packet(bytes[..])
    ensures pre[..] == PreFrom(old(pre[..]), bytes[..])
  {
    ghost var f, was := bytes[..], pre[..];
    off := 14;
    if Load32(bytes[0], bytes[1], bytes[2], bytes[3]) == 2 {
      forall i | 0 <= i < 4 {
        pre[12 + i] := bytes[i];
      }
      off := 4;
      assert pre[..] == was[..12] + f[..4];
    } else {
      forall i | 0 <= i < 6 {
        pre[2 + i] := bytes[6 + i];
      }
      forall i | 0 <= i < 6 {
        pre[8 + i] := bytes[i];
      }
      pre[14], pre[15] := bytes[12], bytes[13];
      assert pre[..] == was[..2] + f[6..12] + f[..6] + f[12..14];
    }
  }

  /** Lines 23 to 39 of `tcp_rep_frame`: what is read from the capture. */
  method ReadRequest(hf: TcpFrame, bytes: array<Byte>, blen: int)
    requires Complete(bytes[..]) && hf.pre.Length == 16 && bytes != hf.pre
    modifies hf.pre, hf.ipHeader, hf.tcpHeader
    ensures FieldsFrom(hf.ipHeader, hf.tcpHeader, Packet(bytes[..]), blen)
    ensures hf.pre[..] == PreFrom(old(hf.pre[..]), bytes[..])
    ensures bytes[..4] == [2, 0, 0, 0] ==>
      hf.pre[12..] == [2, 0, 0, 0] && hf.pre[..12] == old(hf.pre[..12])
    ensures bytes[..4] != [2, 0, 0, 0] ==>
      && hf.pre[2..8] == bytes[6..12] && hf.pre[8..14] == bytes[..6] && hf.pre[14..] == bytes[12..14]
      && hf.pre[..2] == old(hf.pre[..2])
    ensures var p := if bytes[..4] == [2, 0, 0, 0] then bytes[4..] else bytes[14..];
      && hf.ipHeader.Bytes()[12..16] == p[16..20] && hf.ipHeader.Bytes()[16..20] == p[12..16]
  {
    ghost var f, pre := bytes[..], hf.pre[..];
    var off := ReadLink(hf.pre, bytes);
    assert hf.pre[..] == PreFrom(pre, f);
    ReadFields(hf, bytes, off, blen);
    MirrorBytes(hf.ipHeader, hf.tcpHeader, Packet(f), blen);
  }

  method ReadFields(hf: TcpFrame, bytes: array<Byte>, off: nat, blen: int)
    requires off + 32 <= bytes.Length
    modifies hf.ipHeader, hf.tcpHeader
    ensures FieldsFrom(hf.ipHeader, hf.tcpHeader, bytes[off..], blen)
  {
    var ip, tcp := hf.ipHeader, hf.tcpHeader;
    ip.identification := (Load16(bytes[off + 4], bytes[off + 5]) + 1) % 0x1_0000;
    ip.srcIp := Load32(bytes[off + 16], bytes[off + 17], bytes[off + 18], bytes[off + 19]);
    ip.dstIp := Load32(bytes[off + 12], bytes[off + 13], bytes[off + 14], bytes[off + 15]);
    var t := off + 20;
    tcp.srcPort := Load16(bytes[t + 2], bytes[t + 3]);
    tcp.dstPort := Load16(bytes[t], bytes[t + 1]);
    tcp.seqNo := Load32(bytes[t + 8], bytes[t + 9], bytes[t + 10], bytes[t + 11]);
    tcp.ack := (Load32(bytes[t + 4], bytes[t + 5], bytes[t + 6], bytes[t + 7]) + blen - 44) % W32;
  }

  /** The fields taken over, as they lie in memory. */
  lemma MirrorBytes(ip: IpHdr, tcp: TcpHdr, p: seq<Byte>, blen: int)
    requires |p| >= 32 && FieldsFrom(ip, tcp, p, blen)
    ensures var i, t := ip.Bytes(), tcp.Bytes();
      && i[12..16] == p[16..20] && i[16..20] == p[12..16]
      && t[0..2] == p[22..24] && t[2..4] == p[20..22] && t[4..8] == p[28..32]
  {
    LoadedBytes(p[16], p[17], p[18], p[19]);
    LoadedBytes(p[12], p[13], p[14], p[15]);
    LoadedBytes(p[28], p[29], p[30], p[31]);
    SwapLittle(p[22], p[23]);
    SwapLittle(p[20], p[21]);
    assert ip.Bytes()[12..16] == Bytes32(ip.srcIp) && ip.Bytes()[16..20] == Bytes32(ip.dstIp);
    assert tcp.Bytes()[0..2] == Bytes16(tcp.srcPort) && tcp.Bytes()[2..4] == Bytes16(tcp.dstPort);
    assert tcp.Bytes()[4..8] == Bytes32(tcp.seqNo);
  }

  /** The two fields that are counted on, read back from the reply's bytes. */
  lemma CountedBytes(ip: IpHdr, tcp: TcpHdr, p: seq<Byte>, blen: int)
    requires |p| >= 32 && FieldsFrom(ip, tcp, p, blen)
    ensures var i, t := ip.Bytes(), tcp.Bytes();
      && Load16(i[4], i[5]) == (Load16(p[4], p[5]) + 1) % 0x1_0000
      && Load32(t[8], t[9], t[10], t[11]) == (Load32(p[24], p[25], p[26], p[27]) + blen - 44) % 0x1_0000_0000
  {
    var i, t := ip.Bytes(), tcp.Bytes();
    WordBytes(ip.identification);
    BytesLoaded(tcp.ack);
    assert i[4] == Low(ip.identification) && i[5] == High(ip.identification);
    assert t[8..12] == Bytes32(tcp.ack);
    assert t[8] == t[8..12][0] && t[9] == t[8..12][1] && t[10] == t[8..12][2] && t[11] == t[8..12][3];
  }

  /** Both, with the packet found in the capture. */
  lemma HeaderBytes(ip: IpHdr, tcp: TcpHdr, f: seq<Byte>, blen: int)
    requires Complete(f) && FieldsFrom(ip, tcp, Packet(f), blen)
    ensures var i, t := ip.Bytes(), tcp.Bytes();
      var p := if f[..4] == [2, 0, 0, 0] then f[4..] else f[14..];
      && i[12..16] == p[16..20] && i[16..20] == p[12..16]
      && t[0..2] == p[22..24] && t[2..4] == p[20..22] && t[4..8] == p[28..32]
      && Load16(i[4], i[5]) == (Load16(p[4], p[5]) + 1) % 0x1_0000
      && Load32(t[8], t[9], t[10], t[11]) == (Load32(p[24], p[25], p[26], p[27]) + blen - 44) % 0x1_0000_0000
  {
    MirrorBytes(ip, tcp, Packet(f), blen);
    CountedBytes(ip, tcp, Packet(f), blen);
  }

  /** The covered bytes, written out: the addresses as they lie in the IP header, a zero, the protocol,
      the length of header and data, the TCP header and the data. */
  lemma CoveredBytes(ip: IpHdr, tcp: TcpHdr, data: seq<Byte>)
    requires |data| <= MAX_PAYLOAD && ip.protocol == 6
    ensures var len := |data| + 20;
      Covered(ip, tcp, data) ==
        ip.Bytes()[12..20] + [0, 6, len / 0x100, len % 0x100] + tcp.Bytes() + data
  {
    assert ip.Bytes()[12..20] == Bytes32(ip.srcIp) + Bytes32(ip.dstIp);
  }

  /** The TCP checksum, lines 49 to 51. */
  method StoreTcpChecksum(checkBuf: array<Byte>, ip: IpHdr, tcp: TcpHdr, payload: array<Byte>, payloadLen: nat)
    requires payloadLen <= MAX_PAYLOAD && payloadLen <= payload.Length
    requires checkBuf.Length == 32 + RoundUp(payloadLen) && checkBuf != payload
    requires tcp.chksum == 0 && tcp.urgentPointer == 0
    modifies checkBuf, tcp`chksum
    ensures OnesBig(Covered(ip, tcp, payload[..payloadLen])) == M
  {
    FillTcpCheckBuffer(checkBuf, ip, tcp, payload, payloadLen);
    ghost var b := Covered(ip, tcp, payload[..payloadLen]);
    assert checkBuf[..checkBuf.Length] == checkBuf[..] == SwapPairs(b);
    ShortBuffersFit(SwapPairs(b));
    var sum := CalChecksum(checkBuf, 32 + RoundUp(payloadLen));
    var chksum := ToShort(sum);
    tcp.chksum := Htons(chksum);
    assert b[28] == 0 && b[29] == 0;
    StoredChecksumVerifies(b, 28, tcp.chksum);
    assert Covered(ip, tcp, payload[..payloadLen]) == SetWord(b, 28, Low(tcp.chksum), High(tcp.chksum));
  }

  /** The assignment to the checksum field, seen from the header's bytes. */
  method SetIpChecksum(ip: IpHdr, w: Word)
    requires ip.hdrChksum == 0
    modifies ip`hdrChksum
    ensures ip.hdrChksum == w
    ensures old(ip.Bytes())[10] == 0 && old(ip.Bytes())[11] == 0
    ensures ip.Bytes() == SetWord(old(ip.Bytes()), 10, Low(w), High(w))
  {
    ip.hdrChksum := w;
  }

  /** The IP header checksum, lines 52 to 54. */
  method StoreIpChecksum(checkBuf: array<Byte>, ip: IpHdr)
    requires checkBuf.Length >= 20 && ip.hdrChksum == 0
    modifies checkBuf, ip`hdrChksum
    ensures OnesBig(ip.Bytes()) == M
    ensures ip.hdrChksum == Complement(old(ip.Bytes()))
  {
    FillIpCheckBuf(checkBuf, ip);
    ghost var b := ip.Bytes();
    ShortBuffersFit(SwapPairs(b));
    var sum := CalChecksum(checkBuf, 20);
    var chksum := ToShort(sum);
    SetIpChecksum(ip, Htons(chksum));
    StoredChecksumVerifies(b, 10, ip.hdrChksum);
    SwapEquivalence(b);
  }

  /** The fixed fields. */
  predicate Fixed(ip: IpHdr, tcp: TcpHdr, payloadLen: nat)
    requires payloadLen <= MAX_PAYLOAD
    reads ip, tcp
  {
    && ip.verIhl == 0x45 && ip.serviceType == 0 && ip.totalLength == Swap(40 + payloadLen)
    && ip.flagsFragmentOffset == 0x40 && ip.time2live == 0x32 && ip.protocol == PROTO_TCP
    && tcp.dOffset == 0x50 && tcp.flags == 0x18 && tcp.window == 0xff00 && tcp.urgentPointer == 0
  }

  /** The fixed fields as a receiver reads them (section 3.1 of RFC 791, section 3.1 of RFC 9293): version
      4, five header words, the true length, not to be fragmented; five header words, PSH and ACK, a
      window of 255 and no urgent data. */
  predicate FixedOnWire(i: seq<Byte>, t: seq<Byte>, payloadLen: nat)
    requires |i| == 20 && |t| == 20
  {
    && i[0] == 0x45 && i[1] == 0 && Big(i[2], i[3]) == 40 + payloadLen
    && i[6] == 0x40 && i[7] == 0 && i[8] == 50 && i[9] == PROTO_TCP
    && t[12] == 0x50 && t[13] == 0x18 && Big(t[14], t[15]) == 255 && Big(t[18], t[19]) == 0
  }

  lemma FixedBytes(ip: IpHdr, tcp: TcpHdr, payloadLen: nat)
    requires payloadLen <= MAX_PAYLOAD && Fixed(ip, tcp, payloadLen)
    ensures FixedOnWire(ip.Bytes(), tcp.Bytes(), payloadLen)
  {
    WordBytes(40 + payloadLen);
    assert ip.Bytes()[2] == Low(ip.totalLength) && ip.Bytes()[3] == High(ip.totalLength);
  }

  /** Lines 44 to 47: the fixed fields, around what was read from the capture. */
  method FillHeaders(ip: IpHdr, tcp: TcpHdr, payloadLen: nat, ghost p: seq<Byte>, ghost blen: int)
    requires payloadLen <= MAX_PAYLOAD && |p| >= 32 && FieldsFrom(ip, tcp, p, blen)
    modifies ip, tcp
    ensures FieldsFrom(ip, tcp, p, blen) && Fixed(ip, tcp, payloadLen)
    ensures tcp.chksum == 0 && ip.hdrChksum == 0
  {
    FillTcpHeader(tcp);
    FillIpHeader(ip, payloadLen);
    tcp.flags := 0x18;
  }

  /** Lines 49 to 54: both checksums, over one scratch buffer. */
  method StoreChecksums(ip: IpHdr, tcp: TcpHdr, payload: array<Byte>, payloadLen: nat,
      ghost p: seq<Byte>, ghost blen: int)
    requires payloadLen <= MAX_PAYLOAD && payloadLen <= payload.Length && |p| >= 32
    requires tcp.chksum == 0 && ip.hdrChksum == 0
    requires FieldsFrom(ip, tcp, p, blen) && Fixed(ip, tcp, payloadLen)
    modifies ip`hdrChksum, tcp`chksum
    ensures FieldsFrom(ip, tcp, p, blen) && Fixed(ip, tcp, payloadLen)
    ensures OnesBig(ip.Bytes()) == M
    ensures OnesBig(Covered(ip, tcp, payload[..payloadLen])) == M
  {
    var checkBuf := new Byte[32 + RoundUp(payloadLen)];
    StoreTcpChecksum(checkBuf, ip, tcp, payload, payloadLen);
    ghost var covered := Covered(ip, tcp, payload[..payloadLen]);
    StoreIpChecksum(checkBuf, ip);
    assert Covered(ip, tcp, payload[..payloadLen]) == covered;
  }

  /** Both headers, with their checksums: all of `tcp_rep_frame` but the final copy. */
  method BuildHeaders(hf: TcpFrame, bytes: array<Byte>, blen: int, payload: array<Byte>, payloadLen: nat)
    requires Complete(bytes[..]) && payloadLen <= MAX_PAYLOAD && payloadLen <= payload.Length
    requires hf.pre.Length == 16 && bytes != hf.pre && payload != hf.pre
    modifies hf.pre, hf.ipHeader, hf.tcpHeader
    ensures OnesBig(hf.ipHeader.Bytes()) == M
    ensures OnesBig(Covered(hf.ipHeader, hf.tcpHeader, payload[..payloadLen])) == M
    ensures FieldsFrom(hf.ipHeader, hf.tcpHeader, Packet(bytes[..]), blen)
    ensures Fixed(hf.ipHeader, hf.tcpHeader, payloadLen)
    ensures hf.pre[..] == PreFrom(old(hf.pre[..]), bytes[..])
  {
    ghost var p := Packet(bytes[..]);
    ReadRequest(hf, bytes, blen);
    FillHeaders(hf.ipHeader, hf.tcpHeader, payloadLen, p, blen);
    StoreChecksums(hf.ipHeader, hf.tcpHeader, payload, payloadLen, p, blen);
  }

  /** The final copy. */
  method CopyPayload(dst: array<Byte>, payload: array<Byte>, payloadLen: nat)
    requires payloadLen <= payload.Length && payloadLen <= dst.Length && dst != payload
    modifies dst
    ensures dst[..payloadLen] == payload[..payloadLen]
    ensures dst[payloadLen..] == old(dst[payloadLen..])
  {
    forall i | 0 <= i < payloadLen {
      dst[i] := payload[i];
    }
  }

  /** `tcp_rep_frame`.  Whatever was captured and whatever the payload, both checksums of the frame
      verify at a receiver, and the frame goes back where the capture came from: a capture that starts
      with the bytes 2, 0, 0, 0 is a loopback capture with the IP packet at offset 4, any other an
      Ethernet capture with the packet at offset 14. */
  method TcpRepFrame(hf: TcpFrame, bytes: array<Byte>, blen: int, payload: array<Byte>, payloadLen: nat)
    requires Complete(bytes[..]) && payloadLen <= MAX_PAYLOAD && payloadLen <= payload.Length
    requires hf.pre.Length == 16 && hf.payload.Length == MAX_PAYLOAD
    requires hf.pre != hf.payload && bytes != hf.pre && payload != hf.pre && payload != hf.payload
    modifies hf.pre, hf.ipHeader, hf.tcpHeader, hf.payload
    ensures OnesBig(hf.ipHeader.Bytes()) == 0xffff
    ensures OnesBig(hf.ipHeader.Bytes()[12..20] + [0, 6, (payloadLen + 20) / 0x100, (payloadLen + 20) % 0x100]
      + hf.tcpHeader.Bytes() + hf.payload[..payloadLen]) == 0xffff
    ensures var i, t, f := hf.ipHeader.Bytes(), hf.tcpHeader.Bytes(), old(bytes[..]);
      var p := if f[..4] == [2, 0, 0, 0] then f[4..] else f[14..];
      && i[12..16] == p[16..20] && i[16..20] == p[12..16]
      && t[0..2] == p[22..24] && t[2..4] == p[20..22] && t[4..8] == p[28..32]
      && Load16(i[4], i[5]) == (Load16(p[4], p[5]) + 1) % 0x1_0000
      && Load32(t[8], t[9], t[10], t[11]) == (Load32(p[24], p[25], p[26], p[27]) + blen - 44) % 0x1_0000_0000
    ensures FixedOnWire(hf.ipHeader.Bytes(), hf.tcpHeader.Bytes(), payloadLen)
    ensures old(bytes[..4]) == [2, 0, 0, 0] ==>
      hf.pre[12..] == [2, 0, 0, 0] && hf.pre[..12] == old(hf.pre[..12])
    ensures old(bytes[..4]) != [2, 0, 0, 0] ==>
      && hf.pre[2..8] == old(bytes[6..12]) && hf.pre[8..14] == old(bytes[..6]) && hf.pre[14..] == old(bytes[12..14])
      && hf.pre[..2] == old(hf.pre[..2])
    ensures hf.payload[..payloadLen] == payload[..payloadLen]
    ensures hf.payload[payloadLen..] == old(hf.payload[payloadLen..])
  {
    ghost var f := bytes[..];
    ghost var pre := hf.pre[..];
    BuildHeaders(hf, bytes, blen, payload, payloadLen);
    assert hf.pre[..] == PreFrom(pre, f);
    HeaderBytes(hf.ipHeader, hf.tcpHeader, f, blen);
    FixedBytes(hf.ipHeader, hf.tcpHeader, payloadLen);
    CoveredBytes(hf.ipHeader, hf.tcpHeader, payload[..payloadLen]);
    CopyPayload(hf.payload, payload, payloadLen);
  }

  /** The IP part of example.c: the header is copied as it lies in memory, summed, and the checksum
      stored without `htons`.  The stored field is the one `StoreIpChecksum` computes. */
  method ExampleIpChecksum(ip: IpHdr)
    requires ip.hdrChksum == 0
    modifies ip`hdrChksum
    ensures ip.hdrChksum == Complement(old(ip.Bytes()))
    ensures OnesBig(ip.Bytes()) == M
  {
    var b := ip.Bytes();
    var checkBuff := new Byte[20](i requires 0 <= i < 20 => b[i]);
    assert checkBuff[..20] == b;
    ShortBuffersFit(b);
    var sum := ExampleChecksum(checkBuff, 20);
    SetIpChecksum(ip, sum);
    SwapEquivalence(b);
    StoredChecksumVerifies(b, 10, ip.hdrChksum);
  }
}
