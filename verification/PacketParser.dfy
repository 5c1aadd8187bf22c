/** The header parser of the packet capture, proved against a frame builder.
    Layouts: clause 9 of IEEE 802.1Q (tag), section 3.1 of RFC 791 (header length
    and protocol), section 3.1 of RFC 9293 (ports and sequence number). */
module PacketParser {
  import opened MachineWords
  import opened Options

  type Bytes = seq<uint8>

  /** A TCP segment over IPv4 over Ethernet, with at most one VLAN tag. Fields the parser
      does not look at are kept as raw bytes. */
  datatype Frame = Frame(
    macs: Bytes,               // destination and source, 12 bytes
    tag: Option<Bytes>,        // tag control information, 2 bytes
    version: nat,              // upper half of the first IP byte, below 16
    ipFront: Bytes,            // IP bytes 1 to 8
    ipBack: Bytes,             // IP bytes 10 to 19
    options: Bytes,            // up to 10 four-byte words
    srcPort: uint16,
    dstPort: uint16,
    tcpSeq: uint32,
    tcpBack: Bytes,            // TCP bytes 8 to 19
    payload: Bytes)

  ghost predicate WellFormed(f: Frame) {
    && |f.macs| == 12
    && (f.tag.Some? ==> |f.tag.value| == 2)
    && f.version < 16
    && |f.ipFront| == 8 && |f.ipBack| == 10
    && |f.options| % 4 == 0 && |f.options| <= 40
    && |f.tcpBack| == 12
  }

  function Be16(x: uint16): Bytes {
    [x / 0x100, x % 0x100]
  }

  function Be32(x: uint32): Bytes {
    Be16(x / 0x1_0000) + Be16(x % 0x1_0000)
  }

  function Link(f: Frame): Bytes {
    f.macs + (if f.tag.Some? then [0x81, 0x00] + f.tag.value else []) + [0x08, 0x00]
  }

  function Ip(f: Frame): Bytes
    requires f.version < 16 && |f.options| <= 40
  {
    [f.version * 16 + 5 + |f.options| / 4] + f.ipFront + [6] + f.ipBack + f.options
  }

  function Tcp(f: Frame): Bytes {
    Be16(f.srcPort) + Be16(f.dstPort) + Be32(f.tcpSeq) + f.tcpBack
  }

  function Build(f: Frame): Bytes
    requires f.version < 16 && |f.options| <= 40
  {
    Link(f) + Ip(f) + Tcp(f) + f.payload
  }

  function Word16(hi: uint8, lo: uint8): uint16 {
    hi as int * 0x100 + lo
  }

  function Word32(a: uint8, b: uint8, c: uint8, d: uint8): uint32 {
    a as int * 0x100_0000 + b as int * 0x1_0000 + c as int * 0x100 + d
  }

  /** The 16-bit and the 32-bit number in network byte order at a position. */
  function Read16(data: Bytes, i: nat): uint16
    requires i + 2 <= |data|
  {
    Word16(data[i], data[i + 1])
  }

  function Read32(data: Bytes, i: nat): uint32
    requires i + 4 <= |data|
  {
    Word32(data[i], data[i + 1], data[i + 2], data[i + 3])
  }

  ghost predicate IsFrame(data: Bytes) {
    exists f :: WellFormed(f) && Build(f) == data
  }

  /** Every frame that `data` is built from has these fields. */
  ghost predicate HasFields(data: Bytes, srcPort: uint16, dstPort: uint16, tcpSeq: uint32) {
    forall f | WellFormed(f) && Build(f) == data ::
      f.srcPort == srcPort && f.dstPort == dstPort && f.tcpSeq == tcpSeq
  }

  /** `data` is the packet and nothing else, so the bounds checks on it say that the parser
      reads only inside the packet. It succeeds exactly on built frames, and then recovers
      their ports and sequence number; otherwise it leaves the three zero. */
  method ParseTcpPacket(data: Bytes) returns (ok: bool, srcPort: uint16, dstPort: uint16, tcpSeq: uint32)
    requires |data| < 0x1_0000
    ensures ok <==> IsFrame(data)
    ensures ok ==> HasFields(data, srcPort, dstPort, tcpSeq)
    ensures !ok ==> srcPort == 0 && dstPort == 0 && tcpSeq == 0
  {
    ok, srcPort, dstPort, tcpSeq := false, 0, 0, 0;
    FramesAreThoseThatLookLikeIt(data);
    hide IsFrame, HasFields, Read16, Read32;
    if |data| < 54 {
      return;
    }
    var offset: uint16 := 0;
    var ethertype := Read16(data, 12);
    if ethertype == 0x8100 {
      offset := 18;
      ethertype := Read16(data, 16);
    } else {
      offset := 14;
    }
    assert offset == LinkLength(data) && ethertype == Read16(data, offset - 2);
    hide LinkLength;
    if ethertype != 0x0800 {
      return;
    }
    if |data| < offset + 20 {
      return;
    }
    var ihl: uint8 := (data[offset] % 16) * 4;
    assert ihl == IpLength(data);
    hide IpLength;
    if ihl < 20 {
      return;
    }
    var ipProto := data[offset + 9];
    if ipProto != 6 {
      return;
    }
    if |data| < offset + ihl + 20 {
      return;
    }
    assert LooksLikeFrame(data);
    hide LooksLikeFrame;
    var tcpOffset: uint16 := offset + ihl;
    srcPort := Read16(data, tcpOffset);
    dstPort := Read16(data, tcpOffset + 2);
    tcpSeq := Read32(data, tcpOffset + 4);
    assert srcPort == SrcPortAt(data) && dstPort == DstPortAt(data) && tcpSeq == TcpSeqAt(data);
    hide SrcPortAt, DstPortAt, TcpSeqAt;
    ok := true;
  }

  // ---- Byte positions of built frames ----

  function LinkLength(data: Bytes): nat {
    if |data| >= 14 && Read16(data, 12) == 0x8100 then 18 else 14
  }

  function IpLength(data: Bytes): nat {
    if |data| > LinkLength(data) then (data[LinkLength(data)] % 16) * 4 else 0
  }

  /** The headers are those of a TCP frame with room for the whole TCP header. */
  predicate LooksLikeFrame(data: Bytes) {
    var o := LinkLength(data);
    && |data| >= o + IpLength(data) + 20
    && IpLength(data) >= 20
    && Read16(data, o - 2) == 0x0800
    && data[o + 9] == 6
  }

  /** Where the fields are. */
  function SrcPortAt(data: Bytes): uint16
    requires LooksLikeFrame(data)
  {
    var t := LinkLength(data) + IpLength(data);
    Read16(data, t)
  }

  function DstPortAt(data: Bytes): uint16
    requires LooksLikeFrame(data)
  {
    var t := LinkLength(data) + IpLength(data);
    Read16(data, t + 2)
  }

  function TcpSeqAt(data: Bytes): uint32
    requires LooksLikeFrame(data)
  {
    var t := LinkLength(data) + IpLength(data);
    Read32(data, t + 4)
  }

  predicate Carries(data: Bytes, f: Frame)
    requires LooksLikeFrame(data)
  {
    SrcPortAt(data) == f.srcPort && DstPortAt(data) == f.dstPort && TcpSeqAt(data) == f.tcpSeq
  }

  lemma LinkBytes(f: Frame, rest: Bytes)
    requires WellFormed(f)
    ensures var data, o := Link(f) + rest, |Link(f)|;
            LinkLength(data) == o && Read16(data, o - 2) == 0x0800
  {}

  lemma IpBytes(f: Frame, rest: Bytes)
    requires WellFormed(f)
    ensures var data := Ip(f) + rest;
            |Ip(f)| == 20 + |f.options| == (data[0] % 16) * 4 && data[9] == 6
  {}

  lemma TcpBytes(f: Frame, rest: Bytes)
    requires WellFormed(f)
    ensures var data := Tcp(f) + rest;
            && |Tcp(f)| == 20
            && Word16(data[0], data[1]) == f.srcPort && Word16(data[2], data[3]) == f.dstPort
            && Word32(data[4], data[5], data[6], data[7]) == f.tcpSeq
  {}

  /** The numbers of a TCP header stand at its beginning, most significant byte first. */
  lemma TcpNumbersAreBigEndian(f: Frame)
    requires WellFormed(f)
    ensures var h := Tcp(f);
            && |h| == 20
            && f.srcPort == 0x100 * h[0] as int + h[1]
            && f.dstPort == 0x100 * h[2] as int + h[3]
            && f.tcpSeq == 0x100_0000 * h[4] as int + 0x1_0000 * h[5] as int + 0x100 * h[6] as int + h[7]
  {
    TcpBytes(f, []);
    assert Tcp(f) + [] == Tcp(f);
  }

  lemma BuiltFrameLooks(f: Frame)
    requires WellFormed(f)
    ensures var data := Build(f);
            LooksLikeFrame(data) && LinkLength(data) + IpLength(data) == |Link(f)| + |Ip(f)|
  {
    var data, link, ip, rest := Build(f), Link(f), Ip(f), Tcp(f) + f.payload;
    assert data == link + (ip + rest);
    LinkBytes(f, ip + rest);
    IpBytes(f, rest);
    TcpBytes(f, f.payload);
    hide Build, Link, Ip, Tcp, WellFormed, Word16;
    assert data[|link|] == (ip + rest)[0] && data[|link| + 9] == (ip + rest)[9];
  }

  lemma BuiltFrameCarries(f: Frame)
    requires WellFormed(f)
    ensures LooksLikeFrame(Build(f)) && Carries(Build(f), f)
  {
    var data, front, rest := Build(f), Link(f) + Ip(f), Tcp(f) + f.payload;
    BuiltFrameLooks(f);
    TcpBytes(f, f.payload);
    assert data == front + rest;
    hide Build, Link, Ip, Tcp, WellFormed, LooksLikeFrame, LinkLength, IpLength, Word16, Word32;
    var t := |front|;
    assert data[t] == rest[0] && data[t + 1] == rest[1] && data[t + 2] == rest[2] && data[t + 3] == rest[3];
    assert data[t + 4] == rest[4] && data[t + 5] == rest[5] && data[t + 6] == rest[6] && data[t + 7] == rest[7];
  }

  /** The frame that a packet looks like. */
  function FrameOf(data: Bytes): Frame
    requires LooksLikeFrame(data)
  {
    var o, t := LinkLength(data), LinkLength(data) + IpLength(data);
    Frame(
      data[..12], if o == 18 then Some(data[14..16]) else None, data[o] / 16,
      data[o + 1..o + 9], data[o + 10..o + 20], data[o + 20..t],
      Read16(data, t), Read16(data, t + 2),
      Read32(data, t + 4), data[t + 8..t + 20], data[t + 20..])
  }

  lemma FrameOfLink(data: Bytes)
    requires LooksLikeFrame(data)
    ensures Link(FrameOf(data)) == data[..LinkLength(data)]
  {}

  lemma FrameOfIp(data: Bytes)
    requires LooksLikeFrame(data)
    ensures WellFormed(FrameOf(data))
    ensures Ip(FrameOf(data)) == data[LinkLength(data)..LinkLength(data) + IpLength(data)]
  {
    var f, o, t := FrameOf(data), LinkLength(data), LinkLength(data) + IpLength(data);
    assert f.version * 16 + 5 + |f.options| / 4 == data[o];
    IpPieces(data, o, t);
  }

  lemma Join(data: Bytes, i: nat, j: nat, k: nat)
    requires i <= j <= k <= |data|
    ensures data[i..j] + data[j..k] == data[i..k]
  {}

  lemma One(data: Bytes, i: nat)
    requires i < |data|
    ensures [data[i]] == data[i..i + 1]
  {}

  lemma IpPieces(data: Bytes, o: nat, t: nat)
    requires o + 20 <= t <= |data|
    ensures [data[o]] + data[o + 1..o + 9] + [data[o + 9]] + data[o + 10..o + 20] + data[o + 20..t] == data[o..t]
  {
    One(data, o);
    One(data, o + 9);
    Join(data, o, o + 1, o + 9);
    Join(data, o, o + 9, o + 10);
    Join(data, o, o + 10, o + 20);
    Join(data, o, o + 20, t);
  }

  lemma FrameOfTcp(data: Bytes)
    requires LooksLikeFrame(data)
    ensures var t := LinkLength(data) + IpLength(data); Tcp(FrameOf(data)) == data[t..t + 20]
  {
    var f, t := FrameOf(data), LinkLength(data) + IpLength(data);
    Be16Splits(data[t], data[t + 1]);
    Be16Splits(data[t + 2], data[t + 3]);
    assert Be16(f.srcPort) == data[t..t + 2];
    assert Be16(f.dstPort) == data[t + 2..t + 4];
    Be32Splits(data[t + 4], data[t + 5], data[t + 6], data[t + 7]);
    assert Be32(f.tcpSeq) == data[t + 4..t + 8];
    hide Be16, Be32, FrameOf, LooksLikeFrame, LinkLength, IpLength;
    TcpPieces(data, t);
  }

  lemma TcpPieces(data: Bytes, t: nat)
    requires t + 20 <= |data|
    ensures data[t..t + 2] + data[t + 2..t + 4] + data[t + 4..t + 8] + data[t + 8..t + 20] == data[t..t + 20]
  {
    Join(data, t, t + 2, t + 4);
    Join(data, t, t + 4, t + 8);
    Join(data, t, t + 8, t + 20);
  }

  lemma Be16Splits(hi: uint8, lo: uint8)
    ensures Be16(Word16(hi, lo)) == [hi, lo]
  {}

  lemma Be32Splits(a: uint8, b: uint8, c: uint8, d: uint8)
    ensures Be32(Word32(a, b, c, d)) == [a, b, c, d]
  {
    var x := Word32(a, b, c, d);
    assert x == (a * 0x100 + b) * 0x1_0000 + (c * 0x100 + d);
    assert x / 0x1_0000 == a * 0x100 + b && x % 0x1_0000 == c * 0x100 + d;
  }

  lemma Pieces(data: Bytes, o: nat, t: nat)
    requires o <= t && t + 20 <= |data|
    ensures data[..o] + data[o..t] + data[t..t + 20] + data[t + 20..] == data
  {
    Join(data, 0, o, t);
    Join(data, 0, t, t + 20);
    Join(data, 0, t + 20, |data|);
  }

  /** Whatever looks like a frame is one the builder makes. */
  lemma FramesAreBuilt(data: Bytes)
    requires LooksLikeFrame(data)
    ensures WellFormed(FrameOf(data)) && Build(FrameOf(data)) == data
  {
    var f := FrameOf(data);
    FrameOfLink(data);
    FrameOfIp(data);
    FrameOfTcp(data);
    assert Build(f) == Link(f) + Ip(f) + Tcp(f) + f.payload;
    assert f.payload == data[LinkLength(data) + IpLength(data) + 20..];
    hide Build, Link, Ip, Tcp, FrameOf, WellFormed;
    Pieces(data, LinkLength(data), LinkLength(data) + IpLength(data));
  }

  /** The built frames are exactly the packets that look like one, and the fields of a frame
      are determined by its bytes. */
  lemma FramesAreThoseThatLookLikeIt(data: Bytes)
    ensures IsFrame(data) <==> LooksLikeFrame(data)
    ensures LooksLikeFrame(data) ==> HasFields(data, SrcPortAt(data), DstPortAt(data), TcpSeqAt(data))
  {
    if LooksLikeFrame(data) {
      FramesAreBuilt(data);
    }
    forall f | WellFormed(f) && Build(f) == data
      ensures LooksLikeFrame(data) && Carries(data, f)
    {
      BuiltFrameCarries(f);
    }
    hide LooksLikeFrame, WellFormed, Build;
  }
}
