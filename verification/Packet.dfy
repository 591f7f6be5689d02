/** Ethernet / IPv4 / TCP packets as MicroTcp writes and reads them. */
module Packet {
  import opened Words

  type Mac = s: seq<Byte> | |s| == 6 witness [0, 0, 0, 0, 0, 0]

  /** A connection as one side sees it: its own address first, then the peer's. */
  datatype Endpoint = Endpoint(srcIp: U32, srcPort: U16, dstIp: U32, dstPort: U16, srcMac: Mac, dstMac: Mac)
  {
    function Swap(): Endpoint {
      Endpoint(dstIp, dstPort, srcIp, srcPort, dstMac, srcMac)
    }
  }

  datatype Segment = Segment(flags: Byte, seqNo: U32, ackNo: U32, payload: seq<Byte>)

  const FIN: Byte := 0x01
  const SYN: Byte := 0x02
  const PSH: Byte := 0x08
  const ACK: Byte := 0x10

  /** The checksum words that the packet library computes; the parser never reads them. */
  datatype Checksums = Checksums(ip: U16, tcp: U16)

  /** A packet buffer: `data_len` valid bytes, then whatever memory follows them. */
  datatype Mbuf = Null | Mbuf(data: seq<Byte>, slack: seq<Byte>)

  const ETHER_LEN := 14
  const IPV4_LEN := 20
  const TCP_LEN := 20
  const HEADER_LEN := 54

  // ---------- Writing ----------

  function EtherHeader(ep: Endpoint): (s: seq<Byte>)
    ensures |s| == ETHER_LEN
  {
    ep.dstMac + ep.srcMac + ToBE(0x0800, 2)
  }

  function IpHeader(ep: Endpoint, total: U16, checksum: U16): (s: seq<Byte>)
    ensures |s| == IPV4_LEN
  {
    [0x45, 0] + ToBE(total, 2) + [0, 0, 0x40, 0, 64, 6] + ToBE(checksum, 2) + ToBE(ep.srcIp, 4) + ToBE(ep.dstIp, 4)
  }

  function TcpHeader(ep: Endpoint, flags: Byte, seqNo: U32, ackNo: U32, checksum: U16): (s: seq<Byte>)
    ensures |s| == TCP_LEN
  {
    ToBE(ep.srcPort, 2) + ToBE(ep.dstPort, 2) + ToBE(seqNo, 4) + ToBE(ackNo, 4)
    + [0x50, flags] + ToBE(65535, 2) + ToBE(checksum, 2) + [0, 0]
  }

  /** `total_len`: a 16-bit variable, so long payloads wrap. */
  function TotalLen(payloadLen: nat): (n: U16) {
    (HEADER_LEN + payloadLen) % 0x1_0000
  }

  function IpTotalLength(payloadLen: nat): (n: U16) {
    (TotalLen(payloadLen) - ETHER_LEN) % 0x1_0000
  }

  function PacketBytes(ep: Endpoint, seg: Segment, ck: Checksums): (s: seq<Byte>)
    ensures |s| == HEADER_LEN + |seg.payload|
  {
    EtherHeader(ep) + IpHeader(ep, IpTotalLength(|seg.payload|), ck.ip)
    + TcpHeader(ep, seg.flags, seg.seqNo, seg.ackNo, ck.tcp) + seg.payload
  }

  /** The buffer handed to the NIC: `data_len` is the wrapped total length. */
  function Encode(ep: Endpoint, seg: Segment, ck: Checksums): (m: Mbuf)
    ensures m.Mbuf?
  {
    var bytes := PacketBytes(ep, seg, ck);
    var n := TotalLen(|seg.payload|);
    Mbuf(bytes[..n], bytes[n..])
  }

  // ---------- Reading ----------

  /** Where the headers end: IPv4 header length and TCP data offset in bytes. */
  datatype Layout = Layout(ihl: nat, off: nat)

  function Field(s: seq<Byte>, at: nat, n: nat): nat
    requires at + n <= |s|
  {
    FromBE(s[at..at + n])
  }

  /** `parse_tcp_packet`: the bounds and type checks, in the order of the code. */
  function Parse(m: Mbuf): (r: Option<Layout>)
    ensures r.Some? ==>
              && m.Mbuf? && r.value.ihl >= IPV4_LEN && r.value.off >= TCP_LEN
              && ETHER_LEN + r.value.ihl + r.value.off <= |m.data|
  {
    if m.Null? || |m.data| < ETHER_LEN || Field(m.data, 12, 2) != 0x0800 then None
    else if |m.data| < ETHER_LEN + IPV4_LEN || m.data[23] != 6 then None
    else
      var ihl := m.data[14] % 16 * 4;
      if ihl < IPV4_LEN || |m.data| < ETHER_LEN + ihl + TCP_LEN then None
      else
        var off := m.data[ETHER_LEN + ihl + 12] / 16 * 4;
        if off < TCP_LEN || |m.data| < ETHER_LEN + ihl + off then None
        else Some(Layout(ihl, off))
  }

  /** n bytes of the buffer's memory from position `at`; memory past the model's end reads as 0. */
  function ReadMem(m: Mbuf, at: nat, n: nat): (s: seq<Byte>)
    requires m.Mbuf?
    ensures |s| == n
  {
    var mem := m.data + m.slack;
    seq(n, i requires 0 <= i < n => if at + i < |mem| then mem[at + i] else 0)
  }

  /** The front half of `process_rx`: parsing, both address filters, and the length check. */
  function Receive(ep: Endpoint, m: Mbuf): (r: Option<Segment>)
    ensures r.Some? ==> |r.value.payload| < TWO16
  {
    match Parse(m)
    case None => None
    case Some(Layout(ihl, off)) =>
      var t := ETHER_LEN + ihl;
      if Field(m.data, 30, 4) != ep.srcIp || Field(m.data, t + 2, 2) != ep.srcPort then None
      else if Field(m.data, 26, 4) != ep.dstIp || Field(m.data, t, 2) != ep.dstPort then None
      else
        var ipLen := Field(m.data, 16, 2);
        if ipLen < ihl + off then None
        else
          Pow256Values();
          Some(Segment(m.data[t + 13], Field(m.data, t + 4, 4), Field(m.data, t + 8, 4),
                       ReadMem(m, t + off, ipLen - ihl - off)))
  }

  // ---------- Reading, byte by byte ----------

  /** The total length field, high byte first. */
  function Length16(d: seq<Byte>): nat
    requires |d| >= 18
  {
    (d[16] as int) * 256 + d[17]
  }

  lemma WordIs(s: seq<Byte>, x: nat, k: nat)
    requires |s| == k && x < Pow256(k)
    ensures FromBE(s) == x <==> s == ToBE(x, k)
  {
    FromToBE(x, k);
    ToFromBE(s);
  }

  lemma FieldIs(s: seq<Byte>, at: nat, k: nat, x: nat)
    requires at + k <= |s| && k in {2, 4} && x < if k == 2 then TWO16 else TWO32
    ensures Field(s, at, k) == x <==> s[at..at + k] == ToBE(x, k)
  {
    Pow256Values();
    WordIs(s[at..at + k], x, k);
  }

  lemma ShortField(s: seq<Byte>, at: nat)
    requires at + 2 <= |s|
    ensures Field(s, at, 2) == (s[at] as int) * 256 + s[at + 1]
  {
    assert s[at..at + 2] == [s[at], s[at + 1]];
    TwoBytes(s[at], s[at + 1]);
  }

  /** The headers lie in the valid data, the IPv4 header taking ihl bytes and the TCP header off bytes. */
  predicate HeadersFit(d: seq<Byte>, ihl: nat, off: nat) {
    && |d| >= 34 && d[12] == 8 && d[13] == 0 && d[23] == 6
    && ihl == d[14] % 16 * 4 && ihl >= 20 && |d| >= 14 + ihl + 20
    && off == d[14 + ihl + 12] / 16 * 4 && off >= 20 && |d| >= 14 + ihl + off
  }

  lemma ParseExact(d: seq<Byte>, slack: seq<Byte>, ihl: nat, off: nat)
    ensures Parse(Mbuf(d, slack)) == Some(Layout(ihl, off)) <==> HeadersFit(d, ihl, off)
  {
    hide Field;
    if |d| >= 14 { ShortField(d, 12); }
  }

  lemma FilterExact(ep: Endpoint, d: seq<Byte>, slack: seq<Byte>, ihl: nat, off: nat)
    requires Parse(Mbuf(d, slack)) == Some(Layout(ihl, off))
    ensures Receive(ep, Mbuf(d, slack)).Some? <==>
              && d[26..30] == ToBE(ep.dstIp, 4) && d[30..34] == ToBE(ep.srcIp, 4)
              && d[14 + ihl..16 + ihl] == ToBE(ep.dstPort, 2) && d[16 + ihl..18 + ihl] == ToBE(ep.srcPort, 2)
              && Length16(d) >= ihl + off
  {
    hide Parse, Field, ToBE, ReadMem;
    FieldIs(d, 26, 4, ep.dstIp);
    FieldIs(d, 30, 4, ep.srcIp);
    FieldIs(d, 14 + ihl, 2, ep.dstPort);
    FieldIs(d, 16 + ihl, 2, ep.srcPort);
    ShortField(d, 16);
  }

  /**
   * A packet is taken as a segment of this connection exactly if it is IPv4 and TCP, both header lengths are at least
   * 20 and lie inside the valid data, the source is the peer's address and port and the destination our own, and the
   * total length covers the headers. Options in either header and padding behind the segment are allowed.
   */
  lemma ReceiveExact(ep: Endpoint, d: seq<Byte>, slack: seq<Byte>)
    ensures Receive(ep, Mbuf(d, slack)).Some? <==>
              && |d| >= 34 && d[12] == 8 && d[13] == 0 && d[23] == 6
              && var ihl := d[14] % 16 * 4;
              && ihl >= 20 && |d| >= 14 + ihl + 20
              && var off := d[14 + ihl + 12] / 16 * 4;
              && off >= 20 && |d| >= 14 + ihl + off
              && d[26..30] == ToBE(ep.dstIp, 4) && d[30..34] == ToBE(ep.srcIp, 4)
              && d[14 + ihl..16 + ihl] == ToBE(ep.dstPort, 2) && d[16 + ihl..18 + ihl] == ToBE(ep.srcPort, 2)
              && Length16(d) >= ihl + off
    ensures Receive(ep, Null) == None
  {
    hide Field, ToBE, ReadMem, Length16, Parse;
    assert Parse(Null) == None by { NoBuffer(); }
    var m := Mbuf(d, slack);
    if Parse(m).Some? {
      var ihl, off := Parse(m).value.ihl, Parse(m).value.off;
      ParseExact(d, slack, ihl, off);
      FilterExact(ep, d, slack, ihl, off);
    } else if |d| >= 34 && d[14] % 16 * 4 >= 20 && |d| >= 14 + d[14] % 16 * 4 + 20 {
      ParseExact(d, slack, d[14] % 16 * 4, d[14 + d[14] % 16 * 4 + 12] / 16 * 4);
    }
  }

  lemma NoBuffer()
    ensures Parse(Null) == None
  {
  }

  /**
   * The segment read: numbers and flags stand behind the IPv4 header, and the payload is what the total length leaves
   * behind both headers, wherever those end. Payload bytes behind the memory of the model read as 0.
   */
  lemma SegmentRead(ep: Endpoint, d: seq<Byte>, slack: seq<Byte>, ihl: nat, off: nat)
    requires HeadersFit(d, ihl, off) && Receive(ep, Mbuf(d, slack)).Some?
    ensures var t, seg, mem := 14 + ihl, Receive(ep, Mbuf(d, slack)).value, d + slack;
            && d[t + 4..t + 8] == ToBE(seg.seqNo, 4) && d[t + 8..t + 12] == ToBE(seg.ackNo, 4)
            && seg.flags == d[t + 13]
            && |seg.payload| == Length16(d) - ihl - off
            && forall i :: 0 <= i < |seg.payload| ==>
                 seg.payload[i] == if t + off + i < |mem| then mem[t + off + i] else 0
  {
    hide Parse, Field, ToBE, HeadersFit;
    ParseExact(d, slack, ihl, off);
    var t, seg := 14 + ihl, Receive(ep, Mbuf(d, slack)).value;
    ShortField(d, 16);
    FieldIs(d, t + 4, 4, seg.seqNo);
    FieldIs(d, t + 8, 4, seg.ackNo);
  }

  // ---------- Round trip ----------

  lemma EtherFields(ep: Endpoint, tail: seq<Byte>)
    ensures (EtherHeader(ep) + tail)[12..14] == ToBE(0x0800, 2)
    ensures (EtherHeader(ep) + tail)[14..] == tail
  {
    assert (EtherHeader(ep) + tail)[12..14] == EtherHeader(ep)[12..14];
  }

  lemma IpFields(ep: Endpoint, total: U16, ck: U16)
    ensures var s := IpHeader(ep, total, ck);
            && s[0] == 0x45 && s[9] == 6 && s[2..4] == ToBE(total, 2)
            && s[12..16] == ToBE(ep.srcIp, 4) && s[16..20] == ToBE(ep.dstIp, 4)
  {
  }

  lemma TcpFields(ep: Endpoint, flags: Byte, seqNo: U32, ackNo: U32, ck: U16)
    ensures var s := TcpHeader(ep, flags, seqNo, ackNo, ck);
            && s[0..2] == ToBE(ep.srcPort, 2) && s[2..4] == ToBE(ep.dstPort, 2)
            && s[4..8] == ToBE(seqNo, 4) && s[8..12] == ToBE(ackNo, 4)
            && s[12] == 0x50 && s[13] == flags
  {
  }

  /** Slices of the two headers sit at fixed offsets of the packet. */
  lemma HeaderSlices(e: seq<Byte>, i: seq<Byte>, t: seq<Byte>, p: seq<Byte>)
    requires |e| == ETHER_LEN && |i| == IPV4_LEN && |t| == TCP_LEN
    ensures var s := e + i + t + p;
            && s[12..14] == e[12..14] && s[54..] == p
            && s[14] == i[0] && s[23] == i[9] && s[16..18] == i[2..4]
            && s[26..30] == i[12..16] && s[30..34] == i[16..20]
            && s[34..36] == t[0..2] && s[36..38] == t[2..4] && s[38..42] == t[4..8] && s[42..46] == t[8..12]
            && s[46] == t[12] && s[47] == t[13]
  {
  }

  lemma WordsBack(ep: Endpoint, seg: Segment)
    ensures FromBE(ToBE(0x0800, 2)) == 0x0800
    ensures FromBE(ToBE(ep.srcIp, 4)) == ep.srcIp && FromBE(ToBE(ep.dstIp, 4)) == ep.dstIp
    ensures FromBE(ToBE(ep.srcPort, 2)) == ep.srcPort && FromBE(ToBE(ep.dstPort, 2)) == ep.dstPort
    ensures FromBE(ToBE(seg.seqNo, 4)) == seg.seqNo && FromBE(ToBE(seg.ackNo, 4)) == seg.ackNo
    ensures var n := IpTotalLength(|seg.payload|); FromBE(ToBE(n, 2)) == n
  {
    Pow256Values();
    FromToBE(0x0800, 2);
    FromToBE(ep.srcIp, 4); FromToBE(ep.dstIp, 4);
    FromToBE(ep.srcPort, 2); FromToBE(ep.dstPort, 2);
    FromToBE(seg.seqNo, 4); FromToBE(seg.ackNo, 4);
    FromToBE(IpTotalLength(|seg.payload|), 2);
  }

  /** What the parser reads at each fixed offset of a packet that was written whole. */
  lemma PacketFields(ep: Endpoint, seg: Segment, ck: Checksums)
    ensures var s := PacketBytes(ep, seg, ck);
            && Field(s, 12, 2) == 0x0800 && s[14] == 0x45 && s[23] == 6 && s[46] == 0x50 && s[47] == seg.flags
            && Field(s, 16, 2) == IpTotalLength(|seg.payload|)
            && Field(s, 26, 4) == ep.srcIp && Field(s, 30, 4) == ep.dstIp
            && Field(s, 34, 2) == ep.srcPort && Field(s, 36, 2) == ep.dstPort
            && Field(s, 38, 4) == seg.seqNo && Field(s, 42, 4) == seg.ackNo
            && s[54..] == seg.payload
  {
    var ip := IpHeader(ep, IpTotalLength(|seg.payload|), ck.ip);
    var tcp := TcpHeader(ep, seg.flags, seg.seqNo, seg.ackNo, ck.tcp);
    HeaderSlices(EtherHeader(ep), ip, tcp, seg.payload);
    EtherFields(ep, []);
    IpFields(ep, IpTotalLength(|seg.payload|), ck.ip);
    TcpFields(ep, seg.flags, seg.seqNo, seg.ackNo, ck.tcp);
    WordsBack(ep, seg);
    assert EtherHeader(ep) + [] == EtherHeader(ep);
  }

  lemma IpBytes(ep: Endpoint, total: U16, ck: U16)
    ensures var s := IpHeader(ep, total, ck);
            && s[0] == 0x45 && s[1] == 0 && s[2..4] == ToBE(total, 2)
            && s[4] == 0 && s[5] == 0 && s[6] == 0x40 && s[7] == 0 && s[8] == 64 && s[9] == 6
            && s[10..12] == ToBE(ck, 2) && s[12..16] == ToBE(ep.srcIp, 4) && s[16..20] == ToBE(ep.dstIp, 4)
  {
    hide ToBE;
  }

  lemma TcpBytes(ep: Endpoint, flags: Byte, seqNo: U32, ackNo: U32, ck: U16)
    ensures var s := TcpHeader(ep, flags, seqNo, ackNo, ck);
            && s[0..2] == ToBE(ep.srcPort, 2) && s[2..4] == ToBE(ep.dstPort, 2)
            && s[4..8] == ToBE(seqNo, 4) && s[8..12] == ToBE(ackNo, 4)
            && s[12] == 0x50 && s[13] == flags && s[14] == 255 && s[15] == 255
            && s[16..18] == ToBE(ck, 2) && s[18] == 0 && s[19] == 0
  {
    WindowBytes();
    hide ToBE;
  }

  lemma WindowBytes()
    ensures ToBE(65535, 2) == [255, 255] && ToBE(0x0800, 2) == [8, 0]
  {
    assert ToBE(255, 1) == [255] && ToBE(8, 1) == [8];
  }

  lemma {:induction false} TotalBytes(n: nat)
    ensures TotalLen(n) == (54 + n) % 0x1_0000 && IpTotalLength(n) == (40 + n) % 0x1_0000
  {
  }

  /**
   * The whole packet, byte by byte: Ethernet addresses and type, the IPv4 header (no options, no fragments, 64 hops,
   * TCP), the TCP header (no options, full window, no urgent data), then the payload. The valid data and the memory
   * behind it are cut at the 16-bit length.
   */
  lemma PacketLayout(ep: Endpoint, seg: Segment, ck: Checksums)
    ensures var m := Encode(ep, seg, ck);
            var s, n := m.data + m.slack, |seg.payload|;
            && |m.data| == (54 + n) % 0x1_0000 && |s| == 54 + n
            && s[0..6] == ep.dstMac && s[6..12] == ep.srcMac && s[12] == 8 && s[13] == 0
            && s[14] == 0x45 && s[15] == 0 && s[16..18] == ToBE((40 + n) % 0x1_0000, 2)
            && s[18] == 0 && s[19] == 0 && s[20] == 0x40 && s[21] == 0 && s[22] == 64 && s[23] == 6
            && s[24..26] == ToBE(ck.ip, 2) && s[26..30] == ToBE(ep.srcIp, 4) && s[30..34] == ToBE(ep.dstIp, 4)
            && s[34..36] == ToBE(ep.srcPort, 2) && s[36..38] == ToBE(ep.dstPort, 2)
            && s[38..42] == ToBE(seg.seqNo, 4) && s[42..46] == ToBE(seg.ackNo, 4)
            && s[46] == 0x50 && s[47] == seg.flags && s[48] == 255 && s[49] == 255
            && s[50..52] == ToBE(ck.tcp, 2) && s[52] == 0 && s[53] == 0
            && s[54..] == seg.payload
  {
    hide TotalLen, IpTotalLength, ToBE, IpHeader, TcpHeader;
    var n := |seg.payload|;
    TotalBytes(n);
    WindowBytes();
    var e, i, t := EtherHeader(ep), IpHeader(ep, IpTotalLength(n), ck.ip),
                   TcpHeader(ep, seg.flags, seg.seqNo, seg.ackNo, ck.tcp);
    IpBytes(ep, IpTotalLength(n), ck.ip);
    TcpBytes(ep, seg.flags, seg.seqNo, seg.ackNo, ck.tcp);
    AllSlices(e, i, t, seg.payload);
    var m := Encode(ep, seg, ck);
    assert m.data + m.slack == e + i + t + seg.payload;
  }

  lemma AllSlices(e: seq<Byte>, i: seq<Byte>, t: seq<Byte>, p: seq<Byte>)
    requires |e| == ETHER_LEN && |i| == IPV4_LEN && |t| == TCP_LEN
    ensures var s := e + i + t + p; s[0..14] == e && s[14..34] == i && s[34..54] == t && s[54..] == p
  {
  }

  /**
   * A packet built on one side is read back unchanged on the other side exactly when its payload
   * leaves the 16-bit length field unwrapped; a longer one is always discarded by the parser.
   */
  lemma {:induction false} PacketRoundTrip(ep: Endpoint, seg: Segment, ck: Checksums)
    requires |seg.payload| < TWO16
    ensures Receive(ep.Swap(), Encode(ep, seg, ck)) == if |seg.payload| <= 65481 then Some(seg) else None
  {
    PacketFields(ep, seg, ck);
    hide PacketBytes, Receive, Field, Encode;
    var s := PacketBytes(ep, seg, ck);
    EncodeIs(ep, seg, ck);
    if |seg.payload| <= 65481 {
      ReceiveByFields(ep.Swap(), s, seg);
    } else {
      WrappedIsDiscarded(ep.Swap(), Encode(ep, seg, ck), s);
    }
  }

  /** The 16-bit total length: the whole packet, or so little that not even the headers are valid data. */
  lemma EncodeIs(ep: Endpoint, seg: Segment, ck: Checksums)
    requires |seg.payload| < TWO16
    ensures var m, s := Encode(ep, seg, ck), PacketBytes(ep, seg, ck);
            if |seg.payload| <= 65481 then m == Mbuf(s, []) && IpTotalLength(|seg.payload|) == 40 + |seg.payload|
            else |m.data| < HEADER_LEN && m.data == s[..|m.data|]
  {
    hide EtherHeader, IpHeader, TcpHeader, PacketBytes;
    var n, s := |seg.payload|, PacketBytes(ep, seg, ck);
    if n <= 65481 {
      assert TotalLen(n) == |s|;
      assert s[..|s|] == s && s[|s|..] == [];
    } else {
      assert TotalLen(n) == HEADER_LEN + n - TWO16;
    }
  }

  /** An option-free packet with the right addresses and length is accepted as its fields say. */
  lemma ReceiveByFields(ep: Endpoint, s: seq<Byte>, seg: Segment)
    requires |s| == HEADER_LEN + |seg.payload| && |seg.payload| <= 65481 && s[54..] == seg.payload
    requires Field(s, 12, 2) == 0x0800 && s[14] == 0x45 && s[23] == 6 && s[46] == 0x50 && s[47] == seg.flags
    requires Field(s, 16, 2) == 40 + |seg.payload|
    requires Field(s, 26, 4) == ep.dstIp && Field(s, 30, 4) == ep.srcIp
    requires Field(s, 34, 2) == ep.dstPort && Field(s, 36, 2) == ep.srcPort
    requires Field(s, 38, 4) == seg.seqNo && Field(s, 42, 4) == seg.ackNo
    ensures Receive(ep, Mbuf(s, [])) == Some(seg)
  {
    var m := Mbuf(s, []);
    assert m.data + m.slack == s;
    assert Parse(m) == Some(Layout(20, 20));
    assert ReadMem(m, 54, |seg.payload|) == seg.payload;
  }

  lemma WrappedIsDiscarded(ep: Endpoint, m: Mbuf, s: seq<Byte>)
    requires |s| >= 54 && s[14] == 0x45
    requires m.Mbuf? && |m.data| < HEADER_LEN && m.data == s[..|m.data|]
    ensures Receive(ep, m) == None
  {
    assert Parse(m) == None;
  }
}
