/** Packets written field by field into byte buffers, as the constructor and `create_tcp_packet` do. */
module PacketWriter {
  import opened Words
  import opened Packet
  import opened Buffers

  /** The cached headers: every field that does not depend on the segment. */
  function Template(ep: Endpoint): (s: seq<Byte>)
    ensures |s| == HEADER_LEN
  {
    EtherHeader(ep) + IpHeader(ep, 0, 0) + TcpHeader(ep, 0, 0, 0, 0)
  }

  function Zeros(n: nat): (s: seq<Byte>)
    ensures |s| == n
  {
    seq(n, _ => 0)
  }

  lemma {:induction false} ZeroWord(k: nat)
    ensures ToBE(0, k) == Zeros(k)
  {
    if k > 0 { ZeroWord(k - 1); }
  }

  lemma EtherTemplate(ep: Endpoint)
    ensures Patch(Patch(Patch(Zeros(64), 6, ep.srcMac), 0, ep.dstMac), 12, ToBE(0x0800, 2))
         == EtherHeader(ep) + Zeros(50)
  {
    hide ToBE;
    var s := Patch(Zeros(64), 6, ep.srcMac);
    assert s == Zeros(6) + ep.srcMac + Zeros(52);
    var d := Patch(s, 0, ep.dstMac);
    assert d == ep.dstMac + ep.srcMac + Zeros(52);
  }

  /** The static IPv4 fields in the order the constructor writes them. */
  lemma IpTemplate(ep: Endpoint)
    ensures Patch(Patch(Patch(Patch(Patch(Patch(Zeros(20), 0, [0x45]), 8, [64]), 9, [6]),
                              12, ToBE(ep.srcIp, 4)), 16, ToBE(ep.dstIp, 4)), 6, [0x40, 0])
            == IpHeader(ep, 0, 0)
  {
    ZeroWord(2);
    hide ToBE;
    var s, d := ToBE(ep.srcIp, 4), ToBE(ep.dstIp, 4);
    var vhl := Patch(Zeros(20), 0, [0x45]);
    assert vhl == [0x45] + Zeros(19);
    var ttl := Patch(vhl, 8, [64]);
    assert ttl == [0x45] + Zeros(7) + [64] + Zeros(11);
    var fixed := Patch(ttl, 9, [6]);
    assert fixed == [0x45] + Zeros(7) + [64, 6] + Zeros(10);
    var addressed := Patch(Patch(fixed, 12, s), 16, d);
    assert addressed == [0x45, 0, 0, 0, 0, 0, 0, 0, 64, 6, 0, 0] + s + d;
    assert Patch(addressed, 6, [0x40, 0]) == [0x45, 0, 0, 0, 0, 0, 0x40, 0, 64, 6, 0, 0] + s + d;
    assert IpHeader(ep, 0, 0) == [0x45, 0, 0, 0, 0, 0, 0x40, 0, 64, 6, 0, 0] + s + d;
  }

  /** The static TCP fields in the order the constructor writes them. */
  lemma TcpTemplate(ep: Endpoint)
    ensures Patch(Patch(Patch(Patch(Zeros(20), 0, ToBE(ep.srcPort, 2)), 2, ToBE(ep.dstPort, 2)), 12, [0x50]),
                  14, ToBE(65535, 2))
            == TcpHeader(ep, 0, 0, 0, 0)
  {
    ZeroWord(2);
    ZeroWord(4);
    var s, d, w := ToBE(ep.srcPort, 2), ToBE(ep.dstPort, 2), ToBE(65535, 2);
    var ports := Patch(Patch(Zeros(20), 0, s), 2, d);
    assert ports == s + d + Zeros(16);
    var offset := Patch(ports, 12, [0x50]);
    assert offset == s + d + Zeros(8) + [0x50] + Zeros(7);
    assert Patch(offset, 14, w) == s + d + Zeros(8) + [0x50, 0] + w + Zeros(4);
    assert TcpHeader(ep, 0, 0, 0, 0) == s + d + Zeros(8) + [0x50, 0] + w + Zeros(4);
  }

  /** Writing inside the middle part of a buffer leaves the parts around it alone. */
  lemma PatchInside(a: seq<Byte>, b: seq<Byte>, c: seq<Byte>, at: nat, f: seq<Byte>)
    requires at + |f| <= |b|
    ensures Patch(a + b + c, |a| + at, f) == a + Patch(b, at, f) + c
  {
  }

  /** The constructor's template: cleared, then filled header by header. */
  method WriteTemplate(buf: array<Byte>, ep: Endpoint)
    requires buf.Length == 64
    modifies buf
    ensures buf[..HEADER_LEN] == Template(ep)
  {
    hide Patch, EtherHeader, IpHeader, TcpHeader, ToBE;
    var i := 0;
    while i < 64
      invariant 0 <= i <= 64
      invariant forall j :: 0 <= j < i ==> buf[j] == 0
    {
      buf[i] := 0;
      i := i + 1;
    }
    assert buf[..] == Zeros(64);
    EtherTemplate(ep);
    Blit(buf, 6, ep.srcMac);
    Blit(buf, 0, ep.dstMac);
    Blit(buf, 12, ToBE(0x0800, 2));
    WriteIpTemplate(buf, ep, EtherHeader(ep));
    WriteTcpTemplate(buf, ep, EtherHeader(ep) + IpHeader(ep, 0, 0));
  }

  method WriteIpTemplate(buf: array<Byte>, ep: Endpoint, ghost e: seq<Byte>)
    requires |e| == 14 && buf.Length == 64 && buf[..] == e + Zeros(50)
    modifies buf
    ensures buf[..] == e + IpHeader(ep, 0, 0) + Zeros(30)
  {
    ghost var zero, rest := Zeros(20), Zeros(30);
    assert buf[..] == e + zero + rest;
    Blit(buf, 14 + 0, [0x45]);
    ghost var i1 := Patch(zero, 0, [0x45]);
    PatchInside(e, zero, rest, 0, [0x45]);
    Blit(buf, 14 + 8, [64]);
    ghost var i2 := Patch(i1, 8, [64]);
    PatchInside(e, i1, rest, 8, [64]);
    Blit(buf, 14 + 9, [6]);
    ghost var i3 := Patch(i2, 9, [6]);
    PatchInside(e, i2, rest, 9, [6]);
    Blit(buf, 14 + 12, ToBE(ep.srcIp, 4));
    ghost var i4 := Patch(i3, 12, ToBE(ep.srcIp, 4));
    PatchInside(e, i3, rest, 12, ToBE(ep.srcIp, 4));
    Blit(buf, 14 + 16, ToBE(ep.dstIp, 4));
    ghost var i5 := Patch(i4, 16, ToBE(ep.dstIp, 4));
    PatchInside(e, i4, rest, 16, ToBE(ep.dstIp, 4));
    Blit(buf, 14 + 6, [0x40, 0]);
    PatchInside(e, i5, rest, 6, [0x40, 0]);
    IpTemplate(ep);
  }

  method WriteTcpTemplate(buf: array<Byte>, ep: Endpoint, ghost front: seq<Byte>)
    requires |front| == 34 && buf.Length == 64 && buf[..] == front + Zeros(30)
    modifies buf
    ensures buf[..HEADER_LEN] == front + TcpHeader(ep, 0, 0, 0, 0)
  {
    ghost var zero := Zeros(20);
    ghost var rest := Zeros(10);
    assert buf[..] == front + zero + rest;
    Blit(buf, 34 + 0, ToBE(ep.srcPort, 2));
    ghost var t1 := Patch(zero, 0, ToBE(ep.srcPort, 2));
    PatchInside(front, zero, rest, 0, ToBE(ep.srcPort, 2));
    Blit(buf, 34 + 2, ToBE(ep.dstPort, 2));
    ghost var t2 := Patch(t1, 2, ToBE(ep.dstPort, 2));
    PatchInside(front, t1, rest, 2, ToBE(ep.dstPort, 2));
    Blit(buf, 34 + 12, [0x50]);
    ghost var t3 := Patch(t2, 12, [0x50]);
    PatchInside(front, t2, rest, 12, [0x50]);
    Blit(buf, 34 + 14, ToBE(65535, 2));
    PatchInside(front, t3, rest, 14, ToBE(65535, 2));
    TcpTemplate(ep);
    assert buf[..] == front + TcpHeader(ep, 0, 0, 0, 0) + rest;
  }

  lemma Overwrite(a: seq<Byte>, b: seq<Byte>, c: seq<Byte>, f: seq<Byte>)
    requires |b| == |f|
    ensures Patch(a + b + c, |a|, f) == a + f + c
  {
  }

  lemma IpDynamic(ep: Endpoint, total: U16, ck: U16)
    ensures Patch(Patch(IpHeader(ep, 0, 0), 2, ToBE(total, 2)), 10, ToBE(ck, 2)) == IpHeader(ep, total, ck)
  {
  }

  lemma SetFlags(ep: Endpoint, flags: Byte)
    ensures Patch(TcpHeader(ep, 0, 0, 0, 0), 13, [flags]) == TcpHeader(ep, flags, 0, 0, 0)
  {
    hide ToBE;
    var a := ToBE(ep.srcPort, 2) + ToBE(ep.dstPort, 2) + ToBE(0, 4) + ToBE(0, 4) + [0x50];
    var c := ToBE(65535, 2) + ToBE(0, 2) + [0, 0];
    Overwrite(a, [0], c, [flags]);
    assert TcpHeader(ep, 0, 0, 0, 0) == a + [0] + c;
    assert TcpHeader(ep, flags, 0, 0, 0) == a + [flags] + c;
  }

  lemma SetSeqNo(ep: Endpoint, flags: Byte, seqNo: U32)
    ensures Patch(TcpHeader(ep, flags, 0, 0, 0), 4, ToBE(seqNo, 4)) == TcpHeader(ep, flags, seqNo, 0, 0)
  {
    hide ToBE;
    var a := ToBE(ep.srcPort, 2) + ToBE(ep.dstPort, 2);
    var c := ToBE(0, 4) + [0x50, flags] + ToBE(65535, 2) + ToBE(0, 2) + [0, 0];
    Overwrite(a, ToBE(0, 4), c, ToBE(seqNo, 4));
    assert TcpHeader(ep, flags, 0, 0, 0) == a + ToBE(0, 4) + c;
    assert TcpHeader(ep, flags, seqNo, 0, 0) == a + ToBE(seqNo, 4) + c;
  }

  lemma SetAckNo(ep: Endpoint, flags: Byte, seqNo: U32, ackNo: U32)
    ensures Patch(TcpHeader(ep, flags, seqNo, 0, 0), 8, ToBE(ackNo, 4)) == TcpHeader(ep, flags, seqNo, ackNo, 0)
  {
    hide ToBE;
    var a := ToBE(ep.srcPort, 2) + ToBE(ep.dstPort, 2) + ToBE(seqNo, 4);
    var c := [0x50, flags] + ToBE(65535, 2) + ToBE(0, 2) + [0, 0];
    Overwrite(a, ToBE(0, 4), c, ToBE(ackNo, 4));
    assert TcpHeader(ep, flags, seqNo, 0, 0) == a + ToBE(0, 4) + c;
    assert TcpHeader(ep, flags, seqNo, ackNo, 0) == a + ToBE(ackNo, 4) + c;
  }

  lemma SetChecksum(ep: Endpoint, flags: Byte, seqNo: U32, ackNo: U32, ck: U16)
    ensures Patch(TcpHeader(ep, flags, seqNo, ackNo, 0), 16, ToBE(ck, 2)) == TcpHeader(ep, flags, seqNo, ackNo, ck)
  {
    hide ToBE;
    var a := ToBE(ep.srcPort, 2) + ToBE(ep.dstPort, 2) + ToBE(seqNo, 4) + ToBE(ackNo, 4)
             + [0x50, flags] + ToBE(65535, 2);
    Overwrite(a, ToBE(0, 2), [0, 0], ToBE(ck, 2));
    assert TcpHeader(ep, flags, seqNo, ackNo, 0) == a + ToBE(0, 2) + [0, 0];
    assert TcpHeader(ep, flags, seqNo, ackNo, ck) == a + ToBE(ck, 2) + [0, 0];
  }

  /** `create_tcp_packet` after the allocation: template, dynamic fields, payload, checksum. */
  method WritePacket(template: seq<Byte>, ep: Endpoint, seg: Segment, ck: Checksums) returns (m: Mbuf)
    requires template == Template(ep)
    ensures m == Encode(ep, seg, ck)
  {
    var buf := new Byte[HEADER_LEN + |seg.payload|](_ => 0);
    var total := TotalLen(|seg.payload|);
    hide TotalLen, IpTotalLength, IpHeader, TcpHeader, EtherHeader, ToBE;
    Blit(buf, 0, template);
    ghost var tail := buf[HEADER_LEN..];
    WriteIpFields(buf, ep, IpTotalLength(|seg.payload|), ck, TcpHeader(ep, 0, 0, 0, 0) + tail);
    ghost var front := EtherHeader(ep) + IpHeader(ep, IpTotalLength(|seg.payload|), ck.ip);
    assert buf[..] == front + TcpHeader(ep, 0, 0, 0, 0) + tail;
    WriteTcpFields(buf, ep, seg, ck, front, tail);
    Blit(buf, HEADER_LEN, seg.payload);
    assert buf[..] == PacketBytes(ep, seg, ck);
    m := Mbuf(buf[..total], buf[total..]);
  }

  method WriteIpFields(buf: array<Byte>, ep: Endpoint, total: U16, ck: Checksums, ghost tail: seq<Byte>)
    requires buf[..] == EtherHeader(ep) + IpHeader(ep, 0, 0) + tail
    modifies buf
    ensures buf[..] == EtherHeader(ep) + IpHeader(ep, total, ck.ip) + tail
  {
    hide EtherHeader, IpHeader, ToBE;
    assert buf.Length == |buf[..]|;
    ghost var e, ip := EtherHeader(ep), IpHeader(ep, 0, 0);
    Blit(buf, 14 + 2, ToBE(total, 2));
    PatchInside(e, ip, tail, 2, ToBE(total, 2));
    Blit(buf, 14 + 10, ToBE(ck.ip, 2));
    PatchInside(e, Patch(ip, 2, ToBE(total, 2)), tail, 10, ToBE(ck.ip, 2));
    IpDynamic(ep, total, ck.ip);
  }

  method WriteTcpFields(buf: array<Byte>, ep: Endpoint, seg: Segment, ck: Checksums,
                        ghost front: seq<Byte>, ghost tail: seq<Byte>)
    requires |front| == 34 && buf[..] == front + TcpHeader(ep, 0, 0, 0, 0) + tail
    modifies buf
    ensures buf[..] == front + TcpHeader(ep, seg.flags, seg.seqNo, seg.ackNo, ck.tcp) + tail
  {
    assert buf.Length == |buf[..]|;
    var f, q, k := seg.flags, seg.seqNo, seg.ackNo;
    Blit(buf, 34 + 13, [f]);
    PatchInside(front, TcpHeader(ep, 0, 0, 0, 0), tail, 13, [f]);
    SetFlags(ep, f);
    Blit(buf, 34 + 4, ToBE(q, 4));
    PatchInside(front, TcpHeader(ep, f, 0, 0, 0), tail, 4, ToBE(q, 4));
    SetSeqNo(ep, f, q);
    Blit(buf, 34 + 8, ToBE(k, 4));
    PatchInside(front, TcpHeader(ep, f, q, 0, 0), tail, 8, ToBE(k, 4));
    SetAckNo(ep, f, q, k);
    Blit(buf, 34 + 16, ToBE(ck.tcp, 2));
    PatchInside(front, TcpHeader(ep, f, q, k, 0), tail, 16, ToBE(ck.tcp, 2));
    SetChecksum(ep, f, q, k, ck.tcp);
  }
}
