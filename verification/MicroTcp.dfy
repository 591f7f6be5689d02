/** The client TCP machine: its transition functions on values, and the class that carries them out. */
module MicroTcp {
  import opened Words
  import opened Packet
  import opened PacketWriter

  datatype TcpState = Closed | SynSent | Established | FinWait1 | FinWait2 | TimeWait

  const MAX_RX_BUFFER_SIZE := 10 * 1024 * 1024

  /** The connection's variables. */
  datatype Tcb = Tcb(state: TcpState, iss: U32, sndUna: U32, sndNxt: U32, rcvNxt: U32, rxBuffer: seq<Byte>)

  /** What one packet creation meets: whether the pool has a buffer, and the checksums computed for it. */
  datatype Alloc = Alloc(ok: bool, ck: Checksums)

  /** A data argument of `send_data`, whose length is a 16-bit number. */
  type Chunk = s: seq<Byte> | |s| < TWO16

  function InitTcb(iss: U32): Tcb {
    Tcb(Closed, iss, 0, iss, 0, [])
  }

  // ---------- Transition functions ----------

  /** `create_tcp_packet`: sequence numbers of a new segment, and what it consumes. */
  function Create(t: Tcb, flags: Byte, payload: Chunk, a: Alloc): (Tcb, Option<Segment>) {
    if !a.ok then (t, None)
    else
      var seg := if HasBit(flags, SYN) then Segment(flags, t.iss, 0, payload)
                 else Segment(flags, t.sndNxt, t.rcvNxt, payload);
      var used := if payload != [] then |payload| else if HasBit(flags, SYN) || HasBit(flags, FIN) then 1 else 0;
      (t.(sndNxt := Wrap32(t.sndNxt + used)), Some(seg))
  }

  function Connect(t: Tcb, a: Alloc): (Tcb, Option<Segment>) {
    if t.state != Closed then (t, None) else Create(t.(state := SynSent), SYN, [], a)
  }

  function SendData(t: Tcb, data: Chunk, a: Alloc): (Tcb, Option<Segment>) {
    if t.state != Established then (t, None) else Create(t, PSH + ACK, data, a)
  }

  predicate BufferFull(t: Tcb, seg: Segment) {
    |t.rxBuffer| + |seg.payload| > MAX_RX_BUFFER_SIZE
  }

  /** One creation inside `process_rx`: the segment (None after a failed allocation) and what the creation met. */
  datatype Reply = Reply(seg: Option<Segment>, alloc: Alloc)

  /** An acknowledgement of everything accepted so far, pushed on the reply list. */
  function Acknowledge(t: Tcb, a: Alloc): (Tcb, seq<Reply>) {
    var (t', seg) := Create(t, ACK, [], a);
    (t', [Reply(seg, a)])
  }

  /** Incoming data in ESTABLISHED: in order, duplicate, or ahead of what is expected. */
  function HandleData(t: Tcb, seg: Segment, a: Alloc): (Tcb, seq<Reply>) {
    if seg.payload == [] then (t, [])
    else if seg.seqNo == t.rcvNxt then
      Acknowledge(t.(rxBuffer := if BufferFull(t, seg) then t.rxBuffer else t.rxBuffer + seg.payload,
                     rcvNxt := Wrap32(t.rcvNxt + |seg.payload|)), a)
    else if seg.seqNo < t.rcvNxt then Acknowledge(t, a)
    else (t, [])
  }

  function HandleAck(t: Tcb, seg: Segment): Tcb {
    if seg.ackNo > t.sndUna then t.(sndUna := seg.ackNo) else t
  }

  function HandleFin(t: Tcb, seg: Segment, a: Alloc, next: TcpState): (Tcb, seq<Reply>) {
    if HasBit(seg.flags, FIN) then
      var (t', out) := Acknowledge(t.(rcvNxt := Wrap32(t.rcvNxt + 1)), a);
      (t'.(state := next), out)
    else (t, [])
  }

  function HandleSynAck(t: Tcb, seg: Segment, a: Alloc): (Tcb, seq<Reply>) {
    if HasBit(seg.flags, SYN) && HasBit(seg.flags, ACK) && seg.ackNo == Wrap32(t.iss + 1) then
      Acknowledge(t.(rcvNxt := Wrap32(seg.seqNo + 1), sndUna := seg.ackNo, state := Established), a)
    else (t, [])
  }

  /** ESTABLISHED: data, then the peer's acknowledgement, then its FIN. */
  function HandleEstablished(t: Tcb, seg: Segment, a: Alloc, b: Alloc): (Tcb, seq<Reply>) {
    var (t1, out1) := HandleData(t, seg, a);
    var (t2, out2) := HandleFin(HandleAck(t1, seg), seg, b, FinWait2);
    (t2, out1 + out2)
  }

  /** The switch of `process_rx` on one accepted segment. */
  function Rx(t: Tcb, seg: Segment, a: Alloc, b: Alloc): (Tcb, seq<Reply>) {
    match t.state
    case SynSent => HandleSynAck(t, seg, a)
    case Established => HandleEstablished(t, seg, a, b)
    case FinWait2 => HandleFin(t, seg, b, TimeWait)
    case _ => (t, [])
  }

  /** `process_rx` on a raw packet: whatever is not a segment of this connection changes nothing. */
  function RxPacket(ep: Endpoint, t: Tcb, m: Mbuf, a: Alloc, b: Alloc): (Tcb, seq<Reply>) {
    match Receive(ep, m)
    case None => (t, [])
    case Some(seg) => Rx(t, seg, a, b)
  }

  /** A created segment as the packet buffer that is returned, a null pointer after a failed allocation. */
  function Wire(ep: Endpoint, out: Option<Segment>, a: Alloc): Mbuf {
    match out
    case None => Null
    case Some(seg) => Encode(ep, seg, a.ck)
  }

  function WireAll(ep: Endpoint, out: seq<Reply>): (tx: seq<Mbuf>)
    ensures |tx| == |out|
  {
    if out == [] then [] else WireAll(ep, out[..|out| - 1]) + [Wire(ep, out[|out| - 1].seg, out[|out| - 1].alloc)]
  }

  lemma WireOne(ep: Endpoint, r: Reply)
    ensures WireAll(ep, [r]) == [Wire(ep, r.seg, r.alloc)]
  {
    assert [r][..0] == [];
  }

  lemma {:induction false} WireAppend(ep: Endpoint, out: seq<Reply>, more: seq<Reply>)
    ensures WireAll(ep, out + more) == WireAll(ep, out) + WireAll(ep, more)
  {
    if more == [] {
      assert out + more == out;
    } else {
      var n := |more| - 1;
      assert (out + more)[..|out| + n] == out + more[..n];
      WireAppend(ep, out, more[..n]);
    }
  }

  // ---------- The class ----------

  class Client {
    const ep: Endpoint
    const cachedHeaders: array<Byte>
    var state: TcpState
    var iss: U32
    var sndUna: U32
    var sndNxt: U32
    var rcvNxt: U32
    var rxBuffer: seq<Byte>

    ghost predicate Valid()
      reads this, cachedHeaders
    {
      cachedHeaders.Length == 64 && cachedHeaders[..HEADER_LEN] == Template(ep)
    }

    ghost function View(): Tcb
      reads this
    {
      Tcb(state, iss, sndUna, sndNxt, rcvNxt, rxBuffer)
    }

    constructor (ep: Endpoint, random: U32)
      ensures Valid() && fresh(cachedHeaders)
      ensures this.ep == ep && View() == InitTcb(random)
    {
      this.ep := ep;
      state, sndUna, sndNxt, rcvNxt, rxBuffer := Closed, 0, random, 0, [];
      iss := random;
      cachedHeaders := new Byte[64];
      new;
      WriteTemplate(cachedHeaders, ep);
    }

    method CreateTcpPacket(flags: Byte, payload: Chunk, a: Alloc) returns (m: Mbuf)
      requires Valid()
      modifies this
      ensures Valid()
      ensures View() == Create(old(View()), flags, payload, a).0
      ensures m == Wire(ep, Create(old(View()), flags, payload, a).1, a)
    {
      if !a.ok {
        return Null;
      }
      var seg: Segment;
      if HasBit(flags, SYN) {
        seg := Segment(flags, iss, 0, payload);
      } else {
        seg := Segment(flags, sndNxt, rcvNxt, payload);
      }
      m := WritePacket(cachedHeaders[..HEADER_LEN], ep, seg, a.ck);
      if |payload| > 0 {
        sndNxt := Wrap32(sndNxt + |payload|);
      } else if HasBit(flags, SYN) || HasBit(flags, FIN) {
        sndNxt := Wrap32(sndNxt + 1);
      }
    }

    method Open(a: Alloc) returns (m: Mbuf)
      requires Valid()
      modifies this
      ensures Valid()
      ensures View() == Connect(old(View()), a).0
      ensures m == Wire(ep, Connect(old(View()), a).1, a)
    {
      if state != Closed {
        return Null;
      }
      state := SynSent;
      m := CreateTcpPacket(SYN, [], a);
    }

    method Send(data: Chunk, a: Alloc) returns (m: Mbuf)
      requires Valid()
      modifies this
      ensures Valid()
      ensures View() == SendData(old(View()), data, a).0
      ensures m == Wire(ep, SendData(old(View()), data, a).1, a)
    {
      if state != Established {
        return Null;
      }
      m := CreateTcpPacket(PSH + ACK, data, a);
    }

    method ProcessRx(rx: Mbuf, a: Alloc, b: Alloc) returns (tx: seq<Mbuf>)
      requires Valid()
      modifies this
      ensures Valid()
      ensures View() == RxPacket(ep, old(View()), rx, a, b).0
      ensures tx == WireAll(ep, RxPacket(ep, old(View()), rx, a, b).1)
    {
      hide Receive, Create, HandleEstablished;
      tx := [];
      var received := Receive(ep, rx);
      if received.None? {
        return;
      }
      var seg := received.value;
      match state {
        case SynSent =>
          if HasBit(seg.flags, SYN) && HasBit(seg.flags, ACK) && seg.ackNo == Wrap32(iss + 1) {
            rcvNxt := Wrap32(seg.seqNo + 1);
            sndUna := seg.ackNo;
            state := Established;
            tx := PushAck(a);
          }
        case Established =>
          tx := ProcessEstablished(seg, a, b);
        case FinWait2 =>
          tx := TakeFin(seg, b, TimeWait);
        case _ =>
      }
    }

    /** `tx_pkts.push_back(create_tcp_packet(ACK))` on an empty list. */
    method PushAck(a: Alloc) returns (tx: seq<Mbuf>)
      requires Valid()
      modifies this
      ensures Valid()
      ensures View() == Acknowledge(old(View()), a).0
      ensures tx == WireAll(ep, Acknowledge(old(View()), a).1)
    {
      WireOne(ep, Reply(Create(View(), ACK, [], a).1, a));
      var ack := CreateTcpPacket(ACK, [], a);
      tx := [ack];
    }

    method ProcessEstablished(seg: Segment, a: Alloc, b: Alloc) returns (tx: seq<Mbuf>)
      requires Valid()
      modifies this
      ensures Valid()
      ensures View() == HandleEstablished(old(View()), seg, a, b).0
      ensures tx == WireAll(ep, HandleEstablished(old(View()), seg, a, b).1)
    {
      ghost var (t1, out1) := HandleData(View(), seg, a);
      tx := TakeData(seg, a);
      if seg.ackNo > sndUna {
        sndUna := seg.ackNo;
      }
      ghost var (t2, out2) := HandleFin(View(), seg, b, FinWait2);
      var finAck := TakeFin(seg, b, FinWait2);
      tx := tx + finAck;
      WireAppend(ep, out1, out2);
    }

    method TakeData(seg: Segment, a: Alloc) returns (tx: seq<Mbuf>)
      requires Valid()
      modifies this
      ensures Valid()
      ensures View() == HandleData(old(View()), seg, a).0
      ensures tx == WireAll(ep, HandleData(old(View()), seg, a).1)
    {
      tx := [];
      if |seg.payload| > 0 {
        if seg.seqNo == rcvNxt {
          if |rxBuffer| + |seg.payload| <= MAX_RX_BUFFER_SIZE {
            rxBuffer := rxBuffer + seg.payload;
          }
          rcvNxt := Wrap32(rcvNxt + |seg.payload|);
          tx := PushAck(a);
        } else if seg.seqNo < rcvNxt {
          tx := PushAck(a);
        }
      }
    }

    /** The FIN branch; the code names FIN_WAIT_1 for a moment before moving on. */
    method TakeFin(seg: Segment, a: Alloc, next: TcpState) returns (tx: seq<Mbuf>)
      requires Valid()
      modifies this
      ensures Valid()
      ensures View() == HandleFin(old(View()), seg, a, next).0
      ensures tx == WireAll(ep, HandleFin(old(View()), seg, a, next).1)
    {
      tx := [];
      if HasBit(seg.flags, FIN) {
        rcvNxt := Wrap32(rcvNxt + 1);
        tx := PushAck(a);
        state := next;
      }
    }

    method ExtractRxData() returns (data: seq<Byte>)
      modifies this
      ensures data == old(rxBuffer)
      ensures View() == old(View()).(rxBuffer := [])
    {
      data := rxBuffer;
      rxBuffer := [];
    }
  }
}
