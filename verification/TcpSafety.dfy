/** What the receiving side can rely on, exactly how far, and the same for the send window. */
module TcpSafety {
  import opened Words
  import opened Packet
  import opened MicroTcp
  import opened TcpRuns
  import opened Subsequences

  // ---------- The peer and the network ----------

  /** seg carries the bytes of the stream from offset off, numbered as RFC 9293 section 3.4 says. */
  ghost predicate SliceAt(stream: seq<Byte>, irs: U32, seg: Segment, off: nat) {
    && off + |seg.payload| <= |stream|
    && seg.payload == stream[off..off + |seg.payload|]
    && seg.seqNo == Wrap32(irs + 1 + off)
  }

  /**
   * A segment of a peer that sends the given stream: its SYN, a slice of the stream at any offset, or any segment
   * without data, whatever its number (an acknowledgement after the peer's FIN is numbered past the stream).
   */
  ghost predicate PeerSegment(stream: seq<Byte>, irs: U32, seg: Segment) {
    if IsSyn(seg) then seg.seqNo == irs && seg.payload == []
    else seg.payload != [] ==> exists off: nat :: SliceAt(stream, irs, seg, off)
  }

  ghost predicate PeerEvent(ep: Endpoint, stream: seq<Byte>, irs: U32, e: Event) {
    e.Arrive? && Receive(ep, e.m).Some? ==> PeerSegment(stream, irs, Receive(ep, e.m).value)
  }

  /**
   * The packets of the run that reach the connection are peer segments. Which ones arrive, how often and in
   * what order is open, and so is everything else that arrives and is not a segment of this connection.
   */
  ghost predicate PeerRun(ep: Endpoint, stream: seq<Byte>, irs: U32, es: seq<Event>) {
    forall i :: 0 <= i < |es| ==> PeerEvent(ep, stream, irs, es[i])
  }

  // ---------- Receive prefix safety ----------

  /** Stream positions that rcv_nxt has passed: bytes kept, and bytes that met a full buffer. */
  function Passed(s: Sys): nat { |Kept(s)| + s.lost }

  /** The bytes kept are the stream up to what rcv_nxt has passed, with the bytes lost left out. */
  ghost predicate KeptInv(s: Sys, stream: seq<Byte>, irs: U32) {
    && (Synchronized(s) ==> s.irs == irs)
    && Passed(s) <= |stream|
    && Subsequence(Kept(s), stream[..Passed(s)])
  }

  lemma KeptIsPrefix(s: Sys, stream: seq<Byte>, irs: U32)
    requires KeptInv(s, stream, irs) && s.lost == 0
    ensures Kept(s) <= stream
  {
    SubsequenceWhole(Kept(s), stream[..Passed(s)]);
  }

  /** What `process_rx` does to the buffer with data that arrives in ESTABLISHED. */
  lemma DataBuffer(t: Tcb, seg: Segment, a: Alloc)
    ensures var t' := HandleData(t, seg, a).0;
            && t'.state == t.state
            && t'.rxBuffer == if seg.seqNo == t.rcvNxt && !BufferFull(t, seg) then t.rxBuffer + seg.payload
                              else t.rxBuffer
  {
    hide Wrap32, HasBit;
    if seg.payload == [] {
      assert t.rxBuffer + seg.payload == t.rxBuffer;
    }
  }

  /** The offset of in-order data is what rcv_nxt has passed. */
  lemma InOrderOffset(s: Sys, seg: Segment, stream: seq<Byte>, off: nat)
    requires Inv(s) && KeptInv(s, stream, s.irs) && s.tcb.state == Established && |stream| < TWO32
    requires SliceAt(stream, s.irs, seg, off) && seg.payload != [] && seg.seqNo == s.tcb.rcvNxt
    ensures off == Passed(s)
  {
    hide Wrap32, OutInv, Sent, Syns, Subsequence;
    WrapInjective(s.irs + 1, off, Passed(s));
  }

  /** The next piece of the stream, stored or lost. */
  lemma KeptGrows(kept: seq<Byte>, passed: nat, piece: seq<Byte>, stream: seq<Byte>, full: bool)
    requires passed + |piece| <= |stream| && piece == stream[passed..passed + |piece|]
    requires Subsequence(kept, stream[..passed])
    ensures Subsequence(if full then kept else kept + piece, stream[..passed + |piece|])
  {
    hide Subsequence;
    assert stream[..passed + |piece|] == stream[..passed] + piece;
    if full {
      SubsequenceSkip(kept, stream[..passed], piece);
    } else {
      SubsequenceBoth(kept, stream[..passed], piece);
    }
  }

  /** The same with the history: what is kept, what is lost. */
  lemma DataHistory(s: Sys, seg: Segment, a: Alloc)
    requires s.tcb.state == Established
    ensures var s', inOrder, full := AfterData(s, seg, a), seg.seqNo == s.tcb.rcvNxt, BufferFull(s.tcb, seg);
            && s'.tcb.state == Established && s'.irs == s.irs
            && Kept(s') == (if inOrder && !full then Kept(s) + seg.payload else Kept(s))
            && s'.lost == s.lost + if inOrder && full then |seg.payload| else 0
  {
    hide HandleData, BufferFull;
    DataBuffer(s.tcb, seg, a);
    assert s.got + s.tcb.rxBuffer + seg.payload == s.got + (s.tcb.rxBuffer + seg.payload);
  }

  lemma DataKept(s: Sys, seg: Segment, a: Alloc, stream: seq<Byte>, irs: U32)
    requires Inv(s) && KeptInv(s, stream, irs) && s.tcb.state == Established
    requires PeerSegment(stream, irs, seg) && |stream| < TWO32
    ensures KeptInv(AfterData(s, seg, a), stream, irs)
  {
    hide Wrap32, HasBit, AfterData, Subsequence, Inv, BufferFull, Kept;
    DataHistory(s, seg, a);
    var p := seg.payload;
    if p == [] {
      assert Kept(s) + p == Kept(s);
    } else if seg.seqNo == s.tcb.rcvNxt {
      var off: nat :| SliceAt(stream, irs, seg, off);
      InOrderOffset(s, seg, stream, off);
      KeptGrows(Kept(s), off, p, stream, BufferFull(s.tcb, seg));
    }
  }

  lemma DeliverKept(s: Sys, seg: Segment, a: Alloc, b: Alloc, stream: seq<Byte>, irs: U32)
    requires Inv(s) && KeptInv(s, stream, irs) && PeerSegment(stream, irs, seg) && |stream| < TWO32
    ensures KeptInv(Deliver(s, seg, a, b), stream, irs)
  {
    hide Wrap32, HasBit, AfterData, Subsequence, OutInv;
    if s.tcb.state == Established {
      DataKept(s, seg, a, stream, irs);
      DataKeeps(s, seg, a);
    }
  }

  lemma StepKept(ep: Endpoint, s: Sys, e: Event, stream: seq<Byte>, irs: U32)
    requires Inv(s) && KeptInv(s, stream, irs) && PeerEvent(ep, stream, irs, e) && |stream| < TWO32
    ensures KeptInv(Next(ep, s, e), stream, irs)
  {
    hide Wrap32, HasBit, Receive, Deliver, PeerSegment, Subsequence;
    match e
    case Arrive(m, a, b) =>
      if Receive(ep, m).Some? {
        DeliverKept(s, Receive(ep, m).value, a, b, stream, irs);
      }
    case Extract =>
      assert Kept(Next(ep, s, e)) == Kept(s);
    case _ =>
  }

  lemma {:induction false} RunKept(ep: Endpoint, iss: U32, es: seq<Event>, stream: seq<Byte>, irs: U32)
    requires PeerRun(ep, stream, irs, es) && |stream| < TWO32
    ensures KeptInv(Run(ep, Init(iss), es), stream, irs)
  {
    if es != [] {
      hide Next, Inv, PeerEvent;
      var front := es[..|es| - 1];
      RunKept(ep, iss, front, stream, irs);
      RunKeeps(ep, iss, front);
      StepKept(ep, Run(ep, Init(iss), front), es[|es| - 1], stream, irs);
    }
  }

  /**
   * Receive safety: under any loss, duplication and reordering, and across sequence-number wrap, the bytes
   * extracted followed by the bytes still buffered are the first bytes of the peer's stream without those that met
   * a full buffer, in order. If none did, they are a prefix of the stream.
   */
  lemma {:induction false} ReceivePrefix(ep: Endpoint, iss: U32, irs: U32, stream: seq<Byte>, es: seq<Event>)
    requires PeerRun(ep, stream, irs, es) && |stream| < TWO32
    ensures var s := Run(ep, Init(iss), es);
            && |s.got + s.tcb.rxBuffer| + s.lost <= |stream|
            && Subsequence(s.got + s.tcb.rxBuffer, stream[..|s.got + s.tcb.rxBuffer| + s.lost])
            && (s.lost == 0 ==> s.got + s.tcb.rxBuffer <= stream)
  {
    hide Next, Run, Subsequence;
    RunKept(ep, iss, es, stream, irs);
    if Run(ep, Init(iss), es).lost == 0 {
      KeptIsPrefix(Run(ep, Init(iss), es), stream, irs);
    }
  }

  // ---------- The bound on the stream is exact ----------

  const GRANTED := Alloc(true, Checksums(0, 0))

  function SynAck(iss: U32, irs: U32): Segment {
    Segment(SYN + ACK, irs, Wrap32(iss + 1), [])
  }

  function ByteSegment(stream: seq<Byte>, irs: U32, off: nat): Segment
    requires off < |stream|
  {
    Segment(ACK, Wrap32(irs + 1 + off), 0, [stream[off]])
  }

  function Arrival(ep: Endpoint, seg: Segment): Event {
    Arrive(Encode(ep.Swap(), seg, Checksums(0, 0)), GRANTED, GRANTED)
  }

  /** The handshake; afterwards the connection is established. */
  function HandshakeEvents(ep: Endpoint, iss: U32, irs: U32): seq<Event> {
    [Open(GRANTED), Arrival(ep, SynAck(iss, irs))]
  }

  function Tail(drain: bool): seq<Event> { if drain then [Extract] else [] }

  /** The handshake, then the first n bytes of the stream, one per packet, each extracted at once or left buffered. */
  function Feed(ep: Endpoint, iss: U32, irs: U32, stream: seq<Byte>, n: nat, drain: bool): seq<Event>
    requires n <= |stream|
  {
    if n == 0 then HandshakeEvents(ep, iss, irs)
    else Feed(ep, iss, irs, stream, n - 1, drain) + [Arrival(ep, ByteSegment(stream, irs, n - 1))] + Tail(drain)
  }

  lemma FeedUnfold(ep: Endpoint, iss: U32, irs: U32, stream: seq<Byte>, n: nat, drain: bool)
    requires 0 < n <= |stream|
    ensures Feed(ep, iss, irs, stream, n, drain)
         == Feed(ep, iss, irs, stream, n - 1, drain) + [Arrival(ep, ByteSegment(stream, irs, n - 1))] + Tail(drain)
  {
    hide Arrival, ByteSegment;
  }

  lemma ArrivalIs(ep: Endpoint, s: Sys, seg: Segment)
    requires |seg.payload| <= 65481
    ensures Receive(ep, Arrival(ep, seg).m) == Some(seg)
    ensures Next(ep, s, Arrival(ep, seg)) == Deliver(s, seg, GRANTED, GRANTED)
  {
    hide Receive, Encode, Deliver;
    PacketRoundTrip(ep.Swap(), seg, Checksums(0, 0));
  }

  lemma RunOne(ep: Endpoint, s: Sys, es: seq<Event>, e: Event)
    ensures Run(ep, s, es + [e]) == Next(ep, Run(ep, s, es), e)
  {
    hide Next;
    assert (es + [e])[..|es|] == es;
  }

  lemma RunTail(ep: Endpoint, s: Sys, es: seq<Event>, drain: bool)
    ensures var s' := Run(ep, s, es);
            Run(ep, s, es + Tail(drain)) == if drain then Next(ep, s', Extract) else s'
  {
    hide Next, Run;
    if drain {
      RunOne(ep, s, es, Extract);
    } else {
      assert es + [] == es;
    }
  }

  lemma PeerExtend(ep: Endpoint, stream: seq<Byte>, irs: U32, es: seq<Event>, seg: Segment, drain: bool)
    requires PeerRun(ep, stream, irs, es) && PeerSegment(stream, irs, seg) && |seg.payload| <= 65481
    ensures PeerRun(ep, stream, irs, es + [Arrival(ep, seg)] + Tail(drain))
  {
    hide Receive, Encode, PeerSegment;
    ArrivalIs(ep, Init(0), seg);
  }

  lemma ByteIsPeer(stream: seq<Byte>, irs: U32, off: nat)
    requires off < |stream|
    ensures PeerSegment(stream, irs, ByteSegment(stream, irs, off)) && |ByteSegment(stream, irs, off).payload| == 1
  {
    hide Wrap32;
    assert SliceAt(stream, irs, ByteSegment(stream, irs, off), off);
  }

  /** In-order data moves rcv_nxt on; it is stored if the buffer has room for it, and lost otherwise. */
  lemma InOrder(s: Sys, seg: Segment, a: Alloc, b: Alloc)
    requires s.tcb.state == Established && seg.seqNo == s.tcb.rcvNxt && seg.flags == ACK && seg.payload != []
    ensures var s', full := Deliver(s, seg, a, b), BufferFull(s.tcb, seg);
            && s'.tcb.state == Established && s'.irs == s.irs && s'.got == s.got
            && s'.tcb.rcvNxt == Wrap32(s.tcb.rcvNxt + |seg.payload|)
            && s'.lost == s.lost + (if full then |seg.payload| else 0)
            && s'.tcb.rxBuffer == if full then s.tcb.rxBuffer else s.tcb.rxBuffer + seg.payload
  {
    hide Wrap32;
  }

  lemma {:induction false} RcvNxtIs(ep: Endpoint, iss: U32, es: seq<Event>)
    ensures var s := Run(ep, Init(iss), es);
            s.tcb.state == Established ==> s.tcb.rcvNxt == Wrap32(s.irs + 1 + Passed(s))
  {
    hide Next, Run, OutInv, Wrap32;
    RunKeeps(ep, iss, es);
  }

  lemma ByteTaken(ep: Endpoint, s: Sys, seg: Segment)
    requires s.tcb.state == Established && seg.seqNo == s.tcb.rcvNxt && seg.flags == ACK && |seg.payload| == 1
    ensures var s' := Next(ep, s, Arrival(ep, seg));
            var full := |s.tcb.rxBuffer| >= 10_485_760;
            && s'.tcb.state == Established && s'.irs == s.irs && s'.got == s.got
            && s'.lost == s.lost + (if full then 1 else 0)
            && s'.tcb.rxBuffer == if full then s.tcb.rxBuffer else s.tcb.rxBuffer + seg.payload
  {
    hide Next, Arrival, Deliver;
    ArrivalIs(ep, s, seg);
    InOrder(s, seg, GRANTED, GRANTED);
  }

  /** One more byte of the stream arrives as a packet, after any run that has passed exactly the bytes before it. */
  lemma ByteArrives(ep: Endpoint, iss: U32, irs: U32, stream: seq<Byte>, es: seq<Event>, off: nat)
    requires PeerRun(ep, stream, irs, es) && off < |stream|
    requires var s := Run(ep, Init(iss), es);
             s.tcb.state == Established && s.irs == irs && Passed(s) % TWO32 == off % TWO32
    ensures var es' := es + [Arrival(ep, ByteSegment(stream, irs, off))];
            var s, s' := Run(ep, Init(iss), es), Run(ep, Init(iss), es');
            var full := |s.tcb.rxBuffer| >= 10_485_760;
            && PeerRun(ep, stream, irs, es')
            && s'.tcb.state == Established && s'.irs == irs && s'.got == s.got
            && s'.lost == s.lost + (if full then 1 else 0)
            && s'.tcb.rxBuffer == if full then s.tcb.rxBuffer else s.tcb.rxBuffer + [stream[off]]
  {
    hide Next, Run, Arrival, PeerSegment, Wrap32, Passed, PeerRun;
    var s, seg := Run(ep, Init(iss), es), ByteSegment(stream, irs, off);
    RcvNxtIs(ep, iss, es);
    SameNumber(irs + 1, Passed(s), off);
    ByteIsPeer(stream, irs, off);
    PeerExtend(ep, stream, irs, es, seg, false);
    assert es + [Arrival(ep, seg)] + [] == es + [Arrival(ep, seg)];
    RunOne(ep, Init(iss), es, Arrival(ep, seg));
    ByteTaken(ep, s, seg);
  }

  lemma SameNumber(base: int, m: nat, n: nat)
    requires m % TWO32 == n % TWO32
    ensures Wrap32(base + m) == Wrap32(base + n)
  {
    assert m == n + TWO32 * (m / TWO32 - n / TWO32);
  }

  /** The first n bytes of the stream have arrived, extracted or still buffered. */
  predicate Arrived(s: Sys, irs: U32, stream: seq<Byte>, n: nat, drain: bool)
    requires n <= |stream|
  {
    && s.tcb.state == Established && s.lost == 0 && s.irs == irs
    && s.got == (if drain then stream[..n] else [])
    && s.tcb.rxBuffer == if drain then [] else stream[..n]
  }

  lemma FeedNext(ep: Endpoint, iss: U32, irs: U32, stream: seq<Byte>, es: seq<Event>, n: nat, drain: bool)
    requires n < |stream| && (drain || n < 10_485_760)
    requires PeerRun(ep, stream, irs, es) && Arrived(Run(ep, Init(iss), es), irs, stream, n, drain)
    ensures var es' := es + [Arrival(ep, ByteSegment(stream, irs, n))] + Tail(drain);
            PeerRun(ep, stream, irs, es') && Arrived(Run(ep, Init(iss), es'), irs, stream, n + 1, drain)
  {
    hide Next, Arrival, Run, ByteSegment, PeerRun, Tail;
    assert [] + stream[..n] == stream[..n] + [] == stream[..n];
    ByteArrives(ep, iss, irs, stream, es, n);
    var es1 := es + [Arrival(ep, ByteSegment(stream, irs, n))];
    RunTail(ep, Init(iss), es1, drain);
    ExtractIs(ep, Run(ep, Init(iss), es1));
    PeerTail(ep, stream, irs, es1, drain);
    assert [] + [stream[n]] == [stream[n]];
    assert stream[..n + 1] == stream[..n] + [stream[n]];
  }

  /**
   * In-order delivery hands over the whole stream, or buffers it while there is room: the run really makes progress.
   */
  lemma {:induction false} FeedReaches(ep: Endpoint, iss: U32, irs: U32, stream: seq<Byte>, n: nat, drain: bool)
    requires n <= |stream| && (drain || n <= 10_485_760)
    ensures PeerRun(ep, stream, irs, Feed(ep, iss, irs, stream, n, drain))
    ensures Arrived(Run(ep, Init(iss), Feed(ep, iss, irs, stream, n, drain)), irs, stream, n, drain)
  {
    hide Arrival, Run, Feed, ByteSegment, PeerRun, HandshakeEvents, Tail;
    if n == 0 {
      HandshakeDone(ep, iss, irs, stream);
      FeedNothing(ep, iss, irs, stream, drain);
      assert stream[..0] == [];
    } else {
      hide Arrived;
      FeedUnfold(ep, iss, irs, stream, n, drain);
      FeedReaches(ep, iss, irs, stream, n - 1, drain);
      FeedNext(ep, iss, irs, stream, Feed(ep, iss, irs, stream, n - 1, drain), n - 1, drain);
    }
  }

  lemma PeerTail(ep: Endpoint, stream: seq<Byte>, irs: U32, es: seq<Event>, drain: bool)
    requires PeerRun(ep, stream, irs, es)
    ensures PeerRun(ep, stream, irs, es + Tail(drain))
  {
    hide Receive, PeerSegment;
  }

  lemma FeedNothing(ep: Endpoint, iss: U32, irs: U32, stream: seq<Byte>, drain: bool)
    ensures Feed(ep, iss, irs, stream, 0, drain) == HandshakeEvents(ep, iss, irs)
  {
    hide HandshakeEvents;
  }

  lemma HandshakeDone(ep: Endpoint, iss: U32, irs: U32, stream: seq<Byte>)
    ensures var s := Run(ep, Init(iss), HandshakeEvents(ep, iss, irs));
            && s.tcb.state == Established && s.tcb.rxBuffer == [] && s.lost == 0 && s.irs == irs && s.got == []
            && s.tcb.sndUna == s.tcb.sndNxt == Wrap32(iss + 1)
    ensures PeerRun(ep, stream, irs, HandshakeEvents(ep, iss, irs))
  {
    hide Receive, Encode, Wrap32;
    var seg := SynAck(iss, irs);
    var e, f := Open(GRANTED), Arrival(ep, seg);
    RunTwo(ep, Init(iss), [], e, f);
    assert [] + [e, f] == [e, f];
    var s := Next(ep, Init(iss), e);
    assert s.tcb.state == SynSent && s.tcb.iss == iss && s.tcb.sndNxt == Wrap32(iss + 1);
    SameNext(s.tcb);
    ArrivalIs(ep, s, seg);
    assert IsSyn(seg) && HasBit(seg.flags, ACK);
  }

  lemma RunTwo(ep: Endpoint, s: Sys, es: seq<Event>, e: Event, f: Event)
    ensures Run(ep, s, es + [e, f]) == Next(ep, Next(ep, Run(ep, s, es), e), f)
  {
    hide Next, Run;
    RunOne(ep, s, es, e);
    RunOne(ep, s, es + [e], f);
    assert es + [e] + [f] == es + [e, f];
  }

  /** An acknowledgement consumes no sequence number. */
  lemma SameNext(t: Tcb)
    ensures Wrap32(t.sndNxt + 0) == t.sndNxt
  {
  }

  ghost predicate SafeStream(ep: Endpoint, iss: U32, irs: U32, stream: seq<Byte>) {
    forall es :: PeerRun(ep, stream, irs, es) && Run(ep, Init(iss), es).lost == 0
                 ==> Kept(Run(ep, Init(iss), es)) <= stream
  }

  /** A duplicate from 2^32 bytes back is taken for new data once the whole stream has been received. */
  lemma OldByteAccepted(ep: Endpoint, iss: U32, irs: U32, stream: seq<Byte>)
    requires |stream| >= TWO32
    ensures !SafeStream(ep, iss, irs, stream)
  {
    hide Next, Run, PeerEvent, Arrival, Feed;
    var n := |stream|;
    var front := Feed(ep, iss, irs, stream, n, true);
    FeedReaches(ep, iss, irs, stream, n, true);
    ByteArrives(ep, iss, irs, stream, front, n - TWO32);
    var s' := Run(ep, Init(iss), front + [Arrival(ep, ByteSegment(stream, irs, n - TWO32))]);
    assert s'.lost == 0 && |Kept(s')| == n + 1;
  }

  /** Prefix safety holds over all runs exactly for streams shorter than 2^32 bytes. */
  lemma {:induction false} PrefixSafetyExact(ep: Endpoint, iss: U32, irs: U32, stream: seq<Byte>)
    ensures SafeStream(ep, iss, irs, stream) <==> |stream| < TWO32
  {
    hide Next, Run, PeerRun, Subsequence;
    if |stream| < TWO32 {
      forall es | PeerRun(ep, stream, irs, es) && Run(ep, Init(iss), es).lost == 0
        ensures Kept(Run(ep, Init(iss), es)) <= stream
      {
        ReceivePrefix(ep, iss, irs, stream, es);
      }
    } else {
      OldByteAccepted(ep, iss, irs, stream);
    }
  }

  // ---------- The two plain comparisons ----------

  /**
   * The branch that re-acknowledges old data compares sequence numbers as plain integers. For a segment that is
   * not the next one, it tells old data from new exactly when both offsets lie on the same side of the wrap.
   */
  lemma ReAckExact(s: Sys, seg: Segment, a: Alloc, stream: seq<Byte>, off: nat)
    requires Inv(s) && KeptInv(s, stream, s.irs) && s.tcb.state == Established && |stream| < TWO32
    requires SliceAt(stream, s.irs, seg, off) && seg.payload != [] && off != Passed(s)
    ensures var base := Wrap32(s.irs + 1);
            ((HandleData(s.tcb, seg, a).1 != [] <==> off < Passed(s))
             <==> (base + off < TWO32 <==> base + Passed(s) < TWO32))
  {
    hide OutInv, Wrap32, Create, Sent, Subsequence;
    var n := Passed(s);
    var base := Wrap32(s.irs + 1);
    WrapAdd(s.irs + 1, off);
    WrapAdd(s.irs + 1, n);
    WrapOnce(base + off);
    WrapOnce(base + n);
    assert seg.seqNo == Wrap32(base + off) && s.tcb.rcvNxt == Wrap32(base + n);
  }

  /**
   * A run in which old data is not acknowledged again: the peer's numbers start at the highest one, two bytes have
   * been received, and the first one is repeated.
   */
  lemma DuplicateUnanswered(ep: Endpoint, iss: U32, stream: seq<Byte>)
    requires |stream| >= 2
    ensures var irs, es := 0xFFFF_FFFE, Feed(ep, iss, 0xFFFF_FFFE, stream, 2, true);
            var s, again := Run(ep, Init(iss), es), Arrival(ep, ByteSegment(stream, irs, 0));
            && PeerRun(ep, stream, irs, es + [again])
            && s.got == stream[..2]
            && Run(ep, Init(iss), es + [again]) == s
  {
    hide Next, Run, Arrival, PeerSegment, Feed, Wrap32, PeerRun;
    var irs, es := 0xFFFF_FFFE, Feed(ep, iss, 0xFFFF_FFFE, stream, 2, true);
    var s, seg := Run(ep, Init(iss), es), ByteSegment(stream, irs, 0);
    FeedReaches(ep, iss, irs, stream, 2, true);
    RcvNxtIs(ep, iss, es);
    ByteIsPeer(stream, irs, 0);
    PeerExtend(ep, stream, irs, es, seg, false);
    assert es + [Arrival(ep, seg)] + [] == es + [Arrival(ep, seg)];
    RunOne(ep, Init(iss), es, Arrival(ep, seg));
    ArrivalIs(ep, s, seg);
    assert seg.seqNo == 0xFFFF_FFFF && s.tcb.rcvNxt == 1 by { DuplicateNumbers(); }
    AheadIgnored(s, seg);
  }

  lemma DuplicateNumbers()
    ensures Wrap32(0xFFFF_FFFE + 1 + 0) == 0xFFFF_FFFF && Wrap32(0xFFFF_FFFE + 1 + 2) == 1
  {
  }

  /** Data in front of rcv_nxt in the plain order changes nothing and draws no answer. */
  lemma AheadIgnored(s: Sys, seg: Segment)
    requires s.tcb.state == Established && seg.seqNo > s.tcb.rcvNxt && seg.flags == ACK && seg.ackNo == 0
    ensures Deliver(s, seg, GRANTED, GRANTED) == s
  {
    hide Wrap32;
  }

  /** The acknowledgement number of the SYN and the first k bytes of data. */
  predicate Acknowledges(s: Sys, seg: Segment, k: nat) {
    seg.ackNo == Wrap32(s.tcb.iss + 1 + k)
  }

  /** The peer acknowledges only what was sent: the SYN, or the SYN and some of the data. */
  ghost predicate HonestAck(s: Sys, seg: Segment) {
    || (!HasBit(seg.flags, ACK) && seg.ackNo == 0)
    || (Syns(s.out) == 1 && exists k: nat :: k <= |Sent(s.out)| && Acknowledges(s, seg, k))
  }

  ghost predicate HonestRun(ep: Endpoint, s: Sys, es: seq<Event>) {
    es != [] ==>
      var e := es[|es| - 1];
      && HonestRun(ep, s, es[..|es| - 1])
      && (e.Arrive? && Receive(ep, e.m).Some? ==> HonestAck(Run(ep, s, es[..|es| - 1]), Receive(ep, e.m).value))
  }

  ghost predicate WindowInv(s: Sys) {
    Synchronized(s) ==>
      && Syns(s.out) == 1
      && (s.tcb.iss + 1 < TWO32 ==> s.tcb.sndUna >= s.tcb.iss + 1)
      && (s.tcb.iss + 1 + |Sent(s.out)| < TWO32 ==> s.tcb.sndUna <= s.tcb.iss + 1 + |Sent(s.out)|)
  }

  lemma SynsKept(s: Sys, r: (Tcb, seq<Reply>), lost: nat, irs: U32)
    requires Syns(s.out) == 1
    requires r.1 != [] && r.1[0].seg.Some? ==> r.1[0].seg.value.payload == []
    ensures var s' := AfterReply(s, r, lost, irs); Syns(s'.out) == 1 && Sent(s'.out) == Sent(s.out)
  {
    if r.1 != [] && r.1[0].seg.Some? {
      var s' := s.(tcb := r.0, lost := lost, irs := irs);
      SentAppend(s.out, Emission(r.1[0].seg.value, Accepted(s')));
      assert Sent(s.out) + [] == Sent(s.out);
    } else {
      assert AfterReply(s, r, lost, irs).out == s.out;
    }
  }

  lemma HonestBound(s: Sys, seg: Segment)
    requires HonestAck(s, seg)
    ensures HasBit(seg.flags, ACK) ==> Syns(s.out) == 1
    ensures s.tcb.iss + 1 + |Sent(s.out)| < TWO32 ==> seg.ackNo <= s.tcb.iss + 1 + |Sent(s.out)|
  {
  }

  lemma DeliverWindow(s: Sys, seg: Segment, a: Alloc, b: Alloc)
    requires WindowInv(s) && HonestAck(s, seg)
    ensures WindowInv(Deliver(s, seg, a, b))
  {
    hide Sent, Syns, HasBit, HonestAck;
    HonestBound(s, seg);
    match s.tcb.state
    case SynSent =>
      var r := HandleSynAck(s.tcb, seg, a);
      if r.0.state == Established {
        SynsKept(s, r, s.lost, seg.seqNo);
      }
    case Established =>
      var s1 := AfterData(s, seg, a);
      SynsKept(s, HandleData(s.tcb, seg, a), s1.lost, s.irs);
      var s2 := s1.(tcb := HandleAck(s1.tcb, seg));
      SynsKept(s2.(fins := Deliver(s, seg, a, b).fins), HandleFin(s2.tcb, seg, b, FinWait2), s2.lost, s2.irs);
    case FinWait2 =>
      SynsKept(s.(fins := Deliver(s, seg, a, b).fins), HandleFin(s.tcb, seg, b, TimeWait), s.lost, s.irs);
    case _ =>
  }

  lemma StepWindow(ep: Endpoint, s: Sys, e: Event)
    requires WindowInv(s)
    requires e.Arrive? && Receive(ep, e.m).Some? ==> HonestAck(s, Receive(ep, e.m).value)
    ensures WindowInv(Next(ep, s, e))
  {
    hide Receive, Deliver, HonestAck, Wrap32, Sent;
    match e
    case Open(a) =>
      assert s.out + [] == s.out;
    case Arrive(m, a, b) =>
      if Receive(ep, m).Some? {
        DeliverWindow(s, Receive(ep, m).value, a, b);
      }
    case Send(data, a) =>
      if s.tcb.state == Established && a.ok {
        SentAppend(s.out, Emission(SendData(s.tcb, data, a).1.value, Accepted(s)));
      } else {
        assert s.out + [] == s.out;
      }
    case Extract =>
  }

  lemma {:induction false} RunWindow(ep: Endpoint, iss: U32, es: seq<Event>)
    requires HonestRun(ep, Init(iss), es)
    ensures WindowInv(Run(ep, Init(iss), es))
  {
    if es != [] {
      hide Next, HonestAck, WindowInv, Receive;
      var front := es[..|es| - 1];
      RunWindow(ep, iss, front);
      StepWindow(ep, Run(ep, Init(iss), front), es[|es| - 1]);
    }
  }

  /**
   * The send window: against a peer that acknowledges only what was sent, iss < snd_una <= snd_nxt holds once
   * synchronized as long as the numbers used have not wrapped. For less than 2^32 bytes sent it holds only then;
   * after more, snd_nxt has come round and may lie on either side of snd_una.
   */
  lemma {:induction false} WindowExact(ep: Endpoint, iss: U32, es: seq<Event>)
    requires HonestRun(ep, Init(iss), es)
    ensures var s := Run(ep, Init(iss), es);
            && (Synchronized(s) && iss + 1 + |Sent(s.out)| < TWO32 ==> iss < s.tcb.sndUna <= s.tcb.sndNxt)
            && (Synchronized(s) && |Sent(s.out)| < TWO32 ==>
                  (iss < s.tcb.sndUna <= s.tcb.sndNxt <==> iss + 1 + |Sent(s.out)| < TWO32))
  {
    hide Next, Run, OutInv, HonestRun, Sent, Syns, Wrap32;
    RunWindow(ep, iss, es);
    RunKeeps(ep, iss, es);
    var s := Run(ep, Init(iss), es);
    if Synchronized(s) && |Sent(s.out)| < TWO32 {
      var top := iss + 1 + |Sent(s.out)|;
      assert s.tcb.sndNxt == Wrap32(top);
      WrapOnce(top);
    }
  }

  lemma HandshakeHonest(ep: Endpoint, iss: U32, irs: U32)
    ensures HonestRun(ep, Init(iss), HandshakeEvents(ep, iss, irs))
  {
    hide Receive, Encode, Wrap32;
    var seg := SynAck(iss, irs);
    var es := HandshakeEvents(ep, iss, irs);
    assert es[..1] == [Open(GRANTED)] && es[..1][..0] == [];
    var s := Run(ep, Init(iss), es[..1]);
    assert Run(ep, Init(iss), []) == Init(iss);
    assert s == Next(ep, Init(iss), Open(GRANTED));
    ArrivalIs(ep, s, seg);
    hide Arrival;
    assert Acknowledges(s, seg, 0) && Syns(s.out) == 1;
    assert HonestRun(ep, Init(iss), es[..1]);
  }

  /** The wrap in a concrete run with an honest peer: the highest usable number, then one byte of data. */
  lemma WindowWraps(ep: Endpoint, irs: U32)
    ensures var es := HandshakeEvents(ep, 0xFFFF_FFFE, irs) + [Event.Send([7], GRANTED)];
            var s := Run(ep, Init(0xFFFF_FFFE), es);
            && HonestRun(ep, Init(0xFFFF_FFFE), es)
            && s.tcb.state == Established && s.tcb.sndUna == 0xFFFF_FFFF && s.tcb.sndNxt == 0
  {
    hide HandshakeEvents;
    var front := HandshakeEvents(ep, 0xFFFF_FFFE, irs);
    HandshakeDone(ep, 0xFFFF_FFFE, irs, []);
    HandshakeHonest(ep, 0xFFFF_FFFE, irs);
    assert (front + [Event.Send([7], GRANTED)])[..|front|] == front;
    var s := Run(ep, Init(0xFFFF_FFFE), front);
    hide Run;
    assert s.tcb.sndNxt == 0xFFFF_FFFF;
  }

  /** Without wrap an acknowledgement of k bytes moves snd_una up to them, and never back. */
  lemma AckProgress(s: Sys, seg: Segment, a: Alloc, b: Alloc, k: nat)
    requires s.tcb.state == Established && Acknowledges(s, seg, k) && s.tcb.iss + 1 + k < TWO32
    ensures var una := Deliver(s, seg, a, b).tcb.sndUna;
            una == if s.tcb.iss + 1 + k > s.tcb.sndUna then s.tcb.iss + 1 + k else s.tcb.sndUna
  {
    hide HasBit, BufferFull;
  }

  // ---------- The full buffer ----------

  ghost predicate NothingLost(ep: Endpoint, iss: U32, irs: U32, stream: seq<Byte>) {
    forall es :: PeerRun(ep, stream, irs, es) ==> Run(ep, Init(iss), es).lost == 0
  }

  /** Data of a stream that fits the buffer altogether finds room. */
  lemma FittingData(ep: Endpoint, s: Sys, e: Event, stream: seq<Byte>, irs: U32)
    requires Inv(s) && KeptInv(s, stream, irs) && s.lost == 0 && PeerEvent(ep, stream, irs, e)
    requires |stream| <= 10_485_760
    ensures Next(ep, s, e).lost == 0
  {
    hide Receive, Wrap32, HasBit, Create, OutInv, Subsequence, Inv;
    if e.Arrive? && Receive(ep, e.m).Some? && s.tcb.state == Established {
      var seg := Receive(ep, e.m).value;
      if seg.payload != [] && seg.seqNo == s.tcb.rcvNxt {
        var off: nat :| SliceAt(stream, irs, seg, off);
        InOrderOffset(s, seg, stream, off);
        assert !BufferFull(s.tcb, seg);
      }
    }
  }

  lemma {:induction false} FittingStream(ep: Endpoint, iss: U32, irs: U32, stream: seq<Byte>, es: seq<Event>)
    requires PeerRun(ep, stream, irs, es) && |stream| <= 10_485_760
    ensures Run(ep, Init(iss), es).lost == 0
  {
    if es != [] {
      hide Next, Inv, PeerEvent, KeptInv;
      var front := es[..|es| - 1];
      FittingStream(ep, iss, irs, stream, front);
      RunKeeps(ep, iss, front);
      RunKept(ep, iss, front, stream, irs);
      FittingData(ep, Run(ep, Init(iss), front), es[|es| - 1], stream, irs);
    }
  }

  /** Over all runs of a peer nothing is lost exactly if the whole stream fits the buffer. */
  lemma {:induction false} NothingLostExact(ep: Endpoint, iss: U32, irs: U32, stream: seq<Byte>)
    ensures NothingLost(ep, iss, irs, stream) <==> |stream| <= 10_485_760
  {
    hide Next, Run, PeerEvent, Feed, Arrival;
    if |stream| <= 10_485_760 {
      forall es | PeerRun(ep, stream, irs, es) ensures Run(ep, Init(iss), es).lost == 0 {
        FittingStream(ep, iss, irs, stream, es);
      }
    } else {
      var full := Feed(ep, iss, irs, stream, 10_485_760, false);
      FeedReaches(ep, iss, irs, stream, 10_485_760, false);
      ByteArrives(ep, iss, irs, stream, full, 10_485_760);
    }
  }

  /** The buffer filled, one byte lost, the buffer drained, the next byte. */
  function GapEvents(ep: Endpoint, iss: U32, irs: U32, stream: seq<Byte>): seq<Event>
    requires |stream| > 10_485_760 + 1
  {
    var n := 10_485_760;
    Feed(ep, iss, irs, stream, n, false)
    + [Arrival(ep, ByteSegment(stream, irs, n))] + Tail(true) + [Arrival(ep, ByteSegment(stream, irs, n + 1))]
  }

  /**
   * For every stream that is longer by two bytes there is a run in which the bytes handed over skip one: they are
   * still a prefix of the stream only if those two bytes are the same.
   */
  lemma {:induction false} GapRun(ep: Endpoint, iss: U32, irs: U32, stream: seq<Byte>)
    requires |stream| > 10_485_760 + 1
    ensures var n, es := 10_485_760, GapEvents(ep, iss, irs, stream);
            var s := Run(ep, Init(iss), es);
            && PeerRun(ep, stream, irs, es)
            && Kept(s) == stream[..n] + [stream[n + 1]]
            && (Kept(s) <= stream <==> stream[n] == stream[n + 1])
  {
    hide Next, Run, PeerEvent, Feed, Arrival;
    var n := 10_485_760;
    var full := Feed(ep, iss, irs, stream, n, false);
    FeedReaches(ep, iss, irs, stream, n, false);
    ByteArrives(ep, iss, irs, stream, full, n);
    var lost := full + [Arrival(ep, ByteSegment(stream, irs, n))];
    PeerTail(ep, stream, irs, lost, true);
    RunTail(ep, Init(iss), lost, true);
    ExtractIs(ep, Run(ep, Init(iss), lost));
    ByteArrives(ep, iss, irs, stream, lost + Tail(true), n + 1);
    Splice(stream, n, [stream[n + 1]]);
    assert stream[n..n + 1] == [stream[n]];
  }

  /**
   * The same from any state, for segments of any size: data that meets a full buffer is acknowledged and not
   * stored, and the bytes kept skip it.
   */
  lemma {:induction false} FullBufferGap(s: Sys, seg: Segment, next: Segment, a: Alloc, b: Alloc, stream: seq<Byte>)
    requires Inv(s) && s.tcb.state == Established && s.lost == 0 && Kept(s) <= stream && |stream| < TWO32
    requires seg.flags == ACK && next.flags == ACK && seg.payload != [] && next.payload != []
    requires SliceAt(stream, s.irs, seg, |Kept(s)|) && SliceAt(stream, s.irs, next, |Kept(s)| + |seg.payload|)
    requires BufferFull(s.tcb, seg) && |next.payload| < TWO16
    ensures var n, p, q := |Kept(s)|, |seg.payload|, |next.payload|;
            var s1 := Deliver(s, seg, a, b);
            var s2 := Deliver(s1.(tcb := s1.tcb.(rxBuffer := []), got := Kept(s1)), next, a, b);
            && Kept(s2) == stream[..n] + stream[n + p..n + p + q]
            && (Kept(s2) <= stream <==> stream[n..n + q] == stream[n + p..n + p + q])
  {
    hide Wrap32, OutInv, Deliver, Sent, Syns, HasBit, BufferFull;
    var n, p, q := |Kept(s)|, |seg.payload|, |next.payload|;
    var s1 := Deliver(s, seg, a, b);
    InOrder(s, seg, a, b);
    WrapAdd(s.irs + 1 + n, p);
    var drained := s1.(tcb := s1.tcb.(rxBuffer := []), got := Kept(s1));
    assert Kept(drained) == Kept(s) == stream[..n];
    assert !BufferFull(drained.tcb, next) by { EmptyHasRoom(drained.tcb, next); }
    InOrder(drained, next, a, b);
    Splice(stream, n, next.payload);
  }

  lemma EmptyHasRoom(t: Tcb, seg: Segment)
    requires t.rxBuffer == [] && |seg.payload| < TWO16
    ensures !BufferFull(t, seg)
  {
  }

  /** A prefix followed by a piece is a prefix exactly if the piece is what comes next. */
  lemma Splice(stream: seq<Byte>, n: nat, piece: seq<Byte>)
    requires n + |piece| <= |stream|
    ensures stream[..n] + piece <= stream <==> stream[n..n + |piece|] == piece
  {
    var q := |piece|;
    assert stream[..n + q] == stream[..n] + stream[n..n + q];
    if stream[..n] + piece <= stream {
      assert stream[..n] + piece == stream[..n + q];
      assert (stream[..n] + piece)[n..] == piece && stream[..n + q][n..] == stream[n..n + q];
    }
  }

  // ---------- The peer's FIN ----------

  /**
   * The FIN branch does not look at the segment's number. A FIN that ends the stream is counted whenever it arrives;
   * the stream has then been passed completely, and rcv_nxt is the number after the FIN, exactly if nothing before the
   * segment was missing.
   */
  lemma FinExact(s: Sys, seg: Segment, a: Alloc, b: Alloc, stream: seq<Byte>, off: nat)
    requires Inv(s) && KeptInv(s, stream, s.irs) && s.tcb.state == Established && |stream| + 1 < TWO32
    requires !IsSyn(seg) && HasBit(seg.flags, FIN)
    requires SliceAt(stream, s.irs, seg, off) && off + |seg.payload| == |stream|
    ensures var s' := Deliver(s, seg, a, b);
            && s'.tcb.state == FinWait2
            && (Passed(s') == |stream| <==> off == Passed(s) || Passed(s) == |stream|)
            && (s'.tcb.rcvNxt == Wrap32(s.irs + 1 + |stream| + 1) <==> Passed(s') == |stream|)
  {
    hide Wrap32, HasBit, AfterData, OutInv, Subsequence, Sent, Syns, SliceAt;
    DataKeeps(s, seg, a);
    DataKept(s, seg, a, stream, s.irs);
    DataPassed(s, seg, a, stream, off);
    var s1 := AfterData(s, seg, a);
    var s2 := s1.(tcb := HandleAck(s1.tcb, seg));
    FinKeeps(s2, seg, b, FinWait2);
    var s' := Deliver(s, seg, a, b);
    FinPasses(s2, seg, b);
    if s'.tcb.rcvNxt == Wrap32(s.irs + 1 + |stream| + 1) {
      WrapInjective(s.irs + 1, Passed(s') + 1, |stream| + 1);
    }
  }

  lemma FinPasses(s: Sys, seg: Segment, b: Alloc)
    requires Inv(s) && HasBit(seg.flags, FIN) && s.tcb.state == Established
    ensures var s' := AfterFin(s, seg, b, FinWait2);
            && s'.tcb.state == FinWait2 && Passed(s') == Passed(s)
            && s'.tcb.rcvNxt == Wrap32(s.irs + 1 + Passed(s) + 1)
  {
    hide Wrap32, OutInv, Sent, Syns, HasBit;
    AckIs(s.tcb.(rcvNxt := Wrap32(s.tcb.rcvNxt + 1)), b);
    hide Acknowledge;
    WrapAdd(s.irs + 1 + Passed(s), 1);
  }

  /** In-order data is passed, other data is not. */
  lemma DataPassed(s: Sys, seg: Segment, a: Alloc, stream: seq<Byte>, off: nat)
    requires Inv(s) && KeptInv(s, stream, s.irs) && s.tcb.state == Established && |stream| < TWO32
    requires SliceAt(stream, s.irs, seg, off)
    ensures var s' := AfterData(s, seg, a);
            && Passed(s') == Passed(s) + (if off == Passed(s) then |seg.payload| else 0)
            && s'.irs == s.irs
  {
    hide Wrap32, HasBit, AfterData, Subsequence, BufferFull, OutInv, Sent, Syns;
    DataHistory(s, seg, a);
    if seg.payload != [] && seg.seqNo == s.tcb.rcvNxt {
      InOrderOffset(s, seg, stream, off);
    }
  }

  /** Past ESTABLISHED no byte is ever kept again. */
  lemma {:induction false} NothingAfterFin(ep: Endpoint, s: Sys, es: seq<Event>)
    requires Rank(s.tcb.state) > Rank(Established)
    ensures Kept(Run(ep, s, es)) == Kept(s) && Rank(Run(ep, s, es).tcb.state) > Rank(Established)
  {
    if es != [] {
      hide Next;
      NothingAfterFin(ep, s, es[..|es| - 1]);
      var v := Run(ep, s, es[..|es| - 1]);
      StepForward(ep, v, es[|es| - 1]);
      ClosedStep(ep, v, es[|es| - 1]);
    }
  }

  lemma ClosedStep(ep: Endpoint, s: Sys, e: Event)
    requires Rank(s.tcb.state) > Rank(Established)
    ensures Kept(Next(ep, s, e)) == Kept(s)
  {
    hide Receive, Wrap32, HasBit;
  }

  function FinSegment(irs: U32, off: nat): Segment {
    Segment(FIN + ACK, Wrap32(irs + 1 + off), 0, [])
  }

  /** Reordering alone loses a whole stream: the FIN overtakes it, and whatever comes later nothing is handed over. */
  lemma {:induction false} EarlyFin(ep: Endpoint, iss: U32, irs: U32, stream: seq<Byte>, more: seq<Event>)
    ensures var es := HandshakeEvents(ep, iss, irs) + [Arrival(ep, FinSegment(irs, |stream|))];
            PeerRun(ep, stream, irs, es) && Kept(Run(ep, Init(iss), es + more)) == []
  {
    hide Run, Next, Arrival, PeerSegment, HandshakeEvents, PeerRun, Deliver, FinSegment;
    var front, seg := HandshakeEvents(ep, iss, irs), FinSegment(irs, |stream|);
    assert seg.flags == FIN + ACK && seg.payload == [] by { FinSegmentIs(irs, |stream|); }
    HandshakeDone(ep, iss, irs, stream);
    var s := Run(ep, Init(iss), front);
    RunOne(ep, Init(iss), front, Arrival(ep, seg));
    ArrivalIs(ep, s, seg);
    FinTaken(s, seg);
    assert PeerSegment(stream, irs, seg) by { EmptyIsPeer(stream, irs, seg); }
    PeerExtend(ep, stream, irs, front, seg, false);
    var es := front + [Arrival(ep, seg)];
    assert es + [] == es;
    RunAppend(ep, Init(iss), es, more);
    NothingAfterFin(ep, Run(ep, Init(iss), es), more);
  }

  lemma FinSegmentIs(irs: U32, off: nat)
    ensures FinSegment(irs, off).flags == FIN + ACK && FinSegment(irs, off).payload == []
  {
  }

  lemma EmptyIsPeer(stream: seq<Byte>, irs: U32, seg: Segment)
    requires seg.payload == [] && !IsSyn(seg)
    ensures PeerSegment(stream, irs, seg)
  {
  }

  lemma FinTaken(s: Sys, seg: Segment)
    requires s.tcb.state == Established && seg.flags == FIN + ACK && seg.payload == []
    ensures var s' := Deliver(s, seg, GRANTED, GRANTED); s'.tcb.state == FinWait2 && Kept(s') == Kept(s)
    ensures !IsSyn(seg)
  {
    hide Wrap32;
  }

  // ---------- Both halves together ----------

  lemma {:induction false} SentSlice(out: seq<Emission>, k: nat)
    requires k < |out|
    ensures var off, n := |Sent(out[..k])|, |out[k].seg.payload|;
            off + n <= |Sent(out)| && Sent(out)[off..off + n] == out[k].seg.payload
  {
    var m := |out| - 1;
    if k < m {
      SentSlice(out[..m], k);
      assert out[..m][..k] == out[..k];
    }
  }

  /** Whatever one MicroTcp emits is a peer segment, for a receiver, of the data it sent altogether. */
  lemma {:induction false} EmissionIsPeer(ep: Endpoint, iss: U32, es: seq<Event>, k: nat)
    requires var s := Run(ep, Init(iss), es); k < |s.out| && Syns(s.out) == 1
    ensures var s := Run(ep, Init(iss), es);
            PeerSegment(Sent(s.out), iss, s.out[k].seg) && |s.out[k].seg.payload| < TWO16
  {
    hide Next, Run, Wrap32, HasBit, Sent;
    var s := Run(ep, Init(iss), es);
    RunKeeps(ep, iss, es);
    assert Numbered(s.out, k, iss, s.irs);
    SentSlice(s.out, k);
    if !IsSyn(s.out[k].seg) {
      assert SliceAt(Sent(s.out), iss, s.out[k].seg, |Sent(s.out[..k])|);
    }
  }

  /**
   * A packet of the receiver's run: built by the sender, or a handshake reply that carries its number. The reply
   * comes from the environment, since the machine has no server side.
   */
  ghost predicate FromSender(sender: Sys, ep: Endpoint, m: Mbuf) {
    || (exists k: nat, ck: Checksums :: k < |sender.out| && m == Encode(ep, sender.out[k].seg, ck))
    || (exists seg, ck: Checksums ::
          IsSyn(seg) && seg.seqNo == sender.tcb.iss && seg.payload == [] && m == Encode(ep, seg, ck))
  }

  /**
   * End to end: packets written by one machine with `send_data`, put through a network that loses, repeats and
   * reorders them, and read by the machine with the addresses swapped, hand over what was sent without what met
   * a full buffer: a prefix of it if nothing did.
   */
  lemma {:induction false} EndToEnd(ep: Endpoint, iss: U32, sends: seq<Event>, rss: U32, es: seq<Event>)
    requires var s := Run(ep, Init(iss), sends);
             && Syns(s.out) == 1 && |Sent(s.out)| < TWO32
             && (forall i :: 0 <= i < |es| && es[i].Arrive? ==> FromSender(s, ep, es[i].m))
    ensures var s, r := Run(ep, Init(iss), sends), Run(ep.Swap(), Init(rss), es);
            && |r.got + r.tcb.rxBuffer| + r.lost <= |Sent(s.out)|
            && Subsequence(r.got + r.tcb.rxBuffer, Sent(s.out)[..|r.got + r.tcb.rxBuffer| + r.lost])
            && (r.lost == 0 ==> r.got + r.tcb.rxBuffer <= Sent(s.out))
  {
    hide Next, Run, Receive, Encode, PeerSegment, Sent, Syns, Subsequence;
    var s := Run(ep, Init(iss), sends);
    forall i | 0 <= i < |es| ensures PeerEvent(ep.Swap(), Sent(s.out), iss, es[i]) {
      if es[i].Arrive? {
        ArrivalIsPeer(ep, iss, sends, es[i].m);
      }
    }
    ReceivePrefix(ep.Swap(), rss, iss, Sent(s.out), es);
  }

  lemma {:induction false} ArrivalIsPeer(ep: Endpoint, iss: U32, sends: seq<Event>, m: Mbuf)
    requires var s := Run(ep, Init(iss), sends); Syns(s.out) == 1 && FromSender(s, ep, m)
    ensures var s := Run(ep, Init(iss), sends);
            Receive(ep.Swap(), m).Some? ==> PeerSegment(Sent(s.out), iss, Receive(ep.Swap(), m).value)
  {
    hide Next, Run, Receive, Encode, Sent, Syns, HasBit;
    var s := Run(ep, Init(iss), sends);
    RunKeeps(ep, iss, sends);
    if k: nat, ck: Checksums :| k < |s.out| && m == Encode(ep, s.out[k].seg, ck) {
      EmissionIsPeer(ep, iss, sends, k);
      PacketRoundTrip(ep, s.out[k].seg, ck);
    } else {
      var seg, ck: Checksums :| IsSyn(seg) && seg.seqNo == s.tcb.iss && seg.payload == [] && m == Encode(ep, seg, ck);
      PacketRoundTrip(ep, seg, ck);
    }
  }
}
