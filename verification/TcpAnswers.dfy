/** What the TCP machine answers in every run, and what its state tells about the packets that arrived. */
module TcpAnswers {
  import opened Words
  import opened Packet
  import opened MicroTcp
  import opened TcpRuns

  // ---------- One packet, one answer ----------

  /** The segments emitted in a step. */
  function New(s: Sys, s': Sys): (segs: seq<Segment>)
    requires |s.out| <= |s'.out|
    ensures |segs| == |s'.out| - |s.out|
  {
    seq(|s'.out| - |s.out|, i requires 0 <= i < |s'.out| - |s.out| => s'.out[|s.out| + i].seg)
  }

  /** A bare acknowledgement of everything before number x, numbered with the next number to send. */
  function Ack(s: Sys, x: int): Segment {
    Segment(16, s.tcb.sndNxt, x % 0x1_0000_0000, [])
  }

  lemma AckOut(s: Sys, t: Tcb, a: Alloc, lost: nat, irs: U32)
    ensures Acknowledge(t, a).0 == t
    ensures var s' := AfterReply(s, Acknowledge(t, a), lost, irs);
            && s'.tcb == t && s.out <= s'.out
            && New(s, s') == if a.ok then [Segment(16, t.sndNxt, t.rcvNxt, [])] else []
  {
    AckIs(t, a);
    hide Acknowledge;
  }

  lemma DataAnswer(s: Sys, seg: Segment, a: Alloc)
    ensures var s', next := AfterData(s, seg, a), s.tcb.rcvNxt;
            && s.out <= s'.out && s'.tcb.sndNxt == s.tcb.sndNxt
            && s'.tcb.rcvNxt == (if seg.seqNo == next then (next + |seg.payload|) % 0x1_0000_0000 else next)
            && New(s, s') == if seg.payload == [] || seg.seqNo > next || !a.ok then []
                             else if seg.seqNo == next then [Ack(s, next + |seg.payload|)] else [Ack(s, next)]
  {
    hide Acknowledge, BufferFull, AfterReply;
    var full := BufferFull(s.tcb, seg);
    var lost := s.lost + if seg.seqNo == s.tcb.rcvNxt && full then |seg.payload| else 0;
    if seg.payload == [] || seg.seqNo > s.tcb.rcvNxt {
      Silent(s, lost, s.irs);
    } else if seg.seqNo == s.tcb.rcvNxt {
      AckOut(s, s.tcb.(rxBuffer := if full then s.tcb.rxBuffer else s.tcb.rxBuffer + seg.payload,
                       rcvNxt := Wrap32(s.tcb.rcvNxt + |seg.payload|)), a, lost, s.irs);
    } else {
      AckOut(s, s.tcb, a, lost, s.irs);
    }
  }

  lemma Silent(s: Sys, lost: nat, irs: U32)
    ensures AfterReply(s, (s.tcb, []), lost, irs) == s.(lost := lost, irs := irs)
  {
  }

  lemma FinAnswer(s: Sys, seg: Segment, a: Alloc, next: TcpState)
    ensures var s' := AfterFin(s, seg, a, next);
            && s.out <= s'.out
            && (HasBit(seg.flags, 1) ==> s'.tcb.state == next)
            && (!HasBit(seg.flags, 1) ==> s'.tcb == s.tcb)
            && New(s, s') == if HasBit(seg.flags, 1) && a.ok then [Ack(s, s.tcb.rcvNxt + 1)] else []
  {
    hide Acknowledge, HasBit;
    AckIs(s.tcb.(rcvNxt := Wrap32(s.tcb.rcvNxt + 1)), a);
  }

  lemma SynAckAnswer(s: Sys, seg: Segment, a: Alloc)
    ensures var s', syn := AfterSynAck(s, seg, a), HasBit(seg.flags, 2) && HasBit(seg.flags, 16);
            var answers := syn && seg.ackNo == (s.tcb.iss + 1) % 0x1_0000_0000;
            && s.out <= s'.out
            && (answers ==> s'.tcb.state == Established && s'.tcb.sndUna == seg.ackNo)
            && (!answers ==> s'.tcb == s.tcb)
            && New(s, s') == if answers && a.ok then [Ack(s, seg.seqNo + 1)] else []
  {
    hide Acknowledge, HasBit;
    AckIs(s.tcb.(rcvNxt := Wrap32(seg.seqNo + 1), sndUna := seg.ackNo, state := Established), a);
  }

  lemma NewTwice(s: Sys, s1: Sys, s2: Sys)
    requires s.out <= s1.out <= s2.out
    ensures New(s, s2) == New(s, s1) + New(s1, s2)
  {
  }

  lemma WrapNext(x: int, n: int)
    ensures ((x + n) % 0x1_0000_0000 + 1) % 0x1_0000_0000 == (x + n + 1) % 0x1_0000_0000
  {
  }

  lemma EstablishedAnswer(s: Sys, seg: Segment, a: Alloc, b: Alloc)
    requires s.tcb.state == Established
    ensures var s', next := Deliver(s, seg, a, b), s.tcb.rcvNxt;
            var front := if seg.seqNo == next then |seg.payload| else 0;
            && s.out <= s'.out
            && New(s, s') == (if seg.payload == [] || seg.seqNo > next || !a.ok then [] else [Ack(s, next + front)])
                             + (if HasBit(seg.flags, 1) && b.ok then [Ack(s, next + front + 1)] else [])
  {
    hide AfterData, AfterFin, HasBit, New;
    DataAnswer(s, seg, a);
    var s1 := AfterData(s, seg, a);
    var s2 := s1.(tcb := HandleAck(s1.tcb, seg));
    FinAnswer(s2, seg, b, FinWait2);
    NewTwice(s, s2, Deliver(s, seg, a, b));
    assert New(s, s2) == New(s, s1) by { SameOut(s, s1, s2); }
    WrapNext(s.tcb.rcvNxt, if seg.seqNo == s.tcb.rcvNxt then |seg.payload| else 0);
  }

  lemma SameOut(s: Sys, s1: Sys, s2: Sys)
    requires s.out <= s1.out && s1.out == s2.out
    ensures New(s, s1) == New(s, s2)
  {
  }

  /**
   * The answer to a segment, exactly. In SYN_SENT the right SYN-ACK draws the third packet of the handshake. In
   * ESTABLISHED data at rcv_nxt draws an acknowledgement of its end, older data one of rcv_nxt, data ahead none, and
   * a FIN one more behind it; in FIN_WAIT_2 only a FIN is answered, elsewhere nothing. Failed allocations drop just
   * their own answer.
   */
  lemma AnswerExact(ep: Endpoint, s: Sys, m: Mbuf, seg: Segment, a: Alloc, b: Alloc)
    requires Receive(ep, m) == Some(seg)
    ensures var s', next := Next(ep, s, Arrive(m, a, b)), s.tcb.rcvNxt;
            var fin := HasBit(seg.flags, 1);
            var front := if s.tcb.state == Established && seg.seqNo == next then |seg.payload| else 0;
            var data := s.tcb.state == Established && seg.payload != [] && seg.seqNo <= next;
            var opens := HasBit(seg.flags, 2) && HasBit(seg.flags, 16) && seg.ackNo == (s.tcb.iss + 1) % 0x1_0000_0000;
            && s.out <= s'.out
            && New(s, s') ==
                 match s.tcb.state
                 case SynSent => if opens && a.ok then [Ack(s, seg.seqNo + 1)] else []
                 case Established => (if data && a.ok then [Ack(s, next + front)] else [])
                                     + (if fin && b.ok then [Ack(s, next + front + 1)] else [])
                 case FinWait2 => if fin && b.ok then [Ack(s, next + 1)] else []
                 case _ => []
  {
    hide Receive, AfterSynAck, AfterData, AfterFin, HasBit;
    match s.tcb.state
    case SynSent => SynAckAnswer(s, seg, a);
    case Established => EstablishedAnswer(s, seg, a, b);
    case FinWait2 => FinAnswer(s, seg, b, TimeWait);
    case _ =>
  }

  lemma DataVariables(s: Sys, seg: Segment, a: Alloc)
    ensures var t, t' := s.tcb, AfterData(s, seg, a).tcb;
            var front := seg.seqNo == t.rcvNxt;
            t' == t.(rcvNxt := if front then (t.rcvNxt + |seg.payload|) % 0x1_0000_0000 else t.rcvNxt,
                     rxBuffer := if front && |t.rxBuffer| + |seg.payload| <= 10_485_760
                                 then t.rxBuffer + seg.payload else t.rxBuffer)
  {
    hide Acknowledge;
    AckIs(s.tcb, a);
    AckIs(s.tcb.(rxBuffer := if BufferFull(s.tcb, seg) then s.tcb.rxBuffer else s.tcb.rxBuffer + seg.payload,
                 rcvNxt := Wrap32(s.tcb.rcvNxt + |seg.payload|)), a);
    assert s.tcb.rxBuffer + [] == s.tcb.rxBuffer;
  }

  lemma FinVariables(s: Sys, seg: Segment, a: Alloc, next: TcpState)
    ensures var t, t' := s.tcb, AfterFin(s, seg, a, next).tcb;
            t' == if HasBit(seg.flags, 1) then t.(state := next, rcvNxt := (t.rcvNxt + 1) % 0x1_0000_0000) else t
  {
    hide Acknowledge, HasBit;
    AckIs(s.tcb.(rcvNxt := Wrap32(s.tcb.rcvNxt + 1)), a);
  }

  lemma SynAckVariables(s: Sys, seg: Segment, a: Alloc)
    ensures var t, t', syn := s.tcb, AfterSynAck(s, seg, a).tcb, HasBit(seg.flags, 2) && HasBit(seg.flags, 16);
            t' == if syn && seg.ackNo == (t.iss + 1) % 0x1_0000_0000
                  then t.(state := Established, sndUna := seg.ackNo, rcvNxt := (seg.seqNo + 1) % 0x1_0000_0000) else t
  {
    hide Acknowledge, HasBit;
    AckIs(s.tcb.(rcvNxt := Wrap32(seg.seqNo + 1), sndUna := seg.ackNo, state := Established), a);
  }

  /**
   * The connection's variables after a segment, each by itself. Answers use no sequence number. Data is kept only in
   * ESTABLISHED, at rcv_nxt, and if it leaves at most 10 MB in the buffer; rcv_nxt moves past it either way, and past
   * a FIN; snd_una is set by the SYN-ACK and raised in ESTABLISHED alone.
   */
  lemma VariablesExact(ep: Endpoint, s: Sys, m: Mbuf, seg: Segment, a: Alloc, b: Alloc)
    requires Receive(ep, m) == Some(seg)
    ensures var t, t', st := s.tcb, Next(ep, s, Arrive(m, a, b)).tcb, s.tcb.state;
            var syn, fin := HasBit(seg.flags, 2) && HasBit(seg.flags, 16), HasBit(seg.flags, 1);
            var opens := st == SynSent && syn && seg.ackNo == (t.iss + 1) % 0x1_0000_0000;
            var front := st == Established && seg.seqNo == t.rcvNxt;
            var ends := fin && (st == Established || st == FinWait2);
            && t'.iss == t.iss && t'.sndNxt == t.sndNxt
            && t'.sndUna == (if opens || (st == Established && seg.ackNo > t.sndUna) then seg.ackNo else t.sndUna)
            && t'.rcvNxt == (if opens then (seg.seqNo + 1) % 0x1_0000_0000
                             else ((t.rcvNxt + if front then |seg.payload| else 0) + if ends then 1 else 0)
                                  % 0x1_0000_0000)
            && t'.rxBuffer == if front && |t.rxBuffer| + |seg.payload| <= 10_485_760
                              then t.rxBuffer + seg.payload else t.rxBuffer
  {
    hide Receive, AfterSynAck, AfterData, AfterFin, HasBit;
    match s.tcb.state
    case SynSent => SynAckVariables(s, seg, a);
    case Established =>
      DataVariables(s, seg, a);
      var s1 := AfterData(s, seg, a);
      FinVariables(s1.(tcb := HandleAck(s1.tcb, seg)), seg, b, FinWait2);
      WrapNext(s.tcb.rcvNxt, if seg.seqNo == s.tcb.rcvNxt then |seg.payload| else 0);
    case FinWait2 => FinVariables(s, seg, b, TimeWait);
    case _ =>
  }

  /** Anything else that arrives is not answered and changes nothing. */
  lemma OthersUnanswered(ep: Endpoint, s: Sys, m: Mbuf, a: Alloc, b: Alloc)
    requires Receive(ep, m) == None
    ensures Next(ep, s, Arrive(m, a, b)) == s
  {
  }

  lemma {:induction false} WireAt(ep: Endpoint, out: seq<Reply>, i: nat)
    requires i < |out|
    ensures WireAll(ep, out)[i] == Wire(ep, out[i].seg, out[i].alloc)
  {
    if i < |out| - 1 { WireAt(ep, out[..|out| - 1], i); }
  }

  /**
   * The packets handed out for a list of replies: a null pointer where the allocation failed, and otherwise a packet
   * that the peer reads as that segment.
   */
  lemma WireBack(ep: Endpoint, out: seq<Reply>, i: nat)
    requires i < |out| && (out[i].seg.Some? ==> |out[i].seg.value.payload| <= 65481)
    ensures Receive(ep.Swap(), WireAll(ep, out)[i]) == out[i].seg
    ensures WireAll(ep, out)[i] == Null <==> out[i].seg == None
  {
    WireAt(ep, out, i);
    hide WireAll, Receive, Encode;
    match out[i].seg
    case None => ReceiveExact(ep.Swap(), [], []);
    case Some(seg) => PacketRoundTrip(ep, seg, out[i].alloc.ck);
  }

  // ---------- The latest acknowledgement ----------

  predicate Granted(e: Event) {
    match e
    case Open(a) => a.ok
    case Arrive(_, a, b) => a.ok && b.ok
    case Send(_, a) => a.ok
    case Extract => true
  }

  /** The last segment emitted acknowledges everything accepted so far. */
  predicate UpToDate(s: Sys) {
    && s.out != []
    && var last := s.out[|s.out| - 1];
    && last.upTo == Accepted(s)
    && last.seg.ackNo == s.tcb.rcvNxt
    && last.seg.flags in {16, 24}
  }

  lemma AckUpToDate(s: Sys, t: Tcb, a: Alloc, lost: nat, irs: U32)
    requires a.ok
    ensures UpToDate(AfterReply(s, Acknowledge(t, a), lost, irs))
  {
    AckIs(t, a);
    hide Acknowledge, Wrap32;
  }

  lemma FinUpToDate(s: Sys, seg: Segment, a: Alloc, next: TcpState)
    requires a.ok
    ensures UpToDate(s) || HasBit(seg.flags, FIN) ==> UpToDate(AfterFin(s, seg, a, next))
  {
    hide Acknowledge, Wrap32, HasBit;
    AckIs(s.tcb.(rcvNxt := Wrap32(s.tcb.rcvNxt + 1)), a);
  }

  lemma DataUpToDate(s: Sys, seg: Segment, a: Alloc)
    requires a.ok && UpToDate(s)
    ensures UpToDate(AfterData(s, seg, a))
  {
    hide Acknowledge, Wrap32, BufferFull, AfterReply;
    var full := BufferFull(s.tcb, seg);
    var lost := s.lost + if seg.seqNo == s.tcb.rcvNxt && full then |seg.payload| else 0;
    if seg.payload == [] || seg.seqNo > s.tcb.rcvNxt {
      Silent(s, lost, s.irs);
    } else if seg.seqNo == s.tcb.rcvNxt {
      AckUpToDate(s, s.tcb.(rxBuffer := if full then s.tcb.rxBuffer else s.tcb.rxBuffer + seg.payload,
                            rcvNxt := Wrap32(s.tcb.rcvNxt + |seg.payload|)), a, lost, s.irs);
    } else {
      AckUpToDate(s, s.tcb, a, lost, s.irs);
    }
  }

  lemma DeliverUpToDate(s: Sys, seg: Segment, a: Alloc, b: Alloc)
    requires a.ok && b.ok && (Synchronized(s) ==> UpToDate(s))
    ensures Synchronized(Deliver(s, seg, a, b)) ==> UpToDate(Deliver(s, seg, a, b))
  {
    hide AfterData, AfterFin, Wrap32, HasBit, Acknowledge;
    match s.tcb.state
    case SynSent =>
      AckUpToDate(s, s.tcb.(rcvNxt := Wrap32(seg.seqNo + 1), sndUna := seg.ackNo, state := Established), a,
                  s.lost, seg.seqNo);
      AckIs(s.tcb.(rcvNxt := Wrap32(seg.seqNo + 1), sndUna := seg.ackNo, state := Established), a);
    case Established =>
      DataUpToDate(s, seg, a);
      var s1 := AfterData(s, seg, a);
      FinUpToDate(s1.(tcb := HandleAck(s1.tcb, seg)), seg, b, FinWait2);
    case FinWait2 => FinUpToDate(s, seg, b, TimeWait);
    case _ =>
  }

  lemma SendIs(ep: Endpoint, s: Sys, data: Chunk, a: Alloc)
    ensures Next(ep, s, Send(data, a)).out ==
              if s.tcb.state == Established && a.ok
              then s.out + [Emission(Segment(24, s.tcb.sndNxt, s.tcb.rcvNxt, data), Accepted(s))] else s.out
    ensures var s' := Next(ep, s, Send(data, a));
            s'.tcb == s.tcb.(sndNxt := s'.tcb.sndNxt) && s' == s.(tcb := s'.tcb, out := s'.out)
  {
    hide Wrap32;
  }

  lemma OpenIs(ep: Endpoint, s: Sys, a: Alloc)
    ensures Next(ep, s, Open(a)).out ==
              if s.tcb.state == Closed && a.ok
              then s.out + [Emission(Segment(2, s.tcb.iss, 0, []), Accepted(s))] else s.out
    ensures Next(ep, s, Open(a)).tcb.state == if s.tcb.state == Closed then SynSent else s.tcb.state
    ensures s.tcb.state != Closed ==> Next(ep, s, Open(a)) == s
    ensures var t := Next(ep, s, Open(a)).tcb; t == s.tcb.(state := t.state, sndNxt := t.sndNxt)
  {
    hide Wrap32;
  }

  lemma StepUpToDate(ep: Endpoint, s: Sys, e: Event)
    requires Granted(e) && (Synchronized(s) ==> UpToDate(s))
    ensures Synchronized(Next(ep, s, e)) ==> UpToDate(Next(ep, s, e))
  {
    match e
    case Open(a) => OpenIs(ep, s, a); hide Next;
    case Arrive(m, a, b) =>
      hide Receive, Deliver, UpToDate;
      if Receive(ep, m).Some? { DeliverUpToDate(s, Receive(ep, m).value, a, b); }
    case Send(data, a) => SendIs(ep, s, data, a); hide Next;
    case Extract =>
  }

  /**
   * Nothing accepted stays unacknowledged: in every run whose allocations are granted, once the connection is
   * synchronized the last segment emitted acknowledges all data bytes and FINs accepted so far, and is no SYN.
   */
  lemma {:induction false} LatestAcks(ep: Endpoint, iss: U32, es: seq<Event>)
    requires forall i :: 0 <= i < |es| ==> Granted(es[i])
    ensures var s := Run(ep, Init(iss), es);
            Synchronized(s) ==>
              && s.out != []
              && s.out[|s.out| - 1].upTo == |s.got| + |s.tcb.rxBuffer| + s.lost + s.fins
              && s.out[|s.out| - 1].seg.ackNo == s.tcb.rcvNxt
              && s.out[|s.out| - 1].seg.flags in {16, 24}
  {
    if es != [] {
      hide Next, Granted;
      var front := es[..|es| - 1];
      LatestAcks(ep, iss, front);
      StepUpToDate(ep, Run(ep, Init(iss), front), es[|es| - 1]);
    }
  }

  // ---------- What is emitted ----------

  /** The data of the sends of a run that met an established connection and got a packet. */
  function Sends(ep: Endpoint, iss: U32, es: seq<Event>): seq<seq<Byte>> {
    if es == [] then []
    else
      var front, e := es[..|es| - 1], es[|es| - 1];
      var before := Run(ep, Init(iss), front).tcb.state;
      Sends(ep, iss, front) + if e.Send? && e.a.ok && before == Established then [e.data] else []
  }

  /** The payloads of the emissions that push data, in order. */
  function Pushed(out: seq<Emission>): seq<seq<Byte>> {
    if out == [] then []
    else
      var last := out[|out| - 1].seg;
      Pushed(out[..|out| - 1]) + if last.flags == 24 then [last.payload] else []
  }

  /** Emission k is the SYN in front, a bare acknowledgement, or a data segment. */
  predicate Kind(out: seq<Emission>, k: nat)
    requires k < |out|
  {
    var seg := out[k].seg;
    || (k == 0 && seg.flags == 2 && seg.payload == [] && seg.ackNo == 0)
    || (seg.flags == 16 && seg.payload == [])
    || seg.flags == 24
  }

  lemma PushedOne(out: seq<Emission>, e: Emission)
    ensures Pushed(out + [e]) == Pushed(out) + if e.seg.flags == 24 then [e.seg.payload] else []
  {
    assert (out + [e])[..|out|] == out;
  }

  lemma {:induction false} PushedQuiet(out: seq<Emission>, out': seq<Emission>)
    requires out <= out'
    requires forall k :: |out| <= k < |out'| ==> out'[k].seg.flags == 16
    ensures Pushed(out') == Pushed(out)
  {
    if out' == out {
    } else {
      var n := |out'| - 1;
      PushedQuiet(out, out'[..n]);
    }
  }

  lemma AckFlags(s: Sys, s': Sys)
    requires s.out <= s'.out
    requires forall k :: 0 <= k < |New(s, s')| ==> New(s, s')[k].flags == 16 && New(s, s')[k].payload == []
    ensures forall k :: |s.out| <= k < |s'.out| ==> s'.out[k].seg.flags == 16 && s'.out[k].seg.payload == []
  {
    forall k | |s.out| <= k < |s'.out| ensures s'.out[k].seg.flags == 16 && s'.out[k].seg.payload == [] {
      assert s'.out[k].seg == New(s, s')[k - |s.out|];
    }
  }

  lemma ArriveQuiet(ep: Endpoint, s: Sys, m: Mbuf, a: Alloc, b: Alloc)
    ensures var s' := Next(ep, s, Arrive(m, a, b));
            && s.out <= s'.out
            && forall k :: |s.out| <= k < |s'.out| ==> s'.out[k].seg.flags == 16 && s'.out[k].seg.payload == []
  {
    hide Receive, Deliver, New;
    if Receive(ep, m).Some? {
      AnswerExact(ep, s, m, Receive(ep, m).value, a, b);
      AckFlags(s, Next(ep, s, Arrive(m, a, b)));
    }
  }

  predicate Kinds(out: seq<Emission>) {
    forall k :: 0 <= k < |out| ==> Kind(out, k)
  }

  lemma KindsOne(out: seq<Emission>, e: Emission)
    requires Kinds(out) && Kind(out + [e], |out|)
    ensures Kinds(out + [e])
  {
    forall k | 0 <= k < |out| ensures Kind(out + [e], k) { assert Kind(out, k); }
  }

  lemma KindsMore(out: seq<Emission>, out': seq<Emission>)
    requires Kinds(out) && out <= out'
    requires forall k :: |out| <= k < |out'| ==> out'[k].seg.flags == 16 && out'[k].seg.payload == []
    ensures Kinds(out')
  {
    forall k | 0 <= k < |out'| ensures Kind(out', k) {
      if k < |out| { assert Kind(out, k); }
    }
  }

  lemma SendKinds(s: Sys, data: Chunk)
    requires Kinds(s.out)
    ensures var out := s.out + [Emission(Segment(24, s.tcb.sndNxt, s.tcb.rcvNxt, data), Accepted(s))];
            Kinds(out) && Pushed(out) == Pushed(s.out) + [data]
  {
    hide Kinds, Pushed;
    var e := Emission(Segment(24, s.tcb.sndNxt, s.tcb.rcvNxt, data), Accepted(s));
    KindsOne(s.out, e);
    PushedOne(s.out, e);
  }

  lemma OpenKinds(s: Sys)
    requires s.out == []
    ensures var out := s.out + [Emission(Segment(2, s.tcb.iss, 0, []), Accepted(s))];
            Kinds(out) && Pushed(out) == Pushed(s.out) + []
  {
    hide Pushed;
    PushedOne(s.out, Emission(Segment(2, s.tcb.iss, 0, []), Accepted(s)));
  }

  lemma StepKinds(ep: Endpoint, s: Sys, e: Event)
    requires Kinds(s.out) && (s.tcb.state == Closed ==> s.out == [])
    ensures var s' := Next(ep, s, e);
            && Kinds(s'.out)
            && Pushed(s'.out) == Pushed(s.out)
                                 + if e.Send? && e.a.ok && s.tcb.state == Established then [e.data] else []
  {
    hide Kinds, Pushed, Next;
    match e
    case Open(a) =>
      OpenIs(ep, s, a);
      if s.tcb.state == Closed && a.ok { OpenKinds(s); }
    case Arrive(m, a, b) =>
      ArriveQuiet(ep, s, m, a, b);
      PushedQuiet(s.out, Next(ep, s, e).out);
      KindsMore(s.out, Next(ep, s, e).out);
    case Send(data, a) =>
      SendIs(ep, s, data, a);
      if s.tcb.state == Established && a.ok { SendKinds(s, data); }
    case Extract =>
      ExtractIs(ep, s);
  }

  /**
   * What a run emits: at most one SYN, in front; bare acknowledgements; and data segments with PSH and ACK, which
   * carry the data of the granted sends in ESTABLISHED, one each and in order. Nothing else carries data.
   */
  lemma {:induction false} EmissionKinds(ep: Endpoint, iss: U32, es: seq<Event>)
    ensures var out := Run(ep, Init(iss), es).out;
            && (forall k :: 0 <= k < |out| ==> Kind(out, k))
            && Pushed(out) == Sends(ep, iss, es)
  {
    if es != [] {
      hide Next, Kind, Pushed;
      var front := es[..|es| - 1];
      assert Kinds(Run(ep, Init(iss), front).out) by { EmissionKinds(ep, iss, front); }
      EmissionKinds(ep, iss, front);
      RunKeeps(ep, iss, front);
      StepKinds(ep, Run(ep, Init(iss), front), es[|es| - 1]);
    }
  }

  // ---------- The state from the history ----------

  predicate Opens(e: Event) { e.Open? }

  /** A SYN-ACK that acknowledges our SYN. */
  predicate Answers(ep: Endpoint, iss: U32, e: Event) {
    && e.Arrive? && Receive(ep, e.m).Some?
    && var seg := Receive(ep, e.m).value;
    HasBit(seg.flags, 2) && HasBit(seg.flags, 16) && seg.ackNo == (iss + 1) % 0x1_0000_0000
  }

  predicate Finishes(ep: Endpoint, e: Event) {
    e.Arrive? && Receive(ep, e.m).Some? && HasBit(Receive(ep, e.m).value.flags, 1)
  }

  ghost predicate Opened(es: seq<Event>) {
    exists i :: 0 <= i < |es| && Opens(es[i])
  }

  ghost predicate Answered(ep: Endpoint, iss: U32, es: seq<Event>) {
    exists i :: 0 <= i < |es| && Answers(ep, iss, es[i]) && Opened(es[..i])
  }

  ghost predicate Finished(ep: Endpoint, iss: U32, es: seq<Event>) {
    exists i :: 0 <= i < |es| && Finishes(ep, es[i]) && Answered(ep, iss, es[..i])
  }

  ghost predicate FinishedTwice(ep: Endpoint, iss: U32, es: seq<Event>) {
    exists i :: 0 <= i < |es| && Finishes(ep, es[i]) && Finished(ep, iss, es[..i])
  }

  lemma OpenedStep(es: seq<Event>, e: Event)
    ensures Opened(es + [e]) <==> Opened(es) || Opens(e)
  {
    hide Opens;
    var all := es + [e];
    if Opened(es) {
      var i :| 0 <= i < |es| && Opens(es[i]);
      assert Opens(all[i]);
    }
    if Opens(e) { assert Opens(all[|es|]); }
  }

  lemma AnsweredStep(ep: Endpoint, iss: U32, es: seq<Event>, e: Event)
    ensures Answered(ep, iss, es + [e]) <==> Answered(ep, iss, es) || (Answers(ep, iss, e) && Opened(es))
  {
    hide Answers, Opened;
    var all := es + [e];
    assert forall i :: 0 <= i <= |es| ==> all[..i] == es[..i];
    assert es[..|es|] == es;
    if Answered(ep, iss, es) {
      var i :| 0 <= i < |es| && Answers(ep, iss, es[i]) && Opened(es[..i]);
      assert Answers(ep, iss, all[i]) && Opened(all[..i]);
    }
    if Answers(ep, iss, e) && Opened(es) { assert Answers(ep, iss, all[|es|]) && Opened(all[..|es|]); }
  }

  lemma FinishedStep(ep: Endpoint, iss: U32, es: seq<Event>, e: Event)
    ensures Finished(ep, iss, es + [e]) <==> Finished(ep, iss, es) || (Finishes(ep, e) && Answered(ep, iss, es))
  {
    hide Finishes, Answered;
    var all := es + [e];
    assert forall i :: 0 <= i <= |es| ==> all[..i] == es[..i];
    assert es[..|es|] == es;
    if Finished(ep, iss, es) {
      var i :| 0 <= i < |es| && Finishes(ep, es[i]) && Answered(ep, iss, es[..i]);
      assert Finishes(ep, all[i]) && Answered(ep, iss, all[..i]);
    }
    if Finishes(ep, e) && Answered(ep, iss, es) { assert Finishes(ep, all[|es|]) && Answered(ep, iss, all[..|es|]); }
  }

  lemma FinishedTwiceStep(ep: Endpoint, iss: U32, es: seq<Event>, e: Event)
    ensures FinishedTwice(ep, iss, es + [e])
            <==> FinishedTwice(ep, iss, es) || (Finishes(ep, e) && Finished(ep, iss, es))
  {
    hide Finishes, Finished;
    var all := es + [e];
    assert forall i :: 0 <= i <= |es| ==> all[..i] == es[..i];
    assert es[..|es|] == es;
    if FinishedTwice(ep, iss, es) {
      var i :| 0 <= i < |es| && Finishes(ep, es[i]) && Finished(ep, iss, es[..i]);
      assert Finishes(ep, all[i]) && Finished(ep, iss, all[..i]);
    }
    if Finishes(ep, e) && Finished(ep, iss, es) { assert Finishes(ep, all[|es|]) && Finished(ep, iss, all[..|es|]); }
  }

  /** The next state of each step. */
  lemma StateStep(ep: Endpoint, s: Sys, e: Event)
    ensures Next(ep, s, e).tcb.state ==
              match s.tcb.state
              case Closed => if Opens(e) then SynSent else Closed
              case SynSent => if Answers(ep, s.tcb.iss, e) then Established else SynSent
              case Established => if Finishes(ep, e) then FinWait2 else Established
              case FinWait2 => if Finishes(ep, e) then TimeWait else FinWait2
              case other => other
  {
    hide Receive, HasBit, AfterData, AfterFin, AfterSynAck;
    match e
    case Open(a) => OpenIs(ep, s, a);
    case Arrive(m, a, b) =>
      if Receive(ep, m).Some? { DeliverState(s, Receive(ep, m).value, a, b); }
    case Send(data, a) => SendIs(ep, s, data, a);
    case Extract =>
  }

  lemma DeliverState(s: Sys, seg: Segment, a: Alloc, b: Alloc)
    ensures Deliver(s, seg, a, b).tcb.state ==
              match s.tcb.state
              case SynSent =>
                if HasBit(seg.flags, 2) && HasBit(seg.flags, 16) && seg.ackNo == (s.tcb.iss + 1) % 0x1_0000_0000
                then Established else SynSent
              case Established => if HasBit(seg.flags, 1) then FinWait2 else Established
              case FinWait2 => if HasBit(seg.flags, 1) then TimeWait else FinWait2
              case other => other
  {
    hide HasBit, AfterData, AfterFin, AfterSynAck;
    match s.tcb.state
    case SynSent => SynAckAnswer(s, seg, a);
    case Established =>
      DataState(s, seg, a);
      var s1 := AfterData(s, seg, a);
      FinAnswer(s1.(tcb := HandleAck(s1.tcb, seg)), seg, b, FinWait2);
    case FinWait2 => FinAnswer(s, seg, b, TimeWait);
    case _ =>
  }

  lemma DataState(s: Sys, seg: Segment, a: Alloc)
    ensures AfterData(s, seg, a).tcb.state == s.tcb.state
  {
    hide Wrap32, BufferFull;
  }

  lemma RunLast(ep: Endpoint, s: Sys, es: seq<Event>, e: Event)
    ensures Run(ep, s, es + [e]) == Next(ep, Run(ep, s, es), e)
  {
    assert (es + [e])[..|es|] == es;
  }

  lemma StateAtFirst(ep: Endpoint, iss: U32)
    ensures Run(ep, Init(iss), []).tcb.state == Closed
    ensures !Opened([]) && !Answered(ep, iss, []) && !Finished(ep, iss, []) && !FinishedTwice(ep, iss, [])
  {
  }

  /**
   * The state is what the calls and packets so far say: SYN_SENT from the first connect on, whether or not its packet
   * could be allocated; ESTABLISHED from the first SYN-ACK behind it that acknowledges iss; FIN_WAIT_2 from the first
   * FIN behind that, TIME_WAIT from the second. No other packet and no other call moves it.
   */
  lemma {:induction false} StateExact(ep: Endpoint, iss: U32, es: seq<Event>)
    ensures Run(ep, Init(iss), es).tcb.state ==
              if FinishedTwice(ep, iss, es) then TimeWait
              else if Finished(ep, iss, es) then FinWait2
              else if Answered(ep, iss, es) then Established
              else if Opened(es) then SynSent else Closed
    ensures FinishedTwice(ep, iss, es) ==> Finished(ep, iss, es)
    ensures Finished(ep, iss, es) ==> Answered(ep, iss, es)
    ensures Answered(ep, iss, es) ==> Opened(es)
  {
    hide *;
    if es == [] {
      StateAtFirst(ep, iss);
    } else {
      var front, e := es[..|es| - 1], es[|es| - 1];
      StateExact(ep, iss, front);
      RunKeeps(ep, iss, front);
      StateStep(ep, Run(ep, Init(iss), front), e);
      RunLast(ep, Init(iss), front, e);
      assert es == front + [e];
      OpenedStep(front, e);
      AnsweredStep(ep, iss, front, e);
      FinishedStep(ep, iss, front, e);
      FinishedTwiceStep(ep, iss, front, e);
    }
  }
}
