/**
 * Every run of the TCP machine: any interleaving of its public calls with packets that the network
 * lost, duplicated or reordered at will. History variables record what was extracted and emitted.
 */
module TcpRuns {
  import opened Words
  import opened Packet
  import opened MicroTcp

  datatype Event =
    | Open(a: Alloc)
    | Arrive(m: Mbuf, a: Alloc, b: Alloc)
    | Send(data: Chunk, a: Alloc)
    | Extract

  /** A segment that left the machine, with the number of sequence positions accepted when it was created. */
  datatype Emission = Emission(seg: Segment, upTo: nat)

  /**
   * The machine with its history: bytes handed to the caller, bytes accepted by the full-buffer branch and
   * not stored, FIN segments taken, the peer's initial sequence number, and everything emitted.
   */
  datatype Sys = Sys(tcb: Tcb, got: seq<Byte>, lost: nat, fins: nat, irs: U32, out: seq<Emission>)

  function Init(iss: U32): Sys {
    Sys(InitTcb(iss), [], 0, 0, 0, [])
  }

  function Rank(st: TcpState): nat {
    match st
    case Closed => 0
    case SynSent => 1
    case Established => 2
    case FinWait1 => 3
    case FinWait2 => 4
    case TimeWait => 5
  }

  predicate Synchronized(s: Sys) { Rank(s.tcb.state) >= 2 }

  /** Bytes that are or will be available to the caller. */
  function Kept(s: Sys): seq<Byte> { s.got + s.tcb.rxBuffer }

  /** FINs that a state shows. */
  function Fins(st: TcpState): nat {
    match st
    case FinWait2 => 1
    case TimeWait => 2
    case _ => 0
  }

  /** Sequence positions accepted after the peer's SYN: data bytes, stored or not, and FINs. */
  function Accepted(s: Sys): nat { |Kept(s)| + s.lost + s.fins }

  predicate IsSyn(seg: Segment) { HasBit(seg.flags, SYN) }

  // ---------- One step ----------

  function Emitted(seg: Option<Segment>, upTo: nat): seq<Emission> {
    if seg.None? then [] else [Emission(seg.value, upTo)]
  }

  function AfterReply(s: Sys, r: (Tcb, seq<Reply>), lost: nat, irs: U32): Sys {
    var s' := s.(tcb := r.0, lost := lost, irs := irs);
    if r.1 == [] then s' else s'.(out := s.out + Emitted(r.1[0].seg, Accepted(s')))
  }

  function AfterData(s: Sys, seg: Segment, a: Alloc): Sys {
    var dropped := if seg.seqNo == s.tcb.rcvNxt && BufferFull(s.tcb, seg) then |seg.payload| else 0;
    AfterReply(s, HandleData(s.tcb, seg, a), s.lost + dropped, s.irs)
  }

  function AfterFin(s: Sys, seg: Segment, a: Alloc, next: TcpState): Sys {
    var taken := if HasBit(seg.flags, FIN) then 1 else 0;
    AfterReply(s.(fins := s.fins + taken), HandleFin(s.tcb, seg, a, next), s.lost, s.irs)
  }

  function AfterSynAck(s: Sys, seg: Segment, a: Alloc): Sys {
    var r := HandleSynAck(s.tcb, seg, a);
    AfterReply(s, r, s.lost, if r.0.state == Established then seg.seqNo else s.irs)
  }

  function Deliver(s: Sys, seg: Segment, a: Alloc, b: Alloc): Sys {
    match s.tcb.state
    case SynSent => AfterSynAck(s, seg, a)
    case Established =>
      var s1 := AfterData(s, seg, a);
      AfterFin(s1.(tcb := HandleAck(s1.tcb, seg)), seg, b, FinWait2)
    case FinWait2 => AfterFin(s, seg, b, TimeWait)
    case _ => s
  }

  function Next(ep: Endpoint, s: Sys, e: Event): Sys {
    match e
    case Open(a) =>
      var (t, seg) := Connect(s.tcb, a);
      s.(tcb := t, out := s.out + Emitted(seg, Accepted(s)))
    case Arrive(m, a, b) =>
      (match Receive(ep, m) case None => s case Some(seg) => Deliver(s, seg, a, b))
    case Send(data, a) =>
      var (t, seg) := SendData(s.tcb, data, a);
      s.(tcb := t, out := s.out + Emitted(seg, Accepted(s)))
    case Extract =>
      s.(tcb := s.tcb.(rxBuffer := []), got := s.got + s.tcb.rxBuffer)
  }

  function Run(ep: Endpoint, s: Sys, es: seq<Event>): Sys {
    if es == [] then s else Next(ep, Run(ep, s, es[..|es| - 1]), es[|es| - 1])
  }

  lemma ExtractIs(ep: Endpoint, s: Sys)
    ensures Next(ep, s, Extract) == s.(tcb := s.tcb.(rxBuffer := []), got := s.got + s.tcb.rxBuffer)
  {
  }

  lemma {:induction false} RunAppend(ep: Endpoint, s: Sys, es: seq<Event>, more: seq<Event>)
    ensures Run(ep, s, es + more) == Run(ep, Run(ep, s, es), more)
  {
    hide Next;
    if more == [] {
      assert es + more == es;
    } else {
      var n := |more| - 1;
      RunAppend(ep, s, es, more[..n]);
      assert (es + more)[..|es| + n] == es + more[..n];
    }
  }

  /** The segments of a reply list that were really created. */
  function Created(rs: seq<Reply>): seq<Segment> {
    if rs == [] then []
    else Created(rs[..|rs| - 1]) + (if rs[|rs| - 1].seg.None? then [] else [rs[|rs| - 1].seg.value])
  }

  function Segments(out: seq<Emission>): seq<Segment> {
    seq(|out|, i requires 0 <= i < |out| => out[i].seg)
  }

  lemma CreatedOne(r: Reply)
    ensures Created([r]) == if r.seg.None? then [] else [r.seg.value]
  {
    assert [r][..0] == [];
  }

  /** Delivering a packet does to the variables, and emits, exactly what the class's `ProcessRx` does. */
  lemma ArriveIsProcessRx(ep: Endpoint, s: Sys, m: Mbuf, a: Alloc, b: Alloc)
    ensures var s' := Next(ep, s, Arrive(m, a, b));
            var r := RxPacket(ep, s.tcb, m, a, b);
            s'.tcb == r.0 && Segments(s'.out) == Segments(s.out) + Created(r.1)
  {
    hide Receive, Wrap32, HasBit, Create;
    var s' := Next(ep, s, Arrive(m, a, b));
    match Receive(ep, m)
    case None =>
    case Some(seg) =>
      match s.tcb.state
      case SynSent =>
        ReplyOut(s, HandleSynAck(s.tcb, seg, a), s.lost, s'.irs);
      case Established =>
        EstablishedIsProcessRx(s, seg, a, b);
      case FinWait2 =>
        ReplyOut(s.(fins := s'.fins), HandleFin(s.tcb, seg, b, TimeWait), s.lost, s.irs);
      case _ =>
  }

  lemma EstablishedIsProcessRx(s: Sys, seg: Segment, a: Alloc, b: Alloc)
    requires s.tcb.state == Established
    ensures var s', r := Deliver(s, seg, a, b), HandleEstablished(s.tcb, seg, a, b);
            s'.tcb == r.0 && Segments(s'.out) == Segments(s.out) + Created(r.1)
  {
    hide Wrap32, HasBit, Create, Created, Segments;
    var s1 := AfterData(s, seg, a);
    var s2 := s1.(tcb := HandleAck(s1.tcb, seg));
    var d, f := HandleData(s.tcb, seg, a), HandleFin(s2.tcb, seg, b, FinWait2);
    ReplyOut(s, d, s1.lost, s.irs);
    ReplyOut(s2.(fins := Deliver(s, seg, a, b).fins), f, s2.lost, s2.irs);
    CreatedTwo(d.1, f.1);
  }

  lemma CreatedTwo(d: seq<Reply>, f: seq<Reply>)
    requires |f| <= 1
    ensures Created(d + f) == Created(d) + Created(f)
  {
    if f == [] {
      assert d + f == d;
    } else {
      assert (d + f)[..|d|] == d;
      assert f == [f[0]];
      CreatedOne(f[0]);
    }
  }

  lemma ReplyOut(s: Sys, r: (Tcb, seq<Reply>), lost: nat, irs: U32)
    requires |r.1| <= 1
    ensures AfterReply(s, r, lost, irs).tcb == r.0
    ensures Segments(AfterReply(s, r, lost, irs).out) == Segments(s.out) + Created(r.1)
  {
    if r.1 != [] {
      assert r.1 == [r.1[0]];
      CreatedOne(r.1[0]);
    }
  }

  // ---------- What every run keeps ----------

  /** The data of a list of emitted segments, in order of emission. */
  function Sent(out: seq<Emission>): seq<Byte> {
    if out == [] then [] else Sent(out[..|out| - 1]) + out[|out| - 1].seg.payload
  }

  /** 1 if the SYN left the machine, 0 if its allocation failed or it was never asked for. */
  function Syns(out: seq<Emission>): nat {
    if out != [] && IsSyn(out[0].seg) then 1 else 0
  }

  /**
   * Emission k: only the first can be the SYN, numbered iss; every other one is numbered right after the
   * SYN and the data of all emissions before it, and acknowledges exactly what was accepted when it was made.
   */
  ghost predicate Numbered(out: seq<Emission>, k: nat, iss: U32, irs: U32)
    requires k < |out|
  {
    if IsSyn(out[k].seg) then k == 0 && out[k].seg == Segment(SYN, iss, 0, [])
    else
      && |out[k].seg.payload| < TWO16
      && out[k].seg.seqNo == Wrap32(iss + Syns(out) + |Sent(out[..k])|)
      && out[k].seg.ackNo == Wrap32(irs + 1 + out[k].upTo)
  }

  ghost predicate OutInv(out: seq<Emission>, iss: U32, irs: U32, accepted: nat) {
    && (forall k :: 0 <= k < |out| ==> Numbered(out, k, iss, irs))
    && (forall k :: 0 <= k < |out| ==> out[k].upTo <= accepted)
    && (forall j, k :: 0 <= j < k < |out| ==> out[j].upTo <= out[k].upTo)
  }

  ghost predicate Inv(s: Sys) {
    && (Synchronized(s) ==> s.tcb.rcvNxt == Wrap32(s.irs + 1 + Accepted(s)))
    && (!Synchronized(s) ==> Kept(s) == [] && s.lost == 0 && |s.out| == Syns(s.out))
    && (s.tcb.state == Closed ==> s.out == [])
    && s.tcb.state != FinWait1
    && s.fins == Fins(s.tcb.state)
    && s.tcb.sndNxt == Wrap32(s.tcb.iss + Syns(s.out) + |Sent(s.out)|)
    && OutInv(s.out, s.tcb.iss, s.irs, Accepted(s))
  }

  lemma SentAppend(out: seq<Emission>, e: Emission)
    ensures Sent(out + [e]) == Sent(out) + e.seg.payload
  {
    assert (out + [e])[..|out|] == out;
  }

  lemma NumberedAppend(out: seq<Emission>, e: Emission, k: nat, iss: U32, irs: U32)
    requires k < |out| && Numbered(out, k, iss, irs)
    ensures Numbered(out + [e], k, iss, irs)
  {
    hide Wrap32, HasBit, Sent;
    assert (out + [e])[..k] == out[..k];
  }

  lemma NumberedLast(out: seq<Emission>, e: Emission, iss: U32, irs: U32)
    requires !IsSyn(e.seg) && |e.seg.payload| < TWO16
    requires e.seg.seqNo == Wrap32(iss + Syns(out) + |Sent(out)|) && e.seg.ackNo == Wrap32(irs + 1 + e.upTo)
    ensures Numbered(out + [e], |out|, iss, irs) && Syns(out + [e]) == Syns(out)
  {
    hide Wrap32, HasBit, Sent;
    assert (out + [e])[..|out|] == out;
  }

  /** One more emission that is numbered and acknowledges as it should. */
  lemma OutExtend(out: seq<Emission>, e: Emission, iss: U32, irs: U32, accepted: nat)
    requires OutInv(out, iss, irs, accepted) && !IsSyn(e.seg) && accepted <= e.upTo && |e.seg.payload| < TWO16
    requires e.seg.seqNo == Wrap32(iss + Syns(out) + |Sent(out)|) && e.seg.ackNo == Wrap32(irs + 1 + e.upTo)
    ensures OutInv(out + [e], iss, irs, e.upTo) && Syns(out + [e]) == Syns(out)
    ensures Sent(out + [e]) == Sent(out) + e.seg.payload
  {
    hide Wrap32, HasBit, Sent, Numbered, Syns;
    SentAppend(out, e);
    NumberedLast(out, e, iss, irs);
    forall k | 0 <= k < |out| ensures Numbered(out + [e], k, iss, irs) {
      NumberedAppend(out, e, k, iss, irs);
    }
  }

  lemma AckIs(t: Tcb, a: Alloc)
    ensures Acknowledge(t, a) == (t, [Reply(if a.ok then Some(Segment(ACK, t.sndNxt, t.rcvNxt, [])) else None, a)])
    ensures !IsSyn(Segment(ACK, t.sndNxt, t.rcvNxt, []))
  {
  }

  /** Before synchronization only the SYN is out, and it does not depend on the peer's number. */
  lemma NumberedAnew(out: seq<Emission>, k: nat, iss: U32, irs: U32, irs': U32, fixed: bool)
    requires k < |out| && Numbered(out, k, iss, irs)
    requires if fixed then irs' == irs else |out| == Syns(out)
    ensures Numbered(out, k, iss, irs')
  {
    hide Wrap32, HasBit, Sent;
  }

  /** An acknowledgement pushed after the receive side moved keeps the invariant. */
  lemma ReplyKeeps(s: Sys, t: Tcb, a: Alloc, lost: nat, irs: U32, next: TcpState)
    requires Inv(s)
    requires irs != s.irs ==> !Synchronized(s)
    requires t.iss == s.tcb.iss && t.sndNxt == s.tcb.sndNxt && Rank(next) >= 2 && next != FinWait1
    requires var n := |s.got| + |t.rxBuffer| + lost + Fins(next);
             n >= Accepted(s) && t.rcvNxt == Wrap32(irs + 1 + n)
    ensures var r := Acknowledge(t, a);
            Inv(AfterReply(s.(fins := Fins(next)), (r.0.(state := next), r.1), lost, irs))
  {
    hide Wrap32, HasBit, Sent, Numbered;
    var r := Acknowledge(t, a);
    AckIs(t, a);
    hide Acknowledge;
    var s' := AfterReply(s.(fins := Fins(next)), (r.0.(state := next), r.1), lost, irs);
    forall k | 0 <= k < |s.out| ensures Numbered(s.out, k, t.iss, irs) {
      NumberedAnew(s.out, k, t.iss, s.irs, irs, Synchronized(s));
    }
    assert OutInv(s.out, t.iss, irs, Accepted(s));
    if a.ok {
      OutExtend(s.out, Emission(r.1[0].seg.value, Accepted(s')), t.iss, irs, Accepted(s));
    } else {
      assert s'.out == s.out;
    }
  }

  lemma DataKeeps(s: Sys, seg: Segment, a: Alloc)
    requires Inv(s) && s.tcb.state == Established
    ensures Inv(AfterData(s, seg, a)) && AfterData(s, seg, a).tcb.state == Established
  {
    hide Wrap32, HasBit, Sent, OutInv, Create, BufferFull;
    if seg.payload != [] && seg.seqNo == s.tcb.rcvNxt {
      var full := BufferFull(s.tcb, seg);
      var t := s.tcb.(rxBuffer := if full then s.tcb.rxBuffer else s.tcb.rxBuffer + seg.payload,
                      rcvNxt := Wrap32(s.tcb.rcvNxt + |seg.payload|));
      WrapAdd(s.irs + 1 + Accepted(s), |seg.payload|);
      var lost := s.lost + if full then |seg.payload| else 0;
      ReplyKeeps(s, t, a, lost, s.irs, Established);
      AckIs(t, a);
    } else if seg.payload != [] && seg.seqNo < s.tcb.rcvNxt {
      ReplyKeeps(s, s.tcb, a, s.lost, s.irs, Established);
      AckIs(s.tcb, a);
    }
  }

  lemma FinKeeps(s: Sys, seg: Segment, a: Alloc, next: TcpState)
    requires Inv(s)
    requires (s.tcb.state == Established && next == FinWait2) || (s.tcb.state == FinWait2 && next == TimeWait)
    ensures Inv(AfterFin(s, seg, a, next))
  {
    if HasBit(seg.flags, FIN) {
      var t := s.tcb.(rcvNxt := Wrap32(s.tcb.rcvNxt + 1));
      WrapAdd(s.irs + 1 + Accepted(s), 1);
      ReplyKeeps(s, t, a, s.lost, s.irs, next);
    }
  }

  lemma SynAckKeeps(s: Sys, seg: Segment, a: Alloc)
    requires Inv(s) && s.tcb.state == SynSent
    ensures Inv(AfterSynAck(s, seg, a))
  {
    if HasBit(seg.flags, SYN) && HasBit(seg.flags, ACK) && seg.ackNo == Wrap32(s.tcb.iss + 1) {
      var t := s.tcb.(rcvNxt := Wrap32(seg.seqNo + 1), sndUna := seg.ackNo, state := Established);
      ReplyKeeps(s, t, a, s.lost, seg.seqNo, Established);
      AckIs(t, a);
    }
  }

  lemma SendKeeps(s: Sys, data: Chunk, a: Alloc)
    requires Inv(s) && s.tcb.state == Established && a.ok
    ensures var r := SendData(s.tcb, data, a);
            Inv(s.(tcb := r.0, out := s.out + Emitted(r.1, Accepted(s))))
  {
    hide Wrap32, Sent, OutInv;
    var r := SendData(s.tcb, data, a);
    var e := Emission(r.1.value, Accepted(s));
    assert e.seg == Segment(PSH + ACK, s.tcb.sndNxt, s.tcb.rcvNxt, data);
    OutExtend(s.out, e, s.tcb.iss, s.irs, Accepted(s));
    WrapAdd(s.tcb.iss + Syns(s.out) + |Sent(s.out)|, |data|);
  }

  lemma SentNothing()
    ensures Sent([]) == []
  {
  }

  lemma OpenKeeps(s: Sys, a: Alloc)
    requires Inv(s) && s.tcb.state == Closed && a.ok
    ensures var r := Connect(s.tcb, a);
            Inv(s.(tcb := r.0, out := s.out + Emitted(r.1, Accepted(s))))
  {
    hide Wrap32, Sent;
    var e := Emission(Segment(SYN, s.tcb.iss, 0, []), 0);
    assert s.out + [e] == [] + [e];
    SentAppend([], e);
    SentNothing();
    WrapAdd(s.tcb.iss + Syns(s.out) + |Sent(s.out)|, 1);
  }

  lemma DeliverKeeps(s: Sys, seg: Segment, a: Alloc, b: Alloc)
    requires Inv(s)
    ensures Inv(Deliver(s, seg, a, b))
  {
    hide Wrap32, OutInv, AfterSynAck, AfterData, AfterFin;
    if s.tcb.state == SynSent {
      SynAckKeeps(s, seg, a);
    } else if s.tcb.state == Established {
      DataKeeps(s, seg, a);
      var s1 := AfterData(s, seg, a);
      FinKeeps(s1.(tcb := HandleAck(s1.tcb, seg)), seg, b, FinWait2);
    } else if s.tcb.state == FinWait2 {
      FinKeeps(s, seg, b, TimeWait);
    }
  }

  lemma StepKeeps(ep: Endpoint, s: Sys, e: Event)
    requires Inv(s)
    ensures Inv(Next(ep, s, e))
  {
    hide Wrap32, Receive, OutInv, Deliver, Sent;
    match e
    case Open(a) =>
      if s.tcb.state == Closed && a.ok {
        OpenKeeps(s, a);
      } else {
        assert Next(ep, s, e).out == s.out;
      }
    case Arrive(m, a, b) =>
      if Receive(ep, m).Some? {
        DeliverKeeps(s, Receive(ep, m).value, a, b);
      }
    case Send(data, a) =>
      if s.tcb.state == Established && a.ok {
        SendKeeps(s, data, a);
      } else {
        assert Next(ep, s, e).out == s.out;
      }
    case Extract =>
      assert Kept(Next(ep, s, e)) == Kept(s);
  }

  lemma {:induction false} RunKeeps(ep: Endpoint, iss: U32, es: seq<Event>)
    ensures Inv(Run(ep, Init(iss), es)) && Run(ep, Init(iss), es).tcb.iss == iss
  {
    if es == [] {
      assert Wrap32(iss) == iss;
    } else {
      hide Next, Inv;
      var s := Run(ep, Init(iss), es[..|es| - 1]);
      RunKeeps(ep, iss, es[..|es| - 1]);
      StepKeeps(ep, s, es[|es| - 1]);
      StepForward(ep, s, es[|es| - 1]);
    }
  }

  /**
   * Acknowledgement accounting: once synchronized, rcv_nxt is the peer's initial number plus one plus the data
   * bytes and FINs accepted; at most two FINs are ever taken, and the state shows how many; every emitted segment
   * except the SYN carried the value of its moment, so acknowledgements never run backwards or ahead.
   */
  lemma {:induction false} AckAccounting(ep: Endpoint, iss: U32, es: seq<Event>)
    ensures var s := Run(ep, Init(iss), es);
            && (Synchronized(s) ==> s.tcb.rcvNxt == Wrap32(s.irs + 1 + |Kept(s)| + s.lost + s.fins))
            && s.fins == Fins(s.tcb.state) <= 2
            && (forall k :: 0 <= k < |s.out| && !IsSyn(s.out[k].seg) ==>
                  s.out[k].seg.ackNo == Wrap32(s.irs + 1 + s.out[k].upTo) && s.out[k].upTo <= Accepted(s))
            && (forall j, k :: 0 <= j < k < |s.out| ==> s.out[j].upTo <= s.out[k].upTo)
  {
    hide Run, HasBit, Sent;
    hide Wrap32;
    hide Next;
    RunKeeps(ep, iss, es);
    var s := Run(ep, Init(iss), es);
    forall k | 0 <= k < |s.out| && !IsSyn(s.out[k].seg)
      ensures s.out[k].seg.ackNo == Wrap32(s.irs + 1 + s.out[k].upTo)
    {
      assert Numbered(s.out, k, s.tcb.iss, s.irs);
    }
  }

  /** The connection state never moves backwards, over any stretch of a run. */
  lemma {:induction false} NeverBackwards(ep: Endpoint, iss: U32, es: seq<Event>, more: seq<Event>)
    ensures Rank(Run(ep, Init(iss), es).tcb.state) <= Rank(Run(ep, Init(iss), es + more).tcb.state)
  {
    hide Next;
    if more == [] {
      assert es + more == es;
    } else {
      var n := |more| - 1;
      NeverBackwards(ep, iss, es, more[..n]);
      assert (es + more)[..|es| + n] == es + more[..n];
      var s := Run(ep, Init(iss), es + more[..n]);
      StepForward(ep, s, more[n]);
    }
  }

  lemma StepForward(ep: Endpoint, s: Sys, e: Event)
    ensures Rank(s.tcb.state) <= Rank(Next(ep, s, e).tcb.state)
    ensures Next(ep, s, e).tcb.iss == s.tcb.iss
  {
    hide Wrap32, Receive, HasBit, Deliver;
    if e.Arrive? && Receive(ep, e.m).Some? {
      DeliverForward(s, Receive(ep, e.m).value, e.a, e.b);
    }
  }

  lemma DeliverForward(s: Sys, seg: Segment, a: Alloc, b: Alloc)
    ensures Rank(s.tcb.state) <= Rank(Deliver(s, seg, a, b).tcb.state)
    ensures Deliver(s, seg, a, b).tcb.iss == s.tcb.iss
  {
    hide Wrap32, HasBit;
  }

  /**
   * Send tiling: the emitted data segments lie end to end. Segment k starts right after the SYN (if one left)
   * and the data of the segments before it, and the next number to use is right after all of them. Failed
   * allocations leave no trace.
   */
  lemma {:induction false} SendTiling(ep: Endpoint, iss: U32, es: seq<Event>)
    ensures var s := Run(ep, Init(iss), es);
            && s.tcb.sndNxt == Wrap32(iss + Syns(s.out) + |Sent(s.out)|)
            && (forall k :: 0 <= k < |s.out| ==>
                  if IsSyn(s.out[k].seg) then k == 0 && s.out[k].seg == Segment(SYN, iss, 0, [])
                  else s.out[k].seg.seqNo == Wrap32(iss + Syns(s.out) + |Sent(s.out[..k])|))
  {
    hide Run, HasBit, Sent;
    hide Wrap32;
    hide Next;
    RunKeeps(ep, iss, es);
    var s := Run(ep, Init(iss), es);
    forall k | 0 <= k < |s.out|
      ensures if IsSyn(s.out[k].seg) then k == 0 && s.out[k].seg == Segment(SYN, iss, 0, [])
              else s.out[k].seg.seqNo == Wrap32(iss + Syns(s.out) + |Sent(s.out[..k])|)
    {
      assert Numbered(s.out, k, s.tcb.iss, s.irs);
    }
  }
}
