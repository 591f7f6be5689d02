/** Every run of the layered client: what happens to the output of its TLS library, and what TCP sends of it. */
module WebSocketOutput {
  import opened Words
  import opened Packet
  import opened MicroTcp
  import opened TcpRuns
  import opened TcpSafety
  import opened TlsRecords
  import opened TlsOutput
  import opened WebSocketClient
  import opened WebSocketRuns
  import opened Subsequences

  // ---------- The library's output over runs ----------

  /** Outside the TLS phase output only gathers; the TLS phase drains all that was there. */
  lemma StepLib(ep: Endpoint, w: Ws, e: WsEvent)
    requires Conserved(w.tls.lib)
    ensures var l, l' := w.tls.lib, WsNext(ep, w, e).tls.lib;
            && Extends(l, l')
            && if TlsPhase(ep, w, e) then l.handed + l.output <= l'.handed
               else l'.handed == l.handed && l.output <= l'.output
  {
    hide WsNext, TlsPhase, TcpOf, Run, TlsFlow, Push, Encrypt;
    StepTrace(ep, w, e);
    PhaseIsPacket(ep, w, e);
    var f := Flow(w.tls.lib, []);
    match e
    case ProcessRx(m, a, b, turn) =>
      TlsFlowExtends(w.tls.lib, w.tls.helloSent, DataOf(ep, w, e), turn);
      PushExtends(f, Protocol, turn.reply);
      PushHanded(f, Protocol, turn.reply);
    case SendFrame(x) => EncryptGathers(f, Message, x);
    case Disconnect(close) => EncryptGathers(f, Close, close);
    case _ =>
  }

  lemma EncryptGathers(f: Flow, kind: Kind, x: Frame)
    requires Conserved(f.lib)
    ensures var l' := Encrypt(f, kind, x).lib;
            Extends(f.lib, l') && l'.handed == f.lib.handed && f.lib.output <= l'.output
  {
    hide Push;
    PushHanded(f, kind, x.record);
    EncryptExtends(f, kind, x);
  }

  /**
   * Conservation: over all runs, what was ever put into the library's output (handshake messages, upgrade requests,
   * frames, the close frame) is what was drained from it and what is left in it, each piece once and in order.
   */
  lemma {:induction false} OutputConserved(ep: Endpoint, w: Ws, iss: U32, es: seq<WsEvent>)
    requires Fresh(w, iss)
    ensures var l := WsRun(ep, w, es).tls.lib; l.generated == l.handed + l.output
  {
    if es != [] {
      hide WsNext, TlsPhase;
      OutputConserved(ep, w, iss, es[..|es| - 1]);
      StepLib(ep, WsRun(ep, w, es[..|es| - 1]), es[|es| - 1]);
    }
  }

  /** Event i goes through the WS_CONNECTING_TLS case. */
  predicate PhaseAt(ep: Endpoint, w: Ws, es: seq<WsEvent>, i: nat)
    requires i < |es|
  {
    TlsPhase(ep, StateAt(ep, w, es, i), es[i])
  }

  ghost predicate ReachesTls(ep: Endpoint, w: Ws, es: seq<WsEvent>) {
    exists i :: 0 <= i < |es| && PhaseAt(ep, w, es, i)
  }

  lemma ReachesExtends(ep: Endpoint, w: Ws, es: seq<WsEvent>)
    requires es != []
    ensures ReachesTls(ep, w, es) <==> ReachesTls(ep, w, es[..|es| - 1]) || PhaseAt(ep, w, es, |es| - 1)
  {
    hide TlsPhase, WsRun, StateAt;
    var front, n := es[..|es| - 1], |es| - 1;
    forall i | 0 <= i < n ensures PhaseAt(ep, w, es, i) == PhaseAt(ep, w, front, i) {
      StatesExtend(ep, w, es, i);
    }
  }

  /**
   * What is left in the output is handed to TCP by the next call that goes through the TLS phase, and by no other:
   * after any further run it has been drained exactly if there was such a call, in this session or a later one.
   * Until then it stays where it is.
   */
  lemma {:induction false} LeftOverLeaves(ep: Endpoint, w: Ws, es: seq<WsEvent>)
    requires Conserved(w.tls.lib) && w.tls.lib.output != []
    ensures var l, l' := w.tls.lib, WsRun(ep, w, es).tls.lib;
            && Conserved(l')
            && (l.handed + l.output <= l'.handed <==> ReachesTls(ep, w, es))
            && (!ReachesTls(ep, w, es) ==> l'.handed == l.handed && l.output <= l'.output)
  {
    hide WsNext, TlsPhase;
    if es != [] {
      hide Conserved, ReachesTls;
      var front, e := es[..|es| - 1], es[|es| - 1];
      var v := WsRun(ep, w, front);
      LeftOverLeaves(ep, w, front);
      ReachesExtends(ep, w, es);
      assert StateAt(ep, w, es, |es| - 1) == v;
      StepLib(ep, v, e);
    }
  }

  // ---------- What is sent is library output ----------

  lemma SentKept(ep: Endpoint, s: Sys, e: Event)
    requires !e.Send?
    ensures Sent(Next(ep, s, e).out) == Sent(s.out)
  {
    hide Packet.Receive, Wrap32, Deliver, Sent;
    assert s.out + [] == s.out && Sent(s.out) + [] == Sent(s.out);
    match e
    case Open(a) => SentAppend(s.out, Emission(Segment(SYN, s.tcb.iss, 0, []), Accepted(s)));
    case Arrive(m, a, b) =>
      if Packet.Receive(ep, m).Some? { DeliverSent(s, Packet.Receive(ep, m).value, a, b); }
    case Extract =>
  }

  lemma ReplySent(s: Sys, r: (Tcb, seq<Reply>), lost: nat, irs: U32)
    requires r.1 != [] && r.1[0].seg.Some? ==> r.1[0].seg.value.payload == []
    ensures Sent(AfterReply(s, r, lost, irs).out) == Sent(s.out)
  {
    if r.1 != [] && r.1[0].seg.Some? {
      var s' := s.(tcb := r.0, lost := lost, irs := irs);
      SentAppend(s.out, Emission(r.1[0].seg.value, Accepted(s')));
      assert Sent(s.out) + [] == Sent(s.out);
    } else {
      assert AfterReply(s, r, lost, irs).out == s.out;
    }
  }

  lemma DeliverSent(s: Sys, seg: Segment, a: Alloc, b: Alloc)
    ensures Sent(Deliver(s, seg, a, b).out) == Sent(s.out)
  {
    hide Sent, HasBit, Wrap32, BufferFull;
    var s' := Deliver(s, seg, a, b);
    match s.tcb.state
    case SynSent =>
      ReplySent(s, HandleSynAck(s.tcb, seg, a), s.lost, s'.irs);
    case Established =>
      var s1 := AfterData(s, seg, a);
      ReplySent(s, HandleData(s.tcb, seg, a), s1.lost, s.irs);
      var s2 := s1.(tcb := HandleAck(s1.tcb, seg));
      ReplySent(s2.(fins := s'.fins), HandleFin(s2.tcb, seg, b, FinWait2), s2.lost, s2.irs);
    case FinWait2 =>
      ReplySent(s.(fins := s'.fins), HandleFin(s.tcb, seg, b, TimeWait), s.lost, s.irs);
    case _ =>
  }

  /** A write adds its data, or nothing if TCP refuses it or has no buffer. */
  lemma SendSent(ep: Endpoint, s: Sys, x: Write)
    ensures Sent(Next(ep, s, Event.Send(x.data, x.a)).out)
         == Sent(s.out) + if s.tcb.state == Established && x.a.ok then x.data else []
  {
    hide Wrap32, HasBit, Sent;
    if s.tcb.state == Established && x.a.ok {
      SentAppend(s.out, Emission(SendData(s.tcb, x.data, x.a).1.value, Accepted(s)));
    } else {
      assert s.out + [] == s.out;
    }
  }

  /** The data sent after a flow of writes are drained bytes with some left out. */
  ghost predicate FlowSent(ep: Endpoint, s: Sys, f: Flow) {
    Subsequence(Sent(SendAll(ep, s, f.writes).out), Flat(f.lib.handed))
  }

  lemma SendsMore(ws: seq<Write>, x: Write)
    ensures Sends(ws + [x]) == Sends(ws) + [Event.Send(x.data, x.a)]
  {
    assert (ws + [x])[..|ws|] == ws;
  }

  /** One more write, of the first n bytes of a piece of output that has just been drained. */
  lemma WriteSent(ep: Endpoint, s: Sys, f: Flow, x: Write, burst: seq<Byte>, n: nat, handed: seq<Piece>)
    requires FlowSent(ep, s, f) && n <= |burst| && x.data == burst[..n]
    requires Flat(handed) == Flat(f.lib.handed) + burst
    ensures Subsequence(Sent(SendAll(ep, s, f.writes + [x]).out), Flat(handed))
  {
    hide Next, Run, Sends, Sent, Flat, Subsequence;
    SendsMore(f.writes, x);
    RunOne(ep, s, Sends(f.writes), Event.Send(x.data, x.a));
    var s1 := SendAll(ep, s, f.writes);
    SendSent(ep, s1, x);
    SubsequenceBurst(Sent(s1.out), Flat(f.lib.handed), burst, if s1.tcb.state == Established && x.a.ok then n else 0);
    assert burst[..0] == [];
  }

  lemma FlushSent(ep: Endpoint, s: Sys, f: Flow, a: Alloc)
    requires FlowSent(ep, s, f)
    ensures FlowSent(ep, s, Flush(f, a))
  {
    hide SendAll, Flat, Subsequence, Sent;
    if f.lib.output != [] {
      var burst := Flat(f.lib.output);
      FlatAppend(f.lib.handed, f.lib.output);
      WriteSent(ep, s, f, Write(Cut16(burst), a), burst, |burst| % 0x1_0000, f.lib.handed + f.lib.output);
    }
  }

  lemma EncryptSent(ep: Endpoint, s: Sys, f: Flow, kind: Kind, x: Frame)
    requires FlowSent(ep, s, f)
    ensures FlowSent(ep, s, Encrypt(f, kind, x))
  {
    hide SendAll, Flat, Subsequence, Sent;
    if x.ok {
      var g := Push(f, kind, x.record);
      assert Flat(f.lib.handed) + [] == Flat(f.lib.handed);
      WriteSent(ep, s, g, Write([], x.a), [], 0, g.lib.handed);
    }
  }

  lemma CallSent(ep: Endpoint, s: Sys, f: Flow, turn: Turn, k: nat)
    requires FlowSent(ep, s, f)
    ensures FlowSent(ep, s, Call(f, turn, k))
  {
    hide SendAll, Flat, Subsequence, Sent, Flush;
    FlushSent(ep, s, Push(f, Protocol, turn.made(k)), turn.post(k));
  }

  lemma {:induction false} CallsSent(ep: Endpoint, s: Sys, f: Flow, turn: Turn, k: nat, m: nat)
    requires FlowSent(ep, s, f)
    ensures FlowSent(ep, s, Calls(f, turn, k, m))
  {
    hide FlowSent, Call;
    if m > k {
      CallsSent(ep, s, f, turn, k, m - 1);
      CallSent(ep, s, Calls(f, turn, k, m - 1), turn, m - 1);
    }
  }

  lemma {:induction false} FeedSent(ep: Endpoint, s: Sys, f: Flow, turn: Turn, n: nat)
    requires FlowSent(ep, s, f)
    ensures FlowSent(ep, s, Feeds(f, turn, n))
  {
    hide FlowSent, Calls, Flush, CallsAfter;
    if n > 0 {
      var g := Feeds(f, turn, n - 1);
      FeedSent(ep, s, f, turn, n - 1);
      FlushSent(ep, s, g, turn.pre(n - 1));
      CallsSent(ep, s, Flush(g, turn.pre(n - 1)), turn, CallsAfter(turn.hs, n - 1), CallsAfter(turn.hs, n));
    }
  }

  lemma TlsFlowSent(ep: Endpoint, s: Sys, l: Lib, helloSent: bool, data: seq<Byte>, turn: Turn)
    requires FlowSent(ep, s, Flow(l, []))
    ensures FlowSent(ep, s, TlsFlow(l, helloSent, data, turn))
  {
    hide FlowSent, Feeds, Call, Encrypt, Outcome, CallsAfter;
    var f, k := Flow(l, []), LastIndex(data, turn);
    if !helloSent {
      CallSent(ep, s, f, turn, 0);
    } else {
      var g := Feeds(f, turn, Outcome(data, turn.hs, 0, 0).records);
      FeedSent(ep, s, f, turn, Outcome(data, turn.hs, 0, 0).records);
      EncryptSent(ep, s, g, Upgrade, turn.first);
      CallSent(ep, s, FeedPart(f, data, turn), turn, k);
      EncryptSent(ep, s, Call(FeedPart(f, data, turn), turn, k), Upgrade, turn.second);
    }
  }

  /** The data sent so far are drained bytes with some left out. */
  ghost predicate OutputSent(w: Ws) {
    Subsequence(Sent(w.tcp.out), Flat(w.tls.lib.handed))
  }

  /** The part of a call before its writes: the packet and the draining of the buffer, or opening TCP. */
  function BeforeWrites(ep: Endpoint, w: Ws, e: WsEvent): Sys {
    match e
    case ProcessRx(m, a, b, turn) => Drained(ep, w.tcp, m, a, b).0
    case Connect(a) => if w.state == Disconnected then Next(ep, w.tcp, Event.Open(a)) else w.tcp
    case TryReconnect(due, a) => if Retries(w, due) then Next(ep, w.tcp, Event.Open(a)) else w.tcp
    case _ => w.tcp
  }

  lemma BeforeSent(ep: Endpoint, w: Ws, e: WsEvent)
    ensures Sent(BeforeWrites(ep, w, e).out) == Sent(w.tcp.out)
    ensures WsNext(ep, w, e).tcp == SendAll(ep, BeforeWrites(ep, w, e), FlowOf(ep, w, e).writes)
  {
    hide Next, Run, Sent, TlsFlow, Encrypt, Push, TlsState, TlsAfter;
    RunNothing(ep, BeforeWrites(ep, w, e));
    match e
    case ProcessRx(m, a, b, turn) =>
      SentKept(ep, w.tcp, Arrive(m, a, b));
      SentKept(ep, Next(ep, w.tcp, Arrive(m, a, b)), Extract);
      PushIs(w.tls.lib, Protocol, turn.reply);
    case Connect(a) => SentKept(ep, w.tcp, Event.Open(a));
    case TryReconnect(due, a) => SentKept(ep, w.tcp, Event.Open(a));
    case _ =>
  }

  lemma FlowOfSent(ep: Endpoint, w: Ws, e: WsEvent, s: Sys)
    requires FlowSent(ep, s, Flow(w.tls.lib, []))
    ensures FlowSent(ep, s, FlowOf(ep, w, e))
  {
    hide TlsFlow, Encrypt, FlowSent, TlsPhase;
    var f := Flow(w.tls.lib, []);
    match e
    case ProcessRx(m, a, b, turn) =>
      TlsFlowSent(ep, s, w.tls.lib, w.tls.helloSent, DataOf(ep, w, e), turn);
      PushSent(ep, s, f, Protocol, turn.reply);
    case SendFrame(x) => EncryptSent(ep, s, f, Message, x);
    case Disconnect(close) => EncryptSent(ep, s, f, Close, close);
    case _ =>
  }

  lemma PushSent(ep: Endpoint, s: Sys, f: Flow, kind: Kind, bytes: seq<Byte>)
    requires FlowSent(ep, s, f)
    ensures FlowSent(ep, s, Push(f, kind, bytes))
  {
    hide SendAll, Flat, Subsequence, Sent;
  }

  lemma StepSent(ep: Endpoint, w: Ws, e: WsEvent)
    requires OutputSent(w)
    ensures OutputSent(WsNext(ep, w, e))
  {
    hide WsNext, FlowOf, BeforeWrites, Run, Flat, Subsequence, Sent, TcpOf;
    BeforeSent(ep, w, e);
    var s := BeforeWrites(ep, w, e);
    RunNothing(ep, s);
    FlowOfSent(ep, w, e, s);
    StepTrace(ep, w, e);
  }

  /**
   * Nothing else is sent: over all runs, the data of all segments that leave the client are bytes drained from the
   * library's output, in order; what is missing among them was refused by TCP, met a failed allocation, or was cut
   * off by the 16-bit length.
   */
  lemma {:induction false} SentIsOutput(ep: Endpoint, w: Ws, iss: U32, es: seq<WsEvent>)
    requires Fresh(w, iss)
    ensures var v := WsRun(ep, w, es); Subsequence(Sent(v.tcp.out), Flat(v.tls.lib.handed))
  {
    if es != [] {
      hide WsNext, Subsequence, Flat, Sent;
      SentIsOutput(ep, w, iss, es[..|es| - 1]);
      StepSent(ep, WsRun(ep, w, es[..|es| - 1]), es[|es| - 1]);
    }
  }

  /**
   * A drain is sent in full exactly if TCP is ESTABLISHED, has a buffer, and the drain fits the 16-bit length.
   */
  lemma DrainExact(ep: Endpoint, s: Sys, f: Flow, a: Alloc)
    requires f.lib.output != []
    ensures var s1, s2, bytes := SendAll(ep, s, f.writes), SendAll(ep, s, Flush(f, a).writes), Flat(f.lib.output);
            Sent(s2.out) == Sent(s1.out) + bytes <==> s1.tcb.state == Established && a.ok && |bytes| < TWO16
  {
    hide Next, Run, Sends, Sent, Flat;
    var s1, bytes := SendAll(ep, s, f.writes), Flat(f.lib.output);
    var x := Write(Cut16(bytes), a);
    FlatEmpty(f.lib.output);
    SendsMore(f.writes, x);
    RunOne(ep, s, Sends(f.writes), Event.Send(x.data, x.a));
    SendSent(ep, s1, x);
    assert bytes[..|bytes|] == bytes;
  }

  // ---------- A second session over the same connection ----------

  /** A TLS library whose handshake is complete and that has nothing to add; the request it encrypts is one byte. */
  const READY := Turn(k => Done, k => [], k => GRANTED, k => GRANTED, REFUSED, Frame(true, [2], GRANTED), [])

  const POLL := ProcessRx(Null, GRANTED, GRANTED, READY)

  lemma NullDrained(ep: Endpoint, s: Sys)
    requires s.tcb.rxBuffer == []
    ensures Drained(ep, s, Null, GRANTED, GRANTED) == (s, [])
  {
    hide Parse;
    assert s.got + [] == s.got;
  }

  lemma OpenAgain(ep: Endpoint, s: Sys, a: Alloc)
    requires s.tcb.state != Closed
    ensures Next(ep, s, Event.Open(a)) == s
  {
    assert s.out + [] == s.out;
  }

  /** What a call without a packet does in the TLS phase once the handshake is complete. */
  lemma PollTls(ep: Endpoint, v: Ws)
    requires InTls(v.state, v.tcp.tcb.state) && v.tls.helloSent && v.tcp.tcb.rxBuffer == []
    ensures var v', l := WsNext(ep, v, POLL), v.tls.lib;
            var f := Flush(Flow(l, []), GRANTED);
            && v'.state == HandshakeSent && v'.tls.helloSent && !InFeed([], READY)
            && v'.tls.lib == Lib(l.generated + [Piece(Upgrade, [2])], f.lib.handed, [Piece(Upgrade, [2])])
            && v'.tcp == SendAll(ep, v.tcp, f.writes + [Write([], GRANTED)])
  {
    hide Next, SendAll, Drained, Flat;
    NullDrained(ep, v.tcp);
    var l := v.tls.lib;
    assert l.generated + [] == l.generated && l.output + [] == l.output;
    assert Feeds(Flow(l, []), READY, 0) == Flow(l, []);
  }

  /** A connected client over an established connection, with the client hello out and nothing received meanwhile. */
  predicate Online(v: Ws) {
    v.state == Connected && v.tls.helloSent && v.tcp.tcb.state == Established && v.tcp.tcb.rxBuffer == []
  }

  lemma {:induction false} SendAllUp(ep: Endpoint, s: Sys, ws: seq<Write>)
    ensures var s' := SendAll(ep, s, ws); s'.tcb.state == s.tcb.state && s'.tcb.rxBuffer == s.tcb.rxBuffer
  {
    hide Next;
    if ws != [] {
      var front, x := ws[..|ws| - 1], ws[|ws| - 1];
      SendAllUp(ep, s, front);
      RunOne(ep, s, Sends(front), Event.Send(x.data, x.a));
      SendUp(ep, SendAll(ep, s, front), x);
    }
  }

  lemma SendUp(ep: Endpoint, s: Sys, x: Write)
    ensures var s' := Next(ep, s, Event.Send(x.data, x.a));
            s'.tcb.state == s.tcb.state && s'.tcb.rxBuffer == s.tcb.rxBuffer
    ensures s.tcb.state == Established && x.a.ok ==>
              Next(ep, s, Event.Send(x.data, x.a)).tcb.sndNxt == Wrap32(s.tcb.sndNxt + |x.data|)
  {
    hide Wrap32, HasBit;
    HasNoSyn();
  }

  lemma HasNoSyn()
    ensures !HasBit(PSH + ACK, SYN) && !HasBit(PSH + ACK, FIN)
  {
  }

  /** The writes of a drain and of an empty segment move snd_nxt on by the bytes of the drain, cut to 16 bits. */
  lemma DrainNumbers(ep: Endpoint, s: Sys, l: Lib)
    requires s.tcb.state == Established
    ensures SendAll(ep, s, Flush(Flow(l, []), GRANTED).writes + [Write([], GRANTED)]).tcb.sndNxt
         == Wrap32(s.tcb.sndNxt + |Flat(l.output)| % 0x1_0000)
  {
    hide Next, Run, Sends, Flat, Wrap32;
    var ws, x := Flush(Flow(l, []), GRANTED).writes, Write([], GRANTED);
    SendsMore(ws, x);
    RunOne(ep, s, Sends(ws), Event.Send([], GRANTED));
    SendAllUp(ep, s, ws);
    SendUp(ep, SendAll(ep, s, ws), x);
    FlatEmpty(l.output);
    RunNothing(ep, s);
    SameNext(SendAll(ep, s, ws).tcb);
    SameNext(s.tcb);
    if l.output != [] {
      var y := Write(Cut16(Flat(l.output)), GRANTED);
      assert ws == [] + [y];
      SendsMore([], y);
      RunOne(ep, s, [], Event.Send(y.data, GRANTED));
      SendUp(ep, s, y);
    }
  }

  function Again(close: Frame): seq<WsEvent> { [Disconnect(close), Connect(GRANTED), POLL] }

  lemma RunThree(ep: Endpoint, w: Ws, e0: WsEvent, e1: WsEvent, e2: WsEvent)
    ensures WsRun(ep, w, [e0, e1, e2]) == WsNext(ep, WsNext(ep, WsNext(ep, w, e0), e1), e2)
  {
    hide WsNext;
    var es := [e0, e1, e2];
    assert es[..2] == [e0, e1] && [e0, e1][..1] == [e0] && [e0][..0] == [];
    assert WsRun(ep, w, [e0]) == WsNext(ep, w, e0);
    assert WsRun(ep, w, [e0, e1]) == WsNext(ep, WsRun(ep, w, [e0]), e1);
  }

  /** Disconnecting leaves the close frame in the output and the connection up. */
  lemma CloseKeepsUp(ep: Endpoint, v: Ws, close: Frame)
    requires Online(v)
    ensures var v', l := WsNext(ep, v, Disconnect(close)), v.tls.lib;
            && v'.state == Disconnected && v'.tls.helloSent
            && v'.tls.lib.handed == l.handed && v'.tls.lib.output == l.output + Pieces(Close, close.record)
            && v'.tcp.tcb.state == Established && v'.tcp.tcb.rxBuffer == [] && v'.tcp.tcb.sndNxt == v.tcp.tcb.sndNxt
  {
    hide Run, SendAll, Pieces;
    var ws := Encrypt(Flow(v.tls.lib, []), Close, close).writes;
    SendAllUp(ep, v.tcp, ws);
    HollowSends(v.tls.lib, Close, close);
    assert SendAll(ep, v.tcp, ws) == Run(ep, v.tcp, Sends(ws)) by { SendAllIs(ep, v.tcp, ws); }
    QuietRun(ep, v.tcp, Sends(ws));
  }

  lemma SendAllIs(ep: Endpoint, s: Sys, ws: seq<Write>)
    ensures SendAll(ep, s, ws) == Run(ep, s, Sends(ws))
  {
    hide Run;
  }

  /**
   * A second session: from any connected state over an established connection, disconnecting, connecting and one call
   * without a packet hand everything left in the output to TCP, the close frame included, as data. No handshake
   * completes in a feed loop in it.
   */
  lemma SecondSession(ep: Endpoint, v: Ws, close: Frame)
    requires Online(v)
    ensures var v', l := WsRun(ep, v, Again(close)), v.tls.lib;
            && v'.state == HandshakeSent && !InFeed([], READY)
            && v'.tls.lib.handed == l.handed + l.output + Pieces(Close, close.record)
            && v'.tcp.tcb.sndNxt == Wrap32(v.tcp.tcb.sndNxt + (|Flat(l.output)| + |close.record|) % 0x1_0000)
  {
    hide WsNext, Flat, Wrap32, SendAll, Next, Pieces, Flush;
    var l := v.tls.lib;
    RunThree(ep, v, Disconnect(close), Connect(GRANTED), POLL);
    CloseKeepsUp(ep, v, close);
    var v1 := WsNext(ep, v, Disconnect(close));
    ConnectAgain(ep, v1);
    var v2 := WsNext(ep, v1, Connect(GRANTED));
    PollTls(ep, v2);
    DrainNumbers(ep, v2.tcp, v2.tls.lib);
    FlushHands(v2.tls.lib);
    FlatAppend(l.output, Pieces(Close, close.record));
    PiecesAre(Close, close.record);
    assert l.handed + (l.output + Pieces(Close, close.record)) == l.handed + l.output + Pieces(Close, close.record);
  }

  lemma FlushHands(l: Lib)
    ensures Flush(Flow(l, []), GRANTED).lib.handed == l.handed + l.output
  {
    hide Flat;
    assert l.handed + [] == l.handed;
  }

  lemma ConnectAgain(ep: Endpoint, v: Ws)
    requires v.state == Disconnected && v.tcp.tcb.state == Established
    ensures WsNext(ep, v, Connect(GRANTED)) == v.(state := ConnectingTcp)
  {
    hide Next;
    OpenAgain(ep, v.tcp, GRANTED);
  }

  function FirstSession(ep: Endpoint, iss: U32, irs: U32): seq<WsEvent> {
    [Connect(GRANTED), PacketEvent(ep, SynAck(iss, irs)), POLL, POLL] + [SendFrame(Frame(true, [3], GRANTED))]
  }

  /** After the first session: the upgrade request and the frame are still in the output. */
  lemma FirstSessionLeaves(ep: Endpoint, w: Ws, iss: U32, irs: U32)
    requires Fresh(w, iss) && !w.tls.helloSent
    ensures var v := WsRun(ep, w, FirstSession(ep, iss, irs));
            Online(v) && v.tls.lib.output == [Piece(Upgrade, [2]), Piece(Message, [3])]
  {
    hide WsNext, PacketEvent, WsRun, Ready, SendAll, Next, Flush;
    TalkStarts(ep, w, iss, irs);
    RunFour(ep, w, Connect(GRANTED), PacketEvent(ep, SynAck(iss, irs)), POLL, POLL);
    var v2 := WsNext(ep, WsNext(ep, w, Connect(GRANTED)), PacketEvent(ep, SynAck(iss, irs)));
    ReadyIs(v2.tcp, irs);
    PollTls(ep, v2);
    var v3 := WsNext(ep, v2, POLL);
    SendAllUp(ep, v2.tcp, Flush(Flow(v2.tls.lib, []), GRANTED).writes + [Write([], GRANTED)]);
    PollSent(ep, v3);
    var v4 := WsNext(ep, v3, POLL);
    var x := Frame(true, [3], GRANTED);
    WsRunOne(ep, w, [Connect(GRANTED), PacketEvent(ep, SynAck(iss, irs)), POLL, POLL], SendFrame(x));
    FrameStays(ep, v4, x);
  }

  lemma ReadyIs(s: Sys, irs: U32)
    requires Ready(s, irs)
    ensures s.tcb.state == Established && s.tcb.rxBuffer == []
  {
  }

  lemma WsRunOne(ep: Endpoint, w: Ws, es: seq<WsEvent>, e: WsEvent)
    ensures WsRun(ep, w, es + [e]) == WsNext(ep, WsRun(ep, w, es), e)
  {
    hide WsNext;
    assert (es + [e])[..|es|] == es;
  }

  /** WS_HANDSHAKE_SENT becomes WS_CONNECTED with the next call. */
  lemma PollSent(ep: Endpoint, v: Ws)
    requires v.state == HandshakeSent && v.tcp.tcb.rxBuffer == []
    ensures WsNext(ep, v, POLL) == v.(state := Connected)
  {
    hide Next, Drained;
    NullDrained(ep, v.tcp);
  }

  lemma FrameStays(ep: Endpoint, v: Ws, x: Frame)
    requires Online(v) && x.record != []
    ensures var v' := WsNext(ep, v, SendFrame(x));
            Online(v') && v'.tls.lib.output == v.tls.lib.output + [Piece(Message, x.record)]
  {
    hide SendAll;
    SendAllUp(ep, v.tcp, Encrypt(Flow(v.tls.lib, []), Message, x).writes);
  }

  /**
   * The two sessions in a row: the old upgrade request, the frame and the close frame are sent as three bytes of data,
   * although no handshake completed in a feed loop.
   */
  lemma {:induction false} LeftOverRun(ep: Endpoint, w: Ws, iss: U32, irs: U32)
    requires Fresh(w, iss) && !w.tls.helloSent
    ensures var v := WsRun(ep, w, FirstSession(ep, iss, irs));
            var v' := WsRun(ep, v, Again(Frame(true, [4], GRANTED)));
            && v.state == Connected && !InFeed([], READY)
            && v'.tls.lib.handed
               == v.tls.lib.handed + [Piece(Upgrade, [2]), Piece(Message, [3])] + [Piece(Close, [4])]
            && v'.tcp.tcb.sndNxt == Wrap32(v.tcp.tcb.sndNxt + 3)
  {
    hide WsRun, FirstSession, Again, Wrap32;
    FirstSessionLeaves(ep, w, iss, irs);
    SecondSession(ep, WsRun(ep, w, FirstSession(ep, iss, irs)), Frame(true, [4], GRANTED));
    var ps := [Piece(Upgrade, [2]), Piece(Message, [3])];
    assert ps[..1] == [Piece(Upgrade, [2])] && ps[..1][..0] == [];
    assert Flat(ps[..1]) == [2];
    assert Flat(ps) == [2] + [3];
  }
}
