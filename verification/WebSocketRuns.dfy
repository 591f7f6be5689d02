/** Every run of the layered client: what TCP sees, what the TLS library is given, how the layers come up. */
module WebSocketRuns {
  import opened Words
  import opened Packet
  import opened MicroTcp
  import opened TcpRuns
  import opened TcpSafety
  import opened TlsRecords
  import opened TlsOutput
  import opened WebSocketClient

  // ---------- The client's runs are runs of the TCP machine ----------

  /** The bytes that arrive in the buffer with the packet of event e, if it is one. */
  function DataOf(ep: Endpoint, w: Ws, e: WsEvent): seq<Byte> {
    if e.ProcessRx? then Drained(ep, w.tcp, e.m, e.a, e.b).1 else []
  }

  predicate TlsPhase(ep: Endpoint, w: Ws, e: WsEvent) {
    e.ProcessRx? && InTls(w.state, Drained(ep, w.tcp, e.m, e.a, e.b).0.tcb.state)
  }

  /** What one call does to the output of the TLS library, and the writes it makes. */
  function FlowOf(ep: Endpoint, w: Ws, e: WsEvent): Flow {
    var f := Flow(w.tls.lib, []);
    match e
    case ProcessRx(m, a, b, turn) =>
      if TlsPhase(ep, w, e) then TlsFlow(w.tls.lib, w.tls.helloSent, DataOf(ep, w, e), turn)
      else if w.state == Connected && DataOf(ep, w, e) != [] then Push(f, Protocol, turn.reply)
      else f
    case SendFrame(x) => if w.state == Connected then Encrypt(f, Message, x) else f
    case Disconnect(close) => if w.state == Disconnected then f else Encrypt(f, Close, close)
    case _ => f
  }

  /** What one call does to the TCP machine. */
  function TcpOf(ep: Endpoint, w: Ws, e: WsEvent): seq<Event> {
    match e
    case Connect(a) => if w.state == Disconnected then [Event.Open(a)] else []
    case ProcessRx(m, a, b, turn) => [Arrive(m, a, b), Extract] + Sends(FlowOf(ep, w, e).writes)
    case TryReconnect(due, a) => if Retries(w, due) then [Event.Open(a)] else []
    case _ => Sends(FlowOf(ep, w, e).writes)
  }

  function Trace(ep: Endpoint, w: Ws, es: seq<WsEvent>): seq<Event> {
    if es == [] then []
    else Trace(ep, w, es[..|es| - 1]) + TcpOf(ep, WsRun(ep, w, es[..|es| - 1]), es[|es| - 1])
  }

  lemma StepTrace(ep: Endpoint, w: Ws, e: WsEvent)
    ensures WsNext(ep, w, e).tcp == Run(ep, w.tcp, TcpOf(ep, w, e))
    ensures WsNext(ep, w, e).tls.lib == FlowOf(ep, w, e).lib
  {
    hide Next, Run, Sends, TlsFlow, TlsState, Encrypt, Range;
    match e
    case Connect(a) => RunSingle(ep, w.tcp, Event.Open(a));
    case ProcessRx(m, a, b, turn) =>
      RunTwo(ep, w.tcp, [], Arrive(m, a, b), Extract);
      RunNothing(ep, w.tcp);
      assert [] + [Arrive(m, a, b), Extract] == [Arrive(m, a, b), Extract];
      RunAppend(ep, w.tcp, [Arrive(m, a, b), Extract], Sends(FlowOf(ep, w, e).writes));
      RunNothing(ep, Drained(ep, w.tcp, m, a, b).0);
    case TryReconnect(due, a) => RunSingle(ep, w.tcp, Event.Open(a));
    case _ => RunNothing(ep, w.tcp);
  }

  lemma RunNothing(ep: Endpoint, s: Sys)
    ensures Run(ep, s, []) == s && Sends([]) == []
  {
  }

  lemma RunSingle(ep: Endpoint, s: Sys, e: Event)
    ensures Run(ep, s, [e]) == Next(ep, s, e) && Run(ep, s, []) == s
  {
    hide Next;
    assert [e][..0] == [];
  }

  /** Every run of the client is a run of its TCP machine, so whatever holds in all of those holds here. */
  lemma {:induction false} RunTrace(ep: Endpoint, w: Ws, es: seq<WsEvent>)
    ensures WsRun(ep, w, es).tcp == Run(ep, w.tcp, Trace(ep, w, es))
  {
    hide Run, WsNext, TcpOf;
    if es == [] {
      RunNothing(ep, w.tcp);
    } else {
      var front, e := es[..|es| - 1], es[|es| - 1];
      RunTrace(ep, w, front);
      StepTrace(ep, WsRun(ep, w, front), e);
      RunAppend(ep, w.tcp, Trace(ep, w, front), TcpOf(ep, WsRun(ep, w, front), e));
    }
  }

  // ---------- Draining makes prefix safety unconditional ----------

  /** Nothing buffered between calls, nothing dropped so far. */
  predicate Emptied(s: Sys) { s.tcb.rxBuffer == [] && s.lost == 0 }

  lemma ArriveStores(ep: Endpoint, s: Sys, m: Mbuf, a: Alloc, b: Alloc)
    requires s.tcb.rxBuffer == []
    ensures Next(ep, s, Arrive(m, a, b)).lost == s.lost
  {
    hide Packet.Receive, Wrap32, HasBit, Create;
    if Packet.Receive(ep, m).Some? {
      assert !BufferFull(s.tcb, Packet.Receive(ep, m).value);
    }
  }

  lemma StillEmptied(ep: Endpoint, s: Sys, e: Event)
    requires Emptied(s) && !e.Arrive?
    ensures Emptied(Next(ep, s, e))
  {
    hide Wrap32, HasBit;
  }

  lemma {:induction false} SendAllEmptied(ep: Endpoint, s: Sys, ws: seq<Write>)
    requires Emptied(s)
    ensures Emptied(SendAll(ep, s, ws))
  {
    hide Next, Emptied;
    if ws != [] {
      var front, e := Sends(ws[..|ws| - 1]), Event.Send(ws[|ws| - 1].data, ws[|ws| - 1].a);
      SendAllEmptied(ep, s, ws[..|ws| - 1]);
      RunOne(ep, s, front, e);
      StillEmptied(ep, Run(ep, s, front), e);
    }
  }

  lemma DrainedEmptied(ep: Endpoint, s: Sys, m: Mbuf, a: Alloc, b: Alloc)
    requires Emptied(s)
    ensures Emptied(Drained(ep, s, m, a, b).0)
  {
    hide Next;
    ArriveStores(ep, s, m, a, b);
    ExtractIs(ep, Next(ep, s, Arrive(m, a, b)));
  }

  lemma WsStepEmptied(ep: Endpoint, w: Ws, e: WsEvent)
    requires Emptied(w.tcp)
    ensures Emptied(WsNext(ep, w, e).tcp)
  {
    hide Next, SendAll, TlsFlow, TlsState, TlsAfter, Encrypt, Emptied, Drained, Range;
    match e
    case Connect(a) => StillEmptied(ep, w.tcp, Event.Open(a));
    case ProcessRx(m, a, b, turn) =>
      DrainedEmptied(ep, w.tcp, m, a, b);
      SendAllEmptied(ep, Drained(ep, w.tcp, m, a, b).0, FlowOf(ep, w, e).writes);
    case SendFrame(x) => SendAllEmptied(ep, w.tcp, FlowOf(ep, w, e).writes);
    case Disconnect(close) => SendAllEmptied(ep, w.tcp, FlowOf(ep, w, e).writes);
    case TryReconnect(due, a) => StillEmptied(ep, w.tcp, Event.Open(a));
    case Elsewhere(_, _) =>
  }

  /**
   * The full-buffer branch is unreachable: in every run of the WebSocket client, with any packets at all, no packet
   * can find the buffer full when it arrives.
   */
  lemma {:induction false} NeverFull(ep: Endpoint, w: Ws, iss: U32, es: seq<WsEvent>, m: Mbuf)
    requires Fresh(w, iss)
    ensures var s := WsRun(ep, w, es).tcp;
            && s.tcb.rxBuffer == [] && s.lost == 0
            && (Packet.Receive(ep, m).Some? ==> !BufferFull(s.tcb, Packet.Receive(ep, m).value))
  {
    hide WsNext, Packet.Receive;
    if es != [] {
      NeverFull(ep, w, iss, es[..|es| - 1], m);
      WsStepEmptied(ep, WsRun(ep, w, es[..|es| - 1]), es[|es| - 1]);
    }
  }

  /** The packets of the client's run that reach the connection are segments of a peer that sends the stream. */
  ghost predicate WsPeerRun(ep: Endpoint, stream: seq<Byte>, irs: U32, es: seq<WsEvent>) {
    forall i :: 0 <= i < |es| && es[i].ProcessRx? ==> PeerEvent(ep, stream, irs, Arrive(es[i].m, es[i].a, es[i].b))
  }

  lemma {:induction false} SendsAreSends(ws: seq<Write>)
    ensures forall i :: 0 <= i < |Sends(ws)| ==> Sends(ws)[i].Send?
  {
    if ws != [] { SendsAreSends(ws[..|ws| - 1]); }
  }

  lemma StepIsPeer(ep: Endpoint, w: Ws, e: WsEvent, stream: seq<Byte>, irs: U32)
    requires e.ProcessRx? ==> PeerEvent(ep, stream, irs, Arrive(e.m, e.a, e.b))
    ensures PeerRun(ep, stream, irs, TcpOf(ep, w, e))
  {
    hide FlowOf, Sends, Receive, PeerSegment;
    SendsAreSends(FlowOf(ep, w, e).writes);
  }

  lemma {:induction false} TraceIsPeer(ep: Endpoint, w: Ws, es: seq<WsEvent>, stream: seq<Byte>, irs: U32)
    requires WsPeerRun(ep, stream, irs, es)
    ensures PeerRun(ep, stream, irs, Trace(ep, w, es))
  {
    hide WsRun, TcpOf, PeerEvent;
    if es != [] {
      TraceIsPeer(ep, w, es[..|es| - 1], stream, irs);
      StepIsPeer(ep, WsRun(ep, w, es[..|es| - 1]), es[|es| - 1], stream, irs);
    }
  }

  /**
   * In every run of the WebSocket client the bytes drained from TCP are a prefix of the peer's stream, and nothing is
   * left buffered: no assumption about the buffer is left.
   */
  lemma {:induction false} DrainedPrefix(ep: Endpoint, w: Ws, iss: U32, es: seq<WsEvent>, stream: seq<Byte>, irs: U32)
    requires Fresh(w, iss) && WsPeerRun(ep, stream, irs, es) && |stream| < TWO32
    ensures var s := WsRun(ep, w, es).tcp;
            s.lost == 0 && s.tcb.rxBuffer == [] && s.got <= stream
  {
    hide Run, WsRun, Trace, PeerRun, WsPeerRun, Subsequences.Subsequence, BufferFull;
    RunTrace(ep, w, es);
    TraceIsPeer(ep, w, es, stream, irs);
    ReceivePrefix(ep, iss, irs, stream, Trace(ep, w, es));
    NeverFull(ep, w, iss, es, Null);
    var s := WsRun(ep, w, es).tcp;
    assert s.got + s.tcb.rxBuffer == s.got;
  }

  /**
   * End to end with the client as receiver: packets written by a sending machine, put through a lossy, repeating and
   * reordering network, hand the client a prefix of what was sent, whatever the sizes.
   */
  lemma {:induction false} EndToEndDrained(ep: Endpoint, iss: U32, sends: seq<Event>, w: Ws, rss: U32, es: seq<WsEvent>)
    requires var s := Run(ep, Init(iss), sends);
             && Syns(s.out) == 1 && |Sent(s.out)| < TWO32
             && (forall i :: 0 <= i < |es| && es[i].ProcessRx? ==> FromSender(s, ep, es[i].m))
    requires Fresh(w, rss)
    ensures WsRun(ep.Swap(), w, es).tcp.got <= Sent(Run(ep, Init(iss), sends).out)
  {
    hide Run, WsRun, PeerSegment, Receive, Sent, Syns, FromSender;
    var s := Run(ep, Init(iss), sends);
    forall i | 0 <= i < |es| && es[i].ProcessRx?
      ensures PeerEvent(ep.Swap(), Sent(s.out), iss, Arrive(es[i].m, es[i].a, es[i].b))
    {
      ArrivalIsPeer(ep, iss, sends, es[i].m);
    }
    DrainedPrefix(ep.Swap(), w, rss, es, Sent(s.out), iss);
  }

  // ---------- What the TLS library is given ----------

  function StateAt(ep: Endpoint, w: Ws, es: seq<WsEvent>, n: nat): Ws
    requires n <= |es|
  {
    WsRun(ep, w, es[..n])
  }

  lemma StatesExtend(ep: Endpoint, w: Ws, es: seq<WsEvent>, n: nat)
    requires n < |es|
    ensures StateAt(ep, w, es, n) == StateAt(ep, w, es[..|es| - 1], n)
  {
    assert es[..|es| - 1][..n] == es[..n];
  }

  /**
   * How many of the drained bytes one call writes to the TLS library: all in WS_CONNECTED, the whole records up to
   * where the feed loop stops once the client hello is out, and none in any other state.
   */
  function FedBy(ep: Endpoint, w: Ws, e: WsEvent): (n: nat)
    ensures n <= |DataOf(ep, w, e)|
  {
    if TlsPhase(ep, w, e) then
      if w.tls.helloSent then Outcome(DataOf(ep, w, e), e.turn.hs, 0, 0).end else 0
    else if w.state == Connected then |DataOf(ep, w, e)|
    else 0
  }

  /** The call writes everything it drains. */
  predicate Whole(ep: Endpoint, w: Ws, es: seq<WsEvent>, i: nat)
    requires i < |es|
  {
    FedBy(ep, StateAt(ep, w, es, i), es[i]) == |DataOf(ep, StateAt(ep, w, es, i), es[i])|
  }

  predicate Writes(ep: Endpoint, w: Ws, es: seq<WsEvent>, i: nat)
    requires i < |es|
  {
    FedBy(ep, StateAt(ep, w, es, i), es[i]) > 0
  }

  /** When a call writes everything it drains, in terms of the records in the data. */
  lemma WholeMeans(ep: Endpoint, w: Ws, e: WsEvent)
    ensures FedBy(ep, w, e) == |DataOf(ep, w, e)|
            <==> DataOf(ep, w, e) == []
                 || if TlsPhase(ep, w, e) then w.tls.helloSent && CutExactly(DataOf(ep, w, e), e.turn.hs)
                    else w.state == Connected
  {
    hide TlsPhase, DataOf, CutExactly, Outcome;
    if TlsPhase(ep, w, e) {
      PhaseIsPacket(ep, w, e);
      EndExact(DataOf(ep, w, e), e.turn.hs);
    }
  }

  ghost predicate AllWhole(ep: Endpoint, w: Ws, es: seq<WsEvent>) {
    forall i :: 0 <= i < |es| ==> Whole(ep, w, es, i)
  }

  /** A call that drops bytes comes before one that writes some. */
  ghost predicate Skips(ep: Endpoint, w: Ws, es: seq<WsEvent>) {
    exists i, j :: 0 <= i < j < |es| && !Whole(ep, w, es, i) && Writes(ep, w, es, j)
  }

  lemma StepGot(ep: Endpoint, w: Ws, e: WsEvent)
    ensures WsNext(ep, w, e).tcp.got == w.tcp.got + DataOf(ep, w, e)
    ensures WsNext(ep, w, e).tls.fed == w.tls.fed + Range(|w.tcp.got|, FedBy(ep, w, e))
  {
    hide Next, SendAll, TlsFlow, TlsState, Outcome, LastCall, InFeed, Encrypt, Drained;
    assert Range(|w.tcp.got|, 0) == [];
    assert w.tcp.got + [] == w.tcp.got && w.tls.fed + [] == w.tls.fed;
    match e
    case Connect(a) => GotKept(ep, w.tcp, Event.Open(a));
    case ProcessRx(m, a, b, turn) =>
      DrainedGot(ep, w.tcp, m, a, b);
      SendAllGot(ep, Drained(ep, w.tcp, m, a, b).0, FlowOf(ep, w, e).writes);
    case SendFrame(x) => SendAllGot(ep, w.tcp, FlowOf(ep, w, e).writes);
    case Disconnect(close) => SendAllGot(ep, w.tcp, FlowOf(ep, w, e).writes);
    case TryReconnect(due, a) => GotKept(ep, w.tcp, Event.Open(a));
    case Elsewhere(_, _) =>
  }

  lemma GotKept(ep: Endpoint, s: Sys, e: Event)
    requires e.Send? || e.Open?
    ensures Next(ep, s, e).got == s.got
  {
    hide Wrap32, HasBit;
  }

  lemma {:induction false} SendAllGot(ep: Endpoint, s: Sys, ws: seq<Write>)
    ensures SendAll(ep, s, ws).got == s.got
  {
    hide Next;
    if ws != [] {
      var front, e := Sends(ws[..|ws| - 1]), Event.Send(ws[|ws| - 1].data, ws[|ws| - 1].a);
      SendAllGot(ep, s, ws[..|ws| - 1]);
      RunOne(ep, s, front, e);
      GotKept(ep, Run(ep, s, front), e);
    }
  }

  /** Appending a later stretch keeps a run of positions unbroken exactly if it is empty or starts where they end. */
  lemma RangeExtends(at: seq<nat>, n: nat, k: nat)
    requires |at| <= n
    ensures var at' := at + Range(n, k);
            at' == Range(0, |at'|) <==> at == Range(0, |at|) && (k == 0 || |at| == n)
  {
    var at' := at + Range(n, k);
    if at' == Range(0, |at'|) {
      assert at == at'[..|at|] == Range(0, |at'|)[..|at|] == Range(0, |at|);
      if k > 0 { assert at'[|at|] == n; }
    }
  }

  lemma WholeExtends(ep: Endpoint, w: Ws, es: seq<WsEvent>)
    requires es != []
    ensures var front, n := es[..|es| - 1], |es| - 1;
            && (AllWhole(ep, w, es) <==> AllWhole(ep, w, front) && Whole(ep, w, es, n))
            && (Skips(ep, w, es) <==> Skips(ep, w, front) || (!AllWhole(ep, w, front) && Writes(ep, w, es, n)))
  {
    hide FedBy, DataOf, WsRun, StateAt;
    var front, n := es[..|es| - 1], |es| - 1;
    forall i | 0 <= i < n
      ensures Whole(ep, w, es, i) == Whole(ep, w, front, i) && Writes(ep, w, es, i) == Writes(ep, w, front, i)
    {
      StatesExtend(ep, w, es, i);
    }
  }

  /**
   * What the TLS library is given, over any run with any packets: the positions written are all those drained exactly
   * if every call writes everything it drains; and they are the first positions drained, without a gap, exactly if
   * no call that drops bytes (a record cut off at the end of a packet, anything behind the record that completes the
   * handshake, the call that sends the client hello, WS_HANDSHAKE_SENT) comes before a call that writes some.
   */
  lemma {:induction false} FedExact(ep: Endpoint, w: Ws, iss: U32, es: seq<WsEvent>)
    requires Fresh(w, iss)
    ensures var v := WsRun(ep, w, es);
            var fed, n := v.tls.fed, |v.tcp.got|;
            && |fed| <= n && Within(fed, n)
            && (fed == Range(0, n) <==> AllWhole(ep, w, es))
            && (fed == Range(0, |fed|) <==> !Skips(ep, w, es))
  {
    hide WsNext, FedBy, DataOf, Range, Outcome;
    FedCounts(ep, w, iss, es);
    var v := WsRun(ep, w, es);
    RangeLength(0, |v.tcp.got|);
  }

  lemma RangeLength(a: nat, n: nat)
    ensures |Range(a, n)| == n
  {
  }

  lemma {:induction false} FedCounts(ep: Endpoint, w: Ws, iss: U32, es: seq<WsEvent>)
    requires Fresh(w, iss)
    ensures var v := WsRun(ep, w, es);
            var fed, n := v.tls.fed, |v.tcp.got|;
            && |fed| <= n && Within(fed, n)
            && (|fed| == n <==> AllWhole(ep, w, es))
            && (fed == Range(0, |fed|) <==> !Skips(ep, w, es))
            && (AllWhole(ep, w, es) ==> !Skips(ep, w, es))
  {
    hide WsNext, FedBy, DataOf;
    if es == [] {
    } else {
      hide Range, AllWhole, Skips, Within;
      var front, e, n := es[..|es| - 1], es[|es| - 1], |es| - 1;
      var v := WsRun(ep, w, front);
      FedCounts(ep, w, iss, front);
      WholeExtends(ep, w, es);
      StepGot(ep, v, e);
      var k := FedBy(ep, v, e);
      RangeLength(|v.tcp.got|, k);
      RangeExtends(v.tls.fed, |v.tcp.got|, k);
      assert StateAt(ep, w, es, n) == v;
      WithinExtends(v.tls.fed, |v.tcp.got|, k, |DataOf(ep, v, e)|);
    }
  }

  lemma WithinExtends(at: seq<nat>, n: nat, k: nat, m: nat)
    requires Within(at, n) && k <= m
    ensures Within(at + Range(n, k), n + m)
  {
  }

  /** Without a skip the bytes given to the TLS library are a prefix of the peer's stream. */
  lemma {:induction false} FedPrefix(ep: Endpoint, w: Ws, iss: U32, es: seq<WsEvent>, stream: seq<Byte>, irs: U32)
    requires Fresh(w, iss) && WsPeerRun(ep, stream, irs, es) && |stream| < TWO32 && !Skips(ep, w, es)
    ensures var v := WsRun(ep, w, es);
            Within(v.tls.fed, |v.tcp.got|) && Picked(v.tcp.got, v.tls.fed) <= stream
  {
    hide WsRun, WsPeerRun, Skips, AllWhole;
    FedExact(ep, w, iss, es);
    DrainedPrefix(ep, w, iss, es, stream, irs);
    var v := WsRun(ep, w, es);
    assert Picked(v.tcp.got, v.tls.fed) == v.tcp.got[..|v.tls.fed|];
  }

  // ---------- A run in which a record is cut off ----------

  /** A TLS library that always wants more and always has something to say. */
  const TALK := Turn(k => Want, k => [1], k => GRANTED, k => GRANTED, REFUSED, REFUSED, [])

  const REFUSED := Frame(false, [], GRANTED)

  function PacketEvent(ep: Endpoint, seg: Segment): WsEvent {
    ProcessRx(Arrival(ep, seg).m, GRANTED, GRANTED, TALK)
  }

  function Chunk(irs: U32, off: nat, bytes: seq<Byte>): Segment {
    Segment(ACK, Wrap32(irs + 1 + off), 0, bytes)
  }

  /** TCP is up, its buffer is empty, and it waits for the byte after those drained. */
  predicate Ready(s: Sys, irs: U32) {
    s.tcb.state == Established && s.irs == irs && Emptied(s) && s.tcb.rcvNxt == Wrap32(irs + 1 + |s.got|)
  }

  /** In the TLS phase with the client hello sent. */
  predicate Talking(v: Ws, irs: U32) {
    v.state == ConnectingTls && v.tls.helloSent && Ready(v.tcp, irs)
  }

  lemma {:induction false} SendAllReady(ep: Endpoint, s: Sys, irs: U32, ws: seq<Write>)
    requires Ready(s, irs)
    ensures Ready(SendAll(ep, s, ws), irs)
  {
    hide Next, Ready;
    if ws != [] {
      var front, e := Sends(ws[..|ws| - 1]), Event.Send(ws[|ws| - 1].data, ws[|ws| - 1].a);
      SendAllReady(ep, s, irs, ws[..|ws| - 1]);
      RunOne(ep, s, front, e);
      SendReady(ep, Run(ep, s, front), irs, e);
    }
  }

  lemma SendReady(ep: Endpoint, s: Sys, irs: U32, e: Event)
    requires Ready(s, irs) && e.Send?
    ensures Ready(Next(ep, s, e), irs)
  {
    hide Wrap32, HasBit;
  }

  /** The next bytes of the stream arrive in one packet and are drained. */
  lemma ChunkDrained(ep: Endpoint, s: Sys, irs: U32, bytes: seq<Byte>)
    requires Ready(s, irs) && 0 < |bytes| <= 65481
    ensures var e := Arrival(ep, Chunk(irs, |s.got|, bytes));
            var (s', data) := Drained(ep, s, e.m, GRANTED, GRANTED);
            data == bytes && s'.got == s.got + bytes && Ready(s', irs)
  {
    hide Next, Arrival, Wrap32, Deliver;
    var seg := Chunk(irs, |s.got|, bytes);
    ArrivalIs(ep, s, seg);
    ArrivalEvent(ep, seg);
    assert !BufferFull(s.tcb, seg);
    hide BufferFull;
    InOrder(s, seg, GRANTED, GRANTED);
    ExtractIs(ep, Deliver(s, seg, GRANTED, GRANTED));
    assert s.tcb.rxBuffer + bytes == bytes;
    WrapAdd(irs + 1 + |s.got|, |bytes|);
  }

  lemma ArrivalEvent(ep: Endpoint, seg: Segment)
    ensures Arrival(ep, seg) == Arrive(Arrival(ep, seg).m, GRANTED, GRANTED)
  {
  }

  lemma TalkOn(ep: Endpoint, v: Ws, irs: U32, bytes: seq<Byte>)
    requires Talking(v, irs) && 0 < |bytes| <= 65481
    ensures var v' := WsNext(ep, v, PacketEvent(ep, Chunk(irs, |v.tcp.got|, bytes)));
            && Talking(v', irs) && v'.tcp.got == v.tcp.got + bytes
            && v'.tls.fed == v.tls.fed + Range(|v.tcp.got|, Outcome(bytes, TALK.hs, 0, 0).end)
  {
    hide Drained, Arrival, Chunk, SendAll, TlsFlow, Outcome, Ready, Range;
    var e := PacketEvent(ep, Chunk(irs, |v.tcp.got|, bytes));
    ChunkDrained(ep, v.tcp, irs, bytes);
    StepGot(ep, v, e);
    SendAllReady(ep, Drained(ep, v.tcp, e.m, e.a, e.b).0, irs, FlowOf(ep, v, e).writes);
    NeverDone(bytes, 0, 0);
  }

  lemma {:induction false} NeverDone(data: seq<Byte>, off: nat, n: nat)
    requires off <= |data|
    ensures !Outcome(data, TALK.hs, off, n).done
    decreases |data| - off
  {
    hide RecordSize;
    if WholeRecordAt(data, off) {
      NeverDone(data, off + RecordSize(data, off), n + 1);
    }
  }

  lemma HandshakeReady(ep: Endpoint, iss: U32, irs: U32)
    ensures var s, e := Next(ep, Init(iss), Event.Open(GRANTED)), Arrival(ep, SynAck(iss, irs));
            Ready(Next(ep, s, e), irs) && Next(ep, s, e).got == []
  {
    hide Next, Wrap32, Arrival, Run;
    HandshakeDone(ep, iss, irs, []);
    RunTwo(ep, Init(iss), [], Event.Open(GRANTED), Arrival(ep, SynAck(iss, irs)));
    RunNothing(ep, Init(iss));
    assert [] + HandshakeEvents(ep, iss, irs) == HandshakeEvents(ep, iss, irs);
    RcvNxtIs(ep, iss, HandshakeEvents(ep, iss, irs));
  }

  lemma TalkStarts(ep: Endpoint, w: Ws, iss: U32, irs: U32)
    requires Fresh(w, iss) && !w.tls.helloSent
    ensures var v := WsNext(ep, WsNext(ep, w, Connect(GRANTED)), PacketEvent(ep, SynAck(iss, irs)));
            Talking(v, irs) && v.tcp.got == [] && v.tls.fed == [] && v.tls.lib.output == []
  {
    hide Next, Arrival, SendAll, Wrap32, TlsFlow, Run;
    HandshakeReady(ep, iss, irs);
    ArrivalEvent(ep, SynAck(iss, irs));
    HelloSays(w.tls.lib);
    var v1, e := WsNext(ep, w, Connect(GRANTED)), PacketEvent(ep, SynAck(iss, irs));
    var s := Next(ep, v1.tcp, Arrival(ep, SynAck(iss, irs)));
    ExtractIs(ep, s);
    assert s.got + [] == s.got;
    var drained := Drained(ep, v1.tcp, e.m, e.a, e.b).0;
    assert Ready(drained, irs) && drained.tcb.state == Established;
    hide Ready, Drained;
    var hello := TlsFlow(w.tls.lib, false, [], TALK);
    SendAllReady(ep, drained, irs, hello.writes);
    SendAllGot(ep, drained, hello.writes);
  }

  lemma HelloSays(l: Lib)
    ensures TlsFlow(l, false, [], TALK).writes != [] && TlsFlow(l, false, [], TALK).lib.output == []
  {
    assert Pieces(Protocol, [1]) != [];
  }

  /** The client connects, and two packets carry the peer's first bytes. */
  function TwoPackets(ep: Endpoint, iss: U32, irs: U32, first: seq<Byte>, second: seq<Byte>): seq<WsEvent> {
    [Connect(GRANTED), PacketEvent(ep, SynAck(iss, irs)), PacketEvent(ep, Chunk(irs, 0, first)),
     PacketEvent(ep, Chunk(irs, |first|, second))]
  }

  lemma RunFour(ep: Endpoint, w: Ws, e0: WsEvent, e1: WsEvent, e2: WsEvent, e3: WsEvent)
    ensures WsRun(ep, w, [e0, e1, e2, e3]) == WsNext(ep, WsNext(ep, WsNext(ep, WsNext(ep, w, e0), e1), e2), e3)
  {
    hide WsNext;
    var es := [e0, e1, e2, e3];
    assert es[..3] == [e0, e1, e2] && es[..3][..2] == [e0, e1] && [e0, e1][..1] == [e0] && [e0][..0] == [];
    assert WsRun(ep, w, [e0]) == WsNext(ep, w, e0);
    assert WsRun(ep, w, [e0, e1]) == WsNext(ep, WsRun(ep, w, [e0]), e1);
  }

  lemma TwoPacketsPeer(ep: Endpoint, iss: U32, irs: U32, first: seq<Byte>, second: seq<Byte>)
    requires 0 < |first| <= 65481 && 0 < |second| <= 65481
    ensures WsPeerRun(ep, first + second, irs, TwoPackets(ep, iss, irs, first, second))
  {
    hide Arrival, Receive, Wrap32;
    var stream := first + second;
    ArrivalIs(ep, Init(0), SynAck(iss, irs));
    ArrivalIs(ep, Init(0), Chunk(irs, 0, first));
    ArrivalIs(ep, Init(0), Chunk(irs, |first|, second));
    assert SliceAt(stream, irs, Chunk(irs, 0, first), 0);
    assert SliceAt(stream, irs, Chunk(irs, |first|, second), |first|);
    assert IsSyn(SynAck(iss, irs)) && !IsSyn(Chunk(irs, 0, first)) && !IsSyn(Chunk(irs, |first|, second));
  }

  /** Each packet is cut into records on its own: what the first leaves over is not joined to the second. */
  lemma CutAlone(ep: Endpoint, w: Ws, iss: U32, irs: U32, first: seq<Byte>, second: seq<Byte>)
    requires Fresh(w, iss) && !w.tls.helloSent && 0 < |first| <= 65481 && 0 < |second| <= 65481
    ensures var es := TwoPackets(ep, iss, irs, first, second);
            var v := WsRun(ep, w, es);
            && WsPeerRun(ep, first + second, irs, es)
            && v.tcp.got == first + second
            && v.tls.fed == Range(0, Outcome(first, TALK.hs, 0, 0).end)
                            + Range(|first|, Outcome(second, TALK.hs, 0, 0).end)
  {
    hide WsNext, PacketEvent, Chunk, Outcome, Talking, Range, WsPeerRun;
    TwoPacketsPeer(ep, iss, irs, first, second);
    TalkStarts(ep, w, iss, irs);
    RunFour(ep, w, Connect(GRANTED), PacketEvent(ep, SynAck(iss, irs)), PacketEvent(ep, Chunk(irs, 0, first)),
            PacketEvent(ep, Chunk(irs, |first|, second)));
    var v2 := WsNext(ep, WsNext(ep, w, Connect(GRANTED)), PacketEvent(ep, SynAck(iss, irs)));
    TalkOn(ep, v2, irs, first);
    assert [] + first == first;
    TalkOn(ep, WsNext(ep, v2, PacketEvent(ep, Chunk(irs, 0, first))), irs, second);
    assert v2.tls.fed + Range(0, Outcome(first, TALK.hs, 0, 0).end) == Range(0, Outcome(first, TALK.hs, 0, 0).end);
  }

  /**
   * A record of six bytes cut off after the fifth, and then what looks like a record of five: the TLS library is given
   * only the second packet, which is no prefix of the peer's stream.
   */
  lemma SplitRecordSkips(ep: Endpoint, w: Ws, iss: U32, irs: U32, first: seq<Byte>, second: seq<Byte>)
    requires Fresh(w, iss) && !w.tls.helloSent && first == [22, 3, 3, 0, 1] && second == [22, 3, 3, 0, 0]
    ensures var v := WsRun(ep, w, TwoPackets(ep, iss, irs, first, second));
            && v.tcp.got == first + second && v.tls.fed == [5, 6, 7, 8, 9]
            && Within(v.tls.fed, |v.tcp.got|) && Picked(v.tcp.got, v.tls.fed) == second
    ensures !(second <= first + second)
  {
    hide WsRun, TwoPackets, WsPeerRun;
    CutAlone(ep, w, iss, irs, first, second);
    ShortRecords();
    assert Range(0, 0) + Range(5, 5) == [5, 6, 7, 8, 9];
    assert second[4] != (first + second)[4];
  }

  lemma ShortRecords()
    ensures Outcome([22, 3, 3, 0, 1], TALK.hs, 0, 0).end == 0
    ensures Outcome([22, 3, 3, 0, 0], TALK.hs, 0, 0).end == 5
  {
    var first, second := [22, 3, 3, 0, 1], [22, 3, 3, 0, 0];
    assert first[3..5] == [0, 1] && second[3..5] == [0, 0];
    assert [0, 1][..1] == [0] && [0, 0][..1] == [0] && [0][..0] == [];
    assert FromBE([0]) == 0;
    assert FromBE([0, 1]) == 1 && FromBE([0, 0]) == 0;
    assert RecordSize(first, 0) == 6 && RecordSize(second, 0) == 5;
    hide RecordSize, DoneAfter;
    NeverDone(second, 0, 0);
    assert Outcome(second, TALK.hs, 5, 1).end == 5;
  }

  // ---------- The layers come up in order ----------

  /** Event i found TCP established while the client was waiting for it. */
  predicate TcpSeen(ep: Endpoint, w: Ws, es: seq<WsEvent>, i: nat)
    requires i < |es|
  {
    var v := StateAt(ep, w, es, i);
    es[i].ProcessRx? && v.state == ConnectingTcp && TlsPhase(ep, v, es[i])
  }

  /** In the WS_CONNECTING_TLS case of a call the TLS library reports completion, in or after the feed loop. */
  predicate Completes(ep: Endpoint, w: Ws, e: WsEvent) {
    && TlsPhase(ep, w, e) && w.tls.helloSent
    && (InFeed(DataOf(ep, w, e), e.turn) || LastCall(DataOf(ep, w, e), e.turn) == Done)
  }

  predicate TlsDone(ep: Endpoint, w: Ws, es: seq<WsEvent>, j: nat)
    requires j < |es|
  {
    Completes(ep, StateAt(ep, w, es, j), es[j])
  }

  /** Past TCP: the states that a reconnect or a disconnect leaves at once. */
  predicate Up(st: WsState) { st in {ConnectingTls, HandshakeSent, Connected} }

  ghost predicate UpSince(ep: Endpoint, w: Ws, es: seq<WsEvent>, i: nat) {
    forall n :: i < n <= |es| ==> Up(StateAt(ep, w, es, n).state)
  }

  ghost predicate TcpUp(ep: Endpoint, w: Ws, es: seq<WsEvent>, i: nat) {
    i < |es| && TcpSeen(ep, w, es, i) && UpSince(ep, w, es, i)
  }

  lemma UpExtends(ep: Endpoint, w: Ws, es: seq<WsEvent>, i: nat)
    requires es != [] && i < |es| - 1 && TcpUp(ep, w, es[..|es| - 1], i)
    requires Up(WsRun(ep, w, es).state)
    ensures TcpUp(ep, w, es, i)
  {
    hide WsRun, TlsPhase, Up;
    StatesExtend(ep, w, es, i);
    forall n | i < n <= |es| ensures Up(StateAt(ep, w, es, n).state) {
      if n < |es| {
        StatesExtend(ep, w, es, n);
      } else {
        assert es[..n] == es;
      }
    }
  }

  /** How one call can move the client up: each layer only from the one below it, and only on its report. */
  lemma StepUp(ep: Endpoint, w: Ws, e: WsEvent)
    ensures var w' := WsNext(ep, w, e);
            && (w'.state == Connected ==> w.state in {HandshakeSent, Connected})
            && (w'.state == HandshakeSent && w.state != HandshakeSent ==> Completes(ep, w, e))
            && (w'.state in {ConnectingTls, HandshakeSent} && w.state == ConnectingTcp ==> TlsPhase(ep, w, e))
            && (w'.state in {ConnectingTls, HandshakeSent} && w.state != ConnectingTcp ==>
                  w.state in {ConnectingTls, HandshakeSent})
  {
    hide Drained, InFeed, LastCall, SendAll, Next, TlsFlow, TlsAfter, Range, Encrypt;
  }

  /** Past TCP, some event saw TCP up and the client has been up since; past TLS, one from then on saw TLS done. */
  lemma {:induction false} LayersUp(ep: Endpoint, w: Ws, es: seq<WsEvent>) returns (i: nat, j: nat)
    requires w.state == Disconnected
    ensures Up(WsRun(ep, w, es).state) ==> TcpUp(ep, w, es, i)
    ensures WsRun(ep, w, es).state in {HandshakeSent, Connected} ==>
              i <= j < |es| && TlsDone(ep, w, es, j)
  {
    hide TlsPhase, Completes, WsNext;
    i, j := 0, 0;
    if es != [] {
      var front, e := es[..|es| - 1], es[|es| - 1];
      var v, v' := WsRun(ep, w, front), WsRun(ep, w, es);
      i, j := LayersUp(ep, w, front);
      StepUp(ep, v, e);
      if Up(v'.state) {
        if v.state == ConnectingTcp {
          i := |es| - 1;
          assert es[..|es|] == es;
          assert e.ProcessRx? by { PhaseIsPacket(ep, v, e); }
        } else {
          UpExtends(ep, w, es, i);
        }
        if v'.state != ConnectingTls {
          if v.state in {HandshakeSent, Connected} {
            StatesExtend(ep, w, es, j);
          } else {
            j := |es| - 1;
          }
        }
      }
    }
  }

  lemma PhaseIsPacket(ep: Endpoint, w: Ws, e: WsEvent)
    ensures TlsPhase(ep, w, e) ==> e.ProcessRx?
  {
  }

  /**
   * Layered handshake: whenever the client is WS_CONNECTED, TCP was observed ESTABLISHED and after that (at the
   * earliest in the same call) the TLS library reported completion, and every call since then left the client in the
   * TLS phase or above it, so neither lies before a disconnect or a reconnect.
   */
  lemma {:induction false} ConnectedIsLayered(ep: Endpoint, w: Ws, es: seq<WsEvent>) returns (i: nat, j: nat)
    requires w.state == Disconnected && WsRun(ep, w, es).state == Connected
    ensures i <= j < |es| && TcpSeen(ep, w, es, i) && TlsDone(ep, w, es, j)
    ensures forall n :: i < n <= |es| ==> StateAt(ep, w, es, n).state in {ConnectingTls, HandshakeSent, Connected}
  {
    hide TlsPhase, Completes, WsNext, WsRun;
    i, j := LayersUp(ep, w, es);
  }

  // ---------- What TCP's one-way states mean for the client ----------

  /** Whatever the client does, connects and reconnects included, at most one SYN leaves it. */
  lemma {:induction false} OneSyn(ep: Endpoint, w: Ws, iss: U32, es: seq<WsEvent>, j: nat, k: nat)
    requires Fresh(w, iss)
    requires var out := WsRun(ep, w, es).tcp.out; j < |out| && k < |out| && IsSyn(out[j].seg) && IsSyn(out[k].seg)
    ensures j == k == 0
  {
    hide Run, WsRun, Trace, IsSyn, Wrap32, Sent, Syns;
    RunTrace(ep, w, es);
    SendTiling(ep, iss, Trace(ep, w, es));
  }

  lemma {:induction false} RunForward(ep: Endpoint, s: Sys, es: seq<Event>)
    ensures Rank(s.tcb.state) <= Rank(Run(ep, s, es).tcb.state)
  {
    hide Next, Rank;
    if es != [] {
      RunForward(ep, s, es[..|es| - 1]);
      StepForward(ep, Run(ep, s, es[..|es| - 1]), es[|es| - 1]);
    }
  }

  /** One call takes TCP only forward, the part of `process_rx` before the state machine and the one after it. */
  lemma WsForward(ep: Endpoint, w: Ws, e: WsEvent)
    ensures Rank(w.tcp.tcb.state) <= Rank(WsNext(ep, w, e).tcp.tcb.state)
    ensures e.ProcessRx? ==>
              var s := Drained(ep, w.tcp, e.m, e.a, e.b).0;
              Rank(w.tcp.tcb.state) <= Rank(s.tcb.state) <= Rank(WsNext(ep, w, e).tcp.tcb.state)
  {
    hide Run, Rank, Next, TcpOf, TlsFlow, TlsState, TlsAfter, Range, Encrypt;
    StepTrace(ep, w, e);
    RunForward(ep, w.tcp, TcpOf(ep, w, e));
    if e.ProcessRx? {
      var s1 := Next(ep, w.tcp, Arrive(e.m, e.a, e.b));
      StepForward(ep, w.tcp, Arrive(e.m, e.a, e.b));
      StepForward(ep, s1, Extract);
      RunForward(ep, Next(ep, s1, Extract), Sends(FlowOf(ep, w, e).writes));
    }
  }

  /** TCP is past ESTABLISHED and the client is not above it. */
  predicate CutOff(w: Ws) {
    Rank(w.tcp.tcb.state) > Rank(Established) && w.state in {Disconnected, ConnectingTcp}
  }

  /**
   * No way back: once TCP is past ESTABLISHED (the peer has sent a FIN) and the client is disconnected, no call, no
   * reconnect and no packet ever gets it beyond waiting for TCP.
   */
  lemma {:induction false} NoWayBack(ep: Endpoint, w: Ws, es: seq<WsEvent>)
    requires CutOff(w)
    ensures CutOff(WsRun(ep, w, es))
  {
    if es != [] {
      hide WsNext, CutOff;
      NoWayBack(ep, w, es[..|es| - 1]);
      StillCutOff(ep, WsRun(ep, w, es[..|es| - 1]), es[|es| - 1]);
    }
  }

  lemma StillCutOff(ep: Endpoint, w: Ws, e: WsEvent)
    requires CutOff(w)
    ensures CutOff(WsNext(ep, w, e))
  {
    hide Drained, SendAll, Next, TlsFlow, TlsAfter, TlsState, Range, Encrypt;
    WsForward(ep, w, e);
  }

  /** Events that use no sequence number on a connection that has been opened. */
  lemma QuietStep(ep: Endpoint, s: Sys, e: Event)
    requires s.tcb.state != Closed && (e.Send? ==> e.data == [])
    ensures Next(ep, s, e).tcb.sndNxt == s.tcb.sndNxt && Next(ep, s, e).tcb.state != Closed
  {
    hide Packet.Receive, Wrap32, Deliver;
    SameNext(s.tcb);
    if e.Arrive? && Packet.Receive(ep, e.m).Some? {
      QuietDeliver(s, Packet.Receive(ep, e.m).value, e.a, e.b);
    }
  }

  lemma QuietDeliver(s: Sys, seg: Segment, a: Alloc, b: Alloc)
    requires s.tcb.state != Closed
    ensures var s' := Deliver(s, seg, a, b); s'.tcb.sndNxt == s.tcb.sndNxt && s'.tcb.state != Closed
  {
    hide HasBit, Acknowledge, BufferFull;
    forall t: Tcb, x: Alloc ensures Acknowledge(t, x).0 == t {
      AckIs(t, x);
    }
  }

  /** No event is a write of data. */
  predicate NoData(es: seq<Event>) {
    forall i :: 0 <= i < |es| ==> !(es[i].Send? && es[i].data != [])
  }

  lemma {:induction false} QuietRun(ep: Endpoint, s: Sys, es: seq<Event>)
    requires s.tcb.state != Closed && NoData(es)
    ensures Run(ep, s, es).tcb.sndNxt == s.tcb.sndNxt
    ensures Run(ep, s, es).tcb.state != Closed
  {
    hide Next;
    if es != [] {
      QuietRun(ep, s, es[..|es| - 1]);
      QuietStep(ep, Run(ep, s, es[..|es| - 1]), es[|es| - 1]);
    }
  }

  /** Past waiting for TCP, the connection has been opened. */
  lemma {:induction false} UpIsOpened(ep: Endpoint, w: Ws, iss: U32, es: seq<WsEvent>)
    requires Fresh(w, iss)
    ensures var v := WsRun(ep, w, es); Up(v.state) ==> v.tcp.tcb.state != Closed
  {
    if es != [] {
      hide WsNext, Drained;
      var v, e := WsRun(ep, w, es[..|es| - 1]), es[|es| - 1];
      UpIsOpened(ep, w, iss, es[..|es| - 1]);
      StepUp(ep, v, e);
      WsForward(ep, v, e);
    }
  }

  /**
   * A client in WS_HANDSHAKE_SENT or WS_CONNECTED uses no sequence number, whatever is called or arrives: frames, and
   * an upgrade request left in the library's output, reach TCP only in a later session's TLS phase.
   */
  lemma {:induction false} ConnectedIsSilent(ep: Endpoint, w: Ws, iss: U32, es: seq<WsEvent>, e: WsEvent)
    requires Fresh(w, iss) && WsRun(ep, w, es).state in {HandshakeSent, Connected}
    ensures WsNext(ep, WsRun(ep, w, es), e).tcp.tcb.sndNxt == WsRun(ep, w, es).tcp.tcb.sndNxt
  {
    hide WsRun, WsNext, Run, TcpOf, Drained;
    UpIsOpened(ep, w, iss, es);
    var v := WsRun(ep, w, es);
    StepTrace(ep, v, e);
    QuietEvents(ep, v, e);
    QuietRun(ep, v.tcp, TcpOf(ep, v, e));
  }

  lemma QuietEvents(ep: Endpoint, w: Ws, e: WsEvent)
    requires !TlsPhase(ep, w, e)
    ensures NoData(TcpOf(ep, w, e))
  {
    hide FlowOf, TlsPhase, Sends;
    QuietWrites(ep, w, e);
  }

  /** Outside the TLS phase only empty segments are written. */
  lemma QuietWrites(ep: Endpoint, w: Ws, e: WsEvent)
    requires !TlsPhase(ep, w, e)
    ensures NoData(Sends(FlowOf(ep, w, e).writes))
  {
    hide Encrypt, Push, TlsPhase, Drained;
    HollowSends(w.tls.lib, Message, REFUSED);
    match e
    case ProcessRx(m, a, b, turn) => PushIs(w.tls.lib, Protocol, turn.reply);
    case SendFrame(x) => HollowSends(w.tls.lib, Message, x);
    case Disconnect(close) => HollowSends(w.tls.lib, Close, close);
    case _ =>
  }

  lemma HollowSends(l: Lib, kind: Kind, x: Frame)
    ensures NoData(Sends(Encrypt(Flow(l, []), kind, x).writes)) && Sends([]) == []
  {
    hide Push;
    PushIs(l, kind, x.record);
    assert [Write([], x.a)][..0] == [];
    assert [] + [Write([], x.a)] == [Write([], x.a)];
  }

  lemma PushIs(l: Lib, kind: Kind, bytes: seq<Byte>)
    ensures Push(Flow(l, []), kind, bytes).writes == []
  {
  }
}
