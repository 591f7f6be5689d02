/** What one call does to the layered client's variables, and the TLS errors over whole runs. */
module WebSocketExact {
  import opened Words
  import opened Packet
  import opened MicroTcp
  import opened TcpRuns
  import opened TcpAnswers
  import opened TlsRecords
  import opened TlsOutput
  import opened WebSocketClient

  // ---------- The state after a call ----------

  /** What is taken from TCP in a `process_rx` call. */
  function Data(ep: Endpoint, w: Ws, m: Mbuf, a: Alloc, b: Alloc): seq<Byte> {
    Next(ep, w.tcp, Arrive(m, a, b)).tcb.rxBuffer
  }

  /** The call runs the TLS phase: it was reached before, or TCP is up with this packet at the latest. */
  predicate Phase(ep: Endpoint, w: Ws, e: WsEvent) {
    && e.ProcessRx?
    && (w.state == ConnectingTls
        || (w.state == ConnectingTcp && Next(ep, w.tcp, Arrive(e.m, e.a, e.b)).tcb.state == Established))
  }

  /** The result of the call after the feed loop, which comes after all calls that were made for records. */
  function Last(data: seq<Byte>, turn: Turn): Handshake {
    turn.hs(CallsAfter(turn.hs, Outcome(data, turn.hs, 0, 0).records))
  }

  /** The last `do_handshake` call fails although data has arrived. */
  predicate Fails(ep: Endpoint, w: Ws, e: WsEvent) {
    && Phase(ep, w, e) && w.tls.helloSent
    && var data := Data(ep, w, e.m, e.a, e.b);
    data != [] && Last(data, e.turn) == Failed
  }

  /** The handshake is reported complete, in the feed loop or by the last call. */
  predicate Completes(ep: Endpoint, w: Ws, e: WsEvent) {
    && Phase(ep, w, e) && w.tls.helloSent
    && var data := Data(ep, w, e.m, e.a, e.b);
    (Outcome(data, e.turn.hs, 0, 0).done || Last(data, e.turn) == Done)
  }

  lemma DrainedIs(ep: Endpoint, w: Ws, m: Mbuf, a: Alloc, b: Alloc)
    ensures var (tcp, data) := Drained(ep, w.tcp, m, a, b);
            && data == Data(ep, w, m, a, b)
            && tcp.tcb.state == Next(ep, w.tcp, Arrive(m, a, b)).tcb.state
  {
    hide Next;
    ExtractIs(ep, Next(ep, w.tcp, Arrive(m, a, b)));
  }

  /** The state after a call that runs the TLS phase: down with the third failure, up with completion. */
  lemma HandshakeState(ep: Endpoint, w: Ws, e: WsEvent)
    requires Phase(ep, w, e)
    ensures WsNext(ep, w, e).state ==
              if Fails(ep, w, e) && w.tls.errors >= 2 then Disconnected
              else if Completes(ep, w, e) then HandshakeSent
              else ConnectingTls
    ensures WsNext(ep, w, e).tls.errors ==
              if !Fails(ep, w, e) then w.tls.errors else if w.tls.errors >= 2 then 0 else w.tls.errors + 1
    ensures WsNext(ep, w, e).pending == w.pending && WsNext(ep, w, e).attempts == w.attempts
  {
    hide Next, Outcome, SendAll, TlsFlow, Range, CallsAfter;
    DrainedIs(ep, w, e.m, e.a, e.b);
  }

  /** The hello counts as sent exactly if the first call left something to send, and from then on for good. */
  lemma HelloExact(ep: Endpoint, w: Ws, e: WsEvent)
    requires !w.tls.helloSent && !e.Elsewhere?
    ensures WsNext(ep, w, e).tls.helloSent <==>
              Phase(ep, w, e) && (w.tls.lib.output != [] || e.turn.made(0) != [])
  {
    hide Next, Outcome, SendAll, Range, CallsAfter, Cut16, Flat;
    if e.ProcessRx? { DrainedIs(ep, w, e.m, e.a, e.b); }
  }

  /** The state after every other call, packet or not. */
  lemma OtherState(ep: Endpoint, w: Ws, e: WsEvent)
    requires !Phase(ep, w, e)
    ensures WsNext(ep, w, e).state ==
              match e
              case Connect(_) => if w.state == Disconnected then ConnectingTcp else w.state
              case ProcessRx(_, _, _, _) => if w.state == HandshakeSent then Connected else w.state
              case SendFrame(_) => w.state
              case Disconnect(_) => Disconnected
              case TryReconnect(due, _) => if w.pending && due && w.attempts <= 10 then ConnectingTcp else w.state
              case Elsewhere(_, _) => w.state
    ensures WsNext(ep, w, e).tls.errors == if e.Elsewhere? then e.errors else w.tls.errors
    ensures WsNext(ep, w, e).pending == (w.pending && !(e.TryReconnect? && e.due))
    ensures WsNext(ep, w, e).attempts == w.attempts
  {
    hide Next, SendAll, TlsStep, Decrypted, Encrypt, Push;
    if e.ProcessRx? { DrainedIs(ep, w, e.m, e.a, e.b); }
    if e.ProcessRx? && w.state == Connected { DecryptedErrors(w.tls, |w.tcp.got|, Data(ep, w, e.m, e.a, e.b), e.turn); }
  }

  lemma DecryptedErrors(t: Tls, at: nat, data: seq<Byte>, turn: Turn)
    ensures Decrypted(t, at, data, turn).errors == t.errors
  {
  }

  /**
   * `try_reconnect`: a due reconnect starts over with its attempt number at most 10, and is dropped above; one that is
   * not due stays pending. The number of attempts does not change.
   */
  lemma ReconnectExact(ep: Endpoint, w: Ws, due: bool, a: Alloc)
    ensures var w' := WsNext(ep, w, TryReconnect(due, a));
            && (!w.pending || !due ==> w' == w)
            && (w.pending && due && w.attempts > 10 ==> w' == w.(pending := false))
            && (w.pending && due && w.attempts <= 10 ==>
                  w' == w.(pending := false, state := ConnectingTcp, tcp := Next(ep, w.tcp, Event.Open(a))))
  {
    hide Next;
  }

  /** What a call does to TCP: it opens a connection, or delivers a packet, drains, and sends what TLS made. */
  lemma TcpExact(ep: Endpoint, w: Ws, e: WsEvent)
    ensures WsNext(ep, w, e).tcp ==
              match e
              case Connect(a) => if w.state == Disconnected then Next(ep, w.tcp, Event.Open(a)) else w.tcp
              case ProcessRx(m, a, b, turn) =>
                var tcp := Next(ep, Next(ep, w.tcp, Arrive(m, a, b)), Extract);
                if Phase(ep, w, e)
                then SendAll(ep, tcp, TlsFlow(w.tls.lib, w.tls.helloSent, Data(ep, w, m, a, b), turn).writes) else tcp
              case SendFrame(x) =>
                if w.state == Connected && x.ok then Next(ep, w.tcp, Event.Send([], x.a)) else w.tcp
              case Disconnect(x) =>
                if w.state != Disconnected && x.ok then Next(ep, w.tcp, Event.Send([], x.a)) else w.tcp
              case TryReconnect(due, a) =>
                if w.pending && due && w.attempts <= 10 then Next(ep, w.tcp, Event.Open(a)) else w.tcp
              case Elsewhere(_, _) => w.tcp
  {
    hide Next, TlsFlow, Decrypted, Outcome;
    if e.ProcessRx? { DrainedIs(ep, w, e.m, e.a, e.b); }
    if e.SendFrame? { EmptySend(ep, w.tcp, w.tls.lib, Message, e.x); }
    if e.Disconnect? { EmptySend(ep, w.tcp, w.tls.lib, Close, e.close); }
  }

  lemma EmptySend(ep: Endpoint, s: Sys, l: Lib, kind: Kind, x: Frame)
    ensures SendAll(ep, s, Encrypt(Flow(l, []), kind, x).writes) == if x.ok then Next(ep, s, Event.Send([], x.a)) else s
  {
    hide Next, Encrypt, SendAll, Wire, SendData, PacketsOf, Flat;
    EncryptWrites(Flow(l, []), kind, x);
    NoWrites(ep, s);
    SendsLast(ep, s, [], Write([], x.a));
  }

  /** Outside the TLS phase the output only grows: by a frame, by the close frame, or by what `decrypt` answers. */
  lemma OutputGrows(ep: Endpoint, w: Ws, e: WsEvent)
    requires !Phase(ep, w, e)
    ensures Flat(WsNext(ep, w, e).tls.lib.output) == Flat(w.tls.lib.output) +
              match e
              case SendFrame(x) => if w.state == Connected then x.record else []
              case Disconnect(x) => if w.state != Disconnected then x.record else []
              case ProcessRx(m, a, b, turn) =>
                if w.state == Connected && Data(ep, w, m, a, b) != [] then turn.reply else []
              case _ => []
  {
    hide Next, SendAll, TlsStep, Flat, Pieces, Range;
    assert Flat(w.tls.lib.output) + [] == Flat(w.tls.lib.output);
    match e
    case SendFrame(x) => EncryptWrites(Flow(w.tls.lib, []), Message, x);
    case Disconnect(x) => EncryptWrites(Flow(w.tls.lib, []), Close, x);
    case ProcessRx(m, a, b, turn) =>
      DrainedIs(ep, w, m, a, b);
      FlatAppend(w.tls.lib.output, Pieces(Protocol, turn.reply));
      PiecesAre(Protocol, turn.reply);
    case _ =>
  }

  // ---------- Errors over runs ----------

  function Failures(ep: Endpoint, w: Ws, es: seq<WsEvent>): nat {
    if es == [] then 0
    else
      var front := es[..|es| - 1];
      Failures(ep, w, front) + if Fails(ep, WsRun(ep, w, front), es[|es| - 1]) then 1 else 0
  }

  lemma StepErrors(ep: Endpoint, w: Ws, e: WsEvent)
    requires w.tls.errors < 3 && !e.Elsewhere?
    ensures WsNext(ep, w, e).tls.errors == (w.tls.errors + if Fails(ep, w, e) then 1 else 0) % 3
  {
    hide WsNext, Next, Fails, Phase;
    if Phase(ep, w, e) {
      HandshakeState(ep, w, e);
    } else {
      OtherState(ep, w, e);
      NoHandshake(ep, w, e);
    }
  }

  lemma NoHandshake(ep: Endpoint, w: Ws, e: WsEvent)
    requires !Phase(ep, w, e)
    ensures !Fails(ep, w, e)
  {
  }

  /**
   * The error count is the number of failed calls with data modulo 3, since whichever client object made them; it does
   * not go back when a call succeeds, when the client is closed, or when it connects again.
   */
  lemma {:induction false} ErrorsCount(ep: Endpoint, w: Ws, es: seq<WsEvent>)
    requires w.tls.errors < 3 && forall i :: 0 <= i < |es| ==> !es[i].Elsewhere?
    ensures WsRun(ep, w, es).tls.errors == (w.tls.errors + Failures(ep, w, es)) % 3
  {
    hide WsNext, Fails;
    if es != [] {
      var front := es[..|es| - 1];
      ErrorsCount(ep, w, front);
      StepErrors(ep, WsRun(ep, w, front), es[|es| - 1]);
    }
  }

  /**
   * A packet takes the client down exactly if it is the third failure, the sixth, and so on, of all failed calls with
   * data, consecutive or not; the counter of a first client object starts at 0.
   */
  lemma DownExact(ep: Endpoint, w: Ws, es: seq<WsEvent>, e: WsEvent)
    requires w.tls.errors == 0 && (forall i :: 0 <= i < |es| ==> !es[i].Elsewhere?) && e.ProcessRx?
    requires WsRun(ep, w, es).state != Disconnected
    ensures WsRun(ep, w, es + [e]).state == Disconnected
            <==> Fails(ep, WsRun(ep, w, es), e) && Failures(ep, w, es + [e]) % 3 == 0
  {
    hide *;
    ErrorsCount(ep, w, es);
    RunLast(ep, w, es, e);
    StepDown(ep, WsRun(ep, w, es), e);
    ThirdOne(Failures(ep, w, es));
  }

  lemma ThirdOne(n: nat)
    ensures n % 3 >= 2 <==> (n + 1) % 3 == 0
  {
  }

  lemma RunLast(ep: Endpoint, w: Ws, es: seq<WsEvent>, e: WsEvent)
    ensures WsRun(ep, w, es + [e]) == WsNext(ep, WsRun(ep, w, es), e)
    ensures Failures(ep, w, es + [e]) == Failures(ep, w, es) + if Fails(ep, WsRun(ep, w, es), e) then 1 else 0
  {
    hide WsNext, Fails;
    assert (es + [e])[..|es|] == es;
  }

  lemma StepDown(ep: Endpoint, w: Ws, e: WsEvent)
    requires e.ProcessRx? && w.state != Disconnected
    ensures WsNext(ep, w, e).state == Disconnected <==> Fails(ep, w, e) && w.tls.errors >= 2
  {
    hide WsNext, Fails, Next, Completes, Phase;
    if Phase(ep, w, e) {
      HandshakeState(ep, w, e);
    } else {
      OtherState(ep, w, e);
      NoHandshake(ep, w, e);
    }
  }

  // ---------- Packets handed out ----------

  /** A connection attempt hands out a packet exactly if TCP was closed and it got one; the peer reads it as the SYN. */
  lemma SynExact(ep: Endpoint, t: Tcb, a: Alloc)
    ensures if t.state == Closed && a.ok
            then |SynPackets(ep, t, a)| == 1
                 && Receive(ep.Swap(), SynPackets(ep, t, a)[0]) == Some(Segment(2, t.iss, 0, []))
            else SynPackets(ep, t, a) == []
  {
    hide Encode, Receive, Wrap32;
    PacketRoundTrip(ep, Segment(2, t.iss, 0, []), a.ck);
  }

  /** Packet i carries the data of write i. */
  predicate AllCarry(ep: Endpoint, ps: seq<Mbuf>, ws: seq<Write>) {
    |ps| == |ws| && forall i :: 0 <= i < |ws| ==> Carries(ep, ps[i], ws[i].data)
  }

  lemma CarryMore(ep: Endpoint, ps: seq<Mbuf>, ws: seq<Write>, p: Mbuf, x: Write)
    requires AllCarry(ep, ps, ws) && Carries(ep, p, x.data)
    ensures AllCarry(ep, ps + [p], ws + [x])
  {
    hide Carries;
  }

  predicate Sendable(ws: seq<Write>) {
    forall i :: 0 <= i < |ws| ==> ws[i].a.ok && |ws[i].data| <= 65481
  }

  /** Writes that get their packets are handed out one by one, and the peer reads the data of each. */
  lemma {:induction false} PacketsExact(ep: Endpoint, s: Sys, ws: seq<Write>)
    requires s.tcb.state == Established && Sendable(ws)
    ensures AllCarry(ep, PacketsOf(ep, s, ws), ws) && SendAll(ep, s, ws).tcb.state == Established
  {
    hide Carries, AllCarry, Wire, SendData, Next, PacketsOf, SendAll;
    if ws == [] {
      NoWrites(ep, s);
    } else {
      var front, x := ws[..|ws| - 1], ws[|ws| - 1];
      assert Sendable(front);
      PacketsExact(ep, s, front);
      var before := SendAll(ep, s, front);
      WriteCarries(ep, before, x);
      SendsLast(ep, s, front, x);
      SendIs(ep, before, x.data, x.a);
      CarryMore(ep, PacketsOf(ep, s, front), front, Wire(ep, SendData(before.tcb, x.data, x.a).1, x.a), x);
      assert front + [x] == ws;
    }
  }

  lemma NoWrites(ep: Endpoint, s: Sys)
    ensures SendAll(ep, s, []) == s && AllCarry(ep, PacketsOf(ep, s, []), [])
  {
  }

  predicate Carries(ep: Endpoint, m: Mbuf, data: seq<Byte>) {
    var seg := Receive(ep.Swap(), m);
    m != Null && seg.Some? && seg.value.payload == data && seg.value.flags == 24
  }

  lemma WriteCarries(ep: Endpoint, s: Sys, x: Write)
    requires s.tcb.state == Established && x.a.ok && |x.data| <= 65481
    ensures Carries(ep, Wire(ep, SendData(s.tcb, x.data, x.a).1, x.a), x.data)
    ensures Wire(ep, SendData(s.tcb, x.data, x.a).1, x.a) != Null
  {
    hide Encode, Receive, Wrap32;
    PacketRoundTrip(ep, Segment(24, s.tcb.sndNxt, s.tcb.rcvNxt, x.data), x.a.ck);
  }

  lemma SendsLast(ep: Endpoint, s: Sys, ws: seq<Write>, x: Write)
    ensures SendAll(ep, s, ws + [x]) == Next(ep, SendAll(ep, s, ws), Event.Send(x.data, x.a))
    ensures var p := Wire(ep, SendData(SendAll(ep, s, ws).tcb, x.data, x.a).1, x.a);
            p != Null ==> PacketsOf(ep, s, ws + [x]) == PacketsOf(ep, s, ws) + [p]
  {
    hide Next, Wire, SendData;
    var e := Event.Send(x.data, x.a);
    assert (ws + [x])[..|ws|] == ws;
    assert (WebSocketClient.Sends(ws) + [e])[..|WebSocketClient.Sends(ws)|] == WebSocketClient.Sends(ws);
  }

  /** Closing hands out one empty segment exactly if the frame was encrypted, TCP is up and there is a packet. */
  lemma CloseExact(ep: Endpoint, s: Sys, l: Lib, x: Frame)
    ensures var out := PacketsOf(ep, s, Encrypt(Flow(l, []), Close, x).writes);
            if x.ok && s.tcb.state == Established && x.a.ok then |out| == 1 && Carries(ep, out[0], []) else out == []
  {
    EncryptWrites(Flow(l, []), Close, x);
    hide Encrypt, Carries, Wire, Receive, Next;
    var ws := [Write([], x.a)];
    assert [] + ws == ws && ws[..0] == [];
    NoWrites(ep, s);
    assert PacketsOf(ep, s, []) == [];
    if s.tcb.state == Established && x.a.ok {
      WriteCarries(ep, s, ws[0]);
    } else {
      NotSent(ep, s, x.a);
    }
  }

  lemma NotSent(ep: Endpoint, s: Sys, a: Alloc)
    requires s.tcb.state != Established || !a.ok
    ensures Wire(ep, SendData(s.tcb, [], a).1, a) == Null
  {
  }
}
