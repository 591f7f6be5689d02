/** The layered client: TCP below, TLS handshake driven by received records, WebSocket on top. */
module WebSocketClient {
  import opened Words
  import opened Packet
  import opened MicroTcp
  import opened TcpRuns
  import opened TlsRecords
  import opened TlsOutput

  datatype WsState = Disconnected | ConnectingTcp | ConnectingTls | HandshakeSent | Connected

  /**
   * The TLS side: the function-level statics `helloSent` and `errors`, shared by all client objects; the upgrade
   * requests generated; the output of this object's library; and which of the bytes drained from TCP were written to
   * the library, in order.
   */
  datatype Tls = Tls(helloSent: bool, errors: nat, asked: nat, lib: Lib, fed: seq<nat>)

  /** The client's variables over its TCP machine. */
  datatype Ws = Ws(state: WsState, tcp: Sys, tls: Tls, pending: bool, attempts: nat)

  const MAX_RECONNECT_ATTEMPTS := 10

  /** The public calls, and a call of another client object, which leaves the statics as it likes. */
  datatype WsEvent =
    | Connect(a: Alloc)
    | ProcessRx(m: Mbuf, a: Alloc, b: Alloc, turn: Turn)
    | SendFrame(x: Frame)
    | Disconnect(close: Frame)
    | TryReconnect(due: bool, a: Alloc)
    | Elsewhere(helloSent: bool, errors: nat)

  // ---------- Writes ----------

  function Sends(ws: seq<Write>): seq<Event> {
    if ws == [] then [] else Sends(ws[..|ws| - 1]) + [Event.Send(ws[|ws| - 1].data, ws[|ws| - 1].a)]
  }

  function SendAll(ep: Endpoint, s: Sys, ws: seq<Write>): Sys {
    Run(ep, s, Sends(ws))
  }

  /** The packets those writes hand out; a failed allocation hands out nothing. */
  function PacketsOf(ep: Endpoint, s: Sys, ws: seq<Write>): seq<Mbuf> {
    if ws == [] then []
    else
      var front, last := ws[..|ws| - 1], ws[|ws| - 1];
      var p := Wire(ep, SendData(SendAll(ep, s, front).tcb, last.data, last.a).1, last.a);
      PacketsOf(ep, s, front) + if p == Null then [] else [p]
  }

  /** Some writes took the machine from one state to another and handed out these packets. */
  ghost predicate Made(ep: Endpoint, s: Sys, ws: seq<Write>, s': Sys, out: seq<Mbuf>) {
    s' == SendAll(ep, s, ws) && out == PacketsOf(ep, s, ws)
  }

  lemma MadeNothing(ep: Endpoint, s: Sys)
    ensures Made(ep, s, [], s, [])
  {
  }

  /** One more write. */
  lemma MadeMore(ep: Endpoint, s: Sys, ws: seq<Write>, s': Sys, out: seq<Mbuf>, x: Write)
    requires Made(ep, s, ws, s', out)
    ensures var p := Wire(ep, SendData(s'.tcb, x.data, x.a).1, x.a);
            Made(ep, s, ws + [x], Next(ep, s', Event.Send(x.data, x.a)), out + if p == Null then [] else [p])
  {
    hide Next, Wire, SendData;
    assert (ws + [x])[..|ws|] == ws;
    var e := Event.Send(x.data, x.a);
    assert (Sends(ws) + [e])[..|Sends(ws)|] == Sends(ws);
  }

  // ---------- Transitions ----------

  function WsConnect(ep: Endpoint, w: Ws, a: Alloc): Ws {
    if w.state != Disconnected then w else w.(state := ConnectingTcp, tcp := Next(ep, w.tcp, Event.Open(a)))
  }

  /** The state after a last call on which the client was in state st. */
  function StateAfter(st: WsState, errors: nat, data: seq<Byte>, last: Handshake): WsState {
    match last
    case Done => HandshakeSent
    case Want => st
    case Failed => if data != [] && errors + 1 >= 3 then Disconnected else st
  }

  /** The state after the WS_CONNECTING_TLS case. */
  function TlsState(t: Tls, data: seq<Byte>, turn: Turn): WsState {
    if !t.helloSent then ConnectingTls
    else
      var fed := if InFeed(data, turn) then HandshakeSent else ConnectingTls;
      StateAfter(fed, t.errors, data, LastCall(data, turn))
  }

  function ErrorsAfter(errors: nat, data: seq<Byte>, last: Handshake): nat {
    if last != Failed || data == [] then errors else if errors + 1 >= 3 then 0 else errors + 1
  }

  /** The numbers from a on, n of them. */
  function Range(a: nat, n: nat): (s: seq<nat>) { seq(n, i requires 0 <= i < n => a + i) }

  function Count(b: bool): nat { if b then 1 else 0 }

  /** The TLS variables after the WS_CONNECTING_TLS case on data that stands at a position of the bytes drained. */
  function TlsAfter(t: Tls, at: nat, data: seq<Byte>, turn: Turn): Tls {
    var f := TlsFlow(t.lib, t.helloSent, data, turn);
    if !t.helloSent then Tls(f.writes != [], t.errors, t.asked, f.lib, t.fed)
    else
      var last := LastCall(data, turn);
      Tls(true, ErrorsAfter(t.errors, data, last), t.asked + Count(InFeed(data, turn)) + Count(last == Done), f.lib,
          t.fed + Range(at, Outcome(data, turn.hs, 0, 0).end))
  }

  /** The WS_CONNECTING_TLS case. */
  function TlsStep(ep: Endpoint, w: Ws, at: nat, data: seq<Byte>, turn: Turn): Ws {
    Ws(TlsState(w.tls, data, turn), SendAll(ep, w.tcp, TlsFlow(w.tls.lib, w.tls.helloSent, data, turn).writes),
       TlsAfter(w.tls, at, data, turn), w.pending, w.attempts)
  }

  /** TCP's part of `process_rx`: the packet, then the buffer drained at once. */
  function Drained(ep: Endpoint, s: Sys, m: Mbuf, a: Alloc, b: Alloc): (Sys, seq<Byte>) {
    var s1 := Next(ep, s, Arrive(m, a, b));
    (Next(ep, s1, Extract), s1.tcb.rxBuffer)
  }

  /** The call goes through the WS_CONNECTING_TLS case. */
  predicate InTls(st: WsState, tcp: TcpState) {
    st == ConnectingTls || (st == ConnectingTcp && tcp == Established)
  }

  /** WS_CONNECTED: all the data goes to `decrypt`, if there is some. */
  function Decrypted(t: Tls, at: nat, data: seq<Byte>, turn: Turn): Tls {
    if data == [] then t
    else t.(lib := Push(Flow(t.lib, []), Protocol, turn.reply).lib, fed := t.fed + Range(at, |data|))
  }

  /** A message is encrypted and the empty vector sent. */
  function WsEncrypt(ep: Endpoint, w: Ws, kind: Kind, x: Frame): Ws {
    var f := Encrypt(Flow(w.tls.lib, []), kind, x);
    w.(tcp := SendAll(ep, w.tcp, f.writes), tls := w.tls.(lib := f.lib))
  }

  function WsReceive(ep: Endpoint, w: Ws, m: Mbuf, a: Alloc, b: Alloc, turn: Turn): Ws {
    var (tcp, data) := Drained(ep, w.tcp, m, a, b);
    if InTls(w.state, tcp.tcb.state) then TlsStep(ep, w.(tcp := tcp), |w.tcp.got|, data, turn)
    else if w.state == HandshakeSent then w.(tcp := tcp, state := Connected)
    else if w.state == Connected then w.(tcp := tcp, tls := Decrypted(w.tls, |w.tcp.got|, data, turn))
    else w.(tcp := tcp)
  }

  /** `try_reconnect` gets as far as connecting. */
  predicate Retries(w: Ws, due: bool) {
    w.pending && due && w.attempts <= MAX_RECONNECT_ATTEMPTS
  }

  function WsNext(ep: Endpoint, w: Ws, e: WsEvent): Ws {
    match e
    case Connect(a) => WsConnect(ep, w, a)
    case ProcessRx(m, a, b, turn) => WsReceive(ep, w, m, a, b, turn)
    case SendFrame(x) => if w.state != Connected then w else WsEncrypt(ep, w, Message, x)
    case Disconnect(close) =>
      if w.state == Disconnected then w else WsEncrypt(ep, w, Close, close).(state := Disconnected)
    case TryReconnect(due, a) =>
      if Retries(w, due) then WsConnect(ep, w.(pending := false, state := Disconnected), a)
      else w.(pending := w.pending && !due)
    case Elsewhere(helloSent, errors) =>
      w.(tls := w.tls.(helloSent := w.tls.helloSent || helloSent, errors := errors))
  }

  function WsRun(ep: Endpoint, w: Ws, es: seq<WsEvent>): Ws {
    if es == [] then w else WsNext(ep, WsRun(ep, w, es[..|es| - 1]), es[|es| - 1])
  }

  /**
   * A client object before its first call. The reconnect fields are arbitrary, and so are the statics, which other
   * objects may have set, and the count of requests.
   */
  predicate Fresh(w: Ws, iss: U32) {
    w.state == Disconnected && w.tcp == Init(iss) && w.tls.lib == Lib([], [], []) && w.tls.fed == []
  }

  // ---------- Upgrade requests ----------

  /** A completed handshake stays completed. */
  ghost predicate Sticky(hs: Oracle) {
    forall m: nat, n: nat :: m <= n && hs(m) == Done ==> hs(n) == Done
  }

  lemma {:induction false} FeedDone(data: seq<Byte>, hs: Oracle, off: nat, n: nat)
    requires off <= |data| && Outcome(data, hs, off, n).done
    ensures var k := Outcome(data, hs, off, n).records; k > 0 && DoneAfter(hs, k - 1)
    decreases |data| - off
  {
    hide RecordSize, PumpResult;
    if WholeRecordAt(data, off) && !DoneAfter(hs, n) {
      FeedDone(data, hs, off + RecordSize(data, off), n + 1);
    }
  }

  /** Once the feed loop has seen completion, the call after it sees it again. */
  lemma DoneAgain(data: seq<Byte>, turn: Turn)
    requires Sticky(turn.hs) && InFeed(data, turn)
    ensures LastCall(data, turn) == Done
  {
    hide Outcome;
    FeedDone(data, turn.hs, 0, 0);
    var k := Outcome(data, turn.hs, 0, 0).records;
    assert turn.hs(CallsAfter(turn.hs, k) - 1) == Done;
  }

  /**
   * Upgrade requests: the turn in which the handshake completes generates one request, and a second one exactly
   * if the completion was seen inside the feed loop, since the call after the loop reports it again.
   */
  lemma UpgradeCount(t: Tls, at: nat, data: seq<Byte>, turn: Turn)
    requires t.helloSent && Sticky(turn.hs)
    ensures var t' := TlsAfter(t, at, data, turn);
            && (TlsState(t, data, turn) == HandshakeSent <==> t'.asked > t.asked)
            && (t'.asked > t.asked ==> t'.asked - t.asked == if InFeed(data, turn) then 2 else 1)
  {
    hide InFeed, LastCall, Sticky, TlsFlow;
    if InFeed(data, turn) { DoneAgain(data, turn); }
  }

  /**
   * Where the requests go: an encrypted request waits in the library's output until the next drain. The one made after
   * the last call of the completing turn stays there; all earlier ones are handed to TCP in that turn. So with
   * successful encryption a request is handed to TCP in it exactly if the completion was seen inside the feed loop or
   * one had been left in the output before, and exactly one is left behind.
   */
  lemma UpgradeLeaves(t: Tls, at: nat, data: seq<Byte>, turn: Turn)
    requires t.helloSent && Sticky(turn.hs) && turn.first.record != [] && turn.second.record != []
    requires TlsState(t, data, turn) == HandshakeSent
    ensures var l, l' := t.lib, TlsAfter(t, at, data, turn).lib;
            && Upgrades(l'.output) == 1
            && (Upgrades(l'.handed) > Upgrades(l.handed) <==> InFeed(data, turn) || Upgrades(l.output) > 0)
            && TlsAfter(t, at, data, turn).asked - t.asked
               == Upgrades(l'.handed) - Upgrades(l.handed) + Upgrades(l'.output) - Upgrades(l.output)
  {
    hide InFeed, LastCall, Sticky, TlsFlow, Upgrades;
    if InFeed(data, turn) { DoneAgain(data, turn); }
    TlsRequests(t.lib, data, turn);
  }

  // ---------- What is written to the TLS library ----------

  /** The bytes at some positions. */
  function Picked(got: seq<Byte>, at: seq<nat>): (s: seq<Byte>)
    requires forall i :: 0 <= i < |at| ==> at[i] < |got|
    ensures |s| == |at|
  {
    seq(|at|, i requires 0 <= i < |at| => got[at[i]])
  }

  ghost predicate Within(at: seq<nat>, n: nat) {
    forall i :: 0 <= i < |at| ==> at[i] < n
  }

  lemma PickedMore(got: seq<Byte>, at: seq<nat>, from: nat, n: nat)
    requires Within(at, |got|) && from + n <= |got|
    ensures Within(at + Range(from, n), |got|)
    ensures Picked(got, at + Range(from, n)) == Picked(got, at) + got[from..from + n]
  {
  }

  lemma PickedLonger(got: seq<Byte>, more: seq<Byte>, at: seq<nat>)
    requires Within(at, |got|)
    ensures Within(at, |got + more|) && Picked(got + more, at) == Picked(got, at)
  {
  }

  lemma ArriveGot(ep: Endpoint, s: Sys, m: Mbuf, a: Alloc, b: Alloc)
    ensures Next(ep, s, Arrive(m, a, b)).got == s.got
  {
    hide Packet.Receive, Wrap32, HasBit, Create;
  }

  /** Draining appends the buffered bytes to those drained before. */
  lemma DrainedGot(ep: Endpoint, s: Sys, m: Mbuf, a: Alloc, b: Alloc)
    ensures var (s', data) := Drained(ep, s, m, a, b);
            s'.got == s.got + data && s'.tcb.rxBuffer == []
  {
    hide Next;
    ArriveGot(ep, s, m, a, b);
    ExtractIs(ep, Next(ep, s, Arrive(m, a, b)));
  }

  // ---------- The class ----------

  /** The SYN of a connection attempt, if it is made and its allocation succeeds. */
  function SynPackets(ep: Endpoint, t: Tcb, a: Alloc): seq<Mbuf> {
    var p := Wire(ep, MicroTcp.Connect(t, a).1, a);
    if p == Null then [] else [p]
  }

  class Client {
    const tcp: MicroTcp.Client
    var state: WsState
    var helloSent: bool
    var errors: nat
    var reconnectPending: bool
    var reconnectAttempts: nat
    /** Everything written to the input of the TLS library. */
    var tlsInput: seq<Byte>
    /** What is pending in its output. */
    var output: seq<Byte>
    ghost var fed: seq<nat>
    ghost var asked: nat
    ghost var lib: Lib
    ghost var history: Sys

    /** The TCP machine is the one of the history, and the pending bytes are those of the pieces left. */
    ghost predicate Linked()
      reads this`history, this`lib, this`output, tcp, tcp.cachedHeaders
    {
      tcp.Valid() && history.tcb == tcp.View() && output == Flat(lib.output)
    }

    /** Besides, what the TLS library was given is what stands at the positions noted. */
    ghost predicate Valid()
      reads this, tcp, tcp.cachedHeaders
    {
      Linked() && Within(fed, |history.got|) && tlsInput == Picked(history.got, fed)
    }

    /** The writes of a flow have been made since a moment of the history, and these packets handed out. */
    ghost predicate Flowing(from: Sys, f: Flow, out: seq<Mbuf>)
      reads this`history, this`lib, this`output, tcp, tcp.cachedHeaders
    {
      Linked() && lib == f.lib && Made(tcp.ep, from, f.writes, history, out) && history.got == from.got
    }

    ghost function View(): Ws
      reads this
    {
      Ws(state, history, Tls(helloSent, errors, asked, lib, fed), reconnectPending, reconnectAttempts)
    }

    /** The statics have the values that earlier objects left. */
    constructor (ep: Endpoint, random: U32, helloSent: bool, errors: nat)
      ensures Valid() && fresh(tcp) && fresh(tcp.cachedHeaders)
      ensures tcp.ep == ep && Fresh(View(), random) && this.helloSent == helloSent && this.errors == errors
    {
      tcp := new MicroTcp.Client(ep, random);
      state := Disconnected;
      this.helloSent, this.errors := helloSent, errors;
      reconnectPending, reconnectAttempts := false, 0;
      tlsInput, output, fed, asked, lib := [], [], [], 0, Lib([], [], []);
      history := Init(random);
    }

    method Connect(a: Alloc) returns (out: seq<Mbuf>)
      requires Valid()
      modifies this`state, this`history, tcp
      ensures Valid() && View() == WsConnect(tcp.ep, old(View()), a)
      ensures out == if old(state) == Disconnected then SynPackets(tcp.ep, old(tcp.View()), a) else []
    {
      out := [];
      if state == Disconnected {
        state := ConnectingTcp;
        var syn := tcp.Open(a);
        history := Next(tcp.ep, history, Event.Open(a));
        if syn != Null {
          out := [syn];
        }
      }
    }

    /** One `send_data` call whose packet, if there is one, is pushed on the list. */
    method SendOne(x: Write, sofar: seq<Mbuf>, ghost from: Sys, ghost f: Flow) returns (out: seq<Mbuf>)
      requires Flowing(from, f, sofar)
      modifies this`history, tcp
      ensures Flowing(from, Flow(f.lib, f.writes + [x]), out)
    {
      hide Create, Wire, Made, Flat;
      MadeMore(tcp.ep, from, f.writes, history, sofar, x);
      assert sofar + [] == sofar;
      out := sofar;
      var pkt := tcp.Send(x.data, x.a);
      history := Next(tcp.ep, history, Event.Send(x.data, x.a));
      if pkt != Null {
        out := out + [pkt];
      }
    }

    /** The library adds bytes to its output. */
    method Generate(kind: Kind, bytes: seq<Byte>, ghost from: Sys, ghost f: Flow, ghost out: seq<Mbuf>)
      requires Flowing(from, f, out)
      modifies this`output, this`lib
      ensures Flowing(from, Push(f, kind, bytes), out)
    {
      hide Made, Flat, Pieces;
      FlatAppend(lib.output, Pieces(kind, bytes));
      PiecesAre(kind, bytes);
      output := output + bytes;
      lib := Push(f, kind, bytes).lib;
    }

    /** A drain: everything pending is read at once and sent. */
    method Drain(a: Alloc, sofar: seq<Mbuf>, ghost from: Sys, ghost f: Flow) returns (out: seq<Mbuf>)
      requires Flowing(from, f, sofar)
      modifies this`history, this`output, this`lib, tcp
      ensures Flowing(from, Flush(f, a), out)
    {
      hide Made, Cut16;
      FlatEmpty(lib.output);
      out := sofar;
      if |output| > 0 {
        out := SendOne(Write(Cut16(output), a), out, from, f);
        output := [];
        lib := Flush(f, a).lib;
      }
    }

    /** `generate_websocket_handshake` and `generate_websocket_frame` from the encryption on. */
    method SendEncrypted(kind: Kind, x: Frame, sofar: seq<Mbuf>, ghost from: Sys, ghost f: Flow)
      returns (out: seq<Mbuf>)
      requires Flowing(from, f, sofar)
      modifies this`history, this`output, this`lib, tcp
      ensures Flowing(from, Encrypt(f, kind, x), out)
    {
      hide Flowing, Push;
      Generate(kind, x.record, from, f, sofar);
      out := sofar;
      if x.ok {
        out := SendOne(Write([], x.a), out, from, Push(f, kind, x.record));
      }
    }

    /** One `do_handshake` call and the drain after it. */
    method DoHandshake(turn: Turn, k: nat, sofar: seq<Mbuf>, ghost from: Sys, ghost f: Flow)
      returns (result: Handshake, out: seq<Mbuf>)
      requires Flowing(from, f, sofar)
      modifies this`history, this`output, this`lib, tcp
      ensures Flowing(from, Call(f, turn, k), out) && result == turn.hs(k)
    {
      hide Flowing, Push, Flush;
      result := turn.hs(k);
      Generate(Protocol, turn.made(k), from, f, sofar);
      out := Drain(turn.post(k), sofar, from, Push(f, Protocol, turn.made(k)));
    }

    /** Pumping the handshake: until a call does not want more, at most ten; the output is sent after each call. */
    method Pump(turn: Turn, k: nat, sofar: seq<Mbuf>, ghost from: Sys, ghost f: Flow)
      returns (result: Handshake, next: nat, out: seq<Mbuf>)
      requires Flowing(from, f, sofar)
      modifies this`history, this`output, this`lib, tcp
      ensures next == PumpEnd(turn.hs, k) && result == PumpResult(turn.hs, k)
      ensures Flowing(from, Calls(f, turn, k, next), out)
    {
      hide Flowing, Call;
      var count := 0;
      result, next, out := Want, k, sofar;
      while true
        invariant 0 <= count < MAX_PUMPS && next == k + count
        invariant Pumps(turn.hs, k, count) == Pumps(turn.hs, k, 0)
        invariant Flowing(from, Calls(f, turn, k, next), out)
        decreases MAX_PUMPS - count
      {
        result, out := DoHandshake(turn, next, out, from, Calls(f, turn, k, next));
        count, next := count + 1, next + 1;
        if result != Want || count >= MAX_PUMPS {
          break;
        }
      }
    }

    /** One record: pending output is sent, the record is written to the library, the handshake is pumped. */
    method FeedOne(record: seq<Byte>, turn: Turn, n: nat, k: nat, sofar: seq<Mbuf>, ghost from: Sys, ghost f: Flow)
      returns (result: Handshake, next: nat, out: seq<Mbuf>)
      requires Flowing(from, f, sofar) && k == CallsAfter(turn.hs, n)
      modifies this`history, this`output, this`lib, this`tlsInput, tcp
      ensures next == CallsAfter(turn.hs, n + 1) && (result == Done <==> DoneAfter(turn.hs, n))
      ensures tlsInput == old(tlsInput) + record
      ensures Flowing(from, Record(f, turn, n), out)
    {
      hide PumpEnd, PumpResult, Flowing, Calls, Flush;
      out := Drain(turn.pre(n), sofar, from, f);
      tlsInput := tlsInput + record;
      result, next, out := Pump(turn, k, out, from, Flush(f, turn.pre(n)));
    }

    /**
     * The feed loop. It ends; the bytes fed are consecutive whole records from offset 0; it stops at the first
     * record after which the handshake is complete, and otherwise only where no further whole record starts. Output
     * is sent before each record and after each call.
     */
    method FeedRecords(data: seq<Byte>, turn: Turn, sofar: seq<Mbuf>, ghost from: Sys, ghost f: Flow)
      returns (records: seq<seq<Byte>>, done: bool, calls: nat, out: seq<Mbuf>, ghost cuts: seq<nat>)
      requires Flowing(from, f, sofar)
      modifies this`history, this`output, this`lib, this`tlsInput, tcp
      ensures FeedResult(data, turn.hs, cuts, done)
      ensures |records| == |cuts| - 1 && calls == CallsAfter(turn.hs, |records|)
      ensures forall i :: 0 <= i < |records| ==> Between(data, cuts, i, records[i])
      ensures tlsInput == old(tlsInput) + data[..cuts[|cuts| - 1]]
      ensures Flowing(from, Feeds(f, turn, |records|), out)
    {
      hide Cuts, FromBE, PumpEnd, PumpResult, Record, Flowing;
      var offset := 0;
      CutsStart(data);
      records, done, calls, out, cuts := [], false, 0, sofar, [0];
      while offset < |data| && !done
        invariant Cuts(data, cuts) && |cuts| > 0 && offset <= |data| && offset == cuts[|cuts| - 1]
        invariant |records| == |cuts| - 1 && calls == CallsAfter(turn.hs, |records|)
        invariant forall i :: 0 <= i < |records| ==> Between(data, cuts, i, records[i])
        invariant forall i :: 0 <= i < |records| - 1 ==> !DoneAfter(turn.hs, i)
        invariant done <==> |records| > 0 && DoneAfter(turn.hs, |records| - 1)
        invariant tlsInput == old(tlsInput) + data[..offset]
        invariant Flowing(from, Feeds(f, turn, |records|), out)
        decreases |data| - offset, !done
      {
        if |data| - offset < 5 {
          break;
        }
        var kind := data[offset];
        var length := FromBE(data[offset + 3..offset + 5]);
        if kind < 20 || kind > 23 {
          break;
        }
        if offset + 5 + length > |data| {
          break;
        }
        var record := data[offset..offset + 5 + length];
        assert data[..offset + 5 + length] == data[..offset] + record;
        CutsExtend(data, cuts);
        var n := |records|;
        var result;
        result, calls, out := FeedOne(record, turn, n, calls, out, from, Feeds(f, turn, n));
        offset := offset + 5 + length;
        records, cuts := records + [record], cuts + [offset];
        done := result == Done;
      }
    }

    /** The TCP part: the packet is processed, and what it left in the receive buffer is taken out. */
    method ReceiveAndDrain(m: Mbuf, a: Alloc, b: Alloc) returns (out: seq<Mbuf>, data: seq<Byte>)
      requires Valid()
      modifies this`history, tcp
      ensures Valid() && (history, data) == Drained(tcp.ep, old(history), m, a, b)
      ensures history.got == old(history.got) + data && tcp.state == history.tcb.state
      ensures out == WireAll(tcp.ep, RxPacket(tcp.ep, old(tcp.View()), m, a, b).1)
    {
      hide RxPacket, Next, WireAll;
      out := tcp.ProcessRx(m, a, b);
      ArriveIsProcessRx(tcp.ep, history, m, a, b);
      DrainedGot(tcp.ep, history, m, a, b);
      ExtractIs(tcp.ep, Next(tcp.ep, history, Arrive(m, a, b)));
      data := tcp.ExtractRxData();
      PickedLonger(history.got, data, fed);
      history := Drained(tcp.ep, history, m, a, b).0;
    }

    method Process(m: Mbuf, a: Alloc, b: Alloc, turn: Turn) returns (out: seq<Mbuf>)
      requires Valid()
      modifies this, tcp
      ensures Valid() && View() == WsReceive(tcp.ep, old(View()), m, a, b, turn)
      ensures var (drained, data) := Drained(tcp.ep, old(history), m, a, b);
              out == WireAll(tcp.ep, RxPacket(tcp.ep, old(tcp.View()), m, a, b).1)
                     + if InTls(old(state), drained.tcb.state)
                       then PacketsOf(tcp.ep, drained, TlsFlow(old(lib), old(helloSent), data, turn).writes) else []
    {
      hide TlsState, TlsAfter, RxPacket, Drained, WireAll, PacketsOf, SendAll, Range, TlsFlow, Linked, Picked, Push;
      ghost var at := |history.got|;
      var data;
      out, data := ReceiveAndDrain(m, a, b);
      assert history.got[at..] == data;
      match state {
        case ConnectingTcp =>
          if tcp.state == Established {
            state := ConnectingTls;
            var sent := ProcessTls(data, turn, at);
            out := out + sent;
          }
        case ConnectingTls =>
          var sent := ProcessTls(data, turn, at);
          out := out + sent;
        case HandshakeSent =>
          state := Connected;
        case Connected =>
          if |data| > 0 {
            Decrypt(data, turn, at);
          }
        case _ =>
      }
    }

    /** `decrypt`: the data goes to the library, which may add something to its output. */
    method Decrypt(data: seq<Byte>, turn: Turn, ghost at: nat)
      requires Valid() && at + |data| == |history.got| && history.got[at..] == data
      modifies this`tlsInput, this`fed, this`output, this`lib
      ensures Valid() && fed == old(fed) + Range(at, |data|)
      ensures lib == Push(Flow(old(lib), []), Protocol, turn.reply).lib
    {
      hide Push, Range;
      MadeNothing(tcp.ep, history);
      Generate(Protocol, turn.reply, history, Flow(lib, []), []);
      PickedMore(history.got, fed, at, |data|);
      tlsInput := tlsInput + data;
      fed := fed + Range(at, |data|);
    }

    method ProcessTls(data: seq<Byte>, turn: Turn, ghost at: nat) returns (out: seq<Mbuf>)
      requires Valid() && at + |data| == |history.got| && history.got[at..] == data && state == ConnectingTls
      modifies this, tcp
      ensures Valid() && View() == TlsStep(tcp.ep, old(View()), at, data, turn)
      ensures out == PacketsOf(tcp.ep, old(history), TlsFlow(old(lib), old(helloSent), data, turn).writes)
    {
      hide Outcome, SendAll, PacketsOf, CallsAfter, Linked, Range, Picked, Within, FeedPart, LastPart, Call;
      ghost var f := Flow(lib, []);
      if !helloSent {
        MadeNothing(tcp.ep, history);
        out := SendHello(turn, f);
        return;
      }
      var calls;
      calls, out := FeedLoop(data, turn, at);
      out := LastHandshake(data, turn, calls, out, old(history), FeedPart(f, data, turn));
    }

    /** The client hello: the first call, and whatever is pending after it; without output it is tried again. */
    method SendHello(turn: Turn, ghost f: Flow) returns (out: seq<Mbuf>)
      requires Flowing(history, f, []) && f.writes == []
      modifies this`helloSent, this`history, this`output, this`lib, tcp
      ensures Flowing(old(history), Call(f, turn, 0), out) && helloSent == (Call(f, turn, 0).writes != [])
    {
      hide Flowing, Push, Flush;
      ghost var from, g := history, Push(f, Protocol, turn.made(0));
      Generate(Protocol, turn.made(0), from, f, []);
      Pending(from, g, []);
      FirstDrain(f, turn.made(0), turn.post(0));
      helloSent := |output| > 0;
      out := Drain(turn.post(0), [], from, g);
    }

    lemma Pending(from: Sys, f: Flow, out: seq<Mbuf>)
      requires Flowing(from, f, out)
      ensures output == [] <==> f.lib.output == []
    {
      FlatEmpty(f.lib.output);
    }

    /** The feed loop, and the upgrade request if the handshake completes in it. */
    method FeedLoop(data: seq<Byte>, turn: Turn, ghost at: nat) returns (calls: nat, out: seq<Mbuf>)
      requires Valid() && at + |data| == |history.got| && history.got[at..] == data
      modifies this`state, this`asked, this`fed, this`tlsInput, this`history, this`output, this`lib, tcp
      ensures Valid() && calls == LastIndex(data, turn)
      ensures var p := Outcome(data, turn.hs, 0, 0);
              && state == (if p.done then HandshakeSent else old(state))
              && asked == old(asked) + Count(p.done) && fed == old(fed) + Range(at, p.end)
      ensures Flowing(old(history), FeedPart(Flow(old(lib), []), data, turn), out)
    {
      hide Outcome, SendAll, PacketsOf, CallsAfter, FeedResult, Cuts, DoneAfter, Feeds, Linked, Range, Made, Encrypt;
      ghost var f := Flow(lib, []);
      var records, done;
      ghost var cuts;
      MadeNothing(tcp.ep, history);
      records, done, calls, out, cuts := FeedRecords(data, turn, [], history, f);
      FedAll(data, turn, cuts, done);
      ghost var end := cuts[|cuts| - 1];
      assert history.got[at..at + end] == data[..end];
      PickedMore(history.got, fed, at, end);
      fed := fed + Range(at, end);
      if done {
        state := HandshakeSent;
        asked := asked + 1;
        out := SendEncrypted(Upgrade, turn.first, out, old(history), Feeds(f, turn, |records|));
      }
    }

    /** The `do_handshake` call after the feed loop, and what follows it. */
    method LastHandshake(data: seq<Byte>, turn: Turn, k: nat, sofar: seq<Mbuf>, ghost from: Sys, ghost f: Flow)
      returns (out: seq<Mbuf>)
      requires Flowing(from, f, sofar)
      modifies this`state, this`errors, this`asked, this`history, this`output, this`lib, tcp
      ensures Flowing(from, LastPart(f, turn, k), out)
      ensures var last := turn.hs(k);
              && state == StateAfter(old(state), old(errors), data, last)
              && errors == ErrorsAfter(old(errors), data, last)
              && asked == old(asked) + Count(last == Done)
    {
      hide Flowing, Call, Encrypt;
      var last;
      last, out := DoHandshake(turn, k, sofar, from, f);
      if last == Done {
        state := HandshakeSent;
        asked := asked + 1;
        out := SendEncrypted(Upgrade, turn.second, out, from, Call(f, turn, k));
      } else if last == Failed && |data| > 0 {
        errors := errors + 1;
        if errors >= 3 {
          state := Disconnected;
          errors := 0;
        }
      }
    }

    /** `send_text_message`: the frame goes through encryption, but an empty range of its packets is handed out. */
    method SendTextMessage(frame: Frame) returns (out: seq<Mbuf>)
      requires Valid()
      modifies this`history, this`output, this`lib, tcp
      ensures Valid() && View() == WsNext(tcp.ep, old(View()), SendFrame(frame))
      ensures out == []
    {
      hide SendAll, PacketsOf, Encrypt, Linked;
      out := [];
      if state == Connected {
        MadeNothing(tcp.ep, history);
        var dropped := SendEncrypted(Message, frame, [], history, Flow(lib, []));
      }
    }

    method CloseConnection(close: Frame) returns (out: seq<Mbuf>)
      requires Valid()
      modifies this`history, this`output, this`lib, this`state, tcp
      ensures Valid() && View() == WsNext(tcp.ep, old(View()), Disconnect(close))
      ensures out == if old(state) == Disconnected then []
                     else PacketsOf(tcp.ep, old(history), Encrypt(Flow(old(lib), []), Close, close).writes)
    {
      hide SendAll, PacketsOf, Encrypt, Linked;
      out := [];
      if state == Disconnected {
        return;
      }
      MadeNothing(tcp.ep, history);
      out := SendEncrypted(Close, close, [], history, Flow(lib, []));
      state := Disconnected;
    }

    /** Another client object has run through its TLS phase. */
    method StaticsChanged(hello: bool, count: nat)
      requires Valid()
      modifies this`helloSent, this`errors
      ensures Valid() && View() == WsNext(tcp.ep, old(View()), Elsewhere(hello, count))
    {
      helloSent := helloSent || hello;
      errors := count;
    }

    method Reconnect(due: bool, a: Alloc) returns (out: seq<Mbuf>)
      requires Valid()
      modifies this, tcp
      ensures Valid() && View() == WsNext(tcp.ep, old(View()), TryReconnect(due, a))
      ensures out == if Retries(old(View()), due) then SynPackets(tcp.ep, old(tcp.View()), a) else []
    {
      hide SynPackets, Next;
      out := [];
      if !reconnectPending || !due {
        return;
      }
      reconnectPending := false;
      if reconnectAttempts > MAX_RECONNECT_ATTEMPTS {
        return;
      }
      state := Disconnected;
      out := Connect(a);
    }
  }

  lemma FedAll(data: seq<Byte>, turn: Turn, cuts: seq<nat>, done: bool)
    requires FeedResult(data, turn.hs, cuts, done)
    ensures Outcome(data, turn.hs, 0, 0) == Progress(|cuts| - 1, done, cuts[|cuts| - 1])
    ensures cuts[|cuts| - 1] <= |data|
  {
    hide CallsAfter;
    FeedAgrees(data, turn.hs, cuts, done, 0);
  }
}
