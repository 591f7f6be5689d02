/**
 * An exchange connection (OKX and Bybit share this protocol): subscriptions are remembered, and posted again after
 * every successful handshake of the client below.
 */
module Session {
  import opened Backoff
  import opened Reconnect
  import opened Subsequences

  /** One registered subscription, and the messages that go out. */
  datatype Subscription = Subscription(instruments: seq<string>, channel: string)
  datatype Message = SubscribeTo(instrument: string, channel: string) | Other(text: string)

  /**
   * The connection over its client: `outbox` holds posted writes that the I/O thread has not run yet. Since the
   * latest successful handshake, `posted` is what was posted, `wire` what was written, and `stale` what was still in
   * the outbox at that moment.
   */
  datatype Session = Session(client: Client, subs: seq<Subscription>, callback: bool,
                             outbox: seq<Message>, posted: seq<Message>, wire: seq<Message>, stale: seq<Message>)

  const FRESH := Session(NEW, [], false, [], [], [], [])

  datatype Call =
    | ConnectTo(ok: bool)
    | Subscribe(sub: Subscription)
    | SendOther(text: string)
    | RunPost(ok: bool)
    | Handler(e: Event)

  function Messages(instruments: seq<string>, channel: string): seq<Message> {
    if instruments == [] then []
    else Messages(instruments[..|instruments| - 1], channel) + [SubscribeTo(instruments[|instruments| - 1], channel)]
  }

  /** All registered subscriptions as messages, in the order of registration. */
  function Flatten(subs: seq<Subscription>): seq<Message> {
    if subs == [] then []
    else Flatten(subs[..|subs| - 1]) + Messages(subs[|subs| - 1].instruments, subs[|subs| - 1].channel)
  }

  /** The subscribe messages among some messages. */
  function SubsOf(ms: seq<Message>): seq<Message> {
    if ms == [] then []
    else SubsOf(ms[..|ms| - 1]) + if ms[|ms| - 1].SubscribeTo? then [ms[|ms| - 1]] else []
  }

  // ---------- Messages ----------

  /** One message for each instrument, in order. */
  lemma {:induction false} MessagesExact(instruments: seq<string>, channel: string)
    ensures |Messages(instruments, channel)| == |instruments|
    ensures forall i :: 0 <= i < |instruments| ==>
              Messages(instruments, channel)[i] == SubscribeTo(instruments[i], channel)
  {
    if instruments != [] {
      MessagesExact(instruments[..|instruments| - 1], channel);
    }
  }

  /** The messages of some subscriptions are those of each, one after the other. */
  lemma {:induction false} FlattenExact(subs: seq<Subscription>, more: seq<Subscription>, sub: Subscription)
    ensures Flatten(subs + more) == Flatten(subs) + Flatten(more)
    ensures Flatten([sub]) == Messages(sub.instruments, sub.channel) && Flatten([]) == []
  {
    assert [sub][..0] == [];
    hide Messages;
    if more == [] {
      assert subs + more == subs;
    } else {
      var n := |more| - 1;
      FlattenExact(subs, more[..n], sub);
      assert (subs + more)[..|subs| + n] == subs + more[..n];
      var last := Messages(more[n].instruments, more[n].channel);
      assert Flatten(subs) + (Flatten(more[..n]) + last) == Flatten(subs) + Flatten(more[..n]) + last;
    }
  }

  /** Exactly the subscribe messages, each as often as before, in order. */
  lemma {:induction false} SubsOfExact(ms: seq<Message>, m: Message)
    ensures multiset(SubsOf(ms))[m] == if m.SubscribeTo? then multiset(ms)[m] else 0
    ensures Subsequence(SubsOf(ms), ms)
  {
    hide Subsequence;
    if ms == [] {
      SubsequenceNothing(ms);
    } else {
      var front, last := ms[..|ms| - 1], ms[|ms| - 1];
      assert ms == front + [last];
      SubsOfExact(front, m);
      if last.SubscribeTo? {
        SubsequenceBoth(SubsOf(front), front, [last]);
      } else {
        assert SubsOf(front) + [] == SubsOf(front);
        SubsequenceOneMore(SubsOf(front), front, last);
      }
    }
  }

  lemma SubsequenceNothing(ms: seq<Message>)
    ensures Subsequence([], ms)
  {
  }

  // ---------- Steps ----------

  /** `send` of some messages one after the other: posted while connected, otherwise dropped. */
  function Post(s: Session, ms: seq<Message>): Session {
    if s.client.connected then s.(outbox := s.outbox + ms, posted := s.posted + ms) else s
  }

  function Begin(s: Session): Session {
    s.(posted := [], wire := [], stale := s.outbox)
  }

  function Resubscribe(s: Session): Session {
    Post(s, Flatten(s.subs))
  }

  /** The I/O thread runs the oldest posted write. */
  function RunOne(cfg: Retry, s: Session, ok: bool): Session
    requires s.outbox != []
  {
    var s' := s.(outbox := s.outbox[1..]);
    if !s.client.connected then s'
    else if ok then s'.(wire := s.wire + [s.outbox[0]])
    else s'.(client := Step(cfg, s.client, SendError))
  }

  function Next(cfg: Retry, s: Session, call: Call): Session {
    match call
    case ConnectTo(ok) =>
      var s' := s.(client := Step(cfg, s.client, Connect(ok)), callback := true);
      if ok then Resubscribe(Begin(s')) else s'
    case Subscribe(sub) => Post(s.(subs := s.subs + [sub]), Messages(sub.instruments, sub.channel))
    case SendOther(text) => Post(s, [Other(text)])
    case RunPost(ok) => if s.outbox == [] || s.client.stopped then s else RunOne(cfg, s, ok)
    case Handler(e) =>
      if e.Connect? || e.SendError? then s
      else
        var s' := s.(client := Step(cfg, s.client, e));
        if IsSuccess(e) && Enabled(s.client, e) then if s.callback then Resubscribe(Begin(s')) else Begin(s') else s'
  }

  function RunAll(cfg: Retry, s: Session, calls: seq<Call>): Session {
    if calls == [] then s else Next(cfg, RunAll(cfg, s, calls[..|calls| - 1]), calls[|calls| - 1])
  }

  // ---------- One call ----------

  /** The call starts a session: `connect` succeeded, or the handler of a completed handshake. */
  predicate Begins(s: Session, call: Call) {
    call == ConnectTo(true) || (call == Handler(OnHandshake(true)) && Enabled(s.client, OnHandshake(true)))
  }

  /** A posted write can run. */
  predicate Runs(s: Session, call: Call) {
    call.RunPost? && s.outbox != [] && !s.client.stopped
  }

  /** What a call does to the outbox: resubscribe, post while connected, or run the oldest write, which is then gone. */
  lemma OutboxExact(cfg: Retry, s: Session, call: Call)
    ensures var connected := s.client.connected;
            Next(cfg, s, call).outbox ==
              if Begins(s, call) && (call.ConnectTo? || s.callback) then s.outbox + Flatten(s.subs)
              else if call.Subscribe? && connected then s.outbox + Messages(call.sub.instruments, call.sub.channel)
              else if call.SendOther? && connected then s.outbox + [Other(call.text)]
              else if Runs(s, call) then s.outbox[1..]
              else s.outbox
  {
    hide Schedule, Flatten, Messages, Armed;
  }

  /** What counts as posted in the session: a new one starts with the resubscription. */
  lemma PostedExact(cfg: Retry, s: Session, call: Call)
    ensures var connected := s.client.connected;
            Next(cfg, s, call).posted ==
              if Begins(s, call) then if call.ConnectTo? || s.callback then Flatten(s.subs) else []
              else if call.Subscribe? && connected then s.posted + Messages(call.sub.instruments, call.sub.channel)
              else if call.SendOther? && connected then s.posted + [Other(call.text)]
              else s.posted
  {
    hide Schedule, Flatten, Messages, Armed;
    assert [] + Flatten(s.subs) == Flatten(s.subs);
  }

  /** What a call writes to the wire of the session: the oldest message, if the client is connected and it goes well. */
  lemma WireExact(cfg: Retry, s: Session, call: Call)
    ensures Next(cfg, s, call).wire ==
              if Begins(s, call) then []
              else if Runs(s, call) && call.ok && s.client.connected then s.wire + [s.outbox[0]]
              else s.wire
    ensures Next(cfg, s, call).stale == if Begins(s, call) then s.outbox else s.stale
    ensures Next(cfg, s, call).callback == (s.callback || call.ConnectTo?)
  {
    hide Step, Flatten, Messages;
  }

  /** What a call does to the client below. */
  lemma ClientExact(cfg: Retry, s: Session, call: Call)
    ensures Next(cfg, s, call).client ==
              match call
              case ConnectTo(ok) => Step(cfg, s.client, Connect(ok))
              case Subscribe(_) => s.client
              case SendOther(_) => s.client
              case RunPost(ok) =>
                if Runs(s, call) && !ok && s.client.connected then Step(cfg, s.client, SendError) else s.client
              case Handler(e) => if e.Connect? || e.SendError? then s.client else Step(cfg, s.client, e)
  {
    hide Step, Flatten, Messages;
  }

  /** The subscriptions asked for in some calls. */
  function Asked(calls: seq<Call>): seq<Subscription> {
    if calls == [] then []
    else
      var last := calls[|calls| - 1];
      Asked(calls[..|calls| - 1]) + if last.Subscribe? then [last.sub] else []
  }

  lemma SubsStep(cfg: Retry, s: Session, call: Call)
    ensures Next(cfg, s, call).subs == s.subs + if call.Subscribe? then [call.sub] else []
  {
    hide Step, Flatten, Messages;
  }

  /** No subscription is forgotten, whatever happens to the connection: the registered ones are all ever asked for. */
  lemma {:induction false} SubsAreAsked(cfg: Retry, calls: seq<Call>)
    ensures RunAll(cfg, FRESH, calls).subs == Asked(calls)
  {
    hide Next;
    if calls != [] {
      SubsAreAsked(cfg, calls[..|calls| - 1]);
      SubsStep(cfg, RunAll(cfg, FRESH, calls[..|calls| - 1]), calls[|calls| - 1]);
    }
  }

  // ---------- The invariant ----------

  ghost predicate InSession(s: Session) {
    s.client.connected ==> SubsOf(s.posted) == Flatten(s.subs) && s.wire + s.outbox == s.stale + s.posted
  }

  ghost predicate SessionInv(cfg: Retry, s: Session) {
    InSession(s) && Reconnect.Inv(cfg, s.client) && (s.client.started ==> s.callback)
  }

  lemma {:induction false} SubsOfAppend(a: seq<Message>, b: seq<Message>)
    ensures SubsOf(a + b) == SubsOf(a) + SubsOf(b)
  {
    if b == [] {
      assert a + b == a;
    } else {
      var n := |b| - 1;
      SubsOfAppend(a, b[..n]);
      assert (a + b)[..|a| + n] == a + b[..n];
    }
  }

  lemma {:induction false} SubsOfMessages(instruments: seq<string>, channel: string)
    ensures SubsOf(Messages(instruments, channel)) == Messages(instruments, channel)
  {
    if instruments != [] {
      var n := |instruments| - 1;
      SubsOfMessages(instruments[..n], channel);
      SubsOfAppend(Messages(instruments[..n], channel), [SubscribeTo(instruments[n], channel)]);
      assert SubsOf([SubscribeTo(instruments[n], channel)]) == [SubscribeTo(instruments[n], channel)];
    }
  }

  lemma {:induction false} SubsOfFlatten(subs: seq<Subscription>)
    ensures SubsOf(Flatten(subs)) == Flatten(subs)
  {
    if subs != [] {
      var n := |subs| - 1;
      SubsOfFlatten(subs[..n]);
      SubsOfMessages(subs[n].instruments, subs[n].channel);
      SubsOfAppend(Flatten(subs[..n]), Messages(subs[n].instruments, subs[n].channel));
    }
  }

  lemma ResubscribeOpens(s: Session)
    requires s.client.connected
    ensures InSession(Resubscribe(Begin(s)))
  {
    SubsOfFlatten(s.subs);
    hide SubsOf, Flatten;
    assert [] + Flatten(s.subs) == Flatten(s.subs);
  }

  lemma PostInSession(s: Session, ms: seq<Message>)
    requires InSession(s)
    ensures s.client.connected ==>
              var s' := Post(s, ms);
              SubsOf(s'.posted) == Flatten(s.subs) + SubsOf(ms) && s'.wire + s'.outbox == s'.stale + s'.posted
  {
    SubsOfAppend(s.posted, ms);
    hide SubsOf, Flatten;
    if s.client.connected {
      assert s.wire + (s.outbox + ms) == (s.wire + s.outbox) + ms;
      assert s.stale + (s.posted + ms) == (s.stale + s.posted) + ms;
    }
  }

  lemma SubscribeInSession(s: Session, sub: Subscription)
    requires InSession(s)
    ensures InSession(Post(s.(subs := s.subs + [sub]), Messages(sub.instruments, sub.channel)))
  {
    PostInSession(s, Messages(sub.instruments, sub.channel));
    SubsOfMessages(sub.instruments, sub.channel);
    assert (s.subs + [sub])[..|s.subs|] == s.subs;
    assert Flatten(s.subs + [sub]) == Flatten(s.subs) + Messages(sub.instruments, sub.channel);
    hide SubsOf, Flatten, Messages;
  }

  lemma OtherInSession(s: Session, text: string)
    requires InSession(s)
    ensures InSession(Post(s, [Other(text)]))
  {
    PostInSession(s, [Other(text)]);
    assert [Other(text)][..0] == [];
    assert SubsOf([Other(text)]) == [];
    hide SubsOf, Flatten;
  }

  /** The flags of the client below that matter here: who connects it, and that only a started client can. */
  lemma ClientFlags(cfg: Retry, c: Client, e: Event)
    requires Reconnect.Inv(cfg, c)
    ensures var c' := Step(cfg, c, e);
            && Reconnect.Inv(cfg, c')
            && (c'.connected && !c.connected ==> IsSuccess(e) && Enabled(c, e))
            && (IsSuccess(e) && Enabled(c, e) ==> c'.connected && (e.Connect? || c.started))
            && (!e.Connect? ==> c'.started == c.started)
            && (e.SendError? && c.connected && !c.stopped ==> !c'.connected)
  {
    StepKeeps(cfg, c, e);
    hide Armed, Won, Budget;
  }

  lemma NextInSession(cfg: Retry, s: Session, call: Call)
    requires SessionInv(cfg, s)
    ensures SessionInv(cfg, Next(cfg, s, call))
  {
    hide Step, Reconnect.Inv, Enabled, IsSuccess, SubsOf, Flatten, Messages, Resubscribe;
    match call
    case ConnectTo(ok) =>
      ClientFlags(cfg, s.client, Connect(ok));
      Success(s.client, ok);
      if ok { ResubscribeOpens(s.(client := Step(cfg, s.client, Connect(ok)), callback := true)); }
      ResubscribeKeeps(Begin(s.(client := Step(cfg, s.client, Connect(ok)), callback := true)));
    case Subscribe(sub) => SubscribeInSession(s, sub);
    case SendOther(text) => OtherInSession(s, text);
    case RunPost(ok) =>
      ClientFlags(cfg, s.client, SendError);
      if s.outbox != [] {
        assert s.wire + s.outbox == (s.wire + [s.outbox[0]]) + s.outbox[1..];
      }
    case Handler(e) =>
      ClientFlags(cfg, s.client, e);
      var s' := s.(client := Step(cfg, s.client, e));
      if s'.client.connected { ResubscribeOpens(s'); }
      ResubscribeKeeps(Begin(s'));
  }

  lemma ResubscribeKeeps(s: Session)
    ensures Resubscribe(s).client == s.client && Resubscribe(s).callback == s.callback
  {
  }

  lemma Success(c: Client, ok: bool)
    ensures IsSuccess(Connect(ok)) == ok && Enabled(c, Connect(ok))
  {
  }

  lemma {:induction false} RunInSession(cfg: Retry, calls: seq<Call>)
    ensures SessionInv(cfg, RunAll(cfg, FRESH, calls))
  {
    if calls == [] {
      Reconnect.NewKeeps(cfg);
      hide Reconnect.Inv;
    } else {
      hide Next, SessionInv;
      RunInSession(cfg, calls[..|calls| - 1]);
      NextInSession(cfg, RunAll(cfg, FRESH, calls[..|calls| - 1]), calls[|calls| - 1]);
    }
  }

  /**
   * In every reachable connected state the subscribe messages posted since the latest successful handshake are the
   * registered subscriptions, each once, in the order of registration, whatever happened before.
   */
  lemma {:induction false} SubscriptionSession(cfg: Retry, calls: seq<Call>)
    ensures var s := RunAll(cfg, FRESH, calls);
            && s.subs == Asked(calls)
            && (s.client.connected ==> SubsOf(s.posted) == Flatten(Asked(calls)))
  {
    hide RunAll, SubsOf, Flatten, Asked;
    RunInSession(cfg, calls);
    SubsAreAsked(cfg, calls);
  }

  /**
   * And nothing of that is lost or reordered on its way: what was written in this session and what is still to be
   * written is what was left over from before, followed by what was posted. Once the outbox is empty the server has
   * been told exactly the registered subscriptions if and only if no older subscribe message was left over.
   */
  lemma {:induction false} SessionWire(cfg: Retry, calls: seq<Call>)
    ensures var s := RunAll(cfg, FRESH, calls);
            s.client.connected ==>
              && s.wire + s.outbox == s.stale + s.posted
              && (s.outbox == [] ==> SubsOf(s.wire) == SubsOf(s.stale) + Flatten(s.subs))
              && (s.outbox == [] ==> (SubsOf(s.wire) == Flatten(s.subs) <==> SubsOf(s.stale) == []))
  {
    hide RunAll, SubsOf, Flatten;
    RunInSession(cfg, calls);
    var s := RunAll(cfg, FRESH, calls);
    SubsOfAppend(s.stale, s.posted);
    if s.outbox == [] { assert s.wire + [] == s.wire; }
    if SubsOf(s.stale) == [] { assert [] + Flatten(s.subs) == Flatten(s.subs); }
  }

  lemma RunNext(cfg: Retry, s: Session, calls: seq<Call>, call: Call)
    ensures RunAll(cfg, s, calls + [call]) == Next(cfg, RunAll(cfg, s, calls), call)
  {
    hide Next;
    assert (calls + [call])[..|calls|] == calls;
  }

  /** A concrete duplicate: connecting twice before the I/O thread has run the first posts. */
  lemma DuplicateOnWire(cfg: Retry)
    ensures var sub := SubscribeTo("BTC", "books");
            var calls := [Subscribe(Subscription(["BTC"], "books")), ConnectTo(true), ConnectTo(true),
                          RunPost(true), RunPost(true)];
            var s := RunAll(cfg, FRESH, calls);
            s.client.connected && Flatten(s.subs) == [sub] && s.outbox == [] && s.wire == [sub, sub]
  {
    hide Flatten, Messages, RunAll, Next;
    var sub := Subscription(["BTC"], "books");
    var m := SubscribeTo("BTC", "books");
    var s1 := FRESH.(subs := [sub]);
    assert RunAll(cfg, FRESH, [Subscribe(sub)]) == s1 by {
      RunNone(cfg);
      RunNext(cfg, FRESH, [], Subscribe(sub));
      FirstSubscription(cfg, sub);
      assert [] + [Subscribe(sub)] == [Subscribe(sub)];
    }
    OneSubscription(sub, m);
    RunNext(cfg, FRESH, [Subscribe(sub)], ConnectTo(true));
    assert [Subscribe(sub)] + [ConnectTo(true)] == [Subscribe(sub), ConnectTo(true)];
    ConnectEffect(cfg, s1);
    var s2 := Next(cfg, s1, ConnectTo(true));
    RunNext(cfg, FRESH, [Subscribe(sub), ConnectTo(true)], ConnectTo(true));
    assert [Subscribe(sub), ConnectTo(true)] + [ConnectTo(true)] == [Subscribe(sub), ConnectTo(true), ConnectTo(true)];
    ConnectEffect(cfg, s2);
    var s3 := Next(cfg, s2, ConnectTo(true));
    assert s3.outbox == [m, m];
    RunNext(cfg, FRESH, [Subscribe(sub), ConnectTo(true), ConnectTo(true)], RunPost(true));
    RunEffect(cfg, s3);
    var s4 := Next(cfg, s3, RunPost(true));
    assert s4.outbox == [m];
    RunNext(cfg, FRESH, [Subscribe(sub), ConnectTo(true), ConnectTo(true), RunPost(true)], RunPost(true));
    RunEffect(cfg, s4);
    assert [Subscribe(sub), ConnectTo(true), ConnectTo(true)] + [RunPost(true)]
        == [Subscribe(sub), ConnectTo(true), ConnectTo(true), RunPost(true)];
    assert [Subscribe(sub), ConnectTo(true), ConnectTo(true), RunPost(true)] + [RunPost(true)]
        == [Subscribe(sub), ConnectTo(true), ConnectTo(true), RunPost(true), RunPost(true)];
  }

  lemma FirstSubscription(cfg: Retry, sub: Subscription)
    ensures Next(cfg, FRESH, Subscribe(sub)) == FRESH.(subs := [sub])
  {
    hide Messages;
  }

  lemma ConnectEffect(cfg: Retry, s: Session)
    ensures var s' := Next(cfg, s, ConnectTo(true));
            && s'.client.connected && s'.client.stopped == s.client.stopped && s'.subs == s.subs
            && s'.outbox == s.outbox + Flatten(s.subs) && s'.wire == []
  {
    hide Flatten, Schedule;
  }

  lemma RunEffect(cfg: Retry, s: Session)
    requires s.client.connected && !s.client.stopped && s.outbox != []
    ensures Next(cfg, s, RunPost(true)) == s.(outbox := s.outbox[1..], wire := s.wire + [s.outbox[0]])
  {
  }

  lemma RunNone(cfg: Retry)
    ensures RunAll(cfg, FRESH, []) == FRESH
  {
  }

  lemma OneSubscription(sub: Subscription, m: Message)
    requires |sub.instruments| == 1 && m == SubscribeTo(sub.instruments[0], sub.channel)
    ensures Messages(sub.instruments, sub.channel) == [m] && Flatten([sub]) == [m]
  {
    assert sub.instruments[..0] == [] && [sub][..0] == [];
    assert Messages([], sub.channel) == [] && Flatten([]) == [];
  }

  // ---------- The class ----------

  class Connection {
    const ws: BoostClient
    var activeSubscriptions: seq<Subscription>
    var hasCallback: bool
    var outbox: seq<Message>
    ghost var posted: seq<Message>
    ghost var wire: seq<Message>
    ghost var stale: seq<Message>

    ghost function View(): Session
      reads this, ws
    {
      Session(ws.View(), activeSubscriptions, hasCallback, outbox, posted, wire, stale)
    }

    constructor (cfg: Retry)
      ensures ws.cfg == cfg && ws.Valid() && fresh(ws) && View() == FRESH
    {
      ws := new BoostClient(cfg);
      activeSubscriptions, hasCallback, outbox := [], false, [];
      posted, wire, stale := [], [], [];
    }

    method SendMessage(m: Message)
      modifies this`outbox, this`posted
      ensures View() == Post(old(View()), [m])
    {
      if !ws.connected {
        return;
      }
      outbox := outbox + [m];
      posted := posted + [m];
    }

    /** The inner loop of `subscribe` and `resubscribe`. */
    method SendAll(instruments: seq<string>, channel: string)
      modifies this`outbox, this`posted
      ensures View() == Post(old(View()), Messages(instruments, channel))
    {
      var i := 0;
      assert instruments[..0] == [];
      while i < |instruments|
        invariant 0 <= i <= |instruments|
        invariant View() == Post(old(View()), Messages(instruments[..i], channel))
      {
        assert instruments[..i + 1][..i] == instruments[..i];
        SendMessage(SubscribeTo(instruments[i], channel));
        i := i + 1;
      }
      assert instruments[..i] == instruments;
    }

    method ResubscribeAll()
      modifies this`outbox, this`posted
      ensures View() == Resubscribe(old(View()))
    {
      hide Messages;
      var i := 0;
      assert activeSubscriptions[..0] == [];
      while i < |activeSubscriptions|
        invariant 0 <= i <= |activeSubscriptions|
        invariant View() == Post(old(View()), Flatten(activeSubscriptions[..i]))
      {
        assert activeSubscriptions[..i + 1][..i] == activeSubscriptions[..i];
        SendAll(activeSubscriptions[i].instruments, activeSubscriptions[i].channel);
        i := i + 1;
      }
      assert activeSubscriptions[..i] == activeSubscriptions;
    }

    method SubscribeInstruments(sub: Subscription)
      modifies this
      ensures View() == Next(ws.cfg, old(View()), Subscribe(sub))
    {
      activeSubscriptions := activeSubscriptions + [sub];
      if !ws.connected {
        return;
      }
      SendAll(sub.instruments, sub.channel);
    }

    method ConnectExchange(ok: bool) returns (success: bool)
      requires ws.Valid()
      modifies this, ws
      ensures ws.Valid() && success == ok
      ensures View() == Next(ws.cfg, old(View()), Call.ConnectTo(ok))
    {
      hide Schedule, Flatten;
      hasCallback := true;
      success := ws.ConnectTo(ok);
      if success {
        posted, wire, stale := [], [], outbox;
        ResubscribeAll();
      }
    }

    /** `on_handshake` with the reconnect callback. */
    method HandshakeDone(ok: bool)
      requires ws.Valid() && ws.ops.upgrading > 0 && !ws.stopped
      modifies this, ws
      ensures ws.Valid()
      ensures View() == Next(ws.cfg, old(View()), Handler(OnHandshake(ok)))
    {
      hide Schedule, Flatten;
      ws.OnUpgraded(ok);
      if ok {
        posted, wire, stale := [], [], outbox;
        if hasCallback {
          ResubscribeAll();
        }
      }
    }

    /** A posted write runs on the I/O thread. */
    method RunPosted(ok: bool)
      requires ws.Valid() && outbox != [] && !ws.stopped
      modifies this, ws
      ensures ws.Valid() && View() == Next(ws.cfg, old(View()), RunPost(ok))
    {
      hide Schedule;
      var message := outbox[0];
      outbox := outbox[1..];
      if !ws.connected {
        return;
      }
      if ok {
        wire := wire + [message];
      } else {
        ws.ConnectionLost();
      }
    }
  }
}
