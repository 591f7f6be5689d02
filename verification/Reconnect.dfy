/** The asynchronous WebSocket client: every handler and public call as one atomic step on its variables. */
module Reconnect {
  import opened Backoff

  datatype ConnectionState = Disconnected | Connecting | Connected | WaitingRetry

  /** `retry_count_` and `reconnect_attempts`; successful connections, and the delays armed since the last one. */
  datatype Counter = Counter(retryCount: nat, attempts: nat, wins: nat, delays: seq<int>)

  /**
   * Where scheduled attempts are: waits still armed on the timer, waits expired with their handler queued, attempts
   * by the operation they wait for, and those that ended: waits cancelled, attempts failed, `reconnect_success`.
   */
  datatype Ops = Ops(pending: nat, expired: nat, resolving: nat, connecting: nat, securing: nat, upgrading: nat,
                     cancelled: nat, failed: nat, success: nat)

  /** The client: its flags, counters and operations, the number of outstanding reads, and two notes of its past. */
  datatype Client = Client(connected: bool, state: ConnectionState, stopped: bool, k: Counter, ops: Ops, readers: nat,
                           started: bool, timerErrors: nat)

  const NEW := Client(false, Disconnected, false, Counter(0, 0, 0, []), Ops(0, 0, 0, 0, 0, 0, 0, 0, 0), 0, false, 0)

  datatype Event =
    | Connect(ok: bool)
    | ReadError
    | SendError
    | TimerExpires
    | TimerHandler(sniOk: bool)
    | TimerError
    | OnResolve(ok: bool)
    | OnConnect(ok: bool)
    | OnSslHandshake(ok: bool)
    | OnHandshake(ok: bool)
    | Close

  // ---------- Handlers ----------

  function Armed(cfg: Retry, k: Counter): Counter {
    Counter(k.retryCount + 1, k.attempts + 1, k.wins, k.delays + [DelayMs(cfg, k.retryCount + 1)])
  }

  function Won(k: Counter): Counter {
    Counter(0, k.attempts, k.wins + 1, [])
  }

  /** `schedule_reconnect`: arming the timer cancels a wait that is still armed. */
  function Schedule(cfg: Retry, c: Client): Client {
    if c.k.retryCount >= cfg.maxAttempts then c.(state := Disconnected)
    else
      c.(state := WaitingRetry, k := Armed(cfg, c.k),
         ops := c.ops.(cancelled := c.ops.cancelled + c.ops.pending, pending := 1))
  }

  function CloseClient(c: Client): Client {
    c.(connected := false, stopped := true)
  }

  /** A read or a write on the connection failed. */
  function Lost(cfg: Retry, c: Client): Client {
    if cfg.enabled then Schedule(cfg, c.(connected := false)) else CloseClient(c)
  }

  /** Connected at last: the counter starts over and a read is started. */
  function Established(c: Client): Client {
    c.(connected := true, state := Connected, readers := c.readers + 1, k := Won(c.k))
  }

  function ConnectCall(cfg: Retry, c: Client, ok: bool): Client {
    var c' := c.(state := Connecting, connected := false, started := true);
    if ok then Established(c')
    else if cfg.enabled then Schedule(cfg, c')
    else c'.(state := Disconnected)
  }

  /** `attempt_reconnect_async` from the timer's handler. */
  function Attempt(cfg: Retry, c: Client, sniOk: bool): Client
    requires c.ops.expired > 0
  {
    var o := c.ops.(expired := c.ops.expired - 1);
    if sniOk then c.(state := Connecting, ops := o.(resolving := o.resolving + 1))
    else Schedule(cfg, c.(state := Connecting, ops := o.(failed := o.failed + 1)))
  }

  /** The operations of the chain whose handlers start another one. */
  datatype Stage = Resolve | ConnectTcp | Secure

  function At(o: Ops, stage: Stage): nat {
    match stage
    case Resolve => o.resolving
    case ConnectTcp => o.connecting
    case Secure => o.securing
  }

  function Leave(o: Ops, stage: Stage): Ops
    requires At(o, stage) > 0
  {
    match stage
    case Resolve => o.(resolving := o.resolving - 1)
    case ConnectTcp => o.(connecting := o.connecting - 1)
    case Secure => o.(securing := o.securing - 1)
  }

  /** Resolving is followed by connecting, that by the TLS handshake, and that by the WebSocket handshake. */
  function EnterNext(o: Ops, stage: Stage): Ops {
    match stage
    case Resolve => o.(connecting := o.connecting + 1)
    case ConnectTcp => o.(securing := o.securing + 1)
    case Secure => o.(upgrading := o.upgrading + 1)
  }

  /** A handler of the chain: on to the next operation, or the attempt has failed. */
  function Chained(cfg: Retry, c: Client, stage: Stage, ok: bool): Client
    requires At(c.ops, stage) > 0
  {
    var o := Leave(c.ops, stage);
    if ok then c.(ops := EnterNext(o, stage)) else Schedule(cfg, c.(ops := o.(failed := o.failed + 1)))
  }

  function Upgraded(cfg: Retry, c: Client, ok: bool): Client
    requires c.ops.upgrading > 0
  {
    var o := c.ops.(upgrading := c.ops.upgrading - 1);
    if ok then Established(c.(ops := o.(success := o.success + 1)))
    else Schedule(cfg, c.(ops := o.(failed := o.failed + 1)))
  }

  /** The operations that can complete now: none once the I/O context is stopped. */
  predicate Enabled(c: Client, e: Event) {
    match e
    case Connect(_) => true
    case Close => true
    case ReadError => !c.stopped && c.readers > 0
    case SendError => !c.stopped && c.connected
    case TimerExpires => c.ops.pending > 0
    case TimerHandler(_) => !c.stopped && c.ops.expired > 0
    case TimerError => !c.stopped && c.ops.pending > 0
    case OnResolve(_) => !c.stopped && c.ops.resolving > 0
    case OnConnect(_) => !c.stopped && c.ops.connecting > 0
    case OnSslHandshake(_) => !c.stopped && c.ops.securing > 0
    case OnHandshake(_) => !c.stopped && c.ops.upgrading > 0
  }

  function Step(cfg: Retry, c: Client, e: Event): Client {
    if !Enabled(c, e) then c
    else
      var o := c.ops;
      match e
      case Connect(ok) => ConnectCall(cfg, c, ok)
      case Close => CloseClient(c)
      case ReadError => Lost(cfg, c.(readers := c.readers - 1))
      case SendError => Lost(cfg, c)
      case TimerExpires => c.(ops := o.(pending := o.pending - 1, expired := o.expired + 1))
      case TimerHandler(sniOk) => Attempt(cfg, c, sniOk)
      case TimerError =>
        c.(ops := o.(pending := o.pending - 1, cancelled := o.cancelled + 1), timerErrors := c.timerErrors + 1)
      case OnResolve(ok) => Chained(cfg, c, Resolve, ok)
      case OnConnect(ok) => Chained(cfg, c, ConnectTcp, ok)
      case OnSslHandshake(ok) => Chained(cfg, c, Secure, ok)
      case OnHandshake(ok) => Upgraded(cfg, c, ok)
  }

  function Run(cfg: Retry, c: Client, es: seq<Event>): Client {
    if es == [] then c else Step(cfg, Run(cfg, c, es[..|es| - 1]), es[|es| - 1])
  }

  // ---------- What every run keeps ----------

  function InFlight(o: Ops): nat { o.resolving + o.connecting + o.securing + o.upgrading }

  /** Every attempt ever scheduled is in exactly one place. */
  predicate Ledger(attempts: nat, o: Ops) {
    attempts == o.pending + o.expired + o.cancelled + InFlight(o) + o.failed + o.success && o.pending <= 1
  }

  /** The most attempts between two successes. */
  function Limit(cfg: Retry): nat { if cfg.maxAttempts >= 0 then cfg.maxAttempts else 0 }

  /** The most attempts in a run with a number of successes, before the ones since the last. */
  function Allowance(cfg: Retry, wins: nat): nat { Limit(cfg) * wins }

  lemma AllowanceStep(cfg: Retry, wins: nat)
    ensures Allowance(cfg, wins + 1) == Allowance(cfg, wins) + Limit(cfg)
  {
  }

  ghost predicate Budget(cfg: Retry, k: Counter) {
    && k.retryCount == |k.delays| <= Limit(cfg)
    && (forall i :: 0 <= i < |k.delays| ==> k.delays[i] == DelayMs(cfg, i + 1))
    && k.attempts <= Allowance(cfg, k.wins) + k.retryCount
  }

  /** Something is going on, or the client has given up. */
  predicate Alive(cfg: Retry, c: Client) {
    || (c.connected && c.readers > 0)
    || c.ops.pending > 0 || c.ops.expired > 0 || InFlight(c.ops) > 0
    || c.k.retryCount >= cfg.maxAttempts
  }

  ghost predicate Going(cfg: Retry, c: Client) {
    && (c.connected ==> c.readers > 0)
    && (c.readers > 0 || c.k.attempts > 0 ==> c.started)
    && (cfg.enabled && c.started && !c.stopped && c.timerErrors == 0 ==> Alive(cfg, c))
  }

  ghost predicate Inv(cfg: Retry, c: Client) {
    Ledger(c.k.attempts, c.ops) && Budget(cfg, c.k) && Going(cfg, c)
  }

  /** A step leaves the counters alone, arms one attempt while there is room, or starts over after a success. */
  lemma StepCounter(cfg: Retry, c: Client, e: Event)
    ensures var k, k' := c.k, Step(cfg, c, e).k;
            || k' == k
            || (k.retryCount < cfg.maxAttempts && k' == Armed(cfg, k))
            || (IsSuccess(e) && k' == Won(k))
  {
    hide Armed, Won;
  }

  lemma StepBudget(cfg: Retry, c: Client, e: Event)
    requires Budget(cfg, c.k)
    ensures Budget(cfg, Step(cfg, c, e).k)
  {
    StepCounter(cfg, c, e);
    AllowanceStep(cfg, c.k.wins);
    hide DelayMs, Step, Allowance;
  }

  lemma ScheduleLedger(cfg: Retry, c: Client)
    requires Ledger(c.k.attempts, c.ops)
    ensures Ledger(Schedule(cfg, c).k.attempts, Schedule(cfg, c).ops)
  {
    hide DelayMs;
  }

  lemma ScheduleGoing(cfg: Retry, c: Client)
    requires (c.connected ==> c.readers > 0) && c.started
    ensures Going(cfg, Schedule(cfg, c))
  {
    hide DelayMs;
  }

  lemma StepLedger(cfg: Retry, c: Client, e: Event)
    requires Ledger(c.k.attempts, c.ops)
    ensures Ledger(Step(cfg, c, e).k.attempts, Step(cfg, c, e).ops)
  {
    hide Schedule;
    var o := c.ops;
    if Enabled(c, e) {
      match e
      case Connect(ok) => ScheduleLedger(cfg, c.(state := Connecting, connected := false, started := true));
      case ReadError => ScheduleLedger(cfg, c.(readers := c.readers - 1).(connected := false));
      case SendError => ScheduleLedger(cfg, c.(connected := false));
      case TimerHandler(sniOk) =>
        ScheduleLedger(cfg, c.(state := Connecting, ops := o.(expired := o.expired - 1, failed := o.failed + 1)));
      case OnResolve(ok) => ScheduleLedger(cfg, c.(ops := o.(resolving := o.resolving - 1, failed := o.failed + 1)));
      case OnConnect(ok) => ScheduleLedger(cfg, c.(ops := o.(connecting := o.connecting - 1, failed := o.failed + 1)));
      case OnSslHandshake(ok) => ScheduleLedger(cfg, c.(ops := o.(securing := o.securing - 1, failed := o.failed + 1)));
      case OnHandshake(ok) => ScheduleLedger(cfg, c.(ops := o.(upgrading := o.upgrading - 1, failed := o.failed + 1)));
      case _ =>
    }
  }

  lemma StepGoing(cfg: Retry, c: Client, e: Event)
    requires Going(cfg, c) && Ledger(c.k.attempts, c.ops)
    ensures Going(cfg, Step(cfg, c, e))
  {
    hide Schedule, Limit, Won;
    var o := c.ops;
    if Enabled(c, e) {
      match e
      case Connect(ok) => ScheduleGoing(cfg, c.(state := Connecting, connected := false, started := true));
      case ReadError => ScheduleGoing(cfg, c.(readers := c.readers - 1).(connected := false));
      case SendError => ScheduleGoing(cfg, c.(connected := false));
      case TimerHandler(sniOk) =>
        ScheduleGoing(cfg, c.(state := Connecting, ops := o.(expired := o.expired - 1, failed := o.failed + 1)));
      case OnResolve(ok) => ScheduleGoing(cfg, c.(ops := o.(resolving := o.resolving - 1, failed := o.failed + 1)));
      case OnConnect(ok) => ScheduleGoing(cfg, c.(ops := o.(connecting := o.connecting - 1, failed := o.failed + 1)));
      case OnSslHandshake(ok) => ScheduleGoing(cfg, c.(ops := o.(securing := o.securing - 1, failed := o.failed + 1)));
      case OnHandshake(ok) => ScheduleGoing(cfg, c.(ops := o.(upgrading := o.upgrading - 1, failed := o.failed + 1)));
      case _ =>
    }
  }

  lemma StepKeeps(cfg: Retry, c: Client, e: Event)
    requires Inv(cfg, c)
    ensures Inv(cfg, Step(cfg, c, e))
  {
    hide Step, Budget, Ledger, Going;
    StepBudget(cfg, c, e);
    StepLedger(cfg, c, e);
    StepGoing(cfg, c, e);
  }

  lemma NewKeeps(cfg: Retry)
    ensures Inv(cfg, NEW)
  {
    hide Budget, Ledger, Going;
    NewBudget(cfg, NEW.k);
    NewLedger(NEW.ops);
    NewGoing(cfg, NEW);
  }

  lemma NewLedger(o: Ops)
    requires o.pending == 0 && o.expired == 0 && o.cancelled == 0 && o.failed == 0 && o.success == 0
    requires o.resolving == 0 && o.connecting == 0 && o.securing == 0 && o.upgrading == 0
    ensures Ledger(0, o)
  {
  }

  lemma NewGoing(cfg: Retry, c: Client)
    requires !c.connected && c.readers == 0 && c.k.attempts == 0 && !c.started
    ensures Going(cfg, c)
  {
    hide Alive;
  }

  lemma NewBudget(cfg: Retry, k: Counter)
    requires k.retryCount == 0 && k.attempts == 0 && k.delays == []
    ensures Budget(cfg, k)
  {
    hide Allowance, DelayMs, Limit;
  }

  lemma RunStep(cfg: Retry, c: Client, es: seq<Event>)
    requires es != []
    ensures Run(cfg, c, es) == Step(cfg, Run(cfg, c, es[..|es| - 1]), es[|es| - 1])
  {
    hide Step;
  }

  lemma {:induction false} RunKeeps(cfg: Retry, es: seq<Event>)
    ensures Inv(cfg, Run(cfg, NEW, es))
  {
    if es == [] {
      NewKeeps(cfg);
      hide Inv;
    } else {
      hide *;
      RunKeeps(cfg, es[..|es| - 1]);
      RunStep(cfg, NEW, es);
      StepKeeps(cfg, Run(cfg, NEW, es[..|es| - 1]), es[|es| - 1]);
    }
  }

  /**
   * The reconnect ledger: attempts scheduled are waits armed, waits cancelled, chains in flight, chains failed and
   * successes. The retry counter is the number of attempts scheduled since the last success, it stays within the
   * maximum, and all attempts together stay within the maximum per success.
   */
  lemma {:induction false} ReconnectLedger(cfg: Retry, es: seq<Event>)
    ensures var c := Run(cfg, NEW, es);
            var k, o := c.k, c.ops;
            && k.attempts == o.pending + o.expired + o.cancelled + InFlight(o) + o.failed + o.success
            && k.retryCount == |k.delays| <= Limit(cfg)
            && k.attempts <= Allowance(cfg, k.wins) + k.retryCount
  {
    hide Run, DelayMs, Allowance;
    RunKeeps(cfg, es);
  }

  /**
   * The client is never stranded: while retries are enabled and nobody closed it, it is connected with a read under
   * way, or waits for a timer, or has an attempt in flight, or has used up its attempts. Only a timer that reports
   * an error of its own is left out.
   */
  lemma {:induction false} NeverStranded(cfg: Retry, es: seq<Event>)
    requires cfg.enabled
    ensures var c := Run(cfg, NEW, es);
            c.started && !c.stopped && c.timerErrors == 0 ==> Alive(cfg, c)
  {
    hide Run, DelayMs, Allowance;
    RunKeeps(cfg, es);
  }

  /** The last thing going on is a timer wait, and it reports an error of its own. */
  predicate Strands(cfg: Retry, c: Client, e: Event) {
    && e == TimerError && !c.stopped && c.ops.pending == 1 && c.ops.expired == 0 && InFlight(c.ops) == 0
    && !(c.connected && c.readers > 0) && c.k.retryCount < cfg.maxAttempts
  }

  /** A new `connect` call, or an error of a read that an earlier connection left outstanding. */
  predicate Revives(c: Client, e: Event) {
    e.Connect? || (e == ReadError && Enabled(c, e))
  }

  /** The exact step that strands a client with retries, and the exact step that gets it going again. */
  lemma StrandsExact(cfg: Retry, c: Client, e: Event)
    requires Inv(cfg, c) && cfg.enabled && c.started && !Step(cfg, c, e).stopped
    ensures Alive(cfg, c) ==> (!Alive(cfg, Step(cfg, c, e)) <==> Strands(cfg, c, e))
    ensures !Alive(cfg, c) ==> (Alive(cfg, Step(cfg, c, e)) <==> Revives(c, e))
  {
    hide DelayMs, Allowance, Budget;
  }

  lemma StaysStopped(cfg: Retry, c: Client, e: Event)
    ensures c.stopped ==> Step(cfg, c, e).stopped
    ensures c.started ==> Step(cfg, c, e).started
    ensures !c.started && Step(cfg, c, e).started ==> e.Connect? || c.ops.pending > 0 || c.readers > 0
  {
    hide DelayMs;
  }

  /** Event i stranded the client. */
  predicate StrandsAt(cfg: Retry, es: seq<Event>, i: nat)
    requires i < |es|
  {
    Strands(cfg, Run(cfg, NEW, es[..i]), es[i])
  }

  predicate RevivesAt(cfg: Retry, es: seq<Event>, i: nat)
    requires i < |es|
  {
    Revives(Run(cfg, NEW, es[..i]), es[i])
  }

  ghost predicate StrandedSince(cfg: Retry, es: seq<Event>, i: nat) {
    i < |es| && StrandsAt(cfg, es, i) && forall j :: i < j < |es| ==> !RevivesAt(cfg, es, j)
  }

  lemma StrandedExtends(cfg: Retry, es: seq<Event>)
    requires es != []
    ensures var front, n := es[..|es| - 1], |es| - 1;
            (exists i: nat :: StrandedSince(cfg, es, i))
            <==> StrandsAt(cfg, es, n) || ((exists i: nat :: StrandedSince(cfg, front, i)) && !RevivesAt(cfg, es, n))
  {
    hide Run, Strands, Revives;
    var front, n := es[..|es| - 1], |es| - 1;
    forall i | 0 <= i < n
      ensures StrandsAt(cfg, es, i) == StrandsAt(cfg, front, i) && RevivesAt(cfg, es, i) == RevivesAt(cfg, front, i)
    {
      assert front[..i] == es[..i];
    }
    if i: nat :| StrandedSince(cfg, es, i) {
      assert i < n ==> StrandedSince(cfg, front, i);
    }
    if StrandsAt(cfg, es, n) {
      assert StrandedSince(cfg, es, n);
    } else if (exists i: nat :: StrandedSince(cfg, front, i)) && !RevivesAt(cfg, es, n) {
      var i: nat :| StrandedSince(cfg, front, i);
      assert StrandedSince(cfg, es, i);
    }
  }

  /**
   * Stranded exactly: over all runs, a client with retries that was connected once and is not closed has nothing
   * going on if and only if at some point its last wait failed with an error of its own, and since then nobody
   * called `connect` and no left-over read reported an error.
   */
  lemma {:induction false} StrandedExact(cfg: Retry, es: seq<Event>)
    requires cfg.enabled && !Run(cfg, NEW, es).stopped
    ensures var c := Run(cfg, NEW, es);
            c.started && !Alive(cfg, c) <==> exists i: nat :: StrandedSince(cfg, es, i)
  {
    if es == [] {
      assert forall i: nat :: !StrandedSince(cfg, [], i);
    } else {
      var front, e, n := es[..|es| - 1], es[|es| - 1], |es| - 1;
      var c := Run(cfg, NEW, front);
      RunStep(cfg, NEW, es);
      StaysStopped(cfg, c, e);
      hide Run, Step, Alive, Strands, Revives, StrandedSince, DelayMs, Allowance;
      StrandedExact(cfg, front);
      StrandedExtends(cfg, es);
      RunKeeps(cfg, front);
      if c.started {
        StrandsExact(cfg, c, e);
        DeadOrStrands(cfg, c, e);
      } else {
        NotStarted(cfg, c, e);
      }
    }
  }

  lemma DeadOrStrands(cfg: Retry, c: Client, e: Event)
    ensures Strands(cfg, c, e) ==> Alive(cfg, c)
  {
  }

  /** Before the first `connect` nothing strands, and that call leaves the client alive. */
  lemma NotStarted(cfg: Retry, c: Client, e: Event)
    requires Inv(cfg, c) && !c.started && cfg.enabled
    ensures !Strands(cfg, c, e)
    ensures Step(cfg, c, e).started && !Step(cfg, c, e).stopped ==> Alive(cfg, Step(cfg, c, e))
  {
    hide DelayMs, Allowance, Budget;
  }

  /** A timer error does strand it: first connection refused, then the wait fails, and nothing is left. */
  lemma TimerErrorStrands(cfg: Retry)
    requires cfg.enabled && cfg.maxAttempts > 1
    ensures var c := Run(cfg, NEW, [Connect(false), TimerError]);
            c.started && !c.stopped && !Alive(cfg, c)
  {
    hide DelayMs;
    var es := [Connect(false), TimerError];
    assert es[..1] == [Connect(false)] && es[..1][..0] == [];
    assert Run(cfg, NEW, es[..1]) == ConnectCall(cfg, NEW, false);
  }

  predicate IsSuccess(e: Event) {
    (e.Connect? || e.OnHandshake?) && e.ok
  }

  /** Without a further success only the attempts left in the budget are scheduled, however long the run. */
  lemma {:induction false} FinitelyMany(cfg: Retry, c: Client, es: seq<Event>)
    requires c.k.retryCount <= Limit(cfg)
    requires forall i :: 0 <= i < |es| ==> !IsSuccess(es[i])
    ensures var k, k' := c.k, Run(cfg, c, es).k;
            k'.attempts - k.attempts == k'.retryCount - k.retryCount && k.retryCount <= k'.retryCount <= Limit(cfg)
  {
    hide Step, DelayMs, IsSuccess;
    if es != [] {
      FinitelyMany(cfg, c, es[..|es| - 1]);
      StepCounter(cfg, Run(cfg, c, es[..|es| - 1]), es[|es| - 1]);
    }
  }

  /** Between two successes the delays never decrease. */
  lemma {:induction false} DelaysGrow(cfg: Retry, es: seq<Event>)
    requires cfg.multiplier >= 1.0 && cfg.initial >= 0
    ensures var d := Run(cfg, NEW, es).k.delays;
            forall i, j :: 0 <= i <= j < |d| ==> d[i] <= d[j]
  {
    hide *;
    RunKeeps(cfg, es);
    var k := Run(cfg, NEW, es).k;
    DelaysAre(cfg, es);
    forall i, j | 0 <= i <= j < |k.delays| ensures k.delays[i] <= k.delays[j] {
      DelayMonotone(cfg, i + 1, j + 1);
    }
  }

  lemma {:induction false} DelaysAre(cfg: Retry, es: seq<Event>)
    ensures var d := Run(cfg, NEW, es).k.delays;
            forall i :: 0 <= i < |d| ==> d[i] == DelayMs(cfg, i + 1)
  {
    RunKeeps(cfg, es);
    hide Run, DelayMs, Allowance;
  }

  // ---------- The class ----------

  /** The client object; the ghost fields are the operations under way and the history. */
  class BoostClient {
    const cfg: Retry
    var connected: bool
    var state: ConnectionState
    var stopped: bool
    var retryCount: nat
    var reconnectAttempts: nat
    var reconnectSuccess: nat
    ghost var ops: Ops
    ghost var readers: nat
    ghost var wins: nat
    ghost var delays: seq<int>
    ghost var started: bool
    ghost var timerErrors: nat

    ghost predicate Valid()
      reads this
    {
      ops.success == reconnectSuccess
    }

    ghost function View(): Client
      reads this
    {
      Client(connected, state, stopped, Counter(retryCount, reconnectAttempts, wins, delays), ops, readers,
             started, timerErrors)
    }

    constructor (cfg: Retry)
      ensures this.cfg == cfg && Valid() && View() == NEW
    {
      this.cfg := cfg;
      connected, state, stopped := false, Disconnected, false;
      retryCount, reconnectAttempts, reconnectSuccess := 0, 0, 0;
      ops, readers := Ops(0, 0, 0, 0, 0, 0, 0, 0, 0), 0;
      wins, delays, started, timerErrors := 0, [], false, 0;
    }

    method ScheduleReconnect()
      requires Valid()
      modifies this
      ensures Valid() && View() == Schedule(cfg, old(View()))
    {
      if retryCount >= cfg.maxAttempts {
        state := Disconnected;
        return;
      }
      state := WaitingRetry;
      retryCount := retryCount + 1;
      reconnectAttempts := reconnectAttempts + 1;
      var delay := RetryDelay(cfg, retryCount);
      ops := ops.(cancelled := ops.cancelled + ops.pending, pending := 1);
      delays := delays + [delay];
    }

    method CloseConnection()
      requires Valid()
      modifies this
      ensures Valid() && View() == CloseClient(old(View()))
    {
      connected := false;
      stopped := true;
    }

    /** The error branch that the read handler and the posted write share. */
    method ConnectionLost()
      requires Valid()
      modifies this
      ensures Valid() && View() == Lost(cfg, old(View()))
    {
      if cfg.enabled {
        connected := false;
        ScheduleReconnect();
      } else {
        CloseConnection();
      }
    }

    /** The read handler with an error: this read is over and starts no other one. */
    method OnReadError()
      requires Valid() && Enabled(View(), ReadError)
      modifies this
      ensures Valid() && View() == Step(cfg, old(View()), ReadError)
    {
      hide Schedule, CloseClient;
      readers := readers - 1;
      ConnectionLost();
    }

    /** The timer expires: its handler is queued. */
    method OnTimerExpires()
      requires Valid() && Enabled(View(), TimerExpires)
      modifies this
      ensures Valid() && View() == Step(cfg, old(View()), TimerExpires)
    {
      ops := ops.(pending := ops.pending - 1, expired := ops.expired + 1);
    }

    /** The timer's handler with an error: it returns, whatever the error is. */
    method OnTimerError()
      requires Valid() && Enabled(View(), TimerError)
      modifies this
      ensures Valid() && View() == Step(cfg, old(View()), TimerError)
    {
      ops := ops.(pending := ops.pending - 1, cancelled := ops.cancelled + 1);
      timerErrors := timerErrors + 1;
    }

    method ConnectTo(ok: bool) returns (success: bool)
      requires Valid()
      modifies this
      ensures Valid() && View() == ConnectCall(cfg, old(View()), ok) && success == ok
    {
      started := true;
      state := Connecting;
      connected := false;
      if ok {
        connected := true;
        state := Connected;
        retryCount := 0;
        wins, delays, readers := wins + 1, [], readers + 1;
      } else if cfg.enabled {
        ScheduleReconnect();
      } else {
        state := Disconnected;
      }
      success := ok;
    }

    method AttemptReconnectAsync(sniOk: bool)
      requires Valid() && ops.expired > 0
      modifies this
      ensures Valid() && View() == Attempt(cfg, old(View()), sniOk)
    {
      ops := ops.(expired := ops.expired - 1);
      state := Connecting;
      if !sniOk {
        ops := ops.(failed := ops.failed + 1);
        ScheduleReconnect();
        return;
      }
      ops := ops.(resolving := ops.resolving + 1);
    }

    /** A handler of the chain found an error. */
    method AttemptFailed()
      requires Valid()
      modifies this
      ensures Valid() && View() == Schedule(cfg, old(View()).(ops := old(ops).(failed := old(ops).failed + 1)))
    {
      ops := ops.(failed := ops.failed + 1);
      ScheduleReconnect();
    }

    method OnResolve(ok: bool)
      requires Valid() && Enabled(View(), Event.OnResolve(ok))
      modifies this
      ensures Valid() && View() == Step(cfg, old(View()), Event.OnResolve(ok))
    {
      hide Schedule;
      ops := ops.(resolving := ops.resolving - 1);
      if !ok {
        AttemptFailed();
        return;
      }
      ops := ops.(connecting := ops.connecting + 1);
    }

    method OnConnect(ok: bool)
      requires Valid() && Enabled(View(), Event.OnConnect(ok))
      modifies this
      ensures Valid() && View() == Step(cfg, old(View()), Event.OnConnect(ok))
    {
      hide Schedule;
      ops := ops.(connecting := ops.connecting - 1);
      if !ok {
        AttemptFailed();
        return;
      }
      ops := ops.(securing := ops.securing + 1);
    }

    method OnSslHandshake(ok: bool)
      requires Valid() && Enabled(View(), Event.OnSslHandshake(ok))
      modifies this
      ensures Valid() && View() == Step(cfg, old(View()), Event.OnSslHandshake(ok))
    {
      hide Schedule;
      ops := ops.(securing := ops.securing - 1);
      if !ok {
        AttemptFailed();
        return;
      }
      ops := ops.(upgrading := ops.upgrading + 1);
    }

    method OnUpgraded(ok: bool)
      requires Valid() && ops.upgrading > 0
      modifies this
      ensures Valid() && View() == Upgraded(cfg, old(View()), ok)
    {
      hide Schedule;
      ops := ops.(upgrading := ops.upgrading - 1);
      if !ok {
        AttemptFailed();
        return;
      }
      connected := true;
      state := Connected;
      retryCount := 0;
      reconnectSuccess := reconnectSuccess + 1;
      ops := ops.(success := ops.success + 1);
      wins, delays, readers := wins + 1, [], readers + 1;
    }
  }
}
