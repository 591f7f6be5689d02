/** The reconnecting client field by field, and its retry counter told from the history of a run. */
module ReconnectRuns {
  import opened Backoff
  import opened Reconnect

  function One(b: bool): nat { if b then 1 else 0 }

  /** The outcomes after which another attempt is wanted. */
  predicate WantsRetry(cfg: Retry, e: Event) {
    match e
    case Connect(ok) => !ok && cfg.enabled
    case ReadError => cfg.enabled
    case SendError => cfg.enabled
    case TimerHandler(ok) => !ok
    case OnResolve(ok) => !ok
    case OnConnect(ok) => !ok
    case OnSslHandshake(ok) => !ok
    case OnHandshake(ok) => !ok
    case _ => false
  }

  /** Another attempt is wanted, and the maximum is not reached. */
  predicate Arms(cfg: Retry, c: Client, e: Event) {
    WantsRetry(cfg, e) && c.k.retryCount < cfg.maxAttempts
  }

  /** An attempt under way came to nothing. */
  predicate AttemptFails(e: Event) {
    e in {TimerHandler(false), Event.OnResolve(false), Event.OnConnect(false), Event.OnSslHandshake(false),
          OnHandshake(false)}
  }

  /** The flags after a step: success connects; otherwise wait for the retry, give up, or stay as it was. */
  lemma FlagsExact(cfg: Retry, c: Client, e: Event)
    requires Enabled(c, e)
    ensures var c' := Step(cfg, c, e);
            && c'.state == (if IsSuccess(e) then Connected
                            else if Arms(cfg, c, e) then WaitingRetry
                            else if WantsRetry(cfg, e) || e == Connect(false) then Disconnected
                            else if e == TimerHandler(true) then Connecting
                            else c.state)
            && c'.connected == (IsSuccess(e)
                                || (c.connected && !e.Connect? && !e.ReadError? && !e.SendError? && !e.Close?))
            && c'.stopped == (c.stopped || e.Close? || (!cfg.enabled && (e.ReadError? || e.SendError?)))
            && c'.readers == c.readers + One(IsSuccess(e)) - One(e.ReadError?)
            && c'.started == (c.started || e.Connect?)
            && c'.timerErrors == c.timerErrors + One(e.TimerError?)
  {
    hide Armed, Won;
  }

  /** The counters after a step: a success starts over, an armed attempt counts and waits for its delay. */
  lemma CountersExact(cfg: Retry, c: Client, e: Event)
    requires Enabled(c, e)
    ensures var k, k' := c.k, Step(cfg, c, e).k;
            && k'.retryCount == (if IsSuccess(e) then 0 else k.retryCount + One(Arms(cfg, c, e)))
            && k'.attempts == k.attempts + One(Arms(cfg, c, e))
            && k'.wins == k.wins + One(IsSuccess(e))
            && k'.delays == if IsSuccess(e) then []
                            else if Arms(cfg, c, e) then k.delays + [DelayMs(cfg, k.retryCount + 1)] else k.delays
  {
    hide DelayMs;
  }

  /** The waits after a step: arming the timer cancels one that is still armed. */
  lemma WaitsExact(cfg: Retry, c: Client, e: Event)
    requires Enabled(c, e)
    ensures var o, o', arms := c.ops, Step(cfg, c, e).ops, Arms(cfg, c, e);
            && o'.pending == (if arms then 1 else o.pending - One(e.TimerExpires? || e.TimerError?))
            && o'.expired == o.expired + One(e.TimerExpires?) - One(e.TimerHandler?)
            && o'.cancelled == o.cancelled + (if arms then o.pending else 0) + One(e.TimerError?)
  {
    hide Armed, Won;
  }

  /** The attempts after a step: each moves one operation further. */
  lemma AttemptsMove(cfg: Retry, c: Client, e: Event)
    requires Enabled(c, e)
    ensures var o, o' := c.ops, Step(cfg, c, e).ops;
            && o'.resolving == o.resolving + One(e == TimerHandler(true)) - One(e.OnResolve?)
            && o'.connecting == o.connecting + One(e == Event.OnResolve(true)) - One(e.OnConnect?)
            && o'.securing == o.securing + One(e == Event.OnConnect(true)) - One(e.OnSslHandshake?)
            && o'.upgrading == o.upgrading + One(e == Event.OnSslHandshake(true)) - One(e.OnHandshake?)
  {
    hide Armed, Won;
  }

  /** Or it ends: completed with the WebSocket handshake, or failed. */
  lemma AttemptsEnd(cfg: Retry, c: Client, e: Event)
    requires Enabled(c, e)
    ensures var o, o' := c.ops, Step(cfg, c, e).ops;
            && o'.success == o.success + One(e == OnHandshake(true))
            && o'.failed == o.failed + One(AttemptFails(e))
  {
    hide Armed, Won;
  }

  // ---------- The counter from the history ----------

  /** Event i of the run is a `connect` that succeeds or the handler of a completed handshake. */
  predicate WinAt(cfg: Retry, es: seq<Event>, i: nat) {
    && i < |es|
    && (es[i] == Connect(true) || es[i] == OnHandshake(true))
    && Enabled(Run(cfg, NEW, es[..i]), es[i])
  }

  function AttemptsAt(cfg: Retry, es: seq<Event>, i: nat): nat
    requires i <= |es|
  {
    Run(cfg, NEW, es[..i]).k.attempts
  }

  lemma StepCounts(cfg: Retry, es: seq<Event>, i: nat)
    requires i < |es|
    ensures var c, c' := Run(cfg, NEW, es[..i]), Run(cfg, NEW, es[..i + 1]);
            && c' == Step(cfg, c, es[i])
            && (WinAt(cfg, es, i) ==> c'.k.retryCount == 0 && c'.k.delays == [])
            && (!WinAt(cfg, es, i) ==>
                  && c'.k.retryCount - c.k.retryCount == c'.k.attempts - c.k.attempts
                  && (c'.k.attempts == c.k.attempts
                      || (&& c'.k.attempts == c.k.attempts + 1
                          && c'.k.delays == c.k.delays + [DelayMs(cfg, c.k.retryCount + 1)])))
  {
    hide DelayMs, Arms;
    var s := es[..i + 1];
    assert s[..i] == es[..i];
    RunStep(cfg, NEW, s);
    var c := Run(cfg, NEW, es[..i]);
    hide Run, Step;
    if Enabled(c, es[i]) { CountersExact(cfg, c, es[i]); } else { Unchanged(cfg, c, es[i]); }
  }

  lemma Unchanged(cfg: Retry, c: Client, e: Event)
    requires !Enabled(c, e)
    ensures Step(cfg, c, e) == c
  {
  }

  lemma {:induction false} SinceWin(cfg: Retry, es: seq<Event>, i: nat, j: nat)
    requires WinAt(cfg, es, i) && i < j <= |es|
    requires forall m :: i < m < j ==> !WinAt(cfg, es, m)
    ensures Run(cfg, NEW, es[..j]).k.retryCount == AttemptsAt(cfg, es, j) - AttemptsAt(cfg, es, i + 1)
    ensures Run(cfg, NEW, es[..i + 1]).k.retryCount == 0
  {
    hide Step, WinAt, DelayMs;
    if j == i + 1 {
      StepCounts(cfg, es, i);
    } else {
      SinceWin(cfg, es, i, j - 1);
      StepCounts(cfg, es, j - 1);
    }
  }

  /**
   * Every success starts the counter over: retry_count is 0 right after it, and at any later point before the next
   * one it is the number of attempts scheduled since. Without any success it is the number of all attempts.
   */
  lemma {:induction false} CounterSinceWin(cfg: Retry, es: seq<Event>)
    ensures forall i: nat :: i < |es| && WinAt(cfg, es, i) && (forall m :: i < m < |es| ==> !WinAt(cfg, es, m)) ==>
              && Run(cfg, NEW, es).k.retryCount == Run(cfg, NEW, es).k.attempts - Run(cfg, NEW, es[..i + 1]).k.attempts
              && Run(cfg, NEW, es[..i + 1]).k.retryCount == 0
    ensures (forall m :: 0 <= m < |es| ==> !WinAt(cfg, es, m)) ==>
              Run(cfg, NEW, es).k.retryCount == Run(cfg, NEW, es).k.attempts
  {
    hide Run, Step, WinAt;
    assert es[..|es|] == es;
    forall i: nat | i < |es| && WinAt(cfg, es, i) && (forall m :: i < m < |es| ==> !WinAt(cfg, es, m))
      ensures Run(cfg, NEW, es).k.retryCount == Run(cfg, NEW, es).k.attempts - Run(cfg, NEW, es[..i + 1]).k.attempts
      ensures Run(cfg, NEW, es[..i + 1]).k.retryCount == 0
    {
      SinceWin(cfg, es, i, |es|);
    }
    if forall m :: 0 <= m < |es| ==> !WinAt(cfg, es, m) {
      NoWin(cfg, es, |es|);
    }
  }

  lemma {:induction false} NoWin(cfg: Retry, es: seq<Event>, j: nat)
    requires j <= |es| && forall m :: 0 <= m < j ==> !WinAt(cfg, es, m)
    ensures Run(cfg, NEW, es[..j]).k.retryCount == AttemptsAt(cfg, es, j)
  {
    hide Step, WinAt, DelayMs;
    if j > 0 {
      NoWin(cfg, es, j - 1);
      StepCounts(cfg, es, j - 1);
    }
  }

  /**
   * The delay that an attempt waits for is that of its number since the last success, so the first one after a
   * success waits the initial delay again.
   */
  lemma DelaySinceWin(cfg: Retry, es: seq<Event>, i: nat, j: nat, n: nat)
    requires WinAt(cfg, es, i) && i < j < |es| && n >= 1
    requires forall m :: i < m <= j ==> !WinAt(cfg, es, m)
    requires AttemptsAt(cfg, es, j) < AttemptsAt(cfg, es, j + 1) == AttemptsAt(cfg, es, i + 1) + n
    ensures Run(cfg, NEW, es[..j + 1]).k.delays == Run(cfg, NEW, es[..j]).k.delays + [DelayMs(cfg, n)]
    ensures Run(cfg, NEW, es[..i + 1]).k.delays == []
  {
    hide Run, Step, WinAt, DelayMs;
    SinceWin(cfg, es, i, j);
    StepCounts(cfg, es, j);
    StepCounts(cfg, es, i);
  }

  /** A second chance: with one attempt allowed, a success in between makes room for another one. */
  lemma SecondChance(cfg: Retry)
    requires cfg.enabled && cfg.maxAttempts == 1
    ensures var c := Run(cfg, NEW, [Connect(false), Connect(true), ReadError]);
            c.state == WaitingRetry && c.k.retryCount == 1 && c.k.attempts == 2
    ensures Run(cfg, NEW, [Connect(false), Connect(false)]).state == Disconnected
  {
    hide DelayMs;
    var es := [Connect(false), Connect(true), ReadError];
    assert es[..2][..1] == [Connect(false)] && es[..2][..1][..0] == [];
    assert [Connect(false), Connect(false)][..1] == [Connect(false)];
    assert Run(cfg, NEW, []) == NEW;
    RunStep(cfg, NEW, [Connect(false)]);
    RunStep(cfg, NEW, es[..2]);
    RunStep(cfg, NEW, es);
    hide Run;
  }
}
