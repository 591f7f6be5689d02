/**
 * The bounded queue between the I/O thread and its consumer: the size check and the enqueue are separate steps, and
 * dequeues happen at any time between them.
 */
module IncomingQueue {
  import opened Subsequences

  const MAX_INCOMING_QUEUE_SIZE := 10000

  /** The mutex-guarded queue; each method is one atomic step. */
  class ConcurrentQueue<T> {
    var items: seq<T>

    constructor ()
      ensures items == []
    {
      items := [];
    }

    method Enqueue(item: T)
      modifies this
      ensures items == old(items) + [item]
    {
      items := items + [item];
    }

    method TryDequeue() returns (found: bool, item: seq<T>)
      modifies this
      ensures found == (old(items) != [])
      ensures if found then item == [old(items)[0]] && items == old(items)[1..] else item == [] && items == old(items)
    {
      if items == [] {
        return false, [];
      }
      found, item := true, [items[0]];
      items := items[1..];
    }

    method SizeApprox() returns (n: nat)
      ensures n == |items|
    {
      n := |items|;
    }
  }

  /** The read handler, run without interruption: check, then enqueue or drop. */
  method OnRead<T>(queue: ConcurrentQueue<T>, message: T)
    modifies queue
    ensures queue.items
         == old(queue.items) + if |old(queue.items)| < 10000 then [message] else []
  {
    var size := queue.SizeApprox();
    if size < MAX_INCOMING_QUEUE_SIZE {
      queue.Enqueue(message);
    }
  }

  /** `poll`: processes everything queued, oldest first, until the queue is empty. */
  method Poll<T>(queue: ConcurrentQueue<T>) returns (processed: seq<T>)
    modifies queue
    ensures processed == old(queue.items) && queue.items == []
  {
    processed := [];
    while true
      invariant processed + queue.items == old(queue.items)
      decreases |queue.items|
    {
      var found, item := queue.TryDequeue();
      if !found {
        break;
      }
      processed := processed + item;
    }
  }

  // ---------- All interleavings ----------

  /** A message received, with the queue size that its check saw. */
  datatype Received<T> = Received(message: T, seen: nat)

  /** The queue, the message between check and enqueue (at most one: there is one I/O thread), and the history. */
  datatype System<T> = System(queue: seq<T>, checked: seq<T>, dequeued: seq<T>, received: seq<Received<T>>)

  datatype Action<T> = Check(message: T) | Enqueue | Dequeue

  function Empty<T>(): System<T> { System([], [], [], []) }

  function Next<T>(s: System<T>, a: Action<T>): System<T> {
    match a
    case Check(m) =>
      if s.checked != [] then s
      else
        s.(received := s.received + [Received(m, |s.queue|)],
           checked := if |s.queue| < MAX_INCOMING_QUEUE_SIZE then [m] else [])
    case Enqueue => s.(queue := s.queue + s.checked, checked := [])
    case Dequeue =>
      if s.queue == [] then s else s.(dequeued := s.dequeued + [s.queue[0]], queue := s.queue[1..])
  }

  /** The queue between its two threads: each step of either thread is one call of the queue. */
  class Threads<T> {
    const queue: ConcurrentQueue<T>
    var checked: seq<T>
    ghost var dequeued: seq<T>
    ghost var received: seq<Received<T>>

    ghost function View(): System<T>
      reads this, queue
    {
      System(queue.items, checked, dequeued, received)
    }

    constructor ()
      ensures fresh(queue) && View() == Empty()
    {
      queue := new ConcurrentQueue();
      checked, dequeued, received := [], [], [];
    }

    /** The read handler up to its size check: the message is dropped there, or goes on to be enqueued. */
    method CheckSize(message: T)
      requires checked == []
      modifies this
      ensures View() == Next(old(View()), Check(message))
    {
      var size := queue.SizeApprox();
      received := received + [Received(message, size)];
      if size < MAX_INCOMING_QUEUE_SIZE {
        checked := [message];
      }
    }

    /** The rest of the read handler. */
    method EnqueueChecked()
      requires |checked| <= 1
      modifies this, queue
      ensures View() == Next(old(View()), Enqueue)
    {
      if checked != [] {
        queue.Enqueue(checked[0]);
        assert checked == [checked[0]];
      }
      checked := [];
    }

    /** One `try_dequeue` of the consumer. */
    method TakeOne() returns (found: bool)
      modifies this, queue
      ensures View() == Next(old(View()), Dequeue) && found == (old(queue.items) != [])
    {
      var item;
      found, item := queue.TryDequeue();
      dequeued := dequeued + item;
    }
  }

  function Run<T>(acts: seq<Action<T>>): System<T> {
    if acts == [] then Empty() else Next(Run(acts[..|acts| - 1]), acts[|acts| - 1])
  }

  function All<T>(rs: seq<Received<T>>): (ms: seq<T>)
    ensures |ms| == |rs|
  {
    if rs == [] then [] else All(rs[..|rs| - 1]) + [rs[|rs| - 1].message]
  }

  /** The messages whose check did not see a full queue. */
  function Kept<T>(rs: seq<Received<T>>): seq<T> {
    if rs == [] then []
    else Kept(rs[..|rs| - 1]) + if rs[|rs| - 1].seen < MAX_INCOMING_QUEUE_SIZE then [rs[|rs| - 1].message] else []
  }

  ghost predicate Inv<T>(s: System<T>) {
    && |s.checked| <= 1 && |s.queue| + |s.checked| <= MAX_INCOMING_QUEUE_SIZE
    && s.dequeued + s.queue + s.checked == Kept(s.received)
  }

  lemma NextKeeps<T>(s: System<T>, a: Action<T>)
    requires Inv(s)
    ensures Inv(Next(s, a))
  {
  }

  lemma {:induction false} RunKeeps<T>(acts: seq<Action<T>>)
    ensures Inv(Run(acts))
  {
    if acts != [] {
      RunKeeps(acts[..|acts| - 1]);
      NextKeeps(Run(acts[..|acts| - 1]), acts[|acts| - 1]);
    }
  }

  lemma {:induction false} KeptInOrder<T>(rs: seq<Received<T>>)
    ensures Subsequence(Kept(rs), All(rs))
  {
    if rs != [] {
      var front, last := rs[..|rs| - 1], rs[|rs| - 1];
      KeptInOrder(front);
      if last.seen < MAX_INCOMING_QUEUE_SIZE {
        SubsequenceBoth(Kept(front), All(front), [last.message]);
      } else {
        SubsequenceSkip(Kept(front), All(front), [last.message]);
        assert Kept(front) + [] == Kept(front);
      }
    }
  }

  lemma SubsequenceCut<T>(s: seq<T>, more: seq<T>, t: seq<T>)
    requires |more| <= 1 && Subsequence(s + more, t)
    ensures Subsequence(s, t)
  {
    if more == [] {
      assert s + more == s;
    } else {
      SubsequenceOneMore(s + more, t, more[0]);
      assert (s + more)[..|s|] == s;
    }
  }

  /**
   * In every interleaving the queue stays within its bound; what was dequeued followed by what is queued, and by the
   * message just checked, is what was received without the messages whose own check saw a full queue; and it
   * is in the order of arrival.
   */
  lemma {:induction false} BoundedAndOrdered<T>(acts: seq<Action<T>>)
    ensures var s := Run(acts);
            && |s.queue| <= 10000
            && s.dequeued + s.queue + s.checked == Kept(s.received)
            && Subsequence(s.dequeued + s.queue, All(s.received))
  {
    hide Run, Next, Kept, All, Subsequence;
    RunKeeps(acts);
    var s := Run(acts);
    KeptInOrder(s.received);
    SubsequenceCut(s.dequeued + s.queue, s.checked, All(s.received));
  }

  /**
   * What each step does, field by field: a check notes its message with the size it saw and lets it through below
   * 10000; the message let through is enqueued by the next enqueue; a dequeue takes the oldest message.
   */
  lemma StepExact<T>(acts: seq<Action<T>>, a: Action<T>)
    ensures var s, s' := Run(acts), Run(acts + [a]);
            var checks := a.Check? && s.checked == [];
            && s'.received == s.received + (if checks then [Received(a.message, |s.queue|)] else [])
            && s'.checked == (if checks && |s.queue| < 10000 then [a.message] else if a.Enqueue? then [] else s.checked)
            && s'.dequeued == s.dequeued + (if a.Dequeue? && s.queue != [] then [s.queue[0]] else [])
            && s'.queue == if a.Enqueue? then s.queue + s.checked
                           else if a.Dequeue? && s.queue != [] then s.queue[1..] else s.queue
  {
    assert (acts + [a])[..|acts|] == acts;
    var s := Run(acts);
    assert s.received + [] == s.received && s.dequeued + [] == s.dequeued;
  }

  /** With no message between check and enqueue, something is missing exactly if some check saw a full queue. */
  lemma {:induction false} MissingExact<T>(acts: seq<Action<T>>)
    requires Run(acts).checked == []
    ensures var s := Run(acts);
            s.dequeued + s.queue == All(s.received)
            <==> (forall i :: 0 <= i < |s.received| ==> s.received[i].seen < 10000)
  {
    hide Run, Next;
    RunKeeps(acts);
    var s := Run(acts);
    assert s.dequeued + s.queue + [] == s.dequeued + s.queue;
    KeptLength(s.received);
  }

  lemma {:induction false} KeptLength<T>(rs: seq<Received<T>>)
    ensures |Kept(rs)| <= |All(rs)|
    ensures Kept(rs) == All(rs) <==> (forall i :: 0 <= i < |rs| ==> rs[i].seen < MAX_INCOMING_QUEUE_SIZE)
  {
    if rs != [] {
      var n := |rs| - 1;
      KeptLength(rs[..n]);
      if rs[n].seen >= MAX_INCOMING_QUEUE_SIZE {
        assert |Kept(rs)| < |All(rs)|;
      } else {
        if Kept(rs) == All(rs) {
          assert Kept(rs)[..|Kept(rs)| - 1] == Kept(rs[..n]) && All(rs)[..n] == All(rs[..n]);
        }
        assert forall i :: 0 <= i < n ==> rs[..n][i] == rs[i];
      }
    }
  }
}
