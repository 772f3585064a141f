/** The client's send queue (client_class.cpp). Send notifies while it holds the mutex; the worker
    writes without it. Close clears the atomic flag without the mutex, so it can fall between the
    worker's test of the flag and its wait. */
module ClientQueue {
  import opened Runs

  datatype Worker =
    | Awake      // must get the mutex
    | Deciding   // holds the mutex, has seen running and an empty queue, about to wait
    | Asleep
    | Writing    // mutex released
    | Exited

  /** `sent` and `taken` record the messages that entered and left the queue. */
  datatype Client = Client(
    queue: seq<nat>, running: bool, worker: Worker, closes: nat, sent: seq<nat>, taken: seq<nat>)

  datatype Event =
    | Send(x: nat)
    | Close        // running_.exchange(false)
    | NotifyAll    // the notify that Close owes
    | Spurious
    | Check        // the worker gets the mutex and tests
    | Wait         // the worker enters the wait
    | Wrote
    | WriteFailed  // the worker closes and leaves

  const STARTED := Client([], true, Awake, 0, [], [])

  predicate Enabled(c: Client, e: Event) {
    match e
    case Send(_) => !c.worker.Deciding?
    case Close => true
    case NotifyAll => c.closes > 0
    case Spurious => c.worker.Asleep?
    case Check => c.worker.Awake?
    case Wait => c.worker.Deciding?
    case Wrote => c.worker.Writing?
    case WriteFailed => c.worker.Writing?
  }

  function Woken(c: Client): Client {
    if c.worker.Asleep? then c.(worker := Awake) else c
  }

  function Closed(c: Client): Client {
    c.(running := false, closes := if c.running then c.closes + 1 else c.closes)
  }

  function Step(c: Client, e: Event): Client
    requires Enabled(c, e)
  {
    match e
    case Send(x) => (if c.queue == [] then Woken(c) else c).(queue := c.queue + [x], sent := c.sent + [x])
    case Close => Closed(c)
    case NotifyAll => Woken(c).(closes := c.closes - 1)
    case Spurious => Woken(c)
    case Check =>
      if !c.running then c.(worker := Exited)
      else if c.queue == [] then c.(worker := Deciding)
      else c.(worker := Writing, queue := c.queue[1..], taken := c.taken + [c.queue[0]])
    case Wait => c.(worker := Asleep)
    case Wrote => c.(worker := if c.running then Awake else Exited)
    case WriteFailed => Closed(c).(worker := Exited)
  }

  /** Nobody owes the closing worker a notification any more, and it waits or is about to. */
  predicate Lost(c: Client) {
    !c.running && c.closes == 0 && (c.worker.Deciding? || c.worker.Asleep?)
  }

  ghost predicate Inv(c: Client) {
    && (c.worker.Asleep? || c.worker.Deciding? ==> c.queue == [])
    && (c.running ==> c.closes == 0) && c.closes <= 1
    && c.taken + c.queue == c.sent
    && (c.worker.Exited? ==> !c.running)
  }

  lemma StepKeepsInv(c: Client, e: Event)
    requires Inv(c) && Enabled(c, e)
    ensures Inv(Step(c, e))
  {
    assert e.Send? ==> c.taken + (c.queue + [e.x]) == c.taken + c.queue + [e.x];
    assert c.queue != [] ==> c.taken + [c.queue[0]] + c.queue[1..] == c.taken + c.queue;
  }

  lemma InvKept()
    ensures Kept(Step, Inv)
  {
    forall c: Client, e: Event | Inv(c) && Step.requires(c, e)
      ensures Inv(Step(c, e))
    {
      StepKeepsInv(c, e);
    }
  }

  /** In every interleaving the worker takes the messages in the order they were sent and neither
      sleeps nor is about to while there is one. */
  lemma NeverSleepsOnMessage(es: seq<Event>)
    requires IsRun(Step, STARTED, es)
    ensures var c := End(Step, STARTED, es);
      && c.taken + c.queue == c.sent
      && (c.queue != [] ==> !c.worker.Asleep? && !c.worker.Deciding?)
      && (c.worker.Exited? ==> !c.running)
  {
    InvKept();
    KeepsInvariant(Step, Inv, STARTED, es);
  }

  /** Without any help from outside, a running worker comes to write the message at the front of the queue. */
  lemma WorkerWritesNext(c: Client) returns (es: seq<Event>)
    requires Inv(c) && c.running && c.queue != []
    ensures IsRun(Step, c, es) && forall i | 0 <= i < |es| :: es[i].Wrote? || es[i].Check?
    ensures var l := End(Step, c, es); l.worker.Writing? && l.taken == c.taken + [c.queue[0]] && l.queue == c.queue[1..]
  {
    match c.worker
    case Awake =>
      es := [Check];
      assert Enabled(c, Check);
      One(Step, c, Check);
    case Writing =>
      es := [Wrote, Check];
      assert Enabled(c, Wrote) && Enabled(Step(c, Wrote), Check);
      Two(Step, c, Wrote, Check);
  }

  /** After a close the worker comes to its end, unless the wake-up was lost. */
  lemma WorkerLeaves(c: Client) returns (es: seq<Event>)
    requires Inv(c) && !c.running && !Lost(c)
    ensures IsRun(Step, c, es) && forall i | 0 <= i < |es| :: es[i].Wrote? || es[i].Check? || es[i].Wait? || es[i].NotifyAll?
    ensures var l := End(Step, c, es); l.worker.Exited? && l.taken == c.taken && l.queue == c.queue
  {
    match c.worker
    case Awake =>
      es := [Check];
      assert Enabled(c, Check);
      One(Step, c, Check);
    case Deciding =>
      es := [Wait] + [NotifyAll, Check];
      var d := Step(c, Wait);
      One(Step, c, Wait);
      assert Enabled(d, NotifyAll) && Enabled(Step(d, NotifyAll), Check);
      Two(Step, d, NotifyAll, Check);
      Concat(Step, c, [Wait], [NotifyAll, Check]);
    case Asleep =>
      es := [NotifyAll, Check];
      assert Enabled(c, NotifyAll) && Enabled(Step(c, NotifyAll), Check);
      Two(Step, c, NotifyAll, Check);
    case Writing =>
      es := [Wrote];
      assert Enabled(c, Wrote);
      One(Step, c, Wrote);
    case Exited => es := [];
  }

  /** Once closed, no message is taken any more, and a worker that left is gone. */
  lemma {:induction false} ClosedForever(c: Client, es: seq<Event>)
    requires !c.running && IsRun(Step, c, es)
    ensures !End(Step, c, es).running && End(Step, c, es).taken == c.taken
    ensures c.worker.Exited? ==> End(Step, c, es).worker.Exited?
    decreases |es|
  {
    if es != [] {
      ClosedForever(Step(c, es[0]), es[1..]);
    }
  }

  /** A failed write closes the client and ends the worker for good. */
  lemma WriteFailureEnds(c: Client, es: seq<Event>)
    requires Enabled(c, WriteFailed) && IsRun(Step, Step(c, WriteFailed), es)
    ensures var l := End(Step, Step(c, WriteFailed), es); l.worker.Exited? && !l.running && l.taken == c.taken
  {
    ClosedForever(Step(c, WriteFailed), es);
  }

  function Sends(es: seq<Event>): seq<nat> {
    if es == [] then [] else (if es[0].Send? then [es[0].x] else []) + Sends(es[1..])
  }

  /** What enters the queue is what is sent, in that order and whatever the worker does. */
  lemma {:induction false} SentExactly(c: Client, es: seq<Event>)
    requires Inv(c) && IsRun(Step, c, es)
    ensures var l := End(Step, c, es); l.sent == c.sent + Sends(es) == l.taken + l.queue
    decreases |es|
  {
    if es != [] {
      StepKeepsInv(c, es[0]);
      SentExactly(Step(c, es[0]), es[1..]);
    }
  }

  /** The notification falls between the worker's test and its wait. */
  predicate Misses(c: Client, e: Event) {
    e.NotifyAll? && c.worker.Deciding?
  }

  lemma LostStep(c: Client, e: Event)
    requires Inv(c) && !Lost(c) && Enabled(c, e)
    ensures Lost(Step(c, e)) <==> Misses(c, e)
  {
  }

  /** The wake-up of Close is lost along a run if and only if its notification comes in that gap. */
  lemma CloseWakesExactly(c: Client, es: seq<Event>)
    requires Inv(c) && !Lost(c) && IsRun(Step, c, es)
    ensures Avoids(Step, Lost, c, es) <==> Never(Step, Misses, c, es)
  {
    InvKept();
    forall d: Client, e: Event | Inv(d) && !Lost(d) && Step.requires(d, e)
      ensures Lost(Step(d, e)) <==> Misses(d, e)
    {
      LostStep(d, e);
    }
    AvoidsExactly(Step, Inv, Lost, Misses, c, es);
  }

  /** A lost worker stays asleep until somebody sends or the wait ends by itself. */
  lemma {:induction false} LostUntilSend(c: Client, es: seq<Event>)
    requires Lost(c) && IsRun(Step, c, es)
    requires forall i | 0 <= i < |es| :: !es[i].Send? && !es[i].Spurious?
    ensures Lost(End(Step, c, es))
    decreases |es|
  {
    if es != [] {
      assert !es[0].Send? && !es[0].Spurious?;
      LostUntilSend(Step(c, es[0]), es[1..]);
    }
  }

  /** It leaves when its wait ends by itself. */
  lemma LostCanLeave(c: Client)
    requires Lost(c) && c.worker.Asleep?
    ensures IsRun(Step, c, [Spurious, Check]) && End(Step, c, [Spurious, Check]) == c.(worker := Exited)
  {
    assert Enabled(c, Spurious) && Enabled(Step(c, Spurious), Check);
    Two(Step, c, Spurious, Check);
  }

  lemma CloseCanBeLost()
    ensures var es := [Check, Close, NotifyAll, Wait];
      IsRun(Step, STARTED, es) && Lost(End(Step, STARTED, es)) && End(Step, STARTED, es).worker.Asleep?
  {
    var c1 := Step(STARTED, Check);
    var c2 := Step(c1, Close);
    var c3 := Step(c2, NotifyAll);
    Four(Step, STARTED, Check, c1, Close, c2, NotifyAll, c3, Wait, Step(c3, Wait));
  }

  // ---------- The client object ----------

  /** The send queue and the flag; the worker's position is ghost. */
  class AsyncClient {
    var queue: seq<nat>
    var running: bool
    ghost var worker: Worker
    ghost var closes: nat
    ghost var sent: seq<nat>
    ghost var taken: seq<nat>

    constructor ()
      ensures View() == STARTED
    {
      queue, running := [], true;
      worker, closes, sent, taken := Awake, 0, [], [];
    }

    ghost function View(): Client
      reads this
    {
      Client(queue, running, worker, closes, sent, taken)
    }

    method Send(x: nat)
      requires !worker.Deciding?
      modifies this
      ensures View() == Step(old(View()), Event.Send(x)) && queue == old(queue) + [x]
    {
      queue, sent := queue + [x], sent + [x];
      if |queue| == 1 && worker.Asleep? {
        worker := Awake;
      }
    }

    /** `notify` tells whether notify_all follows. */
    method Close() returns (notify: bool)
      modifies this
      ensures View() == Step(old(View()), Event.Close) && notify == old(running) && !running
    {
      notify, running := running, false;
      if notify {
        closes := closes + 1;
      }
    }

    /** The worker's pass with the mutex: a message to write, or none to wait or leave. */
    method TakeNext() returns (next: seq<nat>)
      requires worker.Awake?
      modifies this
      ensures View() == Step(old(View()), Check)
      ensures taken == old(taken) + next && (next != [] <==> worker.Writing?)
      ensures next == if old(running) && old(queue) != [] then [old(queue)[0]] else []
      ensures (worker.Exited? <==> !old(running)) && (worker.Deciding? <==> old(running) && old(queue) == [])
    {
      next := [];
      if !running {
        worker := Exited;
      } else if queue == [] {
        worker := Deciding;
      } else {
        next := [queue[0]];
        worker, taken := Writing, taken + next;
        queue := queue[1..];
      }
    }

    method OnWritten(failed: bool) returns (notify: bool)
      requires worker.Writing?
      modifies this
      ensures View() == Step(old(View()), if failed then WriteFailed else Wrote)
      ensures running == (old(running) && !failed) && (worker.Exited? <==> !running)
      ensures notify == (failed && old(running))
    {
      notify := false;
      if failed {
        notify := Close();
        worker := Exited;
      } else {
        worker := if running then Awake else Exited;
      }
    }
  }
}
