/** The message handler's queue, lock and condition variable (msg_handler.cpp). The worker keeps the
    lock from the moment it wakes until it waits again, also while it processes a message; a post needs
    the lock and notifies, after unlocking, only when it made the queue one element long. What becomes of
    a worker whose own message posts is in Sessions. */
module HandlerQueue {
  import opened Basics
  import opened Runs

  type Item = nat

  datatype Worker =
    | Asleep             // in wait, lock released
    | Awake              // woken or starting, must get the lock
    | Busy(item: Item)   // processing, lock held
    | Exited

  /** `posted` and `taken` record the items that entered and left the queue. */
  datatype Handler = Handler(
    queue: seq<Item>, running: bool, worker: Worker, notifies: nat, stops: nat, posted: seq<Item>, taken: seq<Item>)

  datatype Event =
    | Post(x: Item)
    | NotifyOne          // the notify that a post owes
    | Stop
    | NotifyAll          // the notify that Stop owes
    | Spurious
    | Run                // the worker gets the lock and runs until it waits or has an item
    | Finish             // the worker ends an item and goes on with the lock held

  const STARTED := Handler([], true, Awake, 0, 0, [], [])

  predicate LockFree(h: Handler) {
    !h.worker.Busy?
  }

  predicate Enabled(h: Handler, e: Event) {
    match e
    case Post(_) => LockFree(h)
    case NotifyOne => h.notifies > 0
    case Stop => LockFree(h) && h.running
    case NotifyAll => h.stops > 0
    case Spurious => h.worker.Asleep?
    case Run => h.worker.Awake?
    case Finish => h.worker.Busy?
  }

  /** The worker's loop from its test of `running` on. */
  function Loop(h: Handler): Handler {
    if !h.running then h.(worker := Exited)
    else if h.queue == [] then h.(worker := Asleep)
    else h.(worker := Busy(h.queue[0]), queue := h.queue[1..], taken := h.taken + [h.queue[0]])
  }

  function Woken(h: Handler): Handler {
    if h.worker.Asleep? then h.(worker := Awake) else h
  }

  function Step(h: Handler, e: Event): Handler
    requires Enabled(h, e)
  {
    match e
    case Post(x) =>
      h.(queue := h.queue + [x], posted := h.posted + [x],
         notifies := if |h.queue + [x]| == 1 then h.notifies + 1 else h.notifies)
    case NotifyOne => Woken(h).(notifies := h.notifies - 1)
    case Stop => h.(running := false, stops := h.stops + 1)
    case NotifyAll => Woken(h).(stops := h.stops - 1)
    case Spurious => Woken(h)
    case Run => Loop(h)
    case Finish => Loop(h)
  }

  ghost predicate Inv(h: Handler) {
    && (h.worker.Asleep? && h.queue != [] ==> h.notifies > 0)
    && (h.worker.Asleep? && !h.running ==> h.stops > 0)
    && h.taken + h.queue == h.posted
    && (h.worker.Exited? ==> !h.running)
  }

  lemma TakeConserves(h: Handler)
    requires h.taken + h.queue == h.posted
    ensures Loop(h).taken + Loop(h).queue == h.posted
  {
    if h.queue != [] {
      assert h.taken + [h.queue[0]] + h.queue[1..] == h.taken + h.queue;
    }
  }

  lemma StepKeepsInv(h: Handler, e: Event)
    requires Inv(h) && Enabled(h, e)
    ensures Inv(Step(h, e))
  {
    TakeConserves(h);
    assert e.Post? ==> h.taken + (h.queue + [e.x]) == h.taken + h.queue + [e.x];
  }

  lemma InvKept()
    ensures Kept(Step, Inv)
  {
    forall h: Handler, e: Event | Inv(h) && Step.requires(h, e)
      ensures Inv(Step(h, e))
    {
      StepKeepsInv(h, e);
    }
  }

  /** In every interleaving the worker takes the items in the order they were posted, and never sleeps
      on one without the notification of a post on its way, nor through a stop without that of Stop; it
      leaves only after a stop. */
  lemma NoLostWakeup(es: seq<Event>)
    requires IsRun(Step, STARTED, es)
    ensures var h := End(Step, STARTED, es);
      && h.taken + h.queue == h.posted
      && (h.worker.Asleep? && h.queue != [] ==> h.notifies > 0)
      && (h.worker.Asleep? && !h.running ==> h.stops > 0)
      && (h.worker.Exited? ==> !h.running)
  {
    InvKept();
    KeepsInvariant(Step, Inv, STARTED, es);
  }

  /** The worker's own steps and the notifications on their way. */
  predicate Own(e: Event) {
    e.NotifyOne? || e.NotifyAll? || e.Run? || e.Finish?
  }

  predicate AllOwn(es: seq<Event>) {
    forall i | 0 <= i < |es| :: Own(es[i])
  }

  /** Without any help from outside, a running worker comes to the item at the front of the queue. */
  lemma WorkerTakesNext(h: Handler) returns (es: seq<Event>)
    requires Inv(h) && h.running && h.queue != []
    ensures AllOwn(es) && IsRun(Step, h, es)
    ensures var l := End(Step, h, es); l.worker == Busy(h.queue[0]) && l.taken == h.taken + [h.queue[0]] && l.queue == h.queue[1..]
  {
    match h.worker
    case Asleep =>
      es := [NotifyOne, Run];
      assert Enabled(h, NotifyOne) && Enabled(Step(h, NotifyOne), Run);
      Two(Step, h, NotifyOne, Run);
    case Awake =>
      es := [Run];
      assert Enabled(h, Run);
      One(Step, h, Run);
    case Busy(_) =>
      es := [Finish];
      assert Enabled(h, Finish);
      One(Step, h, Finish);
  }

  /** After a stop it comes to its end and leaves the rest of the queue. */
  lemma WorkerStops(h: Handler) returns (es: seq<Event>)
    requires Inv(h) && !h.running
    ensures AllOwn(es) && IsRun(Step, h, es)
    ensures var l := End(Step, h, es); l.worker.Exited? && l.taken == h.taken && l.queue == h.queue
  {
    match h.worker
    case Asleep =>
      es := [NotifyAll, Run];
      assert Enabled(h, NotifyAll) && Enabled(Step(h, NotifyAll), Run);
      Two(Step, h, NotifyAll, Run);
    case Awake =>
      es := [Run];
      assert Enabled(h, Run);
      One(Step, h, Run);
    case Busy(_) =>
      es := [Finish];
      assert Enabled(h, Finish);
      One(Step, h, Finish);
    case Exited => es := [];
  }

  /** Once stopped, no item is taken any more, whatever the threads do, and a worker that left is gone. */
  lemma {:induction false} StoppedForever(h: Handler, es: seq<Event>)
    requires !h.running && IsRun(Step, h, es)
    ensures !End(Step, h, es).running && End(Step, h, es).taken == h.taken
    ensures h.worker.Exited? ==> End(Step, h, es).worker.Exited?
    decreases |es|
  {
    if es != [] {
      StoppedForever(Step(h, es[0]), es[1..]);
    }
  }

  /** While the worker processes an item nothing happens to handler or queue: nobody posts, stops or takes. */
  lemma {:induction false} BusyUntilFinish(h: Handler, es: seq<Event>)
    requires h.worker.Busy? && IsRun(Step, h, es) && Finish !in es
    ensures var l := End(Step, h, es); l == h.(notifies := l.notifies, stops := l.stops)
    decreases |es|
  {
    if es != [] {
      assert es[0] != Finish;
      BusyUntilFinish(Step(h, es[0]), es[1..]);
    }
  }

  /** A wait that ends by itself changes nothing: the worker tests again and waits. */
  lemma SpuriousIsHarmless(h: Handler)
    requires h.running && h.queue == [] && h.worker.Asleep?
    ensures IsRun(Step, h, [Spurious, Run]) && End(Step, h, [Spurious, Run]) == h
  {
    assert Enabled(h, Spurious) && Enabled(Step(h, Spurious), Run);
    Two(Step, h, Spurious, Run);
  }

  function Times(e: Event, es: seq<Event>): nat {
    if es == [] then 0 else (if es[0] == e then 1 else 0) + Times(e, es[1..])
  }

  /** The posts of a run that find the queue empty. */
  ghost function Openings(h: Handler, es: seq<Event>): nat
    requires IsRun(Step, h, es)
    decreases |es|
  {
    if es == [] then 0
    else (if es[0].Post? && h.queue == [] then 1 else 0) + Openings(Step(h, es[0]), es[1..])
  }

  /** Notifications are neither lost nor made up: every post that finds the queue empty owes one, no other
      post does, and the handler is stopped once. */
  lemma {:induction false} NotificationsAreConserved(h: Handler, es: seq<Event>)
    requires IsRun(Step, h, es)
    ensures var l := End(Step, h, es);
      && l.notifies + Times(NotifyOne, es) == h.notifies + Openings(h, es)
      && l.stops + Times(NotifyAll, es) == h.stops + (if h.running && !l.running then 1 else 0)
      && Times(Stop, es) == (if h.running && !l.running then 1 else 0)
      && (l.running ==> h.running)
    decreases |es|
  {
    if es != [] {
      NotificationsAreConserved(Step(h, es[0]), es[1..]);
    }
  }

  // ---------- The handler object ----------

  /** The lock is taken where a method starts; the thread states are ghost. */
  class MsgHandler {
    var queue: seq<Item>
    var running: bool
    ghost var worker: Worker
    ghost var notifies: nat
    ghost var stops: nat
    ghost var posted: seq<Item>
    ghost var taken: seq<Item>

    constructor Start()
      ensures View() == STARTED
    {
      queue, running := [], true;
      worker, notifies, stops, posted, taken := Awake, 0, 0, [], [];
    }

    ghost function View(): Handler
      reads this
    {
      Handler(queue, running, worker, notifies, stops, posted, taken)
    }

    /** `notify` tells whether notify_one follows. */
    method PostMessage(x: Item) returns (notify: bool)
      requires LockFree(View())
      modifies this
      ensures View() == Step(old(View()), Post(x)) && notify == (notifies == old(notifies) + 1)
      ensures queue == old(queue) + [x] && (notify <==> old(queue) == [])
    {
      queue := queue + [x];
      posted := posted + [x];
      notify := |queue| == 1;
      if notify {
        notifies := notifies + 1;
      }
    }

    method Stop() returns (stopped: bool)
      requires LockFree(View())
      modifies this
      ensures stopped == old(running) && !running
      ensures View() == if stopped then Step(old(View()), Event.Stop) else old(View())
    {
      stopped := running;
      if stopped {
        running, stops := false, stops + 1;
      }
    }

    /** The worker with the lock, from its test of `running` to a wait, an item or its exit. */
    method TakeNext() returns (item: Option<Item>)
      requires worker.Awake? || worker.Busy?
      modifies this
      ensures View() == Step(old(View()), if old(worker).Awake? then Run else Finish)
      ensures item.Some? <==> worker.Busy?
      ensures item.Some? ==> worker.item == item.value
      ensures old(running) && old(queue) != [] ==> item == Some(old(queue)[0]) && queue == old(queue)[1..]
      ensures !old(running) || old(queue) == [] ==> item == None && queue == old(queue)
      ensures (worker.Exited? <==> !old(running)) && (worker.Asleep? <==> old(running) && old(queue) == [])
    {
      if !running {
        worker := Exited;
        return None;
      }
      if queue == [] {
        worker := Asleep;
        return None;
      }
      item := Some(queue[0]);
      worker, taken := Busy(queue[0]), taken + [queue[0]];
      queue := queue[1..];
    }
  }
}
