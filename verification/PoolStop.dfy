/** Stopping the connection pool while threads wait for a connection (gateway_dbm.cpp). A thread in
    GetIdleConn holds the latch from its test of the idle queue and of `running_` to its wait; Stop clears
    `running_` and notifies without the latch, so it can fall between the two. */
module PoolStop {
  import opened Basics
  import opened Runs

  /** The threads about to wait (one at most: it has the latch) and asleep; `owed` is Stop's notify. */
  datatype Gate = Gate(running: bool, owed: bool, deciding: Option<nat>, asleep: set<nat>)

  datatype Event =
    | Test(t: nat)   // nothing idle and the pool full: goes on to wait only while running
    | Wait
    | Wake(t: nat)   // by a returned connection, or spurious
    | Stop
    | NotifyAll

  const RUNNING := Gate(true, false, None, {})

  predicate Enabled(g: Gate, e: Event) {
    match e
    case Test(t) => g.deciding.None? && t !in g.asleep
    case Wait => g.deciding.Some?
    case Wake(t) => t in g.asleep
    case Stop => g.running
    case NotifyAll => g.owed
  }

  function Step(g: Gate, e: Event): Gate
    requires Enabled(g, e)
  {
    match e
    case Test(t) => if g.running then g.(deciding := Some(t)) else g
    case Wait => g.(deciding := None, asleep := g.asleep + {g.deciding.value})
    case Wake(t) => g.(asleep := g.asleep - {t})
    case Stop => g.(running := false, owed := true)
    case NotifyAll => g.(owed := false, asleep := {})
  }

  predicate Inv(g: Gate) {
    (g.running ==> !g.owed) && (g.deciding.Some? ==> g.deciding.value !in g.asleep)
  }

  /** The pool is stopped, nobody owes a notification, and some thread waits or is about to. */
  predicate Lost(g: Gate) {
    !g.running && !g.owed && (g.asleep != {} || g.deciding.Some?)
  }

  /** The notification comes between a thread's test and its wait. */
  predicate Misses(g: Gate, e: Event) {
    e.NotifyAll? && g.deciding.Some?
  }

  lemma LostStep(g: Gate, e: Event)
    requires Inv(g) && Enabled(g, e)
    ensures Inv(Step(g, e)) && (!Lost(g) ==> (Lost(Step(g, e)) <==> Misses(g, e)))
  {
  }

  /** Along a run Stop leaves no thread waiting if and only if its notification never falls in that gap. */
  lemma StopWakesExactly(g: Gate, es: seq<Event>)
    requires Inv(g) && !Lost(g) && IsRun(Step, g, es)
    ensures Avoids(Step, Lost, g, es) <==> Never(Step, Misses, g, es)
  {
    forall h: Gate, e: Event | Inv(h) && Step.requires(h, e)
      ensures Inv(Step(h, e)) && (!Lost(h) ==> (Lost(Step(h, e)) <==> Misses(h, e)))
    {
      LostStep(h, e);
    }
    AvoidsExactly(Step, Inv, Lost, Misses, g, es);
  }

  /** The threads that wait or are about to. */
  function Waiters(g: Gate): set<nat> {
    g.asleep + if g.deciding.Some? then {g.deciding.value} else {}
  }

  /** The threads that a returned connection, or their wait itself, wakes in a run. */
  function Awakened(es: seq<Event>): set<nat> {
    if es == [] then {} else (if es[0].Wake? then {es[0].t} else {}) + Awakened(es[1..])
  }

  /** The threads so left wait until a connection comes back or the wait ends by itself: exactly those woken
      that way leave, and no other thread joins them. */
  lemma {:induction false} LostUntilWake(g: Gate, es: seq<Event>)
    requires Inv(g) && !g.running && !g.owed && IsRun(Step, g, es)
    ensures var l := End(Step, g, es); !l.running && !l.owed
    ensures Waiters(End(Step, g, es)) == Waiters(g) - Awakened(es)
    decreases |es|
  {
    if es != [] {
      var h := Step(g, es[0]);
      LostUntilWake(h, es[1..]);
      assert Waiters(h) == Waiters(g) - if es[0].Wake? then {es[0].t} else {};
    }
  }

  lemma StopCanBeMissed(t: nat)
    ensures var es := [Test(t), Stop, NotifyAll, Wait];
      IsRun(Step, RUNNING, es) && Lost(End(Step, RUNNING, es)) && End(Step, RUNNING, es) == Gate(false, false, None, {t})
  {
    var g1 := Step(RUNNING, Test(t));
    var g2 := Step(g1, Stop);
    var g3 := Step(g2, NotifyAll);
    Four(Step, RUNNING, Test(t), g1, Stop, g2, NotifyAll, g3, Wait, Step(g3, Wait));
  }
}
