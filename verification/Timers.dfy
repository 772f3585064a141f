/** The timer task (timer.cpp): a wait that expires queues a completion, and the completion handler,
    taken as one atomic step, runs the callback and re-arms the task. */
module Timers {
  import opened Runs

  /** `waits` are outstanding waits, `queued` completions without error whose handler has not run yet,
      `calls` the callbacks run so far. Cancelled waits complete with an error and do nothing. */
  datatype Task = Task(autoReset: bool, active: bool, waits: nat, queued: nat, calls: nat)

  datatype Event = Activate | Cancel | Expire | Fire

  predicate Enabled(t: Task, e: Event) {
    match e
    case Expire => t.waits > 0
    case Fire => t.queued > 0
    case _ => true
  }

  /** Setting a new expiry cancels the outstanding wait, but not a completion already queued. */
  function Activated(t: Task): Task {
    t.(active := true, waits := 1)
  }

  function Step(t: Task, e: Event): Task
    requires Enabled(t, e)
  {
    match e
    case Activate => Activated(t)
    case Cancel => t.(autoReset := false, active := false, waits := 0)
    case Expire => t.(waits := 0, queued := t.queued + t.waits)
    case Fire =>
      var u := t.(queued := t.queued - 1);
      if !t.active then u
      else
        var c := u.(calls := t.calls + 1);
        if t.autoReset then Activated(c) else c
  }

  function Activations(es: seq<Event>): nat {
    if es == [] then 0 else (if es[0].Activate? then 1 else 0) + Activations(es[1..])
  }

  lemma {:induction false} InactiveIsQuiet(t: Task, es: seq<Event>)
    requires !t.active && IsRun(Step, t, es) && Activations(es) == 0
    ensures End(Step, t, es).calls == t.calls && !End(Step, t, es).active
    decreases |es|
  {
    if es != [] {
      InactiveIsQuiet(Step(t, es[0]), es[1..]);
    }
  }

  /** Between Cancel and the next Activate no callback runs, not even of a completion already queued. */
  lemma QuietWhileCancelled(t: Task, es: seq<Event>)
    requires IsRun(Step, Step(t, Cancel), es) && Activations(es) == 0
    ensures End(Step, Step(t, Cancel), es).calls == t.calls
  {
    InactiveIsQuiet(Step(t, Cancel), es);
  }

  /** Without the automatic reset every callback is paid for by an Activate or by something that was
      already under way. */
  lemma {:induction false} CallsArePaidFor(t: Task, es: seq<Event>)
    requires !t.autoReset && IsRun(Step, t, es)
    ensures var l := End(Step, t, es);
      !l.autoReset && l.calls + l.queued + l.waits <= t.calls + t.queued + t.waits + Activations(es)
    decreases |es|
  {
    if es != [] {
      CallsArePaidFor(Step(t, es[0]), es[1..]);
    }
  }

  /** After any Cancel, for ever: at most the completions already queued plus later Activate calls. */
  lemma CancelledForGood(t: Task, es: seq<Event>)
    requires IsRun(Step, Step(t, Cancel), es)
    ensures End(Step, Step(t, Cancel), es).calls <= t.calls + t.queued + Activations(es)
  {
    CallsArePaidFor(Step(t, Cancel), es);
  }

  /** UpdateNow cancels and activates: of a periodic task one more callback is left, and that one comes
      when the wait expires. */
  lemma UpdateNowEndsPeriod(t: Task, es: seq<Event>)
    requires IsRun(Step, Step(Step(t, Cancel), Activate), es)
    ensures End(Step, Step(Step(t, Cancel), Activate), es).calls <= t.calls + t.queued + 1 + Activations(es)
    ensures var a := Step(Step(t, Cancel), Activate);
      IsRun(Step, a, [Expire, Fire]) && End(Step, a, [Expire, Fire]).calls == t.calls + 1
  {
    var a := Step(Step(t, Cancel), Activate);
    CallsArePaidFor(a, es);
    assert Enabled(a, Expire) && Enabled(Step(a, Expire), Fire);
    Two(Step, a, Expire, Fire);
  }

  lemma {:induction false} Repeats(t: Task, n: nat) returns (es: seq<Event>)
    requires t.autoReset && t.active && t.waits > 0
    ensures IsRun(Step, t, es) && Activations(es) == 0 && End(Step, t, es).calls >= t.calls + n
    decreases n
  {
    es := [];
    if n > 0 {
      assert Enabled(t, Expire) && Enabled(Step(t, Expire), Fire);
      Two(Step, t, Expire, Fire);
      var fs := Repeats(Step(Step(t, Expire), Fire), n - 1);
      Concat(Step, t, [Expire, Fire], fs);
      es := [Expire, Fire] + fs;
      assert es[1..] == [Fire] + fs && es[1..][1..] == fs;
    }
  }

  /** The task runs by itself, without any further Activate, at least n times more. */
  ghost predicate CanRepeat(t: Task, n: nat) {
    exists es :: IsRun(Step, t, es) && Activations(es) == 0 && End(Step, t, es).calls >= t.calls + n
  }

  /** An armed task is periodic if and only if its automatic reset is set: Cancel clears it and nothing
      sets it again. */
  lemma PeriodicExactly(t: Task)
    requires t.active && t.waits > 0
    ensures (forall n: nat :: CanRepeat(t, n)) <==> t.autoReset
  {
    if t.autoReset {
      forall n: nat
        ensures CanRepeat(t, n)
      {
        var es := Repeats(t, n);
      }
    } else {
      var n := t.queued + t.waits + 1;
      if CanRepeat(t, n) {
        var es :| IsRun(Step, t, es) && Activations(es) == 0 && End(Step, t, es).calls >= t.calls + n;
        CallsArePaidFor(t, es);
        assert false;
      }
    }
  }

  /** The task object; the fields the io_context keeps for it are part of it. */
  class TimedTask {
    var autoReset: bool
    var active: bool
    var waits: nat
    var queued: nat
    var calls: nat

    constructor SetTimer(autoReset: bool)
      ensures View() == Task(autoReset, false, 0, 0, 0)
    {
      this.autoReset, active, waits, queued, calls := autoReset, false, 0, 0, 0;
    }

    function View(): Task
      reads this
    {
      Task(autoReset, active, waits, queued, calls)
    }

    method Activate()
      modifies this
      ensures View() == Step(old(View()), Event.Activate)
    {
      waits := 0;
      active := true;
      waits := waits + 1;
    }

    method Cancel()
      modifies this
      ensures View() == Step(old(View()), Event.Cancel)
    {
      autoReset, active := false, false;
      waits := 0;
    }

    method OnExpired()
      requires queued > 0
      modifies this
      ensures View() == Step(old(View()), Fire)
    {
      queued := queued - 1;
      if active {
        calls := calls + 1;
        if autoReset {
          Activate();
        }
      }
    }
  }
}
