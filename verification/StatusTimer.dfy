/** The online-status uploader with the two threads that use it. The timer thread, the only one of its
    io_context, runs the completions of the task one after the other: the callback is a whole upload, then
    the task is re-armed if its automatic reset is set. The worker of the message handler asks for a
    removal and calls UpdateNow: an upload attempt, then Cancel and Activate. An attempt is skipped when
    the other thread is inside an upload. */
module StatusTimer {
  import opened Basics
  import opened Runs
  import T = Timers
  import O = OnlineStatus

  datatype TimerThread =
    | Waiting
    | Uploading   // inside the upload its callback claimed
    | Ending      // the callback has returned, `auto_reset_` not yet read
    | Arming      // it was read as set

  datatype WorkerThread =
    | Free
    | Asked       // a removal was requested, UpdateNow follows
    | Forcing     // inside the upload its UpdateNow claimed
    | Cancelling
    | Activating

  datatype Both = Both(task: T.Task, up: O.Uploader, timer: TimerThread, worker: WorkerThread)

  datatype Event =
    | Expire
    | Callback              // the timer thread starts the next completion, up to the test of the flag
    | TimerUpload(u: O.Event)
    | TestReset
    | Arm
    | Add(uid: u64)
    | Ask(uid: u64)         // the worker's RemoveSession
    | Force                 // the test of the flag in UpdateNow
    | WorkerUpload(u: O.Event)
    | Cancel
    | Activate

  const START := Both(T.Task(true, true, 1, 0, 0), O.START, Waiting, Free)

  predicate InUpload(b: Both, u: O.Event) {
    (u.Load? || u.Exec? || u.Release?) && O.Enabled(b.up, u)
  }

  predicate Enabled(b: Both, e: Event) {
    match e
    case Expire => T.Enabled(b.task, T.Expire)
    case Callback => b.timer.Waiting? && b.task.queued > 0
    case TimerUpload(u) => b.timer.Uploading? && InUpload(b, u)
    case TestReset => b.timer.Ending?
    case Arm => b.timer.Arming?
    case Add(_) => b.worker.Free?
    case Ask(_) => b.worker.Free?
    case Force => b.worker.Asked?
    case WorkerUpload(u) => b.worker.Forcing? && InUpload(b, u)
    case Cancel => b.worker.Cancelling?
    case Activate => b.worker.Activating?
  }

  function Step(b: Both, e: Event): Both
    requires Enabled(b, e)
  {
    match e
    case Expire => b.(task := T.Step(b.task, T.Expire))
    case Callback =>
      var t := b.task.(queued := b.task.queued - 1);
      if !b.task.active then b.(task := t)
      else b.(task := t.(calls := t.calls + 1), up := O.Step(b.up, O.Attempt),
              timer := if b.up.inProgress then Ending else Uploading)
    case TimerUpload(u) => b.(up := O.Step(b.up, u), timer := if u.Release? then Ending else Uploading)
    case TestReset => b.(timer := if b.task.autoReset then Arming else Waiting)
    case Arm => b.(task := T.Step(b.task, T.Activate), timer := Waiting)
    case Add(x) => b.(up := O.Step(b.up, O.AddSession(x)))
    case Ask(x) => b.(up := O.Step(b.up, O.RemoveSession(x)), worker := Asked)
    case Force => b.(up := O.Step(b.up, O.Attempt), worker := if b.up.inProgress then Cancelling else Forcing)
    case WorkerUpload(u) => b.(up := O.Step(b.up, u), worker := if u.Release? then Cancelling else Forcing)
    case Cancel => b.(task := T.Step(b.task, T.Cancel), worker := Activating)
    case Activate => b.(task := T.Step(b.task, T.Activate), worker := Free)
  }

  /** Callbacks still to come. */
  function Left(b: Both): nat {
    b.task.waits + b.task.queued
  }

  /** The upload in progress belongs to one of the threads; once the worker has moved the sets out, no
      request is pending until it is back; the task is inactive only between Cancel and Activate. */
  ghost predicate Owned(b: Both) {
    && (b.up.upload.Idle? <==> !b.timer.Uploading? && !b.worker.Forcing?)
    && !(b.timer.Uploading? && b.worker.Forcing?)
    && (b.worker.Forcing? && !b.up.upload.Claimed? ==> b.up.removal == {})
    && (!b.task.active ==> b.worker.Activating?)
  }

  /** A pending request has somebody to take it: an upload that has not yet moved the sets out, the rest of
      an UpdateNow, or a callback of the active task. */
  ghost predicate Carried(b: Both) {
    b.up.removal != {} ==>
      b.up.upload.Claimed? || b.worker.Asked? || b.worker.Cancelling? || b.worker.Activating? || (b.task.active && Left(b) > 0)
  }

  /** As long as its automatic reset is set, the task is active and a callback is to come or under way. */
  ghost predicate Periodic(b: Both) {
    b.task.autoReset ==> b.task.active && (!b.timer.Waiting? || Left(b) > 0)
  }

  ghost predicate Inv(b: Both) {
    O.Inv(b.up) && Owned(b) && Carried(b) && Periodic(b)
  }

  /** What a step is for the uploader alone. */
  function Upload(b: Both, e: Event): Option<O.Event> {
    match e
    case Callback => if b.task.active then Some(O.Attempt) else None
    case TimerUpload(u) => Some(u)
    case Add(x) => Some(O.AddSession(x))
    case Ask(x) => Some(O.RemoveSession(x))
    case Force => Some(O.Attempt)
    case WorkerUpload(u) => Some(u)
    case _ => None
  }

  lemma UploadStep(b: Both, e: Event)
    requires Enabled(b, e)
    ensures match Upload(b, e)
      case None => Step(b, e).up == b.up
      case Some(u) => O.Enabled(b.up, u) && Step(b, e).up == O.Step(b.up, u)
  {
  }

  lemma StepKeepsInv(b: Both, e: Event)
    requires Inv(b) && Enabled(b, e)
    ensures Inv(Step(b, e))
  {
    UploadStep(b, e);
    if Upload(b, e).Some? {
      O.StepKeepsInv(b.up, Upload(b, e).value);
    }
  }

  lemma InvKept()
    ensures Kept(Step, Inv)
  {
    forall b: Both, e: Event | Inv(b) && Step.requires(b, e)
      ensures Inv(Step(b, e))
    {
      StepKeepsInv(b, e);
    }
  }

  /** Up to the first UpdateNow the uploads never stop: whenever the timer thread waits, a callback is to
      come. */
  lemma UploadsStayPeriodic(es: seq<Event>)
    requires IsRun(Step, START, es) && forall i | 0 <= i < |es| :: !es[i].Ask?
    ensures var b := End(Step, START, es); b.task.autoReset && b.task.active && (b.timer.Waiting? ==> Left(b) > 0)
  {
    InvKept();
    KeepsInvariant(Step, Inv, START, es);
    NoAskNoCancel(START, es);
  }

  lemma {:induction false} NoAskNoCancel(b: Both, es: seq<Event>)
    requires IsRun(Step, b, es) && b.worker.Free? && b.task.autoReset && forall i | 0 <= i < |es| :: !es[i].Ask?
    ensures End(Step, b, es).worker.Free? && End(Step, b, es).task.autoReset
    decreases |es|
  {
    if es != [] {
      assert !es[0].Ask?;
      NoAskNoCancel(Step(b, es[0]), es[1..]);
    }
  }

  /** One pass of the timer thread while its callback claims the upload. */
  lemma UploadPass(b: Both) returns (es: seq<Event>)
    requires b.timer.Waiting? && b.task.active && b.task.autoReset && b.task.queued > 0
    requires !b.up.inProgress
    ensures IsRun(Step, b, es) && forall i | 0 <= i < |es| :: OfTimer(es[i])
    ensures var l := End(Step, b, es);
      && l.timer.Waiting? && l.worker == b.worker && l.task == T.Task(true, true, 1, b.task.queued - 1, b.task.calls + 1)
      && l.up.issued == b.up.issued + [O.Batch(b.up.sess, b.up.removal)] && l.up.sess == {} && l.up.removal == {}
  {
    var b1 := Step(b, Callback);
    var b2 := Step(b1, TimerUpload(O.Load));
    var b3 := Step(b2, TimerUpload(O.Exec));
    var b4 := Step(b3, TimerUpload(O.Release));
    Four(Step, b, Callback, b1, TimerUpload(O.Load), b2, TimerUpload(O.Exec), b3, TimerUpload(O.Release), b4);
    assert Enabled(b4, TestReset) && Enabled(Step(b4, TestReset), Arm);
    Two(Step, b4, TestReset, Arm);
    es := [Callback, TimerUpload(O.Load), TimerUpload(O.Exec), TimerUpload(O.Release)] + [TestReset, Arm];
    Concat(Step, b, [Callback, TimerUpload(O.Load), TimerUpload(O.Exec), TimerUpload(O.Release)], [TestReset, Arm]);
  }

  /** What timer and timer thread do by themselves. */
  predicate OfTimer(e: Event) {
    e.Expire? || e.Callback? || e.TimerUpload? || e.TestReset? || e.Arm?
  }

  /** One period: as long as the automatic reset is set, the timer thread alone issues what is pending as
      one batch and arms the task again. */
  lemma PeriodGoesOn(b: Both) returns (es: seq<Event>)
    requires Inv(b) && b.task.autoReset && b.timer.Waiting? && b.up.upload.Idle?
    ensures IsRun(Step, b, es) && forall i | 0 <= i < |es| :: OfTimer(es[i])
    ensures var l := End(Step, b, es);
      && l.timer.Waiting? && l.task.autoReset && l.task.active && l.task.waits == 1 && l.task.calls == b.task.calls + 1
      && l.up.issued == b.up.issued + [O.Batch(b.up.sess, b.up.removal)] && l.up.sess == {} && l.up.removal == {}
  {
    if b.task.queued > 0 {
      es := UploadPass(b);
    } else {
      assert Enabled(b, Expire);
      One(Step, b, Expire);
      var fs := UploadPass(Step(b, Expire));
      Concat(Step, b, [Expire], fs);
      es := [Expire] + fs;
    }
  }

  /** The first half of an UpdateNow that finds no upload in progress. */
  lemma Forced(b: Both, x: u64) returns (w: Both)
    requires b.worker.Free? && !b.up.inProgress
    ensures var es := [Ask(x), Force, WorkerUpload(O.Load), WorkerUpload(O.Exec)]; IsRun(Step, b, es) && End(Step, b, es) == w
    ensures w.worker.Forcing? && w.up.upload.Executed? && w.task == b.task && w.up.removal == {}
    ensures w.up.issued == b.up.issued + [O.Batch(b.up.sess - {x}, b.up.removal + {x})]
  {
    var b1 := Step(b, Ask(x));
    var b2 := Step(b1, Force);
    var b3 := Step(b2, WorkerUpload(O.Load));
    w := Step(b3, WorkerUpload(O.Exec));
    Four(Step, b, Ask(x), b1, Force, b2, WorkerUpload(O.Load), b3, WorkerUpload(O.Exec), w);
  }

  /** UpdateNow, when no upload is in progress: the request goes out at once with all that is pending, and
      one callback of a task without automatic reset is left. */
  lemma UpdateNowIssues(b: Both, x: u64)
    requires Inv(b) && b.worker.Free? && b.up.upload.Idle?
    ensures var es := [Ask(x), Force, WorkerUpload(O.Load), WorkerUpload(O.Exec)] + [WorkerUpload(O.Release), Cancel] + [Activate];
      IsRun(Step, b, es) && var l := End(Step, b, es);
      && l.up.issued == b.up.issued + [O.Batch(b.up.sess - {x}, b.up.removal + {x})] && l.up.removal == {}
      && l.worker.Free? && l.up.upload.Idle? && !l.task.autoReset && l.task.active && l.task.waits == 1
  {
    var b4 := Forced(b, x);
    assert Enabled(b4, WorkerUpload(O.Release)) && Enabled(Step(b4, WorkerUpload(O.Release)), Cancel);
    Two(Step, b4, WorkerUpload(O.Release), Cancel);
    var b6 := Step(Step(b4, WorkerUpload(O.Release)), Cancel);
    assert Enabled(b6, Activate);
    One(Step, b6, Activate);
    var first := [Ask(x), Force, WorkerUpload(O.Load), WorkerUpload(O.Exec)];
    Concat(Step, b, first, [WorkerUpload(O.Release), Cancel]);
    Concat(Step, b, first + [WorkerUpload(O.Release), Cancel], [Activate]);
  }

  function Times(e: Event, es: seq<Event>): nat {
    if es == [] then 0 else (if es[0] == e then 1 else 0) + Times(e, es[1..])
  }

  /** Every expired wait is a completion that the timer thread handles once, with one callback at most. */
  lemma {:induction false} CompletionsAreConserved(b: Both, es: seq<Event>)
    requires b.task.waits <= 1 && IsRun(Step, b, es)
    ensures var l := End(Step, b, es);
      && l.task.waits <= 1 && l.task.queued + Times(Callback, es) == b.task.queued + Times(Expire, es)
      && l.task.calls <= b.task.calls + Times(Callback, es)
    decreases |es|
  {
    if es != [] {
      CompletionsAreConserved(Step(b, es[0]), es[1..]);
    }
  }

  /** Callbacks still to come, with the one that a timer thread will arm that read the reset as set. */
  function Owing(b: Both): nat {
    Left(b) + if b.timer.Arming? then 1 else 0
  }

  /** Without the automatic reset, for ever, and whatever the timer thread had read: every callback is one
      that was to come or paid for by the Activate of an UpdateNow. */
  lemma {:induction false} CallsArePaidFor(b: Both, es: seq<Event>)
    requires !b.task.autoReset && IsRun(Step, b, es)
    ensures var l := End(Step, b, es);
      !l.task.autoReset && l.task.calls + Owing(l) <= b.task.calls + Owing(b) + Times(Activate, es)
    decreases |es|
  {
    if es != [] {
      CallsArePaidFor(Step(b, es[0]), es[1..]);
    }
  }

  /** In every reachable state a removal request is issued, or in the upload in progress, or pending with
      somebody still to take it. So when the worker is free, no upload is in progress and no callback is
      left, every request has been issued, although UpdateNow skips uploads and ends the period. */
  lemma NoRequestIsLeft(es: seq<Event>)
    requires IsRun(Step, START, es)
    ensures var b := End(Step, START, es);
      && Inv(b)
      && (b.worker.Free? && b.up.upload.Idle? && Left(b) == 0 ==>
            b.up.removal == {} && forall k: nat | k < |b.up.log| :: O.Issued(b.up, k))
  {
    InvKept();
    KeepsInvariant(Step, Inv, START, es);
    var b := End(Step, START, es);
    forall k: nat | k < |b.up.log| && b.worker.Free? && b.up.upload.Idle? && Left(b) == 0
      ensures O.Issued(b.up, k)
    {
      assert O.OnItsWay(b.up, k);
    }
  }

  ghost predicate Pending(b: Both, k: nat) {
    Inv(b) && k < |b.up.log| && b.up.fate[k].Pending?
  }

  lemma StepOfRequest(b: Both, e: Event, k: nat)
    requires Inv(b) && k < |b.up.log| && Enabled(b, e)
    ensures var c := Step(b, e);
      && Inv(c) && k < |c.up.log| && c.up.log[k] == b.up.log[k]
      && (b.up.fate[k].InBatch? ==> c.up.fate[k] == b.up.fate[k])
      && (Pending(c, k) && b.up.upload.Claimed? ==> c.up.upload.Claimed?)
  {
    StepKeepsInv(b, e);
    UploadStep(b, e);
  }

  /** A callback that starts while a request is pending finds no upload in progress, or one that has not
      yet moved the sets out: it never comes in vain. */
  lemma CallbackIsNeverInVain(b: Both, k: nat)
    requires Pending(b, k) && b.task.active && Enabled(b, Callback)
    ensures Step(b, Callback).up.upload.Claimed? && Pending(Step(b, Callback), k)
  {
    assert O.OnItsWay(b.up, k);
    StepKeepsInv(b, Callback);
  }

  lemma {:induction false} TakenStays(b: Both, es: seq<Event>, k: nat)
    requires Inv(b) && k < |b.up.log| && b.up.fate[k].InBatch? && IsRun(Step, b, es)
    ensures var c := End(Step, b, es); Inv(c) && k < |c.up.log| && c.up.fate[k] == b.up.fate[k]
    decreases |es|
  {
    if es != [] {
      StepOfRequest(b, es[0], k);
      TakenStays(Step(b, es[0]), es[1..], k);
    }
  }

  /** An upload that has not yet moved the sets out takes the request before it ends. */
  lemma {:induction false} ClaimedTakes(b: Both, es: seq<Event>, k: nat)
    requires Pending(b, k) && b.up.upload.Claimed? && IsRun(Step, b, es) && End(Step, b, es).up.upload.Idle?
    ensures var c := End(Step, b, es); Inv(c) && k < |c.up.log| && c.up.fate[k].InBatch?
    decreases |es|
  {
    if es != [] {
      StepOfRequest(b, es[0], k);
      if Pending(Step(b, es[0]), k) {
        ClaimedTakes(Step(b, es[0]), es[1..], k);
      } else {
        TakenStays(Step(b, es[0]), es[1..], k);
      }
    }
  }

  /** The callback of the active task starts. */
  predicate Starts(b: Both, e: Event) {
    e.Callback? && b.task.active
  }

  lemma {:induction false} CallbackTakes(b: Both, es: seq<Event>, k: nat)
    requires Pending(b, k) && IsRun(Step, b, es) && !Never(Step, Starts, b, es) && End(Step, b, es).up.upload.Idle?
    ensures var c := End(Step, b, es); Inv(c) && k < |c.up.log| && c.up.fate[k].InBatch?
    decreases |es|
  {
    var c := Step(b, es[0]);
    StepOfRequest(b, es[0], k);
    if !Pending(c, k) {
      TakenStays(c, es[1..], k);
    } else if Starts(b, es[0]) {
      CallbackIsNeverInVain(b, k);
      ClaimedTakes(c, es[1..], k);
    } else {
      CallbackTakes(c, es[1..], k);
    }
  }

  /** A request that UpdateNow had to skip is in an issued batch once the callback it left has run and no
      upload is in progress, whatever requests and further calls of UpdateNow come in between. */
  lemma SkippedRequestIsIssued(b: Both, es: seq<Event>, k: nat)
    requires Pending(b, k) && IsRun(Step, b, es) && !Never(Step, Starts, b, es) && End(Step, b, es).up.upload.Idle?
    ensures var c := End(Step, b, es).up; O.Requested(c, k) && O.Issued(c, k)
  {
    CallbackTakes(b, es, k);
    assert O.OnItsWay(End(Step, b, es).up, k);
  }

  /** UpdateNow does skip: the worker's attempt comes while the timer thread has moved the sets out. The
      request is then pending, and one callback of a task that is no longer periodic is left to take it. */
  lemma UpdateNowCanSkip(x: u64)
    ensures var es := [Expire, Callback, TimerUpload(O.Load), Ask(x)] + [Force, Cancel] + [Activate];
      IsRun(Step, START, es)
      && var b := End(Step, START, es); b.up.removal == {x} && b.worker.Free? && !b.task.autoReset && Left(b) == 1
  {
    var b1 := Step(START, Expire);
    var b2 := Step(b1, Callback);
    var b3 := Step(b2, TimerUpload(O.Load));
    var b4 := Step(b3, Ask(x));
    Four(Step, START, Expire, b1, Callback, b2, TimerUpload(O.Load), b3, Ask(x), b4);
    assert Enabled(b4, Force) && Enabled(Step(b4, Force), Cancel);
    Two(Step, b4, Force, Cancel);
    var b6 := Step(Step(b4, Force), Cancel);
    assert Enabled(b6, Activate);
    One(Step, b6, Activate);
    Concat(Step, START, [Expire, Callback, TimerUpload(O.Load), Ask(x)], [Force, Cancel]);
    Concat(Step, START, [Expire, Callback, TimerUpload(O.Load), Ask(x)] + [Force, Cancel], [Activate]);
  }
}
