/** The online-status uploader (online_status_upload.hpp). An upload claims the in-progress flag,
    moves both sets out under the lock, executes one pipeline and releases the flag; adds, removals
    and further upload attempts may come at any point between. */
module OnlineStatus {
  import opened Basics
  import opened Runs

  datatype Batch = Batch(sending: set<u64>, erasing: set<u64>)

  datatype Upload = Idle | Claimed | Loaded(batch: Batch) | Executed

  /** Where a removal request has got to: still pending, or in the batch with that number. */
  datatype Fate = Pending | InBatch(b: nat)

  /** Where an add has got to: waiting, overtaken by a removal of its uid, or in the batch with that number. */
  datatype AddFate = Waiting | Dropped | Sent(b: nat)

  /** `log` and `fate` record every removal request and what became of it, `adds` and `addFate` every add;
      `issued` are the batches executed. */
  datatype Uploader = Uploader(
    sess: set<u64>, removal: set<u64>, inProgress: bool, upload: Upload,
    issued: seq<Batch>, log: seq<u64>, fate: seq<Fate>, adds: seq<u64>, addFate: seq<AddFate>)

  datatype Event =
    | AddSession(uid: u64)
    | RemoveSession(uid: u64)
    | Attempt   // UploadImpl, timed or forced, up to its test of the flag
    | Load      // both sets moved out
    | Exec
    | Release

  const START := Uploader({}, {}, false, Idle, [], [], [], [], [])

  predicate Enabled(u: Uploader, e: Event) {
    match e
    case Load => u.upload.Claimed?
    case Exec => u.upload.Loaded?
    case Release => u.upload.Executed?
    case _ => true
  }

  /** The number of the batch being put together. */
  function Current(u: Uploader): nat {
    |u.issued|
  }

  function Assigned(fate: seq<Fate>, b: nat): (r: seq<Fate>)
    ensures |r| == |fate| && forall k | 0 <= k < |fate| :: r[k] == if fate[k].Pending? then InBatch(b) else fate[k]
  {
    seq(|fate|, k requires 0 <= k < |fate| => if fate[k].Pending? then InBatch(b) else fate[k])
  }

  /** The adds of x that wait are overtaken. */
  function Overtaken(adds: seq<u64>, fate: seq<AddFate>, x: u64): (r: seq<AddFate>)
    ensures |r| == |fate|
    ensures forall k | 0 <= k < |fate| :: r[k] == if k < |adds| && adds[k] == x && fate[k].Waiting? then Dropped else fate[k]
  {
    seq(|fate|, k requires 0 <= k < |fate| => if k < |adds| && adds[k] == x && fate[k].Waiting? then Dropped else fate[k])
  }

  /** All that wait go into batch b. */
  function Taken(fate: seq<AddFate>, b: nat): (r: seq<AddFate>)
    ensures |r| == |fate| && forall k | 0 <= k < |fate| :: r[k] == if fate[k].Waiting? then Sent(b) else fate[k]
  {
    seq(|fate|, k requires 0 <= k < |fate| => if fate[k].Waiting? then Sent(b) else fate[k])
  }

  function Step(u: Uploader, e: Event): Uploader
    requires Enabled(u, e)
  {
    match e
    case AddSession(x) => u.(sess := u.sess + {x}, adds := u.adds + [x], addFate := u.addFate + [Waiting])
    case RemoveSession(x) =>
      u.(sess := u.sess - {x}, removal := u.removal + {x}, log := u.log + [x], fate := u.fate + [Pending],
         addFate := Overtaken(u.adds, u.addFate, x))
    case Attempt => if u.inProgress then u else u.(inProgress := true, upload := Claimed)
    case Load =>
      u.(sess := {}, removal := {}, upload := Loaded(Batch(u.sess, u.removal)),
         fate := Assigned(u.fate, Current(u)), addFate := Taken(u.addFate, Current(u)))
    case Exec => u.(upload := Executed, issued := u.issued + [u.upload.batch])
    case Release => u.(inProgress := false, upload := Idle)
  }

  /** Request k is on its way: in the pending set, in the batch in hand, or in the issued batch it was
      assigned to. */
  predicate OnItsWay(u: Uploader, k: nat)
    requires k < |u.log| && |u.fate| == |u.log|
  {
    match u.fate[k]
    case Pending => u.log[k] in u.removal
    case InBatch(b) =>
      (b < |u.issued| && u.log[k] in u.issued[b].erasing)
      || (b == |u.issued| && u.upload.Loaded? && u.log[k] in u.upload.batch.erasing)
  }

  /** Somebody asked for the removal of x and the request has this fate. */
  ghost predicate Asked(u: Uploader, x: u64, f: Fate) {
    exists k: nat :: k < |u.log| && k < |u.fate| && u.log[k] == x && u.fate[k] == f
  }

  ghost predicate Inv(u: Uploader) {
    && |u.fate| == |u.log|
    && (u.inProgress <==> !u.upload.Idle?)
    && (forall k: nat | k < |u.log| :: OnItsWay(u, k))
    && (forall x: u64 | x in u.removal :: Asked(u, x, Pending))
    && (u.upload.Loaded? ==> forall x: u64 | x in u.upload.batch.erasing :: Asked(u, x, InBatch(Current(u))))
    && forall b: nat | b < |u.issued| :: forall x: u64 | x in u.issued[b].erasing :: Asked(u, x, InBatch(b))
  }

  lemma AskedStays(u: Uploader, w: Uploader, x: u64, f: Fate, g: Fate)
    requires Asked(u, x, f) && |u.fate| == |u.log| <= |w.log| == |w.fate|
    requires forall k: nat | k < |u.log| :: w.log[k] == u.log[k] && (u.fate[k] == f ==> w.fate[k] == g)
    ensures Asked(w, x, g)
  {
    var k: nat :| k < |u.log| && k < |u.fate| && u.log[k] == x && u.fate[k] == f;
    assert w.log[k] == x && w.fate[k] == g;
  }

  lemma StepKeepsInv(u: Uploader, e: Event)
    requires Inv(u) && Enabled(u, e)
    ensures Inv(Step(u, e))
  {
    var w := Step(u, e);
    forall k: nat | k < |w.log|
      ensures OnItsWay(w, k)
    {
      assert k < |u.log| ==> OnItsWay(u, k);
    }
    forall x: u64 | x in w.removal
      ensures Asked(w, x, Pending)
    {
      if x in u.removal {
        AskedStays(u, w, x, Pending, Pending);
      } else {
        assert w.log[|u.log|] == x && w.fate[|u.log|] == Pending;
      }
    }
    if w.upload.Loaded? {
      forall x: u64 | x in w.upload.batch.erasing
        ensures Asked(w, x, InBatch(Current(w)))
      {
        AskedStays(u, w, x, if e.Load? then Pending else InBatch(Current(u)), InBatch(Current(w)));
      }
    }
    forall b: nat, x: u64 | b < |w.issued| && x in w.issued[b].erasing
      ensures Asked(w, x, InBatch(b))
    {
      assert b < |u.issued| ==> w.issued[b] == u.issued[b];
      AskedStays(u, w, x, InBatch(b), InBatch(b));
    }
  }

  lemma InvKept()
    ensures Kept(Step, Inv)
  {
    forall u: Uploader, e: Event | Inv(u) && Step.requires(u, e)
      ensures Inv(Step(u, e))
    {
      StepKeepsInv(u, e);
    }
  }

  /** Over every interleaving, every removal request is pending or in the one batch it was assigned to,
      and every removal in an issued batch was asked for by a request assigned to that batch. */
  lemma RemovalsAreConserved(es: seq<Event>)
    requires IsRun(Step, START, es)
    ensures var u := End(Step, START, es);
      && |u.fate| == |u.log|
      && (forall k: nat | k < |u.log| :: OnItsWay(u, k))
      && (forall b: nat | b < |u.issued| :: forall x: u64 | x in u.issued[b].erasing :: Asked(u, x, InBatch(b)))
  {
    InvKept();
    KeepsInvariant(Step, Inv, START, es);
  }

  ghost predicate Requested(u: Uploader, k: nat) {
    Inv(u) && k < |u.log|
  }

  /** Once assigned, a request never changes its batch. */
  lemma {:induction false} FateIsFinal(u: Uploader, es: seq<Event>, k: nat)
    requires Requested(u, k) && IsRun(Step, u, es)
    ensures var w := End(Step, u, es);
      Requested(w, k) && w.log[k] == u.log[k] && (u.fate[k].InBatch? ==> w.fate[k] == u.fate[k]) && |u.issued| <= |w.issued|
    decreases |es|
  {
    if es != [] {
      StepKeepsInv(u, es[0]);
      FateIsFinal(Step(u, es[0]), es[1..], k);
    }
  }

  /** An executed pipeline is one batch more. */
  lemma {:induction false} ExecIssues(u: Uploader, es: seq<Event>, k: nat, j: nat)
    requires Requested(u, k) && IsRun(Step, u, es) && j < |es| && es[j].Exec?
    ensures |End(Step, u, es).issued| > |u.issued|
    decreases |es|
  {
    StepKeepsInv(u, es[0]);
    FateIsFinal(Step(u, es[0]), es[1..], k);
    if j > 0 {
      ExecIssues(Step(u, es[0]), es[1..], k, j - 1);
    }
  }

  /** Request k is in an issued batch, and in that one only. */
  ghost predicate Issued(u: Uploader, k: nat)
    requires Requested(u, k)
  {
    u.fate[k].InBatch? && u.fate[k].b < |u.issued| && u.log[k] in u.issued[u.fate[k].b].erasing
  }

  predicate Loads(es: seq<Event>) {
    exists i | 0 <= i < |es| :: es[i].Load?
  }

  /** A pending request stays pending, whatever attempts are skipped, exactly until a Load takes it. */
  lemma {:induction false} PendingUntilLoad(u: Uploader, es: seq<Event>, k: nat)
    requires Requested(u, k) && u.fate[k].Pending? && IsRun(Step, u, es)
    ensures var w := End(Step, u, es); Requested(w, k) && (w.fate[k].Pending? <==> !Loads(es))
    decreases |es|
  {
    FateIsFinal(u, es, k);
    if es != [] {
      var v := Step(u, es[0]);
      StepKeepsInv(u, es[0]);
      FateIsFinal(v, es[1..], k);
      assert forall i | 1 <= i < |es| :: es[i] == es[1..][i - 1];
      if !es[0].Load? {
        PendingUntilLoad(v, es[1..], k);
      }
    }
  }

  /** Uploads skipped as in progress lose nothing: once a run has passed a Load and an Exec after it,
      every request that was pending before is in an issued batch. */
  lemma {:induction false} SkippedUploadsLoseNothing(u: Uploader, es: seq<Event>, k: nat, i: nat, j: nat)
    requires Requested(u, k) && u.fate[k].Pending? && IsRun(Step, u, es)
    requires i < j < |es| && es[i].Load? && es[j].Exec?
    ensures Requested(End(Step, u, es), k) && Issued(End(Step, u, es), k)
    decreases |es|
  {
    var v := Step(u, es[0]);
    StepKeepsInv(u, es[0]);
    if es[0].Load? {
      FateIsFinal(v, es[1..], k);
      ExecIssues(v, es[1..], k, j - 1);
      assert OnItsWay(End(Step, u, es), k);
    } else {
      SkippedUploadsLoseNothing(v, es[1..], k, i - 1, j - 1);
    }
  }

  // ---------- Adds ----------

  /** Add k is on its way: in the set, in the batch in hand, or in the issued batch it was taken into; or a
      removal of its uid was requested. */
  predicate AddOnItsWay(u: Uploader, k: nat)
    requires k < |u.adds| && |u.addFate| == |u.adds|
  {
    match u.addFate[k]
    case Waiting => u.adds[k] in u.sess
    case Dropped => u.adds[k] in u.log
    case Sent(b) =>
      (b < |u.issued| && u.adds[k] in u.issued[b].sending)
      || (b == |u.issued| && u.upload.Loaded? && u.adds[k] in u.upload.batch.sending)
  }

  ghost predicate Added(u: Uploader, x: u64, f: AddFate) {
    exists k: nat :: k < |u.adds| && k < |u.addFate| && u.adds[k] == x && u.addFate[k] == f
  }

  ghost predicate AddInv(u: Uploader) {
    && |u.addFate| == |u.adds|
    && (u.inProgress <==> !u.upload.Idle?)
    && (forall k: nat | k < |u.adds| :: AddOnItsWay(u, k))
    && (forall x: u64 | x in u.sess :: Added(u, x, Waiting))
    && (u.upload.Loaded? ==> forall x: u64 | x in u.upload.batch.sending :: Added(u, x, Sent(Current(u))))
    && forall b: nat | b < |u.issued| :: forall x: u64 | x in u.issued[b].sending :: Added(u, x, Sent(b))
  }

  lemma AddedStays(u: Uploader, w: Uploader, x: u64, f: AddFate, g: AddFate)
    requires Added(u, x, f) && |u.addFate| == |u.adds| <= |w.adds| == |w.addFate|
    requires forall k: nat | k < |u.adds| :: w.adds[k] == u.adds[k] && (u.adds[k] == x && u.addFate[k] == f ==> w.addFate[k] == g)
    ensures Added(w, x, g)
  {
    var k: nat :| k < |u.adds| && k < |u.addFate| && u.adds[k] == x && u.addFate[k] == f;
    assert w.adds[k] == x && w.addFate[k] == g;
  }

  lemma StepKeepsAdds(u: Uploader, e: Event)
    requires AddInv(u) && Enabled(u, e)
    ensures AddInv(Step(u, e))
  {
    var w := Step(u, e);
    forall k: nat | k < |w.adds|
      ensures AddOnItsWay(w, k)
    {
      assert k < |u.adds| ==> AddOnItsWay(u, k);
    }
    forall x: u64 | x in w.sess
      ensures Added(w, x, Waiting)
    {
      if x in u.sess {
        AddedStays(u, w, x, Waiting, Waiting);
      } else {
        assert w.adds[|u.adds|] == x && w.addFate[|u.adds|] == Waiting;
      }
    }
    if w.upload.Loaded? {
      forall x: u64 | x in w.upload.batch.sending
        ensures Added(w, x, Sent(Current(w)))
      {
        AddedStays(u, w, x, if e.Load? then Waiting else Sent(Current(u)), Sent(Current(w)));
      }
    }
    forall b: nat, x: u64 | b < |w.issued| && x in w.issued[b].sending
      ensures Added(w, x, Sent(b))
    {
      assert b < |u.issued| ==> w.issued[b] == u.issued[b];
      AddedStays(u, w, x, Sent(b), Sent(b));
    }
  }

  /** Over every interleaving, every add waits, or is in the sending list of the one batch it was taken
      into, or a removal of its uid came after it; and every uid in a sending list was added. */
  lemma AddsAreConserved(es: seq<Event>)
    requires IsRun(Step, START, es)
    ensures var u := End(Step, START, es);
      && |u.addFate| == |u.adds|
      && (forall k: nat | k < |u.adds| :: AddOnItsWay(u, k))
      && (forall x: u64 | x in u.sess :: Added(u, x, Waiting))
      && (forall b: nat | b < |u.issued| :: forall x: u64 | x in u.issued[b].sending :: Added(u, x, Sent(b)))
  {
    forall u: Uploader, e: Event | AddInv(u) && Step.requires(u, e)
      ensures AddInv(Step(u, e))
    {
      StepKeepsAdds(u, e);
    }
    KeepsInvariant(Step, AddInv, START, es);
  }

  /** An add waits exactly until a removal of its uid or a moving out, whichever comes first, and that
      settles it for good. */
  lemma {:induction false} AddFateIsFinal(u: Uploader, es: seq<Event>, k: nat)
    requires |u.addFate| == |u.adds| && k < |u.adds| && IsRun(Step, u, es)
    ensures var w := End(Step, u, es); |w.addFate| == |w.adds| && k < |w.adds| && w.adds[k] == u.adds[k]
    ensures var w := End(Step, u, es);
      if !u.addFate[k].Waiting? then w.addFate[k] == u.addFate[k]
      else w.addFate[k].Waiting? <==> forall i | 0 <= i < |es| :: !es[i].Load? && es[i] != RemoveSession(u.adds[k])
    decreases |es|
  {
    if es != [] {
      AddFateIsFinal(Step(u, es[0]), es[1..], k);
      assert forall i | 1 <= i < |es| :: es[i] == es[1..][i - 1];
    }
  }

  // ---------- One batch on the store ----------

  datatype Cmd = HExpire(uid: u64) | Del(uid: u64)

  const TTL: nat := 30

  /** HEXPIRE refreshes an existing key; DEL removes it. The store maps a uid to its time to live. */
  function Run1(store: map<u64, nat>, c: Cmd): map<u64, nat> {
    match c
    case HExpire(x) => if x in store then store[x := TTL] else store
    case Del(x) => store - {x}
  }

  function RunAll(store: map<u64, nat>, cmds: seq<Cmd>): map<u64, nat> {
    if cmds == [] then store else Run1(RunAll(store, cmds[..|cmds| - 1]), cmds[|cmds| - 1])
  }

  lemma RunOneMore(store: map<u64, nat>, cmds: seq<Cmd>, c: Cmd)
    ensures RunAll(store, cmds + [c]) == Run1(RunAll(store, cmds), c)
  {
    assert (cmds + [c])[..|cmds|] == cmds;
  }

  /** What a batch should leave: keys to erase are gone, also those that were to be refreshed. */
  function Settled(store: map<u64, nat>, refreshed: set<u64>, erased: set<u64>): map<u64, nat> {
    map x: u64 | x in store && x !in erased :: if x in refreshed then 30 else store[x]
  }

  ghost predicate Leaves(store: map<u64, nat>, cmds: seq<Cmd>, refreshed: set<u64>, erased: set<u64>) {
    RunAll(store, cmds) == Settled(store, refreshed, erased)
  }

  lemma RefreshOne(store: map<u64, nat>, cmds: seq<Cmd>, refreshed: set<u64>, x: u64)
    requires Leaves(store, cmds, refreshed, {})
    ensures Leaves(store, cmds + [HExpire(x)], refreshed + {x}, {})
  {
    RunOneMore(store, cmds, HExpire(x));
  }

  lemma EraseOne(store: map<u64, nat>, cmds: seq<Cmd>, refreshed: set<u64>, erased: set<u64>, x: u64)
    requires Leaves(store, cmds, refreshed, erased)
    ensures Leaves(store, cmds + [Del(x)], refreshed, erased + {x})
  {
    RunOneMore(store, cmds, Del(x));
  }

  /** The first loop, in any order of the set. */
  method FillRefreshes(sending: set<u64>, ghost store: map<u64, nat>) returns (cmds: seq<Cmd>)
    ensures Leaves(store, cmds, sending, {}) && |cmds| == |sending|
  {
    cmds := [];
    var rest := sending;
    ghost var done: set<u64> := {};
    while rest != {}
      invariant done !! rest && done + rest == sending && |cmds| + |rest| == |sending|
      invariant Leaves(store, cmds, done, {})
    {
      var x :| x in rest;
      RefreshOne(store, cmds, done, x);
      cmds := cmds + [HExpire(x)];
      rest, done := rest - {x}, done + {x};
    }
    assert done == sending;
  }

  /** The two loops that fill the pipeline; `store` is any store. */
  method FillPipeline(batch: Batch, ghost store: map<u64, nat>) returns (cmds: seq<Cmd>)
    ensures RunAll(store, cmds) == Settled(store, batch.sending, batch.erasing)
    ensures |cmds| == |batch.sending| + |batch.erasing|
  {
    cmds := FillRefreshes(batch.sending, store);
    var rest := batch.erasing;
    ghost var done: set<u64> := {};
    while rest != {}
      invariant done !! rest && done + rest == batch.erasing && |cmds| + |rest| == |batch.sending| + |batch.erasing|
      invariant Leaves(store, cmds, batch.sending, done)
    {
      var x :| x in rest;
      EraseOne(store, cmds, batch.sending, done, x);
      cmds := cmds + [Del(x)];
      rest, done := rest - {x}, done + {x};
    }
    assert done == batch.erasing;
  }

  /** A user who leaves and is seen again before the next upload is in both lists of that batch, and
      ends up erased although online. */
  lemma ReturningUserIsErased(u: Uploader, x: u64, store: map<u64, nat>)
    requires u.upload.Claimed?
    ensures var w := Step(Step(Step(u, RemoveSession(x)), AddSession(x)), Load);
      w.upload.Loaded? && x in w.upload.batch.sending && x in w.upload.batch.erasing
      && x !in Settled(store, w.upload.batch.sending, w.upload.batch.erasing)
  {
  }

  // ---------- The uploader object ----------

  /** The two sets and the flag; the upload under way and the history are ghost. */
  class OnlineStatusUploader {
    var sess: set<u64>
    var removal: set<u64>
    var inProgress: bool
    ghost var upload: Upload
    ghost var issued: seq<Batch>
    ghost var log: seq<u64>
    ghost var fate: seq<Fate>
    ghost var adds: seq<u64>
    ghost var addFate: seq<AddFate>

    constructor ()
      ensures View() == START
    {
      sess, removal, inProgress := {}, {}, false;
      upload, issued, log, fate, adds, addFate := Idle, [], [], [], [], [];
    }

    ghost function View(): Uploader
      reads this
    {
      Uploader(sess, removal, inProgress, upload, issued, log, fate, adds, addFate)
    }

    method AddSession(uid: u64) returns (added: bool)
      modifies this
      ensures View() == Step(old(View()), Event.AddSession(uid)) && added == (uid !in old(sess))
    {
      added := uid !in sess;
      sess := sess + {uid};
      adds, addFate := adds + [uid], addFate + [Waiting];
    }

    method RemoveSession(uid: u64)
      modifies this
      ensures View() == Step(old(View()), Event.RemoveSession(uid))
    {
      sess, removal := sess - {uid}, removal + {uid};
      log, fate := log + [uid], fate + [Pending];
      addFate := Overtaken(adds, addFate, uid);
    }

    /** The start of UploadImpl: claim the flag or give up. */
    method Claim() returns (claimed: bool)
      modifies this
      ensures View() == Step(old(View()), Attempt) && claimed == !old(inProgress)
    {
      claimed := !inProgress;
      if claimed {
        inProgress, upload := true, Claimed;
      }
    }

    /** The critical section of UploadImpl. */
    method MoveOut() returns (batch: Batch)
      requires upload.Claimed?
      modifies this
      ensures View() == Step(old(View()), Load) && upload == Loaded(batch)
    {
      batch := Batch(sess, removal);
      sess, removal := {}, {};
      fate, addFate := Assigned(fate, |issued|), Taken(addFate, |issued|);
      upload := Loaded(batch);
    }

    /** The rest of UploadImpl: the pipeline is filled, executed on the store, and the flag released. */
    method Execute(batch: Batch, ghost store: map<u64, nat>) returns (cmds: seq<Cmd>)
      requires upload == Loaded(batch)
      modifies this
      ensures View() == Step(Step(old(View()), Exec), Release)
      ensures RunAll(store, cmds) == Settled(store, batch.sending, batch.erasing)
    {
      cmds := FillPipeline(batch, store);
      issued := issued + [batch];
      inProgress, upload := false, Idle;
    }
  }
}
