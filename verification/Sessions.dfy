/** Session tables and the life of a session (session_manager.cpp, session.cpp, session.hpp and the
    VERIFY branch of msg_handler.cpp) as steps. Close is four sections (the atomic flag, the offline
    post, the reading of `verified_`, the removal from a table) that other threads may fall between; so
    are the worker's SetVerified and AddSession. The worker holds the queue's lock while it processes,
    and every post needs that lock. */
module Sessions {
  import opened Basics
  import opened Runs

  /** `Tested(saw)`: Close has read `verified_` as `saw` and not yet removed anything. */
  datatype Stage = Up | Down | Posted | Tested(saw: bool) | Closed

  /** `added` records that AddSession has run for the session, `inserted` that it made an entry. */
  datatype Sess = Sess(verified: bool, uid: u64, stage: Stage, posts: nat, added: bool, inserted: bool)

  /** What the oracle says of a VERIFY, or another message. A post without message is `Offline`. */
  datatype Message = Accept(uid: u64) | Reject | Offline | Other

  datatype Item = Item(s: nat, msg: Message)

  datatype Worker =
    | Idle
    | Adding(s: nat, uid: u64)   // between SetVerified and AddSession
    | Refusing(s: nat)           // about to call Close on a session whose VERIFY was rejected
    | Posting(s: nat)            // inside that Close, at the post

  datatype Server = Server(sess: map<nat, Sess>, temp: set<nat>, table: map<u64, nat>, queue: seq<Item>, worker: Worker)

  datatype Event =
    | Connect(s: nat)
    | Receive(s: nat, msg: Message)
    | Shut(s: nat)        // Close: the flag goes up
    | PostOffline(s: nat) // Close: the post
    | Test(s: nat)        // Close: `verified_` is read
    | Erase(s: nat)       // Close: the removal
    | Take                // the worker takes an item
    | Add                 // the worker's AddSession
    | Refuse              // the worker's Close, up to the post, or RemoveTempSession if it was closed

  const EMPTY := Server(map[], {}, map[], [], Idle)
  const FRESH := Sess(false, 0, Up, 0, false, false)

  /** The worker keeps the queue's lock from Take until it has processed the item. */
  predicate LockFree(v: Server) {
    v.worker.Idle?
  }

  predicate In(v: Server, s: nat, stage: Stage) {
    s in v.sess && v.sess[s].stage == stage
  }

  predicate Enabled(v: Server, e: Event) {
    match e
    case Connect(s) => s !in v.sess
    case Receive(s, msg) => s in v.sess && LockFree(v) && !msg.Offline?
    case Shut(s) => In(v, s, Up)
    case PostOffline(s) => In(v, s, Down) && LockFree(v)
    case Test(s) => In(v, s, Posted)
    case Erase(s) => s in v.sess && v.sess[s].stage.Tested?
    case Take => v.worker.Idle? && v.queue != [] && v.queue[0].s in v.sess
    case Add => v.worker.Adding? && v.worker.s in v.sess
    case Refuse => v.worker.Refusing? && v.worker.s in v.sess
  }

  function Process(v: Server, s: nat, msg: Message): Server
    requires s in v.sess
  {
    var x := v.sess[s];
    match msg
    case Accept(uid) =>
      if x.verified then v
      else v.(sess := v.sess[s := x.(verified := true, uid := uid)], worker := Adding(s, uid))
    case Reject => if x.verified then v else v.(worker := Refusing(s))
    case _ => v
  }

  function Step(v: Server, e: Event): Server
    requires Enabled(v, e)
  {
    match e
    case Connect(s) => v.(sess := v.sess[s := FRESH], temp := v.temp + {s})
    case Receive(s, msg) => v.(queue := v.queue + [Item(s, msg)])
    case Shut(s) => v.(sess := v.sess[s := v.sess[s].(stage := Down)])
    case PostOffline(s) =>
      v.(sess := v.sess[s := v.sess[s].(stage := Posted, posts := v.sess[s].posts + 1)],
         queue := v.queue + [Item(s, Offline)])
    case Test(s) => v.(sess := v.sess[s := v.sess[s].(stage := Tested(v.sess[s].verified))])
    case Erase(s) =>
      var w := v.(sess := v.sess[s := v.sess[s].(stage := Closed)]);
      if v.sess[s].stage.saw then w.(table := v.table - {v.sess[s].uid}) else w.(temp := v.temp - {s})
    case Take => Process(v.(queue := v.queue[1..]), v.queue[0].s, v.queue[0].msg)
    case Add =>
      var s, uid := v.worker.s, v.worker.uid;
      var free := uid !in v.table;
      v.(temp := v.temp - {s}, worker := Idle, table := if free then v.table[uid := s] else v.table,
         sess := v.sess[s := v.sess[s].(added := true, inserted := free)])
    case Refuse =>
      var s := v.worker.s;
      if v.sess[s].stage.Up? then v.(sess := v.sess[s := v.sess[s].(stage := Down)], worker := Posting(s))
      else v.(temp := v.temp - {s}, worker := Idle)
  }

  // ---------- What holds in every reachable state ----------

  /** An entry u -> s has s verified as u, added and out of the temporary table. */
  ghost predicate Listed(v: Server) {
    forall u: u64 | u in v.table ::
      var s := v.table[u];
      s in v.sess && v.sess[s].verified && v.sess[s].uid == u && v.sess[s].inserted && s !in v.temp
  }

  /** A temporary session is neither verified nor closed, or it is just being added. */
  ghost predicate Temporary(v: Server) {
    forall s: nat | s in v.temp ::
      && s in v.sess
      && (v.sess[s].verified || v.sess[s].stage == Closed ==> v.worker.Adding? && v.worker.s == s)
  }

  predicate Coherent(x: Sess) {
    && x.posts == (if x.stage.Up? || x.stage.Down? then 0 else 1)
    && (x.inserted ==> x.added) && (x.added ==> x.verified) && (x.stage == Tested(true) ==> x.verified)
  }

  ghost predicate EachCoherent(v: Server) {
    && (forall s: nat | s in v.sess :: Coherent(v.sess[s]))
    && (forall i: nat | i < |v.queue| :: v.queue[i].s in v.sess)
  }

  ghost predicate WorkerFits(v: Server) {
    match v.worker
    case Idle => true
    case Adding(s, uid) => s in v.sess && v.sess[s].verified && v.sess[s].uid == uid && !v.sess[s].added
    case Refusing(s) => s in v.sess && !v.sess[s].verified
    case Posting(s) => In(v, s, Down) && !v.sess[s].verified
  }

  /** An open session is in the temporary table until AddSession runs for it. */
  ghost predicate OpenKept(v: Server) {
    forall s: nat | In(v, s, Up) :: s in v.temp <==> !v.sess[s].added
  }

  ghost predicate Inv(v: Server) {
    Listed(v) && Temporary(v) && OpenKept(v) && EachCoherent(v) && WorkerFits(v)
  }

  lemma StepKeepsListed(v: Server, e: Event)
    requires Inv(v) && Enabled(v, e)
    ensures Listed(Step(v, e))
  {
  }

  lemma StepKeepsTemporary(v: Server, e: Event)
    requires Inv(v) && Enabled(v, e)
    ensures Temporary(Step(v, e))
  {
  }

  lemma StepKeepsOpen(v: Server, e: Event)
    requires OpenKept(v) && WorkerFits(v) && Enabled(v, e)
    ensures OpenKept(Step(v, e))
  {
  }

  lemma StepKeepsCoherent(v: Server, e: Event)
    requires EachCoherent(v) && WorkerFits(v) && Enabled(v, e)
    ensures EachCoherent(Step(v, e))
  {
  }

  lemma StepKeepsWorker(v: Server, e: Event)
    requires EachCoherent(v) && WorkerFits(v) && Enabled(v, e)
    ensures WorkerFits(Step(v, e))
  {
  }

  lemma InvKept()
    ensures Kept(Step, Inv)
  {
    forall v: Server, e: Event | Inv(v) && Step.requires(v, e)
      ensures Inv(Step(v, e))
    {
      StepKeepsListed(v, e);
      StepKeepsTemporary(v, e);
      StepKeepsOpen(v, e);
      StepKeepsCoherent(v, e);
      StepKeepsWorker(v, e);
    }
  }

  /** In every reachable state: entries are verified under their own uid, no session is in both tables
      or under two uids, each session posts at most one offline message, and a verified or closed
      session is in the temporary table only between the worker's SetVerified and AddSession for it. An
      open session is there if and only if AddSession has not run for it. */
  lemma TablesAreSound(es: seq<Event>)
    requires IsRun(Step, EMPTY, es)
    ensures var v := End(Step, EMPTY, es);
      && (forall u: u64 | u in v.table :: v.table[u] in v.sess && v.sess[v.table[u]].verified && v.sess[v.table[u]].uid == u)
      && (forall u: u64 | u in v.table :: v.table[u] !in v.temp)
      && (forall u: u64, w: u64 | u in v.table && w in v.table && v.table[u] == v.table[w] :: u == w)
      && (forall s: nat | s in v.sess :: v.sess[s].posts <= 1)
      && (forall s: nat | s in v.temp && s in v.sess && (v.sess[s].verified || v.sess[s].stage == Closed) ::
            v.worker == Adding(s, v.sess[s].uid))
      && (forall s: nat | In(v, s, Up) :: s in v.temp <==> !v.sess[s].added)
  {
    InvKept();
    KeepsInvariant(Step, Inv, EMPTY, es);
  }

  function PostOf(e: Event): seq<Item> {
    match e
    case Receive(s, msg) => [Item(s, msg)]
    case PostOffline(s) => [Item(s, Offline)]
    case _ => []
  }

  /** The items that a run posts. */
  function Posts(es: seq<Event>): seq<Item> {
    if es == [] then [] else PostOf(es[0]) + Posts(es[1..])
  }

  function TakeCount(es: seq<Event>): nat {
    if es == [] then 0 else (if es[0].Take? then 1 else 0) + TakeCount(es[1..])
  }

  lemma StepQueues(v: Server, e: Event)
    requires Enabled(v, e)
    ensures Step(v, e).queue == if e.Take? then v.queue[1..] else v.queue + PostOf(e)
  {
  }

  lemma FirstTaken(q: seq<Item>, more: seq<Item>, n: nat)
    requires q != [] && n <= |q[1..] + more|
    ensures (q + more)[1 + n..] == (q[1..] + more)[n..] && q + ([] + more) == q + more
  {
  }

  lemma OnePosted(q: seq<Item>, post: seq<Item>, more: seq<Item>)
    ensures q + post + more == q + (post + more)
  {
  }

  /** In every run the worker takes the items in the order in which all sessions posted them. */
  lemma {:induction false} ItemsKeepOrder(v: Server, es: seq<Event>)
    requires IsRun(Step, v, es)
    ensures TakeCount(es) <= |v.queue + Posts(es)| && End(Step, v, es).queue == (v.queue + Posts(es))[TakeCount(es)..]
    decreases |es|
  {
    if es != [] {
      var w := Step(v, es[0]);
      ItemsKeepOrder(w, es[1..]);
      StepQueues(v, es[0]);
      if es[0].Take? {
        FirstTaken(v.queue, Posts(es[1..]), TakeCount(es[1..]));
      } else {
        OnePosted(v.queue, PostOf(es[0]), Posts(es[1..]));
      }
    }
  }

  // ---------- Closed sessions in the table ----------

  predicate ListsClosed(v: Server) {
    exists u: u64 | u in v.table :: In(v, v.table[u], Closed)
  }

  /** AddSession runs for a session that has finished closing, and its uid is free. */
  predicate AddsClosed(v: Server, e: Event) {
    e.Add? && v.worker.Adding? && In(v, v.worker.s, Closed) && v.worker.uid !in v.table
  }

  /** Close has read `verified_` as false and then removes nothing: the session was added meanwhile. */
  predicate ErasesTooLittle(v: Server, e: Event) {
    e.Erase? && In(v, e.s, Tested(false)) && v.sess[e.s].uid in v.table && v.table[v.sess[e.s].uid] == e.s
  }

  predicate LeavesClosed(v: Server, e: Event) {
    AddsClosed(v, e) || ErasesTooLittle(v, e)
  }

  lemma ListsClosedStep(v: Server, e: Event)
    requires Inv(v) && Enabled(v, e) && !ListsClosed(v)
    ensures ListsClosed(Step(v, e)) <==> LeavesClosed(v, e)
  {
    var w := Step(v, e);
    if AddsClosed(v, e) {
      assert w.table[v.worker.uid] == v.worker.s;
    } else if ErasesTooLittle(v, e) {
      assert w.table[v.sess[e.s].uid] == e.s;
    } else {
      forall u: u64 | u in w.table
        ensures !In(w, w.table[u], Closed)
      {
        assert u in v.table ==> v.table[u] == w.table[u] && v.sess[v.table[u]].uid == u;
      }
    }
  }

  /** Along a run no closed session is ever found in the verified table if and only if AddSession never
      runs for one that has finished closing while its uid is free, and no Close removes from the wrong
      table because the session was added after its reading of `verified_`. */
  lemma ClosedListedExactly(v: Server, es: seq<Event>)
    requires Inv(v) && IsRun(Step, v, es) && !ListsClosed(v)
    ensures Avoids(Step, ListsClosed, v, es) <==> Never(Step, LeavesClosed, v, es)
  {
    InvKept();
    forall w: Server, e: Event | Inv(w) && !ListsClosed(w) && Step.requires(w, e)
      ensures ListsClosed(Step(w, e)) <==> LeavesClosed(w, e)
    {
      ListsClosedStep(w, e);
    }
    AvoidsExactly(Step, Inv, ListsClosed, LeavesClosed, v, es);
  }

  /** AddSession runs for a session whose Close has already read `verified_`. */
  predicate AddsLate(v: Server, e: Event) {
    e.Add? && v.worker.Adding? && v.worker.s in v.sess
    && (v.sess[v.worker.s].stage.Tested? || v.sess[v.worker.s].stage.Closed?)
  }

  ghost predicate NoneSlipped(v: Server) {
    forall s: nat | In(v, s, Tested(false)) :: !v.sess[s].inserted
  }

  /** So a VERIFY that is processed before its session's Close gets that far is always cleaned up. */
  lemma {:induction false} EarlyVerifyIsCleanedUp(v: Server, es: seq<Event>)
    requires Inv(v) && NoneSlipped(v) && IsRun(Step, v, es) && Never(Step, AddsLate, v, es)
    ensures Never(Step, LeavesClosed, v, es)
    decreases |es|
  {
    if es != [] {
      var w := Step(v, es[0]);
      InvKept();
      assert NoneSlipped(w);
      EarlyVerifyIsCleanedUp(w, es[1..]);
    }
  }

  // ---------- Open sessions missing from the table ----------

  predicate Found(v: Server, s: nat)
    requires s in v.sess
  {
    v.sess[s].uid in v.table && v.table[v.sess[s].uid] == s
  }

  /** AddSession has run for a session that has not reached its own removal, and it is not found. */
  predicate Missing(v: Server, s: nat)
    requires s in v.sess
  {
    v.sess[s].added && v.sess[s].stage != Closed && !Found(v, s)
  }

  predicate LosesOpen(v: Server) {
    exists s: nat | s in v.sess :: Missing(v, s)
  }

  /** The same of sessions that AddSession did insert. */
  predicate LosesInserted(v: Server) {
    exists s: nat | s in v.sess :: v.sess[s].inserted && Missing(v, s)
  }

  /** A closing session removes the entry of its uid although that entry is another, open session. */
  predicate Evicts(v: Server, e: Event) {
    e.Erase? && In(v, e.s, Tested(true)) && v.sess[e.s].uid in v.table
    && var t := v.table[v.sess[e.s].uid]; t != e.s && t in v.sess && v.sess[t].stage != Closed
  }

  /** AddSession finds the uid of a session that is open in the table already. */
  predicate TurnsAway(v: Server, e: Event) {
    e.Add? && v.worker.Adding? && v.worker.s in v.sess && v.sess[v.worker.s].stage != Closed && v.worker.uid in v.table
  }

  predicate EvictsOrTurnsAway(v: Server, e: Event) {
    Evicts(v, e) || TurnsAway(v, e)
  }

  lemma StillFound(v: Server, e: Event, s: nat)
    requires Inv(v) && Enabled(v, e) && !Evicts(v, e) && s in v.sess && !Missing(v, s)
    ensures Missing(Step(v, e), s) ==> TurnsAway(v, e) && !Step(v, e).sess[s].inserted
  {
  }

  lemma EvictedIsMissing(v: Server, e: Event) returns (t: nat)
    requires Inv(v) && Enabled(v, e) && Evicts(v, e)
    ensures var w := Step(v, e); t in w.sess && w.sess[t].inserted && Missing(w, t)
  {
    t := v.table[v.sess[e.s].uid];
  }

  lemma LosesInsertedStep(v: Server, e: Event)
    requires Inv(v) && Enabled(v, e) && !LosesInserted(v)
    ensures LosesInserted(Step(v, e)) <==> Evicts(v, e)
  {
    var w := Step(v, e);
    if Evicts(v, e) {
      var t := EvictedIsMissing(v, e);
    } else {
      forall s: nat | s in w.sess
        ensures !(w.sess[s].inserted && Missing(w, s))
      {
        if s in v.sess && !Missing(v, s) {
          StillFound(v, e, s);
        }
      }
    }
  }

  lemma LosesOpenStep(v: Server, e: Event)
    requires Inv(v) && Enabled(v, e) && !LosesOpen(v)
    ensures LosesOpen(Step(v, e)) <==> EvictsOrTurnsAway(v, e)
  {
    var w := Step(v, e);
    if Evicts(v, e) {
      var t := EvictedIsMissing(v, e);
    } else if TurnsAway(v, e) {
      assert Missing(w, v.worker.s);
    } else {
      forall s: nat | s in w.sess
        ensures !Missing(w, s)
      {
        if s in v.sess {
          StillFound(v, e, s);
        }
      }
    }
  }

  /** Along a run every inserted session stays findable until its own removal if and only if no session
      closes while another open one holds its uid. */
  lemma InsertedLostExactly(v: Server, es: seq<Event>)
    requires Inv(v) && IsRun(Step, v, es) && !LosesInserted(v)
    ensures Avoids(Step, LosesInserted, v, es) <==> Never(Step, Evicts, v, es)
  {
    InvKept();
    forall w: Server, e: Event | Inv(w) && !LosesInserted(w) && Step.requires(w, e)
      ensures LosesInserted(Step(w, e)) <==> Evicts(w, e)
    {
      LosesInsertedStep(w, e);
    }
    AvoidsExactly(Step, Inv, LosesInserted, Evicts, v, es);
  }

  /** Every open session for which AddSession has run can be found by its uid if and only if, besides,
      AddSession never finds the uid of an open session present. */
  lemma OpenLostExactly(v: Server, es: seq<Event>)
    requires Inv(v) && IsRun(Step, v, es) && !LosesOpen(v)
    ensures Avoids(Step, LosesOpen, v, es) <==> Never(Step, EvictsOrTurnsAway, v, es)
  {
    InvKept();
    forall w: Server, e: Event | Inv(w) && !LosesOpen(w) && Step.requires(w, e)
      ensures LosesOpen(Step(w, e)) <==> EvictsOrTurnsAway(w, e)
    {
      LosesOpenStep(w, e);
    }
    AvoidsExactly(Step, Inv, LosesOpen, EvictsOrTurnsAway, v, es);
  }

  lemma EmptyIsSound()
    ensures Inv(EMPTY) && NoneSlipped(EMPTY) && !ListsClosed(EMPTY) && !LosesOpen(EMPTY) && !LosesInserted(EMPTY)
  {
  }

  /** A session is taken out of the temporary table once: it never comes back. */
  lemma {:induction false} LeftForGood(v: Server, es: seq<Event>, s: nat)
    requires s in v.sess && s !in v.temp && IsRun(Step, v, es)
    ensures s in End(Step, v, es).sess && s !in End(Step, v, es).temp
    decreases |es|
  {
    if es != [] {
      LeftForGood(Step(v, es[0]), es[1..], s);
    }
  }

  /** A rejected VERIFY of a session that somebody has begun to close takes it out of the temporary table,
      and the worker goes on. */
  lemma RefusedIsGone(v: Server, es: seq<Event>)
    requires v.worker.Refusing? && v.worker.s in v.sess && !In(v, v.worker.s, Up) && IsRun(Step, Step(v, Refuse), es)
    ensures Step(v, Refuse).worker.Idle? && v.worker.s !in End(Step, Step(v, Refuse), es).temp
  {
    LeftForGood(Step(v, Refuse), es, v.worker.s);
  }

  /** A session that has been closed is in neither table, unless AddSession is still to run. */
  lemma ErasedIsGone(v: Server, s: nat)
    requires Inv(v) && Enabled(v, Erase(s)) && !LeavesClosed(v, Erase(s)) && !(v.worker.Adding? && v.worker.s == s)
    ensures var w := Step(v, Erase(s)); s !in w.temp && forall u: u64 | u in w.table :: w.table[u] != s
  {
    var w := Step(v, Erase(s));
    forall u: u64 | u in w.table
      ensures w.table[u] != s
    {
      assert v.table[u] == w.table[u];
    }
  }

  // ---------- The worker that waits for itself ----------

  predicate Takes(es: seq<Event>) {
    exists i | 0 <= i < |es| :: es[i].Take?
  }

  /** Whatever the threads do from here on, the worker takes no item any more. */
  ghost predicate Lost(v: Server) {
    forall es: seq<Event> | IsRun(Step, v, es) :: !Takes(es)
  }

  /** The worker's Close finds a session, whose VERIFY was rejected, still open. */
  predicate RefusesOpen(v: Server, e: Event) {
    e.Refuse? && v.worker.Refusing? && In(v, v.worker.s, Up)
  }

  /** From v to w nothing was posted, taken, verified or added. */
  ghost predicate Frozen(v: Server, w: Server) {
    && w.worker == v.worker && w.queue == v.queue && w.table.Keys <= v.table.Keys && v.sess.Keys <= w.sess.Keys
    && (forall s: nat | s in v.sess :: w.sess[s].posts == v.sess[s].posts && w.sess[s].verified == v.sess[s].verified)
    && (forall s: nat | s in w.sess && s !in v.sess :: w.sess[s].posts == 0 && !w.sess[s].verified)
  }

  lemma WedgedStep(v: Server, e: Event)
    requires v.worker.Posting? && Enabled(v, e)
    ensures !e.Take? && Frozen(v, Step(v, e))
  {
  }

  lemma FrozenTrans(u: Server, v: Server, w: Server)
    requires Frozen(u, v) && Frozen(v, w)
    ensures Frozen(u, w)
  {
  }

  /** A worker at the post inside its own Close stays there: the lock it needs is the one it holds.
      Nothing is posted, taken, verified or added any more, by anybody. */
  lemma {:induction false} WedgedForever(v: Server, es: seq<Event>)
    requires v.worker.Posting? && IsRun(Step, v, es)
    ensures !Takes(es) && Frozen(v, End(Step, v, es))
    decreases |es|
  {
    if es != [] {
      var w := Step(v, es[0]);
      WedgedStep(v, es[0]);
      WedgedForever(w, es[1..]);
      FrozenTrans(v, w, End(Step, w, es[1..]));
      assert forall i | 1 <= i < |es| :: es[i] == es[1..][i - 1];
    }
  }

  /** Any other worker can finish what it does. */
  lemma ToIdle(v: Server) returns (es: seq<Event>)
    requires Inv(v) && !v.worker.Posting?
    ensures IsRun(Step, v, es) && End(Step, v, es).worker.Idle?
  {
    match v.worker
    case Idle => es := [];
    case Adding(_, _) =>
      es := [Add];
      assert Enabled(v, Add);
      One(Step, v, Add);
    case Refusing(s) =>
      if v.sess[s].stage.Up? {
        es := [Shut(s), Refuse];
        assert Enabled(v, Shut(s)) && Enabled(Step(v, Shut(s)), Refuse);
        Two(Step, v, Shut(s), Refuse);
      } else {
        es := [Refuse];
        assert Enabled(v, Refuse);
        One(Step, v, Refuse);
      }
  }

  lemma {:induction false} Fresh(used: set<nat>) returns (s: nat)
    ensures forall t: nat | t in used :: t < s
    decreases |used|
  {
    if used == {} {
      s := 0;
    } else {
      var x :| x in used;
      var r := Fresh(used - {x});
      s := r + x + 1;
      forall t: nat | t in used
        ensures t < s
      {
        assert t == x || t in used - {x};
      }
    }
  }

  lemma FromIdle(v: Server) returns (es: seq<Event>)
    requires Inv(v) && v.worker.Idle?
    ensures IsRun(Step, v, es) && Takes(es)
  {
    if v.queue != [] {
      es := [Take];
      assert Enabled(v, Take);
      One(Step, v, Take);
    } else {
      var s := Fresh(v.sess.Keys);
      var v1 := Step(v, Connect(s));
      var v2 := Step(v1, Receive(s, Other));
      assert v2.queue == [Item(s, Other)];
      Two(Step, v, Connect(s), Receive(s, Other));
      assert Enabled(v2, Take);
      One(Step, v2, Take);
      Concat(Step, v, [Connect(s), Receive(s, Other)], [Take]);
      es := [Connect(s), Receive(s, Other)] + [Take];
      assert es[2].Take?;
    }
  }

  /** In a reachable state the worker is lost exactly when it waits for its own lock. */
  lemma LostExactly(v: Server)
    requires Inv(v)
    ensures Lost(v) <==> v.worker.Posting?
  {
    if v.worker.Posting? {
      forall es: seq<Event> | IsRun(Step, v, es)
        ensures !Takes(es)
      {
        WedgedForever(v, es);
      }
    } else {
      var es := ToIdle(v);
      InvKept();
      KeepsInvariant(Step, Inv, v, es);
      var fs := FromIdle(End(Step, v, es));
      Concat(Step, v, es, fs);
      var i :| 0 <= i < |fs| && fs[i].Take?;
      assert (es + fs)[|es| + i].Take?;
    }
  }

  /** Along a run the worker is never lost if and only if it never comes to close, for a rejected
      VERIFY, a session that nobody has begun to close. */
  lemma WorkerLostExactly(v: Server, es: seq<Event>)
    requires Inv(v) && IsRun(Step, v, es) && !Lost(v)
    ensures Avoids(Step, Lost, v, es) <==> Never(Step, RefusesOpen, v, es)
  {
    InvKept();
    forall w: Server, e: Event | Inv(w) && !Lost(w) && Step.requires(w, e)
      ensures Lost(Step(w, e)) <==> RefusesOpen(w, e)
    {
      LostExactly(w);
      LostExactly(Step(w, e));
    }
    AvoidsExactly(Step, Inv, Lost, RefusesOpen, v, es);
  }

  // ---------- The exceptions are reachable ----------

  /** A client that connects and sends one VERIFY with a wrong token stops the server's worker. */
  lemma RejectedVerifyLosesWorker(s: nat)
    ensures var es := [Connect(s), Receive(s, Reject), Take, Refuse];
      IsRun(Step, EMPTY, es) && Lost(End(Step, EMPTY, es))
  {
    var v1 := Step(EMPTY, Connect(s));
    var v2 := Step(v1, Receive(s, Reject));
    assert v2.queue == [Item(s, Reject)];
    var v3 := Step(v2, Take);
    var v4 := Step(v3, Refuse);
    Four(Step, EMPTY, Connect(s), v1, Receive(s, Reject), v2, Take, v3, Refuse, v4);
    EmptyIsSound();
    InvKept();
    KeepsInvariant(Step, Inv, EMPTY, [Connect(s), Receive(s, Reject), Take, Refuse]);
    LostExactly(v4);
  }

  /** A client connects, sends a good VERIFY and drops the connection; Close gets as far as its post. */
  lemma Hurried(v: Server, s: nat, u: u64) returns (w: Server)
    requires v.worker.Idle? && v.queue == [] && s !in v.sess
    ensures var es := [Connect(s), Receive(s, Accept(u)), Shut(s), PostOffline(s)];
      IsRun(Step, v, es) && End(Step, v, es) == w
    ensures w.sess == v.sess[s := Sess(false, 0, Posted, 1, false, false)] && w.queue == [Item(s, Accept(u)), Item(s, Offline)]
    ensures w.table == v.table && w.worker.Idle?
  {
    var v1 := Step(v, Connect(s));
    var v2 := Step(v1, Receive(s, Accept(u)));
    var v3 := Step(v2, Shut(s));
    w := Step(v3, PostOffline(s));
    assert v2.queue == [Item(s, Accept(u))];
    Four(Step, v, Connect(s), v1, Receive(s, Accept(u)), v2, Shut(s), v3, PostOffline(s), w);
  }

  lemma AddedLate(v: Server, s: nat, u: u64) returns (w: Server)
    requires v.worker.Idle? && v.queue == [Item(s, Accept(u)), Item(s, Offline)] && u !in v.table
    requires s in v.sess && v.sess[s] == Sess(false, 0, Posted, 1, false, false)
    ensures IsRun(Step, v, [Test(s), Erase(s), Take, Add]) && w == End(Step, v, [Test(s), Erase(s), Take, Add])
    ensures u in w.table && w.table[u] == s && s in w.sess && w.sess[s].stage == Closed
  {
    var v1 := Step(v, Test(s));
    assert v1.sess[s] == Sess(false, 0, Tested(false), 1, false, false);
    var v2 := Step(v1, Erase(s));
    assert v2.sess[s] == Sess(false, 0, Closed, 1, false, false);
    var v3 := Step(v2, Take);
    w := Step(v3, Add);
    Four(Step, v, Test(s), v1, Erase(s), v2, Take, v3, Add, w);
  }

  /** From any quiet state: the VERIFY is processed when Close is over. The closed session is listed. */
  lemma LateVerifyListsClosed(v: Server, s: nat, u: u64)
    requires v.worker.Idle? && v.queue == [] && s !in v.sess && u !in v.table
    ensures var es := [Connect(s), Receive(s, Accept(u)), Shut(s), PostOffline(s)] + [Test(s), Erase(s), Take, Add];
      IsRun(Step, v, es) && ListsClosed(End(Step, v, es))
  {
    var v4 := Hurried(v, s, u);
    var v8 := AddedLate(v4, s, u);
    assert v8.table[u] == s;
    Concat(Step, v, [Connect(s), Receive(s, Accept(u)), Shut(s), PostOffline(s)], [Test(s), Erase(s), Take, Add]);
  }

  /** From any quiet state: the VERIFY is processed between Close's reading of `verified_` and its
      removal. AddSession runs before Close has finished, and the closed session is listed all the same. */
  lemma RacingVerifyListsClosed(v: Server, s: nat, u: u64)
    requires v.worker.Idle? && v.queue == [] && s !in v.sess && u !in v.table
    ensures var es := [Connect(s), Receive(s, Accept(u)), Shut(s), PostOffline(s)] + [Test(s), Take, Add, Erase(s)];
      IsRun(Step, v, es) && Never(Step, AddsClosed, v, es) && ListsClosed(End(Step, v, es))
  {
    var first := [Connect(s), Receive(s, Accept(u)), Shut(s), PostOffline(s)];
    var v4 := Hurried(v, s, u);
    var v5 := Step(v4, Test(s));
    assert v5.sess[s] == Sess(false, 0, Tested(false), 1, false, false);
    var v6 := Step(v5, Take);
    assert v6.sess[s] == Sess(true, u, Tested(false), 1, false, false);
    var v7 := Step(v6, Add);
    assert v7.sess[s] == Sess(true, u, Tested(false), 1, true, true);
    var v8 := Step(v7, Erase(s));
    Four(Step, v4, Test(s), v5, Take, v6, Add, v7, Erase(s), v8);
    assert v8.table[u] == s;
    Concat(Step, v, first, [Test(s), Take, Add, Erase(s)]);
    NotClosedYet(v, s, first + [Test(s), Take, Add, Erase(s)]);
  }

  /** While the only AddSession is for s and s is closed by the last event, none runs for a closed one. */
  lemma {:induction false} NotClosedYet(v: Server, s: nat, es: seq<Event>)
    requires IsRun(Step, v, es) && es != [] && es[|es| - 1] == Erase(s)
    requires v.worker.Adding? ==> v.worker.s == s
    requires forall i: nat | i < |v.queue| :: v.queue[i].msg.Accept? ==> v.queue[i].s == s
    requires forall i | 0 <= i < |es| - 1 :: !es[i].Erase? && (es[i].Receive? ==> es[i].s == s)
    requires !In(v, s, Closed)
    ensures Never(Step, AddsClosed, v, es)
    decreases |es|
  {
    if |es| > 1 {
      NotClosedYet(Step(v, es[0]), s, es[1..]);
    }
  }

  /** From any quiet state with user u connected as t: a second login of u is verified, not inserted
      and not found although open and nobody was evicted; t can still be found. */
  lemma SecondLoginIsNotFound(v: Server, t: nat, s: nat, u: u64) returns (w: Server)
    requires Inv(v) && v.worker.Idle? && v.queue == [] && s !in v.sess && u in v.table && v.table[u] == t
    ensures var es := [Connect(s), Receive(s, Accept(u)), Take, Add];
      IsRun(Step, v, es) && End(Step, v, es) == w && Never(Step, Evicts, v, es)
    ensures In(w, s, Up) && Missing(w, s) && t != s && t in w.sess && Found(w, t)
    ensures w.sess == v.sess[s := Sess(true, u, Up, 0, true, false)] && w.table == v.table && w.queue == [] && w.worker.Idle?
  {
    var v1 := Step(v, Connect(s));
    var v2 := Step(v1, Receive(s, Accept(u)));
    assert v2.queue == [Item(s, Accept(u))];
    var v3 := Step(v2, Take);
    assert v3.sess[s] == FRESH.(verified := true, uid := u);
    w := Step(v3, Add);
    Four(Step, v, Connect(s), v1, Receive(s, Accept(u)), v2, Take, v3, Add, w);
    NoEraseNoEviction(v, [Connect(s), Receive(s, Accept(u)), Take, Add]);
  }

  lemma {:induction false} NoEraseNoEviction(v: Server, es: seq<Event>)
    requires IsRun(Step, v, es) && forall i | 0 <= i < |es| :: !es[i].Erase?
    ensures Never(Step, Evicts, v, es)
    decreases |es|
  {
    if es != [] {
      NoEraseNoEviction(Step(v, es[0]), es[1..]);
    }
  }

  /** And when it closes, the first session, still open, can no longer be found. */
  lemma SecondLoginEvictsFirst(v: Server, t: nat, s: nat, u: u64)
    requires Inv(v) && v.worker.Idle? && v.queue == [] && s !in v.sess && u in v.table && v.table[u] == t && In(v, t, Up)
    ensures var es := [Connect(s), Receive(s, Accept(u)), Take, Add] + [Shut(s), PostOffline(s), Test(s), Erase(s)];
      IsRun(Step, v, es) && var w := End(Step, v, es); In(w, t, Up) && Missing(w, t)
  {
    var v4 := SecondLoginIsNotFound(v, t, s, u);
    var v5 := Step(v4, Shut(s));
    assert v5.sess[s] == Sess(true, u, Down, 0, true, false);
    var v6 := Step(v5, PostOffline(s));
    assert v6.sess[s] == Sess(true, u, Posted, 1, true, false);
    var v7 := Step(v6, Test(s));
    assert v7.sess[s] == Sess(true, u, Tested(true), 1, true, false);
    var v8 := Step(v7, Erase(s));
    Four(Step, v4, Shut(s), v5, PostOffline(s), v6, Test(s), v7, Erase(s), v8);
    assert v8.sess[t] == v.sess[t] && v8.table == v.table - {u};
    Concat(Step, v, [Connect(s), Receive(s, Accept(u)), Take, Add], [Shut(s), PostOffline(s), Test(s), Erase(s)]);
  }

  // ---------- The tables ----------

  /** The two tables. Each method does to them what the step it belongs to does to the server's. */
  class SessionManager {
    var sess: map<u64, nat>
    var temp: set<nat>

    constructor ()
      ensures sess == EMPTY.table && temp == EMPTY.temp
    {
      sess, temp := map[], {};
    }

    ghost predicate Holds(v: Server)
      reads this
    {
      sess == v.table && temp == v.temp
    }

    method AddTempSession(s: nat) returns (added: bool)
      modifies this
      ensures added == (s !in old(temp)) && temp == old(temp) + {s} && sess == old(sess)
      ensures forall v: Server | old(Holds(v)) && Enabled(v, Connect(s)) :: Holds(Step(v, Connect(s)))
    {
      added := s !in temp;
      temp := temp + {s};
    }

    method AddSession(uid: u64, s: nat) returns (added: bool)
      modifies this
      ensures added == (uid !in old(sess)) && s !in temp && uid in sess
      ensures forall v: Server | old(Holds(v)) && Enabled(v, Add) && v.worker == Adding(s, uid) :: Holds(Step(v, Add))
    {
      temp := temp - {s};
      added := uid !in sess;
      if added {
        sess := sess[uid := s];
      }
    }

    /** Close's removal after it read `verified_` as true. */
    method RemoveSession(uid: u64) returns (erased: bool)
      modifies this
      ensures erased == (uid in old(sess)) && uid !in sess
      ensures forall v: Server, s: nat | old(Holds(v)) && In(v, s, Tested(true)) && v.sess[s].uid == uid ::
                Holds(Step(v, Erase(s)))
    {
      erased := uid in sess;
      sess := sess - {uid};
    }

    /** Close's removal after it read `verified_` as false, whether or not it is true by now; also what
        the worker does after a Close that was not the first. */
    method RemoveTempSession(s: nat) returns (erased: bool)
      modifies this
      ensures erased == (s in old(temp)) && s !in temp
      ensures forall v: Server | old(Holds(v)) && In(v, s, Tested(false)) :: Holds(Step(v, Erase(s)))
      ensures forall v: Server | old(Holds(v)) && Enabled(v, Refuse) && v.worker.s == s && !In(v, s, Up) :: Holds(Step(v, Refuse))
    {
      erased := s in temp;
      temp := temp - {s};
    }
  }
}
