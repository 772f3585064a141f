/** The database connection pool (gateway_dbm.cpp). Threads 0..threads-1 borrow and return connections;
    every event is one critical section under the latch. */
module ConnPool {
  import opened Basics
  import opened Runs

  /** `conns` and `size` are conns_ and pool_size_; connections are numbered as they are made, and `made`
      is the next number. A thread is outside, holds a connection, sleeps on the condition variable, or is
      `ready`: woken and about to test again. */
  datatype Pool = Pool(
    threads: nat, cap: nat, size: nat, made: nat, conns: seq<nat>, idle: seq<nat>,
    held: map<nat, nat>, asleep: set<nat>, ready: set<nat>)

  datatype Event =
    | Get(t: nat, connects: bool)   // one pass of GetIdleConn under the latch
    | Return(t: nat, wakes: nat)    // ReturnIdleConn; `wakes` is the sleeper notify_one picks
    | Spurious(t: nat)

  function Range(a: nat, b: nat): (s: seq<nat>)
    ensures |s| == if a <= b then b - a else 0
    ensures forall i | 0 <= i < |s| :: s[i] == a + i
    decreases b - a
  {
    if a >= b then [] else [a] + Range(a + 1, b)
  }

  function Below(n: nat): (s: set<nat>)
    ensures |s| == n && forall i: nat :: i in s <==> i < n
  {
    if n == 0 then {} else Below(n - 1) + {n - 1}
  }

  function New(threads: nat): Pool {
    Pool(threads, 0, 0, 0, [], [], map[], {}, {})
  }

  /** What a successful Start(n, max) does: the connections made join whatever is in the idle queue. */
  function Opened(p: Pool, n: nat, max: nat): Pool {
    var more := Range(p.made, p.made + n);
    p.(cap := max, size := n, made := p.made + n, conns := more, idle := p.idle + more)
  }

  function Started(threads: nat, n: nat, max: nat): Pool {
    Opened(New(threads), n, max)
  }

  /** Stop closes and forgets every connection; the idle queue stays as it is. */
  function Stopped(p: Pool): Pool {
    p.(cap := 0, size := 0, conns := [])
  }

  /** Its notify wakes every sleeper. */
  function Woken(p: Pool): Pool {
    p.(asleep := {}, ready := p.ready + p.asleep)
  }

  predicate Enabled(p: Pool, e: Event) {
    match e
    case Get(t, _) => t < p.threads && t !in p.held && t !in p.asleep
    case Return(t, w) => t in p.held && (p.idle == [] && p.asleep != {} ==> w in p.asleep)
    case Spurious(t) => t in p.asleep
  }

  function Pop(p: Pool, t: nat): Pool
    requires p.idle != []
  {
    p.(idle := p.idle[1..], held := p.held[t := p.idle[0]], ready := p.ready - {t})
  }

  /** CreateConn, and the new connection pushed on the idle queue. */
  function Connect(p: Pool): Pool {
    p.(conns := p.conns + [p.made], size := p.size + 1, made := p.made + 1, idle := [p.made])
  }

  function Step(p: Pool, e: Event): Pool
    requires Enabled(p, e)
  {
    match e
    case Get(t, connects) =>
      if p.idle != [] then Pop(p, t)
      else if p.size + 1 <= p.cap then
        if connects then Pop(Connect(p), t)
        else p.(ready := p.ready - {t})
      else p.(asleep := p.asleep + {t}, ready := p.ready - {t})
    case Return(t, w) =>
      var q := p.(idle := p.idle + [p.held[t]], held := p.held - {t});
      if p.idle == [] && p.asleep != {} then q.(asleep := p.asleep - {w}, ready := p.ready + {w}) else q
    case Spurious(t) => p.(asleep := p.asleep - {t}, ready := p.ready + {t})
  }

  // ---------- Partition ----------

  ghost predicate Borrowed(held: map<nat, nat>, c: nat) {
    exists t: nat :: t in held && held[t] == c
  }

  /** No connection is idle twice, borrowed twice, or both. */
  ghost predicate Exclusive(p: Pool) {
    && (forall i: nat | i < |p.idle| :: !Borrowed(p.held, p.idle[i]))
    && (forall i: nat, j: nat | i < j < |p.idle| :: p.idle[i] != p.idle[j])
    && (forall t: nat, u: nat | t in p.held && u in p.held && p.held[t] == p.held[u] :: t == u)
  }

  /** Exactly the connections of the pool are idle or borrowed. */
  ghost predicate Covered(p: Pool) {
    && (forall i: nat | i < |p.idle| :: p.idle[i] in p.conns)
    && (forall t: nat | t in p.held :: p.held[t] in p.conns)
    && (forall c: nat | c in p.conns && c !in p.idle :: Borrowed(p.held, c))
  }

  ghost predicate Counted(p: Pool) {
    && |p.conns| == p.size <= p.cap && |p.idle| + |p.held| == p.size
    && (forall c: nat | c in p.conns :: c < p.made)
  }

  ghost predicate Shared(p: Pool) {
    Exclusive(p) && Covered(p) && Counted(p)
  }

  /** A thread is in one place. */
  ghost predicate Placed(p: Pool) {
    && p.asleep !! p.ready && p.held.Keys !! p.asleep && p.held.Keys !! p.ready
    && p.held.Keys <= Below(p.threads) && p.asleep <= Below(p.threads) && p.ready <= Below(p.threads)
  }

  ghost predicate Partitioned(p: Pool) {
    Shared(p) && Placed(p)
  }

  lemma PopExclusive(p: Pool, t: nat)
    requires Exclusive(p) && p.idle != [] && t !in p.held
    ensures Exclusive(Pop(p, t))
  {
    var q, c := Pop(p, t), p.idle[0];
    assert forall u: nat | u in p.held :: p.held[u] != c by {
      assert !Borrowed(p.held, p.idle[0]);
    }
    forall i: nat | i < |q.idle|
      ensures !Borrowed(q.held, q.idle[i])
    {
      assert q.idle[i] == p.idle[i + 1] && p.idle[i + 1] != c;
      assert !Borrowed(p.held, p.idle[i + 1]);
    }
  }

  lemma PopCovered(p: Pool, t: nat)
    requires Covered(p) && p.idle != [] && t !in p.held
    ensures Covered(Pop(p, t))
  {
    var q, c := Pop(p, t), p.idle[0];
    forall d: nat | d in q.conns && d !in q.idle
      ensures Borrowed(q.held, d)
    {
      if d == c {
        assert q.held[t] == c;
      } else {
        assert p.idle == [c] + q.idle;
        assert d !in p.idle && Borrowed(p.held, d);
        var u: nat :| u in p.held && p.held[u] == d;
        assert q.held[u] == d;
      }
    }
  }

  lemma PopShares(p: Pool, t: nat)
    requires Shared(p) && p.idle != [] && t !in p.held
    ensures Shared(Pop(p, t))
  {
    PopExclusive(p, t);
    PopCovered(p, t);
  }

  lemma ConnectShares(p: Pool)
    requires Shared(p) && p.idle == [] && p.size < p.cap
    ensures Shared(Connect(p))
  {
    var q := Connect(p);
    assert !Borrowed(p.held, p.made);
    assert q.idle[0] == p.made;
  }

  lemma ReturnExclusive(p: Pool, t: nat)
    requires Exclusive(p) && t in p.held
    ensures Exclusive(p.(idle := p.idle + [p.held[t]], held := p.held - {t}))
  {
    var c := p.held[t];
    var q := p.(idle := p.idle + [c], held := p.held - {t});
    assert Borrowed(p.held, c);
    forall i: nat | i < |q.idle|
      ensures !Borrowed(q.held, q.idle[i])
    {
      assert i < |p.idle| ==> q.idle[i] == p.idle[i] && !Borrowed(p.held, p.idle[i]);
    }
  }

  lemma ReturnCovered(p: Pool, t: nat)
    requires Covered(p) && t in p.held
    ensures Covered(p.(idle := p.idle + [p.held[t]], held := p.held - {t}))
  {
    var c := p.held[t];
    var q := p.(idle := p.idle + [c], held := p.held - {t});
    forall d: nat | d in q.conns && d !in q.idle
      ensures Borrowed(q.held, d)
    {
      assert q.idle[|p.idle|] == c;
      assert d != c && d !in p.idle;
      var u: nat :| u in p.held && p.held[u] == d;
      assert q.held[u] == d;
    }
  }

  lemma StepShares(p: Pool, e: Event)
    requires Shared(p) && Enabled(p, e)
    ensures Shared(Step(p, e))
  {
    match e
    case Get(t, connects) =>
      if p.idle != [] {
        PopShares(p, t);
      } else if p.size + 1 <= p.cap && connects {
        ConnectShares(p);
        PopShares(Connect(p), t);
      }
    case Return(t, w) =>
      ReturnExclusive(p, t);
      ReturnCovered(p, t);
    case Spurious(t) =>
  }

  lemma StepPlaces(p: Pool, e: Event)
    requires Placed(p) && Enabled(p, e)
    ensures Placed(Step(p, e)) && Step(p, e).cap == p.cap && Step(p, e).threads == p.threads
  {
  }

  lemma PartitionKept()
    ensures Kept(Step, Partitioned)
  {
    forall p: Pool, e: Event | Partitioned(p) && Step.requires(p, e)
      ensures Partitioned(Step(p, e))
    {
      StepShares(p, e);
      StepPlaces(p, e);
    }
  }

  /** Over every interleaving of borrows and returns. */
  lemma RunPartitions(p: Pool, es: seq<Event>)
    requires Partitioned(p) && IsRun(Step, p, es)
    ensures Partitioned(End(Step, p, es))
  {
    PartitionKept();
    KeepsInvariant(Step, Partitioned, p, es);
  }

  lemma InRange(a: nat, b: nat, c: nat)
    ensures c in Range(a, b) <==> a <= c < b
  {
    if a <= c < b {
      assert Range(a, b)[c - a] == c;
    }
  }

  lemma AllIdle(p: Pool)
    requires Placed(p) && p.held == map[] && p.idle == p.conns && |p.conns| == p.size <= p.cap
    requires forall i: nat, j: nat | i < j < |p.conns| :: p.conns[i] != p.conns[j]
    requires forall i: nat | i < |p.conns| :: p.conns[i] < p.made
    ensures Partitioned(p)
  {
  }

  lemma OpenedClean(p: Pool, n: nat, max: nat)
    requires n <= max && Placed(p) && p.idle == [] && p.held == map[]
    ensures Partitioned(Opened(p, n, max))
  {
    var q := Opened(p, n, max);
    assert q.idle == q.conns;
    AllIdle(q);
  }

  lemma OpenedUnclean(p: Pool, n: nat, max: nat, c: nat)
    requires c < p.made && (c in p.idle || Borrowed(p.held, c))
    ensures !Covered(Opened(p, n, max))
  {
    var q := Opened(p, n, max);
    InRange(p.made, p.made + n, c);
    assert c !in q.conns;
    if c in p.idle {
      var i :| 0 <= i < |p.idle| && p.idle[i] == c;
      assert q.idle[i] == c;
    }
  }

  /** Start partitions the pool it opens exactly when nothing was in the idle queue or borrowed. */
  lemma OpenedPartitionsExactly(p: Pool, n: nat, max: nat)
    requires n <= max && Placed(p)
    requires (forall i: nat | i < |p.idle| :: p.idle[i] < p.made) && (forall t: nat | t in p.held :: p.held[t] < p.made)
    ensures Partitioned(Opened(p, n, max)) <==> p.idle == [] && p.held == map[]
  {
    if p.idle != [] {
      OpenedUnclean(p, n, max, p.idle[0]);
    } else if t: nat :| t in p.held {
      assert Borrowed(p.held, p.held[t]);
      OpenedUnclean(p, n, max, p.held[t]);
    } else {
      assert p.held == map[];
      OpenedClean(p, n, max);
    }
  }

  lemma StartedPartitions(threads: nat, n: nat, max: nat)
    requires n <= max
    ensures Partitioned(Started(threads, n, max))
  {
    OpenedPartitionsExactly(New(threads), n, max);
  }

  /** The pool after Stop, its notify and Start. */
  function Restarted(p: Pool, n: nat, max: nat): Pool {
    Opened(Woken(Stopped(p)), n, max)
  }

  /** A thread that waits for a connection, asleep or about to test again, waits through every run until
      its own next pass; Stop and Start wake it and lose none. */
  lemma {:induction false} WaitersAreKept(p: Pool, es: seq<Event>, t: nat)
    requires IsRun(Step, p, es) && t in p.asleep + p.ready && forall i | 0 <= i < |es| :: !(es[i].Get? && es[i].t == t)
    ensures t in End(Step, p, es).asleep + End(Step, p, es).ready
    ensures forall n: nat, max: nat :: t in Restarted(End(Step, p, es), n, max).ready
    decreases |es|
  {
    if es != [] {
      assert !(es[0].Get? && es[0].t == t);
      WaitersAreKept(Step(p, es[0]), es[1..], t);
    }
  }

  lemma OldNumbers(p: Pool)
    requires Partitioned(p)
    ensures forall i: nat | i < |p.idle| :: p.idle[i] < p.made
    ensures forall t: nat | t in p.held :: p.held[t] < p.made
  {
    forall i: nat | i < |p.idle|
      ensures p.idle[i] < p.made
    {
      assert p.idle[i] in p.conns;
    }
  }

  /** A pool that is stopped and started again is partitioned if and only if it held no connection when
      it was stopped. */
  lemma RestartPartitionsExactly(p: Pool, n: nat, max: nat)
    requires Partitioned(p) && n <= max
    ensures Partitioned(Restarted(p, n, max)) <==> p.size == 0
  {
    OldNumbers(p);
    OpenedPartitionsExactly(Woken(Stopped(p)), n, max);
    assert |p.held| == 0 <==> p.held == map[];
  }

  /** The last event of the run hands thread t a connection numbered below `old`. */
  ghost predicate HandsOut(p: Pool, es: seq<Event>, t: nat, before: nat) {
    && IsRun(Step, p, es) && es != [] && es[|es| - 1].Get? && es[|es| - 1].t == t
    && t in End(Step, p, es).held && End(Step, p, es).held[t] < before
  }

  /** A thread that borrows and returns comes to any connection of the idle queue. */
  lemma {:induction false} Reach(p: Pool, t: nat, j: nat) returns (es: seq<Event>)
    requires t < p.threads && t !in p.held && p.asleep == {} && j < |p.idle|
    ensures HandsOut(p, es, t, p.idle[j] + 1)
    decreases j
  {
    var q := Step(p, Get(t, true));
    if j == 0 {
      es := [Get(t, true)];
      One(Step, p, Get(t, true));
    } else {
      var r := Step(q, Return(t, 0));
      assert r.idle == p.idle[1..] + [p.idle[0]] && r.idle[j - 1] == p.idle[j];
      Two(Step, p, Get(t, true), Return(t, 0));
      var fs := Reach(r, t, j - 1);
      Concat(Step, p, [Get(t, true), Return(t, 0)], fs);
      es := [Get(t, true), Return(t, 0)] + fs;
    }
  }

  lemma ReturnThenReach(p: Pool, t: nat, before: nat) returns (es: seq<Event>)
    requires t < p.threads && t in p.held && p.asleep == {}
    requires p.held[t] < before
    ensures HandsOut(p, es, t, before)
  {
    var q := Step(p, Return(t, 0));
    assert q.idle[|p.idle|] == p.held[t];
    One(Step, p, Return(t, 0));
    var fs := Reach(q, t, |p.idle|);
    Concat(Step, p, [Return(t, 0)], fs);
    es := [Return(t, 0)] + fs;
  }

  lemma CleanHandsOutNew(p: Pool, es: seq<Event>, t: nat, before: nat)
    requires Partitioned(p) && IsRun(Step, p, es) && forall c: nat | c in p.conns :: before <= c
    requires before <= p.made
    ensures !HandsOut(p, es, t, before)
  {
    forall q: Pool, e: Event | Fresh(before)(q) && Step.requires(q, e)
      ensures Fresh(before)(Step(q, e))
    {
      StepShares(q, e);
      StepPlaces(q, e);
      FreshStep(q, e, before);
    }
    KeepsInvariant(Step, Fresh(before), p, es);
  }

  /** The pool is partitioned and all its connections are numbered from `before` on. */
  ghost function Fresh(before: nat): Pool -> bool {
    (p: Pool) => Partitioned(p) && before <= p.made && forall c: nat | c in p.conns :: before <= c
  }

  lemma FreshStep(p: Pool, e: Event, before: nat)
    requires Enabled(p, e) && before <= p.made && forall c: nat | c in p.conns :: before <= c
    ensures before <= Step(p, e).made && forall c: nat | c in Step(p, e).conns :: before <= c
  {
  }

  ghost predicate HandsOutOld(p: Pool, before: nat) {
    exists es, t: nat :: HandsOut(p, es, t, before)
  }

  /** After a restart some borrower can be handed a connection that Stop has closed if and only if the pool
      held a connection when it was stopped. */
  lemma ClosedHandedOutExactly(p: Pool, n: nat, max: nat)
    requires Partitioned(p) && n <= max && p.threads > 0
    ensures HandsOutOld(Restarted(p, n, max), p.made) <==> p.size > 0
  {
    var r := Restarted(p, n, max);
    OldNumbers(p);
    if t: nat :| t in p.held {
      var es := ReturnThenReach(r, t, p.made);
      assert HandsOut(r, es, t, p.made);
      assert p.size > 0;
    } else if p.idle != [] {
      assert r.idle[0] == p.idle[0];
      var es := Reach(r, 0, 0);
      assert HandsOut(r, es, 0, p.made);
    } else {
      assert p.held == map[];
      RestartPartitionsExactly(p, n, max);
      forall c: nat | c in r.conns
        ensures p.made <= c
      {
        InRange(p.made, p.made + n, c);
      }
      forall es, t: nat | IsRun(Step, r, es)
        ensures !HandsOut(r, es, t, p.made)
      {
        CleanHandsOutNew(r, es, t, p.made);
      }
    }
  }

  // ---------- Sleepers ----------

  /** A connection is free, somebody waits for one, and nobody has been woken to take it. */
  predicate Stranded(p: Pool) {
    p.idle != [] && p.asleep != {} && p.ready == {}
  }

  predicate Small(p: Pool) {
    p.cap <= 1 || p.threads <= p.cap + 1
  }

  /** With one connection, or at most one thread more than connections, a notification on the change
      from empty is enough. */
  ghost predicate Attended(p: Pool) {
    && Partitioned(p) && Small(p)
    && if p.cap <= 1 then p.asleep != {} && p.idle != [] ==> p.ready != {}
       else p.asleep != {} ==> p.idle == [] && p.size == p.cap
  }

  lemma OneLeft(held: set<nat>, asleep: set<nat>, n: nat, w: nat)
    requires held !! asleep && held <= Below(n) && asleep <= Below(n) && n <= |held| + 1 && w in asleep
    ensures asleep == {w}
  {
    SubsetSize(held + asleep, Below(n));
    assert |held + asleep| == |held| + |asleep|;
    assert |asleep - {w}| == |asleep| - 1;
  }

  lemma {:induction false} SubsetSize(a: set<nat>, b: set<nat>)
    requires a <= b
    ensures |a| <= |b|
    decreases |a|
  {
    if a != {} {
      var x :| x in a;
      SubsetSize(a - {x}, b - {x});
    }
  }

  lemma StepAttends(p: Pool, e: Event)
    requires Attended(p) && Enabled(p, e)
    ensures Attended(Step(p, e))
  {
    StepShares(p, e);
    StepPlaces(p, e);
    if e.Return? && p.cap > 1 && p.asleep != {} {
      assert |p.held.Keys| == |p.held|;
      OneLeft(p.held.Keys, p.asleep, p.threads, e.wakes);
    }
  }

  lemma NeverStrands(threads: nat, n: nat, max: nat, es: seq<Event>)
    requires n <= max && !(2 <= max && max + 2 <= threads) && IsRun(Step, Started(threads, n, max), es)
    ensures !Stranded(End(Step, Started(threads, n, max), es))
  {
    StartedPartitions(threads, n, max);
    forall p: Pool, e: Event | Attended(p) && Step.requires(p, e)
      ensures Attended(Step(p, e))
    {
      StepAttends(p, e);
    }
    KeepsInvariant(Step, Attended, Started(threads, n, max), es);
  }

  /** Exactly the threads 0..k-1 hold a connection and nobody waits. */
  ghost predicate Taken(p: Pool, k: nat) {
    p.held.Keys == Below(k) && p.asleep == {} && p.ready == {}
  }

  lemma TakeOne(p: Pool, k: nat)
    requires Taken(p, k) && |p.idle| + k == p.size && k < p.cap && k < p.threads
    ensures Enabled(p, Get(k, true)) && Taken(Step(p, Get(k, true)), k + 1)
  {
    assert p.held[k := 0].Keys == Below(k + 1);
  }

  lemma {:induction false} TakeAll(p: Pool, max: nat, k: nat) returns (es: seq<Event>)
    requires Partitioned(p) && Taken(p, 0) && k <= p.cap == max && k <= p.threads
    ensures IsRun(Step, p, es)
    ensures var q := End(Step, p, es); Partitioned(q) && Taken(q, k) && q.cap == max && q.threads == p.threads
    decreases k
  {
    es := [];
    if k > 0 {
      es := TakeAll(p, max, k - 1);
      var q := End(Step, p, es);
      assert |q.held| == |q.held.Keys| == k - 1;
      TakeOne(q, k - 1);
      StepShares(q, Get(k - 1, true));
      StepPlaces(q, Get(k - 1, true));
      One(Step, q, Get(k - 1, true));
      Concat(Step, p, es, [Get(k - 1, true)]);
      es := es + [Get(k - 1, true)];
    }
  }

  /** Once all connections are out: two threads go to sleep, two connections come back, the one woken
      thread takes one. */
  lemma StrandFrom(p: Pool, a: nat, b: nat)
    requires a < p.threads && b < p.threads && a != b && a !in p.held && b !in p.held && 0 in p.held && 1 in p.held
    requires p.idle == [] && p.asleep == {} && p.ready == {} && p.cap <= p.size
    ensures var es := [Get(a, true), Get(b, true), Return(0, a), Return(1, a)] + [Get(a, true)];
      IsRun(Step, p, es) && Stranded(End(Step, p, es))
  {
    var p1 := Step(p, Get(a, true));
    var p2 := Step(p1, Get(b, true));
    assert p2.asleep == {a, b} && p2.idle == [];
    var p3 := Step(p2, Return(0, a));
    assert p3.asleep == {b} && p3.ready == {a} && p3.idle == [p.held[0]];
    var p4 := Step(p3, Return(1, a));
    assert p4.asleep == {b} && p4.ready == {a} && p4.idle == [p.held[0], p.held[1]];
    Four(Step, p, Get(a, true), p1, Get(b, true), p2, Return(0, a), p3, Return(1, a), p4);
    assert Enabled(p4, Get(a, true)) && Step(p4, Get(a, true)).idle == [p.held[1]];
    One(Step, p4, Get(a, true));
    Concat(Step, p, [Get(a, true), Get(b, true), Return(0, a), Return(1, a)], [Get(a, true)]);
  }

  lemma CanStrand(threads: nat, n: nat, max: nat) returns (es: seq<Event>)
    requires n <= max && 2 <= max && max + 2 <= threads
    ensures IsRun(Step, Started(threads, n, max), es) && Stranded(End(Step, Started(threads, n, max), es))
  {
    var s := Started(threads, n, max);
    StartedPartitions(threads, n, max);
    var out := TakeAll(s, max, max);
    var p := End(Step, s, out);
    assert |p.held| == |p.held.Keys| == max;
    StrandFrom(p, max, max + 1);
    es := [Get(max, true), Get(max + 1, true), Return(0, max), Return(1, max)] + [Get(max, true)];
    Concat(Step, s, out, es);
    es := out + es;
  }

  ghost predicate Strands(p: Pool, es: seq<Event>) {
    IsRun(Step, p, es) && Stranded(End(Step, p, es))
  }

  /** A connection and a sleeper can be left facing each other if and only if the pool may hold two
      connections and at least two threads more than that use it. */
  lemma StrandingExactly(threads: nat, n: nat, max: nat)
    requires n <= max
    ensures (exists es :: Strands(Started(threads, n, max), es)) <==> 2 <= max && max + 2 <= threads
  {
    if 2 <= max && max + 2 <= threads {
      var es := CanStrand(threads, n, max);
      assert Strands(Started(threads, n, max), es);
    } else {
      forall es | IsRun(Step, Started(threads, n, max), es)
        ensures !Strands(Started(threads, n, max), es)
      {
        NeverStrands(threads, n, max, es);
      }
    }
  }

  /** A wait that ends by itself changes nothing: the thread tests again and sleeps. */
  lemma SpuriousIsHarmless(p: Pool, t: nat, connects: bool)
    requires Partitioned(p) && t in p.asleep && p.idle == [] && p.size == p.cap
    ensures IsRun(Step, p, [Spurious(t), Get(t, connects)]) && End(Step, p, [Spurious(t), Get(t, connects)]) == p
  {
    assert t < p.threads && t !in p.ready && t !in p.held.Keys;
    var q := Step(p, Spurious(t));
    assert Enabled(q, Get(t, connects));
    Two(Step, p, Spurious(t), Get(t, connects));
    assert q.asleep + {t} == p.asleep && q.ready - {t} == p.ready;
  }

  // ---------- The pool object ----------

  /** A number stands for the connection it was given to. Who holds one, sleeps or has been woken is
      ghost. */
  class DBM {
    var running: bool
    var conns: seq<nat>
    var free: seq<nat>
    var poolSize: nat
    var poolMaxCap: nat
    var made: nat
    ghost const threads: nat
    ghost var held: map<nat, nat>
    ghost var asleep: set<nat>
    ghost var ready: set<nat>

    constructor (ghost threads: nat)
      ensures Valid() && !running && View() == New(threads)
    {
      this.threads := threads;
      running, conns, free, poolSize, poolMaxCap, made := false, [], [], 0, 0, 0;
      held, asleep, ready := map[], {}, {};
    }

    predicate Valid()
      reads this
    {
      !running ==> conns == []
    }

    ghost function View(): Pool
      reads this
    {
      Pool(threads, poolMaxCap, poolSize, made, conns, free, held, asleep, ready)
    }

    /** `connects` says which of the connections can be made. One that cannot undoes all of them. */
    method Start(n: nat, max: nat, connects: seq<bool>) returns (ok: bool)
      requires Valid() && n <= |connects|
      modifies this
      ensures Valid() && (ok <==> !old(running) && n <= max && forall i | 0 <= i < n :: connects[i])
      ensures running == (ok || old(running)) && View() == if ok then Opened(old(View()), n, max) else old(View())
    {
      if running || max < n {
        return false;
      }
      for i := 0 to n
        modifies `conns
        invariant conns == Range(made, made + i) && forall j | 0 <= j < i :: connects[j]
      {
        if !connects[i] {
          conns := [];
          return false;
        }
        conns := conns + [made + i];
      }
      poolSize, poolMaxCap, running, made := n, max, true, made + n;
      for i := 0 to |conns|
        modifies `free
        invariant free == old(free) + conns[..i]
      {
        free := free + [conns[i]];
      }
      return true;
    }

    /** `notify` tells whether notify_all follows. */
    method Stop() returns (notify: bool)
      requires Valid()
      modifies this
      ensures Valid() && !running && notify == old(running) && View() == if notify then Stopped(old(View())) else old(View())
      ensures notify ==> conns == [] && poolSize == 0 && poolMaxCap == 0 && free == old(free)
    {
      notify := running;
      if notify {
        conns, running, poolSize, poolMaxCap := [], false, 0, 0;
      }
    }

    method CreateConn(connects: bool) returns (conn: Option<nat>)
      modifies `conns, `poolSize, `made
      ensures conn == if connects then Some(old(made)) else None
      ensures conns == old(conns) + (if connects then [old(made)] else [])
      ensures poolSize - old(poolSize) == made - old(made) == if connects then 1 else 0
    {
      if !connects {
        return None;
      }
      conn := Some(made);
      conns, poolSize, made := conns + [made], poolSize + 1, made + 1;
    }

    /** Thread t with the latch, from its test of the idle queue to a connection, none, or a wait. */
    method GetIdleConn(ghost t: nat, connects: bool) returns (conn: Option<nat>)
      requires Valid() && t < threads && t !in held && t !in asleep
      modifies this
      ensures Valid() && running == old(running)
      ensures View() == if running then Step(old(View()), Get(t, connects)) else old(View()).(ready := old(ready) - {t})
      ensures if conn.Some? then t in held && held[t] == conn.value else t !in held
      ensures conn.Some? <==> running && (old(free) != [] || (connects && old(poolSize) < old(poolMaxCap)))
      ensures t !in ready && (t in asleep <==> running && old(free) == [] && old(poolSize) >= old(poolMaxCap))
    {
      ready := ready - {t};
      if !running {
        return None;
      }
      if free == [] {
        if poolSize + 1 > poolMaxCap {
          asleep := asleep + {t};
          return None;
        }
        conn := CreateConn(connects);
        if conn.None? {
          return;
        }
        free := free + [conn.value];
      }
      conn := Some(free[0]);
      free := free[1..];
      held := held[t := conn.value];
    }

    /** `wake` tells whether notify_one is called; it picks the sleeper w, if there is one. */
    method ReturnIdleConn(ghost t: nat, conn: nat, ghost w: nat) returns (wake: bool)
      requires Valid() && t in held && held[t] == conn && (free == [] && asleep != {} ==> w in asleep)
      modifies this
      ensures Valid() && running == old(running)
      ensures View() == Step(old(View()), Return(t, w)) && wake == (old(free) == [])
    {
      wake := free == [];
      free, held := free + [conn], held - {t};
      if wake && asleep != {} {
        asleep, ready := asleep - {w}, ready + {w};
      }
    }
  }
}
