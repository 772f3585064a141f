/** The send half of a session (session.cpp) as a protocol over its atomic sections. A call of
    QueueSend is one link of a chain: it waits for the latch, pops a message into the shared slot
    `sending`, hands that slot to an asynchronous write, and the completion calls QueueSend again. The
    slot is the only owner of the buffer being written. */
module SendPump {
  import opened Basics
  import opened Runs

  type Msg = seq<byte>

  /** `starts` calls of QueueSend wait for the latch, `holding` have popped but not yet started their
      write; `flying` are the outstanding writes, each by the number of the pop whose buffer it uses.
      The last four fields record the history; `wrote` are the numbers of the pops written. */
  datatype Pump = Pump(
    queue: seq<Msg>, sending: Msg, starts: nat, holding: nat, flying: seq<int>, down: bool,
    enqueued: seq<Msg>, popped: seq<Msg>, written: seq<Msg>, wrote: seq<int>)

  datatype Event =
    | Send(m: Msg)              // the critical section of Send
    | Pop                       // the critical section of QueueSend
    | Write                     // async_write of the shared slot
    | Done(ok: bool, k: nat)    // completion handler of the k-th outstanding write
    | Close

  const IDLE := Pump([], [], 0, 0, [], false, [], [], [], [])

  predicate Enabled(p: Pump, e: Event) {
    match e
    case Pop => p.starts > 0
    case Write => p.holding > 0
    case Done(_, k) => k < |p.flying|
    case _ => true
  }

  /** The number of the pop whose message is in the slot. */
  function Slot(p: Pump): int {
    |p.popped| - 1
  }

  function Without(s: seq<int>, k: nat): (r: seq<int>)
    requires k < |s|
    ensures |r| == |s| - 1 && forall i | 0 <= i < |r| :: r[i] == if i < k then s[i] else s[i + 1]
  {
    s[..k] + s[k + 1..]
  }

  function Step(p: Pump, e: Event): Pump
    requires Enabled(p, e)
  {
    match e
    case Send(m) =>
      p.(starts := if p.queue == [] then p.starts + 1 else p.starts,
         queue := p.queue + [m], enqueued := p.enqueued + [m])
    case Pop =>
      if p.queue == [] then p.(starts := p.starts - 1)
      else p.(starts := p.starts - 1, holding := p.holding + 1, sending := p.queue[0],
              queue := p.queue[1..], popped := p.popped + [p.queue[0]])
    case Write =>
      p.(holding := p.holding - 1, flying := p.flying + [Slot(p)],
         written := p.written + [p.sending], wrote := p.wrote + [Slot(p)])
    case Done(ok, k) =>
      var q := p.(flying := Without(p.flying, k));
      if !ok then q.(down := true) else if p.down then q else q.(starts := p.starts + 1)
    case Close => p.(down := true)
  }

  /** Calls of QueueSend that are alive. */
  function Chains(p: Pump): nat {
    p.starts + p.holding + |p.flying|
  }

  // ---------- What holds in every interleaving ----------

  /** The slot holds the last message popped, and every write gave the socket the message of its number. */
  ghost predicate Named(p: Pump) {
    && (p.popped != [] ==> p.sending == p.popped[Slot(p)])
    && |p.wrote| == |p.written|
    && (forall i | 0 <= i < |p.wrote| :: 0 <= p.wrote[i] <= Slot(p) && p.written[i] == p.popped[p.wrote[i]])
  }

  lemma StepNames(p: Pump, e: Event)
    requires Named(p) && |p.written| + p.holding == |p.popped| && Enabled(p, e)
    ensures Named(Step(p, e))
  {
  }

  /** Messages leave the queue in the order they entered it, and a session that is up never leaves
      a message behind with nobody to send it. */
  ghost predicate Conserves(p: Pump) {
    && p.popped + p.queue == p.enqueued
    && |p.written| + p.holding == |p.popped|
    && (!p.down && p.queue != [] ==> Chains(p) > 0)
    && Named(p) && FliesBelow(p)
  }

  ghost predicate FliesBelow(p: Pump) {
    forall i | 0 <= i < |p.flying| :: p.flying[i] <= Slot(p)
  }

  lemma StepQueues(p: Pump, e: Event)
    requires p.popped + p.queue == p.enqueued && Enabled(p, e)
    ensures Step(p, e).popped + Step(p, e).queue == Step(p, e).enqueued
  {
    match e
    case Send(m) => assert p.popped + (p.queue + [m]) == p.popped + p.queue + [m];
    case Pop =>
      if p.queue != [] {
        assert p.popped + [p.queue[0]] + p.queue[1..] == p.popped + p.queue;
      }
    case _ =>
  }

  lemma StepFlies(p: Pump, e: Event)
    requires FliesBelow(p) && Enabled(p, e)
    ensures FliesBelow(Step(p, e))
  {
  }

  lemma StepConserves(p: Pump, e: Event)
    requires Conserves(p) && Enabled(p, e)
    ensures Conserves(Step(p, e))
  {
    StepQueues(p, e);
    StepNames(p, e);
    StepFlies(p, e);
  }

  lemma ConservesKept()
    ensures Kept(Step, Conserves)
  {
    forall p: Pump, e: Event | Conserves(p) && Step.requires(p, e)
      ensures Conserves(Step(p, e))
    {
      StepConserves(p, e);
    }
  }

  lemma EveryRunConserves(p: Pump, es: seq<Event>)
    requires Conserves(p) && IsRun(Step, p, es)
    ensures Conserves(End(Step, p, es))
  {
    ConservesKept();
    KeepsInvariant(Step, Conserves, p, es);
  }

  // ---------- One chain ----------

  predicate TwoChains(p: Pump) {
    Chains(p) > 1
  }

  /** A Send that finds the queue empty while a chain is alive starts a second one. */
  predicate Overlaps(p: Pump, e: Event) {
    e.Send? && p.queue == [] && Chains(p) > 0
  }

  lemma ChainStep(p: Pump, e: Event)
    requires !TwoChains(p) && Enabled(p, e)
    ensures TwoChains(Step(p, e)) <==> Overlaps(p, e)
  {
  }

  /** "At any time at most one QueueSend" holds along a run if and only if no Send overlaps. */
  lemma OneChainExactly(p: Pump, es: seq<Event>)
    requires Conserves(p) && IsRun(Step, p, es) && !TwoChains(p)
    ensures Avoids(Step, TwoChains, p, es) <==> Never(Step, Overlaps, p, es)
  {
    ConservesKept();
    forall q: Pump, e: Event | Conserves(q) && !TwoChains(q) && Step.requires(q, e)
      ensures TwoChains(Step(q, e)) <==> Overlaps(q, e)
    {
      ChainStep(q, e);
    }
    AvoidsExactly(Step, Conserves, TwoChains, Overlaps, p, es);
  }

  // ---------- The buffer being written ----------

  /** A write is outstanding whose buffer the slot no longer owns. */
  predicate FreesWriting(p: Pump) {
    exists i | 0 <= i < |p.flying| :: p.flying[i] != Slot(p)
  }

  /** QueueSend pops a message while a write is outstanding. */
  predicate PopsOver(p: Pump, e: Event) {
    e.Pop? && p.queue != [] && p.flying != []
  }

  lemma FreesStep(p: Pump, e: Event)
    requires Conserves(p) && !FreesWriting(p) && Enabled(p, e)
    ensures FreesWriting(Step(p, e)) <==> PopsOver(p, e)
  {
    var q := Step(p, e);
    if PopsOver(p, e) {
      assert q.flying[0] == p.flying[0] != Slot(q);
    } else if !e.Pop? {
      forall i | 0 <= i < |q.flying|
        ensures q.flying[i] == Slot(q)
      {
        assert e.Done? ==> q.flying[i] == p.flying[if i < e.k then i else i + 1];
        assert !e.Done? && i < |p.flying| ==> q.flying[i] == p.flying[i];
      }
    }
  }

  /** Along a run the slot owns every buffer being written if and only if QueueSend never pops a message
      while a write is outstanding. */
  lemma BufferOwnedExactly(p: Pump, es: seq<Event>)
    requires Conserves(p) && IsRun(Step, p, es) && !FreesWriting(p)
    ensures Avoids(Step, FreesWriting, p, es) <==> Never(Step, PopsOver, p, es)
  {
    ConservesKept();
    forall q: Pump, e: Event | Conserves(q) && !FreesWriting(q) && Step.requires(q, e)
      ensures FreesWriting(Step(q, e)) <==> PopsOver(q, e)
    {
      FreesStep(q, e);
    }
    AvoidsExactly(Step, Conserves, FreesWriting, PopsOver, p, es);
  }

  // ---------- Every message once, in order ----------

  /** The message of pop n was overwritten in the slot before its write started. */
  predicate Overwritten(p: Pump, n: int) {
    0 <= n < Slot(p) && n !in p.wrote
  }

  ghost predicate LosesMessage(p: Pump) {
    exists n: int :: Overwritten(p, n)
  }

  /** QueueSend pops a message while another one waits in the slot for its write to start. */
  predicate Overwrites(p: Pump, e: Event) {
    e.Pop? && p.queue != [] && p.holding > 0
  }

  function Upto(n: nat): (s: seq<int>)
    ensures |s| == n && forall i | 0 <= i < n :: s[i] == i
  {
    if n == 0 then [] else Upto(n - 1) + [n - 1]
  }

  /** As long as none is lost, the pops have been written one by one. */
  ghost predicate Accounted(p: Pump) {
    Conserves(p) && (!LosesMessage(p) ==> p.holding <= 1 && p.wrote == Upto(|p.wrote|))
  }

  /** An overwritten message is never written, in any continuation. */
  lemma {:induction false} OverwrittenForever(p: Pump, es: seq<Event>, n: int)
    requires Overwritten(p, n) && IsRun(Step, p, es)
    ensures Overwritten(End(Step, p, es), n)
    decreases |es|
  {
    if es != [] {
      OverwrittenForever(Step(p, es[0]), es[1..], n);
    }
  }

  lemma LossStep(p: Pump, e: Event)
    requires Accounted(p) && !LosesMessage(p) && Enabled(p, e)
    ensures LosesMessage(Step(p, e)) <==> Overwrites(p, e)
  {
    var q := Step(p, e);
    if Overwrites(p, e) {
      assert Overwritten(q, Slot(p));
    } else {
      forall n: int
        ensures !Overwritten(q, n)
      {
        assert !Overwritten(p, n);
        if 0 <= n < |p.wrote| {
          assert p.wrote[n] == n && q.wrote[n] == n;
        }
      }
    }
  }

  lemma StepAccounts(p: Pump, e: Event)
    requires Accounted(p) && Enabled(p, e)
    ensures Accounted(Step(p, e))
  {
    StepConserves(p, e);
    var q := Step(p, e);
    if n: int :| Overwritten(p, n) {
      assert Overwritten(q, n);
    } else if !Overwrites(p, e) {
      assert p.wrote == Upto(|p.wrote|);
      assert e.Write? ==> q.wrote == Upto(|p.wrote|) + [|p.wrote|];
    } else {
      LossStep(p, e);
    }
  }

  lemma AccountedKept()
    ensures Kept(Step, Accounted)
  {
    forall p: Pump, e: Event | Accounted(p) && Step.requires(p, e)
      ensures Accounted(Step(p, e))
    {
      StepAccounts(p, e);
    }
  }

  /** Along a run no message is lost if and only if QueueSend never pops one while another waits in the
      slot for its write to start. */
  lemma LossExactly(p: Pump, es: seq<Event>)
    requires Accounted(p) && IsRun(Step, p, es) && !LosesMessage(p)
    ensures Avoids(Step, LosesMessage, p, es) <==> Never(Step, Overwrites, p, es)
  {
    AccountedKept();
    forall q: Pump, e: Event | Accounted(q) && !LosesMessage(q) && Step.requires(q, e)
      ensures LosesMessage(Step(q, e)) <==> Overwrites(q, e)
    {
      LossStep(q, e);
    }
    AvoidsExactly(Step, Accounted, LosesMessage, Overwrites, p, es);
  }

  /** The socket has been given the messages that were sent, each once and in order, up to some point. */
  ghost predicate InOrder(p: Pump) {
    p.wrote == Upto(|p.wrote|) && p.written <= p.enqueued
  }

  /** Where none is lost they are in order; and when no write is still to start, only there. */
  lemma OrderExactly(p: Pump)
    requires Accounted(p)
    ensures !LosesMessage(p) ==> InOrder(p)
    ensures p.holding == 0 ==> (InOrder(p) <==> !LosesMessage(p))
  {
    if n: int :| Overwritten(p, n) {
      if p.holding == 0 {
        assert p.wrote[n] in p.wrote;
      }
    } else {
      forall i | 0 <= i < |p.written|
        ensures p.written[i] == p.popped[i]
      {
        assert p.wrote[i] == i;
      }
      assert p.written == p.popped[..|p.written|] <= p.enqueued;
    }
  }

  /** With one chain neither happens: the slot is written before it is overwritten, and kept while it is
      being written. */
  ghost predicate OneByOne(p: Pump) {
    Accounted(p) && !TwoChains(p) && !FreesWriting(p) && !LosesMessage(p)
  }

  lemma {:induction false} OneChainKeepsOrder(p: Pump, es: seq<Event>)
    requires OneByOne(p) && IsRun(Step, p, es) && Never(Step, Overlaps, p, es)
    ensures OneByOne(End(Step, p, es)) && InOrder(End(Step, p, es)) && |End(Step, p, es).flying| <= 1
    ensures Never(Step, PopsOver, p, es) && Never(Step, Overwrites, p, es)
    decreases |es|
  {
    if es == [] {
      OrderExactly(p);
    } else {
      ChainStep(p, es[0]);
      FreesStep(p, es[0]);
      LossStep(p, es[0]);
      StepAccounts(p, es[0]);
      OneChainKeepsOrder(Step(p, es[0]), es[1..]);
    }
  }

  lemma IdleIsOneByOne()
    ensures OneByOne(IDLE)
  {
  }

  /** From two chains on, one more write can be made outstanding. */
  lemma OneMoreWrite(p: Pump, m: Msg) returns (es: seq<Event>)
    requires Chains(p) >= 2 && |p.flying| < 2
    ensures IsRun(Step, p, es)
    ensures var q := End(Step, p, es); Chains(q) >= 2 && |q.flying| == |p.flying| + 1
  {
    if p.holding > 0 {
      es := [Write];
      assert Enabled(p, Write);
      One(Step, p, Write);
    } else {
      var q := Step(Step(p, Send(m)), Pop);
      Two(Step, p, Send(m), Pop);
      assert Enabled(q, Write);
      One(Step, q, Write);
      es := [Send(m), Pop] + [Write];
      Concat(Step, p, [Send(m), Pop], [Write]);
    }
  }

  /** A second chain is never harmless: from there two writes can be made outstanding. */
  lemma {:induction false} TwoChainsCollide(p: Pump, m: Msg) returns (es: seq<Event>)
    requires Chains(p) >= 2
    ensures IsRun(Step, p, es) && |End(Step, p, es).flying| >= 2
    decreases 2 - |p.flying|
  {
    es := [];
    if |p.flying| < 2 {
      es := OneMoreWrite(p, m);
      var fs := TwoChainsCollide(End(Step, p, es), m);
      Concat(Step, p, es, fs);
      es := es + fs;
    }
  }

  /** Two messages are popped one after the other, then written: the first is lost, the second sent twice. */
  lemma OverlapLosesMessage(a: Msg, b: Msg)
    ensures var es := [Send(a), Pop, Send(b), Pop] + [Write, Write];
      IsRun(Step, IDLE, es) && !Never(Step, Overlaps, IDLE, es)
      && var p := End(Step, IDLE, es); p.enqueued == [a, b] && p.written == [b, b] && |p.flying| == 2
  {
    var p1 := Step(IDLE, Send(a));
    var p2 := Step(p1, Pop);
    var p3 := Step(p2, Send(b));
    var p4 := Step(p3, Pop);
    assert p4.enqueued == [a, b] && p4.sending == b && p4.holding == 2;
    Four(Step, IDLE, Send(a), p1, Pop, p2, Send(b), p3, Pop, p4);
    assert Enabled(p4, Write) && Enabled(Step(p4, Write), Write);
    Two(Step, p4, Write, Write);
    Concat(Step, IDLE, [Send(a), Pop, Send(b), Pop], [Write, Write]);
    LosingIsOverlapping([Send(a), Pop, Send(b), Pop] + [Write, Write]);
  }

  lemma LosingIsOverlapping(es: seq<Event>)
    requires IsRun(Step, IDLE, es) && |End(Step, IDLE, es).flying| > 1
    ensures !Never(Step, Overlaps, IDLE, es)
  {
    if Never(Step, Overlaps, IDLE, es) {
      IdleIsOneByOne();
      OneChainKeepsOrder(IDLE, es);
      assert false;
    }
  }

  /** Or the first is being written when the second is popped: its buffer loses its owner. */
  lemma OverlapFreesBuffer(a: Msg, b: Msg)
    ensures var es := [Send(a), Pop, Write, Send(b)] + [Pop];
      IsRun(Step, IDLE, es) && FreesWriting(End(Step, IDLE, es))
  {
    var p1 := Step(IDLE, Send(a));
    var p2 := Step(p1, Pop);
    var p3 := Step(p2, Write);
    var p4 := Step(p3, Send(b));
    Four(Step, IDLE, Send(a), p1, Pop, p2, Write, p3, Send(b), p4);
    assert Enabled(p4, Pop);
    One(Step, p4, Pop);
    assert Step(p4, Pop).flying[0] == 0;
    Concat(Step, IDLE, [Send(a), Pop, Write, Send(b)], [Pop]);
  }

  // ---------- A session that is down ----------

  /** A failed write and a Close take the session down, and neither starts a QueueSend. */
  lemma FailureTakesDown(p: Pump, e: Event)
    requires Enabled(p, e) && (e.Close? || (e.Done? && !e.ok))
    ensures Step(p, e).down && Step(p, e).starts == p.starts && Step(p, e).queue == p.queue
  {
  }

  /** The Sends of a run that find the queue empty; each starts a QueueSend, down or not. */
  ghost function Openings(p: Pump, es: seq<Event>): nat
    requires IsRun(Step, p, es)
    decreases |es|
  {
    if es == [] then 0
    else (if es[0].Send? && p.queue == [] then 1 else 0) + Openings(Step(p, es[0]), es[1..])
  }

  /** Down is for ever. From then on no completion starts a QueueSend: what is still popped is paid for by
      the calls that waited for the latch and by later Sends that find the queue empty. */
  lemma {:induction false} DownForever(p: Pump, es: seq<Event>)
    requires p.down && IsRun(Step, p, es)
    ensures var q := End(Step, p, es);
      q.down && |q.popped| + q.starts <= |p.popped| + p.starts + Openings(p, es)
    decreases |es|
  {
    if es != [] {
      DownForever(Step(p, es[0]), es[1..]);
    }
  }

  /** The chains of a run that end: at an empty queue, at a failed write or at a session that is down. */
  ghost function Endings(p: Pump, es: seq<Event>): nat
    requires IsRun(Step, p, es)
    decreases |es|
  {
    if es == [] then 0
    else
      (if (es[0].Pop? && p.queue == []) || (es[0].Done? && (!es[0].ok || p.down)) then 1 else 0)
      + Endings(Step(p, es[0]), es[1..])
  }

  /** Chains are conserved: a Send to an empty queue opens one, and nothing else opens or ends one. */
  lemma {:induction false} ChainsAreConserved(p: Pump, es: seq<Event>)
    requires IsRun(Step, p, es)
    ensures Chains(End(Step, p, es)) + Endings(p, es) == Chains(p) + Openings(p, es)
    decreases |es|
  {
    if es != [] {
      ChainsAreConserved(Step(p, es[0]), es[1..]);
    }
  }

  /** A session that is up goes on: a completed write is followed by the next message. */
  lemma CompletionGoesOn(p: Pump, k: nat)
    requires !p.down && k < |p.flying| && p.queue != []
    ensures var es := [Done(true, k), Pop, Write];
      IsRun(Step, p, es) && End(Step, p, es).popped == p.popped + [p.queue[0]] && End(Step, p, es).written == p.written + [p.queue[0]]
  {
    var q := Step(p, Done(true, k));
    assert Enabled(q, Pop) && Enabled(Step(q, Pop), Write);
    One(Step, p, Done(true, k));
    Two(Step, q, Pop, Write);
    Concat(Step, p, [Done(true, k)], [Pop, Write]);
    assert [Done(true, k)] + [Pop, Write] == [Done(true, k), Pop, Write];
  }

  // ---------- The session object ----------

  /** The sending fields of a session; the state of the calls under way and the history are ghost. */
  class Session {
    var queue: seq<Msg>
    var sending: Msg
    var down: bool
    ghost var starts: nat
    ghost var holding: nat
    ghost var flying: seq<int>
    ghost var enqueued: seq<Msg>
    ghost var popped: seq<Msg>
    ghost var written: seq<Msg>
    ghost var wrote: seq<int>

    constructor ()
      ensures View() == IDLE
    {
      queue, sending, down := [], [], false;
      starts, holding, flying, enqueued, popped, written, wrote := 0, 0, [], [], [], [], [];
    }

    ghost function View(): Pump
      reads this
    {
      Pump(queue, sending, starts, holding, flying, down, enqueued, popped, written, wrote)
    }

    /** `start` tells whether QueueSend follows. */
    method Send(m: Msg) returns (start: bool)
      modifies this
      ensures View() == Step(old(View()), Event.Send(m)) && (start <==> starts == old(starts) + 1)
      ensures queue == old(queue) + [m] && (start <==> old(queue) == [])
    {
      start := queue == [];
      queue, enqueued := queue + [m], enqueued + [m];
      if start {
        starts := starts + 1;
      }
    }

    /** The critical section of QueueSend; `write` tells whether a write follows. */
    method QueueSend() returns (write: bool)
      requires starts > 0
      modifies this
      ensures View() == Step(old(View()), Pop) && (write <==> holding == old(holding) + 1)
      ensures write <==> old(queue) != []
      ensures write ==> sending == old(queue)[0] && queue == old(queue)[1..]
    {
      starts := starts - 1;
      if queue == [] {
        return false;
      }
      sending, queue, popped := queue[0], queue[1..], popped + [queue[0]];
      holding := holding + 1;
      return true;
    }

    /** async_write: what the socket is given is what the slot holds now. */
    method AsyncWrite() returns (bytes: Msg)
      requires holding > 0
      modifies this
      ensures View() == Step(old(View()), Write) && written == old(written) + [bytes]
    {
      bytes := sending;
      holding, flying := holding - 1, flying + [|popped| - 1];
      written, wrote := written + [bytes], wrote + [|popped| - 1];
    }

    /** `again` tells whether QueueSend follows. */
    method OnWritten(err: bool, ghost k: nat) returns (again: bool)
      requires k < |flying|
      modifies this
      ensures View() == Step(old(View()), Done(!err, k)) && (again <==> starts == old(starts) + 1)
      ensures down == (old(down) || err) && (again <==> !err && !old(down))
    {
      flying, again := Without(flying, k), false;
      if err {
        Close();
      } else if !down {
        starts, again := starts + 1, true;
      }
    }

    method Close()
      modifies this
      ensures View() == Step(old(View()), Event.Close) && down
    {
      down := true;
    }
  }
}
