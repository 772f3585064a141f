/** The load balancer (load_balancer.cpp) on values: the owning table and the heap beside it.
    The theorems compare every run with a plain table that knows nothing of the heap. */
module BalancerModel {
  import opened Basics
  import opened HeapModel

  const SERVER_TIMEOUT: int := 40 * 1000

  datatype Info = Info(addr: string, load: u32, lastTs: u64)
  type Table = map<u32, Info>
  datatype Balancer = Balancer(table: Table, heap: Heap)

  datatype Answer =
    | Found(ok: bool)
    | Best(server: Option<(u32, Info)>, dropped: bool)
    | Swept(removed: nat)

  type Reply = Outcome<(Balancer, Answer)>

  /** Calls with the clock readings they take, in order. `Sweep.order` is the order in which the
      hash table is walked. */
  datatype Op =
    | Register(id: u32, addr: string, load: u32, now: u64)
    | Update(id: u32, load: u32, now: u64)
    | Unregister(id: u32)
    | Query(clock: seq<u64>)
    | Sweep(order: seq<u32>, clock: seq<u64>)

  /** static_cast<int> of a 32-bit unsigned value. */
  function ToInt32(x: u32): (r: int)
    ensures -0x8000_0000 <= r < 0x8000_0000 && (x - r) % 0x1_0000_0000 == 0
  {
    if x < TWO_31 then x else x - TWO_32
  }

  /** The difference handed to the heap; a result outside int is undefined. */
  function Hint(load: u32, prev: u32): Outcome<int> {
    var d := ToInt32(load) - ToInt32(prev);
    if -TWO_31 <= d < TWO_31 then Ok(d) else Undefined
  }

  /** Unsigned 64-bit subtraction. */
  function Age(now: u64, ts: u64): u64 {
    if now >= ts then now - ts else now - ts + TWO_64
  }

  predicate Live(now: u64, ts: u64) {
    Age(now, ts) < SERVER_TIMEOUT
  }

  /** In milliseconds: less than forty seconds have passed. */
  predicate Recent(now: int, ts: int) {
    now - ts < 40_000
  }

  /** A server is live for forty seconds, modulo 2^64 milliseconds where the clock has stepped back. */
  lemma LiveExactly(now: u64, ts: u64)
    ensures Live(now, ts) <==> (now - ts) % 0x1_0000_0000_0000_0000 < 40_000
    ensures ts <= now ==> (Live(now, ts) <==> Recent(now, ts))
  {
  }

  function Touch(b: Balancer, id: u32, info: Info): Reply
    requires id in b.table
  {
    match Hint(info.load, b.table[id].load)
    case Ok(hint) =>
      (match InsertOrUpdate(b.heap, Entry(id, info.load), hint)
       case Ok(h) => Ok((Balancer(b.table[id := info], h), Found(true)))
       case _ => Undefined)
    case _ => Undefined
  }

  function UpdateServerLoad(b: Balancer, id: u32, load: u32, now: u64): Reply {
    if id !in b.table then Ok((b, Found(false)))
    else Touch(b, id, b.table[id].(load := load, lastTs := now))
  }

  function RegisterServerInfo(b: Balancer, id: u32, addr: string, load: u32, now: u64): Reply {
    if id in b.table then Touch(b, id, Info(addr, load, now))
    else
      match InsertOrUpdate(b.heap, Entry(id, load), 0)
      case Ok(h) => Ok((Balancer(b.table[id := Info(addr, load, now)], h), Found(true)))
      case _ => Undefined
  }

  function Drop(b: Balancer, id: u32): Outcome<Balancer> {
    match AnyRemove(b.heap, id)
    case Ok(h) => Ok(Balancer(b.table - {id}, h))
    case Throws => Throws
    case Undefined => Undefined
  }

  function RemoveServer(b: Balancer, id: u32): Reply {
    if id !in b.table then Ok((b, Found(false)))
    else
      match Drop(b, id)
      case Ok(b1) => Ok((b1, Found(true)))
      case Throws => Throws
      case Undefined => Undefined
  }

  /** The query loop from its k-th clock reading on, with `pop` to remove the top of the heap. */
  function QueryBy(pop: Heap -> Outcome<Heap>, b: Balancer, clock: seq<u64>, k: nat, dropped: bool): Reply
    decreases |clock| - k
  {
    if b.heap.vec == [] then Ok((b, Best(None, dropped)))
    else
      var id := b.heap.vec[0].id;
      if id !in b.table || k >= |clock| then Undefined
      else if Live(clock[k], b.table[id].lastTs) then Ok((b, Best(Some((id, b.table[id])), dropped)))
      else
        match pop(b.heap)
        case Ok(h) => QueryBy(pop, Balancer(b.table - {id}, h), clock, k + 1, true)
        case _ => Undefined
  }

  function QueryFrom(b: Balancer, clock: seq<u64>, k: nat, dropped: bool): Reply {
    QueryBy(Remove, b, clock, k, dropped)
  }

  /** The TTL walk from its k-th entry on, with `drop` to remove a server. */
  function SweepBy(drop: (Balancer, u32) -> Outcome<Balancer>, b: Balancer, order: seq<u32>, clock: seq<u64>, k: nat, removed: nat): Reply
    decreases |order| - k
  {
    if k >= |order| then Ok((b, Swept(removed)))
    else if k >= |clock| || order[k] !in b.table then Undefined
    else if Live(clock[k], b.table[order[k]].lastTs) then SweepBy(drop, b, order, clock, k + 1, removed)
    else
      match drop(b, order[k])
      case Ok(b1) => SweepBy(drop, b1, order, clock, k + 1, removed + 1)
      case Throws => Throws
      case Undefined => Undefined
  }

  function SweepFrom(b: Balancer, order: seq<u32>, clock: seq<u64>, k: nat, removed: nat): Reply {
    SweepBy(Drop, b, order, clock, k, removed)
  }

  function Step(b: Balancer, op: Op): Reply {
    match op
    case Register(id, addr, load, now) => RegisterServerInfo(b, id, addr, load, now)
    case Update(id, load, now) => UpdateServerLoad(b, id, load, now)
    case Unregister(id) => RemoveServer(b, id)
    case Query(clock) => QueryFrom(b, clock, 0, false)
    case Sweep(order, clock) => SweepFrom(b, order, clock, 0, 0)
  }

  // ---------- Agreement of table and heap ----------

  ghost predicate Tracks(v: seq<Entry>, t: Table) {
    forall e: Entry :: e in v <==> e.id in t && t[e.id].load == e.load
  }

  /** The heap holds exactly the servers of the table, each once, and the index finds each of them. */
  ghost predicate Matched(b: Balancer) {
    Indexed(b.heap) && Tracks(b.heap.vec, b.table)
  }

  /** And in heap order. */
  ghost predicate Good(b: Balancer) {
    Matched(b) && Ordered(b.heap.vec)
  }

  /** Ids left in the index although their server is gone. */
  function Stale(b: Balancer): set<u32> {
    b.heap.idx.Keys - b.table.Keys
  }

  lemma SlotOf(b: Balancer, id: u32)
    requires Matched(b) && id in b.table
    ensures Stored(b.heap, id)
    ensures b.heap.vec[b.heap.idx[id]] == Entry(id, b.table[id].load)
  {
    assert Entry(id, b.table[id].load) in b.heap.vec;
  }

  lemma StoredOnce(h: Heap, i: nat)
    requires Indexed(h) && i < |h.vec|
    ensures multiset(h.vec)[h.vec[i]] == 1
  {
    var l, r := h.vec[..i], h.vec[i + 1..];
    assert h.vec == l + [h.vec[i]] + r;
    assert h.vec[i] !in l && h.vec[i] !in r;
  }

  lemma TracksInsert(v: seq<Entry>, w: seq<Entry>, t: Table, e: Entry, info: Info)
    requires Tracks(v, t) && e.id !in t && info.load == e.load
    requires multiset(w) == multiset(v) + multiset{e}
    ensures Tracks(w, t[e.id := info])
  {
    forall x: Entry
      ensures x in w <==> x.id in t[e.id := info] && t[e.id := info][x.id].load == x.load
    {
      assert x in w <==> x in multiset(w);
      assert x in v <==> x in multiset(v);
    }
  }

  lemma TracksRemove(h: Heap, w: seq<Entry>, t: Table, i: nat)
    requires Indexed(h) && i < |h.vec| && Tracks(h.vec, t)
    requires multiset(w) == multiset(h.vec) - multiset{h.vec[i]}
    ensures Tracks(w, t - {h.vec[i].id})
  {
    StoredOnce(h, i);
    forall x: Entry
      ensures x in w <==> x.id in t - {h.vec[i].id} && (t - {h.vec[i].id})[x.id].load == x.load
    {
      assert x in w <==> x in multiset(w);
      assert x in h.vec <==> x in multiset(h.vec);
      assert h.vec[i] in h.vec;
    }
  }

  lemma TracksUpdate(h: Heap, w: seq<Entry>, t: Table, e: Entry, info: Info)
    requires Indexed(h) && Tracks(h.vec, t) && Stored(h, e.id) && info.load == e.load
    requires multiset(w) == multiset(h.vec[h.idx[e.id] := e])
    ensures Tracks(w, t[e.id := info])
  {
    var i := h.idx[e.id];
    var m := h.vec[i := e];
    forall x: Entry
      ensures x in w <==> x.id in t[e.id := info] && t[e.id := info][x.id].load == x.load
    {
      assert x in w <==> x in multiset(w);
      assert x in m <==> x in multiset(m);
      if x in h.vec && x.id != e.id {
        var j :| 0 <= j < |h.vec| && h.vec[j] == x;
        assert m[j] == x;
      }
      if x in m {
        var j :| 0 <= j < |m| && m[j] == x;
        assert j != i ==> h.vec[j] in h.vec;
      }
      assert m[i] == e;
      assert h.vec[i] in h.vec;
    }
  }

  // ---------- One call on the plain table ----------

  predicate Sorted(clock: seq<u64>) {
    forall i, j | 0 <= i < j < |clock| :: clock[i] <= clock[j]
  }

  ghost predicate Within(t1: Table, t: Table) {
    t1.Keys <= t.Keys && forall id: u32 | id in t1 :: t1[id] == t[id]
  }

  /** Reading number m was the last one taken: everything dropped was forty seconds old by then, and the
      answer is not, and least among the servers that are not at that reading. */
  ghost predicate PlainQuery(t: Table, clock: seq<u64>, m: nat, t1: Table, a: Answer) {
    && Within(t1, t) && a.Best?
    && (a.dropped <==> t1.Keys < t.Keys)
    && (forall id: u32 | id in t && id !in t1 :: m < |clock| && !Recent(clock[m], t[id].lastTs))
    && match a.server
       case None => t1 == map[]
       case Some((id, info)) =>
         && id in t1 && info == t1[id] && m < |clock| && Recent(clock[m], info.lastTs)
         && forall x: u32 | x in t && Recent(clock[m], t[x].lastTs) :: info.load <= t[x].load
  }

  /** The walk keeps exactly the servers that are less than forty seconds old when their turn comes. */
  ghost predicate PlainSweep(t: Table, order: seq<u32>, clock: seq<u64>, t1: Table, a: Answer) {
    && Within(t1, t) && a.Swept? && a.removed == |t| - |t1|
    && forall j: nat | j < |order| && j < |clock| && order[j] in t ::
         order[j] in t1 <==> Recent(clock[j], t[order[j]].lastTs)
  }

  ghost predicate PlainStep(t: Table, op: Op, t1: Table, a: Answer) {
    match op
    case Register(id, addr, load, now) => t1 == t[id := Info(addr, load, now)] && a == Found(true)
    case Update(id, load, now) =>
      a == Found(id in t) && t1 == if id in t then t[id := Info(t[id].addr, load, now)] else t
    case Unregister(id) => t1 == t - {id} && a == Found(id in t)
    case Query(clock) => exists m: nat :: PlainQuery(t, clock, m, t1, a)
    case Sweep(order, clock) => PlainSweep(t, order, clock, t1, a)
  }

  // ---------- Each call refines it ----------

  /** The hint has the sign of the change, without overflow, exactly when both loads lie on the
      same side of 2^31. */
  lemma HintExact(load: u32, prev: u32)
    ensures (Hint(load, prev).Ok? && Sign(Hint(load, prev).value) == Sign(load - prev))
            <==> (load < TWO_31 <==> prev < TWO_31)
  {
  }

  /** Whatever the loads, an update that does not overflow changes one row and moves elements only. */
  lemma TouchMatches(b: Balancer, id: u32, info: Info)
    requires Matched(b) && id in b.table && Hint(info.load, b.table[id].load).Ok?
    ensures var r := Touch(b, id, info);
      r.Ok? && Matched(r.value.0) && r.value == (Balancer(b.table[id := info], r.value.0.heap), Found(true))
      && Stale(r.value.0) == Stale(b)
  {
    var e := Entry(id, info.load);
    SlotOf(b, id);
    var hint := Hint(info.load, b.table[id].load).value;
    UpdateMoves(b.heap, e, hint);
    TracksUpdate(b.heap, InsertOrUpdate(b.heap, e, hint).value.vec, b.table, e, info);
  }

  lemma TouchRefines(b: Balancer, id: u32, info: Info)
    requires Good(b) && id in b.table
    requires info.load < TWO_31 <==> b.table[id].load < TWO_31
    ensures var r := Touch(b, id, info);
      r.Ok? && Good(r.value.0) && r.value == (Balancer(b.table[id := info], r.value.0.heap), Found(true))
      && Stale(r.value.0) == Stale(b)
  {
    SlotOf(b, id);
    HintExact(info.load, b.table[id].load);
    TouchMatches(b, id, info);
    UpdateRestores(b.heap, Entry(id, info.load), Hint(info.load, b.table[id].load).value);
  }

  /** The loads between which the signed difference overflows. */
  predicate TooFar(load: u32, prev: u32) {
    (prev < TWO_31 <= load && load - prev < TWO_31) || (load < TWO_31 <= prev && prev - load <= TWO_31)
  }

  lemma OverflowExactly(load: u32, prev: u32)
    ensures Hint(load, prev) == Undefined <==> TooFar(load, prev)
  {
  }

  /** Some child of slot i has a smaller load. */
  predicate OverChild(v: seq<Entry>, i: nat, load: u32) {
    (2 * i + 1 < |v| && v[2 * i + 1].load < load) || (2 * i + 2 < |v| && v[2 * i + 2].load < load)
  }

  /** The parent of slot i has a greater load. */
  predicate UnderParent(v: seq<Entry>, i: nat, load: u32)
    requires i < |v|
  {
    i > 0 && v[Parent(i)].load > load
  }

  /** A new load in slot i breaks the order exactly with its parent or its children. */
  lemma OutOfOrderExactly(v: seq<Entry>, i: nat, e: Entry)
    requires i < |v| && Ordered(v)
    ensures !Ordered(v[i := e]) <==> OverChild(v, i, e.load) || UnderParent(v, i, e.load)
  {
    var w := v[i := e];
    if 2 * i + 1 < |v| && v[2 * i + 1].load < e.load {
      assert !Edge(w, 2 * i + 1);
    } else if 2 * i + 2 < |v| && v[2 * i + 2].load < e.load {
      assert !Edge(w, 2 * i + 2);
    } else if UnderParent(v, i, e.load) {
      assert !Edge(w, i);
    } else {
      forall c: nat | 0 < c < |w|
        ensures Edge(w, c)
      {
        assert Edge(v, c);
        assert Parent(c) == i ==> c == 2 * i + 1 || c == 2 * i + 2;
      }
    }
  }

  /** An update across 2^31 that goes wrong: the difference overflows, or the load goes up past a child, or
      down past the parent. */
  predicate Misplaces(b: Balancer, id: u32, load: u32) {
    && id in b.table && !(load < TWO_31 <==> b.table[id].load < TWO_31)
    && var i := At(b.heap.idx, id);
       || TooFar(load, b.table[id].load)
       || (i < |b.heap.vec| && if load > b.table[id].load then OverChild(b.heap.vec, i, load) else UnderParent(b.heap.vec, i, load))
  }

  lemma NotPastBoth(v: seq<Entry>, i: nat, load: u32)
    requires i < |v| && Ordered(v)
    ensures load > v[i].load ==> !UnderParent(v, i, load)
    ensures load < v[i].load ==> !OverChild(v, i, load)
  {
    assert i > 0 ==> Edge(v, i);
    assert 2 * i + 1 < |v| ==> Edge(v, 2 * i + 1);
    assert 2 * i + 2 < |v| ==> Edge(v, 2 * i + 2);
  }

  /** Across 2^31 the update overflows or moves nothing, so order survives exactly when the new load fits
      between parent and children. */
  lemma TouchAcross(b: Balancer, id: u32, info: Info)
    requires Good(b) && id in b.table && !(info.load < TWO_31 <==> b.table[id].load < TWO_31)
    ensures var r := Touch(b, id, info); var i := At(b.heap.idx, id);
      && i < |b.heap.vec|
      && (r.Ok? <==> !TooFar(info.load, b.table[id].load))
      && (r.Ok? ==> r.value.0.heap == Heap(b.heap.vec[i := Entry(id, info.load)], b.heap.idx))
      && (r.Ok? && Good(r.value.0) <==> !Misplaces(b, id, info.load))
  {
    var e := Entry(id, info.load);
    SlotOf(b, id);
    OverflowExactly(info.load, b.table[id].load);
    var hint := Hint(info.load, b.table[id].load);
    if hint.Ok? {
      WrongHintMovesNothing(b.heap, e, hint.value);
      TouchMatches(b, id, info);
      OutOfOrderExactly(b.heap.vec, b.heap.idx[id], e);
      NotPastBoth(b.heap.vec, b.heap.idx[id], info.load);
    }
  }

  /** Outside the range heap order is really lost: the query then answers with the busier server. */
  lemma HintWitness()
    ensures var b := Balancer(map[1 := Info("a", 10, 0), 2 := Info("b", 20, 0)],
                              Heap([Entry(1, 10), Entry(2, 20)], map[1 := 0, 2 := 1]));
      var r := UpdateServerLoad(b, 1, 0xC000_0000, 0);
      Good(b) && r.Ok? && !Good(r.value.0)
      && QueryFrom(r.value.0, [0], 0, false).value.1.server.value.0 == 1
  {
    var v := [Entry(1, 10), Entry(2, 20)];
    var b := Balancer(map[1 := Info("a", 10, 0), 2 := Info("b", 20, 0)], Heap(v, map[1 := 0, 2 := 1]));
    assert Edge(v, 1);
    assert v[0] in v && v[1] in v;
    assert Good(b);
    var info := Info("a", 0xC000_0000, 0);
    SlotOf(b, 1);
    TouchAcross(b, 1, info);
  }

  /** From a state with `b`'s agreement to one with the same agreement. */
  ghost predicate Keeps(b: Balancer, b1: Balancer) {
    Matched(b1) && (Good(b) ==> Good(b1))
  }

  lemma RegisterNewRefines(b: Balancer, id: u32, addr: string, load: u32, now: u64)
    requires Matched(b) && id !in b.table && id !in Stale(b)
    ensures var r := RegisterServerInfo(b, id, addr, load, now);
      r.Ok? && Keeps(b, r.value.0) && r.value.0.table == b.table[id := Info(addr, load, now)]
      && r.value.1 == Found(true) && Stale(r.value.0) == Stale(b)
  {
    var e := Entry(id, load);
    InsertAdds(b.heap, e, 0);
    TracksInsert(b.heap.vec, InsertOrUpdate(b.heap, e, 0).value.vec, b.table, e, Info(addr, load, now));
  }

  /** Registering an id that the index still remembers writes out of range or drops another
      server from the heap. */
  lemma StaleRegistrationBreaks(b: Balancer, id: u32, addr: string, load: u32, now: u64)
    requires Matched(b) && id in Stale(b)
    ensures var r := RegisterServerInfo(b, id, addr, load, now); var i := b.heap.idx[id];
      if i >= |b.heap.vec| then r == Undefined
      else
        r.Ok? && b.heap.vec[i].id in r.value.0.table && !Stored(r.value.0.heap, b.heap.vec[i].id)
        && !Matched(r.value.0)
  {
    var i := b.heap.idx[id];
    if i < |b.heap.vec| {
      var m := Heap(b.heap.vec[i := Entry(id, load)], b.heap.idx);
      var y := b.heap.vec[i].id;
      assert b.heap.vec[i] in b.heap.vec;
      forall j: nat | j < |m.vec|
        ensures m.vec[j].id in m.idx && m.idx[m.vec[j].id] == j && m.vec[j].id != y
      {
        assert j != i ==> m.vec[j] == b.heap.vec[j] && b.heap.vec[j] in b.heap.vec;
      }
      RepairMoves(m, i);
      MovedStores(m, Repair(m, i), y);
      var b1 := RegisterServerInfo(b, id, addr, load, now).value.0;
      if Matched(b1) {
        SlotOf(b1, y);
      }
    }
  }

  /** The key a removal by id leaves in the index: that of the last slot of a larger heap. */
  function KeyLeft(b: Balancer, id: u32): set<u32> {
    var n := |b.heap.vec|;
    if n > 1 && b.heap.vec[n - 1].id == id then {id} else {}
  }

  lemma DropRefines(b: Balancer, id: u32)
    requires Matched(b) && id in b.table
    ensures var o := Drop(b, id);
      o.Ok? && Keeps(b, o.value) && o.value.table == b.table - {id} && Stale(o.value) == Stale(b) + KeyLeft(b, id)
  {
    SlotOf(b, id);
    AnyRemoveTakesOne(b.heap, id);
    TracksRemove(b.heap, AnyRemove(b.heap, id).value.vec, b.table, b.heap.idx[id]);
    var n := |b.heap.vec|;
    assert b.heap.vec[n - 1].id == id <==> b.heap.idx[id] == n - 1;
  }

  /** Stamps are clock readings taken before. */
  ghost predicate Stamped(t: Table, now: u64) {
    forall id: u32 | id in t :: t[id].lastTs <= now
  }

  lemma NoServers(b: Balancer)
    requires Matched(b) && b.heap.vec == []
    ensures b.table == map[]
  {
    if id: u32 :| id in b.table {
      SlotOf(b, id);
    }
  }

  lemma ExpireTop(b: Balancer) returns (b1: Balancer)
    requires Matched(b) && b.heap.vec != []
    ensures b.heap.vec[0].id in b.table && Remove(b.heap) == Ok(b1.heap) && b1.table == b.table - {b.heap.vec[0].id}
    ensures |b1.heap.vec| == |b.heap.vec| - 1 && Keeps(b, b1) && Stale(b1) == Stale(b)
  {
    assert b.heap.vec[0] in b.heap.vec;
    RemoveTakesTop(b.heap);
    b1 := Balancer(b.table - {b.heap.vec[0].id}, Remove(b.heap).value);
    TracksRemove(b.heap, b1.heap.vec, b.table, 0);
    OneShorter(b.heap.vec, b1.heap.vec);
  }

  lemma OneShorter(v: seq<Entry>, w: seq<Entry>)
    requires v != [] && multiset(w) == multiset(v) - multiset{v[0]}
    ensures |w| == |v| - 1
  {
    assert |multiset(w)| == |w| && |multiset(v)| == |v|;
  }

  lemma TopIsMinimal(b: Balancer, x: u32)
    requires Good(b) && x in b.table
    ensures b.heap.vec != [] && b.heap.vec[0].load <= b.table[x].load
    ensures b.heap.vec[0].id in b.table && b.table[b.heap.vec[0].id].load == b.heap.vec[0].load
  {
    SlotOf(b, x);
    TopIsLeast(b.heap.vec, b.heap.idx[x]);
    assert b.heap.vec[0] in b.heap.vec;
  }

  /** The answer to a query on what is left after dropping `id` also answers the query before. */
  lemma DropThenQuery(t: Table, id: u32, clock: seq<u64>, k: nat, m: nat, t1: Table, a: Answer)
    requires id in t && Sorted(clock) && k <= m < |clock|
    requires !Recent(clock[k], t[id].lastTs)
    requires PlainQuery(t - {id}, clock, m, t1, a)
    ensures PlainQuery(t, clock, m, t1, a.(dropped := true)) && t1.Keys < t.Keys
  {
    assert clock[k] <= clock[m];
    assert id !in t1;
  }

  /** What the query loop returns from reading k on, compared with the table it starts from. */
  ghost predicate QueryAnswers(b: Balancer, clock: seq<u64>, m: nat, dropped: bool, r: Reply) {
    && r.Ok? && r.value.1.Best?
    && r.value.1.dropped == (dropped || r.value.0.table.Keys < b.table.Keys)
    && PlainQuery(b.table, clock, m, r.value.0.table, r.value.1.(dropped := r.value.0.table.Keys < b.table.Keys))
  }

  /** Removal of the top, as the query needs it. */
  ghost predicate Pops(pop: Heap -> Outcome<Heap>) {
    forall b: Balancer {:trigger pop(b.heap), Matched(b)} | Matched(b) && b.heap.vec != [] ::
      pop(b.heap).Ok? && Popped(b, Balancer(b.table - {b.heap.vec[0].id}, pop(b.heap).value))
  }

  ghost predicate Popped(b: Balancer, b1: Balancer) {
    Keeps(b, b1) && Stale(b1) == Stale(b) && |b1.heap.vec| == |b.heap.vec| - 1
  }

  lemma RemovePops()
    ensures Pops(Remove)
  {
    forall b: Balancer | Matched(b) && b.heap.vec != []
      ensures Remove(b.heap).Ok? && Popped(b, Balancer(b.table - {b.heap.vec[0].id}, Remove(b.heap).value))
    {
      var b1 := ExpireTop(b);
    }
  }

  lemma TopIsOwned(b: Balancer)
    requires Matched(b) && b.heap.vec != []
    ensures b.heap.vec[0].id in b.table
  {
    assert b.heap.vec[0] in b.heap.vec;
  }

  lemma LiveTopAnswers(b: Balancer, clock: seq<u64>, k: nat, dropped: bool)
    requires Good(b) && b.heap.vec != [] && k < |clock|
    requires b.heap.vec[0].id in b.table && Recent(clock[k], b.table[b.heap.vec[0].id].lastTs)
    ensures var id := b.heap.vec[0].id; QueryAnswers(b, clock, k, dropped, Ok((b, Best(Some((id, b.table[id])), dropped))))
  {
    var id := b.heap.vec[0].id;
    forall x: u32 | x in b.table
      ensures b.table[id].load <= b.table[x].load
    {
      TopIsMinimal(b, x);
    }
  }

  lemma EmptyAnswers(b: Balancer, clock: seq<u64>, m: nat, dropped: bool)
    requires Good(b) && b.heap.vec == []
    ensures QueryAnswers(b, clock, m, dropped, Ok((b, Best(None, dropped))))
  {
    NoServers(b);
  }

  /** `last` is the reading taken before the k-th, `m` the last one taken in the end. */
  lemma {:induction false} QueryRefines(
    pop: Heap -> Outcome<Heap>, b: Balancer, clock: seq<u64>, k: nat, last: nat, dropped: bool) returns (m: nat, r: Reply)
    requires Pops(pop) && Good(b) && Sorted(clock) && k + |b.heap.vec| <= |clock| && last <= k
    requires k < |clock| ==> Stamped(b.table, clock[k])
    ensures r == QueryBy(pop, b, clock, k, dropped) && QueryAnswers(b, clock, m, dropped, r)
    ensures if b.heap.vec == [] then m == last else k <= m < |clock|
    decreases |clock| - k
  {
    r := QueryBy(pop, b, clock, k, dropped);
    if b.heap.vec == [] {
      m := last;
      EmptyAnswers(b, clock, m, dropped);
    } else {
      TopIsOwned(b);
      var id := b.heap.vec[0].id;
      LiveExactly(clock[k], b.table[id].lastTs);
      if Live(clock[k], b.table[id].lastTs) {
        m := k;
        LiveTopAnswers(b, clock, k, dropped);
      } else {
        var b1 := Balancer(b.table - {id}, pop(b.heap).value);
        m, r := QueryRefines(pop, b1, clock, k + 1, k, true);
        ExpiredAddsUp(b, b1, id, clock, k, m, dropped, r);
      }
    }
  }

  /** Under any clock and any loads the query never throws, keeps heap and table in agreement, and leaves
      no key in the index. */
  lemma {:induction false} QueryKeeps(pop: Heap -> Outcome<Heap>, b: Balancer, clock: seq<u64>, k: nat, dropped: bool) returns (r: Reply)
    requires Pops(pop) && Matched(b) && k + |b.heap.vec| <= |clock|
    ensures r == QueryBy(pop, b, clock, k, dropped) && r.Ok? && Keeps(b, r.value.0) && Stale(r.value.0) == Stale(b)
    decreases |clock| - k
  {
    r := QueryBy(pop, b, clock, k, dropped);
    if b.heap.vec != [] {
      TopIsOwned(b);
      var id := b.heap.vec[0].id;
      if !Live(clock[k], b.table[id].lastTs) {
        var b1 := Balancer(b.table - {id}, pop(b.heap).value);
        r := QueryKeeps(pop, b1, clock, k + 1, true);
        KeepsTrans(b, b1, r.value.0);
      }
    }
  }

  lemma KeepsTrans(a: Balancer, b: Balancer, c: Balancer)
    requires Keeps(a, b) && Keeps(b, c)
    ensures Keeps(a, c)
  {
  }

  lemma ExpiredAddsUp(b: Balancer, b1: Balancer, id: u32, clock: seq<u64>, k: nat, m: nat, dropped: bool, r: Reply)
    requires id in b.table && b1.table == b.table - {id}
    requires Sorted(clock) && k <= m < |clock| && !Recent(clock[k], b.table[id].lastTs)
    requires QueryAnswers(b1, clock, m, true, r)
    ensures QueryAnswers(b, clock, m, dropped, r)
  {
    DropThenQuery(b.table, id, clock, k, m, r.value.0.table, r.value.1.(dropped := r.value.0.table.Keys < b1.table.Keys));
  }

  ghost predicate Walks(order: seq<u32>, k: nat, t: Table) {
    && (forall j: nat | k <= j < |order| :: order[j] in t)
    && forall i: nat, j: nat | k <= i < j < |order| :: order[i] != order[j]
  }

  /** The keys the walk leaves in the index: each of the servers it drops from a last slot. */
  function KeysLeft(drop: (Balancer, u32) -> Outcome<Balancer>, b: Balancer, order: seq<u32>, clock: seq<u64>, k: nat): set<u32>
    decreases |order| - k
  {
    if k >= |order| || k >= |clock| || order[k] !in b.table then {}
    else if Live(clock[k], b.table[order[k]].lastTs) then KeysLeft(drop, b, order, clock, k + 1)
    else
      match drop(b, order[k])
      case Ok(b1) => KeyLeft(b, order[k]) + KeysLeft(drop, b1, order, clock, k + 1)
      case _ => {}
  }

  /** Removal by id, as the walk needs it: it takes out one row and keeps an invariant. */
  ghost predicate TakesRow(drop: (Balancer, u32) -> Outcome<Balancer>, inv: Balancer -> bool) {
    forall b: Balancer, id: u32 {:trigger drop(b, id)} | inv(b) && id in b.table ::
      drop(b, id).Ok? && inv(drop(b, id).value) && drop(b, id).value.table == b.table - {id}
  }

  /** And adds to a set of ids the key of a last slot. */
  ghost predicate LeavesKey(drop: (Balancer, u32) -> Outcome<Balancer>, inv: Balancer -> bool, stale: Balancer -> set<u32>) {
    forall b: Balancer, id: u32 {:trigger drop(b, id)} | inv(b) && id in b.table && drop(b, id).Ok? ::
      stale(drop(b, id).value) == stale(b) + KeyLeft(b, id)
  }

  lemma DropTakesRow()
    ensures TakesRow(Drop, Matched) && TakesRow(Drop, Good) && LeavesKey(Drop, Matched, Stale)
  {
    forall b: Balancer, id: u32 | Matched(b) && id in b.table
      ensures Drop(b, id).Ok? && Keeps(b, Drop(b, id).value) && Drop(b, id).value.table == b.table - {id}
      ensures Stale(Drop(b, id).value) == Stale(b) + KeyLeft(b, id)
    {
      DropRefines(b, id);
    }
  }

  /** What the walk leaves of a table. */
  function Survivors(t: Table, order: seq<u32>, clock: seq<u64>, k: nat): Table
    requires |order| <= |clock|
    decreases |order| - k
  {
    if k >= |order| then t
    else if order[k] in t && !Live(clock[k], t[order[k]].lastTs) then Survivors(t - {order[k]}, order, clock, k + 1)
    else Survivors(t, order, clock, k + 1)
  }

  lemma WalksOn(order: seq<u32>, k: nat, t: Table)
    requires k < |order| && Walks(order, k, t)
    ensures Walks(order, k + 1, t) && Walks(order, k + 1, t - {order[k]})
  {
  }

  /** The walk keeps exactly the entries that are live when their turn comes. */
  lemma {:induction false} SurvivorsAreLive(t: Table, order: seq<u32>, clock: seq<u64>, k: nat, j: nat)
    requires k <= |order| <= |clock| && k <= j < |order| && Walks(order, k, t)
    ensures order[j] in Survivors(t, order, clock, k) <==> Live(clock[j], t[order[j]].lastTs)
    decreases |order| - k
  {
    WalksOn(order, k, t);
    var t1 := if Live(clock[k], t[order[k]].lastTs) then t else t - {order[k]};
    if k < j {
      SurvivorsAreLive(t1, order, clock, k + 1, j);
    } else {
      PassedStays(t1, order, clock, k + 1, order[k]);
    }
  }

  /** An entry whose turn has passed is not touched any more. */
  lemma {:induction false} PassedStays(t: Table, order: seq<u32>, clock: seq<u64>, k: nat, id: u32)
    requires |order| <= |clock| && forall j: nat | k <= j < |order| :: order[j] != id
    ensures id in Survivors(t, order, clock, k) <==> id in t
    decreases |order| - k
  {
    if k < |order| {
      var t1 := if order[k] in t && !Live(clock[k], t[order[k]].lastTs) then t - {order[k]} else t;
      PassedStays(t1, order, clock, k + 1, id);
    }
  }

  lemma {:induction false} SurvivorsAreWithin(t: Table, order: seq<u32>, clock: seq<u64>, k: nat)
    requires |order| <= |clock|
    ensures Within(Survivors(t, order, clock, k), t)
    decreases |order| - k
  {
    if k < |order| {
      var t1 := if order[k] in t && !Live(clock[k], t[order[k]].lastTs) then t - {order[k]} else t;
      SurvivorsAreWithin(t1, order, clock, k + 1);
    }
  }

  lemma OneLess(t: Table, id: u32)
    requires id in t
    ensures |t - {id}| == |t| - 1
  {
    assert t.Keys == (t - {id}).Keys + {id};
  }

  /** The walk never throws, keeps what removal keeps, leaves the survivors, and counts what it dropped. */
  lemma {:induction false} SweepRefines(
    drop: (Balancer, u32) -> Outcome<Balancer>, inv: Balancer -> bool, b: Balancer, order: seq<u32>, clock: seq<u64>, k: nat, removed: nat)
    returns (r: Reply)
    requires TakesRow(drop, inv) && inv(b) && k <= |order| <= |clock| && Walks(order, k, b.table)
    ensures r == SweepBy(drop, b, order, clock, k, removed) && r.Ok? && inv(r.value.0)
    ensures r.value.0.table == Survivors(b.table, order, clock, k)
    ensures r.value.1.Swept? && r.value.1.removed + |r.value.0.table| == removed + |b.table|
    decreases |order| - k
  {
    r := SweepBy(drop, b, order, clock, k, removed);
    if k < |order| {
      WalksOn(order, k, b.table);
      if Live(clock[k], b.table[order[k]].lastTs) {
        r := SweepRefines(drop, inv, b, order, clock, k + 1, removed);
      } else {
        OneLess(b.table, order[k]);
        r := SweepRefines(drop, inv, drop(b, order[k]).value, order, clock, k + 1, removed + 1);
      }
    }
  }

  /** It adds to the stale ids exactly the servers it drops from a last slot. */
  lemma {:induction false} SweepLeaves(
    drop: (Balancer, u32) -> Outcome<Balancer>, inv: Balancer -> bool, stale: Balancer -> set<u32>,
    b: Balancer, order: seq<u32>, clock: seq<u64>, k: nat, removed: nat) returns (r: Reply)
    requires TakesRow(drop, inv) && LeavesKey(drop, inv, stale) && inv(b) && k <= |order| <= |clock| && Walks(order, k, b.table)
    ensures r == SweepBy(drop, b, order, clock, k, removed) && r.Ok?
    ensures stale(r.value.0) == stale(b) + KeysLeft(drop, b, order, clock, k)
    decreases |order| - k
  {
    r := SweepBy(drop, b, order, clock, k, removed);
    if k < |order| {
      WalksOn(order, k, b.table);
      if Live(clock[k], b.table[order[k]].lastTs) {
        r := SweepLeaves(drop, inv, stale, b, order, clock, k + 1, removed);
      } else {
        r := SweepLeaves(drop, inv, stale, drop(b, order[k]).value, order, clock, k + 1, removed + 1);
      }
    }
  }

  // ---------- Whole runs ----------

  function Readings(op: Op): seq<u64> {
    match op
    case Register(_, _, _, now) => [now]
    case Update(_, _, now) => [now]
    case Unregister(_) => []
    case Query(clock) => clock
    case Sweep(_, clock) => clock
  }

  function After(op: Op, from: u64): u64 {
    var r := Readings(op);
    if r == [] then from else r[|r| - 1]
  }

  /** A query has a reading for every round and a sweep walks every entry once, with a reading each. */
  ghost predicate WellFormed(b: Balancer, op: Op) {
    match op
    case Query(clock) => |b.heap.vec| <= |clock|
    case Sweep(order, clock) =>
      |order| <= |clock| && Walks(order, 0, b.table) && forall id: u32 | id in b.table :: id in order
    case _ => true
  }

  /** The clock does not step back. */
  predicate OnTime(op: Op, from: u64) {
    Sorted([from] + Readings(op))
  }

  ghost predicate Sound(b: Balancer, op: Op) {
    var r := Step(b, op);
    r.Ok? && Good(r.value.0) && PlainStep(b.table, op, r.value.0.table, r.value.1)
  }

  /** The call registers an id that the index still remembers. */
  predicate RegistersStale(b: Balancer, op: Op) {
    op.Register? && op.id in Stale(b)
  }

  /** Or it reports, for a known server, a load across 2^31 that is out of order where the server is. */
  predicate Breaks(b: Balancer, op: Op) {
    RegistersStale(b, op) || ((op.Register? || op.Update?) && Misplaces(b, op.id, op.load))
  }

  ghost predicate WellFormedRun(b: Balancer, ops: seq<Op>)
    decreases |ops|
  {
    ops == [] ||
    (WellFormed(b, ops[0]) && (Step(b, ops[0]).Ok? ==> WellFormedRun(Step(b, ops[0]).value.0, ops[1..])))
  }

  predicate OnTimeRun(ops: seq<Op>, from: u64)
    decreases |ops|
  {
    ops == [] || (OnTime(ops[0], from) && OnTimeRun(ops[1..], After(ops[0], from)))
  }

  /** Every call ends normally in a good state and does to the table what the plain table does. */
  ghost predicate Faithful(b: Balancer, ops: seq<Op>)
    decreases |ops|
  {
    ops == [] || (Sound(b, ops[0]) && Faithful(Step(b, ops[0]).value.0, ops[1..]))
  }

  predicate NeverBreaks(b: Balancer, ops: seq<Op>)
    decreases |ops|
  {
    ops == [] ||
    (!Breaks(b, ops[0]) && (Step(b, ops[0]).Ok? ==> NeverBreaks(Step(b, ops[0]).value.0, ops[1..])))
  }

  lemma TouchIsSound(b: Balancer, id: u32, info: Info)
    requires Good(b) && id in b.table
    ensures var r := Touch(b, id, info);
      if Misplaces(b, id, info.load) then !(r.Ok? && Good(r.value.0))
      else r.Ok? && Good(r.value.0) && r.value.0.table == b.table[id := info] && r.value.1 == Found(true)
  {
    if info.load < TWO_31 <==> b.table[id].load < TWO_31 {
      TouchRefines(b, id, info);
    } else {
      TouchAcross(b, id, info);
    }
  }

  lemma ReportIsSound(b: Balancer, op: Op, from: u64)
    requires Good(b) && Stamped(b.table, from) && OnTime(op, from) && (op.Register? || op.Update?) && !RegistersStale(b, op)
    ensures Sound(b, op) <==> !Breaks(b, op)
    ensures Sound(b, op) ==> Stamped(Step(b, op).value.0.table, op.now)
  {
    var r := [from] + Readings(op);
    assert r[0] <= r[1];
    match op
    case Register(id, addr, load, now) =>
      if id in b.table {
        TouchIsSound(b, id, Info(addr, load, now));
      } else {
        RegisterNewRefines(b, id, addr, load, now);
      }
    case Update(id, load, now) =>
      if id in b.table {
        TouchIsSound(b, id, b.table[id].(load := load, lastTs := now));
      }
  }

  lemma DropIsSound(b: Balancer, op: Op)
    requires Good(b) && op.Unregister?
    ensures Sound(b, op) && Within(Step(b, op).value.0.table, b.table)
  {
    if op.id in b.table {
      DropRefines(b, op.id);
    } else {
      assert b.table - {op.id} == b.table;
    }
  }

  lemma SortedTail(from: u64, clock: seq<u64>)
    requires Sorted([from] + clock)
    ensures Sorted(clock) && (clock != [] ==> from <= clock[0])
  {
    var r := [from] + clock;
    forall i, j | 0 <= i < j < |clock|
      ensures clock[i] <= clock[j]
    {
      assert r[i + 1] <= r[j + 1];
    }
    assert |clock| > 0 ==> r[0] <= r[1];
  }

  lemma QueryIsSound(b: Balancer, clock: seq<u64>, from: u64)
    requires Good(b) && Stamped(b.table, from) && |b.heap.vec| <= |clock| && OnTime(Query(clock), from)
    ensures Sound(b, Query(clock)) && Within(Step(b, Query(clock)).value.0.table, b.table)
  {
    SortedTail(from, clock);
    RemovePops();
    var m, r := QueryRefines(Remove, b, clock, 0, 0, false);
    r := QueryKeeps(Remove, b, clock, 0, false);
    assert PlainQuery(b.table, clock, m, r.value.0.table, r.value.1);
  }

  lemma SweepIsSound(b: Balancer, order: seq<u32>, clock: seq<u64>, from: u64)
    requires Good(b) && Stamped(b.table, from) && WellFormed(b, Sweep(order, clock)) && OnTime(Sweep(order, clock), from)
    ensures Sound(b, Sweep(order, clock)) && Within(Step(b, Sweep(order, clock)).value.0.table, b.table)
  {
    DropTakesRow();
    var r := SweepRefines(Drop, Good, b, order, clock, 0, 0);
    SurvivorsAreWithin(b.table, order, clock, 0);
    SortedTail(from, clock);
    forall j: nat | j < |order|
      ensures order[j] in r.value.0.table <==> Recent(clock[j], b.table[order[j]].lastTs)
    {
      SurvivorsAreLive(b.table, order, clock, 0, j);
      assert clock[0] <= clock[j];
      LiveExactly(clock[j], b.table[order[j]].lastTs);
    }
  }

  lemma LookIsSound(b: Balancer, op: Op, from: u64)
    requires Good(b) && Stamped(b.table, from) && OnTime(op, from) && WellFormed(b, op) && !op.Register? && !op.Update?
    ensures Sound(b, op) && Within(Step(b, op).value.0.table, b.table)
  {
    match op
    case Unregister(_) => DropIsSound(b, op);
    case Query(clock) => QueryIsSound(b, clock, from);
    case Sweep(order, clock) => SweepIsSound(b, order, clock, from);
  }

  /** A call on a good state is sound exactly when it does not break. */
  lemma CallIsSound(b: Balancer, op: Op, from: u64)
    requires Good(b) && Stamped(b.table, from) && OnTime(op, from) && WellFormed(b, op)
    ensures Sound(b, op) <==> !Breaks(b, op)
    ensures Sound(b, op) ==> Stamped(Step(b, op).value.0.table, After(op, from))
  {
    var r := [from] + Readings(op);
    assert r[0] <= r[|r| - 1] == After(op, from);
    if RegistersStale(b, op) {
      StaleRegistrationBreaks(b, op.id, op.addr, op.load, op.now);
    } else if op.Register? || op.Update? {
      ReportIsSound(b, op, from);
    } else {
      LookIsSound(b, op, from);
    }
  }

  /** Over every run under a non-decreasing clock, the balancer is a plain table with an argmin query if
      and only if no call registers a stale id or moves a load across 2^31 out of order. */
  lemma {:induction false} RunRefinesPlainTable(b: Balancer, ops: seq<Op>, from: u64)
    requires Good(b) && Stamped(b.table, from) && OnTimeRun(ops, from) && WellFormedRun(b, ops)
    ensures Faithful(b, ops) <==> NeverBreaks(b, ops)
    decreases |ops|
  {
    if ops != [] {
      CallIsSound(b, ops[0], from);
      if Sound(b, ops[0]) {
        RunRefinesPlainTable(Step(b, ops[0]).value.0, ops[1..], After(ops[0], from));
      }
    }
  }

  // ---------- Servers and stale ids, under any clock ----------

  /** The hint of a report overflows. */
  predicate Overflows(b: Balancer, op: Op) {
    (op.Register? || op.Update?) && op.id in b.table && TooFar(op.load, b.table[op.id].load)
  }

  /** The keys a call leaves in the index. */
  function Leaves(b: Balancer, op: Op): set<u32> {
    match op
    case Unregister(id) => if id in b.table then KeyLeft(b, id) else {}
    case Sweep(order, clock) => KeysLeft(Drop, b, order, clock, 0)
    case _ => {}
  }

  ghost predicate EndsMatched(b: Balancer, op: Op) {
    Step(b, op).Ok? && Matched(Step(b, op).value.0)
  }

  lemma ReportMatches(b: Balancer, op: Op)
    requires Matched(b) && (op.Register? || op.Update?)
    ensures EndsMatched(b, op) <==> !RegistersStale(b, op) && !Overflows(b, op)
    ensures EndsMatched(b, op) ==> Stale(Step(b, op).value.0) == Stale(b)
  {
    if op.id in b.table {
      OverflowExactly(op.load, b.table[op.id].load);
    }
    match op
    case Register(id, addr, load, now) =>
      if RegistersStale(b, op) {
        StaleRegistrationBreaks(b, id, addr, load, now);
      } else if id !in b.table {
        RegisterNewRefines(b, id, addr, load, now);
      } else if !Overflows(b, op) {
        TouchMatches(b, id, Info(addr, load, now));
      }
    case Update(id, load, now) =>
      if id in b.table && !Overflows(b, op) {
        TouchMatches(b, id, b.table[id].(load := load, lastTs := now));
      }
  }

  lemma UnregisterMatches(b: Balancer, id: u32)
    requires Matched(b)
    ensures EndsMatched(b, Unregister(id)) && Stale(Step(b, Unregister(id)).value.0) == Stale(b) + Leaves(b, Unregister(id))
  {
    if id in b.table {
      DropRefines(b, id);
    }
  }

  lemma SweepMatches(b: Balancer, order: seq<u32>, clock: seq<u64>)
    requires Matched(b) && WellFormed(b, Sweep(order, clock))
    ensures EndsMatched(b, Sweep(order, clock))
    ensures Stale(Step(b, Sweep(order, clock)).value.0) == Stale(b) + Leaves(b, Sweep(order, clock))
  {
    DropTakesRow();
    var r := SweepRefines(Drop, Matched, b, order, clock, 0, 0);
    r := SweepLeaves(Drop, Matched, Stale, b, order, clock, 0, 0);
  }

  /** One call, with any load and any clock: heap and table part exactly by a stale registration or an
      overflow, and otherwise the stale ids grow by the keys the call leaves. */
  lemma CallMatches(b: Balancer, op: Op)
    requires Matched(b) && WellFormed(b, op)
    ensures EndsMatched(b, op) <==> !RegistersStale(b, op) && !Overflows(b, op)
    ensures EndsMatched(b, op) ==> Stale(Step(b, op).value.0) == Stale(b) + Leaves(b, op)
  {
    match op
    case Register(_, _, _, _) => ReportMatches(b, op);
    case Update(_, _, _) => ReportMatches(b, op);
    case Unregister(id) => UnregisterMatches(b, id);
    case Query(clock) =>
      RemovePops();
      var r := QueryKeeps(Remove, b, clock, 0, false);
    case Sweep(order, clock) => SweepMatches(b, order, clock);
  }

  /** Every call ends normally with heap and table holding the same servers. */
  ghost predicate Whole(b: Balancer, ops: seq<Op>)
    decreases |ops|
  {
    ops == [] || (EndsMatched(b, ops[0]) && Whole(Step(b, ops[0]).value.0, ops[1..]))
  }

  /** No call registers an id in `left` or left behind before it, and no hint overflows. */
  predicate NeverReturns(b: Balancer, ops: seq<Op>, left: set<u32>)
    decreases |ops|
  {
    ops == [] ||
    (!(ops[0].Register? && ops[0].id in left) && !Overflows(b, ops[0])
     && (Step(b, ops[0]).Ok? ==> NeverReturns(Step(b, ops[0]).value.0, ops[1..], left + Leaves(b, ops[0]))))
  }

  function EndOf(b: Balancer, ops: seq<Op>): Balancer
    decreases |ops|
  {
    if ops == [] then b else match Step(b, ops[0]) case Ok(r) => EndOf(r.0, ops[1..]) case _ => b
  }

  /** The servers dropped, along a run, from the last slot of a larger heap. */
  function LeftBehind(b: Balancer, ops: seq<Op>): set<u32>
    decreases |ops|
  {
    if ops == [] then {}
    else match Step(b, ops[0]) case Ok(r) => Leaves(b, ops[0]) + LeftBehind(r.0, ops[1..]) case _ => {}
  }

  /** Over every run, with any loads and any clock, heap and table hold the same servers throughout if and
      only if no server that was dropped from the last slot of a larger heap registers again, and no hint
      overflows. The stale ids at its end are then exactly those at its start and the servers so dropped. */
  lemma {:induction false} RunKeepsServers(b: Balancer, ops: seq<Op>, left: set<u32>)
    requires Matched(b) && WellFormedRun(b, ops) && left == Stale(b)
    ensures Whole(b, ops) <==> NeverReturns(b, ops, left)
    ensures Whole(b, ops) ==> Stale(EndOf(b, ops)) == left + LeftBehind(b, ops)
    decreases |ops|
  {
    if ops != [] {
      CallMatches(b, ops[0]);
      if EndsMatched(b, ops[0]) {
        RunKeepsServers(Step(b, ops[0]).value.0, ops[1..], left + Leaves(b, ops[0]));
      }
    }
  }

  // ---------- After heap and table have parted ----------

  /** Every stored server is in the table with its load. */
  ghost predicate Backed(v: seq<Entry>, t: Table) {
    forall x: Entry | x in v :: x.id in t && t[x.id].load == x.load
  }

  /** And found at its own slot: the heap points at no server that is gone. */
  ghost predicate Pointed(b: Balancer) {
    Indexed(b.heap) && Backed(b.heap.vec, b.table)
  }

  lemma ReportPoints(b: Balancer, op: Op)
    requires Pointed(b) && (op.Register? || op.Update?) && Step(b, op).Ok?
    ensures Pointed(Step(b, op).value.0)
  {
    if op.Register? || op.id in b.table {
      var hint := if op.id in b.table then Hint(op.load, b.table[op.id].load).value else 0;
      PutKeeps(b.heap, Entry(op.id, op.load), hint);
    }
  }

  lemma DropPoints(b: Balancer, id: u32) returns (b1: Balancer)
    requires Pointed(b) && Drop(b, id).Ok?
    ensures Drop(b, id) == Ok(b1) && b1.table == b.table - {id} && AnyRemove(b.heap, id) == Ok(b1.heap)
    ensures Pointed(b1) && !Stored(b1.heap, id)
  {
    AnyRemoveKeeps(b.heap, id);
    b1 := Drop(b, id).value;
    forall x: Entry | x in b1.heap.vec
      ensures x.id != id
    {
      var j: nat :| j < |b1.heap.vec| && b1.heap.vec[j] == x;
    }
  }

  lemma PopPoints(b: Balancer) returns (b1: Balancer)
    requires Pointed(b) && b.heap.vec != []
    ensures b.heap.vec[0].id in b.table && Remove(b.heap) == Ok(b1.heap) && b1.table == b.table - {b.heap.vec[0].id}
    ensures Pointed(b1) && !Stored(b1.heap, b.heap.vec[0].id) && |b1.heap.vec| == |b.heap.vec| - 1
  {
    var id := b.heap.vec[0].id;
    assert b.heap.vec[0] in b.heap.vec;
    RemoveTakesTop(b.heap);
    b1 := Balancer(b.table - {id}, Remove(b.heap).value);
    OneShorter(b.heap.vec, b1.heap.vec);
    forall x: Entry | x in b1.heap.vec
      ensures x in b.heap.vec && x.id != id
    {
      assert x in multiset(b1.heap.vec);
      assert x in multiset(b.heap.vec);
      var j: nat :| j < |b1.heap.vec| && b1.heap.vec[j] == x;
    }
  }

  /** What the query needs of the removal of the top to keep an invariant and never to be undefined. */
  ghost predicate PopsRow(pop: Heap -> Outcome<Heap>, inv: Balancer -> bool) {
    forall b: Balancer {:trigger pop(b.heap), inv(b)} | inv(b) && b.heap.vec != [] ::
      && b.heap.vec[0].id in b.table && pop(b.heap).Ok? && |pop(b.heap).value.vec| == |b.heap.vec| - 1
      && inv(Balancer(b.table - {b.heap.vec[0].id}, pop(b.heap).value))
  }

  lemma {:induction false} QueryPoints(pop: Heap -> Outcome<Heap>, inv: Balancer -> bool, b: Balancer, clock: seq<u64>, k: nat, dropped: bool)
    returns (r: Reply)
    requires PopsRow(pop, inv) && inv(b) && k + |b.heap.vec| <= |clock|
    ensures r == QueryBy(pop, b, clock, k, dropped) && r.Ok? && inv(r.value.0)
    decreases |clock| - k
  {
    r := QueryBy(pop, b, clock, k, dropped);
    if b.heap.vec != [] {
      var h := pop(b.heap);
      var id := b.heap.vec[0].id;
      if !Live(clock[k], b.table[id].lastTs) {
        r := QueryPoints(pop, inv, Balancer(b.table - {id}, h.value), clock, k + 1, true);
      }
    }
  }

  /** A removal that ends normally takes out one row and keeps an invariant. */
  ghost predicate MayTakeRow(drop: (Balancer, u32) -> Outcome<Balancer>, inv: Balancer -> bool) {
    forall b: Balancer, id: u32 {:trigger drop(b, id)} | inv(b) && drop(b, id).Ok? ::
      inv(drop(b, id).value) && drop(b, id).value.table == b.table - {id}
  }

  lemma {:induction false} SweepPoints(
    drop: (Balancer, u32) -> Outcome<Balancer>, inv: Balancer -> bool, b: Balancer, order: seq<u32>, clock: seq<u64>, k: nat, removed: nat)
    returns (r: Reply)
    requires MayTakeRow(drop, inv) && inv(b) && k <= |order| <= |clock| && Walks(order, k, b.table)
    ensures r == SweepBy(drop, b, order, clock, k, removed) && (r.Ok? ==> inv(r.value.0))
    decreases |order| - k
  {
    r := SweepBy(drop, b, order, clock, k, removed);
    if k < |order| {
      WalksOn(order, k, b.table);
      if Live(clock[k], b.table[order[k]].lastTs) {
        r := SweepPoints(drop, inv, b, order, clock, k + 1, removed);
      } else if drop(b, order[k]).Ok? {
        r := SweepPoints(drop, inv, drop(b, order[k]).value, order, clock, k + 1, removed + 1);
      }
    }
  }

  /** One call, whatever is registered: if it ends normally, the heap still points at no server that is
      gone; and a query always does. */
  lemma CallPoints(b: Balancer, op: Op)
    requires Pointed(b) && WellFormed(b, op)
    ensures Step(b, op).Ok? ==> Pointed(Step(b, op).value.0)
    ensures op.Query? ==> Step(b, op).Ok?
  {
    match op
    case Register(_, _, _, _) =>
      if Step(b, op).Ok? {
        ReportPoints(b, op);
      }
    case Update(_, _, _) =>
      if Step(b, op).Ok? {
        ReportPoints(b, op);
      }
    case Unregister(id) =>
      if id in b.table && Drop(b, id).Ok? {
        var b1 := DropPoints(b, id);
      }
    case Query(clock) =>
      RemovePopsRow();
      var r := QueryPoints(Remove, Pointed, b, clock, 0, false);
    case Sweep(order, clock) =>
      DropMayTakeRow();
      var r := SweepPoints(Drop, Pointed, b, order, clock, 0, 0);
  }

  lemma RemovePopsRow()
    ensures PopsRow(Remove, Pointed)
  {
    forall b: Balancer | Pointed(b) && b.heap.vec != []
      ensures b.heap.vec[0].id in b.table && Remove(b.heap).Ok? && |Remove(b.heap).value.vec| == |b.heap.vec| - 1
      ensures Pointed(Balancer(b.table - {b.heap.vec[0].id}, Remove(b.heap).value))
    {
      var b1 := PopPoints(b);
    }
  }

  lemma DropMayTakeRow()
    ensures MayTakeRow(Drop, Pointed)
  {
    forall b: Balancer, id: u32 | Pointed(b) && Drop(b, id).Ok?
      ensures Pointed(Drop(b, id).value) && Drop(b, id).value.table == b.table - {id}
    {
      var b1 := DropPoints(b, id);
    }
  }

  /** Every state of the run, as long as its calls end normally. */
  ghost predicate AlwaysPointed(b: Balancer, ops: seq<Op>)
    decreases |ops|
  {
    Pointed(b) && (ops != [] && Step(b, ops[0]).Ok? ==> AlwaysPointed(Step(b, ops[0]).value.0, ops[1..]))
  }

  /** Over every run, whatever is registered, with any loads and any clock: the heap points only at servers
      of the table, each found at its own slot. So it never points at one that was freed. */
  lemma {:induction false} HeapNeverDangles(b: Balancer, ops: seq<Op>)
    requires Pointed(b) && WellFormedRun(b, ops)
    ensures AlwaysPointed(b, ops)
    decreases |ops|
  {
    if ops != [] {
      CallPoints(b, ops[0]);
      if Step(b, ops[0]).Ok? {
        HeapNeverDangles(Step(b, ops[0]).value.0, ops[1..]);
      }
    }
  }

  const EMPTY := Balancer(map[], Heap([], map[]))

  lemma EmptyIsGood(from: u64)
    ensures Good(EMPTY) && Pointed(EMPTY) && Stamped(EMPTY.table, from) && Stale(EMPTY) == {}
  {
  }

  /** The heaps of the witness run below. */
  lemma WitnessHeaps()
    ensures InsertOrUpdate(Heap([], map[]), Entry(2, 7), 0) == Ok(Heap([Entry(2, 7)], map[2 := 0]))
    ensures InsertOrUpdate(Heap([Entry(2, 7)], map[2 := 0]), Entry(1, 5), 0)
         == Ok(Heap([Entry(1, 5), Entry(2, 7)], map[1 := 0, 2 := 1]))
    ensures AnyRemove(Heap([Entry(1, 5), Entry(2, 7)], map[1 := 0, 2 := 1]), 2)
         == Ok(Heap([Entry(1, 5)], map[1 := 0, 2 := 1]))
    ensures InsertOrUpdate(Heap([Entry(1, 5)], map[1 := 0, 2 := 1]), Entry(3, 9), 0)
         == Ok(Heap([Entry(1, 5), Entry(3, 9)], map[1 := 0, 2 := 1, 3 := 1]))
  {
    assert [] + [Entry(2, 7)] == [Entry(2, 7)];
    assert [Entry(2, 7)] + [Entry(1, 5)] == [Entry(2, 7), Entry(1, 5)];
    assert [Entry(2, 7), Entry(1, 5)][0 := Entry(1, 5)][1 := Entry(2, 7)] == [Entry(1, 5), Entry(2, 7)];
    assert map[2 := 0][1 := 1][1 := 0][2 := 1] == map[1 := 0, 2 := 1];
    assert [Entry(1, 5), Entry(2, 7)][..1] == [Entry(1, 5)];
    assert [Entry(1, 5)] + [Entry(3, 9)] == [Entry(1, 5), Entry(3, 9)];
    assert Parent(1) == 0;
    assert (map[1 := 0, 2 := 1] - {2})[2 := 1] == map[1 := 0, 2 := 1];
  }

  function WitnessOne(t: u64): Balancer {
    Balancer(map[2 := Info("", 7, t)], Heap([Entry(2, 7)], map[2 := 0]))
  }

  function WitnessTwo(t: u64, now: u64): Balancer {
    Balancer(map[1 := Info("", 5, now), 2 := Info("", 7, t)], Heap([Entry(1, 5), Entry(2, 7)], map[1 := 0, 2 := 1]))
  }

  function WitnessSwept(now: u64): Balancer {
    Balancer(map[1 := Info("", 5, now)], Heap([Entry(1, 5)], map[1 := 0, 2 := 1]))
  }

  function WitnessThree(now: u64): Balancer {
    Balancer(map[1 := Info("", 5, now), 3 := Info("", 9, now)], Heap([Entry(1, 5), Entry(3, 9)], map[1 := 0, 2 := 1, 3 := 1]))
  }

  /** Two servers register; the second misses its reports and the TTL sweep drops it from the last slot. */
  lemma ExpiredServerIsSwept(t: u64)
    requires t + SERVER_TIMEOUT < TWO_64
    ensures var now := t + SERVER_TIMEOUT;
      && Step(EMPTY, Register(2, "", 7, t)) == Ok((WitnessOne(t), Found(true)))
      && Step(WitnessOne(t), Register(1, "", 5, now)) == Ok((WitnessTwo(t, now), Found(true)))
      && Step(WitnessTwo(t, now), Sweep([1, 2], [now, now])) == Ok((WitnessSwept(now), Swept(1)))
  {
    WitnessHeaps();
    var now := t + SERVER_TIMEOUT;
    var b := WitnessTwo(t, now);
    assert b.table - {2} == WitnessSwept(now).table;
    assert Drop(b, 2) == Ok(WitnessSwept(now));
    assert SweepFrom(WitnessSwept(now), [1, 2], [now, now], 2, 1) == Ok((WitnessSwept(now), Swept(1)));
    assert SweepFrom(b, [1, 2], [now, now], 1, 0) == Ok((WitnessSwept(now), Swept(1)));
    assert WitnessOne(t).table[1 := Info("", 5, now)] == b.table;
  }

  lemma WitnessIsGood(now: u64)
    ensures Good(WitnessThree(now)) && Stale(WitnessThree(now)) == {2}
  {
    var v := WitnessThree(now).heap.vec;
    assert v[0] in v && v[1] in v && Edge(v, 1);
  }

  /** A third server takes the freed slot. The second reports, is not found, and registers again as its
      reporter does: the third is then in the table but nowhere in the heap. Had there been no third, the
      registration would have written out of range. */
  lemma ReturningServerEvictsAnother(now: u64)
    ensures Step(WitnessSwept(now), Register(3, "", 9, now)) == Ok((WitnessThree(now), Found(true)))
    ensures Step(WitnessThree(now), Update(2, 7, now)) == Ok((WitnessThree(now), Found(false)))
    ensures Good(WitnessThree(now)) && Stale(WitnessThree(now)) == {2}
    ensures var r := Step(WitnessThree(now), Register(2, "", 7, now));
      r.Ok? && 3 in r.value.0.table && !Stored(r.value.0.heap, 3)
    ensures Step(WitnessSwept(now), Register(2, "", 7, now)) == Undefined
  {
    WitnessHeaps();
    WitnessIsGood(now);
    StaleRegistrationBreaks(WitnessThree(now), 2, "", 7, now);
    assert WitnessThree(now).heap.vec[1].id == 3;
  }

  /** And the sweep that finds them all expired throws: it drops the first two, and the heap is empty when
      it comes to the third. */
  lemma SweepCanThrow(now: u64, later: u64)
    requires now + SERVER_TIMEOUT <= later
    ensures var r := Step(WitnessThree(now), Register(2, "", 7, now));
      r.Ok? && WellFormed(r.value.0, Sweep([1, 2, 3], [later, later, later]))
      && Step(r.value.0, Sweep([1, 2, 3], [later, later, later])) == Throws
  {
    var t := WitnessThree(now).table[2 := Info("", 7, now)];
    var b := Balancer(t, Heap([Entry(1, 5), Entry(2, 7)], map[1 := 0, 2 := 1, 3 := 1]));
    assert [Entry(1, 5), Entry(3, 9)][1 := Entry(2, 7)] == b.heap.vec;
    assert InsertOrUpdate(WitnessThree(now).heap, Entry(2, 7), 0) == Ok(b.heap);
    var h1 := Heap([Entry(2, 7)], map[2 := 0, 3 := 1]);
    assert [Entry(1, 5), Entry(2, 7)][0 := Entry(2, 7)][..1] == h1.vec;
    assert (b.heap.idx - {1})[2 := 0] == h1.idx;
    assert AnyRemove(b.heap, 1) == Ok(h1);
    var h2 := Heap([], map[3 := 1]);
    assert [Entry(2, 7)][0 := Entry(2, 7)][..0] == h2.vec && h1.idx - {2} == h2.idx;
    assert AnyRemove(h1, 2) == Ok(h2);
    assert AnyRemove(h2, 3) == Throws;
    var b1, b2 := Balancer(t - {1}, h1), Balancer(t - {1} - {2}, h2);
    var order, clock := [1, 2, 3], [later, later, later];
    assert SweepFrom(b2, order, clock, 2, 2) == Throws;
    assert SweepFrom(b1, order, clock, 1, 1) == Throws;
    assert SweepFrom(b, order, clock, 0, 0) == Throws;
  }
}
