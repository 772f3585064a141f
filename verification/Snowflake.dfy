/** Snowflake ids (snowflake_id.hpp): 42 bits of milliseconds, 10 bits of worker, 12 bits of sequence.
    A call is given the clock readings it takes, in order; none is returned while it still spins. */
module Snowflake {
  import opened Basics

  const SEQS: int := 4096
  const WORKERS: int := 1024
  const STAMPS: int := 0x400_0000_0000

  datatype Gen = Gen(worker: nat, seqNo: nat, lastTs: u64)

  ghost predicate Valid(g: Gen) {
    g.worker < WORKERS && g.seqNo < SEQS
  }

  /** The constructor keeps the low ten bits of the worker id. */
  function New(worker: nat): (g: Gen)
    ensures Valid(g) && g.worker == worker % 1024
  {
    Gen(worker % WORKERS, 0, 0)
  }

  /** (ts << 22) | (worker << 12) | seq in 64 bits. */
  function Pack(ts: u64, worker: nat, seqNo: nat): (id: u64)
    requires worker < WORKERS && seqNo < SEQS
    ensures id % 4096 == seqNo && id / 4096 % 1024 == worker && id / 0x40_0000 == ts % 0x400_0000_0000
  {
    (ts % STAMPS * WORKERS + worker) * SEQS + seqNo
  }

  /** The first reading from k on that is later than `last`, or the end. */
  function Spin(clock: seq<u64>, k: nat, last: u64): (j: nat)
    requires k <= |clock|
    ensures k <= j <= |clock| && (forall i | k <= i < j :: clock[i] <= last) && (j < |clock| ==> clock[j] > last)
    decreases |clock| - k
  {
    if k == |clock| || clock[k] > last then k else Spin(clock, k + 1, last)
  }

  function Generate(g: Gen, clock: seq<u64>): (r: Option<(Gen, u64)>)
    requires Valid(g)
    ensures r.Some? ==> Valid(r.value.0) && r.value.0.worker == g.worker && r.value.0.lastTs in clock
  {
    if clock == [] then None
    else
      var s := if clock[0] == g.lastTs then (g.seqNo + 1) % SEQS else 0;
      var j := if clock[0] == g.lastTs && s == 0 then Spin(clock, 1, g.lastTs) else 0;
      if j == |clock| then None
      else Some((Gen(g.worker, s, clock[j]), Pack(clock[j], g.worker, s)))
  }

  /** The id that the last call returned. */
  function LastId(g: Gen): u64
    requires Valid(g)
  {
    Pack(g.lastTs, g.worker, g.seqNo)
  }

  lemma PackOrder(a: u64, s: nat, b: u64, t: nat, worker: nat)
    requires worker < WORKERS && s < SEQS && t < SEQS && a < STAMPS && b < STAMPS
    ensures Pack(a, worker, s) < Pack(b, worker, t) <==> a < b || (a == b && s < t)
  {
    assert Pack(a, worker, s) == a * (SEQS * WORKERS) + worker * SEQS + s;
    assert Pack(b, worker, t) == b * (SEQS * WORKERS) + worker * SEQS + t;
  }

  /** A call returns a greater id than the one before exactly when the clock has not stepped back. */
  lemma NextIsGreaterExactly(g: Gen, clock: seq<u64>)
    requires Valid(g) && Generate(g, clock).Some? && g.lastTs < STAMPS
    requires forall i | 0 <= i < |clock| :: clock[i] < STAMPS
    ensures LastId(g) < Generate(g, clock).value.1 <==> clock[0] >= g.lastTs
    ensures LastId(Generate(g, clock).value.0) == Generate(g, clock).value.1
  {
    var g1 := Generate(g, clock).value.0;
    PackOrder(g.lastTs, g.seqNo, g1.lastTs, g1.seqNo, g.worker);
  }

  /** What a call gives, for stamps below 2^42: in a new millisecond the sequence starts at 0; in the same
      one the next number follows, without another reading of the clock, and the one after 4095 takes the
      first later millisecond. Milliseconds, worker and sequence are 42, 10 and 12 bits of the id. */
  lemma GeneratesExactly(g: Gen, clock: seq<u64>)
    requires Valid(g) && clock != [] && forall i | 0 <= i < |clock| :: clock[i] < 0x400_0000_0000
    ensures clock[0] != g.lastTs ==>
      Generate(g, clock).Some? && Generate(g, clock).value.1 == clock[0] * 0x40_0000 + g.worker * 0x1000
    ensures clock[0] == g.lastTs && g.seqNo < 4095 ==>
      Generate(g, clock).Some? && Generate(g, clock).value.1 == LastId(g) + 1 == clock[0] * 0x40_0000 + g.worker * 0x1000 + g.seqNo + 1
    ensures clock[0] == g.lastTs && g.seqNo == 4095 ==>
      match Generate(g, clock)
      case None => forall i | 1 <= i < |clock| :: clock[i] <= g.lastTs
      case Some((_, id)) => exists j | 1 <= j < |clock| ::
        clock[j] > g.lastTs && id == clock[j] * 0x40_0000 + g.worker * 0x1000 && forall i | 1 <= i < j :: clock[i] <= g.lastTs
    ensures Generate(g, clock).Some? ==> LastId(Generate(g, clock).value.0) == Generate(g, clock).value.1
  {
    PackLinear(clock[0], g.worker, 0);
    PackLinear(clock[0], g.worker, g.seqNo);
    if clock[0] == g.lastTs && g.seqNo < 4095 {
      PackLinear(clock[0], g.worker, g.seqNo + 1);
    } else if clock[0] == g.lastTs && Generate(g, clock).Some? {
      PackLinear(clock[Spin(clock, 1, g.lastTs)], g.worker, 0);
    }
  }

  lemma PackLinear(ts: u64, worker: nat, seqNo: nat)
    requires ts < 0x400_0000_0000 && worker < WORKERS && seqNo < SEQS
    ensures Pack(ts, worker, seqNo) == ts * 0x40_0000 + worker * 0x1000 + seqNo
  {
  }

  // ---------- Whole runs ----------

  /** The ids of a run of calls, each with its readings. */
  function Ids(g: Gen, calls: seq<seq<u64>>): Option<seq<u64>>
    requires Valid(g)
    decreases |calls|
  {
    if calls == [] then Some([])
    else
      match Generate(g, calls[0])
      case None => None
      case Some((g1, id)) =>
        match Ids(g1, calls[1..])
        case None => None
        case Some(ids) => Some([id] + ids)
  }

  ghost predicate Readable(calls: seq<seq<u64>>) {
    forall i, j | 0 <= i < |calls| && 0 <= j < |calls[i]| :: calls[i][j] < STAMPS
  }

  /** Every call first reads a time no earlier than the stamp of the call before. */
  predicate NoStepBack(g: Gen, calls: seq<seq<u64>>)
    requires Valid(g) && Ids(g, calls).Some?
    decreases |calls|
  {
    calls == [] ||
    (calls[0][0] >= g.lastTs && NoStepBack(Generate(g, calls[0]).value.0, calls[1..]))
  }

  predicate Ascending(prev: u64, ids: seq<u64>)
    decreases |ids|
  {
    ids == [] || (prev < ids[0] && Ascending(ids[0], ids[1..]))
  }

  lemma {:induction false} AscendingIsStrict(prev: u64, ids: seq<u64>)
    requires Ascending(prev, ids)
    ensures forall i | 0 <= i < |ids| :: prev < ids[i]
    ensures forall i, j | 0 <= i < j < |ids| :: ids[i] < ids[j]
    decreases |ids|
  {
    if ids != [] {
      AscendingIsStrict(ids[0], ids[1..]);
      assert ids == [ids[0]] + ids[1..];
    }
  }

  /** The ids of a generator are strictly increasing, across sequence wrap and the spin loop, if and
      only if the clock never steps back behind a stamp. */
  lemma {:induction false} IncreasingExactly(g: Gen, calls: seq<seq<u64>>)
    requires Valid(g) && g.lastTs < STAMPS && Readable(calls) && Ids(g, calls).Some?
    ensures Ascending(LastId(g), Ids(g, calls).value) <==> NoStepBack(g, calls)
    decreases |calls|
  {
    if calls != [] {
      NextIsGreaterExactly(g, calls[0]);
      IncreasingExactly(Generate(g, calls[0]).value.0, calls[1..]);
      assert ([Generate(g, calls[0]).value.1] + Ids(Generate(g, calls[0]).value.0, calls[1..]).value)[1..]
          == Ids(Generate(g, calls[0]).value.0, calls[1..]).value;
    }
  }

  /** A non-decreasing clock: every reading lies between the last one of the call before and the last
      one of its own call. */
  predicate Monotone(calls: seq<seq<u64>>, from: u64)
    decreases |calls|
  {
    calls == [] ||
    (calls[0] != [] && (forall i | 0 <= i < |calls[0]| :: from <= calls[0][i] <= calls[0][|calls[0]| - 1])
     && Monotone(calls[1..], calls[0][|calls[0]| - 1]))
  }

  lemma {:induction false} MonotoneIncreases(g: Gen, calls: seq<seq<u64>>, from: u64)
    requires Valid(g) && g.lastTs <= from && Monotone(calls, from) && Ids(g, calls).Some?
    ensures NoStepBack(g, calls)
    decreases |calls|
  {
    if calls != [] {
      MonotoneIncreases(Generate(g, calls[0]).value.0, calls[1..], calls[0][|calls[0]| - 1]);
    }
  }

  /** Under a non-decreasing clock a new generator never repeats an id and never goes down. */
  lemma MonotoneClockIncreases(worker: nat, calls: seq<seq<u64>>)
    requires Readable(calls) && Monotone(calls, 0) && Ids(New(worker), calls).Some?
    ensures var ids := Ids(New(worker), calls).value; forall i, j | 0 <= i < j < |ids| :: ids[i] < ids[j]
  {
    var g := New(worker);
    MonotoneIncreases(g, calls, 0);
    IncreasingExactly(g, calls);
    AscendingIsStrict(LastId(g), Ids(g, calls).value);
  }

  lemma {:induction false} WorkerField(g: Gen, calls: seq<seq<u64>>, i: nat)
    requires Valid(g) && Ids(g, calls).Some? && i < |Ids(g, calls).value|
    ensures Ids(g, calls).value[i] / SEQS % WORKERS == g.worker
    decreases |calls|
  {
    if i > 0 {
      WorkerField(Generate(g, calls[0]).value.0, calls[1..], i - 1);
    }
  }

  /** Generators whose worker ids differ modulo 1024 never give the same id, under any clocks. */
  lemma WorkersNeverCollide(a: nat, b: nat, calls: seq<seq<u64>>, calls2: seq<seq<u64>>, i: nat, j: nat)
    requires a % WORKERS != b % WORKERS
    requires Ids(New(a), calls).Some? && i < |Ids(New(a), calls).value|
    requires Ids(New(b), calls2).Some? && j < |Ids(New(b), calls2).value|
    ensures Ids(New(a), calls).value[i] != Ids(New(b), calls2).value[j]
  {
    WorkerField(New(a), calls, i);
    WorkerField(New(b), calls2, j);
  }

  /** A step back of the clock can repeat an id. */
  lemma StepBackRepeats(worker: nat, t: u64)
    requires 0 < t < STAMPS - 1
    ensures var r := Ids(New(worker), [[t], [t + 1], [t]]);
      r.Some? && |r.value| == 3 && r.value[0] == r.value[2]
  {
    var g := New(worker);
    var calls := [[t], [t + 1], [t]];
    var g1 := Generate(g, [t]).value.0;
    var g2 := Generate(g1, [t + 1]).value.0;
    assert calls[1..] == [[t + 1], [t]] && calls[1..][1..] == [[t]] && [[t]][1..] == [];
    assert Ids(g2, [[t]]) == Some([Pack(t, g.worker, 0)] + []);
    assert Ids(g1, calls[1..]) == Some([Pack(t + 1, g.worker, 0)] + ([Pack(t, g.worker, 0)] + []));
  }

  // ---------- The generator object ----------

  class UIDGenerator {
    const worker: nat
    var seqNo: nat
    var lastTs: u64

    constructor (worker: nat)
      ensures View() == New(worker)
    {
      this.worker := worker % WORKERS;
      seqNo, lastTs := 0, 0;
    }

    function View(): Gen
      reads this
    {
      Gen(worker, seqNo, lastTs)
    }

    /** `None` when the readings ran out in the spin loop; the lock is then still held. */
    method Next(clock: seq<u64>) returns (id: Option<u64>)
      requires Valid(View()) && clock != []
      modifies this
      ensures match Generate(old(View()), clock)
        case None => id == None
        case Some((g, v)) => id == Some(v) && View() == g
    {
      var k, ts := 0, clock[0];
      if ts == lastTs {
        seqNo := (seqNo + 1) % SEQS;
        if seqNo == 0 {
          while ts <= lastTs
            invariant k < |clock| && ts == clock[k] && lastTs == old(lastTs) && seqNo == 0
            invariant k == 0 ==> ts == lastTs
            invariant if k == 0 then true else Spin(clock, 1, lastTs) == Spin(clock, k, lastTs)
            decreases |clock| - k
          {
            k := k + 1;
            if k == |clock| {
              return None;
            }
            ts := clock[k];
          }
        }
      } else {
        seqNo := 0;
      }
      lastTs := ts;
      id := Some(Pack(ts, worker, seqNo));
    }
  }
}
