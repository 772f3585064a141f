/** The mutable heap and load balancer of the status server. `ServerInfo` objects are shared between
    the owning table and the heap array and are changed in place; every method is proved to do to the
    values it holds exactly what the function of the same name in HeapModel or BalancerModel does. */
module LoadBalancers {
  import opened Basics
  import M = HeapModel
  import B = BalancerModel

  class ServerInfo {
    const id: u32
    var addr: string
    var load: u32
    var lastTs: u64

    constructor (id: u32, addr: string, load: u32, now: u64)
      ensures this.id == id && Info() == B.Info(addr, load, now)
    {
      this.id, this.addr, this.load, this.lastTs := id, addr, load, now;
    }

    function Info(): B.Info
      reads this
    {
      B.Info(addr, load, lastTs)
    }

    function Entry(): M.Entry
      reads this
    {
      M.Entry(id, load)
    }
  }

  function Entries(v: seq<ServerInfo>): (r: seq<M.Entry>)
    reads v
    ensures |r| == |v| && forall i | 0 <= i < |v| :: r[i] == v[i].Entry()
  {
    if v == [] then [] else Entries(v[..|v| - 1]) + [v[|v| - 1].Entry()]
  }

  class MinHeap {
    var vec: seq<ServerInfo>
    var idx: map<u32, nat>

    constructor ()
      ensures vec == [] && idx == map[]
    {
      vec, idx := [], map[];
    }

    function View(): M.Heap
      reads this, vec
    {
      M.Heap(Entries(vec), idx)
    }

    method SwapSlots(a: nat, b: nat)
      requires a < |vec| && b < |vec|
      modifies this
      ensures View() == M.Swap(old(View()), a, b)
      ensures forall o | o in vec :: o in old(vec)
    {
      vec := vec[a := vec[b]][b := vec[a]];
      var i, j := vec[a].id, vec[b].id;
      idx := idx[i := M.At(idx, j)][j := M.At(idx, i)];
      assert Entries(vec) == M.Swap(old(View()), a, b).vec;
    }

    method HeapUp(start: nat)
      requires start < |vec|
      modifies this
      ensures View() == M.HeapUp(old(View()), start)
      ensures forall o | o in vec :: o in old(vec)
    {
      var cur: nat := start;
      while cur > 0
        invariant cur < |vec| && M.HeapUp(View(), cur) == M.HeapUp(old(View()), start)
        invariant forall o | o in vec :: o in old(vec)
      {
        var parent := (cur - 1) / 2;
        if vec[parent].load > vec[cur].load {
          SwapSlots(parent, cur);
        }
        cur := parent;
      }
    }

    /** The child to swap with, or none to stop. */
    method DownTarget(cur: nat) returns (c: Option<nat>)
      requires 2 * cur + 1 < |vec|
      ensures c == M.DownTarget(View().vec, cur)
    {
      var c1, c2 := 2 * cur + 1, 2 * cur + 2;
      if c2 < |vec| {
        if vec[c1].load > vec[c2].load {
          c := if vec[c2].load > vec[cur].load then None else Some(c2);
        } else {
          c := if vec[c1].load > vec[cur].load then None else Some(c1);
        }
      } else {
        c := if vec[cur].load > vec[c1].load then Some(c1) else None;
      }
    }

    /** One round of the loop; none when it stops. */
    method Sink(cur: nat) returns (next: Option<nat>)
      requires 2 * cur + 1 < |vec|
      modifies this
      ensures forall o | o in vec :: o in old(vec)
      ensures match next
        case None => View() == old(View()) == M.HeapDown(old(View()), cur)
        case Some(c) => cur < c < |vec| == |old(vec)| && M.HeapDown(View(), c) == M.HeapDown(old(View()), cur)
    {
      next := DownTarget(cur);
      if next.Some? {
        SwapSlots(cur, next.value);
      }
    }

    method HeapDown(start: nat)
      requires start < |vec|
      modifies this
      ensures View() == M.HeapDown(old(View()), start)
      ensures forall o | o in vec :: o in old(vec)
    {
      var cur: nat := start;
      while 2 * cur + 1 < |vec|
        invariant cur < |vec| && M.HeapDown(View(), cur) == M.HeapDown(old(View()), start)
        invariant forall o | o in vec :: o in old(vec)
        decreases |vec| - cur
      {
        var next := Sink(cur);
        if next.None? {
          return;
        }
        cur := next.value;
      }
    }

    method Sift(i: nat, hint: int)
      requires i < |vec|
      modifies this
      ensures View() == M.Sift(old(View()), i, hint)
      ensures forall o | o in vec :: o in old(vec)
    {
      if hint < 0 {
        HeapUp(i);
      } else if hint > 0 {
        HeapDown(i);
      } else {
        HeapUp(i);
        HeapDown(i);
      }
    }

    /** `ok` is false where the C++ code writes out of range. */
    method InsertOrUpdate(id: u32, val: ServerInfo, hint: int) returns (ok: bool)
      requires val.id == id
      modifies this
      ensures M.InsertOrUpdate(old(View()), val.Entry(), hint) == if ok then Ok(View()) else Undefined
      ensures !ok ==> View() == old(View()) && vec == old(vec)
      ensures forall o | o in vec :: o in old(vec) || o == val
    {
      ok := id !in idx || idx[id] < |vec|;
      if id !in idx {
        Append(val);
      } else if ok {
        Overwrite(idx[id], val, hint);
      }
    }

    method Overwrite(i: nat, val: ServerInfo, hint: int)
      requires i < |vec|
      modifies this
      ensures View() == M.Sift(M.Heap(old(View()).vec[i := val.Entry()], old(idx)), i, hint)
      ensures forall o | o in vec :: o in old(vec) || o == val
    {
      vec := vec[i := val];
      assert Entries(vec) == Entries(old(vec))[i := val.Entry()];
      Sift(i, hint);
    }

    method Append(val: ServerInfo)
      modifies this
      ensures View() == M.HeapUp(M.Heap(old(View()).vec + [val.Entry()], old(idx)[val.id := |old(vec)|]), |old(vec)|)
      ensures forall o | o in vec :: o in old(vec) || o == val
    {
      vec := vec + [val];
      idx := idx[val.id := |vec| - 1];
      assert Entries(vec) == Entries(old(vec)) + [val.Entry()];
      HeapUp(|vec| - 1);
    }

    /** The shared part of the two removals, before any repair. */
    method Shrink(i: nat, id: u32)
      requires i < |vec|
      modifies this
      ensures View() == M.Shrunk(old(View()), i, id)
      ensures vec == old(vec)[i := old(vec)[|old(vec)| - 1]][..|old(vec)| - 1]
    {
      idx := idx - {id};
      vec := vec[i := vec[|vec| - 1]];
      if |vec| > 1 {
        idx := idx[vec[|vec| - 1].id := i];
      }
      vec := vec[..|vec| - 1];
      assert Entries(vec) == M.Shrunk(old(View()), i, id).vec;
    }

    method Remove() returns (thrown: bool)
      modifies this
      ensures M.Remove(old(View())) == if thrown then Throws else Ok(View())
      ensures thrown ==> vec == old(vec) && View() == old(View())
      ensures forall o | o in vec :: o in old(vec)
    {
      thrown := vec == [];
      if !thrown {
        Shrink(0, vec[0].id);
        if vec != [] {
          HeapDown(0);
        }
      }
    }

    /** `Throws` leaves the heap alone; `Undefined` marks a write out of range. */
    method AnyRemove(id: u32) returns (o: Outcome<()>)
      modifies this
      ensures M.AnyRemove(old(View()), id) == if o.Ok? then Ok(View()) else if o.Throws? then Throws else Undefined
      ensures !o.Ok? ==> vec == old(vec) && View() == old(View())
      ensures forall x | x in vec :: x in old(vec)
    {
      if id !in idx || vec == [] {
        return Throws;
      }
      var i := idx[id];
      if i >= |vec| {
        return Undefined;
      }
      Shrink(i, id);
      if i < |vec| {
        Sift(i, 0);
      }
      return Ok(());
    }
  }

  class LoadBalancer {
    const heap: MinHeap
    var hm: map<u32, ServerInfo>

    constructor ()
      ensures Valid() && State() == B.EMPTY && fresh(heap)
    {
      heap := new MinHeap();
      hm := map[];
    }

    /** The table owns every object the heap points at. */
    ghost predicate Owned()
      reads this, heap
    {
      && (forall id | id in hm :: hm[id].id == id)
      && forall o | o in heap.vec :: o.id in hm && hm[o.id] == o
    }

    function Rows(): B.Table
      reads this, hm.Values
    {
      map id | id in hm :: hm[id].Info()
    }

    function State(): B.Balancer
      reads this, heap, heap.vec, hm.Values
    {
      B.Balancer(Rows(), heap.View())
    }

    /** Also after a call has dropped servers from the heap that the table keeps. */
    ghost predicate Valid()
      reads this, heap, heap.vec, hm.Values
    {
      Owned() && M.Indexed(heap.View())
    }

    lemma OwnedIsPointed()
      requires Valid()
      ensures B.Pointed(State())
    {
      var v := heap.View().vec;
      forall x | x in v
        ensures x.id in Rows() && Rows()[x.id].load == x.load
      {
        var j: nat :| j < |v| && v[j] == x;
        assert heap.vec[j] in heap.vec;
      }
    }

    /** The heap points at the server `id` from the slot in the index, or from none. */
    ghost predicate Placed(id: u32)
      reads this, heap, heap.vec
    {
      && id in hm
      && (M.Stored(heap.View(), id) ==> id in heap.idx && heap.idx[id] < |heap.vec|)
      && forall j: nat | j < |heap.vec| :: heap.vec[j] == hm[id] <==> M.Stored(heap.View(), id) && j == heap.idx[id]
    }

    lemma ServersArePlaced(id: u32)
      requires Valid() && id in hm
      ensures Placed(id)
    {
      forall j: nat | j < |heap.vec|
        ensures heap.vec[j] == hm[id] <==> heap.View().vec[j].id == id
      {
        assert heap.View().vec[j].id == heap.vec[j].id && heap.vec[j] in heap.vec;
      }
    }

    /** Change an owned server in place. The heap sees it through its own pointer, if it has one. */
    method SetInfo(id: u32, addr: string, load: u32, now: u64)
      requires Owned() && Placed(id)
      modifies hm[id]
      ensures Owned() && Rows() == old(Rows())[id := B.Info(addr, load, now)]
      ensures heap.View() == if M.Stored(old(heap.View()), id)
                             then M.Heap(old(heap.View()).vec[heap.idx[id] := M.Entry(id, load)], heap.idx) else old(heap.View())
    {
      var si := hm[id];
      si.addr, si.load, si.lastTs := addr, load, now;
      if M.Stored(old(heap.View()), id) {
        assert heap.View().vec == old(heap.View()).vec[heap.idx[id] := M.Entry(id, load)];
      } else {
        assert heap.View().vec == old(heap.View()).vec;
      }
    }

    /** `ok` is false exactly where the C++ behaviour is undefined. */
    method Touch(id: u32, addr: string, load: u32, now: u64) returns (ok: bool)
      requires Owned() && Placed(id)
      modifies heap, hm[id]
      ensures Owned()
      ensures B.Touch(old(State()), id, B.Info(addr, load, now)) == if ok then Ok((State(), B.Found(true))) else Undefined
    {
      var hint := B.Hint(load, hm[id].load);
      if !hint.Ok? {
        return false;
      }
      SetInfo(id, addr, load, now);
      if M.Stored(old(heap.View()), id) {
        M.UpdateInPlace(old(heap.View()), M.Entry(id, load), hint.value);
      }
      ok := heap.InsertOrUpdate(id, hm[id], hint.value);
      assert Rows() == old(Rows())[id := B.Info(addr, load, now)];
    }

    method UpdateServerLoad(id: u32, load: u32, now: u64) returns (found: bool, ok: bool)
      requires Valid()
      modifies heap, hm.Values
      ensures Owned() && (ok ==> Valid())
      ensures B.UpdateServerLoad(old(State()), id, load, now) == if ok then Ok((State(), B.Found(found))) else Undefined
    {
      found, ok := id in hm, true;
      if found {
        ServersArePlaced(id);
        ghost var b := Reported(B.Update(id, load, now));
        ok := Touch(id, hm[id].addr, load, now);
      }
    }

    method RegisterServerInfo(id: u32, addr: string, load: u32, now: u64) returns (ok: bool)
      requires Valid()
      modifies this, heap, hm.Values
      ensures Owned() && (ok ==> Valid())
      ensures B.RegisterServerInfo(old(State()), id, addr, load, now) == if ok then Ok((State(), B.Found(true))) else Undefined
    {
      ghost var b := Reported(B.Register(id, addr, load, now));
      if id in hm {
        ServersArePlaced(id);
        ok := Touch(id, addr, load, now);
      } else {
        ok := Enroll(id, addr, load, now);
      }
    }

    /** The state a report leads to, if it ends normally. */
    lemma Reported(op: B.Op) returns (b: B.Balancer)
      requires Valid() && (op.Register? || op.Update?)
      ensures B.Step(State(), op).Ok? ==> b == B.Step(State(), op).value.0 && M.Indexed(b.heap)
    {
      OwnedIsPointed();
      b := State();
      if B.Step(State(), op).Ok? {
        B.ReportPoints(State(), op);
        b := B.Step(State(), op).value.0;
      }
    }

    method Enroll(id: u32, addr: string, load: u32, now: u64) returns (ok: bool)
      requires Owned() && id !in hm
      modifies this, heap
      ensures Owned() && Rows() == old(Rows())[id := B.Info(addr, load, now)]
      ensures M.InsertOrUpdate(old(heap.View()), M.Entry(id, load), 0) == if ok then Ok(heap.View()) else Undefined
    {
      var si := new ServerInfo(id, addr, load, now);
      ok := heap.InsertOrUpdate(id, si, 0);
      assert Rows() == old(Rows());
      Adopt(si);
    }

    method Adopt(si: ServerInfo)
      requires si.id !in hm
      requires forall id | id in hm :: hm[id].id == id
      requires forall o | o in heap.vec :: o == si || (o.id in hm && hm[o.id] == o)
      modifies this
      ensures Owned() && Rows() == old(Rows())[si.id := si.Info()] && heap.View() == old(heap.View())
    {
      hm := hm[si.id := si];
    }

    method Release(id: u32)
      requires Owned() && !M.Stored(heap.View(), id)
      modifies this
      ensures Owned() && Rows() == old(Rows()) - {id} && hm == old(hm) - {id}
      ensures heap.View() == old(heap.View())
    {
      forall o | o in heap.vec
        ensures o.id != id
      {
        var j: nat :| j < |heap.vec| && heap.vec[j] == o;
        assert heap.View().vec[j].id == o.id;
      }
      hm := hm - {id};
    }

    /** Whether there was one; throws, or is undefined, as the removal from the heap. */
    method RemoveServer(id: u32) returns (o: Outcome<bool>)
      requires Valid()
      modifies this, heap
      ensures Valid()
      ensures B.RemoveServer(old(State()), id) == if o.Ok? then Ok((State(), B.Found(o.value))) else if o.Throws? then Throws else Undefined
      ensures !o.Ok? ==> State() == old(State())
    {
      if id !in hm {
        return Ok(false);
      }
      var d := Drop(id);
      o := if d.Ok? then Ok(true) else if d.Throws? then Throws else Undefined;
    }

    method Drop(id: u32) returns (o: Outcome<()>)
      requires Valid() && id in hm
      modifies this, heap
      ensures Valid() && hm == if o.Ok? then old(hm) - {id} else old(hm)
      ensures B.Drop(old(State()), id) == if o.Ok? then Ok(State()) else if o.Throws? then Throws else Undefined
      ensures !o.Ok? ==> State() == old(State())
    {
      OwnedIsPointed();
      ghost var b := State();
      o := TakeOut(id);
      if o.Ok? {
        ghost var b1 := B.DropPoints(b, id);
        Release(id);
        assert State() == b1;
      }
    }

    method TakeOut(id: u32) returns (o: Outcome<()>)
      requires Owned()
      modifies heap
      ensures Owned() && Rows() == old(Rows())
      ensures M.AnyRemove(old(heap.View()), id) == if o.Ok? then Ok(heap.View()) else if o.Throws? then Throws else Undefined
      ensures !o.Ok? ==> heap.View() == old(heap.View())
    {
      o := heap.AnyRemove(id);
      assert Rows() == old(Rows());
    }

    /** One reading of `clock` per round. */
    method GetMinimalLoadServerInfo(clock: seq<u64>) returns (server: Option<(u32, B.Info)>, updated: bool)
      requires Valid() && |heap.vec| <= |clock|
      modifies this, heap
      ensures Valid()
      ensures B.QueryFrom(old(State()), clock, 0, false) == Ok((State(), B.Best(server, updated)))
    {
      updated := false;
      var k := 0;
      ghost var b0 := State();
      ghost var b := b0;
      while heap.vec != []
        invariant Valid() && State() == b && k + |heap.vec| <= |clock|
        invariant B.QueryFrom(b, clock, k, updated) == B.QueryFrom(b0, clock, 0, false)
        decreases |heap.vec|
      {
        server := Look(clock, k, updated);
        if server.Some? {
          return;
        }
        updated, k := true, k + 1;
        b := State();
      }
      return None, updated;
    }

    /** One round: the top if it is live; otherwise it is dropped. */
    method Look(clock: seq<u64>, k: nat, ghost updated: bool) returns (server: Option<(u32, B.Info)>)
      requires Valid() && heap.vec != [] && k < |clock|
      modifies this, heap
      ensures Valid()
      ensures server.Some? ==> State() == old(State()) && B.QueryFrom(State(), clock, k, updated) == Ok((State(), B.Best(server, updated)))
      ensures server.None? ==>
        && |heap.vec| == |old(heap.vec)| - 1
        && B.QueryFrom(State(), clock, k + 1, true) == B.QueryFrom(old(State()), clock, k, updated)
    {
      var si := heap.vec[0];
      ghost var b := State();
      OwnedIsPointed();
      assert si in heap.vec;
      assert b.heap.vec[0] == si.Entry() && b.table[si.id] == si.Info();
      if B.Live(clock[k], si.lastTs) {
        return Some((si.id, si.Info()));
      }
      ghost var b1 := B.PopPoints(b);
      DropTop(b1);
      return None;
    }

    method DropTop(ghost b1: B.Balancer)
      requires Owned() && heap.vec != [] && !M.Stored(b1.heap, heap.vec[0].id)
      requires M.Remove(heap.View()) == Ok(b1.heap) && b1.table == Rows() - {heap.vec[0].id}
      modifies this, heap
      ensures Owned() && State() == b1
    {
      var id := heap.vec[0].id;
      var thrown := heap.Remove();
      assert heap.View() == b1.heap && Rows() == old(Rows());
      Release(id);
      assert Rows() == b1.table && heap.View() == b1.heap;
    }

    /** `order` is the order in which the hash table is walked; one reading of `clock` per entry. An
        exception leaves what was swept before it. */
    method CheckTTL(order: seq<u32>, clock: seq<u64>) returns (removed: Outcome<nat>)
      requires Valid() && |order| <= |clock| && B.Walks(order, 0, Rows())
      modifies this, heap
      ensures Valid()
      ensures B.SweepFrom(old(State()), order, clock, 0, 0)
           == if removed.Ok? then Ok((State(), B.Swept(removed.value))) else if removed.Throws? then Throws else Undefined
    {
      var n, k := 0, 0;
      while k < |order|
        invariant k <= |order| && Valid() && B.Walks(order, k, Rows())
        invariant B.SweepFrom(State(), order, clock, k, n) == B.SweepFrom(old(State()), order, clock, 0, 0)
      {
        var d := Visit(order, clock, k, n);
        if !d.Ok? {
          return d;
        }
        n, k := d.value, k + 1;
      }
      return Ok(n);
    }

    /** One entry of the walk: it stays if it is live; otherwise it is dropped and counted. */
    method Visit(order: seq<u32>, clock: seq<u64>, k: nat, n: nat) returns (d: Outcome<nat>)
      requires Valid() && k < |order| <= |clock| && B.Walks(order, k, Rows())
      modifies this, heap
      ensures Valid()
      ensures match d
        case Ok(m) => B.Walks(order, k + 1, Rows()) && B.SweepFrom(State(), order, clock, k + 1, m) == B.SweepFrom(old(State()), order, clock, k, n)
        case Throws => B.SweepFrom(old(State()), order, clock, k, n) == Throws
        case Undefined => B.SweepFrom(old(State()), order, clock, k, n) == Undefined
    {
      assert order[k] in Rows();
      B.WalksOn(order, k, Rows());
      if B.Live(clock[k], hm[order[k]].lastTs) {
        return Ok(n);
      }
      var o := Drop(order[k]);
      assert o.Ok? ==> Rows() == old(Rows()) - {order[k]};
      d := if o.Ok? then Ok(n + 1) else if o.Throws? then Throws else Undefined;
    }
  }
}
