/** The indexed binary min-heap (load_balancer.hpp) on values: `vec` is the heap array,
    `idx` the map from an id to its slot. Every function follows the branches of its C++
    namesake; the theorems say what the operations do to order, contents and index. */
module HeapModel {
  import opened Basics

  datatype Entry = Entry(id: u32, load: u32)
  datatype Heap = Heap(vec: seq<Entry>, idx: map<u32, nat>)

  function Parent(c: nat): nat
    requires c > 0
  {
    (c - 1) / 2
  }

  /** SrvInfoComp. */
  predicate Greater(a: Entry, b: Entry) {
    a.load > b.load
  }

  /** operator[] of the index: a missing key reads as a fresh zero. */
  function At(idx: map<u32, nat>, id: u32): nat {
    if id in idx then idx[id] else 0
  }

  /** Swap two slots, then swap the index entries of the two ids now stored there. */
  function Swap(h: Heap, a: nat, b: nat): Heap
    requires a < |h.vec| && b < |h.vec|
  {
    var vec := h.vec[a := h.vec[b]][b := h.vec[a]];
    var i, j := vec[a].id, vec[b].id;
    Heap(vec, h.idx[i := At(h.idx, j)][j := At(h.idx, i)])
  }

  function HeapUp(h: Heap, cur: nat): (r: Heap)
    requires cur < |h.vec|
    ensures |r.vec| == |h.vec|
    decreases cur
  {
    if cur == 0 then h
    else
      var p := Parent(cur);
      HeapUp(if Greater(h.vec[p], h.vec[cur]) then Swap(h, p, cur) else h, p)
  }

  /** The child that `cur` is swapped with on the way down. With two children a tie swaps;
      with one child (then the last slot) it does not. */
  function DownTarget(v: seq<Entry>, cur: nat): Option<nat>
    requires cur < |v|
  {
    var c1, c2 := 2 * cur + 1, 2 * cur + 2;
    if c2 < |v| then
      var c := if Greater(v[c1], v[c2]) then c2 else c1;
      if Greater(v[c], v[cur]) then None else Some(c)
    else if c1 < |v| && Greater(v[cur], v[c1]) then Some(c1)
    else None
  }

  function HeapDown(h: Heap, cur: nat): (r: Heap)
    requires cur < |h.vec|
    ensures |r.vec| == |h.vec|
    decreases |h.vec| - cur
  {
    match DownTarget(h.vec, cur)
    case None => h
    case Some(c) => HeapDown(Swap(h, cur, c), c)
  }

  /** The zero-hint repair, also used after a removal in the middle. */
  function Repair(h: Heap, cur: nat): Heap
    requires cur < |h.vec|
  {
    HeapDown(HeapUp(h, cur), cur)
  }

  /** One direction when the hint has a sign, both otherwise. */
  function Sift(h: Heap, cur: nat, hint: int): Heap
    requires cur < |h.vec|
  {
    if hint < 0 then HeapUp(h, cur) else if hint > 0 then HeapDown(h, cur) else Repair(h, cur)
  }

  function InsertOrUpdate(h: Heap, e: Entry, hint: int): Outcome<Heap> {
    if e.id in h.idx then
      var i := h.idx[e.id];
      if i >= |h.vec| then Undefined
      else
        Ok(Sift(Heap(h.vec[i := e], h.idx), i, hint))
    else
      Ok(HeapUp(Heap(h.vec + [e], h.idx[e.id := |h.vec|]), |h.vec|))
  }

  /** The id is erased from the index, its slot overwritten by the last element (whose index entry
      is then written, whichever element that is), and the array shortened. */
  function Shrunk(h: Heap, i: nat, id: u32): Heap
    requires i < |h.vec|
  {
    var n := |h.vec|;
    var idx1 := h.idx - {id};
    Heap(h.vec[i := h.vec[n - 1]][..n - 1], if n > 1 then idx1[h.vec[n - 1].id := i] else idx1)
  }

  /** Remove the top. */
  function Remove(h: Heap): Outcome<Heap> {
    if h.vec == [] then Throws
    else
      var h1 := Shrunk(h, 0, h.vec[0].id);
      Ok(if h1.vec != [] then HeapDown(h1, 0) else h1)
  }

  /** Remove by id, at any slot. */
  function AnyRemove(h: Heap, id: u32): Outcome<Heap> {
    if id !in h.idx || h.vec == [] then Throws
    else if h.idx[id] >= |h.vec| then Undefined
    else
      var i := h.idx[id];
      var h1 := Shrunk(h, i, id);
      Ok(if i < |h1.vec| then Repair(h1, i) else h1)
  }

  /** Telling the heap about an element changed in place is the same as putting it there. */
  lemma UpdateInPlace(h: Heap, e: Entry, hint: int)
    requires e.id in h.idx && h.idx[e.id] < |h.vec|
    ensures InsertOrUpdate(Heap(h.vec[h.idx[e.id] := e], h.idx), e, hint) == InsertOrUpdate(h, e, hint)
  {
    assert h.vec[h.idx[e.id] := e][h.idx[e.id] := e] == h.vec[h.idx[e.id] := e];
  }

  // ---------- Order, index, contents ----------

  predicate Edge(v: seq<Entry>, c: nat)
    requires 0 < c < |v|
  {
    v[Parent(c)].load <= v[c].load
  }

  ghost predicate Ordered(v: seq<Entry>) {
    forall c: nat | 0 < c < |v| :: Edge(v, c)
  }

  /** Every stored element is found at its own slot. */
  ghost predicate Indexed(h: Heap) {
    forall j: nat | j < |h.vec| :: h.vec[j].id in h.idx && h.idx[h.vec[j].id] == j
  }

  predicate Stored(h: Heap, id: u32) {
    exists j: nat | j < |h.vec| :: h.vec[j].id == id
  }

  /** `r` is `h` with its elements moved: same elements, same index keys, index entries of
      ids that are not stored untouched, and a right index stays right. */
  ghost predicate Moved(h: Heap, r: Heap) {
    && |r.vec| == |h.vec|
    && multiset(r.vec) == multiset(h.vec)
    && r.idx.Keys == h.idx.Keys
    && Indexed(r)
    && forall id: u32 | id in h.idx && !Stored(h, id) :: r.idx[id] == h.idx[id]
  }

  /** "A heap with the value of slot `i` changed": every edge that does not touch `i` is in
      order, and so is the path from the parent of `i` to the children of `i`. */
  ghost predicate OrderedExcept(v: seq<Entry>, i: nat) {
    && (forall c: nat | 0 < c < |v| && c != i && Parent(c) != i :: Edge(v, c))
    && Bridged(v, i)
  }

  ghost predicate Bridged(v: seq<Entry>, i: nat) {
    i > 0 ==> forall c: nat | 0 < c < |v| && Parent(c) == i :: v[Parent(i)].load <= v[c].load
  }

  // ---------- Swaps keep contents and index ----------

  lemma SwapMoves(h: Heap, a: nat, b: nat)
    requires a < |h.vec| && b < |h.vec| && Indexed(h)
    ensures Moved(h, Swap(h, a, b))
  {
    var r := Swap(h, a, b);
    assert multiset(r.vec) == multiset(h.vec);
    forall id: u32 | id in h.idx && !Stored(h, id)
      ensures r.idx[id] == h.idx[id]
    {
      assert r.vec[a].id == h.vec[b].id && r.vec[b].id == h.vec[a].id;
    }
  }

  lemma MovedStores(h: Heap, r: Heap, id: u32)
    requires |r.vec| == |h.vec| && multiset(r.vec) == multiset(h.vec)
    ensures Stored(r, id) ==> Stored(h, id)
  {
    if j: nat :| j < |r.vec| && r.vec[j].id == id {
      assert r.vec[j] in multiset(h.vec);
      assert r.vec[j] in h.vec;
    }
  }

  lemma MovedTrans(h: Heap, m: Heap, r: Heap)
    requires Moved(h, m) && Moved(m, r)
    ensures Moved(h, r)
  {
    forall id: u32 | id in h.idx && !Stored(h, id)
      ensures r.idx[id] == h.idx[id]
    {
      MovedStores(h, m, id);
    }
  }

  lemma {:induction false} HeapUpMoves(h: Heap, cur: nat)
    requires cur < |h.vec| && Indexed(h)
    ensures Moved(h, HeapUp(h, cur))
    decreases cur
  {
    if cur > 0 {
      var p := Parent(cur);
      if Greater(h.vec[p], h.vec[cur]) {
        var m := Swap(h, p, cur);
        SwapMoves(h, p, cur);
        HeapUpMoves(m, p);
        MovedTrans(h, m, HeapUp(m, p));
      } else {
        HeapUpMoves(h, p);
      }
    }
  }

  lemma {:induction false} HeapDownMoves(h: Heap, cur: nat)
    requires cur < |h.vec| && Indexed(h)
    ensures Moved(h, HeapDown(h, cur))
    decreases |h.vec| - cur
  {
    match DownTarget(h.vec, cur)
    case None =>
    case Some(c) =>
      var m := Swap(h, cur, c);
      SwapMoves(h, cur, c);
      HeapDownMoves(m, c);
      MovedTrans(h, m, HeapDown(m, c));
  }

  // ---------- Order ----------

  /** The upward loop does not stop early, but does nothing where the path is in order. */
  lemma {:induction false} HeapUpIdle(h: Heap, cur: nat)
    requires cur < |h.vec|
    requires forall c: nat | 0 < c <= cur :: Edge(h.vec, c)
    ensures HeapUp(h, cur) == h
    decreases cur
  {
    if cur > 0 {
      assert Edge(h.vec, cur);
      HeapUpIdle(h, Parent(cur));
    }
  }

  /** Swapping a slot with its greater parent leaves at most the edge above the parent out of order. */
  lemma SwapUpEdges(h: Heap, cur: nat)
    requires 0 < cur < |h.vec| && Greater(h.vec[Parent(cur)], h.vec[cur]) && OrderedExcept(h.vec, cur)
    ensures var p := Parent(cur); var m := Swap(h, p, cur).vec;
      Bridged(m, p) && forall c: nat | 0 < c < |m| && c != p :: Edge(m, c)
  {
    var p := Parent(cur);
    var m := Swap(h, p, cur).vec;
    forall c: nat | 0 < c < |m| && c != p
      ensures Edge(m, c)
    {
      assert c != cur && Parent(c) != cur ==> Edge(h.vec, c);
    }
    assert p > 0 ==> Edge(h.vec, p);
    forall c: nat | 0 < c < |m| && Parent(c) == p && p > 0
      ensures m[Parent(p)].load <= m[c].load
    {
      assert c != cur ==> Edge(h.vec, c);
    }
  }

  /** Only the edge above `cur` is out of order: moving up makes a heap. */
  lemma {:induction false} HeapUpOrders(h: Heap, cur: nat)
    requires cur < |h.vec| && Bridged(h.vec, cur)
    requires forall c: nat | 0 < c < |h.vec| && c != cur :: Edge(h.vec, c)
    ensures Ordered(HeapUp(h, cur).vec)
    decreases cur
  {
    if cur > 0 {
      var p := Parent(cur);
      if Greater(h.vec[p], h.vec[cur]) {
        SwapUpEdges(h, cur);
        HeapUpOrders(Swap(h, p, cur), p);
      } else {
        assert Edge(h.vec, cur);
        HeapUpIdle(h, p);
      }
    }
  }

  lemma DownTargetIsLeast(v: seq<Entry>, cur: nat)
    requires cur < |v|
    ensures match DownTarget(v, cur)
      case None => forall c: nat | 0 < c < |v| && Parent(c) == cur :: Edge(v, c)
      case Some(s) =>
        && 0 < s < |v| && Parent(s) == cur && v[s].load <= v[cur].load
        && forall c: nat | 0 < c < |v| && Parent(c) == cur :: v[s].load <= v[c].load
  {
    forall c: nat | 0 < c < |v| && Parent(c) == cur
      ensures c == 2 * cur + 1 || c == 2 * cur + 2
    {
    }
  }

  /** Only edges below `cur` are out of order: moving down makes a heap, also when ties swap. */
  lemma {:induction false} HeapDownOrders(h: Heap, cur: nat)
    requires cur < |h.vec| && Bridged(h.vec, cur)
    requires forall c: nat | 0 < c < |h.vec| && Parent(c) != cur :: Edge(h.vec, c)
    ensures Ordered(HeapDown(h, cur).vec)
    decreases |h.vec| - cur
  {
    DownTargetIsLeast(h.vec, cur);
    match DownTarget(h.vec, cur)
    case None =>
    case Some(c) =>
      SwapDownEdges(h, cur, c);
      HeapDownOrders(Swap(h, cur, c), c);
  }

  lemma SwapDownEdges(h: Heap, cur: nat, s: nat)
    requires cur < |h.vec| && 0 < s < |h.vec| && Parent(s) == cur && Bridged(h.vec, cur)
    requires forall c: nat | 0 < c < |h.vec| && Parent(c) != cur :: Edge(h.vec, c)
    requires h.vec[s].load <= h.vec[cur].load
    requires forall c: nat | 0 < c < |h.vec| && Parent(c) == cur :: h.vec[s].load <= h.vec[c].load
    ensures var m := Swap(h, cur, s).vec;
      Bridged(m, s) && forall c: nat | 0 < c < |m| && Parent(c) != s :: Edge(m, c)
  {
    var m := Swap(h, cur, s).vec;
    forall c: nat | 0 < c < |m| && Parent(c) != s
      ensures Edge(m, c)
    {
      assert Parent(c) != cur ==> Edge(h.vec, c);
    }
    forall c: nat | 0 < c < |m| && Parent(c) == s
      ensures m[Parent(s)].load <= m[c].load
    {
      assert Edge(h.vec, c);
    }
  }

  /** Main result on the repair: from a heap with one slot changed to any value, up then down
      restores the order and only moves elements. */
  lemma RepairRestores(h: Heap, i: nat)
    requires i < |h.vec| && Indexed(h) && OrderedExcept(h.vec, i)
    ensures Ordered(Repair(h, i).vec) && Moved(h, Repair(h, i))
  {
    RepairMoves(h, i);
    HeapUpFixesAbove(h, i);
    HeapDownOrders(HeapUp(h, i), i);
  }

  lemma HeapUpFixesAbove(h: Heap, i: nat)
    requires i < |h.vec| && OrderedExcept(h.vec, i)
    ensures var u := HeapUp(h, i).vec;
      Bridged(u, i) && forall c: nat | 0 < c < |u| && Parent(c) != i :: Edge(u, c)
  {
    if i > 0 && Greater(h.vec[Parent(i)], h.vec[i]) {
      var p := Parent(i);
      SwapUpEdges(h, i);
      HeapUpOrders(Swap(h, p, i), p);
      OrderedBridges(HeapUp(Swap(h, p, i), p).vec, i);
    } else if i > 0 {
      assert Edge(h.vec, i);
      HeapUpIdle(h, i);
    }
  }

  lemma OrderedBridges(v: seq<Entry>, i: nat)
    requires i < |v| && Ordered(v)
    ensures Bridged(v, i)
  {
    forall c: nat | 0 < c < |v| && Parent(c) == i && i > 0
      ensures v[Parent(i)].load <= v[c].load
    {
      assert Edge(v, c) && Edge(v, i);
    }
  }

  lemma ChangedIsExcept(v: seq<Entry>, i: nat, e: Entry)
    requires i < |v| && Ordered(v)
    ensures OrderedExcept(v[i := e], i)
  {
    var w := v[i := e];
    OrderedBridges(v, i);
    forall c: nat | 0 < c < |w| && c != i && Parent(c) != i
      ensures Edge(w, c)
    {
      assert Edge(v, c);
    }
  }

  /** The top of a heap is no greater than any element. */
  lemma {:induction false} TopIsLeast(v: seq<Entry>, j: nat)
    requires j < |v| && Ordered(v)
    ensures v[0].load <= v[j].load
    decreases j
  {
    if j > 0 {
      assert Edge(v, j);
      TopIsLeast(v, Parent(j));
    }
  }

  // ---------- The public operations ----------

  ghost predicate IsHeap(h: Heap) {
    Indexed(h) && Ordered(h.vec)
  }

  /** The index stays right, and so does the order where there was one. */
  ghost predicate Sane(h: Heap, o: Outcome<Heap>) {
    o.Ok? && Indexed(o.value) && (Ordered(h.vec) ==> Ordered(o.value.vec))
  }

  /** `r` holds exactly the elements `m`; its index agrees with that of `h` on every id that is
      not among the elements of `h` or of `r`. */
  ghost predicate Holds(h: Heap, r: Heap, m: multiset<Entry>) {
    multiset(r.vec) == m && IndexKept(h, r)
  }

  ghost predicate IndexKept(h: Heap, r: Heap) {
    forall id: u32 | !Stored(h, id) && !Stored(r, id) ::
      (id in r.idx <==> id in h.idx) && (id in h.idx ==> r.idx[id] == h.idx[id])
  }

  lemma MovedHolds(h: Heap, m: Heap, r: Heap)
    requires Moved(m, r) && IndexKept(h, m)
    ensures Holds(h, r, multiset(m.vec))
  {
    forall id: u32 | !Stored(h, id) && !Stored(r, id)
      ensures (id in r.idx <==> id in h.idx) && (id in h.idx ==> r.idx[id] == h.idx[id])
    {
      MovedStores(r, m, id);
    }
  }

  lemma AppendOrders(h: Heap, e: Entry)
    requires Ordered(h.vec)
    ensures Ordered(HeapUp(Heap(h.vec + [e], h.idx[e.id := |h.vec|]), |h.vec|).vec)
  {
    var m := Heap(h.vec + [e], h.idx[e.id := |h.vec|]);
    forall c: nat | 0 < c < |m.vec| && c != |h.vec|
      ensures Edge(m.vec, c)
    {
      assert Edge(h.vec, c);
    }
    HeapUpOrders(m, |h.vec|);
  }

  lemma InsertAdds(h: Heap, e: Entry, hint: int)
    requires Indexed(h) && e.id !in h.idx
    ensures var o := InsertOrUpdate(h, e, hint);
      && Sane(h, o) && Holds(h, o.value, multiset(h.vec) + multiset{e})
      && o.value.idx.Keys == h.idx.Keys + {e.id}
  {
    var n := |h.vec|;
    var m := Heap(h.vec + [e], h.idx[e.id := n]);
    HeapUpMoves(m, n);
    if Ordered(h.vec) {
      AppendOrders(h, e);
    }
    assert m.vec[n] == e;
    MovedHolds(h, m, HeapUp(m, n));
  }

  lemma RepairMoves(h: Heap, i: nat)
    requires i < |h.vec| && Indexed(h)
    ensures Moved(h, Repair(h, i))
  {
    var u := HeapUp(h, i);
    HeapUpMoves(h, i);
    HeapDownMoves(u, i);
    MovedTrans(h, u, HeapDown(u, i));
  }

  /** Whatever the hint, an update only moves elements. */
  lemma UpdateMoves(h: Heap, e: Entry, hint: int)
    requires Indexed(h) && Stored(h, e.id)
    ensures var o := InsertOrUpdate(h, e, hint); var i := h.idx[e.id];
      && o.Ok? && Indexed(o.value) && Holds(h, o.value, multiset(h.vec[i := e]))
      && o.value.idx.Keys == h.idx.Keys
  {
    var i := h.idx[e.id];
    var m := Heap(h.vec[i := e], h.idx);
    HeapUpMoves(m, i);
    HeapDownMoves(m, i);
    RepairMoves(m, i);
    MovedHolds(h, m, InsertOrUpdate(h, e, hint).value);
  }

  function Sign(x: int): int {
    if x < 0 then -1 else if x > 0 then 1 else 0
  }

  /** An update whose hint has the sign of the change restores the heap, whichever way it moves. */
  lemma UpdateRestores(h: Heap, e: Entry, hint: int)
    requires IsHeap(h) && Stored(h, e.id)
    requires Sign(hint) == Sign(e.load - h.vec[h.idx[e.id]].load)
    ensures var o := InsertOrUpdate(h, e, hint);
      o.Ok? && IsHeap(o.value) && Holds(h, o.value, multiset(h.vec[h.idx[e.id] := e])) && o.value.idx.Keys == h.idx.Keys
  {
    var i := h.idx[e.id];
    var m := Heap(h.vec[i := e], h.idx);
    UpdateMoves(h, e, hint);
    ChangedIsExcept(h.vec, i, e);
    forall c: nat | 0 < c < |m.vec|
      ensures hint < 0 && c != i ==> Edge(m.vec, c)
      ensures hint > 0 && Parent(c) != i ==> Edge(m.vec, c)
    {
      assert Edge(h.vec, c);
    }
    if hint < 0 {
      HeapUpOrders(m, i);
    } else if hint > 0 {
      HeapDownOrders(m, i);
    } else {
      RepairRestores(m, i);
    }
  }

  /** An update whose hint has the opposite sign moves nothing. */
  lemma WrongHintMovesNothing(h: Heap, e: Entry, hint: int)
    requires IsHeap(h) && Stored(h, e.id) && hint != 0
    requires Sign(hint) == -Sign(e.load - h.vec[h.idx[e.id]].load)
    ensures InsertOrUpdate(h, e, hint) == Ok(Heap(h.vec[h.idx[e.id] := e], h.idx))
  {
    var i := h.idx[e.id];
    var m := Heap(h.vec[i := e], h.idx);
    forall c: nat | 0 < c < |h.vec|
      ensures hint < 0 && c <= i ==> Edge(m.vec, c)
      ensures Parent(c) == i ==> h.vec[i].load <= m.vec[c].load
    {
      assert Edge(h.vec, c);
    }
    if hint < 0 {
      HeapUpIdle(m, i);
    } else {
      var c1, c2 := 2 * i + 1, 2 * i + 2;
      assert c1 < |h.vec| ==> Parent(c1) == i;
      assert c2 < |h.vec| ==> Parent(c2) == i;
      assert DownTarget(m.vec, i) == None;
    }
  }

  ghost predicate TookTop(h: Heap, o: Outcome<Heap>)
    requires h.vec != []
  {
    && Sane(h, o) && Holds(h, o.value, multiset(h.vec) - multiset{h.vec[0]})
    && o.value.idx.Keys == h.idx.Keys - {h.vec[0].id}
    && !Stored(o.value, h.vec[0].id)
  }

  lemma RemoveTakesTop(h: Heap)
    requires Indexed(h) && h.vec != []
    ensures TookTop(h, Remove(h))
  {
    if |h.vec| > 1 {
      RemoveTakesTopOfMany(h);
    } else {
      assert h.vec == [h.vec[0]];
    }
  }

  lemma RemoveTakesTopOfMany(h: Heap)
    requires Indexed(h) && |h.vec| > 1
    ensures TookTop(h, Remove(h))
  {
    var h1 := Shrunk(h, 0, h.vec[0].id);
    ShrunkIndex(h, 0);
    ShrunkContents(h, 0);
    var back := h.vec[|h.vec| - 1].id;
    assert back in h.idx && back != h.vec[0].id;
    assert h1.idx.Keys == h.idx.Keys - {h.vec[0].id};
    HeapDownMoves(h1, 0);
    if Ordered(h.vec) {
      ShrunkOrder(h, 0);
      HeapDownOrders(h1, 0);
    }
    MovedHolds(h, h1, HeapDown(h1, 0));
  }

  lemma ShrunkOrder(h: Heap, i: nat)
    requires Ordered(h.vec) && i < |h.vec| - 1
    ensures OrderedExcept(Shrunk(h, i, h.vec[i].id).vec, i)
  {
    var n := |h.vec|;
    var v := Shrunk(h, i, h.vec[i].id).vec;
    var w := h.vec[i := h.vec[n - 1]];
    ChangedIsExcept(h.vec, i, h.vec[n - 1]);
    assert v == w[..n - 1];
    forall c: nat | 0 < c < |v| && c != i && Parent(c) != i
      ensures Edge(v, c)
    {
      assert Edge(w, c);
    }
  }

  lemma ShrunkContents(h: Heap, i: nat)
    requires i < |h.vec| - 1
    ensures multiset(Shrunk(h, i, h.vec[i].id).vec) == multiset(h.vec) - multiset{h.vec[i]}
  {
    var n := |h.vec|;
    var front, back := h.vec[..n - 1], h.vec[n - 1];
    assert h.vec == front + [back];
    assert Shrunk(h, i, h.vec[i].id).vec == front[i := back];
  }

  lemma ShrunkIndex(h: Heap, i: nat)
    requires Indexed(h) && i < |h.vec| - 1
    ensures Indexed(Shrunk(h, i, h.vec[i].id)) && IndexKept(h, Shrunk(h, i, h.vec[i].id))
  {
    var m := Shrunk(h, i, h.vec[i].id);
    var back := h.vec[|h.vec| - 1];
    assert m.vec[i] == back;
    forall j: nat | j < |m.vec|
      ensures m.vec[j].id in m.idx && m.idx[m.vec[j].id] == j
    {
      assert j != i ==> m.vec[j] == h.vec[j] && h.vec[j].id != back.id && h.vec[j].id != h.vec[i].id;
    }
    assert forall id: u32 | !Stored(h, id) :: id != back.id && id != h.vec[i].id;
  }

  lemma ShrunkForgets(h: Heap, i: nat)
    requires Indexed(h) && i < |h.vec| - 1
    ensures !Stored(Shrunk(h, i, h.vec[i].id), h.vec[i].id)
  {
  }

  ghost predicate TookOne(h: Heap, id: u32, o: Outcome<Heap>)
    requires Indexed(h) && Stored(h, id)
  {
    Sane(h, o) && Holds(h, o.value, multiset(h.vec) - multiset{h.vec[h.idx[id]]}) && !Stored(o.value, id)
  }

  lemma MiddleHolds(h: Heap, i: nat, m: Heap, r: Heap)
    requires Indexed(h) && i < |h.vec| - 1 && m == Shrunk(h, i, h.vec[i].id) && Moved(m, r)
    ensures Indexed(r) && Holds(h, r, multiset(h.vec) - multiset{h.vec[i]}) && !Stored(r, h.vec[i].id)
    ensures r.idx.Keys == h.idx.Keys - {h.vec[i].id}
  {
    ShrunkIndex(h, i);
    ShrunkContents(h, i);
    MovedHolds(h, m, r);
    MovedStores(m, r, h.vec[i].id);
    ShrunkForgets(h, i);
    assert m.idx.Keys == h.idx.Keys - {h.vec[i].id};
  }

  lemma MiddleOrders(h: Heap, i: nat)
    requires IsHeap(h) && i < |h.vec| - 1
    ensures Ordered(Repair(Shrunk(h, i, h.vec[i].id), i).vec)
  {
    ShrunkIndex(h, i);
    ShrunkOrder(h, i);
    RepairRestores(Shrunk(h, i, h.vec[i].id), i);
  }

  lemma AnyRemoveMiddle(h: Heap, id: u32)
    requires Indexed(h) && Stored(h, id) && h.idx[id] < |h.vec| - 1
    ensures TookOne(h, id, AnyRemove(h, id)) && AnyRemove(h, id).value.idx.Keys == h.idx.Keys - {id}
  {
    var i := h.idx[id];
    var m := Shrunk(h, i, h.vec[i].id);
    ShrunkIndex(h, i);
    RepairMoves(m, i);
    MiddleHolds(h, i, m, Repair(m, i));
    if Ordered(h.vec) {
      MiddleOrders(h, i);
    }
  }

  lemma LastContents(h: Heap)
    requires h.vec != []
    ensures multiset(h.vec[..|h.vec| - 1]) == multiset(h.vec) - multiset{h.vec[|h.vec| - 1]}
    ensures Ordered(h.vec) ==> Ordered(h.vec[..|h.vec| - 1])
  {
    var v := h.vec[..|h.vec| - 1];
    assert h.vec == v + [h.vec[|h.vec| - 1]];
    forall c: nat | 0 < c < |v| && Ordered(h.vec)
      ensures Edge(v, c)
    {
      assert Edge(h.vec, c);
    }
  }

  lemma AnyRemoveLast(h: Heap, id: u32)
    requires Indexed(h) && Stored(h, id) && h.idx[id] == |h.vec| - 1
    ensures TookOne(h, id, AnyRemove(h, id))
    ensures AnyRemove(h, id).value.idx == if |h.vec| > 1 then h.idx else h.idx - {id}
  {
    var i := h.idx[id];
    LastContents(h);
    assert Shrunk(h, i, id).vec == h.vec[..i];
    assert (h.idx - {id})[id := i] == h.idx;
  }

  /** AnyRemove takes out exactly the named element. Its index entry goes too, except when the
      element sat in the last slot of a heap with more than one element. */
  lemma AnyRemoveTakesOne(h: Heap, id: u32)
    requires Indexed(h) && Stored(h, id)
    ensures TookOne(h, id, AnyRemove(h, id))
    ensures AnyRemove(h, id).value.idx.Keys == if h.idx[id] == |h.vec| - 1 && |h.vec| > 1 then h.idx.Keys else h.idx.Keys - {id}
  {
    if h.idx[id] < |h.vec| - 1 {
      AnyRemoveMiddle(h, id);
    } else {
      AnyRemoveLast(h, id);
    }
  }

  // ---------- When the index may point at another element ----------

  /** The index of every stored element is right after any update that stays in range, whichever slot the
      index names: the slot's element gives way to the new one. */
  lemma PutKeeps(h: Heap, e: Entry, hint: int)
    requires Indexed(h) && InsertOrUpdate(h, e, hint).Ok?
    ensures var r := InsertOrUpdate(h, e, hint).value;
      Indexed(r) && forall x: Entry | x in r.vec :: x == e || (x in h.vec && x.id != e.id)
  {
    var i := if e.id in h.idx then h.idx[e.id] else |h.vec|;
    var m := if e.id in h.idx then Heap(h.vec[i := e], h.idx) else Heap(h.vec + [e], h.idx[e.id := i]);
    HeapUpMoves(m, i);
    HeapDownMoves(m, i);
    RepairMoves(m, i);
    PutInto(h, e, i, m, InsertOrUpdate(h, e, hint).value);
  }

  lemma PutInto(h: Heap, e: Entry, i: nat, m: Heap, r: Heap)
    requires Indexed(h) && Moved(m, r) && i < |m.vec| && m.vec[i] == e
    requires forall j: nat | j < |m.vec| && j != i :: j < |h.vec| && m.vec[j] == h.vec[j] && h.vec[j].id != e.id
    ensures forall x: Entry | x in r.vec :: x == e || (x in h.vec && x.id != e.id)
  {
    forall x: Entry | x in r.vec
      ensures x == e || (x in h.vec && x.id != e.id)
    {
      assert x in multiset(r.vec);
      assert x in m.vec;
      var j: nat :| j < |m.vec| && m.vec[j] == x;
      assert j != i ==> h.vec[j] in h.vec;
    }
  }

  lemma ShrunkKeeps(h: Heap, id: u32)
    requires Indexed(h) && id in h.idx && h.idx[id] < |h.vec|
    ensures var m := Shrunk(h, h.idx[id], id);
      Indexed(m) && forall j: nat | j < |m.vec| :: m.vec[j] in h.vec && m.vec[j].id != id
  {
    var i, n := h.idx[id], |h.vec|;
    var m := Shrunk(h, i, id);
    forall j: nat | j < |m.vec|
      ensures m.vec[j].id in m.idx && m.idx[m.vec[j].id] == j && m.vec[j] in h.vec && m.vec[j].id != id
    {
      assert m.vec[j] == if j == i then h.vec[n - 1] else h.vec[j];
      assert h.vec[j].id in h.idx && h.vec[n - 1].id in h.idx;
    }
  }

  /** Removal by id, whichever slot the index names for it: what stays is found, and the id is gone. */
  lemma AnyRemoveKeeps(h: Heap, id: u32)
    requires Indexed(h) && AnyRemove(h, id).Ok?
    ensures var r := AnyRemove(h, id).value;
      Indexed(r) && !Stored(r, id) && forall x: Entry | x in r.vec :: x in h.vec
  {
    var i := h.idx[id];
    var m := Shrunk(h, i, id);
    ShrunkKeeps(h, id);
    if i < |m.vec| {
      RepairMoves(m, i);
      MovedStores(m, Repair(m, i), id);
      forall x: Entry | x in Repair(m, i).vec
        ensures x in h.vec
      {
        assert x in multiset(Repair(m, i).vec);
        assert x in m.vec;
      }
    }
  }
}
