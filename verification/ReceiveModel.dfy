/** The head/content receive machine (session.cpp, client_class.cpp) as steps on values. A step is
    one completed read. The server starts every frame with a fresh buffer, the client keeps one
    buffer that is never wiped; what uninitialised memory holds is left open. */
module ReceiveModel {
  import opened Basics
  import opened Framing

  const INITIAL_NODE_SIZE: int := 1024

  datatype Side = Server | Client
  datatype Phase = Head | Content | Closed

  /** `buf` is the whole buffer, so |buf| is max_len_; `out` are the frames delivered so far. */
  datatype Rx = Rx(buf: seq<byte>, cur: nat, ctxLen: nat, phase: Phase, out: seq<Frame>)

  ghost predicate Init(rx: Rx) {
    |rx.buf| == INITIAL_NODE_SIZE && rx.cur == 0 && rx.phase == Head && rx.out == []
  }

  /** The number of bytes asked for by the read that is outstanding. */
  function Wanted(rx: Rx): int {
    match rx.phase
    case Head => HEAD_LEN - rx.cur
    case Content => rx.ctxLen + HEAD_LEN - rx.cur
    case Closed => 0
  }

  /** A read brings between one and all of the wanted bytes; a read of nothing ends at once. */
  predicate Brings(rx: Rx, chunk: seq<byte>) {
    rx.phase != Closed && |chunk| <= Wanted(rx) && (Wanted(rx) > 0 ==> |chunk| > 0)
  }

  function Filled(rx: Rx, chunk: seq<byte>): Rx
    requires rx.cur + |chunk| <= |rx.buf|
  {
    rx.(buf := rx.buf[..rx.cur] + chunk + rx.buf[rx.cur + |chunk|..], cur := rx.cur + |chunk|)
  }

  /** Reallocate: the old bytes stay in front. */
  ghost predicate Grown(buf: seq<byte>, len: nat, buf1: seq<byte>) {
    if len > |buf| then |buf1| == len && buf1[..|buf|] == buf else buf1 == buf
  }

  ghost predicate AfterHead(f: Rx, rx1: Rx) {
    if f.cur < HEAD_LEN || |f.buf| < HEAD_LEN then rx1 == f
    else
      var len := LenField(f.buf);
      && rx1.cur == f.cur && rx1.ctxLen == len && rx1.out == f.out
      && if len > MAX_CTX_LEN then rx1.phase == Closed && rx1.buf == f.buf
         else rx1.phase == Content && Grown(f.buf, HEAD_LEN + len, rx1.buf)
  }

  /** On a complete frame the server continues with a new buffer, the client with the same one. */
  ghost predicate AfterContent(side: Side, f: Rx, rx1: Rx)
    requires HEAD_LEN <= f.cur && f.ctxLen + HEAD_LEN <= |f.buf|
  {
    if f.cur < f.ctxLen + HEAD_LEN then rx1 == f
    else
      && rx1.out == f.out + [Frame(TagField(f.buf), f.buf[HEAD_LEN..HEAD_LEN + f.ctxLen])]
      && rx1.cur == 0 && rx1.ctxLen == 0 && rx1.phase == Head
      && if side.Client? then rx1.buf == f.buf else |rx1.buf| == INITIAL_NODE_SIZE
  }

  ghost predicate Next(side: Side, rx: Rx, chunk: seq<byte>, rx1: Rx) {
    && Brings(rx, chunk) && Safe(rx)
    && match rx.phase
       case Head => AfterHead(Filled(rx, chunk), rx1)
       case Content => AfterContent(side, Filled(rx, chunk), rx1)
       case Closed => false
  }

  /** Positions and the outstanding read stay inside the buffer. */
  ghost predicate Safe(rx: Rx) {
    && HEAD_LEN <= |rx.buf| && rx.cur + Wanted(rx) <= |rx.buf|
    && match rx.phase
       case Head => rx.cur < HEAD_LEN
       case Content => HEAD_LEN <= rx.cur <= rx.ctxLen + HEAD_LEN && rx.ctxLen == LenField(rx.buf) <= MAX_CTX_LEN
       case Closed => rx.cur == HEAD_LEN && LenField(rx.buf) > MAX_CTX_LEN
  }

  /** What has been read is what has been delivered plus what lies in the buffer. */
  ghost predicate Accounts(rx: Rx, consumed: seq<byte>) {
    && Safe(rx) && Acceptable(rx.out)
    && consumed == EncodeAll(rx.out) + rx.buf[..rx.cur]
  }

  lemma InitAccounts(rx: Rx)
    requires Init(rx)
    ensures Accounts(rx, [])
  {
  }

  lemma SameHeader(s: seq<byte>, t: seq<byte>)
    requires |s| >= HEAD_LEN && |t| >= HEAD_LEN && s[..HEAD_LEN] == t[..HEAD_LEN]
    ensures LenField(s) == LenField(t) && TagField(s) == TagField(t)
  {
    assert s[0..4] == s[..8][0..4] && t[0..4] == t[..8][0..4];
    assert s[4..8] == s[..8][4..8] && t[4..8] == t[..8][4..8];
  }

  lemma FilledAccounts(rx: Rx, chunk: seq<byte>, consumed: seq<byte>)
    requires Accounts(rx, consumed) && Brings(rx, chunk)
    ensures var f := Filled(rx, chunk);
      consumed + chunk == EncodeAll(f.out) + f.buf[..f.cur] && |f.buf| == |rx.buf|
      && (rx.phase == Content ==> f.ctxLen == LenField(f.buf))
  {
    var f := Filled(rx, chunk);
    assert f.buf[..f.cur] == rx.buf[..rx.cur] + chunk;
    if rx.phase == Content {
      assert f.buf[..HEAD_LEN] == rx.buf[..HEAD_LEN];
      SameHeader(f.buf, rx.buf);
    }
  }

  /** Positions stay inside the buffer, across Reallocate too. */
  lemma NextIsSafe(side: Side, rx: Rx, chunk: seq<byte>, rx1: Rx)
    requires Next(side, rx, chunk, rx1)
    ensures Safe(rx1)
  {
    var f := Filled(rx, chunk);
    if rx.phase == Content && f.cur < f.ctxLen + HEAD_LEN {
      assert f.buf[..HEAD_LEN] == rx.buf[..HEAD_LEN];
      SameHeader(f.buf, rx.buf);
    } else if rx1.phase == Content {
      assert rx1.buf[..HEAD_LEN] == f.buf[..HEAD_LEN];
      SameHeader(rx1.buf, f.buf);
    }
  }

  lemma HeadStepAccounts(side: Side, rx: Rx, chunk: seq<byte>, rx1: Rx, consumed: seq<byte>)
    requires Accounts(rx, consumed) && rx.phase == Head && Next(side, rx, chunk, rx1)
    ensures Accounts(rx1, consumed + chunk)
  {
    FilledAccounts(rx, chunk, consumed);
    var f := Filled(rx, chunk);
    if f.cur >= HEAD_LEN && rx1.phase == Content {
      assert rx1.buf[..HEAD_LEN] == f.buf[..HEAD_LEN];
      SameHeader(rx1.buf, f.buf);
      assert rx1.buf[..rx1.cur] == f.buf[..f.cur];
    }
  }

  lemma ContentStepAccounts(side: Side, rx: Rx, chunk: seq<byte>, rx1: Rx, consumed: seq<byte>)
    requires Accounts(rx, consumed) && rx.phase == Content && Next(side, rx, chunk, rx1)
    ensures Accounts(rx1, consumed + chunk)
  {
    FilledAccounts(rx, chunk, consumed);
    var f := Filled(rx, chunk);
    if f.cur >= f.ctxLen + HEAD_LEN {
      var s := f.buf[..f.cur];
      assert s[..HEAD_LEN] == f.buf[..HEAD_LEN];
      SameHeader(s, f.buf);
      CompleteIsEncoded(s);
      assert s[HEAD_LEN..] == f.buf[HEAD_LEN..HEAD_LEN + f.ctxLen];
      EncodeAllAppend(f.out, Frame(TagField(s), s[HEAD_LEN..]));
      assert EncodeAll(rx1.out) + rx1.buf[..0] == EncodeAll(rx1.out);
    }
  }

  // ---------- Whole runs ----------

  datatype Read = Read(chunk: seq<byte>, after: Rx)

  function Bytes(run: seq<Read>): seq<byte> {
    if run == [] then [] else Bytes(run[..|run| - 1]) + run[|run| - 1].chunk
  }

  function Last(rx: Rx, run: seq<Read>): Rx {
    if run == [] then rx else run[|run| - 1].after
  }

  ghost predicate IsRun(side: Side, rx: Rx, run: seq<Read>) {
    run == [] ||
    var p := run[..|run| - 1];
    IsRun(side, rx, p) && Next(side, Last(rx, p), run[|run| - 1].chunk, run[|run| - 1].after)
  }

  /** In every run of either side, reads stay inside the buffer and no byte is lost or invented. */
  lemma {:induction false} RunAccounts(side: Side, rx: Rx, run: seq<Read>)
    requires Init(rx) && IsRun(side, rx, run)
    ensures Accounts(Last(rx, run), Bytes(run))
  {
    if run == [] {
      InitAccounts(rx);
    } else {
      var p, r := run[..|run| - 1], run[|run| - 1];
      RunAccounts(side, rx, p);
      if Last(rx, p).phase == Head {
        HeadStepAccounts(side, Last(rx, p), r.chunk, r.after, Bytes(p));
      } else {
        ContentStepAccounts(side, Last(rx, p), r.chunk, r.after, Bytes(p));
      }
    }
  }

  /** No read of nothing is about to end: either bytes are wanted or the session is closed. */
  predicate Settled(rx: Rx) {
    rx.phase == Closed || Wanted(rx) > 0
  }

  ghost predicate Announces(rest: seq<byte>) {
    |rest| >= 8 && LenField(rest) > 0x10_0000
  }

  lemma SettledIsPartial(rx: Rx, consumed: seq<byte>)
    requires Accounts(rx, consumed) && Settled(rx)
    ensures Partial(rx.buf[..rx.cur]) && (rx.phase == Closed <==> Announces(rx.buf[..rx.cur]))
  {
    if rx.cur >= HEAD_LEN {
      assert rx.buf[..rx.cur][..HEAD_LEN] == rx.buf[..HEAD_LEN];
      SameHeader(rx.buf[..rx.cur], rx.buf);
    }
  }

  /** A settled run has split its bytes into the frames delivered and a partial rest. */
  lemma RunSplits(side: Side, rx: Rx, run: seq<Read>) returns (rest: seq<byte>)
    requires Init(rx) && IsRun(side, rx, run) && Settled(Last(rx, run))
    ensures var l := Last(rx, run);
      && l.cur == |rest| <= |l.buf| && rest == l.buf[..l.cur] && Bytes(run) == EncodeAll(l.out) + rest
      && Acceptable(l.out) && Partial(rest) && (l.phase == Closed <==> Announces(rest))
  {
    RunAccounts(side, rx, run);
    var l := Last(rx, run);
    SettledIsPartial(l, Bytes(run));
    rest := l.buf[..l.cur];
  }

  /** Main result: however the stream is chopped into reads, on either side and whatever the
      buffers held before, the frames delivered are those of the stream, in order, and the rest of
      the stream is in the buffer. The session is closed exactly when that rest announces too much. */
  lemma StreamIsDelivered(side: Side, rx: Rx, run: seq<Read>, fs: seq<Frame>, rest: seq<byte>)
    requires Init(rx) && IsRun(side, rx, run) && Settled(Last(rx, run))
    requires Acceptable(fs) && Partial(rest) && Bytes(run) == EncodeAll(fs) + rest
    ensures var l := Last(rx, run);
      && l.out == fs && l.cur <= |l.buf| && l.buf[..l.cur] == rest
      && (l.phase == Closed <==> Announces(rest))
  {
    var r := RunSplits(side, rx, run);
    SplitIsUnique(Last(rx, run).out, r, fs, rest);
  }

  /** The client's never-wiped buffer is unobservable: two runs over the same bytes, of any sides,
      deliver the same frames and wait for the same bytes. */
  lemma BufferReuseIsUnobservable(side: Side, rx: Rx, run: seq<Read>, side2: Side, rx2: Rx, run2: seq<Read>)
    requires Init(rx) && IsRun(side, rx, run) && Settled(Last(rx, run))
    requires Init(rx2) && IsRun(side2, rx2, run2) && Settled(Last(rx2, run2))
    requires Bytes(run) == Bytes(run2)
    ensures var l, m := Last(rx, run), Last(rx2, run2);
      && l.out == m.out && l.cur == m.cur <= |l.buf| && m.cur <= |m.buf| && l.buf[..l.cur] == m.buf[..m.cur]
      && (l.phase == Closed <==> m.phase == Closed)
  {
    var r := RunSplits(side, rx, run);
    var q := RunSplits(side2, rx2, run2);
    SplitIsUnique(Last(rx, run).out, r, Last(rx2, run2).out, q);
  }

  // ---------- Every stream can be read ----------

  /** A read of any wanted number of bytes has an outcome. */
  lemma NextExists(side: Side, rx: Rx, chunk: seq<byte>) returns (rx1: Rx)
    requires Safe(rx) && Brings(rx, chunk)
    ensures Next(side, rx, chunk, rx1)
  {
    var f := Filled(rx, chunk);
    if rx.phase == Content {
      rx1 := f;
      if f.cur >= f.ctxLen + HEAD_LEN {
        var buf := if side.Client? then f.buf else seq(INITIAL_NODE_SIZE, _ => 0);
        rx1 := Rx(buf, 0, 0, Head, f.out + [Frame(TagField(f.buf), f.buf[HEAD_LEN..HEAD_LEN + f.ctxLen])]);
      }
    } else if f.cur < HEAD_LEN {
      rx1 := f;
    } else {
      var len := LenField(f.buf);
      if len > MAX_CTX_LEN {
        rx1 := f.(ctxLen := len, phase := Closed);
      } else {
        var more := HEAD_LEN + len - |f.buf|;
        var buf := if more > 0 then f.buf + seq(more, _ => 0) else f.buf;
        rx1 := f.(ctxLen := len, phase := Content, buf := buf);
      }
    }
  }

  /** A chopping says how many bytes each read may bring at most. */
  type Chopping = nat -> nat

  ghost predicate Chops(cap: Chopping) {
    forall i: nat :: cap(i) > 0
  }

  /** No read brings more than the chopping allows. */
  ghost predicate Fits(run: seq<Read>, cap: Chopping) {
    forall i: nat | i < |run| :: |run[i].chunk| <= cap(i)
  }

  function Least(a: nat, b: nat): nat {
    if a < b then a else b
  }

  lemma AppendRead(side: Side, rx: Rx, run: seq<Read>, chunk: seq<byte>, rx1: Rx, cap: Chopping)
    requires IsRun(side, rx, run) && Next(side, Last(rx, run), chunk, rx1) && Fits(run, cap) && |chunk| <= cap(|run|)
    ensures var more := run + [Read(chunk, rx1)];
      IsRun(side, rx, more) && Fits(more, cap) && Bytes(more) == Bytes(run) + chunk && Last(rx, more) == rx1
  {
    assert (run + [Read(chunk, rx1)])[..|run|] == run;
  }

  /** A read of nothing settles the machine. */
  lemma NothingSettles(side: Side, rx: Rx, rx1: Rx)
    requires !Settled(rx) && Next(side, rx, [], rx1)
    ensures Settled(rx1)
  {
  }

  /** One more read, of as much as is wanted, allowed and there. */
  lemma ReadMore(side: Side, rx: Rx, run: seq<Read>, data: seq<byte>, cap: Chopping) returns (more: seq<Read>, n: nat)
    requires Init(rx) && IsRun(side, rx, run) && Chops(cap) && Fits(run, cap)
    requires Last(rx, run).phase != Closed && (Settled(Last(rx, run)) ==> data != [])
    ensures IsRun(side, rx, more) && Fits(more, cap) && n <= |data| && Bytes(more) == Bytes(run) + data[..n]
    ensures Settled(Last(rx, run)) ==> n > 0
    ensures !Settled(Last(rx, run)) ==> n == 0 && Settled(Last(rx, more))
  {
    var l := Last(rx, run);
    RunAccounts(side, rx, run);
    n := Least(Wanted(l), Least(cap(|run|), |data|));
    var rx1 := NextExists(side, l, data[..n]);
    AppendRead(side, rx, run, data[..n], rx1, cap);
    more := run + [Read(data[..n], rx1)];
    if !Settled(l) {
      assert data[..n] == [];
      NothingSettles(side, l, rx1);
    }
  }

  lemma TakeTwice(b: seq<byte>, data: seq<byte>, m: nat, k: nat)
    requires m <= |data| && k <= |data| - m
    ensures b + data[..m] + data[m..][..k] == b + data[..m + k]
  {
    assert data[..m] + data[m..][..k] == data[..m + k];
  }

  /** `run` has read the first n bytes of `data` after what `before` had, and is settled. */
  ghost predicate HasRead(side: Side, rx: Rx, before: seq<byte>, data: seq<byte>, cap: Chopping, run: seq<Read>, n: nat) {
    && IsRun(side, rx, run) && Fits(run, cap) && n <= |data| && Bytes(run) == before + data[..n]
    && Settled(Last(rx, run)) && (n == |data| || Last(rx, run).phase == Closed)
  }

  lemma ReadOn(side: Side, rx: Rx, before: seq<byte>, data: seq<byte>, cap: Chopping, run: seq<Read>, m: nat, k: nat)
    requires m <= |data| && HasRead(side, rx, before + data[..m], data[m..], cap, run, k)
    ensures HasRead(side, rx, before, data, cap, run, m + k)
  {
    TakeTwice(before, data, m, k);
  }

  lemma NothingLeft(side: Side, rx: Rx, data: seq<byte>, cap: Chopping, run: seq<Read>)
    requires IsRun(side, rx, run) && Fits(run, cap) && Settled(Last(rx, run))
    requires data == [] || Last(rx, run).phase == Closed
    ensures HasRead(side, rx, Bytes(run), data, cap, run, 0)
  {
    assert Bytes(run) + data[..0] == Bytes(run);
  }

  lemma {:induction false} ReadAll(side: Side, rx: Rx, run: seq<Read>, data: seq<byte>, cap: Chopping, settled: bool)
    returns (all: seq<Read>, n: nat)
    requires Init(rx) && IsRun(side, rx, run) && Chops(cap) && Fits(run, cap) && settled == Settled(Last(rx, run))
    ensures HasRead(side, rx, Bytes(run), data, cap, all, n)
    decreases |data|, if settled then 0 else 1
  {
    if Last(rx, run).phase == Closed || (data == [] && settled) {
      all, n := run, 0;
      NothingLeft(side, rx, data, cap, run);
    } else {
      var more, m := ReadMore(side, rx, run, data, cap);
      var k;
      all, k := ReadAll(side, rx, more, data[m..], cap, Settled(Last(rx, more)));
      ReadOn(side, rx, Bytes(run), data, cap, all, m, k);
      n := m + k;
    }
  }

  /** On either side, for every list of acceptable frames, every incomplete rest and every chopping, there
      is a run that reads them all and settles; so the frames are delivered. */
  lemma EveryStreamIsDelivered(side: Side, rx: Rx, fs: seq<Frame>, rest: seq<byte>, cap: Chopping) returns (run: seq<Read>)
    requires Init(rx) && Acceptable(fs) && Partial(rest) && (Announces(rest) ==> |rest| == 8) && Chops(cap)
    ensures IsRun(side, rx, run) && Fits(run, cap) && Bytes(run) == EncodeAll(fs) + rest
    ensures var l := Last(rx, run); Settled(l) && l.out == fs && (l.phase == Closed <==> Announces(rest))
  {
    var data := EncodeAll(fs) + rest;
    var n;
    run, n := ReadAll(side, rx, [], data, cap, true);
    assert Bytes([]) + data[..n] == data[..n];
    if n < |data| {
      ClosedHasRead(side, rx, run, fs, rest, n);
    }
    assert data[..|data|] == data;
    StreamIsDelivered(side, rx, run, fs, rest);
  }

  lemma StillAnnounces(r: seq<byte>, tail: seq<byte>)
    requires Announces(r)
    ensures Announces(r + tail) && Partial(r + tail)
  {
    assert (r + tail)[..8] == r[..8];
    SameHeader(r + tail, r);
  }

  /** A session that has closed has read the whole of such a stream. */
  lemma ClosedHasRead(side: Side, rx: Rx, run: seq<Read>, fs: seq<Frame>, rest: seq<byte>, n: nat)
    requires Init(rx) && IsRun(side, rx, run) && Last(rx, run).phase == Closed
    requires Acceptable(fs) && Partial(rest) && (Announces(rest) ==> |rest| == 8)
    requires n <= |EncodeAll(fs) + rest| && Bytes(run) == (EncodeAll(fs) + rest)[..n]
    ensures n == |EncodeAll(fs) + rest|
  {
    var r := RunSplits(side, rx, run);
    NothingFollows(Last(rx, run).out, r, fs, rest, n);
  }

  lemma NothingFollows(gs: seq<Frame>, r: seq<byte>, fs: seq<Frame>, rest: seq<byte>, n: nat)
    requires Acceptable(fs) && Acceptable(gs) && Partial(rest) && Announces(r) && (Announces(rest) ==> |rest| == 8)
    requires n <= |EncodeAll(fs) + rest| && EncodeAll(gs) + r == (EncodeAll(fs) + rest)[..n]
    ensures n == |EncodeAll(fs) + rest|
  {
    var tail := (EncodeAll(fs) + rest)[n..];
    Rejoin(EncodeAll(gs), r, EncodeAll(fs) + rest, n);
    StillAnnounces(r, tail);
    SplitIsUnique(gs, r + tail, fs, rest);
  }

  lemma Rejoin(a: seq<byte>, r: seq<byte>, data: seq<byte>, n: nat)
    requires n <= |data| && a + r == data[..n]
    ensures a + (r + data[n..]) == data
  {
    assert a + (r + data[n..]) == a + r + data[n..];
  }
}
