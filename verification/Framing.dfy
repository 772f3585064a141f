/** The TLV frame (msgnode.hpp): four bytes of tag, four bytes of length, then the content. */
module Framing {
  import opened Basics
  import opened NetField

  const HEAD_LEN: int := 8
  const MAX_CTX_LEN: int := 1024 * 1024

  datatype Frame = Frame(tag: u32, content: seq<byte>)

  function Encode(f: Frame): (s: seq<byte>)
    ensures |s| == HEAD_LEN + |f.content|
  {
    Be(f.tag, 4) + Be(|f.content|, 4) + f.content
  }

  function EncodeAll(fs: seq<Frame>): seq<byte> {
    if fs == [] then [] else Encode(fs[0]) + EncodeAll(fs[1..])
  }

  function TagField(s: seq<byte>): (v: u32)
    requires |s| >= HEAD_LEN
  {
    Read32IsNetworkOrder(Big, s[0..4]);
    FromBe(s[0..4])
  }

  function LenField(s: seq<byte>): (v: u32)
    requires |s| >= HEAD_LEN
  {
    Read32IsNetworkOrder(Big, s[4..8]);
    FromBe(s[4..8])
  }

  /** Frames a receiver accepts: up to 2^20 bytes of content. */
  ghost predicate Acceptable(fs: seq<Frame>) {
    forall i | 0 <= i < |fs| :: |fs[i].content| <= 0x10_0000
  }

  /** A rest of the stream in which no accepted frame is complete. */
  predicate Partial(r: seq<byte>) {
    |r| < 8 || LenField(r) > 0x10_0000 || |r| < 8 + LenField(r)
  }

  /** On the wire: tag, length and content, the numbers in four bytes each, most significant first. */
  lemma FrameLayout(f: Frame)
    requires |f.content| < 0x1_0000_0000
    ensures var n := |f.content|;
      Encode(f) == [f.tag / 0x100_0000, f.tag / 0x1_0000 % 256, f.tag / 0x100 % 256, f.tag % 256,
                    n / 0x100_0000, n / 0x1_0000 % 256, n / 0x100 % 256, n % 256] + f.content
  {
    BeBytes(f.tag);
    BeBytes(|f.content|);
  }

  /** The header of an encoded frame reads back, whatever follows it. */
  lemma HeaderReadsBack(f: Frame, rest: seq<byte>)
    requires |f.content| <= MAX_CTX_LEN
    ensures var s := Encode(f) + rest;
      TagField(s) == f.tag && LenField(s) == |f.content| && s[HEAD_LEN..HEAD_LEN + |f.content|] == f.content
  {
    Pow4();
    var s := Encode(f) + rest;
    BeRoundTrip(f.tag, 4);
    BeRoundTrip(|f.content|, 4);
    assert s[0..4] == Be(f.tag, 4) && s[4..8] == Be(|f.content|, 4);
  }

  /** A buffer whose header announces its content is the encoding of that frame. */
  lemma CompleteIsEncoded(s: seq<byte>)
    requires |s| >= HEAD_LEN && |s| == HEAD_LEN + LenField(s)
    ensures Encode(Frame(TagField(s), s[HEAD_LEN..])) == s
  {
    FromBeRoundTrip(s[0..4]);
    FromBeRoundTrip(s[4..8]);
    assert s == s[0..4] + s[4..8] + s[8..];
  }

  lemma {:induction false} EncodeAllAppend(fs: seq<Frame>, f: Frame)
    ensures EncodeAll(fs + [f]) == EncodeAll(fs) + Encode(f)
  {
    if fs == [] {
      assert [f][1..] == [] && fs + [f] == [f];
    } else {
      assert (fs + [f])[0] == fs[0] && (fs + [f])[1..] == fs[1..] + [f];
      EncodeAllAppend(fs[1..], f);
    }
  }

  lemma FirstFrameIsUnique(f: Frame, s: seq<byte>, g: Frame, t: seq<byte>)
    requires |f.content| <= MAX_CTX_LEN && |g.content| <= MAX_CTX_LEN && Encode(f) + s == Encode(g) + t
    ensures f == g && s == t
  {
    HeaderReadsBack(f, s);
    HeaderReadsBack(g, t);
    assert s == (Encode(f) + s)[|Encode(f)|..];
    assert t == (Encode(g) + t)[|Encode(g)|..];
  }

  /** Two splittings of one stream begin with the same frame. */
  lemma PeelFirst(fs: seq<Frame>, r: seq<byte>, gs: seq<Frame>, q: seq<byte>)
    requires fs != [] && gs != [] && Acceptable(fs) && Acceptable(gs) && EncodeAll(fs) + r == EncodeAll(gs) + q
    ensures fs[0] == gs[0] && EncodeAll(fs[1..]) + r == EncodeAll(gs[1..]) + q
  {
    FirstOf(fs, r);
    FirstOf(gs, q);
    FirstFrameIsUnique(fs[0], EncodeAll(fs[1..]) + r, gs[0], EncodeAll(gs[1..]) + q);
  }

  lemma FirstOf(fs: seq<Frame>, r: seq<byte>)
    requires fs != []
    ensures EncodeAll(fs) + r == Encode(fs[0]) + (EncodeAll(fs[1..]) + r)
  {
    Regroup(Encode(fs[0]), EncodeAll(fs[1..]), r);
  }

  lemma Regroup(a: seq<byte>, b: seq<byte>, c: seq<byte>)
    ensures a + b + c == a + (b + c)
  {
  }

  lemma EmptyRest(r: seq<byte>)
    ensures EncodeAll([]) + r == r
  {
  }

  /** A byte stream splits into accepted frames and a partial rest in one way only. */
  lemma {:induction false} SplitIsUnique(fs: seq<Frame>, r: seq<byte>, gs: seq<Frame>, q: seq<byte>)
    requires Acceptable(fs) && Acceptable(gs) && Partial(r) && Partial(q)
    requires EncodeAll(fs) + r == EncodeAll(gs) + q
    ensures fs == gs && r == q
    decreases |fs|
  {
    EmptyRest(r);
    EmptyRest(q);
    if fs != [] {
      NotPartial(fs, r);
      PeelFirst(fs, r, gs, q);
      SplitIsUnique(fs[1..], r, gs[1..], q);
      assert fs == [fs[0]] + fs[1..] && gs == [gs[0]] + gs[1..];
    } else if gs != [] {
      NotPartial(gs, q);
      assert false;
    }
  }

  lemma NotPartial(fs: seq<Frame>, r: seq<byte>)
    requires fs != [] && Acceptable(fs)
    ensures !Partial(EncodeAll(fs) + r)
  {
    FirstOf(fs, r);
    HeaderReadsBack(fs[0], EncodeAll(fs[1..]) + r);
  }
}
