/** The two routes of a chat message: rewritten in place for a user on this server
    (msg_handler.cpp), or sent through the message queue of another server and rebuilt there
    (server_redis.cpp, mq_handler.cpp). */
module ChatRoutes {
  import opened Basics
  import opened NetField
  import opened Framing
  import opened MsgNodes
  import Decimal

  const CHAT_MSG_TOCLI: u32 := 4
  const UID_LEN: int := 8

  /** The fields of a queue entry. */
  datatype Item = Item(from: string, to: string, content: seq<byte>)

  /** What a client should see: the sender's uid followed by the text. */
  function ClientFrame(from: u64, text: seq<byte>): seq<byte> {
    Encode(Frame(CHAT_MSG_TOCLI, Be(from, UID_LEN) + text))
  }

  /** The uid read from the front of the content. */
  function Target(content: seq<byte>): u64
    requires |content| >= UID_LEN
  {
    Read64IsNetworkOrder(Big, content[..UID_LEN]);
    FromBe(content[..UID_LEN])
  }

  /** The text is the content after the uid. For shorter contents the range ends before it begins. */
  function Enqueue(from: u64, content: seq<byte>): Outcome<Item> {
    if |content| < UID_LEN then Undefined
    else Ok(Item(Decimal.Print(from), Decimal.Print(Target(content)), content[UID_LEN..]))
  }

  /** A text whose buffer size does not wrap in 32 bits. */
  predicate Fits(text: seq<byte>) {
    HEAD_LEN + UID_LEN + |text| < TWO_32
  }

  /** The other server: parse both uids and rebuild the frame. */
  function Dequeue(item: Item): Outcome<(u64, seq<byte>)> {
    match (Decimal.Stoull(item.from), Decimal.Stoull(item.to))
    case (Ok(from), Ok(to)) => if Fits(item.content) then Ok((to, ClientFrame(from, item.content))) else Undefined
    case _ => Throws
  }

  /** The frame sent after the rewrite in place; its length field stays as received. */
  function LocalFrame(from: u64, content: seq<byte>): seq<byte> {
    var uid := Be(from, UID_LEN);
    Encode(Frame(CHAT_MSG_TOCLI, if |content| < UID_LEN then uid[..|content|] else uid + content[UID_LEN..]))
  }

  function RemoteFrame(from: u64, content: seq<byte>): Outcome<(u64, seq<byte>)> {
    match Enqueue(from, content)
    case Ok(item) => Dequeue(item)
    case _ => Undefined
  }

  /** Both routes give the target the same bytes exactly when the content holds a whole uid and its
      frame has a 32-bit size, as every received frame does. */
  lemma RoutesAgree(from: u64, content: seq<byte>)
    ensures RemoteFrame(from, content).Ok? && RemoteFrame(from, content).value.1 == LocalFrame(from, content)
            <==> UID_LEN <= |content| < TWO_32 - HEAD_LEN
    ensures UID_LEN <= |content| < TWO_32 - HEAD_LEN ==> RemoteFrame(from, content) == Ok((Target(content), LocalFrame(from, content)))
  {
    Decimal.StoullRoundTrip(from);
    if |content| >= UID_LEN {
      Decimal.StoullRoundTrip(Target(content));
    }
  }

  /** A message for uid `to` reaches `to`, on either route, as a frame of tag 4 that holds the sender's uid
      in eight bytes, most significant first, and the text. */
  lemma ChatReachesTarget(from: u64, to: u64, text: seq<byte>)
    requires 16 + |text| < 0x1_0000_0000
    ensures RemoteFrame(from, Be(to, 8) + text) == Ok((to, Encode(Frame(4, Be(from, 8) + text))))
    ensures LocalFrame(from, Be(to, 8) + text) == Encode(Frame(4, Be(from, 8) + text))
  {
    var content := Be(to, 8) + text;
    assert content[..8] == Be(to, 8) && content[8..] == text;
    Pow4();
    BeRoundTrip(to, 8);
    RoutesAgree(from, content);
  }

  lemma RewrittenBuffer(d: seq<byte>, from: u64)
    requires HEAD_LEN + UID_LEN <= |d|
    ensures Splice(Splice(d, 0, Be(CHAT_MSG_TOCLI, 4)), HEAD_LEN, Be(from, UID_LEN))
         == Be(CHAT_MSG_TOCLI, 4) + d[4..8] + Be(from, UID_LEN) + d[16..]
  {
    var e := Splice(d, 0, Be(CHAT_MSG_TOCLI, 4));
    assert e == Be(CHAT_MSG_TOCLI, 4) + d[4..];
    assert e[..8] == Be(CHAT_MSG_TOCLI, 4) + d[4..8];
    assert e[16..] == d[16..];
  }

  lemma TakeTail(h: seq<byte>, t: seq<byte>, n: nat)
    requires |h| <= n <= |h| + |t|
    ensures (h + t)[..n] == h + t[..n - |h|]
  {
  }

  lemma RewriteBytes(d: seq<byte>, from: u64, tag: u32, content: seq<byte>)
    requires HEAD_LEN + UID_LEN <= |d| && HEAD_LEN + |content| <= |d|
    requires d[..HEAD_LEN + |content|] == Encode(Frame(tag, content))
    ensures Splice(Splice(d, 0, Be(CHAT_MSG_TOCLI, 4)), HEAD_LEN, Be(from, UID_LEN))[..HEAD_LEN + |content|]
         == LocalFrame(from, content)
  {
    var n, uid := HEAD_LEN + |content|, Be(from, UID_LEN);
    var head, wire := Be(CHAT_MSG_TOCLI, 4) + Be(|content|, 4), d[..n];
    RewrittenBuffer(d, from);
    assert d[4..8] == wire[4..8];
    assert wire[4..8] == Be(|content|, 4);
    TakeTail(head, uid + d[16..], n);
    assert head + uid + d[16..] == head + (uid + d[16..]);
    if |content| < UID_LEN {
      assert (uid + d[16..])[..|content|] == uid[..|content|];
    } else {
      TakeTail(uid, d[16..], |content|);
      assert d[16..][..|content| - 8] == wire[16..];
      assert wire[16..] == content[UID_LEN..];
    }
  }

  lemma HeaderBytes(d: seq<byte>, tag: u32, len: u32)
    requires HEAD_LEN <= |d|
    ensures Splice(Splice(d, 0, Be(tag, 4)), 4, Be(len, 4)) == Be(tag, 4) + Be(len, 4) + d[HEAD_LEN..]
  {
    var c := Splice(d, 0, Be(tag, 4));
    var e := Splice(c, 4, Be(len, 4));
    assert e[8..] == c[8..] == c[4..][4..] == d[4..][4..] == d[8..];
    assert e == e[..4] + e[4..8] + e[8..];
  }

  lemma ContentBytes(d: seq<byte>, uid: seq<byte>, text: seq<byte>)
    requires |uid| == UID_LEN && |d| == HEAD_LEN + UID_LEN + |text|
    ensures Splice(Splice(d, HEAD_LEN, uid), HEAD_LEN + UID_LEN, text)[HEAD_LEN..] == uid + text
  {
    var a := Splice(d, HEAD_LEN, uid);
    var b := Splice(a, HEAD_LEN + UID_LEN, text);
    assert b[8..16] == b[..16][8..16] == a[..16][8..16] == a[8..16];
    assert b[8..] == b[8..16] + b[16..];
  }

  lemma RebuildBytes(d: seq<byte>, from: u64, text: seq<byte>)
    requires |d| == HEAD_LEN + UID_LEN + |text| && Fits(text)
    ensures Splice(Splice(Splice(Splice(d, HEAD_LEN, Be(from, UID_LEN)), HEAD_LEN + UID_LEN, text), 0,
                          Be(CHAT_MSG_TOCLI, 4)), 4, Be(UID_LEN + |text|, 4))
         == ClientFrame(from, text)
  {
    var uid := Be(from, UID_LEN);
    ContentBytes(d, uid, text);
    HeaderBytes(Splice(Splice(d, HEAD_LEN, uid), HEAD_LEN + UID_LEN, text), CHAT_MSG_TOCLI, UID_LEN + |text|);
  }

  /** The target's uid, read from a received buffer. */
  method ReadTarget(msg: MsgNode, ghost to: u64, ghost text: seq<byte>) returns (uid: u64)
    requires msg.Valid() && HEAD_LEN + UID_LEN <= msg.maxLen && HEAD_LEN + msg.ctxLen <= msg.maxLen
    ensures msg.Wire() == Encode(Frame(3, Be(to, 8) + text)) ==> uid == to
  {
    Read64IsNetworkOrder(Big, msg.data[HEAD_LEN..HEAD_LEN + UID_LEN]);
    uid := FromBe(msg.data[HEAD_LEN..HEAD_LEN + UID_LEN]);
    if msg.Wire() == Encode(Frame(3, Be(to, 8) + text)) {
      assert msg.data[8..16] == msg.Wire()[8..16] == Be(to, 8);
      Pow4();
      BeRoundTrip(to, 8);
    }
  }

  /** The local branch: tag and uid are overwritten in the received buffer, which is then sent. */
  method RouteLocal(msg: MsgNode, from: u64, ghost content: seq<byte>)
    requires msg.Valid() && HEAD_LEN + UID_LEN <= msg.maxLen && HEAD_LEN + msg.ctxLen <= msg.maxLen
    requires |content| < TWO_32 - HEAD_LEN && msg.Wire() == Encode(Frame(3, content))
    modifies msg, msg.data
    ensures msg.Valid() && msg.curPos == 0 && HEAD_LEN + msg.ctxLen <= msg.maxLen
    ensures msg.Wire() == LocalFrame(from, content)
  {
    ghost var d := msg.data[..];
    assert |msg.Wire()| == HEAD_LEN + msg.ctxLen && d[..HEAD_LEN + |content|] == msg.Wire();
    RewriteBytes(d, from, 3, content);
    msg.ResetCurPos();
    msg.SetTagField(CHAT_MSG_TOCLI);
    msg.Put(HEAD_LEN, Be(from, UID_LEN));
    assert msg.Wire() == msg.data[..][..HEAD_LEN + |content|];
  }

  /** MessageHandler: the frame is rebuilt field by field in a new buffer. */
  method RebuildRemote(item: Item) returns (r: Outcome<(u64, MsgNode)>)
    ensures (Dequeue(item).Ok? <==> r.Ok?) && (Dequeue(item).Throws? <==> r.Throws?)
    ensures r.Ok? ==> r.value.1.Valid() && r.value.1.curPos == 0 && HEAD_LEN + r.value.1.ctxLen == r.value.1.maxLen
    ensures r.Ok? ==> Dequeue(item) == Ok((r.value.0, r.value.1.Wire()))
  {
    var from, to := Decimal.Stoull(item.from), Decimal.Stoull(item.to);
    if !from.Ok? || !to.Ok? {
      return Throws;
    }
    if HEAD_LEN + UID_LEN + |item.content| >= TWO_32 {
      return Undefined;
    }
    var sending := new MsgNode(HEAD_LEN + UID_LEN + |item.content|);
    RebuildBytes(sending.data[..], from.value, item.content);
    sending.Put(HEAD_LEN, Be(from.value, UID_LEN));
    sending.Put(HEAD_LEN + UID_LEN, item.content);
    sending.SetTagField(CHAT_MSG_TOCLI);
    sending.SetContentLenField(UID_LEN + |item.content|);
    assert sending.Wire() == sending.data[..];
    r := Ok((to.value, sending));
  }
}
