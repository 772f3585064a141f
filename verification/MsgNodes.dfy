/** The message buffer (msgnode.hpp) and the receiver that fills it, with a real array that is
    written in place, reallocated and reused. A null buffer is an array of length zero. */
module MsgNodes {
  import opened Basics
  import opened NetField
  import opened Framing
  import R = ReceiveModel

  function Splice(s: seq<byte>, off: nat, bytes: seq<byte>): (r: seq<byte>)
    requires off + |bytes| <= |s|
    ensures |r| == |s| && r[off..off + |bytes|] == bytes && r[..off] == s[..off] && r[off + |bytes|..] == s[off + |bytes|..]
  {
    s[..off] + bytes + s[off + |bytes|..]
  }

  class MsgNode {
    var data: array<byte>
    var curPos: nat
    var ctxLen: nat
    var maxLen: nat

    ghost predicate Valid()
      reads this
    {
      data.Length == maxLen
    }

    /** An empty node; the buffer is not initialised. */
    constructor (len: nat)
      ensures Valid() && fresh(data) && maxLen == len && curPos == 0 && ctxLen == 0
    {
      data := new byte[len];
      curPos, ctxLen, maxLen := 0, 0, len;
    }

    /** The bytes handed to the socket. */
    function Wire(): seq<byte>
      requires Valid() && HEAD_LEN + ctxLen <= maxLen
      reads this, data
    {
      data[..HEAD_LEN + ctxLen]
    }

    /** memcpy into the buffer. */
    method Put(off: nat, bytes: seq<byte>)
      requires off + |bytes| <= data.Length
      modifies data
      ensures data[..] == Splice(old(data[..]), off, bytes)
    {
      for i := 0 to |bytes|
        invariant data[off..off + i] == bytes[..i]
        invariant data[..off] == old(data[..off]) && data[off + i..] == old(data[off + i..])
      {
        data[off + i] := bytes[i];
      }
      assert data[..] == data[..off] + data[off..off + |bytes|] + data[off + |bytes|..];
    }

    method SetTagField(tag: u32)
      requires Valid() && HEAD_LEN <= maxLen
      modifies data
      ensures data[..] == Splice(old(data[..]), 0, Be(tag, 4))
    {
      Put(0, Be(tag, 4));
    }

    method SetContentLenField(len: u32)
      requires Valid() && HEAD_LEN <= maxLen
      modifies this`ctxLen, data
      ensures data[..] == Splice(old(data[..]), 4, Be(len, 4)) && ctxLen == len
    {
      Put(4, Be(len, 4));
      ctxLen := len;
    }

    method UpdateContentLenField() returns (len: u32)
      requires Valid() && HEAD_LEN <= maxLen
      modifies this`ctxLen
      ensures len == ctxLen == LenField(data[..])
    {
      len := LenField(data[..]);
      ctxLen := len;
    }

    method Zero()
      modifies this`curPos, this`ctxLen
      ensures curPos == 0 && ctxLen == 0
    {
      curPos, ctxLen := 0, 0;
    }

    method ResetCurPos()
      modifies this`curPos
      ensures curPos == 0
    {
      curPos := 0;
    }

    /** Grow the buffer, keeping every byte of the old one in front. */
    method Reallocate(len: nat)
      requires Valid()
      modifies this
      ensures Valid() && maxLen == if len > old(maxLen) then len else old(maxLen)
      ensures data == old(data) || fresh(data)
      ensures data[..old(maxLen)] == old(data[..]) && (len <= old(maxLen) && old(maxLen) > 0 ==> data == old(data))
      ensures old(maxLen) > 0 ==> curPos == old(curPos) && ctxLen == old(ctxLen)
      ensures old(maxLen) == 0 ==> curPos == 0 && ctxLen == 0
    {
      if data.Length > 0 && len > maxLen {
        var tmp := new byte[len];
        for i := 0 to maxLen
          modifies tmp
          invariant tmp[..i] == data[..i]
        {
          tmp[i] := data[i];
        }
        data := tmp;
      }
      if data.Length == 0 {
        data := new byte[len];
        curPos, ctxLen := 0, 0;
      }
      maxLen := if maxLen >= len then maxLen else len;
    }
  }

  /** The framing constructor: refuses an empty message; a length that wraps the 32-bit buffer size
      makes the copy run past the buffer. */
  method MakeFrame(content: seq<byte>, tag: u32) returns (r: Outcome<MsgNode>)
    ensures r.Ok? <==> 0 < |content| < TWO_32 - HEAD_LEN
    ensures r.Throws? <==> content == []
    ensures r.Ok? ==> fresh(r.value) && fresh(r.value.data) && r.value.Valid() && r.value.curPos == 0
    ensures r.Ok? ==> HEAD_LEN + r.value.ctxLen == r.value.maxLen && r.value.Wire() == Encode(Frame(tag, content))
  {
    if content == [] {
      return Throws;
    }
    if |content| >= TWO_32 - HEAD_LEN {
      return Undefined;
    }
    var node := new MsgNode(HEAD_LEN + |content|);
    node.ctxLen := |content|;
    node.Put(0, Be(tag, 4));
    node.Put(4, Be(|content|, 4));
    node.Put(HEAD_LEN, content);
    assert node.data[..] == Encode(Frame(tag, content));
    r := Ok(node);
  }

  /** The receiving half of a session or of the client; `down` is the session's flag, which any thread
      may raise between two completions. */
  class Receiver {
    const side: R.Side
    var node: MsgNode
    var phase: R.Phase
    var down: bool
    var out: seq<Frame>

    constructor (side: R.Side)
      ensures this.side == side && Valid() && R.Init(View()) && !down
    {
      this.side := side;
      node := new MsgNode(R.INITIAL_NODE_SIZE);
      phase, down, out := R.Head, false, [];
    }

    ghost predicate Valid()
      reads this, node, node.data
    {
      node.Valid() && R.Safe(View())
    }

    function View(): R.Rx
      reads this, node, node.data
    {
      R.Rx(node.data[..], node.curPos, node.ctxLen, phase, out)
    }

    /** The session's completions begin by testing the flag, the client's do not. */
    predicate Stops()
      reads this
    {
      side.Server? && down
    }

    method Close()
      modifies this`down
      ensures down
    {
      down := true;
    }

    /** What a read may bring: at least one byte, unless it ends with an error. */
    ghost predicate Arrives(err: bool, chunk: seq<byte>)
      reads this, node, node.data
    {
      phase != R.Closed && |chunk| <= R.Wanted(View()) && (!err ==> R.Brings(View(), chunk))
    }

    /** The bytes that arrived are in the buffer; the position has not advanced. */
    method Arrive(chunk: seq<byte>)
      requires Valid() && Arrives(true, chunk)
      modifies node.data
      ensures Valid() && View() == R.Filled(old(View()), chunk).(cur := node.curPos)
    {
      node.Put(node.curPos, chunk);
      if phase == R.Content {
        assert node.data[..][..HEAD_LEN] == old(node.data[..])[..HEAD_LEN];
        R.SameHeader(node.data[..], old(node.data[..]));
      }
    }

    /** `more` tells whether another read is started. */
    method OnHead(err: bool, chunk: seq<byte>) returns (more: bool)
      requires Valid() && phase == R.Head && Arrives(err, chunk)
      modifies this, node, node.data
      ensures Valid() && (more <==> !err && !old(Stops()) && phase != R.Closed)
      ensures down == (old(down) || err || (side.Server? && phase == R.Closed))
      ensures if err || old(Stops()) then View() == R.Filled(old(View()), chunk).(cur := old(View()).cur)
              else R.Next(side, old(View()), chunk, View())
    {
      Arrive(chunk);
      if err {
        Close();
        return false;
      }
      if Stops() {
        return false;
      }
      node.curPos := node.curPos + |chunk|;
      assert View() == R.Filled(old(View()), chunk);
      if node.curPos >= HEAD_LEN {
        HeadDone();
      }
      R.NextIsSafe(side, old(View()), chunk, View());
      if phase == R.Closed && side.Server? {
        Close();
      }
      more := phase != R.Closed;
    }

    /** The header is complete: close on an oversized length, otherwise make room for the content. */
    method HeadDone()
      requires node.Valid() && phase == R.Head && HEAD_LEN <= node.curPos && HEAD_LEN <= node.maxLen
      modifies this`phase, node
      ensures node == old(node) && node.Valid() && (node.data == old(node.data) || fresh(node.data))
      ensures R.AfterHead(old(View()), View())
    {
      var len := node.UpdateContentLenField();
      if len > MAX_CTX_LEN {
        phase := R.Closed;
      } else {
        phase := R.Content;
        if len + HEAD_LEN > node.maxLen {
          node.Reallocate(len + HEAD_LEN);
        }
      }
    }

    /** The handler of a session may be gone; then the session closes and a complete frame is dropped. */
    method OnContent(err: bool, chunk: seq<byte>, handled: bool) returns (more: bool)
      requires Valid() && phase == R.Content && Arrives(err, chunk) && (side.Client? ==> handled)
      modifies this, node, node.data
      ensures Valid() && (more <==> !err && !old(Stops()))
      ensures var f := R.Filled(old(View()), chunk); var dropped := !handled && f.cur == f.ctxLen + HEAD_LEN;
        && down == (old(down) || err || dropped)
        && if err || old(Stops()) then View() == f.(cur := old(View()).cur)
           else if dropped then View() == f.(cur := 0, ctxLen := 0, phase := R.Head)
           else R.Next(side, old(View()), chunk, View())
    {
      Arrive(chunk);
      if err {
        Close();
        return false;
      }
      if Stops() {
        return false;
      }
      node.curPos := node.curPos + |chunk|;
      assert View() == R.Filled(old(View()), chunk);
      if node.curPos < node.ctxLen + HEAD_LEN {
        R.NextIsSafe(side, old(View()), chunk, View());
      } else if handled {
        ContentDone();
        R.NextIsSafe(side, old(View()), chunk, View());
      } else {
        Close();
        node.Zero();
        phase := R.Head;
      }
      more := true;
    }

    /** The frame is complete: it is handed over, and the next one starts in a new node or the old one. */
    method ContentDone()
      requires node.Valid() && HEAD_LEN <= node.curPos && node.ctxLen + HEAD_LEN <= node.curPos && node.ctxLen + HEAD_LEN <= node.maxLen
      modifies this`out, this`node, this`phase, node
      ensures node.Valid() && (node == old(node) || (fresh(node) && fresh(node.data)))
      ensures node == old(node) ==> node.data == old(node.data)
      ensures R.AfterContent(side, old(View()), View())
    {
      out := out + [Frame(TagField(node.data[..]), node.data[HEAD_LEN..HEAD_LEN + node.ctxLen])];
      if side == R.Server {
        node := new MsgNode(R.INITIAL_NODE_SIZE);
      }
      node.Zero();
      phase := R.Head;
    }
  }
}
