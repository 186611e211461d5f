/** nms.c: length-prefixed frames over a socket. */
module Nms {
  import opened Bits

  const MAX_FRAME: nat := 0xFFFF

  // ----- Frames

  /** The length in two bytes, low byte first. */
  function Head(n: nat): (h: seq<byte>)
    requires n <= MAX_FRAME
    ensures |h| == 2
  {
    [n % 256, n / 256]
  }

  function Frame(data: seq<byte>): seq<byte>
    requires |data| <= MAX_FRAME
  {
    Head(|data|) + data
  }

  /** A frame begins with its length, low byte first. */
  lemma FrameLayout(data: seq<byte>)
    requires |data| < 65536
    ensures MAX_FRAME == 65535 && |Frame(data)| == 2 + |data| && Frame(data)[2..] == data
    ensures |data| == Frame(data)[0] as nat + 256 * Frame(data)[1] as nat
  {
  }

  /** The frame at the front of s, and what follows it; None where receiving fails. */
  function TakeFrame(s: seq<byte>): Option<(seq<byte>, seq<byte>)> {
    if |s| < 2 then None
    else
      var n := s[0] as nat + s[1] as nat * 256;
      if |s| < 2 + n then None else Some((s[2..2 + n], s[2 + n..]))
  }

  /** A frame is received as it was sent, whatever follows it. */
  lemma FrameRoundTrip(data: seq<byte>, rest: seq<byte>)
    requires |data| <= MAX_FRAME
    ensures TakeFrame(Frame(data) + rest) == Some((data, rest))
  {
    var s := Frame(data) + rest;
    assert s[0] == |data| % 256 && s[1] == |data| / 256;
    assert s[2..2 + |data|] == data && s[2 + |data|..] == rest;
  }

  /** What is received as a frame was that frame on the wire: the encoding is unambiguous. */
  lemma FrameIsUnique(s: seq<byte>)
    ensures match TakeFrame(s)
            case None => true
            case Some((data, rest)) => |data| <= MAX_FRAME && s == Frame(data) + rest && |rest| + 2 <= |s|
  {
    if |s| >= 2 {
      HeadOf(s[0], s[1]);
    }
  }

  lemma HeadOf(low: byte, high: byte)
    ensures low + high * 256 <= MAX_FRAME && Head(low + high * 256) == [low, high]
  {
  }

  /** A frame that the peer stopped sending halfway is refused. */
  lemma CutFrameFails(data: seq<byte>, k: nat)
    requires |data| <= MAX_FRAME && k < |Frame(data)|
    ensures TakeFrame(Frame(data)[..k]) == None
  {
    if k >= 2 {
      var s := Frame(data)[..k];
      assert s[0] == |data| % 256 && s[1] == |data| / 256;
    }
  }

  // ----- The socket

  /** One end of a stream socket. The peer's behaviour is fixed beforehand: what it sends until its
      end closes, whether the end is reported as an error, and how many sends still succeed. */
  class Socket {
    var incoming: seq<byte>
    var outgoing: seq<byte>
    var sendsLeft: nat
    const reset: bool

    constructor (incoming: seq<byte>, sendsLeft: nat, reset: bool)
      ensures this.incoming == incoming && outgoing == [] && this.sendsLeft == sendsLeft && this.reset == reset
    {
      this.incoming, outgoing, this.sendsLeft, this.reset := incoming, [], sendsLeft, reset;
    }

    /** znsock_send: all of the data or an error. */
    method Send(data: seq<byte>) returns (ok: bool)
      modifies `outgoing, `sendsLeft
      ensures ok == (old(sendsLeft) > 0)
      ensures outgoing == if ok then old(outgoing) + data else old(outgoing)
      ensures sendsLeft == if ok then old(sendsLeft) - 1 else 0
    {
      ok := sendsLeft > 0;
      if ok {
        outgoing := outgoing + data;
        sendsLeft := sendsLeft - 1;
      }
    }

    /** znsock_recv: waits for size bytes; fewer only when the peer has closed. */
    method Recv(buffer: array<byte>, size: nat) returns (ret: int)
      requires size <= buffer.Length
      modifies `incoming, buffer
      ensures ret == if old(incoming) == [] && reset then -1 else Min(size, |old(incoming)|)
      ensures var n := Min(size, |old(incoming)|);
              buffer[..n] == old(incoming)[..n] && buffer[n..] == old(buffer[n..]) && incoming == old(incoming)[n..]
    {
      var n := Min(size, |incoming|);
      forall i | 0 <= i < n { buffer[i] := incoming[i]; }
      ret := if incoming == [] && reset then -1 else n;
      incoming := incoming[n..];
    }

    /** nms_send; true where it fails. */
    method NmsSend(data: seq<byte>) returns (failed: bool)
      requires |data| <= MAX_FRAME
      modifies `outgoing, `sendsLeft
      ensures failed == (old(sendsLeft) < SendsFor(data))
      ensures !failed ==> outgoing == old(outgoing) + Frame(data) && sendsLeft == old(sendsLeft) - SendsFor(data)
      ensures failed ==> outgoing == old(outgoing) + if old(sendsLeft) == 0 then [] else Head(|data|)
    {
      hide Head;
      assert outgoing + [] == outgoing;
      assert outgoing + Frame(data) == outgoing + Head(|data|) + data;
      HeadIs(|data|);
      var ok := Send([|data| % 256, |data| / 256]);
      if !ok {
        return true;
      }
      if |data| > 0 {
        ok := Send(data);
        if !ok {
          return true;
        }
      }
      failed := false;
    }

    /** nms_recv_no_alloc; true where it fails. */
    method NmsRecvNoAlloc(buffer: array<byte>) returns (failed: bool, received: nat)
      requires buffer.Length >= MAX_FRAME
      modifies `incoming, buffer
      ensures match TakeFrame(old(incoming))
              case None => failed
              case Some((data, rest)) =>
                !failed && received == |data| <= buffer.Length && buffer[..received] == data && incoming == rest
    {
      received := 0;
      ghost var s := incoming;
      var headBytes := new byte[2];
      var ret := Recv(headBytes, 2);
      if ret != 2 {
        return true, received;
      }
      assert headBytes[..2][0] == s[0] && headBytes[..2][1] == s[1];
      received := headBytes[0] as nat + headBytes[1] as nat * 256;
      if received == 0 {
        assert s[2..2] == [] == buffer[..0];
        return false, received;
      }
      HeadOf(headBytes[0], headBytes[1]);
      ret := Recv(buffer, received);
      failed := ret != received;
      assert |s| >= 2 + received ==> s[2..][..received] == s[2..2 + received] && s[2..][received..] == s[2 + received..];
    }
  }

  lemma HeadIs(n: nat)
    requires n <= MAX_FRAME
    ensures Head(n) == [n % 256, n / 256]
  {
  }

  /** An empty frame is one send, any other two. */
  function SendsFor(data: seq<byte>): nat { if data == [] then 1 else 2 }
}
