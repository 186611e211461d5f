/** The send commands of ptnio, each side on its own: client_handle_send, server_cmd_send and
    server_cmd_nms_send over sockets whose peers behave in any fixed way, and the two sides put
    together. */
module Transfer {
  import opened Bits
  import opened Nms

  const SUCCESS: byte := 0
  const INVALID_ARGS: byte := 1
  const OUT_OF_MEMORY: byte := 2
  const NETWORK_ERROR: byte := 3
  const NOT_FOUND: byte := 4
  const CLIENT_OOM: byte := 10
  const IPC_ERROR: byte := 12

  // ----- server_cmd_send

  /** Why the server refuses a command before it receives anything. */
  function Refusal(argsOk: bool, found: bool, memory: bool): Option<byte> {
    if !argsOk then Some(INVALID_ARGS)
    else if !found then Some(NOT_FOUND)
    else if !memory then Some(OUT_OF_MEMORY)
    else None
  }

  /** The bytes forwarded and the codes sent back, when the client sends s and then closes, and
      tcpLeft sends to the TCP socket succeed. */
  function Serve(s: seq<byte>, tcpLeft: nat): (seq<byte>, seq<byte>)
    decreases |s|
  {
    FrameIsUnique(s);
    match TakeFrame(s)
    case None => ([], [])
    case Some((data, rest)) =>
      if tcpLeft == 0 then ([], [NETWORK_ERROR])
      else if data == [] then ([], [SUCCESS])
      else var (t, codes) := Serve(rest, tcpLeft - 1); (data + t, [SUCCESS] + codes)
  }

  /** What arrives of codes sent one by one, when left sends succeed; send_code ignores failures. */
  function Arriving(codes: seq<byte>, left: nat): seq<byte> { codes[..Min(|codes|, left)] }

  /** The codes sent so far, of which left could arrive. */
  ghost predicate Coded(client: Socket, before: seq<byte>, left: nat, sent: seq<byte>)
    reads client`outgoing, client`sendsLeft
  {
    && client.outgoing == before + Arriving(sent, left)
    && client.sendsLeft == if |sent| <= left then left - |sent| else 0
  }

  lemma CodesArrive(client: Socket, before: seq<byte>, left: nat, sent: seq<byte>)
    requires Coded(client, before, left, sent)
    ensures client.outgoing == before + Arriving(sent, left)
  {
  }

  method SendCode(client: Socket, code: byte, ghost before: seq<byte>, ghost left: nat, ghost sent: seq<byte>)
    requires Coded(client, before, left, sent)
    modifies client`outgoing, client`sendsLeft
    ensures Coded(client, before, left, sent + [code])
  {
    var _ := client.Send([code]);
    assert |sent| < left ==> Arriving(sent + [code], left) == Arriving(sent, left) + [code];
    assert |sent| >= left ==> Arriving(sent + [code], left) == Arriving(sent, left);
  }

  /** The checks that both commands begin with; the first code is sent in any case. */
  method Admit(client: Socket, argsOk: bool, found: bool, memory: bool) returns (admitted: bool)
    modifies client`outgoing, client`sendsLeft
    ensures match Refusal(argsOk, found, memory)
            case Some(code) =>
              !admitted && client.outgoing == old(client.outgoing) + Arriving([code], old(client.sendsLeft))
            case None =>
              admitted && Coded(client, old(client.outgoing), old(client.sendsLeft), [SUCCESS])
  {
    hide Arriving, Coded;
    ghost var before, left := client.outgoing, client.sendsLeft;
    NothingSent(client);
    assert forall c: byte :: [] + [c] == [c];
    if !argsOk {
      SendCode(client, INVALID_ARGS, before, left, []);
      CodesArrive(client, before, left, [INVALID_ARGS]);
      return false;
    }
    if !found {
      SendCode(client, NOT_FOUND, before, left, []);
      CodesArrive(client, before, left, [NOT_FOUND]);
      return false;
    }
    if !memory {
      SendCode(client, OUT_OF_MEMORY, before, left, []);
      CodesArrive(client, before, left, [OUT_OF_MEMORY]);
      return false;
    }
    SendCode(client, SUCCESS, before, left, []);
    admitted := true;
  }

  method ServerCmdSend(client: Socket, tcp: Socket, argsOk: bool, found: bool, memory: bool)
    requires client != tcp
    modifies client, tcp
    ensures match Refusal(argsOk, found, memory)
            case Some(code) =>
              && client.outgoing == old(client.outgoing) + Arriving([code], old(client.sendsLeft))
              && tcp.outgoing == old(tcp.outgoing)
            case None =>
              var (t, codes) := Serve(old(client.incoming), old(tcp.sendsLeft));
              && client.outgoing == old(client.outgoing) + Arriving([SUCCESS] + codes, old(client.sendsLeft))
              && tcp.outgoing == old(tcp.outgoing) + t
  {
    hide TakeFrame, Arriving, Coded, Serve, Pending;
    ghost var before, left := client.outgoing, client.sendsLeft;
    ghost var total := Serve(client.incoming, tcp.sendsLeft);
    PendingStart(client.incoming, tcp.sendsLeft);
    var admitted := Admit(client, argsOk, found, memory);
    if !admitted {
      return;
    }
    var buffer := new byte[MAX_FRAME];
    ghost var sent: seq<byte>, forwarded: seq<byte> := [SUCCESS], [];
    assert tcp.outgoing == old(tcp.outgoing) + forwarded;
    var received: nat := 1;
    while received != 0
      invariant Coded(client, before, left, sent)
      invariant tcp.outgoing == old(tcp.outgoing) + forwarded
      invariant received != 0 ==> Pending(client.incoming, tcp.sendsLeft, forwarded, sent, total)
      invariant received == 0 ==> forwarded == total.0 && sent == [SUCCESS] + total.1
      decreases received != 0, |client.incoming|
    {
      NextFrame(client.incoming, tcp.sendsLeft, forwarded, sent, total);
      var failed;
      failed, received := client.NmsRecvNoAlloc(buffer);
      if failed {
        CodesArrive(client, before, left, sent);
        return;
      }
      ghost var data := buffer[..received];
      var ok := tcp.Send(buffer[..received]);
      if !ok {
        SendCode(client, NETWORK_ERROR, before, left, sent);
        CodesArrive(client, before, left, sent + [NETWORK_ERROR]);
        return;
      }
      SendCode(client, SUCCESS, before, left, sent);
      sent := sent + [SUCCESS];
      forwarded := forwarded + data;
    }
    CodesArrive(client, before, left, sent);
  }

  /** What is left to do, against the whole of what Serve says. */
  ghost predicate Pending(s: seq<byte>, tcpLeft: nat, forwarded: seq<byte>, sent: seq<byte>, total: (seq<byte>, seq<byte>)) {
    var (t, codes) := Serve(s, tcpLeft);
    forwarded + t == total.0 && sent + codes == [SUCCESS] + total.1
  }

  lemma PendingStart(s: seq<byte>, tcpLeft: nat)
    ensures Pending(s, tcpLeft, [], [SUCCESS], Serve(s, tcpLeft))
  {
    hide Serve;
    assert [] + Serve(s, tcpLeft).0 == Serve(s, tcpLeft).0;
  }

  lemma NextFrame(s: seq<byte>, tcpLeft: nat, forwarded: seq<byte>, sent: seq<byte>, total: (seq<byte>, seq<byte>))
    requires Pending(s, tcpLeft, forwarded, sent, total)
    ensures match TakeFrame(s)
            case None => forwarded == total.0 && sent == [SUCCESS] + total.1
            case Some((data, rest)) =>
              && |rest| < |s|
              && if tcpLeft == 0 then forwarded == total.0 && sent + [NETWORK_ERROR] == [SUCCESS] + total.1
                 else if data == [] then forwarded + data == total.0 && sent + [SUCCESS] == [SUCCESS] + total.1
                 else Pending(rest, tcpLeft - 1, forwarded + data, sent + [SUCCESS], total)
  {
    hide TakeFrame;
    FrameIsUnique(s);
    assert forwarded + [] == forwarded && sent + [] == sent;
    match TakeFrame(s)
    case None =>
    case Some((data, rest)) =>
      if tcpLeft != 0 && data != [] {
        var (t, codes) := Serve(rest, tcpLeft - 1);
        assert forwarded + (data + t) == forwarded + data + t;
        assert sent + ([SUCCESS] + codes) == sent + [SUCCESS] + codes;
      }
  }

  lemma NothingSent(client: Socket)
    ensures Coded(client, client.outgoing, client.sendsLeft, [])
  {
  }

  // ----- server_cmd_nms_send

  /** As Serve, but the frames themselves are forwarded: an empty frame ends the transfer and is
      forwarded only when it is the first. One more code follows in any case. */
  function ServeNms(s: seq<byte>, tcpLeft: nat, first: bool): (seq<byte>, seq<byte>)
    decreases |s|
  {
    FrameIsUnique(s);
    match TakeFrame(s)
    case None => ([], if first then [] else [SUCCESS])
    case Some((data, rest)) =>
      if data == [] && !first then ([], [SUCCESS])
      else if tcpLeft < SendsFor(data) then (if tcpLeft == 0 then [] else Head(|data|), [NETWORK_ERROR, SUCCESS])
      else var (t, codes) := ServeNms(rest, tcpLeft - SendsFor(data), false); (Frame(data) + t, [SUCCESS] + codes)
  }

  /** What is left to do, against the whole of what ServeNms says. */
  ghost predicate NmsPending(s: seq<byte>, tcpLeft: nat, first: bool, forwarded: seq<byte>, sent: seq<byte>,
                             total: (seq<byte>, seq<byte>))
  {
    var (t, codes) := ServeNms(s, tcpLeft, first);
    forwarded + t == total.0 && sent + codes == [SUCCESS] + total.1
  }

  lemma NmsStart(s: seq<byte>, tcpLeft: nat)
    ensures NmsPending(s, tcpLeft, true, [], [SUCCESS], ServeNms(s, tcpLeft, true))
    ensures TakeFrame(s) == None ==> ServeNms(s, tcpLeft, true) == ([], [])
  {
    hide TakeFrame;
    var (t, codes) := ServeNms(s, tcpLeft, true);
    assert [] + t == t;
  }

  lemma NmsFrame(s: seq<byte>, tcpLeft: nat, first: bool, forwarded: seq<byte>, sent: seq<byte>, total: (seq<byte>, seq<byte>))
    requires NmsPending(s, tcpLeft, first, forwarded, sent, total)
    requires TakeFrame(s).Some? && (first || TakeFrame(s).value.0 != [])
    ensures var (data, rest) := TakeFrame(s).value;
            && |data| <= MAX_FRAME && |rest| < |s|
            && if tcpLeft < SendsFor(data)
               then forwarded + (if tcpLeft == 0 then [] else Head(|data|)) == total.0
                 && sent + [NETWORK_ERROR] + [SUCCESS] == [SUCCESS] + total.1
               else NmsPending(rest, tcpLeft - SendsFor(data), false, forwarded + Frame(data), sent + [SUCCESS], total)
  {
    hide TakeFrame, SendsFor, Frame;
    FrameIsUnique(s);
    var (data, rest) := TakeFrame(s).value;
    if tcpLeft >= SendsFor(data) {
      var (t', codes') := ServeNms(rest, tcpLeft - SendsFor(data), false);
      assert forwarded + (Frame(data) + t') == forwarded + Frame(data) + t';
      assert sent + ([SUCCESS] + codes') == sent + [SUCCESS] + codes';
    }
  }

  lemma NmsEnds(s: seq<byte>, tcpLeft: nat, forwarded: seq<byte>, sent: seq<byte>, total: (seq<byte>, seq<byte>))
    requires NmsPending(s, tcpLeft, false, forwarded, sent, total)
    ensures TakeFrame(s) == None || TakeFrame(s).value.0 == [] ==>
              forwarded == total.0 && sent + [SUCCESS] == [SUCCESS] + total.1
  {
    hide TakeFrame;
    assert forwarded + [] == forwarded;
  }

  method ServerCmdNmsSend(client: Socket, tcp: Socket, argsOk: bool, found: bool, memory: bool)
    requires client != tcp
    modifies client, tcp
    ensures match Refusal(argsOk, found, memory)
            case Some(code) =>
              && client.outgoing == old(client.outgoing) + Arriving([code], old(client.sendsLeft))
              && tcp.outgoing == old(tcp.outgoing)
            case None =>
              var (t, codes) := ServeNms(old(client.incoming), old(tcp.sendsLeft), true);
              && client.outgoing == old(client.outgoing) + Arriving([SUCCESS] + codes, old(client.sendsLeft))
              && tcp.outgoing == old(tcp.outgoing) + t
  {
    hide TakeFrame, Arriving, SendsFor, ServeNms, Frame, Head, Coded, NmsPending;
    ghost var before, left := client.outgoing, client.sendsLeft;
    ghost var s, tcpLeft, first := client.incoming, tcp.sendsLeft, true;
    ghost var total := ServeNms(s, tcpLeft, true);
    NmsStart(s, tcpLeft);
    var admitted := Admit(client, argsOk, found, memory);
    if !admitted {
      return;
    }
    var buffer := new byte[MAX_FRAME];
    ghost var sent: seq<byte>, forwarded: seq<byte> := [SUCCESS], [];
    assert [SUCCESS] + [] == [SUCCESS] && tcp.outgoing == old(tcp.outgoing) + forwarded;
    var failed: bool, received: nat := client.NmsRecvNoAlloc(buffer);
    if failed {
      CodesArrive(client, before, left, sent);
      return;
    }
    while true
      invariant Coded(client, before, left, sent)
      invariant tcp.outgoing == old(tcp.outgoing) + forwarded && tcp.sendsLeft == tcpLeft
      invariant TakeFrame(s).Some? && received <= buffer.Length
      invariant TakeFrame(s).value == (buffer[..received], client.incoming)
      invariant first || received != 0
      invariant NmsPending(s, tcpLeft, first, forwarded, sent, total)
      decreases |s|
    {
      ghost var data := buffer[..received];
      NmsFrame(s, tcpLeft, first, forwarded, sent, total);
      failed := tcp.NmsSend(buffer[..received]);
      if failed {
        SendCode(client, NETWORK_ERROR, before, left, sent);
        sent := sent + [NETWORK_ERROR];
        forwarded := forwarded + if tcpLeft == 0 then [] else Head(|data|);
        break;
      }
      SendCode(client, SUCCESS, before, left, sent);
      sent, forwarded := sent + [SUCCESS], forwarded + Frame(data);
      s, tcpLeft, first := client.incoming, tcp.sendsLeft, false;
      NmsEnds(s, tcpLeft, forwarded, sent, total);
      failed, received := client.NmsRecvNoAlloc(buffer);
      if failed || received == 0 {
        break;
      }
    }
    SendCode(client, SUCCESS, before, left, sent);
    CodesArrive(client, before, left, sent + [SUCCESS]);
  }
}
