/** server_cmd_nms_send as a protocol, with every interleaving and failures at any moment: the TCP socket
    receives the chunks that the client has read, in frames. The command differs from server_cmd_send in its
    two sends for each frame, the empty frame that it may forward, and a last code that can come when the
    client has closed. */
module NmsProtocol {
  import opened Bits
  import opened Nms
  import opened Transfer
  import opened TransferSteps
  import TransferClient

  // ----- What was written to the TCP socket

  /** The bytes in the frames that a receiver takes. */
  function Payload(tcp: seq<byte>): seq<byte> {
    TransferClient.Join(TransferClient.TakeAll(tcp))
  }

  /** Nothing but whole frames. */
  ghost predicate Whole(tcp: seq<byte>)
    decreases |tcp|
  {
    FrameIsUnique(tcp);
    tcp == [] || match TakeFrame(tcp)
                 case None => false
                 case Some((_, rest)) => Whole(rest)
  }

  /** Whole frames, and not just the empty one. */
  ghost predicate Clean(tcp: seq<byte>) { Whole(tcp) && (Payload(tcp) == [] ==> tcp == []) }

  /** The whole input has arrived in whole frames, an empty one as one empty frame. */
  ghost predicate Delivered(input: seq<byte>, tcp: seq<byte>) {
    Whole(tcp) && Payload(tcp) == input && (input == [] ==> tcp == Head(0))
  }

  /** The head of the chunk's frame comes last. */
  ghost predicate HeadWritten(tcp: seq<byte>, chunk: seq<byte>) {
    && 1 <= |chunk| <= MAX_FRAME && |tcp| >= 2
    && Clean(tcp[..|tcp| - 2]) && tcp == tcp[..|tcp| - 2] + Head(|chunk|) && Payload(tcp) == Payload(tcp[..|tcp| - 2])
  }

  lemma {:induction false} AppendFrame(tcp: seq<byte>, chunk: seq<byte>)
    requires Whole(tcp) && |chunk| <= MAX_FRAME
    ensures Whole(tcp + Frame(chunk)) && Payload(tcp + Frame(chunk)) == Payload(tcp) + chunk
    decreases |tcp|
  {
    if tcp == [] {
      assert tcp + Frame(chunk) == Frame(chunk) + [];
      OneFrame(chunk, []);
      assert chunk + [] == [] + chunk;
    } else {
      FrameIsUnique(tcp);
      var (data, rest) := TakeFrame(tcp).value;
      hide TakeFrame, Frame;
      AppendFrame(rest, chunk);
      Regroup(Frame(data), rest, Frame(chunk));
      OneFrame(data, rest);
      OneFrame(data, rest + Frame(chunk));
      Regroup(data, Payload(rest), chunk);
    }
  }

  lemma OneFrame(data: seq<byte>, rest: seq<byte>)
    requires |data| <= MAX_FRAME
    ensures Payload(Frame(data) + rest) == data + Payload(rest) && Whole(Frame(data) + rest) == Whole(rest)
  {
    hide TakeFrame, Frame;
    FrameRoundTrip(data, rest);
    FrameIsUnique(Frame(data) + rest);
    TransferClient.TakeOneMore(data, rest);
    var all := TransferClient.TakeAll(rest);
    assert ([data] + all)[1..] == all;
  }

  lemma {:induction false} AppendHead(tcp: seq<byte>, chunk: seq<byte>)
    requires Whole(tcp) && 1 <= |chunk| <= MAX_FRAME
    ensures Payload(tcp + Head(|chunk|)) == Payload(tcp)
    decreases |tcp|
  {
    hide Head;
    if tcp == [] {
      TransferClient.HeadIsNoFrame(chunk);
      hide TakeFrame;
      assert tcp + Head(|chunk|) == Head(|chunk|);
    } else {
      FrameIsUnique(tcp);
      var (data, rest) := TakeFrame(tcp).value;
      hide TakeFrame, Frame;
      AppendHead(rest, chunk);
      Regroup(Frame(data), rest, Head(|chunk|));
      OneFrame(data, rest);
      OneFrame(data, rest + Head(|chunk|));
    }
  }

  /** The two sends of a frame. */
  lemma HeadSent(tcp: seq<byte>, chunk: seq<byte>)
    requires Clean(tcp) && |chunk| <= MAX_FRAME
    ensures chunk != [] ==> HeadWritten(tcp + Head(|chunk|), chunk)
    ensures Payload(tcp + Head(|chunk|)) == Payload(tcp) && tcp + Head(|chunk|) != []
    ensures chunk == [] && tcp == [] ==> tcp + Head(|chunk|) == Head(0)
  {
    hide Head, Payload, Whole, Frame;
    FrameParts(chunk);
    if chunk == [] {
      AppendFrame(tcp, chunk);
      assert Payload(tcp) + [] == Payload(tcp);
    } else {
      AppendHead(tcp, chunk);
    }
    assert (tcp + Head(|chunk|))[..|tcp|] == tcp;
  }

  lemma BodySent(tcp: seq<byte>, chunk: seq<byte>)
    requires HeadWritten(tcp, chunk)
    ensures Clean(tcp + chunk) && Payload(tcp + chunk) == Payload(tcp) + chunk && chunk != []
  {
    hide Payload, Whole, Head;
    var before := tcp[..|tcp| - 2];
    AppendFrame(before, chunk);
    Regroup(before, Head(|chunk|), chunk);
  }

  lemma EmptyFrame()
    ensures Payload([]) == [] && Whole([]) && Payload(Head(0)) == [] && Whole(Head(0)) && Head(0) != []
  {
    hide TakeFrame, Frame;
    TransferClient.HeadIsNoFrame([]);
    FrameParts([]);
    OneFrame([], []);
    assert Head(0) + [] == Head(0);
  }

  // ----- What every step keeps

  ghost predicate Common(input: seq<byte>, s: State) {
    RestOf(input, s.stdin) && Sized(s) && (s.killed ==> s.fault && s.server == Finished) && Payload(s.tcp) <= Taken(input, s.stdin)
  }

  /** Everything read has been forwarded, or everything but the chunk. */
  ghost predicate AllForwarded(input: seq<byte>, s: State) { Taken(input, s.stdin) == Payload(s.tcp) }

  ghost predicate ChunkMissing(input: seq<byte>, s: State) {
    Taken(input, s.stdin) == Payload(s.tcp) + s.chunk && Clean(s.tcp)
  }

  /** Client and server both at work. */
  ghost predicate BothAtWork(input: seq<byte>, s: State)
    requires |s.chunk| <= MAX_FRAME
  {
    match s.client
    case AwaitCode =>
      && Taken(input, s.stdin) == [] && s.toServer == [] && s.tcp == []
      && ((s.server == Starting && s.toClient == []) || (s.server == AwaitHead && s.toClient == [SUCCESS]))
    case Reading => s.server == AwaitHead && s.toServer == [] && s.toClient == [] && AllForwarded(input, s) && Clean(s.tcp)
    case SendingHead => s.server == AwaitHead && s.toServer == [] && s.toClient == [] && ChunkMissing(input, s)
    case SendingBody =>
      && s.toClient == [] && ChunkMissing(input, s)
      && ((s.server == AwaitHead && s.toServer == Head(|s.chunk|))
          || (s.server == AwaitBody(|s.chunk|) && s.toServer == []))
    case AwaitAck => OnItsWay(input, s)
    case _ => false
  }

  /** The stages of the frame that the client waits for. */
  ghost predicate OnItsWay(input: seq<byte>, s: State)
    requires |s.chunk| <= MAX_FRAME
  {
    match s.server
    case AwaitHead =>
      || (s.toServer == Frame(s.chunk) && s.toClient == [] && ChunkMissing(input, s))
      || (s.toServer == [] && s.toClient == [SUCCESS] && Answered(input, s))
    case AwaitBody(n) => n == |s.chunk| > 0 && s.toServer == s.chunk && s.toClient == [] && ChunkMissing(input, s)
    case Forwarding =>
      && s.buffer == s.chunk && s.toServer == [] && s.toClient == [] && ChunkMissing(input, s)
      && (s.chunk == [] ==> s.tcp == [])
    case ForwardingBody => s.buffer == s.chunk && s.toServer == [] && s.toClient == [] && HalfForwarded(input, s)
    case Replying => s.buffer == s.chunk && s.toServer == [] && s.toClient == [] && Answered(input, s)
    case Closing =>
      && s.toServer == [] && (s.chunk == [] ==> AllForwarded(input, s))
      && ((s.toClient == [] && s.chunk == [] && Clean(s.tcp) && s.tcp != []) || (s.toClient == [NETWORK_ERROR] && s.fault))
    case _ => false
  }

  ghost predicate HalfForwarded(input: seq<byte>, s: State) {
    Taken(input, s.stdin) == Payload(s.tcp) + s.chunk && HeadWritten(s.tcp, s.chunk)
  }

  ghost predicate Answered(input: seq<byte>, s: State) {
    AllForwarded(input, s) && if s.chunk == [] then s.tcp == Head(0) else Clean(s.tcp)
  }

  /** The client is gone: if it was satisfied, all has arrived; else what it left on the way is still its
      last frame, or part of it. */
  ghost predicate ServerAlone(input: seq<byte>, s: State)
    requires |s.chunk| <= MAX_FRAME
  {
    if s.client == Exited(SUCCESS) then
      Delivered(input, s.tcp) && ((s.server == AwaitHead && s.toServer == []) || s.server == Closing)
    else
      && s.fault
      && match s.server
         case Starting => s.toServer == []
         case AwaitHead =>
           s.toServer == [] || ((s.toServer == Head(|s.chunk|) || s.toServer == Frame(s.chunk)) && ChunkMissing(input, s))
         case AwaitBody(n) => n == |s.chunk| > 0 && (s.toServer == [] || s.toServer == s.chunk) && ChunkMissing(input, s)
         case Forwarding => s.buffer == s.chunk && s.toServer == [] && ChunkMissing(input, s)
         case ForwardingBody => s.buffer == s.chunk && s.toServer == [] && HalfForwarded(input, s)
         case Replying => s.toServer == []
         case Closing => true
         case Finished => false
  }

  /** The server is gone. */
  ghost predicate ClientAlone(silent: bool, input: seq<byte>, s: State) {
    var lost := silent && s.killed;
    match s.client
    case AwaitCode => (s.toClient == [] || s.toClient == [SUCCESS] ==> s.killed) && |s.toClient| <= 1 && s.fault
    case Reading => s.toClient == [] && s.killed
    case SendingHead => s.toClient == [] && s.killed
    case SendingBody => s.toClient == [] && s.killed
    case AwaitAck =>
      && (s.toClient == [] || s.toClient == [SUCCESS] || s.toClient[0] == NETWORK_ERROR)
      && (s.toClient == [] ==> s.killed)
      && (s.chunk == [] ==> Payload(s.tcp) == input || lost)
      && (s.chunk != [] && s.toClient == [SUCCESS] ==> s.killed)
      && (s.fault || (s.toClient == [SUCCESS] && Delivered(input, s.tcp)))
    case Exited(code) =>
      if code == SUCCESS then (Payload(s.tcp) == input || lost) && (s.fault || Delivered(input, s.tcp)) else s.fault
    case Killed => s.fault
  }

  ghost predicate Inv(silent: bool, input: seq<byte>, s: State) {
    && Common(input, s)
    && if s.server == Finished then ClientAlone(silent, input, s)
       else if s.client.Gone() then ServerAlone(input, s)
       else BothAtWork(input, s)
  }

  lemma StartInv(silent: bool, input: seq<byte>)
    ensures Inv(silent, input, Start(input))
  {
    hide Payload, Whole;
    EmptyFrame();
  }

  // ----- The client's steps

  lemma GetCodeKeeps(silent: bool, input: seq<byte>, s: State, s': State)
    requires Inv(silent, input, s) && GetCode(s, s')
    ensures Inv(silent, input, s')
  {
    hide Taken, RestOf, Head, Frame, Payload, Whole;
    EmptyFrame();
  }

  lemma GetAckKeeps(silent: bool, input: seq<byte>, s: State, s': State)
    requires Inv(silent, input, s) && GetAck(s, s')
    ensures Inv(silent, input, s')
  {
    hide Taken, RestOf, Head, Frame, Payload, Whole, HalfForwarded;
    EmptyFrame();
    NothingMissing(input, s);
  }

  lemma GetEndKeeps(silent: bool, input: seq<byte>, s: State, s': State)
    requires Inv(silent, input, s) && GetEnd(s, s')
    ensures Inv(silent, input, s')
  {
    hide Taken, RestOf, BothAtWork, ServerAlone, Payload, Delivered;
  }

  lemma ReadKeeps(silent: bool, input: seq<byte>, s: State, s': State)
    requires Inv(silent, input, s) && Read(s, s')
    ensures Inv(silent, input, s')
  {
    hide Taken, RestOf, Head, Frame, Payload, Whole, OnItsWay, ServerAlone, Delivered;
    TakenAfterRead(input, s, s');
  }

  lemma SendHeadKeeps(silent: bool, input: seq<byte>, s: State, s': State)
    requires Inv(silent, input, s) && SendHead(s, s')
    ensures Inv(silent, input, s')
  {
    hide Taken, RestOf, Head, Frame, Payload, Clean, BothAtWork, ServerAlone, ClientAlone;
    AtSendingHead(silent, input, s);
    HeadIsOnItsWay(input, s');
    assert [] + Head(|s.chunk|) == Head(|s.chunk|);
  }

  lemma AtSendingHead(silent: bool, input: seq<byte>, s: State)
    requires Inv(silent, input, s) && s.client == SendingHead && s.server != Finished
    ensures s.server == AwaitHead && s.toServer == [] && s.toClient == [] && ChunkMissing(input, s)
  {
    hide Taken, RestOf, Head, Frame, ChunkMissing;
  }

  lemma HeadIsOnItsWay(input: seq<byte>, s: State)
    requires |s.chunk| <= MAX_FRAME && s.client == AfterHead(s) && s.toServer == Head(|s.chunk|)
    requires s.server == AwaitHead && s.toClient == [] && ChunkMissing(input, s)
    ensures BothAtWork(input, s)
  {
    hide Taken, Head, Frame, ChunkMissing;
    FrameParts(s.chunk);
  }

  lemma AtSendingBody(silent: bool, input: seq<byte>, s: State)
    requires Inv(silent, input, s) && s.client == SendingBody && s.server != Finished
    ensures s.toClient == [] && ChunkMissing(input, s) && s.chunk != []
    ensures (s.server == AwaitHead && s.toServer + s.chunk == Frame(s.chunk))
         || (s.server == AwaitBody(|s.chunk|) && s.toServer + s.chunk == s.chunk)
  {
    hide Taken, RestOf, Head, Frame, ChunkMissing;
    FrameParts(s.chunk);
    assert [] + s.chunk == s.chunk;
  }

  lemma SendBodyKeeps(silent: bool, input: seq<byte>, s: State, s': State)
    requires Inv(silent, input, s) && SendBody(s, s')
    ensures Inv(silent, input, s')
  {
    hide Taken, RestOf, Head, Frame, Payload, Clean, ServerAlone, ClientAlone;
    AtSendingBody(silent, input, s);
  }

  lemma NobodyKeeps(silent: bool, input: seq<byte>, s: State, s': State)
    requires Inv(silent, input, s) && SendToNobody(silent, s, s')
    ensures Inv(silent, input, s')
  {
    hide Taken, RestOf, BothAtWork, ServerAlone, Payload, Delivered;
  }

  // ----- The server's steps

  lemma AcceptKeeps(silent: bool, input: seq<byte>, s: State, s': State)
    requires Inv(silent, input, s) && Accept(s, s')
    ensures Inv(silent, input, s')
  {
    hide Taken, RestOf, Head, Frame, Payload, Clean, ClientAlone, Delivered;
    assert [] + [SUCCESS] == [SUCCESS];
  }

  lemma RecvHeadKeeps(silent: bool, input: seq<byte>, s: State, s': State)
    requires Inv(silent, input, s) && RecvHead(NmsSend, s, s')
    ensures Inv(silent, input, s')
  {
    hide Taken, RestOf, Payload, BothAtWork, ServerAlone, ClientAlone;
    if s.client.Gone() {
      RecvHeadAlone(input, s, s');
    } else {
      RecvHeadAtWork(input, s, s');
    }
  }

  lemma RecvHeadAlone(input: seq<byte>, s: State, s': State)
    requires s.client.Gone() && RecvHead(NmsSend, s, s') && |s.chunk| <= MAX_FRAME && ServerAlone(input, s)
    ensures ServerAlone(input, s') && s'.server != Finished
  {
    hide Head, Frame, Taken, Payload, Clean, Delivered, HalfForwarded;
    FrameParts(s.chunk);
  }

  lemma RecvHeadAtWork(input: seq<byte>, s: State, s': State)
    requires !s.client.Gone() && RecvHead(NmsSend, s, s') && Sized(s) && BothAtWork(input, s)
    ensures BothAtWork(input, s') && s'.server != Finished
  {
    hide BothAtWork, ChunkMissing, Sized;
    AtFrame(input, s);
    FrameBegun(input, s, s');
  }

  lemma FrameBegun(input: seq<byte>, s: State, s': State)
    requires s.server == AwaitHead && RecvHead(NmsSend, s, s') && |s.chunk| <= MAX_FRAME
    requires s.toClient == [] && ChunkMissing(input, s) && s.toServer[0] as nat + s.toServer[1] as nat * 256 == |s.chunk|
    requires (s.client == SendingBody && s.chunk != [] && s.toServer[2..] == [])
          || (s.client == AwaitAck && s.toServer[2..] == s.chunk)
    ensures BothAtWork(input, s') && s'.server != Finished
  {
    hide Head, Frame, Taken, Payload, Clean, HalfForwarded, Answered;
    assert s.chunk == [] ==> Payload(s.tcp) + s.chunk == Payload(s.tcp);
  }

  /** A frame has come, or its head. */
  lemma AtFrame(input: seq<byte>, s: State)
    requires !s.client.Gone() && s.server == AwaitHead && |s.toServer| >= 2 && Sized(s) && BothAtWork(input, s)
    ensures s.toClient == [] && ChunkMissing(input, s) && s.toServer[0] as nat + s.toServer[1] as nat * 256 == |s.chunk|
    ensures (s.client == SendingBody && s.chunk != [] && s.toServer[2..] == [])
         || (s.client == AwaitAck && s.toServer[2..] == s.chunk)
  {
    hide Head, Frame, Taken, ChunkMissing, HalfForwarded, Answered;
    FrameParts(s.chunk);
  }

  lemma RecvBodyKeeps(silent: bool, input: seq<byte>, s: State, s': State)
    requires Inv(silent, input, s) && RecvBody(s, s')
    ensures Inv(silent, input, s')
  {
    hide Taken, RestOf, Head, Frame, Payload, Clean, ClientAlone, Delivered;
    assert s.toServer == s.chunk ==> s.toServer[..|s.chunk|] == s.chunk && s.toServer[|s.chunk|..] == [];
  }

  lemma HangUpKeeps(silent: bool, input: seq<byte>, s: State, s': State)
    requires Inv(silent, input, s) && HangUp(NmsSend, s, s')
    ensures Inv(silent, input, s')
  {
    hide Taken, RestOf, Head, Frame, Payload, Whole, BothAtWork;
  }

  lemma AtForwarding(silent: bool, input: seq<byte>, s: State)
    requires Inv(silent, input, s) && s.server == Forwarding
    ensures s.buffer == s.chunk && s.toServer == [] && ChunkMissing(input, s)
    ensures if s.client.Gone() then s.fault && s.client != Exited(SUCCESS)
            else s.client == AwaitAck && s.toClient == [] && (s.chunk == [] ==> s.tcp == [])
  {
    hide Taken, RestOf, Head, Frame, ChunkMissing;
  }

  lemma AtForwardingBody(silent: bool, input: seq<byte>, s: State)
    requires Inv(silent, input, s) && s.server == ForwardingBody
    ensures s.buffer == s.chunk && s.toServer == [] && HalfForwarded(input, s)
    ensures if s.client.Gone() then s.fault && s.client != Exited(SUCCESS) else s.client == AwaitAck && s.toClient == []
  {
    hide Taken, RestOf, Head, Frame, HalfForwarded;
  }

  lemma ForwardKeeps(silent: bool, input: seq<byte>, s: State, s': State)
    requires Inv(silent, input, s) && Forward(NmsSend, s, s')
    ensures Inv(silent, input, s')
  {
    hide Taken, RestOf, Payload, Head, BothAtWork, ServerAlone, ClientAlone, ChunkMissing, HalfForwarded, Answered;
    AtForwarding(silent, input, s);
    HeadForwarded(input, s, s');
    HeadForwardedTo(input, s, s');
  }

  lemma HeadForwardedTo(input: seq<byte>, s: State, s': State)
    requires s.server == Forwarding && Forward(NmsSend, s, s') && s.buffer == s.chunk && s.toServer == []
    requires |s.chunk| <= MAX_FRAME && (s.chunk != [] ==> HalfForwarded(input, s'))
    ensures s.client.Gone() && s.fault && s.client != Exited(SUCCESS) ==> ServerAlone(input, s')
    ensures s.client == AwaitAck && s.toClient == [] && (s.chunk == [] ==> Answered(input, s')) ==> BothAtWork(input, s')
    ensures s'.server != Finished
  {
    hide Head, HalfForwarded, Answered;
  }

  lemma HeadForwarded(input: seq<byte>, s: State, s': State)
    requires s.server == Forwarding && Forward(NmsSend, s, s') && s.buffer == s.chunk && ChunkMissing(input, s)
    ensures Payload(s'.tcp) == Payload(s.tcp) && (s.chunk != [] ==> HalfForwarded(input, s'))
    ensures s.chunk == [] && s.tcp == [] ==> Answered(input, s')
  {
    hide Taken, Head, Payload, Clean, HeadWritten;
    HeadSent(s.tcp, s.chunk);
    assert s.chunk == [] ==> Payload(s.tcp) + s.chunk == Payload(s.tcp);
  }

  lemma ForwardBodyKeeps(silent: bool, input: seq<byte>, s: State, s': State)
    requires Inv(silent, input, s) && ForwardBody(s, s')
    ensures Inv(silent, input, s')
  {
    hide Taken, RestOf, Head, Frame, Payload, Clean, ClientAlone, Delivered, HeadWritten;
    AtForwardingBody(silent, input, s);
    BodySent(s.tcp, s.chunk);
  }

  lemma AtReplying(silent: bool, input: seq<byte>, s: State)
    requires Inv(silent, input, s) && s.server == Replying
    ensures s.toServer == []
    ensures if s.client.Gone() then s.fault && s.client != Exited(SUCCESS)
            else s.client == AwaitAck && s.toClient == [] && Answered(input, s)
  {
    hide Taken, RestOf, Head, Frame, Answered;
  }

  lemma ReplyKeeps(silent: bool, input: seq<byte>, s: State, s': State)
    requires Inv(silent, input, s) && Reply(NmsSend, s, s')
    ensures Inv(silent, input, s')
  {
    hide Taken, RestOf, Head, Frame, Payload, Clean, ClientAlone, Delivered;
    AtReplying(silent, input, s);
    assert [] + [SUCCESS] == [SUCCESS];
  }

  lemma AtClosing(silent: bool, input: seq<byte>, s: State)
    requires Inv(silent, input, s) && s.server == Closing
    ensures if s.client == Exited(SUCCESS) then Delivered(input, s.tcp)
            else if s.client.Gone() then s.fault
            else && s.client == AwaitAck && (s.chunk == [] ==> AllForwarded(input, s))
                 && ((s.toClient == [] && s.chunk == [] && Clean(s.tcp) && s.tcp != []) || (s.toClient == [NETWORK_ERROR] && s.fault))
  {
    hide Taken, RestOf, Head, Frame, AllForwarded, Clean, Delivered;
  }

  lemma CloseKeeps(silent: bool, input: seq<byte>, s: State, s': State)
    requires Inv(silent, input, s) && Close(s, s')
    ensures Inv(silent, input, s')
  {
    hide Taken, RestOf, Head, Frame, Payload, Whole, BothAtWork, ServerAlone;
    AtClosing(silent, input, s);
    NothingMissing(input, s);
    assert [] + [SUCCESS] == [SUCCESS];
  }

  // ----- Failures

  lemma ClientLeaves(silent: bool, input: seq<byte>, s: State, s': State)
    requires Inv(silent, input, s) && ClientFails(s, s') && s.server != Finished
    ensures Inv(silent, input, s')
  {
    hide Taken, RestOf, Head, Frame, Payload, Clean, ClientAlone, Delivered;
  }

  lemma LastOneLeaves(silent: bool, input: seq<byte>, s: State, s': State)
    requires Inv(silent, input, s) && ClientFails(s, s') && s.server == Finished
    ensures Inv(silent, input, s')
  {
    hide Taken, RestOf, BothAtWork, ServerAlone, Payload, Delivered;
  }

  lemma AtStarting(silent: bool, input: seq<byte>, s: State)
    requires Inv(silent, input, s) && s.server == Starting
    ensures if s.client.Gone() then s.fault && s.client != Exited(SUCCESS) else s.client == AwaitCode && s.toClient == []
  {
    hide Taken, RestOf, Head, Frame, Payload, Clean, Delivered;
  }

  lemma RefuseKeeps(silent: bool, input: seq<byte>, s: State, s': State)
    requires Inv(silent, input, s) && Refuse(s, s')
    ensures Inv(silent, input, s')
  {
    hide Taken, RestOf, BothAtWork, ServerAlone, Payload, Delivered;
    AtStarting(silent, input, s);
    assert s'.toClient[0] != SUCCESS || s.client.Gone();
  }

  lemma TcpFailureKeeps(silent: bool, input: seq<byte>, s: State, s': State)
    requires Inv(silent, input, s) && TcpFails(NmsSend, s, s')
    ensures Inv(silent, input, s')
  {
    hide Taken, RestOf, Head, Frame, Payload, Clean, ClientAlone, Delivered;
    if s.server == Forwarding { AtForwarding(silent, input, s); } else { AtForwardingBody(silent, input, s); }
    NothingMissing(input, s);
    assert [] + [NETWORK_ERROR] == [NETWORK_ERROR];
  }

  /** What matters when the server is stopped. */
  lemma AtWork(silent: bool, input: seq<byte>, s: State)
    requires Inv(silent, input, s) && s.server != Finished
    ensures s.client == Exited(SUCCESS) ==> Delivered(input, s.tcp)
    ensures !s.client.Gone() ==>
              && |s.toClient| <= 1 && (s.client in {Reading, SendingHead, SendingBody} ==> s.toClient == [])
              && (s.client == AwaitAck ==> s.toClient == [] || s.toClient == [SUCCESS] || s.toClient == [NETWORK_ERROR])
    ensures s.client == AwaitAck && s.chunk == [] ==> AllForwarded(input, s) || Taken(input, s.stdin) == Payload(s.tcp) + s.chunk
  {
    hide Taken, RestOf, Head, Frame, Payload, Clean, Delivered;
  }

  lemma KillKeeps(silent: bool, input: seq<byte>, s: State, s': State)
    requires Inv(silent, input, s) && ServerKilled(s, s')
    ensures Inv(silent, input, s')
  {
    hide Taken, RestOf, BothAtWork, ServerAlone, Payload, Whole;
    AtWork(silent, input, s);
    NothingMissing(input, s);
  }

  lemma NothingMissing(input: seq<byte>, s: State)
    ensures s.chunk == [] ==> Payload(s.tcp) + s.chunk == Payload(s.tcp)
    ensures s.stdin == [] ==> Taken(input, s.stdin) == input
  {
    hide Payload;
  }

  lemma StepKeepsInv(silent: bool, input: seq<byte>, s: State, s': State)
    requires Inv(silent, input, s) && Step(NmsSend, silent, s, s')
    ensures Inv(silent, input, s')
  {
    hide Inv, GetCode, GetAck, GetEnd, Read, SendHead, SendBody, SendToNobody, Accept, RecvHead, RecvBody, HangUp, Forward,
         ForwardBody, Reply, Close, ClientFails, Refuse, TcpFails, ServerKilled;
    if GetCode(s, s') { GetCodeKeeps(silent, input, s, s'); }
    else if GetAck(s, s') { GetAckKeeps(silent, input, s, s'); }
    else if GetEnd(s, s') { GetEndKeeps(silent, input, s, s'); }
    else if Read(s, s') { ReadKeeps(silent, input, s, s'); }
    else if SendHead(s, s') { SendHeadKeeps(silent, input, s, s'); }
    else if SendBody(s, s') { SendBodyKeeps(silent, input, s, s'); }
    else if SendToNobody(silent, s, s') { NobodyKeeps(silent, input, s, s'); }
    else if Accept(s, s') { AcceptKeeps(silent, input, s, s'); }
    else if RecvHead(NmsSend, s, s') { RecvHeadKeeps(silent, input, s, s'); }
    else if RecvBody(s, s') { RecvBodyKeeps(silent, input, s, s'); }
    else if HangUp(NmsSend, s, s') { HangUpKeeps(silent, input, s, s'); }
    else if Forward(NmsSend, s, s') { ForwardKeeps(silent, input, s, s'); }
    else if ForwardBody(s, s') { ForwardBodyKeeps(silent, input, s, s'); }
    else if Reply(NmsSend, s, s') { ReplyKeeps(silent, input, s, s'); }
    else if Close(s, s') { CloseKeeps(silent, input, s, s'); }
    else if ClientFails(s, s') {
      if s.server == Finished { LastOneLeaves(silent, input, s, s'); } else { ClientLeaves(silent, input, s, s'); }
    }
    else if Refuse(s, s') { RefuseKeeps(silent, input, s, s'); }
    else if TcpFails(NmsSend, s, s') { TcpFailureKeeps(silent, input, s, s'); }
    else { KillKeeps(silent, input, s, s'); }
  }

  lemma {:induction false} RunKeepsInv(silent: bool, input: seq<byte>, run: seq<State>, i: nat)
    requires Run(NmsSend, silent, input, run) && i < |run|
    ensures Inv(silent, input, run[i])
  {
    hide Inv, Step;
    if i == 0 {
      StartInv(silent, input);
    } else {
      RunKeepsInv(silent, input, run, i - 1);
      StepKeepsInv(silent, input, run[i - 1], run[i]);
    }
  }

  // ----- What holds in every run

  /** What the receiver at the other end of the TCP socket takes, frame by frame, is a prefix of what the
      client read. */
  lemma ForwardsPrefix(silent: bool, input: seq<byte>, run: seq<State>, i: nat)
    requires Run(NmsSend, silent, input, run) && i < |run|
    ensures Payload(run[i].tcp) <= Taken(input, run[i].stdin) <= input
    ensures Taken(input, run[i].stdin) + run[i].stdin == input
  {
    hide Run, Payload, BothAtWork, ServerAlone, ClientAlone;
    RunKeepsInv(silent, input, run, i);
  }

  /** If the client exits with SUCCESS, the receiver has all of the input, unless the server was stopped and
      the connection then swallowed a send without an error. */
  lemma SuccessMeansAll(silent: bool, input: seq<byte>, run: seq<State>, i: nat)
    requires Run(NmsSend, silent, input, run) && i < |run|
    requires run[i].client == Exited(SUCCESS)
    ensures Payload(run[i].tcp) == input || (silent && run[i].killed)
  {
    hide Run, Head, Frame, Payload, Whole;
    RunKeepsInv(silent, input, run, i);
  }

  /** For this input the exit code can be relied on: whenever it is SUCCESS, the transfer is whole. */
  ghost predicate Reliable(silent: bool, input: seq<byte>) {
    forall run: seq<State>, i: nat ::
      Run(NmsSend, silent, input, run) && i < |run| && run[i].client == Exited(SUCCESS) ==> Payload(run[i].tcp) == input
  }

  /** The exit code can be relied on under the same condition as that of send. */
  lemma ReliableIff(silent: bool, input: seq<byte>)
    ensures Reliable(silent, input) <==> !silent || input == []
  {
    hide Payload, Step;
    if silent && input != [] {
      var run := LostInput(NmsSend, input);
      EmptyFrame();
      assert Run(NmsSend, silent, input, run) && run[|run| - 1].client == Exited(SUCCESS);
    } else {
      forall run: seq<State>, i: nat | Run(NmsSend, silent, input, run) && i < |run| && run[i].client == Exited(SUCCESS)
        ensures Payload(run[i].tcp) == input
      {
        SuccessMeansAll(silent, input, run, i);
        ForwardsPrefix(silent, input, run, i);
      }
    }
  }

  /** Without failures from outside, the client can only end with SUCCESS, and all of the input has then
      arrived in whole frames, an empty input as one empty frame. */
  lemma NoFaultMeansSuccess(silent: bool, input: seq<byte>, run: seq<State>, i: nat)
    requires Run(NmsSend, silent, input, run) && i < |run|
    requires !run[i].fault && run[i].client.Gone()
    ensures run[i].client == Exited(SUCCESS) && Delivered(input, run[i].tcp)
  {
    hide Run, Head, Frame, Payload, Delivered;
    RunKeepsInv(silent, input, run, i);
  }

  /** Until both sides have finished, one of them can move without any failure. */
  lemma NeverStuck(silent: bool, input: seq<byte>, run: seq<State>, i: nat) returns (next: State)
    requires Run(NmsSend, silent, input, run) && i < |run| && !Over(run[i])
    ensures ClientStep(silent, run[i], next) || ServerStep(NmsSend, run[i], next)
  {
    hide Run, ClientStep, ServerStep;
    var s := run[i];
    RunKeepsInv(silent, input, run, i);
    AtServer(silent, input, s);
    hide Inv;
    if !s.client.Gone() && (s.server == Finished || s.toClient != [] || s.client in {Reading, SendingHead, SendingBody}) {
      next := ClientMoves(silent, s);
    } else {
      next := ServerMoves(NmsSend, s);
    }
  }

  lemma AtServer(silent: bool, input: seq<byte>, s: State)
    requires Inv(silent, input, s)
    ensures |s.chunk| <= MAX_FRAME && (s.server == Forwarding ==> |s.buffer| <= MAX_FRAME)
    ensures s.client in {AwaitCode, AwaitAck} && s.toClient == [] && s.server != Finished ==>
              && (s.server == AwaitHead ==> |s.toServer| >= 2)
              && (s.server.AwaitBody? ==> |s.toServer| >= s.server.n)
  {
    hide Head, Frame, Taken, RestOf, Payload, Delivered, ChunkMissing, HalfForwarded, Answered, AllForwarded, ServerAlone;
    FrameParts(s.chunk);
    if s.server == Forwarding { AtForwarding(silent, input, s); }
  }
}
