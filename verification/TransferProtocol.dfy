/** server_cmd_send as a protocol: with every interleaving of the two processes' sends and receives, and with
    failures of either side at any moment, the TCP socket only ever receives what the client has read. */
module TransferProtocol {
  import opened Bits
  import opened Nms
  import opened Transfer
  import opened TransferSteps

  // ----- What every step keeps

  ghost predicate Common(input: seq<byte>, s: State) {
    && RestOf(input, s.stdin)
    && |s.chunk| <= MAX_FRAME && (s.killed ==> s.fault && s.server == Finished)
    && s.tcp <= Taken(input, s.stdin)
    && (s.client in {SendingHead, SendingBody, AwaitAck} && s.chunk == [] ==> s.stdin == [])
    && (s.client == SendingBody ==> s.chunk != [])
  }

  /** Client and server both at work: everything read has been forwarded, except for the one chunk
      whose frame is on its way. */
  ghost predicate BothAtWork(input: seq<byte>, s: State)
    requires |s.chunk| <= MAX_FRAME
  {
    var taken := Taken(input, s.stdin);
    match s.client
    case AwaitCode =>
      && taken == [] && s.toServer == []
      && ((s.server == Starting && s.toClient == []) || (s.server == AwaitHead && s.toClient == [SUCCESS]))
    case Reading => s.server == AwaitHead && s.toServer == [] && s.toClient == [] && taken == s.tcp
    case SendingHead => s.server == AwaitHead && s.toServer == [] && s.toClient == [] && taken == s.tcp + s.chunk
    case SendingBody =>
      && s.toClient == [] && taken == s.tcp + s.chunk
      && ((s.server == AwaitHead && s.toServer == Head(|s.chunk|))
          || (s.server == AwaitBody(|s.chunk|) && s.toServer == []))
    case AwaitAck => OnItsWay(taken, s)
    case _ => false
  }

  /** The stages of the frame that the client waits for. */
  ghost predicate OnItsWay(taken: seq<byte>, s: State)
    requires |s.chunk| <= MAX_FRAME
  {
    match s.server
    case AwaitHead =>
      || (s.toServer == Frame(s.chunk) && s.toClient == [] && taken == s.tcp + s.chunk)
      || (s.toServer == [] && s.toClient == [SUCCESS] && taken == s.tcp && s.chunk != [])
    case AwaitBody(n) => n == |s.chunk| > 0 && s.toServer == s.chunk && s.toClient == [] && taken == s.tcp + s.chunk
    case Forwarding => s.buffer == s.chunk && s.toServer == [] && s.toClient == [] && taken == s.tcp + s.chunk
    case Replying => s.buffer == s.chunk && s.toServer == [] && s.toClient == [] && taken == s.tcp
    case _ => false
  }

  /** The client is gone: what it left on the way is still its last frame, or part of it. */
  ghost predicate ServerAlone(input: seq<byte>, s: State)
    requires |s.chunk| <= MAX_FRAME
  {
    var taken := Taken(input, s.stdin);
    && s.fault && s.client != Exited(SUCCESS)
    && match s.server
       case Starting => s.toServer == []
       case AwaitHead => s.toServer == [] || ((s.toServer == Head(|s.chunk|) || s.toServer == Frame(s.chunk)) && taken == s.tcp + s.chunk)
       case AwaitBody(n) => n == |s.chunk| > 0 && (s.toServer == [] || s.toServer == s.chunk) && taken == s.tcp + s.chunk
       case Forwarding => s.buffer == s.chunk && s.toServer == [] && taken == s.tcp + s.chunk
       case Replying => s.toServer == []
       case _ => false
  }

  /** The server is gone. */
  ghost predicate ClientAlone(silent: bool, input: seq<byte>, s: State) {
    var lost := silent && s.killed;
    match s.client
    case AwaitCode => (s.toClient == [] || s.toClient == [SUCCESS] ==> s.killed) && |s.toClient| <= 1 && s.fault
    case Reading => s.toClient == [] && s.killed
    case SendingHead => s.toClient == [] && s.killed
    case SendingBody => s.toClient == [] && s.killed
    case AwaitAck =>
      && |s.toClient| <= 1 && (s.toClient == [] ==> s.killed)
      && (s.chunk == [] ==> s.tcp == input || lost)
      && (s.chunk != [] && s.toClient == [SUCCESS] ==> s.killed)
      && (s.fault || s.toClient == [SUCCESS])
    case Exited(code) => if code == SUCCESS then s.tcp == input || lost else s.fault
    case Killed => s.fault
  }

  ghost predicate Inv(silent: bool, input: seq<byte>, s: State) {
    && Common(input, s)
    && if s.server == Finished then ClientAlone(silent, input, s)
       else if s.client.Gone() then ServerAlone(input, s)
       else BothAtWork(input, s)
  }

  lemma StartInv(silent: bool, input: seq<byte>)
    ensures Inv(silent, input, Start(input))
  {
  }

  lemma GetCodeKeeps(silent: bool, input: seq<byte>, s: State, s': State)
    requires Inv(silent, input, s) && GetCode(s, s')
    ensures Inv(silent, input, s')
  {
    hide Taken, RestOf, Head, Frame, ServerAlone;
  }

  lemma GetAckKeeps(silent: bool, input: seq<byte>, s: State, s': State)
    requires Inv(silent, input, s) && GetAck(s, s')
    ensures Inv(silent, input, s')
  {
    hide Taken, RestOf, Head, Frame, ServerAlone;
  }

  lemma GetEndKeeps(silent: bool, input: seq<byte>, s: State, s': State)
    requires Inv(silent, input, s) && GetEnd(s, s')
    ensures Inv(silent, input, s')
  {
    hide Taken, RestOf, BothAtWork, ServerAlone;
    NothingMissing(input, s);
  }

  lemma ReadKeeps(silent: bool, input: seq<byte>, s: State, s': State)
    requires Inv(silent, input, s) && Read(s, s')
    ensures Inv(silent, input, s')
  {
    hide Taken, RestOf, Head, Frame, ServerAlone, OnItsWay;
    TakenAfterRead(input, s, s');
  }

  lemma SendHeadKeeps(silent: bool, input: seq<byte>, s: State, s': State)
    requires Inv(silent, input, s) && SendHead(s, s')
    ensures Inv(silent, input, s')
  {
    hide Taken, RestOf, Head, Frame, BothAtWork, ServerAlone, ClientAlone;
    AtSendingHead(silent, input, s);
    HeadIsOnItsWay(input, s');
    assert [] + Head(|s.chunk|) == Head(|s.chunk|);
  }

  lemma AtSendingHead(silent: bool, input: seq<byte>, s: State)
    requires Inv(silent, input, s) && s.client == SendingHead && s.server != Finished
    ensures s.server == AwaitHead && s.toServer == [] && s.toClient == [] && Taken(input, s.stdin) == s.tcp + s.chunk
  {
    hide Taken, RestOf, Head, Frame;
  }

  lemma HeadIsOnItsWay(input: seq<byte>, s: State)
    requires |s.chunk| <= MAX_FRAME && s.client == AfterHead(s) && s.toServer == Head(|s.chunk|)
    requires s.server == AwaitHead && s.toClient == [] && Taken(input, s.stdin) == s.tcp + s.chunk
    ensures BothAtWork(input, s)
  {
    hide Taken, Head, Frame;
    FrameParts(s.chunk);
  }

  lemma AtSendingBody(silent: bool, input: seq<byte>, s: State)
    requires Inv(silent, input, s) && s.client == SendingBody && s.server != Finished
    ensures s.toClient == [] && Taken(input, s.stdin) == s.tcp + s.chunk && s.chunk != []
    ensures (s.server == AwaitHead && s.toServer + s.chunk == Frame(s.chunk))
         || (s.server == AwaitBody(|s.chunk|) && s.toServer + s.chunk == s.chunk)
  {
    hide Taken, RestOf, Head, Frame;
    FrameParts(s.chunk);
    assert [] + s.chunk == s.chunk;
  }

  lemma BodyIsOnItsWay(input: seq<byte>, s: State)
    requires |s.chunk| <= MAX_FRAME && s.client == AwaitAck && s.toClient == [] && s.chunk != []
    requires Taken(input, s.stdin) == s.tcp + s.chunk
    requires (s.server == AwaitHead && s.toServer == Frame(s.chunk))
          || (s.server == AwaitBody(|s.chunk|) && s.toServer == s.chunk)
    ensures BothAtWork(input, s)
  {
    hide Taken, RestOf, Head, Frame;
  }

  lemma SendBodyKeeps(silent: bool, input: seq<byte>, s: State, s': State)
    requires Inv(silent, input, s) && SendBody(s, s')
    ensures Inv(silent, input, s')
  {
    hide Taken, RestOf, Head, Frame, BothAtWork, ServerAlone, ClientAlone;
    AtSendingBody(silent, input, s);
    BodyIsOnItsWay(input, s');
    assert [] + s.chunk == s.chunk;
  }

  lemma NobodyKeeps(silent: bool, input: seq<byte>, s: State, s': State)
    requires Inv(silent, input, s) && SendToNobody(silent, s, s')
    ensures Inv(silent, input, s')
  {
    hide Taken, RestOf, BothAtWork, ServerAlone;
  }

  lemma AtStarting(silent: bool, input: seq<byte>, s: State)
    requires Inv(silent, input, s) && s.server == Starting
    ensures s.toServer == []
    ensures if s.client.Gone() then s.fault && s.client != Exited(SUCCESS)
            else s.client == AwaitCode && s.toClient == [] && Taken(input, s.stdin) == []
  {
    hide Taken, RestOf, Head, Frame;
  }

  lemma AcceptKeeps(silent: bool, input: seq<byte>, s: State, s': State)
    requires Inv(silent, input, s) && Accept(s, s')
    ensures Inv(silent, input, s')
  {
    hide Taken, RestOf, Head, Frame, ClientAlone, OnItsWay;
    AtStarting(silent, input, s);
    assert [] + [SUCCESS] == [SUCCESS];
  }

  lemma RecvHeadKeeps(silent: bool, input: seq<byte>, s: State, s': State)
    requires Inv(silent, input, s) && RecvHead(Send, s, s')
    ensures Inv(silent, input, s')
  {
    hide Taken, RestOf, Head, Frame, ClientAlone;
    FrameParts(s.chunk);
  }

  lemma RecvBodyKeeps(silent: bool, input: seq<byte>, s: State, s': State)
    requires Inv(silent, input, s) && RecvBody(s, s')
    ensures Inv(silent, input, s')
  {
    hide Taken, RestOf, Head, Frame, ClientAlone;
    assert s.toServer == s.chunk ==> s.toServer[..|s.chunk|] == s.chunk && s.toServer[|s.chunk|..] == [];
  }

  lemma HangUpKeeps(silent: bool, input: seq<byte>, s: State, s': State)
    requires Inv(silent, input, s) && HangUp(Send, s, s')
    ensures Inv(silent, input, s')
  {
    hide Taken, RestOf, Head, Frame, BothAtWork;
  }

  /** What the server has in its buffer is the client's chunk. */
  lemma AtForwarding(silent: bool, input: seq<byte>, s: State)
    requires Inv(silent, input, s) && s.server == Forwarding
    ensures s.buffer == s.chunk && s.toServer == [] && Taken(input, s.stdin) == s.tcp + s.chunk
    ensures if s.client.Gone() then s.fault && s.client != Exited(SUCCESS) else s.client == AwaitAck && s.toClient == []
  {
    hide Taken, RestOf, Head, Frame;
  }

  lemma ForwardKeeps(silent: bool, input: seq<byte>, s: State, s': State)
    requires Inv(silent, input, s) && Forward(Send, s, s')
    ensures Inv(silent, input, s')
  {
    hide Taken, RestOf, Head, Frame, ClientAlone;
    AtForwarding(silent, input, s);
  }

  lemma AtReplying(silent: bool, input: seq<byte>, s: State)
    requires Inv(silent, input, s) && s.server == Replying
    ensures s.toServer == []
    ensures if s.client.Gone() then s.fault && s.client != Exited(SUCCESS)
            else s.client == AwaitAck && s.toClient == [] && s.buffer == s.chunk && Taken(input, s.stdin) == s.tcp
  {
    hide Taken, RestOf, Head, Frame;
  }

  lemma ReplyKeeps(silent: bool, input: seq<byte>, s: State, s': State)
    requires Inv(silent, input, s) && Reply(Send, s, s')
    ensures Inv(silent, input, s')
  {
    hide Taken, RestOf, Head, Frame;
    AtReplying(silent, input, s);
    NothingMissing(input, s);
    assert [] + [SUCCESS] == [SUCCESS];
  }

  /** Whatever the client leaves behind when it goes. */
  lemma ClientLeaves(silent: bool, input: seq<byte>, s: State, s': State)
    requires Inv(silent, input, s) && ClientFails(s, s') && s.server != Finished
    ensures Inv(silent, input, s')
  {
    hide Taken, RestOf, Head, Frame, ClientAlone;
  }

  lemma LastOneLeaves(silent: bool, input: seq<byte>, s: State, s': State)
    requires Inv(silent, input, s) && ClientFails(s, s') && s.server == Finished
    ensures Inv(silent, input, s')
  {
    hide Taken, RestOf, BothAtWork, ServerAlone;
  }

  lemma RefuseKeeps(silent: bool, input: seq<byte>, s: State, s': State)
    requires Inv(silent, input, s) && Refuse(s, s')
    ensures Inv(silent, input, s')
  {
    hide Taken, RestOf, BothAtWork, ServerAlone;
    AtStarting(silent, input, s);
    assert s'.toClient[0] != SUCCESS || s.client.Gone();
  }

  lemma TcpFailureKeeps(silent: bool, input: seq<byte>, s: State, s': State)
    requires Inv(silent, input, s) && TcpFails(Send, s, s')
    ensures Inv(silent, input, s')
  {
    hide Taken, RestOf, BothAtWork, ServerAlone;
    OnlySend(silent, input, s, s');
    AtForwarding(silent, input, s);
    NothingMissing(input, s);
    assert s'.toClient[|s.toClient|] == NETWORK_ERROR;
  }

  /** What matters when the server is stopped. */
  lemma AtWork(silent: bool, input: seq<byte>, s: State)
    requires Inv(silent, input, s) && s.server != Finished
    ensures if s.client.Gone() then s.client != Exited(SUCCESS)
            else |s.toClient| <= 1 && (s.client in {Reading, SendingHead, SendingBody} ==> s.toClient == [])
    ensures s.client == AwaitAck && s.chunk == [] ==> Taken(input, s.stdin) == s.tcp || Taken(input, s.stdin) == s.tcp + s.chunk
  {
    hide Taken, RestOf, Head, Frame;
  }

  lemma KillKeeps(silent: bool, input: seq<byte>, s: State, s': State)
    requires Inv(silent, input, s) && ServerKilled(s, s')
    ensures Inv(silent, input, s')
  {
    hide Taken, RestOf, BothAtWork, ServerAlone;
    AtWork(silent, input, s);
    NothingMissing(input, s);
  }

  /** The stops of nms_send are not reached. */
  lemma OnlySend(silent: bool, input: seq<byte>, s: State, s': State)
    requires Inv(silent, input, s)
    ensures s.server != ForwardingBody && s.server != Closing && !ForwardBody(s, s') && !Close(s, s')
  {
    hide Taken, RestOf, Head, Frame;
  }

  lemma NothingMissing(input: seq<byte>, s: State)
    ensures (s.chunk == [] ==> s.tcp + s.chunk == s.tcp) && (s.stdin == [] ==> Taken(input, s.stdin) == input)
  {
  }

  lemma StepKeepsInv(silent: bool, input: seq<byte>, s: State, s': State)
    requires Inv(silent, input, s) && Step(Send, silent, s, s')
    ensures Inv(silent, input, s')
  {
    hide Inv, GetCode, GetAck, GetEnd, Read, SendHead, SendBody, SendToNobody, Accept, RecvHead, RecvBody, HangUp, Forward,
         ForwardBody, Reply, Close, ClientFails, Refuse, TcpFails, ServerKilled;
    OnlySend(silent, input, s, s');
    if GetCode(s, s') { GetCodeKeeps(silent, input, s, s'); }
    else if GetAck(s, s') { GetAckKeeps(silent, input, s, s'); }
    else if GetEnd(s, s') { GetEndKeeps(silent, input, s, s'); }
    else if Read(s, s') { ReadKeeps(silent, input, s, s'); }
    else if SendHead(s, s') { SendHeadKeeps(silent, input, s, s'); }
    else if SendBody(s, s') { SendBodyKeeps(silent, input, s, s'); }
    else if SendToNobody(silent, s, s') { NobodyKeeps(silent, input, s, s'); }
    else if Accept(s, s') { AcceptKeeps(silent, input, s, s'); }
    else if RecvHead(Send, s, s') { RecvHeadKeeps(silent, input, s, s'); }
    else if RecvBody(s, s') { RecvBodyKeeps(silent, input, s, s'); }
    else if HangUp(Send, s, s') { HangUpKeeps(silent, input, s, s'); }
    else if Forward(Send, s, s') { ForwardKeeps(silent, input, s, s'); }
    else if Reply(Send, s, s') { ReplyKeeps(silent, input, s, s'); }
    else if ClientFails(s, s') {
      if s.server == Finished { LastOneLeaves(silent, input, s, s'); } else { ClientLeaves(silent, input, s, s'); }
    }
    else if Refuse(s, s') { RefuseKeeps(silent, input, s, s'); }
    else if TcpFails(Send, s, s') { TcpFailureKeeps(silent, input, s, s'); }
    else { KillKeeps(silent, input, s, s'); }
  }

  lemma {:induction false} RunKeepsInv(silent: bool, input: seq<byte>, run: seq<State>, i: nat)
    requires Run(Send, silent, input, run) && i < |run|
    ensures Inv(silent, input, run[i])
  {
    hide Inv, Step;
    if i == 0 {
      StartInv(silent, input);
    } else {
      RunKeepsInv(silent, input, run, i - 1);
      StepKeepsInv(silent, input, run[i - 1], run[i]);
    }
  }

  // ----- What holds in every run

  /** What was written to the TCP socket is a prefix of what the client read. */
  lemma ForwardsPrefix(silent: bool, input: seq<byte>, run: seq<State>, i: nat)
    requires Run(Send, silent, input, run) && i < |run|
    ensures run[i].tcp <= Taken(input, run[i].stdin) <= input
    ensures Taken(input, run[i].stdin) + run[i].stdin == input
  {
    hide Run;
    RunKeepsInv(silent, input, run, i);
    hide BothAtWork, ServerAlone, ClientAlone;
  }

  /** While both sides are at work, at most one frame is unacknowledged: only the client's last
      chunk can be missing from the TCP socket, at most that one frame is on the connection, and at
      most one code is on its way back, never together with a frame. */
  lemma OneFrameUnacknowledged(silent: bool, input: seq<byte>, run: seq<State>, i: nat)
    requires Run(Send, silent, input, run) && i < |run|
    requires !run[i].client.Gone() && run[i].server != Finished
    ensures var s := run[i];
            && |s.chunk| <= MAX_FRAME
            && (Taken(input, s.stdin) == s.tcp || Taken(input, s.stdin) == s.tcp + s.chunk)
            && |s.toServer| <= |Frame(s.chunk)| && |s.toClient| <= 1 && (s.toServer == [] || s.toClient == [])
  {
    hide Run;
    RunKeepsInv(silent, input, run, i);
    FrameParts(run[i].chunk);
    hide Head, Frame;
  }

  /** If the client exits with SUCCESS, the TCP socket has received all of the input, unless the
      server was stopped and the connection then swallowed a send without an error. */
  lemma SuccessMeansAll(silent: bool, input: seq<byte>, run: seq<State>, i: nat)
    requires Run(Send, silent, input, run) && i < |run|
    requires run[i].client == Exited(SUCCESS)
    ensures run[i].tcp == input || (silent && run[i].killed)
  {
    hide Run, Head, Frame;
    RunKeepsInv(silent, input, run, i);
  }

  /** For this input the exit code can be relied on: whenever it is SUCCESS, the transfer is whole. */
  ghost predicate Reliable(silent: bool, input: seq<byte>) {
    forall run: seq<State>, i: nat ::
      Run(Send, silent, input, run) && i < |run| && run[i].client == Exited(SUCCESS) ==> run[i].tcp == input
  }

  /** The exit code can be relied on exactly when there is nothing to send or a send to a closed
      connection never passes silently, as on the Unix-domain sockets of the POSIX build. */
  lemma ReliableIff(silent: bool, input: seq<byte>)
    ensures Reliable(silent, input) <==> !silent || input == []
  {
    if silent && input != [] {
      var run := LostInput(Send, input);
      assert Run(Send, silent, input, run) && run[|run| - 1].client == Exited(SUCCESS);
    } else {
      forall run: seq<State>, i: nat | Run(Send, silent, input, run) && i < |run| && run[i].client == Exited(SUCCESS)
        ensures run[i].tcp == input
      {
        SuccessMeansAll(silent, input, run, i);
        ForwardsPrefix(silent, input, run, i);
      }
    }
  }

  /** Without failures from outside, the client can only end with SUCCESS and the transfer is whole. */
  lemma NoFaultMeansSuccess(silent: bool, input: seq<byte>, run: seq<State>, i: nat)
    requires Run(Send, silent, input, run) && i < |run|
    requires !run[i].fault && run[i].client.Gone()
    ensures run[i].client == Exited(SUCCESS) && run[i].tcp == input && run[i].server == Finished
  {
    hide Run, Head, Frame;
    RunKeepsInv(silent, input, run, i);
  }

  // ----- No state is stuck

  /** Until both sides have finished, one of them can move without any failure. */
  lemma NeverStuck(silent: bool, input: seq<byte>, run: seq<State>, i: nat) returns (next: State)
    requires Run(Send, silent, input, run) && i < |run| && !Over(run[i])
    ensures ClientStep(silent, run[i], next) || ServerStep(Send, run[i], next)
  {
    hide Run, ClientStep, ServerStep;
    var s := run[i];
    RunKeepsInv(silent, input, run, i);
    AtServer(silent, input, s);
    hide Inv;
    if !s.client.Gone() && (s.server == Finished || s.toClient != [] || s.client in {Reading, SendingHead, SendingBody}) {
      next := ClientMoves(silent, s);
    } else {
      next := ServerMoves(Send, s);
    }
  }

  /** When neither side waits for the client to move, what the server waits for is there. */
  lemma AtServer(silent: bool, input: seq<byte>, s: State)
    requires Inv(silent, input, s)
    ensures |s.chunk| <= MAX_FRAME && (s.server == Forwarding ==> |s.buffer| <= MAX_FRAME)
    ensures s.client in {AwaitCode, AwaitAck} && s.toClient == [] && s.server != Finished ==>
              && (s.server == AwaitHead ==> |s.toServer| >= 2)
              && (s.server.AwaitBody? ==> |s.toServer| >= s.server.n)
  {
    hide Head, Frame, Taken, RestOf;
    FrameParts(s.chunk);
  }
}
