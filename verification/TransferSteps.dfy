/** The send commands of ptnio as two processes over one IPC connection: the steps of client_handle_send, of
    server_cmd_send and of server_cmd_nms_send, their failures, and what holds for both commands: every run is
    finite, and a silent connection can lose the input. */
module TransferSteps {
  import opened Bits
  import opened Nms
  import opened Transfer

  datatype Command = Send | NmsSend

  /** Where the client is: before a code, before a read, before each of the two sends of a frame,
      before the code for the frame, or gone. */
  datatype ClientPc = AwaitCode | Reading | SendingHead | SendingBody | AwaitAck | Exited(code: byte) | Killed {
    predicate Gone() { Exited? || Killed? }
  }

  /** Where the server is; the stops at ForwardingBody, between the two sends of a frame to the TCP socket,
      and at Closing, before the code that ends the command, are those of nms_send. */
  datatype ServerPc =
    | Starting | AwaitHead | AwaitBody(n: nat) | Forwarding | ForwardingBody | Replying | Closing | Finished

  /** chunk and buffer are the buffers of the client and of the server. killed: the server was
      stopped from outside. fault: something failed that the two programs do not control. */
  datatype State = State(
    client: ClientPc, chunk: seq<byte>, stdin: seq<byte>,
    server: ServerPc, buffer: seq<byte>, tcp: seq<byte>,
    toServer: seq<byte>, toClient: seq<byte>,
    killed: bool, fault: bool)

  function Start(input: seq<byte>): State {
    State(AwaitCode, [], input, Starting, [], [], [], [], false, false)
  }

  // ----- The steps of the client

  /** recv_code on a code that has arrived. */
  ghost predicate GetCode(s: State, s': State) {
    && s.client == AwaitCode && s.toClient != []
    && s' == s.(toClient := s.toClient[1..],
                client := if s.toClient[0] == SUCCESS then Reading else Exited(s.toClient[0]))
  }

  ghost predicate GetAck(s: State, s': State) {
    && s.client == AwaitAck && s.toClient != []
    && s' == s.(toClient := s.toClient[1..],
                client := if s.chunk != [] && s.toClient[0] == SUCCESS then Reading else Exited(s.toClient[0]))
  }

  /** recv_code after the server has closed: the end of the stream reads as SUCCESS, an error as 0xFF. */
  ghost predicate GetEnd(s: State, s': State) {
    && (s.client == AwaitCode || s.client == AwaitAck) && s.toClient == [] && s.server == Finished
    && (s' == s.(client := if s.client == AwaitCode || s.chunk != [] then Reading else Exited(SUCCESS))
        || s' == s.(client := Exited(255)))
  }

  /** fread: any non-empty chunk that fits, or nothing at the end of the input. */
  ghost predicate Read(s: State, s': State) {
    && s.client == Reading
    && s'.chunk <= s.stdin && |s'.chunk| <= MAX_FRAME && (s'.chunk == [] <==> s.stdin == [])
    && s' == s.(client := SendingHead, chunk := s'.chunk, stdin := s.stdin[|s'.chunk|..])
  }

  function AfterHead(s: State): ClientPc { if s.chunk == [] then AwaitAck else SendingBody }

  ghost predicate SendHead(s: State, s': State) {
    && s.client == SendingHead && s.server != Finished && |s.chunk| <= MAX_FRAME
    && s' == s.(client := AfterHead(s), toServer := s.toServer + Head(|s.chunk|))
  }

  ghost predicate SendBody(s: State, s': State) {
    && s.client == SendingBody && s.server != Finished
    && s' == s.(client := AwaitAck, toServer := s.toServer + s.chunk)
  }

  /** A send to a server that is gone fails; with silent connections it may also seem to succeed.
      Connections are silent where they are TCP connections, as in the Windows build; Unix-domain
      sockets, as in the POSIX build, report the closed peer. */
  ghost predicate SendToNobody(silent: bool, s: State, s': State) {
    && (s.client == SendingHead || s.client == SendingBody) && s.server == Finished
    && (s' == s.(client := Exited(IPC_ERROR))
        || (silent && s' == s.(client := if s.client == SendingHead then AfterHead(s) else AwaitAck)))
  }

  ghost predicate ClientStep(silent: bool, s: State, s': State) {
    GetCode(s, s') || GetAck(s, s') || GetEnd(s, s') || Read(s, s') || SendHead(s, s') || SendBody(s, s')
    || SendToNobody(silent, s, s')
  }

  // ----- The steps of the server

  ghost predicate Accept(s: State, s': State) {
    s.server == Starting && s' == s.(server := AwaitHead, toClient := s.toClient + [SUCCESS])
  }

  /** nms_send receives its first frame before its loop, as long as nothing has been forwarded. In the loop
      an empty frame and a failed receive both lead to the last code. */
  predicate InLoop(cmd: Command, s: State) { cmd == NmsSend && s.tcp != [] }

  ghost predicate RecvHead(cmd: Command, s: State, s': State) {
    && s.server == AwaitHead && |s.toServer| >= 2
    && var n := s.toServer[0] as nat + s.toServer[1] as nat * 256;
       s' == if n != 0 then s.(server := AwaitBody(n), toServer := s.toServer[2..])
             else if InLoop(cmd, s) then s.(server := Closing, toServer := s.toServer[2..])
             else s.(server := Forwarding, buffer := [], toServer := s.toServer[2..])
  }

  ghost predicate RecvBody(s: State, s': State) {
    && s.server.AwaitBody? && |s.toServer| >= s.server.n
    && s' == s.(server := Forwarding, buffer := s.toServer[..s.server.n], toServer := s.toServer[s.server.n..])
  }

  /** The client closed before a whole frame. */
  ghost predicate HangUp(cmd: Command, s: State, s': State) {
    && s.client.Gone() && s' == s.(server := if InLoop(cmd, s) then Closing else Finished)
    && ((s.server == AwaitHead && |s.toServer| < 2) || (s.server.AwaitBody? && |s.toServer| < s.server.n))
  }

  /** The data of a frame, or the head of the frame for nms_send, is sent to the TCP socket. */
  ghost predicate Forward(cmd: Command, s: State, s': State) {
    && s.server == Forwarding
    && match cmd
       case Send => s' == s.(server := Replying, tcp := s.tcp + s.buffer)
       case NmsSend =>
         |s.buffer| <= MAX_FRAME
         && s' == s.(server := if s.buffer == [] then Replying else ForwardingBody, tcp := s.tcp + Head(|s.buffer|))
  }

  ghost predicate ForwardBody(s: State, s': State) {
    s.server == ForwardingBody && s' == s.(server := Replying, tcp := s.tcp + s.buffer)
  }

  ghost predicate Reply(cmd: Command, s: State, s': State) {
    && s.server == Replying
    && s' == s.(server := if cmd == Send && s.buffer == [] then Finished else AwaitHead, toClient := s.toClient + [SUCCESS])
  }

  ghost predicate Close(s: State, s': State) {
    s.server == Closing && s' == s.(server := Finished, toClient := s.toClient + [SUCCESS])
  }

  ghost predicate ServerReceives(cmd: Command, s: State, s': State) {
    RecvHead(cmd, s, s') || RecvBody(s, s') || HangUp(cmd, s, s')
  }

  ghost predicate ServerSends(cmd: Command, s: State, s': State) {
    Accept(s, s') || Forward(cmd, s, s') || ForwardBody(s, s') || Reply(cmd, s, s') || Close(s, s')
  }

  ghost predicate ServerStep(cmd: Command, s: State, s': State) {
    ServerReceives(cmd, s, s') || ServerSends(cmd, s, s')
  }

  // ----- Failures

  /** The client stops before or in the middle of the transfer, or one of its sends breaks. */
  ghost predicate ClientFails(s: State, s': State) {
    || (s.client == AwaitCode && s' == s.(client := Exited(CLIENT_OOM), fault := true))
    || ((s.client == SendingHead || s.client == SendingBody) && s' == s.(client := Exited(IPC_ERROR), fault := true))
    || (!s.client.Gone() && s' == s.(client := Killed, fault := true))
  }

  ghost predicate Refuse(s: State, s': State) {
    && s.server == Starting && |s'.toClient| > |s.toClient|
    && s'.toClient[|s.toClient|] in {INVALID_ARGS, OUT_OF_MEMORY, NOT_FOUND}
    && s' == s.(server := Finished, toClient := s.toClient + [s'.toClient[|s.toClient|]], fault := true)
  }

  ghost predicate TcpFails(cmd: Command, s: State, s': State) {
    && (s.server == Forwarding || s.server == ForwardingBody)
    && s' == s.(server := if cmd == Send then Finished else Closing, toClient := s.toClient + [NETWORK_ERROR], fault := true)
  }

  ghost predicate ServerKilled(s: State, s': State) {
    s.server != Finished && s' == s.(server := Finished, killed := true, fault := true)
  }

  ghost predicate ServerFails(cmd: Command, s: State, s': State) {
    Refuse(s, s') || TcpFails(cmd, s, s') || ServerKilled(s, s')
  }

  ghost predicate Step(cmd: Command, silent: bool, s: State, s': State) {
    ClientStep(silent, s, s') || ServerStep(cmd, s, s') || ClientFails(s, s') || ServerFails(cmd, s, s')
  }

  /** A run from the start, whatever happens. */
  ghost predicate Run(cmd: Command, silent: bool, input: seq<byte>, run: seq<State>) {
    && run != [] && run[0] == Start(input)
    && forall i, j :: 0 <= i < j < |run| && j == i + 1 ==> Step(cmd, silent, run[i], run[j])
  }

  // ----- What the client has read

  function Taken(input: seq<byte>, stdin: seq<byte>): seq<byte> {
    if |stdin| <= |input| then input[..|input| - |stdin|] else []
  }

  ghost predicate RestOf(input: seq<byte>, stdin: seq<byte>) {
    |stdin| <= |input| && stdin == input[|input| - |stdin|..]
  }

  lemma TakenAfterRead(input: seq<byte>, s: State, s': State)
    requires RestOf(input, s.stdin) && Read(s, s')
    ensures RestOf(input, s'.stdin)
    ensures Taken(input, s'.stdin) == Taken(input, s.stdin) + s'.chunk
  {
    var k, n := |s'.chunk|, |input| - |s.stdin|;
    assert s.stdin[k..] == input[n + k..];
    assert input[..n + k] == input[..n] + input[n..][..k];
  }

  lemma FrameParts(chunk: seq<byte>)
    requires |chunk| <= MAX_FRAME
    ensures var f := Frame(chunk);
            && |f| == 2 + |chunk| && f[2..] == chunk && f[0] as nat + f[1] as nat * 256 == |chunk|
            && f == Head(|chunk|) + chunk && (chunk == [] ==> f == Head(0))
    ensures var h := Head(|chunk|);
            |h| == 2 && h[2..] == [] && h[0] as nat + h[1] as nat * 256 == |chunk|
  {
  }

  // ----- What both commands keep

  /** The sizes of the chunk and of the body that the server waits for. */
  ghost predicate Sized(s: State) {
    && |s.chunk| <= MAX_FRAME
    && (s.client in {SendingHead, SendingBody, AwaitAck} && s.chunk == [] ==> s.stdin == [])
    && (s.client == SendingBody ==> s.chunk != [])
    && (s.server.AwaitBody? ==> s.server.n > 0)
  }

  lemma StepKeepsSized(cmd: Command, silent: bool, s: State, s': State)
    requires Sized(s) && Step(cmd, silent, s, s')
    ensures Sized(s')
  {
    hide ClientStep, ServerStep, ServerFails, ClientFails;
    if ClientStep(silent, s, s') {
      ClientKeepsSized(silent, s, s');
    } else if ClientFails(s, s') {
      FailingKeepsSized(s, s');
    } else {
      ServerLeavesClient(cmd, s, s');
    }
  }

  lemma ClientKeepsSized(silent: bool, s: State, s': State)
    requires Sized(s) && ClientStep(silent, s, s')
    ensures Sized(s')
  {
    hide Head;
  }

  lemma FailingKeepsSized(s: State, s': State)
    requires Sized(s) && ClientFails(s, s')
    ensures Sized(s')
  {
  }

  /** The server touches nothing of the client's, and waits for bodies that are not empty only. */
  lemma ServerLeavesClient(cmd: Command, s: State, s': State)
    requires ServerStep(cmd, s, s') || ServerFails(cmd, s, s')
    ensures s'.client == s.client && s'.chunk == s.chunk && s'.stdin == s.stdin
    ensures s'.server.AwaitBody? ==> s'.server.n > 0
  {
    hide ServerReceives, ServerSends, ServerFails;
    if ServerReceives(cmd, s, s') {
      ReceivingLeavesClient(cmd, s, s');
    } else if ServerSends(cmd, s, s') {
      SendingLeavesClient(cmd, s, s');
    } else {
      FailingLeavesClient(cmd, s, s');
    }
  }

  lemma ReceivingLeavesClient(cmd: Command, s: State, s': State)
    requires ServerReceives(cmd, s, s')
    ensures s'.client == s.client && s'.chunk == s.chunk && s'.stdin == s.stdin
    ensures s'.server.AwaitBody? ==> s'.server.n > 0
  {
  }

  lemma SendingLeavesClient(cmd: Command, s: State, s': State)
    requires ServerSends(cmd, s, s')
    ensures s'.client == s.client && s'.chunk == s.chunk && s'.stdin == s.stdin && !s'.server.AwaitBody?
  {
    hide Head;
  }

  lemma FailingLeavesClient(cmd: Command, s: State, s': State)
    requires ServerFails(cmd, s, s')
    ensures s'.client == s.client && s'.chunk == s.chunk && s'.stdin == s.stdin && !s'.server.AwaitBody?
  {
  }

  lemma {:induction false} RunKeepsSized(cmd: Command, silent: bool, input: seq<byte>, run: seq<State>, i: nat)
    requires Run(cmd, silent, input, run) && i < |run|
    ensures Sized(run[i])
  {
    if i != 0 {
      RunKeepsSized(cmd, silent, input, run, i - 1);
      assert Step(cmd, silent, run[i - 1], run[i]);
      hide Run, Step;
      StepKeepsSized(cmd, silent, run[i - 1], run[i]);
    }
  }

  /** Unless it waits for a code that has not come, a client that is not gone can move. */
  lemma ClientMoves(silent: bool, s: State) returns (next: State)
    requires |s.chunk| <= MAX_FRAME && !s.client.Gone()
    requires s.server == Finished || s.toClient != [] || s.client in {Reading, SendingHead, SendingBody}
    ensures ClientStep(silent, s, next)
  {
    hide Head;
    next := s;
    match s.client
    case AwaitCode =>
      next := if s.toClient == [] then s.(client := Reading)
              else s.(toClient := s.toClient[1..], client := if s.toClient[0] == SUCCESS then Reading else Exited(s.toClient[0]));
    case AwaitAck =>
      next := if s.toClient == [] then s.(client := if s.chunk != [] then Reading else Exited(SUCCESS))
              else s.(toClient := s.toClient[1..],
                      client := if s.chunk != [] && s.toClient[0] == SUCCESS then Reading else Exited(s.toClient[0]));
    case Reading =>
      var k := Min(MAX_FRAME, |s.stdin|);
      next := s.(client := SendingHead, chunk := s.stdin[..k], stdin := s.stdin[k..]);
    case SendingHead =>
      next := if s.server == Finished then s.(client := Exited(IPC_ERROR))
              else s.(client := AfterHead(s), toServer := s.toServer + Head(|s.chunk|));
    case SendingBody =>
      next := if s.server == Finished then s.(client := Exited(IPC_ERROR))
              else s.(client := AwaitAck, toServer := s.toServer + s.chunk);
  }

  /** A server that is not finished can move, unless it waits for more from a client that is still there. */
  lemma ServerMoves(cmd: Command, s: State) returns (next: State)
    requires s.server != Finished && (s.server == Forwarding ==> |s.buffer| <= MAX_FRAME)
    requires s.client.Gone() || (s.server == AwaitHead ==> |s.toServer| >= 2)
    requires s.client.Gone() || (s.server.AwaitBody? ==> |s.toServer| >= s.server.n)
    ensures ServerStep(cmd, s, next)
  {
    hide Head;
    next := s;
    match s.server
    case Starting => next := s.(server := AwaitHead, toClient := s.toClient + [SUCCESS]);
    case AwaitHead =>
      if |s.toServer| < 2 {
        next := s.(server := if InLoop(cmd, s) then Closing else Finished);
      } else {
        var n := s.toServer[0] as nat + s.toServer[1] as nat * 256;
        next := if n != 0 then s.(server := AwaitBody(n), toServer := s.toServer[2..])
                else if InLoop(cmd, s) then s.(server := Closing, toServer := s.toServer[2..])
                else s.(server := Forwarding, buffer := [], toServer := s.toServer[2..]);
      }
    case AwaitBody(n) =>
      next := if |s.toServer| < n then s.(server := if InLoop(cmd, s) then Closing else Finished)
              else s.(server := Forwarding, buffer := s.toServer[..n], toServer := s.toServer[n..]);
    case Forwarding =>
      next := if cmd == Send then s.(server := Replying, tcp := s.tcp + s.buffer)
              else s.(server := if s.buffer == [] then Replying else ForwardingBody, tcp := s.tcp + Head(|s.buffer|));
    case ForwardingBody => next := s.(server := Replying, tcp := s.tcp + s.buffer);
    case Replying =>
      next := s.(server := if cmd == Send && s.buffer == [] then Finished else AwaitHead, toClient := s.toClient + [SUCCESS]);
    case Closing => next := s.(server := Finished, toClient := s.toClient + [SUCCESS]);
  }

  // ----- A run that loses its input

  lemma Extend(cmd: Command, silent: bool, input: seq<byte>, run: seq<State>, s: State) returns (longer: seq<State>)
    requires Run(cmd, silent, input, run) && Step(cmd, silent, run[|run| - 1], s)
    ensures Run(cmd, silent, input, longer) && longer[|longer| - 1] == s
  {
    hide Step;
    longer := run + [s];
    forall i, j | 0 <= i < j < |longer| && j == i + 1 ensures Step(cmd, silent, longer[i], longer[j]) {
      if j < |run| { assert Step(cmd, silent, run[i], run[j]); }
    }
  }

  /** Up to the client's wait for its first acknowledgement. */
  lemma OneFrameSent(cmd: Command, input: seq<byte>, run: seq<State>, s: State, k: nat) returns (longer: seq<State>, s': State)
    requires Run(cmd, true, input, run) && s == run[|run| - 1] == Start(input)
    requires 1 <= k <= |input| && k <= MAX_FRAME
    ensures Run(cmd, true, input, longer) && s' == longer[|longer| - 1]
    ensures s' == State(AwaitAck, input[..k], input[k..], AwaitBody(k), [], [], input[..k], [], false, false)
  {
    hide Run, Head;
    FrameParts(input[..k]);
    var s1 := s.(server := AwaitHead, toClient := [SUCCESS]);
    longer := Extend(cmd, true, input, run, s1) by { assert Accept(s, s1); }
    var s2 := s1.(client := Reading, toClient := []);
    longer := Extend(cmd, true, input, longer, s2) by { assert GetCode(s1, s2); }
    var s3 := s2.(client := SendingHead, chunk := input[..k], stdin := input[k..]);
    longer := Extend(cmd, true, input, longer, s3) by { assert Read(s2, s3); }
    var s4 := s3.(client := SendingBody, toServer := Head(k));
    longer := Extend(cmd, true, input, longer, s4) by { assert [] + Head(k) == Head(k); assert SendHead(s3, s4); }
    var s5 := s4.(server := AwaitBody(k), toServer := []);
    longer := Extend(cmd, true, input, longer, s5) by { assert RecvHead(cmd, s4, s5); }
    s' := s5.(client := AwaitAck, toServer := input[..k]);
    longer := Extend(cmd, true, input, longer, s') by { assert [] + input[..k] == input[..k]; assert SendBody(s5, s'); }
  }

  /** With the server gone, a client on silent connections takes every send for a success and every
      closed receive for an acknowledgement, until its input is used up. */
  lemma {:induction false} Drain(cmd: Command, input: seq<byte>, run: seq<State>, s: State) returns (longer: seq<State>)
    requires Run(cmd, true, input, run) && s == run[|run| - 1]
    requires s.client == Reading && s.server == Finished && s.toClient == []
    ensures Run(cmd, true, input, longer)
    ensures longer[|longer| - 1].client == Exited(SUCCESS) && longer[|longer| - 1].tcp == s.tcp
    decreases |s.stdin|
  {
    hide Run;
    var k := Min(MAX_FRAME, |s.stdin|);
    var s1 := s.(client := SendingHead, chunk := s.stdin[..k], stdin := s.stdin[k..]);
    longer := Extend(cmd, true, input, run, s1) by { assert Read(s, s1); }
    var s2 := s1.(client := AfterHead(s1));
    longer := Extend(cmd, true, input, longer, s2) by { assert SendToNobody(true, s1, s2); }
    if k == 0 {
      var s3 := s2.(client := Exited(SUCCESS));
      longer := Extend(cmd, true, input, longer, s3) by { assert GetEnd(s2, s3); }
    } else {
      var s3 := s2.(client := AwaitAck);
      longer := Extend(cmd, true, input, longer, s3) by { assert SendToNobody(true, s2, s3); }
      var s4 := s3.(client := Reading);
      longer := Extend(cmd, true, input, longer, s4) by { assert GetEnd(s3, s4); }
      longer := Drain(cmd, input, longer, s4);
    }
  }

  /** For every input that is not empty: the server is stopped with the first chunk in its buffer, and
      the client ends with SUCCESS though nothing was forwarded. */
  lemma LostInput(cmd: Command, input: seq<byte>) returns (run: seq<State>)
    requires input != []
    ensures Run(cmd, true, input, run) && run[|run| - 1].client == Exited(SUCCESS) && run[|run| - 1].tcp == []
  {
    run := [Start(input)];
    assert Run(cmd, true, input, run);
    hide Run;
    var s;
    run, s := OneFrameSent(cmd, input, run, Start(input), Min(MAX_FRAME, |input|));
    var s1 := s.(server := Forwarding, buffer := s.chunk, toServer := []);
    run := Extend(cmd, true, input, run, s1) by { assert RecvBody(s, s1); }
    var s2 := s1.(server := Finished, killed := true, fault := true);
    run := Extend(cmd, true, input, run, s2) by { assert ServerKilled(s1, s2); }
    var s3 := s2.(client := Reading);
    run := Extend(cmd, true, input, run, s3) by { assert GetEnd(s2, s3); }
    run := Drain(cmd, input, run, s3);
  }

  // ----- Every run ends

  ghost predicate Over(s: State) { s.client.Gone() && s.server == Finished }

  const WEIGHT: nat := 4 * MAX_FRAME + 16

  function ClientLeft(s: State): nat {
    var r := |s.stdin|;
    match s.client
    case AwaitCode => 5 * r + 6
    case Reading => 5 * r + 5
    case SendingHead => if s.chunk == [] then 4 else 5 * r + 9
    case SendingBody => 5 * r + 8
    case AwaitAck => if s.chunk == [] then 3 else 5 * r + 7
    case _ => 0
  }

  function ServerLeft(s: State): nat {
    match s.server
    case Starting => 4 * |s.toServer| + 10
    case AwaitHead => 4 * |s.toServer| + 2
    case AwaitBody(_) => 4 * |s.toServer| + 9
    case Forwarding => 4 * |s.toServer| + 8
    case ForwardingBody => 4 * |s.toServer| + 7
    case Replying => 4 * |s.toServer| + 6
    case Closing => 4 * |s.toServer| + 1
    case Finished => 0
  }

  /** How much can still happen. */
  function Remaining(s: State): nat { WEIGHT * ClientLeft(s) + ServerLeft(s) }

  lemma ClientStepCounts(s: State, s': State)
    requires Sized(s)
    requires GetCode(s, s') || GetAck(s, s') || GetEnd(s, s') || Read(s, s') || ClientFails(s, s')
    ensures ClientLeft(s') < ClientLeft(s) && s'.server == s.server && s'.toServer == s.toServer
  {
  }

  lemma SendCounts(silent: bool, s: State, s': State)
    requires Sized(s) && (SendHead(s, s') || SendBody(s, s') || SendToNobody(silent, s, s'))
    ensures ClientLeft(s') < ClientLeft(s) && s'.server == s.server && |s'.toServer| <= |s.toServer| + MAX_FRAME
  {
    hide Head;
  }

  lemma ServerLeftGrows(s: State, s': State)
    requires s'.server == s.server && |s'.toServer| <= |s.toServer| + MAX_FRAME
    ensures ServerLeft(s') <= ServerLeft(s) + 4 * MAX_FRAME
  {
  }

  lemma ServerStepCounts(cmd: Command, s: State, s': State)
    requires ServerStep(cmd, s, s') && (s.server.AwaitBody? ==> s.server.n > 0)
    ensures ClientLeft(s') == ClientLeft(s) && ServerLeft(s') < ServerLeft(s)
  {
    hide Head, ClientLeft, ServerReceives, ServerSends;
    SameClient(cmd, s, s');
    if ServerReceives(cmd, s, s') { ReceivingCounts(cmd, s, s'); } else { SendingCounts(cmd, s, s'); }
  }

  lemma ReceivingCounts(cmd: Command, s: State, s': State)
    requires ServerReceives(cmd, s, s') && (s.server.AwaitBody? ==> s.server.n > 0)
    ensures ServerLeft(s') < ServerLeft(s)
  {
  }

  lemma SendingCounts(cmd: Command, s: State, s': State)
    requires ServerSends(cmd, s, s')
    ensures ServerLeft(s') < ServerLeft(s)
  {
    hide Head;
  }

  lemma SameClient(cmd: Command, s: State, s': State)
    requires ServerStep(cmd, s, s')
    ensures ClientLeft(s') == ClientLeft(s)
  {
    ServerLeavesClient(cmd, s, s');
    hide ServerStep;
  }

  lemma ServerFailureCounts(cmd: Command, s: State, s': State)
    requires ServerFails(cmd, s, s')
    ensures ClientLeft(s') == ClientLeft(s) && ServerLeft(s') < ServerLeft(s)
  {
  }

  /** Every step, failures included, brings the end nearer. */
  lemma StepCounts(cmd: Command, silent: bool, s: State, s': State)
    requires Sized(s) && Step(cmd, silent, s, s')
    ensures Remaining(s') < Remaining(s)
  {
    hide GetCode, GetAck, GetEnd, Read, SendHead, SendBody, SendToNobody, ServerStep, ClientFails, ServerFails,
         ClientLeft, ServerLeft;
    if ServerStep(cmd, s, s') {
      ServerStepCounts(cmd, s, s');
    } else if ServerFails(cmd, s, s') {
      ServerFailureCounts(cmd, s, s');
    } else {
      if SendHead(s, s') || SendBody(s, s') || SendToNobody(silent, s, s') {
        SendCounts(silent, s, s');
      } else {
        ClientStepCounts(s, s');
      }
      ServerLeftGrows(s, s');
    }
  }

  /** No run is longer than a bound that depends on the length of the input alone. */
  lemma {:induction false} RunsAreFinite(cmd: Command, silent: bool, input: seq<byte>, run: seq<State>, i: nat)
    requires Run(cmd, silent, input, run) && i < |run|
    ensures i + Remaining(run[i]) <= WEIGHT * (5 * |input| + 6) + 10
  {
    hide Sized, Step, Remaining;
    if i == 0 {
      assert Remaining(Start(input)) == WEIGHT * (5 * |input| + 6) + 10 by { StartCounts(input); }
    } else {
      RunsAreFinite(cmd, silent, input, run, i - 1);
      RunKeepsSized(cmd, silent, input, run, i - 1);
      StepCounts(cmd, silent, run[i - 1], run[i]);
    }
  }

  lemma StartCounts(input: seq<byte>)
    ensures Remaining(Start(input)) == WEIGHT * (5 * |input| + 6) + 10
  {
  }
}
