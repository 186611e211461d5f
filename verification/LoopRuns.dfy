/** The loops of the client and of the two servers, as they are over sockets, are runs of the protocol: for every
    input and every number of sends that succeed there is a run in which the client ends with the same exit
    code and the same bytes are written to the TCP socket. */
module LoopRuns {
  import opened Bits
  import opened Nms
  import opened Transfer
  import opened TransferSteps
  import TransferClient

  /** The client is about to read, and nothing is on its way. */
  ghost predicate Idle(s: State) {
    s.client == Reading && s.server == AwaitHead && s.toServer == [] && s.toClient == []
  }

  lemma Begin(cmd: Command, silent: bool, input: seq<byte>) returns (run: seq<State>, s: State)
    ensures Run(cmd, silent, input, run) && s == run[|run| - 1] && Idle(s) && s.stdin == input && s.tcp == []
  {
    hide Step;
    var s0 := Start(input);
    run := [s0];
    var s1 := s0.(server := AwaitHead, toClient := [SUCCESS]);
    run := Follow(cmd, silent, input, run, s1) by { ServerGoes(cmd, silent, s0, s1) by { assert Accept(s0, s1); } }
    s := s1.(client := Reading, toClient := []);
    run := Follow(cmd, silent, input, run, s) by { ClientGoes(cmd, silent, s1, s) by { assert GetCode(s1, s); } }
  }

  lemma Follow(cmd: Command, silent: bool, input: seq<byte>, run: seq<State>, s: State) returns (longer: seq<State>)
    requires Run(cmd, silent, input, run) && Step(cmd, silent, run[|run| - 1], s)
    ensures Run(cmd, silent, input, longer) && longer != [] && longer[|longer| - 1] == s
  {
    longer := Extend(cmd, silent, input, run, s);
  }

  lemma ClientGoes(cmd: Command, silent: bool, s: State, s': State)
    requires ClientStep(silent, s, s') || ClientFails(s, s')
    ensures Step(cmd, silent, s, s')
  {
    hide ClientStep, ClientFails, ServerStep, ServerFails;
  }

  lemma ServerGoes(cmd: Command, silent: bool, s: State, s': State)
    requires ServerStep(cmd, s, s') || ServerFails(cmd, s, s')
    ensures Step(cmd, silent, s, s')
  {
    hide ClientStep, ClientFails, ServerStep, ServerFails;
  }

  // ----- Stretches that both commands have

  /** The client reads a chunk and comes to its first send. */
  lemma ChunkRead(cmd: Command, silent: bool, input: seq<byte>, run: seq<State>, s: State) returns (longer: seq<State>, s': State)
    requires Run(cmd, silent, input, run) && s == run[|run| - 1] && Idle(s)
    ensures Run(cmd, silent, input, longer) && s' == longer[|longer| - 1]
    ensures var chunk := TransferClient.Chunk(s.stdin);
            s' == s.(client := SendingHead, chunk := chunk, stdin := s.stdin[|chunk|..])
  {
    hide Run, Step;
    var chunk := TransferClient.Chunk(s.stdin);
    s' := s.(client := SendingHead, chunk := chunk, stdin := s.stdin[|chunk|..]);
    longer := Follow(cmd, silent, input, run, s') by { ClientGoes(cmd, silent, s, s') by { assert Read(s, s'); } }
  }

  lemma HeadGone(cmd: Command, silent: bool, input: seq<byte>, run: seq<State>, s: State) returns (longer: seq<State>, s': State)
    requires Run(cmd, silent, input, run) && s == run[|run| - 1] && |s.chunk| <= MAX_FRAME
    requires s.client == SendingHead && s.server == AwaitHead && s.toServer == []
    ensures Run(cmd, silent, input, longer) && s' == longer[|longer| - 1]
    ensures s' == s.(client := AfterHead(s), toServer := Head(|s.chunk|))
  {
    hide Run, Step, Head;
    s' := s.(client := AfterHead(s), toServer := Head(|s.chunk|));
    assert [] + Head(|s.chunk|) == Head(|s.chunk|);
    longer := Follow(cmd, silent, input, run, s') by { ClientGoes(cmd, silent, s, s') by { assert SendHead(s, s'); } }
  }

  /** A frame gets through to the server. */
  lemma FrameThrough(cmd: Command, silent: bool, input: seq<byte>, run: seq<State>, s: State) returns (longer: seq<State>, s': State)
    requires Run(cmd, silent, input, run) && s == run[|run| - 1] && Idle(s)
    requires s.stdin == [] ==> !InLoop(cmd, s)
    ensures Run(cmd, silent, input, longer) && s' == longer[|longer| - 1]
    ensures var chunk := TransferClient.Chunk(s.stdin);
            s' == s.(client := AwaitAck, chunk := chunk, stdin := s.stdin[|chunk|..], server := Forwarding, buffer := chunk)
  {
    hide Run, Step, Head;
    var s1, s2;
    longer, s1 := ChunkRead(cmd, silent, input, run, s);
    longer, s2 := HeadGone(cmd, silent, input, longer, s1);
    var chunk := s2.chunk;
    FrameParts(chunk);
    if chunk == [] {
      s' := s2.(server := Forwarding, buffer := [], toServer := []);
      longer := Follow(cmd, silent, input, longer, s') by { ServerGoes(cmd, silent, s2, s') by { assert RecvHead(cmd, s2, s'); } }
    } else {
      var s3 := s2.(server := AwaitBody(|chunk|), toServer := []);
      longer := Follow(cmd, silent, input, longer, s3) by { ServerGoes(cmd, silent, s2, s3) by { assert RecvHead(cmd, s2, s3); } }
      var s4 := s3.(client := AwaitAck, toServer := chunk);
      assert [] + chunk == chunk;
      longer := Follow(cmd, silent, input, longer, s4) by { ClientGoes(cmd, silent, s3, s4) by { assert SendBody(s3, s4); } }
      s' := s4.(server := Forwarding, buffer := chunk, toServer := []);
      longer := Follow(cmd, silent, input, longer, s') by { ServerGoes(cmd, silent, s4, s') by { assert RecvBody(s4, s'); } }
    }
  }

  /** The server answers, and the client goes on, or ends after the empty chunk. */
  lemma Answered(cmd: Command, silent: bool, input: seq<byte>, run: seq<State>, s: State) returns (longer: seq<State>, s': State)
    requires Run(cmd, silent, input, run) && s == run[|run| - 1]
    requires s.client == AwaitAck && s.server == Replying && s.toClient == [] && s.toServer == [] && s.buffer == s.chunk
    ensures Run(cmd, silent, input, longer) && s' == longer[|longer| - 1]
    ensures s'.stdin == s.stdin && s'.tcp == s.tcp && if s.chunk == [] then s'.client == Exited(SUCCESS) else Idle(s')
  {
    hide Run, Step;
    var s1 := s.(server := if cmd == Send && s.buffer == [] then Finished else AwaitHead, toClient := [SUCCESS]);
    assert [] + [SUCCESS] == [SUCCESS];
    longer := Follow(cmd, silent, input, run, s1) by { ServerGoes(cmd, silent, s, s1) by { assert Reply(cmd, s, s1); } }
    longer, s' := CodeTaken(cmd, silent, input, longer, s1);
  }

  lemma CodeTaken(cmd: Command, silent: bool, input: seq<byte>, run: seq<State>, s: State) returns (longer: seq<State>, s': State)
    requires Run(cmd, silent, input, run) && s == run[|run| - 1] && s.client == AwaitAck && |s.toClient| == 1
    ensures Run(cmd, silent, input, longer) && s' == longer[|longer| - 1]
    ensures s' == s.(toClient := [], client := if s.chunk != [] && s.toClient[0] == SUCCESS then Reading else Exited(s.toClient[0]))
  {
    hide Run, Step;
    s' := s.(toClient := [], client := if s.chunk != [] && s.toClient[0] == SUCCESS then Reading else Exited(s.toClient[0]));
    longer := Follow(cmd, silent, input, run, s') by { ClientGoes(cmd, silent, s, s') by { assert GetAck(s, s'); } }
  }

  /** A send to the TCP socket fails, and the client ends with the code for that. */
  lemma ForwardFails(cmd: Command, silent: bool, input: seq<byte>, run: seq<State>, s: State) returns (longer: seq<State>)
    requires Run(cmd, silent, input, run) && s == run[|run| - 1]
    requires s.client == AwaitAck && (s.server == Forwarding || s.server == ForwardingBody) && s.toClient == []
    ensures Run(cmd, silent, input, longer)
    ensures longer[|longer| - 1].client == Exited(NETWORK_ERROR) && longer[|longer| - 1].tcp == s.tcp
  {
    hide Run, Step;
    var s1 := s.(server := if cmd == Send then Finished else Closing, toClient := [NETWORK_ERROR], fault := true);
    assert [] + [NETWORK_ERROR] == [NETWORK_ERROR];
    longer := Follow(cmd, silent, input, run, s1) by { ServerGoes(cmd, silent, s, s1) by { assert TcpFails(cmd, s, s1); } }
    var s2;
    longer, s2 := CodeTaken(cmd, silent, input, longer, s1);
  }

  /** A send of the client fails: its first when none can succeed any more, else its second. */
  lemma SendFails(cmd: Command, silent: bool, input: seq<byte>, run: seq<State>, s: State, left: nat) returns (longer: seq<State>)
    requires Run(cmd, silent, input, run) && s == run[|run| - 1] && Idle(s)
    requires left == 0 || (left == 1 && s.stdin != [])
    ensures Run(cmd, silent, input, longer)
    ensures longer[|longer| - 1].client == Exited(IPC_ERROR) && longer[|longer| - 1].tcp == s.tcp
  {
    hide Run, Step, Head;
    var s1;
    longer, s1 := ChunkRead(cmd, silent, input, run, s);
    if left == 1 {
      longer, s1 := HeadGone(cmd, silent, input, longer, s1);
    }
    var s2 := s1.(client := Exited(IPC_ERROR), fault := true);
    longer := Follow(cmd, silent, input, longer, s2) by { ClientGoes(cmd, silent, s1, s2) by { assert ClientFails(s1, s2); } }
  }

  // ----- send

  /** What comes of the input from here on, in closed form (see TransferClient.LoopsMeet). */
  function CodeOf(stdin: seq<byte>, tcpLeft: nat, left: nat): byte {
    var n := |TransferClient.Chunks(stdin)|;
    TransferClient.EndCode(left <= 2 * n, left / 2, tcpLeft <= n, tcpLeft)
  }

  function SentOn(stdin: seq<byte>, tcpLeft: nat, left: nat): seq<byte> {
    var chunks := TransferClient.Chunks(stdin);
    TransferClient.Join(chunks[..Min(Min(tcpLeft, left / 2), |chunks|)])
  }

  lemma NothingSentOn(stdin: seq<byte>, tcpLeft: nat, left: nat)
    requires stdin == [] || tcpLeft == 0 || left < 2
    ensures SentOn(stdin, tcpLeft, left) == []
    ensures CodeOf(stdin, tcpLeft, left)
         == if left == 0 || (left == 1 && stdin != []) then IPC_ERROR else if tcpLeft == 0 then NETWORK_ERROR else SUCCESS
  {
    var chunks := TransferClient.Chunks(stdin);
    assert chunks[..0] == [];
  }

  lemma OneMoreSentOn(stdin: seq<byte>, tcpLeft: nat, left: nat)
    requires stdin != [] && tcpLeft >= 1 && left >= 2
    ensures var chunk := TransferClient.Chunk(stdin);
            && SentOn(stdin, tcpLeft, left) == chunk + SentOn(stdin[|chunk|..], tcpLeft - 1, left - 2)
            && CodeOf(stdin, tcpLeft, left) == CodeOf(stdin[|chunk|..], tcpLeft - 1, left - 2)
  {
    hide TransferClient.Chunk, TransferClient.Chunks, TransferClient.Join, TransferClient.EndCode;
    TransferClient.JoinOneMore(stdin, Min(tcpLeft, left / 2));
    TransferClient.LaterFailure(|TransferClient.Chunks(stdin)| - 1, tcpLeft, left);
  }

  lemma {:induction false} SendRuns(silent: bool, input: seq<byte>, run: seq<State>, s: State, tcpLeft: nat, left: nat)
    returns (longer: seq<State>)
    requires Run(Send, silent, input, run) && s == run[|run| - 1] && Idle(s)
    ensures Run(Send, silent, input, longer)
    ensures longer[|longer| - 1].client == Exited(CodeOf(s.stdin, tcpLeft, left))
    ensures longer[|longer| - 1].tcp == s.tcp + SentOn(s.stdin, tcpLeft, left)
    decreases |s.stdin|
  {
    hide Run, Step, CodeOf, SentOn;
    assert s.tcp + [] == s.tcp;
    if left == 0 || (left == 1 && s.stdin != []) {
      NothingSentOn(s.stdin, tcpLeft, left);
      longer := SendFails(Send, silent, input, run, s, left);
    } else {
      var s1;
      longer, s1 := FrameThrough(Send, silent, input, run, s);
      if tcpLeft == 0 {
        NothingSentOn(s.stdin, tcpLeft, left);
        longer := ForwardFails(Send, silent, input, longer, s1);
      } else {
        var s2 := s1.(server := Replying, tcp := s1.tcp + s1.buffer);
        longer := Follow(Send, silent, input, longer, s2) by { ServerGoes(Send, silent, s1, s2) by { assert Forward(Send, s1, s2); } }
        var s3;
        longer, s3 := Answered(Send, silent, input, longer, s2);
        if s.stdin == [] {
          NothingSentOn(s.stdin, tcpLeft, left);
        } else {
          OneMoreSentOn(s.stdin, tcpLeft, left);
          longer := SendRuns(silent, input, longer, s3, tcpLeft - 1, left - 2);
          Regroup(s.tcp, s1.buffer, SentOn(s3.stdin, tcpLeft - 1, left - 2));
        }
      }
    }
  }

  /** What client_handle_send and server_cmd_send come to with the given numbers of sends that succeed, a run
      of the protocol comes to. */
  lemma SendIsRun(silent: bool, input: seq<byte>, tcpLeft: nat, left: nat, reset: bool) returns (run: seq<State>)
    ensures Run(Send, silent, input, run)
    ensures var codes := TransferClient.Codes(input, tcpLeft, left);
            var (code, sent) := TransferClient.Client(input, [SUCCESS] + codes, left, reset);
            run[|run| - 1].client == Exited(code) && run[|run| - 1].tcp == Serve(sent, tcpLeft).0
  {
    hide Run, Step, TransferClient.ClientLoop, Serve, TransferClient.Codes, TransferClient.Chunks, TransferClient.Join;
    var s;
    run, s := Begin(Send, silent, input);
    run := SendRuns(silent, input, run, s, tcpLeft, left);
    TransferClient.LoopsMeet(input, tcpLeft, left, reset);
    var codes := TransferClient.Codes(input, tcpLeft, left);
    assert ([SUCCESS] + codes)[1..] == codes;
    assert [] + SentOn(input, tcpLeft, left) == SentOn(input, tcpLeft, left);
  }

  // ----- nms_send

  /** What the two loops come to from here on: the exit code and the bytes for the TCP socket. */
  function NmsOutcome(stdin: seq<byte>, tcpLeft: nat, left: nat, first: bool, reset: bool): (byte, seq<byte>) {
    var (code, sent) := TransferClient.ClientLoop(stdin, TransferClient.NmsCodes(stdin, tcpLeft, left, first), left, reset);
    (code, ServeNms(sent, tcpLeft, first).0)
  }

  lemma NmsEnds(stdin: seq<byte>, tcpLeft: nat, left: nat, first: bool, reset: bool)
    requires stdin == [] || left < 2 || tcpLeft < 2
    ensures NmsOutcome(stdin, tcpLeft, left, first, reset)
         == if left == 0 || (left == 1 && stdin != []) then (IPC_ERROR, [])
            else if stdin == [] && !first then (SUCCESS, [])
            else if tcpLeft == 0 then (NETWORK_ERROR, [])
            else if stdin != [] then (NETWORK_ERROR, Head(|TransferClient.Chunk(stdin)|))
            else (SUCCESS, Head(0))
  {
    hide Frame, Head, TakeFrame;
    var chunk := TransferClient.Chunk(stdin);
    FrameRoundTrip(chunk, []);
    FrameParts(chunk);
    assert Frame(chunk) + [] == Frame(chunk);
    TransferClient.HeadIsNoFrame(chunk);
  }

  lemma NmsGoesOn(stdin: seq<byte>, tcpLeft: nat, left: nat, first: bool, reset: bool)
    requires stdin != [] && left >= 2 && tcpLeft >= 2
    ensures var chunk := TransferClient.Chunk(stdin);
            var (code, t) := NmsOutcome(stdin[|chunk|..], tcpLeft - 2, left - 2, false, reset);
            NmsOutcome(stdin, tcpLeft, left, first, reset) == (code, Frame(chunk) + t)
  {
    hide ServeNms, TransferClient.ClientLoop, Frame;
    var chunk := TransferClient.Chunk(stdin);
    var codes := TransferClient.NmsCodes(stdin[|chunk|..], tcpLeft - 2, left - 2, false);
    var (code, sent) := TransferClient.ClientLoop(stdin[|chunk|..], codes, left - 2, reset);
    TransferClient.OneMoreChunk(stdin, codes, left, reset);
    TransferClient.ServeNmsOneMore(chunk, sent, tcpLeft, first);
    hide TransferClient.Chunk;
  }

  /** The empty chunk behind others ends the command at once. */
  lemma LastChunk(silent: bool, input: seq<byte>, run: seq<State>, s: State) returns (longer: seq<State>)
    requires Run(NmsSend, silent, input, run) && s == run[|run| - 1] && Idle(s) && s.stdin == [] && s.tcp != []
    ensures Run(NmsSend, silent, input, longer)
    ensures longer[|longer| - 1].client == Exited(SUCCESS) && longer[|longer| - 1].tcp == s.tcp
  {
    hide Run, Step, Head;
    var s1, s2, s5;
    longer, s1 := ChunkRead(NmsSend, silent, input, run, s);
    longer, s2 := HeadGone(NmsSend, silent, input, longer, s1);
    FrameParts([]);
    var s3 := s2.(server := Closing, toServer := []);
    longer := Follow(NmsSend, silent, input, longer, s3) by { ServerGoes(NmsSend, silent, s2, s3) by { assert RecvHead(NmsSend, s2, s3); } }
    var s4 := s3.(server := Finished, toClient := [SUCCESS]);
    assert [] + [SUCCESS] == [SUCCESS];
    longer := Follow(NmsSend, silent, input, longer, s4) by { ServerGoes(NmsSend, silent, s3, s4) by { assert Close(s3, s4); } }
    longer, s5 := CodeTaken(NmsSend, silent, input, longer, s4);
  }

  lemma {:induction false} NmsRuns(silent: bool, input: seq<byte>, run: seq<State>, s: State, tcpLeft: nat, left: nat, reset: bool)
    returns (longer: seq<State>)
    requires Run(NmsSend, silent, input, run) && s == run[|run| - 1] && Idle(s)
    ensures Run(NmsSend, silent, input, longer)
    ensures var (code, t) := NmsOutcome(s.stdin, tcpLeft, left, s.tcp == [], reset);
            longer[|longer| - 1].client == Exited(code) && longer[|longer| - 1].tcp == s.tcp + t
    decreases |s.stdin|
  {
    hide Run, Step, NmsOutcome, Head;
    assert s.tcp + [] == s.tcp;
    var first := s.tcp == [];
    if EndsHere(s.stdin, tcpLeft, left) { NmsEnds(s.stdin, tcpLeft, left, first, reset); }
    if left == 0 || (left == 1 && s.stdin != []) {
      longer := SendFails(NmsSend, silent, input, run, s, left);
    } else if s.stdin == [] && !first {
      longer := LastChunk(silent, input, run, s);
    } else {
      var s1;
      longer, s1 := FrameThrough(NmsSend, silent, input, run, s);
      if tcpLeft == 0 {
        longer := ForwardFails(NmsSend, silent, input, longer, s1);
      } else {
        var s2 := s1.(server := if s1.buffer == [] then Replying else ForwardingBody, tcp := s1.tcp + Head(|s1.buffer|));
        longer := Follow(NmsSend, silent, input, longer, s2) by { ServerGoes(NmsSend, silent, s1, s2) by { assert Forward(NmsSend, s1, s2); } }
        if s.stdin == [] {
          var s3;
          longer, s3 := Answered(NmsSend, silent, input, longer, s2);
        } else if tcpLeft == 1 {
          longer := ForwardFails(NmsSend, silent, input, longer, s2);
        } else {
          longer := RestRuns(silent, input, longer, s, s2, tcpLeft, left, reset);
        }
      }
    }
  }

  predicate EndsHere(stdin: seq<byte>, tcpLeft: nat, left: nat) { stdin == [] || left < 2 || tcpLeft < 2 }

  /** From the second send of a frame to the TCP socket to the end. */
  lemma RestRuns(silent: bool, input: seq<byte>, run: seq<State>, s: State, s2: State, tcpLeft: nat, left: nat, reset: bool)
    returns (longer: seq<State>)
    requires Run(NmsSend, silent, input, run) && s2 == run[|run| - 1]
    requires s.stdin != [] && left >= 2 && tcpLeft >= 2 && s.toServer == [] && s.toClient == []
    requires var chunk := TransferClient.Chunk(s.stdin);
             s2 == s.(client := AwaitAck, chunk := chunk, stdin := s.stdin[|chunk|..], server := ForwardingBody, buffer := chunk,
                      tcp := s.tcp + Head(|chunk|))
    ensures Run(NmsSend, silent, input, longer)
    ensures var (code, t) := NmsOutcome(s.stdin, tcpLeft, left, s.tcp == [], reset);
            longer[|longer| - 1].client == Exited(code) && longer[|longer| - 1].tcp == s.tcp + t
    decreases |s.stdin|, 0
  {
    hide Run, Step, NmsOutcome, Head;
    var chunk := s2.chunk;
    FrameParts(chunk);
    NmsGoesOn(s.stdin, tcpLeft, left, s.tcp == [], reset);
    var s3 := s2.(server := Replying, tcp := s2.tcp + chunk);
    longer := Follow(NmsSend, silent, input, run, s3) by { ServerGoes(NmsSend, silent, s2, s3) by { assert ForwardBody(s2, s3); } }
    var s4;
    longer, s4 := Answered(NmsSend, silent, input, longer, s3);
    longer := NmsRuns(silent, input, longer, s4, tcpLeft - 2, left - 2, reset);
    Regroup(s.tcp, Head(|chunk|), chunk);
    Regroup(s.tcp, Frame(chunk), NmsOutcome(s4.stdin, tcpLeft - 2, left - 2, false, reset).1);
  }

  /** The same for server_cmd_nms_send. */
  lemma NmsSendIsRun(silent: bool, input: seq<byte>, tcpLeft: nat, left: nat, reset: bool) returns (run: seq<State>)
    ensures Run(NmsSend, silent, input, run)
    ensures var codes := TransferClient.NmsCodes(input, tcpLeft, left, true);
            var (code, sent) := TransferClient.Client(input, [SUCCESS] + codes, left, reset);
            run[|run| - 1].client == Exited(code) && run[|run| - 1].tcp == ServeNms(sent, tcpLeft, true).0
  {
    hide Run, Step, TransferClient.ClientLoop, ServeNms, TransferClient.NmsCodes;
    var s;
    run, s := Begin(NmsSend, silent, input);
    run := NmsRuns(silent, input, run, s, tcpLeft, left, reset);
    var codes := TransferClient.NmsCodes(input, tcpLeft, left, true);
    assert ([SUCCESS] + codes)[1..] == codes;
    var t := NmsOutcome(input, tcpLeft, left, true, reset).1;
    assert [] + t == t;
  }

  // ----- A connection that breaks

  /** For both commands and every input: the server is stopped, and the client ends with 255 when the broken
      connection is reported, or reads on when it is not. */
  lemma BrokenConnection(cmd: Command, silent: bool, input: seq<byte>) returns (run: seq<State>, unnoticed: seq<State>)
    ensures Run(cmd, silent, input, run) && run[|run| - 1].client == Exited(255) && run[|run| - 1].tcp == []
    ensures Run(cmd, silent, input, unnoticed) && unnoticed[|unnoticed| - 1].client == Reading
  {
    hide Step;
    var s0 := Start(input);
    run := [s0];
    var s1 := s0.(server := Finished, killed := true, fault := true);
    run := Follow(cmd, silent, input, run, s1) by { ServerGoes(cmd, silent, s0, s1) by { assert ServerKilled(s0, s1); } }
    var s2, s3 := s1.(client := Exited(255)), s1.(client := Reading);
    unnoticed := Follow(cmd, silent, input, run, s3) by { ClientGoes(cmd, silent, s1, s3) by { assert GetEnd(s1, s3); } }
    run := Follow(cmd, silent, input, run, s2) by { ClientGoes(cmd, silent, s1, s2) by { assert GetEnd(s1, s2); } }
  }

  /** Each refusal of the server ends the client with its code. */
  lemma RefusedRun(cmd: Command, silent: bool, input: seq<byte>, code: byte) returns (run: seq<State>)
    requires code in {1, 2, 4}
    ensures Run(cmd, silent, input, run) && run[|run| - 1].client == Exited(code) && run[|run| - 1].tcp == []
  {
    hide Step;
    var s0 := Start(input);
    run := [s0];
    var s1 := s0.(server := Finished, toClient := [code], fault := true);
    assert [] + [code] == [code];
    run := Follow(cmd, silent, input, run, s1) by { ServerGoes(cmd, silent, s0, s1) by { assert Refuse(s0, s1); } }
    var s2 := s1.(client := Exited(code), toClient := []);
    run := Follow(cmd, silent, input, run, s2) by { ClientGoes(cmd, silent, s1, s2) by { assert GetCode(s1, s2); } }
  }
}
