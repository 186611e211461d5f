/** client_handle.c: client_handle_send, and what it achieves together with the two servers. */
module TransferClient {
  import opened Bits
  import opened Nms
  import opened Transfer

  /** Standard input. */
  class Input {
    var rest: seq<byte>

    constructor (rest: seq<byte>)
      ensures this.rest == rest
    {
      this.rest := rest;
    }

    /** fread: waits for max bytes or the end of the input. */
    method Read(max: nat) returns (chunk: seq<byte>)
      modifies this
      ensures chunk == old(rest)[..Min(max, |old(rest)|)] && rest == old(rest)[|chunk|..]
    {
      chunk := rest[..Min(max, |rest|)];
      rest := rest[|chunk|..];
    }
  }

  // ----- client_handle_send

  /** recv_code: 0xFF on an error; when the peer has closed, the zero it starts from, which is SUCCESS. */
  function NextCode(replies: seq<byte>, reset: bool): byte {
    if replies != [] then replies[0] else if reset then 255 else SUCCESS
  }

  function Tail(replies: seq<byte>): seq<byte> { if replies == [] then [] else replies[1..] }

  function Chunk(stdin: seq<byte>): (chunk: seq<byte>)
    ensures |chunk| <= MAX_FRAME && (chunk == [] <==> stdin == []) && chunk <= stdin
  {
    stdin[..Min(MAX_FRAME, |stdin|)]
  }

  /** The exit code and the bytes sent, given the replies and how many sends succeed. */
  function ClientLoop(stdin: seq<byte>, replies: seq<byte>, left: nat, reset: bool): (byte, seq<byte>)
    decreases |stdin|
  {
    var chunk := Chunk(stdin);
    if left < SendsFor(chunk) then (IPC_ERROR, if left == 0 then [] else Head(|chunk|))
    else
      var code := NextCode(replies, reset);
      if chunk == [] || code != SUCCESS then (code, Frame(chunk))
      else
        var (c, more) := ClientLoop(stdin[|chunk|..], Tail(replies), left - SendsFor(chunk), reset);
        (c, Frame(chunk) + more)
  }

  function Client(stdin: seq<byte>, replies: seq<byte>, left: nat, reset: bool): (byte, seq<byte>) {
    var code := NextCode(replies, reset);
    if code != SUCCESS then (code, []) else ClientLoop(stdin, Tail(replies), left, reset)
  }

  method RecvCode(socket: Socket) returns (code: byte)
    modifies socket`incoming
    ensures code == NextCode(old(socket.incoming), socket.reset) && socket.incoming == Tail(old(socket.incoming))
  {
    ghost var s := socket.incoming;
    var cell := new byte[1](_ => 0);
    var ret := socket.Recv(cell, 1);
    if s != [] {
      assert cell[..1][0] == s[0];
    } else {
      assert cell[0..][0] == 0;
    }
    code := if ret == -1 then 255 else cell[0];
  }

  method ClientHandleSend(socket: Socket, stdin: Input, memory: bool) returns (code: byte)
    modifies socket, stdin
    ensures !memory ==> code == 10 && socket.outgoing == old(socket.outgoing) && stdin.rest == old(stdin.rest)
    ensures memory ==>
              var (c, sent) := Client(old(stdin.rest), old(socket.incoming), old(socket.sendsLeft), socket.reset);
              code == c && socket.outgoing == old(socket.outgoing) + sent
    ensures memory && old(socket.incoming) != [] && old(socket.incoming)[0] != 0 ==>
              code == old(socket.incoming)[0] && socket.outgoing == old(socket.outgoing) && stdin.rest == old(stdin.rest)
  {
    hide Frame, Head, SendsFor, NextCode, Tail, Chunk, ClientLoop, ClientPending;
    FirstReply(socket.incoming, socket.reset);
    if !memory {
      return CLIENT_OOM;
    }
    code := RecvCode(socket);
    ghost var sent: seq<byte> := [];
    assert socket.outgoing + [] == socket.outgoing;
    if code == SUCCESS {
      ghost var total := ClientLoop(stdin.rest, socket.incoming, socket.sendsLeft, socket.reset);
      ClientPendingStart(stdin.rest, socket.incoming, socket.sendsLeft, socket.reset);
      var going := true;
      while going
        invariant socket.outgoing == old(socket.outgoing) + sent
        invariant going ==> ClientPending(stdin.rest, socket.incoming, socket.sendsLeft, socket.reset, sent, total)
        invariant !going ==> (code, sent) == total
        decreases going, |stdin.rest|
      {
        ClientStep(stdin.rest, socket.incoming, socket.sendsLeft, socket.reset, sent, total);
        var count := stdin.Read(MAX_FRAME);
        var failed := socket.NmsSend(count);
        if failed {
          return IPC_ERROR;
        }
        sent := sent + Frame(count);
        code := RecvCode(socket);
        going := count != [] && code == SUCCESS;
      }
    }
  }

  lemma FirstReply(replies: seq<byte>, reset: bool)
    ensures SUCCESS == 0 && NextCode(replies, reset) == if replies != [] then replies[0] else if reset then 255 else 0
  {
  }

  /** A first code other than 0 is the exit code, and nothing is sent. A connection that breaks before the
      first code gives 255. */
  lemma RefusedClient(stdin: seq<byte>, replies: seq<byte>, left: nat, reset: bool)
    ensures replies != [] && replies[0] != 0 ==> Client(stdin, replies, left, reset) == (replies[0], [])
    ensures replies == [] && reset ==> Client(stdin, replies, left, reset) == (255, [])
  {
    hide ClientLoop;
  }

  /** Later too, the first code other than 0 ends the transfer and is the exit code. */
  lemma {:induction false} FirstBadReply(stdin: seq<byte>, k: nat, c: byte, more: seq<byte>, left: nat, reset: bool)
    requires c != 0 && k <= |Chunks(stdin)| && left >= 2 * k + 2
    ensures ClientLoop(stdin, Repeat<byte>(0, k) + ([c] + more), left, reset).0 == c
    decreases k
  {
    hide Frame, Head, Chunk;
    if k == 0 {
      assert Repeat<byte>(0, 0) + ([c] + more) == [c] + more;
    } else {
      RepeatOneMore<byte>(0, k);
      Regroup([0], Repeat<byte>(0, k - 1), [c] + more);
      var codes := Repeat<byte>(0, k - 1) + ([c] + more);
      assert ([0] + codes)[1..] == codes;
      FirstBadReply(stdin[|Chunk(stdin)|..], k - 1, c, more, left - 2, reset);
    }
  }

  /** What is left to do, against the whole of what ClientLoop says. */
  ghost predicate ClientPending(stdin: seq<byte>, replies: seq<byte>, left: nat, reset: bool, sent: seq<byte>, total: (byte, seq<byte>)) {
    var (c, more) := ClientLoop(stdin, replies, left, reset);
    (c, sent + more) == total
  }

  lemma ClientPendingStart(stdin: seq<byte>, replies: seq<byte>, left: nat, reset: bool)
    ensures ClientPending(stdin, replies, left, reset, [], ClientLoop(stdin, replies, left, reset))
  {
    hide ClientLoop;
    assert [] + ClientLoop(stdin, replies, left, reset).1 == ClientLoop(stdin, replies, left, reset).1;
  }

  lemma ClientStep(stdin: seq<byte>, replies: seq<byte>, left: nat, reset: bool, sent: seq<byte>, total: (byte, seq<byte>))
    requires ClientPending(stdin, replies, left, reset, sent, total)
    ensures var chunk := stdin[..Min(MAX_FRAME, |stdin|)];
            var code := NextCode(replies, reset);
            if left < SendsFor(chunk) then total == (IPC_ERROR, sent + if left == 0 then [] else Head(|chunk|))
            else if chunk == [] || code != SUCCESS then total == (code, sent + Frame(chunk))
            else ClientPending(stdin[|chunk|..], Tail(replies), left - SendsFor(chunk), reset, sent + Frame(chunk), total)
  {
    hide Frame, Head, SendsFor, NextCode, Tail;
    var chunk := Chunk(stdin);
    if left >= SendsFor(chunk) && chunk != [] && NextCode(replies, reset) == SUCCESS {
      var more' := ClientLoop(stdin[|chunk|..], Tail(replies), left - SendsFor(chunk), reset).1;
      assert sent + (Frame(chunk) + more') == sent + Frame(chunk) + more';
    }
  }

  // ----- Both sides together

  /** The chunks the client takes from its input. */
  function Chunks(stdin: seq<byte>): (chunks: seq<seq<byte>>)
    ensures ChunksOk(chunks)
    decreases |stdin|
  {
    if stdin == [] then [] else [Chunk(stdin)] + Chunks(stdin[|Chunk(stdin)|..])
  }

  predicate ChunksOk(chunks: seq<seq<byte>>) {
    forall i :: 0 <= i < |chunks| ==> 1 <= |chunks[i]| <= MAX_FRAME
  }

  function Join(chunks: seq<seq<byte>>): seq<byte> {
    if chunks == [] then [] else chunks[0] + Join(chunks[1..])
  }

  lemma {:induction false} ChunksJoin(stdin: seq<byte>)
    ensures Join(Chunks(stdin)) == stdin
    decreases |stdin|
  {
    hide Chunk;
    if stdin != [] {
      var chunk, rest := Chunk(stdin), stdin[|Chunk(stdin)|..];
      ChunksJoin(rest);
      assert Chunks(stdin) == [chunk] + Chunks(rest);
      hide Chunks;
      assert ([chunk] + Chunks(rest))[1..] == Chunks(rest);
      assert chunk + rest == stdin;
    }
  }

  /** The codes that the server answers with, when tcpLeft of its sends to the TCP socket and left of
      the client's sends succeed. */
  function Codes(stdin: seq<byte>, tcpLeft: nat, left: nat): seq<byte>
    decreases |stdin|
  {
    if left < SendsFor(Chunk(stdin)) then []
    else if tcpLeft == 0 then [NETWORK_ERROR]
    else if stdin == [] then [SUCCESS]
    else [SUCCESS] + Codes(stdin[|Chunk(stdin)|..], tcpLeft - 1, left - 2)
  }

  /** The exit code for n chunks, when the client can send frames up to number `sends` and the server
      can forward those up to number `forwards`; the frame after the chunks is the empty one. */
  function EndCode(clientFails: bool, sends: nat, serverFails: bool, forwards: nat): byte {
    if clientFails && (!serverFails || sends <= forwards) then IPC_ERROR
    else if serverFails then NETWORK_ERROR
    else SUCCESS
  }

  /** The two loops answer each other, whichever sends fail: the client sends what the server's codes
      let it send, and the server gives those codes for what it is sent. Exactly the chunks whose
      sends all succeeded are forwarded. The exit code names the failure that comes first, and is
      SUCCESS if and only if no send failed, that of the empty frame included. */
  lemma {:induction false} LoopsMeet(stdin: seq<byte>, tcpLeft: nat, left: nat, reset: bool)
    ensures var codes, n := Codes(stdin, tcpLeft, left), |Chunks(stdin)|;
            var (code, sent) := ClientLoop(stdin, codes, left, reset);
            && Serve(sent, tcpLeft) == (Join(Chunks(stdin)[..Min(Min(tcpLeft, left / 2), n)]), codes)
            && code == EndCode(left <= 2 * n, left / 2, tcpLeft <= n, tcpLeft)
    decreases |stdin|
  {
    hide Frame, Head, TakeFrame, Serve, Chunk, ClientLoop, Join, EndCode, Chunks, Codes;
    if stdin == [] || left < 2 || tcpLeft == 0 {
      LoopsEnd(stdin, tcpLeft, left, reset);
    } else {
      CodesOneMore(stdin, tcpLeft, left);
      var chunk := Chunk(stdin);
      var rest := stdin[|chunk|..];
      LoopsMeet(rest, tcpLeft - 1, left - 2, reset);
      var codes := Codes(rest, tcpLeft - 1, left - 2);
      var (code, sent) := ClientLoop(rest, codes, left - 2, reset);
      OneMoreChunk(stdin, codes, left, reset);
      ServeOneMore(chunk, sent, tcpLeft);
      JoinOneMore(stdin, Min(tcpLeft, left / 2));
      LaterFailure(|Chunks(rest)|, tcpLeft, left);
    }
  }

  lemma CodesOneMore(stdin: seq<byte>, tcpLeft: nat, left: nat)
    requires stdin != [] && tcpLeft >= 1 && left >= 2
    ensures Codes(stdin, tcpLeft, left) == [SUCCESS] + Codes(stdin[|Chunk(stdin)|..], tcpLeft - 1, left - 2)
  {
    hide Chunk;
  }

  lemma LaterFailure(n: nat, tcpLeft: nat, left: nat)
    requires tcpLeft >= 1 && left >= 2
    ensures EndCode(left <= 2 * (n + 1), left / 2, tcpLeft <= n + 1, tcpLeft)
         == EndCode(left - 2 <= 2 * n, (left - 2) / 2, tcpLeft - 1 <= n, tcpLeft - 1)
  {
  }

  /** The last frame that the client tries to send, or the first that the server cannot forward. */
  lemma LoopsEnd(stdin: seq<byte>, tcpLeft: nat, left: nat, reset: bool)
    requires stdin == [] || left < 2 || tcpLeft == 0
    ensures var codes, n := Codes(stdin, tcpLeft, left), |Chunks(stdin)|;
            var (code, sent) := ClientLoop(stdin, codes, left, reset);
            && Serve(sent, tcpLeft) == (Join(Chunks(stdin)[..Min(Min(tcpLeft, left / 2), n)]), codes)
            && code == EndCode(left <= 2 * n, left / 2, tcpLeft <= n, tcpLeft)
  {
    hide Frame, Head, TakeFrame;
    var chunk := Chunk(stdin);
    FrameRoundTrip(chunk, []);
    assert Frame(chunk) + [] == Frame(chunk);
    HeadIsNoFrame(chunk);
    assert Chunks(stdin)[..0] == [];
  }

  /** A connection that ends before a frame is complete. */
  lemma HeadIsNoFrame(chunk: seq<byte>)
    requires |chunk| <= MAX_FRAME
    ensures TakeFrame([]) == None
    ensures chunk != [] ==> TakeFrame(Head(|chunk|)) == None
  {
    CutFrameFails(chunk, 0);
    if chunk != [] {
      CutFrameFails(chunk, 2);
      assert Frame(chunk)[..2] == Head(|chunk|);
    }
    assert Frame(chunk)[..0] == [];
  }

  lemma JoinOneMore(stdin: seq<byte>, k: nat)
    requires stdin != [] && k >= 1
    ensures var chunks, more := Chunks(stdin), Chunks(stdin[|Chunk(stdin)|..]);
            && |chunks| == |more| + 1
            && Join(chunks[..Min(k, |chunks|)]) == Chunk(stdin) + Join(more[..Min(k - 1, |more|)])
  {
    hide Chunk;
    var chunks, more := Chunks(stdin), Chunks(stdin[|Chunk(stdin)|..]);
    assert chunks == [Chunk(stdin)] + more;
    assert chunks[..Min(k, |chunks|)][1..] == more[..Min(k - 1, |more|)];
  }

  lemma OneMoreChunk(stdin: seq<byte>, codes: seq<byte>, left: nat, reset: bool)
    requires left >= 2 && stdin != []
    ensures var chunk := Chunk(stdin);
            var (code, sent) := ClientLoop(stdin[|chunk|..], codes, left - 2, reset);
            ClientLoop(stdin, [SUCCESS] + codes, left, reset) == (code, Frame(chunk) + sent)
  {
    hide Frame, Head, Chunk;
    assert ([SUCCESS] + codes)[1..] == codes;
  }

  lemma ServeOneMore(chunk: seq<byte>, sent: seq<byte>, tcpLeft: nat)
    requires 1 <= |chunk| <= MAX_FRAME && tcpLeft >= 1
    ensures var (t, codes) := Serve(sent, tcpLeft - 1);
            Serve(Frame(chunk) + sent, tcpLeft) == (chunk + t, [SUCCESS] + codes)
  {
    hide Frame, TakeFrame;
    FrameRoundTrip(chunk, sent);
    FrameIsUnique(Frame(chunk) + sent);
  }

  /** A whole transfer: with the server's first code in front. SUCCESS means that all of the input
      was forwarded, any other code names a send that failed. */
  lemma TransferMeets(stdin: seq<byte>, tcpLeft: nat, left: nat, reset: bool)
    ensures var codes, n := Codes(stdin, tcpLeft, left), |Chunks(stdin)|;
            var (code, sent) := Client(stdin, [SUCCESS] + codes, left, reset);
            && Serve(sent, tcpLeft).1 == codes
            && Serve(sent, tcpLeft).0 <= stdin
            && (code == SUCCESS <==> tcpLeft > n && left > 2 * n)
            && (code == SUCCESS ==> Serve(sent, tcpLeft).0 == stdin)
            && code in {SUCCESS, NETWORK_ERROR, IPC_ERROR}
  {
    hide ClientLoop, Serve, Codes, Chunks;
    LoopsMeet(stdin, tcpLeft, left, reset);
    assert ([SUCCESS] + Codes(stdin, tcpLeft, left))[1..] == Codes(stdin, tcpLeft, left);
    ChunksJoin(stdin);
    var n := |Chunks(stdin)|;
    JoinPrefix(Chunks(stdin), Min(Min(tcpLeft, left / 2), n));
    assert Chunks(stdin)[..n] == Chunks(stdin);
  }

  /** The exit codes in numbers: 12 when a send of the client fails first, 3 when one of the server does,
      and 0 when none fails. */
  lemma ExitCodes(stdin: seq<byte>, tcpLeft: nat, left: nat, reset: bool)
    ensures var codes, n := Codes(stdin, tcpLeft, left), |Chunks(stdin)|;
            Client(stdin, [0] + codes, left, reset).0
              == if left <= 2 * n && (tcpLeft > n || left / 2 <= tcpLeft) then 12 else if tcpLeft <= n then 3 else 0
  {
    hide ClientLoop, Serve, Codes, Chunks;
    LoopsMeet(stdin, tcpLeft, left, reset);
    assert ([0] + Codes(stdin, tcpLeft, left))[1..] == Codes(stdin, tcpLeft, left);
  }

  /** The same for nms_send, whose frames take two sends each and which forwards an empty frame for an empty
      input only. */
  lemma NmsExitCodes(stdin: seq<byte>, tcpLeft: nat, left: nat, reset: bool)
    ensures var codes, n := NmsCodes(stdin, tcpLeft, left, true), |Chunks(stdin)|;
            Client(stdin, [0] + codes, left, reset).0
              == if left <= 2 * n && (tcpLeft >= 2 * n || left / 2 <= tcpLeft / 2) then 12
                 else if (if n == 0 then tcpLeft == 0 else tcpLeft < 2 * n) then 3 else 0
  {
    hide ClientLoop, ServeNms, NmsCodes, Chunks, TakeAll;
    NmsLoopsMeet(stdin, tcpLeft, left, reset, true);
    assert ([0] + NmsCodes(stdin, tcpLeft, left, true))[1..] == NmsCodes(stdin, tcpLeft, left, true);
  }

  lemma {:induction false} JoinPrefix(chunks: seq<seq<byte>>, k: nat)
    requires k <= |chunks|
    ensures Join(chunks[..k]) <= Join(chunks)
    decreases k
  {
    if k != 0 {
      JoinPrefix(chunks[1..], k - 1);
      assert chunks[..k][1..] == chunks[1..][..k - 1];
    }
  }

  // ----- nms_send keeps the framing

  function Frames(chunks: seq<seq<byte>>): seq<byte>
    requires ChunksOk(chunks)
  {
    if chunks == [] then [] else Frame(chunks[0]) + Frames(chunks[1..])
  }

  /** The frames a receiver takes from a byte stream. */
  function TakeAll(s: seq<byte>): seq<seq<byte>>
    decreases |s|
  {
    FrameIsUnique(s);
    match TakeFrame(s)
    case None => []
    case Some((data, rest)) => [data] + TakeAll(rest)
  }

  lemma TakeOneMore(chunk: seq<byte>, s: seq<byte>)
    requires |chunk| <= MAX_FRAME
    ensures TakeAll(Frame(chunk) + s) == [chunk] + TakeAll(s)
  {
    hide Frame, TakeFrame;
    FrameRoundTrip(chunk, s);
    FrameIsUnique(Frame(chunk) + s);
  }

  /** As Codes, for server_cmd_nms_send, whose last code the client no longer waits for. */
  function NmsCodes(stdin: seq<byte>, tcpLeft: nat, left: nat, first: bool): seq<byte>
    decreases |stdin|
  {
    var chunk := Chunk(stdin);
    if left < SendsFor(chunk) then (if first then [] else [SUCCESS])
    else if chunk == [] && !first then [SUCCESS]
    else if tcpLeft < SendsFor(chunk) then [NETWORK_ERROR, SUCCESS]
    else if chunk == [] then [SUCCESS, SUCCESS]
    else [SUCCESS] + NmsCodes(stdin[|chunk|..], tcpLeft - 2, left - 2, false)
  }

  /** What the receiver at the other end of the TCP socket gets. */
  function Arrived(stdin: seq<byte>, tcpLeft: nat, left: nat, first: bool): seq<seq<byte>> {
    var chunks := Chunks(stdin);
    if chunks == [] then (if first && tcpLeft >= 1 && left >= 1 then [[]] else [])
    else chunks[..Min(Min(tcpLeft / 2, left / 2), |chunks|)]
  }

  function NmsEndCode(n: nat, tcpLeft: nat, left: nat, first: bool): byte {
    if n == 0 && first then EndCode(left == 0, 0, tcpLeft == 0, 0)
    else EndCode(left <= 2 * n, left / 2, tcpLeft < 2 * n, tcpLeft / 2)
  }

  /** Client and server of nms_send answer each other, whichever sends fail. The receiver takes
      exactly the chunks whose sends all succeeded, one frame for each, even when a head without its
      data was written after them; an empty input arrives as one empty frame. */
  lemma {:induction false} NmsLoopsMeet(stdin: seq<byte>, tcpLeft: nat, left: nat, reset: bool, first: bool)
    ensures var codes := NmsCodes(stdin, tcpLeft, left, first);
            var (code, sent) := ClientLoop(stdin, codes, left, reset);
            var (t, answers) := ServeNms(sent, tcpLeft, first);
            && answers == codes && TakeAll(t) == Arrived(stdin, tcpLeft, left, first)
            && code == NmsEndCode(|Chunks(stdin)|, tcpLeft, left, first)
    decreases |stdin|
  {
    hide Frame, Head, TakeFrame, ServeNms, Chunk, ClientLoop, TakeAll, Arrived, NmsEndCode, Chunks;
    if stdin == [] || left < 2 || tcpLeft < 2 {
      NmsLoopsEnd(stdin, tcpLeft, left, reset, first);
    } else {
      var chunk := Chunk(stdin);
      var rest := stdin[|chunk|..];
      NmsLoopsMeet(rest, tcpLeft - 2, left - 2, reset, false);
      var codes := NmsCodes(rest, tcpLeft - 2, left - 2, false);
      var (code, sent) := ClientLoop(rest, codes, left - 2, reset);
      OneMoreChunk(stdin, codes, left, reset);
      ServeNmsOneMore(chunk, sent, tcpLeft, first);
      TakeOneMore(chunk, ServeNms(sent, tcpLeft - 2, false).0);
      ArrivedOneMore(stdin, tcpLeft, left, first);
    }
  }

  lemma ArrivedOneMore(stdin: seq<byte>, tcpLeft: nat, left: nat, first: bool)
    requires stdin != [] && tcpLeft >= 2 && left >= 2
    ensures var rest := stdin[|Chunk(stdin)|..];
            && Arrived(stdin, tcpLeft, left, first) == [Chunk(stdin)] + Arrived(rest, tcpLeft - 2, left - 2, false)
            && NmsEndCode(|Chunks(stdin)|, tcpLeft, left, first) == NmsEndCode(|Chunks(rest)|, tcpLeft - 2, left - 2, false)
  {
    hide Chunk;
    var rest := stdin[|Chunk(stdin)|..];
    assert Chunks(stdin) == [Chunk(stdin)] + Chunks(rest);
  }

  lemma NmsLoopsEnd(stdin: seq<byte>, tcpLeft: nat, left: nat, reset: bool, first: bool)
    requires stdin == [] || left < 2 || tcpLeft < 2
    ensures var codes := NmsCodes(stdin, tcpLeft, left, first);
            var (code, sent) := ClientLoop(stdin, codes, left, reset);
            var (t, answers) := ServeNms(sent, tcpLeft, first);
            && answers == codes && TakeAll(t) == Arrived(stdin, tcpLeft, left, first)
            && code == NmsEndCode(|Chunks(stdin)|, tcpLeft, left, first)
  {
    hide Frame, Head, TakeFrame;
    var chunk := Chunk(stdin);
    FrameRoundTrip(chunk, []);
    assert Frame(chunk) + [] == Frame(chunk);
    HeadIsNoFrame(chunk);
    TakeOneMore(chunk, []);
    assert Chunks(stdin)[..0] == [];
  }

  lemma ServeNmsOneMore(chunk: seq<byte>, sent: seq<byte>, tcpLeft: nat, first: bool)
    requires 1 <= |chunk| <= MAX_FRAME && tcpLeft >= 2
    ensures var (t, codes) := ServeNms(sent, tcpLeft - 2, false);
            ServeNms(Frame(chunk) + sent, tcpLeft, first) == (Frame(chunk) + t, [SUCCESS] + codes)
  {
    hide Frame, TakeFrame;
    FrameRoundTrip(chunk, sent);
    FrameIsUnique(Frame(chunk) + sent);
  }

  /** A whole nms_send, with the server's first code in front: the frames that arrive hold a prefix
      of the input, all of it exactly when the client ends with SUCCESS. */
  lemma NmsTransferMeets(stdin: seq<byte>, tcpLeft: nat, left: nat, reset: bool)
    ensures var codes, n := NmsCodes(stdin, tcpLeft, left, true), |Chunks(stdin)|;
            var (code, sent) := Client(stdin, [SUCCESS] + codes, left, reset);
            var (t, answers) := ServeNms(sent, tcpLeft, true);
            && answers == codes && Join(TakeAll(t)) <= stdin
            && (code == SUCCESS <==> left > 2 * n && tcpLeft >= if n == 0 then 1 else 2 * n)
            && (code == SUCCESS ==> Join(TakeAll(t)) == stdin)
  {
    hide ClientLoop, ServeNms, NmsCodes, TakeAll, Chunks;
    NmsLoopsMeet(stdin, tcpLeft, left, reset, true);
    var codes, chunks := NmsCodes(stdin, tcpLeft, left, true), Chunks(stdin);
    assert ([SUCCESS] + codes)[1..] == codes;
    ChunksJoin(stdin);
    if chunks == [] {
      var one: seq<seq<byte>> := [[]];
      assert one[1..] == [] && Join(one) == [] + Join(one[1..]);
    } else {
      JoinPrefix(chunks, Min(Min(tcpLeft / 2, left / 2), |chunks|));
      assert chunks[..|chunks|] == chunks;
    }
  }

  /** Frames of any sizes and then the empty one: each is forwarded as it is, up to the first whose
      sends fail, and one code is sent for each frame received. */
  lemma {:induction false} NmsForwards(chunks: seq<seq<byte>>, tcpLeft: nat, first: bool)
    requires ChunksOk(chunks) && (first ==> chunks != [])
    ensures var k := tcpLeft / 2;
            ServeNms(Frames(chunks) + Frame([]), tcpLeft, first) ==
              if k >= |chunks| then (Frames(chunks), Repeat<byte>(SUCCESS, |chunks| + 1))
              else (Frames(chunks[..k]) + (if tcpLeft % 2 == 1 then Head(|chunks[k]|) else []),
                    Repeat<byte>(SUCCESS, k) + [NETWORK_ERROR, SUCCESS])
    decreases |chunks|
  {
    hide Frame, TakeFrame, Head;
    if chunks == [] {
      FrameRoundTrip([], []);
      assert Frames(chunks) + Frame([]) == Frame([]) + [];
      assert Repeat<byte>(SUCCESS, 1) == [SUCCESS];
    } else {
      var rest := Frames(chunks[1..]) + Frame([]);
      assert Frames(chunks) + Frame([]) == Frame(chunks[0]) + rest;
      if tcpLeft < 2 {
        NmsFirstFails(chunks[0], rest, tcpLeft, first);
        assert chunks[..0] == [] && Frames([]) == [];
        assert [] + Head(|chunks[0]|) == Head(|chunks[0]|);
        assert Repeat<byte>(SUCCESS, 0) + [NETWORK_ERROR, SUCCESS] == [NETWORK_ERROR, SUCCESS];
        assert tcpLeft / 2 == 0 && tcpLeft % 2 == tcpLeft;
      } else {
        ServeNmsOneMore(chunks[0], rest, tcpLeft, first);
        NmsForwards(chunks[1..], tcpLeft - 2, false);
        hide ServeNms;
        ForwardedOneMore(chunks, tcpLeft / 2);
      }
    }
  }

  lemma NmsFirstFails(chunk: seq<byte>, rest: seq<byte>, tcpLeft: nat, first: bool)
    requires 1 <= |chunk| <= MAX_FRAME && tcpLeft < 2
    ensures ServeNms(Frame(chunk) + rest, tcpLeft, first)
         == (if tcpLeft == 0 then [] else Head(|chunk|), [NETWORK_ERROR, SUCCESS])
  {
    hide Frame, TakeFrame, Head;
    FrameRoundTrip(chunk, rest);
  }

  lemma ForwardedOneMore(chunks: seq<seq<byte>>, k: nat)
    requires ChunksOk(chunks) && chunks != [] && k >= 1
    ensures Repeat<byte>(SUCCESS, |chunks| + 1) == [SUCCESS] + Repeat<byte>(SUCCESS, |chunks|)
    ensures k < |chunks| ==>
              && Repeat<byte>(SUCCESS, k) + [NETWORK_ERROR, SUCCESS]
                   == [SUCCESS] + (Repeat<byte>(SUCCESS, k - 1) + [NETWORK_ERROR, SUCCESS])
              && forall d: seq<byte> ::
                   Frames(chunks[..k]) + d == Frame(chunks[0]) + (Frames(chunks[1..][..k - 1]) + d)
  {
    hide Frame;
    if k < |chunks| {
      assert chunks[..k][1..] == chunks[1..][..k - 1];
      forall d: seq<byte>
        ensures Frames(chunks[..k]) + d == Frame(chunks[0]) + (Frames(chunks[1..][..k - 1]) + d)
      {
        Regroup(Frame(chunks[0]), Frames(chunks[1..][..k - 1]), d);
      }
    }
  }

  /** The receiver takes whole frames only: the chunks whose sends succeeded, one by one; an empty
      input arrives as one empty frame. */
  lemma NmsKeepsFraming(chunks: seq<seq<byte>>, tcpLeft: nat)
    requires ChunksOk(chunks)
    ensures var (t, codes) := ServeNms(Frames(chunks) + Frame([]), tcpLeft, true);
            TakeAll(t) == if chunks == [] then (if tcpLeft >= 1 then [[]] else [])
                          else chunks[..Min(tcpLeft / 2, |chunks|)]
  {
    hide Frame, TakeFrame, Head;
    HeadIsNoFrame([]);
    if chunks == [] {
      FrameRoundTrip([], []);
      assert Frames(chunks) + Frame([]) == Frame([]) + [];
      TakeOneMore([], []);
      assert ServeNms([], if tcpLeft >= 1 then tcpLeft - 1 else 0, false) == ([], [SUCCESS]);
    } else {
      NmsForwards(chunks, tcpLeft, true);
      var k := tcpLeft / 2;
      if k >= |chunks| {
        TakeAllFrames(chunks, []);
        assert Frames(chunks) + [] == Frames(chunks) && chunks[..|chunks|] == chunks;
      } else {
        HeadIsNoFrame(chunks[k]);
        TakeAllFrames(chunks[..k], if tcpLeft % 2 == 1 then Head(|chunks[k]|) else []);
      }
    }
  }

  /** Frames and whatever follows them without being one. */
  lemma {:induction false} TakeAllFrames(chunks: seq<seq<byte>>, d: seq<byte>)
    requires ChunksOk(chunks) && TakeFrame(d) == None
    ensures TakeAll(Frames(chunks) + d) == chunks
    decreases |chunks|
  {
    hide Frame, TakeFrame;
    if chunks == [] {
      assert Frames(chunks) + d == d;
    } else {
      Regroup(Frame(chunks[0]), Frames(chunks[1..]), d);
      TakeOneMore(chunks[0], Frames(chunks[1..]) + d);
      TakeAllFrames(chunks[1..], d);
    }
  }
}
