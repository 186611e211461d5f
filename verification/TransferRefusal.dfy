/** A send command that the server refuses, from the one end to the other: server_cmd_send or
    server_cmd_nms_send, and then client_handle_send on what it answered. */
module TransferRefusal {
  import opened Bits
  import opened Nms
  import opened Transfer
  import opened TransferClient

  /** The client ends with 1 for missing arguments, 4 for an unknown socket id and 2 for lack of memory; it sends
      nothing and leaves its input unread, and nothing goes to the TCP socket. codesLeft says how many
      codes can arrive, the others how many sends of the client and to the TCP socket could succeed. */
  method RefusedCommand(nms: bool, argsOk: bool, found: bool, memory: bool, input: seq<byte>,
                        codesLeft: nat, clientLeft: nat, tcpLeft: nat, reset: bool)
    returns (code: byte, unread: seq<byte>, sent: seq<byte>, forwarded: seq<byte>)
    requires !argsOk || !found || !memory
    requires codesLeft >= 1
    ensures !argsOk ==> code == 1
    ensures argsOk && !found ==> code == 4
    ensures argsOk && found && !memory ==> code == 2
    ensures unread == input && sent == [] && forwarded == []
  {
    var server := new Socket([], codesLeft, reset);
    var tcp := new Socket([], tcpLeft, reset);
    if nms {
      ServerCmdNmsSend(server, tcp, argsOk, found, memory);
    } else {
      ServerCmdSend(server, tcp, argsOk, found, memory);
    }
    var client := new Socket(server.outgoing, clientLeft, reset);
    var stdin := new Input(input);
    code := ClientHandleSend(client, stdin, true);
    unread, sent, forwarded := stdin.rest, client.outgoing, tcp.outgoing;
  }
}
