/** The server and the network as an adversary of the downloader. */
module Transfer {

  /** Worth retrying (a transport failure or a 5xx status) or not. */
  datatype Fault = Transient | Permanent

  /** What the server makes of a request before any byte of the body arrives. */
  datatype Reply =
    | Refused(fault: Fault)
    | NotSatisfiable // 416
    | Whole          // 200: the Range header was ignored
    | Ranged         // 206: the bytes asked for follow

  /** The adversary's moves. A move that does not apply to the current state does nothing. */
  datatype Event =
    | Ask(reply: Reply)
    | Piece(n: nat)
    | End
    | Break(fault: Fault)
}
