/**
 The relay's rules: what a room may hold, who may dial it and which frames it carries.
 Every function here only computes a value from its arguments.
 */
module Room {

  datatype Role = Host | Guest

  /** A WebSocket message: text, or binary of some length. */
  datatype Frame = Text(text: string) | Binary(bytes: seq<bv8>)

  // The three things a relay says about itself.
  const WAITING := Text("{\"relay\":\"waiting\"}")
  const PAIRED := Text("{\"relay\":\"paired\"}")
  const PEER_GONE := Text("{\"relay\":\"peer-gone\"}")

  const MAX_SOCKETS_PER_ROOM := 16
  const MAX_FRAME_BYTES := 256 * 1024

  // Close codes, section 7.4.1 of RFC 6455 (1013 is the registered "try again later").
  const GOING_AWAY := 1001
  const UNSUPPORTED_DATA := 1003
  const MESSAGE_TOO_BIG := 1009
  const TRY_AGAIN := 1013

  datatype Verdict = Hold | Join | Refuse(status: nat)

  function Decide(role: Role, waiting: bool): Verdict {
    match role
    case Host => if waiting then Refuse(409) else Hold
    case Guest => if waiting then Join else Refuse(409)
  }

  predicate RoomHasSpace(open: nat) {
    open < MAX_SOCKETS_PER_ROOM
  }

  datatype FrameVerdict = Carry | Drop(code: nat)

  function JudgeFrame(message: Frame): FrameVerdict {
    match message
    case Text(_) => Drop(UNSUPPORTED_DATA)
    case Binary(bytes) => if |bytes| > MAX_FRAME_BYTES then Drop(MESSAGE_TOO_BIG) else Carry
  }
}
