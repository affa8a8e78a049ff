/** The two frame messages of proto/tunnel/v1/tunnel.proto.  The `oneof` may be absent
    (`CEmpty`, `SEmpty`).  Target name and reason texts play no part in the relay. */
module Frames {
  import opened Bytes

  /** DATA_CHUNK_SIZE on both sides: the size of one read buffer. */
  const DATA_CHUNK_SIZE: nat := 65536
  const MAX_MESSAGE_SIZE: nat := 2 * DATA_CHUNK_SIZE

  datatype ClientFrame =
    | COpen(firstPayload: seq<byte>)
    | CData(data: seq<byte>)
    | CHalfClose
    | CReset
    | CPing(millis: int)
    | CEmpty

  datatype ServerFrame =
    | SOpenResult(ok: bool)
    | SData(data: seq<byte>)
    | SHalfClose
    | SReset
    | SPong(millis: int)
    | SEmpty

  function ClientBytes(f: ClientFrame): seq<byte> {
    match f
    case COpen(p) => p
    case CData(d) => d
    case _ => []
  }

  function ServerBytes(f: ServerFrame): seq<byte> {
    match f
    case SData(d) => d
    case _ => []
  }

  /** The stream bytes carried by a run of client frames, the first payload included. */
  function UpBytes(frames: seq<ClientFrame>): seq<byte> {
    Payload(ClientBytes, frames)
  }

  function DownBytes(frames: seq<ServerFrame>): seq<byte> {
    Payload(ServerBytes, frames)
  }
}
