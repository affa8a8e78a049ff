/** The local connection as the ingress code sees it: bytes not yet read, bytes written back. */
module ByteStreams {
  import opened Bytes
  import opened Wrappers

  class ByteStream {
    var unread: seq<byte>
    var sent: seq<byte>

    constructor (input: seq<byte>)
      ensures unread == input && sent == []
    {
      unread, sent := input, [];
    }

    /** `read` into a one-byte buffer: nothing only at end of stream. */
    method ReadByte() returns (b: Option<byte>)
      modifies this`unread
      ensures b == if old(unread) == [] then None else Some(old(unread)[0])
      ensures unread == if old(unread) == [] then [] else old(unread)[1..]
    {
      if unread == [] {
        return None;
      }
      b := Some(unread[0]);
      unread := unread[1..];
    }

    /** `read_exact`: all `n` bytes, or failure with the stream exhausted. */
    method ReadExact(n: nat) returns (bytes: Option<seq<byte>>)
      modifies this`unread
      ensures bytes == if n <= |old(unread)| then Some(old(unread)[..n]) else None
      ensures unread == if n <= |old(unread)| then old(unread)[n..] else []
    {
      if |unread| < n {
        unread := [];
        return None;
      }
      bytes := Some(unread[..n]);
      unread := unread[n..];
    }

    method WriteAll(bytes: seq<byte>)
      modifies this`sent
      ensures sent == old(sent) + bytes
    {
      sent := sent + bytes;
    }
  }
}
