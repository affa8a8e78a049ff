/** Reading an HTTP header off the connection, one byte at a time. */
module HeaderReader {
  import opened Bytes
  import opened Wrappers
  import opened ByteStreams

  const MAX_HEADER_SIZE: nat := 64 * 1024

  datatype ReadError = ClosedEarly | TooLong

  predicate EndsHeader(s: seq<byte>) {
    |s| >= 4 && s[|s| - 4..] == [13, 10, 13, 10]
  }

  /** `h` is the shortest prefix of the input that ends in CRLF CRLF, and within the limit. */
  ghost predicate IsHeaderOf(h: seq<byte>, input: seq<byte>) {
    && h <= input && |h| <= MAX_HEADER_SIZE && EndsHeader(h)
    && forall k :: 0 <= k < |h| ==> !EndsHeader(input[..k])
  }

  ghost predicate HasHeader(input: seq<byte>) {
    exists k :: 0 <= k <= |input| && k <= MAX_HEADER_SIZE && EndsHeader(input[..k])
  }

  /** None of the prefixes of up to `n` bytes ends a header. */
  ghost predicate NoHeaderYet(input: seq<byte>, n: nat)
    requires n <= |input|
  {
    forall k :: 0 <= k <= n ==> !EndsHeader(input[..k])
  }

  lemma NothingRead(input: seq<byte>)
    ensures NoHeaderYet(input, 0)
  {
  }

  lemma OneByteMore(input: seq<byte>, n: nat)
    requires n < |input| && NoHeaderYet(input, n)
    ensures EndsHeader(input[..n + 1]) && n < MAX_HEADER_SIZE ==> IsHeaderOf(input[..n + 1], input) && HasHeader(input)
    ensures !EndsHeader(input[..n + 1]) ==> NoHeaderYet(input, n + 1)
  {
    hide EndsHeader;
    assert |input[..n + 1]| == n + 1;
  }

  lemma NeverEnds(input: seq<byte>, n: nat)
    requires n <= |input| && NoHeaderYet(input, n) && (n == |input| || n == MAX_HEADER_SIZE)
    ensures !HasHeader(input)
  {
    hide EndsHeader;
  }

  /** Exactly the header is consumed; the rest stays for the relay. */
  method ReadHeader(stream: ByteStream) returns (r: Result<seq<byte>, ReadError>)
    modifies stream`unread
    ensures r.Ok? <==> HasHeader(old(stream.unread))
    ensures r.Ok? ==> IsHeaderOf(r.value, old(stream.unread)) && stream.unread == old(stream.unread)[|r.value|..]
    ensures r.Err? ==> r.error == if |old(stream.unread)| < MAX_HEADER_SIZE then ClosedEarly else TooLong
  {
    hide EndsHeader, HasHeader, IsHeaderOf, NoHeaderYet;
    ghost var input := stream.unread;
    NothingRead(input);
    var buf := [];
    while |buf| < MAX_HEADER_SIZE
      invariant |buf| <= MAX_HEADER_SIZE && |buf| <= |input|
      invariant buf == input[..|buf|] && stream.unread == input[|buf|..]
      invariant NoHeaderYet(input, |buf|)
      decreases MAX_HEADER_SIZE - |buf|
    {
      var one := stream.ReadByte();
      if one.None? {
        NeverEnds(input, |buf|);
        return Err(ClosedEarly);
      }
      OneByteMore(input, |buf|);
      assert input[..|buf| + 1] == input[..|buf|] + [input[|buf|]];
      buf := buf + [one.value];
      if EndsHeader(buf) {
        return Ok(buf);
      }
    }
    NeverEnds(input, |buf|);
    return Err(TooLong);
  }

  /** The header depends only on the bytes it is made of: whatever follows, it is the same one,
      and two readings of the same input cannot differ. */
  lemma HeaderIsDetermined(h: seq<byte>, h': seq<byte>, input: seq<byte>, more: seq<byte>)
    requires IsHeaderOf(h, input)
    ensures IsHeaderOf(h, h + more)
    ensures IsHeaderOf(h', input) ==> h' == h
  {
    forall k | 0 <= k < |h|
      ensures !EndsHeader((h + more)[..k])
    {
      assert (h + more)[..k] == input[..k];
    }
    if IsHeaderOf(h', input) {
      assert h == input[..|h|] && h' == input[..|h'|];
    }
  }
}
