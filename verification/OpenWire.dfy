/** The bytes of an Open frame and of a data frame, as proto/tunnel/v1/tunnel.proto numbers their
    fields and the protocol buffers encoding writes them. */
module OpenWire {
  import opened Bytes
  import opened Wrappers

  datatype Open = Open(targetHost: seq<byte>, targetPort: nat, firstPayload: seq<byte>)

  // ----- writing

  function Varint(n: nat): (s: seq<byte>)
    ensures s != []
  {
    if n < 128 then [n] else [128 + n % 128] + Varint(n / 128)
  }

  /** A length-delimited field; proto3 leaves out an empty one. */
  function LenField(tag: byte, s: seq<byte>): seq<byte> {
    if s == [] then [] else [tag] + (Varint(|s|) + s)
  }

  function IntField(tag: byte, n: nat): seq<byte> {
    if n == 0 then [] else [tag] + Varint(n)
  }

  /** Fields 1 to 3: a text, a number and bytes. */
  function OpenBytes(o: Open): seq<byte> {
    LenField(10, o.targetHost) + (IntField(16, o.targetPort) + LenField(26, o.firstPayload))
  }

  /** Field 2 of a client frame; a member of a oneof is written even when empty. */
  function OpenFrameBytes(o: Open): seq<byte> {
    [18] + (Varint(|OpenBytes(o)|) + OpenBytes(o))
  }

  /** Field 3 of a client frame and of a server frame. */
  function DataFrameBytes(data: seq<byte>): seq<byte> {
    [26] + (Varint(|data|) + data)
  }

  // ----- reading

  function ReadVarint(s: seq<byte>): Option<(nat, seq<byte>)> {
    if s == [] then None
    else if s[0] < 128 then Some((s[0], s[1..]))
    else match ReadVarint(s[1..])
      case None => None
      case Some((high, rest)) => Some((s[0] - 128 + 128 * high, rest))
  }

  function ReadLen(s: seq<byte>): Option<(seq<byte>, seq<byte>)> {
    match ReadVarint(s)
    case None => None
    case Some((n, rest)) => if n <= |rest| then Some((rest[..n], rest[n..])) else None
  }

  lemma {:induction false} VarintShortens(s: seq<byte>)
    requires ReadVarint(s).Some?
    ensures |ReadVarint(s).value.1| < |s|
  {
    if s[0] >= 128 {
      VarintShortens(s[1..]);
    }
  }

  /** The fields of an Open in any order; the last of each counts. */
  function ReadOpen(s: seq<byte>, sofar: Open): Option<Open>
    decreases |s|
  {
    if s == [] then Some(sofar)
    else if s[0] == 16 then
      match ReadVarint(s[1..])
      case None => None
      case Some((n, rest)) =>
        VarintShortens(s[1..]);
        ReadOpen(rest, sofar.(targetPort := n))
    else if s[0] == 10 || s[0] == 26 then
      match ReadLen(s[1..])
      case None => None
      case Some((bs, rest)) =>
        VarintShortens(s[1..]);
        ReadOpen(rest, if s[0] == 10 then sofar.(targetHost := bs) else sofar.(firstPayload := bs))
    else None
  }

  function ReadFrame(s: seq<byte>): Option<Open> {
    if s == [] || s[0] != 18 then None
    else match ReadLen(s[1..])
      case None => None
      case Some((bs, rest)) => if rest == [] then ReadOpen(bs, Open([], 0, [])) else None
  }

  // ----- reading undoes writing

  lemma {:induction false} VarintReads(n: nat, tail: seq<byte>)
    ensures ReadVarint(Varint(n) + tail) == Some((n, tail))
  {
    var s := Varint(n) + tail;
    if n < 128 {
      assert s[1..] == tail;
    } else {
      assert s[1..] == Varint(n / 128) + tail;
      VarintReads(n / 128, tail);
    }
  }

  lemma LenReads(bs: seq<byte>, tail: seq<byte>)
    ensures ReadLen(Varint(|bs|) + (bs + tail)) == Some((bs, tail))
  {
    hide ReadVarint, Varint;
    VarintReads(|bs|, bs + tail);
    assert (bs + tail)[..|bs|] == bs && (bs + tail)[|bs|..] == tail;
  }

  lemma LenFieldReads(tag: byte, bs: seq<byte>, tail: seq<byte>, o: Open)
    requires tag == 10 || tag == 26
    requires (if tag == 10 then o.targetHost else o.firstPayload) == []
    ensures ReadOpen(LenField(tag, bs) + tail, o) ==
              ReadOpen(tail, if tag == 10 then o.(targetHost := bs) else o.(firstPayload := bs))
  {
    hide ReadVarint, ReadLen, Varint;
    var s := LenField(tag, bs) + tail;
    if bs == [] {
      assert s == tail;
      assert o == if tag == 10 then o.(targetHost := bs) else o.(firstPayload := bs);
    } else {
      assert s[1..] == Varint(|bs|) + (bs + tail);
      LenReads(bs, tail);
    }
  }

  lemma PortReads(port: nat, tail: seq<byte>, o: Open)
    requires o.targetPort == 0
    ensures ReadOpen(IntField(16, port) + tail, o) == ReadOpen(tail, o.(targetPort := port))
  {
    hide ReadVarint, ReadLen, Varint;
    var s := IntField(16, port) + tail;
    if port == 0 {
      assert s == tail;
    } else {
      assert s[1..] == Varint(port) + tail;
      VarintReads(port, tail);
    }
  }

  lemma OpenReads(o: Open)
    ensures ReadOpen(OpenBytes(o), Open([], 0, [])) == Some(o)
  {
    hide ReadOpen, LenField, IntField;
    var port, payload := IntField(16, o.targetPort), LenField(26, o.firstPayload);
    LenFieldReads(10, o.targetHost, port + payload, Open([], 0, []));
    PortReads(o.targetPort, payload, Open(o.targetHost, 0, []));
    assert payload == payload + [];
    LenFieldReads(26, o.firstPayload, [], Open(o.targetHost, o.targetPort, []));
    NothingLeft(o);
  }

  lemma NothingLeft(o: Open)
    ensures ReadOpen([], o) == Some(o)
  {
  }

  /** Every Open frame reads back as its host, port and first payload. */
  lemma {:induction false} OpenFrameReads(o: Open)
    ensures ReadFrame(OpenFrameBytes(o)) == Some(o)
  {
    hide ReadOpen, OpenBytes, ReadLen, Varint;
    var s, bs := OpenFrameBytes(o), OpenBytes(o);
    assert s[1..] == Varint(|bs|) + (bs + []);
    LenReads(bs, []);
    OpenReads(o);
  }

  // ----- sizes

  /** Bytes of a varint. */
  function VarintLength(n: nat): nat {
    if n < 128 then 1 else 1 + VarintLength(n / 128)
  }

  function FieldLength(n: nat): nat {
    if n == 0 then 0 else 1 + VarintLength(n) + n
  }

  function OpenLength(host: nat, port: nat, payload: nat): nat {
    FieldLength(host) + (if port == 0 then 0 else 1 + VarintLength(port)) + FieldLength(payload)
  }

  function OpenFrameLength(host: nat, port: nat, payload: nat): nat {
    var inner := OpenLength(host, port, payload);
    1 + VarintLength(inner) + inner
  }

  lemma {:induction false} VarintTakes(n: nat)
    ensures |Varint(n)| == VarintLength(n)
  {
    if n >= 128 {
      VarintTakes(n / 128);
    }
  }

  lemma OpenTakes(o: Open)
    ensures |OpenBytes(o)| == OpenLength(|o.targetHost|, o.targetPort, |o.firstPayload|)
  {
    hide Varint, VarintLength;
    VarintTakes(|o.targetHost|);
    VarintTakes(o.targetPort);
    VarintTakes(|o.firstPayload|);
  }

  lemma OpenFrameTakes(o: Open)
    ensures |OpenFrameBytes(o)| == OpenFrameLength(|o.targetHost|, o.targetPort, |o.firstPayload|)
  {
    hide Varint, VarintLength, OpenBytes, OpenLength;
    VarintTakes(|OpenBytes(o)|);
    OpenTakes(o);
  }

  lemma ShortVarint(n: nat)
    requires n < 0x20_0000
    ensures VarintLength(n) <= 3
  {
    assert n / 128 < 0x4000 && n / 128 / 128 < 128;
    if n >= 128 {
      assert VarintLength(n) == 1 + VarintLength(n / 128);
    }
  }

  /** At most 16 bytes of tags and lengths. */
  lemma FrameOverhead(o: Open)
    requires o.targetPort <= 65535 && |o.targetHost| + |o.firstPayload| + 12 < 0x20_0000
    ensures |OpenFrameBytes(o)| <= |o.targetHost| + |o.firstPayload| + 16
  {
    hide OpenFrameBytes, VarintLength;
    OpenFrameTakes(o);
    ShortVarint(|o.targetHost|);
    ShortVarint(o.targetPort);
    ShortVarint(|o.firstPayload|);
    ShortVarint(OpenLength(|o.targetHost|, o.targetPort, |o.firstPayload|));
  }

  /** A data frame takes at most 4 bytes more than its data. */
  lemma DataFrameTakes(data: seq<byte>)
    requires |data| < 0x20_0000
    ensures |DataFrameBytes(data)| <= |data| + 4
  {
    hide Varint, VarintLength;
    VarintTakes(|data|);
    ShortVarint(|data|);
  }
}
