/** The ingress and the relay together: what the target gets of what the local side sent. */
module EndToEnd {
  import opened Bytes
  import opened Wrappers
  import opened Channel
  import opened Frames
  import opened Relay
  import opened RelayInvariant
  import opened RelayTheorems
  import opened ByteStreams
  import opened HeaderReader
  import opened HttpText
  import opened HttpRequest
  import opened HttpTarget
  import opened HttpRewrite
  import OpenFrame
  import opened OpenWire
  import Socks5

  datatype Refusal = NoHeader | NotUtf8 | BadRequest(error: HttpError)

  predicate IsConnect(req: RequestParts) {
    EqIgnoreCase(req.method_, "CONNECT")
  }

  /** What goes to the target ahead of the relayed bytes: nothing for CONNECT, the rewritten request
      for every other method. */
  function FirstPayload(text: string): Result<string, HttpError> {
    var req :- ParseRequest(text);
    if IsConnect(req) then
      var _ :- ParseAuthority(req.target, 443);
      Ok("")
    else
      var uri :- ParseAbsoluteUri(req.target);
      Ok(Render(Rewritten(req, uri)))
  }

  ghost predicate NamesTarget(target: string, defaultPort: nat) {
    exists host, port :: AuthorityMeans(target, defaultPort, host, port)
  }

  ghost predicate IsHttpTarget(target: string) {
    exists scheme, authority, written :: TargetText(target, scheme, authority, written) && NamesTarget(authority, 80)
  }

  /** Which parsed requests are served: CONNECT, in any case of its letters, for a host and a port
      that defaults to 443, and every other method for an absolute-form target.  CONNECT sends no
      payload. */
  lemma {:induction false} ServedRequests(text: string)
    requires ParseRequest(text).Ok?
    ensures var req := ParseRequest(text).value;
            if SameLetters(req.method_, "CONNECT")
            then FirstPayload(text) == Ok("") <==> NamesTarget(req.target, 443)
            else FirstPayload(text).Ok? <==> IsHttpTarget(req.target)
    ensures SameLetters(ParseRequest(text).value.method_, "CONNECT") && FirstPayload(text).Ok? ==>
              FirstPayload(text) == Ok("")
  {
    hide ParseRequest, ParseAbsoluteUri, ParseAuthority, Render, Rewritten;
    hide EqIgnoreCase, SameLetters, NamesTarget, IsHttpTarget;
    var req := ParseRequest(text).value;
    CaseIsIgnored(req.method_, "CONNECT");
    AuthorityIsNamed(req.target, 443);
    HttpTargetIsRead(req.target);
  }

  lemma AuthorityIsNamed(a: string, defaultPort: nat)
    ensures ParseAuthority(a, defaultPort).Ok? <==> NamesTarget(a, defaultPort)
  {
    hide ParseAuthority, AuthorityMeans;
    if ParseAuthority(a, defaultPort).Ok? {
      var (host, port) := ParseAuthority(a, defaultPort).value;
      AuthorityReads(a, defaultPort, host, port);
    }
    if NamesTarget(a, defaultPort) {
      var host, port :| AuthorityMeans(a, defaultPort, host, port);
      AuthorityReads(a, defaultPort, host, port);
    }
  }

  lemma HttpTargetIsRead(target: string)
    ensures ParseAbsoluteUri(target).Ok? <==> IsHttpTarget(target)
  {
    hide ParseAbsoluteUri, ParseAuthority, TargetText, NamesTarget, AuthorityMeans;
    if ParseAbsoluteUri(target).Ok? {
      var scheme, authority, written := TargetIsRead(target);
      var uri := ParseAbsoluteUri(target).value;
      Named(authority, 80, uri.host, uri.port.value);
      assert TargetText(target, scheme, authority, written) && NamesTarget(authority, 80);
    }
    if IsHttpTarget(target) {
      var scheme, authority, written :| TargetText(target, scheme, authority, written) && NamesTarget(authority, 80);
      TargetReads(target, scheme, authority, written);
      AuthorityIsNamed(authority, 80);
    }
  }

  lemma Named(a: string, defaultPort: nat, host: string, port: nat)
    requires AuthorityMeans(a, defaultPort, host, port)
    ensures NamesTarget(a, defaultPort)
  {
    hide AuthorityMeans;
  }

  /** The relay's starting point for a local connection that opens with an accepted request: its first
      payload, and what follows the header still to be read. */
  ghost predicate Serves(cfg: Config, input: seq<byte>, text: string) {
    && IsHeaderOf(OpenFrame.Utf8(text), input) && FirstPayload(text).Ok?
    && cfg.first == OpenFrame.Utf8(FirstPayload(text).value)
    && cfg.local == input[|OpenFrame.Utf8(text)|..]
  }

  /** What becomes of a header: the first payload, or why there is none. */
  function Answer(decode: seq<byte> -> Option<string>, header: seq<byte>): Result<string, Refusal> {
    match decode(header)
    case None => Err(NotUtf8)
    case Some(text) =>
      match FirstPayload(text)
      case Err(e) => Err(BadRequest(e))
      case Ok(first) => Ok(first)
  }

  /** Read the header, parse it, and take the branch of its method.  `decode` stands for UTF-8
      validation; `target` for what the target will send. */
  method ServeRequest(stream: ByteStream, decode: seq<byte> -> Option<string>, target: seq<byte>)
    returns (r: Result<Config, Refusal>, ghost text: string)
    requires forall h :: decode(h).Some? ==> OpenFrame.Utf8(decode(h).value) == h
    modifies stream`unread
    ensures r.Ok? ==> Serves(r.value, old(stream.unread), text) && r.value.target == target && r.value.local == stream.unread
    ensures r == Err(NoHeader) <==> !HasHeader(old(stream.unread))
    ensures forall h :: IsHeaderOf(h, old(stream.unread)) ==>
              var a := Answer(decode, h);
              r == if a.Err? then Err(a.error)
                   else Ok(Config(OpenFrame.Utf8(a.value), old(stream.unread)[|h|..], target))
  {
    hide ParseRequest, ParseAbsoluteUri, ParseAuthority, Render, Rewritten;
    hide IsConnect, OpenFrame.Utf8, IsHeaderOf, HasHeader;
    text := "";
    var header := ReadHeader(stream);
    ghost var input := old(stream.unread);
    forall h | IsHeaderOf(h, input)
      ensures header.Ok? && h == header.value
    {
      HeaderIsThere(h, input);
      HeaderIsDetermined(h, if header.Ok? then header.value else h, input, []);
    }
    if header.Err? {
      return Err(NoHeader), text;
    }
    var decoded := decode(header.value);
    if decoded.None? {
      return Err(NotUtf8), text;
    }
    text := decoded.value;
    var req := ParseRequestText(decoded.value);
    if req.Err? {
      return Err(BadRequest(req.error)), text;
    }
    if IsConnect(req.value) {
      var authority := ParseAuthority(req.value.target, 443);
      if authority.Err? {
        return Err(BadRequest(authority.error)), text;
      }
      return Ok(Config(OpenFrame.Utf8(""), stream.unread, target)), text;
    }
    var uri := ParseAbsoluteUri(req.value.target);
    if uri.Err? {
      return Err(BadRequest(uri.error)), text;
    }
    var first := RewriteAbsoluteRequest(req.value, uri.value);
    return Ok(Config(OpenFrame.Utf8(first), stream.unread, target)), text;
  }

  lemma HeaderIsThere(h: seq<byte>, input: seq<byte>)
    requires IsHeaderOf(h, input)
    ensures HasHeader(input)
  {
    assert h == input[..|h|];
  }

  /** The Open frame that starts the relay for a request. */
  function OpenFor(text: string): Open
    requires FirstPayload(text).Ok?
  {
    var req := ParseRequest(text).value;
    var payload := OpenFrame.Utf8(FirstPayload(text).value);
    if IsConnect(req) then
      var (host, port) := ParseAuthority(req.target, 443).value;
      Open(OpenFrame.Utf8(host), port, payload)
    else
      var uri := ParseAbsoluteUri(req.target).value;
      Open(OpenFrame.Utf8(uri.host), ParsedPort(uri), payload)
  }

  function ParsedPort(uri: AbsoluteUri): nat {
    if uri.port.Some? then uri.port.value else 80
  }

  /** CONNECT opens the relay to the host and port its target means, without a payload. */
  lemma ConnectOpens(text: string, host: string, port: nat)
    requires ParseRequest(text).Ok? && SameLetters(ParseRequest(text).value.method_, "CONNECT")
    requires AuthorityMeans(ParseRequest(text).value.target, 443, host, port)
    ensures FirstPayload(text) == Ok("") && OpenFor(text) == Open(OpenFrame.Utf8(host), port, [])
  {
    hide ParseRequest, ParseAbsoluteUri, ParseAuthority, Render, Rewritten, EqIgnoreCase, SameLetters, AuthorityMeans;
    var req := ParseRequest(text).value;
    CaseIsIgnored(req.method_, "CONNECT");
    AuthorityReads(req.target, 443, host, port);
    assert OpenFrame.Utf8("") == [];
  }

  /** The payload of every other method reads as the same request for the path written in its
      target, with the headers meant for the origin server. */
  lemma {:induction false} PayloadReads(text: string)
    returns (scheme: string, authority: string, written: string, host: string, port: nat)
    requires FirstPayload(text).Ok? && !SameLetters(ParseRequest(text).value.method_, "CONNECT")
    ensures var req := ParseRequest(text).value;
            && TargetText(req.target, scheme, authority, written) && AuthorityMeans(authority, 80, host, port)
            && ParseRequest(FirstPayload(text).value) == Ok(RequestParts(
                 req.method_, if written == "" then "/" else written, req.version,
                 Forwarded(req.headers) +
                   (if exists i :: 0 <= i < |req.headers| && NamesHost(req.headers[i].name) then []
                    else [Header("Host", if port == 80 then host else host + ":" + Decimal(port))])))
    ensures OpenFor(text) == Open(OpenFrame.Utf8(host), port, OpenFrame.Utf8(FirstPayload(text).value))
  {
    hide ParseRequest, ParseAbsoluteUri, ParseAuthority, Render, Rewritten;
    hide EqIgnoreCase, SameLetters, OpenFrame.Utf8, TargetText, AuthorityMeans, Forwarded, NamesHost, Decimal;
    CaseIsIgnored(ParseRequest(text).value.method_, "CONNECT");
    scheme, authority, written, host, port := RewriteThenParse(text);
    TargetReads(ParseRequest(text).value.target, scheme, authority, written);
    AuthorityReads(authority, 80, host, port);
  }

  /** For every run of the relay after an accepted request: the target holds a prefix of the first
      payload (nothing for CONNECT, else the rewritten header) followed by the bytes after the
      header; it holds exactly those when it is told that the upload has ended; and the Open frame
      that starts the relay fits the tunnel's message limit. */
  lemma {:induction false} TargetGetsRequest(cfg: Config, input: seq<byte>, text: string, run: seq<Action>)
    requires Serves(cfg, input, text) && Legal(Init(cfg), run)
    ensures var s := Run(Init(cfg), run);
            var owed := OpenFrame.Utf8(FirstPayload(text).value) + input[|OpenFrame.Utf8(text)|..];
            && s.sv.written <= owed
            && (s.sv.main.SWaiting? && CanReceive(s.up) && s.up.net[0].CHalfClose? ==> s.sv.written == owed)
    ensures OpenFrame.Utf8(FirstPayload(text).value) == OpenFor(text).firstPayload
    ensures |OpenFrameBytes(OpenFor(text))| <= MAX_MESSAGE_SIZE
  {
    hide FirstPayload, OpenFor, OpenFrameBytes, OpenFrame.Utf8, Legal, Run;
    var s := Run(Init(cfg), run);
    FrameFits(text);
    OpenCarriesPayload(text);
    UpstreamPrefix(cfg, run);
    assert cfg.first + cfg.local[..s.c.read] <= cfg.first + cfg.local;
    if s.sv.main.SWaiting? && CanReceive(s.up) && s.up.net[0].CHalfClose? {
      UploadEndIsHonest(cfg, run);
    }
  }

  lemma OpenCarriesPayload(text: string)
    requires FirstPayload(text).Ok?
    ensures OpenFor(text).firstPayload == OpenFrame.Utf8(FirstPayload(text).value)
  {
    hide ParseRequest, ParseAbsoluteUri, ParseAuthority, IsConnect, FirstPayload, OpenFrame.Utf8;
  }

  lemma FrameFits(text: string)
    requires FirstPayload(text).Ok? && |OpenFrame.Utf8(text)| <= MAX_HEADER_SIZE
    ensures |OpenFrameBytes(OpenFor(text))| <= MAX_MESSAGE_SIZE
  {
    hide ParseRequest, ParseAbsoluteUri, ParseAuthority, Render;
    hide Rewritten, IsConnect, OpenFrame.Utf8, OpenFrameBytes;
    if IsConnect(ParseRequest(text).value) {
      OpenFrame.WidthOfAscii("");
      OpenFrame.ConnectFrameFits(text);
    } else {
      OpenFrame.PortInRange(ParseRequest(text).value.target);
      OpenFrame.OpenFrameFits(text);
    }
  }

  /** After a SOCKS5 handshake the target gets a prefix of exactly the bytes that followed it. */
  lemma TargetGetsSocksTail(cfg: Config, input: seq<byte>, setup: Socks5.Setup, run: seq<Action>)
    requires Socks5.Handshake(input, setup).Done?
    requires cfg.first == [] && cfg.local == Socks5.Handshake(input, setup).rest && Legal(Init(cfg), run)
    ensures var s := Run(Init(cfg), run);
            && s.sv.written <= Socks5.Handshake(input, setup).rest
            && (s.sv.main.SWaiting? && CanReceive(s.up) && s.up.net[0].CHalfClose? ==>
                  s.sv.written == Socks5.Handshake(input, setup).rest)
  {
    hide Legal, Run;
    var s := Run(Init(cfg), run);
    UpstreamPrefix(cfg, run);
    assert cfg.first + cfg.local[..s.c.read] == cfg.local[..s.c.read];
    if s.sv.main.SWaiting? && CanReceive(s.up) && s.up.net[0].CHalfClose? {
      UploadEndIsHonest(cfg, run);
      assert cfg.first + cfg.local == cfg.local;
    }
  }

  /** After the Open frame, every frame either side ever queues fits the message limit. */
  lemma RelayFramesFit(cfg: Config, run: seq<Action>, i: nat)
    requires Legal(Init(cfg), run)
    ensures var s := Run(Init(cfg), run);
            && (1 <= i < |s.up.log| && s.up.log[i].CData? ==> |DataFrameBytes(s.up.log[i].data)| <= MAX_MESSAGE_SIZE)
            && (1 <= i < |s.down.log| && s.down.log[i].SData? ==> |DataFrameBytes(s.down.log[i].data)| <= MAX_MESSAGE_SIZE)
  {
    Reachable(cfg, run);
    var s := Run(Init(cfg), run);
    hide Legal, Run, UpHonest, DownHonest, LoopInv, MainInv;
    hide ClientGrammar, ServerGrammar, StillUploading, StillReading, Interleaves;
    if 1 <= i < |s.up.log| && s.up.log[i].CData? {
      ChunkBound(cfg, s.up.log, i);
      DataFrameTakes(s.up.log[i].data);
    }
    if 1 <= i < |s.down.log| && s.down.log[i].SData? {
      LaterServerFrame(s.down.log, s.sv.fromReader, s.sv.fromMain, i);
      DataFrameTakes(s.down.log[i].data);
    }
  }
}
