/** Parsing a proxy request, and rewriting an absolute-form request to origin form. */
module HttpRequest {
  import opened Wrappers
  import opened HttpText

  datatype HttpError =
    | MissingTerminator | MissingMethod | MissingTarget | MissingVersion | MalformedRequestLine | MalformedHeader
    | NotAbsolute | UnsupportedScheme | InvalidAuthority | InvalidV6Authority | InvalidV6Port | InvalidPort

  datatype Header = Header(name: string, value: string)

  datatype RequestParts = RequestParts(method_: string, target: string, version: string, headers: seq<Header>)

  datatype AbsoluteUri = AbsoluteUri(scheme: string, host: string, port: Option<nat>, path: string)

  // ----- parsing a request

  const TERMINATOR := "\r\n\r\n"

  function ParseHeader(line: string): Result<Header, HttpError> {
    match Find(line, ":")
    case None => Err(MalformedHeader)
    case Some(i) => Ok(Header(Trim(line[..i]), Trim(line[i + 1..])))
  }

  function ParseHeaders(lines: seq<string>): (r: Result<seq<Header>, HttpError>)
    ensures r.Ok? ==> |r.value| == |lines|
  {
    if lines == [] then Ok([])
    else
      var front :- ParseHeaders(lines[..|lines| - 1]);
      var last :- ParseHeader(lines[|lines| - 1]);
      Ok(front + [last])
  }

  function ParseRequestLine(line: string): Result<(string, string, string), HttpError> {
    var words := Words(line);
    if |words| == 0 then Err(MissingMethod)
    else if |words| == 1 then Err(MissingTarget)
    else if |words| == 2 then Err(MissingVersion)
    else if |words| > 3 || !("HTTP/" <= words[2]) then Err(MalformedRequestLine)
    else Ok((words[0], words[1], words[2]))
  }

  predicate Terminated(text: string) {
    |text| >= 4 && text[|text| - 4..] == TERMINATOR
  }

  function ParseRequest(text: string): Result<RequestParts, HttpError> {
    if !Terminated(text) then Err(MissingTerminator)
    else
      var lines := Lines(text[..|text| - 4]);
      var (method_, target, version) :- ParseRequestLine(lines[0]);
      var headers :- ParseHeaders(lines[1..]);
      Ok(RequestParts(method_, target, version, headers))
  }

  method ParseRequestText(text: string) returns (r: Result<RequestParts, HttpError>)
    ensures r == ParseRequest(text)
  {
    hide Words, Lines, Find, Trim, ParseHeaders;
    if !Terminated(text) {
      return Err(MissingTerminator);
    }
    var lines := Lines(text[..|text| - 4]);
    var words := Words(lines[0]);
    if |words| < 3 {
      return Err(if |words| == 0 then MissingMethod else if |words| == 1 then MissingTarget else MissingVersion);
    }
    if |words| > 3 || !("HTTP/" <= words[2]) {
      return Err(MalformedRequestLine);
    }
    var headers := [];
    ghost var rest := lines[1..];
    NoHeaders();
    for i := 1 to |lines|
      invariant ParseHeaders(rest[..i - 1]) == Ok(headers)
    {
      var line := lines[i];
      assert rest[..i] == rest[..i - 1] + [line];
      OneMoreHeader(rest[..i - 1], headers, line);
      var colon := Find(line, ":");
      if colon.None? {
        FailsEarly(rest, i);
        return Err(MalformedHeader);
      }
      headers := headers + [Header(Trim(line[..colon.value]), Trim(line[colon.value + 1..]))];
    }
    assert rest[..|lines| - 1] == rest;
    return Ok(RequestParts(words[0], words[1], words[2], headers));
  }

  lemma NoHeaders()
    ensures ParseHeaders([]) == Ok([])
  {
  }

  lemma OneMoreHeader(lines: seq<string>, headers: seq<Header>, line: string)
    requires ParseHeaders(lines) == Ok(headers)
    ensures ParseHeader(line).Ok? ==> ParseHeaders(lines + [line]) == Ok(headers + [ParseHeader(line).value])
    ensures ParseHeader(line).Err? ==> ParseHeaders(lines + [line]) == Err(MalformedHeader)
  {
    assert (lines + [line])[..|lines|] == lines;
  }

  /** A malformed header fails the request whatever follows it. */
  lemma {:induction false} FailsEarly(lines: seq<string>, i: nat)
    requires i <= |lines| && ParseHeaders(lines[..i]) == Err(MalformedHeader)
    ensures ParseHeaders(lines) == Err(MalformedHeader)
    decreases |lines| - i
  {
    if i < |lines| {
      assert lines[..i + 1][..i] == lines[..i];
      FailsEarly(lines, i + 1);
    } else {
      assert lines[..i] == lines;
    }
  }

  // ----- the absolute-form target

  function ParseAuthority(authority: string, defaultPort: nat): Result<(string, nat), HttpError> {
    if authority == "" || '@' in authority then Err(InvalidAuthority)
    else if authority[0] == '[' then
      var rest := authority[1..];
      match Find(rest, "]")
      case None => Err(InvalidV6Authority)
      case Some(i) =>
        var host, after := rest[..i], rest[i + 1..];
        if after == "" then Ok((host, defaultPort))
        else if after[0] != ':' then Err(InvalidV6Port)
        else
          match ParseU16(after[1..])
          case None => Err(InvalidPort)
          case Some(port) => Ok((host, port))
    else
      var colon := FindLast(authority, ':');
      if colon.Some? && authority[colon.value + 1..] != "" && AllDigits(authority[colon.value + 1..]) then
        match ParseU16(authority[colon.value + 1..])
        case None => Err(InvalidPort)
        case Some(port) => PlainHost(authority[..colon.value], port)
      else PlainHost(authority, defaultPort)
  }

  /** The checks on an unbracketed host. */
  function PlainHost(host: string, port: nat): Result<(string, nat), HttpError> {
    if host == "" || port == 0 || exists i :: 0 <= i < |host| && IsAsciiSpace(host[i]) then Err(InvalidAuthority)
    else Ok((host, port))
  }

  function ParseAbsoluteUri(target: string): Result<AbsoluteUri, HttpError> {
    match Find(target, "://")
    case None => Err(NotAbsolute)
    case Some(i) =>
      if !EqIgnoreCase(target[..i], "http") then Err(UnsupportedScheme)
      else
        var rest := target[i + 3..];
        var slash := Find(rest, "/");
        var authority := if slash.Some? then rest[..slash.value] else rest;
        var path := if slash.Some? then rest[slash.value..] else "/";
        var (host, port) :- ParseAuthority(authority, 80);
        Ok(AbsoluteUri("http", host, Some(port), path))
  }

  // ----- the rewrite

  predicate ProxyOnly(h: Header) {
    EqIgnoreCase(h.name, "Proxy-Authorization") || EqIgnoreCase(h.name, "Proxy-Connection")
  }

  predicate IsHost(h: Header) {
    EqIgnoreCase(h.name, "Host")
  }

  /** The original headers in order, without those meant for the proxy. */
  function Forwarded(headers: seq<Header>): seq<Header> {
    if headers == [] then []
    else
      var front, last := Forwarded(headers[..|headers| - 1]), headers[|headers| - 1];
      if ProxyOnly(last) then front else front + [last]
  }

  predicate HasHost(headers: seq<Header>) {
    exists i :: 0 <= i < |headers| && IsHost(headers[i])
  }

  /** The value of a Host header made from the target. */
  function HostValue(uri: AbsoluteUri): string {
    if uri.port.None? || uri.port.value == 80 then uri.host
    else uri.host + ":" + Decimal(uri.port.value)
  }

  /** Every header the origin server gets: exactly one Host is added, and only if none is there. */
  function OriginHeaders(headers: seq<Header>, uri: AbsoluteUri): seq<Header> {
    Forwarded(headers) + (if HasHost(headers) then [] else [Header("Host", HostValue(uri))])
  }

  function HeaderLine(h: Header): string {
    h.name + ": " + h.value
  }

  function HeaderLines(headers: seq<Header>): seq<string> {
    seq(|headers|, i requires 0 <= i < |headers| => HeaderLine(headers[i]))
  }

  function RequestLine(method_: string, target: string, version: string): string {
    method_ + (" " + (target + (" " + version)))
  }

  /** The text of a request with the given parts. */
  function Render(req: RequestParts): string {
    JoinLines([RequestLine(req.method_, req.target, req.version)] + HeaderLines(req.headers)) + TERMINATOR
  }

  function Rewritten(req: RequestParts, uri: AbsoluteUri): RequestParts {
    req.(target := uri.path, headers := OriginHeaders(req.headers, uri))
  }

  lemma HeaderLinesSnoc(headers: seq<Header>, h: Header)
    ensures HeaderLines(headers + [h]) == HeaderLines(headers) + [HeaderLine(h)]
  {
  }

  /** The loop that appends to the output and remembers whether it saw a Host. */
  method RewriteAbsoluteRequest(req: RequestParts, uri: AbsoluteUri) returns (out: string)
    ensures out == Render(Rewritten(req, uri))
  {
    hide HeaderLines, Forwarded, HasHost, ProxyOnly, IsHost, JoinLines, Decimal;
    var line := RequestLine(req.method_, uri.path, req.version);
    out := line + "\r\n";
    NothingForwarded(line);
    var hasHost := false;
    ghost var lines := [line];
    for i := 0 to |req.headers|
      invariant lines == [line] + HeaderLines(Forwarded(req.headers[..i]))
      invariant out == JoinLines(lines) + "\r\n"
      invariant hasHost == HasHost(req.headers[..i])
    {
      var h := req.headers[i];
      assert req.headers[..i + 1] == req.headers[..i] + [h];
      HasHostSnoc(req.headers[..i], h);
      ForwardedSnoc(req.headers[..i], h);
      HostIsForwarded(h);
      if !ProxyOnly(h) {
        if IsHost(h) {
          hasHost := true;
        }
        out := out + (h.name + ": " + h.value + "\r\n");
        HeaderLinesSnoc(Forwarded(req.headers[..i]), h);
        OneMoreLine(lines, HeaderLine(h));
        lines := lines + [HeaderLine(h)];
      }
    }
    assert req.headers[..|req.headers|] == req.headers;
    if !hasHost {
      var host := if uri.port.None? || uri.port.value == 80 then uri.host else uri.host + ":" + Decimal(uri.port.value);
      out := out + ("Host: " + host + "\r\n");
      var h := Header("Host", host);
      HeaderLinesSnoc(Forwarded(req.headers), h);
      assert HeaderLine(h) == "Host: " + host;
      OneMoreLine(lines, HeaderLine(h));
      lines := lines + [HeaderLine(h)];
    } else {
      assert OriginHeaders(req.headers, uri) == Forwarded(req.headers);
    }
    assert lines == [line] + HeaderLines(OriginHeaders(req.headers, uri));
    assert (JoinLines(lines) + "\r\n") + "\r\n" == JoinLines(lines) + TERMINATOR;
    out := out + "\r\n";
  }

  lemma OneMoreLine(lines: seq<string>, l: string)
    requires lines != []
    ensures JoinLines(lines) + "\r\n" + (l + "\r\n") == JoinLines(lines + [l]) + "\r\n"
  {
    JoinLinesSnoc(lines, l);
  }

  lemma NothingForwarded(line: string)
    ensures HeaderLines(Forwarded([])) == [] && JoinLines([line]) == line && !HasHost([])
  {
  }

  lemma HostIsForwarded(h: Header)
    ensures IsHost(h) ==> !ProxyOnly(h)
  {
  }

  lemma ForwardedSnoc(headers: seq<Header>, h: Header)
    ensures Forwarded(headers + [h]) == if ProxyOnly(h) then Forwarded(headers) else Forwarded(headers) + [h]
  {
    hide ProxyOnly;
    assert (headers + [h])[..|headers|] == headers;
  }

  lemma HasHostSnoc(headers: seq<Header>, h: Header)
    ensures HasHost(headers + [h]) <==> HasHost(headers) || IsHost(h)
  {
    if HasHost(headers) {
      var i :| 0 <= i < |headers| && IsHost(headers[i]);
      assert IsHost((headers + [h])[i]);
    }
    assert (headers + [h])[|headers|] == h;
  }
}
