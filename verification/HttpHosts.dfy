/** Section 3.2.2 of RFC 9112: a proxy is to send exactly one Host, made from the target.  Exactly
    when the rewritten request meets that. */
module HttpHosts {
  import opened Wrappers
  import opened HttpText
  import opened HttpRequest
  import opened HttpTarget
  import opened HttpRewrite

  /** The Host headers, in order. */
  function Hosts(headers: seq<Header>): seq<Header> {
    if headers == [] then []
    else
      var front, last := Hosts(headers[..|headers| - 1]), headers[|headers| - 1];
      if IsHost(last) then front + [last] else front
  }

  /** The header names the target's host and port. */
  predicate Names(h: Header, uri: AbsoluteUri)
    requires uri.port.Some?
  {
    ParseAuthority(h.value, 80) == Ok((uri.host, uri.port.value))
  }

  predicate AllHostsName(headers: seq<Header>, uri: AbsoluteUri)
    requires uri.port.Some?
  {
    forall i :: 0 <= i < |Hosts(headers)| ==> Names(Hosts(headers)[i], uri)
  }

  lemma HostsSnoc(headers: seq<Header>, h: Header)
    ensures Hosts(headers + [h]) == if IsHost(h) then Hosts(headers) + [h] else Hosts(headers)
  {
    hide IsHost;
    assert (headers + [h])[..|headers|] == headers;
  }

  lemma {:induction false} HostsAreForwarded(headers: seq<Header>)
    ensures Hosts(Forwarded(headers)) == Hosts(headers)
  {
    hide IsHost, ProxyOnly;
    if headers != [] {
      var front, last := headers[..|headers| - 1], headers[|headers| - 1];
      HostsAreForwarded(front);
      HostIsForwarded(last);
      HostsSnoc(Forwarded(front), last);
    }
  }

  lemma {:induction false} HasHostMeans(headers: seq<Header>)
    ensures HasHost(headers) <==> Hosts(headers) != []
  {
    hide IsHost, HasHost;
    if headers == [] {
      NoHosts();
    } else {
      var front, last := headers[..|headers| - 1], headers[|headers| - 1];
      HasHostMeans(front);
      HasHostSnoc(front, last);
      assert headers == front + [last];
    }
  }

  lemma NoHosts()
    ensures !HasHost([])
  {
  }

  /** The Hosts sent are those received or, if none was, the one made from the target. */
  lemma HostsSent(headers: seq<Header>, uri: AbsoluteUri)
    ensures Hosts(OriginHeaders(headers, uri)) ==
              if Hosts(headers) == [] then [Header("Host", HostValue(uri))] else Hosts(headers)
  {
    hide Hosts, HasHost, Forwarded, HostValue;
    HostsAreForwarded(headers);
    HasHostMeans(headers);
    var made := Header("Host", HostValue(uri));
    if HasHost(headers) {
      assert OriginHeaders(headers, uri) == Forwarded(headers);
    } else {
      HostsSnoc(Forwarded(headers), made);
    }
  }

  /** The target can be written as a Host that names it. */
  ghost predicate TargetHasGoodHost(uri: AbsoluteUri)
    requires uri.port.Some?
  {
    && uri.host != "" && uri.host[0] != '[' && uri.port.value != 0
    && (uri.port.value == 80 ==> !EndsWithPort(uri.host))
  }

  /** For every accepted absolute-form request: exactly one Host is sent exactly when at most one
      was received. */
  lemma OneHostIsSent(text: string)
    requires ParseRequest(text).Ok? && ParseAbsoluteUri(ParseRequest(text).value.target).Ok?
    ensures var req := ParseRequest(text).value;
            var uri := ParseAbsoluteUri(req.target).value;
            |Hosts(OriginHeaders(req.headers, uri))| == 1 <==> |Hosts(req.headers)| <= 1
  {
    hide Hosts, OriginHeaders, HostValue, ParseRequest, ParseAbsoluteUri;
    var req := ParseRequest(text).value;
    HostsSent(req.headers, ParseAbsoluteUri(req.target).value);
  }

  /** For every accepted absolute-form request: every Host sent names the target exactly when those
      received do or, none having been received, the target's host can be written as a Host. */
  lemma HostsNameTarget(text: string)
    requires ParseRequest(text).Ok? && ParseAbsoluteUri(ParseRequest(text).value.target).Ok?
    ensures var req := ParseRequest(text).value;
            var uri := ParseAbsoluteUri(req.target).value;
            && uri.port.Some?
            && (AllHostsName(OriginHeaders(req.headers, uri), uri) <==>
                  if HasHost(req.headers) then AllHostsName(req.headers, uri) else TargetHasGoodHost(uri))
  {
    hide Hosts, HasHost, OriginHeaders, HostValue, ParseRequest;
    hide ParseAbsoluteUri, ParseAuthority, EndsWithPort, Word, NoSpace;
    ParsedParts(text);
    var req := ParseRequest(text).value;
    var uri := ParseAbsoluteUri(req.target).value;
    ParsedUri(req.target);
    HostParsesBack(req.target);
    HasHostMeans(req.headers);
    HostsSent(req.headers, uri);
  }

  /** Both together: the rule is met exactly when at most one Host was received, and it names the
      target or, none having been received, the target's host can be written as a Host. */
  lemma HostRuleIsMet(text: string)
    requires ParseRequest(text).Ok? && ParseAbsoluteUri(ParseRequest(text).value.target).Ok?
    ensures var req := ParseRequest(text).value;
            var uri := ParseAbsoluteUri(req.target).value;
            var sent := OriginHeaders(req.headers, uri);
            && uri.port.Some?
            && (|Hosts(sent)| == 1 && AllHostsName(sent, uri) <==>
                  |Hosts(req.headers)| <= 1 &&
                  if HasHost(req.headers) then AllHostsName(req.headers, uri) else TargetHasGoodHost(uri))
  {
    hide Hosts, HasHost, OriginHeaders, ParseRequest, ParseAbsoluteUri, AllHostsName, TargetHasGoodHost;
    OneHostIsSent(text);
    HostsNameTarget(text);
  }

  // ----- a request whose Host misleads

  const MISLEADING := "GET http://a/ HTTP/1.1\r\nHost: b\r\n\r\n"

  lemma MisleadingParses()
    ensures ParseRequest(MISLEADING) == Ok(RequestParts("GET", "http://a/", "HTTP/1.1", [Header("Host", "b")]))
  {
    var req := RequestParts("GET", "http://a/", "HTTP/1.1", [Header("Host", "b")]);
    RenderReparses(req);
    MisleadingIsRendered();
  }

  lemma MisleadingLine()
    ensures RequestLine("GET", "http://a/", "HTTP/1.1") == "GET http://a/ HTTP/1.1"
  {
    assert " " + "HTTP/1.1" == " HTTP/1.1";
    assert "http://a/" + " HTTP/1.1" == "http://a/ HTTP/1.1";
    assert " " + "http://a/ HTTP/1.1" == " http://a/ HTTP/1.1";
    assert "GET" + " http://a/ HTTP/1.1" == "GET http://a/ HTTP/1.1";
  }

  lemma RenderOneHeader(method_: string, target: string, version: string, h: Header)
    ensures Render(RequestParts(method_, target, version, [h]))
              == (RequestLine(method_, target, version) + ("\r\n" + HeaderLine(h))) + TERMINATOR
  {
    hide RequestLine, HeaderLine;
    assert HeaderLines([h]) == [HeaderLine(h)];
    JoinTwo(RequestLine(method_, target, version), HeaderLine(h));
  }

  lemma JoinTwo(a: string, b: string)
    ensures JoinLines([a] + [b]) == a + ("\r\n" + b)
  {
    assert ([a] + [b])[1..] == [b];
    assert JoinLines([b]) == b;
  }

  lemma MisleadingIsRendered()
    ensures Render(RequestParts("GET", "http://a/", "HTTP/1.1", [Header("Host", "b")])) == MISLEADING
  {
    hide Render, RequestLine;
    RenderOneHeader("GET", "http://a/", "HTTP/1.1", Header("Host", "b"));
    MisleadingLine();
    assert HeaderLine(Header("Host", "b")) == "Host: b";
    assert "\r\n" + "Host: b" == "\r\nHost: b";
    assert "\r\nHost: b" + TERMINATOR == "\r\nHost: b\r\n\r\n";
    var line := "GET http://a/ HTTP/1.1";
    assert (line + "\r\nHost: b") + TERMINATOR == line + ("\r\nHost: b" + TERMINATOR);
  }

  lemma ShortHost(c: char)
    requires !IsSpace(c) && c != '@' && c != '[' && c != ':'
    ensures ParseAuthority([c], 80) == Ok(([c], 80))
  {
    hide ParseAuthority, IsSpace;
    BareHost([c]);
  }

  lemma MisleadingTarget()
    ensures ParseAbsoluteUri("http://" + "a/") == Ok(AbsoluteUri("http", "a", Some(80), "/"))
  {
    SchemeEnds("a/");
    ShortHost('a');
    hide ParseAuthority;
    assert "a/" == "a" + (['/'] + "");
    FindAfter("a", '/', "");
    assert ['/'] == "/" && "a/"[..1] == "a" && "a/"[1..] == "/";
  }

  /** For `http://a/` with `Host: b` the origin server is sent a Host that names `b`. */
  lemma ReceivedHostMisleads()
    ensures ParseRequest(MISLEADING).Ok?
    ensures var req := ParseRequest(MISLEADING).value;
            var uri := ParseAbsoluteUri(req.target);
            && uri == Ok(AbsoluteUri("http", "a", Some(80), "/"))
            && Hosts(OriginHeaders(req.headers, uri.value)) == [Header("Host", "b")]
            && ParseAuthority("b", 80) == Ok(("b", 80)) && !Names(Header("Host", "b"), uri.value)
  {
    hide ParseRequest, ParseAbsoluteUri, ParseAuthority, OriginHeaders, HostValue;
    MisleadingParses();
    MisleadingTarget();
    assert "http://a/" == "http://" + "a/";
    ShortHost('b');
    HostsSent([Header("Host", "b")], AbsoluteUri("http", "a", Some(80), "/"));
    HostsSnoc([], Header("Host", "b"));
    assert [] + [Header("Host", "b")] == [Header("Host", "b")];
  }
}
