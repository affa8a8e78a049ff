/** What the rewritten request says when it is parsed again, and what its Host says. */
module HttpRewrite {
  import opened Wrappers
  import opened HttpText
  import opened HttpRequest
  import opened HttpTarget

  // ----- parsed pieces

  predicate GoodHeader(h: Header) {
    && Trimmed(h.name) && Trimmed(h.value) && NoCrlf(h.name) && NoCrlf(h.value) && ':' !in h.name
  }

  lemma PieceNoCrlf(r: string, s: string)
    requires Piece(r, s) && NoCrlf(s)
    ensures NoCrlf(r)
  {
    var i: nat :| PieceAt(r, s, i);
    assert forall k :: 0 <= k < |r| ==> r[k] == s[i + k];
  }

  lemma PieceWithout(r: string, s: string, c: char)
    requires Piece(r, s) && c !in s
    ensures c !in r
  {
    var i: nat :| PieceAt(r, s, i);
    assert forall k :: 0 <= k < |r| ==> r[k] == s[i + k];
  }

  lemma SlicesNoCrlf(s: string, i: nat)
    requires NoCrlf(s) && i <= |s|
    ensures NoCrlf(s[..i]) && NoCrlf(s[i..])
  {
  }

  lemma ParsedHeaderIsGood(line: string)
    requires NoCrlf(line) && ParseHeader(line).Ok?
    ensures GoodHeader(ParseHeader(line).value)
  {
    hide NoCrlf, Trim;
    FindChar(line, ':');
    var i := Find(line, ":").value;
    SlicesNoCrlf(line, i);
    SlicesNoCrlf(line, i + 1);
    TrimIsPiece(line[..i]);
    TrimIsPiece(line[i + 1..]);
    PieceNoCrlf(Trim(line[..i]), line[..i]);
    PieceNoCrlf(Trim(line[i + 1..]), line[i + 1..]);
    PieceWithout(Trim(line[..i]), line[..i], ':');
  }

  lemma {:induction false} ParsedHeadersAreGood(lines: seq<string>)
    requires forall i :: 0 <= i < |lines| ==> NoCrlf(lines[i])
    requires ParseHeaders(lines).Ok?
    ensures forall i :: 0 <= i < |lines| ==> GoodHeader(ParseHeaders(lines).value[i])
  {
    hide NoCrlf, ParseHeader, GoodHeader;
    if lines != [] {
      ParsedHeadersAreGood(lines[..|lines| - 1]);
      ParsedHeaderIsGood(lines[|lines| - 1]);
    }
  }

  /** A good header reads back from the line the rewrite makes of it. */
  lemma HeaderReparses(h: Header)
    requires GoodHeader(h)
    ensures ParseHeader(HeaderLine(h)) == Ok(h) && NoCrlf(HeaderLine(h))
  {
    var line := HeaderLine(h);
    assert line == h.name + ([':'] + (" " + h.value));
    FindAfter(h.name, ':', " " + h.value);
    assert [':'] == ":";
    assert line[..|h.name|] == h.name && line[|h.name| + 1..] == " " + h.value;
    TrimTrimmed(h.name);
    TrimTrimmed(h.value);
    JoinedNoCrlf(h.name, h.value);
  }

  lemma JoinedNoCrlf(a: string, b: string)
    requires NoCrlf(a) && NoCrlf(b)
    ensures NoCrlf(a + ": " + b)
  {
    var s := a + ": " + b;
    forall i | 0 <= i < |s| - 1
      ensures !(s[i] == '\r' && s[i + 1] == '\n')
    {
      if i >= |a| + 2 {
        assert s[i] == b[i - |a| - 2] && s[i + 1] == b[i - |a| - 1];
      }
    }
  }

  lemma {:induction false} HeadersReparse(headers: seq<Header>)
    requires forall i :: 0 <= i < |headers| ==> GoodHeader(headers[i])
    ensures ParseHeaders(HeaderLines(headers)) == Ok(headers)
    ensures forall i :: 0 <= i < |headers| ==> NoCrlf(HeaderLines(headers)[i])
  {
    hide GoodHeader, HeaderLine, ParseHeader, NoCrlf;
    if headers != [] {
      var front, last := headers[..|headers| - 1], headers[|headers| - 1];
      HeadersReparse(front);
      HeaderReparses(last);
      HeaderLinesSnoc(front, last);
      assert headers == front + [last];
      assert (HeaderLines(front) + [HeaderLine(last)])[..|front|] == HeaderLines(front);
    }
  }

  predicate Word(s: string) {
    s != "" && NoSpace(s)
  }

  lemma RequestLineNoCrlf(method_: string, target: string, version: string)
    requires NoSpace(method_) && NoSpace(target) && NoSpace(version)
    ensures NoCrlf(RequestLine(method_, target, version))
  {
    var line := RequestLine(method_, target, version);
    forall i | 0 <= i < |line| - 1
      ensures line[i] != '\r'
    {
      if i > |method_| + 1 + |target| {
        assert line[i] == version[i - |method_| - |target| - 2];
      } else if |method_| < i < |method_| + 1 + |target| {
        assert line[i] == target[i - |method_| - 1];
      }
    }
  }

  lemma ThreeWords(a: string, b: string, c: string)
    requires Word(a) && Word(b) && Word(c)
    ensures Words(RequestLine(a, b, c)) == [a, b, c]
  {
    hide Words, NoSpace;
    WordThenSpace(a, b + (" " + c));
    LeadingSpaceIgnored(b + (" " + c));
    WordThenSpace(b, c);
    LeadingSpaceIgnored(c);
    WordAlone(c);
    assert Words(b + (" " + c)) == [b, c];
  }

  lemma ThreeWordsParse(line: string, words: seq<string>)
    requires Words(line) == words && |words| == 3 && "HTTP/" <= words[2]
    ensures ParseRequestLine(line) == Ok((words[0], words[1], words[2]))
  {
    hide Words;
  }

  lemma RequestLineReparses(method_: string, target: string, version: string)
    requires Word(method_) && Word(target) && Word(version) && "HTTP/" <= version
    ensures ParseRequestLine(RequestLine(method_, target, version)) == Ok((method_, target, version))
    ensures NoCrlf(RequestLine(method_, target, version))
  {
    assert NoSpace(method_) && NoSpace(target) && NoSpace(version);
    hide Words, RequestLine, NoCrlf, NoSpace, Word, ParseRequestLine;
    RequestLineNoCrlf(method_, target, version);
    ThreeWords(method_, target, version);
    ThreeWordsParse(RequestLine(method_, target, version), [method_, target, version]);
  }

  /** A request whose parts are well formed and which has a header reads back from its text. */
  lemma RenderReparses(req: RequestParts)
    requires Word(req.method_) && Word(req.target) && Word(req.version) && "HTTP/" <= req.version
    requires forall i :: 0 <= i < |req.headers| ==> GoodHeader(req.headers[i])
    ensures ParseRequest(Render(req)) == Ok(req)
  {
    hide GoodHeader, Word, NoCrlf, RequestLine, HeaderLines, ParseRequestLine;
    var line, lines := RequestLine(req.method_, req.target, req.version), HeaderLines(req.headers);
    RequestLineReparses(req.method_, req.target, req.version);
    HeadersReparse(req.headers);
    HeaderLinesLength(req.headers);
    LinesJoin([line] + lines);
    var text := Render(req);
    assert text[..|text| - 4] == JoinLines([line] + lines);
    assert ([line] + lines)[1..] == lines;
  }

  lemma HeaderLinesLength(headers: seq<Header>)
    ensures |HeaderLines(headers)| == |headers|
  {
  }

  // ----- the parts of an accepted absolute-form request

  lemma ParsedLineHasWords(line: string)
    requires ParseRequestLine(line).Ok?
    ensures var r := ParseRequestLine(line).value; Word(r.0) && Word(r.1) && Word(r.2) && "HTTP/" <= r.2
  {
    hide Words, NoSpace;
    WordIsWord(line, 0);
    WordIsWord(line, 1);
    WordIsWord(line, 2);
  }

  lemma ParsedParts(text: string)
    requires ParseRequest(text).Ok?
    ensures var req := ParseRequest(text).value;
            && Word(req.method_) && Word(req.target) && Word(req.version) && "HTTP/" <= req.version
            && forall i :: 0 <= i < |req.headers| ==> GoodHeader(req.headers[i])
  {
    var lines := Lines(text[..|text| - 4]);
    LinesHaveNoCrlf(text[..|text| - 4]);
    ParsedLineHasWords(lines[0]);
    ParsedHeadersAreGood(lines[1..]);
  }

  lemma NoSpacePieces(s: string, i: nat)
    requires NoSpace(s) && i <= |s|
    ensures NoSpace(s[..i]) && NoSpace(s[i..])
  {
  }

  lemma ParsedAuthority(authority: string, defaultPort: nat)
    requires NoSpace(authority) && ParseAuthority(authority, defaultPort).Ok? && defaultPort <= 65535
    ensures var (host, port) := ParseAuthority(authority, defaultPort).value;
            NoSpace(host) && '@' !in host && port <= 65535
            && (authority[0] == '[' ==> ']' !in host)
            && (authority[0] != '[' ==> host <= authority)
  {
    if authority[0] == '[' {
      var rest := authority[1..];
      FindChar(rest, ']');
      assert [']'] == "]";
      NoSpacePieces(authority, 1);
      NoSpacePieces(rest, Find(rest, "]").value);
    }
  }

  lemma SlashIsWord()
    ensures Word("/")
  {
  }

  /** An accepted host may hold a `]` only if its authority is unbracketed; then it starts otherwise. */
  lemma ParsedUri(target: string)
    requires Word(target) && ParseAbsoluteUri(target).Ok?
    ensures var uri := ParseAbsoluteUri(target).value;
            && Word(uri.path) && uri.path[0] == '/'
            && NoSpace(uri.host) && '@' !in uri.host
            && uri.port.Some? && uri.port.value <= 65535
            && (uri.host != "" && uri.host[0] == '[' ==> ']' !in uri.host)
  {
    hide NoSpace, ParseAuthority, EqIgnoreCase;
    SlashIsWord();
    var i := Find(target, "://").value;
    var rest := target[i + 3..];
    NoSpacePieces(target, i + 3);
    var slash := Find(rest, "/");
    if slash.Some? {
      NoSpacePieces(rest, slash.value);
    }
    var authority := if slash.Some? then rest[..slash.value] else rest;
    ParsedAuthority(authority, 80);
  }

  lemma {:induction false} ForwardedAreGood(headers: seq<Header>)
    requires forall i :: 0 <= i < |headers| ==> GoodHeader(headers[i])
    ensures forall i :: 0 <= i < |Forwarded(headers)| ==> GoodHeader(Forwarded(headers)[i])
  {
    hide GoodHeader;
    if headers != [] {
      ForwardedAreGood(headers[..|headers| - 1]);
    }
  }

  lemma HostHeaderIsGood(uri: AbsoluteUri)
    requires NoSpace(uri.host)
    ensures GoodHeader(Header("Host", HostValue(uri)))
  {
    var v := HostValue(uri);
    assert NoSpace(v);
  }

  /** What a rewritten request is parsed as. */
  lemma RewrittenReparses(text: string)
    requires ParseRequest(text).Ok? && ParseAbsoluteUri(ParseRequest(text).value.target).Ok?
    ensures var req := ParseRequest(text).value;
            var sent := Rewritten(req, ParseAbsoluteUri(req.target).value);
            ParseRequest(Render(sent)) == Ok(sent)
  {
    var req := ParseRequest(text).value;
    var uri := ParseAbsoluteUri(req.target).value;
    ParsedParts(text);
    ParsedUri(req.target);
    ForwardedAreGood(req.headers);
    HostHeaderIsGood(uri);
    hide ParseRequest, ParseAbsoluteUri, GoodHeader, Word, Render, Forwarded, HasHost, HostValue;
    RenderReparses(Rewritten(req, uri));
  }

  /** For every accepted absolute-form request: its target is a scheme equal to `http` up to case,
      `://`, an authority that means a host and a port, and a path that may be missing.  Parsing the
      rewritten text gives the same method and version, that path (or `/`) as target, and the
      original headers in order without the proxy's own, followed by exactly one Host made from the
      authority's host and port iff none was present. */
  lemma {:induction false} RewriteThenParse(text: string)
    returns (scheme: string, authority: string, written: string, host: string, port: nat)
    requires ParseRequest(text).Ok? && ParseAbsoluteUri(ParseRequest(text).value.target).Ok?
    ensures var req := ParseRequest(text).value;
            && TargetText(req.target, scheme, authority, written) && AuthorityMeans(authority, 80, host, port)
            && ParseRequest(Render(Rewritten(req, ParseAbsoluteUri(req.target).value))) == Ok(RequestParts(
                 req.method_, if written == "" then "/" else written, req.version,
                 Forwarded(req.headers) +
                   (if exists i :: 0 <= i < |req.headers| && NamesHost(req.headers[i].name) then []
                    else [Header("Host", if port == 80 then host else host + ":" + Decimal(port))])))
  {
    hide ParseRequest, ParseAbsoluteUri, Render, Forwarded, HasHost, AuthorityMeans, TargetText, NamesHost, Decimal;
    var req := ParseRequest(text).value;
    var uri := ParseAbsoluteUri(req.target).value;
    scheme, authority, written := TargetIsRead(req.target);
    host, port := uri.host, uri.port.value;
    RewrittenReparses(text);
    HostIsPresent(req.headers);
  }

  lemma HostIsPresent(headers: seq<Header>)
    ensures HasHost(headers) <==> exists i :: 0 <= i < |headers| && NamesHost(headers[i].name)
  {
    hide IsHost, NamesHost;
    forall i | 0 <= i < |headers|
      ensures IsHost(headers[i]) <==> NamesHost(headers[i].name)
    {
      HeaderNames(headers[i]);
    }
  }

  /** Forwarding keeps order and drops exactly the proxy's own headers, wherever they stand. */
  lemma {:induction false} ForwardedInOrder(a: seq<Header>, h: Header, b: seq<Header>)
    ensures Forwarded([]) == []
    ensures Forwarded(a + [h] + b) == Forwarded(a) + (if ForProxy(h.name) then [] else [h]) + Forwarded(b)
    decreases |b|
  {
    hide ForProxy, ProxyOnly;
    HeaderNames(h);
    var all := a + [h] + b;
    if b == [] {
      assert all == a + [h] && all[..|a|] == a;
      assert Forwarded(b) == [];
    } else {
      var k := |b| - 1;
      assert all[..|all| - 1] == a + [h] + b[..k] && all[|all| - 1] == b[k];
      ForwardedInOrder(a, h, b[..k]);
    }
  }

  // ----- the synthesized Host

  /** For every accepted absolute-form target: the Host made from it parses back to the same
      host and port exactly when the host is not empty and not itself opened by a bracket, the
      port is not 0, and a host written without its port does not end like one with a port. */
  lemma {:induction false} HostParsesBack(target: string)
    requires Word(target) && ParseAbsoluteUri(target).Ok?
    ensures var uri := ParseAbsoluteUri(target).value;
            ParseAuthority(HostValue(uri), 80) == Ok((uri.host, uri.port.value)) <==>
              && uri.host != "" && uri.host[0] != '[' && uri.port.value != 0
              && (uri.port.value == 80 ==> !EndsWithPort(uri.host))
  {
    ParsedUri(target);
    var uri := ParseAbsoluteUri(target).value;
    hide ParseAbsoluteUri;
    if uri.port.value == 80 {
      BareHost(uri.host);
    } else {
      HostWithPort(uri.host, uri.port.value);
    }
  }

  lemma NoAsciiSpace(s: string)
    requires NoSpace(s)
    ensures !exists i :: 0 <= i < |s| && IsAsciiSpace(s[i])
  {
  }

  lemma NoBracketInside(host: string, more: string)
    requires ']' !in host && ']' !in more && host != "" && host[0] == '['
    ensures ParseAuthority(host + more, 80).Err?
  {
    var s := host + more;
    FindChar(s[1..], ']');
    assert [']'] == "]";
  }

  lemma BareHost(host: string)
    requires NoSpace(host) && '@' !in host && (host != "" && host[0] == '[' ==> ']' !in host)
    ensures ParseAuthority(host, 80) == Ok((host, 80)) <==> host != "" && host[0] != '[' && !EndsWithPort(host)
  {
    hide EndsWithPort;
    NoAsciiSpace(host);
    PortIsLast(host);
    if host != "" && host[0] == '[' {
      NoBracketInside(host, "");
      assert host + "" == host;
    }
  }

  lemma PortAuthority(host: string, port: nat)
    requires '@' !in host && (host != "" ==> host[0] != '[') && port <= 65535
    ensures ParseAuthority(host + ":" + Decimal(port), 80) == PlainHost(host, port)
  {
    hide Decimal, ParseU16, FindLast, PlainHost, Find;
    DecimalParses(port);
    PlainAuthority(host, Decimal(port), port, 80);
  }

  lemma HostWithPort(host: string, port: nat)
    requires NoSpace(host) && '@' !in host && (host != "" && host[0] == '[' ==> ']' !in host) && port <= 65535
    ensures ParseAuthority(host + ":" + Decimal(port), 80) == Ok((host, port)) <==>
              host != "" && host[0] != '[' && port != 0
  {
    hide ParseAuthority, Decimal;
    if host != "" && host[0] == '[' {
      assert host + ":" + Decimal(port) == host + (":" + Decimal(port));
      assert forall i :: 0 <= i < |Decimal(port)| ==> IsDigit(Decimal(port)[i]);
      NoBracketInside(host, ":" + Decimal(port));
    } else {
      NoAsciiSpace(host);
      PortAuthority(host, port);
    }
  }

  /** In particular for every host without a colon that is not bracketed. */
  lemma {:induction false} ColonFreeHostParsesBack(target: string)
    requires Word(target) && ParseAbsoluteUri(target).Ok?
    requires var uri := ParseAbsoluteUri(target).value;
             ':' !in uri.host && uri.host != "" && uri.host[0] != '[' && uri.port != Some(0)
    ensures var uri := ParseAbsoluteUri(target).value;
            ParseAuthority(HostValue(uri), 80) == Ok((uri.host, uri.port.value))
  {
    HostParsesBack(target);
  }

  /** A bracketed address loses its brackets: the Host made for `http://[::1]/` names another
      host and port. */
  lemma {:induction false} BracketsAreLost()
    ensures var r := ParseAbsoluteUri("http://" + "[::1]/");
            r.Ok? && HostValue(r.value) == "::1" && ParseAuthority(HostValue(r.value), 80) == Ok((":", 1))
  {
    SchemeEnds("[::1]/");
    Bracketed();
    Unbracketed();
    hide ParseAuthority;
    var rest := "[::1]/";
    assert rest == "[::1]" + (['/'] + "");
    FindAfter("[::1]", '/', "");
    assert ['/'] == "/" && rest[..5] == "[::1]";
  }

  lemma Bracketed()
    ensures ParseAuthority("[::1]", 80) == Ok(("::1", 80))
  {
    var rest := "[::1]"[1..];
    assert rest == "::1" + ([']'] + "");
    FindAfter("::1", ']', "");
    assert [']'] == "]" && rest[..3] == "::1" && rest[4..] == "";
  }

  lemma Unbracketed()
    ensures ParseAuthority("::1", 80) == Ok((":", 1))
  {
    FindLastIs("::1", ':', 1);
    DecimalParses(1);
    assert Decimal(1) == "1" && "::1"[2..] == "1" && "::1"[..1] == ":";
  }

  lemma FindSkips(c: char, s: string, pat: string)
    requires pat != "" && pat[0] != c
    ensures var r := Find(s, pat); Find([c] + s, pat) == if r.None? then None else Some(r.value + 1)
  {
    assert ([c] + s)[1..] == s;
    if |s| + 1 >= |pat| {
      assert ([c] + s)[..|pat|][0] == c;
    }
  }

  lemma SchemeEnds(rest: string)
    ensures var t := "http://" + rest;
            Find(t, "://") == Some(4) && EqIgnoreCase(t[..4], "http") && t[7..] == rest
  {
    var s := "://" + rest;
    assert s[..3] == "://";
    FindSkips('p', s, "://");
    FindSkips('t', ['p'] + s, "://");
    FindSkips('t', ['t'] + (['p'] + s), "://");
    FindSkips('h', ['t'] + (['t'] + (['p'] + s)), "://");
    hide Find;
    assert "http://" + rest == ['h'] + (['t'] + (['t'] + (['p'] + s)));
  }
}
