/** The size of the Open frame that carries a rewritten request, against the size of the header
    it was made from. */
module OpenFrame {
  import opened Bytes
  import opened Wrappers
  import opened Frames
  import opened HttpText
  import opened HttpRequest
  import opened HttpRewrite
  import opened OpenWire
  import HeaderReader

  // ----- UTF-8

  function Utf8Char(c: char): (bs: seq<byte>)
    ensures 1 <= |bs| <= 4
  {
    var n := c as int;
    if n < 0x80 then [n]
    else if n < 0x800 then [0xC0 + n / 0x40, 0x80 + n % 0x40]
    else if n < 0x10000 then [0xE0 + n / 0x1000, 0x80 + n / 0x40 % 0x40, 0x80 + n % 0x40]
    else [0xF0 + n / 0x40000 % 8, 0x80 + n / 0x1000 % 0x40, 0x80 + n / 0x40 % 0x40, 0x80 + n % 0x40]
  }

  function Utf8(s: string): seq<byte> {
    Payload(Utf8Char, s)
  }

  /** How many bytes a string takes. */
  function Width(s: string): nat {
    |Utf8(s)|
  }

  lemma WidthConcat(a: string, b: string)
    ensures Width(a + b) == Width(a) + Width(b)
  {
    PayloadConcat(Utf8Char, a, b);
  }

  lemma {:induction false} WidthAtLeastLength(s: string)
    ensures Width(s) >= |s|
  {
    if s != "" {
      WidthAtLeastLength(s[..|s| - 1]);
    }
  }

  predicate Ascii(s: string) {
    forall i :: 0 <= i < |s| ==> s[i] as int < 0x80
  }

  lemma {:induction false} WidthOfAscii(s: string)
    requires Ascii(s)
    ensures Width(s) == |s|
  {
    if s != "" {
      WidthOfAscii(s[..|s| - 1]);
    }
  }

  lemma WidthSplit(s: string, i: nat)
    requires i <= |s|
    ensures Width(s) == Width(s[..i]) + Width(s[i..])
  {
    WidthConcat(s[..i], s[i..]);
    assert s == s[..i] + s[i..];
  }

  lemma PieceWidth(r: string, s: string)
    requires Piece(r, s)
    ensures Width(r) <= Width(s)
  {
    var i: nat :| PieceAt(r, s, i);
    WidthSplit(s, i);
    WidthSplit(s[i..], |r|);
    assert s[i..][..|r|] == r;
  }

  // ----- the header read

  function LinesWidth(lines: seq<string>): nat {
    if lines == [] then 0 else LinesWidth(lines[..|lines| - 1]) + Width(lines[|lines| - 1]) + 2
  }

  lemma {:induction false} LinesWidthConcat(a: seq<string>, b: seq<string>)
    ensures LinesWidth(a + b) == LinesWidth(a) + LinesWidth(b)
  {
    if b == [] {
      assert a + b == a;
    } else {
      var k := |b| - 1;
      LinesWidthConcat(a, b[..k]);
      assert (a + b)[..|a + b| - 1] == a + b[..k];
    }
  }

  lemma LinesWidthOne(l: string)
    ensures LinesWidth([l]) == Width(l) + 2
  {
    assert [l][..0] == [];
  }

  lemma {:induction false} JoinWidth(parts: seq<string>)
    requires parts != []
    ensures Width(JoinLines(parts)) + 2 == LinesWidth(parts)
    decreases |parts|
  {
    LinesWidthOne(parts[0]);
    LinesWidthConcat([parts[0]], parts[1..]);
    assert parts == [parts[0]] + parts[1..];
    if |parts| > 1 {
      JoinWidth(parts[1..]);
      WidthConcat("\r\n", JoinLines(parts[1..]));
      WidthConcat(parts[0], "\r\n" + JoinLines(parts[1..]));
      WidthOfAscii("\r\n");
    }
  }

  function WordsWidth(words: seq<string>): nat {
    if words == [] then 0 else Width(words[0]) + 1 + WordsWidth(words[1..])
  }

  lemma LosesOne(s: string)
    requires s != "" && IsSpace(s[0])
    ensures Width(TrimStart(s)) < Width(s)
    decreases s
  {
    WidthSplit(s, 1);
    WidthAtLeastLength(s[..1]);
    TrimStartWidth(s[1..]);
  }

  lemma TrimStartWidth(s: string)
    ensures Width(TrimStart(s)) <= Width(s)
  {
    WidthSplit(s, |s| - |TrimStart(s)|);
  }

  /** The words of a line, each with a separator after it but the last, fit in the line. */
  lemma {:induction false} WordsFit(s: string)
    ensures WordsWidth(Words(s)) <= Width(s) + 1
    ensures s == "" || IsSpace(s[0]) ==> WordsWidth(Words(s)) <= Width(s)
    decreases |s|
  {
    hide IsSpace, Width, TrimStart, WordLength;
    var t := TrimStart(s);
    TrimStartWidth(s);
    if s != "" && IsSpace(s[0]) {
      LosesOne(s);
    }
    if t != "" {
      var n := WordLength(t);
      WordsFit(t[n..]);
      WidthSplit(t, n);
      assert Words(s)[1..] == Words(t[n..]);
    }
  }

  lemma RequestLineWidth(line: string)
    requires ParseRequestLine(line).Ok?
    ensures var r := ParseRequestLine(line).value;
            Width(r.0) + Width(r.1) + Width(r.2) + 2 <= Width(line) && 1 <= Width(r.0) && 5 <= Width(r.2)
  {
    hide Words, Width, WordsWidth, WordLength, TrimStart;
    WordsFit(line);
    WordIsWord(line, 0);
    ThreeWordsWidth(Words(line));
    WidthAtLeastLength(Words(line)[0]);
    WidthAtLeastLength(Words(line)[2]);
  }

  lemma ThreeWordsWidth(words: seq<string>)
    requires |words| == 3
    ensures WordsWidth(words) == Width(words[0]) + Width(words[1]) + Width(words[2]) + 3
  {
    hide Width;
    assert words[1..][1..] == words[2..] && words[2..][1..] == [];
    assert WordsWidth(words[2..]) == Width(words[2]) + 1;
    assert WordsWidth(words[1..]) == Width(words[1]) + 1 + WordsWidth(words[2..]);
  }

  // ----- the header sent

  function HeadersWidth(headers: seq<Header>): nat {
    if headers == [] then 0
    else HeadersWidth(headers[..|headers| - 1]) + Width(headers[|headers| - 1].name) + Width(headers[|headers| - 1].value) + 4
  }

  lemma HeaderWidth(line: string)
    requires ParseHeader(line).Ok?
    ensures var h := ParseHeader(line).value; Width(h.name) + 1 + Width(h.value) <= Width(line)
  {
    hide Width, Trim, Piece;
    var i := Find(line, ":").value;
    WidthSplit(line, i);
    WidthSplit(line[i..], 1);
    assert line[i..][1..] == line[i + 1..] && line[i..][..1] == ":";
    WidthOfAscii(":");
    TrimIsPiece(line[..i]);
    TrimIsPiece(line[i + 1..]);
    PieceWidth(Trim(line[..i]), line[..i]);
    PieceWidth(Trim(line[i + 1..]), line[i + 1..]);
  }

  /** A header may grow by one byte, the space after its colon. */
  lemma {:induction false} HeadersGrow(lines: seq<string>)
    requires ParseHeaders(lines).Ok?
    ensures HeadersWidth(ParseHeaders(lines).value) <= LinesWidth(lines) + |lines| <= 2 * LinesWidth(lines)
  {
    hide ParseHeader, Width;
    if lines != [] {
      HeadersGrow(lines[..|lines| - 1]);
      HeaderWidth(lines[|lines| - 1]);
      var headers := ParseHeaders(lines).value;
      assert headers[..|lines| - 1] == ParseHeaders(lines[..|lines| - 1]).value;
    }
  }

  lemma {:induction false} ForwardingShrinks(headers: seq<Header>)
    ensures HeadersWidth(Forwarded(headers)) <= HeadersWidth(headers)
  {
    hide Width, ProxyOnly;
    if headers != [] {
      var front, last := headers[..|headers| - 1], headers[|headers| - 1];
      ForwardingShrinks(front);
      assert (Forwarded(front) + [last])[..|Forwarded(front)|] == Forwarded(front);
    }
  }

  lemma {:induction false} HeaderLinesWidth(headers: seq<Header>)
    ensures LinesWidth(HeaderLines(headers)) == HeadersWidth(headers)
  {
    if headers != [] {
      var front, h := headers[..|headers| - 1], headers[|headers| - 1];
      HeaderLinesWidth(front);
      HeaderLinesSnoc(front, h);
      assert headers == front + [h];
      LinesWidthConcat(HeaderLines(front), [HeaderLine(h)]);
      LinesWidthOne(HeaderLine(h));
      hide Width, LinesWidth;
      WidthConcat(h.name + ": ", h.value);
      WidthConcat(h.name, ": ");
      WidthOfAscii(": ");
    }
  }

  lemma RenderWidth(req: RequestParts)
    ensures Width(Render(req)) == Width(req.method_) + Width(req.target) + Width(req.version) + HeadersWidth(req.headers) + 6
  {
    var line, lines := RequestLine(req.method_, req.target, req.version), HeaderLines(req.headers);
    hide Width, LinesWidth;
    JoinWidth([line] + lines);
    LinesWidthConcat([line], lines);
    LinesWidthOne(line);
    HeaderLinesWidth(req.headers);
    WidthConcat(JoinLines([line] + lines), TERMINATOR);
    WidthOfAscii(TERMINATOR);
    WidthConcat(req.method_, " " + (req.target + (" " + req.version)));
    WidthConcat(" ", req.target + (" " + req.version));
    WidthConcat(req.target, " " + req.version);
    WidthConcat(" ", req.version);
    WidthOfAscii(" ");
  }

  // ----- the target

  /** The Host value made from an authority is no wider than the authority. */
  lemma HostValueWidth(authority: string, uri: AbsoluteUri)
    requires ParseAuthority(authority, 80).Ok? && uri.port.Some?
    requires ParseAuthority(authority, 80).value == (uri.host, uri.port.value)
    ensures Width(uri.host) <= Width(authority) && Width(HostValue(uri)) <= Width(authority)
  {
    if authority[0] == '[' {
      BracketedWidth(authority, uri);
    } else {
      PlainWidth(authority, uri);
    }
  }

  lemma HostAndPortWidth(host: string, port: nat)
    ensures Width(host + ":" + Decimal(port)) == Width(host) + 1 + |Decimal(port)|
  {
    WidthConcat(host + ":", Decimal(port));
    WidthConcat(host, ":");
    WidthOfAscii(":");
    assert forall i :: 0 <= i < |Decimal(port)| ==> IsDigit(Decimal(port)[i]);
    WidthOfAscii(Decimal(port));
  }

  lemma PortWidth(s: string)
    requires ParseU16(s).Some?
    ensures |Decimal(ParseU16(s).value)| <= |s| && ParseU16(s).value <= 65535
  {
    DecimalIsShortest(if |s| > 1 && s[0] == '+' then s[1..] else s);
  }

  lemma PlainWidth(authority: string, uri: AbsoluteUri)
    requires ParseAuthority(authority, 80).Ok? && uri.port.Some? && authority[0] != '['
    requires ParseAuthority(authority, 80).value == (uri.host, uri.port.value)
    ensures Width(uri.host) <= Width(authority) && Width(HostValue(uri)) <= Width(authority)
  {
    hide Width, Decimal, ParseU16;
    var colon := FindLast(authority, ':');
    if colon.Some? {
      var digits := authority[colon.value + 1..];
      WidthSplit(authority, colon.value);
      WidthAtLeastLength(authority[colon.value..]);
      if ParseU16(digits).Some? {
        PortWidth(digits);
      }
      HostAndPortWidth(authority[..colon.value], uri.port.value);
    }
  }

  lemma BracketedWidth(authority: string, uri: AbsoluteUri)
    requires ParseAuthority(authority, 80).Ok? && uri.port.Some? && authority[0] == '['
    requires ParseAuthority(authority, 80).value == (uri.host, uri.port.value)
    ensures Width(uri.host) <= Width(authority) && Width(HostValue(uri)) <= Width(authority)
  {
    hide Width, Decimal, ParseU16;
    var rest := authority[1..];
    var i := Find(rest, "]").value;
    WidthSplit(authority, 1);
    WidthSplit(rest, i);
    var after := rest[i + 1..];
    WidthAtLeastLength(rest[i..]);
    if after != "" {
      PortWidth(after[1..]);
    }
    HostAndPortWidth(rest[..i], uri.port.value);
  }

  function Authority(target: string): string
    requires Find(target, "://").Some?
  {
    var rest := target[Find(target, "://").value + 3..];
    var slash := Find(rest, "/");
    if slash.Some? then rest[..slash.value] else rest
  }

  /** The target is at least `http://`, its authority, and its path if it wrote one. */
  lemma TargetWidth(target: string)
    requires ParseAbsoluteUri(target).Ok?
    ensures var uri := ParseAbsoluteUri(target).value;
            && uri.port.Some? && ParseAuthority(Authority(target), 80) == Ok((uri.host, uri.port.value))
            && 7 + Width(Authority(target)) <= Width(target)
            && 6 + Width(Authority(target)) + Width(uri.path) <= Width(target)
            && 1 <= Width(uri.path)
  {
    hide Width, ParseAuthority, Find;
    var i := Find(target, "://").value;
    var rest := target[i + 3..];
    var a := ParseAuthority(Authority(target), 80);
    assert a.Ok? && a.value == (a.value.0, a.value.1);
    WidthSplit(target, i + 3);
    WidthAtLeastLength(target[..i + 3]);
    WidthOfAscii("/");
    var slash := Find(rest, "/");
    if slash.Some? {
      WidthSplit(rest, slash.value);
      WidthAtLeastLength(rest[slash.value..]);
    }
  }

  // ----- the frame

  lemma OriginWidth(headers: seq<Header>, uri: AbsoluteUri)
    ensures HeadersWidth(OriginHeaders(headers, uri)) <= HeadersWidth(headers) + 8 + Width(HostValue(uri))
  {
    hide Width, Forwarded, HostValue;
    ForwardingShrinks(headers);
    var fwd, h := Forwarded(headers), Header("Host", HostValue(uri));
    WidthOfAscii("Host");
    assert (fwd + [h])[..|fwd|] == fwd;
    assert fwd + [] == fwd;
  }

  lemma BodyWidth(body: string)
    ensures Width(body) + 2 == Width(Lines(body)[0]) + 2 + LinesWidth(Lines(body)[1..])
  {
    hide Width, LinesWidth, Lines;
    var lines := Lines(body);
    JoinOfLines(body);
    JoinWidth(lines);
    LinesWidthOne(lines[0]);
    LinesWidthConcat([lines[0]], lines[1..]);
    assert lines == [lines[0]] + lines[1..];
  }

  lemma ReadWidth(text: string)
    requires ParseRequest(text).Ok?
    ensures var req := ParseRequest(text).value;
            var lines := Lines(text[..|text| - 4])[1..];
            && ParseHeaders(lines) == Ok(req.headers)
            && Width(req.method_) + Width(req.target) + Width(req.version) + 2 + LinesWidth(lines) + 4 <= Width(text)
            && 1 <= Width(req.method_) && 5 <= Width(req.version)
  {
    hide Width, LinesWidth, Lines, ParseRequestLine, ParseHeaders;
    var body := text[..|text| - 4];
    WidthSplit(text, |text| - 4);
    WidthOfAscii(TERMINATOR);
    BodyWidth(body);
    RequestLineWidth(Lines(body)[0]);
  }

  /** For every absolute-form header of L bytes within the ingress limit, the encoded Open frame
      takes at most 2 L - 1 bytes, so it never exceeds the tunnel's message limit, although every
      header may grow by a byte and the host travels twice. */
  lemma {:induction false} OpenFrameFits(text: string)
    requires ParseRequest(text).Ok? && ParseAbsoluteUri(ParseRequest(text).value.target).Ok?
    requires Width(text) <= HeaderReader.MAX_HEADER_SIZE
    ensures var req := ParseRequest(text).value;
            var uri := ParseAbsoluteUri(req.target).value;
            var size := |OpenFrameBytes(Open(Utf8(uri.host), uri.port.value, Utf8(Render(Rewritten(req, uri)))))|;
            size <= 2 * Width(text) - 1 && size <= MAX_MESSAGE_SIZE
  {
    var req := ParseRequest(text).value;
    var uri := ParseAbsoluteUri(req.target).value;
    var lines := Lines(text[..|text| - 4])[1..];
    ReadWidth(text);
    TargetWidth(req.target);
    PortInRange(req.target);
    hide Utf8, LinesWidth, HeadersWidth, ParseRequest, ParseAbsoluteUri, OpenFrameBytes;
    hide Render, HostValue, Words, Lines, ParseAuthority, Authority;
    HostValueWidth(Authority(req.target), uri);
    HeadersGrow(lines);
    OriginWidth(req.headers, uri);
    RenderWidth(Rewritten(req, uri));
    FrameOverhead(Open(Utf8(uri.host), uri.port.value, Utf8(Render(Rewritten(req, uri)))));
  }

  lemma PortInRange(target: string)
    requires ParseAbsoluteUri(target).Ok?
    ensures var uri := ParseAbsoluteUri(target).value; uri.port.Some? && uri.port.value <= 65535
  {
  }

  // ----- the CONNECT branch

  lemma AuthorityHostWidth(authority: string, defaultPort: nat)
    requires ParseAuthority(authority, defaultPort).Ok? && defaultPort <= 65535
    ensures var (host, port) := ParseAuthority(authority, defaultPort).value;
            Width(host) <= Width(authority) && port <= 65535
  {
    hide Width, Find, FindLast, AllDigits, DigitsValue;
    var host := ParseAuthority(authority, defaultPort).value.0;
    if authority[0] == '[' {
      assert authority[1..][..|host|] == host;
      assert PieceAt(host, authority, 1);
    } else {
      assert PieceAt(host, authority, 0);
    }
    PieceWidth(host, authority);
  }

  /** The Open frame of a CONNECT request carries its host and port and no payload, and fits too. */
  lemma ConnectFrameFits(text: string)
    requires ParseRequest(text).Ok? && ParseAuthority(ParseRequest(text).value.target, 443).Ok?
    requires Width(text) <= HeaderReader.MAX_HEADER_SIZE
    ensures var (host, port) := ParseAuthority(ParseRequest(text).value.target, 443).value;
            |OpenFrameBytes(Open(Utf8(host), port, []))| <= Width(text) + 16 <= MAX_MESSAGE_SIZE
  {
    hide Utf8, LinesWidth, ParseRequest, ParseAuthority, OpenFrameBytes, Lines;
    ReadWidth(text);
    var target := ParseRequest(text).value.target;
    AuthorityHostWidth(target, 443);
    var a := ParseAuthority(target, 443).value;
    FrameOverhead(Open(Utf8(a.0), a.1, []));
  }
}
