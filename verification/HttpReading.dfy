/** What the HTTP ingress reads from a request, whatever white space surrounds its words, names and
    values. */
module HttpReading {
  import opened Wrappers
  import opened HttpText
  import opened HttpRequest
  import opened HttpRewrite

  predicate AllSpace(s: string) {
    forall i :: 0 <= i < |s| ==> IsSpace(s[i])
  }

  // ----- trimming

  lemma {:induction false} LeadingSpaces(a: string, s: string)
    requires AllSpace(a)
    ensures TrimStart(a + s) == TrimStart(s)
  {
    hide IsSpace;
    if a == "" {
      assert a + s == s;
    } else {
      assert (a + s)[0] == a[0] && (a + s)[1..] == a[1..] + s;
      LeadingSpaces(a[1..], s);
    }
  }

  lemma {:induction false} TrailingSpaces(s: string, b: string)
    requires AllSpace(b)
    ensures TrimEnd(s + b) == TrimEnd(s)
  {
    hide IsSpace;
    if b == "" {
      assert s + b == s;
    } else {
      var k := |b| - 1;
      assert (s + b)[|s| + k] == b[k] && (s + b)[..|s| + k] == s + b[..k];
      TrailingSpaces(s, b[..k]);
    }
  }

  /** Trimming takes off the white space on both sides and nothing else. */
  lemma {:induction false} TrimTakesSpace(a: string, s: string, b: string)
    requires AllSpace(a) && AllSpace(b) && Trimmed(s)
    ensures Trim(a + s + b) == s
  {
    hide IsSpace, TrimStart, TrimEnd;
    assert a + s + b == a + (s + b);
    LeadingSpaces(a, s + b);
    if s == "" {
      assert s + b == b + "";
      LeadingSpaces(b, "");
      NothingToTrim();
    } else {
      StartsTrimmed(s, b);
      TrailingSpaces(s, b);
      TrimStartOf(s);
    }
  }

  lemma NothingToTrim()
    ensures TrimStart("") == "" && TrimEnd("") == ""
  {
  }

  lemma StartsTrimmed(s: string, b: string)
    requires s != "" && !IsSpace(s[0])
    ensures TrimStart(s + b) == s + b
  {
    hide IsSpace;
    assert (s + b)[0] == s[0];
  }

  // ----- headers

  /** A header line is split at its first colon, and name and value are trimmed. */
  lemma {:induction false} HeaderReads(a: string, name: string, b: string, c: string, value: string, d: string)
    requires AllSpace(a) && AllSpace(b) && AllSpace(c) && AllSpace(d)
    requires Trimmed(name) && Trimmed(value) && ':' !in name
    ensures ParseHeader(a + name + b + ":" + (c + value + d)) == Ok(Header(name, value))
  {
    hide Trim, Find, Trimmed;
    var left, right := a + name + b, c + value + d;
    var line := left + ":" + right;
    SpaceIsNoColon(a);
    SpaceIsNoColon(b);
    assert line == left + ([':'] + right);
    FindAfter(left, ':', right);
    assert [':'] == ":";
    assert line[..|left|] == left && line[|left| + 1..] == right;
    TrimTakesSpace(a, name, b);
    TrimTakesSpace(c, value, d);
  }

  lemma SpaceIsNoColon(s: string)
    requires AllSpace(s)
    ensures ':' !in s
  {
  }

  /** A line without a colon is no header. */
  lemma HeaderRefused(line: string)
    ensures ParseHeader(line).Err? <==> ':' !in line
  {
    assert [':'] == ":";
    FindChar(line, ':');
  }

  // ----- the request line

  predicate Gaps(gaps: seq<string>) {
    forall i :: 0 <= i < |gaps| ==> AllSpace(gaps[i])
  }

  /** The words with the gaps before, between and after them. */
  function Spaced(words: seq<string>, gaps: seq<string>): string
    requires |gaps| == |words| + 1
  {
    if words == [] then gaps[0] else gaps[0] + (words[0] + Spaced(words[1..], gaps[1..]))
  }

  predicate Separated(words: seq<string>, gaps: seq<string>)
    requires |gaps| == |words| + 1
  {
    && Gaps(gaps)
    && (forall i :: 0 <= i < |words| ==> Word(words[i]))
    && (forall i :: 1 <= i < |words| ==> gaps[i] != "")
  }

  /** The words of a text are those that white space of any length separates. */
  lemma {:induction false} WordsRead(words: seq<string>, gaps: seq<string>)
    requires |gaps| == |words| + 1 && Separated(words, gaps)
    ensures Words(Spaced(words, gaps)) == words
    decreases |words|
  {
    hide Words, WordLength, TrimStart, Word, AllSpace;
    if words == [] {
      OnlySpace(gaps[0]);
    } else {
      var rest := Spaced(words[1..], gaps[1..]);
      WordsRead(words[1..], gaps[1..]);
      SpaceAfter(words, gaps);
      SkipGap(gaps[0], words[0] + rest);
      WordThenRest(words[0], rest);
      assert words == [words[0]] + words[1..];
    }
  }

  lemma OnlySpace(s: string)
    requires AllSpace(s)
    ensures Words(s) == []
  {
    hide IsSpace;
    assert s + "" == s;
    LeadingSpaces(s, "");
  }

  lemma SkipGap(gap: string, s: string)
    requires AllSpace(gap)
    ensures Words(gap + s) == Words(s)
  {
    hide IsSpace, TrimStart, WordLength;
    LeadingSpaces(gap, s);
  }

  lemma WordThenRest(w: string, rest: string)
    requires Word(w) && (rest != "" ==> IsSpace(rest[0]))
    ensures Words(w + rest) == [w] + Words(rest)
  {
    hide Words, WordLength, TrimStart, IsSpace;
    var s := w + rest;
    assert s[..|w|] == w && s[|w|..] == rest;
    WordLengthIs(s, |w|);
    assert s[0] == w[0];
    WordsOpen(s);
  }

  lemma SpaceAfter(words: seq<string>, gaps: seq<string>)
    requires words != [] && |gaps| == |words| + 1 && Separated(words, gaps)
    ensures var rest := Spaced(words[1..], gaps[1..]); rest != "" ==> IsSpace(rest[0])
  {
    hide IsSpace, Word;
    if |words| > 1 {
      assert gaps[1..][0] == gaps[1] && gaps[1] != "";
      assert AllSpace(gaps[1]);
    } else {
      assert AllSpace(gaps[1]);
    }
  }

  /** A request line is three words, the last one a version. */
  lemma {:induction false} RequestLineReads(words: seq<string>, gaps: seq<string>)
    requires |gaps| == |words| + 1 && Separated(words, gaps)
    ensures ParseRequestLine(Spaced(words, gaps)) ==
              if |words| == 0 then Err(MissingMethod)
              else if |words| == 1 then Err(MissingTarget)
              else if |words| == 2 then Err(MissingVersion)
              else if |words| == 3 && "HTTP/" <= words[2] then Ok((words[0], words[1], words[2]))
              else Err(MalformedRequestLine)
  {
    hide Words, Spaced;
    WordsRead(words, gaps);
  }

  // ----- the whole request

  /** Each line reads as the header of the same place. */
  predicate LinesRead(lines: seq<string>, headers: seq<Header>) {
    && |lines| == |headers|
    && forall i :: 0 <= i < |lines| ==> ParseHeader(lines[i]) == Ok(headers[i])
  }

  lemma HeadersRead(lines: seq<string>, headers: seq<Header>)
    ensures ParseHeaders(lines) == Ok(headers) <==> LinesRead(lines, headers)
  {
    hide ParseHeader, ParseHeaders;
    if ParseHeaders(lines) == Ok(headers) {
      ParsedLinesRead(lines);
    }
    if LinesRead(lines, headers) {
      ReadLinesParse(lines, headers);
    }
  }

  lemma {:induction false} ParsedLinesRead(lines: seq<string>)
    requires ParseHeaders(lines).Ok?
    ensures LinesRead(lines, ParseHeaders(lines).value)
    decreases |lines|
  {
    hide ParseHeader;
    if lines != [] {
      ParsedLinesRead(lines[..|lines| - 1]);
    }
  }

  lemma {:induction false} ReadLinesParse(lines: seq<string>, headers: seq<Header>)
    requires LinesRead(lines, headers)
    ensures ParseHeaders(lines) == Ok(headers)
    decreases |lines|
  {
    hide ParseHeader;
    if lines != [] {
      var k := |lines| - 1;
      ReadLinesParse(lines[..k], headers[..k]);
      assert headers == headers[..k] + [headers[k]];
    } else {
      assert headers == [];
    }
  }

  lemma TextReads(body: string, line: string, lines: seq<string>)
    requires Lines(body) == [line] + lines
    ensures ParseRequest(body + "\r\n\r\n") ==
              match ParseRequestLine(line)
              case Err(e) => Err(e)
              case Ok((method_, target, version)) =>
                match ParseHeaders(lines)
                case Err(e) => Err(e)
                case Ok(headers) => Ok(RequestParts(method_, target, version, headers))
  {
    hide NoCrlf, ParseRequestLine, ParseHeaders, Lines;
    var text := body + "\r\n\r\n";
    assert text[..|text| - 4] == body && text[|text| - 4..] == TERMINATOR;
    assert ([line] + lines)[1..] == lines;
  }

  /** For every request line and header lines without CRLF: joined by CRLF and closed by an empty
      line they are accepted exactly when the line is a request line and every other a header, and
      read as those, in order. */
  lemma {:induction false} RequestReads(line: string, lines: seq<string>, parts: RequestParts)
    requires NoCrlf(line) && forall i :: 0 <= i < |lines| ==> NoCrlf(lines[i])
    ensures ParseRequest(JoinLines([line] + lines) + "\r\n\r\n") == Ok(parts) <==>
              && ParseRequestLine(line) == Ok((parts.method_, parts.target, parts.version))
              && LinesRead(lines, parts.headers)
  {
    hide NoCrlf, ParseRequestLine, ParseHeaders, LinesRead, Lines, JoinLines;
    var body := JoinLines([line] + lines);
    LinesJoin([line] + lines);
    TextReads(body, line, lines);
    HeadersRead(lines, parts.headers);
  }

  /** Only such texts are accepted. */
  lemma {:induction false} RequestIsRead(text: string) returns (line: string, lines: seq<string>)
    requires ParseRequest(text).Ok?
    ensures text == JoinLines([line] + lines) + "\r\n\r\n"
    ensures NoCrlf(line) && forall i :: 0 <= i < |lines| ==> NoCrlf(lines[i])
  {
    hide NoCrlf, ParseRequestLine, ParseHeaders, Lines, JoinLines;
    var body := text[..|text| - 4];
    line, lines := Lines(body)[0], Lines(body)[1..];
    assert [line] + lines == Lines(body);
    LinesHaveNoCrlf(body);
    JoinOfLines(body);
    assert text == body + text[|text| - 4..];
  }
}
