/** The targets and names the HTTP ingress accepts, as texts: what each reads as, and that nothing
    else is accepted. */
module HttpTarget {
  import opened Wrappers
  import opened HttpText
  import opened HttpRequest

  // ----- letter case

  /** The same character, or one ASCII letter in its two cases. */
  predicate SameLetter(a: char, b: char) {
    || a == b
    || ('A' <= a <= 'Z' && b as int == a as int + 32)
    || ('A' <= b <= 'Z' && a as int == b as int + 32)
  }

  predicate SameLetters(a: string, b: string) {
    |a| == |b| && forall i :: 0 <= i < |a| ==> SameLetter(a[i], b[i])
  }

  /** Comparing lowered texts is comparing up to the case of ASCII letters. */
  lemma {:induction false} CaseIsIgnored(a: string, b: string)
    ensures EqIgnoreCase(a, b) <==> SameLetters(a, b)
  {
    if EqIgnoreCase(a, b) {
      forall i | 0 <= i < |a|
        ensures SameLetter(a[i], b[i])
      {
        LetterCase(a[i], b[i]);
      }
    }
    if SameLetters(a, b) {
      forall i | 0 <= i < |a|
        ensures LowerChar(a[i]) == LowerChar(b[i])
      {
        LetterCase(a[i], b[i]);
      }
    }
  }

  lemma LetterCase(a: char, b: char)
    ensures LowerChar(a) == LowerChar(b) <==> SameLetter(a, b)
  {
  }

  /** Headers a proxy keeps to itself. */
  predicate ForProxy(name: string) {
    SameLetters(name, "Proxy-Authorization") || SameLetters(name, "Proxy-Connection")
  }

  predicate NamesHost(name: string) {
    SameLetters(name, "Host")
  }

  lemma HeaderNames(h: Header)
    ensures ProxyOnly(h) <==> ForProxy(h.name)
    ensures IsHost(h) <==> NamesHost(h.name)
  {
    hide EqIgnoreCase, SameLetters;
    CaseIsIgnored(h.name, "Proxy-Authorization");
    CaseIsIgnored(h.name, "Proxy-Connection");
    CaseIsIgnored(h.name, "Host");
  }

  // ----- the authority

  predicate HasAsciiSpace(s: string) {
    exists i :: 0 <= i < |s| && IsAsciiSpace(s[i])
  }

  predicate PlainName(host: string) {
    host != "" && host[0] != '[' && !HasAsciiSpace(host)
  }

  predicate IsNumber(s: string) {
    s != "" && AllDigits(s)
  }

  /** A colon at `i`, and nothing but digits after it, at least one, up to the end. */
  predicate PortAt(s: string, i: nat) {
    i < |s| && s[i] == ':' && IsNumber(s[i + 1..])
  }

  ghost predicate EndsWithPort(s: string) {
    exists i: nat :: PortAt(s, i)
  }

  predicate BracketedPort(a: string, host: string, digits: string, port: nat) {
    a == "[" + (host + ("]" + (":" + digits))) && ParseU16(digits) == Some(port)
  }

  predicate PlainPort(a: string, host: string, digits: string, port: nat) {
    a == host + ":" + digits && IsNumber(digits) && ParseU16(digits) == Some(port)
  }

  /** The four ways to write a host and a port: in brackets or not, with a port or without. */
  ghost predicate AuthorityMeans(a: string, defaultPort: nat, host: string, port: nat) {
    && '@' !in a
    && (|| (']' !in host && a == "[" + (host + ("]" + "")) && port == defaultPort)
        || (']' !in host && exists digits :: BracketedPort(a, host, digits, port))
        || (PlainName(host) && port != 0 && exists digits :: PlainPort(a, host, digits, port))
        || (PlainName(host) && port != 0 && a == host && port == defaultPort && !EndsWithPort(a)))
  }

  /** An authority is accepted as a host and a port exactly when it is written in one of these ways. */
  lemma {:induction false} AuthorityReads(a: string, defaultPort: nat, host: string, port: nat)
    ensures ParseAuthority(a, defaultPort) == Ok((host, port)) <==> AuthorityMeans(a, defaultPort, host, port)
  {
    hide ParseAuthority, AuthorityMeans;
    if AuthorityMeans(a, defaultPort, host, port) {
      MeantIsRead(a, defaultPort, host, port);
    }
    if ParseAuthority(a, defaultPort) == Ok((host, port)) {
      if a != "" && a[0] == '[' {
        BracketsMean(a, defaultPort, host, port);
      } else {
        PlainMeans(a, defaultPort, host, port);
      }
    }
  }

  lemma MeantIsRead(a: string, defaultPort: nat, host: string, port: nat)
    requires AuthorityMeans(a, defaultPort, host, port)
    ensures ParseAuthority(a, defaultPort) == Ok((host, port))
  {
    hide ParseU16, PortAt, HasAsciiSpace, IsNumber, ParseAuthority, AllDigits;
    if ']' !in host && a == "[" + (host + ("]" + "")) && port == defaultPort {
      Brackets(host, "", defaultPort);
    } else if ']' !in host && exists digits :: BracketedPort(a, host, digits, port) {
      var digits :| BracketedPort(a, host, digits, port);
      Brackets(host, ":" + digits, defaultPort);
      assert (":" + digits)[1..] == digits;
    } else if PlainName(host) && port != 0 && exists digits :: PlainPort(a, host, digits, port) {
      var digits :| PlainPort(a, host, digits, port);
      NumberIsDigits(digits);
      assert '@' !in host by {
        forall i | 0 <= i < |host|
          ensures host[i] != '@'
        {
          assert host[i] == a[i];
        }
      }
      PlainAuthority(host, digits, port, defaultPort);
      PlainHostReads(host, port);
    } else {
      NoPort(host, defaultPort);
      PlainHostReads(host, port);
    }
  }

  lemma NumberIsDigits(s: string)
    requires IsNumber(s)
    ensures s != "" && AllDigits(s)
  {
  }

  lemma PlainHostReads(host: string, port: nat)
    ensures PlainHost(host, port) == if host == "" || HasAsciiSpace(host) || port == 0 then Err(InvalidAuthority) else Ok((host, port))
  {
  }

  /** A bracketed authority. */
  lemma Brackets(host: string, after: string, defaultPort: nat)
    requires ']' !in host && '@' !in "[" + (host + ("]" + after))
    ensures ParseAuthority("[" + (host + ("]" + after)), defaultPort) ==
              if after == "" then Ok((host, defaultPort))
              else if after[0] != ':' then Err(InvalidV6Port)
              else if ParseU16(after[1..]).None? then Err(InvalidPort)
              else Ok((host, ParseU16(after[1..]).value))
  {
    hide ParseU16, Find, FindLast, PlainHost;
    var a := "[" + (host + ("]" + after));
    assert a[1..] == host + ([']'] + after);
    FindAfter(host, ']', after);
    assert [']'] == "]";
    assert a[1..][..|host|] == host && a[1..][|host| + 1..] == after;
  }

  /** An unbracketed authority that ends in a colon and a port. */
  lemma PlainAuthority(host: string, digits: string, port: nat, defaultPort: nat)
    requires '@' !in host && (host != "" ==> host[0] != '[')
    requires digits != "" && AllDigits(digits) && ParseU16(digits) == Some(port)
    ensures ParseAuthority(host + ":" + digits, defaultPort) == PlainHost(host, port)
  {
    hide ParseU16, FindLast, PlainHost, Find;
    var s := host + ":" + digits;
    assert s[|host| + 1..] == digits && s[..|host|] == host;
    FindLastIs(s, ':', |host|);
  }

  lemma NoColonInNumber(s: string)
    requires IsNumber(s)
    ensures ':' !in s
  {
  }

  /** Only the last colon can open a port. */
  lemma PortIsLast(s: string)
    ensures EndsWithPort(s) <==> FindLast(s, ':').Some? && PortAt(s, FindLast(s, ':').value)
  {
    hide FindLast;
    if EndsWithPort(s) {
      var i: nat :| PortAt(s, i);
      NoColonInNumber(s[i + 1..]);
      FindLastIs(s, ':', i);
    }
  }

  lemma NoPort(host: string, defaultPort: nat)
    requires '@' !in host && host != "" && host[0] != '[' && !EndsWithPort(host)
    ensures ParseAuthority(host, defaultPort) == PlainHost(host, defaultPort)
  {
    hide ParseU16, FindLast, PlainHost, Find, EndsWithPort;
    PortIsLast(host);
  }

  lemma BracketsMean(a: string, defaultPort: nat, host: string, port: nat)
    requires a != "" && a[0] == '[' && ParseAuthority(a, defaultPort) == Ok((host, port))
    ensures AuthorityMeans(a, defaultPort, host, port)
  {
    hide ParseU16, PlainPort, EndsWithPort, PlainName, ParseAuthority;
    BracketCloses(a, defaultPort);
    var name, after := SplitAtBracket(a[1..]);
    assert a == "[" + a[1..];
    Brackets(name, after, defaultPort);
    if after != "" {
      assert after == ":" + after[1..];
      assert BracketedPort(a, host, after[1..], port);
    }
  }

  lemma BracketCloses(a: string, defaultPort: nat)
    requires a != "" && a[0] == '[' && ParseAuthority(a, defaultPort).Ok?
    ensures '@' !in a && ']' in a[1..]
  {
    hide ParseU16, FindLast, PlainHost, Find, AllDigits;
    FindChar(a[1..], ']');
    assert [']'] == "]";
  }

  lemma SplitAtBracket(s: string) returns (name: string, after: string)
    requires ']' in s
    ensures s == name + ("]" + after) && ']' !in name
  {
    hide Find;
    FindChar(s, ']');
    var i := Find(s, [']']).value;
    name, after := s[..i], s[i + 1..];
    assert s == s[..i] + (s[i..i + 1] + s[i + 1..]);
  }

  lemma PlainMeans(a: string, defaultPort: nat, host: string, port: nat)
    requires (a == "" || a[0] != '[') && ParseAuthority(a, defaultPort) == Ok((host, port))
    ensures AuthorityMeans(a, defaultPort, host, port)
  {
    hide ParseU16, FindLast, PlainHost, Find, EndsWithPort, BracketedPort, HasAsciiSpace, AllDigits;
    PortIsLast(a);
    var colon := FindLast(a, ':');
    if colon.Some? && IsNumber(a[colon.value + 1..]) {
      var digits := a[colon.value + 1..];
      assert a == a[..colon.value] + ":" + digits;
      PlainHostReads(a[..colon.value], ParseU16(digits).value);
      assert PlainPort(a, host, digits, port);
    } else {
      PlainHostReads(a, defaultPort);
    }
  }

  // ----- the scheme, the authority and the path

  /** The text `pat` stands at `i` in `s` for the first time. */
  predicate FirstAt(s: string, pat: string, i: nat) {
    PieceAt(pat, s, i) && forall j: nat | j < i :: !PieceAt(pat, s, j)
  }

  /** Searching finds the first occurrence, and finds one if there is one. */
  lemma {:induction false} FindIsFirst(s: string, pat: string, i: nat)
    requires pat != ""
    ensures Find(s, pat) == Some(i) <==> FirstAt(s, pat, i)
    ensures Find(s, pat) == None ==> !PieceAt(pat, s, i)
    decreases |s|
  {
    if |s| < |pat| {
    } else if s[..|pat|] == pat {
      assert PieceAt(pat, s, 0);
    } else {
      assert !PieceAt(pat, s, 0);
      forall j: nat | 1 <= j
        ensures PieceAt(pat, s, j) <==> PieceAt(pat, s[1..], j - 1)
      {
        PieceShifts(pat, s, j);
      }
      if i > 0 {
        FindIsFirst(s[1..], pat, i - 1);
        if FirstAt(s[1..], pat, i - 1) {
          forall j: nat | j < i
            ensures !PieceAt(pat, s, j)
          {
            assert j > 0 ==> !PieceAt(pat, s[1..], j - 1);
          }
        }
        if FirstAt(s, pat, i) {
          forall j: nat | j < i - 1
            ensures !PieceAt(pat, s[1..], j)
          {
            assert !PieceAt(pat, s, j + 1);
          }
        }
      }
    }
  }

  lemma PieceShifts(pat: string, s: string, j: nat)
    requires s != "" && 1 <= j
    ensures PieceAt(pat, s, j) <==> PieceAt(pat, s[1..], j - 1)
  {
    if j + |pat| <= |s| {
      assert s[j..j + |pat|] == s[1..][j - 1..j - 1 + |pat|];
    }
  }

  /** A target in absolute form: a scheme, `://`, an authority without a slash, and the path as
      written, which may be missing. */
  predicate TargetText(t: string, scheme: string, authority: string, written: string) {
    && t == scheme + ("://" + (authority + written))
    && SameLetters(scheme, "http") && '/' !in authority && (written != "" ==> written[0] == '/')
  }

  lemma HttpHasNoColon(scheme: string)
    requires SameLetters(scheme, "http")
    ensures ':' !in scheme
  {
    var http := "http";
    forall i | 0 <= i < |scheme|
      ensures scheme[i] != ':'
    {
      assert SameLetter(scheme[i], http[i]);
    }
  }

  lemma SchemeIsFound(scheme: string, rest: string)
    requires ':' !in scheme
    ensures Find(scheme + ("://" + rest), "://") == Some(|scheme|)
  {
    var t := scheme + ("://" + rest);
    forall j: nat | j < |scheme|
      ensures !PieceAt("://", t, j)
    {
      assert t[j] == scheme[j];
      assert j + 3 <= |t| ==> t[j..j + 3][0] == t[j];
    }
    assert t[|scheme|..|scheme| + 3] == "://";
    FindIsFirst(t, "://", |scheme|);
  }

  lemma PathIsFound(authority: string, written: string)
    requires '/' !in authority && (written != "" ==> written[0] == '/')
    ensures Find(authority + written, "/") == if written == "" then None else Some(|authority|)
  {
    assert ['/'] == "/";
    if written == "" {
      assert authority + written == authority;
      FindChar(authority, '/');
    } else {
      FindAfter(authority, '/', written[1..]);
      assert written == ['/'] + written[1..];
    }
  }

  /** What a target in absolute form reads as: its path is the one written, or `/` if none is. */
  lemma {:induction false} TargetReads(t: string, scheme: string, authority: string, written: string)
    requires TargetText(t, scheme, authority, written)
    ensures ParseAbsoluteUri(t) ==
              match ParseAuthority(authority, 80)
              case Err(e) => Err(e)
              case Ok((host, port)) => Ok(AbsoluteUri("http", host, Some(port), if written == "" then "/" else written))
  {
    hide ParseAuthority, Find, EqIgnoreCase, SameLetters;
    HttpHasNoColon(scheme);
    SchemeIsFound(scheme, authority + written);
    CaseIsIgnored(scheme, "http");
    PathIsFound(authority, written);
    var rest := authority + written;
    assert t[..|scheme|] == scheme && t[|scheme| + 3..] == rest;
    assert rest[..|authority|] == authority && rest[|authority|..] == written;
    assert written == "" ==> rest == authority;
  }

  /** Only such targets are accepted, and the parts are those written. */
  lemma {:induction false} TargetIsRead(t: string) returns (scheme: string, authority: string, written: string)
    requires ParseAbsoluteUri(t).Ok?
    ensures TargetText(t, scheme, authority, written)
    ensures var uri := ParseAbsoluteUri(t).value;
            && uri.port.Some? && AuthorityMeans(authority, 80, uri.host, uri.port.value)
            && uri.path == if written == "" then "/" else written
  {
    hide ParseAuthority, AuthorityMeans;
    scheme, authority, written := TargetSplits(t);
    TargetReads(t, scheme, authority, written);
    var uri := ParseAbsoluteUri(t).value;
    AuthorityReads(authority, 80, uri.host, uri.port.value);
  }

  lemma TargetSplits(t: string) returns (scheme: string, authority: string, written: string)
    requires ParseAbsoluteUri(t).Ok?
    ensures TargetText(t, scheme, authority, written)
  {
    hide ParseAuthority, Find, EqIgnoreCase, SameLetters;
    var i := Find(t, "://").value;
    scheme := t[..i];
    CaseIsIgnored(scheme, "http");
    authority, written := PathSplits(t[i + 3..]);
    assert t == scheme + (t[i..i + 3] + t[i + 3..]);
  }

  lemma PathSplits(rest: string) returns (authority: string, written: string)
    ensures rest == authority + written && '/' !in authority && (written != "" ==> written[0] == '/')
  {
    hide Find;
    var slash := Find(rest, "/");
    FindChar(rest, '/');
    assert ['/'] == "/";
    if slash.Some? {
      authority, written := rest[..slash.value], rest[slash.value..];
      assert rest[slash.value..slash.value + 1] == "/";
      assert written[0] == rest[slash.value..slash.value + 1][0];
    } else {
      authority, written := rest, "";
    }
  }

  /** The two ways to be refused before the authority is looked at. */
  lemma {:induction false} OtherTargets(t: string)
    ensures ParseAbsoluteUri(t) == Err(NotAbsolute) <==> forall i: nat :: !PieceAt("://", t, i)
    ensures ParseAbsoluteUri(t) == Err(UnsupportedScheme) <==>
              exists i: nat :: FirstAt(t, "://", i) && !SameLetters(t[..i], "http")
  {
    hide Find, EqIgnoreCase, SameLetters, PieceAt, FirstAt;
    var r := Find(t, "://");
    forall i: nat
      ensures r == Some(i) <==> FirstAt(t, "://", i)
      ensures r == None ==> !PieceAt("://", t, i)
    {
      FindIsFirst(t, "://", i);
    }
    if r.Some? {
      CaseIsIgnored(t[..r.value], "http");
      FirstIsPiece(t, "://", r.value);
      NeitherError(t[r.value + 3..]);
    }
  }

  lemma FirstIsPiece(s: string, pat: string, i: nat)
    requires FirstAt(s, pat, i)
    ensures PieceAt(pat, s, i)
  {
  }

  lemma NeitherError(authority: string)
    ensures ParseAuthority(authority, 80) != Err(NotAbsolute) && ParseAuthority(authority, 80) != Err(UnsupportedScheme)
  {
  }

  // ----- numbers

  /** Leading zeros are all that a written number may have beyond the shortest form of its value. */
  lemma {:induction false} NumberReads(s: string) returns (zeros: string)
    requires IsNumber(s)
    ensures s == zeros + Decimal(DigitsValue(s)) && forall i :: 0 <= i < |zeros| ==> zeros[i] == '0'
    decreases |s|
  {
    var front, d := s[..|s| - 1], s[|s| - 1];
    assert s == front + [d];
    if front == "" {
      zeros := "";
      assert DigitsValue(front) == 0;
      assert Decimal(DigitsValue(s)) == [d];
    } else {
      assert AllDigits(front);
      zeros := NumberReads(front);
      if DigitsValue(front) == 0 {
        assert Decimal(0) == "0";
        zeros := zeros + "0";
        assert Decimal(DigitsValue(s)) == [d];
      } else {
        assert Decimal(DigitsValue(s)) == Decimal(DigitsValue(front)) + [d];
      }
    }
  }

  /** A port is written in decimal digits, possibly after a plus sign, and is at most 65535. */
  lemma {:induction false} PortReads(s: string, port: nat)
    ensures ParseU16(s) == Some(port) <==>
              && port <= 65535
              && exists digits :: (s == digits || s == "+" + digits) && IsNumber(digits) && DigitsValue(digits) == port
  {
    hide DigitsValue;
    if s != "" && s[0] == '+' {
      assert !IsDigit(s[0]) && s == "+" + s[1..];
      if |s| > 1 && IsNumber(s[1..]) {
        assert (s == s[1..] || s == "+" + s[1..]) && IsNumber(s[1..]);
      }
      forall digits | (s == digits || s == "+" + digits) && IsNumber(digits)
        ensures digits == s[1..]
      {
      }
    } else if IsNumber(s) {
      assert (s == s || s == "+" + s) && IsNumber(s);
    }
  }
}
