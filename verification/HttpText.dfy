/** The string operations the HTTP ingress uses, on strings of Unicode characters. */
module HttpText {
  import opened Bytes
  import opened Wrappers

  /** Unicode White_Space: what `trim` and `split_whitespace` go by. */
  predicate IsSpace(c: char) {
    var n := c as int;
    || 0x09 <= n <= 0x0D || n == 0x20 || n == 0x85 || n == 0xA0 || n == 0x1680
    || 0x2000 <= n <= 0x200A || n == 0x2028 || n == 0x2029 || n == 0x202F || n == 0x205F || n == 0x3000
  }

  /** `is_ascii_whitespace`, which leaves out the vertical tab. */
  predicate IsAsciiSpace(c: char) {
    c == ' ' || c == '\t' || c == '\n' || c as int == 0x0C || c == '\r'
  }

  predicate NoSpace(s: string) {
    forall i :: 0 <= i < |s| ==> !IsSpace(s[i])
  }

  predicate Trimmed(s: string) {
    s != "" ==> !IsSpace(s[0]) && !IsSpace(s[|s| - 1])
  }

  // ----- trimming and words

  function TrimStart(s: string): (r: string)
    ensures |r| <= |s| && r == s[|s| - |r|..]
    ensures r != "" ==> !IsSpace(r[0])
  {
    if s != "" && IsSpace(s[0]) then TrimStart(s[1..]) else s
  }

  function TrimEnd(s: string): (r: string)
    ensures r <= s
    ensures r != "" ==> !IsSpace(r[|r| - 1])
  {
    if s != "" && IsSpace(s[|s| - 1]) then TrimEnd(s[..|s| - 1]) else s
  }

  function Trim(s: string): (r: string)
    ensures Trimmed(r)
  {
    TrimEnd(TrimStart(s))
  }

  predicate PieceAt(r: string, s: string, i: nat) {
    i + |r| <= |s| && s[i..i + |r|] == r
  }

  /** `r` is a contiguous piece of `s`. */
  ghost predicate Piece(r: string, s: string) {
    exists i: nat :: PieceAt(r, s, i)
  }

  lemma TrimIsPiece(s: string)
    ensures Piece(Trim(s), s)
  {
    var t := TrimStart(s);
    var r := TrimEnd(t);
    var i := |s| - |t|;
    assert PieceAt(r, s, i);
  }

  lemma TrimTrimmed(s: string)
    requires Trimmed(s)
    ensures Trim(s) == s && Trim(" " + s) == s
  {
    hide IsSpace;
    TrimStartOf(s);
    LeadingSpace(s);
  }

  lemma TrimStartOf(s: string)
    requires Trimmed(s)
    ensures TrimStart(s) == s && TrimEnd(s) == s
  {
    hide IsSpace;
  }

  lemma LeadingSpace(s: string)
    ensures TrimStart(" " + s) == TrimStart(s)
  {
    assert (" " + s)[1..] == s;
  }

  /** The length of the run of non-space characters at the front. */
  function WordLength(s: string): (n: nat)
    ensures n <= |s| && NoSpace(s[..n]) && (n < |s| ==> IsSpace(s[n]))
    ensures s != "" && !IsSpace(s[0]) ==> n > 0
  {
    if s == "" || IsSpace(s[0]) then 0 else 1 + WordLength(s[1..])
  }

  /** `split_whitespace`. */
  function Words(s: string): seq<string>
    decreases |s|
  {
    var t := TrimStart(s);
    if t == "" then [] else [t[..WordLength(t)]] + Words(t[WordLength(t)..])
  }

  lemma FirstWord(t: string)
    requires t != "" && !IsSpace(t[0])
    ensures t[..WordLength(t)] != "" && NoSpace(t[..WordLength(t)])
  {
    assert WordLength(t) > 0;
  }

  lemma {:induction false} WordIsWord(s: string, i: nat)
    requires i < |Words(s)|
    ensures Words(s)[i] != "" && NoSpace(Words(s)[i])
    decreases i
  {
    hide IsSpace, NoSpace, Words;
    WordsStart(s);
    var t := TrimStart(s);
    if i > 0 {
      WordIsWord(t[WordLength(t)..], i - 1);
    }
  }

  /** The words of a text are its first word, which holds no space, and the words after it. */
  lemma WordsStart(s: string)
    requires Words(s) != []
    ensures var t := TrimStart(s);
            var w := t[..WordLength(t)];
            Words(s) == [w] + Words(t[WordLength(t)..]) && w != "" && NoSpace(w)
  {
    hide IsSpace, NoSpace;
    FirstWord(TrimStart(s));
  }

  /** A text that starts with a word has that word first. */
  lemma WordsOpen(s: string)
    requires s != "" && !IsSpace(s[0])
    ensures Words(s) == [s[..WordLength(s)]] + Words(s[WordLength(s)..])
  {
    hide IsSpace, WordLength;
  }

  lemma WordThenSpace(w: string, rest: string)
    requires w != "" && NoSpace(w)
    ensures Words(w + (" " + rest)) == [w] + Words(" " + rest)
  {
    hide Words, WordLength, TrimStart;
    var s := w + (" " + rest);
    assert s[..|w|] == w && s[|w|..] == " " + rest;
    WordLengthIs(s, |w|);
    WordsOpen(s);
  }

  lemma LeadingSpaceIgnored(rest: string)
    ensures Words(" " + rest) == Words(rest)
  {
    hide IsSpace, TrimStart, WordLength;
    LeadingSpace(rest);
  }

  lemma WordAlone(w: string)
    requires w != "" && NoSpace(w)
    ensures Words(w) == [w]
  {
    hide Words, WordLength, TrimStart;
    assert w[..|w|] == w && w[|w|..] == "";
    WordLengthIs(w, |w|);
    WordsOpen(w);
    NoWords();
  }

  lemma NoWords()
    ensures Words("") == []
  {
  }

  lemma {:induction false} WordLengthIs(s: string, n: nat)
    requires n <= |s| && NoSpace(s[..n]) && (n < |s| ==> IsSpace(s[n]))
    ensures WordLength(s) == n
  {
    if n > 0 {
      assert s[..n][0] == s[0];
      assert s[1..][..n - 1] == s[..n][1..];
      WordLengthIs(s[1..], n - 1);
    }
  }

  // ----- searching

  /** The first place where `pat` occurs. */
  function Find(s: string, pat: string): (r: Option<nat>)
    requires pat != ""
    ensures r.Some? ==> r.value + |pat| <= |s| && s[r.value..r.value + |pat|] == pat
  {
    if |s| < |pat| then None
    else if s[..|pat|] == pat then Some(0)
    else match Find(s[1..], pat) case Some(i) => Some(i + 1) case None => None
  }

  /** The first place where the character occurs. */
  lemma {:induction false} FindChar(s: string, c: char)
    ensures Find(s, [c]).None? <==> c !in s
    ensures Find(s, [c]).Some? ==> c !in s[..Find(s, [c]).value]
  {
    if s == "" {
    } else if s[..1] == [c] {
      assert s[0] == s[..1][0];
    } else {
      FindChar(s[1..], c);
      assert s == [s[0]] + s[1..];
      if Find(s, [c]).Some? {
        var i := Find(s, [c]).value;
        assert s[..i] == [s[0]] + s[1..][..i - 1];
      }
    }
  }

  lemma {:induction false} FindAfter(a: string, c: char, b: string)
    requires c !in a
    ensures Find(a + ([c] + b), [c]) == Some(|a|)
  {
    var s := a + ([c] + b);
    if a == "" {
      assert s[..1] == [c];
    } else {
      FindAfter(a[1..], c, b);
      assert s[1..] == a[1..] + ([c] + b);
      assert s[0] == a[0] && a[0] in a;
    }
  }

  /** The last place where the character occurs. */
  function FindLast(s: string, c: char): (r: Option<nat>)
    ensures r.None? <==> c !in s
    ensures r.Some? ==> r.value < |s| && s[r.value] == c && c !in s[r.value + 1..]
  {
    if s == "" then None
    else if s[|s| - 1] == c then Some(|s| - 1)
    else
      assert s == s[..|s| - 1] + [s[|s| - 1]];
      var r := FindLast(s[..|s| - 1], c);
      assert r.Some? ==> s[r.value + 1..] == s[..|s| - 1][r.value + 1..] + [s[|s| - 1]];
      r
  }

  lemma FindLastIs(s: string, c: char, i: nat)
    requires i < |s| && s[i] == c && c !in s[i + 1..]
    ensures FindLast(s, c) == Some(i)
  {
  }

  // ----- lines

  predicate NoCrlf(s: string) {
    forall i :: 0 <= i < |s| - 1 ==> !(s[i] == '\r' && s[i + 1] == '\n')
  }

  /** Splitting at every CRLF. */
  function Lines(s: string): (parts: seq<string>)
    ensures parts != []
    decreases |s|
  {
    if s == "" then [""]
    else if |s| >= 2 && s[0] == '\r' && s[1] == '\n' then [""] + Lines(s[2..])
    else
      var rest := Lines(s[1..]);
      [[s[0]] + rest[0]] + rest[1..]
  }

  function JoinLines(parts: seq<string>): string
    requires parts != []
  {
    if |parts| == 1 then parts[0] else parts[0] + ("\r\n" + JoinLines(parts[1..]))
  }

  /** The first line is a prefix of the text and what follows it starts with CRLF. */
  lemma {:induction false} LinesHaveNoCrlf(s: string)
    ensures forall i :: 0 <= i < |Lines(s)| ==> NoCrlf(Lines(s)[i])
    ensures Lines(s)[0] <= s
    decreases |s|
  {
    if s == "" {
    } else if |s| >= 2 && s[0] == '\r' && s[1] == '\n' {
      LinesHaveNoCrlf(s[2..]);
    } else {
      LinesHaveNoCrlf(s[1..]);
      var first := Lines(s[1..])[0];
      assert first <= s[1..];
      assert forall i :: 1 <= i < |Lines(s)| ==> Lines(s)[i] == Lines(s[1..])[i];
      assert NoCrlf([s[0]] + first);
    }
  }

  lemma {:induction false} LinesJoin(parts: seq<string>)
    requires parts != [] && forall i :: 0 <= i < |parts| ==> NoCrlf(parts[i])
    ensures Lines(JoinLines(parts)) == parts
    decreases |parts|
  {
    if |parts| == 1 {
      LineAlone(parts[0]);
    } else {
      LinesJoin(parts[1..]);
      LineThenCrlf(parts[0], JoinLines(parts[1..]));
      assert parts == [parts[0]] + parts[1..];
    }
  }

  lemma {:induction false} LineAlone(s: string)
    requires NoCrlf(s)
    ensures Lines(s) == [s]
  {
    if s != "" {
      LineAlone(s[1..]);
      assert [s[0]] + s[1..] == s;
    }
  }

  lemma {:induction false} LineThenCrlf(a: string, b: string)
    requires NoCrlf(a)
    ensures Lines(a + ("\r\n" + b)) == [a] + Lines(b)
  {
    if a == "" {
      assert (a + ("\r\n" + b))[2..] == b;
    } else {
      LineThenCrlf(a[1..], b);
      LongerFirstLine(a, b);
    }
  }

  lemma LongerFirstLine(a: string, b: string)
    requires a != "" && NoCrlf(a) && Lines(a[1..] + ("\r\n" + b)) == [a[1..]] + Lines(b)
    ensures Lines(a + ("\r\n" + b)) == [a] + Lines(b)
  {
    hide NoCrlf;
    var s := a + ("\r\n" + b);
    FirstIsNoCrlf(a, b);
    assert s[1..] == a[1..] + ("\r\n" + b);
    assert ([a[1..]] + Lines(b))[1..] == Lines(b);
    assert [a[0]] + a[1..] == a;
  }

  lemma FirstIsNoCrlf(a: string, b: string)
    requires a != "" && NoCrlf(a)
    ensures var s := a + ("\r\n" + b);
            s[0] == a[0] && !(s[0] == '\r' && s[1] == '\n')
  {
    var s := a + ("\r\n" + b);
    assert |a| > 1 ==> s[1] == a[1];
    assert |a| == 1 ==> s[1] == '\r';
  }

  lemma {:induction false} JoinLinesSnoc(parts: seq<string>, last: string)
    requires parts != []
    ensures JoinLines(parts + [last]) == JoinLines(parts) + ("\r\n" + last)
    decreases |parts|
  {
    if |parts| == 1 {
      assert (parts + [last])[1..] == [last];
    } else {
      JoinLinesSnoc(parts[1..], last);
      assert (parts + [last])[1..] == parts[1..] + [last];
      assert JoinLines(parts + [last]) == parts[0] + ("\r\n" + (JoinLines(parts[1..]) + ("\r\n" + last)));
    }
  }

  /** Joining undoes splitting. */
  lemma {:induction false} JoinOfLines(s: string)
    ensures JoinLines(Lines(s)) == s
    decreases |s|
  {
    if s == "" {
    } else if |s| >= 2 && s[0] == '\r' && s[1] == '\n' {
      hide JoinLines;
      JoinOfLines(s[2..]);
      JoinBlank(Lines(s[2..]));
      assert s == "\r\n" + s[2..];
    } else {
      hide JoinLines;
      JoinOfLines(s[1..]);
      JoinLonger(s[0], Lines(s[1..]));
      assert s == [s[0]] + s[1..];
    }
  }

  lemma JoinBlank(parts: seq<string>)
    requires parts != []
    ensures JoinLines([""] + parts) == "\r\n" + JoinLines(parts)
  {
    assert ([""] + parts)[1..] == parts;
  }

  /** A character put in front of the first line stands in front of the joined text. */
  lemma JoinLonger(c: char, parts: seq<string>)
    requires parts != []
    ensures JoinLines([[c] + parts[0]] + parts[1..]) == [c] + JoinLines(parts)
  {
    var longer := [[c] + parts[0]] + parts[1..];
    assert longer[1..] == parts[1..];
    if |parts| > 1 {
      var more := "\r\n" + JoinLines(parts[1..]);
      assert ([c] + parts[0]) + more == [c] + (parts[0] + more);
    }
  }

  // ----- case and numbers

  function LowerChar(c: char): char {
    if 'A' <= c <= 'Z' then c + 32 as char else c
  }

  predicate EqIgnoreCase(a: string, b: string) {
    |a| == |b| && forall i :: 0 <= i < |a| ==> LowerChar(a[i]) == LowerChar(b[i])
  }

  predicate IsDigit(c: char) { '0' <= c <= '9' }

  predicate AllDigits(s: string) {
    forall i :: 0 <= i < |s| ==> IsDigit(s[i])
  }

  function DigitsValue(s: string): nat
    requires AllDigits(s)
  {
    if s == "" then 0 else 10 * DigitsValue(s[..|s| - 1]) + (s[|s| - 1] as int - '0' as int)
  }

  /** `str::parse::<u16>`: decimal digits, one leading `+` allowed, at most 65535. */
  function ParseU16(s: string): Option<nat> {
    var digits := if |s| > 1 && s[0] == '+' then s[1..] else s;
    if digits != "" && AllDigits(digits) && DigitsValue(digits) <= 65535 then Some(DigitsValue(digits)) else None
  }

  /** Displaying a number. */
  function Decimal(n: nat): (s: string)
    ensures s != "" && AllDigits(s)
  {
    var d := [(n % 10 + '0' as int) as char];
    if n < 10 then d else Decimal(n / 10) + d
  }

  lemma {:induction false} DecimalValue(n: nat)
    ensures DigitsValue(Decimal(n)) == n
  {
    var s := Decimal(n);
    if n < 10 {
      assert s[..0] == "";
      assert s[0] as int - '0' as int == n;
    } else {
      DecimalValue(n / 10);
      assert s[..|s| - 1] == Decimal(n / 10);
      assert s[|s| - 1] as int - '0' as int == n % 10;
    }
  }

  lemma DecimalParses(n: nat)
    requires n <= 65535
    ensures ParseU16(Decimal(n)) == Some(n)
  {
    DecimalValue(n);
    hide Decimal, DigitsValue;
    assert IsDigit(Decimal(n)[0]);
  }

  /** The canonical form is never longer than any digits with the same value. */
  lemma {:induction false} DecimalIsShortest(s: string)
    requires s != "" && AllDigits(s)
    ensures |Decimal(DigitsValue(s))| <= |s|
  {
    var front := s[..|s| - 1];
    if front == "" {
      assert DigitsValue(front) == 0;
    } else {
      DecimalIsShortest(front);
    }
  }
}
