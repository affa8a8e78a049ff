/** The converse of the round trip: what any accepted message must look like. */
module DnsConverse {
  import opened Bytes
  import opened Wrappers
  import opened DnsParser
  import opened DnsMessage

  // ----- reading bytes as fields

  lemma AtJoin(m: Message, o: nat, a: seq<byte>, b: seq<byte>)
    requires At(m, o, a) && At(m, o + |a|, b)
    ensures At(m, o, a + b)
  {
    assert m[o..o + |a + b|] == m[o..o + |a|] + m[o + |a|..o + |a| + |b|];
  }

  lemma AtSlice(m: Message, o: nat, end: nat)
    requires o <= end <= |m|
    ensures At(m, o, m[o..end])
  {
  }

  lemma FieldIsBe16(m: Message, o: nat)
    requires o + 2 <= |m|
    ensures IsU16(U16(m, o)) && At(m, o, Be16(U16(m, o)))
  {
    var n := U16(m, o);
    assert n / 256 == m[o] && n % 256 == m[o + 1];
    assert m[o..o + 2] == [m[o], m[o + 1]];
  }

  lemma FieldIsBe32(m: Message, o: nat)
    requires o + 4 <= |m|
    ensures IsU32(U32(m, o)) && At(m, o, Be32(U32(m, o)))
  {
    hide At, Be16;
    FieldIsBe16(m, o);
    FieldIsBe16(m, o + 2);
    WordHalves(U16(m, o), U16(m, o + 2));
    Be16Length(U16(m, o));
    AtJoin(m, o, Be16(U16(m, o)), Be16(U16(m, o + 2)));
  }

  lemma WordHalves(hi: nat, lo: nat)
    requires IsU16(hi) && IsU16(lo)
    ensures (65536 * hi + lo) / 65536 == hi && (65536 * hi + lo) % 65536 == lo && IsU32(65536 * hi + lo)
  {
  }

  // ----- names

  /** A name the skipper accepts is a run of labels closed by the root label or by a pointer. */
  lemma {:induction false} SkippedIsName(m: Message, pos: nat, end: nat) returns (n: Name)
    requires SkipName(m, pos, end).Ok?
    ensures ValidName(n) && At(m, pos, NameBytes(n)) && SkipName(m, pos, end) == Ok(pos + |NameBytes(n)|)
    decreases |m| - pos
  {
    hide At, NameBytes;
    if m[pos] >= 192 {
      n := Name([], Pointer(m[pos], m[pos + 1]));
      PointerBytes(m, pos);
    } else if m[pos] == 0 {
      n := Name([], Root);
      RootBytes(m, pos);
    } else {
      var next := pos + 1 + m[pos];
      var rest := SkippedIsName(m, next, end);
      var octets := m[pos + 1..next];
      n := Name([octets] + rest.labels, rest.tail);
      LabelFirst(m, pos, rest);
      assert forall i :: 0 <= i < |n.labels| ==> n.labels[i] == octets || n.labels[i] in rest.labels;
    }
  }

  lemma PointerBytes(m: Message, pos: nat)
    requires pos + 2 <= |m|
    ensures var b := NameBytes(Name([], Pointer(m[pos], m[pos + 1]))); |b| == 2 && At(m, pos, b)
  {
    assert m[pos..pos + 2] == [m[pos], m[pos + 1]];
  }

  lemma RootBytes(m: Message, pos: nat)
    requires pos < |m| && m[pos] == 0
    ensures var b := NameBytes(Name([], Root)); |b| == 1 && At(m, pos, b)
  {
    assert m[pos..pos + 1] == [0];
  }

  lemma LabelFirst(m: Message, pos: nat, rest: Name)
    requires pos < |m| && 1 <= m[pos] <= 63 && pos + 1 + m[pos] <= |m|
    requires At(m, pos + 1 + m[pos], NameBytes(rest))
    ensures var octets := m[pos + 1..pos + 1 + m[pos]];
            var b := NameBytes(Name([octets] + rest.labels, rest.tail));
            |b| == 1 + m[pos] + |NameBytes(rest)| && At(m, pos, b)
  {
    hide At;
    var octets := m[pos + 1..pos + 1 + m[pos]];
    FirstLabelBytes(octets, rest);
    AtSlice(m, pos, pos + 1 + m[pos]);
    assert m[pos..pos + 1 + m[pos]] == [m[pos]] + octets;
    AtJoin(m, pos, [m[pos]] + octets, NameBytes(rest));
  }

  lemma FirstLabelBytes(octets: seq<byte>, rest: Name)
    requires |octets| <= 63
    ensures NameBytes(Name([octets] + rest.labels, rest.tail)) == ([|octets|] + octets) + NameBytes(rest)
  {
    assert ([octets] + rest.labels)[1..] == rest.labels;
  }

  // ----- parameters

  /** Parameters of which none has key 5 but, if `found`, the last. */
  ghost predicate UpToEch(params: seq<Param>, found: bool) {
    && (forall i :: 0 <= i < |params| ==> ValidParam(params[i]))
    && (found ==> params != [] && params[|params| - 1].key == 5)
    && (forall i :: 0 <= i < |params| - (if found then 1 else 0) ==> params[i].key != 5)
  }

  lemma {:induction false} UpToEchMeans(params: seq<Param>, found: bool)
    requires UpToEch(params, found)
    ensures EchParam(params) == if found then Some(params[|params| - 1].value) else None
  {
    if params != [] {
      if !found || |params| > 1 {
        UpToEchMeans(params[1..], found);
      }
    }
  }

  lemma ParamFirst(m: Message, o: nat, rest: seq<Param>)
    requires o + 4 <= |m| && o + 4 + U16(m, o + 2) <= |m|
    requires At(m, o + 4 + U16(m, o + 2), ParamBytes(rest))
    ensures var value := m[o + 4..o + 4 + U16(m, o + 2)];
            var p := Param(U16(m, o), value);
            && ValidParam(p) && At(m, o, ParamBytes([p] + rest))
            && |ParamBytes([p] + rest)| == 4 + |value| + |ParamBytes(rest)|
  {
    hide At, U16, Be16;
    var len := U16(m, o + 2);
    var value := m[o + 4..o + 4 + len];
    FieldIsBe16(m, o);
    FieldIsBe16(m, o + 2);
    Be16Length(U16(m, o));
    Be16Length(len);
    AtSlice(m, o + 4, o + 4 + len);
    AtJoin(m, o + 4, value, ParamBytes(rest));
    AtJoin(m, o + 2, Be16(len), value + ParamBytes(rest));
    AtJoin(m, o, Be16(U16(m, o)), Be16(len) + (value + ParamBytes(rest)));
    FirstParamBytes(Param(U16(m, o), value), rest);
  }

  lemma FirstParamBytes(p: Param, rest: seq<Param>)
    ensures ParamBytes([p] + rest) == Be16(p.key) + (Be16(|p.value|) + (p.value + ParamBytes(rest)))
  {
    hide Be16;
    assert ([p] + rest)[1..] == rest;
  }

  /** What the parameter loop accepts is a run of parameters up to the first with key 5, whose
      value it yields, or up to the end if there is none. */
  lemma {:induction false} FoundIsParams(m: Message, o: nat, end: nat) returns (params: seq<Param>)
    requires o <= end <= |m| && FindParam(m, o, end).Ok?
    ensures var v := FindParam(m, o, end).value;
            && At(m, o, ParamBytes(params)) && UpToEch(params, v.Some?)
            && (v.None? ==> o + |ParamBytes(params)| == end)
            && (v.Some? ==> o + |ParamBytes(params)| == v.value.start + v.value.length <= end
                            && params[|params| - 1].value == m[v.value.start..v.value.start + v.value.length])
    decreases end - o
  {
    hide At, ParamBytes, U16;
    if o == end {
      params := [];
      NoParams(m, o);
    } else {
      var next := o + 4 + U16(m, o + 2);
      var p := Param(U16(m, o), m[o + 4..next]);
      if p.key == ECH_KEY {
        NoParams(m, next);
        params := [p] + [];
        ParamFirst(m, o, []);
      } else {
        var rest := FoundIsParams(m, next, end);
        ParamFirst(m, o, rest);
        params := [p] + rest;
      }
    }
  }

  lemma NoParams(m: Message, o: nat)
    requires o <= |m|
    ensures ParamBytes([]) == [] && At(m, o, ParamBytes([]))
  {
  }

  // ----- the data of a type-65 record

  /** `unread` is what of the RDATA the parser never looks at. */
  lemma RdataIsSvcb(m: Message, o: nat, end: nat) returns (r: Rdata, unread: seq<byte>)
    requires o <= end <= |m| && RdataEch(m, o, end).Ok?
    ensures var v := RdataEch(m, o, end).value;
            && r.Svcb? && IsU16(r.priority) && ValidName(r.target) && UpToEch(r.params, v.Some?)
            && m[o..end] == RdataBytes(r) + unread && (v.None? ==> unread == [])
            && (v.Some? ==> v.value.start + v.value.length <= |m|
                            && r.params[|r.params| - 1].value == m[v.value.start..v.value.start + v.value.length])
  {
    hide NameBytes, ParamBytes, SkipName, FindParam, U16, Be16, UpToEch;
    SkipNameMoves(m, o + 2, end);
    var o2 := SkipName(m, o + 2, end).value;
    FieldIsBe16(m, o);
    Be16Length(U16(m, o));
    var n := SkippedIsName(m, o + 2, end);
    var params := FoundIsParams(m, o2, end);
    r := Svcb(U16(m, o), n, params);
    var stop := o2 + |ParamBytes(params)|;
    unread := m[stop..end];
    SlicesJoin(m, o, o2, stop, end, Be16(U16(m, o)), NameBytes(n), ParamBytes(params));
  }

  lemma SlicesJoin(m: Message, o: nat, o2: nat, stop: nat, end: nat, a: seq<byte>, b: seq<byte>, c: seq<byte>)
    requires |a| == 2 && At(m, o, a) && At(m, o + 2, b) && At(m, o2, c)
    requires o2 == o + 2 + |b| && stop == o2 + |c| && stop <= end <= |m|
    ensures m[o..end] == (a + (b + c)) + m[stop..end]
  {
    hide At;
    AtJoin(m, o + 2, b, c);
    AtJoin(m, o, a, b + c);
    AtIs(m, o, a + (b + c));
    assert m[o..end] == m[o..stop] + m[stop..end];
  }

  // ----- answers

  lemma HeadFields(m: Message, h: nat, a: Answer)
    requires h + 10 <= |m| && a.rtype == U16(m, h) && a.class_ == U16(m, h + 2) && a.ttl == U32(m, h + 4)
    requires |RdataBytes(a.rdata)| == U16(m, h + 8)
    ensures At(m, h, AnswerHead(a)) && IsU16(a.rtype) && IsU16(a.class_) && IsU32(a.ttl)
  {
    hide At, U16, U32, Be16, Be32, RdataBytes;
    FieldIsBe16(m, h);
    FieldIsBe16(m, h + 2);
    FieldIsBe32(m, h + 4);
    FieldIsBe16(m, h + 8);
    FieldLengths(a.rtype, a.ttl);
    FieldLengths(a.class_, a.ttl);
    var ty, cl, tt, le := Be16(a.rtype), Be16(a.class_), Be32(a.ttl), Be16(U16(m, h + 8));
    AtJoin(m, h + 4, tt, le);
    AtJoin(m, h + 2, cl, tt + le);
    AtJoin(m, h, ty, cl + (tt + le));
  }

  lemma FieldLengths(n: nat, k: nat)
    ensures |Be16(n)| == 2 && |Be32(k)| == 4
  {
  }

  /** An answer's parts, laid end to end, before more answers. */
  lemma AnswerFirst(m: Message, o: nat, a: Answer, rest: seq<Answer>)
    requires At(m, o, NameBytes(a.name)) && At(m, o + |NameBytes(a.name)|, AnswerHead(a))
    requires At(m, o + |NameBytes(a.name)| + 10, RdataBytes(a.rdata))
    requires At(m, o + |NameBytes(a.name)| + 10 + |RdataBytes(a.rdata)|, AnswerBytes(rest))
    ensures At(m, o, AnswerBytes([a] + rest))
    ensures |AnswerBytes([a] + rest)| == |NameBytes(a.name)| + 10 + |RdataBytes(a.rdata)| + |AnswerBytes(rest)|
  {
    hide At, NameBytes, AnswerHead, RdataBytes, AnswerBytes;
    HeadLength(a);
    FirstAnswerBytes([a] + rest);
    assert ([a] + rest)[1..] == rest;
    var n, h, d, r := NameBytes(a.name), AnswerHead(a), RdataBytes(a.rdata), AnswerBytes(rest);
    AtJoin(m, o + |n| + 10, d, r);
    AtJoin(m, o + |n|, h, d + r);
    AtJoin(m, o, n, h + (d + r));
  }

  /** A type-65 answer as the parser reads it: its RDATA is that of `svcb`, up to its first key-5
      parameter, and then bytes the parser never looks at. */
  ghost predicate CarriesEch(a: Answer, svcb: Rdata, unread: seq<byte>) {
    && ValidName(a.name) && a.rtype == 65 && IsU16(a.class_) && IsU32(a.ttl)
    && svcb.Svcb? && IsU16(svcb.priority) && ValidName(svcb.target) && UpToEch(svcb.params, true)
    && a.rdata == Opaque(RdataBytes(svcb) + unread) && IsU16(|a.rdata.bytes|)
  }

  /** One record of the message, given what its RDATA says, in front of more answers. */
  lemma RecordFirst(m: Message, o: nat, n: Name, d: Rdata, rest: seq<Answer>) returns (a: Answer)
    requires ValidName(n) && At(m, o, NameBytes(n)) && o + |NameBytes(n)| + 10 <= |m|
    requires var h := o + |NameBytes(n)|;
             var end := h + 10 + U16(m, h + 8);
             end <= |m| && RdataBytes(d) == m[h + 10..end] && At(m, end, AnswerBytes(rest))
    ensures var h := o + |NameBytes(n)|;
            && a == Answer(n, U16(m, h), U16(m, h + 2), U32(m, h + 4), d)
            && IsU16(a.rtype) && IsU16(a.class_) && IsU32(a.ttl) && IsU16(|RdataBytes(d)|)
            && At(m, o, AnswerBytes([a] + rest))
  {
    hide At, NameBytes, RdataBytes, AnswerBytes, U16, U32;
    var h := o + |NameBytes(n)|;
    var end := h + 10 + U16(m, h + 8);
    a := Answer(n, U16(m, h), U16(m, h + 2), U32(m, h + 4), d);
    HeadFields(m, h, a);
    FieldIsBe16(m, h + 8);
    AtSlice(m, h + 10, end);
    AnswerFirst(m, o, a, rest);
  }

  ghost predicate ValidAnswers(ans: seq<Answer>) {
    forall i :: 0 <= i < |ans| ==> ValidAnswer(ans[i])
  }

  lemma QuietAnswer(a: Answer, rest: seq<Answer>)
    requires a.rdata.Svcb? ==> UpToEch(a.rdata.params, false)
    ensures EchAnswer([a] + rest) == EchAnswer(rest)
  {
    assert ([a] + rest)[1..] == rest;
    if a.rdata.Svcb? {
      UpToEchMeans(a.rdata.params, false);
    }
  }

  lemma PlainAnswerIsValid(a: Answer)
    requires ValidName(a.name) && IsU16(a.rtype) && IsU16(a.class_) && IsU32(a.ttl) && IsU16(|RdataBytes(a.rdata)|)
    requires if a.rtype == HTTPS
             then a.rdata.Svcb? && IsU16(a.rdata.priority) && ValidName(a.rdata.target) && UpToEch(a.rdata.params, false)
             else a.rdata.Opaque?
    ensures ValidAnswer(a)
  {
    hide RdataBytes, ValidName;
  }

  /** What the loop has read of the answers when it finds a value in the one after `before`. */
  ghost predicate ReadAnswers(m: Message, o: nat, f: Found, before: seq<Answer>, last: Answer, svcb: Rdata, unread: seq<byte>) {
    && ValidAnswers(before) && EchAnswer(before).None?
    && CarriesEch(last, svcb, unread) && At(m, o, AnswerBytes(before + [last]))
    && f.value.start + f.value.length <= |m| && f.ttl == EffectiveTtl(last.ttl)
    && EchParam(svcb.params) == Some(m[f.value.start..f.value.start + f.value.length])
  }

  /** The record the loop stands at carries the value. */
  lemma LastAnswer(m: Message, o: nat, n: Name) returns (last: Answer, svcb: Rdata, unread: seq<byte>)
    requires ValidName(n) && At(m, o, NameBytes(n)) && o + |NameBytes(n)| + 10 <= |m|
    requires var h := o + |NameBytes(n)|;
             var end := h + 10 + U16(m, h + 8);
             end <= |m| && U16(m, h) == HTTPS && RdataEch(m, h + 10, end).Ok? && RdataEch(m, h + 10, end).value.Some?
    ensures var h := o + |NameBytes(n)|;
            var end := h + 10 + U16(m, h + 8);
            var v := RdataEch(m, h + 10, end).value.value;
            ReadAnswers(m, o, Found(v, EffectiveTtl(U32(m, h + 4)), Slice(h + 10, U16(m, h + 8))), [], last, svcb, unread)
  {
    hide At, NameBytes, RdataBytes, AnswerBytes, U16, U32, UpToEch, RdataEch, ValidName, EchParam;
    var h := o + |NameBytes(n)|;
    var end := h + 10 + U16(m, h + 8);
    svcb, unread := RdataIsSvcb(m, h + 10, end);
    UpToEchMeans(svcb.params, true);
    var d := Opaque(m[h + 10..end]);
    OpaqueBytes(d);
    NoAnswers(m, end);
    last := RecordFirst(m, o, n, d, []);
    assert [last] + [] == [last] && [] + [last] == [last];
  }

  lemma OpaqueBytes(d: Rdata)
    requires d.Opaque?
    ensures RdataBytes(d) == d.bytes
  {
  }

  lemma NoAnswers(m: Message, o: nat)
    requires o <= |m|
    ensures At(m, o, AnswerBytes([])) && EchAnswer([]).None?
  {
  }

  /** What the RDATA of a record without a value says. */
  lemma QuietRdata(m: Message, start: nat, end: nat, rtype: nat) returns (d: Rdata)
    requires start <= end <= |m|
    requires rtype == HTTPS ==> RdataEch(m, start, end) == Ok(None)
    ensures RdataBytes(d) == m[start..end]
    ensures if rtype == HTTPS then d.Svcb? && IsU16(d.priority) && ValidName(d.target) && UpToEch(d.params, false)
            else d.Opaque?
  {
    hide RdataBytes, UpToEch, RdataEch, ValidName;
    if rtype == HTTPS {
      var unread;
      d, unread := RdataIsSvcb(m, start, end);
    } else {
      d := Opaque(m[start..end]);
      OpaqueBytes(d);
    }
  }

  lemma {:induction false} AnswersAreEncoded(m: Message, o: nat, count: nat)
    returns (before: seq<Answer>, last: Answer, svcb: Rdata, unread: seq<byte>)
    requires FindEch(m, o, count).Ok?
    ensures |before| < count && ReadAnswers(m, o, FindEch(m, o, count).value, before, last, svcb, unread)
    decreases count
  {
    hide At, NameBytes, RdataBytes, AnswerBytes, U16, U32, UpToEch, RdataEch, ReadAnswers, SkipName, ValidName;
    var n := SkippedIsName(m, o, |m|);
    var h := o + |NameBytes(n)|;
    var end := h + 10 + U16(m, h + 8);
    if U16(m, h) == HTTPS && RdataEch(m, h + 10, end).value.Some? {
      before := [];
      last, svcb, unread := LastAnswer(m, o, n);
    } else {
      var rest;
      rest, last, svcb, unread := AnswersAreEncoded(m, end, count - 1);
      before := OneMoreAnswer(m, o, n, FindEch(m, end, count - 1).value, rest, last, svcb, unread);
    }
  }

  lemma OneMoreAnswer(m: Message, o: nat, n: Name, f: Found, rest: seq<Answer>, last: Answer, svcb: Rdata, unread: seq<byte>)
    returns (before: seq<Answer>)
    requires ValidName(n) && At(m, o, NameBytes(n)) && o + |NameBytes(n)| + 10 <= |m|
    requires var h := o + |NameBytes(n)|;
             var end := h + 10 + U16(m, h + 8);
             && end <= |m| && (U16(m, h) == HTTPS ==> RdataEch(m, h + 10, end) == Ok(None))
             && ReadAnswers(m, end, f, rest, last, svcb, unread)
    ensures |before| == |rest| + 1 && ReadAnswers(m, o, f, before, last, svcb, unread)
  {
    hide At, NameBytes, RdataBytes, AnswerBytes, U16, U32, UpToEch;
    hide RdataEch, CarriesEch, ValidAnswer, EchAnswer, EchParam, ValidName;
    var h := o + |NameBytes(n)|;
    var end := h + 10 + U16(m, h + 8);
    var d := QuietRdata(m, h + 10, end, U16(m, h));
    var a := RecordFirst(m, o, n, d, rest + [last]);
    before := [a] + rest;
    assert before + [last] == [a] + (rest + [last]);
    PlainAnswerIsValid(a);
    QuietAnswer(a, rest);
  }

  // ----- questions

  lemma {:induction false} QuestionsAreEncoded(m: Message, o: nat, count: nat) returns (qs: seq<Question>)
    requires o <= |m| && SkipQuestions(m, o, count).Ok?
    ensures |qs| == count && (forall i :: 0 <= i < |qs| ==> ValidQuestion(qs[i]))
    ensures At(m, o, QuestionBytes(qs)) && SkipQuestions(m, o, count) == Ok(o + |QuestionBytes(qs)|)
    decreases count
  {
    hide At, NameBytes, QuestionBytes, U16, SkipName, ValidName;
    if count == 0 {
      qs := [];
      NoQuestions(m, o);
    } else {
      var n := SkippedIsName(m, o, |m|);
      var h := o + |NameBytes(n)|;
      var rest := QuestionsAreEncoded(m, h + 4, count - 1);
      var q := Question(n, U16(m, h), U16(m, h + 2));
      QuestionFirst(m, o, q, rest);
      qs := [q] + rest;
    }
  }

  lemma NoQuestions(m: Message, o: nat)
    requires o <= |m|
    ensures QuestionBytes([]) == [] && At(m, o, QuestionBytes([]))
  {
  }

  lemma QuestionFirst(m: Message, o: nat, q: Question, rest: seq<Question>)
    requires At(m, o, NameBytes(q.name)) && o + |NameBytes(q.name)| + 4 <= |m|
    requires var h := o + |NameBytes(q.name)|;
             q.qtype == U16(m, h) && q.qclass == U16(m, h + 2) && At(m, h + 4, QuestionBytes(rest))
    ensures IsU16(q.qtype) && IsU16(q.qclass) && At(m, o, QuestionBytes([q] + rest))
    ensures |QuestionBytes([q] + rest)| == |NameBytes(q.name)| + 4 + |QuestionBytes(rest)|
  {
    hide At, NameBytes, U16, Be16, QuestionBytes;
    var h := o + |NameBytes(q.name)|;
    FieldIsBe16(m, h);
    FieldIsBe16(m, h + 2);
    Be16Length(q.qtype);
    Be16Length(q.qclass);
    AtJoin(m, h, Be16(q.qtype), Be16(q.qclass));
    AtJoin(m, h, Be16(q.qtype) + Be16(q.qclass), QuestionBytes(rest));
    AtJoin(m, o, NameBytes(q.name), (Be16(q.qtype) + Be16(q.qclass)) + QuestionBytes(rest));
    FirstQuestionBytes(q, rest);
  }

  lemma FirstQuestionBytes(q: Question, rest: seq<Question>)
    ensures QuestionBytes([q] + rest) == NameBytes(q.name) + ((Be16(q.qtype) + Be16(q.qclass)) + QuestionBytes(rest))
  {
    hide NameBytes, Be16;
    assert ([q] + rest)[1..] == rest;
  }

  // ----- the message

  lemma LocatedParts(m: Message)
    requires Parse(m).Ok?
    ensures |m| >= 12 && U16(m, 2) >= 0x8000 && U16(m, 2) % 16 == 0
    ensures var o := SkipQuestions(m, 12, U16(m, 4));
            && o.Ok? && FindEch(m, o.value, U16(m, 6)).Ok?
            && var f := FindEch(m, o.value, U16(m, 6)).value;
               f.value.start + f.value.length <= |m|
               && Parse(m).value == (m[f.value.start..f.value.start + f.value.length], f.ttl)
  {
    hide SkipQuestions, FindEch;
    LocateIsSound(m);
  }

  /** The message is a response without error; its questions and answers are in wire form up to and
      including the answer `last`, which carries an ech value in `svcb`; no answer before it does.
      What of that answer follows the value (`unread`) and what follows the answer (`rest`) may be
      anything. */
  ghost predicate Encodes(m: Message, qs: seq<Question>, before: seq<Answer>, last: Answer, svcb: Rdata,
                          unread: seq<byte>, rest: seq<byte>) {
    && |m| >= 12 && U16(m, 2) >= 0x8000 && U16(m, 2) % 16 == 0
    && m == m[..12] + (QuestionBytes(qs) + (AnswerBytes(before + [last]) + rest))
    && |qs| == U16(m, 4) && (forall i :: 0 <= i < |qs| ==> ValidQuestion(qs[i]))
    && |before| < U16(m, 6) && ValidAnswers(before) && EchAnswer(before).None?
    && CarriesEch(last, svcb, unread)
  }

  /** Every message the parser accepts has that form, and the result is the last answer's first key-5
      value and its TTL, or 300 seconds if that is zero. */
  lemma AcceptedIsEncoded(m: Message)
    returns (qs: seq<Question>, before: seq<Answer>, last: Answer, svcb: Rdata, unread: seq<byte>, rest: seq<byte>)
    requires Parse(m).Ok?
    ensures Encodes(m, qs, before, last, svcb, unread, rest) && EchParam(svcb.params).Some?
    ensures Parse(m).value == (EchParam(svcb.params).value, if last.ttl == 0 then 300 else last.ttl)
  {
    hide Parse, U16, SkipQuestions, FindEch, At, QuestionBytes, AnswerBytes;
    hide CarriesEch, ValidAnswers, ValidQuestion, EchAnswer, EchParam;
    LocatedParts(m);
    qs := QuestionsAreEncoded(m, 12, U16(m, 4));
    var o := 12 + |QuestionBytes(qs)|;
    before, last, svcb, unread := AnswersAreEncoded(m, o, U16(m, 6));
    AtIs(m, 12, QuestionBytes(qs));
    AtIs(m, o, AnswerBytes(before + [last]));
    var end := o + |AnswerBytes(before + [last])|;
    rest := m[end..];
    assert m == m[..12] + (m[12..o] + (m[o..end] + m[end..]));
  }

  // ----- and every message of that form is accepted

  lemma {:induction false} ParamsAreFound(m: Message, o: nat, end: nat, params: seq<Param>)
    requires UpToEch(params, true) && At(m, o, ParamBytes(params)) && o + |ParamBytes(params)| <= end <= |m|
    ensures var r := FindParam(m, o, end);
            && r.Ok? && r.value.Some? && r.value.value.start + r.value.value.length <= |m|
            && Taken(m, r.value) == EchParam(params)
    decreases |params|
  {
    hide At, ParamBytes, U16;
    ReadParam(m, o, params);
    if params[0].key != ECH_KEY {
      ParamsAreFound(m, o + 4 + |params[0].value|, end, params[1..]);
    }
  }

  lemma RdataIsFound(m: Message, o: nat, end: nat, svcb: Rdata, unread: seq<byte>)
    requires svcb.Svcb? && IsU16(svcb.priority) && ValidName(svcb.target) && UpToEch(svcb.params, true)
    requires At(m, o, RdataBytes(svcb) + unread) && end == o + |RdataBytes(svcb) + unread| <= |m|
    ensures var r := RdataEch(m, o, end);
            && r.Ok? && r.value.Some? && r.value.value.start + r.value.value.length <= |m|
            && Taken(m, r.value) == EchParam(svcb.params)
  {
    hide At, NameBytes, ParamBytes, Be16, SkipName, FindParam, UpToEch, EchParam, ValidName;
    var n, p := NameBytes(svcb.target), ParamBytes(svcb.params);
    AtSplit(m, o, RdataBytes(svcb), unread);
    Be16Length(svcb.priority);
    AtSplit(m, o, Be16(svcb.priority), n + p);
    AtSplit(m, o + 2, n, p);
    SkipEncodedName(m, o + 2, end, svcb.target);
    ParamsAreFound(m, o + 2 + |n|, end, svcb.params);
  }

  lemma LastIsFound(m: Message, o: nat, last: Answer, svcb: Rdata, unread: seq<byte>, count: nat)
    requires CarriesEch(last, svcb, unread) && At(m, o, AnswerBytes([last])) && count > 0
    ensures svcb.Svcb? && EchParam(svcb.params).Some?
    ensures Reads(m, FindEch(m, o, count), Some((EchParam(svcb.params).value, EffectiveTtl(last.ttl))))
  {
    hide At, NameBytes, AnswerBytes, AnswerHead, SkipName, RdataEch, EchParam, UpToEch, ValidName, U16, U32;
    UpToEchMeans(svcb.params, true);
    AnswerParts(m, o, [last]);
    OpaqueBytes(last.rdata);
    var h := o + |NameBytes(last.name)|;
    SkipEncodedName(m, o, |m|, last.name);
    ReadAnswerHead(m, h, last);
    RdataIsFound(m, h + 10, h + 10 + |last.rdata.bytes|, svcb, unread);
  }

  /** Answers without an ech value are passed over. */
  lemma {:induction false} AnswersArePassed(m: Message, o: nat, before: seq<Answer>, last: Answer, count: nat) returns (o': nat)
    requires ValidAnswers(before) && EchAnswer(before).None? && |before| <= count
    requires At(m, o, AnswerBytes(before + [last]))
    ensures At(m, o', AnswerBytes([last])) && FindEch(m, o, count) == FindEch(m, o', count - |before|)
    decreases |before|
  {
    hide At, AnswerBytes, NameBytes, RdataBytes, ValidAnswer, FindEch, EchParam, Reads;
    if before == [] {
      o' := o;
      assert before + [last] == [last];
    } else {
      var all := before + [last];
      assert all[0] == before[0] && all[1..] == before[1..] + [last];
      FirstAnswer(m, o, all, count);
      o' := AnswersArePassed(m, o + |NameBytes(all[0].name)| + 10 + |RdataBytes(all[0].rdata)|, before[1..], last, count - 1);
    }
  }

  lemma PartsLocated(m: Message, o: nat, ech: seq<byte>, ttl: nat)
    requires |m| >= 12 && U16(m, 2) >= 0x8000 && U16(m, 2) % 16 == 0
    requires SkipQuestions(m, 12, U16(m, 4)) == Ok(o) && Reads(m, FindEch(m, o, U16(m, 6)), Some((ech, ttl)))
    ensures Parse(m) == Ok((ech, ttl))
  {
    hide U16, SkipQuestions, FindEch;
  }

  lemma EncodedIsAccepted(m: Message, qs: seq<Question>, before: seq<Answer>, last: Answer, svcb: Rdata,
                          unread: seq<byte>, rest: seq<byte>)
    requires Encodes(m, qs, before, last, svcb, unread, rest)
    ensures EchParam(svcb.params).Some?
    ensures Parse(m) == Ok((EchParam(svcb.params).value, if last.ttl == 0 then 300 else last.ttl))
  {
    hide Parse, U16, SkipQuestions, FindEch, At, QuestionBytes, AnswerBytes, Reads;
    hide CarriesEch, ValidAnswers, ValidQuestion, EchAnswer, EchParam;
    var q, a := QuestionBytes(qs), AnswerBytes(before + [last]);
    AtTail(m, q + (a + rest));
    AtSplit(m, 12, q, a + rest);
    AtSplit(m, 12 + |q|, a, rest);
    SkipEncodedQuestions(m, 12, qs);
    var o := AnswersArePassed(m, 12 + |q|, before, last, U16(m, 6));
    LastIsFound(m, o, last, svcb, unread, U16(m, 6) - |before|);
    PartsLocated(m, 12 + |q|, EchParam(svcb.params).value, EffectiveTtl(last.ttl));
  }

  lemma AtTail(m: Message, s: seq<byte>)
    requires |m| >= 12 && m == m[..12] + s
    ensures At(m, 12, s)
  {
    assert m[12..] == s;
  }

  /** Over all byte sequences: the parser accepts exactly the messages of that form. */
  lemma AcceptedExactly(m: Message)
    ensures Parse(m).Ok? <==>
              exists qs, before, last, svcb, unread, rest :: Encodes(m, qs, before, last, svcb, unread, rest)
  {
    hide Parse, Encodes, EchParam;
    if Parse(m).Ok? {
      var qs, before, last, svcb, unread, rest := AcceptedIsEncoded(m);
    }
    if exists qs, before, last, svcb, unread, rest :: Encodes(m, qs, before, last, svcb, unread, rest) {
      var qs, before, last, svcb, unread, rest :| Encodes(m, qs, before, last, svcb, unread, rest);
      EncodedIsAccepted(m, qs, before, last, svcb, unread, rest);
    }
  }
}
