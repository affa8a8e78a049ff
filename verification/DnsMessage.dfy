/** DNS responses as data, their wire form (sections 4.1.1 to 4.1.4 of RFC 1035 and section 2.2
    of RFC 9460), and the proof that the parser reads back what they say. */
module DnsMessage {
  import opened Bytes
  import opened Wrappers
  import opened DnsParser

  /** A name is a run of labels closed by the root label or by a compression pointer. */
  datatype Tail = Root | Pointer(hi: byte, lo: byte)
  datatype Name = Name(labels: seq<seq<byte>>, tail: Tail)

  datatype Param = Param(key: nat, value: seq<byte>)

  datatype Rdata = Opaque(bytes: seq<byte>) | Svcb(priority: nat, target: Name, params: seq<Param>)

  datatype Question = Question(name: Name, qtype: nat, qclass: nat)

  datatype Answer = Answer(name: Name, rtype: nat, class_: nat, ttl: nat, rdata: Rdata)

  /** `rest` stands for the authority and additional sections, whatever they hold. */
  datatype Response = Response(id: nat, flags: nat, questions: seq<Question>, answers: seq<Answer>,
                               nscount: nat, arcount: nat, rest: seq<byte>)

  // ----- well-formedness

  predicate IsU16(n: nat) { n < 0x1_0000 }
  predicate IsU32(n: nat) { n < 0x1_0000_0000 }

  predicate ValidLabel(l: seq<byte>) { 1 <= |l| <= 63 }

  predicate ValidName(n: Name) {
    && (forall i :: 0 <= i < |n.labels| ==> ValidLabel(n.labels[i]))
    && (n.tail.Pointer? ==> n.tail.hi >= 192)
  }

  predicate ValidParam(p: Param) { IsU16(p.key) && IsU16(|p.value|) }

  predicate ValidAnswer(a: Answer) {
    && ValidName(a.name) && IsU16(a.rtype) && IsU16(a.class_) && IsU32(a.ttl)
    && (a.rtype == 65 <==> a.rdata.Svcb?)
    && (a.rdata.Svcb? ==>
          && IsU16(a.rdata.priority) && ValidName(a.rdata.target)
          && (forall i :: 0 <= i < |a.rdata.params| ==> ValidParam(a.rdata.params[i])))
    && IsU16(|RdataBytes(a.rdata)|)
  }

  predicate ValidQuestion(q: Question) { ValidName(q.name) && IsU16(q.qtype) && IsU16(q.qclass) }

  /** A response (QR set) without error (rcode 0). */
  predicate ValidResponse(r: Response) {
    && IsU16(r.id) && IsU16(r.flags) && r.flags >= 0x8000 && r.flags % 16 == 0
    && IsU16(|r.questions|) && IsU16(|r.answers|) && IsU16(r.nscount) && IsU16(r.arcount)
    && (forall i :: 0 <= i < |r.questions| ==> ValidQuestion(r.questions[i]))
    && (forall i :: 0 <= i < |r.answers| ==> ValidAnswer(r.answers[i]))
  }

  // ----- wire form

  function Be16(n: nat): seq<byte> {
    [(n / 256) % 256, n % 256]
  }

  function Be32(n: nat): seq<byte> {
    Be16(n / 65536) + Be16(n % 65536)
  }

  function LabelBytes(labels: seq<seq<byte>>): seq<byte> {
    if labels == [] then [] else [|labels[0]| % 256] + labels[0] + LabelBytes(labels[1..])
  }

  function TailBytes(t: Tail): seq<byte> {
    match t
    case Root => [0]
    case Pointer(hi, lo) => [hi, lo]
  }

  function NameBytes(n: Name): seq<byte> {
    LabelBytes(n.labels) + TailBytes(n.tail)
  }

  function ParamBytes(params: seq<Param>): seq<byte> {
    if params == [] then []
    else Be16(params[0].key) + (Be16(|params[0].value|) + (params[0].value + ParamBytes(params[1..])))
  }

  function RdataBytes(r: Rdata): seq<byte> {
    match r
    case Opaque(bytes) => bytes
    case Svcb(priority, target, params) => Be16(priority) + (NameBytes(target) + ParamBytes(params))
  }

  function QuestionBytes(qs: seq<Question>): seq<byte> {
    if qs == [] then []
    else NameBytes(qs[0].name) + ((Be16(qs[0].qtype) + Be16(qs[0].qclass)) + QuestionBytes(qs[1..]))
  }

  function AnswerHead(a: Answer): seq<byte> {
    Be16(a.rtype) + (Be16(a.class_) + (Be32(a.ttl) + Be16(|RdataBytes(a.rdata)|)))
  }

  function AnswerBytes(ans: seq<Answer>): seq<byte> {
    if ans == [] then []
    else NameBytes(ans[0].name) + (AnswerHead(ans[0]) + (RdataBytes(ans[0].rdata) + AnswerBytes(ans[1..])))
  }

  function Header(r: Response): seq<byte> {
    Be16(r.id) + (Be16(r.flags) + (Be16(|r.questions|) + (Be16(|r.answers|) + (Be16(r.nscount) + Be16(r.arcount)))))
  }

  function Encode(r: Response): seq<byte> {
    Header(r) + (QuestionBytes(r.questions) + (AnswerBytes(r.answers) + r.rest))
  }

  // ----- what the response says

  function EchParam(params: seq<Param>): Option<seq<byte>> {
    if params == [] then None
    else if params[0].key == 5 then Some(params[0].value)
    else EchParam(params[1..])
  }

  /** The first key-5 value of the first type-65 answer that has one, with that answer's TTL, or 300
      seconds if that is zero. */
  function EchAnswer(ans: seq<Answer>): Option<(seq<byte>, nat)> {
    if ans == [] then None
    else if ans[0].rdata.Svcb? && EchParam(ans[0].rdata.params).Some? then
      Some((EchParam(ans[0].rdata.params).value, if ans[0].ttl == 0 then 300 else ans[0].ttl))
    else EchAnswer(ans[1..])
  }

  // ----- reading at a position

  /** `s` stands at position `o` of the message. */
  ghost predicate At(m: Message, o: nat, s: seq<byte>) {
    o + |s| <= |m| && m[o..o + |s|] == s
  }

  lemma AtSplit(m: Message, o: nat, a: seq<byte>, b: seq<byte>)
    requires At(m, o, a + b)
    ensures At(m, o, a) && At(m, o + |a|, b)
  {
    var t := m[o..o + |a + b|];
    assert t[..|a|] == a && t[|a|..] == b;
  }

  lemma ReadBe16(m: Message, o: nat, n: nat)
    requires At(m, o, Be16(n)) && IsU16(n)
    ensures U16(m, o) == n
  {
    assert m[o..o + 2][0] == m[o] && m[o..o + 2][1] == m[o + 1];
  }

  lemma ReadBe32(m: Message, o: nat, n: nat)
    requires At(m, o, Be32(n)) && IsU32(n)
    ensures U32(m, o) == n
  {
    AtSplit(m, o, Be16(n / 65536), Be16(n % 65536));
    ReadBe16(m, o, n / 65536);
    ReadBe16(m, o + 2, n % 65536);
  }

  lemma {:induction false} SkipEncodedName(m: Message, pos: nat, end: nat, n: Name)
    requires ValidName(n) && At(m, pos, NameBytes(n)) && pos + |NameBytes(n)| <= end
    ensures SkipName(m, pos, end) == Ok(pos + |NameBytes(n)|)
    decreases |n.labels|
  {
    hide At, NameBytes;
    if n.labels == [] {
      NameIsTail(n);
      TailAt(m, pos, n.tail);
    } else {
      var rest := Name(n.labels[1..], n.tail);
      var first := [|n.labels[0]| % 256] + n.labels[0];
      NameIsLabelThen(n);
      AtSplit(m, pos, first, NameBytes(rest));
      FirstByte(m, pos, first);
      SkipEncodedName(m, pos + |first|, end, rest);
    }
  }

  lemma NameIsTail(n: Name)
    requires n.labels == []
    ensures NameBytes(n) == TailBytes(n.tail)
  {
  }

  lemma NameIsLabelThen(n: Name)
    requires n.labels != []
    ensures NameBytes(n) == ([|n.labels[0]| % 256] + n.labels[0]) + NameBytes(Name(n.labels[1..], n.tail))
  {
  }

  lemma FirstByte(m: Message, pos: nat, s: seq<byte>)
    requires At(m, pos, s) && s != []
    ensures pos + |s| <= |m| && m[pos] == s[0]
  {
    assert m[pos..pos + |s|][0] == m[pos];
  }

  lemma TailAt(m: Message, pos: nat, t: Tail)
    requires At(m, pos, TailBytes(t))
    ensures pos + |TailBytes(t)| <= |m| && m[pos] == if t.Root? then 0 else t.hi
  {
    FirstByte(m, pos, TailBytes(t));
  }

  lemma {:induction false} SkipEncodedQuestions(m: Message, o: nat, qs: seq<Question>)
    requires forall i :: 0 <= i < |qs| ==> ValidQuestion(qs[i])
    requires At(m, o, QuestionBytes(qs))
    ensures SkipQuestions(m, o, |qs|) == Ok(o + |QuestionBytes(qs)|)
    decreases |qs|
  {
    hide At, NameBytes, QuestionBytes, SkipName, Be16;
    FirstQuestionParts(m, o, qs);
    if qs != [] {
      SkipEncodedName(m, o, |m|, qs[0].name);
      SkipEncodedQuestions(m, o + |NameBytes(qs[0].name)| + 4, qs[1..]);
    }
  }

  lemma FirstQuestionParts(m: Message, o: nat, qs: seq<Question>)
    requires At(m, o, QuestionBytes(qs))
    ensures qs == [] ==> QuestionBytes(qs) == []
    ensures qs != [] ==>
              var name, next := NameBytes(qs[0].name), o + |NameBytes(qs[0].name)| + 4;
              && At(m, o, name) && At(m, next, QuestionBytes(qs[1..])) && next <= |m|
              && |QuestionBytes(qs)| == |name| + 4 + |QuestionBytes(qs[1..])|
  {
    hide At, NameBytes;
    if qs != [] {
      var name, fixed, rest := NameBytes(qs[0].name), Be16(qs[0].qtype) + Be16(qs[0].qclass), QuestionBytes(qs[1..]);
      AtSplit(m, o, name, fixed + rest);
      AtSplit(m, o + |name|, fixed, rest);
      AtInside(m, o + |name| + 4, rest);
    }
  }

  /** The value the parser's slice denotes. */
  function Taken(m: Message, v: Option<Slice>): Option<seq<byte>>
    requires v.Some? ==> v.value.start + v.value.length <= |m|
  {
    if v.None? then None else Some(m[v.value.start..v.value.start + v.value.length])
  }

  lemma AtIs(m: Message, o: nat, s: seq<byte>)
    requires At(m, o, s)
    ensures o + |s| <= |m| && m[o..o + |s|] == s
  {
  }

  /** The first parameter's key, length and value, and where the rest begins. */
  lemma ReadParam(m: Message, o: nat, params: seq<Param>)
    requires params != [] && ValidParam(params[0]) && At(m, o, ParamBytes(params))
    ensures var end := o + 4 + |params[0].value|;
            && |ParamBytes(params)| == 4 + |params[0].value| + |ParamBytes(params[1..])|
            && end <= |m| && U16(m, o) == params[0].key && U16(m, o + 2) == |params[0].value|
            && m[o + 4..end] == params[0].value && At(m, end, ParamBytes(params[1..]))
  {
    hide At;
    var key, len := Be16(params[0].key), Be16(|params[0].value|);
    var value, rest := params[0].value, ParamBytes(params[1..]);
    assert ParamBytes(params) == key + (len + (value + rest));
    hide ParamBytes;
    AtSplit(m, o, key, len + (value + rest));
    AtSplit(m, o + 2, len, value + rest);
    AtSplit(m, o + 4, value, rest);
    ReadBe16(m, o, params[0].key);
    ReadBe16(m, o + 2, |value|);
    assert At(m, o + 4, value) && At(m, o + 4 + |value|, rest);
    AtIs(m, o + 4, value);
  }

  lemma {:induction false} FindEncodedParam(m: Message, o: nat, params: seq<Param>)
    requires forall i :: 0 <= i < |params| ==> ValidParam(params[i])
    requires At(m, o, ParamBytes(params))
    ensures var r := FindParam(m, o, o + |ParamBytes(params)|);
            && r.Ok? && (r.value.Some? ==> r.value.value.start + r.value.value.length <= |m|)
            && Taken(m, r.value) == EchParam(params)
    decreases |params|
  {
    hide ParamBytes, U16, At;
    AtInside(m, o, ParamBytes(params));
    if params == [] {
      NoParamBytes();
    } else {
      ReadParam(m, o, params);
      if params[0].key != ECH_KEY {
        FindEncodedParam(m, o + 4 + |params[0].value|, params[1..]);
      }
    }
  }

  lemma NoParamBytes()
    ensures ParamBytes([]) == []
  {
  }

  lemma AtInside(m: Message, o: nat, s: seq<byte>)
    requires At(m, o, s)
    ensures o + |s| <= |m|
  {
  }

  lemma Be16Length(n: nat)
    ensures |Be16(n)| == 2
  {
  }

  lemma EncodedRdata(m: Message, o: nat, a: Answer)
    requires ValidAnswer(a) && a.rdata.Svcb? && At(m, o, RdataBytes(a.rdata))
    ensures var r := RdataEch(m, o, o + |RdataBytes(a.rdata)|);
            && r.Ok? && (r.value.Some? ==> r.value.value.start + r.value.value.length <= |m|)
            && Taken(m, r.value) == EchParam(a.rdata.params)
  {
    hide NameBytes, ParamBytes, SkipName, FindParam, EchParam, U16, At, Be16;
    Be16Length(a.rdata.priority);
    AtInside(m, o, RdataBytes(a.rdata));
    var prio, name, params := Be16(a.rdata.priority), NameBytes(a.rdata.target), ParamBytes(a.rdata.params);
    AtSplit(m, o, prio, name + params);
    AtSplit(m, o + 2, name, params);
    SkipEncodedName(m, o + 2, o + |RdataBytes(a.rdata)|, a.rdata.target);
    FindEncodedParam(m, o + 2 + |name|, a.rdata.params);
  }

  lemma ReadAnswerHead(m: Message, h: nat, a: Answer)
    requires IsU16(a.rtype) && IsU32(a.ttl) && IsU16(|RdataBytes(a.rdata)|) && At(m, h, AnswerHead(a))
    ensures h + 10 <= |m| && U16(m, h) == a.rtype && U32(m, h + 4) == a.ttl && U16(m, h + 8) == |RdataBytes(a.rdata)|
  {
    hide RdataBytes;
    var len := |RdataBytes(a.rdata)|;
    AtSplit(m, h, Be16(a.rtype), Be16(a.class_) + (Be32(a.ttl) + Be16(len)));
    AtSplit(m, h + 2, Be16(a.class_), Be32(a.ttl) + Be16(len));
    AtSplit(m, h + 4, Be32(a.ttl), Be16(len));
    ReadBe16(m, h, a.rtype);
    ReadBe32(m, h + 4, a.ttl);
    ReadBe16(m, h + 8, len);
  }

  /** The parser's verdict on the answers agrees with what the answers say. */
  ghost predicate Reads(m: Message, r: Result<Found, DnsError>, said: Option<(seq<byte>, nat)>) {
    if said.None? then r == Err(NoEch)
    else
      && r.Ok? && r.value.value.start + r.value.value.length <= |m|
      && (m[r.value.value.start..r.value.value.start + r.value.value.length], r.value.ttl) == said.value
  }

  lemma FirstAnswerBytes(ans: seq<Answer>)
    requires ans != []
    ensures AnswerBytes(ans) ==
              NameBytes(ans[0].name) + (AnswerHead(ans[0]) + (RdataBytes(ans[0].rdata) + AnswerBytes(ans[1..])))
  {
    hide RdataBytes, AnswerHead, NameBytes;
  }

  lemma AtParts(m: Message, o: nat, a: seq<byte>, b: seq<byte>, c: seq<byte>, d: seq<byte>)
    requires At(m, o, a + (b + (c + d)))
    ensures At(m, o, a) && At(m, o + |a|, b) && At(m, o + |a| + |b|, c) && At(m, o + |a| + |b| + |c|, d)
    ensures o + |a| + |b| + |c| <= |m|
  {
    hide At;
    AtSplit(m, o, a, b + (c + d));
    AtSplit(m, o + |a|, b, c + d);
    AtSplit(m, o + |a| + |b|, c, d);
    AtInside(m, o + |a| + |b| + |c|, d);
  }

  /** Where the parts of the first answer lie. */
  lemma AnswerParts(m: Message, o: nat, ans: seq<Answer>)
    requires ans != [] && At(m, o, AnswerBytes(ans))
    ensures var h := o + |NameBytes(ans[0].name)|;
            var end := h + 10 + |RdataBytes(ans[0].rdata)|;
            && At(m, o, NameBytes(ans[0].name)) && At(m, h, AnswerHead(ans[0]))
            && At(m, h + 10, RdataBytes(ans[0].rdata)) && At(m, end, AnswerBytes(ans[1..])) && end <= |m|
  {
    hide RdataBytes, AnswerHead, NameBytes, AnswerBytes, At;
    var a := ans[0];
    FirstAnswerBytes(ans);
    HeadLength(a);
    AtParts(m, o, NameBytes(a.name), AnswerHead(a), RdataBytes(a.rdata), AnswerBytes(ans[1..]));
  }

  /** One pass of the answer loop: stop at the first answer with a key-5 value, or go on. */
  lemma FirstAnswer(m: Message, o: nat, ans: seq<Answer>, count: nat)
    requires ans != [] && count > 0 && ValidAnswer(ans[0]) && At(m, o, AnswerBytes(ans))
    ensures var a, end := ans[0], o + |NameBytes(ans[0].name)| + 10 + |RdataBytes(ans[0].rdata)|;
            && end <= |m| && At(m, end, AnswerBytes(ans[1..]))
            && if a.rdata.Svcb? && EchParam(a.rdata.params).Some?
               then Reads(m, FindEch(m, o, count), Some((EchParam(a.rdata.params).value, EffectiveTtl(a.ttl))))
               else FindEch(m, o, count) == FindEch(m, end, count - 1)
  {
    hide RdataBytes, AnswerHead, NameBytes, AnswerBytes, At, SkipName, U16, U32, RdataEch, EchParam;
    var a := ans[0];
    AnswerParts(m, o, ans);
    var h := o + |NameBytes(a.name)|;
    SkipEncodedName(m, o, |m|, a.name);
    ReadAnswerHead(m, h, a);
    if a.rdata.Svcb? {
      EncodedRdata(m, h + 10, a);
    }
  }

  lemma {:induction false} FindEncodedEch(m: Message, o: nat, ans: seq<Answer>)
    requires forall i :: 0 <= i < |ans| ==> ValidAnswer(ans[i])
    requires At(m, o, AnswerBytes(ans))
    ensures Reads(m, FindEch(m, o, |ans|), EchAnswer(ans))
    decreases |ans|
  {
    hide RdataBytes, NameBytes, AnswerBytes, At, ValidAnswer, FindEch, EchParam, Reads;
    if ans == [] {
      NothingToFind(m, o);
    } else {
      FirstAnswer(m, o, ans, |ans|);
      FindEncodedEch(m, o + |NameBytes(ans[0].name)| + 10 + |RdataBytes(ans[0].rdata)|, ans[1..]);
    }
  }

  lemma NothingToFind(m: Message, o: nat)
    ensures Reads(m, FindEch(m, o, 0), None)
  {
  }

  lemma HeadLength(a: Answer)
    ensures |AnswerHead(a)| == 10
  {
  }

  lemma ReadHeader(m: Message, r: Response)
    requires ValidResponse(r) && At(m, 0, Header(r))
    ensures |m| >= 12 && U16(m, 2) == r.flags && U16(m, 4) == |r.questions| && U16(m, 6) == |r.answers|
  {
    var ns, ar := Be16(r.nscount), Be16(r.arcount);
    var an, qd, fl := Be16(|r.answers|), Be16(|r.questions|), Be16(r.flags);
    AtSplit(m, 0, Be16(r.id), fl + (qd + (an + (ns + ar))));
    AtSplit(m, 2, fl, qd + (an + (ns + ar)));
    AtSplit(m, 4, qd, an + (ns + ar));
    AtSplit(m, 6, an, ns + ar);
    ReadBe16(m, 2, r.flags);
    ReadBe16(m, 4, |r.questions|);
    ReadBe16(m, 6, |r.answers|);
  }

  /** Parsing the wire form of a response gives what the response says, and fails exactly when
      no type-65 answer carries a key-5 value. */
  lemma {:induction false} ParseInvertsEncode(r: Response)
    requires ValidResponse(r)
    ensures Parse(Encode(r)) == match EchAnswer(r.answers) case Some(found) => Ok(found) case None => Err(NoEch)
  {
    var m := Encode(r);
    hide Encode, Header, QuestionBytes, AnswerBytes, SkipQuestions, FindEch, EchAnswer;
    var head, qs, ans := Header(r), QuestionBytes(r.questions), AnswerBytes(r.answers);
    assert m == head + (qs + (ans + r.rest)) by {
      EncodeParts(r);
    }
    assert At(m, 0, head + (qs + (ans + r.rest)));
    AtSplit(m, 0, head, qs + (ans + r.rest));
    ReadHeader(m, r);
    assert |head| == 12 by {
      HeaderLength(r);
    }
    AtSplit(m, 12, qs, ans + r.rest);
    AtSplit(m, 12 + |qs|, ans, r.rest);
    SkipEncodedQuestions(m, 12, r.questions);
    FindEncodedEch(m, 12 + |qs|, r.answers);
  }

  lemma EncodeParts(r: Response)
    ensures Encode(r) == Header(r) + (QuestionBytes(r.questions) + (AnswerBytes(r.answers) + r.rest))
  {
  }

  lemma HeaderLength(r: Response)
    ensures |Header(r)| == 12
  {
  }
}
