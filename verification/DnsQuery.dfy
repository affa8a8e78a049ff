/** The type-65 query builder, and its agreement with the name skipper. */
module DnsQuery {
  import opened Bytes
  import opened Wrappers
  import opened Splitting
  import opened DnsParser
  import opened DnsMessage

  const DOT: byte := 46

  datatype QueryError = InvalidName | InvalidLabel

  function TrimDots(name: seq<byte>): seq<byte> {
    if name != [] && name[|name| - 1] == DOT then TrimDots(name[..|name| - 1]) else name
  }

  /** Trimming takes off all the dots at the end and nothing else. */
  lemma {:induction false} TrimTakesDots(name: seq<byte>, dots: seq<byte>)
    requires name == [] || name[|name| - 1] != 46
    requires forall i :: 0 <= i < |dots| ==> dots[i] == 46
    ensures TrimDots(name + dots) == name
    decreases |dots|
  {
    if dots == [] {
      assert name + dots == name;
    } else {
      var k := |dots| - 1;
      assert (name + dots)[..|name| + k] == name + dots[..k] && (name + dots)[|name| + k] == dots[k];
      TrimTakesDots(name, dots[..k]);
    }
  }

  /** The labels of a name, trailing dots ignored. */
  function Labels(name: seq<byte>): seq<seq<byte>> {
    Split(TrimDots(name), DOT)
  }

  function QueryHeader(): seq<byte> {
    Be16(0x4543) + Be16(0x0100) + Be16(1) + Be16(0) + Be16(0) + Be16(0)
  }

  predicate Accepts(name: seq<byte>) {
    1 <= |name| <= 253 && forall i :: 0 <= i < |Labels(name)| ==> ValidLabel(Labels(name)[i])
  }

  function QueryFor(name: seq<byte>): seq<byte> {
    QueryHeader() + (NameBytes(Name(Labels(name), Root)) + (Be16(65) + Be16(1)))
  }

  lemma LabelBytesSnoc(labels: seq<seq<byte>>, l: seq<byte>)
    ensures LabelBytes(labels + [l]) == LabelBytes(labels) + ([|l| % 256] + l)
    decreases |labels|
  {
    if labels == [] {
      assert [] + [l] == [l];
    } else {
      LabelBytesSnoc(labels[1..], l);
      assert (labels + [l])[1..] == labels[1..] + [l];
    }
  }

  lemma NoLabelBytes()
    ensures LabelBytes([]) == []
  {
  }

  lemma QueryInOrder(name: seq<byte>)
    ensures QueryFor(name) == QueryHeader() + LabelBytes(Labels(name)) + [0] + Be16(65) + Be16(1)
  {
    hide QueryHeader, LabelBytes, Labels, Be16;
  }

  /** The builder accepts exactly the names of 1 to 253 octets whose labels, trailing dots
      ignored, have 1 to 63 octets, and emits the one-question query for them. */
  method BuildHttpsQuery(name: seq<byte>) returns (r: Result<seq<byte>, QueryError>)
    ensures r.Ok? <==> Accepts(name)
    ensures r.Ok? ==> r.value == QueryFor(name)
    ensures r == Err(InvalidName) <==> |name| == 0 || |name| > 253
  {
    hide QueryFor, QueryHeader, Labels, LabelBytes, Be16;
    if |name| == 0 || |name| > 253 {
      return Err(InvalidName);
    }
    var out := QueryHeader();
    var labels := Labels(name);
    NoLabelBytes();
    for i := 0 to |labels|
      invariant out == QueryHeader() + LabelBytes(labels[..i])
      invariant forall k :: 0 <= k < i ==> ValidLabel(labels[k])
    {
      var part := labels[i];
      if |part| == 0 || |part| > 63 {
        return Err(InvalidLabel);
      }
      out := out + [|part|];
      out := out + part;
      LabelBytesSnoc(labels[..i], part);
      assert labels[..i + 1] == labels[..i] + [part];
    }
    assert labels[..|labels|] == labels;
    QueryInOrder(name);
    out := out + [0];
    out := out + Be16(HTTPS);
    out := out + Be16(1);
    return Ok(out);
  }

  lemma {:induction false} TrimmedIsPrefix(name: seq<byte>)
    ensures TrimDots(name) <= name
  {
    if name != [] && name[|name| - 1] == DOT {
      TrimmedIsPrefix(name[..|name| - 1]);
    }
  }

  lemma {:induction false} LabelBytesLength(labels: seq<seq<byte>>)
    requires labels != []
    ensures |LabelBytes(labels)| == |Join(labels, DOT)| + 1
    decreases |labels|
  {
    if |labels| == 1 {
      assert LabelBytes(labels[1..]) == [];
    } else {
      LabelBytesLength(labels[1..]);
    }
  }

  /** The encoded name takes |trimmed name| + 2 octets, never more than 255; skipping it from
      offset 12 stops exactly at the 4 octets of type and class. */
  lemma SkipperMeetsBuilder(name: seq<byte>)
    requires Accepts(name)
    ensures var q := QueryFor(name);
            && |q| == 12 + (|TrimDots(name)| + 2) + 4 && |TrimDots(name)| + 2 <= 255
            && SkipName(q, 12, |q|) == Ok(|q| - 4)
            && U16(q, |q| - 4) == 65 && U16(q, |q| - 2) == 1
  {
    hide QueryFor, NameBytes, Labels, TrimDots, SkipName, At, U16, Be16;
    var q, n := QueryFor(name), Name(Labels(name), Root);
    EncodedLength(name);
    QueryParts(name);
    SkipEncodedName(q, 12, |q|, n);
    AtSplit(q, |q| - 4, Be16(65), Be16(1));
    ReadBe16(q, |q| - 4, 65);
    Be16Length(65);
    ReadBe16(q, |q| - 2, 1);
  }

  lemma EncodedLength(name: seq<byte>)
    requires Accepts(name)
    ensures |NameBytes(Name(Labels(name), Root))| == |TrimDots(name)| + 2 <= 255
  {
    hide LabelBytes;
    TrimmedIsPrefix(name);
    JoinSplit(TrimDots(name), DOT);
    LabelBytesLength(Labels(name));
  }

  /** Where the parts of the query lie. */
  lemma QueryParts(name: seq<byte>)
    requires Accepts(name)
    ensures var q, n := QueryFor(name), NameBytes(Name(Labels(name), Root));
            && |q| == 12 + |n| + 4 && At(q, 12, n) && At(q, |q| - 4, Be16(65) + Be16(1))
  {
    hide NameBytes, Labels;
    var q, n, fixed := QueryFor(name), NameBytes(Name(Labels(name), Root)), Be16(65) + Be16(1);
    assert q == QueryHeader() + (n + fixed);
    assert At(q, 0, QueryHeader() + (n + fixed));
    AtSplit(q, 0, QueryHeader(), n + fixed);
    AtSplit(q, 12, n, fixed);
  }

  /** Read as a message, the query is just one question: recursion desired and no other flag, counts
      of 1, 0, 0 and 0, and nothing after the question. */
  lemma QueryAsksOnce(name: seq<byte>)
    requires Accepts(name)
    ensures var q := QueryFor(name);
            && |q| >= 12 && q[..12] == [0x45, 0x43, 0x01, 0x00, 0, 1, 0, 0, 0, 0, 0, 0]
            && SkipQuestions(q, 12, U16(q, 4)) == Ok(|q|)
  {
    hide NameBytes, Labels, TrimDots, SkipName;
    SkipperMeetsBuilder(name);
    HeaderBytes(name);
    var q := QueryFor(name);
    assert q[..12][4] == q[4] && q[..12][5] == q[5];
    OneQuestion(q);
  }

  lemma HeaderBytes(name: seq<byte>)
    ensures |QueryFor(name)| >= 12 && QueryFor(name)[..12] == [0x45, 0x43, 0x01, 0x00, 0, 1, 0, 0, 0, 0, 0, 0]
  {
    hide NameBytes, Labels;
    assert QueryHeader() == [0x45, 0x43, 0x01, 0x00, 0, 1, 0, 0, 0, 0, 0, 0];
    assert QueryFor(name)[..12] == QueryHeader();
  }

  lemma OneQuestion(q: Message)
    requires |q| >= 16 && SkipName(q, 12, |q|) == Ok(|q| - 4)
    ensures SkipQuestions(q, 12, 1) == Ok(|q|)
  {
    hide SkipName;
    assert SkipQuestions(q, |q|, 0) == Ok(|q|);
  }

  /** Reads the labels of an uncompressed name. */
  function ReadLabels(m: Message, pos: nat): Option<seq<seq<byte>>>
    decreases |m| - pos
  {
    if pos >= |m| || m[pos] >= 64 || pos + 1 + m[pos] > |m| then None
    else if m[pos] == 0 then Some([])
    else
      match ReadLabels(m, pos + 1 + m[pos])
      case None => None
      case Some(rest) => Some([m[pos + 1..pos + 1 + m[pos]]] + rest)
  }

  lemma {:induction false} ReadEncodedLabels(m: Message, pos: nat, labels: seq<seq<byte>>)
    requires forall i :: 0 <= i < |labels| ==> ValidLabel(labels[i])
    requires At(m, pos, LabelBytes(labels) + [0])
    ensures ReadLabels(m, pos) == Some(labels)
    decreases |labels|
  {
    if labels == [] {
      assert LabelBytes(labels) + [0] == [0];
      assert m[pos..pos + 1][0] == m[pos];
    } else {
      hide At, LabelBytes;
      FirstLabel(m, pos, labels);
      ReadEncodedLabels(m, pos + 1 + |labels[0]|, labels[1..]);
      assert labels == [labels[0]] + labels[1..];
    }
  }

  lemma FirstLabel(m: Message, pos: nat, labels: seq<seq<byte>>)
    requires labels != [] && ValidLabel(labels[0]) && At(m, pos, LabelBytes(labels) + [0])
    ensures var next := pos + 1 + |labels[0]|;
            && next <= |m| && m[pos] == |labels[0]| && m[pos + 1..next] == labels[0]
            && At(m, next, LabelBytes(labels[1..]) + [0])
  {
    hide At;
    var head, rest := [|labels[0]| % 256], LabelBytes(labels[1..]) + [0];
    assert LabelBytes(labels) + [0] == head + (labels[0] + rest);
    AtSplit(m, pos, head, labels[0] + rest);
    AtSplit(m, pos + 1, labels[0], rest);
    AtIs(m, pos, head);
    AtIs(m, pos + 1, labels[0]);
    assert m[pos..pos + 1][0] == m[pos];
  }

  /** Decoding the query's labels gives back the name without trailing dots. */
  lemma QueryDecodes(name: seq<byte>)
    requires Accepts(name)
    ensures var labels := ReadLabels(QueryFor(name), 12);
            labels.Some? && Join(labels.value, DOT) == TrimDots(name)
  {
    var q, labels, fixed := QueryFor(name), Labels(name), Be16(65) + Be16(1);
    assert At(q, 0, QueryHeader() + ((LabelBytes(labels) + [0]) + fixed));
    AtSplit(q, 0, QueryHeader(), (LabelBytes(labels) + [0]) + fixed);
    AtSplit(q, 12, LabelBytes(labels) + [0], fixed);
    ReadEncodedLabels(q, 12, labels);
    JoinSplit(TrimDots(name), DOT);
  }

  /** Two accepted names give the same query exactly when they differ at most in trailing dots. */
  lemma QueryIsInjective(a: seq<byte>, b: seq<byte>)
    requires Accepts(a) && Accepts(b)
    ensures QueryFor(a) == QueryFor(b) <==> TrimDots(a) == TrimDots(b)
  {
    QueryDecodes(a);
    QueryDecodes(b);
  }
}
