/** The HTTPS/SVCB response parser: as functions over positions in the message, and as the
    loops that advance an offset through it. */
module DnsParser {
  import opened Bytes
  import opened Wrappers

  const DEFAULT_ECH_CACHE_TTL: nat := 300
  const HTTPS: nat := 65
  const ECH_KEY: nat := 5

  /** A slice never exceeds isize::MAX bytes; offsets are usize. */
  const ISIZE_MAX: nat := 0x7FFF_FFFF_FFFF_FFFF
  const USIZE_MAX: nat := 0xFFFF_FFFF_FFFF_FFFF

  type Message = seq<byte>

  datatype DnsError =
    | TooShort | NotResponse | BadRcode(rcode: nat)
    | TruncatedName | TruncatedPointer | UnsupportedLabel
    | TruncatedMessage | TruncatedField
    | RdataTooLong | TruncatedParam | ParamTooLong | NoEch

  /** Where a parameter value lies in the message. */
  datatype Slice = Slice(start: nat, length: nat)

  /** A found ech value: its place, the TTL of its record, and the record's RDATA. */
  datatype Found = Found(value: Slice, ttl: nat, rdata: Slice)

  /** The source tests the two top bits of a length byte and two fields of the flags word. */
  lemma MaskTests(len: bv8, flags: bv16)
    ensures len & 0xc0 == 0xc0 <==> len >= 192
    ensures len & 0xc0 != 0 <==> len >= 64
    ensures flags & 0x8000 == 0 <==> flags < 0x8000
    ensures flags & 0x000f == flags % 16
  {
  }

  function U16(m: Message, o: nat): nat
    requires o + 2 <= |m|
  {
    m[o] as nat * 256 + m[o + 1] as nat
  }

  function U32(m: Message, o: nat): nat
    requires o + 4 <= |m|
  {
    65536 * U16(m, o) + U16(m, o + 2)
  }

  // ----- what the parser computes

  /** The position just after the name at `pos`, which must end before `end`. */
  function SkipName(m: Message, pos: nat, end: nat): Result<nat, DnsError>
    decreases |m| - pos
  {
    if pos >= end || pos >= |m| then Err(TruncatedName)
    else if m[pos] >= 192 then
      if pos + 1 >= end || pos + 1 >= |m| then Err(TruncatedPointer) else Ok(pos + 2)
    else if m[pos] >= 64 then Err(UnsupportedLabel)
    else if m[pos] == 0 then Ok(pos + 1)
    else SkipName(m, pos + 1 + m[pos], end)
  }

  function Advance(m: Message, o: nat, count: nat): Result<nat, DnsError> {
    if o + count > |m| then Err(TruncatedMessage) else Ok(o + count)
  }

  function SkipQuestions(m: Message, o: nat, count: nat): Result<nat, DnsError>
    decreases count
  {
    if count == 0 then Ok(o)
    else
      var o1 :- SkipName(m, o, |m|);
      var o2 :- Advance(m, o1, 4);
      SkipQuestions(m, o2, count - 1)
  }

  /** The first parameter with key 5 among those from `o` to `end`. */
  function FindParam(m: Message, o: nat, end: nat): Result<Option<Slice>, DnsError>
    requires end <= |m|
    decreases end - o
  {
    if o >= end then Ok(None)
    else if end - o < 4 then Err(TruncatedParam)
    else
      var key, len := U16(m, o), U16(m, o + 2);
      if o + 4 + len > end then Err(ParamTooLong)
      else if key == ECH_KEY then Ok(Some(Slice(o + 4, len)))
      else FindParam(m, o + 4 + len, end)
  }

  function RdataEch(m: Message, o: nat, end: nat): Result<Option<Slice>, DnsError>
    requires end <= |m|
  {
    var o1 :- Advance(m, o, 2);
    var o2 :- SkipName(m, o1, end);
    FindParam(m, o2, end)
  }

  function EffectiveTtl(ttl: nat): nat {
    if ttl == 0 then DEFAULT_ECH_CACHE_TTL else ttl
  }

  function FindEch(m: Message, o: nat, count: nat): Result<Found, DnsError>
    decreases count
  {
    if count == 0 then Err(NoEch)
    else
      var h :- SkipName(m, o, |m|);
      if h + 10 > |m| then Err(TruncatedField)
      else
        var rdlen := U16(m, h + 8);
        var start, end := h + 10, h + 10 + rdlen;
        if end > |m| then Err(RdataTooLong)
        else if U16(m, h) == HTTPS then
          var found :- RdataEch(m, start, end);
          match found
          case Some(v) => Ok(Found(v, EffectiveTtl(U32(m, h + 4)), Slice(start, rdlen)))
          case None => FindEch(m, end, count - 1)
        else FindEch(m, end, count - 1)
  }

  function Locate(m: Message): Result<Found, DnsError> {
    if |m| < 12 then Err(TooShort)
    else if U16(m, 2) < 0x8000 then Err(NotResponse)
    else if U16(m, 2) % 16 != 0 then Err(BadRcode(U16(m, 2) % 16))
    else
      var o :- SkipQuestions(m, 12, U16(m, 4));
      FindEch(m, o, U16(m, 6))
  }

  function Parse(m: Message): Result<(seq<byte>, nat), DnsError> {
    var f :- Locate(m);
    LocateIsSound(m);
    Ok((m[f.value.start..f.value.start + f.value.length], f.ttl))
  }

  // ----- soundness: what is found lies where it should

  lemma {:induction false} SkipNameMoves(m: Message, pos: nat, end: nat)
    ensures var r := SkipName(m, pos, end); r.Ok? ==> pos < r.value <= end && r.value <= |m|
    decreases |m| - pos
  {
    if pos < end && pos < |m| && 0 < m[pos] < 64 {
      SkipNameMoves(m, pos + 1 + m[pos], end);
    }
  }

  /** The slice is the value of a key-5 parameter inside [o, end). */
  ghost predicate IsEchParam(m: Message, v: Slice, o: nat, end: nat) {
    && o + 4 <= v.start && v.start + v.length <= end <= |m|
    && U16(m, v.start - 4) == 5 && U16(m, v.start - 2) == v.length
  }

  lemma {:induction false} FindParamIsSound(m: Message, o: nat, end: nat)
    requires end <= |m|
    ensures var r := FindParam(m, o, end); r.Ok? && r.value.Some? ==> IsEchParam(m, r.value.value, o, end)
    decreases end - o
  {
    if o + 4 <= end && o + 4 + U16(m, o + 2) <= end && U16(m, o) != ECH_KEY {
      FindParamIsSound(m, o + 4 + U16(m, o + 2), end);
    }
  }

  /** The slice is a key-5 value inside the RDATA of a type-65 record whose TTL is reported. */
  ghost predicate IsEchOf(m: Message, f: Found) {
    var rd := f.rdata;
    && 12 + 10 < rd.start && rd.start + rd.length <= |m|
    && U16(m, rd.start - 10) == 65
    && U16(m, rd.start - 2) == rd.length
    && f.ttl == (if U32(m, rd.start - 6) == 0 then 300 else U32(m, rd.start - 6))
    && IsEchParam(m, f.value, rd.start + 3, rd.start + rd.length)
  }

  lemma {:induction false} FindEchIsSound(m: Message, o: nat, count: nat)
    requires 12 <= o
    ensures var r := FindEch(m, o, count); r.Ok? ==> IsEchOf(m, r.value)
    decreases count
  {
    if count > 0 {
      SkipNameMoves(m, o, |m|);
      var h := SkipName(m, o, |m|);
      if h.Ok? && h.value + 10 <= |m| {
        var start, end := h.value + 10, h.value + 10 + U16(m, h.value + 8);
        if end <= |m| {
          FindEchIsSound(m, end, count - 1);
          if start + 2 <= |m| {
            SkipNameMoves(m, start + 2, end);
            var o2 := SkipName(m, start + 2, end);
            if o2.Ok? {
              FindParamIsSound(m, o2.value, end);
            }
          }
        }
      }
    }
  }

  lemma {:induction false} SkipQuestionsMoves(m: Message, o: nat, count: nat)
    ensures var r := SkipQuestions(m, o, count); r.Ok? ==> o <= r.value
    decreases count
  {
    if count > 0 {
      SkipNameMoves(m, o, |m|);
      var o1 := SkipName(m, o, |m|);
      if o1.Ok? {
        SkipQuestionsMoves(m, o1.value + 4, count - 1);
      }
    }
  }

  lemma LocateIsSound(m: Message)
    ensures Locate(m).Ok? ==> IsEchOf(m, Locate(m).value)
  {
    if |m| >= 12 {
      SkipQuestionsMoves(m, 12, U16(m, 4));
      var o := SkipQuestions(m, 12, U16(m, 4));
      if o.Ok? {
        FindEchIsSound(m, o.value, U16(m, 6));
      }
    }
  }

  /** On every byte sequence, an accepted value is a contiguous slice inside one type-65 RDATA. */
  lemma ParseIsSound(m: Message)
    requires Parse(m).Ok?
    ensures exists f :: IsEchOf(m, f) && Parse(m).value == (m[f.value.start..f.value.start + f.value.length], f.ttl)
  {
    LocateIsSound(m);
  }

  // ----- stability: bytes after an accepted message change nothing

  lemma {:induction false} SkipNameStable(m: Message, s: Message, pos: nat, end: nat, end': nat)
    requires SkipName(m, pos, end).Ok? && end <= end'
    ensures SkipName(m + s, pos, end') == SkipName(m, pos, end)
    decreases |m| - pos
  {
    if m[pos] < 64 && m[pos] != 0 {
      SkipNameStable(m, s, pos + 1 + m[pos], end, end');
    }
  }

  lemma {:induction false} SkipQuestionsStable(m: Message, s: Message, o: nat, count: nat)
    requires SkipQuestions(m, o, count).Ok?
    ensures SkipQuestions(m + s, o, count) == SkipQuestions(m, o, count)
    decreases count
  {
    if count > 0 {
      SkipNameStable(m, s, o, |m|, |m + s|);
      var o1 := SkipName(m, o, |m|).value;
      SkipQuestionsStable(m, s, o1 + 4, count - 1);
    }
  }

  lemma FieldsStable(m: Message, s: Message, o: nat)
    ensures o + 2 <= |m| ==> U16(m + s, o) == U16(m, o)
    ensures o + 4 <= |m| ==> U32(m + s, o) == U32(m, o)
  {
  }

  lemma {:induction false} FindParamStable(m: Message, s: Message, o: nat, end: nat)
    requires end <= |m|
    ensures FindParam(m + s, o, end) == FindParam(m, o, end)
    decreases end - o
  {
    if o + 4 <= end {
      FieldsStable(m, s, o);
      FieldsStable(m, s, o + 2);
      if o + 4 + U16(m, o + 2) <= end {
        FindParamStable(m, s, o + 4 + U16(m, o + 2), end);
      }
    }
  }

  lemma {:induction false} FindEchStable(m: Message, s: Message, o: nat, count: nat)
    requires FindEch(m, o, count).Ok?
    ensures FindEch(m + s, o, count) == FindEch(m, o, count)
    decreases count
  {
    SkipNameStable(m, s, o, |m|, |m + s|);
    var h := SkipName(m, o, |m|).value;
    FieldsStable(m, s, h);
    FieldsStable(m, s, h + 4);
    FieldsStable(m, s, h + 8);
    var start, end := h + 10, h + 10 + U16(m, h + 8);
    if U16(m, h) == HTTPS {
      SkipNameStable(m, s, start + 2, end, end);
      FindParamStable(m, s, SkipName(m, start + 2, end).value, end);
      if RdataEch(m, start, end) == Ok(None) {
        FindEchStable(m, s, end, count - 1);
      }
    } else {
      FindEchStable(m, s, end, count - 1);
    }
  }

  lemma LocateIsStable(m: Message, s: Message)
    requires Locate(m).Ok?
    ensures Locate(m + s) == Locate(m)
  {
    hide U16, U32, SkipQuestions, FindEch;
    FieldsStable(m, s, 2);
    FieldsStable(m, s, 4);
    FieldsStable(m, s, 6);
    SkipQuestionsStable(m, s, 12, U16(m, 4));
    FindEchStable(m, s, SkipQuestions(m, 12, U16(m, 4)).value, U16(m, 6));
  }

  lemma ParseIsStable(m: Message, s: Message)
    requires Parse(m).Ok?
    ensures Parse(m + s) == Parse(m)
  {
    LocateIsStable(m, s);
    LocateIsSound(m);
    hide Locate;
    var v := Locate(m).value.value;
    assert (m + s)[v.start..v.start + v.length] == m[v.start..v.start + v.length];
  }

  // ----- the loops

  method SkipNameInner(message: Message, offset: nat, end: nat) returns (r: Result<nat, DnsError>)
    requires |message| <= ISIZE_MAX && offset <= |message|
    ensures r == SkipName(message, offset, end)
  {
    var pos := offset;
    while true
      invariant SkipName(message, pos, end) == SkipName(message, offset, end)
      invariant pos <= |message| + 64
      decreases |message| - pos
    {
      if pos >= end || pos >= |message| {
        return Err(TruncatedName);
      }
      var len := message[pos];
      if len >= 192 {
        if pos + 1 >= end || pos + 1 >= |message| {
          return Err(TruncatedPointer);
        }
        return Ok(pos + 2);
      }
      if len >= 64 {
        return Err(UnsupportedLabel);
      }
      pos := pos + 1;
      if len == 0 {
        return Ok(pos);
      }
      assert pos + len <= USIZE_MAX; // checked_add cannot fail
      pos := pos + len;
    }
  }

  method ReadU16At(message: Message, offset: nat) returns (r: Result<nat, DnsError>, next: nat)
    requires offset <= |message| <= ISIZE_MAX
    ensures r == if offset + 2 <= |message| then Ok(U16(message, offset)) else Err(TruncatedField)
    ensures next == if r.Ok? then offset + 2 else offset
  {
    assert offset + 2 <= USIZE_MAX;
    if offset + 2 > |message| {
      return Err(TruncatedField), offset;
    }
    return Ok(message[offset] as nat * 256 + message[offset + 1] as nat), offset + 2;
  }

  method ParseRdata(message: Message, start: nat, end: nat) returns (r: Result<Option<Slice>, DnsError>)
    requires start <= end <= |message| <= ISIZE_MAX
    ensures r == RdataEch(message, start, end)
  {
    if start + 2 > |message| {
      return Err(TruncatedMessage);
    }
    var named := SkipNameInner(message, start + 2, end);
    if named.Err? {
      return Err(named.error);
    }
    SkipNameMoves(message, start + 2, end);
    var offset := named.value;
    while offset < end
      invariant offset <= end
      invariant FindParam(message, offset, end) == FindParam(message, named.value, end)
    {
      if end - offset < 4 {
        return Err(TruncatedParam);
      }
      var key, afterKey := ReadU16At(message, offset);
      var len, afterLen := ReadU16At(message, afterKey);
      assert afterLen + len.value <= USIZE_MAX;
      var valueEnd := afterLen + len.value;
      if valueEnd > end {
        return Err(ParamTooLong);
      }
      if key.value == ECH_KEY {
        return Ok(Some(Slice(afterLen, len.value)));
      }
      offset := valueEnd;
    }
    return Ok(None);
  }

  method ReadU32At(message: Message, offset: nat) returns (r: Result<nat, DnsError>, next: nat)
    requires offset <= |message| <= ISIZE_MAX
    ensures r == if offset + 4 <= |message| then Ok(U32(message, offset)) else Err(TruncatedField)
    ensures next == if r.Ok? then offset + 4 else offset
  {
    assert offset + 4 <= USIZE_MAX;
    if offset + 4 > |message| {
      return Err(TruncatedField), offset;
    }
    return Ok(65536 * U16(message, offset) + U16(message, offset + 2)), offset + 4;
  }

  /** The fixed part of one answer, from the end of its owner name. */
  method ReadRecord(message: Message, offset: nat) returns (r: Result<(nat, nat, Slice), DnsError>)
    requires offset <= |message| <= ISIZE_MAX
    ensures r == if offset + 10 > |message| then Err(TruncatedField)
                 else if offset + 10 + U16(message, offset + 8) > |message| then Err(RdataTooLong)
                 else Ok((U16(message, offset), U32(message, offset + 4), Slice(offset + 10, U16(message, offset + 8))))
  {
    var rrType, afterType := ReadU16At(message, offset);
    if rrType.Err? {
      return Err(rrType.error);
    }
    var class_, afterClass := ReadU16At(message, afterType);
    if class_.Err? {
      return Err(class_.error);
    }
    var ttl, afterTtl := ReadU32At(message, afterClass);
    if ttl.Err? {
      return Err(ttl.error);
    }
    var rdlen, rdataStart := ReadU16At(message, afterTtl);
    if rdlen.Err? {
      return Err(rdlen.error);
    }
    assert rdataStart + rdlen.value <= USIZE_MAX;
    if rdataStart + rdlen.value > |message| {
      return Err(RdataTooLong);
    }
    return Ok((rrType.value, ttl.value, Slice(rdataStart, rdlen.value)));
  }

  method SkipAllQuestions(message: Message, offset: nat, count: nat) returns (r: Result<nat, DnsError>)
    requires offset <= |message| <= ISIZE_MAX
    ensures r == SkipQuestions(message, offset, count)
    ensures r.Ok? ==> r.value <= |message|
  {
    var pos := offset;
    for i := 0 to count
      invariant 0 <= pos <= |message|
      invariant SkipQuestions(message, pos, count - i) == SkipQuestions(message, offset, count)
    {
      var named := SkipNameInner(message, pos, |message|);
      if named.Err? {
        return Err(named.error);
      }
      SkipNameMoves(message, pos, |message|);
      if named.value + 4 > |message| {
        return Err(TruncatedMessage);
      }
      pos := named.value + 4;
    }
    return Ok(pos);
  }

  method FindInAnswers(message: Message, offset: nat, count: nat) returns (r: Result<Found, DnsError>)
    requires offset <= |message| <= ISIZE_MAX
    ensures r == FindEch(message, offset, count)
  {
    var pos := offset;
    for i := 0 to count
      invariant 0 <= pos <= |message|
      invariant FindEch(message, pos, count - i) == FindEch(message, offset, count)
    {
      var named := SkipNameInner(message, pos, |message|);
      if named.Err? {
        return Err(named.error);
      }
      SkipNameMoves(message, pos, |message|);
      var record := ReadRecord(message, named.value);
      if record.Err? {
        return Err(record.error);
      }
      var (rrType, ttl, rdata) := record.value;
      if rrType == HTTPS {
        var ech := ParseRdata(message, rdata.start, rdata.start + rdata.length);
        if ech.Err? {
          return Err(ech.error);
        }
        if ech.value.Some? {
          return Ok(Found(ech.value.value, if ttl == 0 then DEFAULT_ECH_CACHE_TTL else ttl, rdata));
        }
      }
      pos := rdata.start + rdata.length;
    }
    return Err(NoEch);
  }

  method ParseResponse(message: Message) returns (r: Result<(seq<byte>, nat), DnsError>)
    requires |message| <= ISIZE_MAX
    ensures r == Parse(message)
  {
    if |message| < 12 {
      return Err(TooShort);
    }
    var flags, next := ReadU16At(message, 2);
    if flags.value < 0x8000 {
      return Err(NotResponse);
    }
    if flags.value % 16 != 0 {
      return Err(BadRcode(flags.value % 16));
    }
    var qdcount, afterQd := ReadU16At(message, 4);
    var ancount, afterAn := ReadU16At(message, 6);
    var offset := SkipAllQuestions(message, 12, qdcount.value);
    if offset.Err? {
      return Err(offset.error);
    }
    var found := FindInAnswers(message, offset.value, ancount.value);
    if found.Err? {
      return Err(found.error);
    }
    LocateIsSound(message);
    var value := found.value.value;
    return Ok((message[value.start..value.start + value.length], found.value.ttl));
  }
}
