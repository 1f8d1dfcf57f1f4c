/** A reference grammar for the requests the parser accepts, stated without any parser state, and
    the proof that the parser accepts exactly this language and reads it correctly.

    Body framing follows section 6.3 of RFC 9112 restricted to Content-Length bodies. */
module HttpGrammar {
  import opened Options
  import opened Text
  import opened HttpParsing

  /** A request on the wire: request line, header lines and body, without the line ends. */
  datatype Message = Message(line: string, fields: seq<string>, body: string)

  function EncodeFields(fields: seq<string>): string {
    if fields == [] then "" else fields[0] + CRLF + EncodeFields(fields[1..])
  }

  function Encode(m: Message): string {
    m.line + CRLF + (EncodeFields(m.fields) + (CRLF + m.body))
  }

  function FieldBytes(fields: seq<string>): nat {
    if fields == [] then 0 else |fields[0]| + 2 + FieldBytes(fields[1..])
  }

  /** `s` followed by a line end is one line: no line end starts inside `s`. */
  predicate OneLine(s: string) {
    FindCrlf(s + CRLF) == Some(|s|)
  }

  function Key(field: string): string {
    match FindColon(field)
    case None => ""
    case Some(colon) => Trim(field[..colon])
  }

  function Value(field: string): string {
    match FindColon(field)
    case None => ""
    case Some(colon) => Trim(field[colon + 1..])
  }

  predicate IsLength(field: string) {
    IEquals(Key(field), "Content-Length")
  }

  predicate IsCoding(field: string) {
    IEquals(Key(field), "Transfer-Encoding")
  }

  predicate ValidField(limits: Limits, field: string) {
    && field != "" && OneLine(field) && Key(field) != ""
    && (IsLength(field) ==> ParseSize(Value(field)).Some? && ParseSize(Value(field)).value <= limits.bodyBytes)
    && (IsCoding(field) ==> IEquals(Value(field), "identity"))
  }

  predicate ValidLine(limits: Limits, line: string) {
    && OneLine(line) && |line| <= limits.requestLineBytes
    && |Words(line)| == 3 && SupportedVersion(Words(line)[2])
  }

  /** The field says that the length is `n`, if it says anything about it. */
  predicate LengthIs(field: string, n: nat) {
    IsLength(field) ==> ParseSize(Value(field)) == Some(n)
  }

  /** Every Content-Length line says `n`. */
  predicate LengthsAre(fields: seq<string>, n: nat) {
    forall i :: 0 <= i < |fields| ==> LengthIs(fields[i], n)
  }

  predicate HasLength(fields: seq<string>) {
    exists i :: 0 <= i < |fields| && IsLength(fields[i])
  }

  predicate Accepts(limits: Limits, m: Message) {
    && ValidLine(limits, m.line)
    && (forall i :: 0 <= i < |m.fields| ==> ValidField(limits, m.fields[i]))
    && FieldBytes(m.fields) + 2 <= limits.headerBytes
    && LengthsAre(m.fields, |m.body|)
    && (!HasLength(m.fields) ==> m.body == "")
  }

  function HeaderMap(headers: map<string, string>, fields: seq<string>): map<string, string>
    decreases |fields|
  {
    if fields == [] then headers else HeaderMap(headers[Key(fields[0]) := Value(fields[0])], fields[1..])
  }

  function RequestOf(m: Message): Request
    requires |Words(m.line)| == 3
  {
    var words := Words(m.line);
    Request(words[0], words[1], words[2], HeaderMap(map[], m.fields), m.body)
  }

  // ---------------------------------------------------------------- lines

  lemma OneLineFound(line: string, rest: string)
    requires OneLine(line)
    ensures var s := line + CRLF + rest;
      FindCrlf(s) == Some(|line|) && s[..|line|] == line && s[|line| + 2..] == rest
  {
    FindCrlfExtended(line + CRLF, rest);
  }

  lemma FoundIsOneLine(s: string, end: nat)
    requires FindCrlf(s) == Some(end)
    ensures OneLine(s[..end]) && s == s[..end] + CRLF + s[end + 2..]
  {
    var line := s[..end];
    var c := line + CRLF;
    assert CrlfAt(c, end);
    forall j: nat | j < end ensures !CrlfAt(c, j) {
      assert !CrlfAt(s, j);
    }
  }

  lemma NoReturnIsOneLine(line: string)
    requires '\r' !in line
    ensures OneLine(line)
  {
    var c := line + CRLF;
    assert CrlfAt(c, |line|);
    forall j: nat | j < |line| ensures !CrlfAt(c, j) {
      assert c[j] == line[j];
    }
  }

  /** The customary request line: three words with single spaces between them. */
  function CanonicalLine(verb: string, path: string, version: string): string {
    verb + " " + (path + " " + version)
  }

  /** Such a line is accepted iff it is within the limit and its version is 1.0 or 1.1. */
  lemma CanonicalLineValid(limits: Limits, verb: string, path: string, version: string)
    requires IsWord(verb) && IsWord(path) && IsWord(version)
    ensures Words(CanonicalLine(verb, path, version)) == [verb, path, version]
    ensures ValidLine(limits, CanonicalLine(verb, path, version)) <==>
      && |CanonicalLine(verb, path, version)| <= limits.requestLineBytes
      && (version == "HTTP/1.0" || version == "HTTP/1.1")
  {
    WordsSpaced(verb, path + " " + version);
    WordsSpaced(path, version);
    WordsSingle(version);
    WordsHaveNoReturn(verb, path, version);
    NoReturnIsOneLine(CanonicalLine(verb, path, version));
  }

  lemma WordsHaveNoReturn(verb: string, path: string, version: string)
    requires IsWord(verb) && IsWord(path) && IsWord(version)
    ensures '\r' !in CanonicalLine(verb, path, version)
  {
  }

  // ---------------------------------------------------------------- fields as they are usually written

  function Field(key: string, value: string): string {
    key + ": " + value
  }

  lemma {:induction false} ColonAfter(key: string, rest: string)
    requires ':' !in key
    ensures FindColon(key + ":" + rest) == Some(|key|)
  {
    var s := key + ":" + rest;
    if key != "" {
      ColonAfter(key[1..], rest);
      assert s[1..] == key[1..] + ":" + rest;
      assert key == [key[0]] + key[1..];
    }
  }

  lemma TrimmedStays(s: string)
    requires Trimmed(s)
    ensures Trim(s) == s && Trim(" " + s) == s
  {
    assert (" " + s)[1..] == s;
    assert TrimLeft(" " + s) == TrimLeft(s) == s;
  }

  /** A key or a value that the parser reads as it is written. */
  predicate Simple(s: string) {
    Trimmed(s) && ':' !in s && '\r' !in s
  }

  lemma FieldParts(key: string, value: string)
    requires Simple(key) && Simple(value)
    ensures Key(Field(key, value)) == key && Value(Field(key, value)) == value && OneLine(Field(key, value))
  {
    var field := Field(key, value);
    assert field == key + ":" + (" " + value);
    ColonAfter(key, " " + value);
    assert field[..|key|] == key && field[|key| + 1..] == " " + value;
    TrimmedStays(key);
    TrimmedStays(value);
    NoReturnIsOneLine(field);
  }

  lemma VariantIsSimple(key: string, name: string)
    requires VariantOf(key, name) && Simple(name)
    ensures Simple(key)
  {
    forall i | 0 <= i < |key|
      ensures key[i] != ':' && key[i] != '\r'
      ensures key[i] as int in BLANK_CODES <==> name[i] as int in BLANK_CODES
    {
      assert SameButCase(key[i], name[i]) && name[i] in name;
    }
  }

  lemma DigitsAreSimple(s: string)
    requires AllDigits(s) && s != ""
    ensures Simple(s)
  {
  }

  /** A Content-Length line, its name in any case, fixes the length of the body. */
  lemma LengthDecides(limits: Limits, m: Message, i: nat, key: string, n: nat)
    requires Accepts(limits, m) && i < |m.fields| && m.fields[i] == Field(key, ToDecimal(n))
    requires VariantOf(key, "Content-Length") && n <= SIZE_MAX
    ensures |m.body| == n
  {
    LengthIsSimple(key);
    DigitsAreSimple(ToDecimal(n));
    FieldParts(key, ToDecimal(n));
    IEqualsIff(key, "Content-Length");
    ParseSizeRoundTrip(n);
    assert LengthIs(m.fields[i], |m.body|);
  }

  lemma LengthIsSimple(key: string)
    requires VariantOf(key, "Content-Length")
    ensures Simple(key)
  {
    VariantIsSimple(key, "Content-Length");
  }

  // ---------------------------------------------------------------- one field

  /** What an accepted field does to the parser. */
  function Absorb(p: Parser, field: string): Parser {
    var size := ParseSize(Value(field));
    p.(headerBytes := p.headerBytes + |field| + 2,
       request := p.request.(headers := p.request.headers[Key(field) := Value(field)]),
       contentLengthSeen := p.contentLengthSeen || IsLength(field),
       contentLength := if IsLength(field) && size.Some? then size.value else p.contentLength)
  }

  /** The field does not contradict a Content-Length seen before. */
  predicate Agrees(p: Parser, field: string) {
    IsLength(field) && p.contentLengthSeen ==> ParseSize(Value(field)) == Some(p.contentLength)
  }

  lemma NotBoth(key: string)
    ensures !(IEquals(key, "Content-Length") && IEquals(key, "Transfer-Encoding"))
  {
  }

  /** The parser takes a field exactly when it is valid and agrees with what it has seen. */
  lemma FieldIff(limits: Limits, p: Parser, field: string)
    requires field != "" && OneLine(field)
    ensures var p' := p.(headerBytes := p.headerBytes + |field| + 2);
      ParseField(limits, p', field) ==
        if ValidField(limits, field) && Agrees(p, field) then Some(Absorb(p, field)) else None
  {
    match FindColon(field)
    case None =>
    case Some(colon) => NotBoth(Key(field));
  }

  // ---------------------------------------------------------------- the header block

  function AbsorbAll(p: Parser, fields: seq<string>): Parser
    decreases |fields|
  {
    if fields == [] then p else AbsorbAll(Absorb(p, fields[0]), fields[1..])
  }

  predicate AgreeAll(p: Parser, fields: seq<string>)
    decreases |fields|
  {
    fields != [] ==> Agrees(p, fields[0]) && AgreeAll(Absorb(p, fields[0]), fields[1..])
  }

  ghost predicate ValidFields(limits: Limits, fields: seq<string>) {
    forall i :: 0 <= i < |fields| ==> ValidField(limits, fields[i])
  }

  /** The parser at the blank line. */
  function EndHeaders(p: Parser): Parser {
    p.(headerBytes := p.headerBytes + 2, phase := if p.contentLength == 0 then Done else Body)
  }

  lemma FieldRead(limits: Limits, p: Parser, field: string, rest: string)
    requires ValidField(limits, field) && Agrees(p, field) && p.headerBytes + |field| + 2 <= limits.headerBytes
    ensures HeaderLine(limits, p, field + CRLF + rest) == NextLine(Absorb(p, field), rest)
  {
    OneLineFound(field, rest);
    FieldIff(limits, p, field);
  }

  lemma BlankLineRead(limits: Limits, p: Parser, rest: string)
    requires p.headerBytes + 2 <= limits.headerBytes
    ensures HeaderLine(limits, p, CRLF + rest) == LastLine(EndHeaders(p), rest)
  {
    assert OneLine("");
    OneLineFound("", rest);
    assert "" + CRLF + rest == CRLF + rest;
  }

  lemma {:induction false} HeadersRead(limits: Limits, p: Parser, fields: seq<string>, rest: string)
    requires ValidFields(limits, fields) && AgreeAll(p, fields)
    requires p.headerBytes + FieldBytes(fields) + 2 <= limits.headerBytes
    ensures ParseHeaders(limits, p, EncodeFields(fields) + (CRLF + rest)) ==
      Outcome(Incomplete, EndHeaders(AbsorbAll(p, fields)), rest)
    decreases |fields|
  {
    if fields == [] {
      BlankLineRead(limits, p, rest);
      assert EncodeFields(fields) + (CRLF + rest) == CRLF + rest;
    } else {
      FirstHeaderRead(limits, p, fields, CRLF + rest);
      HeadersRead(limits, Absorb(p, fields[0]), fields[1..], rest);
    }
  }

  lemma FirstHeaderRead(limits: Limits, p: Parser, fields: seq<string>, tail: string)
    requires fields != [] && ValidField(limits, fields[0]) && Agrees(p, fields[0])
    requires p.headerBytes + |fields[0]| + 2 <= limits.headerBytes
    ensures ParseHeaders(limits, p, EncodeFields(fields) + tail) ==
      ParseHeaders(limits, Absorb(p, fields[0]), EncodeFields(fields[1..]) + tail)
  {
    var more := EncodeFields(fields[1..]) + tail;
    assert EncodeFields(fields) + tail == fields[0] + CRLF + more;
    FieldRead(limits, p, fields[0], more);
  }

  /** A turn of the header loop that does not fail has read one line of the grammar. */
  lemma LineWritten(limits: Limits, p: Parser, s: string)
    ensures match HeaderLine(limits, p, s)
      case LastLine(q, rest) => s == CRLF + rest && q == EndHeaders(p) && p.headerBytes + 2 <= limits.headerBytes
      case NextLine(q, rest) =>
        exists field :: s == field + CRLF + rest && ValidField(limits, field) && Agrees(p, field)
          && q == Absorb(p, field)
      case _ => true
  {
    if FindCrlf(s).Some? {
      var end := FindCrlf(s).value;
      FoundIsOneLine(s, end);
      if end > 0 {
        FieldIff(limits, p, s[..end]);
      }
    }
  }

  lemma FieldAndMore(limits: Limits, p: Parser, field: string, more: seq<string>, rest: string)
    requires ValidField(limits, field) && ValidFields(limits, more)
    ensures var fields := [field] + more;
      && ValidFields(limits, fields)
      && EncodeFields(fields) + (CRLF + rest) == field + CRLF + (EncodeFields(more) + (CRLF + rest))
      && FieldBytes(fields) == |field| + 2 + FieldBytes(more)
      && AbsorbAll(p, fields) == AbsorbAll(Absorb(p, field), more)
      && (AgreeAll(p, fields) <==> Agrees(p, field) && AgreeAll(Absorb(p, field), more))
  {
    assert ([field] + more)[1..] == more;
  }

  lemma {:induction false} HeadersWritten(limits: Limits, p: Parser, s: string) returns (fields: seq<string>)
    requires p.phase == Headers
    requires var o := ParseHeaders(limits, p, s); o.verdict == Incomplete && o.parser.phase != Headers
    ensures var o := ParseHeaders(limits, p, s);
      && s == EncodeFields(fields) + (CRLF + o.rest)
      && ValidFields(limits, fields) && AgreeAll(p, fields)
      && p.headerBytes + FieldBytes(fields) + 2 <= limits.headerBytes
      && o.parser == EndHeaders(AbsorbAll(p, fields))
    decreases |s|
  {
    LineWritten(limits, p, s);
    match HeaderLine(limits, p, s)
    case LastLine(q, rest) =>
      fields := [];
      assert s == "" + (CRLF + rest);
    case NextLine(q, rest) =>
      var field :| s == field + CRLF + rest && ValidField(limits, field) && Agrees(p, field) && q == Absorb(p, field);
      var more := HeadersWritten(limits, q, rest);
      fields := [field] + more;
      FieldAndMore(limits, p, field, more, ParseHeaders(limits, p, s).rest);
  }

  // ---------------------------------------------------------------- lengths

  /** Absorbing fields that all say `n` leaves exactly `n`, or nothing if none says anything. */
  lemma {:induction false} AbsorbedLength(p: Parser, fields: seq<string>, n: nat)
    requires LengthsAre(fields, n) && (p.contentLengthSeen ==> p.contentLength == n)
    ensures AgreeAll(p, fields)
    ensures var q := AbsorbAll(p, fields);
      && q.contentLengthSeen == (p.contentLengthSeen || HasLength(fields))
      && q.contentLength == (if q.contentLengthSeen then n else p.contentLength)
    decreases |fields|
  {
    if fields != [] {
      assert IsLength(fields[0]) ==> ParseSize(Value(fields[0])) == Some(n);
      AbsorbedLength(Absorb(p, fields[0]), fields[1..], n);
      HasLengthSplit(fields);
    }
  }

  lemma HasLengthSplit(fields: seq<string>)
    requires fields != []
    ensures HasLength(fields) <==> IsLength(fields[0]) || HasLength(fields[1..])
  {
    if HasLength(fields[1..]) {
      var i :| 0 <= i < |fields[1..]| && IsLength(fields[1..][i]);
      assert IsLength(fields[i + 1]);
    }
    if HasLength(fields) && !IsLength(fields[0]) {
      var i :| 0 <= i < |fields| && IsLength(fields[i]);
      assert IsLength(fields[1..][i - 1]);
    }
  }

  /** A block whose fields agree one after the other has one common length. */
  lemma {:induction false} CommonLength(limits: Limits, p: Parser, fields: seq<string>)
    requires ValidFields(limits, fields) && AgreeAll(p, fields)
    ensures var q := AbsorbAll(p, fields);
      && LengthsAre(fields, q.contentLength)
      && (p.contentLengthSeen ==> q.contentLength == p.contentLength)
      && (!p.contentLengthSeen && !HasLength(fields) ==> q.contentLength == p.contentLength)
      && (q.contentLength <= limits.bodyBytes || q.contentLength == p.contentLength)
    decreases |fields|
  {
    if fields != [] {
      var first, rest := fields[0], fields[1..];
      assert ValidField(limits, first);
      CommonLength(limits, Absorb(p, first), rest);
      HasLengthSplit(fields);
      LengthsSplit(fields, AbsorbAll(p, fields).contentLength);
    }
  }

  lemma LengthsSplit(fields: seq<string>, n: nat)
    requires fields != [] && LengthsAre(fields[1..], n) && LengthIs(fields[0], n)
    ensures LengthsAre(fields, n)
  {
    forall i | 0 <= i < |fields| ensures LengthIs(fields[i], n) {
      assert 0 < i ==> fields[i] == fields[1..][i - 1];
    }
  }

  lemma {:induction false} AbsorbedRest(p: Parser, fields: seq<string>)
    ensures var q := AbsorbAll(p, fields);
      && q.phase == p.phase
      && q.request == p.request.(headers := HeaderMap(p.request.headers, fields))
    decreases |fields|
  {
    if fields != [] {
      AbsorbedRest(Absorb(p, fields[0]), fields[1..]);
    }
  }

  // ---------------------------------------------------------------- whole requests

  lemma RequestLineIff(limits: Limits, line: string, rest: string)
    requires OneLine(line)
    ensures var o := ParseRequestLine(limits, START, line + CRLF + rest);
      if ValidLine(limits, line) then
        o == Outcome(Incomplete, START.(phase := Headers, request := WithWords(START.request, Words(line))), rest)
      else o.verdict == Error
  {
    OneLineFound(line, rest);
  }

  lemma EncodeWithRest(m: Message, rest: string)
    ensures Encode(m) + rest == m.line + CRLF + (EncodeFields(m.fields) + (CRLF + (m.body + rest)))
  {
    var e := EncodeFields(m.fields);
    assert Encode(m) + rest == m.line + CRLF + (e + (CRLF + m.body) + rest);
    assert e + (CRLF + m.body) + rest == e + (CRLF + (m.body + rest));
  }

  /** A call that gets past the header block continues with the body. */
  lemma PastHeaders(limits: Limits, s: string)
    requires var l := ParseRequestLine(limits, START, s); l.verdict == Incomplete && l.parser.phase == Headers
    requires var l := ParseRequestLine(limits, START, s);
      var h := ParseHeaders(limits, l.parser, l.rest); h.verdict == Incomplete && h.parser.phase != Headers
    ensures var l := ParseRequestLine(limits, START, s);
      var h := ParseHeaders(limits, l.parser, l.rest); Parse(limits, START, s) == Parse(limits, h.parser, h.rest)
  {
    var l := ParseRequestLine(limits, START, s);
    assert Handle(limits, START, s) == l;
    assert Parse(limits, START, s) == Parse(limits, l.parser, l.rest);
    assert Handle(limits, l.parser, l.rest) == ParseHeaders(limits, l.parser, l.rest);
  }

  /** A complete call has got past the header block. */
  lemma CompletePassesHeaders(limits: Limits, s: string)
    requires Parse(limits, START, s).verdict == Complete
    ensures var l := ParseRequestLine(limits, START, s);
      && l.verdict == Incomplete && l.parser.phase == Headers
      && var h := ParseHeaders(limits, l.parser, l.rest); h.verdict == Incomplete && h.parser.phase != Headers
  {
    var l := ParseRequestLine(limits, START, s);
    assert Handle(limits, START, s) == l;
    assert l.verdict == Incomplete && l.parser.phase == Headers;
    assert Handle(limits, l.parser, l.rest) == ParseHeaders(limits, l.parser, l.rest);
  }

  /** Completeness: the encoding of an acceptable message is accepted, read as that message, and
      exactly its bytes are consumed. */
  lemma AcceptedIsParsed(limits: Limits, m: Message, rest: string)
    requires Accepts(limits, m)
    ensures var o := Parse(limits, START, Encode(m) + rest);
      o.verdict == Complete && o.parser.phase == Done && o.parser.request == RequestOf(m) && o.rest == rest
  {
    EncodeWithRest(m, rest);
    RequestLineIff(limits, m.line, EncodeFields(m.fields) + (CRLF + (m.body + rest)));
    var p := ParseRequestLine(limits, START, Encode(m) + rest).parser;
    AbsorbedLength(p, m.fields, |m.body|);
    AbsorbedRest(p, m.fields);
    HeadersRead(limits, p, m.fields, m.body + rest);
    PastHeaders(limits, Encode(m) + rest);
    BodyWithinLimit(limits, m);
    BodyRead(limits, m.body, EndHeaders(AbsorbAll(p, m.fields)), rest);
  }

  lemma BodyRead(limits: Limits, body: string, q: Parser, rest: string)
    requires |body| <= limits.bodyBytes && q.contentLength == |body| && q.request.body == ""
    requires q.phase == if |body| == 0 then Done else Body
    ensures var o := Parse(limits, q, body + rest);
      o.verdict == Complete && o.parser.phase == Done && o.parser.request == q.request.(body := body) && o.rest == rest
  {
    if body == "" {
      assert body + rest == rest;
    } else {
      assert (body + rest)[..|body|] == body && (body + rest)[|body|..] == rest;
    }
  }

  lemma BodyWithinLimit(limits: Limits, m: Message)
    requires Accepts(limits, m)
    ensures |m.body| <= limits.bodyBytes
  {
    if HasLength(m.fields) {
      var i :| 0 <= i < |m.fields| && IsLength(m.fields[i]);
      assert ValidField(limits, m.fields[i]);
    }
  }

  lemma BodyWritten(limits: Limits, q: Parser, s: string) returns (body: string)
    requires q.phase == Body || (q.phase == Done && q.contentLength == 0 && q.request.body == "")
    requires Parse(limits, q, s).verdict == Complete
    ensures s == body + Parse(limits, q, s).rest && |body| == q.contentLength
    ensures Parse(limits, q, s).parser.request == q.request.(body := body)
  {
    assert q.contentLength <= |s|;
    body := s[..q.contentLength];
  }

  lemma RequestLineWritten(limits: Limits, s: string) returns (line: string)
    requires var l := ParseRequestLine(limits, START, s); l.verdict == Incomplete && l.parser.phase == Headers
    ensures var l := ParseRequestLine(limits, START, s);
      && ValidLine(limits, line) && s == line + CRLF + l.rest
      && l.parser == START.(phase := Headers, request := WithWords(START.request, Words(line)))
  {
    var end := FindCrlf(s).value;
    FoundIsOneLine(s, end);
    line := s[..end];
    RequestLineIff(limits, line, s[end + 2..]);
  }

  /** A header block and a body that are read to the end, from a parser that has seen no field yet. */
  lemma BlockWritten(limits: Limits, p: Parser, s: string) returns (fields: seq<string>, body: string)
    requires p.phase == Headers && p.headerBytes == p.contentLength == 0 && !p.contentLengthSeen && p.request.body == ""
    requires var h := ParseHeaders(limits, p, s);
      h.verdict == Incomplete && h.parser.phase != Headers && Parse(limits, h.parser, h.rest).verdict == Complete
    ensures var h := ParseHeaders(limits, p, s);
      var o := Parse(limits, h.parser, h.rest);
      && s == EncodeFields(fields) + (CRLF + (body + o.rest))
      && o.parser.request == p.request.(headers := HeaderMap(p.request.headers, fields), body := body)
    ensures ValidFields(limits, fields) && FieldBytes(fields) + 2 <= limits.headerBytes
    ensures LengthsAre(fields, |body|) && (!HasLength(fields) ==> body == "")
  {
    var h := ParseHeaders(limits, p, s);
    fields := HeadersWritten(limits, p, s);
    FieldsAbsorbed(limits, p, fields, h.parser);
    body := BodyWritten(limits, h.parser, h.rest);
  }

  lemma FieldsAbsorbed(limits: Limits, p: Parser, fields: seq<string>, q: Parser)
    requires p.phase == Headers && p.contentLength == 0 && !p.contentLengthSeen && q == EndHeaders(AbsorbAll(p, fields))
    requires ValidFields(limits, fields) && AgreeAll(p, fields)
    ensures LengthsAre(fields, q.contentLength) && (!HasLength(fields) ==> q.contentLength == 0)
    ensures q.request == p.request.(headers := HeaderMap(p.request.headers, fields))
    ensures q.phase == if q.contentLength == 0 then Done else Body
  {
    CommonLength(limits, p, fields);
    AbsorbedRest(p, fields);
  }

  /** Soundness: whatever is accepted is the encoding of an acceptable message followed by the
      bytes left in the buffer. */
  lemma ParsedIsAccepted(limits: Limits, s: string) returns (m: Message)
    requires Parse(limits, START, s).verdict == Complete
    ensures Accepts(limits, m)
    ensures s == Encode(m) + Parse(limits, START, s).rest
    ensures Parse(limits, START, s).parser.request == RequestOf(m)
  {
    CompletePassesHeaders(limits, s);
    PastHeaders(limits, s);
    var l := ParseRequestLine(limits, START, s);
    var line := RequestLineWritten(limits, s);
    var fields, body := BlockWritten(limits, l.parser, l.rest);
    m := Message(line, fields, body);
    EncodeWithRest(m, Parse(limits, START, s).rest);
  }

  /** The parser accepts exactly the reference language: request, residue and all. */
  lemma AcceptsExactly(limits: Limits, s: string, request: Request, rest: string)
    ensures (var o := Parse(limits, START, s); o.verdict == Complete && o.parser.request == request && o.rest == rest)
      <==> exists m :: Accepts(limits, m) && s == Encode(m) + rest && request == RequestOf(m)
  {
    var o := Parse(limits, START, s);
    if o.verdict == Complete {
      var m := ParsedIsAccepted(limits, s);
    }
    forall m | Accepts(limits, m) && s == Encode(m) + rest && request == RequestOf(m)
      ensures o.verdict == Complete && o.parser.request == request && o.rest == rest
    {
      AcceptedIsParsed(limits, m, rest);
    }
  }
}
