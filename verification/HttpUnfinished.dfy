/** Which streams the parser waits on, stated without any parser state: together with the accepted
    language this fixes its verdict on every stream, since what is neither is refused. */
module HttpUnfinished {
  import opened Options
  import opened Text
  import opened HttpParsing
  import opened HttpGrammar

  /** A request that has not arrived whole. `text` is what has arrived of the request line, of the
      next header line or of the body; the Content-Length lines among `fields`, if any, say `n`. */
  datatype Unfinished =
    | InLine(text: string)
    | InHead(line: string, fields: seq<string>, n: nat, text: string)
    | InBody(line: string, fields: seq<string>, n: nat, text: string)

  function Arrived(u: Unfinished): string {
    match u
    case InLine(text) => text
    case InHead(line, fields, _, text) => line + CRLF + (EncodeFields(fields) + text)
    case InBody(line, fields, _, text) => line + CRLF + (EncodeFields(fields) + (CRLF + text))
  }

  /** The request is still within the limits, and nothing in it is wrong so far. */
  ghost predicate Waits(limits: Limits, u: Unfinished) {
    match u
    case InLine(text) => FindCrlf(text) == None && |text| <= limits.requestLineBytes
    case InHead(line, fields, n, text) =>
      && ValidLine(limits, line) && ValidFields(limits, fields) && LengthsAre(fields, n)
      && FindCrlf(text) == None && FieldBytes(fields) + |text| <= limits.headerBytes
    case InBody(line, fields, n, text) =>
      && ValidLine(limits, line) && ValidFields(limits, fields) && LengthsAre(fields, n) && HasLength(fields)
      && FieldBytes(fields) + 2 <= limits.headerBytes && |text| < n
  }

  // ---------------------------------------------------------------- what is waited on

  lemma {:induction false} HeadOpen(limits: Limits, p: Parser, fields: seq<string>, text: string)
    requires ValidFields(limits, fields) && AgreeAll(p, fields) && FindCrlf(text) == None
    requires p.headerBytes + FieldBytes(fields) + |text| <= limits.headerBytes
    ensures ParseHeaders(limits, p, EncodeFields(fields) + text) == Outcome(Incomplete, AbsorbAll(p, fields), text)
    decreases |fields|
  {
    if fields == [] {
      assert EncodeFields(fields) + text == text;
    } else {
      FirstHeaderRead(limits, p, fields, text);
      HeadOpen(limits, Absorb(p, fields[0]), fields[1..], text);
    }
  }

  /** The call goes on behind a valid request line. */
  lemma PastLine(limits: Limits, line: string, rest: string) returns (p: Parser)
    requires ValidLine(limits, line)
    ensures p == START.(phase := Headers, request := WithWords(START.request, Words(line)))
    ensures ParseRequestLine(limits, START, line + CRLF + rest) == Outcome(Incomplete, p, rest)
    ensures Parse(limits, START, line + CRLF + rest) == Parse(limits, p, rest)
  {
    RequestLineIff(limits, line, rest);
    p := START.(phase := Headers, request := WithWords(START.request, Words(line)));
    assert Handle(limits, START, line + CRLF + rest) == Outcome(Incomplete, p, rest);
  }

  lemma HeadIsIncomplete(limits: Limits, u: Unfinished)
    requires Waits(limits, u) && u.InHead?
    ensures Parse(limits, START, Arrived(u)).verdict == Incomplete
  {
    var rest := EncodeFields(u.fields) + u.text;
    var p := PastLine(limits, u.line, rest);
    AbsorbedLength(p, u.fields, u.n);
    AbsorbedRest(p, u.fields);
    HeadOpen(limits, p, u.fields, u.text);
    assert Handle(limits, p, rest) == ParseHeaders(limits, p, rest);
  }

  lemma BodyIsIncomplete(limits: Limits, u: Unfinished)
    requires Waits(limits, u) && u.InBody?
    ensures Parse(limits, START, Arrived(u)).verdict == Incomplete
  {
    var rest := EncodeFields(u.fields) + (CRLF + u.text);
    var p := PastLine(limits, u.line, rest);
    AbsorbedLength(p, u.fields, u.n);
    HeadersRead(limits, p, u.fields, u.text);
    LengthWithinLimit(limits, u.fields, u.n);
    var q := EndHeaders(AbsorbAll(p, u.fields));
    assert q.contentLength == u.n && q.phase == Body;
    assert Handle(limits, p, rest) == Outcome(Incomplete, q, u.text);
    assert Handle(limits, q, u.text) == Outcome(Incomplete, q, u.text);
  }

  lemma LengthWithinLimit(limits: Limits, fields: seq<string>, n: nat)
    requires ValidFields(limits, fields) && LengthsAre(fields, n) && HasLength(fields)
    ensures n <= limits.bodyBytes
  {
    var i :| 0 <= i < |fields| && IsLength(fields[i]);
    assert ValidField(limits, fields[i]) && LengthIs(fields[i], n);
  }

  lemma WaitingIsIncomplete(limits: Limits, u: Unfinished)
    requires Waits(limits, u)
    ensures Parse(limits, START, Arrived(u)).verdict == Incomplete
  {
    match u
    case InLine(text) => assert Handle(limits, START, text) == Outcome(Incomplete, START, text);
    case InHead(_, _, _, _) => HeadIsIncomplete(limits, u);
    case InBody(_, _, _, _) => BodyIsIncomplete(limits, u);
  }

  // ---------------------------------------------------------------- and nothing else

  lemma OneFieldMore(limits: Limits, p: Parser, field: string, more: seq<string>, text: string)
    requires ValidField(limits, field) && ValidFields(limits, more)
    ensures var fields := [field] + more;
      && ValidFields(limits, fields) && FieldBytes(fields) == |field| + 2 + FieldBytes(more)
      && EncodeFields(fields) + text == field + CRLF + (EncodeFields(more) + text)
      && (AgreeAll(p, fields) <==> Agrees(p, field) && AgreeAll(Absorb(p, field), more))
  {
    assert ([field] + more)[1..] == more;
  }

  /** A header loop that stops for lack of bytes has read fields and the beginning of a line. */
  lemma {:induction false} HeadLeft(limits: Limits, p: Parser, s: string) returns (fields: seq<string>, text: string)
    requires p.phase == Headers
    requires var o := ParseHeaders(limits, p, s); o.verdict == Incomplete && o.parser.phase == Headers
    ensures s == EncodeFields(fields) + text && ValidFields(limits, fields) && AgreeAll(p, fields)
    ensures FindCrlf(text) == None && p.headerBytes + FieldBytes(fields) + |text| <= limits.headerBytes
    decreases |s|
  {
    LineWritten(limits, p, s);
    match HeaderLine(limits, p, s)
    case NeedMore =>
      fields, text := [], s;
      assert EncodeFields([]) + s == s;
    case NextLine(q, rest) =>
      var field :| s == field + CRLF + rest && ValidField(limits, field) && Agrees(p, field) && q == Absorb(p, field);
      var more;
      more, text := HeadLeft(limits, q, rest);
      fields := [field] + more;
      OneFieldMore(limits, p, field, more, text);
  }

  lemma BlockUnfinished(limits: Limits, p: Parser, line: string, s: string) returns (u: Unfinished)
    requires ValidLine(limits, line) && p == START.(phase := Headers, request := WithWords(START.request, Words(line)))
    requires Parse(limits, p, s).verdict == Incomplete
    ensures Waits(limits, u) && Arrived(u) == line + CRLF + s
  {
    var h := ParseHeaders(limits, p, s);
    assert Handle(limits, p, s) == h;
    if h.parser.phase == Headers {
      var fields, text := HeadLeft(limits, p, s);
      CommonLength(limits, p, fields);
      u := InHead(line, fields, AbsorbAll(p, fields).contentLength, text);
    } else {
      var fields := HeadersWritten(limits, p, s);
      FieldsAbsorbed(limits, p, fields, h.parser);
      assert Parse(limits, p, s) == Parse(limits, h.parser, h.rest);
      assert h.parser.phase == Body && Handle(limits, h.parser, h.rest) == ParseBody(limits, h.parser, h.rest);
      u := InBody(line, fields, h.parser.contentLength, h.rest);
    }
  }

  lemma IncompleteIsWaiting(limits: Limits, s: string) returns (u: Unfinished)
    requires Parse(limits, START, s).verdict == Incomplete
    ensures Waits(limits, u) && Arrived(u) == s
  {
    var l := ParseRequestLine(limits, START, s);
    assert Handle(limits, START, s) == l;
    if l.parser.phase == Headers {
      var line := RequestLineWritten(limits, s);
      u := BlockUnfinished(limits, l.parser, line, l.rest);
    } else {
      u := InLine(s);
    }
  }

  /** The verdict on every stream: complete for a message of the grammar, incomplete for an
      unfinished request, and an error for everything else. */
  lemma VerdictExactly(limits: Limits, s: string)
    ensures Parse(limits, START, s).verdict ==
      if exists m, rest :: Accepts(limits, m) && s == Encode(m) + rest then Complete
      else if exists u :: Waits(limits, u) && Arrived(u) == s then Incomplete
      else Error
  {
    var o := Parse(limits, START, s);
    if m, rest :| Accepts(limits, m) && s == Encode(m) + rest {
      AcceptedIsParsed(limits, m, rest);
    } else if u :| Waits(limits, u) && Arrived(u) == s {
      WaitingIsIncomplete(limits, u);
    } else if o.verdict == Complete {
      var m := ParsedIsAccepted(limits, s);
      assert false;
    } else if o.verdict == Incomplete {
      var u := IncompleteIsWaiting(limits, s);
      assert false;
    }
  }
}
