/** What the HTTP server writes, and how a client that goes by the declared lengths reads it. */
module HttpReplies {
  import opened Options
  import opened Text
  import opened HttpParsing
  import opened HttpFragments
  import opened HttpGrammar

  /** An echo of a request, or a final 400. */
  datatype Reply = Echo(request: Request) | BadRequest

  function ReplyBody(reply: Reply): string {
    match reply
    case Echo(request) => "method=" + request.verb + " path=" + request.path + "\n" + request.body
    case BadRequest => ""
  }

  /** The text of the reply. */
  function Render(reply: Reply): string {
    match reply
    case Echo(_) =>
      "HTTP/1.1 200 OK" + CRLF
      + Field("Content-Type", "text/plain") + CRLF
      + Field("Content-Length", ToDecimal(|ReplyBody(reply)|)) + CRLF
      + Field("Connection", "keep-alive") + CRLF
      + CRLF + ReplyBody(reply)
    case BadRequest =>
      "HTTP/1.1 400 Bad Request" + CRLF
      + Field("Content-Length", ToDecimal(0)) + CRLF
      + Field("Connection", "close") + CRLF
      + CRLF + ReplyBody(reply)
  }

  function Texts(replies: seq<Reply>): seq<string> {
    seq(|replies|, i requires 0 <= i < |replies| => Render(replies[i]))
  }

  /** What the socket gets of the texts, if `writes` of them can be written whole and `partial`
      bytes of the next one. */
  function Delivered(texts: seq<string>, writes: nat, partial: nat): string {
    if |texts| <= writes then Joined(texts) else Joined(texts[..writes]) + Prefix(texts[writes], partial)
  }

  function Prefix(s: string, n: nat): string {
    if n < |s| then s[..n] else s
  }

  lemma {:induction false} JoinedAppend(texts: seq<string>, text: string)
    ensures Joined(texts + [text]) == Joined(texts) + text
  {
    if texts == [] {
      assert texts + [text] == [text] && [text][1..] == [];
    } else {
      JoinedAppend(texts[1..], text);
      assert (texts + [text])[1..] == texts[1..] + [text];
    }
  }

  // ---------------------------------------------------------------- a client

  datatype Response = Response(status: string, body: string)

  /** The client's parser for what follows the status line. */
  const HEAD: Parser := START.(phase := Headers)

  /** Reads a status line, header lines up to the blank line, and as many bytes as they declare. */
  function ReadResponse(limits: Limits, wire: string): Option<(Response, string)> {
    match FindCrlf(wire)
    case None => None
    case Some(end) =>
      var o := Parse(limits, HEAD, wire[end + 2..]);
      if o.verdict == Complete then Some((Response(wire[..end], o.parser.request.body), o.rest)) else None
  }

  function ReadResponses(limits: Limits, wire: string, n: nat): Option<(seq<Response>, string)>
    decreases n
  {
    if n == 0 then Some(([], wire))
    else
      match ReadResponse(limits, wire)
      case None => None
      case Some((first, rest)) =>
        match ReadResponses(limits, rest, n - 1)
        case None => None
        case Some((more, end)) => Some(([first] + more, end))
  }

  datatype Header = Header(key: string, value: string)

  function Lines(headers: seq<Header>): seq<string> {
    seq(|headers|, i requires 0 <= i < |headers| => Field(headers[i].key, headers[i].value))
  }

  function HeadersOf(reply: Reply): seq<Header> {
    var length := Header("Content-Length", ToDecimal(|ReplyBody(reply)|));
    match reply
    case Echo(_) => [Header("Content-Type", "text/plain"), length, Header("Connection", "keep-alive")]
    case BadRequest => [length, Header("Connection", "close")]
  }

  function StatusLine(reply: Reply): string {
    match reply
    case Echo(_) => "HTTP/1.1 200 OK"
    case BadRequest => "HTTP/1.1 400 Bad Request"
  }

  /** The reply as the client understands it. */
  function AsMessage(reply: Reply): Message {
    Message(StatusLine(reply), Lines(HeadersOf(reply)), ReplyBody(reply))
  }

  function ResponseTo(m: Message): Response {
    Response(m.line, m.body)
  }

  /** The client takes a head and a body of this size. */
  predicate Affordable(limits: Limits, m: Message) {
    |m.body| <= limits.bodyBytes <= SIZE_MAX && FieldBytes(m.fields) + 2 <= limits.headerBytes
  }

  // ---------------------------------------------------------------- fields

  /** A header that is read as it is written, and declares the length `n` if it declares one. */
  predicate Declares(h: Header, n: nat) {
    && Simple(h.key) && Simple(h.value) && !IEquals(h.key, "Transfer-Encoding")
    && (IEquals(h.key, "Content-Length") ==> h.value == ToDecimal(n))
  }

  lemma HeaderValid(limits: Limits, h: Header, n: nat)
    requires Declares(h, n) && n <= limits.bodyBytes <= SIZE_MAX
    ensures ValidField(limits, Field(h.key, h.value)) && LengthIs(Field(h.key, h.value), n)
    ensures IsLength(Field(h.key, h.value)) <==> IEquals(h.key, "Content-Length")
  {
    FieldParts(h.key, h.value);
    ParseSizeRoundTrip(n);
  }

  /** Every header is so, and the one at `at` does declare the length. */
  ghost predicate AllDeclare(headers: seq<Header>, n: nat, at: nat) {
    && (forall i :: 0 <= i < |headers| ==> Declares(headers[i], n))
    && at < |headers| && IEquals(headers[at].key, "Content-Length")
  }

  lemma HeadersValid(limits: Limits, headers: seq<Header>, n: nat, at: nat)
    requires AllDeclare(headers, n, at) && n <= limits.bodyBytes <= SIZE_MAX
    ensures ValidFields(limits, Lines(headers)) && LengthsAre(Lines(headers), n) && HasLength(Lines(headers))
  {
    forall i | 0 <= i < |headers|
      ensures ValidField(limits, Lines(headers)[i]) && LengthIs(Lines(headers)[i], n)
    {
      HeaderValid(limits, headers[i], n);
    }
    HeaderValid(limits, headers[at], n);
    assert IsLength(Lines(headers)[at]);
  }

  lemma {:induction false} IEqualsItself(s: string)
    ensures IEquals(s, s)
  {
    if s != "" {
      IEqualsItself(s[1..]);
    }
  }

  // ---------------------------------------------------------------- what is echoed

  /** The position of the first `c`, or the length. */
  function Find(s: string, c: char): (n: nat)
    ensures n <= |s| && c !in s[..n] && (n < |s| ==> s[n] == c)
  {
    if s == "" || s[0] == c then 0 else
      assert s[1..][..Find(s[1..], c)] == s[1..1 + Find(s[1..], c)];
      1 + Find(s[1..], c)
  }

  lemma {:induction false} FindAfter(word: string, c: char, rest: string)
    requires c !in word
    ensures Find(word + [c] + rest, c) == |word|
  {
    if word != "" {
      FindAfter(word[1..], c, rest);
      assert (word + [c] + rest)[1..] == word[1..] + [c] + rest;
    }
  }

  function Drop(s: string, n: nat): string {
    if n <= |s| then s[n..] else ""
  }

  /** A reader of the echo: behind "method=" the method up to the first space, behind " path=" the path
      up to the first line feed, and the body behind that. */
  function ReadEcho(text: string): (string, string, string) {
    ReadVerb(Drop(text, 7))
  }

  function ReadVerb(text: string): (string, string, string) {
    var space := Find(text, ' ');
    var (path, body) := ReadPath(Drop(text, space + 6));
    (text[..space], path, body)
  }

  function ReadPath(text: string): (string, string) {
    var end := Find(text, '\n');
    (text[..end], Drop(text, end + 1))
  }

  lemma PathReadsBack(path: string, body: string)
    requires '\n' !in path
    ensures ReadPath(path + ['\n'] + body) == (path, body)
  {
    var text := path + ['\n'] + body;
    FindAfter(path, '\n', body);
    assert text[..|path|] == path && text[|path| + 1..] == body;
  }

  lemma VerbReadsBack(verb: string, name: string, path: string, body: string)
    requires ' ' !in verb && '\n' !in path && |name| == 5
    ensures ReadVerb(verb + [' '] + (name + (path + ['\n'] + body))) == (verb, path, body)
  {
    var tail := path + ['\n'] + body;
    var text := verb + [' '] + (name + tail);
    FindAfter(verb, ' ', name + tail);
    assert text[..|verb|] == verb && text[|verb| + 6..] == tail;
    PathReadsBack(path, body);
  }

  /** The echo of a request tells its method, path and body. */
  lemma EchoReadsBack(request: Request)
    requires IsWord(request.verb) && IsWord(request.path)
    ensures ReadEcho(ReplyBody(Echo(request))) == (request.verb, request.path, request.body)
  {
    var verb, path, body := request.verb, request.path, request.body;
    var text := verb + [' '] + ("path=" + (path + ['\n'] + body));
    assert ReplyBody(Echo(request)) == "method=" + text;
    assert Drop("method=" + text, 7) == text;
    VerbReadsBack(verb, "path=", path, body);
  }

  // ---------------------------------------------------------------- the round trip

  /** One status line, and fields that declare the length of the body. */
  ghost predicate Framed(limits: Limits, m: Message) {
    && OneLine(m.line) && ValidFields(limits, m.fields)
    && LengthsAre(m.fields, |m.body|) && HasLength(m.fields)
  }

  lemma MessageReadsBack(limits: Limits, m: Message, rest: string)
    requires Framed(limits, m) && Affordable(limits, m)
    ensures ReadResponse(limits, Encode(m) + rest) == Some((ResponseTo(m), rest))
  {
    EncodeWithRest(m, rest);
    OneLineFound(m.line, EncodeFields(m.fields) + (CRLF + (m.body + rest)));
    BlockReadsBack(limits, m.fields, m.body, rest);
  }

  lemma BlockReadsBack(limits: Limits, fields: seq<string>, body: string, rest: string)
    requires ValidFields(limits, fields) && LengthsAre(fields, |body|) && HasLength(fields)
    requires |body| <= limits.bodyBytes && FieldBytes(fields) + 2 <= limits.headerBytes
    ensures var o := Parse(limits, HEAD, EncodeFields(fields) + (CRLF + (body + rest)));
      o.verdict == Complete && o.parser.request.body == body && o.rest == rest
  {
    AbsorbedLength(HEAD, fields, |body|);
    AbsorbedRest(HEAD, fields);
    HeadersRead(limits, HEAD, fields, body + rest);
    BodyRead(limits, body, EndHeaders(AbsorbAll(HEAD, fields)), rest);
  }

  lemma EncodeThree(line: string, a: Header, b: Header, c: Header, body: string)
    ensures Encode(Message(line, Lines([a, b, c]), body)) ==
      line + CRLF + Field(a.key, a.value) + CRLF + Field(b.key, b.value) + CRLF + Field(c.key, c.value) + CRLF
      + CRLF + body
  {
    var x, y, z := Field(a.key, a.value), Field(b.key, b.value), Field(c.key, c.value);
    assert Lines([a, b, c]) == [x, y, z];
    assert [x, y, z][1..] == [y, z] && [y, z][1..] == [z] && [z][1..] == [];
    assert EncodeFields([z]) == z + CRLF;
    assert EncodeFields([y, z]) == y + CRLF + (z + CRLF);
    assert EncodeFields([x, y, z]) == x + CRLF + (y + CRLF + (z + CRLF));
  }

  lemma EncodeTwo(line: string, a: Header, b: Header, body: string)
    ensures Encode(Message(line, Lines([a, b]), body)) ==
      line + CRLF + Field(a.key, a.value) + CRLF + Field(b.key, b.value) + CRLF + CRLF + body
  {
    var x, y := Field(a.key, a.value), Field(b.key, b.value);
    assert Lines([a, b]) == [x, y];
    assert [x, y][1..] == [y] && [y][1..] == [];
    assert EncodeFields([y]) == y + CRLF;
    assert EncodeFields([x, y]) == x + CRLF + (y + CRLF);
  }

  lemma RenderIsMessage(reply: Reply)
    ensures Render(reply) == Encode(AsMessage(reply))
  {
    var headers := HeadersOf(reply);
    match reply
    case Echo(_) => EncodeThree(StatusLine(reply), headers[0], headers[1], headers[2], ReplyBody(reply));
    case BadRequest => EncodeTwo(StatusLine(reply), headers[0], headers[1], ReplyBody(reply));
  }

  lemma DeclareThree(a: Header, b: Header, c: Header, n: nat)
    requires Declares(a, n) && Declares(b, n) && Declares(c, n) && IEquals(b.key, "Content-Length")
    ensures AllDeclare([a, b, c], n, 1)
  {
  }

  lemma DeclareTwo(a: Header, b: Header, n: nat)
    requires Declares(a, n) && Declares(b, n) && IEquals(a.key, "Content-Length")
    ensures AllDeclare([a, b], n, 0)
  {
  }

  lemma LengthDeclares(n: nat)
    ensures Declares(Header("Content-Length", ToDecimal(n)), n)
  {
    LengthIsSimple("Content-Length");
    DigitsAreSimple(ToDecimal(n));
  }

  lemma TypeDeclares(n: nat)
    ensures Declares(Header("Content-Type", "text/plain"), n)
  {
  }

  lemma ConnectionDeclares(n: nat)
    ensures Declares(Header("Connection", "keep-alive"), n) && Declares(Header("Connection", "close"), n)
  {
  }

  lemma HeadersDeclare(reply: Reply)
    ensures AllDeclare(HeadersOf(reply), |ReplyBody(reply)|, if reply.Echo? then 1 else 0)
  {
    var n, headers := |ReplyBody(reply)|, HeadersOf(reply);
    LengthDeclares(n);
    IEqualsItself("Content-Length");
    ConnectionDeclares(n);
    match reply
    case Echo(_) =>
      TypeDeclares(n);
      DeclareThree(headers[0], headers[1], headers[2], n);
    case BadRequest =>
      DeclareTwo(headers[0], headers[1], n);
  }

  lemma StatusIsOneLine(reply: Reply)
    ensures OneLine(StatusLine(reply))
  {
    NoReturnIsOneLine(StatusLine(reply));
  }

  lemma DeclaredIsFramed(limits: Limits, line: string, headers: seq<Header>, body: string, at: nat)
    requires OneLine(line) && AllDeclare(headers, |body|, at) && |body| <= limits.bodyBytes <= SIZE_MAX
    ensures Framed(limits, Message(line, Lines(headers), body))
  {
    HeadersValid(limits, headers, |body|, at);
  }

  lemma ReplyIsFramed(limits: Limits, reply: Reply)
    requires |ReplyBody(reply)| <= limits.bodyBytes <= SIZE_MAX
    ensures Framed(limits, AsMessage(reply))
  {
    HeadersDeclare(reply);
    StatusIsOneLine(reply);
    DeclaredIsFramed(limits, StatusLine(reply), HeadersOf(reply), ReplyBody(reply), if reply.Echo? then 1 else 0);
  }

  /** A reply is read back, status and body, and not a byte more. */
  lemma ReplyReadsBack(limits: Limits, reply: Reply, rest: string)
    requires Affordable(limits, AsMessage(reply))
    ensures ReadResponse(limits, Render(reply) + rest) == Some((ResponseTo(AsMessage(reply)), rest))
  {
    RenderIsMessage(reply);
    ReplyIsFramed(limits, reply);
    MessageReadsBack(limits, AsMessage(reply), rest);
  }

  function Responses(replies: seq<Reply>): seq<Response> {
    seq(|replies|, i requires 0 <= i < |replies| => Response(StatusLine(replies[i]), ReplyBody(replies[i])))
  }

  /** Whatever follows the text, it is read as this response. */
  ghost predicate ReadsAs(limits: Limits, text: string, response: Response) {
    forall rest :: ReadResponse(limits, text + rest) == Some((response, rest))
  }

  lemma {:induction false} AllReadBack(limits: Limits, texts: seq<string>, responses: seq<Response>, rest: string)
    requires |texts| == |responses| && forall i :: 0 <= i < |texts| ==> ReadsAs(limits, texts[i], responses[i])
    ensures ReadResponses(limits, Joined(texts) + rest, |texts|) == Some((responses, rest))
  {
    if texts == [] {
      assert Joined(texts) + rest == rest;
    } else {
      var more := Joined(texts[1..]) + rest;
      assert Joined(texts) + rest == texts[0] + more;
      assert ReadsAs(limits, texts[0], responses[0]);
      AllReadBack(limits, texts[1..], responses[1..], rest);
      assert responses == [responses[0]] + responses[1..];
    }
  }

  lemma ReadsBack(limits: Limits, reply: Reply)
    requires Affordable(limits, AsMessage(reply))
    ensures ReadsAs(limits, Render(reply), Response(StatusLine(reply), ReplyBody(reply)))
  {
    forall rest
      ensures ReadResponse(limits, Render(reply) + rest) == Some((Response(StatusLine(reply), ReplyBody(reply)), rest))
    {
      ReplyReadsBack(limits, reply, rest);
    }
  }

  /** However the connection ends, the client reads back every reply that was written whole. */
  lemma DeliveredReadsBack(limits: Limits, replies: seq<Reply>, writes: nat, partial: nat)
    requires forall i :: 0 <= i < |replies| ==> Affordable(limits, AsMessage(replies[i]))
    ensures var n := if |replies| <= writes then |replies| else writes;
      var cut := if |replies| <= writes then "" else Prefix(Render(replies[writes]), partial);
      ReadResponses(limits, Delivered(Texts(replies), writes, partial), n) == Some((Responses(replies[..n]), cut))
  {
    var n := if |replies| <= writes then |replies| else writes;
    var cut := if |replies| <= writes then "" else Prefix(Render(replies[writes]), partial);
    var texts := Texts(replies[..n]);
    forall i | 0 <= i < n ensures ReadsAs(limits, texts[i], Responses(replies[..n])[i]) {
      ReadsBack(limits, replies[i]);
    }
    AllReadBack(limits, texts, Responses(replies[..n]), cut);
    assert Texts(replies)[..n] == texts;
    assert Joined(Texts(replies)[..n]) + "" == Joined(Texts(replies)[..n]);
    assert Texts(replies)[..|replies|] == Texts(replies);
  }
}
