/** The HTTP request parser as a function: one call of `parse` on a parser value and the readable
    bytes of the buffer. `HttpParser.dfy` holds the class that is proved to compute it. */
module HttpParsing {
  import opened Options
  import opened Text

  datatype Limits = Limits(requestLineBytes: nat, headerBytes: nat, bodyBytes: nat)

  const DEFAULT_LIMITS := Limits(8 * 1024, 64 * 1024, 1024 * 1024)

  datatype Request = Request(verb: string, path: string, version: string, headers: map<string, string>, body: string)

  datatype Phase = RequestLine | Headers | Body | Done

  datatype Parser = Parser(
    phase: Phase,
    request: Request,
    contentLength: nat,
    headerBytes: nat,
    contentLengthSeen: bool)

  /** The parser after construction and after `reset`. */
  const START := Parser(RequestLine, Request("", "", "", map[], ""), 0, 0, false)

  datatype Verdict = Incomplete | Complete | Error

  /** The result of a call, the parser it leaves and the bytes it leaves in the buffer. */
  datatype Outcome = Outcome(verdict: Verdict, parser: Parser, rest: string)

  // ---------------------------------------------------------------- the three state handlers

  /** The extraction of method, path and version: as many words as there are, up to three. */
  function WithWords(request: Request, words: seq<string>): Request {
    request.(
      verb := if |words| > 0 then words[0] else request.verb,
      path := if |words| > 1 then words[1] else request.path,
      version := if |words| > 2 then words[2] else request.version)
  }

  predicate SupportedVersion(v: string) {
    v == "HTTP/1.1" || v == "HTTP/1.0"
  }

  function ParseRequestLine(limits: Limits, p: Parser, s: string): Outcome {
    match FindCrlf(s)
    case None => Outcome(if |s| > limits.requestLineBytes then Error else Incomplete, p, s)
    case Some(end) =>
      if end > limits.requestLineBytes then Outcome(Error, p, s)
      else
        var words := Words(s[..end]);
        var p' := p.(request := WithWords(p.request, words));
        if |words| != 3 || !SupportedVersion(words[2]) then Outcome(Error, p', s[end + 2..])
        else Outcome(Incomplete, p'.(phase := Headers), s[end + 2..])
  }

  /** One header line, already counted and consumed; `None` is an error. */
  function ParseField(limits: Limits, p: Parser, line: string): Option<Parser> {
    match FindColon(line)
    case None => None
    case Some(colon) =>
      var key, value := Trim(line[..colon]), Trim(line[colon + 1..]);
      var p' := p.(request := p.request.(headers := p.request.headers[key := value]));
      if key == "" then None
      else if IEquals(key, "Content-Length") then
        match ParseSize(value)
        case None => None
        case Some(n) =>
          if n > limits.bodyBytes || (p.contentLengthSeen && n != p.contentLength) then None
          else Some(p'.(contentLengthSeen := true, contentLength := n))
      else if IEquals(key, "Transfer-Encoding") && !IEquals(value, "identity") then None
      else Some(p')
  }

  /** One turn of the header loop. */
  datatype HeaderTurn =
    | NeedMore
    | Refused(parser: Parser, rest: string)
    | LastLine(parser: Parser, rest: string)
    | NextLine(parser: Parser, rest: string)

  /** A complete line within the limit, with the bytes behind it. */
  function TakeLine(limits: Limits, p: Parser, line: string, rest: string): (turn: HeaderTurn) {
    var p' := p.(headerBytes := p.headerBytes + |line| + 2);
    if line == "" then LastLine(p'.(phase := if p.contentLength == 0 then Done else Body), rest)
    else
      match ParseField(limits, p', line)
      case None => Refused(p', rest)
      case Some(q) => NextLine(q, rest)
  }

  function HeaderLine(limits: Limits, p: Parser, s: string): (turn: HeaderTurn)
    ensures turn.NextLine? ==> |turn.rest| < |s|
    ensures turn.NextLine? ==> turn.parser.phase == p.phase
    ensures turn.LastLine? ==> turn.parser.phase in {Body, Done}
  {
    match FindCrlf(s)
    case None => if p.headerBytes + |s| > limits.headerBytes then Refused(p, s) else NeedMore
    case Some(end) =>
      if p.headerBytes + end + 2 > limits.headerBytes then Refused(p, s)
      else TakeLine(limits, p, s[..end], s[end + 2..])
  }

  function ParseHeaders(limits: Limits, p: Parser, s: string): (o: Outcome)
    ensures o.verdict != Complete
    ensures o.verdict == Incomplete && o.parser.phase != p.phase ==> o.parser.phase in {Body, Done}
    decreases |s|
  {
    match HeaderLine(limits, p, s)
    case NeedMore => Outcome(Incomplete, p, s)
    case Refused(q, rest) => Outcome(Error, q, rest)
    case LastLine(q, rest) => Outcome(Incomplete, q, rest)
    case NextLine(q, rest) => ParseHeaders(limits, q, rest)
  }

  function ParseBody(limits: Limits, p: Parser, s: string): Outcome {
    if p.contentLength > limits.bodyBytes then Outcome(Error, p, s)
    else if |s| < p.contentLength then Outcome(Incomplete, p, s)
    else
      Outcome(Complete,
              p.(request := p.request.(body := s[..p.contentLength]), phase := Done),
              s[p.contentLength..])
  }

  function Rank(phase: Phase): nat {
    match phase case RequestLine => 3 case Headers => 2 case Body => 1 case Done => 0
  }

  function Handle(limits: Limits, p: Parser, s: string): (o: Outcome)
    requires p.phase != Done
    ensures o.verdict == Incomplete && o.parser.phase != p.phase ==> Rank(o.parser.phase) < Rank(p.phase)
  {
    match p.phase
    case RequestLine => ParseRequestLine(limits, p, s)
    case Headers => ParseHeaders(limits, p, s)
    case Body => ParseBody(limits, p, s)
  }

  /** `parse`: handlers run until one decides, or leaves the state where it was. */
  function Parse(limits: Limits, p: Parser, s: string): Outcome
    decreases Rank(p.phase)
  {
    if p.phase == Done then Outcome(Complete, p, s)
    else
      var o := Handle(limits, p, s);
      if o.verdict != Incomplete || o.parser.phase == p.phase then o
      else Parse(limits, o.parser, o.rest)
  }
}
