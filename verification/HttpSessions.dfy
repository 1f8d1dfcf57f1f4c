/** Whole connections: pipelined requests, the bytes a connection may hold back, and the
    independence of what is served from how the stream was cut into reads. */
module HttpSessions {
  import opened Options
  import opened Text
  import opened HttpParsing
  import opened HttpFragments
  import opened HttpGrammar

  // ---------------------------------------------------------------- consumption

  lemma HeaderLineConsumes(limits: Limits, p: Parser, s: string)
    ensures var t := HeaderLine(limits, p, s);
      t.LastLine? || t.NextLine? ==> FindCrlf(s).Some? && |t.rest| == |s| - FindCrlf(s).value - 2
  {
  }

  lemma {:induction false} HeadersConsume(limits: Limits, p: Parser, s: string)
    ensures |ParseHeaders(limits, p, s).rest| <= |s|
    decreases |s|
  {
    HeaderLineConsumes(limits, p, s);
    match HeaderLine(limits, p, s)
    case NextLine(q, rest) => HeadersConsume(limits, q, rest);
    case _ =>
  }

  lemma {:induction false} ParseConsumes(limits: Limits, p: Parser, s: string)
    ensures |Parse(limits, p, s).rest| <= |s|
    ensures p.phase == RequestLine && Parse(limits, p, s).verdict == Complete ==> |Parse(limits, p, s).rest| < |s|
    decreases Rank(p.phase)
  {
    if p.phase != Done {
      if p.phase == Headers {
        HeadersConsume(limits, p, s);
      }
      var o := Handle(limits, p, s);
      if o.verdict == Incomplete && o.parser.phase != p.phase {
        ParseConsumes(limits, o.parser, o.rest);
      }
    }
  }

  /** `rest` is what is left of `s` once bytes were taken from its front. */
  predicate IsSuffix(rest: string, s: string) {
    |rest| <= |s| && s[|s| - |rest|..] == rest
  }

  lemma SuffixOfSuffix(a: string, b: string, c: string)
    requires IsSuffix(a, b) && IsSuffix(b, c)
    ensures IsSuffix(a, c)
  {
  }

  lemma HeaderLineTakes(limits: Limits, p: Parser, s: string)
    ensures !HeaderLine(limits, p, s).NeedMore? ==> IsSuffix(HeaderLine(limits, p, s).rest, s)
  {
  }

  lemma {:induction false} HeadersTake(limits: Limits, p: Parser, s: string)
    ensures IsSuffix(ParseHeaders(limits, p, s).rest, s)
    decreases |s|
  {
    HeaderLineTakes(limits, p, s);
    match HeaderLine(limits, p, s)
    case NextLine(q, rest) =>
      HeadersTake(limits, q, rest);
      SuffixOfSuffix(ParseHeaders(limits, q, rest).rest, rest, s);
    case _ =>
  }

  lemma HandleTakes(limits: Limits, p: Parser, s: string)
    requires p.phase != Done
    ensures IsSuffix(Handle(limits, p, s).rest, s)
  {
    if p.phase == Headers {
      HeadersTake(limits, p, s);
    }
  }

  /** A call takes bytes from the front of the buffer and leaves the others as they are. */
  lemma {:induction false} ParseTakesFromFront(limits: Limits, p: Parser, s: string)
    ensures IsSuffix(Parse(limits, p, s).rest, s)
    decreases Rank(p.phase)
  {
    if p.phase == Done {
      assert s[0..] == s;
    } else {
      HandleTakes(limits, p, s);
      var o := Handle(limits, p, s);
      if o.verdict == Incomplete && o.parser.phase != p.phase {
        ParseTakesFromFront(limits, o.parser, o.rest);
        SuffixOfSuffix(Parse(limits, o.parser, o.rest).rest, o.rest, s);
      }
    }
  }

  // ---------------------------------------------------------------- what an incomplete call leaves

  /** An accepted length is within the limit. */
  predicate WithinLimits(limits: Limits, p: Parser) {
    p.contentLength <= limits.bodyBytes
  }

  function Max(a: nat, b: nat): nat {
    if a < b then b else a
  }

  /** The most bytes a connection may have buffered while it waits for more. */
  function Backlog(limits: Limits): nat {
    Max(limits.requestLineBytes, Max(limits.headerBytes, limits.bodyBytes))
  }

  lemma FieldWithinLimits(limits: Limits, p: Parser, line: string)
    requires WithinLimits(limits, p)
    ensures var q := ParseField(limits, p, line); q.Some? ==> WithinLimits(limits, q.value)
  {
  }

  lemma {:induction false} HeadersBounded(limits: Limits, p: Parser, s: string)
    requires WithinLimits(limits, p) && p.phase == Headers
    ensures var o := ParseHeaders(limits, p, s);
      o.verdict == Incomplete ==>
        WithinLimits(limits, o.parser) && (o.parser.phase == Headers ==> |o.rest| <= limits.headerBytes)
    decreases |s|
  {
    if FindCrlf(s).Some? {
      var end := FindCrlf(s).value;
      FieldWithinLimits(limits, p.(headerBytes := p.headerBytes + end + 2), s[..end]);
    }
    match HeaderLine(limits, p, s)
    case NextLine(q, rest) => HeadersBounded(limits, q, rest);
    case _ =>
  }

  /** Every incomplete call leaves a bounded backlog, and the parser keeps within its limits. */
  lemma {:induction false} IncompleteIsBounded(limits: Limits, p: Parser, s: string)
    requires WithinLimits(limits, p)
    ensures var o := Parse(limits, p, s);
      o.verdict == Incomplete ==> WithinLimits(limits, o.parser) && |o.rest| <= Backlog(limits)
    decreases Rank(p.phase)
  {
    if p.phase != Done {
      if p.phase == Headers {
        HeadersBounded(limits, p, s);
      }
      var o := Handle(limits, p, s);
      if o.verdict == Incomplete && o.parser.phase != p.phase {
        IncompleteIsBounded(limits, o.parser, o.rest);
      }
    }
  }

  // ---------------------------------------------------------------- the parse/reset cycle

  datatype Served = Served(requests: seq<Request>, last: Outcome)

  /** `serve_http`: parse what is buffered; answer and reset on a complete request, stop on an
      error, and otherwise read the next fragment. `last` is the outcome of the final call. */
  function Serve(limits: Limits, p: Parser, buffer: string, fragments: seq<string>): Served
    decreases |fragments|, |buffer|, if p.phase == RequestLine then 0 else 1
  {
    ParseConsumes(limits, p, buffer);
    var o := Parse(limits, p, buffer);
    match o.verdict
    case Complete =>
      var more := Serve(limits, START, o.rest, fragments);
      Served([o.parser.request] + more.requests, more.last)
    case Error => Served([], o)
    case Incomplete =>
      if fragments == [] then Served([], o)
      else Serve(limits, o.parser, o.rest + fragments[0], fragments[1..])
  }

  /** The cycle over a buffer that holds everything. */
  function ServeAll(limits: Limits, p: Parser, s: string): Served {
    Serve(limits, p, s, [])
  }

  // ---------------------------------------------------------------- a check that never fires

  /** The call hands `parse_body` a length beyond the limit. */
  predicate CallExceedsBody(limits: Limits, p: Parser, s: string)
    decreases Rank(p.phase)
  {
    p.phase != Done &&
    (|| (p.phase == Body && p.contentLength > limits.bodyBytes)
     || (var o := Handle(limits, p, s);
         o.verdict == Incomplete && o.parser.phase != p.phase && CallExceedsBody(limits, o.parser, o.rest)))
  }

  /** Some call of the connection does. */
  predicate ExceedsBody(limits: Limits, p: Parser, buffer: string, fragments: seq<string>)
    decreases |fragments|, |buffer|, if p.phase == RequestLine then 0 else 1
  {
    ParseConsumes(limits, p, buffer);
    var o := Parse(limits, p, buffer);
    CallExceedsBody(limits, p, buffer) ||
    match o.verdict
    case Complete => ExceedsBody(limits, START, o.rest, fragments)
    case Error => false
    case Incomplete => fragments != [] && ExceedsBody(limits, o.parser, o.rest + fragments[0], fragments[1..])
  }

  lemma {:induction false} CallWithinBody(limits: Limits, p: Parser, s: string)
    requires WithinLimits(limits, p)
    ensures !CallExceedsBody(limits, p, s)
    decreases Rank(p.phase)
  {
    if p.phase != Done {
      if p.phase == Headers {
        HeadersBounded(limits, p, s);
      }
      var o := Handle(limits, p, s);
      if o.verdict == Incomplete && o.parser.phase != p.phase {
        CallWithinBody(limits, o.parser, o.rest);
      }
    }
  }

  lemma {:induction false} NeverExceedsBody(limits: Limits, p: Parser, buffer: string, fragments: seq<string>)
    requires WithinLimits(limits, p)
    ensures !ExceedsBody(limits, p, buffer, fragments)
    decreases |fragments|, |buffer|, if p.phase == RequestLine then 0 else 1
  {
    ParseConsumes(limits, p, buffer);
    CallWithinBody(limits, p, buffer);
    IncompleteIsBounded(limits, p, buffer);
    var o := Parse(limits, p, buffer);
    match o.verdict
    case Complete => NeverExceedsBody(limits, START, o.rest, fragments);
    case Error =>
    case Incomplete =>
      if fragments != [] {
        NeverExceedsBody(limits, o.parser, o.rest + fragments[0], fragments[1..]);
      }
  }

  /** The limit check of `parse_body` is dead code: no call of any connection, whatever it reads and
      in whatever pieces, reaches it with a length beyond the limit. */
  lemma BodyLimitUnreachable(limits: Limits, fragments: seq<string>)
    ensures !ExceedsBody(limits, START, "", fragments)
  {
    NeverExceedsBody(limits, START, "", fragments);
  }

  // ---------------------------------------------------------------- pipelining

  /** `s` is one whole request. */
  predicate IsRequest(limits: Limits, s: string) {
    var o := Parse(limits, START, s); o.verdict == Complete && o.rest == ""
  }

  function RequestIn(limits: Limits, s: string): Request {
    Parse(limits, START, s).parser.request
  }

  lemma OneRequest(limits: Limits, s: string, tail: string)
    requires IsRequest(limits, s)
    ensures var more := ServeAll(limits, START, tail);
      ServeAll(limits, START, s + tail) == Served([RequestIn(limits, s)] + more.requests, more.last)
  {
    CompleteDoesNotStraddle(limits, START, s, tail);
    Resumes(limits, START, s, tail);
    assert "" + tail == tail;
  }

  lemma AnotherRequest(limits: Limits, s: string, tail: string, after: seq<Request>, served: Served)
    requires IsRequest(limits, s) && ServeAll(limits, START, tail) == Served(after + served.requests, served.last)
    ensures ServeAll(limits, START, s + tail) ==
      Served([RequestIn(limits, s)] + after + served.requests, served.last)
  {
    OneRequest(limits, s, tail);
    assert [RequestIn(limits, s)] + (after + served.requests) == [RequestIn(limits, s)] + after + served.requests;
  }

  function Requests(limits: Limits, messages: seq<string>): seq<Request> {
    if messages == [] then []
    else [RequestIn(limits, messages[0])] + Requests(limits, messages[1..])
  }

  /** Pipelining: requests that parse alone parse in a row, in order, whatever follows them, and
      exactly the rest is left. */
  lemma {:induction false} Pipelining(limits: Limits, messages: seq<string>, suffix: string)
    requires forall i :: 0 <= i < |messages| ==> IsRequest(limits, messages[i])
    ensures var more := ServeAll(limits, START, suffix);
      ServeAll(limits, START, Joined(messages) + suffix) ==
        Served(Requests(limits, messages) + more.requests, more.last)
    decreases |messages|
  {
    if messages == [] {
      assert "" + suffix == suffix;
      assert [] + ServeAll(limits, START, suffix).requests == ServeAll(limits, START, suffix).requests;
    } else {
      assert Joined(messages) + suffix == messages[0] + (Joined(messages[1..]) + suffix);
      Pipelining(limits, messages[1..], suffix);
      AnotherRequest(limits, messages[0], Joined(messages[1..]) + suffix, Requests(limits, messages[1..]),
                     ServeAll(limits, START, suffix));
    }
  }

  // ---------------------------------------------------------------- the exception, exhibited

  lemma JoinedHalves(line: string, tail: string)
    ensures Joined([line + "\r", "\n" + tail]) == line + CRLF + tail
  {
    var a, b := line + "\r", "\n" + tail;
    assert [a, b][1..] == [b] && [b][1..] == [];
    assert Joined([b]) == b;
    assert a + b == line + CRLF + tail;
  }

  /** Every acceptable message whose request line has exactly the permitted length is accepted
      whole and refused when the read boundary falls inside its first line end. */
  lemma SplitLineEndRefused(limits: Limits, m: Message)
    requires Accepts(limits, m) && |m.line| == limits.requestLineBytes
    ensures var tail := EncodeFields(m.fields) + (CRLF + m.body);
      var fragments := [m.line + "\r", "\n" + tail];
      && Joined(fragments) == Encode(m)
      && Parse(limits, START, Encode(m)).verdict == Complete
      && Feed(limits, START, "", fragments).verdict == Error
  {
    var tail := EncodeFields(m.fields) + (CRLF + m.body);
    var fragments := [m.line + "\r", "\n" + tail];
    JoinedHalves(m.line, tail);
    AcceptedIsParsed(limits, m, "");
    assert Encode(m) + "" == Encode(m);
    OneLineFound(m.line, tail);
    assert SplitsLineEnd(limits, "", fragments) by {
      assert "" + Joined(fragments) == Encode(m);
      assert EndsAt(0, fragments, limits.requestLineBytes + 1);
    }
    FragmentationInvariance(limits, fragments);
  }

  /** A concrete instance: `GET / HTTP/1.1` under a limit of 14 bytes. */
  lemma SplitLineEndExample()
    ensures var limits, m := Limits(14, 2, 0), Message(CanonicalLine("GET", "/", "HTTP/1.1"), [], "");
      Accepts(limits, m) && |m.line| == limits.requestLineBytes
  {
    CanonicalLineValid(Limits(14, 2, 0), "GET", "/", "HTTP/1.1");
  }

  // ---------------------------------------------------------------- reads of any size

  /** A read ends with exactly `k` bytes of the stream still to come: the last one, which has
      `fragments` to come, or one of those. */
  predicate Leaves(fragments: seq<string>, k: nat) {
    k == |Joined(fragments)| || (fragments != [] && Leaves(fragments[1..], k))
  }

  /** The line at the front of the stream `s` is a request line of exactly the permitted length,
      and a read ends between its CR and its LF. */
  predicate LineSplit(limits: Limits, p: Parser, s: string, fragments: seq<string>) {
    && p.phase == RequestLine && FindCrlf(s) == Some(limits.requestLineBytes)
    && Leaves(fragments, |s| - limits.requestLineBytes - 1)
  }

  /** If a request in the stream `s` has its request line split so, the number of requests in front
      of the first such. A request starts where the one before it ends. */
  function FirstSplit(limits: Limits, p: Parser, s: string, fragments: seq<string>): Option<nat>
    decreases |s|, if p.phase == RequestLine then 0 else 1
  {
    ParseConsumes(limits, p, s);
    var o := Parse(limits, p, s);
    if LineSplit(limits, p, s, fragments) then Some(0)
    else if o.verdict == Complete then OneLater(FirstSplit(limits, START, o.rest, fragments))
    else None
  }

  function OneLater(first: Option<nat>): Option<nat> {
    if first.None? then None else Some(first.value + 1)
  }

  predicate SameService(a: Served, b: Served) {
    a.requests == b.requests && SameAnswer(a.last, b.last)
  }

  /** What a connection serves, given what it would serve if its stream came in one piece, and the
      first line end that its reads split: the same, or the requests in front of that line and
      then an error. */
  predicate ServesAs(a: Served, whole: Served, first: Option<nat>) {
    match first
    case None => SameService(a, whole)
    case Some(n) => a.last.verdict == Error && n <= |whole.requests| && a.requests == whole.requests[..n]
  }

  /** Reads that ended before a request started do not split its line end. */
  lemma {:induction false} SplitLater(limits: Limits, p: Parser, s: string, fragments: seq<string>)
    requires fragments != [] && |s| <= |Joined(fragments)|
    ensures FirstSplit(limits, p, s, fragments) == FirstSplit(limits, p, s, fragments[1..])
    decreases |s|, if p.phase == RequestLine then 0 else 1
  {
    ParseConsumes(limits, p, s);
    var o := Parse(limits, p, s);
    if o.verdict == Complete {
      SplitLater(limits, START, o.rest, fragments);
    }
  }

  /** A parser that waits in a line has no line end in front of it. */
  lemma WaitsForLine(limits: Limits, p: Parser, r: string)
    requires Parse(limits, p, r) == Outcome(Incomplete, p, r) && (p.phase == RequestLine || p.phase == Headers)
    ensures FindCrlf(r) == None
  {
    var o := Handle(limits, p, r);
    if o.verdict == Incomplete && o.parser.phase != p.phase {
      PhaseNeverReturns(limits, o.parser, o.rest);
    }
    if p.phase == Headers && FindCrlf(r).Some? {
      HeaderLineConsumes(limits, p, r);
      match HeaderLine(limits, p, r)
      case NextLine(q, rest) => HeadersConsume(limits, q, rest);
      case _ =>
    }
  }

  lemma LineNeedsMore(limits: Limits, p: Parser, r: string, b: string)
    requires p.phase == RequestLine && FindCrlf(r) == None && Parse(limits, p, r + b).verdict == Complete
    ensures |Parse(limits, p, r + b).rest| < |b|
  {
    FindCrlfExtended(r, b);
    var o := Handle(limits, p, r + b);
    ParseConsumes(limits, o.parser, o.rest);
  }

  /** A parser that waits for more needs all that it holds, and more. */
  lemma NeedsMore(limits: Limits, p: Parser, r: string, b: string)
    requires Parse(limits, p, r) == Outcome(Incomplete, p, r) && Parse(limits, p, r + b).verdict == Complete
    ensures |Parse(limits, p, r + b).rest| < |b|
  {
    if p.phase == RequestLine {
      WaitsForLine(limits, p, r);
      LineNeedsMore(limits, p, r, b);
    } else if p.phase == Headers {
      WaitsForLine(limits, p, r);
      HeadersNeedMore(limits, p, r, b);
      var o := Handle(limits, p, r + b);
      ParseConsumes(limits, o.parser, o.rest);
    } else {
      BodyNeedsMore(limits, p, r, b);
    }
  }

  lemma BodyNeedsMore(limits: Limits, p: Parser, r: string, b: string)
    requires p.phase == Body || p.phase == Done
    requires Parse(limits, p, r) == Outcome(Incomplete, p, r) && Parse(limits, p, r + b).verdict == Complete
    ensures |Parse(limits, p, r + b).rest| < |b|
  {
  }

  lemma HeadersNeedMore(limits: Limits, p: Parser, r: string, b: string)
    requires p.phase == Headers && FindCrlf(r) == None && ParseHeaders(limits, p, r + b).verdict == Incomplete
    requires ParseHeaders(limits, p, r + b).parser.phase != Headers
    ensures |ParseHeaders(limits, p, r + b).rest| < |b|
  {
    FindCrlfExtended(r, b);
    HeaderLineConsumes(limits, p, r + b);
    match HeaderLine(limits, p, r + b)
    case NextLine(q, rest) => HeadersConsume(limits, q, rest);
    case _ =>
  }

  lemma CompleteDoesNotStraddle(limits: Limits, p: Parser, a: string, b: string)
    requires Parse(limits, p, a).verdict != Error
    ensures !Straddles(limits, p, a, b)
  {
    if p.phase == RequestLine && FindCrlf(a).None? {
      NoLineYet(limits, p, a);
    }
  }

  lemma SameStart(limits: Limits, p: Parser, s: string, q: Parser, t: string)
    requires Parse(limits, p, s) == Parse(limits, q, t)
    ensures ServeAll(limits, p, s) == ServeAll(limits, q, t)
  {
  }

  lemma {:induction false} LeavesAtMost(fragments: seq<string>, k: nat)
    requires Leaves(fragments, k)
    ensures k <= |Joined(fragments)|
  {
    if k != |Joined(fragments)| {
      LeavesAtMost(fragments[1..], k);
    }
  }

  /** If the line at the front is split, then by the end of the buffer or by a later read. */
  lemma FrontSplit(limits: Limits, p: Parser, buffer: string, fragments: seq<string>)
    requires LineSplit(limits, p, buffer + Joined(fragments), fragments)
    ensures FindCrlf(buffer) == None
    ensures |buffer| <= limits.requestLineBytes || Straddles(limits, p, buffer, Joined(fragments))
  {
    FindCrlfExtended(buffer, Joined(fragments));
    LeavesAtMost(fragments, |buffer + Joined(fragments)| - limits.requestLineBytes - 1);
  }

  /** The connection ends with an error in the call on `buffer`. */
  lemma StopsHere(limits: Limits, p: Parser, buffer: string, fragments: seq<string>)
    requires Parse(limits, p, buffer).verdict == Error
    ensures var s := buffer + Joined(fragments);
      ServesAs(Serve(limits, p, buffer, fragments), ServeAll(limits, p, s), FirstSplit(limits, p, s, fragments))
  {
    var tail := Joined(fragments);
    if !Straddles(limits, p, buffer, tail) {
      Resumes(limits, p, buffer, tail);
      if LineSplit(limits, p, buffer + tail, fragments) {
        FrontSplit(limits, p, buffer, fragments);
        NoLineYet(limits, p, buffer);
      }
    }
  }

  /** A line end in the buffer is not split. */
  lemma CompleteNotSplit(limits: Limits, p: Parser, buffer: string, fragments: seq<string>)
    requires Parse(limits, p, buffer).verdict == Complete
    ensures !LineSplit(limits, p, buffer + Joined(fragments), fragments)
  {
    if LineSplit(limits, p, buffer + Joined(fragments), fragments) {
      FrontSplit(limits, p, buffer, fragments);
      NoLineYet(limits, p, buffer);
    }
  }

  /** The call on `buffer` completes a request, and the connection goes on with the rest. */
  lemma GoesOn(limits: Limits, p: Parser, buffer: string, fragments: seq<string>)
    requires Parse(limits, p, buffer).verdict == Complete
    ensures var o, tail := Parse(limits, p, buffer), Joined(fragments);
      && Parse(limits, p, buffer + tail) == WithMore(o, tail)
      && FirstSplit(limits, p, buffer + tail, fragments) ==
           OneLater(FirstSplit(limits, START, o.rest + tail, fragments))
  {
    CompleteDoesNotStraddle(limits, p, buffer, Joined(fragments));
    Resumes(limits, p, buffer, Joined(fragments));
    CompleteNotSplit(limits, p, buffer, fragments);
  }

  /** The call on `buffer` waits, and the next read is appended. */
  lemma ReadsOn(limits: Limits, p: Parser, buffer: string, fragments: seq<string>)
    requires Parse(limits, p, buffer).verdict == Incomplete && fragments != []
    ensures var o, tail := Parse(limits, p, buffer), Joined(fragments);
      && Parse(limits, p, buffer + tail) == Parse(limits, o.parser, o.rest + tail)
      && FirstSplit(limits, p, buffer + tail, fragments) == FirstSplit(limits, o.parser, o.rest + tail, fragments[1..])
  {
    var o, tail := Parse(limits, p, buffer), Joined(fragments);
    CompleteDoesNotStraddle(limits, p, buffer, tail);
    Resumes(limits, p, buffer, tail);
    WaitingSplit(limits, p, buffer, fragments);
    var w := Parse(limits, p, buffer + tail);
    if w.verdict == Complete {
      IncompleteIsStable(limits, p, buffer);
      NeedsMore(limits, o.parser, o.rest, tail);
      SplitLater(limits, START, w.rest, fragments);
    }
  }

  /** Whether the line at the front is split is the same question before and after the read. */
  lemma WaitingSplit(limits: Limits, p: Parser, buffer: string, fragments: seq<string>)
    requires Parse(limits, p, buffer).verdict == Incomplete && fragments != []
    ensures var o, tail := Parse(limits, p, buffer), Joined(fragments);
      LineSplit(limits, p, buffer + tail, fragments) <==> LineSplit(limits, o.parser, o.rest + tail, fragments[1..])
  {
    PhaseNeverReturns(limits, p, buffer);
    if LineSplit(limits, p, buffer + Joined(fragments), fragments) {
      FrontSplit(limits, p, buffer, fragments);
      CompleteDoesNotStraddle(limits, p, buffer, Joined(fragments));
      NoLineYet(limits, p, buffer);
      assert Parse(limits, p, buffer).rest == buffer;
    }
  }

  lemma {:induction false} ReadsMatter(limits: Limits, p: Parser, buffer: string, fragments: seq<string>)
    ensures var s := buffer + Joined(fragments);
      ServesAs(Serve(limits, p, buffer, fragments), ServeAll(limits, p, s), FirstSplit(limits, p, s, fragments))
    decreases |fragments|, |buffer|, if p.phase == RequestLine then 0 else 1
  {
    var o, tail := Parse(limits, p, buffer), Joined(fragments);
    ParseConsumes(limits, p, buffer);
    match o.verdict
    case Error => StopsHere(limits, p, buffer, fragments);
    case Complete =>
      GoesOn(limits, p, buffer, fragments);
      ReadsMatter(limits, START, o.rest, fragments);
      OneMoreServed(o.parser.request, Serve(limits, START, o.rest, fragments), ServeAll(limits, START, o.rest + tail),
                    FirstSplit(limits, START, o.rest + tail, fragments));
    case Incomplete =>
      if fragments == [] {
        assert buffer + tail == buffer;
      } else {
        ReadsOn(limits, p, buffer, fragments);
        JoinedSplit(o.rest, fragments);
        ReadsMatter(limits, o.parser, o.rest + fragments[0], fragments[1..]);
        SameStart(limits, p, buffer + tail, o.parser, o.rest + tail);
      }
  }

  lemma OneMoreServed(r: Request, a: Served, w: Served, first: Option<nat>)
    requires ServesAs(a, w, first)
    ensures ServesAs(Served([r] + a.requests, a.last), Served([r] + w.requests, w.last),
                     OneLater(first))
  {
    if first.Some? {
      assert ([r] + w.requests)[..first.value + 1] == [r] + w.requests[..first.value];
    }
  }

  /** When the sizes of the reads matter over a whole connection. If no read ends between the CR and
      the LF of a request line of exactly the permitted length, the connection serves what it
      would serve had its stream come in one piece. Otherwise it serves the requests in front of the
      first such line and ends in an error; which is the same exactly if the stream in one piece
      ends in an error at that request too. */
  lemma ReadsMatterIff(limits: Limits, fragments: seq<string>)
    ensures var a, whole := Serve(limits, START, "", fragments), ServeAll(limits, START, Joined(fragments));
      var first := FirstSplit(limits, START, Joined(fragments), fragments);
      && (first.Some? ==>
            a.last.verdict == Error && first.value <= |whole.requests| && a.requests == whole.requests[..first.value])
      && (SameService(a, whole) <==>
            first.None? || (whole.last.verdict == Error && |whole.requests| == first.value))
  {
    assert "" + Joined(fragments) == Joined(fragments);
    ReadsMatter(limits, START, "", fragments);
  }
}
