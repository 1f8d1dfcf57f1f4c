/** The parser gives the same answer however the stream is split.

    The one exception is a request line of exactly the permitted length whose CR and LF arrive in
    different fragments: the length check made while the line end is still missing counts the CR. */
module HttpFragments {
  import opened Options
  import opened Text
  import opened HttpParsing

  // ---------------------------------------------------------------- more bytes for one handler

  /** `a` ends between the CR and the LF of a request line of exactly the permitted length. */
  predicate Straddles(limits: Limits, p: Parser, a: string, b: string) {
    && p.phase == RequestLine && FindCrlf(a) == None
    && |a| == limits.requestLineBytes + 1 && FindCrlf(a + b) == Some(limits.requestLineBytes)
  }

  function WithMore(o: Outcome, b: string): Outcome {
    o.(rest := o.rest + b)
  }

  /** What a handler decided on `a` stands when `b` follows; what it left open is taken up. */
  predicate Extends(limits: Limits, p: Parser, o: Outcome, w: Outcome, b: string)
    requires p.phase != Done
  {
    if o.verdict == Error then w.verdict == Error
    else if o.verdict == Incomplete && o.parser.phase == p.phase then w == Handle(limits, o.parser, o.rest + b)
    else w == WithMore(o, b)
  }

  lemma LineExtended(a: string, b: string, end: nat)
    requires FindCrlf(a) == Some(end)
    ensures FindCrlf(a + b) == Some(end)
    ensures (a + b)[..end] == a[..end] && (a + b)[end + 2..] == a[end + 2..] + b
  {
    FindCrlfExtended(a, b);
  }

  lemma RequestLineExtends(limits: Limits, p: Parser, a: string, b: string)
    requires p.phase == RequestLine && !Straddles(limits, p, a, b)
    ensures Extends(limits, p, Handle(limits, p, a), Handle(limits, p, a + b), b)
  {
    match FindCrlf(a)
    case Some(end) => LineExtended(a, b, end);
    case None => FindCrlfExtended(a, b);
  }

  lemma TakeLineMore(limits: Limits, p: Parser, line: string, rest: string, b: string)
    ensures var t, w := TakeLine(limits, p, line, rest), TakeLine(limits, p, line, rest + b);
      match t
      case NeedMore => false
      case Refused(_, _) => w.Refused?
      case LastLine(q, _) => t.rest == rest && w == LastLine(q, rest + b)
      case NextLine(q, _) => t.rest == rest && w == NextLine(q, rest + b)
  {
  }

  lemma HeaderLineExtends(limits: Limits, p: Parser, a: string, b: string)
    ensures var t, w := HeaderLine(limits, p, a), HeaderLine(limits, p, a + b);
      match t
      case NeedMore => true
      case Refused(_, _) => w.Refused?
      case LastLine(q, rest) => w == LastLine(q, rest + b)
      case NextLine(q, rest) => w == NextLine(q, rest + b)
  {
    match FindCrlf(a)
    case Some(end) =>
      LineExtended(a, b, end);
      TakeLineMore(limits, p, a[..end], a[end + 2..], b);
    case None => FindCrlfExtended(a, b);
  }

  lemma {:induction false} HeadersExtend(limits: Limits, p: Parser, a: string, b: string)
    requires p.phase == Headers
    ensures Extends(limits, p, ParseHeaders(limits, p, a), ParseHeaders(limits, p, a + b), b)
    decreases |a|
  {
    HeaderLineExtends(limits, p, a, b);
    match HeaderLine(limits, p, a)
    case NextLine(q, rest) => HeadersExtend(limits, q, rest, b);
    case _ =>
  }

  lemma BodyExtends(limits: Limits, p: Parser, a: string, b: string)
    requires p.phase == Body
    ensures Extends(limits, p, Handle(limits, p, a), Handle(limits, p, a + b), b)
  {
    if |a| >= p.contentLength {
      assert (a + b)[..p.contentLength] == a[..p.contentLength];
      assert (a + b)[p.contentLength..] == a[p.contentLength..] + b;
    }
  }

  lemma HandleExtends(limits: Limits, p: Parser, a: string, b: string)
    requires p.phase != Done && !Straddles(limits, p, a, b)
    ensures Extends(limits, p, Handle(limits, p, a), Handle(limits, p, a + b), b)
  {
    match p.phase
    case RequestLine => RequestLineExtends(limits, p, a, b);
    case Headers => HeadersExtend(limits, p, a, b);
    case Body => BodyExtends(limits, p, a, b);
  }

  // ---------------------------------------------------------------- more bytes for a whole call

  /** A call on `a` followed by a call on what it left and `b` is one call on `a + b`. */
  lemma {:induction false} Resumes(limits: Limits, p: Parser, a: string, b: string)
    requires !Straddles(limits, p, a, b)
    ensures var o, w := Parse(limits, p, a), Parse(limits, p, a + b);
      match o.verdict
      case Incomplete => w == Parse(limits, o.parser, o.rest + b)
      case Complete => w == WithMore(o, b)
      case Error => w.verdict == Error
    decreases Rank(p.phase)
  {
    if p.phase != Done {
      HandleExtends(limits, p, a, b);
      var o := Handle(limits, p, a);
      if o.verdict == Incomplete && o.parser.phase != p.phase {
        Resumes(limits, o.parser, o.rest, b);
      }
    }
  }

  /** A call that is incomplete has nothing left to do: calling again changes nothing. */
  lemma IncompleteIsStable(limits: Limits, p: Parser, a: string)
    requires Parse(limits, p, a).verdict == Incomplete
    ensures var o := Parse(limits, p, a); Parse(limits, o.parser, o.rest) == o
  {
    var o := Parse(limits, p, a);
    Resumes(limits, p, a, "");
    assert a + "" == a && o.rest + "" == o.rest;
  }

  // ---------------------------------------------------------------- any list of fragments

  function Joined(fragments: seq<string>): string {
    if fragments == [] then "" else fragments[0] + Joined(fragments[1..])
  }

  /** Append each fragment to the buffer and parse, up to the first verdict; the fragments that
      were not needed follow in the buffer. */
  function Feed(limits: Limits, p: Parser, buffer: string, fragments: seq<string>): Outcome
    decreases |fragments|
  {
    if fragments == [] then Outcome(Incomplete, p, buffer)
    else
      var o := Parse(limits, p, buffer + fragments[0]);
      if o.verdict == Incomplete then Feed(limits, o.parser, o.rest, fragments[1..])
      else WithMore(o, Joined(fragments[1..]))
  }

  /** Some fragment, with `before` bytes in front of the first, ends exactly at `position`. */
  predicate EndsAt(before: nat, fragments: seq<string>, position: nat)
    decreases |fragments|
  {
    fragments != [] &&
    (before + |fragments[0]| == position || EndsAt(before + |fragments[0]|, fragments[1..], position))
  }

  /** The stream's first line is exactly as long as permitted and a fragment ends between its CR
      and its LF. */
  predicate SplitsLineEnd(limits: Limits, buffer: string, fragments: seq<string>) {
    && FindCrlf(buffer + Joined(fragments)) == Some(limits.requestLineBytes)
    && EndsAt(|buffer|, fragments, limits.requestLineBytes + 1)
  }

  predicate SameAnswer(o: Outcome, w: Outcome) {
    o.verdict == w.verdict && (o.verdict != Error ==> o == w)
  }

  lemma JoinedSplit(buffer: string, fragments: seq<string>)
    requires fragments != []
    ensures buffer + Joined(fragments) == buffer + fragments[0] + Joined(fragments[1..])
  {
  }

  /** Once the request line is behind, the split no longer matters. */
  lemma {:induction false} FeedPastRequestLine(limits: Limits, p: Parser, buffer: string, fragments: seq<string>)
    requires p.phase != RequestLine && Parse(limits, p, buffer) == Outcome(Incomplete, p, buffer)
    ensures SameAnswer(Feed(limits, p, buffer, fragments), Parse(limits, p, buffer + Joined(fragments)))
    decreases |fragments|
  {
    if fragments == [] {
      assert buffer + "" == buffer;
    } else {
      var a, b := buffer + fragments[0], Joined(fragments[1..]);
      JoinedSplit(buffer, fragments);
      Resumes(limits, p, a, b);
      var o := Parse(limits, p, a);
      if o.verdict == Incomplete {
        IncompleteIsStable(limits, p, a);
        PhaseNeverReturns(limits, p, a);
        FeedPastRequestLine(limits, o.parser, o.rest, fragments[1..]);
      }
    }
  }

  lemma {:induction false} PhaseNeverReturns(limits: Limits, p: Parser, a: string)
    ensures var o := Parse(limits, p, a);
      o.verdict == Incomplete ==>
        Rank(o.parser.phase) <= Rank(p.phase) && (o.parser.phase == RequestLine ==> o.parser == p && o.rest == a)
    decreases Rank(p.phase)
  {
    if p.phase != Done {
      var o := Handle(limits, p, a);
      if o.verdict == Incomplete && o.parser.phase != p.phase {
        PhaseNeverReturns(limits, o.parser, o.rest);
      }
    }
  }

  lemma {:induction false} EndsBehind(before: nat, fragments: seq<string>, position: nat)
    requires EndsAt(before, fragments, position)
    ensures position >= before
    decreases |fragments|
  {
    if before + |fragments[0]| != position {
      EndsBehind(before + |fragments[0]|, fragments[1..], position);
    }
  }

  /** A boundary inside the line end can only lie in front of the first complete line. */
  lemma LineEndNotSplit(limits: Limits, buffer: string, fragments: seq<string>)
    requires fragments != [] && FindCrlf(buffer + fragments[0]).Some?
    ensures !SplitsLineEnd(limits, buffer, fragments)
  {
    var a := buffer + fragments[0];
    JoinedSplit(buffer, fragments);
    FindCrlfExtended(a, Joined(fragments[1..]));
    if EndsAt(|a|, fragments[1..], limits.requestLineBytes + 1) {
      EndsBehind(|a|, fragments[1..], limits.requestLineBytes + 1);
    }
  }

  lemma NoLineYet(limits: Limits, p: Parser, a: string)
    requires p.phase == RequestLine && FindCrlf(a).None?
    ensures Parse(limits, p, a) == Outcome(if |a| > limits.requestLineBytes then Error else Incomplete, p, a)
  {
  }

  /** The general case: `buffer` holds an incomplete request line and `fragments` follow. */
  lemma {:induction false} FeedRequestLine(limits: Limits, p: Parser, buffer: string, fragments: seq<string>)
    requires p.phase == RequestLine && Parse(limits, p, buffer) == Outcome(Incomplete, p, buffer)
    ensures var f := Feed(limits, p, buffer, fragments);
      if SplitsLineEnd(limits, buffer, fragments) then f.verdict == Error
      else SameAnswer(f, Parse(limits, p, buffer + Joined(fragments)))
    decreases |fragments|
  {
    if fragments == [] {
      assert buffer + "" == buffer;
    } else {
      var a, b := buffer + fragments[0], Joined(fragments[1..]);
      JoinedSplit(buffer, fragments);
      if FindCrlf(a).Some? {
        LineEndNotSplit(limits, buffer, fragments);
        FeedCompleteLine(limits, p, buffer, fragments);
      } else {
        NoLineYet(limits, p, a);
        if |a| <= limits.requestLineBytes {
          FeedRequestLine(limits, p, a, fragments[1..]);
        } else if !Straddles(limits, p, a, b) {
          Resumes(limits, p, a, b);
        }
      }
    }
  }

  lemma FeedCompleteLine(limits: Limits, p: Parser, buffer: string, fragments: seq<string>)
    requires p.phase == RequestLine && fragments != [] && FindCrlf(buffer + fragments[0]).Some?
    ensures SameAnswer(Feed(limits, p, buffer, fragments), Parse(limits, p, buffer + Joined(fragments)))
  {
    var a, b := buffer + fragments[0], Joined(fragments[1..]);
    JoinedSplit(buffer, fragments);
    Resumes(limits, p, a, b);
    var o := Parse(limits, p, a);
    if o.verdict == Incomplete {
      IncompleteIsStable(limits, p, a);
      LineLeavesPhase(limits, p, a);
      FeedPastRequestLine(limits, o.parser, o.rest, fragments[1..]);
    }
  }

  lemma LineLeavesPhase(limits: Limits, p: Parser, a: string)
    requires p.phase == RequestLine && FindCrlf(a).Some? && Parse(limits, p, a).verdict == Incomplete
    ensures Parse(limits, p, a).parser.phase != RequestLine
  {
    var o := Handle(limits, p, a);
    PhaseNeverReturns(limits, o.parser, o.rest);
  }

  /** Fragmentation invariance. Feeding a stream in any fragments gives the verdict, the request
      and the left-over bytes of one call on the whole stream, unless a fragment boundary falls
      between the CR and the LF of a first line of exactly the permitted length; then feeding
      always ends in an error. */
  lemma FragmentationInvariance(limits: Limits, fragments: seq<string>)
    ensures var f, w := Feed(limits, START, "", fragments), Parse(limits, START, Joined(fragments));
      if SplitsLineEnd(limits, "", fragments) then f.verdict == Error else SameAnswer(f, w)
  {
    assert FindCrlf("").None?;
    NoLineYet(limits, START, "");
    FeedRequestLine(limits, START, "", fragments);
    assert "" + Joined(fragments) == Joined(fragments);
  }

  /** So the split changes the answer exactly when it separates that CR from its LF and the
      stream as a whole is not an error. */
  lemma SplitMattersIff(limits: Limits, fragments: seq<string>)
    ensures SameAnswer(Feed(limits, START, "", fragments), Parse(limits, START, Joined(fragments))) <==>
      (SplitsLineEnd(limits, "", fragments) ==> Parse(limits, START, Joined(fragments)).verdict == Error)
  {
    FragmentationInvariance(limits, fragments);
  }
}
