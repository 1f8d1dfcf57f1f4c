/** `serve_http`: a whole HTTP connection over a socket that delivers any chunks. */
module ServeHttp {
  import opened Options
  import opened Buffers
  import opened HttpFragments
  import opened HttpParsers
  import opened HttpReplies
  import H = HttpParsing
  import S = HttpSessions

  /** The read size of the server. */
  const READ_BYTES: nat := 16 * 1024

  const INITIAL_BYTES: nat := 4096

  /** No buffer of a connection is ever larger than this. */
  const PEAK_BYTES: nat := S.Backlog(H.DEFAULT_LIMITS) + 2 * READ_BYTES - 1

  function Echoes(requests: seq<H.Request>): seq<Reply> {
    seq(|requests|, i requires 0 <= i < |requests| => Echo(requests[i]))
  }

  /** Everything the connection has to say. */
  function Transcript(served: S.Served): seq<Reply> {
    Echoes(served.requests) + if served.last.verdict == H.Error then [BadRequest] else []
  }

  /** `read_some`: room for a whole read is made, whatever arrives then. */
  method ReadSome(input: Buffer, chunks: seq<string>, next: nat, peak: nat) returns (more: bool, peak': nat)
    requires input.Valid() && |input.Contents()| <= S.Backlog(H.DEFAULT_LIMITS)
      && input.buf.Length <= peak <= PEAK_BYTES
    requires next <= |chunks| && forall i :: 0 <= i < |chunks| ==> |chunks[i]| <= READ_BYTES
    modifies input, input.buf
    ensures input.Valid() && (input.buf == old(input.buf) || fresh(input.buf))
    ensures input.buf.Length <= peak' <= PEAK_BYTES && peak <= peak' && more == (next < |chunks|)
    ensures input.Contents() == if more then old(input.Contents()) + chunks[next] else old(input.Contents())
  {
    var room := input.EnsureWritable(READ_BYTES);
    peak' := if input.buf.Length > peak then input.buf.Length else peak;
    more := next < |chunks|;
    if more {
      input.Fill(chunks[next]);
      var committed := input.HasWritten(|chunks[next]|);
    }
  }

  /** What is left to serve, seen from the loop head, when `next` chunks have been read. */
  ghost predicate Ahead(served: S.Served, done: seq<H.Request>, p: H.Parser, buffer: string, chunks: seq<string>,
                        next: nat)
  {
    && next <= |chunks|
    && var rest := S.Serve(H.DEFAULT_LIMITS, p, buffer, chunks[next..]);
      served.requests == done + rest.requests && served.last == rest.last
  }

  lemma AheadStart(chunks: seq<string>)
    ensures Ahead(S.Serve(H.DEFAULT_LIMITS, H.START, "", chunks), [], H.START, "", chunks, 0)
  {
    assert chunks[0..] == chunks;
  }

  lemma AheadComplete(served: S.Served, done: seq<H.Request>, p: H.Parser, buffer: string, chunks: seq<string>,
                      next: nat)
    requires Ahead(served, done, p, buffer, chunks, next)
    requires H.Parse(H.DEFAULT_LIMITS, p, buffer).verdict == H.Complete
    ensures var o := H.Parse(H.DEFAULT_LIMITS, p, buffer);
      Ahead(served, done + [o.parser.request], H.START, o.rest, chunks, next)
        && done + [o.parser.request] <= served.requests
  {
    var o := H.Parse(H.DEFAULT_LIMITS, p, buffer);
    var rest := S.Serve(H.DEFAULT_LIMITS, H.START, o.rest, chunks[next..]);
    assert served.requests == done + ([o.parser.request] + rest.requests);
    assert done + ([o.parser.request] + rest.requests) == done + [o.parser.request] + rest.requests;
  }

  lemma AheadRead(served: S.Served, done: seq<H.Request>, p: H.Parser, buffer: string, chunks: seq<string>, next: nat)
    requires Ahead(served, done, p, buffer, chunks, next) && next < |chunks|
    requires H.Parse(H.DEFAULT_LIMITS, p, buffer).verdict == H.Incomplete
    ensures var o := H.Parse(H.DEFAULT_LIMITS, p, buffer);
      Ahead(served, done, o.parser, o.rest + chunks[next], chunks, next + 1)
  {
    assert chunks[next..][0] == chunks[next] && chunks[next..][1..] == chunks[next + 1..];
  }

  lemma AheadLast(served: S.Served, done: seq<H.Request>, p: H.Parser, buffer: string, chunks: seq<string>, next: nat)
    requires Ahead(served, done, p, buffer, chunks, next)
    requires var v := H.Parse(H.DEFAULT_LIMITS, p, buffer).verdict;
      v == H.Error || (v == H.Incomplete && next == |chunks|)
    ensures served.requests == done && served.last == H.Parse(H.DEFAULT_LIMITS, p, buffer)
  {
  }

  /** One call of the parser, with what its verdict means for the rest of the connection. */
  method ParseTurn(parser: HttpParser, input: Buffer, ghost served: S.Served, ghost done: seq<H.Request>,
                   ghost chunks: seq<string>, ghost next: nat)
      returns (parsed: H.Verdict)
    requires input.Valid() && parser.limits == H.DEFAULT_LIMITS && S.WithinLimits(H.DEFAULT_LIMITS, parser.View())
    requires Ahead(served, done, parser.View(), input.Contents(), chunks, next)
    modifies parser, input
    ensures input.Valid() && input.buf == old(input.buf) && input.Readable() <= old(input.Readable())
    ensures parsed == H.Complete ==>
      && (old(parser.phase) == H.RequestLine ==> input.Readable() < old(input.Readable()))
      && Ahead(served, done + [parser.request], H.START, input.Contents(), chunks, next)
      && done + [parser.request] <= served.requests
    ensures parsed == H.Error || (parsed == H.Incomplete && next == |chunks|) ==>
      served.requests == done && served.last.verdict == parsed
    ensures parsed == H.Incomplete ==>
      S.WithinLimits(H.DEFAULT_LIMITS, parser.View()) && |input.Contents()| <= S.Backlog(H.DEFAULT_LIMITS)
    ensures parsed == H.Incomplete && next < |chunks| ==>
      Ahead(served, done, parser.View(), input.Contents() + chunks[next], chunks, next + 1)
  {
    ghost var p, s := parser.View(), input.Contents();
    S.ParseConsumes(H.DEFAULT_LIMITS, p, s);
    S.IncompleteIsBounded(H.DEFAULT_LIMITS, p, s);
    parsed := parser.Parse(input);
    if parsed == H.Complete {
      AheadComplete(served, done, p, s, chunks, next);
    } else if parsed == H.Incomplete && next < |chunks| {
      AheadRead(served, done, p, s, chunks, next);
    } else {
      AheadLast(served, done, p, s, chunks, next);
    }
  }

  /** The text of the echoes of `done`. */
  function Echoed(done: seq<H.Request>): string {
    Joined(Texts(Echoes(done)))
  }

  lemma OneMoreEcho(done: seq<H.Request>, request: H.Request)
    ensures Echoed(done + [request]) == Echoed(done) + Render(Echo(request))
  {
    assert Texts(Echoes(done + [request])) == Texts(Echoes(done)) + [Render(Echo(request))];
    JoinedAppend(Texts(Echoes(done)), Render(Echo(request)));
  }

  /** The write of the next echo fails. */
  lemma CutShort(served: S.Served, done: seq<H.Request>, partial: nat)
    requires done <= served.requests && |done| < |served.requests|
    ensures Delivered(Texts(Transcript(served)), |done|, partial) ==
      Echoed(done) + Prefix(Render(Echo(served.requests[|done|])), partial)
  {
    assert Texts(Transcript(served))[..|done|] == Texts(Echoes(done));
  }

  /** There is nothing more to say, or only the 400. */
  lemma AllSaid(served: S.Served, writes: nat, partial: nat)
    requires |served.requests| <= writes
    ensures var bad := Render(BadRequest);
      Delivered(Texts(Transcript(served)), writes, partial) == Echoed(served.requests) +
        if served.last.verdict != H.Error then "" else if |served.requests| < writes then bad else Prefix(bad, partial)
  {
    var echoes := Texts(Echoes(served.requests));
    if served.last.verdict == H.Error {
      assert Texts(Transcript(served)) == echoes + [Render(BadRequest)];
      JoinedAppend(echoes, Render(BadRequest));
      assert (echoes + [Render(BadRequest)])[..|echoes|] == echoes;
    } else {
      assert Texts(Transcript(served)) == echoes;
      assert Joined(echoes) + "" == Joined(echoes);
    }
  }

  /** Writes the echo of the next request, or the part of it that can be written. */
  method WriteEcho(sent: string, request: H.Request, writes: nat, partial: nat, written: nat,
                   ghost served: S.Served, ghost done: seq<H.Request>) returns (ok: bool, sent': string)
    requires sent == Echoed(done) && |done| == written <= writes
    requires done + [request] <= served.requests
    ensures ok == (written < writes)
    ensures sent' == if ok then Echoed(done + [request]) else Delivered(Texts(Transcript(served)), writes, partial)
  {
    OneMoreEcho(done, request);
    ok := written < writes;
    if ok {
      sent' := sent + Render(Echo(request));
    } else {
      CutShort(served, done, partial);
      sent' := sent + Prefix(Render(Echo(request)), partial);
    }
  }

  /** Ends the connection, with a 400 if the stream is malformed. */
  method Finish(sent: string, malformed: bool, writes: nat, partial: nat, written: nat, ghost served: S.Served)
      returns (sent': string)
    requires sent == Echoed(served.requests) && |served.requests| == written <= writes
    requires malformed == (served.last.verdict == H.Error)
    ensures sent' == Delivered(Texts(Transcript(served)), writes, partial)
  {
    AllSaid(served, writes, partial);
    if malformed {
      sent' := sent + if written < writes then Render(BadRequest) else Prefix(Render(BadRequest), partial);
    } else {
      sent' := sent;
      assert sent + "" == sent;
    }
  }

  /** How far a connection has come: chunks read, replies written, what was sent, and the largest
      size the buffer had. */
  datatype Progress = Progress(next: nat, written: nat, sent: string, peak: nat)

  ghost predicate Serving(input: Buffer, parser: HttpParser, chunks: seq<string>, writes: nat, at: Progress,
                          served: S.Served, done: seq<H.Request>)
    reads input, input.buf, parser
  {
    && input.Valid() && parser.limits == H.DEFAULT_LIMITS && S.WithinLimits(H.DEFAULT_LIMITS, parser.View())
    && |done| == at.written <= writes && at.sent == Echoed(done)
    && Ahead(served, done, parser.View(), input.Contents(), chunks, at.next)
    && input.buf.Length <= at.peak <= PEAK_BYTES
  }

  /** One turn of the loop. */
  method Turn(input: Buffer, parser: HttpParser, chunks: seq<string>, writes: nat, partial: nat, at: Progress,
              ghost served: S.Served, ghost done: seq<H.Request>)
      returns (over: bool, at': Progress, ghost done': seq<H.Request>)
    requires Serving(input, parser, chunks, writes, at, served, done)
    requires forall i :: 0 <= i < |chunks| ==> |chunks[i]| <= READ_BYTES
    modifies input, input.buf, parser
    ensures input.Valid() && (input.buf == old(input.buf) || fresh(input.buf)) && at'.peak <= PEAK_BYTES
    ensures over ==> at'.sent == Delivered(Texts(Transcript(served)), writes, partial)
    ensures !over ==> Serving(input, parser, chunks, writes, at', served, done')
    ensures !over ==>
      || at.next < at'.next
      || (at.next == at'.next && input.Readable() < old(input.Readable()))
      || (at.next == at'.next && input.Readable() == old(input.Readable())
           && parser.phase == H.RequestLine != old(parser.phase))
  {
    done' := done;
    var parsed := ParseTurn(parser, input, served, done, chunks, at.next);
    if parsed == H.Complete {
      var ok, sent := WriteEcho(at.sent, parser.request, writes, partial, at.written, served, done);
      if !ok {
        return true, at.(sent := sent), done;
      }
      done' := done + [parser.request];
      parser.Reset();
      return false, at.(written := at.written + 1, sent := sent), done';
    }
    if parsed == H.Error {
      var sent := Finish(at.sent, true, writes, partial, at.written, served);
      return true, at.(sent := sent), done';
    }
    var more, peak := ReadSome(input, chunks, at.next, at.peak);
    if !more {
      var sent := Finish(at.sent, false, writes, partial, at.written, served);
      return true, at.(sent := sent, peak := peak), done';
    }
    return false, at.(next := at.next + 1, peak := peak), done';
  }

  /** Serves the chunks that `read_some` delivers; after the last of them the read fails. The
      first `writes` writes succeed and the next one fails after `partial` bytes.

      What is sent is the answer to every request the specification serves, in order, and a final
      400 if the stream turns out malformed, cut short only by a failed write. The buffer, whose
      size is at most `peak` throughout, stays within its bound. */
  method Connection(chunks: seq<string>, writes: nat, partial: nat) returns (sent: string, peak: nat)
    requires forall i :: 0 <= i < |chunks| ==> |chunks[i]| <= READ_BYTES
    ensures peak <= PEAK_BYTES
    ensures sent == Delivered(Texts(Transcript(S.Serve(H.DEFAULT_LIMITS, H.START, "", chunks))), writes, partial)
  {
    var input := new Buffer(INITIAL_BYTES);
    var parser := new HttpParser(H.DEFAULT_LIMITS);
    var at, over := Progress(0, 0, "", INITIAL_BYTES), false;
    ghost var served := S.Serve(H.DEFAULT_LIMITS, H.START, "", chunks);
    ghost var done: seq<H.Request> := [];
    AheadStart(chunks);
    while !over
      invariant fresh(input) && fresh(input.buf) && fresh(parser) && input.Valid() && at.peak <= PEAK_BYTES
      invariant !over ==> Serving(input, parser, chunks, writes, at, served, done)
      invariant over ==> at.sent == Delivered(Texts(Transcript(served)), writes, partial)
      decreases !over, |chunks| - at.next, input.Readable(), if parser.phase == H.RequestLine then 0 else 1
    {
      over, at, done := Turn(input, parser, chunks, writes, partial, at, served, done);
    }
    return at.sent, at.peak;
  }
}
