/** `HttpParser`: the resumable parser object, proved to compute `HttpParsing.Parse`. */
module HttpParsers {
  import opened Options
  import opened Buffers
  import T = Text
  import H = HttpParsing

  class HttpParser {
    const limits: H.Limits
    var phase: H.Phase
    var request: H.Request
    var contentLength: nat
    var headerBytes: nat
    var contentLengthSeen: bool

    function View(): H.Parser
      reads this
    {
      H.Parser(phase, request, contentLength, headerBytes, contentLengthSeen)
    }

    constructor (limits: H.Limits)
      ensures View() == H.START && this.limits == limits
    {
      this.limits := limits;
      phase, request := H.RequestLine, H.START.request;
      contentLength, headerBytes, contentLengthSeen := 0, 0, false;
    }

    method Reset()
      modifies this
      ensures View() == H.START
    {
      phase, request := H.RequestLine, H.START.request;
      contentLength, headerBytes, contentLengthSeen := 0, 0, false;
    }

    /** One call: verdict, parser state and remaining bytes are those of the specification, and
        the buffer's storage is neither replaced nor written. */
    method Parse(buffer: Buffer) returns (result: H.Verdict)
      requires buffer.Valid()
      modifies this, buffer
      ensures buffer.Valid() && buffer.buf == old(buffer.buf)
      ensures H.Outcome(result, View(), buffer.Contents()) == H.Parse(limits, old(View()), old(buffer.Contents()))
    {
      while true
        invariant buffer.Valid() && buffer.buf == old(buffer.buf)
        invariant H.Parse(limits, View(), buffer.Contents()) == H.Parse(limits, old(View()), old(buffer.Contents()))
        decreases H.Rank(phase)
      {
        var before := phase;
        match phase {
          case RequestLine => result := ParseRequestLine(buffer);
          case Headers => result := ParseHeaders(buffer);
          case Body => result := ParseBody(buffer);
          case Done => return H.Complete;
        }
        if result == H.Error || result == H.Complete {
          return;
        }
        if phase == before {
          return H.Incomplete;
        }
      }
    }

    method ParseRequestLine(buffer: Buffer) returns (result: H.Verdict)
      requires buffer.Valid() && phase == H.RequestLine
      modifies this, buffer
      ensures buffer.Valid() && buffer.buf == old(buffer.buf)
      ensures H.Outcome(result, View(), buffer.Contents()) ==
        H.ParseRequestLine(limits, old(View()), old(buffer.Contents()))
    {
      var end := buffer.FindCrlf();
      if end == None {
        return if buffer.Readable() > limits.requestLineBytes then H.Error else H.Incomplete;
      }
      if end.value > limits.requestLineBytes {
        return H.Error;
      }
      var line := buffer.Peek(end.value);
      var consumed := buffer.Consume(end.value + 2);
      var words := T.Words(line);
      request := H.WithWords(request, words);
      if |words| != 3 || !H.SupportedVersion(words[2]) {
        return H.Error;
      }
      phase := H.Headers;
      return H.Incomplete;
    }

    method ParseHeaders(buffer: Buffer) returns (result: H.Verdict)
      requires buffer.Valid() && phase == H.Headers
      modifies this, buffer
      ensures buffer.Valid() && buffer.buf == old(buffer.buf)
      ensures H.Outcome(result, View(), buffer.Contents()) ==
        H.ParseHeaders(limits, old(View()), old(buffer.Contents()))
    {
      while true
        invariant buffer.Valid() && buffer.buf == old(buffer.buf) && phase == H.Headers
        invariant H.ParseHeaders(limits, View(), buffer.Contents()) ==
                    H.ParseHeaders(limits, old(View()), old(buffer.Contents()))
        decreases buffer.Readable()
      {
        var end := buffer.FindCrlf();
        if end == None {
          return if headerBytes + buffer.Readable() > limits.headerBytes then H.Error else H.Incomplete;
        }
        if headerBytes + end.value + 2 > limits.headerBytes {
          return H.Error;
        }
        var ok := TakeLine(buffer, end.value);
        if !ok {
          return H.Error;
        }
        if phase != H.Headers {
          return H.Incomplete;
        }
      }
    }

    /** The loop body once a line of `end` bytes is known to be there and within the limit. */
    method TakeLine(buffer: Buffer, end: nat) returns (ok: bool)
      requires buffer.Valid() && phase == H.Headers && end + 2 <= buffer.Readable()
      modifies this, buffer
      ensures buffer.Valid() && buffer.buf == old(buffer.buf)
      ensures var s := old(buffer.Contents());
        var turn := H.TakeLine(limits, old(View()), s[..end], s[end + 2..]);
        && ok == !turn.Refused? && (phase == H.Headers <==> turn.NextLine? || turn.Refused?)
        && !turn.NeedMore? && View() == turn.parser && buffer.Contents() == turn.rest
    {
      headerBytes := headerBytes + end + 2;
      if end == 0 {
        var blank := buffer.Consume(2);
        phase := if contentLength == 0 then H.Done else H.Body;
        return true;
      }
      var line := buffer.Peek(end);
      var consumed := buffer.Consume(end + 2);
      ok := ParseField(line);
    }

    /** One header line. */
    method ParseField(line: string) returns (ok: bool)
      modifies this
      ensures var r := H.ParseField(limits, old(View()), line);
        ok == r.Some? && View() == if ok then r.value else old(View())
    {
      var colon := T.FindColon(line);
      if colon == None {
        return false;
      }
      var key := T.Trim(line[..colon.value]);
      var value := T.Trim(line[colon.value + 1..]);
      if key == "" {
        return false;
      }
      if T.IEquals(key, "Content-Length") {
        var parsed := T.ParseSize(value);
        if parsed == None || parsed.value > limits.bodyBytes {
          return false;
        }
        if contentLengthSeen && parsed.value != contentLength {
          return false;
        }
        contentLengthSeen := true;
        contentLength := parsed.value;
      } else if T.IEquals(key, "Transfer-Encoding") && !T.IEquals(value, "identity") {
        return false;
      }
      request := request.(headers := request.headers[key := value]);
      return true;
    }

    method ParseBody(buffer: Buffer) returns (result: H.Verdict)
      requires buffer.Valid() && phase == H.Body
      modifies this, buffer
      ensures buffer.Valid() && buffer.buf == old(buffer.buf)
      ensures H.Outcome(result, View(), buffer.Contents()) ==
        H.ParseBody(limits, old(View()), old(buffer.Contents()))
    {
      if contentLength > limits.bodyBytes {
        return H.Error;
      }
      if buffer.Readable() < contentLength {
        return H.Incomplete;
      }
      var body := buffer.Peek(contentLength);
      request := request.(body := body);
      var consumed := buffer.Consume(contentLength);
      phase := H.Done;
      return H.Complete;
    }
  }
}
