/** `TcpStream`: whole reads and writes with one deadline, over a socket that may deliver and accept
    any number of bytes and over waits that end as the executor lets them end. */
module TcpStreams {
  import opened Options
  import opened Frames
  import opened Buffers
  import opened ExecutorInvariant
  import opened IoRecords
  import opened IoContexts
  import E = Executor
  import Runs = ExecutorRuns
  import T = Text

  // ---------------------------------------------------------------- deadlines

  datatype Deadline = Deadline(enabled: bool, at: nat)

  function MakeDeadline(timeout: int, now: nat): Deadline {
    if 0 <= timeout then Deadline(true, now + timeout * MS) else Deadline(false, 0)
  }

  /** The time left, in milliseconds. */
  function Remaining(d: Deadline, now: nat): int {
    if !d.enabled then -1
    else if d.at <= now then 0
    else
      var milliseconds := (d.at - now) / MS;
      if milliseconds * MS < d.at - now then milliseconds + 1 else milliseconds
  }

  /** A wait for the time left does not end before the deadline, nor a whole millisecond late. */
  lemma RemainingRoundsUp(d: Deadline, now: nat)
    ensures Remaining(d, now) < 0 <==> !d.enabled
    ensures d.enabled ==> d.at <= now + Remaining(d, now) * MS
    ensures d.enabled && now < d.at ==> now + Remaining(d, now) * MS < d.at + MS
    ensures d.enabled ==> (Remaining(d, now) == 0 <==> d.at <= now)
  {
  }

  // ---------------------------------------------------------------- the environment

  /** What becomes of a wait, as a script. It is refused, because its direction already has a waiter
      or because it cannot be registered, or it ends, `delay` nanoseconds later than it has to.
      `closed` says that the stream is closed before the waiting coroutine goes on. */
  datatype Wake = Refused | Wake(ready: bool, closed: bool, delay: nat)

  /** The result of the wait. A wait that has no timeout and is not cancelled ends by readiness. */
  function WakeResult(w: Wake, timeout: int): bool
    requires w.Wake?
  {
    w.ready || (!w.closed && timeout < 0)
  }

  /** When the coroutine goes on. A wait that expires does so at its deadline or later. */
  function WakeTime(w: Wake, timeout: int, armedAt: nat): nat
    requires w.Wake?
  {
    armedAt + w.delay + if WakeResult(w, timeout) || w.closed || timeout < 0 then 0 else timeout * MS
  }

  /** Whatever the executor allows, some script does: a wait ends with the right result, false only
      by its deadline or by a cancel, which only `close` calls. */
  lemma EveryWakeIsScripted(key: Key, f: FrameId, timeout: int, armedAt: nat, ended: E.Ended, at: nat) returns (w: Wake)
    requires RightCause(E.Armed(key, f, DeadlineOf(timeout, armedAt)), ended)
    requires armedAt <= at && (ended.cause.ByDeadline? ==> ended.cause.now <= at)
    ensures w.Wake? && w.closed == ended.cause.ByCancel?
    ensures WakeResult(w, timeout) == ended.result && WakeTime(w, timeout, armedAt) == at
  {
    match ended.cause
    case ByReadiness(_) => w := Wake(true, false, at - armedAt);
    case ByDeadline(_) => w := Wake(false, false, at - armedAt - timeout * MS);
    case ByCancel(_) => w := Wake(false, true, at - armedAt);
  }

  /** A wait of a stream operation as the executor carried it out: when the time left was computed,
      when the wait was armed and under which token (none if it was refused), and when the
      coroutine went on. */
  datatype WaitEvent = WaitEvent(asked: nat, armedAt: nat, token: Option<nat>, at: nat)

  /** The event is in the log of the executor: a wait for the time left of `deadline`, after `clock`. */
  ghost predicate Logged(log: E.Log, key: Key, deadline: Deadline, clock: nat, wait: WaitEvent) {
    && clock <= wait.asked <= wait.armedAt <= wait.at
    && match wait.token
       case None => wait.at == wait.armedAt
       case Some(t) =>
         && t in log.armed && log.armed[t].key == key
         && log.armed[t].deadline == DeadlineOf(Remaining(deadline, wait.asked), wait.armedAt)
         && t in log.ended && (log.ended[t].cause.ByDeadline? ==> log.ended[t].cause.now <= wait.at)
  }

  /** The waits of one operation, one after the other. */
  ghost predicate AllLogged(log: E.Log, key: Key, deadline: Deadline, clock: nat, waits: seq<WaitEvent>)
    decreases |waits|
  {
    waits == [] ||
    (Logged(log, key, deadline, clock, waits[0]) && AllLogged(log, key, deadline, waits[0].at, waits[1..]))
  }

  /** The script of a wait: how long it takes to ask for it, and then to arm it. */
  datatype ScriptedWait = ScriptedWait(took: nat, pause: nat, wake: Wake)

  /** The scripted wait gives the operation the same result at the same time. */
  ghost predicate Replays(log: E.Log, deadline: Deadline, clock: nat, wait: WaitEvent, script: ScriptedWait) {
    && clock + script.took == wait.asked && wait.asked + script.pause == wait.armedAt
    && match wait.token
       case None => script.wake.Refused?
       case Some(t) =>
         && t in log.ended && script.wake.Wake?
         && WakeResult(script.wake, Remaining(deadline, wait.asked)) == log.ended[t].result
         && WakeTime(script.wake, Remaining(deadline, wait.asked), wait.armedAt) == wait.at
         && script.wake.closed == log.ended[t].cause.ByCancel?
  }

  ghost predicate AllReplayed(log: E.Log, deadline: Deadline, clock: nat, waits: seq<WaitEvent>,
                              script: seq<ScriptedWait>)
    decreases |waits|
  {
    && |waits| == |script|
    && (waits == [] ||
        (Replays(log, deadline, clock, waits[0], script[0])
         && AllReplayed(log, deadline, waits[0].at, waits[1..], script[1..])))
  }

  /** A stream operation that the executor carries out, in any run, goes as one of the scripts says. */
  lemma {:induction false} OperationIsScripted(acts: seq<Runs.Act>, key: Key, deadline: Deadline, clock: nat,
                                               waits: seq<WaitEvent>)
      returns (script: seq<ScriptedWait>)
    requires AllLogged(Runs.Run(acts).log, key, deadline, clock, waits)
    ensures AllReplayed(Runs.Run(acts).log, deadline, clock, waits, script)
    decreases |waits|
  {
    script := [];
    if waits != [] {
      var first := WaitIsScripted(acts, key, deadline, clock, waits[0]);
      var rest := OperationIsScripted(acts, key, deadline, waits[0].at, waits[1..]);
      script := [first] + rest;
      assert script[1..] == rest;
    }
  }

  lemma WaitIsScripted(acts: seq<Runs.Act>, key: Key, deadline: Deadline, clock: nat, wait: WaitEvent)
      returns (script: ScriptedWait)
    requires Logged(Runs.Run(acts).log, key, deadline, clock, wait)
    ensures Replays(Runs.Run(acts).log, deadline, clock, wait, script)
  {
    script := ScriptedWait(wait.asked - clock, wait.armedAt - wait.asked, Refused);
    if wait.token.Some? {
      var t, timeout := wait.token.value, Remaining(deadline, wait.asked);
      var armed, ended := Runs.Run(acts).log.armed[t], Runs.Run(acts).log.ended[t];
      Runs.WaitsEndOnce(acts, [], t);
      var w := EveryWakeIsScripted(key, armed.frame, timeout, wait.armedAt, ended, wait.at);
      script := script.(wake := w);
    }
  }

  /** No wait of an operation ends with false before the operation's own deadline has come, in any
      run, unless the descriptor is cancelled. */
  lemma FalseOnlyAfterDeadline(acts: seq<Runs.Act>, key: Key, deadline: Deadline, clock: nat, wait: WaitEvent)
    requires Logged(Runs.Run(acts).log, key, deadline, clock, wait) && wait.token.Some?
    ensures var ended := Runs.Run(acts).log.ended[wait.token.value];
      match ended.cause
      case ByReadiness(k) => ended.result && k == key
      case ByDeadline(now) => !ended.result && deadline.enabled && deadline.at <= now <= wait.at
      case ByCancel(fd) => !ended.result && fd == key.fd
  {
    Runs.WaitsEndOnce(acts, [], wait.token.value);
    RemainingRoundsUp(deadline, wait.asked);
  }

  /** `Received("")` is a `recv` that returns 0: the end of the stream. */
  datatype RecvOutcome = Received(data: string) | RecvInterrupted | RecvBlocks | RecvFails(errno: int)

  /** `Accepted(0)` is a `send` that returns 0. */
  datatype SendOutcome = Accepted(count: nat) | SendInterrupted | SendBlocks | SendFails(errno: int)

  /** One `recv`, and the wait that follows it if it would block; likewise for `send`. */
  datatype ReadStep = ReadStep(call: RecvOutcome, wait: ScriptedWait)

  datatype WriteStep = WriteStep(call: SendOutcome, wait: ScriptedWait)

  datatype IoStatus = Ok | Eof | Timeout | Closed | Error

  datatype IoResult = IoResult(status: IoStatus, bytes: nat, errno: int)

  const EBADF := 9

  datatype WaitResult = WaitThrows | Waited(ready: bool)

  /** An operation finishes, throws, or is still suspended or at work when the script is over. */
  datatype Outcome = CoReturn(result: IoResult) | Throws | Pending

  // ---------------------------------------------------------------- where an operation ends

  /** The wait lets the operation go on: it is not refused, the stream stays open, and it ends by
      readiness, as it must if it has no timeout. */
  predicate LetsGoOn(wake: Wake, timed: bool) {
    wake.Wake? && !wake.closed && (wake.ready || !timed)
  }

  /** How the operation ends at a wait that does not; `bytes` have been transferred. */
  function WaitOutcome(wake: Wake, bytes: nat): Outcome {
    if wake.Refused? then Throws
    else if wake.closed then CoReturn(IoResult(Closed, bytes, EBADF))
    else CoReturn(IoResult(Timeout, bytes, 0))
  }

  function FdAfter(wake: Wake, fd: int): int {
    if wake.Wake? && wake.closed then -1 else fd
  }

  function ClockAfter(wait: ScriptedWait, deadline: Deadline, clock: nat): nat {
    var asked := clock + wait.took;
    if wait.wake.Refused? then asked + wait.pause
    else WakeTime(wait.wake, Remaining(deadline, asked), asked + wait.pause)
  }

  /** A wait that expires does so at the deadline of the operation, or less than a millisecond after
      it, or after it was asked for if that is later; not counting the time it takes to arm it and
      to go on. */
  lemma ExpiresInTime(timeout: int, start: nat, wait: ScriptedWait, clock: nat)
    requires 0 <= timeout && wait.wake.Wake? && !wait.wake.ready && !wait.wake.closed
    ensures var asked, end := clock + wait.took, start + timeout * MS;
      var at := ClockAfter(wait, MakeDeadline(timeout, start), clock);
      end <= at < (if asked < end then end else asked) + MS + wait.pause + wait.wake.delay
  {
    RemainingRoundsUp(MakeDeadline(timeout, start), clock + wait.took);
  }

  /** The same for the deadline under which the executor arms it. */
  lemma ArmedInTime(timeout: int, start: nat, asked: nat, armedAt: nat)
    requires 0 <= timeout && asked <= armedAt
    ensures var end := start + timeout * MS;
      var deadline := DeadlineOf(Remaining(MakeDeadline(timeout, start), asked), armedAt);
      && deadline.Some?
      && end <= deadline.value < (if asked < end then end else asked) + MS + (armedAt - asked)
  {
    RemainingRoundsUp(MakeDeadline(timeout, start), asked);
  }

  lemma UntimedHasNoDeadline(timeout: int, start: nat, asked: nat, armedAt: nat)
    requires timeout < 0
    ensures DeadlineOf(Remaining(MakeDeadline(timeout, start), asked), armedAt) == None
  {
  }

  /** A `recv` that does not end the operation. */
  predicate Passes(step: ReadStep, timed: bool) {
    step.call.RecvInterrupted? || (step.call.RecvBlocks? && LetsGoOn(step.wait.wake, timed))
  }

  /** What a `recv` that does not block means for the caller. */
  function Answer(call: RecvOutcome, maxBytes: nat): IoResult
    requires call.Received? || call.RecvFails?
  {
    match call
    case Received(data) => if data == "" then IoResult(Eof, 0, 0) else IoResult(Ok, |Upto(data, maxBytes)|, 0)
    case RecvFails(errno) => IoResult(Error, 0, errno)
  }

  function Upto(s: string, n: nat): string {
    if n < |s| then s[..n] else s
  }

  /** How the operation ends with this step. */
  function StopOutcome(step: ReadStep, timed: bool, maxBytes: nat): Outcome
    requires !Passes(step, timed)
  {
    if step.call.RecvBlocks? then WaitOutcome(step.wait.wake, 0) else CoReturn(Answer(step.call, maxBytes))
  }

  function Gained(step: ReadStep, maxBytes: nat): string {
    if step.call.Received? then Upto(step.call.data, maxBytes) else ""
  }

  /** A read goes past the first `at` steps of the script and ends with the next one, if there is one. */
  ghost predicate ReadGoes(script: seq<ReadStep>, timed: bool, maxBytes: nat, at: nat, r: Outcome) {
    && at <= |script| && (forall k :: 0 <= k < at ==> Passes(script[k], timed))
    && if at == |script| then r == Pending
       else !Passes(script[at], timed) && r == StopOutcome(script[at], timed, maxBytes)
  }

  /** Exactly when a read times out, finds the stream closed, or throws: at the first step that is a
      refused wait, a wait that ends with false, or a call that decides. */
  lemma ReadOutcomes(script: seq<ReadStep>, timed: bool, maxBytes: nat, at: nat, r: Outcome)
    requires ReadGoes(script, timed, maxBytes, at, r)
    ensures var wait := if at < |script| && script[at].call.RecvBlocks? then Some(script[at].wait.wake) else None;
      && (r == CoReturn(IoResult(Timeout, 0, 0)) <==>
            wait.Some? && wait.value.Wake? && !wait.value.closed && !wait.value.ready && timed)
      && (r == CoReturn(IoResult(Closed, 0, EBADF)) <==> wait.Some? && wait.value.Wake? && wait.value.closed)
      && (r == Throws <==> wait.Some? && wait.value.Refused?)
  {
  }

  /** The clock before step `i`. */
  function ReadClock(script: seq<ReadStep>, i: nat, deadline: Deadline, start: nat): nat
    requires i <= |script|
  {
    if i == 0 then start
    else
      var clock := ReadClock(script, i - 1, deadline, start);
      if script[i - 1].call.RecvBlocks? then ClockAfter(script[i - 1].wait, deadline, clock) else clock
  }

  /** A `send` that is followed by a wait. */
  predicate Blocks(call: SendOutcome) {
    call.SendBlocks? || call == Accepted(0)
  }

  /** A `send` that does not end the operation. */
  predicate WritePasses(step: WriteStep, timed: bool) {
    !step.call.SendFails? && (Blocks(step.call) ==> LetsGoOn(step.wait.wake, timed))
  }

  /** The bytes that the calls of the script would accept in all. */
  function Acceptance(script: seq<WriteStep>): nat {
    if script == [] then 0
    else
      var last := script[|script| - 1].call;
      Acceptance(script[..|script| - 1]) + if last.Accepted? then last.count else 0
  }

  /** How the operation ends with this step, when `written` bytes were accepted before. */
  function WriteStop(step: WriteStep, written: nat): Outcome {
    if step.call.SendFails? then CoReturn(IoResult(Error, written, step.call.errno))
    else WaitOutcome(step.wait.wake, written)
  }

  /** A write of `size` bytes goes past the first `at` steps of the script, which accept `written` of
      them, and ends because these are all or with the next step, if there is one. */
  ghost predicate WriteGoes(script: seq<WriteStep>, timed: bool, size: nat, at: nat, written: nat, r: Outcome) {
    && at <= |script| && (forall k :: 0 <= k < at ==> WritePasses(script[k], timed))
    && written == (if Acceptance(script[..at]) < size then Acceptance(script[..at]) else size)
    && if written == size then r == CoReturn(IoResult(Ok, size, 0))
       else if at == |script| then r == Pending
       else !WritePasses(script[at], timed) && r == WriteStop(script[at], written)
  }

  /** Exactly when a write succeeds, fails, times out, finds the stream closed, or throws. */
  lemma WriteOutcomes(script: seq<WriteStep>, timed: bool, size: nat, at: nat, written: nat, r: Outcome)
    requires WriteGoes(script, timed, size, at, written, r)
    ensures var stop := if written < size && at < |script| then Some(script[at]) else None;
      var wait := if stop.Some? && Blocks(stop.value.call) then Some(stop.value.wait.wake) else None;
      && (r == CoReturn(IoResult(Ok, size, 0)) <==> size <= Acceptance(script[..at]))
      && (r.CoReturn? && r.result.status == Error <==> stop.Some? && stop.value.call.SendFails?)
      && (r == CoReturn(IoResult(Timeout, written, 0)) <==>
            wait.Some? && wait.value.Wake? && !wait.value.closed && !wait.value.ready && timed)
      && (r == CoReturn(IoResult(Closed, written, EBADF)) <==> wait.Some? && wait.value.Wake? && wait.value.closed)
      && (r == Throws <==> wait.Some? && wait.value.Refused?)
  {
  }

  /** The step ends the write. */
  predicate Stopped(script: seq<WriteStep>, size: nat, at: nat, written: nat) {
    written < size && at < |script|
  }

  function WriteClock(script: seq<WriteStep>, i: nat, deadline: Deadline, start: nat): nat
    requires i <= |script|
  {
    if i == 0 then start
    else
      var clock := WriteClock(script, i - 1, deadline, start);
      if Blocks(script[i - 1].call) then ClockAfter(script[i - 1].wait, deadline, clock) else clock
  }

  class TcpStream {
    const context: IoContext
    var fd: int
    var clock: nat
    var received: string    // taken from the socket so far
    var sent: string        // handed to the socket so far

    constructor (context: IoContext, fd: int)
      requires 0 <= fd
      ensures this.context == context && this.fd == fd && received == sent == "" && clock == 0
    {
      this.context, this.fd := context, fd;
      clock, received, sent := 0, "", "";
    }

    /** Waits for at most the time left of `deadline`; throws if the wait is refused. */
    method Wait(deadline: Deadline, script: ScriptedWait) returns (r: WaitResult)
      requires 0 <= fd
      modifies `fd, `clock
      ensures r.WaitThrows? <==> script.wake.Refused?
      ensures r.Waited? ==> r.ready == WakeResult(script.wake, Remaining(deadline, old(clock) + script.took))
      ensures clock == ClockAfter(script, deadline, old(clock)) && fd == FdAfter(script.wake, old(fd))
      ensures LetsGoOn(script.wake, deadline.enabled) <==> r.Waited? && r.ready && 0 <= fd
      ensures r.Waited? && !r.ready && 0 <= fd ==> deadline.enabled && deadline.at <= clock
    {
      clock := clock + script.took;
      var timeout := Remaining(deadline, clock);
      RemainingRoundsUp(deadline, clock);
      clock := clock + script.pause;
      if script.wake.Refused? {
        return WaitThrows;
      }
      r := Waited(WakeResult(script.wake, timeout));
      clock := WakeTime(script.wake, timeout, clock);
      if script.wake.closed {
        fd := -1;
      }
    }

    /** Reads once. Interrupted calls, and calls that would block and whose wait ends by readiness, are
        repeated; the first other step of the script decides. Bytes are taken from the socket
        only together with `Ok`, and appended to the buffer. `at` is the number of steps passed. */
    method ReadSome(output: Buffer, maxBytes: nat, timeout: int, script: seq<ReadStep>)
        returns (r: Outcome, ghost at: nat)
      requires output.Valid()
      modifies `fd, `clock, `received, output, output.buf
      ensures output.Valid() && (output.buf == old(output.buf) || fresh(output.buf))
      ensures old(received) <= received && output.Contents() == old(output.Contents()) + received[|old(received)|..]
      ensures r.CoReturn? && r.result.status == Ok ==>
        r.result.bytes == |received| - |old(received)| <= maxBytes && (0 < maxBytes ==> 0 < r.result.bytes)
      ensures !(r.CoReturn? && r.result.status == Ok) ==> received == old(received)
      ensures r.CoReturn? && r.result.status == Timeout ==>
        0 <= timeout && old(clock) + timeout * MS <= clock && 0 <= fd
      ensures r.CoReturn? && r.result.status == Closed ==> fd < 0
      ensures old(fd) < 0 ==> r == CoReturn(IoResult(Closed, 0, EBADF)) && fd == old(fd)
      ensures 0 <= old(fd) && maxBytes == 0 ==> r == CoReturn(IoResult(Ok, 0, 0)) && fd == old(fd)
      ensures 0 <= old(fd) && 0 < maxBytes && !old(Fits(output, maxBytes)) ==> r == Throws && fd == old(fd)
      ensures 0 <= old(fd) && 0 < maxBytes && old(Fits(output, maxBytes)) ==>
        var deadline := MakeDeadline(timeout, old(clock));
        && ReadGoes(script, 0 <= timeout, maxBytes, at, r)
        && (at == |script| ==> fd == old(fd) && clock == ReadClock(script, at, deadline, old(clock)))
        && (at < |script| && !script[at].call.RecvBlocks? ==>
              && fd == old(fd) && clock == ReadClock(script, at, deadline, old(clock))
              && received == old(received) + Gained(script[at], maxBytes))
        && (at < |script| && script[at].call.RecvBlocks? ==>
              fd == FdAfter(script[at].wait.wake, old(fd)) && clock == ReadClock(script, at + 1, deadline, old(clock)))
    {
      assert received[|received|..] == "" && output.Contents() + "" == output.Contents();
      at := 0;
      if fd < 0 {
        return CoReturn(IoResult(Closed, 0, EBADF)), at;
      }
      if maxBytes == 0 {
        return CoReturn(IoResult(Ok, 0, 0)), at;
      }
      var deadline := MakeDeadline(timeout, clock);
      var room := output.EnsureWritable(maxBytes);
      if !room {
        return Throws, at;
      }
      r, at := ReceiveAll(output, maxBytes, deadline, script);
    }

    /** The loop of a read: calls and waits until a step decides. */
    method ReceiveAll(output: Buffer, maxBytes: nat, deadline: Deadline, script: seq<ReadStep>)
        returns (r: Outcome, ghost at: nat)
      requires output.Valid() && 0 < maxBytes <= output.Writable() && 0 <= fd
      modifies `fd, `clock, `received, output`writeIdx, output.buf
      ensures output.Valid() && ReadGoes(script, deadline.enabled, maxBytes, at, r)
      ensures var stops := at < |script| && script[at].call.RecvBlocks?;
        && fd == (if stops then FdAfter(script[at].wait.wake, old(fd)) else old(fd))
        && clock == ReadClock(script, if stops then at + 1 else at, deadline, old(clock))
      ensures var gained := if at < |script| then Gained(script[at], maxBytes) else "";
        received == old(received) + gained && output.Contents() == old(output.Contents()) + gained
      ensures r == CoReturn(IoResult(Timeout, 0, 0)) ==> deadline.enabled && deadline.at <= clock
    {
      assert received + "" == received && output.Contents() + "" == output.Contents();
      at := 0;
      for i := 0 to |script|
        invariant output.Valid() && maxBytes <= output.Writable() && fd == old(fd)
        invariant output.Contents() == old(output.Contents()) && received == old(received)
        invariant at == i && clock == ReadClock(script, i, deadline, old(clock))
        invariant forall k :: 0 <= k < i ==> Passes(script[k], deadline.enabled)
      {
        var end := Receive(output, maxBytes, deadline, script[i]);
        if end.Some? {
          return end.value, at;
        }
        at := i + 1;
      }
      return Pending, at;
    }

    /** There is room for `n` more bytes, or it can be made. */
    ghost predicate Fits(output: Buffer, n: nat)
      reads output
      requires output.Valid()
    {
      n <= output.Writable() || n <= output.readIdx + output.Writable() || output.writeIdx + n <= T.SIZE_MAX
    }

    /** One `recv`, and the wait for the next one if it would block. */
    method Receive(output: Buffer, maxBytes: nat, deadline: Deadline, step: ReadStep) returns (end: Option<Outcome>)
      requires output.Valid() && 0 < maxBytes <= output.Writable() && 0 <= fd
      modifies `fd, `clock, `received, output`writeIdx, output.buf
      ensures output.Valid() && received == old(received) + Gained(step, maxBytes)
      ensures output.Contents() == old(output.Contents()) + Gained(step, maxBytes)
      ensures !step.call.Received? ==> output.writeIdx == old(output.writeIdx)
      ensures clock == if step.call.RecvBlocks? then ClockAfter(step.wait, deadline, old(clock)) else old(clock)
      ensures fd == if step.call.RecvBlocks? then FdAfter(step.wait.wake, old(fd)) else old(fd)
      ensures if Passes(step, deadline.enabled) then end == None
              else end == Some(StopOutcome(step, deadline.enabled, maxBytes))
      ensures end == Some(CoReturn(IoResult(Timeout, 0, 0))) ==> deadline.enabled && deadline.at <= clock
    {
      assert received + "" == received && output.Contents() + "" == output.Contents();
      match step.call
      case Received(data) =>
        if data == "" {
          return Some(CoReturn(IoResult(Eof, 0, 0)));
        }
        var count := if |data| < maxBytes then |data| else maxBytes;
        TakeIn(output, data[..count]);
        return Some(CoReturn(IoResult(Ok, count, 0)));
      case RecvInterrupted =>
        return None;
      case RecvFails(errno) =>
        return Some(CoReturn(IoResult(Error, 0, errno)));
      case RecvBlocks =>
        var wait := Wait(deadline, step.wait);
        if wait.WaitThrows? {
          return Some(Throws);
        }
        if !wait.ready {
          return Some(CoReturn(if fd < 0 then IoResult(Closed, 0, EBADF) else IoResult(Timeout, 0, 0)));
        }
        return if fd < 0 then Some(CoReturn(IoResult(Closed, 0, EBADF))) else None;
    }

    /** A successful `recv` behind the write cursor, and its commit. */
    method TakeIn(output: Buffer, data: string)
      requires output.Valid() && |data| <= output.Writable()
      modifies `received, output`writeIdx, output.buf
      ensures output.Valid() && output.Contents() == old(output.Contents()) + data && received == old(received) + data
    {
      output.Fill(data);
      var committed := output.HasWritten(|data|);
      received := received + data;
    }

    /** Writes all of `data`. Whatever happens, the socket has been handed exactly its first
        `written` bytes, in order, which are all that the steps passed accept; `Ok` means all of
        `data`, and otherwise the first step that does not pass decides. */
    method WriteAll(data: string, timeout: int, script: seq<WriteStep>)
        returns (r: Outcome, written: nat, ghost at: nat)
      modifies `fd, `clock, `sent
      ensures written <= |data| && sent == old(sent) + data[..written]
      ensures r.CoReturn? ==> r.result.bytes == written && (r.result.status == Ok ==> written == |data|)
      ensures r.CoReturn? && r.result.status == Timeout ==>
        0 <= timeout && old(clock) + timeout * MS <= clock && 0 <= fd
      ensures r.CoReturn? && r.result.status == Closed ==> fd < 0
      ensures old(fd) < 0 ==> r == CoReturn(IoResult(Closed, 0, EBADF)) && fd == old(fd)
      ensures 0 <= old(fd) ==>
        var deadline := MakeDeadline(timeout, old(clock));
        && WriteGoes(script, 0 <= timeout, |data|, at, written, r)
        && if Stopped(script, |data|, at, written) && Blocks(script[at].call) then
             fd == FdAfter(script[at].wait.wake, old(fd)) && clock == WriteClock(script, at + 1, deadline, old(clock))
           else fd == old(fd) && clock == WriteClock(script, at, deadline, old(clock))
    {
      written, at := 0, 0;
      assert sent == old(sent) + data[..0];
      if fd < 0 {
        return CoReturn(IoResult(Closed, 0, EBADF)), written, at;
      }
      var deadline := MakeDeadline(timeout, clock);
      var i := 0;
      while written < |data| && i < |script|
        invariant written <= |data| && sent == old(sent) + data[..written] && fd == old(fd)
        invariant 0 <= i <= |script| && clock == WriteClock(script, i, deadline, old(clock))
        invariant at == i && forall k :: 0 <= k < i ==> WritePasses(script[k], 0 <= timeout)
        invariant written == if Acceptance(script[..i]) < |data| then Acceptance(script[..i]) else |data|
        decreases |script| - i
      {
        var step := script[i];
        assert script[..i + 1][..i] == script[..i];
        if step.call.Accepted? && 0 < step.call.count {
          var left := |data| - written;
          var count := if step.call.count < left then step.call.count else left;
          assert data[..written] + data[written..written + count] == data[..written + count];
          sent := sent + data[written..written + count];
          written := written + count;
        } else if step.call.SendFails? {
          return CoReturn(IoResult(Error, written, step.call.errno)), written, at;
        } else if !step.call.SendInterrupted? {
          var wait := Wait(deadline, step.wait);
          if wait.WaitThrows? {
            return Throws, written, at;
          }
          if !wait.ready {
            r := CoReturn(if fd < 0 then IoResult(Closed, written, EBADF) else IoResult(Timeout, written, 0));
            return;
          }
          if fd < 0 {
            return CoReturn(IoResult(Closed, written, EBADF)), written, at;
          }
        }
        i, at := i + 1, at + 1;
      }
      return if written == |data| then CoReturn(IoResult(Ok, written, 0)) else Pending, written, at;
    }

    /** `close`: the waiters of the descriptor are ended, with false, before it is given back. */
    method Close()
      requires context.Valid()
      modifies `fd, context, context.loop
      ensures fd < 0 && context.Valid()
      ensures context.model == if old(fd) < 0 then old(context.model) else E.Cancel(old(context.model), old(fd))
      ensures 0 <= old(fd) ==> forall event :: Key(old(fd), event) !in context.model.waits
    {
      if fd < 0 {
        return;
      }
      context.Cancel(fd);
      NoWaits(context, fd);
      fd := -1;
    }
  }

  lemma NoWaits(context: IoContext, fd: int)
    requires context.Valid() && fd !in context.fds
    ensures forall event :: Key(fd, event) !in context.model.waits
  {
  }

  // ---------------------------------------------------------------- the echo server

  /** A read and the write of what it got. */
  datatype EchoRound = EchoRound(incoming: seq<ReadStep>, outgoing: seq<WriteStep>)

  const READ_BYTES: nat := 16 * 1024

  /** What the read of a round gets: it has no timeout. */
  function Arrives(script: seq<ReadStep>): string {
    if script == [] then ""
    else if Passes(script[0], false) then Arrives(script[1..])
    else Gained(script[0], READ_BYTES)
  }

  function Chunk(round: EchoRound): string {
    Arrives(round.incoming)
  }

  /** The write of a round gets `size` bytes accepted before a step ends it. */
  ghost predicate Completes(script: seq<WriteStep>, size: nat) {
    exists n :: 0 <= n <= |script| && AllPass(script, n) && size <= Acceptance(script[..n])
  }

  ghost predicate AllPass(script: seq<WriteStep>, n: nat)
    requires n <= |script|
  {
    forall k :: 0 <= k < n ==> WritePasses(script[k], false)
  }

  /** Bytes arrive in the round, and all of them are written. */
  ghost predicate Healthy(round: EchoRound) {
    Chunk(round) != "" && Completes(round.outgoing, |Chunk(round)|)
  }

  function Chunks(rounds: seq<EchoRound>): string {
    if rounds == [] then "" else Chunks(rounds[..|rounds| - 1]) + Chunk(rounds[|rounds| - 1])
  }

  lemma {:induction false} ArrivesAt(script: seq<ReadStep>, at: nat)
    requires at <= |script| && forall k :: 0 <= k < at ==> Passes(script[k], false)
    requires at < |script| ==> !Passes(script[at], false)
    ensures Arrives(script) == if at == |script| then "" else Gained(script[at], READ_BYTES)
  {
    if at > 0 {
      ArrivesAt(script[1..], at - 1);
    }
  }

  lemma {:induction false} AcceptanceGrows(script: seq<WriteStep>, m: nat, n: nat)
    requires m <= n <= |script|
    ensures Acceptance(script[..m]) <= Acceptance(script[..n])
    decreases n
  {
    if m < n {
      AcceptanceGrows(script, m, n - 1);
      assert script[..n][..n - 1] == script[..n - 1];
    }
  }

  lemma WritesAllIff(script: seq<WriteStep>, size: nat, at: nat, written: nat, r: Outcome)
    requires WriteGoes(script, false, size, at, written, r)
    ensures r == CoReturn(IoResult(Ok, size, 0)) <==> Completes(script, size)
  {
    assert AllPass(script, at);
    if written < size {
      forall n | 0 <= n <= |script| && AllPass(script, n) ensures Acceptance(script[..n]) < size {
        assert n <= at;
        AcceptanceGrows(script, n, at);
      }
    }
  }

  /** The read of a round. */
  method ReadChunk(stream: TcpStream, input: Buffer, round: EchoRound) returns (arrived: bool, chunk: string)
    requires input.Valid() && input.Contents() == "" && input.writeIdx == 0
    modifies stream`fd, stream`clock, stream`received, input, input.buf
    ensures input.Valid() && (input.buf == old(input.buf) || fresh(input.buf)) && input.Contents() == chunk
    ensures arrived <==> 0 <= old(stream.fd) && Chunk(round) != ""
    ensures stream.received == old(stream.received) + chunk && chunk == (if arrived then Chunk(round) else "")
    ensures arrived ==> stream.fd == old(stream.fd)
  {
    var read, at := stream.ReadSome(input, READ_BYTES, -1, round.incoming);
    if 0 <= old(stream.fd) {
      ArrivesAt(round.incoming, at);
    }
    arrived := read.CoReturn? && read.result.status == Ok;
    chunk := input.Peek(if arrived then read.result.bytes else 0);
  }

  /** One round: what is read is written. It goes on exactly if bytes arrived and all were written. */
  method EchoOnce(stream: TcpStream, input: Buffer, round: EchoRound) returns (goOn: bool, lost: bool)
    requires input.Valid() && input.Contents() == "" && input.writeIdx == 0 && stream.sent == stream.received
    modifies stream`fd, stream`clock, stream`received, stream`sent, input, input.buf
    ensures input.Valid() && (input.buf == old(input.buf) || fresh(input.buf))
    ensures goOn <==> 0 <= old(stream.fd) && Healthy(round)
    ensures lost <==> 0 <= old(stream.fd) && Chunk(round) != "" && !Healthy(round)
    ensures stream.received == old(stream.received) + if 0 <= old(stream.fd) then Chunk(round) else ""
    ensures old(stream.received) <= stream.sent <= stream.received && (!lost ==> stream.sent == stream.received)
    ensures goOn ==> input.Contents() == "" && input.writeIdx == 0 && stream.fd == old(stream.fd)
  {
    ghost var before := stream.received;
    var arrived, chunk := ReadChunk(stream, input, round);
    if !arrived {
      return false, false;
    }
    var write, written, at := stream.WriteAll(chunk, -1, round.outgoing);
    WritesAllIff(round.outgoing, |chunk|, at, written, write);
    PrefixOfBoth(before, chunk, written);
    var ok := input.Consume(|chunk|);
    assert |input.Contents()| == input.writeIdx - input.readIdx;
    goOn := write.CoReturn? && write.result.status == Ok;
    lost := !goOn;
  }

  lemma PrefixOfBoth(before: string, chunk: string, n: nat)
    requires n <= |chunk|
    ensures before <= before + chunk[..n] <= before + chunk && (n == |chunk| ==> before + chunk[..n] == before + chunk)
  {
  }

  /** `serve_echo`: it serves the healthy rounds up to the first that is not, or up to the end. At
      every moment the bytes sent are a prefix of the bytes received; they are all of these unless
      a write fails, and what all the healthy rounds received in any case. */
  method ServeEcho(stream: TcpStream, rounds: seq<EchoRound>) returns (complete: bool, ghost n: nat)
    requires stream.sent == stream.received == ""
    modifies stream`fd, stream`clock, stream`received, stream`sent
    ensures n <= |rounds| && (forall k :: 0 <= k < n ==> Healthy(rounds[k]))
    ensures 0 <= old(stream.fd) && n < |rounds| ==> !Healthy(rounds[n])
    ensures old(stream.fd) < 0 ==> n == 0 && stream.received == ""
    ensures 0 <= old(stream.fd) ==>
      stream.received == Chunks(rounds[..n]) + if n < |rounds| then Chunk(rounds[n]) else ""
    ensures Chunks(rounds[..n]) <= stream.sent <= stream.received
    ensures complete ==> stream.sent == stream.received
    ensures complete <==> old(stream.fd) < 0 || n == |rounds| || Chunk(rounds[n]) == ""
  {
    var input := new Buffer(4096);
    var i := 0;
    n := 0;
    complete := true;
    while i < |rounds|
      invariant input.Valid() && fresh(input) && fresh(input.buf) && input.Contents() == "" && input.writeIdx == 0
      invariant 0 <= i <= |rounds| && complete && stream.sent == stream.received == Chunks(rounds[..i])
      invariant n == i && (forall k :: 0 <= k < i ==> Healthy(rounds[k])) && stream.fd == old(stream.fd)
      invariant stream.fd < 0 ==> i == 0
    {
      var goOn, lost := EchoOnce(stream, input, rounds[i]);
      if !goOn {
        return !lost, n;
      }
      assert rounds[..i + 1][..i] == rounds[..i];
      i, n := i + 1, n + 1;
    }
    assert rounds[..i] == rounds;
  }
}
