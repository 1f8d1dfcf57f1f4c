/** The executor seen from above: coroutine frames, the ready queue, and a plain map of armed waits.

    `IoContext.dfy` holds the class with the descriptor table, the epoll registrations and the
    timer heap, and proves that it carries out these operations. Coroutine bodies are arbitrary:
    while a frame runs it may take any of the actions below, in any order. */
module Executor {
  import opened Options
  import opened Frames

  /** An armed wait; `deadline` is an instant in nanoseconds. */
  datatype Wait = Wait(frame: FrameId, token: nat, deadline: Option<nat>)

  datatype Armed = Armed(key: Key, frame: FrameId, deadline: Option<nat>)

  /** Readiness of one direction, a deadline found expired at `now`, or `cancel(fd)`. */
  datatype Cause = ByReadiness(key: Key) | ByDeadline(now: nat) | ByCancel(fd: int)

  datatype Ended = Ended(result: bool, cause: Cause)

  datatype Sched = Sched(
    current: Option<FrameId>,      // the running frame
    roots: set<FrameId>,           // roots_
    outside: set<FrameId>,         // frames in Task objects outside any coroutine
    ready: seq<FrameId>,           // ready_
    completed: seq<FrameId>)       // the completion list, newest first

  /** What has happened so far. No operation reads it. */
  datatype Log = Log(
    enqueued: seq<FrameId>,
    wakes: seq<Option<nat>>,       // for each enqueued frame, the token of the wait that ended
    resumed: seq<FrameId>,
    armed: map<nat, Armed>,        // by token
    ended: map<nat, Ended>,        // by token
    killed: multiset<FrameId>)

  /** `leaves` names the frame at the end of each unfinished root's chain; like the log it is
      not read. */
  datatype Ctx = Ctx(
    heap: Heap,
    nextId: nat,
    sched: Sched,
    waits: map<Key, Wait>,
    nextToken: nat,
    leaves: map<FrameId, FrameId>,
    log: Log)

  const EMPTY := Ctx(map[], 0, Sched(None, {}, {}, [], []), map[], 1, map[], Log([], [], [], map[], map[], multiset{}))

  // ---------------------------------------------------------------- Task objects

  /** The Task objects the running code can reach: the running frame's locals, and those outside. */
  predicate Reachable(s: Ctx, f: FrameId) {
    || f in s.sched.outside
    || (s.sched.current.Some? && s.sched.current.value in s.heap && f in s.heap[s.sched.current.value].tasks)
  }

  /** The handle of `f` leaves its Task object. */
  function TakeTask(s: Ctx, f: FrameId): Ctx {
    if f in s.sched.outside then s.(sched := s.sched.(outside := s.sched.outside - {f}))
    else if s.sched.current.Some? && s.sched.current.value in s.heap then
      var c := s.sched.current.value;
      s.(heap := s.heap[c := s.heap[c].(tasks := s.heap[c].tasks - {f})])
    else s
  }

  /** A call of a coroutine: a lazy frame in a Task owned by the caller. */
  function Create(s: Ctx): Ctx {
    var n := s.nextId;
    var frame := Frame(Lazy, false, None, {}, {}, InTask(s.sched.current), n, 0);
    var s' := s.(nextId := n + 1, heap := s.heap[n := frame]);
    match s.sched.current
    case None => s'.(sched := s.sched.(outside := s.sched.outside + {n}))
    case Some(c) =>
      if c in s.heap then s'.(heap := s'.heap[c := s.heap[c].(tasks := s.heap[c].tasks + {n})]) else s'
  }

  /** A Task can be moved to a place outside all coroutines, to a local of the running frame, or
      into the frame of a coroutine that has not started, as one of its parameters. Parameters
      exist before the call, so there `f` is the older frame. */
  predicate CanMove(s: Ctx, f: FrameId, to: Option<FrameId>) {
    && Reachable(s, f) && f in s.heap
    && (to.Some? ==> to.value in s.heap && (to == s.sched.current || (s.heap[to.value].status.Lazy? && f < to.value)))
  }

  function Move(s: Ctx, f: FrameId, to: Option<FrameId>): Ctx
    requires CanMove(s, f, to)
  {
    var t := TakeTask(s, f);
    var t' := t.(heap := t.heap[f := s.heap[f].(owner := InTask(to))]);
    match to
    case None => t'.(sched := t.sched.(outside := t.sched.outside + {f}))
    case Some(h) => t'.(heap := t'.heap[h := t'.heap[h].(tasks := t'.heap[h].tasks + {f})])
  }

  /** `~Task`, or the end of an Awaiter whose child has returned: the running frame, or code
      outside, destroys a frame it owns. */
  predicate CanDrop(s: Ctx, f: FrameId) {
    && f in s.heap
    && (|| Reachable(s, f)
        || (&& s.sched.current.Some? && s.sched.current.value in s.heap
            && f in s.heap[s.sched.current.value].awaiters && s.heap[f].status.Returned?))
  }

  /** The handle of `f` leaves the Task or Awaiter of the running code. */
  function TakeHandle(s: Ctx, f: FrameId): Ctx {
    if Reachable(s, f) then TakeTask(s, f)
    else if s.sched.current.Some? && s.sched.current.value in s.heap then
      var c := s.sched.current.value;
      s.(heap := s.heap[c := s.heap[c].(awaiters := s.heap[c].awaiters - {f})])
    else s
  }

  ghost function Kill(s: Ctx, calls: multiset<FrameId>): Ctx {
    var d := Destroy(s.heap, s.log.killed, calls);
    s.(heap := d.heap, log := s.log.(killed := d.killed))
  }

  ghost function Drop(s: Ctx, f: FrameId): Ctx
    requires CanDrop(s, f)
  {
    Kill(TakeHandle(s, f), multiset{f})
  }

  // ---------------------------------------------------------------- scheduling

  function Enqueue(s: Ctx, f: FrameId, wake: Option<nat>): Ctx {
    s.(sched := s.sched.(ready := s.sched.ready + [f]),
       log := s.log.(enqueued := s.log.enqueued + [f], wakes := s.log.wakes + [wake]))
  }

  function WithStatus(s: Ctx, f: FrameId, status: Status): Ctx
    requires f in s.heap
  {
    s.(heap := s.heap[f := s.heap[f].(status := status)])
  }

  /** `spawn`: the handle moves from its Task to the root map and the ready queue. */
  function Spawn(s: Ctx, f: FrameId): Ctx
    requires Reachable(s, f) && f in s.heap
  {
    var t := TakeTask(s, f);
    var frame := s.heap[f].(status := Ready, completion := true, owner := InRoots, root := f, depth := 0);
    Enqueue(t.(heap := t.heap[f := frame], sched := t.sched.(roots := t.sched.roots + {f}),
               leaves := t.leaves[f := f]), f, None)
  }

  /** `run_ready` takes the front of the queue and resumes it. */
  function Resume(s: Ctx): Ctx
    requires s.sched.ready != [] && s.sched.ready[0] in s.heap
  {
    var f := s.sched.ready[0];
    WithStatus(s, f, Running).(
      sched := s.sched.(ready := s.sched.ready[1..], current := Some(f)),
      log := s.log.(resumed := s.log.resumed + [f]))
  }

  predicate HasCurrent(s: Ctx) {
    s.sched.current.Some? && s.sched.current.value in s.heap
  }

  /** `co_await` of a Task the running frame holds: the child starts at once. */
  predicate CanAwait(s: Ctx, child: FrameId) {
    HasCurrent(s) && child in s.heap[s.sched.current.value].tasks && child in s.heap && child != s.sched.current.value
  }

  function Await(s: Ctx, child: FrameId): Ctx
    requires CanAwait(s, child)
  {
    var c := s.sched.current.value;
    var parent := s.heap[c];
    var parent' :=
      parent.(status := Awaiting(child), tasks := parent.tasks - {child}, awaiters := parent.awaiters + {child});
    var child' := s.heap[child].(status := Running, continuation := Some(c), owner := InAwaiter(c),
                                 root := parent.root, depth := parent.depth + 1);
    s.(heap := s.heap[c := parent'][child := child'], sched := s.sched.(current := Some(child)),
       leaves := s.leaves[parent.root := child])
  }

  /** The awaiter of `yield()`. */
  function Yield(s: Ctx): Ctx
    requires HasCurrent(s)
  {
    var c := s.sched.current.value;
    Enqueue(WithStatus(s, c, Ready).(sched := s.sched.(current := None)), c, None)
  }

  /** `final_suspend`: a root links itself into the completion list, any other frame transfers to
      its continuation. */
  function Finish(s: Ctx, failed: bool): Ctx
    requires HasCurrent(s)
  {
    var c := s.sched.current.value;
    var s' := WithStatus(s, c, Returned(failed));
    if s.heap[c].completion then
      s'.(sched := s.sched.(current := None, completed := [c] + s.sched.completed), leaves := s.leaves - {c})
    else
      match s.heap[c].continuation
      case Some(p) =>
        if p in s'.heap then
          WithStatus(s', p, Running).(sched := s.sched.(current := Some(p)), leaves := s.leaves[s.heap[c].root := p])
        else s'
      case None => s'.(sched := s.sched.(current := None))
  }

  function Members(list: seq<FrameId>): set<FrameId> {
    set f | f in list
  }

  /** Finished roots leave the root map. */
  function Unlink(s: Ctx): Ctx {
    s.(sched := s.sched.(roots := s.sched.roots - Members(s.sched.completed), completed := []))
  }

  /** `drain_completed`: finished roots leave the root map and are destroyed. */
  ghost function Drain(s: Ctx): Ctx {
    Kill(Unlink(s), multiset(Members(s.sched.completed)))
  }

  /** Wait state and queue are dropped, and the roots taken out of their map. */
  function Clear(s: Ctx): Ctx {
    s.(sched := Sched(None, {}, s.sched.outside, [], []), waits := map[], leaves := map[])
  }

  /** The destructor: wait state and queue first, then the remaining roots. */
  ghost function Teardown(s: Ctx): Ctx {
    Kill(Clear(s), multiset(s.sched.roots))
  }

  // ---------------------------------------------------------------- waits

  /** The awaiter of `wait_readable` and `wait_writable`, when registration succeeds. */
  function Arm(s: Ctx, key: Key, deadline: Option<nat>): Ctx
    requires HasCurrent(s) && key !in s.waits
  {
    var c, token := s.sched.current.value, s.nextToken;
    WithStatus(s, c, Waiting(key)).(
      sched := s.sched.(current := None),
      waits := s.waits[key := Wait(c, token, deadline)],
      nextToken := token + 1,
      log := s.log.(armed := s.log.armed[token := Armed(key, c, deadline)]))
  }

  /** A failed registration uses up a token. */
  function ArmFails(s: Ctx): Ctx {
    s.(nextToken := s.nextToken + 1)
  }

  /** `complete`: the wait ends and its frame is queued, once. */
  function Complete(s: Ctx, key: Key, ended: Ended): Ctx
    requires key in s.waits && s.waits[key].frame in s.heap
  {
    var w := s.waits[key];
    Enqueue(WithStatus(s, w.frame, Ready).(
              waits := s.waits - {key},
              log := s.log.(ended := s.log.ended[w.token := ended])),
            w.frame, Some(w.token))
  }
  /** `complete` of a slot that may be empty. */
  function End(s: Ctx, key: Key, ended: Ended): Ctx {
    if key in s.waits && s.waits[key].frame in s.heap then Complete(s, key, ended) else s
  }

  /** `on_ready`. */
  function MakeReady(s: Ctx, key: Key): Ctx {
    End(s, key, Ended(true, ByReadiness(key)))
  }

  /** `cancel`: the reader first. */
  function Cancel(s: Ctx, fd: int): Ctx {
    var cancelled := Ended(false, ByCancel(fd));
    End(End(s, Key(fd, Read), cancelled), Key(fd, Write), cancelled)
  }

  function CancelAll(s: Ctx, fds: seq<int>): Ctx {
    if fds == [] then s else Cancel(CancelAll(s, fds[..|fds| - 1]), fds[|fds| - 1])
  }

  /** The waits in `keys` expire, in this order. */
  function Expire(s: Ctx, keys: seq<Key>, now: nat): Ctx
    decreases |keys|
  {
    if keys == [] then s else Expire(End(s, keys[0], Ended(false, ByDeadline(now))), keys[1..], now)
  }

  /** An event reported by epoll. `terminal` stands for EPOLLERR, EPOLLHUP and EPOLLRDHUP. */
  datatype Report = Report(fd: int, readable: bool, writable: bool, terminal: bool)

  function DispatchOne(s: Ctx, e: Report): Ctx {
    var s' := if e.readable || e.terminal then MakeReady(s, Key(e.fd, Read)) else s;
    if e.writable || e.terminal then MakeReady(s', Key(e.fd, Write)) else s'
  }

  /** `dispatch_events`. */
  function Dispatch(s: Ctx, events: seq<Report>): Ctx {
    if events == [] then s else DispatchOne(Dispatch(s, events[..|events| - 1]), events[|events| - 1])
  }
}
