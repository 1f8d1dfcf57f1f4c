/** What coroutine bodies do between two suspensions.

    A body is arbitrary code. What matters of it is the list of things it does with the executor
    and with Tasks, up to the point where it suspends or its root returns; each of these must be
    something the code is able to do: a Task it moves, awaits or spawns is one it holds. */
module Bodies {
  import opened Options
  import opened Frames
  import opened IoRecords
  import E = Executor
  import Runs = ExecutorRuns
  import opened WaitTable

  /** `self` is the handle of the running coroutine, as its awaiters receive it. */
  datatype Action =
    | OnTask(act: Runs.Act)
    | Spawn(task: FrameId)
    | Cancel(fd: int)
    | Stop
    | Yield(self: FrameId)
    | Wait(self: FrameId, fd: int, event: Event, timeout: int, fault: Fault)
    | Return(self: FrameId, failed: bool)

  ghost predicate Able(s: E.Ctx, a: Action) {
    E.HasCurrent(s) &&
    match a
    case OnTask(act) => OnTasks(act) && Runs.Possible(s, act)
    case Spawn(f) => E.Reachable(s, f) && f in s.heap
    case Cancel(_) => true
    case Stop => true
    case Yield(self) => s.sched.current == Some(self)
    case Wait(self, _, _, _, _) => s.sched.current == Some(self)
    case Return(self, _) => s.sched.current == Some(self)
  }

  /** A wait that cannot be armed throws into the body, which goes on. */
  ghost function After(s: E.Ctx, a: Action, now: nat): E.Ctx
    requires Able(s, a)
  {
    match a
    case OnTask(act) => Runs.Do(s, act)
    case Spawn(f) => E.Spawn(s, f)
    case Cancel(fd) => E.Cancel(s, fd)
    case Stop => s
    case Yield(_) => E.Yield(s)
    case Wait(_, fd, event, timeout, fault) =>
      if fd < 0 || Key(fd, event) in s.waits then s
      else if fault == NoFault || (fault == PushFails && timeout < 0) then
        E.Arm(s, Key(fd, event), DeadlineOf(timeout, now))
      else E.ArmFails(s)
    case Return(_, failed) => E.Finish(s, failed)
  }

  /** `actions` is what the running body does until it suspends or ends. */
  ghost predicate Plays(s: E.Ctx, actions: seq<Action>, now: nat)
    decreases |actions|
  {
    if s.sched.current == None then actions == []
    else actions != [] && Able(s, actions[0]) && Plays(After(s, actions[0], now), actions[1..], now)
  }

  ghost function Play(s: E.Ctx, actions: seq<Action>, now: nat): E.Ctx
    requires Plays(s, actions, now)
    decreases |actions|
  {
    if s.sched.current == None then s else Play(After(s, actions[0], now), actions[1..], now)
  }

  /** One resumption: what the body does, the clock meanwhile, and the descriptors that the
      destructors of a finished root's locals cancel. */
  datatype Resumption = Resumption(actions: seq<Action>, now: nat, cancels: seq<int>)

  ghost predicate Fits(s: E.Ctx, r: Resumption) {
    s.sched.ready != [] && s.sched.ready[0] in s.heap && Plays(E.Resume(s), r.actions, r.now)
  }

  ghost function Resumed(s: E.Ctx, r: Resumption): E.Ctx
    requires Fits(s, r)
  {
    E.CancelAll(E.Drain(Play(E.Resume(s), r.actions, r.now)), r.cancels)
  }

  /** A finished root holds an exception. */
  ghost predicate RootFailed(s: E.Ctx) {
    exists f :: f in s.sched.completed && f in s.heap && s.heap[f].status == Returned(true)
  }

  /** The resumption ends with a root's exception. */
  ghost predicate Fails(s: E.Ctx, r: Resumption)
    requires Fits(s, r)
  {
    RootFailed(Play(E.Resume(s), r.actions, r.now))
  }

  /** No resumption follows this one in the batch. */
  ghost predicate IsLast(s: E.Ctx, r: Resumption)
    requires Fits(s, r)
  {
    Stop in r.actions || Fails(s, r)
  }

  /** `turn` holds the next resumptions, in order, as far as the batch gets. */
  ghost predicate FitsAll(s: E.Ctx, turn: seq<Resumption>)
    decreases |turn|
  {
    turn == [] || (Fits(s, turn[0]) && (IsLast(s, turn[0]) || FitsAll(Resumed(s, turn[0]), turn[1..])))
  }

  /** How a batch ends: the state, the number of resumptions, and whether the last of them asked
      to stop or failed. */
  datatype BatchEnd = BatchEnd(state: E.Ctx, count: nat, stopped: bool, failed: bool)

  ghost function Batch(s: E.Ctx, turn: seq<Resumption>): BatchEnd
    requires FitsAll(s, turn)
    decreases |turn|
  {
    if turn == [] then BatchEnd(s, 0, false, false)
    else if IsLast(s, turn[0]) then BatchEnd(Resumed(s, turn[0]), 1, Stop in turn[0].actions, Fails(s, turn[0]))
    else
      var rest := Batch(Resumed(s, turn[0]), turn[1..]);
      rest.(count := rest.count + 1)
  }

  /** The batch `turn` from `start` has come to `s`, with `rest` to go, after `n` resumptions. */
  ghost predicate InBatch(start: E.Ctx, turn: seq<Resumption>, s: E.Ctx, rest: seq<Resumption>, stopped: bool,
                          failed: bool, n: nat)
    requires FitsAll(start, turn)
  {
    if stopped || failed then Batch(start, turn) == BatchEnd(s, n, stopped, failed)
    else FitsAll(s, rest) && Batch(start, turn) == Later(Batch(s, rest), n)
  }

  function Later(end: BatchEnd, n: nat): BatchEnd {
    end.(count := end.count + n)
  }

  lemma BatchStep(start: E.Ctx, turn: seq<Resumption>, s: E.Ctx, rest: seq<Resumption>, n: nat)
    requires FitsAll(start, turn) && InBatch(start, turn, s, rest, false, false, n) && rest != []
    ensures Fits(s, rest[0])
    ensures InBatch(start, turn, Resumed(s, rest[0]), rest[1..], Stop in rest[0].actions, Fails(s, rest[0]), n + 1)
  {
  }

  lemma BatchOver(start: E.Ctx, turn: seq<Resumption>, s: E.Ctx, rest: seq<Resumption>, stopped: bool, failed: bool,
                  n: nat)
    requires FitsAll(start, turn) && InBatch(start, turn, s, rest, stopped, failed, n)
      && (rest == [] || stopped || failed)
    ensures Batch(start, turn) == BatchEnd(s, n, stopped, failed)
  {
  }

  lemma FailedIff(completed: seq<Finished>, s: E.Ctx)
    requires Lists(completed, s)
    ensures AnyFailed(completed) <==> RootFailed(s)
  {
    if RootFailed(s) {
      var f :| f in s.sched.completed && f in s.heap && s.heap[f].status == Returned(true);
      var i :| 0 <= i < |s.sched.completed| && s.sched.completed[i] == f;
      assert completed[i] in completed && completed[i].failed;
    }
    if AnyFailed(completed) {
      var d :| d in completed && d.failed;
      var i :| 0 <= i < |completed| && completed[i] == d;
      assert s.sched.completed[i] in s.sched.completed;
    }
  }

  // ---------------------------------------------------------------- exceptions of roots

  /** Among the actions is the return of a frame that is a root when it returns, with an exception. */
  ghost predicate RootThrows(s: E.Ctx, actions: seq<Action>, now: nat)
    requires Plays(s, actions, now)
    decreases |actions|
  {
    s.sched.current.Some? &&
    (|| (actions[0].Return? && actions[0].failed && actions[0].self in s.sched.roots)
     || RootThrows(After(s, actions[0], now), actions[1..], now))
  }

  /** One of the resumptions that the batch reaches does that; none is reached after a `stop`. */
  ghost predicate BatchThrows(s: E.Ctx, turn: seq<Resumption>)
    requires FitsAll(s, turn)
    decreases |turn|
  {
    turn != [] &&
    (|| RootThrows(E.Resume(s), turn[0].actions, turn[0].now)
     || (&& Stop !in turn[0].actions && FitsAll(Resumed(s, turn[0]), turn[1..])
         && BatchThrows(Resumed(s, turn[0]), turn[1..])))
  }

  lemma CancelLists(s: E.Ctx, completed: seq<Finished>, fd: int)
    requires Runs.Reached(s) && Lists(completed, s)
    ensures Runs.Reached(E.Cancel(s, fd)) && Lists(completed, E.Cancel(s, fd))
    ensures E.Cancel(s, fd).sched == s.sched.(ready := E.Cancel(s, fd).sched.ready)
  {
    Runs.ReachedInv(s);
    Runs.EndKeepsInv(s, Key(fd, Read), E.Ended(false, E.ByCancel(fd)));
    Runs.ReachedStep(s, Runs.Cancel(fd));
    var half := CancelTwice(s, completed, fd);
  }

  lemma WaitLists(s: E.Ctx, completed: seq<Finished>, a: Action, now: nat)
    requires Runs.Reached(s) && Lists(completed, s) && Able(s, a) && a.Wait?
    ensures Runs.Reached(After(s, a, now)) && Lists(completed, After(s, a, now))
  {
    if 0 <= a.fd && Key(a.fd, a.event) !in s.waits {
      ArmEffect(s, completed, Key(a.fd, a.event), DeadlineOf(a.timeout, now));
      Runs.ReachedStep(s, Runs.WaitFails);
    }
  }

  /** The roots that have finished, and whether with an exception, as an action adds to them. */
  lemma AfterLists(s: E.Ctx, completed: seq<Finished>, a: Action, now: nat) returns (completed': seq<Finished>)
    requires Runs.Reached(s) && Lists(completed, s) && Able(s, a)
    ensures Runs.Reached(After(s, a, now)) && Lists(completed', After(s, a, now))
    ensures completed' ==
      if a.Return? && a.self in s.sched.roots then [Finished(a.self, a.failed)] + completed else completed
  {
    completed' := completed;
    match a
    case OnTask(act) => Acting(s, completed, act);
    case Spawn(f) => Spawning(s, completed, f);
    case Cancel(fd) => CancelLists(s, completed, fd);
    case Stop =>
    case Yield(_) => Yielding(s, completed);
    case Wait(_, _, _, _, _) => WaitLists(s, completed, a, now);
    case Return(self, failed) =>
      Returning(s, completed, failed);
      completed' := if self in s.sched.roots then [Finished(self, failed)] + completed else completed;
  }

  lemma {:induction false} PlayLists(s: E.Ctx, completed: seq<Finished>, actions: seq<Action>, now: nat)
      returns (completed': seq<Finished>)
    requires Runs.Reached(s) && Lists(completed, s) && Plays(s, actions, now)
    ensures Runs.Reached(Play(s, actions, now)) && Lists(completed', Play(s, actions, now))
    ensures Play(s, actions, now).sched.current == None
    ensures AnyFailed(completed') <==> AnyFailed(completed) || RootThrows(s, actions, now)
    decreases |actions|
  {
    completed' := completed;
    if s.sched.current.Some? {
      completed' := AfterLists(s, completed, actions[0], now);
      OneMoreFailed(completed, completed', actions[0], s.sched.roots);
      completed' := PlayLists(After(s, actions[0], now), completed', actions[1..], now);
    }
  }

  lemma OneMoreFailed(completed: seq<Finished>, completed': seq<Finished>, a: Action, roots: set<FrameId>)
    requires completed' == if a.Return? && a.self in roots then [Finished(a.self, a.failed)] + completed else completed
    ensures AnyFailed(completed') <==> AnyFailed(completed) || (a.Return? && a.failed && a.self in roots)
  {
    if a.Return? && a.self in roots {
      assert completed'[0] == Finished(a.self, a.failed);
      forall d | d in completed ensures d in completed' {
        var i :| 0 <= i < |completed| && completed[i] == d;
        assert completed'[i + 1] == d;
      }
    }
  }

  /** A resumption fails iff, while it runs, a frame that is a root returns with an exception. */
  lemma FailsIff(s: E.Ctx, r: Resumption)
    requires Runs.Reached(s) && s.sched.current == None && s.sched.completed == [] && Fits(s, r)
    ensures Fails(s, r) <==> RootThrows(E.Resume(s), r.actions, r.now)
  {
    Resuming(s, []);
    var completed := PlayLists(E.Resume(s), [], r.actions, r.now);
    FailedIff(completed, Play(E.Resume(s), r.actions, r.now));
  }

  lemma {:induction false} CancelAllLists(s: E.Ctx, cancels: seq<int>)
    requires Runs.Reached(s) && s.sched.current == None && s.sched.completed == []
    ensures var s' := E.CancelAll(s, cancels); Runs.Reached(s') && s'.sched.current == None && s'.sched.completed == []
  {
    if cancels != [] {
      CancelAllLists(s, cancels[..|cancels| - 1]);
      CancelLists(E.CancelAll(s, cancels[..|cancels| - 1]), [], cancels[|cancels| - 1]);
    }
  }

  // ---------------------------------------------------------------- what a resumption makes ready

  /** The frames that an action puts at the end of the ready queue. */
  function Adds(s: E.Ctx, a: Action): seq<FrameId> {
    match a
    case Spawn(f) => [f]
    case Cancel(fd) => Waiting(s.waits, fd)
    case Yield(self) => [self]
    case _ => []
  }

  /** The reader and the writer that wait for a descriptor. */
  function Waiting(waits: map<Key, E.Wait>, fd: int): seq<FrameId> {
    Runs.Waiter(waits, Key(fd, Read)) + Runs.Waiter(waits, Key(fd, Write))
  }

  ghost function PlayAdds(s: E.Ctx, actions: seq<Action>, now: nat): seq<FrameId>
    requires Plays(s, actions, now)
    decreases |actions|
  {
    if s.sched.current == None then []
    else Adds(s, actions[0]) + PlayAdds(After(s, actions[0], now), actions[1..], now)
  }

  function CancelsAdd(s: E.Ctx, fds: seq<int>): seq<FrameId> {
    if fds == [] then []
    else
      var front, last := fds[..|fds| - 1], fds[|fds| - 1];
      CancelsAdd(s, front) + Waiting(E.CancelAll(s, front).waits, last)
  }

  lemma ActionQueues(s: E.Ctx, completed: seq<Finished>, a: Action, now: nat)
    requires Runs.Reached(s) && Lists(completed, s) && Able(s, a)
    ensures Runs.Queues(s, After(s, a, now), Adds(s, a))
  {
    assert s.sched.ready + [] == s.sched.ready;
    match a
    case OnTask(act) => Acting(s, completed, act);
    case Spawn(f) => Spawning(s, completed, f);
    case Cancel(fd) =>
      Runs.ReachedInv(s);
      Runs.CancelQueues(s, fd);
    case Return(_, failed) => Returning(s, completed, failed);
    case _ =>
  }

  lemma {:induction false} PlayQueues(s: E.Ctx, completed: seq<Finished>, actions: seq<Action>, now: nat)
    requires Runs.Reached(s) && Lists(completed, s) && Plays(s, actions, now)
    ensures Runs.Queues(s, Play(s, actions, now), PlayAdds(s, actions, now))
    decreases |actions|
  {
    if s.sched.current == None {
      assert s.sched.ready + [] == s.sched.ready;
    } else {
      var s', a := After(s, actions[0], now), actions[0];
      ActionQueues(s, completed, a, now);
      var completed' := AfterLists(s, completed, a, now);
      PlayQueues(s', completed', actions[1..], now);
      Runs.QueuesBoth(s, s', Play(s', actions[1..], now), Adds(s, a), PlayAdds(s', actions[1..], now));
    }
  }

  lemma {:induction false} CancelsQueue(s: E.Ctx, completed: seq<Finished>, fds: seq<int>)
    requires Runs.Reached(s) && Lists(completed, s)
    ensures Runs.Reached(E.CancelAll(s, fds)) && Lists(completed, E.CancelAll(s, fds))
    ensures Runs.Queues(s, E.CancelAll(s, fds), CancelsAdd(s, fds))
    decreases |fds|
  {
    if fds == [] {
      assert s.sched.ready + [] == s.sched.ready;
    } else {
      var front, last := fds[..|fds| - 1], fds[|fds| - 1];
      CancelsQueue(s, completed, front);
      var half := E.CancelAll(s, front);
      CancelLists(half, completed, last);
      Runs.ReachedInv(half);
      Runs.CancelQueues(half, last);
      Runs.QueuesBoth(s, half, E.CancelAll(s, fds), CancelsAdd(s, front), Waiting(half.waits, last));
    }
  }

  /** What a resumption leaves in the queue: what was behind its frame, then what its actions made
      ready, in the order of these, and then what the destructors of finished roots cancel. */
  lemma ResumedQueues(s: E.Ctx, r: Resumption)
    requires Runs.Reached(s) && s.sched.current == None && s.sched.completed == [] && Fits(s, r)
    ensures var played := Play(E.Resume(s), r.actions, r.now);
      Resumed(s, r).sched.ready ==
        s.sched.ready[1..] + PlayAdds(E.Resume(s), r.actions, r.now) + CancelsAdd(E.Drain(played), r.cancels)
  {
    Resuming(s, []);
    PlayQueues(E.Resume(s), [], r.actions, r.now);
    var completed := PlayLists(E.Resume(s), [], r.actions, r.now);
    Draining(Play(E.Resume(s), r.actions, r.now), completed);
    CancelsQueue(E.Drain(Play(E.Resume(s), r.actions, r.now)), [], r.cancels);
  }

  lemma ResumedReached(s: E.Ctx, r: Resumption)
    requires Runs.Reached(s) && s.sched.current == None && s.sched.completed == [] && Fits(s, r)
    ensures var s' := Resumed(s, r); Runs.Reached(s') && s'.sched.current == None && s'.sched.completed == []
  {
    Resuming(s, []);
    var t := Play(E.Resume(s), r.actions, r.now);
    var completed := PlayLists(E.Resume(s), [], r.actions, r.now);
    Draining(t, completed);
    CancelAllLists(E.Drain(t), r.cancels);
  }

  /** A batch fails iff one of the resumptions that it reaches lets a root return with an exception. */
  lemma {:induction false} BatchFailsIff(s: E.Ctx, turn: seq<Resumption>)
    requires Runs.Reached(s) && s.sched.current == None && s.sched.completed == [] && FitsAll(s, turn)
    ensures Batch(s, turn).failed <==> BatchThrows(s, turn)
    decreases |turn|
  {
    if turn != [] {
      FailsIff(s, turn[0]);
      if !IsLast(s, turn[0]) {
        ResumedReached(s, turn[0]);
        BatchFailsIff(Resumed(s, turn[0]), turn[1..]);
      }
    }
  }

  // ---------------------------------------------------------------- rounds of `run`

  /** How one round of the loop in `run` ends: the loop is left, a root's exception is thrown, the
      error of a task without wake source is thrown, or epoll was asked, with a timeout. */
  datatype Round = Left | Threw | NoWakeSource | Polled(timeout: int)

  /** What happens in a round: the resumed bodies, the clock readings, the events reported, and the
      orders in which the heap gives the waits that expire, among equal deadlines, before and after
      the poll. */
  datatype RoundInput = RoundInput(
    turn: seq<Resumption>, now: nat, first: seq<Key>, pollAt: nat, events: seq<E.Report>, later: nat, second: seq<Key>)

  /** The state after the first expiry. */
  ghost function Mid(s: E.Ctx, input: RoundInput): E.Ctx
    requires FitsAll(s, input.turn)
  {
    E.Expire(Batch(s, input.turn).state, input.first, input.now)
  }

  /** The loop of `run` is left after the first expiry. */
  ghost predicate Leaves(s: E.Ctx, input: RoundInput)
    requires FitsAll(s, input.turn)
  {
    Batch(s, input.turn).stopped || Mid(s, input).sched.roots == {}
  }

  /** The bodies are those of the frames that are ready, and the orders are orders of the waits
      that are due. There always are such orders: `DueOrderExists`. */
  ghost predicate RoundFits(s: E.Ctx, input: RoundInput) {
    && |input.turn| == |s.sched.ready| && FitsAll(s, input.turn)
    && (!Batch(s, input.turn).failed ==>
          && DueOrder(Batch(s, input.turn).state.waits, input.now, input.first)
          && (!Leaves(s, input) ==>
                DueOrder(E.Dispatch(Mid(s, input), input.events).waits, input.later, input.second)))
  }

  /** A round leads from `s` to `s'`: a batch, expiry, and unless the loop is left, a poll and
      expiry again. */
  ghost predicate Leads(s: E.Ctx, input: RoundInput, round: Round, s': E.Ctx)
    requires FitsAll(s, input.turn)
  {
    var mid := Mid(s, input);
    if Batch(s, input.turn).failed then round == Threw && s' == Batch(s, input.turn).state
    else if Leaves(s, input) then round == Left && s' == mid
    else
      && round.Polled? && s' == E.Expire(E.Dispatch(mid, input.events), input.second, input.later)
      && (if mid.sched.ready != [] then round.timeout == 0 else PollFor(mid.waits, input.pollAt, round.timeout))
  }

  /** The round ends with the exception of a root, in the state `s'`. */
  ghost predicate RoundThrows(s: E.Ctx, input: RoundInput, s': E.Ctx) {
    RoundFits(s, input) && BatchThrows(s, input.turn) && Leads(s, input, Threw, s')
  }

  /** The round ends the loop without one, because of a `stop` or because no root is left. */
  ghost predicate RoundLeaves(s: E.Ctx, input: RoundInput, s': E.Ctx) {
    RoundFits(s, input) && !BatchThrows(s, input.turn) && Leads(s, input, Left, s')
  }

  lemma RoundEnds(s: E.Ctx, input: RoundInput, round: Round, s': E.Ctx)
    requires RoundFits(s, input) && Leads(s, input, round, s') && (round.Threw? <==> BatchThrows(s, input.turn))
    ensures round.Threw? ==> RoundThrows(s, input, s')
    ensures round.Left? ==> RoundLeaves(s, input, s')
  {
  }

  /** The round gets to the poll, and its end. */
  ghost predicate GoesRound(s: E.Ctx, input: RoundInput)
    requires FitsAll(s, input.turn)
  {
    !Batch(s, input.turn).failed && !Leaves(s, input)
  }

  ghost function RoundEnd(s: E.Ctx, input: RoundInput): E.Ctx
    requires FitsAll(s, input.turn)
  {
    E.Expire(E.Dispatch(Mid(s, input), input.events), input.second, input.later)
  }

  /** Each round's input fits the state it meets, as far as `run` gets. */
  ghost predicate RunFits(s: E.Ctx, inputs: seq<RoundInput>)
    decreases |inputs|
  {
    inputs == [] || s.sched.roots == {} ||
    (RoundFits(s, inputs[0]) && (GoesRound(s, inputs[0]) ==> RunFits(RoundEnd(s, inputs[0]), inputs[1..])))
  }

  /** Rounds that each go through to their end lead from `s` to `s'`. */
  ghost predicate RunsTo(s: E.Ctx, inputs: seq<RoundInput>, s': E.Ctx)
    decreases |inputs|
  {
    if inputs == [] then s' == s
    else RoundFits(s, inputs[0]) && GoesRound(s, inputs[0]) && RunsTo(RoundEnd(s, inputs[0]), inputs[1..], s')
  }

  lemma {:induction false} RunsOn(s: E.Ctx, inputs: seq<RoundInput>, n: nat, t: E.Ctx)
    requires n < |inputs| && RunsTo(s, inputs[..n], t) && RoundFits(t, inputs[n]) && GoesRound(t, inputs[n])
    ensures RunsTo(s, inputs[..n + 1], RoundEnd(t, inputs[n]))
    decreases n
  {
    if n > 0 {
      assert inputs[..n][1..] == inputs[1..][..n - 1] && inputs[..n + 1][1..] == inputs[1..][..n];
      RunsOn(RoundEnd(s, inputs[0]), inputs[1..], n - 1, t);
    } else {
      assert inputs[..1][1..] == [];
    }
  }

  /** The first `n` rounds led from `start` to `s`, and the rest fit. */
  ghost predicate Along(start: E.Ctx, inputs: seq<RoundInput>, n: nat, s: E.Ctx) {
    n <= |inputs| && RunsTo(start, inputs[..n], s) && RunFits(s, inputs[n..])
  }

  lemma AlongStart(start: E.Ctx, inputs: seq<RoundInput>)
    requires RunFits(start, inputs)
    ensures Along(start, inputs, 0, start)
  {
    assert inputs[0..] == inputs;
  }

  lemma AlongFits(start: E.Ctx, inputs: seq<RoundInput>, n: nat, s: E.Ctx)
    requires Along(start, inputs, n, s) && n < |inputs| && s.sched.roots != {}
    ensures RoundFits(s, inputs[n])
  {
  }

  lemma AlongFurther(start: E.Ctx, inputs: seq<RoundInput>, n: nat, s: E.Ctx, round: Round, s': E.Ctx)
    requires Along(start, inputs, n, s) && n < |inputs| && s.sched.roots != {} && RoundFits(s, inputs[n])
    requires Leads(s, inputs[n], round, s') && round.Polled?
    ensures Along(start, inputs, n + 1, s')
  {
    assert inputs[n..][0] == inputs[n] && inputs[n..][1..] == inputs[n + 1..];
    RunsOn(start, inputs, n, s);
  }
}
