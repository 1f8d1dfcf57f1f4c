/** The coroutine executor: the class behind the operations of `Executor`.

    `model` follows the executor and the coroutine frames at the level of `Executor`, and is always
    the state of one of its runs. Every method here is shown to carry out one of its operations,
    and to keep the descriptor table, the epoll registrations and the timer heap in step with it. */
module IoContexts {
  import opened Options
  import opened Frames
  import opened WaitTable
  import opened EventLoops
  import opened IoRecords
  import E = Executor
  import Runs = ExecutorRuns
  import opened Bodies

  /** How `run` ends: it was running already, it is done or stopped, an exception came out of it,
      or it has not ended with the rounds given. */
  datatype RunEnd = Reentered | Ended | Raised | Unfinished

  class IoContext {
    const loop: EventLoop
    var roots: set<FrameId>
    var ready: seq<FrameId>
    var completed: seq<Finished>
    var fds: Table
    var timers: multiset<TimerEntry>
    var nextToken: nat
    var running: bool
    var stopRequested: bool
    ghost var model: E.Ctx

    ghost predicate Mirrors()
      reads this
    {
      && roots == model.sched.roots && ready == model.sched.ready && nextToken == model.nextToken
      && Lists(completed, model)
    }

    ghost predicate Valid()
      reads this, loop
    {
      && Runs.Reached(model) && Mirrors()
      && Agree(model, fds, loop.channels, timers)
    }

    /** The fields already say what the model is to be. */
    ghost method Become(next: E.Ctx)
      requires Runs.Reached(next) && Lists(completed, next) && Agree(next, fds, loop.channels, timers)
      requires roots == next.sched.roots && ready == next.sched.ready && nextToken == next.nextToken
      modifies `model
      ensures Valid() && model == next
    {
      model := next;
    }

    constructor ()
      ensures Valid() && fresh(loop) && model == E.EMPTY && !running && !stopRequested
    {
      loop := new EventLoop();
      roots, ready, completed, fds, timers := {}, [], [], map[], multiset{};
      nextToken, running, stopRequested := 1, false, false;
      model := E.EMPTY;
      new;
      assert model == Runs.Run([]);
    }

    // -------------------------------------------------------------- the descriptor table

    /** `ctlOk` is the outcome of epoll_ctl. */
    method RefreshInterest(fd: int, ctlOk: bool) returns (ok: bool)
      requires fd in fds && 0 <= fd && fds[fd].registered == (fd in loop.channels)
      modifies `fds, loop
      ensures ok == (old(fds[fd]).Unused() || ctlOk)
      ensures ok ==>
        fds == old(fds)[fd := Refreshed(old(fds[fd]))] && loop.channels == Told(old(loop.channels), fd, old(fds[fd]))
      ensures !ok ==>
        && fds == old(fds)[fd := old(fds[fd]).(interest := old(fds[fd]).Directions())]
        && loop.channels == old(loop.channels)
    {
      var state := fds[fd];
      if state.Unused() {
        if state.registered {
          loop.RemoveChannel(fd);
          fds := fds[fd := state.(registered := false)];
        }
        assert loop.channels == old(loop.channels) - {fd};
        return true;
      }
      if state.reader.Some? && state.writer.Some? {
        state := state.(interest := {Read, Write});
      } else if state.reader.Some? {
        state := state.(interest := {Read});
      } else {
        state := state.(interest := {Write});
      }
      assert state.interest == state.Directions();
      fds := fds[fd := state];
      var r;
      if state.registered {
        r := loop.UpdateChannel(fd, state.interest, ctlOk);
      } else {
        r := loop.AddChannel(fd, state.interest, ctlOk);
        if r.Done? {
          fds := fds[fd := state.(registered := true)];
        }
      }
      return r.Done?;
    }

    /** `refresh_interest`, with epoll_ctl successful, and the entry is erased if it is unused. */
    method Settle(fd: int)
      requires fd in fds && 0 <= fd && fds[fd].registered == (fd in loop.channels)
      modifies `fds, loop
      ensures fds == Settled(old(fds), fd, old(fds[fd])) && loop.channels == Told(old(loop.channels), fd, old(fds[fd]))
    {
      var ok := RefreshInterest(fd, true);
      if fds[fd].Unused() {
        fds := fds - {fd};
      }
      assert fds == Settled(old(fds), fd, old(fds[fd]));
    }

    /** Empties the slot and schedules its frame with the result. */
    method Complete(fd: int, event: Event, result: bool, ghost cause: E.Cause)
      requires fd in fds && SlotAgrees(model, fds, Key(fd, event)) && ready == model.sched.ready
      modifies `fds, `ready, `model
      ensures fds == old(fds)[fd := old(fds[fd]).WithSlot(event, None)]
      ensures model == E.End(old(model), Key(fd, event), E.Ended(result, cause)) && ready == model.sched.ready
    {
      var slot := fds[fd].Slot(event);
      if slot == None {
        return;
      }
      fds := fds[fd := fds[fd].WithSlot(event, None)];
      ready := ready + [slot.value.frame];
      model := E.End(model, Key(fd, event), E.Ended(result, cause));
    }

    /** How `on_ready` and `expire_timers` end a wait. */
    method EndWait(fd: int, event: Event, result: bool, ghost cause: E.Cause)
      requires Valid() && fd in fds && Runs.Reached(E.End(model, Key(fd, event), E.Ended(result, cause)))
      modifies `fds, `ready, `model, loop
      ensures Valid() && model == E.End(old(model), Key(fd, event), E.Ended(result, cause))
      ensures model.waits == old(model.waits) - {Key(fd, event)} && model.sched.current == old(model.sched.current)
      ensures model.log.resumed == old(model.log.resumed)
    {
      ghost var key, ended := Key(fd, event), E.Ended(result, cause);
      ghost var state := fds[fd].WithSlot(event, None);
      Ending(model, fds, loop.channels, timers, completed, key, ended);
      Complete(fd, event, result, cause);
      Settle(fd);
      SettledOver(old(fds), fd, state);
      Become(model);
    }

    method OnReady(fd: int, event: Event)
      requires Valid() && model.sched.current == None
      modifies `fds, `ready, `model, loop
      ensures Valid() && model == E.MakeReady(old(model), Key(fd, event)) && model.sched.current == None
      ensures model.log.resumed == old(model.log.resumed)
    {
      if fd !in fds {
        assert At(fds, Key(fd, event)) == None;
        return;
      }
      Runs.ReachedStep(model, Runs.Readiness(Key(fd, event)));
      EndWait(fd, event, true, E.ByReadiness(Key(fd, event)));
    }

    // -------------------------------------------------------------- waiting

    /** Undoes what a failed `arm_wait` did to the entry of `fd`. */
    method Rollback(fd: int, event: Event)
      requires fd in fds && 0 <= fd && fds[fd].registered == (fd in loop.channels)
      modifies `fds, loop
      ensures var state := old(fds[fd]).WithSlot(event, None);
        fds == Settled(old(fds), fd, state) && loop.channels == Told(old(loop.channels), fd, state)
    {
      ghost var state := fds[fd].WithSlot(event, None);
      fds := fds[fd := fds[fd].WithSlot(event, None)];
      if fds[fd].Unused() {
        if fds[fd].registered {
          loop.RemoveChannel(fd);
        }
        fds := fds - {fd};
        assert loop.channels == old(loop.channels) - {fd};
      } else {
        var ok := RefreshInterest(fd, true);
      }
      assert fds == Settled(old(fds), fd, state);
    }

    /** The part of `arm_wait` that may fail half-way. */
    method Register(fd: int, event: Event, timeout: int, slot: WaitSlot, now: nat, fault: Fault) returns (ok: bool)
      requires 0 <= fd && Registered(fds, loop.channels) && At(fds, Key(fd, event)) == None
      modifies `fds, `timers, loop
      ensures ok == (fault == NoFault || (fault == PushFails && timeout < 0))
      ensures ok ==>
        var key := Key(fd, event);
        var state := Filled(old(fds), key, slot);
        && fds == Settled(old(fds), fd, state) && loop.channels == Told(old(loop.channels), fd, state)
        && timers == Pushed(old(timers), DeadlineOf(timeout, now), slot.token, key)
      ensures !ok ==> fds == old(fds) && loop.channels == old(loop.channels) && timers == old(timers)
    {
      var state := if fd in fds then fds[fd] else NEW_STATE;
      fds := fds[fd := state.WithSlot(event, Some(slot))];
      ok := RefreshInterest(fd, fault != ControlFails);
      assert ok ==> fds == Settled(old(fds), fd, state.WithSlot(event, Some(slot)));
      if ok && 0 <= timeout {
        if fault == PushFails {
          ok := false;
        } else {
          timers := timers + multiset{TimerEntry(now + timeout * MS, slot.token, Key(fd, event))};
        }
      }
      if !ok {
        assert fds - {fd} == old(fds) - {fd} && loop.channels - {fd} == old(loop.channels) - {fd};
        RollbackRestores(old(fds), old(loop.channels), fd, fds, loop.channels, fds[fd].WithSlot(event, None));
        Rollback(fd, event);
      }
    }

    /** `arm_wait`: the running frame waits for one direction of `fd`, with a timeout in
        milliseconds. If epoll_ctl or the insertion into the heap fails, the table and the
        channels are restored, also when the other direction is armed; only a token is used up. */
    method ArmWait(fd: int, event: Event, timeout: int, continuation: FrameId, now: nat, fault: Fault)
        returns (r: ArmResult)
      requires Valid() && model.sched.current == Some(continuation) && continuation in model.heap
      modifies `fds, `timers, `nextToken, `model, loop
      ensures Valid()
      ensures r == (if fd < 0 then InvalidFd else if Key(fd, event) in old(model.waits) then Busy
                    else if fault == NoFault || (fault == PushFails && timeout < 0) then InPlace else RolledBack)
      ensures r.InPlace? ==>
        && model == E.Arm(old(model), Key(fd, event), DeadlineOf(timeout, now)) && model.sched.current == None
        && Key(fd, event) in model.waits
        && model.waits[Key(fd, event)] == E.Wait(continuation, old(nextToken), DeadlineOf(timeout, now))
      ensures r.RolledBack? ==> model == E.ArmFails(old(model))
      ensures !r.InPlace? ==> fds == old(fds) && loop.channels == old(loop.channels) && timers == old(timers)
      ensures r.InvalidFd? || r.Busy? ==> model == old(model)
      ensures model.log.resumed == old(model.log.resumed) && model.sched.ready == old(model.sched.ready)
    {
      if fd < 0 {
        return InvalidFd;
      }
      BusyIff(fds, model.waits, Key(fd, event));
      if fd in fds && fds[fd].Slot(event).Some? {
        return Busy;
      }
      var ok := ArmFree(fd, event, timeout, continuation, now, fault);
      return if ok then InPlace else RolledBack;
    }

    /** `arm_wait` for a direction that has no waiter. */
    method ArmFree(fd: int, event: Event, timeout: int, continuation: FrameId, now: nat, fault: Fault)
        returns (ok: bool)
      requires Valid() && model.sched.current == Some(continuation) && continuation in model.heap
      requires 0 <= fd && Key(fd, event) !in model.waits && At(fds, Key(fd, event)) == None
      modifies `fds, `timers, `nextToken, `model, loop
      ensures Valid() && ok == (fault == NoFault || (fault == PushFails && timeout < 0))
      ensures model ==
        if ok then E.Arm(old(model), Key(fd, event), DeadlineOf(timeout, now)) else E.ArmFails(old(model))
      ensures !ok ==> fds == old(fds) && loop.channels == old(loop.channels) && timers == old(timers)
    {
      ghost var armed := Arming(model, fds, loop.channels, timers, completed, Key(fd, event), DeadlineOf(timeout, now));
      ghost var failed := ArmingFails(model, fds, loop.channels, timers, completed);
      var token := nextToken;
      nextToken := nextToken + 1;
      ok := Register(fd, event, timeout, WaitSlot(continuation, token), now, fault);
      Become(if ok then armed else failed);
    }

    /** Ends the waits of both directions with false. It may also be called while the context is
        being destroyed and its table is empty: then it does nothing. */
    method Cancel(fd: int)
      requires Valid() || fds == map[]
      modifies `fds, `ready, `model, loop
      ensures fd !in fds && (old(fds) == map[] ==> unchanged(this) && unchanged(loop))
      ensures old(Valid()) ==>
        && Valid() && model == E.Cancel(old(model), fd) && fd !in loop.channels
        && model.sched == old(model.sched).(ready := model.sched.ready)
        && old(ready) <= ready && model.log.resumed == old(model.log.resumed)
    {
      if fd !in fds {
        if Valid() {
          CancellingNone(model, fds, loop.channels, timers, fd);
        }
        return;
      }
      Cancelling(model, fds, loop.channels, timers, completed, fd);
      if fds[fd].registered {
        loop.RemoveChannel(fd);
        fds := fds[fd := fds[fd].(registered := false)];
      }
      CompleteBoth(fd);
      assert old(fds)[fd := old(fds[fd]).(registered := false)] - {fd} == old(fds) - {fd};
    }

    /** Empties both slots and erases the entry. */
    method CompleteBoth(fd: int)
      requires fd in fds && ready == model.sched.ready && SlotAgrees(model, fds, Key(fd, Read))
      requires SlotAgrees(E.End(model, Key(fd, Read), E.Ended(false, E.ByCancel(fd))), fds, Key(fd, Write))
      modifies `fds, `ready, `model
      ensures fds == old(fds) - {fd} && model == E.Cancel(old(model), fd) && ready == model.sched.ready
    {
      Complete(fd, Read, false, E.ByCancel(fd));
      Complete(fd, Write, false, E.ByCancel(fd));
      fds := fds - {fd};
      assert fds == old(fds) - {fd};
    }

    // -------------------------------------------------------------- timers

    /** Takes one due entry out of the heap, and ends its wait if that is still armed. */
    method ExpireOne(e: TimerEntry, now: nat) returns (ended: bool)
      requires Valid() && model.sched.current == None && e in timers && e.deadline <= now
      modifies `fds, `ready, `timers, `model, loop
      ensures Valid() && model.sched.current == None && timers == old(timers) - multiset{e}
      ensures model.log.resumed == old(model.log.resumed)
      ensures ended <==> e.key in old(model.waits) && old(model.waits)[e.key].token == e.token
      ensures ended ==>
        && old(model.waits)[e.key].deadline == Some(e.deadline)
        && model == E.End(old(model), e.key, E.Ended(false, E.ByDeadline(now)))
        && model.waits == old(model.waits) - {e.key}
      ensures !ended ==> model == old(model)
    {
      Expiring(model, fds, loop.channels, timers, e, now);
      ended := Active(fds, e);
      if ended {
        EndWait(e.key.fd, e.key.event, false, E.ByDeadline(now));
      }
      timers := timers - multiset{e};
    }

    /** Completes with false exactly the armed waits whose deadline has passed, by ascending
        deadline. Stale entries end no wait, even if their descriptor is waited for again. Among
        equal deadlines the heap may give the entries in any order; `order` says in which. */
    method ExpireTimers(now: nat, order: seq<Key>)
      requires Valid() && model.sched.current == None && DueOrder(model.waits, now, order)
      modifies `fds, `ready, `timers, `model, loop
      ensures Valid() && model == E.Expire(old(model), order, now)
      ensures model.sched.current == None && (forall k :: k in model.waits ==> !Due(model.waits[k], now))
      ensures model.log.resumed == old(model.log.resumed)
    {
      var rest := order;
      while timers != multiset{}
        invariant Valid() && model.sched.current == None && DueOrder(model.waits, now, rest)
        invariant E.Expire(model, rest, now) == E.Expire(old(model), order, now)
        invariant model.log.resumed == old(model.log.resumed)
        decreases |timers|
      {
        ChoiceExists(model, fds, loop.channels, timers, now, rest);
        var e :| Chosen(fds, timers, now, rest, e);
        if now < e.deadline {
          break;
        }
        ActiveMeans(model, fds, loop.channels, timers, e);
        ghost var waits := model.waits;
        var ended := ExpireOne(e, now);
        if ended {
          OrderGoesOn(waits, now, rest);
          rest := rest[1..];
        }
      }
      NoneDue(model.waits, timers, model.log.armed, now, rest);
    }

    /** The poll timeout, in milliseconds, for the earliest deadline. Stale entries are dropped. */
    method NextPollTimeout(now: nat) returns (ms: int)
      requires Valid()
      modifies `timers
      ensures Valid() && PollFor(model.waits, now, ms)
    {
      while timers != multiset{}
        invariant Valid()
        decreases |timers|
      {
        EarliestExists(timers);
        var top :| Earliest(timers, top);
        StaleOrArmed(model, fds, loop.channels, timers, top);
        if Active(fds, top) {
          if top.deadline <= now {
            return 0;
          }
          ms := RoundUp(top.deadline - now);
          return;
        }
        timers := timers - multiset{top};
      }
      return -1;
    }

    /** Whole milliseconds, within the range of `int`. */
    static method RoundUp(remaining: nat) returns (ms: int)
      requires 0 < remaining
      ensures 1 <= ms <= INT_MAX && (ms - 1) * MS < remaining && (remaining <= ms * MS || ms == INT_MAX)
    {
      var milliseconds := remaining / MS;
      if milliseconds * MS < remaining {
        milliseconds := milliseconds + 1;
      }
      return if INT_MAX < milliseconds then INT_MAX else milliseconds;
    }

    method HasRegisteredWaiter() returns (found: bool)
      ensures found <==> exists fd :: fd in fds && fds[fd].registered
    {
      var rest := fds.Keys;
      while exists fd :: fd in rest
        invariant rest <= fds.Keys && forall fd :: fd in fds && fd !in rest ==> !fds[fd].registered
        decreases |rest|
      {
        var fd :| fd in rest;
        if fds[fd].registered {
          return true;
        }
        rest := rest - {fd};
      }
      return false;
    }

    // -------------------------------------------------------------- the event loop

    /** `EventLoop::dispatch_events` with this executor's callbacks. */
    method Poll(events: seq<E.Report>)
      requires Valid() && model.sched.current == None
      modifies `fds, `ready, `model, loop
      ensures Valid() && model == E.Dispatch(old(model), events) && model.sched.current == None
      ensures model.log.resumed == old(model.log.resumed)
    {
      for i := 0 to |events|
        invariant Valid() && model.sched.current == None && model == E.Dispatch(old(model), events[..i])
        invariant model.log.resumed == old(model.log.resumed)
      {
        assert events[..i + 1][..i] == events[..i];
        DispatchEvent(events[i]);
      }
      assert events[..|events|] == events;
    }

    /** The callbacks of one event. The first may unregister the channel. */
    method DispatchEvent(e: E.Report)
      requires Valid() && model.sched.current == None
      modifies `fds, `ready, `model, loop
      ensures Valid() && model == E.DispatchOne(old(model), e) && model.sched.current == None
      ensures model.log.resumed == old(model.log.resumed)
    {
      Unregistered(fds, loop.channels, model.waits, e.fd);
      if e.fd !in loop.channels {
        return;
      }
      if e.readable || e.terminal {
        OnReady(e.fd, Read);
      }
      Unregistered(fds, loop.channels, model.waits, e.fd);
      if e.fd !in loop.channels {
        return;
      }
      if e.writable || e.terminal {
        OnReady(e.fd, Write);
      }
    }

    // -------------------------------------------------------------- tasks

    /** `spawn`. An empty Task is refused. */
    method SpawnTask(task: Option<FrameId>) returns (ok: bool)
      requires Valid() && (task.Some? ==> E.Reachable(model, task.value) && task.value in model.heap)
      modifies `roots, `ready, `model
      ensures Valid() && ok == task.Some?
      ensures model == if ok then E.Spawn(old(model), task.value) else old(model)
      ensures old(ready) <= ready && model.log.resumed == old(model.log.resumed)
        && model.sched.current == old(model.sched.current)
    {
      if task == None {
        return false;
      }
      Spawning(model, completed, task.value);
      roots := roots + {task.value};
      ready := ready + [task.value];
      model := E.Spawn(model, task.value);
      return true;
    }

    /** The awaiter of `yield()`. */
    method YieldNow(continuation: FrameId)
      requires Valid() && E.HasCurrent(model) && model.sched.current == Some(continuation)
      modifies `ready, `model
      ensures Valid() && model == E.Yield(old(model)) && ready == old(ready) + [continuation]
    {
      Yielding(model, completed);
      ready := ready + [continuation];
      model := E.Yield(model);
    }

    /** The final suspend point: a root is linked into the completion list. */
    method FinalSuspend(handle: FrameId, failed: bool)
      requires Valid() && E.HasCurrent(model) && model.sched.current == Some(handle)
      modifies `completed, `model
      ensures Valid() && model == E.Finish(old(model), failed)
      ensures model.log.resumed == old(model.log.resumed)
    {
      Returning(model, completed, failed);
      if handle in roots {
        completed := [Finished(handle, failed)] + completed;
      }
      model := E.Finish(model, failed);
    }

    /** `drain_completed`; `cancels` are the descriptors cancelled by destructors. The result says
        whether an exception is rethrown. */
    method DrainCompleted(cancels: seq<int>) returns (failed: bool)
      requires Valid() && model.sched.current == None
      modifies `roots, `ready, `completed, `fds, `model, loop
      ensures Valid() && model == E.CancelAll(E.Drain(old(model)), cancels) && completed == []
      ensures failed == AnyFailed(old(completed))
      ensures old(ready) <= ready && model.log.resumed == old(model.log.resumed) && model.sched.current == None
    {
      Draining(model, completed);
      failed := Unlink();
      model := E.Drain(model);
      CancelEach(cancels);
    }

    /** Takes every finished root out of the list and the root map. */
    method Unlink() returns (failed: bool)
      modifies `roots, `completed
      ensures completed == [] && roots == old(roots) - FramesOf(old(completed)) && failed == AnyFailed(old(completed))
    {
      failed := false;
      ghost var done := [];
      while completed != []
        invariant done + completed == old(completed)
        invariant roots == old(roots) - FramesOf(done) && failed == AnyFailed(done)
        decreases |completed|
      {
        var head := completed[0];
        completed := completed[1..];
        roots := roots - {head.frame};
        failed := failed || head.failed;
        assert FramesOf(done + [head]) == FramesOf(done) + {head.frame};
        done := done + [head];
      }
      assert done == old(completed);
    }

    method CancelEach(cancels: seq<int>)
      requires Valid()
      modifies `fds, `ready, `model, loop
      ensures Valid() && model == E.CancelAll(old(model), cancels)
      ensures model.sched == old(model.sched).(ready := model.sched.ready)
      ensures old(ready) <= ready && model.log.resumed == old(model.log.resumed)
    {
      for i := 0 to |cancels|
        invariant Valid() && model == E.CancelAll(old(model), cancels[..i])
        invariant model.sched == old(model.sched).(ready := model.sched.ready)
        invariant old(ready) <= ready && model.log.resumed == old(model.log.resumed)
      {
        assert cancels[..i + 1][..i] == cancels[..i];
        Cancel(cancels[i]);
      }
      assert cancels[..|cancels|] == cancels;
    }

    // -------------------------------------------------------------- turns

    /** What the body does with Tasks does not touch the executor. */
    ghost method ActOnTask(act: Runs.Act)
      requires Valid() && OnTasks(act) && Runs.Possible(model, act)
      modifies `model
      ensures Valid() && model == Runs.Do(old(model), act) && model.log.resumed == old(model.log.resumed)
    {
      Acting(model, completed, act);
      model := Runs.Do(model, act);
    }

    method Perform(a: Action, now: nat)
      requires Valid() && Able(model, a)
      modifies this, loop
      ensures Valid() && model == After(old(model), a, now)
      ensures old(ready) <= ready && model.log.resumed == old(model.log.resumed)
      ensures stopRequested == (old(stopRequested) || a.Stop?) && running == old(running)
    {
      if a.OnTask? {
        ActOnTask(a.act);
      } else if a.Spawn? {
        var ok := SpawnTask(Some(a.task));
      } else if a.Cancel? {
        Cancel(a.fd);
      } else if a.Stop? {
        stopRequested := true;
      } else {
        Suspend(a, now);
      }
    }

    /** The awaiters of the library. */
    method Suspend(a: Action, now: nat)
      requires Valid() && Able(model, a) && (a.Yield? || a.Wait? || a.Return?)
      modifies `ready, `completed, `fds, `timers, `nextToken, `model, loop
      ensures Valid() && model == After(old(model), a, now)
      ensures old(ready) <= ready && model.log.resumed == old(model.log.resumed)
    {
      if a.Yield? {
        YieldNow(a.self);
      } else if a.Wait? {
        var r := ArmWait(a.fd, a.event, a.timeout, a.self, now, a.fault);
      } else {
        FinalSuspend(a.self, a.failed);
      }
    }

    /** The running body goes on until it suspends or its root returns. */
    method PlayBody(actions: seq<Action>, now: nat)
      requires Valid() && Plays(model, actions, now)
      modifies this, loop
      ensures Valid() && model == Play(old(model), actions, now) && model.sched.current == None
      ensures old(ready) <= ready && model.log.resumed == old(model.log.resumed)
      ensures stopRequested == (old(stopRequested) || Stop in actions) && running == old(running)
    {
      var i := 0;
      while i < |actions|
        invariant 0 <= i <= |actions| && Valid() && Plays(model, actions[i..], now)
        invariant Play(model, actions[i..], now) == Play(old(model), actions, now)
        invariant old(ready) <= ready && model.log.resumed == old(model.log.resumed)
        invariant stopRequested == (old(stopRequested) || Stop in actions[..i]) && running == old(running)
      {
        assert actions[i..][0] == actions[i] && actions[i..][1..] == actions[i + 1..];
        assert actions[..i + 1] == actions[..i] + [actions[i]];
        Perform(actions[i], now);
        i := i + 1;
      }
      assert actions[..i] == actions;
    }

    /** The front of the queue starts to run. */
    method TakeFront()
      requires Valid() && model.sched.current == None && ready != []
      modifies `ready, `model
      ensures old(model.sched.ready != [] && model.sched.ready[0] in model.heap)
      ensures Valid() && model == E.Resume(old(model)) && ready == old(ready)[1..]
    {
      Resuming(model, completed);
      ready := ready[1..];
      model := E.Resume(model);
    }

    /** One resumption of `run_ready`: the front of the queue runs, then finished roots are
        drained. */
    method ResumeFront(r: Resumption, ghost waiting: seq<FrameId>) returns (failed: bool)
      requires Valid() && model.sched.current == None && completed == [] && Fits(model, r)
      requires waiting != [] && waiting <= ready
      modifies this, loop
      ensures Valid() && model == Resumed(old(model), r) && model.sched.current == None && completed == []
      ensures waiting[1..] <= ready && model.log.resumed == old(model.log.resumed) + [waiting[0]]
      ensures failed == Fails(old(model), r)
      ensures stopRequested == (old(stopRequested) || Stop in r.actions) && running == old(running)
    {
      TakeFront();
      PlayBody(r.actions, r.now);
      FailedIff(completed, model);
      failed := DrainCompleted(r.cancels);
      NextInLine(waiting, old(ready), ready);
    }

    /** `run_ready`: one bounded batch. It resumes exactly the frames that were ready at its start,
        in their order, unless it is stopped or a root fails; frames made ready meanwhile wait for
        the next turn. `turn` is what the resumed bodies do. */
    method RunReady(turn: seq<Resumption>) returns (failed: bool)
      requires Valid() && model.sched.current == None && completed == [] && !stopRequested
      requires |turn| == |ready| && FitsAll(model, turn)
      modifies this, loop
      ensures Valid() && model.sched.current == None && completed == [] && running == old(running)
      ensures var end := Batch(old(model), turn);
        && model == end.state && stopRequested == end.stopped && failed == end.failed
        && end.count <= |old(ready)| && model.log.resumed == old(model.log.resumed) + old(ready)[..end.count]
        && (end.count < |old(ready)| ==> failed || stopRequested)
      ensures !failed && !stopRequested ==> model.log.resumed == old(model.log.resumed) + old(ready)
      ensures failed <==> BatchThrows(old(model), turn)
    {
      var rest := turn;
      ghost var waiting, resumed := ready, [];
      failed := false;
      while rest != [] && !stopRequested
        invariant Valid() && model.sched.current == None && completed == [] && running == old(running)
        invariant |rest| == |waiting|
          && InLine(old(ready), old(model.log.resumed), resumed, waiting, ready, model.log.resumed)
        invariant InBatch(old(model), turn, model, rest, stopRequested, failed, |resumed|) && !failed
        decreases |rest|
      {
        BatchStep(old(model), turn, model, rest, |resumed|);
        ghost var queue, log := ready, model.log.resumed;
        failed := ResumeFront(rest[0], waiting);
        OneByOne(old(ready), old(model.log.resumed), resumed, waiting, queue, log, ready);
        resumed, waiting := resumed + [waiting[0]], waiting[1..];
        rest := rest[1..];
        if failed {
          break;
        }
      }
      BatchOver(old(model), turn, model, rest, stopRequested, failed, |resumed|);
      InLineSoFar(old(ready), old(model.log.resumed), resumed, waiting, ready, model.log.resumed);
      BatchFailsIff(old(model), turn);
    }

    /** One round of the loop in `run`. A task is never found without a wake source; and before
        epoll is asked, every frame that was ready at the start of the round has been resumed. */
    method RunRound(input: RoundInput) returns (round: Round)
      requires Valid() && model.sched.current == None && completed == [] && !stopRequested && roots != {}
      requires RoundFits(model, input)
      modifies this, loop
      ensures Valid() && model.sched.current == None && completed == [] && running == old(running)
      ensures round != NoWakeSource && Leads(old(model), input, round, model)
      ensures round.Polled? ==> model.log.resumed == old(model.log.resumed) + old(ready) && !stopRequested
      ensures round.Left? ==> stopRequested || roots == {}
      ensures round.Threw? <==> BatchThrows(old(model), input.turn)
    {
      var failed := RunReady(input.turn);
      if failed {
        return Threw;
      }
      ExpireTimers(input.now, input.first);
      if stopRequested || roots == {} {
        return Left;
      }
      round := AskEpoll(input.pollAt, input.events, input.later, input.second);
    }

    /** `run`, for as many rounds as are given. It refuses to be entered again, also from a running
        coroutine, and it ends when it is stopped, when no root is left, or when a root fails.
        `n` rounds went through to their end, and led to the state `last`. */
    method Run(inputs: seq<RoundInput>) returns (end: RunEnd, ghost n: nat, ghost last: E.Ctx)
      requires Valid()
      requires !running ==> model.sched.current == None && completed == [] && RunFits(model, inputs)
      modifies this, loop
      ensures Valid() && n <= |inputs| && RunsTo(old(model), inputs[..n], last)
      ensures end.Reentered? <==> old(running)
      ensures !end.Reentered? ==> model.sched.current == None && completed == []
      ensures match end
        case Reentered => n == 0 && model == last && unchanged(this) && unchanged(loop)
        case Unfinished => running && n == |inputs| && model == last && !stopRequested && roots != {}
        case Raised => !running && n < |inputs| && RoundThrows(last, inputs[n], model)
        case Ended =>
          && !running
          && ((model == last && roots == {}) || (n < |inputs| && RoundLeaves(last, inputs[n], model)))
    {
      n, last := 0, model;
      if running {
        return Reentered, n, last;
      }
      running, stopRequested := true, false;
      end, n, last := RunRounds(inputs);
      if !end.Unfinished? {
        running := false;
      }
    }

    /** The loop in `run`. */
    method RunRounds(inputs: seq<RoundInput>) returns (end: RunEnd, ghost n: nat, ghost last: E.Ctx)
      requires Valid() && model.sched.current == None && completed == [] && !stopRequested && RunFits(model, inputs)
      modifies this, loop
      ensures Valid() && model.sched.current == None && completed == [] && running == old(running)
      ensures Along(old(model), inputs, n, last) && !end.Reentered?
      ensures end.Unfinished? ==> n == |inputs| && model == last && !stopRequested && roots != {}
      ensures end.Raised? ==> n < |inputs| && RoundThrows(last, inputs[n], model)
      ensures end.Ended? ==> (model == last && roots == {}) || (n < |inputs| && RoundLeaves(last, inputs[n], model))
    {
      AlongStart(model, inputs);
      n, last := 0, model;
      var i := 0;
      while !stopRequested && roots != {}
        invariant Valid() && model.sched.current == None && completed == [] && running == old(running)
        invariant n == i <= |inputs| && last == model && Along(old(model), inputs, n, last) && !stopRequested
        decreases |inputs| - i
      {
        if i == |inputs| {
          return Unfinished, n, last;
        }
        var round := NextRound(inputs, i, old(model));
        if round.Threw? {
          return Raised, n, last;
        }
        if round.Left? {
          return Ended, n, last;
        }
        i := i + 1;
        n, last := i, model;
      }
      return Ended, n, last;
    }

    /** The round number `i`, in a run that began in the state `start`. */
    method NextRound(inputs: seq<RoundInput>, i: nat, ghost start: E.Ctx) returns (round: Round)
      requires Valid() && model.sched.current == None && completed == [] && !stopRequested && roots != {}
      requires i < |inputs| && Along(start, inputs, i, model)
      modifies this, loop
      ensures Valid() && model.sched.current == None && completed == [] && running == old(running)
      ensures round.Threw? ==> RoundThrows(old(model), inputs[i], model)
      ensures round.Left? ==> RoundLeaves(old(model), inputs[i], model)
      ensures !round.Threw? && !round.Left? ==> Along(start, inputs, i + 1, model) && !stopRequested
    {
      AlongFits(start, inputs, i, model);
      round := RunRound(inputs[i]);
      RoundEnds(old(model), inputs[i], round, model);
      if round.Polled? {
        AlongFurther(start, inputs, i, old(model), round, model);
      }
    }

    /** The second half of the round. */
    method AskEpoll(pollAt: nat, events: seq<E.Report>, later: nat, order: seq<Key>) returns (round: Round)
      requires Valid() && model.sched.current == None && completed == [] && roots != {}
      requires DueOrder(E.Dispatch(model, events).waits, later, order)
      modifies `fds, `ready, `timers, `model, loop
      ensures Valid() && model.sched.current == None && round.Polled? && model.log.resumed == old(model.log.resumed)
      ensures if old(ready) != [] then round.timeout == 0 else PollFor(old(model.waits), pollAt, round.timeout)
      ensures model == E.Expire(E.Dispatch(old(model), events), order, later)
    {
      var hasReady := ready != [];
      var timeout := 0;
      if !hasReady {
        timeout := NextPollTimeout(pollAt);
      }
      if !hasReady && timeout < 0 {
        var found := HasRegisteredWaiter();
        WakeSource(model, fds, loop.channels);
        if !found {
          return NoWakeSource;
        }
      }
      Poll(events);
      ExpireTimers(later, order);
      return Polled(timeout);
    }

    // -------------------------------------------------------------- the destructor

    /** `~IoContext`: registrations, waits and queues go first, so that what a destructor cancels
        is no longer there; then every root is destroyed, and each frame exactly once. `cancels`
        lists the descriptors that the destructors of a root and of what it owns cancel. */
    method Destroy(cancels: map<FrameId, seq<int>>)
      requires Valid()
      modifies this, loop
      ensures loop.channels == map[] && fds == map[] && timers == multiset{} && roots == {} && ready == []
        && completed == []
      ensures model == E.Teardown(old(model))
      ensures forall f: FrameId :: model.log.killed[f] == (if f < old(model.nextId) && f !in model.heap then 1 else 0)
      ensures old(model.sched.outside) == {} ==> model.heap == map[]
    {
      ghost var acts: seq<Runs.Act> :| model == Runs.Run(acts);
      forall f: FrameId {
        Runs.TeardownDestroysAll(acts, f);
      }
      RemoveChannels();
      var rest := roots;
      fds, ready, completed, timers, roots := map[], [], [], multiset{}, {};
      while rest != {}
        invariant loop.channels == map[] && fds == map[] && timers == multiset{}
        invariant roots == {} && ready == [] && completed == [] && model == old(model)
        decreases |rest|
      {
        var root :| root in rest;
        rest := rest - {root};
        if root in cancels {
          for i := 0 to |cancels[root]|
            invariant loop.channels == map[] && fds == map[] && timers == multiset{}
            invariant roots == {} && ready == [] && completed == [] && model == old(model)
          {
            Cancel(cancels[root][i]);
          }
        }
      }
      model := E.Teardown(model);
    }

    method RemoveChannels()
      requires Registered(fds, loop.channels)
      modifies loop
      ensures loop.channels == map[]
    {
      var rest := fds.Keys;
      while exists fd :: fd in rest
        invariant rest <= fds.Keys && loop.channels.Keys == rest
        decreases |rest|
      {
        var fd :| fd in rest;
        if fds[fd].registered {
          loop.RemoveChannel(fd);
        }
        rest := rest - {fd};
      }
    }
  }
}
