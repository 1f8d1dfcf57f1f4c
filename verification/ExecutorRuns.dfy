/** Whole runs of the executor, and what holds of all of them.

    A run is any sequence of actions: of coroutine bodies, of code outside them, of the executor
    itself, of the clock and of the kernel. An action that is not possible in the state it meets
    is skipped, so a run may stand for any interleaving. */
module ExecutorRuns {
  import opened Options
  import opened Frames
  import opened ExecutorInvariant
  import E = Executor
  import Steps = ExecutorSteps

  datatype Act =
    // of the running coroutine, or of code outside
    | Create
    | Move(frame: FrameId, to: Option<FrameId>)
    | Spawn(frame: FrameId)
    | Drop(frame: FrameId)
    | Cancel(fd: int)
    // of the running coroutine
    | Await(frame: FrameId)
    | Yield
    | Wait(key: Key, deadline: Option<nat>)
    | WaitFails
    | Return(failed: bool)
    // of the executor
    | Resume
    | Drain
    | Readiness(key: Key)
    | Expire(key: Key, now: nat)

  ghost predicate Possible(s: E.Ctx, act: Act) {
    match act
    case Create => true
    case Move(f, to) => E.CanMove(s, f, to)
    case Spawn(f) => E.Reachable(s, f) && f in s.heap
    case Drop(f) => E.CanDrop(s, f)
    case Cancel(fd) => true
    case Await(f) => E.CanAwait(s, f)
    case Yield => E.HasCurrent(s)
    case Wait(key, _) => E.HasCurrent(s) && 0 <= key.fd && key !in s.waits
    case WaitFails => E.HasCurrent(s)
    case Return(_) => E.HasCurrent(s)
    case Resume => s.sched.current == None && s.sched.ready != [] && s.sched.ready[0] in s.heap
    case Drain => s.sched.current == None
    case Readiness(key) => s.sched.current == None
    case Expire(key, now) =>
      && s.sched.current == None && key in s.waits && s.waits[key].deadline.Some? && s.waits[key].deadline.value <= now
  }

  ghost function Do(s: E.Ctx, act: Act): E.Ctx
    requires Possible(s, act)
  {
    match act
    case Create => E.Create(s)
    case Move(f, to) => E.Move(s, f, to)
    case Spawn(f) => E.Spawn(s, f)
    case Drop(f) => E.Drop(s, f)
    case Cancel(fd) => E.Cancel(s, fd)
    case Await(f) => E.Await(s, f)
    case Yield => E.Yield(s)
    case Wait(key, deadline) => E.Arm(s, key, deadline)
    case WaitFails => E.ArmFails(s)
    case Return(failed) => E.Finish(s, failed)
    case Resume => E.Resume(s)
    case Drain => E.Drain(s)
    case Readiness(key) => E.MakeReady(s, key)
    case Expire(key, now) => E.End(s, key, E.Ended(false, E.ByDeadline(now)))
  }

  ghost function Step(s: E.Ctx, act: Act): E.Ctx {
    if Possible(s, act) then Do(s, act) else s
  }

  ghost function Run(acts: seq<Act>): E.Ctx {
    if acts == [] then E.EMPTY else Step(Run(acts[..|acts| - 1]), acts[|acts| - 1])
  }

  // ---------------------------------------------------------------- the invariant

  lemma EndKeepsInv(s: E.Ctx, key: Key, ended: E.Ended)
    requires Inv(s)
    requires key in s.waits ==> RightCause(E.Armed(key, s.waits[key].frame, s.waits[key].deadline), ended)
    ensures Inv(E.End(s, key, ended))
  {
    if key in s.waits {
      Steps.CompleteKeepsInv(s, key, ended);
    }
  }

  lemma CancelKeepsInv(s: E.Ctx, fd: int)
    requires Inv(s)
    ensures Inv(E.Cancel(s, fd))
  {
    var cancelled := E.Ended(false, E.ByCancel(fd));
    EndKeepsInv(s, Key(fd, Read), cancelled);
    EndKeepsInv(E.End(s, Key(fd, Read), cancelled), Key(fd, Write), cancelled);
  }

  lemma DoKeepsInv(s: E.Ctx, act: Act)
    requires Inv(s) && Possible(s, act)
    ensures Inv(Do(s, act))
  {
    match act
    case Create => Steps.CreateKeepsInv(s);
    case Move(f, to) => Steps.MoveKeepsInv(s, f, to);
    case Spawn(f) => Steps.SpawnKeepsInv(s, f);
    case Drop(f) => Steps.DropKeepsInv(s, f);
    case Cancel(fd) => CancelKeepsInv(s, fd);
    case Await(f) => Steps.AwaitKeepsInv(s, f);
    case Yield => Steps.YieldKeepsInv(s);
    case Wait(key, deadline) => Steps.ArmKeepsInv(s, key, deadline);
    case WaitFails => Steps.ArmFailsKeepsInv(s);
    case Return(failed) => Steps.FinishKeepsInv(s, failed);
    case Resume => Steps.ResumeKeepsInv(s);
    case Drain => Steps.DrainKeepsInv(s);
    case Readiness(key) => EndKeepsInv(s, key, E.Ended(true, E.ByReadiness(key)));
    case Expire(key, now) => EndKeepsInv(s, key, E.Ended(false, E.ByDeadline(now)));
  }

  lemma {:induction false} RunInv(acts: seq<Act>)
    ensures Inv(Run(acts))
  {
    if acts == [] {
      assert Inv(E.EMPTY);
    } else {
      var before, act := acts[..|acts| - 1], acts[|acts| - 1];
      RunInv(before);
      if Possible(Run(before), act) {
        DoKeepsInv(Run(before), act);
      }
    }
  }

  /** `s` is the state of some run. */
  ghost predicate Reached(s: E.Ctx) {
    exists acts: seq<Act> :: s == Run(acts)
  }

  lemma ReachedInv(s: E.Ctx)
    requires Reached(s)
    ensures Inv(s)
  {
    var acts: seq<Act> :| s == Run(acts);
    RunInv(acts);
  }

  lemma ReachedStep(s: E.Ctx, act: Act)
    requires Reached(s) && Possible(s, act)
    ensures Reached(Do(s, act))
  {
    var acts: seq<Act> :| s == Run(acts);
    assert (acts + [act])[..|acts + [act]| - 1] == acts;
    assert Do(s, act) == Run(acts + [act]);
  }

  // ---------------------------------------------------------------- no task is lost

  /** From `f`, `n` continuations lead to the root `r`; each frame on the way awaits the one before. */
  ghost predicate ClimbsTo(heap: Heap, f: FrameId, r: FrameId, n: nat)
    decreases n
  {
    f in heap &&
    if n == 0 then f == r && heap[f].owner == InRoots
    else
      && heap[f].continuation.Some?
      && heap[f].continuation.value in heap
      && heap[heap[f].continuation.value].status == Awaiting(f)
      && ClimbsTo(heap, heap[f].continuation.value, r, n - 1)
  }

  lemma {:induction false} Climb(s: E.Ctx, f: FrameId)
    requires FramesInv(s) && f in s.heap && !s.heap[f].Inert()
    ensures ClimbsTo(s.heap, f, s.heap[f].root, s.heap[f].depth)
    decreases s.heap[f].depth
  {
    var p := OneUp(s, f);
    if p.Some? {
      Climb(s, p.value);
    }
  }

  lemma AwaitedIsOwned(s: E.Ctx, p: FrameId, f: FrameId)
    requires FramesInv(s) && p in s.heap && s.heap[p].status == Awaiting(f)
    ensures f in s.heap && s.heap[f].owner == InAwaiter(p)
  {
    assert StatusInv(s, p) && HoldsSoundly(s.heap, p);
  }

  /** A frame that runs, waits or is queued is a root, or its parent awaits it. */
  lemma OneUp(s: E.Ctx, f: FrameId) returns (p: Option<FrameId>)
    requires FramesInv(s) && f in s.heap && !s.heap[f].Inert()
    ensures p.None? <==> s.heap[f].owner == InRoots
    ensures p.None? ==> s.heap[f].root == f && s.heap[f].depth == 0
    ensures p.Some? ==>
      && s.heap[f].continuation == p && p.value in s.heap && !s.heap[p.value].Inert()
      && s.heap[p.value].status == Awaiting(f) && s.heap[p.value].root == s.heap[f].root
      && s.heap[f].depth == s.heap[p.value].depth + 1
  {
    assert StatusInv(s, f) && OwnedBy(s.heap, s.sched, f);
    p := if s.heap[f].owner.InAwaiter? then Some(s.heap[f].owner.parent) else None;
    if p.Some? {
      assert StatusInv(s, p.value);
    }
  }

  /** `f` is in the ready queue or in a wait slot. */
  ghost predicate Suspended(s: E.Ctx, f: FrameId) {
    f in s.sched.ready || exists k :: k in s.waits && s.waits[k].frame == f
  }

  lemma SuspendedIsLeaf(s: E.Ctx, f: FrameId)
    requires Inv(s) && s.sched.current == None
    ensures Suspended(s, f) <==> f in s.heap && s.heap[f].Leaf()
  {
    if f in s.heap {
      assert StatusInv(s, f);
    }
  }

  /** `f` is a suspended frame from which a chain of awaiting frames leads to `r`. */
  ghost predicate LeafOf(s: E.Ctx, f: FrameId, r: FrameId) {
    Suspended(s, f) && exists n: nat :: ClimbsTo(s.heap, f, r, n)
  }

  lemma {:induction false} ClimbRoot(s: E.Ctx, f: FrameId, r: FrameId, n: nat)
    requires FramesInv(s) && f in s.heap && !s.heap[f].Inert() && ClimbsTo(s.heap, f, r, n)
    ensures s.heap[f].root == r
    decreases n
  {
    var p := OneUp(s, f);
    if n > 0 {
      AwaitedIsOwned(s, s.heap[f].continuation.value, f);
      ClimbRoot(s, p.value, r, n - 1);
    }
  }

  /** No suspended task is lost: while no coroutine runs and finished roots are drained, the live
      roots are as many as the ready entries and occupied wait slots together, and each of them
      has exactly one of these at the end of its chain. */
  lemma NoTaskLost(acts: seq<Act>, r: FrameId)
    requires Run(acts).sched.current == None && Run(acts).sched.completed == []
    ensures var s := Run(acts);
      && |s.sched.roots| == |s.sched.ready| + |s.waits|
      && (r in s.sched.roots ==> exists f :: LeafOf(s, f, r) && forall g :: LeafOf(s, g, r) ==> g == f)
  {
    var s := Run(acts);
    RunInv(acts);
    if r in s.sched.roots {
      var f := s.leaves[r];
      SuspendedIsLeaf(s, f);
      Climb(s, f);
      assert LeafOf(s, f, r);
      forall g | LeafOf(s, g, r) ensures g == f {
        SuspendedIsLeaf(s, g);
        var n: nat :| ClimbsTo(s.heap, g, r, n);
        ClimbRoot(s, g, r, n);
      }
    }
  }

  /** While a root is alive and nothing is ready, some descriptor has a waiter: `run` never finds
      itself without a wake source. */
  lemma AlwaysWakeSource(acts: seq<Act>)
    requires var s := Run(acts);
      s.sched.current == None && s.sched.completed == [] && s.sched.roots != {} && s.sched.ready == []
    ensures Run(acts).waits != map[]
  {
    RunInv(acts);
  }

  // ---------------------------------------------------------------- frames

  /** No handle that the executor will use, and no handle that a frame owns, dangles; and no two
      owners hold the same handle. */
  lemma HandlesAreLive(acts: seq<Act>)
    ensures var s := Run(acts);
      && (s.sched.current.Some? ==> s.sched.current.value in s.heap)
      && (forall f :: f in s.sched.ready ==> f in s.heap && !s.heap[f].Inert())
      && (forall k :: k in s.waits ==> s.waits[k].frame in s.heap && s.heap[s.waits[k].frame].status == Waiting(k))
      && (forall f :: f in s.sched.completed ==> f in s.heap && s.heap[f].status.Returned?)
      && (forall f :: f in s.sched.roots || f in s.sched.outside ==> f in s.heap)
      && OwnershipSound(s.heap)
  {
    var s := Run(acts);
    RunInv(acts);
    OwnerInvSound(s.heap, s.sched);
    forall f | f in s.sched.ready ensures f in s.heap && !s.heap[f].Inert() {
      assert StatusInv(s, f);
    }
    forall f | f in s.sched.completed ensures f in s.heap && s.heap[f].status.Returned? {
      assert StatusInv(s, f);
    }
  }

  /** Control returns to a live frame: what a running frame continues with is a frame that awaits
      exactly it. */
  lemma ContinuationIsLive(acts: seq<Act>)
    requires Run(acts).sched.current.Some?
    ensures var s := Run(acts);
      var f := s.sched.current.value;
      && f in s.heap
      && (s.heap[f].completion <==> f in s.sched.roots)
      && (!s.heap[f].completion ==>
            && s.heap[f].continuation.Some? && s.heap[f].continuation.value in s.heap
            && s.heap[s.heap[f].continuation.value].status == Awaiting(f))
  {
    var s := Run(acts);
    RunInv(acts);
    assert StatusInv(s, s.sched.current.value) && OwnedBy(s.heap, s.sched, s.sched.current.value);
  }

  /** Every frame ever created is live or destroyed, never both, and destroyed once. */
  lemma DestroyedOnce(acts: seq<Act>, f: FrameId)
    ensures var s := Run(acts);
      && (f < s.nextId <==> f in s.heap || f in s.log.killed)
      && !(f in s.heap && f in s.log.killed)
      && s.log.killed[f] <= 1
  {
    RunInv(acts);
  }

  /** A lazy frame is held by a younger one, or outside. */
  lemma {:induction false} LazyHeldOutside(s: E.Ctx, f: FrameId)
    requires FramesInv(s) && LifeInv(s) && f in s.heap && forall g :: g in s.heap ==> s.heap[g].status.Lazy?
    ensures s.sched.outside != {}
    decreases s.nextId - f
  {
    assert StatusInv(s, f) && OwnedBy(s.heap, s.sched, f);
    if s.heap[f].owner.holder.Some? {
      LazyHeldOutside(s, s.heap[f].owner.holder.value);
    }
  }

  lemma TeardownEmpties(s: E.Ctx)
    requires Inv(s) && s.sched.outside == {}
    ensures E.Teardown(s).heap == map[]
  {
    var gone := Steps.TeardownDestroysOnce(s);
    var s' := E.Teardown(s);
    forall f ensures f !in s'.heap {
      if f in s'.heap {
        LazyHeldOutside(s', f);
      }
    }
  }

  /** Destroying the context at any point of any run destroys each frame exactly once in all, as
      long as no Task outside the context holds one. The `cancel` calls that destructors make
      meanwhile find no wait to end, however many frames are already gone. */
  lemma TeardownDestroysAll(acts: seq<Act>, f: FrameId)
    ensures var s := Run(acts);
      var s' := E.Teardown(s);
      && s'.log.killed[f] == (if f < s.nextId && f !in s'.heap then 1 else 0)
      && (s.sched.outside == {} ==> s'.heap == map[])
      && forall calls, fd :: E.Cancel(E.Kill(E.Clear(s), calls), fd) == E.Kill(E.Clear(s), calls)
  {
    var s := Run(acts);
    RunInv(acts);
    TeardownOnce(s, f);
    if s.sched.outside == {} {
      TeardownEmpties(s);
    }
  }

  lemma TeardownOnce(s: E.Ctx, f: FrameId)
    requires Inv(s)
    ensures E.Teardown(s).log.killed[f] == (if f < s.nextId && f !in E.Teardown(s).heap then 1 else 0)
  {
    var gone := Steps.TeardownDestroysOnce(s);
    assert gone <= s.heap.Keys;
    assert f in gone <==> f in multiset(gone);
  }

  // ---------------------------------------------------------------- wakeups

  /** The log is only ever added to. */
  ghost predicate Grows(a: E.Log, b: E.Log) {
    && a.enqueued <= b.enqueued && a.wakes <= b.wakes && a.resumed <= b.resumed
    && (forall t :: t in a.armed ==> t in b.armed && b.armed[t] == a.armed[t])
    && (forall t :: t in a.ended ==> t in b.ended && b.ended[t] == a.ended[t])
  }

  lemma EndGrows(s: E.Ctx, key: Key, ended: E.Ended)
    requires WaitInv(s)
    ensures Grows(s.log, E.End(s, key, ended).log)
  {
  }

  lemma CancelGrows(s: E.Ctx, fd: int)
    requires Inv(s)
    ensures Grows(s.log, E.Cancel(s, fd).log)
  {
    var cancelled := E.Ended(false, E.ByCancel(fd));
    EndGrows(s, Key(fd, Read), cancelled);
    EndKeepsInv(s, Key(fd, Read), cancelled);
    EndGrows(E.End(s, Key(fd, Read), cancelled), Key(fd, Write), cancelled);
    GrowsOn(s.log, E.End(s, Key(fd, Read), cancelled).log, E.Cancel(s, fd).log);
  }

  lemma GrowsOn(a: E.Log, b: E.Log, c: E.Log)
    requires Grows(a, b) && Grows(b, c)
    ensures Grows(a, c)
  {
  }

  lemma ArmGrows(s: E.Ctx, key: Key, deadline: Option<nat>)
    requires WaitInv(s) && E.HasCurrent(s) && key !in s.waits
    ensures Grows(s.log, E.Arm(s, key, deadline).log)
  {
  }

  /** The acts that leave the log alone, but for frames destroyed. */
  predicate Unlogged(act: Act) {
    act.Create? || act.Move? || act.Drop? || act.Await? || act.WaitFails? || act.Return? || act.Drain?
  }

  lemma UnloggedGrows(s: E.Ctx, act: Act)
    requires Possible(s, act) && Unlogged(act)
    ensures Grows(s.log, Do(s, act).log)
  {
    assert Do(s, act).log == s.log.(killed := Do(s, act).log.killed);
  }

  lemma QueueGrows(s: E.Ctx, act: Act)
    requires Possible(s, act) && (act.Spawn? || act.Yield? || act.Resume?)
    ensures Grows(s.log, Do(s, act).log)
  {
  }

  lemma StepGrows(s: E.Ctx, act: Act)
    requires Inv(s)
    ensures Grows(s.log, Step(s, act).log)
  {
    if !Possible(s, act) {
    } else if Unlogged(act) {
      UnloggedGrows(s, act);
    } else if act.Spawn? || act.Yield? || act.Resume? {
      QueueGrows(s, act);
    } else {
      match act
      case Cancel(fd) => CancelGrows(s, fd);
      case Readiness(key) => EndGrows(s, key, E.Ended(true, E.ByReadiness(key)));
      case Expire(key, now) => EndGrows(s, key, E.Ended(false, E.ByDeadline(now)));
      case Wait(key, deadline) => ArmGrows(s, key, deadline);
    }
  }

  lemma {:induction false} RunGrows(acts: seq<Act>, more: seq<Act>)
    ensures Grows(Run(acts).log, Run(acts + more).log)
  {
    if more == [] {
      assert acts + more == acts;
    } else {
      var before, act := more[..|more| - 1], more[|more| - 1];
      assert (acts + more)[..|acts + more| - 1] == acts + before;
      RunGrows(acts, before);
      RunInv(acts + before);
      StepGrows(Run(acts + before), act);
      GrowsOn(Run(acts).log, Run(acts + before).log, Run(acts + more).log);
    }
  }

  lemma {:induction false} CountOnce(wakes: seq<Option<nat>>, t: nat)
    requires forall i, j :: 0 <= i < j < |wakes| && wakes[i].Some? ==> wakes[i] != wakes[j]
    ensures multiset(wakes)[Some(t)] == if Some(t) in wakes then 1 else 0
  {
    if wakes != [] {
      var rest, last := wakes[..|wakes| - 1], wakes[|wakes| - 1];
      assert wakes == rest + [last];
      CountOnce(rest, t);
    }
  }

  /** A wait ends exactly when its slot is emptied, with the right result, and its frame is then
      enqueued once. */
  lemma EndedOnce(s: E.Ctx, t: nat)
    requires WaitInv(s) && WakeInv(s.log) && t in s.log.armed
    ensures t in s.log.ended <==> !(s.log.armed[t].key in s.waits && s.waits[s.log.armed[t].key].token == t)
    ensures t in s.log.ended ==> RightCause(s.log.armed[t], s.log.ended[t])
    ensures multiset(s.log.wakes)[Some(t)] == (if t in s.log.ended then 1 else 0)
    ensures forall i :: 0 <= i < |s.log.wakes| && s.log.wakes[i] == Some(t) ==>
      i < |s.log.enqueued| && s.log.enqueued[i] == s.log.armed[t].frame
  {
    CountOnce(s.log.wakes, t);
  }

  /** A successful wait ends at most once over the whole run, and ends exactly when its slot is
      emptied. When it ends its frame is enqueued once, with the right result: true only for
      readiness of its own descriptor and direction, false only for its own deadline, reached,
      or for a cancel of its descriptor. */
  lemma WaitsEndOnce(acts: seq<Act>, more: seq<Act>, t: nat)
    requires t in Run(acts).log.armed
    ensures var log := Run(acts).log;
      var log' := Run(acts + more).log;
      && t in log'.armed && log'.armed[t] == log.armed[t]
      && (t in log.ended ==> t in log'.ended && log'.ended[t] == log.ended[t])
      && (t in log.ended ==> RightCause(log.armed[t], log.ended[t]))
      && multiset(log.wakes)[Some(t)] == (if t in log.ended then 1 else 0)
      && (forall i :: 0 <= i < |log.wakes| && log.wakes[i] == Some(t) ==>
            i < |log.enqueued| && log.enqueued[i] == log.armed[t].frame)
    ensures var s := Run(acts);
      t in s.log.ended <==> !(s.log.armed[t].key in s.waits && s.waits[s.log.armed[t].key].token == t)
  {
    RunGrows(acts, more);
    ReachedWaits(acts);
    EndedOnce(Run(acts), t);
  }

  lemma ReachedWaits(acts: seq<Act>)
    ensures WaitInv(Run(acts)) && WakeInv(Run(acts).log)
  {
    RunInv(acts);
  }

  /** Frames are resumed in the order in which they were enqueued. */
  lemma ResumedInOrder(acts: seq<Act>, more: seq<Act>)
    ensures var s := Run(acts);
      && s.log.enqueued == s.log.resumed + s.sched.ready
      && s.log.resumed <= Run(acts + more).log.resumed
      && s.log.enqueued <= Run(acts + more).log.enqueued
  {
    RunInv(acts);
    RunGrows(acts, more);
  }

  // ---------------------------------------------------------------- what ends which waits

  /** From `s` to `s'`, the wait for `key` is left alone, or ends as `ended` if it is `hit`. */
  ghost predicate Ends(s: E.Ctx, s': E.Ctx, key: Key, hit: bool, ended: E.Ended) {
    && Grows(s.log, s'.log)
    && (key in s'.waits <==> key in s.waits && !hit)
    && (key in s'.waits ==> s'.waits[key] == s.waits[key])
    && (key in s.waits && hit ==>
          s.waits[key].token in s'.log.ended && s'.log.ended[s.waits[key].token] == ended)
  }

  lemma EndsNothing(s: E.Ctx, key: Key, ended: E.Ended)
    ensures Ends(s, s, key, false, ended)
  {
  }

  lemma EndsBoth(s: E.Ctx, t: E.Ctx, u: E.Ctx, key: Key, first: bool, second: bool, ended: E.Ended)
    requires Ends(s, t, key, first, ended) && Ends(t, u, key, second, ended)
    ensures Ends(s, u, key, first || second, ended)
  {
    GrowsOn(s.log, t.log, u.log);
  }

  lemma EndEnds(s: E.Ctx, k: Key, result: E.Ended, key: Key, ended: E.Ended)
    requires Inv(s) && (k == key ==> result == ended)
    requires k in s.waits ==> RightCause(E.Armed(k, s.waits[k].frame, s.waits[k].deadline), result)
    ensures Inv(E.End(s, k, result)) && Ends(s, E.End(s, k, result), key, k == key, ended)
  {
    EndKeepsInv(s, k, result);
    EndGrows(s, k, result);
  }

  /** `cancel` ends the waits of both directions with false and no others. */
  lemma CancelCompletes(s: E.Ctx, fd: int, key: Key)
    requires Inv(s)
    ensures Ends(s, E.Cancel(s, fd), key, key.fd == fd, E.Ended(false, E.ByCancel(fd)))
  {
    var cancelled := E.Ended(false, E.ByCancel(fd));
    var half := E.End(s, Key(fd, Read), cancelled);
    EndEnds(s, Key(fd, Read), cancelled, key, cancelled);
    EndEnds(half, Key(fd, Write), cancelled, key, cancelled);
    EndsBoth(s, half, E.Cancel(s, fd), key, key == Key(fd, Read), key == Key(fd, Write), cancelled);
    Directions(key);
  }

  lemma Directions(key: Key)
    ensures key == Key(key.fd, Read) || key == Key(key.fd, Write)
  {
    match key.event
    case Read =>
    case Write =>
  }

  /** The event concerns the direction `key`; errors and hang-ups concern both. */
  predicate Concerns(e: E.Report, key: Key) {
    e.fd == key.fd && (e.terminal || (if key.event == Read then e.readable else e.writable))
  }

  predicate Reported(events: seq<E.Report>, key: Key) {
    exists e :: e in events && Concerns(e, key)
  }

  lemma ReportedLast(events: seq<E.Report>, key: Key)
    requires events != []
    ensures Reported(events, key) <==> Reported(events[..|events| - 1], key) || Concerns(events[|events| - 1], key)
  {
    assert events == events[..|events| - 1] + [events[|events| - 1]];
  }

  lemma ReadyEnds(s: E.Ctx, yes: bool, k: Key, key: Key)
    requires Inv(s)
    ensures var s' := if yes then E.MakeReady(s, k) else s;
      Inv(s') && Ends(s, s', key, yes && k == key, E.Ended(true, E.ByReadiness(key)))
  {
    if yes {
      EndEnds(s, k, E.Ended(true, E.ByReadiness(k)), key, E.Ended(true, E.ByReadiness(key)));
    } else {
      EndsNothing(s, key, E.Ended(true, E.ByReadiness(key)));
    }
  }

  lemma DispatchOneCompletes(s: E.Ctx, e: E.Report, key: Key)
    requires Inv(s)
    ensures Inv(E.DispatchOne(s, e))
      && Ends(s, E.DispatchOne(s, e), key, Concerns(e, key), E.Ended(true, E.ByReadiness(key)))
  {
    var r, w := Key(e.fd, Read), Key(e.fd, Write);
    var half := if e.readable || e.terminal then E.MakeReady(s, r) else s;
    ReadyEnds(s, e.readable || e.terminal, r, key);
    ReadyEnds(half, e.writable || e.terminal, w, key);
    EndsBoth(s, half, E.DispatchOne(s, e), key, (e.readable || e.terminal) && r == key,
             (e.writable || e.terminal) && w == key, E.Ended(true, E.ByReadiness(key)));
    Directions(key);
  }

  /** A round of dispatch ends, with true, exactly the waits whose direction was reported. */
  lemma {:induction false} DispatchCompletes(s: E.Ctx, events: seq<E.Report>, key: Key)
    requires Inv(s)
    ensures Inv(E.Dispatch(s, events))
    ensures Ends(s, E.Dispatch(s, events), key, Reported(events, key), E.Ended(true, E.ByReadiness(key)))
  {
    if events == [] {
      EndsNothing(s, key, E.Ended(true, E.ByReadiness(key)));
    } else {
      var before, e := events[..|events| - 1], events[|events| - 1];
      DispatchCompletes(s, before, key);
      DispatchOneCompletes(E.Dispatch(s, before), e, key);
      ReportedLast(events, key);
      EndsBoth(s, E.Dispatch(s, before), E.Dispatch(s, events), key, Reported(before, key), Concerns(e, key),
               E.Ended(true, E.ByReadiness(key)));
    }
  }

  /** Those of the listed waits that are armed are due. */
  ghost predicate AreDue(waits: map<Key, E.Wait>, keys: seq<Key>, now: nat) {
    forall k :: k in keys && k in waits ==> waits[k].deadline.Some? && waits[k].deadline.value <= now
  }

  lemma FirstExpires(s: E.Ctx, keys: seq<Key>, now: nat, key: Key) returns (t: E.Ctx)
    requires Inv(s) && AreDue(s.waits, keys, now) && keys != []
    ensures E.Expire(s, keys, now) == E.Expire(t, keys[1..], now)
    ensures Inv(t) && AreDue(t.waits, keys[1..], now)
    ensures Queues(s, t, Waiter(s.waits, keys[0])) && t.waits == s.waits - {keys[0]}
    ensures Ends(s, t, key, keys[0] == key, E.Ended(false, E.ByDeadline(now)))
  {
    var ended := E.Ended(false, E.ByDeadline(now));
    t := E.End(s, keys[0], ended);
    EndEnds(s, keys[0], ended, key, ended);
    EndQueues(s, keys[0], ended);
    assert forall k :: k in t.waits ==> k in s.waits && t.waits[k] == s.waits[k];
  }

  /** Expiry ends the listed waits with false, and no others. */
  lemma {:induction false} ExpireCompletes(s: E.Ctx, keys: seq<Key>, now: nat, key: Key)
    requires Inv(s) && AreDue(s.waits, keys, now)
    ensures Inv(E.Expire(s, keys, now))
    ensures Ends(s, E.Expire(s, keys, now), key, key in keys, E.Ended(false, E.ByDeadline(now)))
    decreases |keys|
  {
    if keys == [] {
      EndsNothing(s, key, E.Ended(false, E.ByDeadline(now)));
    } else {
      var t := FirstExpires(s, keys, now, key);
      ExpireCompletes(t, keys[1..], now, key);
      EndsBoth(s, t, E.Expire(s, keys, now), key, keys[0] == key, key in keys[1..], E.Ended(false, E.ByDeadline(now)));
      assert key in keys <==> keys[0] == key || key in keys[1..];
    }
  }

  // ---------------------------------------------------------------- the order of wakeups

  /** The frame that waits for `key`, if any. */
  function Waiter(waits: map<Key, E.Wait>, key: Key): seq<FrameId> {
    if key in waits then [waits[key].frame] else []
  }

  function Waiters(waits: map<Key, E.Wait>, keys: seq<Key>): seq<FrameId> {
    if keys == [] then [] else Waiter(waits, keys[0]) + Waiters(waits - {keys[0]}, keys[1..])
  }

  /** From `s` to `s'`, exactly `frames` are put at the end of the queue, in this order. */
  ghost predicate Queues(s: E.Ctx, s': E.Ctx, frames: seq<FrameId>) {
    s'.sched.ready == s.sched.ready + frames
  }

  lemma QueuesBoth(s: E.Ctx, t: E.Ctx, u: E.Ctx, first: seq<FrameId>, second: seq<FrameId>)
    requires Queues(s, t, first) && Queues(t, u, second)
    ensures Queues(s, u, first + second)
  {
  }

  /** Ending a wait puts its frame at the end of the queue. */
  lemma EndQueues(s: E.Ctx, key: Key, ended: E.Ended)
    requires PlaceInv(s)
    ensures Queues(s, E.End(s, key, ended), Waiter(s.waits, key)) && E.End(s, key, ended).waits == s.waits - {key}
  {
    if key !in s.waits {
      assert s.waits - {key} == s.waits;
    }
  }

  lemma WaitsElsewhere(waits: map<Key, E.Wait>, key: Key, other: Key)
    requires key != other
    ensures Waiter(waits - {key}, other) == Waiter(waits, other)
  {
  }

  /** `cancel` wakes the reader and then the writer. */
  lemma CancelQueues(s: E.Ctx, fd: int)
    requires Inv(s)
    ensures Queues(s, E.Cancel(s, fd), Waiter(s.waits, Key(fd, Read)) + Waiter(s.waits, Key(fd, Write)))
  {
    var cancelled := E.Ended(false, E.ByCancel(fd));
    var half := E.End(s, Key(fd, Read), cancelled);
    HalfQueues(s, Key(fd, Read), cancelled, Key(fd, Write));
    EndQueues(half, Key(fd, Write), cancelled);
    QueuesBoth(s, half, E.Cancel(s, fd), Waiter(s.waits, Key(fd, Read)), Waiter(s.waits, Key(fd, Write)));
  }

  lemma HalfQueues(s: E.Ctx, key: Key, ended: E.Ended, other: Key)
    requires Inv(s) && key != other
    requires key in s.waits ==> RightCause(E.Armed(key, s.waits[key].frame, s.waits[key].deadline), ended)
    ensures var half := E.End(s, key, ended);
      PlaceInv(half) && Queues(s, half, Waiter(s.waits, key)) && Waiter(half.waits, other) == Waiter(s.waits, other)
  {
    EndKeepsInv(s, key, ended);
    EndQueues(s, key, ended);
    WaitsElsewhere(s.waits, key, other);
  }

  /** The frame that waits for `key`, if the event concerns it. */
  function Concerned(waits: map<Key, E.Wait>, e: E.Report, key: Key): seq<FrameId> {
    if Concerns(e, key) then Waiter(waits, key) else []
  }

  lemma FirstCallback(s: E.Ctx, e: E.Report)
    requires Inv(s)
    ensures var r, w := Key(e.fd, Read), Key(e.fd, Write);
      var half := if e.readable || e.terminal then E.MakeReady(s, r) else s;
      && PlaceInv(half) && Queues(s, half, Concerned(s.waits, e, r))
      && Concerned(half.waits, e, w) == Concerned(s.waits, e, w)
  {
    if e.readable || e.terminal {
      HalfQueues(s, Key(e.fd, Read), E.Ended(true, E.ByReadiness(Key(e.fd, Read))), Key(e.fd, Write));
    }
  }

  lemma SecondCallback(half: E.Ctx, e: E.Report)
    requires PlaceInv(half)
    ensures var w := Key(e.fd, Write);
      Queues(half, if e.writable || e.terminal then E.MakeReady(half, w) else half, Concerned(half.waits, e, w))
  {
    EndQueues(half, Key(e.fd, Write), E.Ended(true, E.ByReadiness(Key(e.fd, Write))));
  }

  /** An event wakes the reader and then the writer, as far as they are concerned. */
  lemma DispatchOneQueues(s: E.Ctx, e: E.Report)
    requires Inv(s)
    ensures Queues(s, E.DispatchOne(s, e),
                   Concerned(s.waits, e, Key(e.fd, Read)) + Concerned(s.waits, e, Key(e.fd, Write)))
  {
    var half := if e.readable || e.terminal then E.MakeReady(s, Key(e.fd, Read)) else s;
    FirstCallback(s, e);
    SecondCallback(half, e);
    QueuesBoth(s, half, E.DispatchOne(s, e),
               Concerned(s.waits, e, Key(e.fd, Read)), Concerned(s.waits, e, Key(e.fd, Write)));
  }

  /** Expiry wakes the frames in the order in which their waits are listed. */
  lemma {:induction false} ExpireQueues(s: E.Ctx, keys: seq<Key>, now: nat)
    requires Inv(s) && AreDue(s.waits, keys, now)
    ensures Queues(s, E.Expire(s, keys, now), Waiters(s.waits, keys))
    decreases |keys|
  {
    if keys != [] {
      var t := FirstExpires(s, keys, now, keys[0]);
      ExpireQueues(t, keys[1..], now);
      QueuesBoth(s, t, E.Expire(s, keys, now), Waiter(s.waits, keys[0]), Waiters(t.waits, keys[1..]));
    }
  }
}
