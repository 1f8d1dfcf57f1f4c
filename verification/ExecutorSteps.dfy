/** Every operation of the executor keeps its invariant. */
module ExecutorSteps {
  import opened Options
  import opened Frames
  import opened Executor
  import opened ExecutorInvariant

  // ---------------------------------------------------------------- actions that move one frame

  /** Frame `f` changes its status, and with it its place; nothing else about the frames changes. */
  ghost predicate Rehoused(s: Ctx, f: FrameId, s': Ctx) {
    && f in s.heap && f in s'.heap && s'.heap == s.heap[f := s.heap[f].(status := s'.heap[f].status)]
    && s'.sched.roots == s.sched.roots && s'.sched.outside == s.sched.outside
    && s'.sched.completed == s.sched.completed
    && s.heap[f].Leaf() && s'.heap[f].Leaf()
    && (forall g :: g in s.sched.ready && g != f ==> g in s'.sched.ready)
    && (forall g :: g in s'.sched.ready && g != f ==> g in s.sched.ready)
    && (s.sched.current.Some? && s.sched.current.value != f ==> s'.sched.current == s.sched.current)
    && (s'.sched.current.Some? && s'.sched.current.value != f ==> s'.sched.current == s.sched.current)
    && (forall k :: k in s.waits && s.waits[k].frame != f ==> k in s'.waits && s'.waits[k] == s.waits[k])
    && (forall k :: k in s'.waits && s'.waits[k].frame != f ==> k in s.waits && s'.waits[k] == s.waits[k])
  }

  lemma RehousedOwner(s: Ctx, f: FrameId, s': Ctx)
    requires OwnerInv(s.heap, s.sched) && Rehoused(s, f, s')
    ensures OwnerInv(s'.heap, s'.sched)
  {
    forall g | g in s'.heap ensures OwnedBy(s'.heap, s'.sched, g) && HoldsSoundly(s'.heap, g) {
      assert OwnedBy(s.heap, s.sched, g) && HoldsSoundly(s.heap, g);
    }
  }

  lemma RehousedStatus(s: Ctx, f: FrameId, s': Ctx, g: FrameId)
    requires FramesInv(s) && Rehoused(s, f, s') && StatusInv(s', f) && g in s.heap
    ensures StatusInv(s', g)
  {
    assert StatusInv(s, g);
    assert HoldsSoundly(s.heap, g);
  }

  lemma RehousedInv(s: Ctx, f: FrameId, s': Ctx)
    requires FramesInv(s) && LeafInv(s) && LifeInv(s) && Rehoused(s, f, s')
    requires StatusInv(s', f) && PlaceInv(s') && s'.leaves == s.leaves
    requires s'.log.killed == s.log.killed && s'.nextId == s.nextId
    ensures FramesInv(s') && LeafInv(s') && LifeInv(s')
  {
    RehousedOwner(s, f, s');
    RehousedLeaves(s, f, s');
    RehousedStatuses(s, f, s');
  }

  lemma RehousedStatuses(s: Ctx, f: FrameId, s': Ctx)
    requires FramesInv(s) && Rehoused(s, f, s') && StatusInv(s', f)
    ensures forall g {:trigger StatusInv(s', g)} :: g in s'.heap ==> StatusInv(s', g)
  {
    forall g | g in s'.heap ensures StatusInv(s', g) {
      RehousedStatus(s, f, s', g);
    }
  }

  lemma RehousedLeaves(s: Ctx, f: FrameId, s': Ctx)
    requires LeafInv(s) && Rehoused(s, f, s') && s'.leaves == s.leaves
    ensures LeafInv(s')
  {
  }

  lemma EnqueueFifo(s: Ctx, f: FrameId, wake: Option<nat>)
    requires FifoInv(s)
    ensures FifoInv(Enqueue(s, f, wake))
  {
    assert s.log.resumed + s.sched.ready + [f] == s.log.resumed + (s.sched.ready + [f]);
  }

  lemma EnqueueWakes(s: Ctx, f: FrameId)
    requires WakeInv(s.log)
    ensures WakeInv(Enqueue(s, f, None).log)
  {
    assert forall t :: Some(t) in s.log.wakes ==> Some(t) in s.log.wakes + [None];
  }

  lemma YieldFrames(s: Ctx)
    requires FramesInv(s) && HasCurrent(s)
    ensures var c, s' := s.sched.current.value, Yield(s);
      Rehoused(s, c, s') && StatusInv(s', c) && PlaceInv(s')
  {
    assert StatusInv(s, s.sched.current.value);
  }

  lemma YieldKeepsInv(s: Ctx)
    requires Inv(s) && HasCurrent(s)
    ensures Inv(Yield(s))
  {
    YieldFrames(s);
    RehousedInv(s, s.sched.current.value, Yield(s));
    EnqueueFifo(s, s.sched.current.value, None);
    EnqueueWakes(s, s.sched.current.value);
  }

  lemma ResumeFrames(s: Ctx)
    requires FramesInv(s) && s.sched.current == None && s.sched.ready != []
    ensures var f := s.sched.ready[0];
      f in s.heap && Rehoused(s, f, Resume(s)) && StatusInv(Resume(s), f) && PlaceInv(Resume(s))
  {
    var f := s.sched.ready[0];
    assert StatusInv(s, f);
    assert s.sched.ready == [f] + s.sched.ready[1..];
  }

  lemma ResumeKeepsInv(s: Ctx)
    requires Inv(s) && s.sched.current == None && s.sched.ready != []
    ensures s.sched.ready[0] in s.heap && Inv(Resume(s))
  {
    ResumeFrames(s);
    RehousedInv(s, s.sched.ready[0], Resume(s));
    ResumeFifo(s);
  }

  lemma ResumeFifo(s: Ctx)
    requires FifoInv(s) && s.sched.ready != [] && s.sched.ready[0] in s.heap
    ensures FifoInv(Resume(s))
  {
    assert s.log.resumed + [s.sched.ready[0]] + s.sched.ready[1..] == s.log.resumed + s.sched.ready;
  }

  lemma ArmFrames(s: Ctx, key: Key, deadline: Option<nat>)
    requires FramesInv(s) && HasCurrent(s) && key !in s.waits
    ensures var c, s' := s.sched.current.value, Arm(s, key, deadline);
      Rehoused(s, c, s') && StatusInv(s', c) && PlaceInv(s')
  {
    assert StatusInv(s, s.sched.current.value);
  }

  lemma ArmWaits(s: Ctx, key: Key, deadline: Option<nat>)
    requires WaitInv(s) && HasCurrent(s) && key !in s.waits
    ensures WaitInv(Arm(s, key, deadline))
  {
  }

  lemma ArmWakes(s: Ctx, key: Key, deadline: Option<nat>)
    requires WaitInv(s) && WakeInv(s.log) && HasCurrent(s) && key !in s.waits
    ensures WakeInv(Arm(s, key, deadline).log)
  {
  }

  lemma OneMore(waits: map<Key, Wait>, key: Key, w: Wait)
    requires key !in waits
    ensures |waits[key := w]| == |waits| + 1
  {
    assert waits[key := w].Keys == waits.Keys + {key};
    assert |waits[key := w]| == |waits[key := w].Keys| && |waits| == |waits.Keys|;
  }

  lemma OneLess(waits: map<Key, Wait>, key: Key)
    requires key in waits
    ensures |waits - {key}| == |waits| - 1
  {
    assert (waits - {key}).Keys == waits.Keys - {key};
    assert |waits - {key}| == |(waits - {key}).Keys| && |waits| == |waits.Keys|;
  }

  lemma ArmKeepsInv(s: Ctx, key: Key, deadline: Option<nat>)
    requires Inv(s) && HasCurrent(s) && key !in s.waits
    ensures Inv(Arm(s, key, deadline))
  {
    ArmFrames(s, key, deadline);
    RehousedInv(s, s.sched.current.value, Arm(s, key, deadline));
    ArmWaits(s, key, deadline);
    ArmWakes(s, key, deadline);
    OneMore(s.waits, key, Wait(s.sched.current.value, s.nextToken, deadline));
  }

  lemma CompleteFrames(s: Ctx, key: Key, ended: Ended)
    requires FramesInv(s) && key in s.waits
    ensures var f := s.waits[key].frame;
      f in s.heap && Rehoused(s, f, Complete(s, key, ended)) && StatusInv(Complete(s, key, ended), f)
      && PlaceInv(Complete(s, key, ended))
  {
    assert StatusInv(s, s.waits[key].frame);
  }

  lemma CompleteWaits(s: Ctx, key: Key, ended: Ended)
    requires WaitInv(s) && key in s.waits && s.waits[key].frame in s.heap
    requires RightCause(Armed(key, s.waits[key].frame, s.waits[key].deadline), ended)
    ensures WaitInv(Complete(s, key, ended))
  {
  }

  lemma CompleteWakes(s: Ctx, key: Key, ended: Ended)
    requires WaitInv(s) && WakeInv(s.log) && key in s.waits && s.waits[key].frame in s.heap
    ensures WakeInv(Complete(s, key, ended).log)
  {
    var wakes, w := s.log.wakes, s.waits[key];
    assert w.token !in s.log.ended;
    assert Some(w.token) !in wakes;
    assert forall t :: Some(t) in wakes ==> Some(t) in wakes + [Some(w.token)];
    assert (wakes + [Some(w.token)])[|wakes|] == Some(w.token);
  }

  lemma CompleteKeepsInv(s: Ctx, key: Key, ended: Ended)
    requires Inv(s) && key in s.waits
    requires RightCause(Armed(key, s.waits[key].frame, s.waits[key].deadline), ended)
    ensures s.waits[key].frame in s.heap && Inv(Complete(s, key, ended))
  {
    var f := s.waits[key].frame;
    CompleteFrames(s, key, ended);
    RehousedInv(s, f, Complete(s, key, ended));
    CompleteWaits(s, key, ended);
    OneLess(s.waits, key);
    EnqueueFifo(s, f, Some(s.waits[key].token));
    CompleteWakes(s, key, ended);
  }

  lemma ArmFailsKeepsInv(s: Ctx)
    requires Inv(s)
    ensures Inv(ArmFails(s))
  {
    forall f | f in s.heap ensures StatusInv(ArmFails(s), f) {
      assert StatusInv(s, f);
    }
  }

  // ---------------------------------------------------------------- awaiting and returning

  lemma AwaitOwner(s: Ctx, child: FrameId, g: FrameId)
    requires FramesInv(s) && CanAwait(s, child) && g in s.heap
    ensures OwnedBy(Await(s, child).heap, Await(s, child).sched, g) && HoldsSoundly(Await(s, child).heap, g)
  {
    assert StatusInv(s, s.sched.current.value) && StatusInv(s, child);
    assert HoldsSoundly(s.heap, s.sched.current.value) && HoldsSoundly(s.heap, g) && OwnedBy(s.heap, s.sched, g);
  }

  lemma AwaitStatus(s: Ctx, child: FrameId, g: FrameId)
    requires FramesInv(s) && CanAwait(s, child) && g in s.heap
    ensures StatusInv(Await(s, child), g)
  {
    var c := s.sched.current.value;
    assert StatusInv(s, c) && StatusInv(s, child) && StatusInv(s, g);
    assert HoldsSoundly(s.heap, c) && OwnedBy(s.heap, s.sched, g) && HoldsSoundly(s.heap, g);
  }

  /** The frames listed by the scheduler, apart from what each frame says about itself. */
  ghost predicate Listed(s: Ctx) {
    && PlaceInv(s)
    && (forall f :: f in s.sched.roots ==> f in s.heap && s.heap[f].owner == InRoots)
    && (forall f :: f in s.sched.outside ==> f in s.heap && s.heap[f].owner == InTask(None))
  }

  lemma Assemble(s: Ctx)
    requires Listed(s)
    requires forall g {:trigger StatusInv(s, g)} :: g in s.heap ==>
      OwnedBy(s.heap, s.sched, g) && HoldsSoundly(s.heap, g) && StatusInv(s, g)
    ensures FramesInv(s)
  {
    forall g | g in s.heap ensures OwnedBy(s.heap, s.sched, g) && HoldsSoundly(s.heap, g) {
      assert StatusInv(s, g);
    }
  }

  lemma AwaitListed(s: Ctx, child: FrameId)
    requires FramesInv(s) && CanAwait(s, child)
    ensures Listed(Await(s, child))
  {
    assert StatusInv(s, s.sched.current.value) && StatusInv(s, child) && HoldsSoundly(s.heap, s.sched.current.value);
  }

  lemma AwaitLeaves(s: Ctx, child: FrameId)
    requires LeafInv(s) && CanAwait(s, child)
    requires s.heap[s.sched.current.value].status.Running? && s.heap[child].status.Lazy?
    ensures LeafInv(Await(s, child))
  {
  }

  lemma AwaitLedger(s: Ctx, child: FrameId)
    requires LedgerInv(s) && CanAwait(s, child)
    ensures LedgerInv(Await(s, child))
  {
  }

  lemma AwaitKeepsInv(s: Ctx, child: FrameId)
    requires Inv(s) && CanAwait(s, child)
    ensures Inv(Await(s, child))
  {
    assert StatusInv(s, s.sched.current.value) && StatusInv(s, child) && HoldsSoundly(s.heap, s.sched.current.value);
    AwaitFrames(s, child);
    AwaitLeaves(s, child);
    AwaitLedger(s, child);
  }

  lemma AwaitFrames(s: Ctx, child: FrameId)
    requires FramesInv(s) && CanAwait(s, child)
    ensures FramesInv(Await(s, child))
  {
    var s' := Await(s, child);
    AwaitListed(s, child);
    forall g | g in s'.heap ensures OwnedBy(s'.heap, s'.sched, g) && HoldsSoundly(s'.heap, g) && StatusInv(s', g) {
      AwaitOwner(s, child, g);
      AwaitStatus(s, child, g);
    }
    Assemble(s');
  }

  lemma FinishOwned(s: Ctx, failed: bool, g: FrameId)
    requires HasCurrent(s) && StatusInv(s, s.sched.current.value) && g in s.heap && OwnedBy(s.heap, s.sched, g)
    ensures OwnedBy(Finish(s, failed).heap, Finish(s, failed).sched, g)
  {
  }

  /** Who holds which frame stays the same. */
  ghost predicate SameHolders(heap: Heap, heap': Heap) {
    forall g :: g in heap ==>
      g in heap' && heap'[g].owner == heap[g].owner && heap'[g].tasks == heap[g].tasks
        && heap'[g].awaiters == heap[g].awaiters
  }

  lemma SetSameHolders(s: Ctx, f: FrameId, status: Status)
    requires f in s.heap
    ensures SameHolders(s.heap, WithStatus(s, f, status).heap)
  {
  }

  lemma FinishSameHolders(s: Ctx, failed: bool)
    requires HasCurrent(s)
    ensures SameHolders(s.heap, Finish(s, failed).heap)
  {
    var c := s.sched.current.value;
    var half := WithStatus(s, c, Returned(failed));
    SetSameHolders(s, c, Returned(failed));
    match s.heap[c].continuation
    case Some(p) =>
      if p in half.heap {
        SetSameHolders(half, p, Running);
      }
    case None =>
  }

  lemma SameHolds(heap: Heap, heap': Heap, g: FrameId)
    requires SameHolders(heap, heap') && g in heap && HoldsSoundly(heap, g)
    ensures g in heap' && HoldsSoundly(heap', g)
  {
  }

  lemma FinishStatus(s: Ctx, failed: bool, g: FrameId)
    requires FramesInv(s) && HasCurrent(s) && g in s.heap
    ensures StatusInv(Finish(s, failed), g)
  {
    var c := s.sched.current.value;
    assert StatusInv(s, c) && StatusInv(s, g) && OwnedBy(s.heap, s.sched, c) && HoldsSoundly(s.heap, g);
    if s.heap[c].owner.InAwaiter? {
      assert StatusInv(s, s.heap[c].owner.parent);
    }
  }

  lemma FinishListed(s: Ctx, failed: bool)
    requires FramesInv(s) && HasCurrent(s)
    ensures Listed(Finish(s, failed))
  {
    var c := s.sched.current.value;
    assert StatusInv(s, c) && OwnedBy(s.heap, s.sched, c);
    if s.heap[c].owner.InAwaiter? {
      assert StatusInv(s, s.heap[c].owner.parent);
    }
  }

  lemma FinishLeaves(s: Ctx, failed: bool)
    requires LeafInv(s) && HasCurrent(s)
    requires var c := s.sched.current.value;
      && s.heap[c].status.Running?
      && (if s.heap[c].completion then s.heap[c].root == c
          else s.heap[c].continuation.Some? && Below(s.heap, c, s.heap[c].continuation.value))
    ensures LeafInv(Finish(s, failed))
  {
    var c := s.sched.current.value;
    if s.heap[c].completion {
      RootFinishLeaves(s, failed, c);
    } else {
      ChildFinishLeaves(s, failed, c);
    }
  }

  lemma RootFinishLeaves(s: Ctx, failed: bool, c: FrameId)
    requires LeafInv(s) && HasCurrent(s) && s.sched.current == Some(c)
    requires s.heap[c].status.Running? && s.heap[c].completion && s.heap[c].root == c
    ensures LeafInv(Finish(s, failed))
  {
  }

  lemma ChildFinishLeaves(s: Ctx, failed: bool, c: FrameId)
    requires LeafInv(s) && HasCurrent(s) && s.sched.current == Some(c)
    requires s.heap[c].status.Running? && !s.heap[c].completion
    requires s.heap[c].continuation.Some? && Below(s.heap, c, s.heap[c].continuation.value)
    ensures LeafInv(Finish(s, failed))
  {
  }

  lemma FinishLedger(s: Ctx, failed: bool)
    requires LedgerInv(s) && HasCurrent(s)
    requires !s.heap[s.sched.current.value].completion ==>
      s.heap[s.sched.current.value].continuation.Some? && s.heap[s.sched.current.value].continuation.value in s.heap
    ensures LedgerInv(Finish(s, failed))
  {
  }

  lemma FinishKeepsInv(s: Ctx, failed: bool)
    requires Inv(s) && HasCurrent(s)
    ensures Inv(Finish(s, failed))
  {
    assert StatusInv(s, s.sched.current.value) && OwnedBy(s.heap, s.sched, s.sched.current.value);
    FinishFrames(s, failed);
    FinishLeaves(s, failed);
    FinishLedger(s, failed);
  }

  lemma FinishFrames(s: Ctx, failed: bool)
    requires FramesInv(s) && HasCurrent(s)
    ensures FramesInv(Finish(s, failed))
  {
    var s' := Finish(s, failed);
    FinishListed(s, failed);
    FinishSameHolders(s, failed);
    forall g | g in s'.heap ensures OwnedBy(s'.heap, s'.sched, g) && HoldsSoundly(s'.heap, g) && StatusInv(s', g) {
      assert OwnedBy(s.heap, s.sched, g) && HoldsSoundly(s.heap, g);
      FinishOwned(s, failed, g);
      SameHolds(s.heap, s'.heap, g);
      FinishStatus(s, failed, g);
    }
    Assemble(s');
  }

  // ---------------------------------------------------------------- Tasks

  ghost predicate SameButTasks(a: Frame, b: Frame) {
    && b == a.(tasks := b.tasks, owner := b.owner)
    && (b.owner == a.owner || (a.owner.InTask? && b.owner.InTask?))
  }

  /** Only Task objects changed hands; new frames are lazy. */
  ghost predicate TasksMoved(s: Ctx, s': Ctx) {
    && (forall g :: g in s.heap ==> g in s'.heap && SameButTasks(s.heap[g], s'.heap[g]))
    && (forall g :: g in s'.heap && g !in s.heap ==>
          var fr := s'.heap[g]; fr.status.Lazy? && fr.owner.InTask? && fr.awaiters == {} && !fr.completion)
    && s'.sched == s.sched.(outside := s'.sched.outside)
    && s'.waits == s.waits && s'.nextToken == s.nextToken && s'.leaves == s.leaves && s'.log == s.log
  }

  lemma MovedStatus(s: Ctx, s': Ctx, g: FrameId)
    requires FramesInv(s) && TasksMoved(s, s') && g in s'.heap
    ensures StatusInv(s', g)
  {
    if g in s.heap {
      assert StatusInv(s, g);
    }
  }

  lemma MovedPlaces(s: Ctx, s': Ctx)
    requires PlaceInv(s) && TasksMoved(s, s')
    ensures PlaceInv(s')
  {
  }

  lemma MovedLeaves(s: Ctx, s': Ctx)
    requires LeafInv(s) && TasksMoved(s, s')
    ensures LeafInv(s')
  {
  }

  /** Moving Tasks keeps the invariant if every frame is still owned soundly. */
  lemma MovedInv(s: Ctx, s': Ctx)
    requires Inv(s) && TasksMoved(s, s') && OwnerInv(s'.heap, s'.sched) && LifeInv(s')
    ensures Inv(s')
  {
    forall g | g in s'.heap ensures StatusInv(s', g) {
      MovedStatus(s, s', g);
    }
    MovedPlaces(s, s');
    MovedLeaves(s, s');
  }

  lemma CreateMoves(s: Ctx)
    requires LifeInv(s) && PlaceInv(s)
    ensures TasksMoved(s, Create(s)) && LifeInv(Create(s))
  {
  }

  lemma CreateOwner(s: Ctx)
    requires OwnerInv(s.heap, s.sched) && LifeInv(s) && PlaceInv(s)
    requires HasCurrent(s) ==> !s.heap[s.sched.current.value].status.Lazy?
    ensures OwnerInv(Create(s).heap, Create(s).sched)
  {
    var s' := Create(s);
    forall g | g in s'.heap ensures OwnedBy(s'.heap, s'.sched, g) && HoldsSoundly(s'.heap, g) {
      if g in s.heap {
        assert OwnedBy(s.heap, s.sched, g) && HoldsSoundly(s.heap, g);
      }
    }
  }

  lemma CreateKeepsInv(s: Ctx)
    requires Inv(s)
    ensures Inv(Create(s))
  {
    if HasCurrent(s) {
      assert StatusInv(s, s.sched.current.value);
    }
    CreateMoves(s);
    CreateOwner(s);
    MovedInv(s, Create(s));
  }

  /** A Task the running code can reach holds a lazy frame. */
  ghost predicate TaskInHand(s: Ctx, f: FrameId) {
    && Reachable(s, f) && f in s.heap && s.heap[f].status.Lazy? && s.heap[f].owner.InTask?
    && (f !in s.sched.outside ==> s.heap[f].owner.holder == s.sched.current)
    && (f in s.sched.outside ==> s.heap[f].owner.holder == None)
    && (HasCurrent(s) ==> !s.heap[s.sched.current.value].status.Lazy?)
  }

  lemma InHand(s: Ctx, f: FrameId)
    requires FramesInv(s) && Reachable(s, f)
    ensures TaskInHand(s, f)
  {
    if HasCurrent(s) {
      assert StatusInv(s, s.sched.current.value) && HoldsSoundly(s.heap, s.sched.current.value);
    }
    assert StatusInv(s, f);
  }

  lemma MoveOwned(s: Ctx, f: FrameId, to: Option<FrameId>, g: FrameId)
    requires OwnerInv(s.heap, s.sched) && TaskInHand(s, f) && CanMove(s, f, to) && g in s.heap
    ensures OwnedBy(Move(s, f, to).heap, Move(s, f, to).sched, g)
  {
    assert OwnedBy(s.heap, s.sched, g);
  }

  lemma MovedOwner(s: Ctx, f: FrameId, to: Option<FrameId>, g: FrameId)
    requires TaskInHand(s, f) && CanMove(s, f, to) && g in s.heap
    ensures var heap' := Move(s, f, to).heap;
      && g in heap' && heap'[g].owner == (if g == f then InTask(to) else s.heap[g].owner)
      && heap'[g].awaiters == s.heap[g].awaiters
  {
  }

  lemma MovedTasks(s: Ctx, f: FrameId, to: Option<FrameId>, g: FrameId, x: FrameId)
    requires TaskInHand(s, f) && CanMove(s, f, to) && g in s.heap && g in Move(s, f, to).heap && HoldsSoundly(s.heap, g)
    requires x in Move(s, f, to).heap[g].tasks
    ensures if x == f then to == Some(g) else x in s.heap[g].tasks
  {
  }

  lemma MoveHolds(s: Ctx, f: FrameId, to: Option<FrameId>, g: FrameId)
    requires TaskInHand(s, f) && CanMove(s, f, to) && g in s.heap && HoldsSoundly(s.heap, g)
    ensures g in Move(s, f, to).heap && HoldsSoundly(Move(s, f, to).heap, g)
  {
    var heap' := Move(s, f, to).heap;
    MovedOwner(s, f, to, g);
    forall x | x in heap'[g].tasks ensures x in heap' && heap'[x].owner == InTask(Some(g)) {
      MovedTasks(s, f, to, g, x);
      MovedOwner(s, f, to, x);
    }
    forall x | x in heap'[g].awaiters ensures x in heap' && heap'[x].owner == InAwaiter(g) {
      MovedOwner(s, f, to, x);
    }
  }

  lemma MoveOwners(s: Ctx, f: FrameId, to: Option<FrameId>)
    requires OwnerInv(s.heap, s.sched) && TaskInHand(s, f) && CanMove(s, f, to)
    ensures OwnerInv(Move(s, f, to).heap, Move(s, f, to).sched)
  {
    var s' := Move(s, f, to);
    forall g | g in s'.heap ensures OwnedBy(s'.heap, s'.sched, g) && HoldsSoundly(s'.heap, g) {
      assert HoldsSoundly(s.heap, g);
      MoveOwned(s, f, to, g);
      MoveHolds(s, f, to, g);
    }
  }

  lemma MoveMoves(s: Ctx, f: FrameId, to: Option<FrameId>)
    requires TaskInHand(s, f) && CanMove(s, f, to)
    ensures TasksMoved(s, Move(s, f, to)) && Move(s, f, to).heap.Keys == s.heap.Keys
      && Move(s, f, to).nextId == s.nextId
  {
    forall g | g in s.heap ensures SameButTasks(s.heap[g], Move(s, f, to).heap[g]) {
      MoveKeepsFrame(s, f, to, g);
    }
  }

  lemma MoveKeepsFrame(s: Ctx, f: FrameId, to: Option<FrameId>, g: FrameId)
    requires TaskInHand(s, f) && CanMove(s, f, to) && g in s.heap
    ensures g in Move(s, f, to).heap && SameButTasks(s.heap[g], Move(s, f, to).heap[g])
  {
  }

  lemma SameLife(s: Ctx, s': Ctx)
    requires LifeInv(s) && s'.heap.Keys == s.heap.Keys && s'.nextId == s.nextId && s'.log.killed == s.log.killed
    ensures LifeInv(s')
  {
    assert forall f :: f in s'.heap <==> f in s'.heap.Keys;
    assert forall f :: f in s.heap <==> f in s.heap.Keys;
  }

  lemma MoveKeepsInv(s: Ctx, f: FrameId, to: Option<FrameId>)
    requires Inv(s) && CanMove(s, f, to)
    ensures Inv(Move(s, f, to))
  {
    InHand(s, f);
    MoveOwners(s, f, to);
    MoveMoves(s, f, to);
    SameLife(s, Move(s, f, to));
    MovedInv(s, Move(s, f, to));
  }

  // ---------------------------------------------------------------- spawning

  lemma SpawnOwner(s: Ctx, f: FrameId, g: FrameId)
    requires OwnerInv(s.heap, s.sched) && TaskInHand(s, f) && g in s.heap
    ensures OwnedBy(Spawn(s, f).heap, Spawn(s, f).sched, g) && HoldsSoundly(Spawn(s, f).heap, g)
  {
    assert OwnedBy(s.heap, s.sched, g) && HoldsSoundly(s.heap, g);
  }

  lemma SpawnStatus(s: Ctx, f: FrameId, g: FrameId)
    requires FramesInv(s) && TaskInHand(s, f) && g in s.heap
    ensures StatusInv(Spawn(s, f), g)
  {
    assert StatusInv(s, g) && StatusInv(s, f);
    assert HoldsSoundly(s.heap, g);
  }

  lemma SpawnListed(s: Ctx, f: FrameId)
    requires FramesInv(s) && TaskInHand(s, f)
    ensures Listed(Spawn(s, f))
  {
    assert StatusInv(s, f);
  }

  lemma SpawnFrames(s: Ctx, f: FrameId)
    requires FramesInv(s) && TaskInHand(s, f)
    ensures FramesInv(Spawn(s, f))
  {
    var s' := Spawn(s, f);
    SpawnListed(s, f);
    forall g | g in s'.heap ensures OwnedBy(s'.heap, s'.sched, g) && HoldsSoundly(s'.heap, g) && StatusInv(s', g) {
      SpawnOwner(s, f, g);
      SpawnStatus(s, f, g);
    }
    Assemble(s');
  }

  lemma SpawnLeaves(s: Ctx, f: FrameId)
    requires LeafInv(s) && TaskInHand(s, f) && f !in s.sched.roots && f !in s.sched.completed
    ensures LeafInv(Spawn(s, f))
  {
  }

  lemma SpawnLedger(s: Ctx, f: FrameId)
    requires LedgerInv(s) && TaskInHand(s, f) && f !in s.sched.roots
    ensures LedgerInv(Spawn(s, f))
  {
    EnqueueFifo(s, f, None);
    EnqueueWakes(s, f);
  }

  lemma SpawnKeepsInv(s: Ctx, f: FrameId)
    requires Inv(s) && Reachable(s, f) && f in s.heap
    ensures Inv(Spawn(s, f))
  {
    InHand(s, f);
    assert StatusInv(s, f);
    SpawnFrames(s, f);
    SpawnLeaves(s, f);
    SpawnLedger(s, f);
  }

  // ---------------------------------------------------------------- destruction

  /** Ownership is sound but for the frames in `calls`, whose handles nobody holds any more. */
  ghost predicate Unheld(s: Ctx, calls: multiset<FrameId>) {
    && (forall f {:trigger HoldsSoundly(s.heap, f)} {:trigger OwnedBy(s.heap, s.sched, f)} ::
          f in s.heap ==> HoldsSoundly(s.heap, f) && (f in calls || OwnedBy(s.heap, s.sched, f)))
    && (forall f :: f in calls ==> f in s.heap && calls[f] == 1 && f !in s.sched.outside && f !in s.sched.roots)
    && (forall p, f :: p in s.heap && f in s.heap[p].Owned() ==> f !in calls)
    && (forall f :: f in s.sched.roots ==> f in s.heap && s.heap[f].owner == InRoots)
    && (forall f :: f in s.sched.outside ==> f in s.heap && s.heap[f].owner == InTask(None))
  }

  /** The state after the frames in `gone` were destroyed. */
  function Without(s: Ctx, gone: set<FrameId>): Ctx {
    s.(heap := s.heap - gone, log := s.log.(killed := s.log.killed + multiset(gone)))
  }

  lemma KillIsWithout(s: Ctx, calls: multiset<FrameId>) returns (gone: set<FrameId>)
    requires Unheld(s, calls)
    ensures Subtree(s.heap, calls, gone) && Kill(s, calls) == Without(s, gone)
  {
    forall p, g | p in s.heap && g in s.heap[p].Owned() ensures g in s.heap {
      assert HoldsSoundly(s.heap, p);
    }
    forall p, q, g | p in s.heap && q in s.heap && g in s.heap[p].Owned() && g in s.heap[q].Owned() ensures p == q {
      assert HoldsSoundly(s.heap, p) && HoldsSoundly(s.heap, q);
    }
    gone := DestroyedOnce(s.heap, s.log.killed, calls);
  }

  /** The holder of a destroyed frame is destroyed with it. */
  lemma GoneWithHolder(s: Ctx, calls: multiset<FrameId>, gone: set<FrameId>, g: FrameId)
    requires Unheld(s, calls) && Subtree(s.heap, calls, gone) && g in gone && g !in calls
    ensures match s.heap[g].owner
            case InTask(Some(h)) => h in gone && g in s.heap[h].tasks
            case InAwaiter(p) => p in gone && g in s.heap[p].awaiters
            case _ => false
  {
    assert OwnedWithin(s.heap, gone, g);
    var p :| p in gone && p in s.heap && g in s.heap[p].Owned();
    assert HoldsSoundly(s.heap, p);
  }

  lemma WithoutOwner(s: Ctx, calls: multiset<FrameId>, gone: set<FrameId>, g: FrameId)
    requires Unheld(s, calls) && Subtree(s.heap, calls, gone) && g in s.heap && g !in gone
    ensures OwnedBy(Without(s, gone).heap, s.sched, g) && HoldsSoundly(Without(s, gone).heap, g)
  {
    assert HoldsSoundly(s.heap, g) && OwnedBy(s.heap, s.sched, g);
    forall c | c in s.heap[g].Owned() ensures c !in gone {
      if c in gone {
        GoneWithHolder(s, calls, gone, c);
      }
    }
  }

  lemma WithoutOwners(s: Ctx, calls: multiset<FrameId>, gone: set<FrameId>)
    requires Unheld(s, calls) && Subtree(s.heap, calls, gone)
    ensures OwnerInv(Without(s, gone).heap, s.sched)
  {
    var s' := Without(s, gone);
    forall g | g in s'.heap ensures OwnedBy(s'.heap, s'.sched, g) && HoldsSoundly(s'.heap, g) {
      WithoutOwner(s, calls, gone, g);
    }
    forall f | f in s.sched.roots || f in s.sched.outside ensures f !in gone {
      if f in gone {
        GoneWithHolder(s, calls, gone, f);
      }
    }
  }

  lemma WithoutStatus(s: Ctx, calls: multiset<FrameId>, gone: set<FrameId>, g: FrameId)
    requires Unheld(s, calls) && Subtree(s.heap, calls, gone) && g in s.heap && g !in gone && StatusInv(s, g)
    ensures StatusInv(Without(s, gone), g)
  {
    assert OwnedBy(s.heap, s.sched, g);
    if s.heap[g].status.Awaiting? && s.heap[g].status.child in gone {
      assert HoldsSoundly(s.heap, g) && s.heap[g].status.child in s.heap[g].Owned();
      GoneWithHolder(s, calls, gone, s.heap[g].status.child);
    }
  }

  /** What hangs below an inert frame is inert. */
  lemma {:induction false} GoneInert(s: Ctx, calls: multiset<FrameId>, gone: set<FrameId>, g: FrameId)
    requires Unheld(s, calls) && Subtree(s.heap, calls, gone) && g in gone
    requires forall f :: f in calls ==> s.heap[f].Inert()
    requires forall f {:trigger StatusInv(s, f)} :: f in s.heap && f !in calls ==> StatusInv(s, f)
    ensures s.heap[g].Inert()
    decreases s.heap[g].depth
  {
    if g !in calls && !s.heap[g].status.Lazy? {
      assert StatusInv(s, g);
      GoneWithHolder(s, calls, gone, g);
      GoneInert(s, calls, gone, s.heap[g].owner.parent);
    }
  }

  /** The frames in `calls` are inert and listed nowhere; every other frame is where it says. */
  ghost predicate Unlisted(s: Ctx, calls: multiset<FrameId>) {
    && Unheld(s, calls) && PlaceInv(s)
    && (forall f :: f in calls ==>
          s.heap[f].Inert() && f !in s.sched.ready && f !in s.sched.completed && s.sched.current != Some(f))
    && (forall f {:trigger StatusInv(s, f)} :: f in s.heap && f !in calls ==> StatusInv(s, f))
  }

  lemma GoneUnlisted(s: Ctx, calls: multiset<FrameId>, gone: set<FrameId>, g: FrameId)
    requires Unlisted(s, calls) && Subtree(s.heap, calls, gone) && g in gone
    ensures s.heap[g].Inert() && g !in s.sched.ready && g !in s.sched.completed && s.sched.current != Some(g)
  {
    GoneInert(s, calls, gone, g);
    if g !in calls {
      assert StatusInv(s, g);
      GoneWithHolder(s, calls, gone, g);
    }
  }

  lemma WithoutPlaces(s: Ctx, gone: set<FrameId>)
    requires PlaceInv(s) && gone <= s.heap.Keys
    requires forall g :: g in gone ==>
      s.heap[g].Inert() && g !in s.sched.ready && g !in s.sched.completed && s.sched.current != Some(g)
    ensures PlaceInv(Without(s, gone))
  {
  }

  lemma WithoutLeaves(s: Ctx, gone: set<FrameId>)
    requires LeafInv(s) && gone <= s.heap.Keys && forall g :: g in gone ==> s.heap[g].Inert()
    ensures LeafInv(Without(s, gone))
  {
  }

  lemma WithoutLedger(s: Ctx, gone: set<FrameId>)
    requires LedgerInv(s) && gone <= s.heap.Keys
    ensures LedgerInv(Without(s, gone))
  {
    var s' := Without(s, gone);
    assert CountInv(s') && WaitInv(s') && FifoInv(s');
  }

  /** Destruction of inert frames that nobody holds keeps the invariant. */
  lemma KillKeepsInv(s: Ctx, calls: multiset<FrameId>)
    requires Unlisted(s, calls) && LeafInv(s) && LedgerInv(s)
    ensures Inv(Kill(s, calls))
  {
    var gone := KillIsWithout(s, calls);
    var s' := Without(s, gone);
    forall g | g in gone
      ensures s.heap[g].Inert() && g !in s.sched.ready && g !in s.sched.completed && s.sched.current != Some(g)
    {
      GoneUnlisted(s, calls, gone, g);
    }
    WithoutOwners(s, calls, gone);
    forall g | g in s'.heap ensures StatusInv(s', g) {
      assert StatusInv(s, g);
      WithoutStatus(s, calls, gone, g);
    }
    WithoutPlaces(s, gone);
    WithoutLeaves(s, gone);
    WithoutLedger(s, gone);
  }

  lemma DropHeld(s: Ctx, f: FrameId, g: FrameId)
    requires FramesInv(s) && CanDrop(s, f) && g in s.heap
    ensures var t := TakeHandle(s, f);
      HoldsSoundly(t.heap, g) && f !in t.heap[g].Owned() && (g == f || OwnedBy(t.heap, t.sched, g))
  {
    assert OwnedBy(s.heap, s.sched, g) && HoldsSoundly(s.heap, g);
    if HasCurrent(s) {
      assert StatusInv(s, s.sched.current.value) && HoldsSoundly(s.heap, s.sched.current.value);
    }
  }

  lemma DropStatus(s: Ctx, f: FrameId, g: FrameId)
    requires CanDrop(s, f) && g in s.heap && StatusInv(s, g)
    requires HasCurrent(s) ==> StatusInv(s, s.sched.current.value)
    ensures StatusInv(TakeHandle(s, f), g)
  {
  }

  lemma DropListed(s: Ctx, f: FrameId)
    requires FramesInv(s) && CanDrop(s, f)
    ensures var t := TakeHandle(s, f);
      && Listed(t) && f in t.heap && t.heap[f].Inert() && f !in t.sched.ready && f !in t.sched.completed
      && t.sched.current != Some(f) && f !in t.sched.roots && f !in t.sched.outside
  {
    assert StatusInv(s, f);
    if HasCurrent(s) {
      assert StatusInv(s, s.sched.current.value) && HoldsSoundly(s.heap, s.sched.current.value);
    }
  }

  lemma DropUnlisted(s: Ctx, f: FrameId)
    requires FramesInv(s) && CanDrop(s, f)
    ensures Unlisted(TakeHandle(s, f), multiset{f})
  {
    var t := TakeHandle(s, f);
    DropListed(s, f);
    forall g | g in t.heap
      ensures HoldsSoundly(t.heap, g) && f !in t.heap[g].Owned() && (g == f || OwnedBy(t.heap, t.sched, g))
        && StatusInv(t, g)
    {
      DropFrame(s, f, g);
    }
  }

  lemma DropFrame(s: Ctx, f: FrameId, g: FrameId)
    requires FramesInv(s) && CanDrop(s, f) && g in s.heap
    ensures var t := TakeHandle(s, f);
      HoldsSoundly(t.heap, g) && f !in t.heap[g].Owned() && (g == f || OwnedBy(t.heap, t.sched, g)) && StatusInv(t, g)
  {
    assert StatusInv(s, g);
    if HasCurrent(s) {
      assert StatusInv(s, s.sched.current.value);
    }
    DropHeld(s, f, g);
    DropStatus(s, f, g);
  }

  lemma DropLeaves(s: Ctx, f: FrameId)
    requires LeafInv(s) && CanDrop(s, f)
    ensures LeafInv(TakeHandle(s, f))
  {
  }

  lemma DropLedger(s: Ctx, f: FrameId)
    requires LedgerInv(s) && CanDrop(s, f)
    ensures LedgerInv(TakeHandle(s, f))
  {
  }

  lemma DropKeepsInv(s: Ctx, f: FrameId)
    requires Inv(s) && CanDrop(s, f)
    ensures Inv(Drop(s, f))
  {
    DropUnlisted(s, f);
    DropLeaves(s, f);
    DropLedger(s, f);
    KillKeepsInv(TakeHandle(s, f), multiset{f});
  }

  // ---------------------------------------------------------------- the completion list and the destructor

  lemma UnlinkFrame(s: Ctx, g: FrameId)
    requires FramesInv(s) && g in s.heap
    ensures var t := Unlink(s);
      HoldsSoundly(t.heap, g) && (g in s.sched.completed || (OwnedBy(t.heap, t.sched, g) && StatusInv(t, g)))
  {
    assert OwnedBy(s.heap, s.sched, g) && HoldsSoundly(s.heap, g) && StatusInv(s, g);
  }

  lemma CompletedFrame(s: Ctx, f: FrameId)
    requires FramesInv(s) && f in s.sched.completed
    ensures f in s.heap && s.heap[f].status.Returned? && s.heap[f].owner == InRoots && f in s.sched.roots
    ensures f !in s.sched.ready && f !in s.sched.outside && s.sched.current != Some(f)
    ensures forall p :: p in s.heap ==> f !in s.heap[p].Owned()
  {
    assert StatusInv(s, f) && OwnedBy(s.heap, s.sched, f);
    forall p | p in s.heap ensures f !in s.heap[p].Owned() {
      assert HoldsSoundly(s.heap, p);
    }
  }

  lemma UnlinkUnlisted(s: Ctx)
    requires FramesInv(s)
    ensures Unlisted(Unlink(s), multiset(Members(s.sched.completed)))
  {
    var t := Unlink(s);
    forall g | g in t.heap
      ensures HoldsSoundly(t.heap, g) && (g in s.sched.completed || (OwnedBy(t.heap, t.sched, g) && StatusInv(t, g)))
    {
      UnlinkFrame(s, g);
    }
    forall f | f in s.sched.completed
      ensures s.heap[f].Inert() && f !in s.sched.ready && f !in s.sched.outside && s.sched.current != Some(f)
      ensures forall p :: p in s.heap ==> f !in s.heap[p].Owned()
    {
      CompletedFrame(s, f);
    }
  }

  lemma {:induction false} Distinct(list: seq<FrameId>)
    requires forall i, j :: 0 <= i < j < |list| ==> list[i] != list[j]
    ensures |Members(list)| == |list|
  {
    if list != [] {
      var rest := list[1..];
      forall i, j | 0 <= i < j < |rest| ensures rest[i] != rest[j] {
        assert rest[i] == list[i + 1] && rest[j] == list[j + 1];
      }
      Distinct(rest);
      assert list == [list[0]] + rest;
      assert Members(list) == Members(rest) + {list[0]};
      assert list[0] !in rest;
    }
  }

  lemma UnlinkCount(s: Ctx)
    requires FramesInv(s) && CountInv(s)
    ensures CountInv(Unlink(s))
  {
    var done := Members(s.sched.completed);
    Distinct(s.sched.completed);
    forall f | f in done ensures f in s.sched.roots {
      assert StatusInv(s, f) && OwnedBy(s.heap, s.sched, f);
    }
    assert |s.sched.roots - done| == |s.sched.roots| - |done|;
  }

  lemma UnlinkLeaves(s: Ctx)
    requires LeafInv(s)
    ensures LeafInv(Unlink(s))
  {
  }

  lemma DrainKeepsInv(s: Ctx)
    requires Inv(s)
    ensures Inv(Drain(s))
  {
    UnlinkUnlisted(s);
    UnlinkCount(s);
    UnlinkLeaves(s);
    KillKeepsInv(Unlink(s), multiset(Members(s.sched.completed)));
  }

  lemma ClearUnheld(s: Ctx)
    requires FramesInv(s)
    ensures Unheld(Clear(s), multiset(s.sched.roots))
  {
    var t := Clear(s);
    forall g | g in t.heap ensures HoldsSoundly(t.heap, g) && (g in s.sched.roots || OwnedBy(t.heap, t.sched, g)) {
      assert OwnedBy(s.heap, s.sched, g) && HoldsSoundly(s.heap, g);
    }
    forall p, f | p in t.heap && f in t.heap[p].Owned() ensures f !in s.sched.roots {
      assert HoldsSoundly(s.heap, p);
    }
  }

  /** Every started frame hangs below a root. */
  lemma {:induction false} StartedGone(s: Ctx, gone: set<FrameId>, g: FrameId)
    requires FramesInv(s) && Subtree(s.heap, multiset(s.sched.roots), gone) && g in s.heap && !s.heap[g].status.Lazy?
    ensures g in gone
    decreases s.heap[g].depth
  {
    assert StatusInv(s, g) && OwnedBy(s.heap, s.sched, g);
    if s.heap[g].owner.InAwaiter? {
      StartedGone(s, gone, s.heap[g].owner.parent);
    }
  }

  /** The destructor destroys every frame that has started, and every frame those own, exactly
      once. The frames that remain are lazy and still in their Tasks. */
  lemma TeardownDestroysOnce(s: Ctx) returns (gone: set<FrameId>)
    requires Inv(s)
    ensures Subtree(s.heap, multiset(s.sched.roots), gone)
    ensures var s' := Teardown(s);
      && s'.heap == s.heap - gone && s'.log.killed == s.log.killed + multiset(gone)
      && LifeInv(s') && FramesInv(s') && s'.waits == map[] && s'.sched.ready == [] && s'.sched.roots == {}
      && forall f :: f in s'.heap ==> s'.heap[f].status.Lazy?
  {
    ClearUnheld(s);
    gone := KillIsWithout(Clear(s), multiset(s.sched.roots));
    var s' := Without(Clear(s), gone);
    WithoutOwners(Clear(s), multiset(s.sched.roots), gone);
    forall g | g in s'.heap ensures s'.heap[g].status.Lazy? && StatusInv(s', g) {
      if !s.heap[g].status.Lazy? {
        StartedGone(s, gone, g);
      }
      assert StatusInv(s, g);
    }
  }
}
