/** What holds of the executor between any two of its operations. */
module ExecutorInvariant {
  import opened Options
  import opened Frames
  import opened Executor

  // ---------------------------------------------------------------- invariant: ownership

  /** The owner recorded for `f` does hold its handle. */
  ghost predicate OwnedBy(heap: Heap, sched: Sched, f: FrameId)
    requires f in heap
  {
    match heap[f].owner
    case InTask(None) => f in sched.outside
    case InTask(Some(h)) => h in heap && f in heap[h].tasks && (heap[h].status.Lazy? ==> f < h)
    case InAwaiter(p) => p in heap && f in heap[p].awaiters
    case InRoots => f in sched.roots
  }

  /** Every handle `f` holds is the only one. */
  ghost predicate HoldsSoundly(heap: Heap, f: FrameId)
    requires f in heap
  {
    && (forall g :: g in heap[f].tasks ==> g in heap && heap[g].owner == InTask(Some(f)))
    && (forall g :: g in heap[f].awaiters ==> g in heap && heap[g].owner == InAwaiter(f))
  }

  /** Every frame has exactly one owner: a Task, an Awaiter or the root map. */
  ghost predicate OwnerInv(heap: Heap, sched: Sched) {
    && (forall f {:trigger OwnedBy(heap, sched, f)} {:trigger HoldsSoundly(heap, f)} ::
          f in heap ==> OwnedBy(heap, sched, f) && HoldsSoundly(heap, f))
    && (forall f :: f in sched.roots ==> f in heap && heap[f].owner == InRoots)
    && (forall f :: f in sched.outside ==> f in heap && heap[f].owner == InTask(None))
  }

  lemma OwnerInvSound(heap: Heap, sched: Sched)
    requires OwnerInv(heap, sched)
    ensures OwnershipSound(heap)
  {
    forall p, g | p in heap && g in heap[p].Owned() ensures g in heap {
      assert HoldsSoundly(heap, p);
    }
    forall p, q, g | p in heap && q in heap && g in heap[p].Owned() && g in heap[q].Owned() ensures p == q {
      assert HoldsSoundly(heap, p) && HoldsSoundly(heap, q);
    }
  }

  // ---------------------------------------------------------------- invariant: who is where

  /** A started frame that is not a root hangs below the frame that awaits it. */
  ghost predicate Below(heap: Heap, f: FrameId, p: FrameId)
    requires f in heap
  {
    && p in heap && !heap[p].status.Lazy? && heap[f].continuation == Some(p)
    && heap[f].root == heap[p].root && heap[f].depth == heap[p].depth + 1
    && (heap[f].status.Returned? || heap[p].status == Awaiting(f))
  }

  ghost predicate StatusInv(s: Ctx, f: FrameId)
    requires f in s.heap
  {
    var fr := s.heap[f];
    && (fr.status.Lazy? <==> fr.owner.InTask?)
    && (fr.status.Lazy? ==> fr.awaiters == {} && !fr.completion)
    && (fr.owner.InAwaiter? ==> Below(s.heap, f, fr.owner.parent) && !fr.completion)
    && (fr.owner == InRoots ==> fr.root == f && fr.depth == 0 && fr.completion)
    && (fr.status.Running? <==> s.sched.current == Some(f))
    && (fr.status.Ready? <==> f in s.sched.ready)
    && (fr.status.Waiting? ==> fr.status.key in s.waits && s.waits[fr.status.key].frame == f)
    && (fr.status.Awaiting? ==>
          fr.status.child in fr.awaiters && fr.status.child in s.heap && !s.heap[fr.status.child].status.Returned?)
    && (fr.status.Returned? && fr.owner == InRoots <==> f in s.sched.completed)
  }

  ghost predicate PlaceInv(s: Ctx) {
    && (s.sched.current.Some? ==> s.sched.current.value in s.heap)
    && (forall f :: f in s.sched.ready ==> f in s.heap)
    && (forall f :: f in s.sched.completed ==> f in s.heap)
    && (forall i, j :: 0 <= i < j < |s.sched.ready| ==> s.sched.ready[i] != s.sched.ready[j])
    && (forall i, j :: 0 <= i < j < |s.sched.completed| ==> s.sched.completed[i] != s.sched.completed[j])
    && (forall k :: k in s.waits ==> s.waits[k].frame in s.heap && s.heap[s.waits[k].frame].status == Waiting(k))
  }

  ghost predicate FramesInv(s: Ctx) {
    OwnerInv(s.heap, s.sched) && PlaceInv(s) && forall f {:trigger StatusInv(s, f)} :: f in s.heap ==> StatusInv(s, f)
  }

  /** Each unfinished root has exactly one leaf. */
  ghost predicate LeafInv(s: Ctx) {
    && (forall r :: r in s.leaves <==> r in s.sched.roots && r !in s.sched.completed)
    && (forall r :: r in s.leaves ==>
          s.leaves[r] in s.heap && s.heap[s.leaves[r]].Leaf() && s.heap[s.leaves[r]].root == r)
    && (forall f :: f in s.heap && s.heap[f].Leaf() ==> s.heap[f].root in s.leaves && s.leaves[s.heap[f].root] == f)
  }

  /** Nothing is lost: every unfinished root is running, queued or waiting. */
  ghost predicate CountInv(s: Ctx) {
    |s.sched.roots| == |s.sched.ready| + |s.waits| + |s.sched.completed| + (if s.sched.current.Some? then 1 else 0)
  }

  /** Every frame created is either live or destroyed, and destroyed only once. */
  ghost predicate LifeInv(s: Ctx) {
    && (forall f :: f in s.heap ==> f < s.nextId && f !in s.log.killed)
    && (forall f :: f in s.log.killed ==> f < s.nextId && s.log.killed[f] == 1)
    && (forall f :: 0 <= f < s.nextId ==> f in s.heap || f in s.log.killed)
  }

  /** Tokens identify waits; a wait that has ended has ended once, with the right result. */
  ghost predicate WaitInv(s: Ctx) {
    && (forall k :: k in s.waits ==>
          var w := s.waits[k];
          w.token in s.log.armed && s.log.armed[w.token] == Armed(k, w.frame, w.deadline))
    && (forall t :: t in s.log.armed ==>
          && t < s.nextToken
          && (t in s.log.ended <==> !(s.log.armed[t].key in s.waits && s.waits[s.log.armed[t].key].token == t)))
    && (forall t :: t in s.log.ended ==> t in s.log.armed && RightCause(s.log.armed[t], s.log.ended[t]))
  }

  predicate RightCause(armed: Armed, ended: Ended) {
    match ended.cause
    case ByReadiness(key) => ended.result && armed.key == key
    case ByDeadline(now) => !ended.result && armed.deadline.Some? && armed.deadline.value <= now
    case ByCancel(fd) => !ended.result && armed.key.fd == fd
  }

  /** The ready queue is a queue. */
  ghost predicate FifoInv(s: Ctx) {
    s.log.enqueued == s.log.resumed + s.sched.ready
  }

  /** A wait that ended has put its frame into the queue, once. */
  ghost predicate WakeInv(log: Log) {
    && |log.wakes| == |log.enqueued|
    && (forall i, j :: 0 <= i < j < |log.wakes| && log.wakes[i].Some? ==> log.wakes[i] != log.wakes[j])
    && (forall i :: 0 <= i < |log.wakes| && log.wakes[i].Some? ==>
          var t := log.wakes[i].value;
          t in log.ended && t in log.armed && log.enqueued[i] == log.armed[t].frame)
    && (forall t :: t in log.ended ==> Some(t) in log.wakes)
  }

  /** The parts of the invariant that do not speak of single frames. */
  ghost predicate LedgerInv(s: Ctx) {
    CountInv(s) && LifeInv(s) && WaitInv(s) && FifoInv(s) && WakeInv(s.log)
  }

  ghost predicate Inv(s: Ctx) {
    FramesInv(s) && LeafInv(s) && LedgerInv(s)
  }
}
