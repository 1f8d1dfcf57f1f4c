/** Coroutine frames and who owns them.

    A frame is owned by a `Task` object (held as a local of another frame, or outside any
    coroutine), by the `Awaiter` of the frame that awaits it, or by the executor's root map. The
    owners hold the handles: a frame lists the frames its locals own. Destroying a frame runs the
    destructors of those locals, which destroy the frames they own in turn. */
module Frames {
  import opened Options

  type FrameId = nat

  datatype Event = Read | Write

  /** One direction of one descriptor. */
  datatype Key = Key(fd: int, event: Event)

  datatype Owner =
    | InTask(holder: Option<FrameId>)
    | InAwaiter(parent: FrameId)
    | InRoots

  /** What a frame is doing. */
  datatype Status =
    | Lazy                        // created, not started
    | Running
    | Awaiting(child: FrameId)    // suspended in co_await of a Task
    | Ready                       // in the ready queue
    | Waiting(key: Key)           // in a wait slot
    | Returned(failed: bool)      // at its final suspend point

  /** `completion` and `continuation` are the promise fields that decide where control goes at
      the final suspend point. `tasks` and `awaiters` are the frames owned by `Task` and `Awaiter`
      locals. The last three fields are bookkeeping for the proofs: no operation reads them. */
  datatype Frame = Frame(
    status: Status,
    completion: bool,
    continuation: Option<FrameId>,
    tasks: set<FrameId>,
    awaiters: set<FrameId>,
    owner: Owner,
    root: FrameId,
    depth: nat)
  {
    function Owned(): set<FrameId> {
      tasks + awaiters
    }

    /** Never to be resumed again. */
    predicate Inert() {
      status.Lazy? || status.Returned?
    }

    /** The end of its chain: runnable, or waiting for something other than a frame. */
    predicate Leaf() {
      status.Running? || status.Ready? || status.Waiting?
    }
  }

  type Heap = map<FrameId, Frame>

  // ---------------------------------------------------------------- destruction

  datatype Destruction = Destruction(heap: Heap, killed: multiset<FrameId>)

  /** Carries out the pending `destroy` calls `calls`, one after the other, and the calls that
      the destroyed frames' locals make. `killed` counts the calls; a call on a frame that is
      already gone is counted and otherwise without effect, so a frame destroyed twice shows. */
  ghost function Destroy(heap: Heap, killed: multiset<FrameId>, calls: multiset<FrameId>): Destruction
    decreases |heap|, |calls|
  {
    if calls == multiset{} then Destruction(heap, killed)
    else
      var f := Pick(calls);
      if f in heap then
        RemovalShrinks(heap, f);
        Destroy(heap - {f}, killed + multiset{f}, Carry(calls, f, heap[f]))
      else Destroy(heap, killed + multiset{f}, calls - multiset{f})
  }

  ghost function Pick(calls: multiset<FrameId>): FrameId
    requires calls != multiset{}
    ensures Pick(calls) in calls
  {
    var f :| f in calls; f
  }

  /** The pending calls after the one on `f`, whose locals make calls of their own. */
  ghost function Carry(calls: multiset<FrameId>, f: FrameId, frame: Frame): multiset<FrameId> {
    calls - multiset{f} + multiset(frame.Owned())
  }

  lemma RemovalShrinks(heap: Heap, f: FrameId)
    requires f in heap
    ensures |heap - {f}| < |heap|
  {
    assert (heap - {f}).Keys == heap.Keys - {f};
    assert |heap - {f}| == |(heap - {f}).Keys|;
    assert |heap| == |heap.Keys|;
  }

  /** Handles are not shared and lead to live frames. */
  ghost predicate OwnershipSound(heap: Heap) {
    && (forall p, g :: p in heap && g in heap[p].Owned() ==> g in heap)
    && (forall p, q, g :: p in heap && q in heap && g in heap[p].Owned() && g in heap[q].Owned() ==> p == q)
  }

  /** The pending calls are on live frames, one each, and nobody else will destroy those. */
  ghost predicate CallsSound(heap: Heap, calls: multiset<FrameId>) {
    && (forall f :: f in calls ==> f in heap && calls[f] == 1)
    && (forall p, g :: p in heap && g in heap[p].Owned() ==> g !in calls)
  }

  ghost predicate OwnedWithin(heap: Heap, gone: set<FrameId>, g: FrameId) {
    exists p :: p in gone && p in heap && g in heap[p].Owned()
  }

  /** `gone` is what hangs below the pending calls: closed under ownership, and nothing else. */
  ghost predicate Subtree(heap: Heap, calls: multiset<FrameId>, gone: set<FrameId>) {
    && gone <= heap.Keys
    && (forall f :: f in calls ==> f in gone)
    && (forall p, g :: p in gone && g in heap[p].Owned() ==> g in gone)
    && (forall g :: g in gone ==> g in calls || OwnedWithin(heap, gone, g))
  }

  lemma OneCall(heap: Heap, calls: multiset<FrameId>, f: FrameId)
    requires OwnershipSound(heap) && CallsSound(heap, calls) && f in calls
    ensures OwnershipSound(heap - {f}) && CallsSound(heap - {f}, Carry(calls, f, heap[f]))
  {
  }

  lemma BelowCall(heap: Heap, calls: multiset<FrameId>, f: FrameId, gone: set<FrameId>, g: FrameId)
    requires f in heap && Subtree(heap - {f}, Carry(calls, f, heap[f]), gone) && g in gone && g !in calls
    ensures OwnedWithin(heap, gone + {f}, g)
  {
    if g in heap[f].Owned() {
      assert f in gone + {f};
    } else {
      assert g !in Carry(calls, f, heap[f]);
      assert OwnedWithin(heap - {f}, gone, g);
      var p :| p in gone && p in heap - {f} && g in (heap - {f})[p].Owned();
      assert p in gone + {f};
    }
  }

  lemma SubtreeOfCall(heap: Heap, calls: multiset<FrameId>, f: FrameId, gone: set<FrameId>)
    requires CallsSound(heap, calls) && f in calls
    requires Subtree(heap - {f}, Carry(calls, f, heap[f]), gone)
    ensures Subtree(heap, calls, gone + {f})
  {
    var all, calls' := gone + {f}, Carry(calls, f, heap[f]);
    forall g | g in all && g !in calls ensures OwnedWithin(heap, all, g) {
      BelowCall(heap, calls, f, gone, g);
    }
    forall g | g in calls ensures g in all {
      assert g == f || g in calls';
    }
    forall p, g | p in all && g in heap[p].Owned() ensures g in all {
      if p == f {
        assert g in calls';
      } else {
        assert (heap - {f})[p] == heap[p];
      }
    }
  }

  /** Destruction kills exactly the frames below the calls, each of them exactly once. */
  lemma {:induction false} DestroyedOnce(heap: Heap, killed: multiset<FrameId>, calls: multiset<FrameId>)
      returns (gone: set<FrameId>)
    requires OwnershipSound(heap) && CallsSound(heap, calls)
    ensures Subtree(heap, calls, gone)
    ensures Destroy(heap, killed, calls) == Destruction(heap - gone, killed + multiset(gone))
    decreases |heap|, |calls|
  {
    if calls == multiset{} {
      gone := {};
      assert heap - gone == heap;
    } else {
      var f := Pick(calls);
      OneCall(heap, calls, f);
      RemovalShrinks(heap, f);
      var below := DestroyedOnce(heap - {f}, killed + multiset{f}, Carry(calls, f, heap[f]));
      SubtreeOfCall(heap, calls, f, below);
      gone := below + {f};
      Together(heap, killed, below, f);
    }
  }

  lemma Together(heap: Heap, killed: multiset<FrameId>, below: set<FrameId>, f: FrameId)
    requires f !in below
    ensures heap - {f} - below == heap - (below + {f})
    ensures killed + multiset{f} + multiset(below) == killed + multiset(below + {f})
  {
    assert multiset(below + {f}) == multiset(below) + multiset{f};
  }
}
