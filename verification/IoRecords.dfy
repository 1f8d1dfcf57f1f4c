/** How the executor's fields agree with its model, and how each operation keeps them so. */
module IoRecords {
  import opened Options
  import opened Frames
  import opened ExecutorInvariant
  import opened WaitTable
  import E = Executor
  import Steps = ExecutorSteps
  import Runs = ExecutorRuns

  /** Nanoseconds per millisecond. */
  const MS: nat := 1_000_000

  const INT_MAX := 0x7fff_ffff

  /** A frame in the completion list, and whether its promise holds an exception. */
  datatype Finished = Finished(frame: FrameId, failed: bool)

  /** What goes wrong in `arm_wait`, if anything: epoll_ctl, or the insertion into the heap. */
  datatype Fault = NoFault | ControlFails | PushFails

  datatype ArmResult = InvalidFd | Busy | RolledBack | InPlace

  /** The completion list names finished frames. */
  ghost predicate Lists(completed: seq<Finished>, s: E.Ctx) {
    && |completed| == |s.sched.completed|
    && forall i :: 0 <= i < |completed| ==>
         && completed[i].frame == s.sched.completed[i] && completed[i].frame in s.heap
         && s.heap[completed[i].frame].status == Returned(completed[i].failed)
  }

  function FramesOf(completed: seq<Finished>): set<FrameId> {
    set d | d in completed :: d.frame
  }

  predicate AnyFailed(completed: seq<Finished>) {
    exists d :: d in completed && d.failed
  }

  /** The deadline of a wait armed at `now`. A negative timeout means none. */
  function DeadlineOf(timeout: int, now: nat): Option<nat> {
    if timeout < 0 then None else Some(now + timeout * MS)
  }

  // ---------------------------------------------------------------- ending a wait

  lemma EndEffect(s: E.Ctx, key: Key, ended: E.Ended, completed: seq<Finished>)
    requires PlaceInv(s)
    ensures var s' := E.End(s, key, ended);
      && s'.waits == s.waits - {key} && s'.log.armed == s.log.armed && s'.nextToken == s.nextToken
      && s'.sched == s.sched.(ready := s.sched.ready + if key in s.waits then [s.waits[key].frame] else [])
      && (Lists(completed, s) ==> Lists(completed, s'))
  {
    if key !in s.waits {
      assert s.waits - {key} == s.waits;
      assert s.sched.ready + [] == s.sched.ready;
    }
  }

  lemma LivePlaces(s: E.Ctx)
    requires Runs.Reached(s)
    ensures PlaceInv(s)
  {
    Runs.ReachedInv(s);
  }

  /** The records of the waits agree with the model. */
  ghost predicate Agree(s: E.Ctx, fds: Table, channels: Channels, timers: multiset<TimerEntry>) {
    Registered(fds, channels) && Slots(fds, s.waits) && Timers(timers, s.waits, s.log.armed)
  }

  lemma EndAgrees(s: E.Ctx, fds: Table, channels: Channels, timers: multiset<TimerEntry>, key: Key, ended: E.Ended)
    requires PlaceInv(s) && Agree(s, fds, channels, timers) && key.fd in fds
    ensures var state := fds[key.fd].WithSlot(key.event, None);
      Agree(E.End(s, key, ended), Settled(fds, key.fd, state), Told(channels, key.fd, state), timers)
  {
    EndEffect(s, key, ended, []);
    SettledEnd(fds, s.waits, key);
    SettledRegistered(fds, channels, key.fd, fds[key.fd].WithSlot(key.event, None));
    FewerTimed(timers, s.waits, s.log.armed, key);
  }

  /** The slot for `key` holds what the model says. */
  ghost predicate SlotAgrees(s: E.Ctx, fds: Table, key: Key) {
    if key in s.waits then
      s.waits[key].frame in s.heap && At(fds, key) == Some(WaitSlot(s.waits[key].frame, s.waits[key].token))
    else At(fds, key) == None
  }

  lemma Ending(s: E.Ctx, fds: Table, channels: Channels, timers: multiset<TimerEntry>, completed: seq<Finished>,
               key: Key, ended: E.Ended)
    requires Runs.Reached(s) && Agree(s, fds, channels, timers) && Lists(completed, s) && key.fd in fds
    ensures SlotAgrees(s, fds, key) && 0 <= key.fd && fds[key.fd].registered && key.fd in channels
    ensures var s', state := E.End(s, key, ended), fds[key.fd].WithSlot(key.event, None);
      && Lists(completed, s') && s'.sched == s.sched.(ready := s'.sched.ready) && s'.nextToken == s.nextToken
      && s'.waits == s.waits - {key}
      && Agree(s', Settled(fds, key.fd, state), Told(channels, key.fd, state), timers)
  {
    LivePlaces(s);
    EndEffect(s, key, ended, completed);
    EndAgrees(s, fds, channels, timers, key, ended);
  }

  lemma FewerTimed(timers: multiset<TimerEntry>, waits: map<Key, E.Wait>, armed: map<nat, E.Armed>, key: Key)
    requires Timers(timers, waits, armed)
    ensures Timers(timers, waits - {key}, armed)
  {
  }

  // ---------------------------------------------------------------- arming and cancelling

  lemma ArmEffect(s: E.Ctx, completed: seq<Finished>, key: Key, deadline: Option<nat>)
    requires Runs.Reached(s) && E.HasCurrent(s) && Lists(completed, s) && key !in s.waits && 0 <= key.fd
    ensures s.nextToken !in s.log.armed
    ensures Runs.Reached(E.Arm(s, key, deadline)) && Lists(completed, E.Arm(s, key, deadline))
  {
    Runs.ReachedInv(s);
    assert StatusInv(s, s.sched.current.value);
    Runs.ReachedStep(s, Runs.Wait(key, deadline));
  }

  /** The table after `Register`, which the model calls `Arm`. */
  function Filled(fds: Table, key: Key, slot: WaitSlot): FdState {
    (if key.fd in fds then fds[key.fd] else NEW_STATE).WithSlot(key.event, Some(slot))
  }

  function Pushed(timers: multiset<TimerEntry>, deadline: Option<nat>, token: nat, key: Key): multiset<TimerEntry> {
    if deadline.Some? then timers + multiset{TimerEntry(deadline.value, token, key)} else timers
  }

  lemma Arming(s: E.Ctx, fds: Table, channels: Channels, timers: multiset<TimerEntry>, completed: seq<Finished>,
               key: Key, deadline: Option<nat>) returns (s': E.Ctx)
    requires Runs.Reached(s) && E.HasCurrent(s) && Lists(completed, s) && Agree(s, fds, channels, timers)
    requires key !in s.waits && 0 <= key.fd
    ensures var state := Filled(fds, key, WaitSlot(s.sched.current.value, s.nextToken));
      && s' == E.Arm(s, key, deadline) && Runs.Reached(s') && Lists(completed, s')
      && s'.sched == s.sched.(current := None) && s'.nextToken == s.nextToken + 1
      && Agree(s', Settled(fds, key.fd, state), Told(channels, key.fd, state),
           Pushed(timers, deadline, s.nextToken, key))
  {
    ArmEffect(s, completed, key, deadline);
    ArmAgrees(s, fds, channels, timers, key, deadline);
    s' := E.Arm(s, key, deadline);
  }

  lemma ArmingFails(s: E.Ctx, fds: Table, channels: Channels, timers: multiset<TimerEntry>, completed: seq<Finished>)
      returns (s': E.Ctx)
    requires Runs.Reached(s) && E.HasCurrent(s) && Lists(completed, s) && Agree(s, fds, channels, timers)
    ensures
      && s' == E.ArmFails(s) && Runs.Reached(s') && Lists(completed, s') && s'.sched == s.sched
      && s'.nextToken == s.nextToken + 1
      && Agree(s', fds, channels, timers)
  {
    Runs.ReachedStep(s, Runs.WaitFails);
    s' := E.ArmFails(s);
  }

  lemma BusyIff(fds: Table, waits: map<Key, E.Wait>, key: Key)
    requires Slots(fds, waits)
    ensures key in waits <==> At(fds, key).Some?
  {
  }

  lemma ArmAgrees(s: E.Ctx, fds: Table, channels: Channels, timers: multiset<TimerEntry>, key: Key,
                  deadline: Option<nat>)
    requires E.HasCurrent(s) && Agree(s, fds, channels, timers) && key !in s.waits && 0 <= key.fd
    requires s.nextToken !in s.log.armed
    ensures var state := Filled(fds, key, WaitSlot(s.sched.current.value, s.nextToken));
      Agree(E.Arm(s, key, deadline), Settled(fds, key.fd, state), Told(channels, key.fd, state),
            Pushed(timers, deadline, s.nextToken, key))
  {
    var wait := E.Wait(s.sched.current.value, s.nextToken, deadline);
    SettledArm(fds, s.waits, key, wait);
    SettledRegistered(fds, channels, key.fd, Filled(fds, key, WaitSlot(wait.frame, wait.token)));
    PushTimer(timers, s.waits, s.log.armed, key, wait);
  }

  /** There is nothing to cancel for a descriptor that is not in the table. */
  lemma CancellingNone(s: E.Ctx, fds: Table, channels: Channels, timers: multiset<TimerEntry>, fd: int)
    requires Agree(s, fds, channels, timers) && fd !in fds
    ensures E.Cancel(s, fd) == s && fd !in channels
  {
    BusyIff(fds, s.waits, Key(fd, Read));
    BusyIff(fds, s.waits, Key(fd, Write));
  }

  lemma Cancelling(s: E.Ctx, fds: Table, channels: Channels, timers: multiset<TimerEntry>, completed: seq<Finished>,
                   fd: int)
    requires Runs.Reached(s) && Agree(s, fds, channels, timers) && Lists(completed, s)
    ensures var s', half := E.Cancel(s, fd), E.End(s, Key(fd, Read), E.Ended(false, E.ByCancel(fd)));
      && Runs.Reached(s') && Lists(completed, s') && s'.sched == s.sched.(ready := s'.sched.ready)
      && s'.nextToken == s.nextToken
      && Agree(s', fds - {fd}, channels - {fd}, timers)
      && SlotAgrees(s, fds, Key(fd, Read)) && SlotAgrees(half, fds, Key(fd, Write))
      && s.sched.ready <= s'.sched.ready && s'.log.resumed == s.log.resumed
  {
    var cancelled := E.Ended(false, E.ByCancel(fd));
    var half := E.End(s, Key(fd, Read), cancelled);
    Runs.ReachedInv(s);
    Runs.CancelKeepsInv(s, fd);
    Runs.EndKeepsInv(s, Key(fd, Read), cancelled);
    Runs.ReachedStep(s, Runs.Cancel(fd));
    CancelEffect(s, fds, channels, timers, completed, fd);
  }

  lemma CancelEffect(s: E.Ctx, fds: Table, channels: Channels, timers: multiset<TimerEntry>, completed: seq<Finished>,
                     fd: int)
    requires PlaceInv(s) && PlaceInv(E.End(s, Key(fd, Read), E.Ended(false, E.ByCancel(fd))))
    requires Agree(s, fds, channels, timers) && Lists(completed, s)
    ensures var s', half := E.Cancel(s, fd), E.End(s, Key(fd, Read), E.Ended(false, E.ByCancel(fd)));
      && Lists(completed, s') && s'.sched == s.sched.(ready := s'.sched.ready) && s'.nextToken == s.nextToken
      && Agree(s', fds - {fd}, channels - {fd}, timers)
      && SlotAgrees(s, fds, Key(fd, Read)) && SlotAgrees(half, fds, Key(fd, Write))
      && s.sched.ready <= s'.sched.ready && s'.log.resumed == s.log.resumed
  {
    var half := CancelTwice(s, completed, fd);
    CancelAgrees(s, half, E.Cancel(s, fd), fds, channels, timers, fd);
    SlotsAgree(s, half, fds, fd);
  }

  lemma CancelTwice(s: E.Ctx, completed: seq<Finished>, fd: int) returns (half: E.Ctx)
    requires PlaceInv(s) && PlaceInv(E.End(s, Key(fd, Read), E.Ended(false, E.ByCancel(fd)))) && Lists(completed, s)
    ensures half == E.End(s, Key(fd, Read), E.Ended(false, E.ByCancel(fd))) && half.waits == s.waits - {Key(fd, Read)}
    ensures var s' := E.Cancel(s, fd);
      && s'.waits == half.waits - {Key(fd, Write)} && s'.log.armed == s.log.armed && s'.nextToken == s.nextToken
      && Lists(completed, s') && s'.sched == s.sched.(ready := s'.sched.ready)
      && s.sched.ready <= s'.sched.ready && s'.log.resumed == s.log.resumed
  {
    var cancelled := E.Ended(false, E.ByCancel(fd));
    half := E.End(s, Key(fd, Read), cancelled);
    EndEffect(s, Key(fd, Read), cancelled, completed);
    EndEffect(half, Key(fd, Write), cancelled, completed);
  }

  lemma SlotsAgree(s: E.Ctx, half: E.Ctx, fds: Table, fd: int)
    requires Slots(fds, s.waits) && half.waits == s.waits - {Key(fd, Read)}
    requires half == E.End(s, Key(fd, Read), E.Ended(false, E.ByCancel(fd))) && PlaceInv(s)
    ensures SlotAgrees(s, fds, Key(fd, Read)) && SlotAgrees(half, fds, Key(fd, Write))
  {
    BusyIff(fds, s.waits, Key(fd, Read));
    BusyIff(fds, s.waits, Key(fd, Write));
  }

  lemma CancelAgrees(s: E.Ctx, half: E.Ctx, s': E.Ctx, fds: Table, channels: Channels, timers: multiset<TimerEntry>,
                     fd: int)
    requires Agree(s, fds, channels, timers)
    requires half.waits == s.waits - {Key(fd, Read)} && s'.waits == half.waits - {Key(fd, Write)}
    requires s'.log.armed == s.log.armed
    ensures Agree(s', fds - {fd}, channels - {fd}, timers)
  {
    ErasedSlots(fds, s.waits, fd);
    FewerTimed(timers, s.waits, s.log.armed, Key(fd, Read));
    FewerTimed(timers, half.waits, s.log.armed, Key(fd, Write));
  }

  // ---------------------------------------------------------------- expiry

  lemma Expiring(s: E.Ctx, fds: Table, channels: Channels, timers: multiset<TimerEntry>, e: TimerEntry, now: nat)
    requires Runs.Reached(s) && s.sched.current == None && Agree(s, fds, channels, timers) && e in timers
      && e.deadline <= now
    ensures Active(fds, e) <==> e.key in s.waits && s.waits[e.key].token == e.token
    ensures Active(fds, e) ==>
      && e.key.fd in fds && s.waits[e.key].deadline == Some(e.deadline)
      && Runs.Reached(E.End(s, e.key, E.Ended(false, E.ByDeadline(now))))
      && Timers(timers - multiset{e}, s.waits - {e.key}, s.log.armed)
    ensures !Active(fds, e) ==> Timers(timers - multiset{e}, s.waits, s.log.armed)
  {
    Runs.ReachedInv(s);
    ActiveIff(fds, timers, s.waits, s.log.armed, e);
    if Active(fds, e) {
      Runs.ReachedStep(s, Runs.Expire(e.key, now));
      PopEnded(timers, s.waits, s.log.armed, e);
    } else {
      PopStale(fds, timers, s.waits, s.log.armed, e);
    }
  }

  /** An entry that the heap may give next, if it gives the due waits in the order `order`: one with
      the earliest deadline, and stale, not due, or that of the first wait in `order`. */
  predicate Chosen(fds: Table, timers: multiset<TimerEntry>, now: nat, order: seq<Key>, e: TimerEntry) {
    Earliest(timers, e) && (e.deadline <= now && Active(fds, e) ==> order != [] && e.key == order[0])
  }

  lemma ActiveMeans(s: E.Ctx, fds: Table, channels: Channels, timers: multiset<TimerEntry>, e: TimerEntry)
    requires Runs.Reached(s) && Agree(s, fds, channels, timers) && e in timers
    ensures Active(fds, e) <==> e.key in s.waits && s.waits[e.key].token == e.token
    ensures Active(fds, e) ==> s.waits[e.key].deadline == Some(e.deadline)
  {
    Runs.ReachedInv(s);
    ActiveIff(fds, timers, s.waits, s.log.armed, e);
  }

  /** Whatever the order of equal deadlines, the heap may give the entries in it. */
  lemma ChoiceExists(s: E.Ctx, fds: Table, channels: Channels, timers: multiset<TimerEntry>, now: nat, order: seq<Key>)
    requires Runs.Reached(s) && Agree(s, fds, channels, timers) && timers != multiset{}
    requires DueOrder(s.waits, now, order)
    ensures exists e :: Chosen(fds, timers, now, order, e)
  {
    EarliestExists(timers);
    var top :| Earliest(timers, top);
    ActiveMeans(s, fds, channels, timers, top);
    if top.deadline <= now && Active(fds, top) {
      assert Due(s.waits[top.key], now);
      var wait := s.waits[order[0]];
      assert Chosen(fds, timers, now, order, TimerEntry(wait.deadline.value, wait.token, order[0]));
    } else {
      assert Chosen(fds, timers, now, order, top);
    }
  }

  /** The first wait of the order has ended. */
  lemma OrderGoesOn(waits: map<Key, E.Wait>, now: nat, order: seq<Key>)
    requires order != [] && DueOrder(waits, now, order)
    ensures DueOrder(waits - {order[0]}, now, order[1..])
  {
  }

  /** When the heap has no due entry left, no wait is due. */
  lemma NoneDue(waits: map<Key, E.Wait>, timers: multiset<TimerEntry>, armed: map<nat, E.Armed>, now: nat,
                order: seq<Key>)
    requires Timers(timers, waits, armed) && DueOrder(waits, now, order)
    requires forall e :: e in timers ==> now < e.deadline
    ensures order == [] && forall k :: k in waits ==> !Due(waits[k], now)
  {
    assert order != [] ==> order[0] in waits && Due(waits[order[0]], now);
    forall k | k in waits ensures !Due(waits[k], now) {
      if waits[k].deadline.Some? {
        assert TimerEntry(waits[k].deadline.value, waits[k].token, k) in timers;
      }
    }
  }

  // ---------------------------------------------------------------- polling

  ghost predicate EarliestDeadline(waits: map<Key, E.Wait>, d: nat) {
    && (exists k :: k in waits && waits[k].deadline == Some(d))
    && (forall k :: k in waits && waits[k].deadline.Some? ==> d <= waits[k].deadline.value)
  }

  /** -1 iff no timed wait is armed; 0 iff a deadline has passed; otherwise the time to the
      earliest deadline, rounded up to milliseconds, or the largest `int`. */
  ghost predicate PollFor(waits: map<Key, E.Wait>, now: nat, ms: int) {
    if ms == -1 then forall k :: k in waits ==> waits[k].deadline == None
    else exists d: nat ::
      && EarliestDeadline(waits, d)
      && if d <= now then ms == 0
         else 1 <= ms <= INT_MAX && (ms - 1) * MS < d - now && (d - now <= ms * MS || ms == INT_MAX)
  }

  lemma StaleOrArmed(s: E.Ctx, fds: Table, channels: Channels, timers: multiset<TimerEntry>, top: TimerEntry)
    requires Runs.Reached(s) && Agree(s, fds, channels, timers) && Earliest(timers, top)
    ensures Active(fds, top) ==> EarliestDeadline(s.waits, top.deadline)
    ensures !Active(fds, top) ==> Agree(s, fds, channels, timers - multiset{top})
  {
    Runs.ReachedInv(s);
    ActiveIff(fds, timers, s.waits, s.log.armed, top);
    if !Active(fds, top) {
      PopStale(fds, timers, s.waits, s.log.armed, top);
    }
  }

  /** A wait is armed iff some descriptor is registered. */
  lemma RegisteredIff(fds: Table, channels: Channels, waits: map<Key, E.Wait>)
    requires Registered(fds, channels) && Slots(fds, waits)
    ensures waits != map[] <==> exists fd :: fd in fds && fds[fd].registered
  {
    forall fd | fd in fds ensures waits != map[] {
      assert At(fds, Key(fd, Read)).Some? || At(fds, Key(fd, Write)).Some?;
    }
    if waits != map[] {
      var k :| k in waits;
      assert At(fds, k).Some?;
      assert k.fd in fds && fds[k.fd].registered;
    }
  }

  /** A live root with nothing ready has a registered descriptor. */
  lemma WakeSource(s: E.Ctx, fds: Table, channels: Channels)
    requires Runs.Reached(s) && s.sched.current == None && s.sched.completed == [] && s.sched.roots != {}
    requires Registered(fds, channels) && Slots(fds, s.waits)
    ensures s.sched.ready == [] ==> exists fd :: fd in fds && fds[fd].registered
  {
    if s.sched.ready == [] {
      var acts: seq<Runs.Act> :| s == Runs.Run(acts);
      Runs.AlwaysWakeSource(acts);
      RegisteredIff(fds, channels, s.waits);
    }
  }

  lemma Unregistered(fds: Table, channels: Channels, waits: map<Key, E.Wait>, fd: int)
    requires Registered(fds, channels) && Slots(fds, waits)
    ensures fd !in channels ==> Key(fd, Read) !in waits && Key(fd, Write) !in waits
  {
    if fd !in channels {
      assert At(fds, Key(fd, Read)) == None && At(fds, Key(fd, Write)) == None;
    }
  }

  // ---------------------------------------------------------------- frames and the queue

  /** The front of the queue is the next of the frames that have been waiting. */
  lemma NextInLine(waiting: seq<FrameId>, ready: seq<FrameId>, ready': seq<FrameId>)
    requires waiting != [] && waiting <= ready && ready[1..] <= ready'
    ensures ready[0] == waiting[0] && waiting[1..] <= ready'
  {
  }

  /** Of the frames `all`, `done` have been resumed and `waiting` are at the front of the queue. */
  ghost predicate InLine(all: seq<FrameId>, log: seq<FrameId>, done: seq<FrameId>, waiting: seq<FrameId>,
                         ready: seq<FrameId>, log': seq<FrameId>)
  {
    done + waiting == all && waiting <= ready && log' == log + done
  }

  lemma OneByOne(all: seq<FrameId>, log: seq<FrameId>, done: seq<FrameId>, waiting: seq<FrameId>,
                 ready: seq<FrameId>, log': seq<FrameId>, ready': seq<FrameId>)
    requires InLine(all, log, done, waiting, ready, log') && waiting != [] && waiting[1..] <= ready'
    ensures InLine(all, log, done + [waiting[0]], waiting[1..], ready', log' + [waiting[0]])
  {
    assert (done + [waiting[0]]) + waiting[1..] == done + waiting;
  }

  lemma InLineSoFar(all: seq<FrameId>, log: seq<FrameId>, done: seq<FrameId>, waiting: seq<FrameId>,
                    ready: seq<FrameId>, log': seq<FrameId>)
    requires InLine(all, log, done, waiting, ready, log')
    ensures |done| + |waiting| == |all| && log' == log + all[..|done|] && (waiting == [] ==> log' == log + all)
  {
    assert all[..|done|] == done;
  }

  /** Nothing changed that concerns waits, or the order of resumption. */
  ghost predicate Quiet(s: E.Ctx, s': E.Ctx) {
    s'.waits == s.waits && s'.log.armed == s.log.armed && s'.nextToken == s.nextToken && s'.log.resumed == s.log.resumed
  }

  lemma Spawning(s: E.Ctx, completed: seq<Finished>, f: FrameId)
    requires Runs.Reached(s) && Lists(completed, s) && E.Reachable(s, f) && f in s.heap
    ensures f !in s.sched.roots
    ensures var s' := E.Spawn(s, f);
      && Runs.Reached(s') && Lists(completed, s') && Quiet(s, s')
      && s'.sched.roots == s.sched.roots + {f} && s'.sched.ready == s.sched.ready + [f]
      && s'.sched.current == s.sched.current && s'.sched.completed == s.sched.completed
  {
    Runs.ReachedInv(s);
    Runs.ReachedStep(s, Runs.Spawn(f));
    Steps.InHand(s, f);
    SpawnLists(s, completed, f);
  }

  lemma SpawnLists(s: E.Ctx, completed: seq<Finished>, f: FrameId)
    requires Lists(completed, s) && Steps.TaskInHand(s, f)
    ensures Lists(completed, E.Spawn(s, f))
  {
  }

  lemma Yielding(s: E.Ctx, completed: seq<Finished>)
    requires Runs.Reached(s) && Lists(completed, s) && E.HasCurrent(s)
    ensures Runs.Reached(E.Yield(s)) && Lists(completed, E.Yield(s))
  {
    Runs.ReachedInv(s);
    Runs.ReachedStep(s, Runs.Yield);
    assert StatusInv(s, s.sched.current.value);
  }

  lemma Resuming(s: E.Ctx, completed: seq<Finished>)
    requires Runs.Reached(s) && Lists(completed, s) && s.sched.current == None && s.sched.ready != []
    ensures s.sched.ready[0] in s.heap && Runs.Reached(E.Resume(s)) && Lists(completed, E.Resume(s))
      && E.HasCurrent(E.Resume(s))
  {
    Runs.ReachedInv(s);
    Runs.ReachedStep(s, Runs.Resume);
    assert StatusInv(s, s.sched.ready[0]);
  }

  lemma Returning(s: E.Ctx, completed: seq<Finished>, failed: bool)
    requires Runs.Reached(s) && Lists(completed, s) && E.HasCurrent(s)
    ensures var c, s' := s.sched.current.value, E.Finish(s, failed);
      && Runs.Reached(s') && Quiet(s, s') && s'.sched.roots == s.sched.roots && s'.sched.ready == s.sched.ready
      && Lists(if c in s.sched.roots then [Finished(c, failed)] + completed else completed, s')
      && (s'.sched.current.Some? ==> E.HasCurrent(s'))
  {
    var acts: seq<Runs.Act> :| s == Runs.Run(acts);
    Runs.ContinuationIsLive(acts);
    Runs.ReachedStep(s, Runs.Return(failed));
    RunningNotListed(s);
    FinishLists(s, completed, failed);
  }

  lemma RunningNotListed(s: E.Ctx)
    requires Runs.Reached(s) && E.HasCurrent(s)
    ensures s.heap[s.sched.current.value].status.Running?
  {
    Runs.ReachedInv(s);
    assert StatusInv(s, s.sched.current.value);
  }

  lemma FinishLists(s: E.Ctx, completed: seq<Finished>, failed: bool)
    requires Lists(completed, s) && E.HasCurrent(s)
    requires var c := s.sched.current.value;
      && s.heap[c].status.Running? && (s.heap[c].completion <==> c in s.sched.roots)
      && (!s.heap[c].completion ==>
            && s.heap[c].continuation.Some? && s.heap[c].continuation.value in s.heap
            && s.heap[s.heap[c].continuation.value].status == Awaiting(c))
    ensures var c, s' := s.sched.current.value, E.Finish(s, failed);
      && Quiet(s, s') && s'.sched.roots == s.sched.roots && s'.sched.ready == s.sched.ready
      && Lists(if c in s.sched.roots then [Finished(c, failed)] + completed else completed, s')
      && (s'.sched.current.Some? ==> E.HasCurrent(s'))
  {
    var c, s' := s.sched.current.value, E.Finish(s, failed);
    forall g | g in s.sched.completed && g in s.heap && s.heap[g].status.Returned?
      ensures g in s'.heap && s'.heap[g].status == s.heap[g].status
    {
    }
    if c in s.sched.roots {
      ListsMore(completed, s, s', Finished(c, failed));
    } else {
      ListsStay(completed, s, s');
    }
  }

  lemma ListsStay(completed: seq<Finished>, s: E.Ctx, s': E.Ctx)
    requires Lists(completed, s) && s'.sched.completed == s.sched.completed
    requires forall g :: g in s.sched.completed && g in s.heap && s.heap[g].status.Returned? ==>
      g in s'.heap && s'.heap[g].status == s.heap[g].status
    ensures Lists(completed, s')
  {
  }

  lemma ListsMore(completed: seq<Finished>, s: E.Ctx, s': E.Ctx, d: Finished)
    requires Lists(completed, s) && s'.sched.completed == [d.frame] + s.sched.completed
    requires d.frame in s'.heap && s'.heap[d.frame].status == Returned(d.failed)
    requires forall g :: g in s.sched.completed && g in s.heap && s.heap[g].status.Returned? ==>
      g in s'.heap && s'.heap[g].status == s.heap[g].status
    ensures Lists([d] + completed, s')
  {
  }

  lemma Draining(s: E.Ctx, completed: seq<Finished>)
    requires Runs.Reached(s) && Lists(completed, s) && s.sched.current == None
    ensures var s' := E.Drain(s);
      && Runs.Reached(s') && Lists([], s') && Quiet(s, s')
      && s'.sched == s.sched.(roots := s.sched.roots - FramesOf(completed), completed := [])
  {
    Runs.ReachedStep(s, Runs.Drain);
    SameFrames(completed, s);
  }

  lemma SameFrames(completed: seq<Finished>, s: E.Ctx)
    requires Lists(completed, s)
    ensures FramesOf(completed) == E.Members(s.sched.completed)
  {
    forall f | f in E.Members(s.sched.completed) ensures f in FramesOf(completed) {
      var i :| 0 <= i < |s.sched.completed| && s.sched.completed[i] == f;
      assert completed[i] in completed;
    }
  }

  /** What coroutine bodies do with Tasks, without the executor. */
  predicate OnTasks(act: Runs.Act) {
    act.Create? || act.Move? || act.Drop? || act.Await?
  }

  lemma Acting(s: E.Ctx, completed: seq<Finished>, act: Runs.Act)
    requires Runs.Reached(s) && Lists(completed, s) && OnTasks(act) && Runs.Possible(s, act)
    ensures var s' := Runs.Do(s, act);
      && Runs.Reached(s') && Lists(completed, s') && Quiet(s, s')
      && s'.sched.roots == s.sched.roots && s'.sched.ready == s.sched.ready
      && (E.HasCurrent(s) ==> E.HasCurrent(s'))
  {
    Runs.ReachedStep(s, act);
    ActQuiet(s, act);
    LivePlaces(Runs.Do(s, act));
    forall g | g in s.sched.completed
      ensures g in Runs.Do(s, act).heap && Runs.Do(s, act).heap[g].status == s.heap[g].status
    {
      ActKeepsFinished(s, act, g);
    }
  }

  lemma ActQuiet(s: E.Ctx, act: Runs.Act)
    requires OnTasks(act) && Runs.Possible(s, act)
    ensures var s' := Runs.Do(s, act);
      && Quiet(s, s') && s'.sched.roots == s.sched.roots && s'.sched.ready == s.sched.ready
      && s'.sched.completed == s.sched.completed && s'.sched.current.Some? == s.sched.current.Some?
  {
    match act
    case Create => assert E.Create(s).sched == s.sched.(outside := E.Create(s).sched.outside);
    case Move(f, to) => MoveQuiet(s, f, to);
    case Drop(f) => DropQuiet(s, f);
    case Await(f) => assert E.Await(s, f).sched == s.sched.(current := Some(f));
  }

  lemma MoveQuiet(s: E.Ctx, f: FrameId, to: Option<FrameId>)
    requires E.CanMove(s, f, to)
    ensures Quiet(s, E.Move(s, f, to)) && E.Move(s, f, to).sched == s.sched.(outside := E.Move(s, f, to).sched.outside)
  {
  }

  lemma DropQuiet(s: E.Ctx, f: FrameId)
    requires E.CanDrop(s, f)
    ensures Quiet(s, E.Drop(s, f)) && E.Drop(s, f).sched == s.sched.(outside := E.Drop(s, f).sched.outside)
  {
  }

  lemma ActKeepsFinished(s: E.Ctx, act: Runs.Act, g: FrameId)
    requires Runs.Reached(s) && g in s.sched.completed && g in s.heap && OnTasks(act) && Runs.Possible(s, act)
    ensures g in Runs.Do(s, act).heap && Runs.Do(s, act).heap[g].status == s.heap[g].status
  {
    Runs.ReachedInv(s);
    Steps.CompletedFrame(s, g);
    if act.Drop? {
      DropKeepsFinished(s, act.frame, g);
    } else {
      TasksKeepFinished(s, act, g);
    }
  }

  lemma DropKeepsFinished(s: E.Ctx, f: FrameId, g: FrameId)
    requires FramesInv(s) && g in s.sched.completed && g in s.heap && E.CanDrop(s, f)
    ensures g in E.Drop(s, f).heap && E.Drop(s, f).heap[g].status == s.heap[g].status
  {
    var t := E.TakeHandle(s, f);
    Steps.DropUnlisted(s, f);
    var gone := Steps.KillIsWithout(t, multiset{f});
    if g in gone {
      Steps.GoneUnlisted(t, multiset{f}, gone, g);
    }
  }

  lemma TasksKeepFinished(s: E.Ctx, act: Runs.Act, g: FrameId)
    requires FramesInv(s) && LifeInv(s) && g in s.heap && s.heap[g].status.Returned?
    requires OnTasks(act) && !act.Drop? && Runs.Possible(s, act)
    ensures g in Runs.Do(s, act).heap && Runs.Do(s, act).heap[g].status == s.heap[g].status
  {
    match act
    case Create =>
    case Move(f, to) => Steps.InHand(s, f);
    case Await(f) =>
      assert StatusInv(s, s.sched.current.value) && HoldsSoundly(s.heap, s.sched.current.value) && StatusInv(s, f);
  }
}
