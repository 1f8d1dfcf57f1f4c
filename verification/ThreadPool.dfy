/** `ThreadPool`: workers, submitters and `shutdown` over the atomic steps of the queue.

    The task queue is the step system of `MpmcQueue`, embedded unchanged: while a thread is
    inside `queue_.push` or `queue_.pop`, each of its pool steps is one queue step. The
    counting semaphore, the lifecycle mutex, the stop tokens and the error list are single
    steps. Any thread may submit and take errors, also a worker from inside the task it runs; one
    thread that is not a worker, `closer`, calls `shutdown`, as often as it likes. */
module ThreadPool {
  import opened Options
  import Q = MpmcQueue

  type Tid = Q.Tid

  datatype WorkerAt<T> =
    | Acquire
    | Popping
    | Running(ticket: nat, task: T, answer: Option<bool>)   // of the task's last submit
    | Catching(ticket: nat)
    | CheckStop
    | Exited

  datatype SubmitAt =
    | SubmitLock
    | CheckAccepting
    | Pushing
    | ReleaseOne
    | SubmitUnlock(ok: bool)

  datatype ShutdownAt =
    | ShutdownLock
    | Exchange
    | RequestStop(i: nat)
    | ReleaseAll
    | ShutdownUnlock
    | Join

  /** Who called `submit`: code outside the pool, or the task a worker is running. */
  datatype Home<T> = Outside | Nested(ticket: nat, running: T)

  /** Where a thread stands: in `worker_loop`, in `submit`, in `shutdown`, or outside the pool
      with the result of its last submit. */
  datatype Pc<T> =
    | Worker(work: WorkerAt<T>)
    | Submitter(call: SubmitAt, task: T, home: Home<T>)
    | Closer(close: ShutdownAt)
    | Away(accepted: bool)
  {
    predicate IsWorker() {
      Worker? || (Submitter? && home.Nested?)
    }

    /** A worker in the middle of a task. */
    predicate Busy() {
      (Worker? && work.Running?) || (Submitter? && home.Nested?)
    }

    function Job(): (nat, T)
      requires Busy()
    {
      if Worker? then (work.ticket, work.task) else (home.ticket, home.running)
    }

    predicate Catches() {
      Worker? && work.Catching?
    }

    /** Between taking and releasing the lifecycle mutex. */
    predicate HoldsLock() {
      || (Submitter? && !call.SubmitLock?)
      || (Closer? && !close.ShutdownLock? && !close.Join?)
    }

    predicate InPush() {
      Submitter? && call.Pushing?
    }

    predicate InPop() {
      Worker? && work.Popping?
    }

    /** A worker that has given up: its last pop found nothing. */
    predicate Finished() {
      Worker? && (work.CheckStop? || work.Exited?)
    }

    /** Shutdown has stopped the intake and not yet released its permits. */
    predicate Closing() {
      Closer? && (close.RequestStop? || close.ReleaseAll?)
    }
  }

  /** The pool's own members, besides the queue and the error list. */
  datatype Sync = Sync(
    permits: nat,                // available_
    accepting: bool,             // accepting_
    lock: Option<Tid>,           // lifecycle_mutex_
    stops: set<Tid>,             // workers whose stop token is set
    workers: seq<Tid>)           // workers_, cleared when shutdown has joined them

  /** What has happened so far; only `errors` is read by a step. */
  datatype Log<T> = Log(
    granted: seq<T>,             // tasks whose submit has released its permit
    tokens: bool,                // shutdown has released its permits
    ran: seq<Q.Delivery<T>>,     // tasks that were run, in order
    thrown: seq<nat>,            // tickets whose task threw, in order
    errors: seq<nat>,            // errors_, as tickets
    taken: seq<nat>)             // what take_errors has handed out, in order

  datatype Crew = Crew(members: set<Tid>, closer: Tid)

  datatype State<T> = State(queue: Q.State<T>, pcs: map<Tid, Pc<T>>, crew: Crew, sync: Sync, log: Log<T>)

  /** After the constructor: every worker is about to block on the semaphore. */
  ghost predicate Init<T>(s: State<T>) {
    && Q.Init(s.queue)
    && s.crew.members != {} && s.crew.closer !in s.crew.members
    && s.pcs.Keys == s.queue.pcs.Keys && s.crew.members + {s.crew.closer} <= s.pcs.Keys
    && (forall t :: t in s.pcs ==> s.pcs[t] == if t in s.crew.members then Worker(Acquire) else Away(false))
    && s.sync == Sync(0, true, None, {}, s.sync.workers)
    && (set w | w in s.sync.workers) == s.crew.members && |s.sync.workers| == |s.crew.members|
    && s.log == Log([], false, [], [], [], [])
  }

  /** `Submit(None)` is a submit of an empty function. `Go` lets a thread that is inside the pool
      take its next step; a task being run then ends, and `threw` says whether it throws. */
  datatype Action<T> =
    | Submit(task: Option<T>)
    | Shutdown
    | TakeErrors
    | Go(spurious: bool, threw: bool)

  /** The thread can take the action now: locks, the semaphore and joins may block it. */
  predicate Enabled<T>(s: State<T>, t: Tid, a: Action<T>) {
    && s.queue.Shape() && t in s.pcs && t in s.queue.pcs
    && match s.pcs[t]
       case Worker(at) => if a.Go? then CanWork(s.sync, s.queue.pcs[t], at) else at.Running? && !a.Shutdown?
       case Submitter(at, _, _) => a.Go? && CanSubmit(s.sync, s.queue.pcs[t], at)
       case Closer(at) => a.Go? && CanShutdown(s, at)
       case Away(_) => !a.Go? && (a.Shutdown? ==> t == s.crew.closer)
  }

  predicate CanWork<T>(sync: Sync, qc: Q.Pc<T>, at: WorkerAt<T>) {
    match at
    case Acquire => sync.permits > 0
    case Popping => !qc.Idle? && !Q.PushPc(qc)
    case Exited => false
    case _ => true
  }

  predicate CanSubmit<T>(sync: Sync, qc: Q.Pc<T>, at: SubmitAt) {
    match at
    case SubmitLock => sync.lock == None
    case Pushing => Q.PushPc(qc)
    case _ => true
  }

  predicate CanShutdown<T>(s: State<T>, at: ShutdownAt) {
    match at
    case ShutdownLock => s.sync.lock == None
    case Join => forall w :: w in s.sync.workers ==> w in s.pcs && s.pcs[w] == Worker(Exited)
    case _ => true
  }

  function Next<T>(s: State<T>, t: Tid, a: Action<T>): State<T>
    requires Enabled(s, t, a)
  {
    if !a.Go? then Call(s, t, a) else
    match s.pcs[t]
    case Worker(at) => WorkerStep(s, t, at, a.spurious, a.threw)
    case Submitter(at, task, home) => SubmitStep(s, t, at, task, home, a.spurious)
    case Closer(at) => ShutdownStep(s, t, at)
    case Away(_) => s
  }

  function HomeOf<T>(pc: Pc<T>): Home<T> {
    if pc.Worker? && pc.work.Running? then Nested(pc.work.ticket, pc.work.task) else Outside
  }

  /** Back where `submit` was called, with its answer. */
  function Answered<T>(home: Home<T>, ok: bool): Pc<T> {
    if home.Outside? then Away(ok) else Worker(Running(home.ticket, home.running, Some(ok)))
  }

  /** A call into the pool, from outside or from the task that the thread is running. */
  function Call<T>(s: State<T>, t: Tid, a: Action<T>): State<T>
    requires t in s.pcs && (s.pcs[t].Away? || (s.pcs[t].Worker? && s.pcs[t].Busy()))
  {
    match a
    case Submit(None) => s.(pcs := s.pcs[t := Answered(HomeOf(s.pcs[t]), false)])
    case Submit(Some(task)) => s.(pcs := s.pcs[t := Submitter(SubmitLock, task, HomeOf(s.pcs[t]))])
    case TakeErrors => s.(log := s.log.(taken := s.log.taken + s.log.errors, errors := []))
    case Shutdown => s.(pcs := s.pcs[t := Closer(ShutdownLock)])
    case Go(_, _) => s
  }

  function WorkerStep<T>(s: State<T>, t: Tid, at: WorkerAt<T>, spurious: bool, threw: bool): State<T>
    requires s.queue.Shape() && t in s.queue.pcs && CanWork(s.sync, s.queue.pcs[t], at)
  {
    match at
    case Acquire =>
      s.(pcs := s.pcs[t := Worker(Popping)], queue := Q.BeginPop(s.queue, t),
         sync := s.sync.(permits := s.sync.permits - 1))
    case Popping => InsidePop(s, t, Q.PopStep(s.queue, t, spurious))
    case Running(ticket, task, _) =>
      s.(pcs := s.pcs[t := Worker(if threw then Catching(ticket) else Acquire)],
         log := s.log.(ran := s.log.ran + [Q.Delivery(ticket, t, task)],
                       thrown := s.log.thrown + if threw then [ticket] else []))
    case Catching(ticket) =>
      s.(pcs := s.pcs[t := Worker(Acquire)], log := s.log.(errors := s.log.errors + [ticket]))
    case CheckStop => s.(pcs := s.pcs[t := Worker(if t in s.sync.stops then Exited else Acquire)])
  }

  /** A worker inside `queue_.pop`, whose step has produced `queue`. */
  function InsidePop<T>(s: State<T>, t: Tid, queue: Q.State<T>): State<T>
    requires t in queue.pcs
  {
    match queue.pcs[t]
    case Idle(PopOk(ticket, task)) => s.(queue := queue, pcs := s.pcs[t := Worker(Running(ticket, task, None))])
    case Idle(_) => s.(queue := queue, pcs := s.pcs[t := Worker(CheckStop)])
    case _ => s.(queue := queue)
  }

  function SubmitStep<T>(s: State<T>, t: Tid, at: SubmitAt, task: T, home: Home<T>, spurious: bool): State<T>
    requires s.queue.Shape() && t in s.queue.pcs && CanSubmit(s.sync, s.queue.pcs[t], at)
  {
    match at
    case SubmitLock =>
      s.(pcs := s.pcs[t := Submitter(CheckAccepting, task, home)], sync := s.sync.(lock := Some(t)))
    case CheckAccepting =>
      if s.sync.accepting then
        s.(pcs := s.pcs[t := Submitter(Pushing, task, home)], queue := Q.BeginPush(s.queue, t, task))
      else s.(pcs := s.pcs[t := Submitter(SubmitUnlock(false), task, home)])
    case Pushing => InsidePush(s, t, task, home, Q.PushStep(s.queue, t, spurious))
    case ReleaseOne =>
      s.(pcs := s.pcs[t := Submitter(SubmitUnlock(true), task, home)],
         sync := s.sync.(permits := s.sync.permits + 1),
         log := s.log.(granted := s.log.granted + [task]))
    case SubmitUnlock(ok) =>
      s.(pcs := s.pcs[t := Answered(home, ok)], sync := s.sync.(lock := None))
  }

  /** A submitter inside `queue_.push`, whose step has produced `queue`. */
  function InsidePush<T>(s: State<T>, t: Tid, task: T, home: Home<T>, queue: Q.State<T>): State<T>
    requires t in queue.pcs
  {
    match queue.pcs[t]
    case Idle(PushOk(_)) => s.(queue := queue, pcs := s.pcs[t := Submitter(ReleaseOne, task, home)])
    case Idle(_) => s.(queue := queue, pcs := s.pcs[t := Submitter(SubmitUnlock(false), task, home)])
    case _ => s.(queue := queue)
  }

  function Pushed<T>(s: State<T>, t: Tid, queue: Q.State<T>): State<T>
    requires t in s.pcs && s.pcs[t].Submitter? && t in queue.pcs
  {
    InsidePush(s, t, s.pcs[t].task, s.pcs[t].home, queue)
  }

  function ShutdownStep<T>(s: State<T>, t: Tid, at: ShutdownAt): State<T> {
    match at
    case ShutdownLock => s.(pcs := s.pcs[t := Closer(Exchange)], sync := s.sync.(lock := Some(t)))
    case Exchange =>
      s.(pcs := s.pcs[t := Closer(if s.sync.accepting then RequestStop(0) else ShutdownUnlock)],
         sync := s.sync.(accepting := false))
    case RequestStop(i) =>
      if i >= |s.sync.workers| then s.(pcs := s.pcs[t := Closer(ReleaseAll)])
      else
        s.(pcs := s.pcs[t := Closer(RequestStop(i + 1))],
           sync := s.sync.(stops := s.sync.stops + {s.sync.workers[i]}))
    case ReleaseAll =>
      s.(pcs := s.pcs[t := Closer(ShutdownUnlock)],
         sync := s.sync.(permits := s.sync.permits + |s.sync.workers|),
         log := s.log.(tokens := true))
    case ShutdownUnlock => s.(pcs := s.pcs[t := Closer(Join)], sync := s.sync.(lock := None))
    case Join => s.(pcs := s.pcs[t := Away(false)], sync := s.sync.(workers := []))
  }

  // ---------------------------------------------------------------- roles and the mutex

  ghost predicate Role<T>(t: Tid, pc: Pc<T>, qc: Q.Pc<T>, crew: Crew, lock: Option<Tid>) {
    && (t in crew.members <==> pc.IsWorker())
    && (pc.Closer? ==> t == crew.closer)
    && (pc.InPush() <==> Q.PushPc(qc))
    && (pc.InPush() ==> qc.val == pc.task)
    && (pc.InPop() <==> !Q.PushPc(qc) && !qc.Idle?)
    && (lock == Some(t) <==> pc.HoldsLock())
  }

  ghost predicate ThreadRole<T>(s: State<T>, t: Tid)
    requires t in s.pcs && t in s.queue.pcs
  {
    Role(t, s.pcs[t], s.queue.pcs[t], s.crew, s.sync.lock)
  }

  /** Who may be where, who is inside which queue call, and who holds the mutex. */
  ghost predicate RolesInv<T>(s: State<T>) {
    && s.queue.Shape()
    && s.pcs.Keys == s.queue.pcs.Keys && s.crew.members + {s.crew.closer} <= s.pcs.Keys
    && s.crew.members != {} && s.crew.closer !in s.crew.members
    && (s.sync.lock.Some? ==> s.sync.lock.value in s.pcs)
    && forall t {:trigger ThreadRole(s, t)} :: t in s.pcs ==> ThreadRole(s, t)
  }

  /** Only thread `t` moved, and the mutex changed hands only through `t`. */
  ghost predicate OnlyMoves<T>(s: State<T>, t: Tid, s': State<T>) {
    && t in s.pcs && t in s.queue.pcs && s'.queue.Shape() && s'.crew == s.crew
    && s'.pcs.Keys == s.pcs.Keys && s'.queue.pcs.Keys == s.queue.pcs.Keys
    && (forall u :: u in s.pcs && u != t ==> s'.pcs[u] == s.pcs[u])
    && (forall u :: u in s.queue.pcs && u != t ==> s'.queue.pcs[u] == s.queue.pcs[u])
    && (|| s'.sync.lock == s.sync.lock
        || (s.sync.lock == None && s'.sync.lock == Some(t))
        || (s.sync.lock == Some(t) && s'.sync.lock == None))
  }

  lemma MoveRoles<T>(s: State<T>, t: Tid, s': State<T>)
    requires RolesInv(s) && OnlyMoves(s, t, s') && ThreadRole(s', t)
    ensures RolesInv(s')
  {
    forall u | u in s'.pcs ensures ThreadRole(s', u) {
      assert ThreadRole(s, u);
    }
  }

  lemma PopMoves<T>(s: State<T>, t: Tid, queue: Q.State<T>)
    requires t in s.pcs && t in s.queue.pcs && ThreadRole(s, t) && s.pcs[t].InPop()
    requires Q.PopEffect(s.queue, t, queue)
    ensures OnlyMoves(s, t, InsidePop(s, t, queue)) && ThreadRole(InsidePop(s, t, queue), t)
  {
  }

  lemma PushMoves<T>(s: State<T>, t: Tid, queue: Q.State<T>)
    requires t in s.pcs && t in s.queue.pcs && ThreadRole(s, t) && s.pcs[t].InPush()
    requires Q.PushEffect(s.queue, t, queue)
    ensures var s' := Pushed(s, t, queue); OnlyMoves(s, t, s') && ThreadRole(s', t)
  {
  }

  lemma WorkerMoves<T>(s: State<T>, t: Tid, a: Action<T>)
    requires Enabled(s, t, a) && a.Go? && s.pcs[t].Worker? && !s.pcs[t].InPop() && ThreadRole(s, t)
    ensures OnlyMoves(s, t, Next(s, t, a)) && ThreadRole(Next(s, t, a), t)
  {
  }

  lemma SubmitMoves<T>(s: State<T>, t: Tid, a: Action<T>)
    requires Enabled(s, t, a) && s.pcs[t].Submitter? && !s.pcs[t].InPush() && ThreadRole(s, t)
    ensures OnlyMoves(s, t, Next(s, t, a)) && ThreadRole(Next(s, t, a), t)
  {
  }

  lemma ShutdownMoves<T>(s: State<T>, t: Tid, a: Action<T>)
    requires Enabled(s, t, a) && s.pcs[t].Closer? && ThreadRole(s, t)
    ensures OnlyMoves(s, t, Next(s, t, a)) && ThreadRole(Next(s, t, a), t)
  {
  }

  lemma CallMoves<T>(s: State<T>, t: Tid, a: Action<T>)
    requires Enabled(s, t, a) && !a.Go? && ThreadRole(s, t)
    ensures OnlyMoves(s, t, Next(s, t, a)) && ThreadRole(Next(s, t, a), t)
  {
  }

  lemma StepMoves<T>(s: State<T>, t: Tid, a: Action<T>)
    requires RolesInv(s) && Enabled(s, t, a)
    ensures OnlyMoves(s, t, Next(s, t, a)) && RolesInv(Next(s, t, a))
  {
    assert ThreadRole(s, t);
    OneMoves(s, t, a);
    MoveRoles(s, t, Next(s, t, a));
  }

  lemma OneMoves<T>(s: State<T>, t: Tid, a: Action<T>)
    requires Enabled(s, t, a) && ThreadRole(s, t)
    ensures OnlyMoves(s, t, Next(s, t, a)) && ThreadRole(Next(s, t, a), t)
  {
    if !a.Go? {
      CallMoves(s, t, a);
    } else if s.pcs[t].InPop() {
      Q.PopHasEffect(s.queue, t, a.spurious);
      PopMoves(s, t, Q.PopStep(s.queue, t, a.spurious));
    } else if s.pcs[t].InPush() {
      Q.PushHasEffect(s.queue, t, a.spurious);
      PushMoves(s, t, Q.PushStep(s.queue, t, a.spurious));
    } else if s.pcs[t].Worker? {
      WorkerMoves(s, t, a);
    } else if s.pcs[t].Submitter? {
      SubmitMoves(s, t, a);
    } else {
      ShutdownMoves(s, t, a);
    }
  }

  // ---------------------------------------------------------------- life cycle

  /** Submissions that have passed the `accepting_` check and not yet released their permit. */
  predicate Committed<T>(pc: Pc<T>) {
    pc.Submitter? && (pc.call.Pushing? || pc.call.ReleaseOne?)
  }

  ghost predicate LifeInv<T>(s: State<T>)
    requires s.crew.closer in s.pcs
  {
    var pc := s.pcs[s.crew.closer];
    && (s.log.tokens ==> !s.sync.accepting)
    && (!s.sync.accepting && !s.log.tokens <==> pc.Closing())
    && (pc.Closer? && (pc.close.ShutdownUnlock? || pc.close.Join?) ==> s.log.tokens)
    && (s.sync.accepting || pc.Closing() ==>
          (set w | w in s.sync.workers) == s.crew.members && |s.sync.workers| == |s.crew.members|)
    && (pc.Closing() && pc.close.RequestStop? ==>
          forall j :: 0 <= j < pc.close.i && j < |s.sync.workers| ==> s.sync.workers[j] in s.sync.stops)
    && (s.log.tokens || (pc.Closing() && pc.close.ReleaseAll?) ==> s.crew.members <= s.sync.stops)
    && (forall t :: t in s.pcs && Committed(s.pcs[t]) ==> s.sync.accepting)
  }

  /** A step of a thread outside `shutdown`, as far as the life cycle is concerned. */
  ghost predicate Quiet<T>(s: State<T>, t: Tid, s': State<T>)
    requires t in s.pcs && t in s'.pcs
  {
    && s'.sync.accepting == s.sync.accepting && s'.log.tokens == s.log.tokens
    && s'.sync.stops == s.sync.stops && s'.sync.workers == s.sync.workers
    && !s.pcs[t].Closer? && (s'.pcs[t].Closer? ==> s'.pcs[t].close.ShutdownLock?)
    && (Committed(s'.pcs[t]) ==> Committed(s.pcs[t]) || s.sync.accepting)
  }

  lemma WorkerQuiet<T>(s: State<T>, t: Tid, a: Action<T>)
    requires Enabled(s, t, a) && a.Go? && s.pcs[t].Worker?
    ensures t in Next(s, t, a).pcs && Quiet(s, t, Next(s, t, a))
  {
  }

  lemma SubmitQuiet<T>(s: State<T>, t: Tid, a: Action<T>)
    requires Enabled(s, t, a) && (s.pcs[t].Submitter? || !a.Go?)
    ensures t in Next(s, t, a).pcs && Quiet(s, t, Next(s, t, a))
  {
  }

  lemma LifeFrame<T>(s: State<T>, t: Tid, s': State<T>)
    requires s.crew.closer in s.pcs && LifeInv(s) && OnlyMoves(s, t, s') && Quiet(s, t, s')
    ensures s'.crew.closer in s'.pcs && LifeInv(s')
  {
  }

  lemma ShutdownLife<T>(s: State<T>, t: Tid, a: Action<T>)
    requires RolesInv(s) && LifeInv(s) && Enabled(s, t, a) && s.pcs[t].Closer?
    ensures s.crew.closer in Next(s, t, a).pcs && LifeInv(Next(s, t, a))
  {
    assert ThreadRole(s, t);
    match s.pcs[t].close
    case Exchange =>
      forall u | u in s.pcs ensures !Committed(s.pcs[u]) {
        assert ThreadRole(s, u);
      }
    case RequestStop(i) =>
      if i >= |s.sync.workers| {
        forall w | w in s.crew.members ensures w in s.sync.stops {
          assert w in s.sync.workers;
        }
      }
    case _ =>
  }

  lemma StepLife<T>(s: State<T>, t: Tid, a: Action<T>)
    requires RolesInv(s) && LifeInv(s) && Enabled(s, t, a)
    ensures s.crew.closer in Next(s, t, a).pcs && LifeInv(Next(s, t, a))
  {
    if s.pcs[t].Closer? {
      ShutdownLife(s, t, a);
    } else {
      StepMoves(s, t, a);
      if s.pcs[t].Worker? && a.Go? {
        WorkerQuiet(s, t, a);
      } else {
        SubmitQuiet(s, t, a);
      }
      LifeFrame(s, t, Next(s, t, a));
    }
  }

  // ---------------------------------------------------------------- tickets and permits

  /** The lock holder has claimed a ticket and not yet released its permit. */
  predicate Pending<T>(s: State<T>) {
    && s.sync.lock.Some? && s.sync.lock.value in s.pcs && s.sync.lock.value in s.queue.pcs
    && var t := s.sync.lock.value;
    Committed(s.pcs[t]) && (s.pcs[t].call.ReleaseOne? || s.queue.pcs[t].Producing())
  }

  /** Pushes are serialised: tickets are claimed in the order their permits are released, and at
      most one claimed ticket is still without its permit. */
  ghost predicate TicketInv<T>(s: State<T>) {
    var granted, claims := s.log.granted, s.queue.claims;
    && |claims| == s.queue.enq == |granted| + (if Pending(s) then 1 else 0)
    && (forall j :: 0 <= j < |granted| ==> granted[j] == claims[j].val)
    && (Pending(s) ==> claims[|granted|].val == s.pcs[s.sync.lock.value].task)
    && (forall t :: t in s.queue.pcs && s.queue.pcs[t].Producing() ==> s.queue.pcs[t].pos == |granted|)
  }

  /** A step of a thread that has no submission under way. */
  ghost predicate Uncommitted<T>(s: State<T>, t: Tid, s': State<T>)
    requires t in s.pcs && t in s'.pcs && t in s.queue.pcs && t in s'.queue.pcs
  {
    && !Committed(s.pcs[t]) && !Committed(s'.pcs[t])
    && !s.queue.pcs[t].Producing() && !s'.queue.pcs[t].Producing()
    && s'.queue.enq == s.queue.enq && s'.queue.claims == s.queue.claims
    && s'.log.granted == s.log.granted
  }

  lemma TicketFrame<T>(s: State<T>, t: Tid, s': State<T>)
    requires TicketInv(s) && OnlyMoves(s, t, s') && Uncommitted(s, t, s')
    ensures TicketInv(s')
  {
  }

  lemma WorkerUncommitted<T>(s: State<T>, t: Tid, a: Action<T>)
    requires Enabled(s, t, a) && a.Go? && s.pcs[t].Worker? && ThreadRole(s, t)
    ensures var s' := Next(s, t, a); t in s'.pcs && t in s'.queue.pcs && Uncommitted(s, t, s')
  {
    if s.pcs[t].InPop() {
      Q.PopHasEffect(s.queue, t, a.spurious);
    }
  }

  lemma OtherUncommitted<T>(s: State<T>, t: Tid, a: Action<T>)
    requires Enabled(s, t, a) && (s.pcs[t].Closer? || !a.Go?) && ThreadRole(s, t)
    ensures var s' := Next(s, t, a); t in s'.pcs && t in s'.queue.pcs && Uncommitted(s, t, s')
  {
  }

  lemma PushTickets<T>(s: State<T>, t: Tid, queue: Q.State<T>)
    requires RolesInv(s) && TicketInv(s) && t in s.pcs && ThreadRole(s, t) && s.pcs[t].InPush()
    requires Q.PushEffect(s.queue, t, queue)
    ensures TicketInv(Pushed(s, t, queue))
  {
    forall u | u in s.queue.pcs && s.queue.pcs[u].Producing() ensures u == t {
      assert ThreadRole(s, u);
    }
  }

  lemma SubmitTickets<T>(s: State<T>, t: Tid, a: Action<T>)
    requires RolesInv(s) && TicketInv(s) && Enabled(s, t, a) && s.pcs[t].Submitter? && !s.pcs[t].InPush()
    ensures TicketInv(Next(s, t, a))
  {
    forall u | u in s.queue.pcs ensures ThreadRole(s, u) {
    }
  }

  lemma StepTickets<T>(s: State<T>, t: Tid, a: Action<T>)
    requires RolesInv(s) && TicketInv(s) && Enabled(s, t, a)
    ensures TicketInv(Next(s, t, a))
  {
    assert ThreadRole(s, t);
    if s.pcs[t].InPush() {
      Q.PushHasEffect(s.queue, t, a.spurious);
      PushTickets(s, t, Q.PushStep(s.queue, t, a.spurious));
    } else if s.pcs[t].Submitter? {
      SubmitTickets(s, t, a);
    } else {
      StepMoves(s, t, a);
      if s.pcs[t].Worker? && a.Go? {
        WorkerUncommitted(s, t, a);
      } else {
        OtherUncommitted(s, t, a);
      }
      TicketFrame(s, t, Next(s, t, a));
    }
  }

  /** Every ticket whose permit is out is visible in the queue. */
  lemma GrantedIsPublished<T>(s: State<T>, ticket: nat)
    requires TicketInv(s) && ticket < |s.log.granted|
    ensures Q.Published(s.queue, ticket)
  {
  }

  /** Workers that hold a permit and have not claimed a ticket for it. */
  function Holders<T>(s: State<T>): set<Tid> {
    set w | w in s.crew.members && w in s.pcs && w in s.queue.pcs && s.pcs[w].InPop() && !s.queue.pcs[w].Consuming()
  }

  /** Workers that have not given up. */
  function Live<T>(s: State<T>): set<Tid> {
    set w | w in s.crew.members && w in s.pcs && !s.pcs[w].Finished()
  }

  /** The permit equation. Free permits and permits held by workers that have not popped yet are
      exactly the granted tickets nobody has claimed, plus, once shutdown has released its
      permits, one for each worker still alive. A worker gives up only after that release, with
      the queue drained. */
  ghost predicate PermitInv<T>(s: State<T>) {
    var granted, deq := |s.log.granted|, s.queue.deq;
    && deq <= granted
    && s.sync.permits + |Holders(s)| + deq == granted + (if s.log.tokens then |Live(s)| else 0)
    && forall w :: w in s.crew.members && w in s.pcs && s.pcs[w].Finished() ==> s.log.tokens && deq == granted
  }

  lemma CountHolders<T>(s: State<T>, t: Tid, s': State<T>)
    requires OnlyMoves(s, t, s')
    ensures |Holders(s')| + (if t in Holders(s) then 1 else 0) == |Holders(s)| + (if t in Holders(s') then 1 else 0)
  {
    forall u | u != t ensures u in Holders(s) <==> u in Holders(s') {
    }
    CardDiffer(Holders(s), Holders(s'), t);
  }

  lemma CountLive<T>(s: State<T>, t: Tid, s': State<T>)
    requires OnlyMoves(s, t, s')
    ensures |Live(s')| + (if t in Live(s) then 1 else 0) == |Live(s)| + (if t in Live(s') then 1 else 0)
  {
    forall u | u != t ensures u in Live(s) <==> u in Live(s') {
    }
    CardDiffer(Live(s), Live(s'), t);
  }

  lemma CardDiffer(xs: set<Tid>, ys: set<Tid>, t: Tid)
    requires forall u :: u != t ==> (u in xs <==> u in ys)
    ensures |ys| + (if t in xs then 1 else 0) == |xs| + (if t in ys then 1 else 0)
  {
    var both := xs - {t};
    assert both == ys - {t};
    assert xs == if t in xs then both + {t} else both;
    assert ys == if t in ys then both + {t} else both;
  }

  function Bit(b: bool): nat {
    if b then 1 else 0
  }

  /** What thread `t` itself contributes to the two sides of the permit equation. */
  function Owed<T>(s: State<T>, t: Tid): int
    requires t in s.pcs && t in s.queue.pcs
  {
    s.sync.permits + Bit(s.pcs[t].InPop() && !s.queue.pcs[t].Consuming()) + s.queue.deq
      - |s.log.granted| - (if s.log.tokens then Bit(!s.pcs[t].Finished()) else 0)
  }

  lemma PermitFrame<T>(s: State<T>, t: Tid, s': State<T>)
    requires PermitInv(s) && OnlyMoves(s, t, s') && s'.log.tokens == s.log.tokens
    requires if t in s.crew.members then Owed(s', t) == Owed(s, t)
             else s'.sync.permits + s'.queue.deq + |s.log.granted| == s.sync.permits + s.queue.deq + |s'.log.granted|
    requires s'.queue.deq <= |s'.log.granted|
    requires s.log.tokens && s.queue.deq == |s.log.granted| ==> s'.queue.deq == |s'.log.granted|
    requires t in s.crew.members && s'.pcs[t].Finished() ==> s.log.tokens && s'.queue.deq == |s'.log.granted|
    ensures PermitInv(s')
  {
    CountHolders(s, t, s');
    CountLive(s, t, s');
  }

  lemma PopPermits<T>(s: State<T>, t: Tid, queue: Q.State<T>)
    requires PermitInv(s) && t in s.pcs && t in s.queue.pcs && ThreadRole(s, t) && s.pcs[t].InPop()
    requires Q.PopEffect(s.queue, t, queue) && queue.deq <= queue.enq
    requires s.log.tokens ==> s.queue.enq == |s.log.granted|
    requires queue.pcs[t] == Q.Idle(Q.PopEmpty) ==> s.queue.deq >= |s.log.granted|
    ensures PermitInv(InsidePop(s, t, queue))
  {
    var s' := InsidePop(s, t, queue);
    PopMoves(s, t, queue);
    assert t in Holders(s) <==> !s.queue.pcs[t].Consuming();
    if t in Holders(s) {
      assert |Holders(s)| >= 1 by {
        CardDiffer(Holders(s), Holders(s) - {t}, t);
      }
    }
    PermitFrame(s, t, s');
  }

  lemma WorkerPermits<T>(s: State<T>, t: Tid, a: Action<T>)
    requires PermitInv(s) && Enabled(s, t, a) && a.Go? && ThreadRole(s, t) && s.pcs[t].Worker? && !s.pcs[t].InPop()
    requires s.log.tokens ==> s.crew.members <= s.sync.stops
    ensures PermitInv(Next(s, t, a))
  {
    WorkerMoves(s, t, a);
    PermitFrame(s, t, Next(s, t, a));
  }

  lemma SubmitPermits<T>(s: State<T>, t: Tid, a: Action<T>)
    requires PermitInv(s) && Enabled(s, t, a) && ThreadRole(s, t) && s.pcs[t].Submitter? && !s.pcs[t].InPush()
    requires Committed(s.pcs[t]) ==> !s.log.tokens
    ensures PermitInv(Next(s, t, a))
  {
    SubmitMoves(s, t, a);
    PermitFrame(s, t, Next(s, t, a));
  }

  lemma PushPermits<T>(s: State<T>, t: Tid, queue: Q.State<T>)
    requires PermitInv(s) && t in s.pcs && t in s.queue.pcs && ThreadRole(s, t) && s.pcs[t].InPush()
    requires Q.PushEffect(s.queue, t, queue)
    ensures PermitInv(Pushed(s, t, queue))
  {
    PushMoves(s, t, queue);
    PermitFrame(s, t, Pushed(s, t, queue));
  }

  lemma CallPermits<T>(s: State<T>, t: Tid, a: Action<T>)
    requires PermitInv(s) && Enabled(s, t, a) && ThreadRole(s, t) && !a.Go?
    ensures PermitInv(Next(s, t, a))
  {
    CallMoves(s, t, a);
    PermitFrame(s, t, Next(s, t, a));
  }

  lemma ShutdownPermits<T>(s: State<T>, t: Tid, a: Action<T>)
    requires PermitInv(s) && Enabled(s, t, a) && ThreadRole(s, t) && s.pcs[t].Closer?
    requires s.pcs[t].Closing() ==>
      !s.log.tokens && |s.sync.workers| == |s.crew.members| && s.crew.members <= s.pcs.Keys
    ensures PermitInv(Next(s, t, a))
  {
    var s' := Next(s, t, a);
    ShutdownMoves(s, t, a);
    if s.pcs[t].close.ReleaseAll? {
      CountHolders(s, t, s');
      assert Live(s') == s.crew.members;
    } else {
      PermitFrame(s, t, s');
    }
  }

  // ---------------------------------------------------------------- runs

  ghost predicate AtWork<T>(s: State<T>, ticket: nat)
    requires |s.queue.takes| == s.queue.deq && ticket < s.queue.deq
  {
    var w := s.queue.takes[ticket];
    w in s.pcs && s.pcs[w].Busy() && s.pcs[w].Job().0 == ticket
  }

  /** Tasks run at most once each, with the task that was submitted under their ticket, and a
      task that has left the queue has been run or is being run. */
  ghost predicate RunInv<T>(s: State<T>) {
    var q, ran := s.queue, s.log.ran;
    && |q.claims| == q.enq && |q.takes| == q.deq <= q.enq
    && (forall k :: 0 <= k < |ran| ==> Q.Released(q, ran[k].ticket) && ran[k].val == q.claims[ran[k].ticket].val)
    && (forall j, k :: 0 <= j < k < |ran| ==> ran[j].ticket != ran[k].ticket)
    && (forall ticket: nat :: Q.Released(q, ticket) ==> Q.Delivered(ran, ticket) || AtWork(s, ticket))
    && (forall w :: w in s.pcs && s.pcs[w].Busy() ==>
          var (ticket, task) := s.pcs[w].Job();
          && Q.Released(q, ticket) && !Q.Delivered(ran, ticket)
          && q.takes[ticket] == w && task == q.claims[ticket].val)
  }

  /** A pop hands its ticket over to the worker. */
  lemma DeliveryRuns<T>(s: State<T>, t: Tid, queue: Q.State<T>)
    requires RunInv(s) && t in s.pcs && t in s.queue.pcs && ThreadRole(s, t) && s.pcs[t].InPop()
    requires s.queue.Shape() && Q.ThreadInv(s.queue, t) && Q.PopEffect(s.queue, t, queue)
    requires s.queue.pcs[t].Consuming() && queue.pcs[t].Idle?
    ensures RunInv(InsidePop(s, t, queue))
  {
    var s' := InsidePop(s, t, queue);
    forall ticket: nat | Q.Released(queue, ticket)
      ensures Q.Delivered(s'.log.ran, ticket) || AtWork(s', ticket)
    {
      if s.queue.pcs[t].Consumes(ticket) {
        assert AtWork(s', ticket);
      } else {
        assert Q.Released(s.queue, ticket);
      }
    }
  }

  /** A pop goes on, or fails. */
  lemma PopGoesOn<T>(s: State<T>, t: Tid, queue: Q.State<T>)
    requires RunInv(s) && t in s.pcs && t in s.queue.pcs && ThreadRole(s, t) && s.pcs[t].InPop()
    requires Q.PopEffect(s.queue, t, queue) && queue.deq <= queue.enq
    requires s.queue.pcs[t].Consuming() ==> !queue.pcs[t].Idle?
    ensures RunInv(InsidePop(s, t, queue))
  {
    var s' := InsidePop(s, t, queue);
    forall ticket: nat
      ensures Q.Released(queue, ticket) <==> Q.Released(s.queue, ticket)
      ensures ticket < s.queue.deq ==> (AtWork(s', ticket) <==> AtWork(s, ticket))
    {
    }
  }

  lemma PopRuns<T>(s: State<T>, t: Tid, queue: Q.State<T>)
    requires RunInv(s) && t in s.pcs && t in s.queue.pcs && ThreadRole(s, t) && s.pcs[t].InPop()
    requires s.queue.Shape() && Q.ThreadInv(s.queue, t) && Q.PopEffect(s.queue, t, queue)
    requires queue.deq <= queue.enq
    ensures RunInv(InsidePop(s, t, queue))
  {
    if s.queue.pcs[t].Consuming() && queue.pcs[t].Idle? {
      DeliveryRuns(s, t, queue);
    } else {
      PopGoesOn(s, t, queue);
    }
  }

  /** A step that neither ends a task nor takes one out of the queue. */
  ghost predicate Idling<T>(s: State<T>, t: Tid, s': State<T>)
    requires t in s.pcs && t in s'.pcs && t in s.queue.pcs && t in s'.queue.pcs
  {
    && s'.log.ran == s.log.ran
    && s'.queue.deq == s.queue.deq && s'.queue.takes == s.queue.takes
    && s.queue.claims <= s'.queue.claims && |s'.queue.claims| == s'.queue.enq
    && !s.queue.pcs[t].Consuming() && !s'.queue.pcs[t].Consuming()
    && (s'.pcs[t].Busy() <==> s.pcs[t].Busy()) && (s.pcs[t].Busy() ==> s'.pcs[t].Job() == s.pcs[t].Job())
  }

  lemma RunFrame<T>(s: State<T>, t: Tid, s': State<T>)
    requires RunInv(s) && OnlyMoves(s, t, s') && Idling(s, t, s')
    ensures RunInv(s')
  {
    forall ticket: nat | ticket < s.queue.deq
      ensures Q.Released(s'.queue, ticket) <==> Q.Released(s.queue, ticket)
      ensures AtWork(s', ticket) <==> AtWork(s, ticket)
    {
    }
  }

  lemma WorkerRuns<T>(s: State<T>, t: Tid, a: Action<T>)
    requires RunInv(s) && Enabled(s, t, a) && a.Go? && ThreadRole(s, t) && s.pcs[t].Worker? && !s.pcs[t].InPop()
    ensures RunInv(Next(s, t, a))
  {
    var s' := Next(s, t, a);
    WorkerMoves(s, t, a);
    if s.pcs[t].work.Running? {
      var done := s.pcs[t].work.ticket;
      assert s'.log.ran[|s.log.ran|].ticket == done;
      forall ticket: nat ensures Q.Delivered(s'.log.ran, ticket) <==> Q.Delivered(s.log.ran, ticket) || ticket == done {
        RanOneMore(s.log.ran, Q.Delivery(done, t, s.pcs[t].work.task), ticket);
      }
    } else {
      RunFrame(s, t, s');
    }
  }

  lemma RanOneMore<T>(ran: seq<Q.Delivery<T>>, d: Q.Delivery<T>, ticket: nat)
    ensures Q.Delivered(ran + [d], ticket) <==> Q.Delivered(ran, ticket) || ticket == d.ticket
  {
    var more := ran + [d];
    if Q.Delivered(ran, ticket) {
      var k :| 0 <= k < |ran| && ran[k].ticket == ticket;
      assert more[k].ticket == ticket;
    }
    assert more[|ran|] == d;
  }

  lemma PushRuns<T>(s: State<T>, t: Tid, queue: Q.State<T>)
    requires RunInv(s) && t in s.pcs && t in s.queue.pcs && ThreadRole(s, t) && s.pcs[t].InPush()
    requires Q.PushEffect(s.queue, t, queue)
    ensures RunInv(Pushed(s, t, queue))
  {
    PushMoves(s, t, queue);
    RunFrame(s, t, Pushed(s, t, queue));
  }

  lemma OtherRuns<T>(s: State<T>, t: Tid, a: Action<T>)
    requires RunInv(s) && Enabled(s, t, a) && ThreadRole(s, t) && (s.pcs[t].Worker? ==> !a.Go?) && !s.pcs[t].InPush()
    ensures RunInv(Next(s, t, a))
  {
    OneMoves(s, t, a);
    RunFrame(s, t, Next(s, t, a));
  }

  // ---------------------------------------------------------------- errors

  predicate NoRepeats(xs: seq<nat>) {
    forall j, k :: 0 <= j < k < |xs| ==> xs[j] != xs[k]
  }

  /** The worker that took `ticket` is about to record its exception. */
  predicate Caught<T>(s: State<T>, ticket: nat) {
    && ticket < |s.queue.takes| && s.queue.takes[ticket] in s.pcs
    && s.pcs[s.queue.takes[ticket]] == Worker(Catching(ticket))
  }

  /** The exceptions recorded so far, in order: those handed out, then those in the pool. */
  function Recorded<T>(log: Log<T>): seq<nat> {
    log.taken + log.errors
  }

  /** The exceptions thrown are, one for one, those recorded and those about to be. */
  ghost predicate ErrorInv<T>(s: State<T>) {
    var thrown, recorded := s.log.thrown, Recorded(s.log);
    && |s.queue.takes| == s.queue.deq
    && NoRepeats(thrown) && NoRepeats(recorded)
    && (forall x :: x in thrown ==> Q.Delivered(s.log.ran, x))
    && (forall x :: x in recorded ==> x in thrown)
    && (forall x :: x in thrown ==> x in recorded || Caught(s, x))
    && (forall w :: w in s.pcs && s.pcs[w].Catches() ==>
          var x := s.pcs[w].work.ticket;
          x < s.queue.deq && s.queue.takes[x] == w && x in thrown && x !in recorded)
  }

  /** A step that neither throws nor records an exception. */
  ghost predicate NoNewError<T>(s: State<T>, t: Tid, s': State<T>)
    requires t in s.pcs && t in s'.pcs
  {
    && s'.log.thrown == s.log.thrown && s'.log.ran == s.log.ran && Recorded(s'.log) == Recorded(s.log)
    && s.queue.takes <= s'.queue.takes && |s'.queue.takes| == s'.queue.deq
    && !s.pcs[t].Catches() && !s'.pcs[t].Catches()
  }

  lemma ErrorFrame<T>(s: State<T>, t: Tid, s': State<T>)
    requires ErrorInv(s) && OnlyMoves(s, t, s') && NoNewError(s, t, s')
    ensures ErrorInv(s')
  {
    forall x | x in s'.log.thrown ensures x in Recorded(s'.log) || Caught(s', x) {
      assert x in Recorded(s.log) || Caught(s, x);
    }
  }

  lemma PopErrors<T>(s: State<T>, t: Tid, queue: Q.State<T>)
    requires ErrorInv(s) && t in s.pcs && t in s.queue.pcs && ThreadRole(s, t) && s.pcs[t].InPop()
    requires Q.PopEffect(s.queue, t, queue)
    ensures ErrorInv(InsidePop(s, t, queue))
  {
    PopMoves(s, t, queue);
    ErrorFrame(s, t, InsidePop(s, t, queue));
  }

  lemma PushErrors<T>(s: State<T>, t: Tid, queue: Q.State<T>)
    requires ErrorInv(s) && t in s.pcs && t in s.queue.pcs && ThreadRole(s, t) && s.pcs[t].InPush()
    requires Q.PushEffect(s.queue, t, queue)
    ensures ErrorInv(Pushed(s, t, queue))
  {
    PushMoves(s, t, queue);
    ErrorFrame(s, t, Pushed(s, t, queue));
  }

  /** A task ends, and may throw. */
  lemma EndErrors<T>(s: State<T>, t: Tid, a: Action<T>)
    requires RunInv(s) && ErrorInv(s) && Enabled(s, t, a) && a.Go? && s.pcs[t].Worker? && s.pcs[t].Busy()
    ensures ErrorInv(Next(s, t, a))
  {
    var s', ticket := Next(s, t, a), s.pcs[t].work.ticket;
    forall x: nat ensures Q.Delivered(s'.log.ran, x) <==> Q.Delivered(s.log.ran, x) || x == ticket {
      RanOneMore(s.log.ran, Q.Delivery(ticket, t, s.pcs[t].work.task), x);
    }
    forall x | x in s'.log.thrown ensures x in Recorded(s'.log) || Caught(s', x) {
      if x in s.log.thrown {
        assert x in Recorded(s.log) || Caught(s, x);
      }
    }
  }

  /** The exception of a task is recorded. */
  lemma CatchErrors<T>(s: State<T>, t: Tid, a: Action<T>)
    requires ErrorInv(s) && Enabled(s, t, a) && a.Go? && s.pcs[t].Catches()
    ensures ErrorInv(Next(s, t, a))
  {
    var s', ticket := Next(s, t, a), s.pcs[t].work.ticket;
    assert Recorded(s'.log) == Recorded(s.log) + [ticket];
    forall x | x in s'.log.thrown ensures x in Recorded(s'.log) || Caught(s', x) {
      assert x in Recorded(s.log) || Caught(s, x);
    }
  }

  lemma OtherErrors<T>(s: State<T>, t: Tid, a: Action<T>)
    requires ErrorInv(s) && Enabled(s, t, a) && ThreadRole(s, t) && !s.pcs[t].InPop() && !s.pcs[t].InPush()
    requires a.Go? ==> !s.pcs[t].Catches() && !(s.pcs[t].Worker? && s.pcs[t].Busy())
    ensures ErrorInv(Next(s, t, a))
  {
    OneMoves(s, t, a);
    assert Recorded(Next(s, t, a).log) == Recorded(s.log);
    ErrorFrame(s, t, Next(s, t, a));
  }

  // ---------------------------------------------------------------- executions

  ghost predicate Inv<T>(s: State<T>) {
    && Q.Inv(s.queue) && RolesInv(s) && LifeInv(s) && TicketInv(s) && PermitInv(s) && RunInv(s) && ErrorInv(s)
  }

  lemma InitRoles<T>(s: State<T>)
    requires Init(s)
    ensures RolesInv(s) && LifeInv(s)
  {
    forall t | t in s.pcs ensures ThreadRole(s, t) {
    }
  }

  lemma InitCounts<T>(s: State<T>)
    requires Init(s)
    ensures TicketInv(s) && PermitInv(s)
  {
    assert Holders(s) == {};
  }

  lemma InitLogs<T>(s: State<T>)
    requires Init(s)
    ensures RunInv(s) && ErrorInv(s)
  {
  }

  lemma InitInv<T>(s: State<T>)
    requires Init(s)
    ensures Inv(s)
  {
    Q.InitInv(s.queue);
    InitRoles(s);
    InitCounts(s);
    InitLogs(s);
  }

  lemma QueueKept<T>(s: State<T>, t: Tid, a: Action<T>)
    requires Q.Inv(s.queue) && RolesInv(s) && Enabled(s, t, a)
    ensures Q.Inv(Next(s, t, a).queue)
  {
    assert ThreadRole(s, t);
    match s.pcs[t]
    case Worker(Acquire) => Q.StepKeepsInv(s.queue, t, Q.StartPop);
    case Worker(Popping) => Q.PopKeepsInv(s.queue, t, a.spurious);
    case Submitter(CheckAccepting, task, _) => Q.StepKeepsInv(s.queue, t, Q.StartPush(task));
    case Submitter(Pushing, _, _) => Q.PushKeepsInv(s.queue, t, a.spurious);
    case _ =>
  }

  /** An empty pop finds every granted ticket claimed. */
  lemma EmptyPop<T>(s: State<T>, t: Tid, spurious: bool)
    requires Q.Inv(s.queue) && TicketInv(s) && t in s.queue.pcs
    requires !Q.PushPc(s.queue.pcs[t]) && !s.queue.pcs[t].Idle?
    requires Q.PopStep(s.queue, t, spurious).pcs[t] == Q.Idle(Q.PopEmpty)
    ensures s.queue.deq >= |s.log.granted|
  {
    assert s.queue.pcs[t].PopLoadSeq?;
    Q.PopFailsIff(s.queue, t, spurious);
    if s.queue.deq < |s.log.granted| {
      GrantedIsPublished(s, s.queue.deq);
    }
  }

  lemma InsidePopKeeps<T>(s: State<T>, t: Tid, a: Action<T>)
    requires Inv(s) && Enabled(s, t, a) && s.pcs[t].InPop()
    ensures PermitInv(Next(s, t, a)) && RunInv(Next(s, t, a)) && ErrorInv(Next(s, t, a))
  {
    assert ThreadRole(s, t);
    assert Q.ThreadInv(s.queue, t);
    var queue := Q.PopStep(s.queue, t, a.spurious);
    Q.PopHasEffect(s.queue, t, a.spurious);
    Q.PopKeepsInv(s.queue, t, a.spurious);
    if queue.pcs[t] == Q.Idle(Q.PopEmpty) {
      EmptyPop(s, t, a.spurious);
    }
    PopPermits(s, t, queue);
    PopRuns(s, t, queue);
    PopErrors(s, t, queue);
  }

  lemma InsidePushKeeps<T>(s: State<T>, t: Tid, a: Action<T>)
    requires PermitInv(s) && RunInv(s) && ErrorInv(s) && Enabled(s, t, a) && s.pcs[t].InPush() && ThreadRole(s, t)
    ensures PermitInv(Next(s, t, a)) && RunInv(Next(s, t, a)) && ErrorInv(Next(s, t, a))
  {
    var queue := Q.PushStep(s.queue, t, a.spurious);
    Q.PushHasEffect(s.queue, t, a.spurious);
    PushPermits(s, t, queue);
    PushRuns(s, t, queue);
    PushErrors(s, t, queue);
  }

  lemma OutsidePermits<T>(s: State<T>, t: Tid, a: Action<T>)
    requires Inv(s) && Enabled(s, t, a) && !s.pcs[t].InPop() && !s.pcs[t].InPush()
    ensures PermitInv(Next(s, t, a))
  {
    assert ThreadRole(s, t);
    if !a.Go? {
      CallPermits(s, t, a);
    } else if s.pcs[t].Worker? {
      WorkerPermits(s, t, a);
    } else if s.pcs[t].Submitter? {
      SubmitPermits(s, t, a);
    } else {
      ShutdownPermits(s, t, a);
    }
  }

  lemma OutsideKeeps<T>(s: State<T>, t: Tid, a: Action<T>)
    requires RunInv(s) && ErrorInv(s) && Enabled(s, t, a) && ThreadRole(s, t) && !s.pcs[t].InPop() && !s.pcs[t].InPush()
    ensures RunInv(Next(s, t, a)) && ErrorInv(Next(s, t, a))
  {
    if s.pcs[t].Worker? && a.Go? {
      WorkerRuns(s, t, a);
    } else {
      OtherRuns(s, t, a);
    }
    if s.pcs[t].Worker? && s.pcs[t].Busy() && a.Go? {
      EndErrors(s, t, a);
    } else if s.pcs[t].Catches() {
      CatchErrors(s, t, a);
    } else {
      OtherErrors(s, t, a);
    }
  }

  lemma StepKeepsInv<T>(s: State<T>, t: Tid, a: Action<T>)
    requires Inv(s) && Enabled(s, t, a)
    ensures Inv(Next(s, t, a))
  {
    QueueKept(s, t, a);
    StepMoves(s, t, a);
    StepLife(s, t, a);
    StepTickets(s, t, a);
    if s.pcs[t].InPop() {
      InsidePopKeeps(s, t, a);
    } else if s.pcs[t].InPush() {
      assert ThreadRole(s, t);
      InsidePushKeeps(s, t, a);
    } else {
      assert ThreadRole(s, t);
      OutsidePermits(s, t, a);
      OutsideKeeps(s, t, a);
    }
  }

  datatype Move<T> = Move(t: Tid, a: Action<T>)

  /** An interleaving of workers, submitters and shutdown, from the constructor on. */
  ghost predicate Execution<T>(states: seq<State<T>>, moves: seq<Move<T>>) {
    && |states| == |moves| + 1 && Init(states[0])
    && forall k {:trigger Follows(states, moves, k)} :: 0 <= k < |moves| ==> Follows(states, moves, k)
  }

  ghost predicate Follows<T>(states: seq<State<T>>, moves: seq<Move<T>>, k: nat)
    requires k < |moves| < |states|
  {
    Enabled(states[k], moves[k].t, moves[k].a) && states[k + 1] == Next(states[k], moves[k].t, moves[k].a)
  }

  lemma {:induction false} ReachableInv<T>(states: seq<State<T>>, moves: seq<Move<T>>, n: nat)
    requires Execution(states, moves) && n < |states|
    ensures Inv(states[n])
  {
    if n == 0 {
      InvAtFirst(states, moves, n);
    } else {
      ReachableInv(states, moves, n - 1);
      InvFollows(states, moves, n);
    }
  }

  lemma InvAtFirst<T>(states: seq<State<T>>, moves: seq<Move<T>>, n: nat)
    requires Execution(states, moves) && n == 0
    ensures Inv(states[n])
  {
    InitInv(states[0]);
  }

  lemma InvFollows<T>(states: seq<State<T>>, moves: seq<Move<T>>, n: nat)
    requires Execution(states, moves) && 0 < n <= |moves| && Inv(states[n - 1])
    ensures Inv(states[n])
  {
    assert Follows(states, moves, n - 1);
    StepKeepsInv(states[n - 1], moves[n - 1].t, moves[n - 1].a);
  }

  /** The permit equation holds in every reachable state. */
  lemma PermitsMatchTasks<T>(states: seq<State<T>>, moves: seq<Move<T>>, n: nat)
    requires Execution(states, moves) && n < |states|
    ensures var s := states[n];
      && s.queue.deq <= |s.log.granted| <= s.queue.enq <= |s.log.granted| + 1
      && (s.queue.enq == |s.log.granted| + 1 <==> Pending(s))
      && s.sync.permits + |Holders(s)| ==
           |s.log.granted| - s.queue.deq + (if s.log.tokens then |Live(s)| else 0)
  {
    ReachableInv(states, moves, n);
  }

  /** A worker's pop comes back empty only after shutdown has released its permits, with every
      accepted task claimed; the worker's stop token is then set, so it leaves the loop and no
      permit is wasted. */
  lemma PopFailsOnlyAfterRelease<T>(states: seq<State<T>>, moves: seq<Move<T>>, n: nat, w: Tid)
    requires Execution(states, moves) && n < |states|
    requires w in states[n].pcs && states[n].pcs[w].Finished()
    ensures var s := states[n];
      s.log.tokens && s.queue.deq == s.queue.enq == |s.log.granted| && w in s.sync.stops
  {
    ReachableInv(states, moves, n);
    assert ThreadRole(states[n], w);
    assert !Pending(states[n]);
  }

  /** No lost wakeup: if every worker waits on an empty semaphore, no accepted task is waiting. */
  lemma NoTaskLeftBehind<T>(states: seq<State<T>>, moves: seq<Move<T>>, n: nat)
    requires Execution(states, moves) && n < |states| && states[n].sync.permits == 0
    requires forall w :: w in states[n].crew.members ==> w in states[n].pcs && states[n].pcs[w] == Worker(Acquire)
    ensures states[n].queue.deq == |states[n].log.granted| && !states[n].log.tokens
  {
    var s := states[n];
    ReachableInv(states, moves, n);
    assert Holders(s) == {};
    assert Live(s) == s.crew.members;
  }

  /** Whoever holds the lifecycle mutex can go on. */
  lemma LockHolderGoesOn<T>(s: State<T>, a: Action<T>)
    requires RolesInv(s) && s.sync.lock.Some? && a.Go?
    ensures Enabled(s, s.sync.lock.value, a)
  {
    assert ThreadRole(s, s.sync.lock.value);
  }

  /** After that release no worker that has not returned is blocked, but for one that submits from
      its task and waits for the lifecycle mutex; and then the holder of the mutex can go on. */
  lemma NoWorkerBlocks<T>(states: seq<State<T>>, moves: seq<Move<T>>, n: nat, w: Tid, a: Action<T>)
    requires Execution(states, moves) && n < |states|
    requires states[n].log.tokens && w in states[n].crew.members && a.Go?
    ensures var s := states[n];
      && w in s.pcs
      && (|| s.pcs[w] == Worker(Exited) || Enabled(s, w, a)
          || (s.pcs[w].Submitter? && s.pcs[w].call.SubmitLock? && s.sync.lock.Some?
               && Enabled(s, s.sync.lock.value, a)))
  {
    ReachableInv(states, moves, n);
    var s := states[n];
    assert ThreadRole(s, w);
    if s.pcs[w] == Worker(Acquire) {
      assert !Pending(s);
      assert Holders(s) <= Live(s) - {w};
      CardDiffer(Live(s), Live(s) - {w}, w);
      CardMonotone(Holders(s), Live(s) - {w});
    } else if s.sync.lock.Some? {
      LockHolderGoesOn(s, a);
    }
  }

  lemma {:induction false} CardMonotone(xs: set<Tid>, ys: set<Tid>)
    requires xs <= ys
    ensures |xs| <= |ys|
    decreases xs
  {
    if xs != {} {
      var x :| x in xs;
      CardMonotone(xs - {x}, ys - {x});
    }
  }

  ghost predicate AllExited<T>(s: State<T>) {
    forall w :: w in s.crew.members ==> w in s.pcs && s.pcs[w] == Worker(Exited)
  }

  /** When all workers have returned, every accepted task has been run exactly once. */
  lemma DrainedExactlyOnce<T>(states: seq<State<T>>, moves: seq<Move<T>>, n: nat)
    requires Execution(states, moves) && n < |states|
    requires AllExited(states[n])
    ensures var s := states[n];
      && |s.log.ran| == |s.log.granted|
      && (forall j, k :: 0 <= j < k < |s.log.ran| ==> s.log.ran[j].ticket != s.log.ran[k].ticket)
      && (forall k :: 0 <= k < |s.log.ran| ==>
            s.log.ran[k].ticket < |s.log.granted| && s.log.ran[k].val == s.log.granted[s.log.ran[k].ticket])
      && (forall ticket: nat :: ticket < |s.log.granted| ==> Q.Delivered(s.log.ran, ticket))
      && multiset(Q.DeliveredValues(s.log.ran)) == multiset(s.log.granted)
  {
    var s := states[n];
    ReachableInv(states, moves, n);
    var w :| w in s.crew.members;
    PopFailsOnlyAfterRelease(states, moves, n, w);
    forall ticket: nat | ticket < s.queue.deq ensures Q.Delivered(s.log.ran, ticket) {
      NobodyConsumes(s, s.queue.takes[ticket], ticket);
      assert Q.Released(s.queue, ticket);
      var u := s.queue.takes[ticket];
      assert u in s.pcs ==> ThreadRole(s, u);
    }
    Q.SameValues(s.log.ran, s.queue.claims);
    assert Q.ClaimedValues(s.queue.claims) == s.log.granted;
    assert |multiset(Q.DeliveredValues(s.log.ran))| == |s.log.ran|;
  }

  lemma NobodyConsumes<T>(s: State<T>, u: Tid, ticket: nat)
    requires RolesInv(s)
    requires AllExited(s)
    ensures !(u in s.queue.pcs && s.queue.pcs[u].Consumes(ticket))
  {
    if u in s.queue.pcs {
      assert ThreadRole(s, u);
    }
  }

  /** The tickets of the tasks that threw in the first `n` moves, in order. */
  ghost function Throws<T>(states: seq<State<T>>, moves: seq<Move<T>>, n: nat): seq<nat>
    requires n <= |moves| < |states|
  {
    if n == 0 then [] else Throws(states, moves, n - 1) + ThrownBy(states[n - 1], moves[n - 1])
  }

  /** A task ends with an exception. */
  function ThrownBy<T>(s: State<T>, m: Move<T>): seq<nat> {
    if m.t in s.pcs && s.pcs[m.t].Worker? && s.pcs[m.t].Busy() && m.a.Go? && m.a.threw then [s.pcs[m.t].work.ticket]
    else []
  }

  lemma StepThrows<T>(s: State<T>, m: Move<T>)
    requires Enabled(s, m.t, m.a)
    ensures Next(s, m.t, m.a).log.thrown == s.log.thrown + ThrownBy(s, m)
  {
    assert s.log.thrown + [] == s.log.thrown;
  }

  lemma {:induction false} ThrownLogged<T>(states: seq<State<T>>, moves: seq<Move<T>>, n: nat)
    requires Execution(states, moves) && n <= |moves|
    ensures states[n].log.thrown == Throws(states, moves, n)
  {
    if n > 0 {
      ThrownLogged(states, moves, n - 1);
      assert Follows(states, moves, n - 1);
      StepThrows(states[n - 1], moves[n - 1]);
    }
  }

  lemma {:induction false} CountOnce(xs: seq<nat>, x: nat)
    requires NoRepeats(xs)
    ensures multiset(xs)[x] == Bit(x in xs)
  {
    if xs != [] {
      var rest, last := xs[..|xs| - 1], xs[|xs| - 1];
      assert xs == rest + [last];
      CountOnce(rest, x);
    }
  }

  lemma AllRecorded<T>(s: State<T>)
    requires RolesInv(s) && ErrorInv(s) && AllExited(s)
    ensures multiset(Recorded(s.log)) == multiset(s.log.thrown)
  {
    forall x: nat ensures multiset(Recorded(s.log))[x] == multiset(s.log.thrown)[x] {
      CountOnce(Recorded(s.log), x);
      CountOnce(s.log.thrown, x);
      if x < |s.queue.takes| && s.queue.takes[x] in s.pcs {
        assert ThreadRole(s, s.queue.takes[x]);
      }
    }
  }

  /** The exceptions thrown by tasks are, one for one, those handed out, those in the pool and
      those that a worker is about to record; when all workers have returned, those handed out and
      those in the pool. */
  lemma ErrorsConserved<T>(states: seq<State<T>>, moves: seq<Move<T>>, n: nat)
    requires Execution(states, moves) && n <= |moves|
    ensures var s, thrown := states[n], Throws(states, moves, n);
      && NoRepeats(thrown) && NoRepeats(Recorded(s.log))
      && (forall x :: x in Recorded(s.log) ==> x in thrown)
      && (forall x :: x in thrown ==> Q.Delivered(s.log.ran, x) && (x in Recorded(s.log) <==> !Caught(s, x)))
      && (AllExited(s) ==> multiset(Recorded(s.log)) == multiset(thrown))
  {
    ReachableInv(states, moves, n);
    ThrownLogged(states, moves, n);
    if AllExited(states[n]) {
      AllRecorded(states[n]);
    }
  }

  // ---------------------------------------------------------------- the answer of submit

  /** What a step adds to the tasks that will be run. */
  ghost function Added<T>(s: State<T>, s': State<T>): seq<T> {
    if s.log.granted <= s'.log.granted then s'.log.granted[|s.log.granted|..] else []
  }

  /** What the steps of thread `t` among `moves[i..j]` add. */
  ghost function AddedBy<T>(states: seq<State<T>>, moves: seq<Move<T>>, t: Tid, i: nat, j: nat): seq<T>
    requires i <= j <= |moves| < |states|
    decreases j
  {
    if i == j then []
    else AddedBy(states, moves, t, i, j - 1) + if moves[j - 1].t == t then Added(states[j - 1], states[j]) else []
  }

  /** The next step of a submit finds the pool closed, or the queue full. */
  ghost predicate Refuses<T>(s: State<T>, t: Tid) {
    && t in s.pcs && s.pcs[t].Submitter? && t in s.queue.pcs && |s.queue.takes| == s.queue.deq
    && match s.pcs[t].call
       case CheckAccepting => !s.sync.accepting
       case Pushing =>
         s.queue.pcs[t].PushLoadSeq? && s.queue.pcs[t].pos == s.queue.enq && !Q.Free(s.queue)
       case _ => false
  }

  /** That is so at one of the steps of thread `t` among `moves[i..j]`. */
  ghost predicate Refused<T>(states: seq<State<T>>, moves: seq<Move<T>>, t: Tid, i: nat, j: nat)
    requires i <= j <= |moves| < |states|
    decreases j
  {
    i < j && (Refused(states, moves, t, i, j - 1) || (moves[j - 1].t == t && Refuses(states[j - 1], t)))
  }

  /** The caller of `submit` stands where it stood before, and has the answer `ok`. */
  ghost predicate Returned<T>(before: Pc<T>, after: Pc<T>, ok: bool) {
    if before.Away? then after == Away(ok)
    else before.Worker? && before.work.Running?
         && after == Worker(Running(before.work.ticket, before.work.task, Some(ok)))
  }

  /** One step inside `submit`, which adds `more` and finds the pool closed or the queue full, or not. */
  ghost predicate Steps<T>(pc: Pc<T>, pc': Pc<T>, more: seq<T>, refuses: bool)
    requires pc.Submitter?
  {
    && more == (if pc.call.ReleaseOne? then [pc.task] else [])
    && (if pc.call.SubmitUnlock? then !refuses && !pc'.Submitter?
        else
          && pc'.Submitter? && pc'.task == pc.task && pc'.home == pc.home
          && (pc'.call == SubmitUnlock(true) <==> pc.call.ReleaseOne?)
          && (pc'.call == SubmitUnlock(false) <==> refuses))
  }

  ghost predicate GoesOn<T>(s: State<T>, t: Tid, s': State<T>)
    requires t in s.pcs && s.pcs[t].Submitter?
  {
    t in s'.pcs && Steps(s.pcs[t], s'.pcs[t], Added(s, s'), Refuses(s, t))
  }

  lemma PushingGoesOn<T>(s: State<T>, t: Tid, spurious: bool)
    requires Q.Inv(s.queue) && t in s.pcs && t in s.queue.pcs && s.pcs[t].InPush() && Q.PushPc(s.queue.pcs[t])
    ensures GoesOn(s, t, Pushed(s, t, Q.PushStep(s.queue, t, spurious)))
  {
    Q.PushHasEffect(s.queue, t, spurious);
    if s.queue.pcs[t].PushLoadSeq? {
      Q.PushGoesOnIff(s.queue, t, spurious);
    }
  }

  lemma SubmitGoesOn<T>(s: State<T>, t: Tid, a: Action<T>)
    requires Q.Inv(s.queue) && Enabled(s, t, a) && s.pcs[t].Submitter? && ThreadRole(s, t)
    ensures GoesOn(s, t, Next(s, t, a))
  {
    if s.pcs[t].call.Pushing? {
      PushingGoesOn(s, t, a.spurious);
    }
  }

  ghost predicate CalledFrom<T>(before: Pc<T>, home: Home<T>) {
    match home
    case Outside => before.Away?
    case Nested(ticket, running) =>
      before.Worker? && before.work.Running? && before.work.ticket == ticket && before.work.task == running
  }

  lemma SubmitStarts<T>(s: State<T>, t: Tid, task: T)
    requires Enabled(s, t, Submit(Some(task)))
    ensures var s' := Next(s, t, Submit(Some(task)));
      && s' == s.(pcs := s'.pcs) && t in s'.pcs && s'.pcs[t].Submitter? && s'.pcs[t].call == SubmitLock
      && s'.pcs[t].task == task && CalledFrom(s.pcs[t], s'.pcs[t].home)
  {
  }

  lemma SubmitEnds<T>(s: State<T>, t: Tid, a: Action<T>, before: Pc<T>)
    requires Enabled(s, t, a) && s.pcs[t].Submitter? && s.pcs[t].call.SubmitUnlock? && CalledFrom(before, s.pcs[t].home)
    ensures t in Next(s, t, a).pcs && Returned(before, Next(s, t, a).pcs[t], s.pcs[t].call.ok)
  {
  }

  /** An empty function is refused at once. */
  lemma EmptyRefused<T>(s: State<T>, t: Tid)
    requires Enabled(s, t, Submit(None))
    ensures var s' := Next(s, t, Submit(None));
      t in s'.pcs && s' == s.(pcs := s.pcs[t := s'.pcs[t]]) && Returned(s.pcs[t], s'.pcs[t], false)
  {
  }

  /** A submit of `task` that began with `moves[i]`, seen in `states[j]`: what it has added and whether
      it was refused fit its answer, or the place where it stands. */
  ghost predicate Answers<T>(states: seq<State<T>>, moves: seq<Move<T>>, t: Tid, task: T, i: nat, j: nat)
    requires i <= j <= |moves| < |states|
  {
    && t in states[i].pcs && t in states[j].pcs
    && Fits(states[i].pcs[t], states[j].pcs[t], task,
            AddedBy(states, moves, t, i, j), Refused(states, moves, t, i, j))
  }

  /** A submit that was called at `before` stands at `pc`, has added `added`, and was refused or not. */
  ghost predicate Fits<T>(before: Pc<T>, pc: Pc<T>, task: T, added: seq<T>, refused: bool) {
    if pc.Submitter? then
      && pc.task == task && CalledFrom(before, pc.home)
      && added == (if pc.call == SubmitUnlock(true) then [task] else [])
      && (refused <==> pc.call == SubmitUnlock(false))
    else
      Returned(before, pc, !refused) && added == if refused then [] else [task]
  }

  lemma FitsOn<T>(before: Pc<T>, pc: Pc<T>, pc': Pc<T>, task: T,
                  added: seq<T>, refused: bool, more: seq<T>, refuses: bool)
    requires Fits(before, pc, task, added, refused) && pc.Submitter? && Steps(pc, pc', more, refuses)
    requires pc.call.SubmitUnlock? ==> Returned(before, pc', pc.call.ok)
    ensures Fits(before, pc', task, added + more, refused || refuses)
  {
    assert added + [] == added && [] + more == more;
  }

  lemma OtherLeaves<T>(s: State<T>, u: Tid, a: Action<T>, t: Tid)
    requires Inv(s) && Enabled(s, u, a) && t in s.pcs && t != u
    ensures t in Next(s, u, a).pcs && Next(s, u, a).pcs[t] == s.pcs[t]
  {
    StepMoves(s, u, a);
  }

  lemma AnswersFirst<T>(states: seq<State<T>>, moves: seq<Move<T>>, t: Tid, task: T, i: nat)
    requires Execution(states, moves) && i < |moves| && moves[i] == Move(t, Submit(Some(task)))
    ensures Answers(states, moves, t, task, i, i + 1)
  {
    assert Follows(states, moves, i);
    SubmitStarts(states[i], t, task);
    assert AddedBy(states, moves, t, i, i) == [];
  }

  lemma OwnStepAnswers<T>(states: seq<State<T>>, moves: seq<Move<T>>, t: Tid, task: T, i: nat, j: nat)
    requires i < j < |moves| < |states| && moves[j].t == t
    requires Answers(states, moves, t, task, i, j) && states[j].pcs[t].Submitter?
    requires GoesOn(states[j], t, states[j + 1])
    requires states[j].pcs[t].call.SubmitUnlock? ==>
      Returned(states[i].pcs[t], states[j + 1].pcs[t], states[j].pcs[t].call.ok)
    ensures Answers(states, moves, t, task, i, j + 1)
  {
    FitsOn(states[i].pcs[t], states[j].pcs[t], states[j + 1].pcs[t], task, AddedBy(states, moves, t, i, j),
           Refused(states, moves, t, i, j), Added(states[j], states[j + 1]), Refuses(states[j], t));
  }

  lemma OtherStepAnswers<T>(states: seq<State<T>>, moves: seq<Move<T>>, t: Tid, task: T, i: nat, j: nat)
    requires i < j < |moves| < |states| && moves[j].t != t
    requires Answers(states, moves, t, task, i, j) && states[j].pcs[t].Submitter?
    requires t in states[j + 1].pcs && states[j + 1].pcs[t] == states[j].pcs[t]
    ensures Answers(states, moves, t, task, i, j + 1)
  {
  }

  lemma AnswersOn<T>(states: seq<State<T>>, moves: seq<Move<T>>, t: Tid, task: T, i: nat, j: nat)
    requires Execution(states, moves) && i < j < |moves|
    requires Answers(states, moves, t, task, i, j) && states[j].pcs[t].Submitter?
    ensures Answers(states, moves, t, task, i, j + 1)
  {
    StepGoesOn(states, moves, t, states[i].pcs[t], j);
    if moves[j].t == t {
      OwnStepAnswers(states, moves, t, task, i, j);
    } else {
      OtherStepAnswers(states, moves, t, task, i, j);
    }
  }

  lemma StepGoesOn<T>(states: seq<State<T>>, moves: seq<Move<T>>, t: Tid, before: Pc<T>, j: nat)
    requires Execution(states, moves) && j < |moves| && t in states[j].pcs && states[j].pcs[t].Submitter?
    requires CalledFrom(before, states[j].pcs[t].home)
    ensures t in states[j + 1].pcs
    ensures moves[j].t != t ==> states[j + 1].pcs[t] == states[j].pcs[t]
    ensures moves[j].t == t ==> GoesOn(states[j], t, states[j + 1])
    ensures moves[j].t == t && states[j].pcs[t].call.SubmitUnlock? ==>
      Returned(before, states[j + 1].pcs[t], states[j].pcs[t].call.ok)
  {
    var s, m := states[j], moves[j];
    ReachableInv(states, moves, j);
    assert Follows(states, moves, j);
    if m.t == t {
      assert ThreadRole(s, t);
      SubmitGoesOn(s, t, m.a);
      if s.pcs[t].call.SubmitUnlock? {
        SubmitEnds(s, t, m.a, before);
      }
    } else {
      OtherLeaves(s, m.t, m.a, t);
    }
  }

  /** `submit` returns true iff its own steps added exactly its task to those that will be run, and
      then it was not refused; it returns false iff it found the pool closed or the queue full,
      and then it added nothing. This holds in every interleaving, and for calls from inside a task
      too. */
  lemma {:induction false} SubmitAnswers<T>(states: seq<State<T>>, moves: seq<Move<T>>, t: Tid, task: T, i: nat, j: nat)
    requires Execution(states, moves) && i < j <= |moves| && moves[i] == Move(t, Submit(Some(task)))
    requires forall k :: i < k < j ==> t in states[k].pcs && states[k].pcs[t].Submitter?
    ensures Answers(states, moves, t, task, i, j)
    decreases j
  {
    if i + 1 == j {
      AnswersFirst(states, moves, t, task, i);
    } else {
      SubmitAnswers(states, moves, t, task, i, j - 1);
      AnswersOn(states, moves, t, task, i, j - 1);
    }
  }

  lemma GrantedStep<T>(states: seq<State<T>>, moves: seq<Move<T>>, k: nat)
    requires Execution(states, moves) && k < |moves|
    ensures states[k].log.granted <= states[k + 1].log.granted
  {
    assert Follows(states, moves, k);
  }

  lemma {:induction false} GrantedGrows<T>(states: seq<State<T>>, moves: seq<Move<T>>, k: nat, n: nat)
    requires Execution(states, moves) && k <= n <= |moves|
    ensures states[k].log.granted <= states[n].log.granted
    decreases n
  {
    if k < n {
      GrantedGrows(states, moves, k, n - 1);
      GrantedStep(states, moves, n - 1);
    }
  }

  /** Whatever thread `t` added, it added with one of its steps. */
  lemma {:induction false} AddedAt<T>(states: seq<State<T>>, moves: seq<Move<T>>, t: Tid, task: T, i: nat, j: nat)
      returns (k: nat)
    requires Execution(states, moves) && i <= j <= |moves| && AddedBy(states, moves, t, i, j) == [task]
    ensures i <= k < j && moves[k].t == t && states[k + 1].log.granted == states[k].log.granted + [task]
    decreases j
  {
    GrantedStep(states, moves, j - 1);
    OnlyOne(AddedBy(states, moves, t, i, j - 1),
            if moves[j - 1].t == t then Added(states[j - 1], states[j]) else [], task);
    if AddedBy(states, moves, t, i, j - 1) == [task] {
      k := AddedAt(states, moves, t, task, i, j - 1);
    } else {
      k := j - 1;
    }
  }

  lemma OnlyOne<T>(a: seq<T>, b: seq<T>, x: T)
    requires a + b == [x]
    ensures (a == [x] && b == []) || (a == [] && b == [x])
  {
    assert |a + b| == |a| + |b| == 1;
    assert a == (a + b)[..|a|] && b == (a + b)[|a|..];
  }

  /** No ticket is run twice, and `ticket` has been run with its task if `over`. */
  ghost predicate RunOnce<T>(log: Log<T>, ticket: nat, over: bool)
    requires ticket < |log.granted|
  {
    && (forall x, y :: 0 <= x < y < |log.ran| ==> log.ran[x].ticket != log.ran[y].ticket)
    && (over ==> exists x :: 0 <= x < |log.ran| && log.ran[x].ticket == ticket && log.ran[x].val == log.granted[ticket])
  }

  /** A task whose submit returned true has a ticket of its own, which the submit drew with its step
      `moves[k]`; and once all workers have returned, that ticket has been run, once. */
  lemma AcceptedIsRun<T>(states: seq<State<T>>, moves: seq<Move<T>>, t: Tid, task: T, i: nat, j: nat, n: nat)
      returns (k: nat)
    requires Execution(states, moves) && i < j <= n <= |moves| && moves[i] == Move(t, Submit(Some(task)))
    requires forall m :: i < m < j ==> t in states[m].pcs && states[m].pcs[t].Submitter?
    requires t in states[i].pcs && t in states[j].pcs && Returned(states[i].pcs[t], states[j].pcs[t], true)
    ensures i < k < j && moves[k].t == t && states[k + 1].log.granted == states[k].log.granted + [task]
    ensures var log, ticket := states[n].log, |states[k].log.granted|;
      && ticket < |log.granted| && log.granted[ticket] == task
      && RunOnce(log, ticket, AllExited(states[n]))
  {
    k := AcceptedAt(states, moves, t, task, i, j);
    GrantedGrows(states, moves, k + 1, n);
    RanOnce(states, moves, n, |states[k].log.granted|);
  }

  lemma AcceptedAt<T>(states: seq<State<T>>, moves: seq<Move<T>>, t: Tid, task: T, i: nat, j: nat) returns (k: nat)
    requires Execution(states, moves) && i < j <= |moves| && moves[i] == Move(t, Submit(Some(task)))
    requires forall m :: i < m < j ==> t in states[m].pcs && states[m].pcs[t].Submitter?
    requires t in states[i].pcs && t in states[j].pcs && Returned(states[i].pcs[t], states[j].pcs[t], true)
    ensures i < k < j && moves[k].t == t && states[k + 1].log.granted == states[k].log.granted + [task]
  {
    AcceptedAdds(states, moves, t, task, i, j);
    k := AddedAt(states, moves, t, task, i, j);
    CallAddsNothing(states, moves, t, task, i);
  }

  lemma AcceptedAdds<T>(states: seq<State<T>>, moves: seq<Move<T>>, t: Tid, task: T, i: nat, j: nat)
    requires Execution(states, moves) && i < j <= |moves| && moves[i] == Move(t, Submit(Some(task)))
    requires forall m :: i < m < j ==> t in states[m].pcs && states[m].pcs[t].Submitter?
    requires t in states[i].pcs && t in states[j].pcs && Returned(states[i].pcs[t], states[j].pcs[t], true)
    ensures AddedBy(states, moves, t, i, j) == [task]
  {
    SubmitAnswers(states, moves, t, task, i, j);
  }

  lemma CallAddsNothing<T>(states: seq<State<T>>, moves: seq<Move<T>>, t: Tid, task: T, i: nat)
    requires Execution(states, moves) && i < |moves| && moves[i] == Move(t, Submit(Some(task)))
    ensures states[i + 1].log == states[i].log
  {
    assert Follows(states, moves, i);
  }

  lemma RanOnce<T>(states: seq<State<T>>, moves: seq<Move<T>>, n: nat, ticket: nat)
    requires Execution(states, moves) && n <= |moves| && ticket < |states[n].log.granted|
    ensures RunOnce(states[n].log, ticket, AllExited(states[n]))
  {
    if AllExited(states[n]) {
      DrainedExactlyOnce(states, moves, n);
      var ran := states[n].log.ran;
      assert Q.Delivered(ran, ticket);
    } else {
      ReachableInv(states, moves, n);
    }
  }

  /** The steps that a submit still has before it, if nothing sets its push back. */
  function SubmitLeft<T>(pc: Pc<T>, qc: Q.Pc<T>): nat {
    if !pc.Submitter? then 0
    else
      match pc.call
      case SubmitLock => 10
      case CheckAccepting => 9
      case Pushing => 3 + Q.StepsLeft(qc)
      case ReleaseOne => 2
      case SubmitUnlock(_) => 1
  }

  /** Every step of a submit brings it nearer to its end, but for the setbacks of its push. */
  lemma SubmitAdvances<T>(s: State<T>, t: Tid, a: Action<T>)
    requires Enabled(s, t, a) && s.pcs[t].Submitter?
    ensures var s' := Next(s, t, a);
      && t in s'.pcs && t in s'.queue.pcs
      && SubmitLeft(s'.pcs[t], s'.queue.pcs[t]) + 1 <=
           SubmitLeft(s.pcs[t], s.queue.pcs[t])
           + if s.pcs[t].InPush() && (Q.Retries(s.queue, t) || a.spurious) then 2 else 0
  {
    if s.pcs[t].InPush() {
      Q.StepAdvances(s.queue, t, a.spurious);
    }
  }

  /** `take_errors` hands out every error that is there, and leaves none. */
  lemma ErrorsTaken<T>(states: seq<State<T>>, moves: seq<Move<T>>, k: nat)
    requires Execution(states, moves) && k < |moves| && moves[k].a.TakeErrors?
    ensures var s, s' := states[k], states[k + 1];
      && s'.log.errors == [] && Recorded(s'.log) == Recorded(s.log)
      && s' == s.(log := s.log.(errors := s'.log.errors, taken := s'.log.taken))
  {
    assert Follows(states, moves, k);
  }

  // ---------------------------------------------------------------- the return of shutdown

  /** A worker that is no longer in the list has returned. */
  ghost predicate JoinInv<T>(s: State<T>) {
    forall w :: w in s.crew.members && w !in s.sync.workers ==> w in s.pcs && s.pcs[w] == Worker(Exited)
  }

  lemma StepKeepsWorkers<T>(s: State<T>, t: Tid, a: Action<T>)
    requires Enabled(s, t, a) && !(s.pcs[t].Closer? && s.pcs[t].close.Join?)
    ensures Next(s, t, a).sync.workers == s.sync.workers
    ensures s.pcs[t] != Worker(Exited)
  {
  }

  lemma StepKeepsJoin<T>(s: State<T>, t: Tid, a: Action<T>)
    requires RolesInv(s) && JoinInv(s) && Enabled(s, t, a)
    ensures JoinInv(Next(s, t, a))
  {
    StepMoves(s, t, a);
    if s.pcs[t].Closer? && s.pcs[t].close.Join? {
      assert ThreadRole(s, t);
    } else {
      StepKeepsWorkers(s, t, a);
    }
  }

  lemma {:induction false} ReachableJoin<T>(states: seq<State<T>>, moves: seq<Move<T>>, n: nat)
    requires Execution(states, moves) && n < |states|
    ensures JoinInv(states[n])
  {
    if n > 0 {
      ReachableJoin(states, moves, n - 1);
      JoinFollows(states, moves, n);
    } else {
      JoinAtFirst(states, moves, n);
    }
  }

  lemma ReachableRoles<T>(states: seq<State<T>>, moves: seq<Move<T>>, n: nat)
    requires Execution(states, moves) && n < |states|
    ensures RolesInv(states[n])
  {
    ReachableInv(states, moves, n);
  }

  lemma JoinAtFirst<T>(states: seq<State<T>>, moves: seq<Move<T>>, n: nat)
    requires Execution(states, moves) && n == 0
    ensures JoinInv(states[n])
  {
  }

  lemma JoinFollows<T>(states: seq<State<T>>, moves: seq<Move<T>>, n: nat)
    requires Execution(states, moves) && 0 < n <= |moves| && JoinInv(states[n - 1])
    ensures JoinInv(states[n])
  {
    ReachableRoles(states, moves, n - 1);
    assert Follows(states, moves, n - 1);
    StepKeepsJoin(states[n - 1], moves[n - 1].t, moves[n - 1].a);
  }

  /** When `shutdown` returns, all workers have returned, and every task that was ever accepted has been
      run; no task is accepted from then on. */
  lemma ShutdownReturns<T>(states: seq<State<T>>, moves: seq<Move<T>>, n: nat)
    requires Execution(states, moves) && n < |moves| && moves[n].t in states[n].pcs
    requires states[n].pcs[moves[n].t] == Closer(Join)
    ensures var s, s' := states[n], states[n + 1];
      && AllExited(s') && !s'.sync.accepting && s'.sync.workers == [] && s'.log == s.log
      && |s'.log.ran| == |s'.log.granted| && multiset(Q.DeliveredValues(s'.log.ran)) == multiset(s'.log.granted)
      && moves[n].t in s'.pcs && s'.pcs[moves[n].t].Away?
  {
    ReachableInv(states, moves, n);
    ReachableJoin(states, moves, n);
    JoinStep(states, moves, n);
    DrainedExactlyOnce(states, moves, n);
  }

  lemma JoinStep<T>(states: seq<State<T>>, moves: seq<Move<T>>, n: nat)
    requires Execution(states, moves) && n < |moves| && moves[n].t in states[n].pcs
    requires states[n].pcs[moves[n].t] == Closer(Join)
    requires JoinInv(states[n]) && RolesInv(states[n]) && LifeInv(states[n])
    ensures var s, s' := states[n], states[n + 1];
      && AllExited(s) && AllExited(s') && !s'.sync.accepting && s'.sync.workers == [] && s'.log == s.log
      && moves[n].t in s'.pcs && s'.pcs[moves[n].t].Away?
  {
    assert Follows(states, moves, n);
    assert ThreadRole(states[n], moves[n].t);
  }

  /** The steps that `shutdown` still has before it. */
  function ShutdownLeft<T>(pc: Pc<T>, workers: nat): nat {
    if !pc.Closer? then 0
    else
      match pc.close
      case ShutdownLock => workers + 6
      case Exchange => workers + 5
      case RequestStop(i) => if i < workers then workers - i + 4 else 4
      case ReleaseAll => 3
      case ShutdownUnlock => 2
      case Join => 1
  }

  lemma ShutdownAdvances<T>(s: State<T>, t: Tid, a: Action<T>)
    requires Enabled(s, t, a) && s.pcs[t].Closer?
    ensures var s' := Next(s, t, a);
      && t in s'.pcs
      && ShutdownLeft(s'.pcs[t], |s'.sync.workers|) < ShutdownLeft(s.pcs[t], |s.sync.workers|)
  {
  }

  // ---------------------------------------------------------------- shutdown terminates

  /** How many steps a worker can still take before it exits, if nobody else claims a ticket. */
  function Weight<T>(pc: Pc<T>, qc: Q.Pc<T>, deq: nat): nat {
    if !pc.IsWorker() then 0
    else if pc.Submitter? then
      match pc.call
      case SubmitLock => 11
      case CheckAccepting => 10
      case SubmitUnlock(_) => 9
      case _ => 0
    else
    match pc.work
    case Exited => 0
    case CheckStop => 1
    case Acquire => 6
    case Catching(_) => 7
    case Running(_, _, _) => 8
    case Popping =>
      match qc
      case PopLoadPos => 5
      case PopLoadSeq(pos) => if pos == deq then 4 else 8
      case PopCas(pos) => if pos == deq then 3 else 7
      case PopReadData(_) => 10
      case PopStoreSeq(_, _) => 9
      case _ => 0
  }

  function TotalWeight<T>(s: State<T>, ws: seq<Tid>): nat {
    if ws == [] then 0
    else
      var w := ws[|ws| - 1];
      TotalWeight(s, ws[..|ws| - 1]) +
      (if w in s.pcs && w in s.queue.pcs then Weight(s.pcs[w], s.queue.pcs[w], s.queue.deq) else 0)
  }

  /** Claiming one of `tickets` tickets may make each of `n` workers up to seven steps heavier. */
  function Budget(n: nat, tickets: int): nat
    decreases tickets
  {
    if tickets <= 0 then 0 else 7 * n + 1 + Budget(n, tickets - 1)
  }

  /** Bounds the steps left until every worker in `ws` has exited. */
  function Remaining<T>(s: State<T>, ws: seq<Tid>): nat {
    Budget(|ws|, s.queue.enq - s.queue.deq) + TotalWeight(s, ws)
  }

  lemma {:induction false} WeightsGrow<T>(s: State<T>, t: Tid, s': State<T>, ws: seq<Tid>)
    requires OnlyMoves(s, t, s') && s.pcs.Keys == s.queue.pcs.Keys
    requires Weight(s'.pcs[t], s'.queue.pcs[t], s'.queue.deq) <= Weight(s.pcs[t], s.queue.pcs[t], s.queue.deq) + 7
    ensures TotalWeight(s', ws) <= TotalWeight(s, ws) + 7 * |ws|
  {
    if ws != [] {
      WeightsGrow(s, t, s', ws[..|ws| - 1]);
    }
  }

  lemma {:induction false} WeightsShrink<T>(s: State<T>, t: Tid, s': State<T>, ws: seq<Tid>)
    requires OnlyMoves(s, t, s') && s.pcs.Keys == s.queue.pcs.Keys && s'.queue.deq == s.queue.deq
    requires Weight(s'.pcs[t], s'.queue.pcs[t], s.queue.deq) < Weight(s.pcs[t], s.queue.pcs[t], s.queue.deq)
    ensures TotalWeight(s', ws) <= TotalWeight(s, ws) && (t in ws ==> TotalWeight(s', ws) < TotalWeight(s, ws))
  {
    if ws != [] {
      WeightsShrink(s, t, s', ws[..|ws| - 1]);
      assert ws == ws[..|ws| - 1] + [ws[|ws| - 1]];
    }
  }

  lemma {:induction false} WeightsStay<T>(s: State<T>, t: Tid, s': State<T>, ws: seq<Tid>)
    requires OnlyMoves(s, t, s') && s.pcs.Keys == s.queue.pcs.Keys && s'.queue.deq == s.queue.deq
    requires WeightOf(s', t) == WeightOf(s, t)
    ensures TotalWeight(s', ws) == TotalWeight(s, ws)
  {
    if ws != [] {
      WeightsStay(s, t, s', ws[..|ws| - 1]);
    }
  }

  function WeightOf<T>(s: State<T>, t: Tid): nat
    requires t in s.pcs && t in s.queue.pcs
  {
    Weight(s.pcs[t], s.queue.pcs[t], s.queue.deq)
  }

  /** The step brings `t` closer to its exit, or claims one of the remaining tickets. */
  ghost predicate Lighter<T>(s: State<T>, t: Tid, s': State<T>)
    requires OnlyMoves(s, t, s')
  {
    && s'.queue.enq == s.queue.enq
    && if s'.queue.deq == s.queue.deq then WeightOf(s', t) < WeightOf(s, t)
       else s'.queue.deq == s.queue.deq + 1 && s.queue.deq < s.queue.enq && WeightOf(s', t) <= WeightOf(s, t) + 7
  }

  lemma LighterRemaining<T>(s: State<T>, t: Tid, s': State<T>, ws: seq<Tid>)
    requires OnlyMoves(s, t, s') && s.pcs.Keys == s.queue.pcs.Keys && Lighter(s, t, s') && t in ws
    ensures Remaining(s', ws) < Remaining(s, ws)
  {
    if s'.queue.deq == s.queue.deq {
      WeightsShrink(s, t, s', ws);
    } else {
      WeightsGrow(s, t, s', ws);
    }
  }

  lemma PopLighter<T>(s: State<T>, t: Tid, queue: Q.State<T>)
    requires t in s.pcs && t in s.queue.pcs && ThreadRole(s, t) && s.pcs[t].InPop()
    requires s.queue.Shape() && |s.queue.claims| == s.queue.enq && |s.queue.takes| == s.queue.deq
    requires Q.ThreadInv(s.queue, t) && (Q.Retries(s.queue, t) ==> s.queue.pcs[t].pos < s.queue.deq)
    requires queue == Q.PopStep(s.queue, t, false) && queue.deq <= queue.enq
    ensures OnlyMoves(s, t, InsidePop(s, t, queue)) && Lighter(s, t, InsidePop(s, t, queue))
  {
    Q.PopHasEffect(s.queue, t, false);
    PopMoves(s, t, queue);
  }

  lemma WorkerLighter<T>(s: State<T>, t: Tid, a: Action<T>)
    requires Enabled(s, t, a) && a.Go? && ThreadRole(s, t) && s.pcs[t].Worker? && !s.pcs[t].InPop() && t in s.sync.stops
    ensures OnlyMoves(s, t, Next(s, t, a)) && Lighter(s, t, Next(s, t, a))
  {
    WorkerMoves(s, t, a);
  }

  /** A submit from a task is refused, and so leads straight back to the task. */
  lemma NestedLighter<T>(s: State<T>, t: Tid, a: Action<T>)
    requires Enabled(s, t, a) && ThreadRole(s, t) && s.pcs[t].Submitter? && s.pcs[t].home.Nested?
    requires !Committed(s.pcs[t]) && !s.sync.accepting
    ensures OnlyMoves(s, t, Next(s, t, a)) && Lighter(s, t, Next(s, t, a))
  {
    SubmitMoves(s, t, a);
  }

  /** Steps that do not lead towards the exit: spurious compare-exchange failures, and calls made
      by tasks. */
  predicate Extra<T>(a: Action<T>) {
    !a.Go? || a.spurious
  }

  /** Once shutdown has released its permits, every worker step that is not such an extra brings
      the end closer. */
  lemma WorkerProgress<T>(s: State<T>, t: Tid, a: Action<T>, ws: seq<Tid>)
    requires Inv(s) && s.log.tokens && t in s.crew.members && t in ws && Enabled(s, t, a) && !Extra(a)
    ensures Remaining(Next(s, t, a), ws) < Remaining(s, ws)
  {
    assert ThreadRole(s, t);
    assert Q.ThreadInv(s.queue, t);
    if s.pcs[t].InPop() {
      if Q.Retries(s.queue, t) {
        Q.RetryMeansProgress(s.queue, t);
      }
      Q.PopKeepsInv(s.queue, t, false);
      PopLighter(s, t, Q.PopStep(s.queue, t, false));
    } else if s.pcs[t].Worker? {
      WorkerLighter(s, t, a);
    } else {
      NestedLighter(s, t, a);
    }
    LighterRemaining(s, t, Next(s, t, a), ws);
  }

  predicate Distinct(ws: seq<Tid>) {
    forall i, j :: 0 <= i < j < |ws| ==> ws[i] != ws[j]
  }

  lemma {:induction false} WeightsRise<T>(s: State<T>, t: Tid, s': State<T>, ws: seq<Tid>, d: nat)
    requires OnlyMoves(s, t, s') && s.pcs.Keys == s.queue.pcs.Keys && s'.queue.deq == s.queue.deq
    requires WeightOf(s', t) <= WeightOf(s, t) + d && Distinct(ws)
    ensures TotalWeight(s', ws) <= TotalWeight(s, ws) + (if t in ws then d else 0)
  {
    if ws != [] {
      WeightsRise(s, t, s', ws[..|ws| - 1], d);
      assert ws == ws[..|ws| - 1] + [ws[|ws| - 1]];
    }
  }

  lemma CallHeavier<T>(s: State<T>, t: Tid, a: Action<T>)
    requires Enabled(s, t, a) && !a.Go? && ThreadRole(s, t)
    ensures var s' := Next(s, t, a);
      && OnlyMoves(s, t, s') && s'.queue == s.queue
      && (t in s.crew.members ==> WeightOf(s', t) <= WeightOf(s, t) + 3)
      && (t !in s.crew.members ==> WeightOf(s', t) == WeightOf(s, t))
  {
    CallMoves(s, t, a);
  }

  lemma SpuriousHeavier<T>(s: State<T>, t: Tid)
    requires t in s.pcs && t in s.queue.pcs && ThreadRole(s, t) && s.pcs[t].InPop() && s.queue.Shape()
    requires s.queue.pcs[t].PopCas?
    ensures var s' := InsidePop(s, t, Q.PopStep(s.queue, t, true));
      && OnlyMoves(s, t, s') && s'.queue.enq == s.queue.enq && s'.queue.deq == s.queue.deq
      && WeightOf(s', t) <= WeightOf(s, t) + 1
  {
    Q.PopHasEffect(s.queue, t, true);
    PopMoves(s, t, Q.PopStep(s.queue, t, true));
  }

  /** Only in a compare-exchange does it matter whether a step may fail spuriously. */
  lemma SpuriousElsewhere<T>(s: State<T>, t: Tid, a: Action<T>)
    requires Enabled(s, t, a) && a.Go? && !(s.pcs[t].InPop() && s.queue.pcs[t].PopCas?) && !s.pcs[t].InPush()
    ensures var b := a.(spurious := false); Enabled(s, t, b) && Next(s, t, b) == Next(s, t, a)
  {
  }

  lemma CallCosts<T>(s: State<T>, t: Tid, a: Action<T>, ws: seq<Tid>)
    requires Enabled(s, t, a) && !a.Go? && ThreadRole(s, t) && s.pcs.Keys == s.queue.pcs.Keys && Distinct(ws)
    ensures Remaining(Next(s, t, a), ws) <= Remaining(s, ws) + 3
  {
    CallHeavier(s, t, a);
    WeightsRise(s, t, Next(s, t, a), ws, 3);
  }

  lemma SpuriousCosts<T>(s: State<T>, t: Tid, a: Action<T>, ws: seq<Tid>)
    requires Enabled(s, t, a) && a.Go? && a.spurious && ThreadRole(s, t) && s.pcs[t].InPop() && s.queue.pcs[t].PopCas?
    requires s.pcs.Keys == s.queue.pcs.Keys && Distinct(ws)
    ensures Remaining(Next(s, t, a), ws) <= Remaining(s, ws) + 1
  {
    SpuriousHeavier(s, t);
    WeightsRise(s, t, Next(s, t, a), ws, 1);
  }

  /** An extra step costs at most three steps more than it takes. */
  lemma ExtraCosts<T>(s: State<T>, t: Tid, a: Action<T>, ws: seq<Tid>)
    requires Inv(s) && s.log.tokens && t in s.crew.members && t in ws && Distinct(ws) && Enabled(s, t, a) && Extra(a)
    ensures Remaining(Next(s, t, a), ws) <= Remaining(s, ws) + 3
  {
    assert ThreadRole(s, t);
    if !a.Go? {
      CallCosts(s, t, a, ws);
    } else if s.pcs[t].InPop() && s.queue.pcs[t].PopCas? {
      SpuriousCosts(s, t, a, ws);
    } else {
      SpuriousElsewhere(s, t, a);
      WorkerProgress(s, t, a.(spurious := false), ws);
    }
  }

  lemma OthersOffQueue<T>(s: State<T>, t: Tid, a: Action<T>)
    requires Enabled(s, t, a) && ThreadRole(s, t) && t !in s.crew.members && !Committed(s.pcs[t]) && !s.sync.accepting
    ensures var s' := Next(s, t, a);
      && t in s'.pcs && !s'.pcs[t].IsWorker()
      && s'.queue.enq == s.queue.enq && s'.queue.deq == s.queue.deq && (s.log.tokens ==> s'.log.tokens)
  {
  }

  /** Nobody else can push the end further away, because submissions are refused. */
  lemma OthersDoNotDelay<T>(s: State<T>, t: Tid, a: Action<T>, ws: seq<Tid>)
    requires Inv(s) && s.log.tokens && t !in s.crew.members && Enabled(s, t, a)
    ensures Remaining(Next(s, t, a), ws) == Remaining(s, ws)
  {
    assert ThreadRole(s, t);
    OthersOffQueue(s, t, a);
    StepMoves(s, t, a);
    WeightsStay(s, t, Next(s, t, a), ws);
  }

  lemma TokensStay<T>(s: State<T>, t: Tid, a: Action<T>)
    requires Enabled(s, t, a) && s.log.tokens
    ensures Next(s, t, a).log.tokens && Next(s, t, a).crew == s.crew
  {
  }

  ghost function WorkerSteps<T>(crew: set<Tid>, moves: seq<Move<T>>): nat {
    if moves == [] then 0
    else WorkerSteps(crew, moves[..|moves| - 1]) + Bit(moves[|moves| - 1].t in crew)
  }

  ghost function ExtraSteps<T>(crew: set<Tid>, moves: seq<Move<T>>): nat {
    if moves == [] then 0
    else ExtraSteps(crew, moves[..|moves| - 1]) + Bit(moves[|moves| - 1].t in crew && Extra(moves[|moves| - 1].a))
  }

  lemma StepSpends<T>(states: seq<State<T>>, moves: seq<Move<T>>, ws: seq<Tid>, k: nat)
    requires Execution(states, moves) && k < |moves| && states[k].log.tokens && Distinct(ws)
    requires forall w :: w in states[k].crew.members ==> w in ws
    ensures states[k + 1].log.tokens && states[k + 1].crew == states[k].crew
    ensures var worker := moves[k].t in states[k].crew.members;
      Bit(worker) + Remaining(states[k + 1], ws) <= Remaining(states[k], ws) + 4 * Bit(worker && Extra(moves[k].a))
  {
    var s, m := states[k], moves[k];
    assert Follows(states, moves, k);
    ReachableInv(states, moves, k);
    TokensStay(s, m.t, m.a);
    if m.t !in s.crew.members {
      OthersDoNotDelay(s, m.t, m.a, ws);
    } else if Extra(m.a) {
      ExtraCosts(s, m.t, m.a, ws);
    } else {
      WorkerProgress(s, m.t, m.a, ws);
    }
  }

  /** Shutdown cannot run forever: from the release of its permits on, every interleaving contains
      only boundedly many worker steps, for each bound on the spurious compare-exchange failures
      and on the calls that tasks make into the pool. Together with `NoWorkerBlocks` this means
      that the workers exit and the join returns. */
  lemma {:induction false} ShutdownTerminates<T>(
      states: seq<State<T>>, moves: seq<Move<T>>, ws: seq<Tid>, i: nat, j: nat)
    requires Execution(states, moves) && i <= j <= |moves| && states[i].log.tokens && Distinct(ws)
    requires forall w :: w in states[i].crew.members ==> w in ws
    ensures states[j].log.tokens && states[j].crew == states[i].crew
    ensures var crew := states[i].crew.members;
      WorkerSteps(crew, moves[i..j]) + Remaining(states[j], ws) <=
        Remaining(states[i], ws) + 4 * ExtraSteps(crew, moves[i..j])
    decreases j - i
  {
    if i < j {
      ShutdownTerminates(states, moves, ws, i, j - 1);
      assert moves[i..j][..j - i - 1] == moves[i..j - 1];
      StepSpends(states, moves, ws, j - 1);
    }
  }
}
