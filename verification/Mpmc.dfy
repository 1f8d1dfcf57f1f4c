/** `MPMCQueue`: Vyukov's bounded queue as an interleaving of atomic steps.

    Every atomic load, store or compare-exchange of `push` and `pop` is one step, and the
    access to a slot's plain `data` is a step of its own. Atomics are sequentially consistent
    and positions are unbounded naturals. The number of threads is arbitrary.

    The fields `claims`, `takes` and `popped` are a history: no step reads them. */
module MpmcQueue {
  import opened BitMask

  type Tid = nat

  /** How the last call of a thread ended. */
  datatype Outcome<T> =
    | NoCall
    | PushOk(ticket: nat)
    | PushFull
    | PopOk(ticket: nat, val: T)
    | PopEmpty

  /** Where a thread stands: the step it takes next, with its local variables. */
  datatype Pc<T> =
    | Idle(last: Outcome<T>)
    | PushLoadPos(val: T)
    | PushLoadSeq(val: T, pos: nat)
    | PushCas(val: T, pos: nat)
    | PushStoreData(val: T, pos: nat)
    | PushStoreSeq(val: T, pos: nat)
    | PopLoadPos
    | PopLoadSeq(pos: nat)
    | PopCas(pos: nat)
    | PopReadData(pos: nat)
    | PopStoreSeq(pos: nat, val: T)
  {
    predicate Producing() {
      PushStoreData? || PushStoreSeq?
    }

    predicate Consuming() {
      PopReadData? || PopStoreSeq?
    }

    /** The thread owns ticket `t` as a producer: claimed, not yet published. */
    predicate Produces(t: int) {
      Producing() && pos == t
    }

    /** The thread owns ticket `t` as a consumer: claimed, slot not yet released. */
    predicate Consumes(t: int) {
      Consuming() && pos == t
    }
  }

  datatype Claim<T> = Claim(who: Tid, val: T)
  datatype Delivery<T> = Delivery(ticket: nat, who: Tid, val: T)

  datatype State<T> = State(
    cap: nat,
    enq: nat,                       // enqueue_pos_
    deq: nat,                       // dequeue_pos_
    seqs: seq<nat>,                 // slots_[i].sequence
    data: seq<T>,                   // slots_[i].data
    pcs: map<Tid, Pc<T>>,
    claims: seq<Claim<T>>,          // ticket -> producer that won it, and its value
    takes: seq<Tid>,                // ticket -> consumer that won it
    popped: seq<Delivery<T>>)      // finished pops, in the order they finished
  {
    predicate Shape() {
      ValidCapacity(cap) && |seqs| == cap && |data| == cap
    }

    function Goto(t: Tid, pc: Pc<T>): State<T> {
      this.(pcs := pcs[t := pc])
    }
  }

  /** The constructor, with every thread outside the queue. */
  ghost predicate Init<T>(s: State<T>) {
    && s.Shape()
    && s.enq == 0 && s.deq == 0
    && (forall i :: 0 <= i < s.cap ==> s.seqs[i] == i)
    && (forall t :: t in s.pcs ==> s.pcs[t] == Idle(NoCall))
    && s.claims == [] && s.takes == [] && s.popped == []
  }

  /** `spurious` lets a weak compare-exchange fail although the position is unchanged. */
  datatype Action<T> = StartPush(val: T) | StartPop | Step(spurious: bool)

  predicate Enabled<T>(s: State<T>, t: Tid, a: Action<T>) {
    s.Shape() && t in s.pcs && (s.pcs[t].Idle? <==> !a.Step?)
  }

  function Next<T>(s: State<T>, t: Tid, a: Action<T>): State<T>
    requires Enabled(s, t, a)
  {
    match a
    case StartPush(v) => BeginPush(s, t, v)
    case StartPop => BeginPop(s, t)
    case Step(spurious) => if PushPc(s.pcs[t]) then PushStep(s, t, spurious) else PopStep(s, t, spurious)
  }

  function BeginPush<T>(s: State<T>, t: Tid, v: T): State<T> {
    s.Goto(t, PushLoadPos(v))
  }

  function BeginPop<T>(s: State<T>, t: Tid): State<T> {
    s.Goto(t, PopLoadPos)
  }

  predicate PushPc<T>(pc: Pc<T>) {
    pc.PushLoadPos? || pc.PushLoadSeq? || pc.PushCas? || pc.PushStoreData? || pc.PushStoreSeq?
  }

  function PushStep<T>(s: State<T>, t: Tid, spurious: bool): State<T>
    requires s.Shape() && t in s.pcs && PushPc(s.pcs[t])
  {
    match s.pcs[t]
    case PushLoadPos(v) => s.Goto(t, PushLoadSeq(v, s.enq))
    case PushLoadSeq(v, pos) =>
      var sequence := s.seqs[Slot(pos, s.cap)];
      if sequence == pos then s.Goto(t, PushCas(v, pos))
      else if sequence < pos then s.Goto(t, Idle(PushFull))
      else s.Goto(t, PushLoadPos(v))
    case PushCas(v, pos) =>
      if s.enq == pos && !spurious then
        s.Goto(t, PushStoreData(v, pos)).(enq := pos + 1, claims := s.claims + [Claim(t, v)])
      else s.Goto(t, PushLoadSeq(v, s.enq))
    case PushStoreData(v, pos) =>
      s.Goto(t, PushStoreSeq(v, pos)).(data := s.data[Slot(pos, s.cap) := v])
    case PushStoreSeq(v, pos) =>
      s.Goto(t, Idle(PushOk(pos))).(seqs := s.seqs[Slot(pos, s.cap) := pos + 1])
  }

  function PopStep<T>(s: State<T>, t: Tid, spurious: bool): State<T>
    requires s.Shape() && t in s.pcs && !PushPc(s.pcs[t]) && !s.pcs[t].Idle?
  {
    match s.pcs[t]
    case PopLoadPos => s.Goto(t, PopLoadSeq(s.deq))
    case PopLoadSeq(pos) =>
      var sequence := s.seqs[Slot(pos, s.cap)];
      if sequence == pos + 1 then s.Goto(t, PopCas(pos))
      else if sequence < pos + 1 then s.Goto(t, Idle(PopEmpty))
      else s.Goto(t, PopLoadPos)
    case PopCas(pos) =>
      if s.deq == pos && !spurious then
        s.Goto(t, PopReadData(pos)).(deq := pos + 1, takes := s.takes + [t])
      else s.Goto(t, PopLoadSeq(s.deq))
    case PopReadData(pos) => s.Goto(t, PopStoreSeq(pos, s.data[Slot(pos, s.cap)]))
    case PopStoreSeq(pos, v) =>
      s.Goto(t, Idle(PopOk(pos, v))).(
        seqs := s.seqs[Slot(pos, s.cap) := pos + s.cap],
        popped := s.popped + [Delivery(pos, t, v)])
  }

  // ---------------------------------------------------------------- what a step may change

  ghost predicate SameElsewhere<T>(s: State<T>, t: Tid, s': State<T>) {
    && s'.Shape() && s'.cap == s.cap && s'.pcs.Keys == s.pcs.Keys
    && forall u :: u in s.pcs && u != t ==> s'.pcs[u] == s.pcs[u]
  }

  /** A step inside `push`, as its caller sees it: the call goes on, claims the next ticket,
      publishes it and succeeds, or fails without having claimed one. */
  ghost predicate PushEffect<T>(s: State<T>, t: Tid, s': State<T>)
    requires t in s.pcs && PushPc(s.pcs[t])
  {
    && SameElsewhere(s, t, s') && s'.deq == s.deq && s'.takes == s.takes && s'.popped == s.popped
    && var pc, pc' := s.pcs[t], s'.pcs[t];
    && (if PushPc(pc') then pc'.val == pc.val && (pc.Producing() ==> pc'.Produces(pc.pos))
        else if pc.Producing() then pc' == Idle(PushOk(pc.pos))
        else pc' == Idle(PushFull))
    && (if pc'.Producing() && !pc.Producing() then
          s'.enq == s.enq + 1 && pc'.pos == s.enq && s'.claims == s.claims + [Claim(t, pc.val)]
        else s'.enq == s.enq && s'.claims == s.claims)
  }

  /** A step inside `pop`, as its caller sees it. */
  ghost predicate PopEffect<T>(s: State<T>, t: Tid, s': State<T>)
    requires t in s.pcs && !PushPc(s.pcs[t]) && !s.pcs[t].Idle?
  {
    && SameElsewhere(s, t, s') && s'.enq == s.enq && s'.claims == s.claims
    && var pc, pc' := s.pcs[t], s'.pcs[t];
    && !PushPc(pc')
    && (if !pc'.Idle? then pc.Consuming() ==> pc'.Consumes(pc.pos)
        else if pc.Consuming() then pc.PopStoreSeq? && pc' == Idle(PopOk(pc.pos, pc.val))
        else pc' == Idle(PopEmpty))
    && (if pc'.Consuming() && !pc.Consuming() then
          s'.deq == s.deq + 1 && pc'.pos == s.deq && s'.takes == s.takes + [t]
        else s'.deq == s.deq && s'.takes == s.takes)
  }

  lemma PushHasEffect<T>(s: State<T>, t: Tid, spurious: bool)
    requires s.Shape() && t in s.pcs && PushPc(s.pcs[t])
    ensures PushEffect(s, t, PushStep(s, t, spurious))
  {
  }

  lemma PopHasEffect<T>(s: State<T>, t: Tid, spurious: bool)
    requires s.Shape() && t in s.pcs && !PushPc(s.pcs[t]) && !s.pcs[t].Idle?
    ensures PopEffect(s, t, PopStep(s, t, spurious))
  {
  }

  // ---------------------------------------------------------------- invariant

  /** The ticket slot `i` is serving: its sequence number is that ticket until the ticket is
      published and one more afterwards. */
  function Ticket<T>(s: State<T>, i: nat): int
    requires s.Shape() && i < s.cap
  {
    if Slot(s.seqs[i], s.cap) == i then s.seqs[i] as int else s.seqs[i] as int - 1
  }

  ghost predicate SlotInv<T>(s: State<T>, i: nat)
    requires s.Shape() && i < s.cap && |s.claims| == s.enq && |s.takes| == s.deq
  {
    var t := Ticket(s, i);
    && 0 <= t && Slot(t, s.cap) == i
    && s.enq <= t + s.cap && t < s.deq + s.cap
    && (s.seqs[i] == t + 1 ==> t < s.enq)
    && (s.seqs[i] == t && t < s.enq ==>
          s.deq <= t && s.claims[t].who in s.pcs && s.pcs[s.claims[t].who].Produces(t))
    && (t < s.deq ==>
          s.seqs[i] == t + 1 && s.takes[t] in s.pcs && s.pcs[s.takes[t]].Consumes(t))
    && (s.seqs[i] == t + 1 && s.deq <= t ==> s.data[i] == s.claims[t].val)
  }

  ghost predicate ThreadInv<T>(s: State<T>, t: Tid)
    requires s.Shape() && t in s.pcs && |s.claims| == s.enq && |s.takes| == s.deq
  {
    match s.pcs[t]
    case PushLoadSeq(v, pos) => pos <= s.enq
    case PushCas(v, pos) => pos <= s.enq && (pos == s.enq ==> s.seqs[Slot(pos, s.cap)] == pos)
    case PushStoreData(v, pos) =>
      pos < s.enq && s.seqs[Slot(pos, s.cap)] == pos && s.claims[pos] == Claim(t, v)
    case PushStoreSeq(v, pos) =>
      && pos < s.enq && s.seqs[Slot(pos, s.cap)] == pos && s.claims[pos] == Claim(t, v)
      && s.data[Slot(pos, s.cap)] == v
    case PopLoadSeq(pos) => pos <= s.deq
    case PopCas(pos) => pos <= s.deq && (pos == s.deq ==> s.seqs[Slot(pos, s.cap)] == pos + 1)
    case PopReadData(pos) =>
      && pos < s.deq <= s.enq && s.seqs[Slot(pos, s.cap)] == pos + 1 && s.takes[pos] == t
      && s.data[Slot(pos, s.cap)] == s.claims[pos].val
    case PopStoreSeq(pos, v) =>
      && pos < s.deq <= s.enq && s.seqs[Slot(pos, s.cap)] == pos + 1 && s.takes[pos] == t
      && v == s.claims[pos].val
    case _ => true
  }

  ghost predicate Inv<T>(s: State<T>) {
    && s.Shape() && s.deq <= s.enq <= s.deq + s.cap
    && |s.claims| == s.enq && |s.takes| == s.deq
    && (forall i {:trigger SlotInv(s, i)} :: 0 <= i < s.cap ==> SlotInv(s, i))
    && (forall t {:trigger ThreadInv(s, t)} :: t in s.pcs ==> ThreadInv(s, t))
  }

  lemma NextSlotDiffers(pos: nat, cap: nat)
    requires ValidCapacity(cap)
    ensures Slot(pos + 1, cap) != Slot(pos, cap)
  {
    if Slot(pos + 1, cap) == Slot(pos, cap) {
      SameSlotFarApart(pos, pos + 1, cap);
    }
  }

  lemma InitInv<T>(s: State<T>)
    requires Init(s)
    ensures Inv(s)
  {
    forall i | 0 <= i < s.cap ensures SlotInv(s, i) {
      SlotOfSmall(i, s.cap);
    }
  }

  /** A position lies in the slot that is serving it once its sequence number is right. */
  lemma ServedBy<T>(s: State<T>, pos: nat)
    requires s.Shape()
    requires s.seqs[Slot(pos, s.cap)] == pos || s.seqs[Slot(pos, s.cap)] == pos + 1
    ensures Ticket(s, Slot(pos, s.cap)) == pos
  {
    NextSlotDiffers(pos, s.cap);
  }

  lemma PublishKeepsSlot<T>(s: State<T>, t: Tid, spurious: bool, i: nat)
    requires s.Shape() && |s.claims| == s.enq && |s.takes| == s.deq
    requires t in s.pcs && s.pcs[t].PushStoreSeq? && ThreadInv(s, t) && i < s.cap && SlotInv(s, i)
    ensures SlotInv(PushStep(s, t, spurious), i)
  {
    ServedBy(s, s.pcs[t].pos);
    NextSlotDiffers(s.pcs[t].pos, s.cap);
  }

  lemma PushKeepsSlot<T>(s: State<T>, t: Tid, spurious: bool, i: nat)
    requires Inv(s) && t in s.pcs && PushPc(s.pcs[t]) && i < s.cap
    ensures var s' := PushStep(s, t, spurious);
      s'.Shape() && |s'.claims| == s'.enq && |s'.takes| == s'.deq && SlotInv(s', i)
  {
    assert SlotInv(s, i);
    assert ThreadInv(s, t);
    if s.pcs[t].PushStoreSeq? {
      PublishKeepsSlot(s, t, spurious, i);
    } else if s.pcs[t].PushCas? && Ticket(s, i) + s.cap == s.enq {
      SlotNextLap(Ticket(s, i), s.cap);
    }
  }

  lemma PushKeepsThread<T>(s: State<T>, t: Tid, spurious: bool, u: Tid)
    requires Inv(s) && t in s.pcs && PushPc(s.pcs[t]) && u in s.pcs
    ensures var s' := PushStep(s, t, spurious);
      s'.Shape() && |s'.claims| == s'.enq && |s'.takes| == s'.deq && ThreadInv(s', u)
  {
    assert ThreadInv(s, t);
    assert ThreadInv(s, u);
    if s.pcs[t].PushStoreData? || s.pcs[t].PushStoreSeq? {
      ServedBy(s, s.pcs[t].pos);
      if s.pcs[u].PopCas? || s.pcs[u].PopReadData? || s.pcs[u].PopStoreSeq? {
        NextSlotDiffers(s.pcs[u].pos, s.cap);
      }
    }
  }

  lemma PushKeepsInv<T>(s: State<T>, t: Tid, spurious: bool)
    requires Inv(s) && t in s.pcs && PushPc(s.pcs[t])
    ensures Inv(PushStep(s, t, spurious))
  {
    var s' := PushStep(s, t, spurious);
    assert ThreadInv(s, t);
    if s.pcs[t].PushCas? && s.pcs[t].pos == s.enq {
      assert SlotInv(s, Slot(s.enq, s.cap));
      ServedBy(s, s.enq);
    }
    forall i | 0 <= i < s.cap ensures SlotInv(s', i) {
      PushKeepsSlot(s, t, spurious, i);
    }
    forall u | u in s'.pcs ensures ThreadInv(s', u) {
      PushKeepsThread(s, t, spurious, u);
    }
  }

  lemma PopKeepsSlot<T>(s: State<T>, t: Tid, spurious: bool, i: nat)
    requires Inv(s) && t in s.pcs && !PushPc(s.pcs[t]) && !s.pcs[t].Idle? && i < s.cap
    ensures var s' := PopStep(s, t, spurious);
      s'.Shape() && |s'.claims| == s'.enq && |s'.takes| == s'.deq && SlotInv(s', i)
  {
    assert SlotInv(s, i);
    assert ThreadInv(s, t);
    if s.pcs[t].PopStoreSeq? {
      ReleaseKeepsSlot(s, t, spurious, i);
    } else if s.pcs[t].PopCas? && s.pcs[t].pos == s.deq {
      ServedBy(s, s.deq);
      if Slot(s.deq, s.cap) != i {
        assert Ticket(s, i) != s.deq;
      }
    }
  }

  lemma ReleaseKeepsSlot<T>(s: State<T>, t: Tid, spurious: bool, i: nat)
    requires s.Shape() && |s.claims| == s.enq && |s.takes| == s.deq && s.deq <= s.enq <= s.deq + s.cap
    requires t in s.pcs && s.pcs[t].PopStoreSeq? && ThreadInv(s, t) && i < s.cap && SlotInv(s, i)
    ensures SlotInv(PopStep(s, t, spurious), i)
  {
    ServedBy(s, s.pcs[t].pos);
    SlotNextLap(s.pcs[t].pos, s.cap);
  }

  lemma PopKeepsThread<T>(s: State<T>, t: Tid, spurious: bool, u: Tid)
    requires Inv(s) && t in s.pcs && !PushPc(s.pcs[t]) && !s.pcs[t].Idle? && u in s.pcs
    ensures var s' := PopStep(s, t, spurious);
      s'.Shape() && |s'.claims| == s'.enq && |s'.takes| == s'.deq && ThreadInv(s', u)
  {
    assert ThreadInv(s, t);
    assert ThreadInv(s, u);
    if s.pcs[t].PopStoreSeq? {
      ReleaseKeepsThread(s, t, spurious, u);
    } else if s.pcs[t].PopCas? && s.pcs[t].pos == s.deq {
      ServedBy(s, s.deq);
      assert SlotInv(s, Slot(s.deq, s.cap));
      ClaimKeepsThread(s, t, spurious, u);
    }
  }

  lemma ReleaseKeepsThread<T>(s: State<T>, t: Tid, spurious: bool, u: Tid)
    requires s.Shape() && |s.claims| == s.enq && |s.takes| == s.deq && s.deq <= s.enq
    requires t in s.pcs && s.pcs[t].PopStoreSeq? && ThreadInv(s, t) && u in s.pcs && ThreadInv(s, u)
    ensures ThreadInv(PopStep(s, t, spurious), u)
  {
    var pos := s.pcs[t].pos;
    ServedBy(s, pos);
    if s.pcs[u].PushCas? || s.pcs[u].PushStoreData? || s.pcs[u].PushStoreSeq? {
      NextSlotDiffers(pos, s.cap);
    } else if s.pcs[u].PopCas? || s.pcs[u].PopReadData? || s.pcs[u].PopStoreSeq? {
      NextSlotDiffers(s.pcs[u].pos, s.cap);
    }
  }

  lemma ClaimKeepsThread<T>(s: State<T>, t: Tid, spurious: bool, u: Tid)
    requires s.Shape() && |s.claims| == s.enq && |s.takes| == s.deq && s.deq < s.enq
    requires t in s.pcs && s.pcs[t].PopCas? && s.pcs[t].pos == s.deq && ThreadInv(s, t) && u in s.pcs && ThreadInv(s, u)
    requires s.data[Slot(s.deq, s.cap)] == s.claims[s.deq].val
    ensures ThreadInv(PopStep(s, t, spurious), u)
  {
  }

  lemma PopKeepsInv<T>(s: State<T>, t: Tid, spurious: bool)
    requires Inv(s) && t in s.pcs && !PushPc(s.pcs[t]) && !s.pcs[t].Idle?
    ensures Inv(PopStep(s, t, spurious))
  {
    var s' := PopStep(s, t, spurious);
    assert ThreadInv(s, t);
    if s.pcs[t].PopCas? && s.pcs[t].pos == s.deq {
      assert SlotInv(s, Slot(s.deq, s.cap));
      ServedBy(s, s.deq);
    }
    forall i | 0 <= i < s.cap ensures SlotInv(s', i) {
      PopKeepsSlot(s, t, spurious, i);
    }
    forall u | u in s'.pcs ensures ThreadInv(s', u) {
      PopKeepsThread(s, t, spurious, u);
    }
  }

  // ---------------------------------------------------------------- history

  ghost predicate Delivered<T>(popped: seq<Delivery<T>>, ticket: nat) {
    exists k :: 0 <= k < |popped| && popped[k].ticket == ticket
  }

  /** Ticket `t` has been claimed and its value is visible in its slot. */
  ghost predicate Published<T>(s: State<T>, t: nat)
    requires |s.claims| == s.enq
  {
    t < s.enq && !(s.claims[t].who in s.pcs && s.pcs[s.claims[t].who].Produces(t))
  }

  /** Ticket `t` has been consumed and its slot handed on to ticket `t + Capacity`. */
  ghost predicate Released<T>(s: State<T>, t: nat)
    requires |s.takes| == s.deq
  {
    t < s.deq && !(s.takes[t] in s.pcs && s.pcs[s.takes[t]].Consumes(t))
  }

  /** Finished pops carry the value of their ticket, no ticket is delivered twice, and each
      consumer finishes its tickets in increasing order. */
  ghost predicate LogInv<T>(s: State<T>) {
    && |s.claims| == s.enq && |s.takes| == s.deq && s.deq <= s.enq
    && (forall k :: 0 <= k < |s.popped| ==>
          var d := s.popped[k];
          d.ticket < s.deq && d.who == s.takes[d.ticket] && d.val == s.claims[d.ticket].val)
    && (forall j, k :: 0 <= j < k < |s.popped| && s.popped[j].who == s.popped[k].who ==>
          s.popped[j].ticket < s.popped[k].ticket)
  }

  /** A consumer in flight is past everything it has finished. */
  ghost predicate AheadInv<T>(s: State<T>) {
    forall k :: 0 <= k < |s.popped| && s.popped[k].who in s.pcs ==>
      var pc := s.pcs[s.popped[k].who];
      pc.Consuming() ==> s.popped[k].ticket < pc.pos
  }

  ghost predicate HistInv<T>(s: State<T>) {
    && LogInv(s) && AheadInv(s)
    && forall ticket: nat :: Released(s, ticket) ==> Delivered(s.popped, ticket)
  }

  lemma StepKeepsLog<T>(s: State<T>, t: Tid, a: Action<T>)
    requires LogInv(s) && AheadInv(s) && Enabled(s, t, a) && ThreadInv(s, t)
    requires s.pcs[t].PopCas? && s.pcs[t].pos == s.deq ==> s.deq < s.enq
    ensures LogInv(Next(s, t, a))
  {
  }

  lemma StepKeepsAhead<T>(s: State<T>, t: Tid, a: Action<T>)
    requires LogInv(s) && AheadInv(s) && Enabled(s, t, a) && ThreadInv(s, t)
    ensures AheadInv(Next(s, t, a))
  {
  }

  lemma StepKeepsHistory<T>(s: State<T>, t: Tid, a: Action<T>)
    requires Inv(s) && HistInv(s) && Enabled(s, t, a)
    ensures HistInv(Next(s, t, a))
  {
    var s' := Next(s, t, a);
    assert ThreadInv(s, t);
    if s.pcs[t].PopCas? && s.pcs[t].pos == s.deq {
      ServedBy(s, s.deq);
      assert SlotInv(s, Slot(s.deq, s.cap));
    }
    StepKeepsLog(s, t, a);
    StepKeepsAhead(s, t, a);
    forall ticket: nat | Released(s', ticket) ensures Delivered(s'.popped, ticket) {
      StepReleases(s, t, a, ticket);
    }
  }

  /** Only the last step of a pop releases a ticket. */
  lemma ReleasedBefore<T>(s: State<T>, t: Tid, a: Action<T>, ticket: nat)
    requires Enabled(s, t, a) && |s.takes| == s.deq && !s.pcs[t].PopStoreSeq?
    ensures var s' := Next(s, t, a);
      && |s'.takes| == s'.deq && s'.popped == s.popped && (Released(s', ticket) ==> Released(s, ticket))
  {
  }

  lemma ReleasedNow<T>(s: State<T>, t: Tid, a: Action<T>, ticket: nat)
    requires Enabled(s, t, a) && |s.takes| == s.deq && s.pcs[t].PopStoreSeq?
    ensures var s' := Next(s, t, a);
      && |s'.takes| == s'.deq && s'.popped == s.popped + [Delivery(s.pcs[t].pos, t, s.pcs[t].val)]
      && (Released(s', ticket) ==> Released(s, ticket) || ticket == s.pcs[t].pos)
  {
  }

  /** What has been released has been delivered. */
  lemma StepReleases<T>(s: State<T>, t: Tid, a: Action<T>, ticket: nat)
    requires Enabled(s, t, a) && |s.takes| == s.deq && |Next(s, t, a).takes| == Next(s, t, a).deq
    requires Released(s, ticket) ==> Delivered(s.popped, ticket)
    requires Released(Next(s, t, a), ticket)
    ensures Delivered(Next(s, t, a).popped, ticket)
  {
    var popped := Next(s, t, a).popped;
    if !s.pcs[t].PopStoreSeq? {
      ReleasedBefore(s, t, a, ticket);
    } else {
      ReleasedNow(s, t, a, ticket);
      if Released(s, ticket) {
        var k :| 0 <= k < |s.popped| && s.popped[k].ticket == ticket;
        assert popped[k].ticket == ticket;
      } else {
        assert popped[|s.popped|].ticket == ticket;
      }
    }
  }

  // ---------------------------------------------------------------- executions

  datatype Move<T> = Move(t: Tid, a: Action<T>)

  /** An interleaving from the constructor on: `states[k + 1]` is `states[k]` after `moves[k]`. */
  ghost predicate Execution<T>(states: seq<State<T>>, moves: seq<Move<T>>) {
    && |states| == |moves| + 1 && Init(states[0])
    && forall k {:trigger Follows(states, moves, k)} :: 0 <= k < |moves| ==> Follows(states, moves, k)
  }

  ghost predicate Follows<T>(states: seq<State<T>>, moves: seq<Move<T>>, k: nat)
    requires k < |moves| < |states|
  {
    Enabled(states[k], moves[k].t, moves[k].a) && states[k + 1] == Next(states[k], moves[k].t, moves[k].a)
  }

  lemma StepKeepsInv<T>(s: State<T>, t: Tid, a: Action<T>)
    requires Inv(s) && Enabled(s, t, a)
    ensures Inv(Next(s, t, a))
  {
    if a.Step? {
      if PushPc(s.pcs[t]) {
        PushKeepsInv(s, t, a.spurious);
      } else {
        PopKeepsInv(s, t, a.spurious);
      }
    } else {
      var s' := Next(s, t, a);
      forall i | 0 <= i < s.cap ensures SlotInv(s', i) {
        assert SlotInv(s, i);
      }
      forall u | u in s'.pcs ensures ThreadInv(s', u) {
        assert ThreadInv(s, u);
      }
    }
  }

  lemma {:induction false} ReachableInv<T>(states: seq<State<T>>, moves: seq<Move<T>>, n: nat)
    requires Execution(states, moves) && n < |states|
    ensures Inv(states[n]) && HistInv(states[n])
  {
    if n == 0 {
      InitInv(states[0]);
    } else {
      ReachableInv(states, moves, n - 1);
      assert Follows(states, moves, n - 1);
      StepKeepsInv(states[n - 1], moves[n - 1].t, moves[n - 1].a);
      StepKeepsHistory(states[n - 1], moves[n - 1].t, moves[n - 1].a);
    }
  }

  /** The claimed backlog never exceeds the capacity, in any reachable state. */
  lemma PositionsBounded<T>(states: seq<State<T>>, moves: seq<Move<T>>, n: nat)
    requires Execution(states, moves) && n < |states|
    ensures states[n].deq <= states[n].enq <= states[n].deq + states[n].cap
  {
    ReachableInv(states, moves, n);
  }

  ghost predicate InDataAccess<T>(pc: Pc<T>) {
    pc.PushStoreData? || pc.PopReadData?
  }

  /** No two threads are ever about to touch the plain data of one slot. */
  lemma DataRaceFree<T>(states: seq<State<T>>, moves: seq<Move<T>>, n: nat, t: Tid, u: Tid)
    requires Execution(states, moves) && n < |states|
    requires t in states[n].pcs && u in states[n].pcs && t != u
    requires InDataAccess(states[n].pcs[t]) && InDataAccess(states[n].pcs[u])
    ensures states[n].Shape()
    ensures Slot(states[n].pcs[t].pos, states[n].cap) != Slot(states[n].pcs[u].pos, states[n].cap)
  {
    ReachableInv(states, moves, n);
    var s := states[n];
    assert ThreadInv(s, t) && ThreadInv(s, u);
    ServedBy(s, s.pcs[t].pos);
    ServedBy(s, s.pcs[u].pos);
  }

  /** The consumer that claimed ticket `t` returns the value of the producer that claimed `t`;
      two finished pops never share a ticket; one consumer's tickets come out in order. */
  lemma ExactlyOnceInOrder<T>(states: seq<State<T>>, moves: seq<Move<T>>, n: nat)
    requires Execution(states, moves) && n < |states|
    ensures var s := states[n];
      && |s.claims| == s.enq && |s.takes| == s.deq <= s.enq
      && (forall k :: 0 <= k < |s.popped| ==>
            var d := s.popped[k];
            d.ticket < s.deq && d.who == s.takes[d.ticket] && d.val == s.claims[d.ticket].val)
      && (forall j, k :: 0 <= j < k < |s.popped| ==> s.popped[j].ticket != s.popped[k].ticket)
      && (forall j, k :: 0 <= j < k < |s.popped| && s.popped[j].who == s.popped[k].who ==>
            s.popped[j].ticket < s.popped[k].ticket)
  {
    ReachableInv(states, moves, n);
  }

  ghost function ClaimedValues<T>(claims: seq<Claim<T>>): seq<T> {
    seq(|claims|, i requires 0 <= i < |claims| => claims[i].val)
  }

  ghost function DeliveredValues<T>(popped: seq<Delivery<T>>): seq<T> {
    seq(|popped|, i requires 0 <= i < |popped| => popped[i].val)
  }

  function Without<A>(xs: seq<A>, k: nat): seq<A>
    requires k < |xs|
  {
    xs[..k] + xs[k + 1..]
  }

  lemma WithoutValue<T>(popped: seq<Delivery<T>>, k: nat)
    requires k < |popped|
    ensures multiset(DeliveredValues(popped)) == multiset(DeliveredValues(Without(popped, k))) + multiset{popped[k].val}
  {
    var v := DeliveredValues(popped);
    assert v == v[..k] + [v[k]] + v[k + 1..];
    assert DeliveredValues(Without(popped, k)) == v[..k] + v[k + 1..];
  }

  ghost predicate Covers<T>(popped: seq<Delivery<T>>, claims: seq<Claim<T>>) {
    && (forall k :: 0 <= k < |popped| ==>
          popped[k].ticket < |claims| && popped[k].val == claims[popped[k].ticket].val)
    && (forall j, k :: 0 <= j < k < |popped| ==> popped[j].ticket != popped[k].ticket)
    && (forall t: nat :: t < |claims| ==> Delivered(popped, t))
  }

  lemma CoversWithoutLast<T>(popped: seq<Delivery<T>>, claims: seq<Claim<T>>, k: nat)
    requires Covers(popped, claims) && k < |popped| && popped[k].ticket == |claims| - 1
    ensures Covers(Without(popped, k), claims[..|claims| - 1])
  {
    var rest := Without(popped, k);
    forall t: nat | t < |claims| - 1 ensures Delivered(rest, t) {
      assert Delivered(popped, t);
      var j :| 0 <= j < |popped| && popped[j].ticket == t;
      assert rest[if j < k then j else j - 1] == popped[j];
    }
  }

  /** Deliveries that cover the tickets of `claims` once each carry the same values. */
  lemma {:induction false} SameValues<T>(popped: seq<Delivery<T>>, claims: seq<Claim<T>>)
    requires Covers(popped, claims)
    ensures multiset(DeliveredValues(popped)) == multiset(ClaimedValues(claims))
    decreases |claims|
  {
    if claims == [] {
      assert popped == [];
    } else {
      var n := |claims| - 1;
      assert Delivered(popped, n);
      var k :| 0 <= k < |popped| && popped[k].ticket == n;
      CoversWithoutLast(popped, claims, k);
      SameValues(Without(popped, k), claims[..n]);
      WithoutValue(popped, k);
      assert ClaimedValues(claims) == ClaimedValues(claims[..n]) + [claims[n].val];
    }
  }

  /** Conservation: once no pop is half done, the values handed out and the values still in the
      abstract queue are together exactly the values accepted, with multiplicity. */
  lemma NothingLostNothingInvented<T>(states: seq<State<T>>, moves: seq<Move<T>>, n: nat)
    requires Execution(states, moves) && n < |states|
    requires forall u :: u in states[n].pcs ==> !states[n].pcs[u].Consuming()
    ensures var s := states[n];
      && |s.claims| == s.enq && s.deq <= s.enq
      && multiset(DeliveredValues(s.popped)) + multiset(Contents(s)) == multiset(ClaimedValues(s.claims))
  {
    var s := states[n];
    ReachableInv(states, moves, n);
    forall t: nat | t < s.deq ensures Delivered(s.popped, t) {
      assert Released(s, t);
    }
    SameValues(s.popped, s.claims[..s.deq]);
    assert ClaimedValues(s.claims) == ClaimedValues(s.claims[..s.deq]) + Contents(s);
  }

  // ---------------------------------------------------------------- refinement

  /** The abstract FIFO: values claimed by producers and not yet claimed by consumers. */
  ghost function Contents<T>(s: State<T>): seq<T>
    requires |s.claims| == s.enq && s.deq <= s.enq
  {
    seq(s.enq - s.deq, i requires 0 <= i < s.enq - s.deq => s.claims[s.deq + i].val)
  }

  ghost predicate Claims<T>(s: State<T>, t: Tid, a: Action<T>)
    requires Enabled(s, t, a)
  {
    a == Step(false) &&
    ((s.pcs[t].PushCas? && s.pcs[t].pos == s.enq) || (s.pcs[t].PopCas? && s.pcs[t].pos == s.deq))
  }

  /** Refinement of a bounded FIFO: a winning compare-exchange of `push` appends its value, one
      of `pop` removes the head and its caller goes on to return exactly that head, and every
      other step leaves the abstract queue alone. */
  lemma RefinesBoundedFifo<T>(s: State<T>, t: Tid, a: Action<T>)
    requires Inv(s) && Enabled(s, t, a)
    ensures var s' := Next(s, t, a);
      && |Contents(s)| <= s.cap
      && Inv(s')
      && (!Claims(s, t, a) ==> Contents(s') == Contents(s))
      && (Claims(s, t, a) && s.pcs[t].PushCas? ==>
            |Contents(s)| < s.cap && Contents(s') == Contents(s) + [s.pcs[t].val])
      && (Claims(s, t, a) && s.pcs[t].PopCas? ==>
            |Contents(s)| > 0 && Contents(s') == Contents(s)[1..]
            && s'.claims[s'.pcs[t].pos].val == Contents(s)[0])
  {
    StepKeepsInv(s, t, a);
    assert ThreadInv(s, t);
    if Claims(s, t, a) {
      ServedBy(s, s.pcs[t].pos);
      assert SlotInv(s, Slot(s.pcs[t].pos, s.cap));
    }
  }

  // ---------------------------------------------------------------- failures and retries

  /** `push` reports full exactly when, at its load of the slot's sequence number, it holds the
      current position and the ticket one lap earlier has not released the slot. */
  lemma PushFailsIff<T>(s: State<T>, t: Tid, spurious: bool)
    requires Inv(s) && t in s.pcs && s.pcs[t].PushLoadSeq?
    ensures PushStep(s, t, spurious).pcs[t] == Idle(PushFull) <==>
      s.pcs[t].pos == s.enq && s.enq >= s.cap && !Released(s, s.enq - s.cap)
  {
    var pos := s.pcs[t].pos;
    var i := Slot(pos, s.cap);
    assert ThreadInv(s, t);
    assert SlotInv(s, i);
    SlotOrder(Ticket(s, i), pos, s.cap);
    if pos >= s.cap {
      SlotNextLap(pos - s.cap, s.cap);
      SlotOrder(Ticket(s, i), pos - s.cap, s.cap);
      if pos == s.enq && pos - s.cap < s.deq && s.takes[pos - s.cap] in s.pcs {
        assert ThreadInv(s, s.takes[pos - s.cap]);
      }
    }
  }

  /** The slot of the next ticket is free: it has never been used, or the ticket one lap earlier
      has released it. */
  ghost predicate Free<T>(s: State<T>)
    requires |s.takes| == s.deq
  {
    s.enq < s.cap || Released(s, s.enq - s.cap)
  }

  /** Where the load of the sequence number leads `push`. With the current position it goes on to
      the compare-exchange exactly if the slot is free, and fails otherwise. With a stale position it
      loads the position again once that ticket is published, and before that goes on to a
      compare-exchange that is going to fail. */
  lemma PushGoesOnIff<T>(s: State<T>, t: Tid, spurious: bool)
    requires Inv(s) && t in s.pcs && s.pcs[t].PushLoadSeq?
    ensures var v, pos, pc' := s.pcs[t].val, s.pcs[t].pos, PushStep(s, t, spurious).pcs[t];
      && pos <= s.enq
      && (pc' == PushCas(v, pos) <==> if pos == s.enq then Free(s) else !Published(s, pos))
      && (pc' == Idle(PushFull) <==> pos == s.enq && !Free(s))
      && (pc' == PushLoadPos(v) <==> pos < s.enq && Published(s, pos))
  {
    var pos := s.pcs[t].pos;
    assert ThreadInv(s, t);
    PushFailsIff(s, t, spurious);
    if pos < s.enq {
      ClaimedSequence(s, pos);
    } else {
      var i := Slot(pos, s.cap);
      assert SlotInv(s, i);
      SlotOrder(Ticket(s, i), pos, s.cap);
    }
  }

  /** The stale case does occur: two pushes load the same position and one of them claims it. */
  lemma StalePushExample<T>(v: T) returns (states: seq<State<T>>, moves: seq<Move<T>>)
    ensures Execution(states, moves)
    ensures var s := states[|moves|];
      1 in s.pcs && s.pcs[1] == PushCas(v, 0) && 0 < s.enq
  {
    SlotOfSmall(0, 2);
    var step := Step(false);
    var s0 := State(2, 0, 0, [0, 1], [v, v], map[0 := Idle(NoCall), 1 := Idle(NoCall)], [], [], []);
    var s1 := Next(s0, 0, StartPush(v));
    var s2 := Next(s1, 0, step);
    var s3 := Next(s2, 1, StartPush(v));
    var s4 := Next(s3, 1, step);
    var s5 := Next(s4, 0, step);
    var s6 := Next(s5, 0, step);
    var s7 := Next(s6, 1, step);
    states := [s0, s1, s2, s3, s4, s5, s6, s7];
    moves := [Move(0, StartPush(v)), Move(0, step), Move(1, StartPush(v)), Move(1, step), Move(0, step), Move(0, step),
              Move(1, step)];
  }

  /** The slot of a claimed ticket shows that ticket until it is published, and more from then on. */
  lemma ClaimedSequence<T>(s: State<T>, ticket: nat)
    requires Inv(s) && ticket < s.enq
    ensures if Published(s, ticket) then s.seqs[Slot(ticket, s.cap)] > ticket
            else s.seqs[Slot(ticket, s.cap)] == ticket
  {
    var i := Slot(ticket, s.cap);
    assert SlotInv(s, i);
    SlotOrder(Ticket(s, i), ticket, s.cap);
    if s.claims[ticket].who in s.pcs {
      assert ThreadInv(s, s.claims[ticket].who);
    }
  }

  /** `pop` reports empty exactly when, at its load of the slot's sequence number, it holds the
      current position and the ticket there is not published. */
  lemma PopFailsIff<T>(s: State<T>, t: Tid, spurious: bool)
    requires Inv(s) && t in s.pcs && s.pcs[t].PopLoadSeq?
    ensures PopStep(s, t, spurious).pcs[t] == Idle(PopEmpty) <==>
      s.pcs[t].pos == s.deq && !Published(s, s.deq)
  {
    var pos := s.pcs[t].pos;
    var i := Slot(pos, s.cap);
    assert ThreadInv(s, t);
    assert SlotInv(s, i);
    SlotOrder(Ticket(s, i), pos, s.cap);
    if s.deq < s.enq && s.claims[s.deq].who in s.pcs {
      assert ThreadInv(s, s.claims[s.deq].who);
    }
  }

  /** Where the load of the sequence number leads `pop`. */
  lemma PopGoesOnIff<T>(s: State<T>, t: Tid, spurious: bool)
    requires Inv(s) && t in s.pcs && s.pcs[t].PopLoadSeq?
    ensures var pos, pc' := s.pcs[t].pos, PopStep(s, t, spurious).pcs[t];
      && pos <= s.deq
      && (pc' == PopCas(pos) <==> if pos == s.deq then Published(s, pos) else !Released(s, pos))
      && (pc' == Idle(PopEmpty) <==> pos == s.deq && !Published(s, pos))
      && (pc' == PopLoadPos <==> pos < s.deq && Released(s, pos))
  {
    var pos := s.pcs[t].pos;
    assert ThreadInv(s, t);
    PopFailsIff(s, t, spurious);
    TakenSequence(s, pos);
  }

  /** The slot of a ticket that is not ahead of the consumers shows one more than that ticket until
      it is released, and more from then on. */
  lemma TakenSequence<T>(s: State<T>, ticket: nat)
    requires Inv(s) && ticket <= s.deq
    ensures ticket < s.deq ==> if Released(s, ticket) then s.seqs[Slot(ticket, s.cap)] > ticket + 1
                               else s.seqs[Slot(ticket, s.cap)] == ticket + 1
    ensures ticket == s.deq ==> s.seqs[Slot(ticket, s.cap)] <= ticket + 1
  {
    var i := Slot(ticket, s.cap);
    assert SlotInv(s, i);
    SlotOrder(Ticket(s, i), ticket, s.cap);
    if ticket < s.deq && s.takes[ticket] in s.pcs {
      assert ThreadInv(s, s.takes[ticket]);
    }
  }

  /** With no push in flight an empty report means the abstract queue is empty. */
  lemma EmptyMeansEmpty<T>(s: State<T>, t: Tid, spurious: bool)
    requires Inv(s) && t in s.pcs && s.pcs[t].PopLoadSeq?
    requires forall u :: u in s.pcs ==> !s.pcs[u].Producing()
    ensures PopStep(s, t, spurious).pcs[t] == Idle(PopEmpty) <==>
      s.pcs[t].pos == s.deq && Contents(s) == []
  {
    PopFailsIff(s, t, spurious);
  }

  /** A failed attempt of thread `t` that is not a spurious compare-exchange failure. */
  predicate Retries<T>(s: State<T>, t: Tid)
    requires s.Shape() && t in s.pcs
  {
    match s.pcs[t]
    case PushLoadSeq(v, pos) => s.seqs[Slot(pos, s.cap)] > pos
    case PushCas(v, pos) => s.enq != pos
    case PopLoadSeq(pos) => s.seqs[Slot(pos, s.cap)] > pos + 1
    case PopCas(pos) => s.deq != pos
    case _ => false
  }

  /** The position the thread's kind of call competes for. */
  function Front<T>(s: State<T>, t: Tid): nat
    requires t in s.pcs
  {
    if PushPc(s.pcs[t]) then s.enq else s.deq
  }

  /** A retry proves that some thread has moved the position past the stale one. */
  lemma RetryMeansProgress<T>(s: State<T>, t: Tid)
    requires Inv(s) && t in s.pcs && Retries(s, t)
    ensures s.pcs[t].pos < Front(s, t)
  {
    assert ThreadInv(s, t);
    var i := Slot(s.pcs[t].pos, s.cap);
    assert SlotInv(s, i);
    SlotOrder(Ticket(s, i), s.pcs[t].pos, s.cap);
  }

  ghost predicate RetriesAt<T>(states: seq<State<T>>, moves: seq<Move<T>>, t: Tid, k: nat)
    requires k < |moves| < |states|
  {
    Follows(states, moves, k) && moves[k].t == t && Retries(states[k], t)
  }

  /** The retries of thread `t` among `moves[i..j]`. */
  ghost function RetryCount<T>(states: seq<State<T>>, moves: seq<Move<T>>, t: Tid, i: nat, j: nat): nat
    requires Execution(states, moves) && i <= j <= |moves|
    decreases j - i
  {
    if i == j then 0
    else
      var before := RetryCount(states, moves, t, i, j - 1);
      if RetriesAt(states, moves, t, j - 1) then before + 1 else before
  }

  /** How far the call of thread `t` has seen the position advance. */
  function Seen<T>(s: State<T>, t: Tid): nat
    requires t in s.pcs && !s.pcs[t].Idle?
  {
    if s.pcs[t].PushLoadPos? || s.pcs[t].PopLoadPos? then Front(s, t) else s.pcs[t].pos
  }

  lemma SeenGrows<T>(s: State<T>, u: Tid, a: Action<T>, t: Tid)
    requires Inv(s) && Enabled(s, u, a) && t in s.pcs && !s.pcs[t].Idle?
    requires !Next(s, u, a).pcs[t].Idle?
    ensures var s' := Next(s, u, a);
      && PushPc(s'.pcs[t]) == PushPc(s.pcs[t])
      && Seen(s, t) + (if u == t && Retries(s, t) then 1 else 0) <= Seen(s', t)
  {
    if u == t {
      assert ThreadInv(s, t);
      if Retries(s, t) {
        RetryMeansProgress(s, t);
      }
      OwnStepSeen(s, t, a);
    } else {
      OtherStepSeen(s, u, a, t);
    }
  }

  lemma OtherStepSeen<T>(s: State<T>, u: Tid, a: Action<T>, t: Tid)
    requires Enabled(s, u, a) && t in s.pcs && !s.pcs[t].Idle? && u != t
    ensures Next(s, u, a).pcs[t] == s.pcs[t] && Seen(s, t) <= Seen(Next(s, u, a), t)
  {
    assert s.enq <= Next(s, u, a).enq && s.deq <= Next(s, u, a).deq;
  }

  lemma OwnStepSeen<T>(s: State<T>, t: Tid, a: Action<T>)
    requires Enabled(s, t, a) && |s.claims| == s.enq && |s.takes| == s.deq && ThreadInv(s, t)
    requires !s.pcs[t].Idle? && !Next(s, t, a).pcs[t].Idle? && (Retries(s, t) ==> s.pcs[t].pos < Front(s, t))
    ensures var s' := Next(s, t, a);
      PushPc(s'.pcs[t]) == PushPc(s.pcs[t]) && Seen(s, t) + (if Retries(s, t) then 1 else 0) <= Seen(s', t)
  {
  }

  lemma SeenAtMostFront<T>(states: seq<State<T>>, moves: seq<Move<T>>, t: Tid, k: nat)
    requires Execution(states, moves) && k < |states| && t in states[k].pcs && !states[k].pcs[t].Idle?
    ensures Seen(states[k], t) <= Front(states[k], t)
  {
    ReachableInv(states, moves, k);
    assert ThreadInv(states[k], t);
  }

  lemma SeenStep<T>(states: seq<State<T>>, moves: seq<Move<T>>, t: Tid, k: nat)
    requires Execution(states, moves) && k < |moves|
    requires t in states[k].pcs && !states[k].pcs[t].Idle? && t in states[k + 1].pcs && !states[k + 1].pcs[t].Idle?
    ensures PushPc(states[k + 1].pcs[t]) == PushPc(states[k].pcs[t])
    ensures Seen(states[k], t) + (if RetriesAt(states, moves, t, k) then 1 else 0) <= Seen(states[k + 1], t)
  {
    ReachableInv(states, moves, k);
    assert Follows(states, moves, k);
    SeenGrows(states[k], moves[k].t, moves[k].a, t);
  }

  /** Lock freedom, counted: while one call runs from `states[i]` to `states[j]`, it retries at
      most as often as its position was advanced meanwhile. Each advance is a claim that some
      call won, so a call starves only while others succeed. */
  lemma {:induction false} RetriesPaidByProgress<T>(
      states: seq<State<T>>, moves: seq<Move<T>>, t: Tid, i: nat, j: nat)
    requires Execution(states, moves) && i <= j <= |moves|
    requires t in states[i].pcs && (states[i].pcs[t].PushLoadPos? || states[i].pcs[t].PopLoadPos?)
    requires forall k :: i <= k <= j ==> t in states[k].pcs && !states[k].pcs[t].Idle?
    ensures PushPc(states[j].pcs[t]) == PushPc(states[i].pcs[t])
    ensures Front(states[i], t) + RetryCount(states, moves, t, i, j) <= Seen(states[j], t) <= Front(states[j], t)
    decreases j - i
  {
    SeenAtMostFront(states, moves, t, j);
    if i < j {
      RetriesPaidByProgress(states, moves, t, i, j - 1);
      SeenStep(states, moves, t, j - 1);
    }
  }

  // ---------------------------------------------------------------- whole calls

  /** The steps of the call that are left if nothing comes in between. */
  function StepsLeft<T>(pc: Pc<T>): nat {
    match pc
    case Idle(_) => 0
    case PushLoadPos(_) => 5
    case PushLoadSeq(_, _) => 4
    case PushCas(_, _) => 3
    case PushStoreData(_, _) => 2
    case PushStoreSeq(_, _) => 1
    case PopLoadPos => 5
    case PopLoadSeq(_) => 4
    case PopCas(_) => 3
    case PopReadData(_) => 2
    case PopStoreSeq(_, _) => 1
  }

  /** Every step of a call brings it nearer to its end, but for retries and spurious failures, and
      these set it back by one step. */
  lemma StepAdvances<T>(s: State<T>, t: Tid, spurious: bool)
    requires Enabled(s, t, Step(spurious))
    ensures var left, left' := StepsLeft(s.pcs[t]), StepsLeft(Next(s, t, Step(spurious)).pcs[t]);
      left' + 1 <= left + if Retries(s, t) || spurious then 2 else 0
  {
  }

  ghost function OwnSteps<T>(moves: seq<Move<T>>, t: Tid): nat {
    if moves == [] then 0
    else OwnSteps(moves[..|moves| - 1], t) + if moves[|moves| - 1].t == t then 1 else 0
  }

  /** The steps of thread `t` at which a compare-exchange may fail for no reason. */
  ghost function SpuriousSteps<T>(moves: seq<Move<T>>, t: Tid): nat {
    if moves == [] then 0
    else SpuriousSteps(moves[..|moves| - 1], t) + if moves[|moves| - 1] == Move(t, Step(true)) then 1 else 0
  }

  /** The call that thread `t` starts in `states[i]` runs until `states[j]`, and may end there. */
  ghost predicate InCall<T>(states: seq<State<T>>, moves: seq<Move<T>>, t: Tid, i: nat, j: nat) {
    && Execution(states, moves) && i <= j <= |moves|
    && t in states[i].pcs && (states[i].pcs[t].PushLoadPos? || states[i].pcs[t].PopLoadPos?)
    && (forall k :: i <= k < j ==> t in states[k].pcs && !states[k].pcs[t].Idle?)
    && t in states[j].pcs
  }

  lemma OneStepBounded<T>(states: seq<State<T>>, moves: seq<Move<T>>, t: Tid, k: nat)
    requires Execution(states, moves) && k < |moves| && t in states[k].pcs && !states[k].pcs[t].Idle?
    requires t in states[k + 1].pcs
    ensures StepsLeft(states[k + 1].pcs[t]) + (if moves[k].t == t then 1 else 0) <=
      StepsLeft(states[k].pcs[t])
      + 2 * ((if RetriesAt(states, moves, t, k) then 1 else 0) + if moves[k] == Move(t, Step(true)) then 1 else 0)
  {
    assert Follows(states, moves, k);
    if moves[k].t == t {
      StepAdvances(states[k], t, moves[k].a.spurious);
    } else {
      OtherStepSeen(states[k], moves[k].t, moves[k].a, t);
    }
  }

  /** The steps of a call, with those that are left, are five and two for each setback. */
  lemma {:induction false} StepsBounded<T>(states: seq<State<T>>, moves: seq<Move<T>>, t: Tid, i: nat, j: nat)
    requires InCall(states, moves, t, i, j)
    ensures OwnSteps(moves[i..j], t) + StepsLeft(states[j].pcs[t]) <=
      5 + 2 * (RetryCount(states, moves, t, i, j) + SpuriousSteps(moves[i..j], t))
    decreases j - i
  {
    if i < j {
      StepsBounded(states, moves, t, i, j - 1);
      OneStepBounded(states, moves, t, j - 1);
      assert moves[i..j][..j - i - 1] == moves[i..j - 1];
    }
  }

  /** The position that pushes, or pops, compete for. */
  function Position<T>(s: State<T>, pushing: bool): nat {
    if pushing then s.enq else s.deq
  }

  lemma PositionGrows<T>(states: seq<State<T>>, moves: seq<Move<T>>, k: nat, pushing: bool)
    requires Execution(states, moves) && k < |moves|
    ensures Position(states[k], pushing) <= Position(states[k + 1], pushing)
  {
    assert Follows(states, moves, k);
  }

  /** A step that ends a call is no retry. */
  lemma EndIsNoRetry<T>(states: seq<State<T>>, moves: seq<Move<T>>, t: Tid, k: nat)
    requires Execution(states, moves) && k < |moves| && t in states[k].pcs && !states[k].pcs[t].Idle?
    requires t in states[k + 1].pcs && states[k + 1].pcs[t].Idle?
    ensures !RetriesAt(states, moves, t, k)
  {
    assert Follows(states, moves, k);
  }

  /** Every call ends: its steps are at most five, and two for each time that another call won the
      position meanwhile or a compare-exchange failed for no reason. */
  lemma CallBounded<T>(states: seq<State<T>>, moves: seq<Move<T>>, t: Tid, i: nat, j: nat)
    requires InCall(states, moves, t, i, j)
    ensures var pushing := states[i].pcs[t].PushLoadPos?;
      var won := Position(states[j], pushing) - Position(states[i], pushing);
      0 <= won && OwnSteps(moves[i..j], t) + StepsLeft(states[j].pcs[t]) <=
        5 + 2 * (won + SpuriousSteps(moves[i..j], t))
  {
    StepsBounded(states, moves, t, i, j);
    if !states[j].pcs[t].Idle? {
      RetriesPaidByProgress(states, moves, t, i, j);
    } else {
      RetriesPaidByProgress(states, moves, t, i, j - 1);
      EndIsNoRetry(states, moves, t, j - 1);
      PositionGrows(states, moves, j - 1, states[i].pcs[t].PushLoadPos?);
    }
  }

  /** Nobody else takes a step from `states[i]` to `states[j]`, and no compare-exchange fails for no
      reason. */
  ghost predicate Uninterrupted<T>(states: seq<State<T>>, moves: seq<Move<T>>, t: Tid, i: nat, j: nat) {
    && Execution(states, moves) && i <= j <= |moves|
    && (forall k :: i <= k < j ==> moves[k] == Move(t, Step(false)))
  }

  ghost predicate Alone<T>(states: seq<State<T>>, moves: seq<Move<T>>, t: Tid, i: nat, j: nat) {
    && Uninterrupted(states, moves, t, i, j)
    && (forall k :: i <= k <= j ==> t in states[k].pcs && Inv(states[k]))
  }

  lemma IsAlone<T>(states: seq<State<T>>, moves: seq<Move<T>>, t: Tid, i: nat, j: nat)
    requires Uninterrupted(states, moves, t, i, j) && i < j
    ensures Alone(states, moves, t, i, j)
  {
    forall k | i <= k <= j ensures t in states[k].pcs && Inv(states[k]) {
      ReachableInv(states, moves, k);
      assert Follows(states, moves, if k < j then k else k - 1);
    }
  }

  ghost predicate SameQueue<T>(s: State<T>, s': State<T>)
    requires Inv(s) && Inv(s')
  {
    && s'.cap == s.cap && s'.enq == s.enq && s'.deq == s.deq && s'.claims == s.claims && s'.takes == s.takes
    && Contents(s') == Contents(s)
  }

  lemma PushLoadsAlone<T>(states: seq<State<T>>, moves: seq<Move<T>>, t: Tid, k: nat)
    requires Alone(states, moves, t, k, k + 1) && states[k].pcs[t].PushLoadPos?
    ensures states[k + 1].pcs == states[k].pcs[t := PushLoadSeq(states[k].pcs[t].val, states[k].enq)]
    ensures SameQueue(states[k], states[k + 1])
    ensures Free(states[k + 1]) == Free(states[k])
  {
    assert Follows(states, moves, k);
  }

  lemma PushLooksAlone<T>(states: seq<State<T>>, moves: seq<Move<T>>, t: Tid, k: nat)
    requires Alone(states, moves, t, k, k + 1) && states[k].pcs[t].PushLoadSeq? && states[k].pcs[t].pos == states[k].enq
    ensures Free(states[k]) ==> states[k + 1].pcs == states[k].pcs[t := PushCas(states[k].pcs[t].val, states[k].enq)]
    ensures !Free(states[k]) ==> states[k + 1].pcs == states[k].pcs[t := Idle(PushFull)]
    ensures SameQueue(states[k], states[k + 1])
  {
    assert Follows(states, moves, k);
    PushGoesOnIff(states[k], t, false);
  }

  lemma PushClaimsAlone<T>(states: seq<State<T>>, moves: seq<Move<T>>, t: Tid, k: nat)
    requires Alone(states, moves, t, k, k + 1) && states[k].pcs[t].PushCas? && states[k].pcs[t].pos == states[k].enq
    ensures states[k + 1].pcs == states[k].pcs[t := PushStoreData(states[k].pcs[t].val, states[k].enq)]
    ensures Contents(states[k + 1]) == Contents(states[k]) + [states[k].pcs[t].val]
  {
    assert Follows(states, moves, k);
    RefinesBoundedFifo(states[k], t, Step(false));
  }

  lemma PushStoresAlone<T>(states: seq<State<T>>, moves: seq<Move<T>>, t: Tid, k: nat)
    requires Alone(states, moves, t, k, k + 1) && states[k].pcs[t].PushStoreData?
    ensures states[k + 1].pcs == states[k].pcs[t := PushStoreSeq(states[k].pcs[t].val, states[k].pcs[t].pos)]
    ensures SameQueue(states[k], states[k + 1])
  {
    assert Follows(states, moves, k);
  }

  lemma PublishesAlone<T>(states: seq<State<T>>, moves: seq<Move<T>>, t: Tid, k: nat)
    requires Alone(states, moves, t, k, k + 1) && states[k].pcs[t].PushStoreSeq?
    ensures states[k + 1].pcs == states[k].pcs[t := Idle(PushOk(states[k].pcs[t].pos))]
    ensures SameQueue(states[k], states[k + 1])
  {
    assert Follows(states, moves, k);
  }

  lemma PopLoadsAlone<T>(states: seq<State<T>>, moves: seq<Move<T>>, t: Tid, k: nat)
    requires Alone(states, moves, t, k, k + 1) && states[k].pcs[t].PopLoadPos?
    ensures states[k + 1].pcs == states[k].pcs[t := PopLoadSeq(states[k].deq)] && SameQueue(states[k], states[k + 1])
    ensures Published(states[k + 1], states[k].deq) == Published(states[k], states[k].deq)
  {
    assert Follows(states, moves, k);
  }

  lemma PopLooksAlone<T>(states: seq<State<T>>, moves: seq<Move<T>>, t: Tid, k: nat)
    requires Alone(states, moves, t, k, k + 1) && states[k].pcs[t].PopLoadSeq? && states[k].pcs[t].pos == states[k].deq
    ensures Published(states[k], states[k].deq) ==> states[k + 1].pcs == states[k].pcs[t := PopCas(states[k].deq)]
    ensures !Published(states[k], states[k].deq) ==> states[k + 1].pcs == states[k].pcs[t := Idle(PopEmpty)]
    ensures SameQueue(states[k], states[k + 1])
  {
    assert Follows(states, moves, k);
    PopGoesOnIff(states[k], t, false);
  }

  lemma PopClaimsAlone<T>(states: seq<State<T>>, moves: seq<Move<T>>, t: Tid, k: nat)
    requires Alone(states, moves, t, k, k + 1) && states[k].pcs[t].PopCas? && states[k].pcs[t].pos == states[k].deq
    ensures states[k + 1].pcs == states[k].pcs[t := PopReadData(states[k].deq)]
    ensures Contents(states[k]) != [] && Contents(states[k + 1]) == Contents(states[k])[1..]
    ensures states[k].deq < states[k + 1].enq && states[k + 1].claims[states[k].deq].val == Contents(states[k])[0]
  {
    assert Follows(states, moves, k);
    RefinesBoundedFifo(states[k], t, Step(false));
  }

  lemma PopReadsAlone<T>(states: seq<State<T>>, moves: seq<Move<T>>, t: Tid, k: nat)
    requires Alone(states, moves, t, k, k + 1) && states[k].pcs[t].PopReadData? && states[k].pcs[t].pos < states[k].enq
    ensures states[k + 1].pcs ==
      states[k].pcs[t := PopStoreSeq(states[k].pcs[t].pos, states[k].claims[states[k].pcs[t].pos].val)]
    ensures SameQueue(states[k], states[k + 1])
  {
    assert Follows(states, moves, k);
    assert ThreadInv(states[k], t);
  }

  lemma ReleasesAlone<T>(states: seq<State<T>>, moves: seq<Move<T>>, t: Tid, k: nat)
    requires Alone(states, moves, t, k, k + 1) && states[k].pcs[t].PopStoreSeq?
    ensures states[k + 1].pcs == states[k].pcs[t := Idle(PopOk(states[k].pcs[t].pos, states[k].pcs[t].val))]
    ensures SameQueue(states[k], states[k + 1])
  {
    assert Follows(states, moves, k);
  }

  lemma PushFindsRoom<T>(states: seq<State<T>>, moves: seq<Move<T>>, t: Tid, i: nat)
    requires Alone(states, moves, t, i, i + 2) && states[i].pcs[t].PushLoadPos?
    ensures Free(states[i]) ==> states[i + 2].pcs == states[i].pcs[t := PushCas(states[i].pcs[t].val, states[i].enq)]
    ensures !Free(states[i]) ==> states[i + 2].pcs == states[i].pcs[t := Idle(PushFull)]
    ensures SameQueue(states[i], states[i + 2])
  {
    PushLoadsAlone(states, moves, t, i);
    PushLooksAlone(states, moves, t, i + 1);
  }

  lemma PushEndsAlone<T>(states: seq<State<T>>, moves: seq<Move<T>>, t: Tid, i: nat)
    requires Alone(states, moves, t, i, i + 3) && states[i].pcs[t].PushCas? && states[i].pcs[t].pos == states[i].enq
    ensures states[i + 3].pcs == states[i].pcs[t := Idle(PushOk(states[i].enq))]
    ensures Contents(states[i + 3]) == Contents(states[i]) + [states[i].pcs[t].val]
  {
    PushClaimsAlone(states, moves, t, i);
    PushStoresAlone(states, moves, t, i + 1);
    PublishesAlone(states, moves, t, i + 2);
  }

  lemma PushStarts<T>(states: seq<State<T>>, moves: seq<Move<T>>, t: Tid, v: T, i: nat)
    requires Execution(states, moves) && i < |moves| && moves[i] == Move(t, StartPush(v))
    ensures Inv(states[i]) && Inv(states[i + 1]) && SameQueue(states[i], states[i + 1])
    ensures t in states[i].pcs && states[i + 1].pcs == states[i].pcs[t := PushLoadPos(v)]
    ensures Free(states[i + 1]) == Free(states[i])
  {
    ReachableInv(states, moves, i);
    ReachableInv(states, moves, i + 1);
    assert Follows(states, moves, i);
  }

  /** A push that is left alone ends within five steps. It succeeds, with its value at the end of the
      queue, if the slot of the next ticket is free; otherwise it reports full. */
  lemma PushAlone<T>(states: seq<State<T>>, moves: seq<Move<T>>, t: Tid, v: T, i: nat, j: nat)
    requires Execution(states, moves) && i < |moves| && moves[i] == Move(t, StartPush(v))
    requires Uninterrupted(states, moves, t, i + 1, j) && i + 3 <= j
    ensures Inv(states[i]) && Inv(states[j])
    ensures !Free(states[i]) ==>
      && states[i + 3].pcs == states[i].pcs[t := Idle(PushFull)]
      && Inv(states[i + 3]) && Contents(states[i + 3]) == Contents(states[i])
    ensures Free(states[i]) && j == i + 6 ==>
      && states[j].pcs == states[i].pcs[t := Idle(PushOk(states[i].enq))]
      && Contents(states[j]) == Contents(states[i]) + [v]
  {
    PushStarts(states, moves, t, v, i);
    IsAlone(states, moves, t, i + 1, j);
    PushFindsRoom(states, moves, t, i + 1);
    if Free(states[i]) && j == i + 6 {
      PushEndsAlone(states, moves, t, i + 3);
    }
  }

  lemma PopFindsValue<T>(states: seq<State<T>>, moves: seq<Move<T>>, t: Tid, i: nat)
    requires Alone(states, moves, t, i, i + 2) && states[i].pcs[t].PopLoadPos?
    ensures var published := Published(states[i], states[i].deq);
      && (published ==> states[i + 2].pcs == states[i].pcs[t := PopCas(states[i].deq)])
      && (!published ==> states[i + 2].pcs == states[i].pcs[t := Idle(PopEmpty)])
    ensures SameQueue(states[i], states[i + 2])
  {
    PopLoadsAlone(states, moves, t, i);
    PopLooksAlone(states, moves, t, i + 1);
  }

  lemma PopEndsAlone<T>(states: seq<State<T>>, moves: seq<Move<T>>, t: Tid, i: nat)
    requires Alone(states, moves, t, i, i + 3) && states[i].pcs[t].PopCas? && states[i].pcs[t].pos == states[i].deq
    ensures Contents(states[i]) != []
    ensures states[i + 3].pcs == states[i].pcs[t := Idle(PopOk(states[i].deq, Contents(states[i])[0]))]
    ensures Contents(states[i + 3]) == Contents(states[i])[1..]
  {
    PopClaimsAlone(states, moves, t, i);
    PopReadsAlone(states, moves, t, i + 1);
    ReleasesAlone(states, moves, t, i + 2);
  }

  lemma PopStarts<T>(states: seq<State<T>>, moves: seq<Move<T>>, t: Tid, i: nat)
    requires Execution(states, moves) && i < |moves| && moves[i] == Move(t, StartPop)
    ensures Inv(states[i]) && Inv(states[i + 1]) && SameQueue(states[i], states[i + 1])
    ensures t in states[i].pcs && states[i + 1].pcs == states[i].pcs[t := PopLoadPos]
    ensures Published(states[i + 1], states[i].deq) == Published(states[i], states[i].deq)
  {
    ReachableInv(states, moves, i);
    ReachableInv(states, moves, i + 1);
    assert Follows(states, moves, i);
  }

  /** A pop that is left alone ends within five steps. It returns the head of the queue if that is
      published; otherwise it reports empty. */
  lemma PopAlone<T>(states: seq<State<T>>, moves: seq<Move<T>>, t: Tid, i: nat, j: nat)
    requires Execution(states, moves) && i < |moves| && moves[i] == Move(t, StartPop)
    requires Uninterrupted(states, moves, t, i + 1, j) && i + 3 <= j
    ensures Inv(states[i]) && Inv(states[j])
    ensures !Published(states[i], states[i].deq) ==>
      && states[i + 3].pcs == states[i].pcs[t := Idle(PopEmpty)]
      && Inv(states[i + 3]) && Contents(states[i + 3]) == Contents(states[i])
    ensures Published(states[i], states[i].deq) && j == i + 6 ==>
      && Contents(states[i]) != []
      && states[j].pcs == states[i].pcs[t := Idle(PopOk(states[i].deq, Contents(states[i])[0]))]
      && Contents(states[j]) == Contents(states[i])[1..]
  {
    PopStarts(states, moves, t, i);
    IsAlone(states, moves, t, i + 1, j);
    PopFindsValue(states, moves, t, i + 1);
    if Published(states[i], states[i].deq) && j == i + 6 {
      PopEndsAlone(states, moves, t, i + 3);
    }
  }
}
