/** `SPSCQueue`: one producer and one consumer over a ring, as an interleaving of atomic steps.

    Each atomic load or store is one step and so is each access to `buffer_`. `head` and `tail`
    are the masked indices the code stores. `pushed` and `popped` are histories. */
module SpscQueue {
  import opened BitMask
  import opened Options

  datatype Producer<T> =
    | ProducerIdle(ok: bool)
    | LoadTail(val: T)
    | LoadHead(val: T, tail: nat)
    | WriteSlot(val: T, tail: nat)
    | StoreTail(val: T, tail: nat)

  datatype Consumer<T> =
    | ConsumerIdle(got: Option<T>)
    | PopLoadHead
    | PopLoadTail(head: nat)
    | ReadSlot(head: nat)
    | StoreHead(head: nat, val: T)

  datatype State<T> = State(
    cap: nat,
    head: nat,
    tail: nat,
    buffer: seq<T>,
    producer: Producer<T>,
    consumer: Consumer<T>,
    pushed: seq<T>,
    popped: seq<T>)

  ghost predicate Init<T>(s: State<T>) {
    && ValidCapacity(s.cap) && |s.buffer| == s.cap && s.head == 0 && s.tail == 0
    && s.producer.ProducerIdle? && s.consumer.ConsumerIdle? && s.pushed == [] && s.popped == []
  }

  datatype Action<T> = StartPush(val: T) | StartPop | ProducerStep | ConsumerStep

  predicate Enabled<T>(s: State<T>, a: Action<T>) {
    && ValidCapacity(s.cap) && |s.buffer| == s.cap
    && match a
       case StartPush(_) => s.producer.ProducerIdle?
       case StartPop => s.consumer.ConsumerIdle?
       case ProducerStep => !s.producer.ProducerIdle?
       case ConsumerStep => !s.consumer.ConsumerIdle?
  }

  /** A slot access lies within the buffer. A step that would go beyond it is not given a meaning:
      `AlwaysInBounds` shows that there is none. */
  predicate InBounds<T>(s: State<T>) {
    (s.producer.WriteSlot? ==> s.producer.tail < |s.buffer|) && (s.consumer.ReadSlot? ==> s.consumer.head < |s.buffer|)
  }

  function Next<T>(s: State<T>, a: Action<T>): State<T>
    requires Enabled(s, a)
  {
    if !InBounds(s) then s else
    match a
    case StartPush(v) => s.(producer := LoadTail(v))
    case StartPop => s.(consumer := PopLoadHead)
    case ProducerStep =>
      (match s.producer
       case LoadTail(v) => s.(producer := LoadHead(v, s.tail))
       case LoadHead(v, tail) =>
         if Slot(tail + 1, s.cap) == s.head then s.(producer := ProducerIdle(false))
         else s.(producer := WriteSlot(v, tail))
       case WriteSlot(v, tail) => s.(buffer := s.buffer[tail := v], producer := StoreTail(v, tail))
       case StoreTail(v, tail) =>
         s.(tail := Slot(tail + 1, s.cap), producer := ProducerIdle(true), pushed := s.pushed + [v]))
    case ConsumerStep =>
      (match s.consumer
       case PopLoadHead => s.(consumer := PopLoadTail(s.head))
       case PopLoadTail(head) =>
         if head == s.tail then s.(consumer := ConsumerIdle(None)) else s.(consumer := ReadSlot(head))
       case ReadSlot(head) => s.(consumer := StoreHead(head, s.buffer[head]))
       case StoreHead(head, v) =>
         s.(head := Slot(head + 1, s.cap), consumer := ConsumerIdle(Some(v)), popped := s.popped + [v]))
  }

  /** `size()` with both loads in one quiet moment. */
  function Size<T>(s: State<T>): nat
    requires ValidCapacity(s.cap) && s.head <= s.tail + s.cap
  {
    And(s.tail - s.head + s.cap, s.cap - 1)
  }

  /** The bounded sequence the ring implements. */
  function Contents<T>(s: State<T>): seq<T>
    requires |s.popped| <= |s.pushed|
  {
    s.pushed[|s.popped|..]
  }

  ghost predicate RingInv<T>(s: State<T>) {
    && ValidCapacity(s.cap) && |s.buffer| == s.cap
    && |s.popped| <= |s.pushed| < |s.popped| + s.cap
    && s.head == Slot(|s.popped|, s.cap) && s.tail == Slot(|s.pushed|, s.cap)
    && s.popped == s.pushed[..|s.popped|]
    && forall k :: |s.popped| <= k < |s.pushed| ==> s.buffer[Slot(k, s.cap)] == s.pushed[k]
  }

  ghost predicate Inv<T>(s: State<T>) {
    && RingInv(s)
    && (match s.producer
        case LoadHead(v, tail) => tail == s.tail
        case WriteSlot(v, tail) => tail == s.tail && |s.pushed| + 1 < |s.popped| + s.cap
        case StoreTail(v, tail) =>
          tail == s.tail && |s.pushed| + 1 < |s.popped| + s.cap && s.buffer[tail] == v
        case _ => true)
    && (match s.consumer
        case PopLoadTail(head) => head == s.head
        case ReadSlot(head) => head == s.head && |s.popped| < |s.pushed|
        case StoreHead(head, v) => head == s.head && |s.popped| < |s.pushed| && v == s.pushed[|s.popped|]
        case _ => true)
  }

  /** The producer finds the ring full exactly when only the reserved slot is left. */
  lemma FullIff<T>(s: State<T>)
    requires RingInv(s)
    ensures Slot(s.tail + 1, s.cap) == s.head <==> |Contents(s)| == s.cap - 1
  {
    SlotAdvance(|s.pushed|, 1, s.cap);
    if |s.pushed| + 1 == |s.popped| + s.cap {
      SlotNextLap(|s.popped|, s.cap);
    } else {
      NearSlotsDiffer(|s.popped|, |s.pushed| + 1, s.cap);
    }
  }

  /** The consumer finds the ring empty exactly when it is. */
  lemma EmptyIff<T>(s: State<T>)
    requires RingInv(s)
    ensures s.head == s.tail <==> Contents(s) == []
  {
    if |s.popped| < |s.pushed| {
      NearSlotsDiffer(|s.popped|, |s.pushed|, s.cap);
    }
  }

  lemma WriteKeepsInv<T>(s: State<T>)
    requires Inv(s) && s.producer.WriteSlot?
    ensures Inv(Next(s, ProducerStep))
  {
    forall k | |s.popped| <= k < |s.pushed| ensures Slot(k, s.cap) != s.tail {
      NearSlotsDiffer(k, |s.pushed|, s.cap);
    }
  }

  lemma StoreTailKeepsRing<T>(s: State<T>)
    requires RingInv(s) && InBounds(s) && s.producer.StoreTail?
    requires s.producer.tail == s.tail && |s.pushed| + 1 < |s.popped| + s.cap && s.buffer[s.tail] == s.producer.val
    ensures RingInv(Next(s, ProducerStep))
  {
    var s' := Next(s, ProducerStep);
    assert s'.tail == Slot(|s'.pushed|, s.cap) by {
      SlotAdvance(|s.pushed|, 1, s.cap);
    }
    assert s'.pushed[..|s.popped|] == s.pushed[..|s.popped|];
    forall k | |s.popped| <= k < |s'.pushed| ensures s'.buffer[Slot(k, s.cap)] == s'.pushed[k] {
      assert k < |s.pushed| ==> s'.pushed[k] == s.pushed[k];
    }
  }

  lemma ProducerKeepsInv<T>(s: State<T>)
    requires Inv(s) && Enabled(s, ProducerStep)
    ensures Inv(Next(s, ProducerStep))
  {
    match s.producer
    case LoadTail(_) => assert RingInv(Next(s, ProducerStep));
    case LoadHead(_, _) => FullIff(s);
    case WriteSlot(_, _) => WriteKeepsInv(s);
    case StoreTail(_, _) => StoreTailKeepsRing(s);
  }

  lemma StoreHeadKeepsRing<T>(s: State<T>)
    requires RingInv(s) && InBounds(s) && s.consumer.StoreHead?
    requires s.consumer.head == s.head && |s.popped| < |s.pushed| && s.consumer.val == s.pushed[|s.popped|]
    ensures RingInv(Next(s, ConsumerStep))
  {
    SlotAdvance(|s.popped|, 1, s.cap);
  }

  lemma ConsumerKeepsInv<T>(s: State<T>)
    requires Inv(s) && Enabled(s, ConsumerStep)
    ensures Inv(Next(s, ConsumerStep))
  {
    match s.consumer
    case PopLoadHead => assert RingInv(Next(s, ConsumerStep));
    case PopLoadTail(_) => EmptyIff(s);
    case ReadSlot(_) => assert RingInv(Next(s, ConsumerStep));
    case StoreHead(_, _) => StoreHeadKeepsRing(s);
  }

  lemma StepKeepsInv<T>(s: State<T>, a: Action<T>)
    requires Inv(s) && Enabled(s, a)
    ensures Inv(Next(s, a))
  {
    match a
    case ProducerStep => ProducerKeepsInv(s);
    case ConsumerStep => ConsumerKeepsInv(s);
    case _ =>
  }

  ghost predicate Execution<T>(states: seq<State<T>>, moves: seq<Action<T>>) {
    && |states| == |moves| + 1 && Init(states[0])
    && forall k {:trigger Follows(states, moves, k)} :: 0 <= k < |moves| ==> Follows(states, moves, k)
  }

  ghost predicate Follows<T>(states: seq<State<T>>, moves: seq<Action<T>>, k: nat)
    requires k < |moves| < |states|
  {
    Enabled(states[k], moves[k]) && states[k + 1] == Next(states[k], moves[k])
  }

  lemma {:induction false} ReachableInv<T>(states: seq<State<T>>, moves: seq<Action<T>>, n: nat)
    requires Execution(states, moves) && n < |states|
    ensures Inv(states[n])
  {
    if n == 0 {
      SlotOfSmall(0, states[0].cap);
    } else {
      ReachableInv(states, moves, n - 1);
      assert Follows(states, moves, n - 1);
      StepKeepsInv(states[n - 1], moves[n - 1]);
    }
  }

  /** No slot access ever leaves the buffer. */
  lemma AlwaysInBounds<T>(states: seq<State<T>>, moves: seq<Action<T>>, n: nat)
    requires Execution(states, moves) && n < |states|
    ensures InBounds(states[n])
  {
    ReachableInv(states, moves, n);
  }

  /** In every interleaving the values popped so far followed by the contents are the values
      pushed so far, at most `Capacity - 1` values are inside, and the two threads are never
      about to touch the same slot. */
  lemma RefinesBoundedSequence<T>(states: seq<State<T>>, moves: seq<Action<T>>, n: nat)
    requires Execution(states, moves) && n < |states|
    ensures var s := states[n];
      && |s.popped| <= |s.pushed|
      && s.popped + Contents(s) == s.pushed
      && |Contents(s)| <= s.cap - 1
      && (s.producer.WriteSlot? && s.consumer.ReadSlot? ==> s.producer.tail != s.consumer.head)
  {
    var s := states[n];
    ReachableInv(states, moves, n);
    if s.consumer.ReadSlot? {
      EmptyIff(s);
    }
  }

  /** One step of the abstract queue: a finished push appends, a finished pop returns the head,
      `push` fails exactly on a full queue and `pop` exactly on an empty one. */
  lemma StepRefines<T>(s: State<T>, a: Action<T>)
    requires Inv(s) && Enabled(s, a)
    ensures var s' := Next(s, a);
      && |s'.popped| <= |s'.pushed|
      && (if a.ProducerStep? && s.producer.StoreTail? then
            Contents(s') == Contents(s) + [s.producer.val] && s'.producer == ProducerIdle(true)
          else if a.ConsumerStep? && s.consumer.StoreHead? then
            Contents(s) == [s.consumer.val] + Contents(s') && s'.consumer == ConsumerIdle(Some(s.consumer.val))
          else Contents(s') == Contents(s))
      && (a.ProducerStep? && s.producer.LoadHead? ==>
            (s'.producer == ProducerIdle(false) <==> |Contents(s)| == s.cap - 1))
      && (a.ConsumerStep? && s.consumer.PopLoadTail? ==>
            (s'.consumer == ConsumerIdle(None) <==> Contents(s) == []))
  {
    match a
    case ProducerStep => FullIff(s);
    case ConsumerStep => EmptyIff(s);
    case _ =>
  }

  /** `size()` is exact whenever neither index is changing. */
  lemma SizeExact<T>(s: State<T>)
    requires RingInv(s)
    ensures s.head <= s.tail + s.cap && Size(s) == |Contents(s)|
  {
    var d := |s.pushed| - |s.popped|;
    SlotAdvance(|s.popped|, d, s.cap);
    SlotOfSmall(d, s.cap);
    SlotNextLap(d, s.cap);
  }

  // ---------------------------------------------------------------- whole calls

  function PushLeft<T>(producer: Producer<T>): nat {
    match producer
    case ProducerIdle(_) => 0
    case LoadTail(_) => 4
    case LoadHead(_, _) => 3
    case WriteSlot(_, _) => 2
    case StoreTail(_, _) => 1
  }

  function PopLeft<T>(consumer: Consumer<T>): nat {
    match consumer
    case ConsumerIdle(_) => 0
    case PopLoadHead => 4
    case PopLoadTail(_) => 3
    case ReadSlot(_) => 2
    case StoreHead(_, _) => 1
  }

  ghost function Count<T>(moves: seq<Action<T>>, a: Action<T>): nat {
    if moves == [] then 0 else Count(moves[..|moves| - 1], a) + if moves[|moves| - 1] == a then 1 else 0
  }

  /** A call of `push` as far as `states[k]`, whatever the consumer does meanwhile: it is wait-free,
      and it has pushed its value if it has returned true, and nothing otherwise. */
  lemma {:induction false} PushCall<T>(states: seq<State<T>>, moves: seq<Action<T>>, v: T, i: nat, k: nat)
    requires Execution(states, moves) && i < k <= |moves| && moves[i] == StartPush(v)
    requires forall m :: i < m < k ==> !states[m].producer.ProducerIdle?
    ensures Count(moves[i + 1..k], ProducerStep) + PushLeft(states[k].producer) <= 4
    ensures match states[k].producer
      case ProducerIdle(ok) => states[k].pushed == if ok then states[i].pushed + [v] else states[i].pushed
      case running => running.val == v && states[k].pushed == states[i].pushed
    decreases k
  {
    AlwaysInBounds(states, moves, k - 1);
    assert Follows(states, moves, k - 1);
    if i + 1 < k {
      PushCall(states, moves, v, i, k - 1);
      assert moves[i + 1..k][..k - i - 2] == moves[i + 1..k - 1];
    }
  }

  /** The same for `pop`. */
  lemma {:induction false} PopCall<T>(states: seq<State<T>>, moves: seq<Action<T>>, i: nat, k: nat)
    requires Execution(states, moves) && i < k <= |moves| && moves[i] == StartPop
    requires forall m :: i < m < k ==> !states[m].consumer.ConsumerIdle?
    ensures Count(moves[i + 1..k], ConsumerStep) + PopLeft(states[k].consumer) <= 4
    ensures match states[k].consumer
      case ConsumerIdle(Some(v)) => states[k].popped == states[i].popped + [v]
      case _ => states[k].popped == states[i].popped
    decreases k
  {
    AlwaysInBounds(states, moves, k - 1);
    assert Follows(states, moves, k - 1);
    if i + 1 < k {
      PopCall(states, moves, i, k - 1);
      assert moves[i + 1..k][..k - i - 2] == moves[i + 1..k - 1];
    }
  }
}
