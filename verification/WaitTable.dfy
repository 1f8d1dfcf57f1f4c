/** The executor's own records of the waits: the descriptor table, the channels registered with
    epoll, and the timer heap with its stale entries. Together they stand for a plain map from
    armed waits to deadlines. */
module WaitTable {
  import opened Options
  import opened Frames
  import opened Executor

  datatype WaitSlot = WaitSlot(frame: FrameId, token: nat)

  datatype FdState = FdState(reader: Option<WaitSlot>, writer: Option<WaitSlot>, interest: set<Event>, registered: bool)
  {
    function Slot(event: Event): Option<WaitSlot> {
      if event == Read then reader else writer
    }

    function WithSlot(event: Event, slot: Option<WaitSlot>): FdState {
      if event == Read then this.(reader := slot) else this.(writer := slot)
    }

    predicate Unused() {
      reader == None && writer == None
    }

    /** The directions that have a waiter. */
    function Directions(): set<Event> {
      (if reader.Some? then {Read} else {}) + (if writer.Some? then {Write} else {})
    }
  }

  const NEW_STATE := FdState(None, None, {}, false)

  type Table = map<int, FdState>

  type Channels = map<int, set<Event>>

  function At(fds: Table, key: Key): Option<WaitSlot> {
    if key.fd in fds then fds[key.fd].Slot(key.event) else None
  }

  /** An entry exists for a descriptor iff it has a waiter. It is then registered, and its
      interest, also as known to epoll, is the set of waiting directions. */
  ghost predicate Registered(fds: Table, channels: Channels) {
    && channels.Keys == fds.Keys
    && forall fd :: fd in fds ==>
         && 0 <= fd && !fds[fd].Unused() && fds[fd].registered
         && fds[fd].interest == fds[fd].Directions() && channels[fd] == fds[fd].interest
  }

  /** The slots hold exactly the armed waits. */
  ghost predicate Slots(fds: Table, waits: map<Key, Wait>) {
    && (forall k :: k in waits ==> At(fds, k) == Some(WaitSlot(waits[k].frame, waits[k].token)))
    && (forall k :: At(fds, k).Some? ==> k in waits)
  }

  // ---------------------------------------------------------------- changes to one entry

  /** The entry of `fd` after `refresh_interest`, and the channels. */
  function Refreshed(state: FdState): FdState {
    if state.Unused() then state.(registered := false)
    else state.(interest := state.Directions(), registered := true)
  }

  function Told(channels: Channels, fd: int, state: FdState): Channels {
    if state.Unused() then channels - {fd} else channels[fd := state.Directions()]
  }

  /** The table after an entry was refreshed, and erased if unused. */
  function Settled(fds: Table, fd: int, state: FdState): Table {
    if state.Unused() then fds - {fd} else fds[fd := Refreshed(state)]
  }

  lemma SettledOver(fds: Table, fd: int, state: FdState)
    ensures Settled(fds[fd := state], fd, state) == Settled(fds, fd, state)
  {
    assert fds[fd := state] - {fd} == fds - {fd};
    assert fds[fd := state][fd := Refreshed(state)] == fds[fd := Refreshed(state)];
  }

  lemma SettledRegistered(fds: Table, channels: Channels, fd: int, state: FdState)
    requires Registered(fds, channels) && 0 <= fd
    ensures Registered(Settled(fds, fd, state), Told(channels, fd, state))
  {
  }

  lemma SettledEnd(fds: Table, waits: map<Key, Wait>, key: Key)
    requires Slots(fds, waits) && key.fd in fds
    ensures Slots(Settled(fds, key.fd, fds[key.fd].WithSlot(key.event, None)), waits - {key})
  {
  }

  lemma SettledArm(fds: Table, waits: map<Key, Wait>, key: Key, wait: Wait)
    requires Slots(fds, waits) && key !in waits
    ensures var state := if key.fd in fds then fds[key.fd] else NEW_STATE;
      Slots(Settled(fds, key.fd, state.WithSlot(key.event, Some(WaitSlot(wait.frame, wait.token)))), waits[key := wait])
  {
  }

  /** Clearing the slot that was just filled, and settling the entry again, restores the table
      and the channels, whatever the failed attempt left in them for this descriptor. */
  lemma RollbackRestores(fds: Table, channels: Channels, fd: int, fds': Table, channels': Channels, state: FdState)
    requires Registered(fds, channels) && 0 <= fd && fds' - {fd} == fds - {fd} && channels' - {fd} == channels - {fd}
    requires var before := if fd in fds then fds[fd] else NEW_STATE;
      state.reader == before.reader && state.writer == before.writer
    ensures Settled(fds', fd, state) == fds && Told(channels', fd, state) == channels
  {
    forall g | g != fd
      ensures (g in fds' <==> g in fds) && (g in fds ==> fds'[g] == fds[g])
      ensures (g in channels' <==> g in channels) && (g in channels ==> channels'[g] == channels[g])
    {
      assert g in fds' <==> g in fds' - {fd};
      assert g in fds <==> g in fds - {fd};
      assert g in channels' <==> g in channels' - {fd};
      assert g in channels <==> g in channels - {fd};
      if g in fds {
        assert fds'[g] == (fds' - {fd})[g] && fds[g] == (fds - {fd})[g];
      }
      if g in channels {
        assert channels'[g] == (channels' - {fd})[g] && channels[g] == (channels - {fd})[g];
      }
    }
  }

  lemma ErasedSlots(fds: Table, waits: map<Key, Wait>, fd: int)
    requires Slots(fds, waits)
    ensures Slots(fds - {fd}, waits - {Key(fd, Read)} - {Key(fd, Write)})
  {
    forall k | k in waits - {Key(fd, Read)} - {Key(fd, Write)} ensures k.fd != fd {
      assert k == Key(k.fd, k.event);
    }
  }

  // ---------------------------------------------------------------- the timer heap

  datatype TimerEntry = TimerEntry(deadline: nat, token: nat, key: Key)

  /** Every armed timed wait has exactly one entry in the heap. The other entries are stale: they
      carry tokens of earlier waits. */
  ghost predicate Timers(timers: multiset<TimerEntry>, waits: map<Key, Wait>, armed: map<nat, Armed>) {
    && (forall k :: k in waits && waits[k].deadline.Some? ==>
          TimerEntry(waits[k].deadline.value, waits[k].token, k) in timers)
    && (forall e :: e in timers ==>
          && timers[e] == 1 && e.token in armed
          && armed[e.token].key == e.key && armed[e.token].deadline == Some(e.deadline))
  }

  /** `timer_active`. */
  predicate Active(fds: Table, e: TimerEntry) {
    At(fds, e.key).Some? && At(fds, e.key).value.token == e.token
  }

  /** An entry is active iff its own wait is still armed; the wait then has this deadline. */
  lemma ActiveIff(fds: Table, timers: multiset<TimerEntry>, waits: map<Key, Wait>, armed: map<nat, Armed>,
                  e: TimerEntry)
    requires Slots(fds, waits) && Timers(timers, waits, armed) && e in timers
    requires forall k :: k in waits ==>
      waits[k].token in armed && armed[waits[k].token] == Armed(k, waits[k].frame, waits[k].deadline)
    ensures Active(fds, e) <==> e.key in waits && waits[e.key].token == e.token
    ensures Active(fds, e) ==> waits[e.key].deadline == Some(e.deadline)
  {
  }

  lemma PopStale(fds: Table, timers: multiset<TimerEntry>, waits: map<Key, Wait>, armed: map<nat, Armed>, e: TimerEntry)
    requires Slots(fds, waits) && Timers(timers, waits, armed) && e in timers && !Active(fds, e)
    ensures Timers(timers - multiset{e}, waits, armed)
  {
  }

  lemma PopEnded(timers: multiset<TimerEntry>, waits: map<Key, Wait>, armed: map<nat, Armed>, e: TimerEntry)
    requires Timers(timers, waits, armed) && e in timers
    ensures Timers(timers - multiset{e}, waits - {e.key}, armed)
  {
  }

  lemma PushTimer(timers: multiset<TimerEntry>, waits: map<Key, Wait>, armed: map<nat, Armed>, key: Key, wait: Wait)
    requires Timers(timers, waits, armed) && key !in waits && wait.token !in armed
    ensures var armed' := armed[wait.token := Armed(key, wait.frame, wait.deadline)];
      var timers' :=
        if wait.deadline.Some? then timers + multiset{TimerEntry(wait.deadline.value, wait.token, key)} else timers;
      Timers(timers', waits[key := wait], armed')
  {
  }

  predicate Earliest(timers: multiset<TimerEntry>, e: TimerEntry) {
    e in timers && forall o :: o in timers ==> e.deadline <= o.deadline
  }

  /** The heap has a top. */
  lemma {:induction false} EarliestExists(timers: multiset<TimerEntry>)
    requires timers != multiset{}
    ensures exists e :: Earliest(timers, e)
    decreases |timers|
  {
    var e :| e in timers;
    var rest := timers - multiset{e};
    if rest == multiset{} {
      assert timers == multiset{e};
      assert Earliest(timers, e);
    } else {
      EarliestExists(rest);
      var m :| Earliest(rest, m);
      assert timers == rest + multiset{e};
      assert Earliest(timers, if e.deadline <= m.deadline then e else m);
    }
  }

  predicate Due(wait: Wait, now: nat) {
    wait.deadline.Some? && wait.deadline.value <= now
  }

  /** `order` lists waits that are due, once each, by ascending deadline. */
  ghost predicate InOrder(waits: map<Key, Wait>, now: nat, order: seq<Key>) {
    && (forall i :: 0 <= i < |order| ==> order[i] in waits && Due(waits[order[i]], now))
    && (forall i, j :: 0 <= i < j < |order| ==>
          order[i] != order[j] && waits[order[i]].deadline.value <= waits[order[j]].deadline.value)
  }

  /** `order` lists exactly the waits that are due. */
  ghost predicate DueOrder(waits: map<Key, Wait>, now: nat, order: seq<Key>) {
    InOrder(waits, now, order) && forall k :: k in waits && Due(waits[k], now) ==> k in order
  }

  /** The waits among `keys` that are due. */
  function DueAmong(waits: map<Key, Wait>, now: nat, keys: set<Key>): set<Key> {
    set k | k in keys && k in waits && Due(waits[k], now)
  }

  lemma {:induction false} LatestDue(waits: map<Key, Wait>, now: nat, due: set<Key>) returns (last: Key)
    requires due != {} && forall k :: k in due ==> k in waits && Due(waits[k], now)
    ensures last in due && Due(waits[last], now)
    ensures forall k :: k in due ==> Due(waits[k], now) && waits[k].deadline.value <= waits[last].deadline.value
    decreases due
  {
    last :| last in due;
    if due != {last} {
      var other := LatestDue(waits, now, due - {last});
      if waits[last].deadline.value < waits[other].deadline.value {
        last := other;
      }
    }
  }

  lemma {:induction false} SortDue(waits: map<Key, Wait>, now: nat, due: set<Key>) returns (order: seq<Key>)
    requires forall k :: k in due ==> k in waits && Due(waits[k], now)
    ensures InOrder(waits, now, order) && forall k :: k in order <==> k in due
    decreases due
  {
    if due == {} {
      order := [];
    } else {
      var last := LatestDue(waits, now, due);
      var before := SortDue(waits, now, due - {last});
      order := before + [last];
    }
  }

  /** The waits that are due can always be put in order. */
  lemma DueOrderExists(waits: map<Key, Wait>, now: nat)
    ensures exists order :: DueOrder(waits, now, order)
  {
    var order := SortDue(waits, now, DueAmong(waits, now, waits.Keys));
    assert DueOrder(waits, now, order);
  }
}
