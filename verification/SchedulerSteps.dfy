/** Every allowed step keeps the invariant: dispatching, waking, blocking. */
module SchedulerSteps {
  import opened Wrappers
  import opened ThreadTable
  import opened Words
  import opened SchedulerInvariant

  /** Nothing but the run states of threads and the queue differs. */
  ghost predicate SameTables(s: State, s': State) {
    && SameUpToDispatch(s.threads, s'.threads)
    && s'.pending == s.pending && s'.processes == s.processes
    && s'.sleepers == s.sleepers && s'.futexWaiters == s.futexWaiters
  }

  lemma TablesFrame(s: State, s': State, orphans: seq<nat>)
    requires 0 < |s.pending| == |s.threads| == |s.processes|
    requires PlacesOk(s, orphans) && CallsOk(s) && ProcessesOk(s)
    requires SameTables(s, s')
    ensures PlacesOk(s', orphans) && CallsOk(s') && ProcessesOk(s')
  {
    RegisteredFrame(s, s');
    PlacesFrame(s, s', orphans);
    CallsFrame(s, s');
    ProcessFrame(s, s');
  }

  /** `NextReady` drops exited entries up to the first thread that can run. */
  lemma {:induction false} NextReadySplit(threads: seq<Thread>, queue: seq<nat>) returns (k: nat)
    requires Below(queue, |threads|)
    ensures k <= |queue|
    ensures forall i | 0 <= i < k :: threads[queue[i]].state == Exited
    ensures k == |queue| ==> NextReady(threads, queue) == (None, [])
    ensures k < |queue| ==> NextReady(threads, queue) == (Some(queue[k]), queue[k + 1..])
                            && threads[queue[k]].state != Exited
  {
    if queue == [] || threads[queue[0]].state != Exited {
      k := 0;
    } else {
      var j := NextReadySplit(threads, queue[1..]);
      k := j + 1;
      if j < |queue[1..]| {
        assert queue[1..][j + 1..] == queue[k + 1..];
      }
    }
  }

  /** Everything holds but the current thread has just given up the processor. */
  ghost predicate Between(s: State, c: nat) {
    && Base(s, [])
    && s.current == Some(c)
    && c < |s.threads|
    && (forall t | 0 <= t < |s.threads| && s.threads[t].state == Running :: t == IDLE)
    && (c == IDLE ==> s.threads[c].state == Running)
    && (s.threads[c].state == Ready ==> InOwnSpace(s, c))
  }

  lemma {:induction false} AddressSpaceOfLive(processes: seq<Process>, from: nat, id: nat)
    requires forall i | 0 <= i < |processes| :: processes[i].id == NO_THREAD || processes[i].id == i + 1
    requires from < id <= |processes| < NO_THREAD && processes[id - 1].id == id
    ensures AddressSpaceOf(processes[from..], id) == Some(processes[id - 1].addressSpace)
    decreases id - from
  {
    if from + 1 < id {
      AddressSpaceOfLive(processes, from + 1, id);
      assert processes[from..][1..] == processes[from + 1..];
      assert processes[from].id != id;
    }
  }

  lemma EntrySpace(s: State, t: nat)
    requires Shape(s) && ProcessesOk(s)
    requires 0 < t < |s.threads| && s.threads[t].state != Exited
    ensures s.threads[t].process.Some? && Live(s.processes, s.threads[t].process.value)
    ensures SpaceOnEntry(s.threads[t], s.processes, s.activeSpace) == s.processes[s.threads[t].process.value - 1].addressSpace
  {
    assert ThreadOk(s, t);
    forall i | 0 <= i < |s.processes| ensures s.processes[i].id == NO_THREAD || s.processes[i].id == i + 1 {
      assert RecordOk(s, i);
    }
    AddressSpaceOfLive(s.processes, 0, s.threads[t].process.value);
    assert s.processes[0..] == s.processes;
  }

  /** What `ScheduleFrom` does once the place `k` of the thread it picks is known. */
  lemma ScheduleIs(s: State, c: nat, k: nat, chosen: nat)
    requires Shape(s) && c < |s.threads| && s.current == Some(c)
    requires k <= |s.queue| && chosen < |s.threads|
    requires NextReady(s.threads, s.queue) == if k == |s.queue| then (None, []) else (Some(chosen), s.queue[k + 1..])
    requires k == |s.queue| ==> chosen == IDLE
    ensures ScheduleFrom(s, c) ==
            s.(queue := if k == |s.queue| then [] else s.queue[k + 1..],
               threads := SetState(s.threads, chosen, Running),
               current := Some(chosen),
               activeSpace := if chosen == c then s.activeSpace
                              else SpaceOnEntry(s.threads[chosen], s.processes, s.activeSpace))
  {
    hide SpaceOnEntry;
  }

  /** Where the thread that `ScheduleFrom` picks stood in the queue. */
  lemma ScheduleChoice(s: State, c: nat) returns (k: nat, chosen: nat)
    requires Between(s, c)
    ensures k <= |s.queue|
    ensures forall i | 0 <= i < k :: s.threads[s.queue[i]].state == Exited
    ensures k == |s.queue| ==> chosen == IDLE && s.threads[IDLE].state == Running
    ensures k < |s.queue| ==> chosen == s.queue[k] && s.threads[chosen].state == Ready
    ensures chosen < |s.threads|
    ensures ScheduleFrom(s, c) ==
            s.(queue := if k == |s.queue| then [] else s.queue[k + 1..],
               threads := SetState(s.threads, chosen, Running),
               current := Some(chosen),
               activeSpace := if chosen == c then s.activeSpace
                              else SpaceOnEntry(s.threads[chosen], s.processes, s.activeSpace))
    ensures SameTables(s, ScheduleFrom(s, c))
  {
    hide PlacesOk, CallsOk, ProcessesOk, SpaceOnEntry, ScheduleFrom;
    k := NextReadySplit(s.threads, s.queue);
    chosen := if k == |s.queue| then IDLE else s.queue[k];
    ScheduleIs(s, c, k, chosen);
    if k == |s.queue| {
      assert IDLE !in s.queue;
    }
  }

  lemma DequeueKeepsQueue(s: State, k: nat, chosen: nat, s': State)
    requires QueueOk(s)
    requires k <= |s.queue|
    requires forall i | 0 <= i < k :: s.threads[s.queue[i]].state == Exited
    requires chosen < |s.threads|
    requires k == |s.queue| ==> s.threads[chosen].state == Running
    requires k < |s.queue| ==> chosen == s.queue[k]
    requires s'.queue == if k == |s.queue| then [] else s.queue[k + 1..]
    requires s'.threads == SetState(s.threads, chosen, Running)
    ensures QueueOk(s')
  {
    forall t | 0 <= t < |s.threads| && s'.threads[t].state == Ready ensures t in s'.queue {
      var i :| 0 <= i < |s.queue| && s.queue[i] == t;
      assert i > k;
      assert s'.queue[i - k - 1] == t;
    }
  }

  lemma DequeueKeepsRun(s: State, chosen: nat, s': State)
    requires 0 < |s.threads| && RunOk(s)
    requires forall t | 0 <= t < |s.threads| && s.threads[t].state == Running :: t == IDLE
    requires chosen < |s.threads|
    requires s'.threads == SetState(s.threads, chosen, Running) && s'.current == Some(chosen)
    ensures RunOk(s')
  {
  }

  lemma ScheduleKeepsSpace(s: State, c: nat, chosen: nat)
    requires Between(s, c)
    requires chosen < |s.threads| && s.threads[chosen].state != Exited
    requires chosen == c && chosen != IDLE ==> s.threads[c].state == Ready
    requires ScheduleFrom(s, c).threads == SetState(s.threads, chosen, Running)
    requires ScheduleFrom(s, c).activeSpace ==
             if chosen == c then s.activeSpace else SpaceOnEntry(s.threads[chosen], s.processes, s.activeSpace)
    requires ScheduleFrom(s, c).processes == s.processes
    ensures InOwnSpace(ScheduleFrom(s, c), chosen)
  {
    hide PlacesOk, CallsOk, QueueOk, ScheduleFrom, SpaceOnEntry;
    if chosen != IDLE && chosen != c {
      EntrySpace(s, chosen);
    }
  }

  lemma ScheduleKeeps(s: State, c: nat)
    requires Between(s, c)
    ensures Inv(ScheduleFrom(s, c))
  {
    hide PlacesOk, CallsOk, ProcessesOk, QueueOk, RunOk, ScheduleFrom, SpaceOnEntry;
    var s' := ScheduleFrom(s, c);
    var k, chosen := ScheduleChoice(s, c);
    TablesFrame(s, s', []);
    DequeueKeepsQueue(s, k, chosen, s');
    DequeueKeepsRun(s, chosen, s');
    ShapeFrame(s, s');
    ScheduleKeepsSpace(s, c, chosen);
  }

  // -------------------------------------------------------------------- waking

  /** A thread that is not queued is queued last; nothing is dropped. */
  lemma MakeReadyQueues(s: State, t: nat)
    requires QueueOk(s)
    requires t < |s.threads| && t !in s.queue
    ensures MakeReady(s, t).queue == s.queue + [t]
    ensures QueueOk(MakeReady(s, t))
  {
    NotFull(s.queue, |s.threads|, t);
    var s' := MakeReady(s, t);
    forall u | 0 <= u < |s.threads| && s'.threads[u].state == Ready ensures u in s'.queue {
      if u == t {
        assert s'.queue[|s.queue|] == t;
      } else {
        assert u in s.queue;
      }
    }
  }

  lemma NotQueued(s: State, t: nat)
    requires QueueOk(s)
    requires t < |s.threads| && s.threads[t].state in {Running, Blocked}
    ensures t !in s.queue
  {
  }

  /** Waking moves one thread from blocked to ready and off the orphans. */
  lemma WakeKeepsPlaces(s: State, w: nat, rest: seq<nat>)
    requires w < |s.threads|
    requires PlacesOk(s, [w] + rest)
    ensures PlacesOk(Wake(s, w).0, rest)
    ensures SameRegistrations(s, Wake(s, w).0)
  {
    var s' := Wake(s, w).0;
    assert forall t: nat :: t in [w] + rest <==> t == w || t in rest;
    forall p, t: nat ensures Registered(s', p, t) <==> Registered(s, p, t) {
      if p.InJoin? && p.target < |s.threads| {
        assert s'.threads[p.target].joinWaiters == s.threads[p.target].joinWaiters;
      }
    }
  }

  lemma WakeKeepsCalls(s: State, w: nat)
    requires 0 < |s.pending| == |s.threads|
    requires CallsOk(s)
    ensures CallsOk(Wake(s, w).0)
  {
    CallsFrame(s, Wake(s, w).0);
  }

  lemma WakeKeepsProcesses(s: State, w: nat)
    requires |s.pending| == |s.threads| == |s.processes|
    requires ProcessesOk(s)
    ensures ProcessesOk(Wake(s, w).0)
  {
    ProcessFrame(s, Wake(s, w).0);
  }

  lemma WakeKeepsShape(s: State, w: nat)
    requires Shape(s)
    ensures Shape(Wake(s, w).0)
  {
    WakeAllShape(s, [w]);
    assert WakeAll(s, [w]) == Wake(s, w).0;
  }

  lemma WakeKeeps(s: State, w: nat, rest: seq<nat>)
    requires Base(s, [w] + rest)
    requires w < |s.threads|
    ensures Base(Wake(s, w).0, rest)
  {
    hide PlacesOk, CallsOk, ProcessesOk, QueueOk;
    WakeKeepsPlaces(s, w, rest);
    WakeKeepsCalls(s, w);
    WakeKeepsProcesses(s, w);
    WakeKeepsShape(s, w);
    if s.threads[w].state == Blocked {
      NotQueued(s, w);
      MakeReadyQueues(s, w);
    }
  }

  /** What waking never touches. */
  ghost predicate WakeFrame(s: State, s': State) {
    && |s'.threads| == |s.threads|
    && s'.current == s.current && s'.pending == s.pending && s'.processes == s.processes
    && s'.activeSpace == s.activeSpace && s'.ticks == s.ticks
    && s'.sleepers == s.sleepers && s'.futexWaiters == s.futexWaiters
    && forall t | 0 <= t < |s.threads| ::
         && s'.threads[t] == s.threads[t].(state := s'.threads[t].state)
         && (s.threads[t].state != Blocked ==> s'.threads[t].state == s.threads[t].state)
         && s'.threads[t].state in {s.threads[t].state, Ready}
  }

  lemma {:induction false} WakeAllKeeps(s: State, waiters: seq<nat>)
    requires Base(s, waiters)
    requires Below(waiters, |s.threads|)
    ensures Base(WakeAll(s, waiters), [])
    ensures WakeFrame(s, WakeAll(s, waiters))
    decreases |waiters|
  {
    hide Base;
    if waiters == [] {
      assert waiters == [];
    } else {
      assert waiters == [waiters[0]] + waiters[1..];
      WakeKeeps(s, waiters[0], waiters[1..]);
      WakeAllKeeps(Wake(s, waiters[0]).0, waiters[1..]);
    }
  }

  // ------------------------------------------------------------------ yielding

  /** The state in which a yielding thread hands over. */
  function YieldState(s: State): State
    requires Shape(s) && s.current.Some?
  {
    if s.current.value == IDLE then s else MakeReady(s, s.current.value)
  }

  lemma YieldKeeps(s: State)
    requires Inv(s)
    ensures Between(YieldState(s), s.current.value)
    ensures s.current.value != IDLE ==> YieldState(s).queue == s.queue + [s.current.value]
    ensures Inv(Yield(s))
  {
    hide PlacesOk, CallsOk, ProcessesOk, QueueOk, ScheduleFrom;
    var c := s.current.value;
    if c != IDLE {
      NotQueued(s, c);
      MakeReadyQueues(s, c);
      var s' := MakeReady(s, c);
      assert SameTables(s, s');
      TablesFrame(s, s', []);
      ShapeAfterReady(s, c);
      ScheduleKeeps(s', c);
    } else {
      ScheduleKeeps(s, c);
    }
  }

  lemma ShapeAfterReady(s: State, t: nat)
    requires Shape(s) && t < |s.threads|
    requires MakeReady(s, t).queue == s.queue + [t]
    ensures Shape(MakeReady(s, t))
  {
    var s' := MakeReady(s, t);
    forall u | 0 <= u < |s.threads| ensures ThreadShape(s'.threads[u], |s.threads|) {
      assert ThreadShape(s.threads[u], |s.threads|);
    }
  }

  // ------------------------------------------------------------------ blocking

  /** The current thread is on no list, so it can be put on one. */
  lemma CurrentUnregistered(s: State, c: nat)
    requires Inv(s) && s.current == Some(c)
    ensures forall p :: !Registered(s, p, c)
    ensures c !in s.queue
  {
    hide CallsOk, ProcessesOk;
  }

  /** `s'` is `s` with the current thread blocked and one registration added for it. */
  ghost predicate BlockedAt(s: State, s': State, c: nat, place: Place) {
    && c < |s.threads| == |s'.threads|
    && s'.queue == s.queue && s'.current == s.current && s'.processes == s.processes
    && s'.threads[c].state == Blocked
    && (forall t | 0 <= t < |s.threads| && t != c :: s'.threads[t].state == s.threads[t].state)
    && (forall p, t: nat :: Registered(s', p, t) <==> Registered(s, p, t) || (p == place && t == c))
    && (forall t: nat :: !Registered(s, place, t))
  }

  lemma BlockKeepsPlaces(s: State, s': State, c: nat, place: Place)
    requires PlacesOk(s, [])
    requires BlockedAt(s, s', c, place)
    requires forall p :: !Registered(s, p, c)
    ensures PlacesOk(s', [])
  {
    assert Registered(s', place, c);
    forall t | 0 <= t < |s'.threads| && s'.threads[t].state == Blocked
      ensures exists p :: Registered(s', p, t)
    {
      if t != c {
        var p :| Registered(s, p, t);
        assert Registered(s', p, t);
      }
    }
  }

  lemma BlockKeepsQueue(s: State, s': State, c: nat, place: Place)
    requires QueueOk(s) && 0 < |s.threads| && RunOk(s)
    requires BlockedAt(s, s', c, place)
    requires s.current == Some(c) && c != IDLE && c !in s.queue
    requires s'.threads[IDLE].isUser == s.threads[IDLE].isUser && s'.threads[IDLE].process == s.threads[IDLE].process
    ensures QueueOk(s') && RunOk(s')
    ensures forall t | 0 <= t < |s'.threads| && s'.threads[t].state == Running :: t == IDLE
  {
  }

  lemma BlockKeeps(s: State, s': State, c: nat, place: Place)
    requires Inv(s) && s.current == Some(c) && c != IDLE
    requires BlockedAt(s, s', c, place)
    requires Shape(s') && CallsOk(s') && ProcessesOk(s')
    requires s'.threads[IDLE].isUser == s.threads[IDLE].isUser && s'.threads[IDLE].process == s.threads[IDLE].process
    ensures Between(s', c)
    ensures Inv(ScheduleFrom(s', c))
  {
    hide PlacesOk, CallsOk, ProcessesOk, QueueOk, BlockedAt, ScheduleFrom;
    CurrentUnregistered(s, c);
    BlockKeepsPlaces(s, s', c, place);
    assert s'.current == s.current && s'.threads[c].state == Blocked by { BlockedFacts(s, s', c, place); }
    BlockKeepsQueue(s, s', c, place);
    ScheduleKeeps(s', c);
  }

  lemma BlockedFacts(s: State, s': State, c: nat, place: Place)
    requires BlockedAt(s, s', c, place)
    ensures |s'.threads| == |s.threads| && s'.current == s.current && s'.threads[c].state == Blocked
  {
  }

  /** Blocking changes the current thread's state and adds its registration. */
  lemma TableBlockKeeps(s: State, s': State, c: nat, place: Place)
    requires Inv(s) && s.current == Some(c) && c != IDLE
    requires s' == s.(threads := SetState(s.threads, c, Blocked), sleepers := s'.sleepers, futexWaiters := s'.futexWaiters)
    requires BlockedAt(s, s', c, place)
    requires ThreadsBelow(s')
    ensures Between(s', c)
    ensures Inv(ScheduleFrom(s', c))
  {
    hide PlacesOk, CallsOk, ProcessesOk, QueueOk, BlockedAt, ScheduleFrom, ThreadsBelow;
    CallsFrame(s, s');
    ProcessFrame(s, s');
    ShapeFrame(s, s');
    BlockKeeps(s, s', c, place);
  }

  /** The current thread blocked with a new entry in the sleeper table. */
  function SleepState(s: State, i: nat, deadline: U64): State
    requires Shape(s) && s.current.Some? && i < |s.sleepers|
  {
    s.(sleepers := s.sleepers[i := Some(Sleeper(s.current.value, deadline))],
       threads := SetState(s.threads, s.current.value, Blocked))
  }

  lemma SleepStateKeeps(s: State, i: nat, deadline: U64)
    requires Inv(s) && s.current.value != IDLE
    requires i < |s.sleepers| && s.sleepers[i].None?
    ensures Between(SleepState(s, i, deadline), s.current.value)
    ensures Inv(ScheduleFrom(SleepState(s, i, deadline), s.current.value))
  {
    hide PlacesOk, CallsOk, ProcessesOk, QueueOk, ScheduleFrom;
    var c := s.current.value;
    var s2 := SleepState(s, i, deadline);
    assert forall p, t: nat :: Registered(s2, p, t) <==> Registered(s, p, t) || (p == InSleep(i) && t == c);
    TableBlockKeeps(s, s2, c, InSleep(i));
  }

  lemma SleepKeeps(s: State, milliseconds: U64)
    requires Inv(s) && s.current.value != IDLE
    ensures Inv(Sleep(s, milliseconds).0)
  {
    hide Base, ScheduleFrom;
    assert Shape(s) by { ShapeOf(s); }
    var i := FirstEmpty(s.sleepers, 0);
    if milliseconds != 0 && i < |s.sleepers| {
      SleepStateKeeps(s, i, WrappingAdd(s.ticks, SleepTicks(milliseconds)));
      SleepIs(s, milliseconds);
    }
  }

  lemma SleepIs(s: State, milliseconds: U64)
    requires Shape(s) && s.current.Some? && s.current.value != IDLE
    requires milliseconds != 0 && FirstEmpty(s.sleepers, 0) < |s.sleepers|
    requires Shape(SleepState(s, FirstEmpty(s.sleepers, 0), WrappingAdd(s.ticks, SleepTicks(milliseconds))))
    ensures Sleep(s, milliseconds) ==
            (ScheduleFrom(SleepState(s, FirstEmpty(s.sleepers, 0), WrappingAdd(s.ticks, SleepTicks(milliseconds))),
                          s.current.value), 0)
  {
    hide ScheduleFrom;
  }

  lemma ShapeOf(s: State)
    requires Base(s, [])
    ensures Shape(s)
  {
  }

  lemma InvShape(s: State)
    requires Inv(s)
    ensures Shape(s)
  {
    hide Base;
    ShapeOf(s);
  }

  /** The current thread blocked with a new entry in the futex table. */
  function FutexState(s: State, i: nat, entry: FutexWaiter): State
    requires Shape(s) && s.current.Some? && i < |s.futexWaiters|
  {
    s.(futexWaiters := s.futexWaiters[i := Some(entry)],
       threads := SetState(s.threads, s.current.value, Blocked))
  }

  lemma FutexStateKeeps(s: State, i: nat, entry: FutexWaiter)
    requires Inv(s) && s.current.value != IDLE
    requires i < |s.futexWaiters| && s.futexWaiters[i].None? && entry.thread == s.current.value
    ensures Between(FutexState(s, i, entry), s.current.value)
    ensures Inv(ScheduleFrom(FutexState(s, i, entry), s.current.value))
  {
    hide PlacesOk, CallsOk, ProcessesOk, QueueOk, ScheduleFrom;
    var c := s.current.value;
    var s2 := FutexState(s, i, entry);
    assert forall p, t: nat :: Registered(s2, p, t) <==> Registered(s, p, t) || (p == InFutex(i) && t == c);
    TableBlockKeeps(s, s2, c, InFutex(i));
  }

  lemma FutexWaitKeeps(s: State, address: U64, actual: U64, expected: U64, timeout: U64)
    requires Inv(s) && s.current.value != IDLE
    ensures Inv(FutexWait(s, address, actual, expected, timeout).0)
  {
    hide Base, ScheduleFrom;
    assert Shape(s) by { ShapeOf(s); }
    var i := FirstEmpty(s.futexWaiters, 0);
    if ValidUserWord(address) && actual == expected && i < |s.futexWaiters| {
      FutexStateKeeps(s, i, FutexWaiter(address, s.current.value, FutexDeadline(s.ticks, timeout)));
      FutexWaitIs(s, address, actual, expected, timeout);
    }
  }

  lemma FutexWaitIs(s: State, address: U64, actual: U64, expected: U64, timeout: U64)
    requires Shape(s) && s.current.Some? && s.current.value != IDLE
    requires ValidUserWord(address) && actual == expected && FirstEmpty(s.futexWaiters, 0) < |s.futexWaiters|
    requires Shape(FutexState(s, FirstEmpty(s.futexWaiters, 0),
                              FutexWaiter(address, s.current.value, FutexDeadline(s.ticks, timeout))))
    ensures FutexWait(s, address, actual, expected, timeout) ==
            (ScheduleFrom(FutexState(s, FirstEmpty(s.futexWaiters, 0),
                                     FutexWaiter(address, s.current.value, FutexDeadline(s.ticks, timeout))),
                          s.current.value), 0)
  {
    hide ScheduleFrom;
  }

  // ------------------------------------------------------- expiry and futex wake

  /** Emptying a wait-table entry leaves its thread to be woken. */
  lemma UnlistKeepsPlaces(s: State, s': State, place: Place, t: nat)
    requires PlacesOk(s, [])
    requires Registered(s, place, t)
    requires s'.threads == s.threads
    requires forall p, u: nat :: Registered(s', p, u) <==> Registered(s, p, u) && p != place
    ensures PlacesOk(s', [t])
  {
    forall u | 0 <= u < |s'.threads| && s'.threads[u].state == Blocked
      ensures u in [t] || exists p :: Registered(s', p, u)
    {
      var p :| Registered(s, p, u);
      if p == place {
        assert u == t by { UniqueOwner(s, place, t, u); }
      } else {
        assert Registered(s', p, u);
      }
    }
  }

  lemma UniqueOwner(s: State, place: Place, t: nat, u: nat)
    requires Registered(s, place, t) && Registered(s, place, u)
    ensures t == u
  {
  }

  lemma UnlistKeeps(s: State, s': State, place: Place, t: nat)
    requires Inv(s)
    requires Registered(s, place, t)
    requires s' == s.(sleepers := s'.sleepers, futexWaiters := s'.futexWaiters)
    requires ThreadsBelow(s')
    requires forall p, u: nat :: Registered(s', p, u) <==> Registered(s, p, u) && p != place
    ensures t < |s.threads|
    ensures Inv(Wake(s', t).0)
  {
    hide PlacesOk, CallsOk, ProcessesOk, QueueOk, Wake;
    assert t < |s.threads| by { PlaceBelow(s, place, t); }
    UnlistKeepsPlaces(s, s', place, t);
    CallsFrame(s, s');
    ProcessFrame(s, s');
    ShapeFrame(s, s');
    assert QueueOk(s') by { QueueFrame(s, s'); }
    assert Base(s', [t] + []) by { assert [t] + [] == [t]; }
    WakeKeeps(s', t, []);
    WakeChangesNoRunning(s', t, s'.current.value);
  }

  lemma PlaceBelow(s: State, place: Place, t: nat)
    requires PlacesOk(s, []) && Registered(s, place, t)
    ensures t < |s.threads|
  {
  }

  lemma QueueFrame(s: State, s': State)
    requires QueueOk(s) && s'.queue == s.queue && s'.threads == s.threads
    ensures QueueOk(s')
  {
  }

  lemma WakeChangesNoRunning(s: State, t: nat, c: nat)
    requires c < |s.threads| && s.threads[c].state == Running
    ensures Wake(s, t).0.threads[c] == s.threads[c]
    ensures Wake(s, t).0 == s.(threads := Wake(s, t).0.threads, queue := Wake(s, t).0.queue)
    ensures |Wake(s, t).0.threads| == |s.threads|
  {
  }

  lemma ExpireSleeperKeeps(s: State, i: nat)
    requires Inv(s) && i < |s.sleepers| && s.sleepers[i].Some?
    ensures Inv(Wake(s.(sleepers := s.sleepers[i := None]), s.sleepers[i].value.thread).0)
  {
    hide PlacesOk, CallsOk, ProcessesOk, QueueOk, Wake;
    var t := s.sleepers[i].value.thread;
    var s' := s.(sleepers := s.sleepers[i := None]);
    assert forall p, u: nat :: Registered(s', p, u) <==> Registered(s, p, u) && p != InSleep(i);
    UnlistKeeps(s, s', InSleep(i), t);
  }

  lemma ExpireFutexKeeps(s: State, i: nat)
    requires Inv(s) && i < |s.futexWaiters| && s.futexWaiters[i].Some?
    ensures Inv(Wake(s.(futexWaiters := s.futexWaiters[i := None]), s.futexWaiters[i].value.thread).0)
  {
    hide PlacesOk, CallsOk, ProcessesOk, QueueOk, Wake;
    var t := s.futexWaiters[i].value.thread;
    var s' := s.(futexWaiters := s.futexWaiters[i := None]);
    assert forall p, u: nat :: Registered(s', p, u) <==> Registered(s, p, u) && p != InFutex(i);
    UnlistKeeps(s, s', InFutex(i), t);
  }

  lemma {:induction false} ExpireSleepersKeeps(s: State, i: nat)
    requires Inv(s) && i <= |s.sleepers|
    ensures Inv(ExpireSleepers(s, i))
    decreases |s.sleepers| - i
  {
    hide Inv;
    if i < |s.sleepers| {
      if s.sleepers[i].Some? && Due(s.ticks, s.sleepers[i].value.deadline) {
        ExpireSleeperKeeps(s, i);
        ExpireSleepersKeeps(Wake(s.(sleepers := s.sleepers[i := None]), s.sleepers[i].value.thread).0, i + 1);
      } else {
        ExpireSleepersKeeps(s, i + 1);
      }
    }
  }

  lemma {:induction false} ExpireFutexesKeeps(s: State, i: nat)
    requires Inv(s) && i <= |s.futexWaiters|
    ensures Inv(ExpireFutexes(s, i))
    decreases |s.futexWaiters| - i
  {
    hide Inv;
    if i < |s.futexWaiters| {
      if s.futexWaiters[i].Some? && FutexDue(s.ticks, s.futexWaiters[i].value) {
        ExpireFutexKeeps(s, i);
        ExpireFutexesKeeps(Wake(s.(futexWaiters := s.futexWaiters[i := None]), s.futexWaiters[i].value.thread).0, i + 1);
      } else {
        ExpireFutexesKeeps(s, i + 1);
      }
    }
  }

  /** The tick counter alone matters to nothing else. */
  lemma LaterInv(s: State)
    requires Inv(s)
    ensures Inv(s.(ticks := WrappingAdd(s.ticks, 1)))
  {
    hide PlacesOk, CallsOk, ProcessesOk, QueueOk;
    var s1 := s.(ticks := WrappingAdd(s.ticks, 1));
    assert SameTables(s, s1);
    TablesFrame(s, s1, []);
    ShapeFrame(s, s1);
    QueueFrame(s, s1);
  }

  lemma TickKeeps(s: State)
    requires Inv(s)
    ensures Inv(Tick(s))
  {
    var s1 := s.(ticks := WrappingAdd(s.ticks, 1));
    LaterInv(s);
    hide Inv;
    ExpireSleepersKeeps(s1, 0);
    ExpireFutexesKeeps(ExpireSleepers(s1, 0), 0);
  }

  lemma {:induction false} FutexWakeFromKeeps(s: State, address: U64, count: U64, i: nat, woken: nat)
    requires Inv(s) && i <= |s.futexWaiters|
    ensures Inv(FutexWakeFrom(s, address, count, i, woken).0)
    decreases |s.futexWaiters| - i
  {
    hide Inv;
    if i < |s.futexWaiters| {
      if s.futexWaiters[i].Some? && s.futexWaiters[i].value.address == address && woken < count {
        var (s1, ok) := Wake(s.(futexWaiters := s.futexWaiters[i := None]), s.futexWaiters[i].value.thread);
        ExpireFutexKeeps(s, i);
        FutexWakeFromKeeps(s1, address, count, i + 1, if ok then woken + 1 else woken);
      } else {
        FutexWakeFromKeeps(s, address, count, i + 1, woken);
      }
    }
  }
}
