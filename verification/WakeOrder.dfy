/** The order in which threads that are woken together come to run. */
module WakeOrder {
  import opened Wrappers
  import opened ThreadTable
  import opened Words
  import opened SchedulerInvariant
  import opened SchedulerSteps
  import opened ProcessSteps
  import opened LifecycleSteps
  import opened StepProgress
  import opened SchedulerRuns
  import opened CallAnswers
  import opened TimerRuns

  /** Blocked threads are not queued, so there is room for them. */
  ghost predicate RoomForBlocked(s: State) {
    && Below(s.queue, |s.threads|) && Distinct(s.queue)
    && forall i | 0 <= i < |s.queue| :: s.threads[s.queue[i]].state != Blocked
  }

  lemma InvHasRoom(s: State)
    requires Inv(s)
    ensures RoomForBlocked(s)
  {
    hide PlacesOk, CallsOk, ProcessesOk;
  }

  /** Those of `threads` that are blocked, in the same order. */
  function StillBlocked(s: State, threads: seq<nat>): seq<nat> {
    if threads == [] then []
    else
      (if threads[0] < |s.threads| && s.threads[threads[0]].state == Blocked then [threads[0]] else [])
      + StillBlocked(s, threads[1..])
  }

  lemma WakeQueues(s: State, t: nat)
    requires RoomForBlocked(s)
    ensures RoomForBlocked(Wake(s, t).0)
    ensures Wake(s, t).0.queue == s.queue + StillBlocked(s, [t])
    ensures |Wake(s, t).0.threads| == |s.threads|
    ensures forall u | 0 <= u < |s.threads| && u != t :: Wake(s, t).0.threads[u] == s.threads[u]
  {
    if t < |s.threads| && s.threads[t].state == Blocked {
      NotFull(s.queue, |s.threads|, t);
      assert StillBlocked(s, [t]) == [t];
    } else {
      assert StillBlocked(s, [t]) == [];
    }
  }

  lemma {:induction false} StillBlockedMembers(s: State, threads: seq<nat>)
    ensures forall t | t in StillBlocked(s, threads) :: t in threads && t < |s.threads| && s.threads[t].state == Blocked
    decreases |threads|
  {
    if threads != [] {
      StillBlockedMembers(s, threads[1..]);
    }
  }

  lemma {:induction false} StillBlockedFrame(s: State, s': State, threads: seq<nat>)
    requires |s'.threads| == |s.threads|
    requires forall i | 0 <= i < |threads| && threads[i] < |s.threads| ::
               s'.threads[threads[i]].state == s.threads[threads[i]].state
    ensures StillBlocked(s', threads) == StillBlocked(s, threads)
    decreases |threads|
  {
    if threads != [] {
      assert forall i | 0 <= i < |threads[1..]| :: threads[1..][i] == threads[i + 1];
      StillBlockedFrame(s, s', threads[1..]);
    }
  }

  /** Waking several threads queues the blocked ones behind everybody, in order. */
  lemma {:induction false} WakeAllInOrder(s: State, threads: seq<nat>)
    requires RoomForBlocked(s) && Distinct(threads)
    ensures RoomForBlocked(WakeAll(s, threads))
    ensures WakeAll(s, threads).queue == s.queue + StillBlocked(s, threads)
    decreases |threads|
  {
    hide Wake, RoomForBlocked;
    if threads != [] {
      var s1 := Wake(s, threads[0]).0;
      WakeQueues(s, threads[0]);
      assert forall i | 0 <= i < |threads[1..]| :: threads[1..][i] == threads[i + 1];
      StillBlockedFrame(s, s1, threads[1..]);
      WakeAllInOrder(s1, threads[1..]);
      assert StillBlocked(s, [threads[0]]) + StillBlocked(s, threads[1..]) == StillBlocked(s, threads);
      assert (s.queue + StillBlocked(s, [threads[0]])) + StillBlocked(s, threads[1..])
          == s.queue + (StillBlocked(s, [threads[0]]) + StillBlocked(s, threads[1..]));
    }
  }

  // ------------------------------------------------------------------ joiners

  lemma JoinersAreDistinct(s: State, x: nat)
    requires Inv(s) && x < |s.threads| && s.threads[x].state != Exited
    ensures ThreadShape(s.threads[x], |s.threads|) && Distinct(JoinList(s.threads[x]))
  {
    hide CallsOk, ProcessesOk, QueueOk;
    assert ThreadShape(s.threads[x], |s.threads|);
    var list := JoinList(s.threads[x]);
    forall i, j | 0 <= i < j < |list| ensures list[i] != list[j] {
      assert Registered(s, InJoin(x, i), list[i]) && Registered(s, InJoin(x, j), list[j]);
    }
  }

  /** When a thread ends, its joiners run in the order in which they came, behind everybody that
      was queued: the next to run is the first of the queue that has not ended. */
  lemma ExitWakesInOrder(s: State, status: U64) returns (k: nat)
    requires Inv(s) && Allowed(s, DoExit(status))
    ensures Shape(s) && s.current.value < |s.threads| && ThreadShape(s.threads[s.current.value], |s.threads|)
    ensures var waiting := s.queue + StillBlocked(s, JoinList(s.threads[s.current.value]));
            var r := ExitCurrent(s, status);
            && k <= |waiting|
            && (forall i | 0 <= i < k :: waiting[i] < |s.threads| && s.threads[waiting[i]].state == Exited)
            && r.queue == (if k == |waiting| then [] else waiting[k + 1..])
            && r.current == Some(if k == |waiting| then IDLE else waiting[k])
  {
    hide Base, Between, ScheduleFrom, WakeAll, Reparent, JoinList;
    InvShape(s);
    var c := s.current.value;
    var list := JoinList(s.threads[c]);
    ExitKeeps(s, status);
    JoinersAreDistinct(s, c);
    InvHasRoom(s);
    var ended := Ended(s, c, status, false, Reparent(s.processes, c));
    EndedRoom(s, c, status, Reparent(s.processes, c));
    EndedStillBlocked(s, c, status, Reparent(s.processes, c), list);
    WakeAllInOrder(ended, list);
    StillBlockedMembers(s, list);
    RunningNotQueued(s);
    assert c !in s.queue + StillBlocked(s, list);
    k := PickAfterExit(s, ended, ExitedState(s, c, status), c);
  }

  lemma RunningNotQueued(s: State)
    requires Inv(s)
    ensures s.current.value !in s.queue
  {
    hide PlacesOk, CallsOk, ProcessesOk;
    NotQueued(s, s.current.value);
  }

  lemma EndedRoom(s: State, c: nat, status: U64, processes: seq<Process>)
    requires RoomForBlocked(s) && c < |s.threads|
    ensures RoomForBlocked(Ended(s, c, status, false, processes))
  {
  }

  lemma {:induction false} EndedStillBlocked(s: State, c: nat, status: U64, processes: seq<Process>, threads: seq<nat>)
    requires c < |s.threads| && s.threads[c].state != Blocked
    ensures StillBlocked(Ended(s, c, status, false, processes), threads) == StillBlocked(s, threads)
    decreases |threads|
  {
    if threads != [] {
      EndedStillBlocked(s, c, status, processes, threads[1..]);
    }
  }

  /** The dispatch after an exit; those it skips had ended before, or are the one that just did. */
  lemma PickAfterExit(s: State, ended: State, s1: State, c: nat) returns (k: nat)
    requires Inv(s) && Between(s1, c) && WakeFrame(ended, s1) && c < |s.threads| == |ended.threads|
    requires s.current == Some(c)
    requires forall t | 0 <= t < |s.threads| && t != c :: ended.threads[t].state == s.threads[t].state
    requires s.threads[c].state != Blocked && ended.threads[c].state == Exited
    requires s.queue <= s1.queue && c !in s1.queue
    ensures Shape(s1) && k <= |s1.queue|
    ensures forall i | 0 <= i < k :: s1.queue[i] < |s.threads| && s.threads[s1.queue[i]].state == Exited
    ensures ScheduleFrom(s1, c).queue == if k == |s1.queue| then [] else s1.queue[k + 1..]
    ensures ScheduleFrom(s1, c).current == Some(if k == |s1.queue| then IDLE else s1.queue[k])
  {
    hide PlacesOk, CallsOk, ProcessesOk, ScheduleFrom;
    var chosen;
    k, chosen := ScheduleChoice(s1, c);
    assert Below(s1.queue, |s1.threads|);
    forall i | 0 <= i < k ensures s.threads[s1.queue[i]].state == Exited {
      assert s1.queue[i] in s1.queue;
    }
  }

  /** Terminating a child queues its joiners behind everybody, in the order in which they came. */
  lemma TerminateWakesInOrder(s: State, p: nat)
    requires Inv(s)
    ensures Shape(s)
    ensures ChildOf(s, p) ==>
              var main := s.processes[p - 1].mainThread.value;
              && main < |s.threads| && ThreadShape(s.threads[main], |s.threads|)
              && TerminateProcess(s, p).0.queue
                 == s.queue + if s.threads[main].state == Exited then [] else StillBlocked(s, JoinList(s.threads[main]))
  {
    hide Base, WakeAll, JoinList;
    InvShape(s);
    ChildLookup(s, p);
    if ChildOf(s, p) {
      var main := s.processes[p - 1].mainThread.value;
      assert ThreadShape(s.threads[main], |s.threads|);
      if s.threads[main].state != Exited {
        JoinersAreDistinct(s, main);
        TerminatedJoiners(s, p, main);
      }
    }
  }

  lemma TerminatedJoiners(s: State, p: nat, main: nat)
    requires Inv(s) && main < |s.threads| && s.threads[main].state != Exited
    requires Live(s.processes, p) && s.processes[p - 1].mainThread == Some(main)
    requires ThreadShape(s.threads[main], |s.threads|) && Distinct(JoinList(s.threads[main]))
    ensures var ended := s.(threads := s.threads[main := s.threads[main].(state := Exited, exitStatus := TERMINATED_STATUS)]);
            WakeAll(ended, JoinList(s.threads[main])).queue == s.queue + StillBlocked(s, JoinList(s.threads[main]))
  {
    hide PlacesOk, CallsOk, ProcessesOk, QueueOk, WakeAll;
    var list := JoinList(s.threads[main]);
    var ended := s.(threads := s.threads[main := s.threads[main].(state := Exited, exitStatus := TERMINATED_STATUS)]);
    InvHasRoom(s);
    NobodyJoinsItself(s, p);
    WakeAllInOrder(ended, list);
    StillBlockedFrame(s, ended, list);
  }

  /** A main thread is not on its own list. */
  lemma NobodyJoinsItself(s: State, p: nat)
    requires Inv(s) && Live(s.processes, p) && s.processes[p - 1].mainThread.Some?
    requires var x := s.processes[p - 1].mainThread.value;
             x < |s.threads| && ThreadShape(s.threads[x], |s.threads|) && s.threads[x].state != Exited
    ensures var x := s.processes[p - 1].mainThread.value; x !in JoinList(s.threads[x])
  {
    hide PlacesOk, QueueOk;
    var x := s.processes[p - 1].mainThread.value;
    var list := JoinList(s.threads[x]);
    assert RecordOk(s, p - 1) && RecordOk(s, 0);
    ParentIsOther(s, p);
    if x in list {
      var j :| 0 <= j < |list| && list[j] == x;
      assert Registered(s, InJoin(x, j), x);
      CollectorIsOther(s, x, p);
      assert false;
    }
  }

  /** A main thread does not wait for itself. */
  lemma CollectorIsOther(s: State, x: nat, p: nat)
    requires Inv(s) && x < |s.threads| && Live(s.processes, p) && s.processes[p - 1].mainThread == Some(x)
    ensures !s.pending[x].On(x)
  {
    hide PlacesOk, CallsOk, QueueOk, RunOk;
    CallFacts(s, x);
    assert RecordOk(s, p - 1) && RecordOk(s, 0);
    ParentIsOther(s, p);
    if s.pending[x].Collecting? {
      assert RecordOk(s, s.pending[x].process - 1);
    }
  }

  // ------------------------------------------------------------- futexes and ticks

  lemma {:induction false} ScanQueues(s: State, address: U64, count: U64, i: nat, woken: nat)
    requires i <= |s.futexWaiters| && woken <= count && OneEntryEach(s, i) && RoomForBlocked(s)
    ensures FutexWakeFrom(s, address, count, i, woken).0.queue == s.queue + Chosen(s, address, count - woken, i)
    decreases |s.futexWaiters| - i
  {
    hide Wake, Chosen, BlockedWaiters, RoomForBlocked;
    if i < |s.futexWaiters| {
      var entry := s.futexWaiters[i];
      if entry.Some? && entry.value.address == address && woken < count {
        var cleared := s.(futexWaiters := s.futexWaiters[i := None]);
        var (s1, ok) := Wake(cleared, entry.value.thread);
        ChosenAfterWake(s, address, count - woken, i);
        ClearedHasRoom(s, cleared);
        WakeQueues(cleared, entry.value.thread);
        WokenIsQueued(cleared, entry.value.thread);
        ScanQueues(s1, address, count, i + 1, if ok then woken + 1 else woken);
        if ok {
          assert (s.queue + [entry.value.thread]) + Chosen(s1, address, count - woken - 1, i + 1)
              == s.queue + ([entry.value.thread] + Chosen(s1, address, count - woken - 1, i + 1));
        }
      } else {
        ScanQueues(s, address, count, i + 1, woken);
        ChosenSkips(s, address, count - woken, i);
      }
    } else {
      ChosenAtEnd(s, address, count - woken);
    }
  }

  lemma ClearedHasRoom(s: State, cleared: State)
    requires RoomForBlocked(s) && cleared.threads == s.threads && cleared.queue == s.queue
    ensures RoomForBlocked(cleared)
  {
  }

  lemma WokenIsQueued(s: State, t: nat)
    requires RoomForBlocked(s)
    ensures Wake(s, t).0.queue == if Wake(s, t).1 then s.queue + [t] else s.queue
  {
    WakeQueues(s, t);
  }

  /** `futex_wake` queues those it wakes behind everybody, in table order. */
  lemma FutexWakeInOrder(s: State, address: U64, count: U64)
    requires Inv(s) && ValidUserWord(address)
    ensures var (r, n) := FutexWake(s, address, count);
            && n <= |BlockedWaiters(s, address, 0)|
            && r.queue == s.queue + BlockedWaiters(s, address, 0)[..n]
  {
    hide Base, BlockedWaiters;
    EntriesAreDistinct(s);
    InvHasRoom(s);
    FutexWakeWakesTheFirst(s, address, count);
    ScanQueues(s, address, count, 0, 0);
  }

  /** Threads of the due sleeper entries from `i` on, in table order. */
  function DueSleepers(s: State, i: nat): seq<nat>
    requires i <= |s.sleepers|
    decreases |s.sleepers| - i
  {
    if i == |s.sleepers| then []
    else (if SleeperDue(s.ticks, s.sleepers[i]) then [s.sleepers[i].value.thread] else []) + DueSleepers(s, i + 1)
  }

  function DueWaiters(s: State, i: nat): seq<nat>
    requires i <= |s.futexWaiters|
    decreases |s.futexWaiters| - i
  {
    if i == |s.futexWaiters| then []
    else (if WaiterDue(s.ticks, s.futexWaiters[i]) then [s.futexWaiters[i].value.thread] else []) + DueWaiters(s, i + 1)
  }

  /** Waking looks at threads and queue only. */
  lemma {:induction false} WakeAllSame(s: State, s2: State, threads: seq<nat>)
    requires s2.threads == s.threads && s2.queue == s.queue
    ensures WakeAll(s2, threads).threads == WakeAll(s, threads).threads
    ensures WakeAll(s2, threads).queue == WakeAll(s, threads).queue
    decreases |threads|
  {
    if threads != [] {
      WakeAllSame(Wake(s, threads[0]).0, Wake(s2, threads[0]).0, threads[1..]);
    }
  }

  lemma {:induction false} WakeAllConcat(s: State, a: seq<nat>, b: seq<nat>)
    ensures WakeAll(s, a + b) == WakeAll(WakeAll(s, a), b)
    decreases |a|
  {
    if a == [] {
      assert a + b == b;
    } else {
      assert (a + b)[1..] == a[1..] + b;
      WakeAllConcat(Wake(s, a[0]).0, a[1..], b);
    }
  }

  lemma {:induction false} DueSleepersSame(s: State, s2: State, i: nat)
    requires i <= |s.sleepers| == |s2.sleepers| && s2.ticks == s.ticks
    requires forall j | i <= j < |s.sleepers| :: s2.sleepers[j] == s.sleepers[j]
    ensures DueSleepers(s2, i) == DueSleepers(s, i)
    decreases |s.sleepers| - i
  {
    if i < |s.sleepers| {
      DueSleepersSame(s, s2, i + 1);
    }
  }

  lemma {:induction false} DueWaitersSame(s: State, s2: State, i: nat)
    requires i <= |s.futexWaiters| == |s2.futexWaiters| && s2.ticks == s.ticks
    requires forall j | i <= j < |s.futexWaiters| :: s2.futexWaiters[j] == s.futexWaiters[j]
    ensures DueWaiters(s2, i) == DueWaiters(s, i)
    decreases |s.futexWaiters| - i
  {
    if i < |s.futexWaiters| {
      DueWaitersSame(s, s2, i + 1);
    }
  }

  /** The two scans of a tick wake the threads of the due entries, one after another. */
  lemma {:induction false} ExpireSleepersWakes(s: State, i: nat)
    requires i <= |s.sleepers|
    ensures ExpireSleepers(s, i).threads == WakeAll(s, DueSleepers(s, i)).threads
    ensures ExpireSleepers(s, i).queue == WakeAll(s, DueSleepers(s, i)).queue
    decreases |s.sleepers| - i
  {
    hide Due;
    if i < |s.sleepers| {
      if SleeperDue(s.ticks, s.sleepers[i]) {
        var t := s.sleepers[i].value.thread;
        var s1 := Wake(s.(sleepers := s.sleepers[i := None]), t).0;
        ExpireSleepersWakes(s1, i + 1);
        DueSleepersSame(s, s1, i + 1);
        WakeAllSame(Wake(s, t).0, s1, DueSleepers(s, i + 1));
        assert DueSleepers(s, i)[0] == t && DueSleepers(s, i)[1..] == DueSleepers(s, i + 1);
        assert ExpireSleepers(s, i) == ExpireSleepers(s1, i + 1);
      } else {
        ExpireSleepersWakes(s, i + 1);
        assert DueSleepers(s, i) == DueSleepers(s, i + 1);
      }
    }
  }

  lemma {:induction false} ExpireFutexesWakes(s: State, i: nat)
    requires i <= |s.futexWaiters|
    ensures ExpireFutexes(s, i).threads == WakeAll(s, DueWaiters(s, i)).threads
    ensures ExpireFutexes(s, i).queue == WakeAll(s, DueWaiters(s, i)).queue
    decreases |s.futexWaiters| - i
  {
    hide FutexDue;
    if i < |s.futexWaiters| {
      if WaiterDue(s.ticks, s.futexWaiters[i]) {
        var t := s.futexWaiters[i].value.thread;
        var s1 := Wake(s.(futexWaiters := s.futexWaiters[i := None]), t).0;
        ExpireFutexesWakes(s1, i + 1);
        DueWaitersSame(s, s1, i + 1);
        WakeAllSame(Wake(s, t).0, s1, DueWaiters(s, i + 1));
        assert DueWaiters(s, i)[0] == t && DueWaiters(s, i)[1..] == DueWaiters(s, i + 1);
        assert ExpireFutexes(s, i) == ExpireFutexes(s1, i + 1);
      } else {
        ExpireFutexesWakes(s, i + 1);
        assert DueWaiters(s, i) == DueWaiters(s, i + 1);
      }
    }
  }

  lemma {:induction false} DueSleeperAt(s: State, i: nat, k: nat) returns (j: nat)
    requires i <= |s.sleepers| && k < |DueSleepers(s, i)|
    ensures i <= j < |s.sleepers| && s.sleepers[j].Some? && s.sleepers[j].value.thread == DueSleepers(s, i)[k]
    decreases |s.sleepers| - i
  {
    if SleeperDue(s.ticks, s.sleepers[i]) && k == 0 {
      j := i;
    } else {
      j := DueSleeperAt(s, i + 1, if SleeperDue(s.ticks, s.sleepers[i]) then k - 1 else k);
    }
  }

  lemma {:induction false} DueWaiterAt(s: State, i: nat, k: nat) returns (j: nat)
    requires i <= |s.futexWaiters| && k < |DueWaiters(s, i)|
    ensures i <= j < |s.futexWaiters| && s.futexWaiters[j].Some? && s.futexWaiters[j].value.thread == DueWaiters(s, i)[k]
    decreases |s.futexWaiters| - i
  {
    if WaiterDue(s.ticks, s.futexWaiters[i]) && k == 0 {
      j := i;
    } else {
      j := DueWaiterAt(s, i + 1, if WaiterDue(s.ticks, s.futexWaiters[i]) then k - 1 else k);
    }
  }

  /** No thread is registered as sleeper or waiter twice. */
  ghost predicate OneTimerEach(s: State) {
    && (forall i, j | 0 <= i < j < |s.sleepers| && s.sleepers[i].Some? && s.sleepers[j].Some? ::
          s.sleepers[i].value.thread != s.sleepers[j].value.thread)
    && OneEntryEach(s, 0)
    && (forall i, j | 0 <= i < |s.sleepers| && 0 <= j < |s.futexWaiters| && s.sleepers[i].Some? && s.futexWaiters[j].Some? ::
          s.sleepers[i].value.thread != s.futexWaiters[j].value.thread)
  }

  lemma InvHasOneTimerEach(s: State)
    requires Inv(s)
    ensures OneTimerEach(s)
  {
    hide CallsOk, ProcessesOk, QueueOk;
    EntriesAreDistinct(s);
    forall i, j | 0 <= i < j < |s.sleepers| && s.sleepers[i].Some? && s.sleepers[j].Some?
      ensures s.sleepers[i].value.thread != s.sleepers[j].value.thread
    {
      assert Registered(s, InSleep(i), s.sleepers[i].value.thread) && Registered(s, InSleep(j), s.sleepers[j].value.thread);
      assert InSleep(i) != InSleep(j);
    }
    forall i, j | 0 <= i < |s.sleepers| && 0 <= j < |s.futexWaiters| && s.sleepers[i].Some? && s.futexWaiters[j].Some?
      ensures s.sleepers[i].value.thread != s.futexWaiters[j].value.thread
    {
      assert Registered(s, InSleep(i), s.sleepers[i].value.thread) && Registered(s, InFutex(j), s.futexWaiters[j].value.thread);
    }
  }

  lemma {:induction false} DueSleepersDistinct(s: State, i: nat)
    requires OneTimerEach(s) && i <= |s.sleepers|
    ensures Distinct(DueSleepers(s, i))
    decreases |s.sleepers| - i
  {
    if i < |s.sleepers| {
      DueSleepersDistinct(s, i + 1);
      if SleeperDue(s.ticks, s.sleepers[i]) {
        var rest := DueSleepers(s, i + 1);
        forall k | 0 <= k < |rest| ensures rest[k] != s.sleepers[i].value.thread {
          var j := DueSleeperAt(s, i + 1, k);
        }
      }
    }
  }

  lemma {:induction false} DueWaitersDistinct(s: State, i: nat)
    requires OneTimerEach(s) && i <= |s.futexWaiters|
    ensures Distinct(DueWaiters(s, i))
    decreases |s.futexWaiters| - i
  {
    if i < |s.futexWaiters| {
      DueWaitersDistinct(s, i + 1);
      if WaiterDue(s.ticks, s.futexWaiters[i]) {
        var rest := DueWaiters(s, i + 1);
        forall k | 0 <= k < |rest| ensures rest[k] != s.futexWaiters[i].value.thread {
          var j := DueWaiterAt(s, i + 1, k);
        }
      }
    }
  }

  lemma DueThreadsDistinct(s: State)
    requires OneTimerEach(s)
    ensures Distinct(DueSleepers(s, 0) + DueWaiters(s, 0))
  {
    var a, b := DueSleepers(s, 0), DueWaiters(s, 0);
    DueSleepersDistinct(s, 0);
    DueWaitersDistinct(s, 0);
    forall i, j | 0 <= i < |a| && 0 <= j < |b| ensures a[i] != b[j] {
      var x := DueSleeperAt(s, 0, i);
      var y := DueWaiterAt(s, 0, j);
    }
    forall i, j | 0 <= i < j < |a + b| ensures (a + b)[i] != (a + b)[j] {
    }
  }

  /** A tick queues those it wakes behind everybody: the due sleepers in table order, then the due
      futex waiters in table order. */
  lemma TickWakesInOrder(s: State)
    requires Inv(s)
    ensures var s1 := s.(ticks := WrappingAdd(s.ticks, 1));
            Tick(s).queue == s.queue + StillBlocked(s, DueSleepers(s1, 0) + DueWaiters(s1, 0))
  {
    hide Base, Due, WrappingAdd;
    InvHasRoom(s);
    InvHasOneTimerEach(s);
    var s1 := s.(ticks := WrappingAdd(s.ticks, 1));
    var a, b := DueSleepers(s1, 0), DueWaiters(s1, 0);
    ExpireSleepersWakes(s1, 0);
    ExpireSleepersIs(s1, 0);
    var s2 := ExpireSleepers(s1, 0);
    ExpireFutexesWakes(s2, 0);
    DueWaitersSame(s1, s2, 0);
    WakeAllSame(WakeAll(s1, a), s2, b);
    WakeAllConcat(s1, a, b);
    assert OneTimerEach(s1);
    DueThreadsDistinct(s1);
    ClearedHasRoom(s, s1);
    WakeAllInOrder(s1, a + b);
    StillBlockedFrame(s, s1, a + b);
  }
}
