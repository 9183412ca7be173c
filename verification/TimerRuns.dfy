/** Sleeping, timeouts and futex wakes: when a waiter is woken, and which one. */
module TimerRuns {
  import opened Wrappers
  import opened ThreadTable
  import opened Words
  import opened SchedulerInvariant
  import opened SchedulerSteps
  import opened ProcessSteps
  import opened LifecycleSteps
  import opened StepProgress
  import opened SchedulerRuns

  // --------------------------------------------------------- wrap-around arithmetic

  /** Ticks until the deadline, across the wrap of the counter. */
  function Remaining(ticks: U64, deadline: U64): U64 {
    WrappingSub(deadline, ticks)
  }

  predicate Armed(ticks: U64, deadline: U64) {
    0 < Remaining(ticks, deadline) < TWO_63
  }

  /** The signed comparison of the kernel is exact while less than half the range is pending. */
  lemma DueExactlyAtZero(ticks: U64, deadline: U64)
    requires Armed(ticks, deadline)
    ensures Due(WrappingAdd(ticks, 1), deadline) <==> Remaining(ticks, deadline) == 1
    ensures Remaining(WrappingAdd(ticks, 1), deadline) == Remaining(ticks, deadline) - 1
  {
    var r := deadline - ticks;
    if r < 0 {
      assert Remaining(ticks, deadline) == r + TWO_64;
    }
    if ticks == TWO_64 - 1 {
      assert WrappingAdd(ticks, 1) == 0;
    } else {
      assert WrappingAdd(ticks, 1) == ticks + 1;
    }
  }

  lemma NewDeadlineIsArmed(ticks: U64, wait: U64)
    requires 0 < wait < TWO_63
    ensures Remaining(ticks, WrappingAdd(ticks, wait)) == wait
    ensures Armed(ticks, WrappingAdd(ticks, wait))
  {
    if ticks + wait < TWO_64 {
      assert WrappingAdd(ticks, wait) == ticks + wait;
    } else {
      assert WrappingAdd(ticks, wait) == ticks + wait - TWO_64;
      assert Remaining(ticks, WrappingAdd(ticks, wait)) == wait;
    }
  }

  /** Tenths of milliseconds rounded up, in exact arithmetic. */
  function TicksFor(milliseconds: nat): nat {
    (milliseconds + 9) / 10
  }

  /** The saturating addition rounds correctly up to 2^64 - 6 milliseconds and no further. */
  lemma SleepTicksAreExact(milliseconds: U64)
    requires milliseconds > 0
    ensures SleepTicks(milliseconds) == TicksFor(milliseconds) <==> milliseconds <= TWO_64 - 6
    ensures 0 < SleepTicks(milliseconds) < TWO_63
  {
  }

  lemma ShortestTimeout(timeout: U64)
    ensures 0 < SleepTicks(timeout) < TWO_63
    ensures SleepTicks(0) == 1
  {
  }

  // ------------------------------------------------------------- what steps leave

  /** An entry already in a wait table is the same afterwards. */
  ghost predicate SleepersKept(s: State, s': State) {
    && |s'.sleepers| == |s.sleepers|
    && forall i | 0 <= i < |s.sleepers| && s.sleepers[i].Some? :: s'.sleepers[i] == s.sleepers[i]
  }

  /** Entries that appear are armed for the current tick. */
  ghost predicate NewSleepersArmed(s: State, s': State) {
    && |s'.sleepers| == |s.sleepers|
    && forall i | 0 <= i < |s.sleepers| && s'.sleepers[i] != s.sleepers[i] && s'.sleepers[i].Some? ::
         Armed(s.ticks, s'.sleepers[i].value.deadline)
  }

  ghost predicate FutexesKept(s: State, s': State) {
    && |s'.futexWaiters| == |s.futexWaiters|
    && forall i | 0 <= i < |s.futexWaiters| && s.futexWaiters[i].Some? :: s'.futexWaiters[i] == s.futexWaiters[i]
  }

  predicate FutexArmed(ticks: U64, entry: FutexWaiter) {
    entry.deadline.Some? ==> Armed(ticks, entry.deadline.value)
  }

  ghost predicate NewFutexesArmed(s: State, s': State) {
    && |s'.futexWaiters| == |s.futexWaiters|
    && forall i | 0 <= i < |s.futexWaiters| && s'.futexWaiters[i] != s.futexWaiters[i] && s'.futexWaiters[i].Some? ::
         FutexArmed(s.ticks, s'.futexWaiters[i].value)
  }

  lemma {:induction false} WakeAllTables(s: State, waiters: seq<nat>)
    ensures var r := WakeAll(s, waiters);
            r.sleepers == s.sleepers && r.futexWaiters == s.futexWaiters && r.ticks == s.ticks
    decreases |waiters|
  {
    if waiters != [] {
      WakeAllTables(Wake(s, waiters[0]).0, waiters[1..]);
    }
  }

  lemma ScheduleTables(s: State, c: nat)
    requires Shape(s) && c < |s.threads|
    ensures var r := ScheduleFrom(s, c);
            r.sleepers == s.sleepers && r.futexWaiters == s.futexWaiters && r.ticks == s.ticks
  {
  }

  lemma {:induction false} FutexWakeTables(s: State, address: U64, count: U64, i: nat, woken: nat)
    requires i <= |s.futexWaiters|
    ensures var r := FutexWakeFrom(s, address, count, i, woken).0;
            r.sleepers == s.sleepers && r.ticks == s.ticks && |r.futexWaiters| == |s.futexWaiters|
    ensures forall j | 0 <= j < |s.futexWaiters| ::
              FutexWakeFrom(s, address, count, i, woken).0.futexWaiters[j] in {s.futexWaiters[j], None}
    ensures forall j | 0 <= j < |s.futexWaiters| && s.futexWaiters[j].Some? && s.futexWaiters[j].value.address != address ::
              FutexWakeFrom(s, address, count, i, woken).0.futexWaiters[j] == s.futexWaiters[j]
    decreases |s.futexWaiters| - i
  {
    if i < |s.futexWaiters| {
      if s.futexWaiters[i].Some? && s.futexWaiters[i].value.address == address && woken < count {
        var (s1, ok) := Wake(s.(futexWaiters := s.futexWaiters[i := None]), s.futexWaiters[i].value.thread);
        FutexWakeTables(s1, address, count, i + 1, if ok then woken + 1 else woken);
      } else {
        FutexWakeTables(s, address, count, i + 1, woken);
      }
    }
  }

  /** The state before the dispatch of a switching step has the tables of the state after. */
  lemma TablesAfterSwitch(s1: State, c: nat)
    requires Between(s1, c)
    ensures var r := ScheduleFrom(s1, c);
            r.sleepers == s1.sleepers && r.futexWaiters == s1.futexWaiters && r.ticks == s1.ticks
  {
    ScheduleTables(s1, c);
  }

  lemma UntouchedTables(s: State, step: Step)
    requires Inv(s) && Allowed(s, step)
    requires !step.DoTick? && !step.DoSleep? && !step.DoFutexWait? && !step.DoFutexWake?
    ensures var r := Next(s, step);
            r.sleepers == s.sleepers && r.futexWaiters == s.futexWaiters && r.ticks == s.ticks
  {
    hide Base, Between, Allowed, ScheduleFrom, Yield, ExitCurrent, Join, WaitProcess, TerminateProcess, Tick, Sleep, FutexWait,
         FutexWakeFrom;
    assert Shape(s) by { ShapeOf(s); }
    match step
    case DoYield => YieldTables(s);
    case DoExit(status) => ExitTables(s, status);
    case DoJoin(target) => JoinTables(s, target);
    case DoWait(process) => WaitTables(s, process);
    case DoTerminate(process) => TerminateTables(s, process);
    case _ =>
  }

  lemma YieldTables(s: State)
    requires Inv(s)
    ensures Shape(s)
    ensures var r := Yield(s);
            r.sleepers == s.sleepers && r.futexWaiters == s.futexWaiters && r.ticks == s.ticks
  {
    hide Base, Between, ScheduleFrom;
    InvShape(s);
    YieldKeeps(s);
    TablesAfterSwitch(YieldState(s), s.current.value);
    BetweenShape(YieldState(s), s.current.value);
    YieldIs(s);
  }

  lemma ExitTables(s: State, status: U64)
    requires Inv(s) && Allowed(s, DoExit(status))
    ensures Shape(s)
    ensures var r := ExitCurrent(s, status);
            r.sleepers == s.sleepers && r.futexWaiters == s.futexWaiters && r.ticks == s.ticks
  {
    hide Base, Between, ScheduleFrom, WakeAll, Reparent;
    InvShape(s);
    var c := s.current.value;
    ExitKeeps(s, status);
    TablesAfterSwitch(ExitedState(s, c, status), c);
    WakeAllTables(Ended(s, c, status, false, Reparent(s.processes, c)), JoinList(s.threads[c]));
  }

  lemma TerminateTables(s: State, process: nat)
    requires Shape(s)
    ensures var r := TerminateProcess(s, process).0;
            r.sleepers == s.sleepers && r.futexWaiters == s.futexWaiters && r.ticks == s.ticks
  {
    hide WakeAll;
    var child := ChildOfCurrent(s, process);
    if child.Some? && child.value < |s.threads| {
      var task := s.threads[child.value];
      WakeAllTables(s.(threads := s.threads[child.value := task.(state := Exited, exitStatus := TERMINATED_STATUS)]),
                    JoinList(task));
    }
  }

  lemma JoinTables(s: State, target: nat)
    requires Inv(s) && Allowed(s, DoJoin(target))
    ensures var r := Join(s, target).0;
            r.sleepers == s.sleepers && r.futexWaiters == s.futexWaiters && r.ticks == s.ticks
  {
    hide Base, Between, ScheduleFrom;
    assert Shape(s) by { ShapeOf(s); }
    if target < |s.threads| && target != s.current.value && s.threads[target].state != Exited {
      BlockingJoinKeeps(s, target, Joining(target));
      TablesAfterSwitch(Listed(s, target, Joining(target)), s.current.value);
    }
  }

  lemma WaitTables(s: State, process: nat)
    requires Inv(s) && Allowed(s, DoWait(process))
    ensures var r := WaitProcess(s, process).0;
            r.sleepers == s.sleepers && r.futexWaiters == s.futexWaiters && r.ticks == s.ticks
  {
    hide Base, Between, ScheduleFrom;
    assert Shape(s) by { ShapeOf(s); }
    var child := ChildOfCurrent(s, process);
    if child.Some? {
      ChildInRange(s, process);
      if s.threads[child.value].state != Exited {
        CollectingCallOk(s, process, child.value);
        BlockingJoinKeeps(s, child.value, Collecting(child.value, process));
        TablesAfterSwitch(Listed(s, child.value, Collecting(child.value, process)), s.current.value);
      }
    }
  }

  lemma SleepTables(s: State, milliseconds: U64)
    requires Inv(s) && Allowed(s, DoSleep(milliseconds))
    ensures var r := Sleep(s, milliseconds).0;
            r.futexWaiters == s.futexWaiters && r.ticks == s.ticks && SleepersKept(s, r) && NewSleepersArmed(s, r)
    ensures Switches(s, DoSleep(milliseconds)) ==>
              var i := FirstEmpty(s.sleepers, 0);
              Sleep(s, milliseconds).0.sleepers[i] ==
                Some(Sleeper(s.current.value, WrappingAdd(s.ticks, SleepTicks(milliseconds))))
  {
    hide Base, Between, ScheduleFrom, Armed, WrappingAdd, SleepTicks;
    assert Shape(s) by { ShapeOf(s); }
    if Switches(s, DoSleep(milliseconds)) {
      var i := FirstEmpty(s.sleepers, 0);
      var deadline := WrappingAdd(s.ticks, SleepTicks(milliseconds));
      ShortestTimeout(milliseconds);
      NewDeadlineIsArmed(s.ticks, SleepTicks(milliseconds));
      SleepStateKeeps(s, i, deadline);
      assert Shape(SleepState(s, i, deadline)) by { BetweenShape(SleepState(s, i, deadline), s.current.value); }
      SleepIs(s, milliseconds);
      TablesAfterSwitch(SleepState(s, i, deadline), s.current.value);
    }
  }

  lemma FutexWaitTables(s: State, address: U64, actual: U64, expected: U64, timeout: U64)
    requires Inv(s) && Allowed(s, DoFutexWait(address, actual, expected, timeout))
    ensures var r := FutexWait(s, address, actual, expected, timeout).0;
            r.sleepers == s.sleepers && r.ticks == s.ticks && FutexesKept(s, r) && NewFutexesArmed(s, r)
    ensures Switches(s, DoFutexWait(address, actual, expected, timeout)) ==>
              var i := FirstEmpty(s.futexWaiters, 0);
              FutexWait(s, address, actual, expected, timeout).0.futexWaiters[i] ==
                Some(FutexWaiter(address, s.current.value, FutexDeadline(s.ticks, timeout)))
  {
    hide Base, Between, ScheduleFrom, Armed, WrappingAdd, SleepTicks;
    assert Shape(s) by { ShapeOf(s); }
    if Switches(s, DoFutexWait(address, actual, expected, timeout)) {
      var i := FirstEmpty(s.futexWaiters, 0);
      var entry := FutexWaiter(address, s.current.value, FutexDeadline(s.ticks, timeout));
      ShortestTimeout(timeout);
      NewDeadlineIsArmed(s.ticks, SleepTicks(timeout));
      FutexStateKeeps(s, i, entry);
      assert Shape(FutexState(s, i, entry)) by { BetweenShape(FutexState(s, i, entry), s.current.value); }
      FutexWaitIs(s, address, actual, expected, timeout);
      TablesAfterSwitch(FutexState(s, i, entry), s.current.value);
    }
  }

  // ---------------------------------------------------------------------- ticks

  predicate SleeperDue(ticks: U64, entry: Option<Sleeper>) {
    entry.Some? && Due(ticks, entry.value.deadline)
  }

  predicate WaiterDue(ticks: U64, entry: Option<FutexWaiter>) {
    entry.Some? && FutexDue(ticks, entry.value)
  }

  /** The sleeper scan empties exactly the due entries and readies their blocked threads. */
  lemma {:induction false} ExpireSleepersIs(s: State, i: nat)
    requires i <= |s.sleepers|
    ensures var r := ExpireSleepers(s, i);
            && r.ticks == s.ticks && r.futexWaiters == s.futexWaiters
            && |r.sleepers| == |s.sleepers| && |r.threads| == |s.threads|
            && (forall j | 0 <= j < |s.sleepers| ::
                  r.sleepers[j] == if i <= j && SleeperDue(s.ticks, s.sleepers[j]) then None else s.sleepers[j])
    ensures forall t | 0 <= t < |s.threads| && s.threads[t].state == Ready :: ExpireSleepers(s, i).threads[t].state == Ready
    ensures forall j | i <= j < |s.sleepers| && SleeperDue(s.ticks, s.sleepers[j]) ::
              var t := s.sleepers[j].value.thread;
              t < |s.threads| && s.threads[t].state == Blocked ==> ExpireSleepers(s, i).threads[t].state == Ready
    decreases |s.sleepers| - i
  {
    hide Due;
    if i < |s.sleepers| {
      if SleeperDue(s.ticks, s.sleepers[i]) {
        var s1 := Wake(s.(sleepers := s.sleepers[i := None]), s.sleepers[i].value.thread).0;
        ExpireSleepersIs(s1, i + 1);
        assert ExpireSleepers(s, i) == ExpireSleepers(s1, i + 1);
      } else {
        ExpireSleepersIs(s, i + 1);
      }
    }
  }

  lemma {:induction false} ExpireFutexesIs(s: State, i: nat)
    requires i <= |s.futexWaiters|
    ensures var r := ExpireFutexes(s, i);
            && r.ticks == s.ticks && r.sleepers == s.sleepers
            && |r.futexWaiters| == |s.futexWaiters| && |r.threads| == |s.threads|
            && (forall j | 0 <= j < |s.futexWaiters| ::
                  r.futexWaiters[j] == if i <= j && WaiterDue(s.ticks, s.futexWaiters[j]) then None else s.futexWaiters[j])
    ensures forall t | 0 <= t < |s.threads| && s.threads[t].state == Ready :: ExpireFutexes(s, i).threads[t].state == Ready
    ensures forall j | i <= j < |s.futexWaiters| && WaiterDue(s.ticks, s.futexWaiters[j]) ::
              var t := s.futexWaiters[j].value.thread;
              t < |s.threads| && s.threads[t].state == Blocked ==> ExpireFutexes(s, i).threads[t].state == Ready
    decreases |s.futexWaiters| - i
  {
    hide FutexDue;
    if i < |s.futexWaiters| {
      if WaiterDue(s.ticks, s.futexWaiters[i]) {
        var s1 := Wake(s.(futexWaiters := s.futexWaiters[i := None]), s.futexWaiters[i].value.thread).0;
        ExpireFutexesIs(s1, i + 1);
        assert ExpireFutexes(s, i) == ExpireFutexes(s1, i + 1);
      } else {
        ExpireFutexesIs(s, i + 1);
      }
    }
  }

  /** No deadline is in the past or too far ahead. */
  ghost predicate AllArmed(s: State) {
    && (forall i | 0 <= i < |s.sleepers| && s.sleepers[i].Some? :: Armed(s.ticks, s.sleepers[i].value.deadline))
    && (forall i | 0 <= i < |s.futexWaiters| && s.futexWaiters[i].Some? :: FutexArmed(s.ticks, s.futexWaiters[i].value))
  }

  /** One tick: every armed deadline comes one tick nearer, and the entry is removed, with
      its blocked thread readied, exactly when that makes it zero. */
  lemma TickIs(s: State)
    requires AllArmed(s)
    ensures var r := Tick(s);
            && r.ticks == WrappingAdd(s.ticks, 1)
            && |r.sleepers| == |s.sleepers| && |r.futexWaiters| == |s.futexWaiters| && |r.threads| == |s.threads|
    ensures forall i | 0 <= i < |s.sleepers| && s.sleepers[i].Some? ::
              Tick(s).sleepers[i] ==
              if Remaining(s.ticks, s.sleepers[i].value.deadline) == 1 then None else s.sleepers[i]
    ensures forall i | 0 <= i < |s.sleepers| && s.sleepers[i].None? :: Tick(s).sleepers[i].None?
    ensures forall i | 0 <= i < |s.futexWaiters| && s.futexWaiters[i].Some? ::
              var d := s.futexWaiters[i].value.deadline;
              Tick(s).futexWaiters[i] ==
              if d.Some? && Remaining(s.ticks, d.value) == 1 then None else s.futexWaiters[i]
    ensures forall i | 0 <= i < |s.futexWaiters| && s.futexWaiters[i].None? :: Tick(s).futexWaiters[i].None?
  {
    hide Due, Armed, Remaining, WrappingAdd;
    var s1 := s.(ticks := WrappingAdd(s.ticks, 1));
    ExpireSleepersIs(s1, 0);
    var s2 := ExpireSleepers(s1, 0);
    ExpireFutexesIs(s2, 0);
    forall i | 0 <= i < |s.sleepers| && s.sleepers[i].Some?
      ensures SleeperDue(s1.ticks, s.sleepers[i]) <==> Remaining(s.ticks, s.sleepers[i].value.deadline) == 1
    {
      DueExactlyAtZero(s.ticks, s.sleepers[i].value.deadline);
    }
    forall i | 0 <= i < |s.futexWaiters| && s.futexWaiters[i].Some?
      ensures WaiterDue(s1.ticks, s.futexWaiters[i]) <==>
              s.futexWaiters[i].value.deadline.Some? && Remaining(s.ticks, s.futexWaiters[i].value.deadline.value) == 1
    {
      if s.futexWaiters[i].value.deadline.Some? {
        DueExactlyAtZero(s.ticks, s.futexWaiters[i].value.deadline.value);
      }
    }
  }

  lemma SleeperWakes(s: State, i: nat)
    requires Inv(s) && AllArmed(s)
    requires i < |s.sleepers| && s.sleepers[i].Some? && Remaining(s.ticks, s.sleepers[i].value.deadline) == 1
    ensures var t := s.sleepers[i].value.thread;
            t < |s.threads| && |Tick(s).threads| == |s.threads|
            && (s.threads[t].state == Blocked ==> Tick(s).threads[t].state == Ready)
  {
    hide PlacesOk, CallsOk, ProcessesOk, QueueOk, Due, Armed, Remaining, WrappingAdd;
    var s1 := s.(ticks := WrappingAdd(s.ticks, 1));
    DueExactlyAtZero(s.ticks, s.sleepers[i].value.deadline);
    ExpireSleepersIs(s1, 0);
    ExpireFutexesIs(ExpireSleepers(s1, 0), 0);
  }

  lemma WaiterTimesOut(s: State, i: nat)
    requires Inv(s) && AllArmed(s)
    requires i < |s.futexWaiters| && s.futexWaiters[i].Some? && s.futexWaiters[i].value.deadline.Some?
    requires Remaining(s.ticks, s.futexWaiters[i].value.deadline.value) == 1
    ensures var t := s.futexWaiters[i].value.thread;
            t < |s.threads| && |Tick(s).threads| == |s.threads|
            && (s.threads[t].state == Blocked ==> Tick(s).threads[t].state == Ready)
  {
    hide PlacesOk, CallsOk, ProcessesOk, QueueOk, Due, Armed, Remaining, WrappingAdd;
    var s1 := s.(ticks := WrappingAdd(s.ticks, 1));
    DueExactlyAtZero(s.ticks, s.futexWaiters[i].value.deadline.value);
    ExpireSleepersIs(s1, 0);
    var s2 := ExpireSleepers(s1, 0);
    ExpireFutexesIs(s2, 0);
    var t := s.futexWaiters[i].value.thread;
    if s.threads[t].state == Blocked {
      LaterInv(s);
      ExpireSleepersAwakens(s1, 0);
      assert s2.threads[t].state in {Blocked, Ready};
    }
  }

  /** Every step keeps all deadlines armed. */
  lemma AllArmedStep(s: State, step: Step)
    requires Inv(s) && Allowed(s, step) && AllArmed(s)
    ensures AllArmed(Next(s, step))
  {
    hide Base, Allowed, Armed, Between, Sleep, FutexWait, FutexWakeFrom, Tick, Yield, ExitCurrent, Join, WaitProcess,
         TryWaitProcess, ReapAnyChild, Resume, TerminateProcess, ThreadCreate, SpawnProcess, Switches;
    assert Shape(s) by { ShapeOf(s); }
    match step
    case DoTick =>
      TickKeepsArmed(s);
    case DoSleep(milliseconds) =>
      SleepTables(s, milliseconds);
    case DoFutexWait(address, actual, expected, timeout) =>
      FutexWaitTables(s, address, actual, expected, timeout);
    case DoFutexWake(address, count) =>
      FutexWakeTables(s, address, count, 0, 0);
    case _ =>
      UntouchedTables(s, step);
  }

  lemma TickKeepsArmed(s: State)
    requires AllArmed(s)
    ensures AllArmed(Tick(s))
  {
    hide Tick, Remaining, WrappingAdd;
    TickIs(s);
    var r := Tick(s);
    forall i | 0 <= i < |r.sleepers| && r.sleepers[i].Some? ensures Armed(r.ticks, r.sleepers[i].value.deadline) {
      DueExactlyAtZero(s.ticks, s.sleepers[i].value.deadline);
    }
    forall i | 0 <= i < |r.futexWaiters| && r.futexWaiters[i].Some? ensures FutexArmed(r.ticks, r.futexWaiters[i].value) {
      if s.futexWaiters[i].value.deadline.Some? {
        DueExactlyAtZero(s.ticks, s.futexWaiters[i].value.deadline.value);
      }
    }
  }

  /** Timer interrupts in a run. */
  function Ticks(steps: seq<Step>): nat {
    if steps == [] then 0 else (if steps[0].DoTick? then 1 else 0) + Ticks(steps[1..])
  }

  /** At boot nothing is pending, so every reachable state is armed. */
  lemma ReachableIsArmed(n: nat, tables: nat, space: nat, steps: seq<Step>)
    requires 2 <= n < NO_THREAD
    requires Inv(Boot(n, tables, space)) && AllowedRun(Boot(n, tables, space), steps)
    ensures AllArmed(Run(Boot(n, tables, space), steps))
  {
    hide Run, AllowedRun, Base;
    BootIs(n, tables, space);
    assert AllArmed(Boot(n, tables, space));
    RunKeepsArmed(Boot(n, tables, space), steps);
  }

  lemma {:induction false} RunKeepsArmed(s: State, steps: seq<Step>)
    requires Inv(s) && AllowedRun(s, steps) && AllArmed(s)
    ensures AllArmed(Run(s, steps))
    decreases |steps|
  {
    hide Base, Allowed, AllArmed, Next;
    if steps != [] {
      assert Shape(s) by { ShapeOf(s); }
      StepKeeps(s, steps[0]);
      AllArmedStep(s, steps[0]);
      RunKeepsArmed(Next(s, steps[0]), steps[1..]);
    }
  }

  /** What one step does to a sleeper entry that is not about to expire. */
  lemma SleeperStep(s: State, step: Step, i: nat)
    requires Inv(s) && Allowed(s, step) && AllArmed(s)
    requires i < |s.sleepers| && s.sleepers[i].Some?
    requires step.DoTick? ==> Remaining(s.ticks, s.sleepers[i].value.deadline) > 1
    ensures i < |Next(s, step).sleepers| && Next(s, step).sleepers[i] == s.sleepers[i]
    ensures Remaining(Next(s, step).ticks, s.sleepers[i].value.deadline) ==
            Remaining(s.ticks, s.sleepers[i].value.deadline) - (if step.DoTick? then 1 else 0)
  {
    hide Base, Allowed, Armed, Remaining, Between, Sleep, FutexWait, FutexWakeFrom, Tick, Yield, ExitCurrent, Join, WaitProcess,
         TryWaitProcess, ReapAnyChild, Resume, TerminateProcess, ThreadCreate, SpawnProcess, Switches, WrappingAdd;
    assert Shape(s) by { ShapeOf(s); }
    match step
    case DoTick =>
      TickIs(s);
      DueExactlyAtZero(s.ticks, s.sleepers[i].value.deadline);
    case DoSleep(milliseconds) => SleepTables(s, milliseconds);
    case DoFutexWait(address, actual, expected, timeout) => FutexWaitTables(s, address, actual, expected, timeout);
    case DoFutexWake(address, count) => FutexWakeTables(s, address, count, 0, 0);
    case _ => UntouchedTables(s, step);
  }

  /** An entry stays in the table, its thread asleep, for all ticks but the last. */
  lemma {:induction false} SleepsUntilDue(s: State, steps: seq<Step>, i: nat)
    requires Inv(s) && AllowedRun(s, steps) && AllArmed(s)
    requires i < |s.sleepers| && s.sleepers[i].Some?
    requires Ticks(steps) < Remaining(s.ticks, s.sleepers[i].value.deadline)
    ensures var f := Run(s, steps);
            && i < |f.sleepers| && f.sleepers[i] == s.sleepers[i]
            && Remaining(f.ticks, s.sleepers[i].value.deadline) ==
               Remaining(s.ticks, s.sleepers[i].value.deadline) - Ticks(steps)
            && s.sleepers[i].value.thread < |f.threads|
            && f.threads[s.sleepers[i].value.thread].state in {Blocked, Exited}
    decreases |steps|
  {
    hide Base, Allowed, AllArmed, Remaining, Next;
    assert Shape(s) by { ShapeOf(s); }
    if steps == [] {
      SleeperIsBlocked(s, i);
    } else {
      StepKeeps(s, steps[0]);
      AllArmedStep(s, steps[0]);
      SleeperStep(s, steps[0], i);
      SleepsUntilDue(Next(s, steps[0]), steps[1..], i);
    }
  }

  lemma SleeperIsBlocked(s: State, i: nat)
    requires Inv(s) && i < |s.sleepers| && s.sleepers[i].Some?
    ensures s.sleepers[i].value.thread < |s.threads|
    ensures s.threads[s.sleepers[i].value.thread].state in {Blocked, Exited}
  {
    hide CallsOk, ProcessesOk, QueueOk;
    assert Registered(s, InSleep(i), s.sleepers[i].value.thread);
  }

  /** A sleep wakes its thread at exactly the tick it asked for: through every earlier tick
      the thread stays asleep, and the tick numbered `SleepTicks` readies it. */
  lemma SleepWakesOnTime(s: State, milliseconds: U64, steps: seq<Step>)
    requires Inv(s) && AllArmed(s) && Allowed(s, DoSleep(milliseconds))
    requires milliseconds > 0 && |s.threads| <= |s.sleepers|
    requires Inv(Next(s, DoSleep(milliseconds))) && AllowedRun(Next(s, DoSleep(milliseconds)), steps)
    requires Ticks(steps) < SleepTicks(milliseconds)
    ensures var t := s.current.value;
            var f := Run(Next(s, DoSleep(milliseconds)), steps);
            && t < |f.threads| && f.threads[t].state in {Blocked, Exited}
            && (Ticks(steps) == SleepTicks(milliseconds) - 1 && f.threads[t].state == Blocked ==>
                  t < |Tick(f).threads| && Tick(f).threads[t].state == Ready)
  {
    hide Base, AllArmed, Remaining, Next, Run, Tick, Allowed, SleepTicks;
    assert Shape(s) by { ShapeOf(s); }
    SleepersHaveRoom(s);
    SleepEntersTable(s, milliseconds);
    var i := FirstEmpty(s.sleepers, 0);
    var s1 := Next(s, DoSleep(milliseconds));
    AllArmedStep(s, DoSleep(milliseconds));
    SleepsUntilDue(s1, steps, i);
    RunKeepsArmed(s1, steps);
    var f := Run(s1, steps);
    if Ticks(steps) == SleepTicks(milliseconds) - 1 {
      SleeperWakes(f, i);
    }
  }

  lemma SleepEntersTable(s: State, milliseconds: U64)
    requires Inv(s) && Allowed(s, DoSleep(milliseconds)) && milliseconds > 0
    requires FirstEmpty(s.sleepers, 0) < |s.sleepers|
    ensures var i := FirstEmpty(s.sleepers, 0);
            var s1 := Next(s, DoSleep(milliseconds));
            && i < |s1.sleepers| && s1.sleepers[i].Some? && s1.sleepers[i].value.thread == s.current.value
            && Remaining(s1.ticks, s1.sleepers[i].value.deadline) == SleepTicks(milliseconds)
  {
    hide Base, Sleep, SleepTicks;
    assert Shape(s) by { ShapeOf(s); }
    SleepTables(s, milliseconds);
    ShortestTimeout(milliseconds);
    NewDeadlineIsArmed(s.ticks, SleepTicks(milliseconds));
  }

  // --------------------------------------------------------------- futex timeouts

  lemma WaiterStep(s: State, step: Step, i: nat)
    requires Inv(s) && Allowed(s, step) && AllArmed(s)
    requires i < |s.futexWaiters| && s.futexWaiters[i].Some?
    requires step.DoTick? && s.futexWaiters[i].value.deadline.Some? ==>
               Remaining(s.ticks, s.futexWaiters[i].value.deadline.value) > 1
    requires step.DoFutexWake? ==> step.address != s.futexWaiters[i].value.address
    ensures i < |Next(s, step).futexWaiters| && Next(s, step).futexWaiters[i] == s.futexWaiters[i]
    ensures s.futexWaiters[i].value.deadline.Some? ==>
              Remaining(Next(s, step).ticks, s.futexWaiters[i].value.deadline.value) ==
              Remaining(s.ticks, s.futexWaiters[i].value.deadline.value) - (if step.DoTick? then 1 else 0)
  {
    hide Base, Allowed, Armed, Remaining, Between, Sleep, FutexWait, FutexWakeFrom, Tick, Yield, ExitCurrent, Join, WaitProcess,
         TryWaitProcess, ReapAnyChild, Resume, TerminateProcess, ThreadCreate, SpawnProcess, Switches, WrappingAdd;
    assert Shape(s) by { ShapeOf(s); }
    match step
    case DoTick =>
      TickIs(s);
      if s.futexWaiters[i].value.deadline.Some? {
        DueExactlyAtZero(s.ticks, s.futexWaiters[i].value.deadline.value);
      }
    case DoSleep(milliseconds) => SleepTables(s, milliseconds);
    case DoFutexWait(address, actual, expected, timeout) => FutexWaitTables(s, address, actual, expected, timeout);
    case DoFutexWake(address, count) => FutexWakeTables(s, address, count, 0, 0);
    case _ => UntouchedTables(s, step);
  }

  /** The scan of `futex_wake` takes an entry off the table only to ready its thread, unless
      that has been terminated. */
  lemma {:induction false} ScanReadiesWhatItRemoves(s: State, address: U64, count: U64, from: nat, woken: nat, i: nat)
    requires from <= |s.futexWaiters| && i < |s.futexWaiters|
    requires s.futexWaiters[i].Some? && s.futexWaiters[i].value.thread < |s.threads|
    ensures var r := FutexWakeFrom(s, address, count, from, woken).0;
            && |r.threads| == |s.threads| && |r.futexWaiters| == |s.futexWaiters|
            && (r.futexWaiters[i] == s.futexWaiters[i]
                || (s.futexWaiters[i].value.address == address
                    && (s.threads[s.futexWaiters[i].value.thread].state in {Blocked, Ready} ==>
                          r.threads[s.futexWaiters[i].value.thread].state == Ready)))
    decreases |s.futexWaiters| - from
  {
    if from < |s.futexWaiters| {
      if s.futexWaiters[from].Some? && s.futexWaiters[from].value.address == address && woken < count {
        var (s1, ok) := Wake(s.(futexWaiters := s.futexWaiters[from := None]), s.futexWaiters[from].value.thread);
        if from == i {
          ScanLeavesReady(s1, address, count, from + 1, if ok then woken + 1 else woken, s.futexWaiters[i].value.thread);
        } else {
          ScanReadiesWhatItRemoves(s1, address, count, from + 1, if ok then woken + 1 else woken, i);
        }
      } else {
        ScanReadiesWhatItRemoves(s, address, count, from + 1, woken, i);
      }
    }
  }

  lemma {:induction false} ScanLeavesReady(s: State, address: U64, count: U64, from: nat, woken: nat, t: nat)
    requires from <= |s.futexWaiters| && t < |s.threads|
    ensures var r := FutexWakeFrom(s, address, count, from, woken).0;
            |r.threads| == |s.threads| && |r.futexWaiters| == |s.futexWaiters|
            && (s.threads[t].state == Ready ==> r.threads[t].state == Ready)
    decreases |s.futexWaiters| - from
  {
    if from < |s.futexWaiters| {
      if s.futexWaiters[from].Some? && s.futexWaiters[from].value.address == address && woken < count {
        var (s1, ok) := Wake(s.(futexWaiters := s.futexWaiters[from := None]), s.futexWaiters[from].value.thread);
        ScanLeavesReady(s1, address, count, from + 1, if ok then woken + 1 else woken, t);
      } else {
        ScanLeavesReady(s, address, count, from + 1, woken, t);
      }
    }
  }

  /** The step is a wake of the waiter's address that readies its thread, or finds it terminated. */
  ghost predicate WokenByStep(s: State, step: Step, i: nat)
    requires Shape(s) && i < |s.futexWaiters| && s.futexWaiters[i].Some?
  {
    var t := s.futexWaiters[i].value.thread;
    && step.DoFutexWake? && step.address == s.futexWaiters[i].value.address
    && t < |Next(s, step).threads|
    && (s.threads[t].state == Exited || (s.threads[t].state == Blocked && Next(s, step).threads[t].state == Ready))
  }

  /** Some step of the run wakes the waiter in entry `i`, having found the entry untouched. */
  ghost predicate WokenInRun(s: State, steps: seq<Step>, i: nat)
    requires Inv(s) && AllowedRun(s, steps)
    requires i < |s.futexWaiters| && s.futexWaiters[i].Some?
    decreases |steps|
  {
    && steps != []
    && (StepKeeps(s, steps[0]);
        var s1 := Next(s, steps[0]);
        WokenByStep(s, steps[0], i)
        || (i < |s1.futexWaiters| && s1.futexWaiters[i] == s.futexWaiters[i] && WokenInRun(s1, steps[1..], i)))
  }

  /** A step either leaves the entry of a waiter that is not about to time out, or wakes it. */
  lemma WaiterStepOrWoken(s: State, step: Step, i: nat)
    requires Inv(s) && Allowed(s, step) && AllArmed(s)
    requires i < |s.futexWaiters| && s.futexWaiters[i].Some?
    requires step.DoTick? && s.futexWaiters[i].value.deadline.Some? ==>
               Remaining(s.ticks, s.futexWaiters[i].value.deadline.value) > 1
    ensures WokenByStep(s, step, i)
            || (&& i < |Next(s, step).futexWaiters| && Next(s, step).futexWaiters[i] == s.futexWaiters[i]
                && (s.futexWaiters[i].value.deadline.Some? ==>
                      Remaining(Next(s, step).ticks, s.futexWaiters[i].value.deadline.value) ==
                      Remaining(s.ticks, s.futexWaiters[i].value.deadline.value) - (if step.DoTick? then 1 else 0)))
  {
    hide Base, Allowed, AllArmed, Remaining, FutexWakeFrom;
    assert Shape(s) by { ShapeOf(s); }
    if step.DoFutexWake? && step.address == s.futexWaiters[i].value.address {
      WaiterIsBlocked(s, i);
      ScanReadiesWhatItRemoves(s, step.address, step.count, 0, 0, i);
      FutexWakeTables(s, step.address, step.count, 0, 0);
    } else {
      WaiterStep(s, step, i);
    }
  }

  /** Until its timeout is reached, without one for ever, a waiter stays registered and blocked
      unless a wake of its address readies it. */
  lemma {:induction false} WaitsUntilTimeout(s: State, steps: seq<Step>, i: nat)
    requires Inv(s) && AllowedRun(s, steps) && AllArmed(s)
    requires i < |s.futexWaiters| && s.futexWaiters[i].Some?
    requires s.futexWaiters[i].value.deadline.Some? ==>
               Ticks(steps) < Remaining(s.ticks, s.futexWaiters[i].value.deadline.value)
    ensures var f := Run(s, steps);
            WokenInRun(s, steps, i)
            || (&& i < |f.futexWaiters| && f.futexWaiters[i] == s.futexWaiters[i]
                && (s.futexWaiters[i].value.deadline.Some? ==>
                      Remaining(f.ticks, s.futexWaiters[i].value.deadline.value) ==
                      Remaining(s.ticks, s.futexWaiters[i].value.deadline.value) - Ticks(steps))
                && s.futexWaiters[i].value.thread < |f.threads|
                && f.threads[s.futexWaiters[i].value.thread].state in {Blocked, Exited})
    decreases |steps|
  {
    hide Base, Allowed, AllArmed, Remaining, Next, WokenByStep;
    assert Shape(s) by { ShapeOf(s); }
    if steps == [] {
      WaiterIsBlocked(s, i);
    } else {
      StepKeeps(s, steps[0]);
      AllArmedStep(s, steps[0]);
      WaiterStepOrWoken(s, steps[0], i);
      if !WokenByStep(s, steps[0], i) {
        WaitsUntilTimeout(Next(s, steps[0]), steps[1..], i);
      }
    }
  }

  lemma WaiterIsBlocked(s: State, i: nat)
    requires Inv(s) && i < |s.futexWaiters| && s.futexWaiters[i].Some?
    ensures s.futexWaiters[i].value.thread < |s.threads|
    ensures s.threads[s.futexWaiters[i].value.thread].state in {Blocked, Exited}
  {
    hide CallsOk, ProcessesOk, QueueOk;
    assert Registered(s, InFutex(i), s.futexWaiters[i].value.thread);
  }

  // ----------------------------------------------------------------- futex wakes

  /** Entry `i` belongs to a blocked thread waiting on `address`. */
  predicate BlockedOn(s: State, address: U64, i: nat)
    requires i < |s.futexWaiters|
  {
    && s.futexWaiters[i].Some? && s.futexWaiters[i].value.address == address
    && s.futexWaiters[i].value.thread < |s.threads|
    && s.threads[s.futexWaiters[i].value.thread].state == Blocked
  }

  /** Table entries, in order, of blocked threads waiting on `address`. */
  function BlockedWaiters(s: State, address: U64, i: nat): seq<nat>
    requires i <= |s.futexWaiters|
    decreases |s.futexWaiters| - i
  {
    if i == |s.futexWaiters| then []
    else
      var rest := BlockedWaiters(s, address, i + 1);
      if BlockedOn(s, address, i) then [s.futexWaiters[i].value.thread] + rest
      else rest
  }

  /** The threads a wake of `budget` readies. */
  function Chosen(s: State, address: U64, budget: nat, i: nat): seq<nat>
    requires i <= |s.futexWaiters|
  {
    var all := BlockedWaiters(s, address, i);
    all[..Min(budget, |all|)]
  }

  lemma {:induction false} BlockedWaitersAfterWake(s: State, s1: State, address: U64, i: nat, t: nat)
    requires i <= |s.futexWaiters| == |s1.futexWaiters|
    requires |s1.threads| == |s.threads|
    requires forall j | i <= j < |s.futexWaiters| :: s1.futexWaiters[j] == s.futexWaiters[j]
    requires forall u | 0 <= u < |s.threads| && u != t :: s1.threads[u].state == s.threads[u].state
    requires forall j | i <= j < |s.futexWaiters| && s.futexWaiters[j].Some? :: s.futexWaiters[j].value.thread != t
    ensures BlockedWaiters(s1, address, i) == BlockedWaiters(s, address, i)
    decreases |s.futexWaiters| - i
  {
    if i < |s.futexWaiters| {
      BlockedWaitersAfterWake(s, s1, address, i + 1, t);
    }
  }

  /** No thread is listed twice among the entries from `i` on. */
  ghost predicate OneEntryEach(s: State, i: nat) {
    forall j, k | i <= j < k < |s.futexWaiters| && s.futexWaiters[j].Some? && s.futexWaiters[k].Some? ::
      s.futexWaiters[j].value.thread != s.futexWaiters[k].value.thread
  }

  /** The scan readies exactly the chosen threads, in table order, and reports their number. */
  lemma {:induction false} FutexWakeFromIs(s: State, address: U64, count: U64, i: nat, woken: nat)
    requires i <= |s.futexWaiters| && woken <= count
    requires OneEntryEach(s, i)
    ensures var (r, n) := FutexWakeFrom(s, address, count, i, woken);
            && |r.threads| == |s.threads|
            && n == woken + |Chosen(s, address, count - woken, i)|
            && (forall t | 0 <= t < |s.threads| ::
                  r.threads[t].state == if t in Chosen(s, address, count - woken, i) then Ready else s.threads[t].state)
    decreases |s.futexWaiters| - i
  {
    hide Wake, Chosen, BlockedWaiters;
    if i < |s.futexWaiters| {
      var entry := s.futexWaiters[i];
      if entry.Some? && entry.value.address == address && woken < count {
        var (s1, ok) := Wake(s.(futexWaiters := s.futexWaiters[i := None]), entry.value.thread);
        ChosenAfterWake(s, address, count - woken, i);
        FutexWakeFromIs(s1, address, count, i + 1, if ok then woken + 1 else woken);
      } else {
        FutexWakeFromIs(s, address, count, i + 1, woken);
        ChosenSkips(s, address, count - woken, i);
      }
    } else {
      ChosenAtEnd(s, address, count - woken);
    }
  }

  /** One match of the scan: the woken thread is the first chosen one. */
  lemma ChosenAfterWake(s: State, address: U64, budget: nat, i: nat)
    requires i < |s.futexWaiters| && s.futexWaiters[i].Some? && s.futexWaiters[i].value.address == address && budget > 0
    requires OneEntryEach(s, i)
    ensures var t := s.futexWaiters[i].value.thread;
            var (s1, ok) := Wake(s.(futexWaiters := s.futexWaiters[i := None]), t);
            && |s1.futexWaiters| == |s.futexWaiters| && |s1.threads| == |s.threads| && OneEntryEach(s1, i + 1)
            && (ok ==> t < |s.threads| && s1.threads[t].state == Ready
                       && Chosen(s, address, budget, i) == [t] + Chosen(s1, address, budget - 1, i + 1))
            && (!ok ==> Chosen(s, address, budget, i) == Chosen(s1, address, budget, i + 1))
            && (forall u | 0 <= u < |s.threads| && (ok ==> u != t) :: s1.threads[u].state == s.threads[u].state)
  {
    var t := s.futexWaiters[i].value.thread;
    var (s1, ok) := Wake(s.(futexWaiters := s.futexWaiters[i := None]), t);
    BlockedWaitersAfterWake(s, s1, address, i + 1, t);
  }

  lemma ChosenSkips(s: State, address: U64, budget: nat, i: nat)
    requires i < |s.futexWaiters|
    requires s.futexWaiters[i].None? || s.futexWaiters[i].value.address != address || budget == 0
    ensures Chosen(s, address, budget, i) == Chosen(s, address, budget, i + 1)
  {
  }

  lemma ChosenAtEnd(s: State, address: U64, budget: nat)
    ensures Chosen(s, address, budget, |s.futexWaiters|) == []
  {
  }

  lemma EntriesAreDistinct(s: State)
    requires Inv(s)
    ensures OneEntryEach(s, 0)
  {
    hide CallsOk, ProcessesOk, QueueOk;
    forall j, k | 0 <= j < k < |s.futexWaiters| && s.futexWaiters[j].Some? && s.futexWaiters[k].Some?
      ensures s.futexWaiters[j].value.thread != s.futexWaiters[k].value.thread
    {
      assert Registered(s, InFutex(j), s.futexWaiters[j].value.thread);
      assert Registered(s, InFutex(k), s.futexWaiters[k].value.thread);
    }
  }

  /** `futex_wake` readies the first `count` threads, in table order, that are still blocked on
      the address, touches no other thread and no entry of another address, and returns how many
      that were: terminated waiters use up no wake. */
  lemma FutexWakeWakesTheFirst(s: State, address: U64, count: U64)
    requires Inv(s) && ValidUserWord(address)
    ensures |FutexWake(s, address, count).0.futexWaiters| == |s.futexWaiters|
    ensures forall j | 0 <= j < |s.futexWaiters| && s.futexWaiters[j].Some? && s.futexWaiters[j].value.address != address ::
              FutexWake(s, address, count).0.futexWaiters[j] == s.futexWaiters[j]
    ensures var (r, n) := FutexWake(s, address, count);
            var all := BlockedWaiters(s, address, 0);
            && n == Min(count, |all|)
            && |r.threads| == |s.threads|
            && forall t | 0 <= t < |s.threads| :: r.threads[t].state == if t in all[..n] then Ready else s.threads[t].state
  {
    hide Base, BlockedWaiters;
    EntriesAreDistinct(s);
    FutexWakeFromIs(s, address, count, 0, 0);
    FutexWakeTables(s, address, count, 0, 0);
  }

  /** How many blocked threads wait on `address` in the entries before `i`. */
  function BlockedAhead(s: State, address: U64, i: nat): nat
    requires i <= |s.futexWaiters|
  {
    if i == 0 then 0 else BlockedAhead(s, address, i - 1) + (if BlockedOn(s, address, i - 1) then 1 else 0)
  }

  /** The waiters before entry `i` come first. */
  lemma {:induction false} BlockedWaitersSplit(s: State, address: U64, i: nat)
    requires i <= |s.futexWaiters|
    ensures BlockedAhead(s, address, i) <= |BlockedWaiters(s, address, 0)|
    ensures BlockedWaiters(s, address, 0)[BlockedAhead(s, address, i)..] == BlockedWaiters(s, address, i)
    ensures forall t | t in BlockedWaiters(s, address, 0)[..BlockedAhead(s, address, i)] ::
              exists k :: 0 <= k < i && BlockedOn(s, address, k) && s.futexWaiters[k].value.thread == t
  {
    if i > 0 {
      BlockedWaitersSplit(s, address, i - 1);
      var all, m := BlockedWaiters(s, address, 0), BlockedAhead(s, address, i - 1);
      if BlockedOn(s, address, i - 1) {
        assert all[m..] == [s.futexWaiters[i - 1].value.thread] + BlockedWaiters(s, address, i);
        assert all[m + 1..] == all[m..][1..];
        assert all[..m + 1] == all[..m] + [all[m]];
      }
    }
  }

  lemma PrefixMembers(all: seq<nat>, n: nat, m: nat)
    requires n <= m <= |all|
    ensures forall t | t in all[..n] :: t in all[..m]
  {
    assert all[..n] == all[..m][..n];
  }

  /** A wake readies a blocked waiter exactly when fewer than `count` are ahead of it. */
  lemma WakeReachesExactly(s: State, address: U64, count: U64, i: nat)
    requires Inv(s) && ValidUserWord(address)
    requires i < |s.futexWaiters| && BlockedOn(s, address, i)
    ensures var t := s.futexWaiters[i].value.thread;
            && t < |FutexWake(s, address, count).0.threads|
            && FutexWake(s, address, count).0.threads[t].state ==
               if BlockedAhead(s, address, i) < count then Ready else Blocked
  {
    hide Base, FutexWake, BlockedAhead;
    var all, m, t := BlockedWaiters(s, address, 0), BlockedAhead(s, address, i), s.futexWaiters[i].value.thread;
    assert BlockedWaiters(s, address, i)[0] == t;
    FutexWakeWakesTheFirst(s, address, count);
    EntriesAreDistinct(s);
    BlockedWaitersSplit(s, address, i);
    assert all[m] == all[m..][0] == t;
    if m < count {
      assert all[..Min(count, |all|)][m] == t;
    } else {
      PrefixMembers(all, count, m);
    }
  }

  /** Between the comparison of a successful wait and its timeout no wake is missed: in every
      run some wake of the address has readied the waiter, or the waiter is still there and
      the next wake readies it exactly when fewer than `count` waiters are ahead of it. */
  lemma NoWakeIsMissed(s: State, address: U64, actual: U64, expected: U64, timeout: U64, steps: seq<Step>, count: U64)
    requires Inv(s) && AllArmed(s) && Allowed(s, DoFutexWait(address, actual, expected, timeout))
    requires ValidUserWord(address) && actual == expected && |s.threads| <= |s.futexWaiters|
    requires Inv(Next(s, DoFutexWait(address, actual, expected, timeout)))
    requires AllowedRun(Next(s, DoFutexWait(address, actual, expected, timeout)), steps)
    requires timeout != TWO_64 - 1 ==> Ticks(steps) < SleepTicks(timeout)
    ensures var t := s.current.value;
            var s1 := Next(s, DoFutexWait(address, actual, expected, timeout));
            var f := Run(s1, steps);
            var i := FirstEmpty(s.futexWaiters, 0);
            && i < |s1.futexWaiters| && s1.futexWaiters[i].Some? && s1.futexWaiters[i].value.thread == t
            && (WokenInRun(s1, steps, i)
                || (&& i < |f.futexWaiters| && t < |f.threads| && f.threads[t].state in {Blocked, Exited}
                    && (f.threads[t].state == Blocked ==>
                          && t < |FutexWake(f, address, count).0.threads|
                          && FutexWake(f, address, count).0.threads[t].state ==
                             if BlockedAhead(f, address, i) < count then Ready else Blocked)))
  {
    hide Base, AllArmed, Remaining, Next, Run, Allowed, SleepTicks, FutexWake, BlockedAhead, WokenInRun;
    assert Shape(s) by { ShapeOf(s); }
    var step := DoFutexWait(address, actual, expected, timeout);
    FutexWaitersHaveRoom(s);
    WaitEntersTable(s, address, actual, expected, timeout);
    var i := FirstEmpty(s.futexWaiters, 0);
    var s1 := Next(s, step);
    AllArmedStep(s, step);
    WaitsUntilTimeout(s1, steps, i);
    var f := Run(s1, steps);
    if !WokenInRun(s1, steps, i) && f.threads[s.current.value].state == Blocked {
      WakeReachesExactly(f, address, count, i);
    }
  }

  /** A wait with a timeout ends by itself at exactly the tick it asked for, in every run in which
      no wake of its address has ended it before. */
  lemma WaitTimesOutOnTime(s: State, address: U64, actual: U64, expected: U64, timeout: U64, steps: seq<Step>)
    requires Inv(s) && AllArmed(s) && Allowed(s, DoFutexWait(address, actual, expected, timeout))
    requires ValidUserWord(address) && actual == expected && |s.threads| <= |s.futexWaiters|
    requires Inv(Next(s, DoFutexWait(address, actual, expected, timeout)))
    requires AllowedRun(Next(s, DoFutexWait(address, actual, expected, timeout)), steps)
    requires timeout != TWO_64 - 1 && Ticks(steps) == SleepTicks(timeout) - 1
    ensures var t := s.current.value;
            var s1 := Next(s, DoFutexWait(address, actual, expected, timeout));
            var f := Run(s1, steps);
            var i := FirstEmpty(s.futexWaiters, 0);
            && i < |s1.futexWaiters| && s1.futexWaiters[i].Some? && s1.futexWaiters[i].value.thread == t
            && (WokenInRun(s1, steps, i)
                || (&& t < |f.threads| && f.threads[t].state in {Blocked, Exited} && t < |Tick(f).threads|
                    && (f.threads[t].state == Blocked ==> Tick(f).threads[t].state == Ready)))
  {
    hide Base, AllArmed, Remaining, Next, Run, Tick, Allowed, SleepTicks, WokenInRun;
    assert Shape(s) by { ShapeOf(s); }
    var step := DoFutexWait(address, actual, expected, timeout);
    FutexWaitersHaveRoom(s);
    WaitEntersTable(s, address, actual, expected, timeout);
    var i := FirstEmpty(s.futexWaiters, 0);
    var s1 := Next(s, step);
    AllArmedStep(s, step);
    WaitsUntilTimeout(s1, steps, i);
    RunKeepsArmed(s1, steps);
    if !WokenInRun(s1, steps, i) {
      WaiterTimesOut(Run(s1, steps), i);
    }
  }

  lemma WaitEntersTable(s: State, address: U64, actual: U64, expected: U64, timeout: U64)
    requires Inv(s) && Allowed(s, DoFutexWait(address, actual, expected, timeout))
    requires ValidUserWord(address) && actual == expected && FirstEmpty(s.futexWaiters, 0) < |s.futexWaiters|
    ensures var i := FirstEmpty(s.futexWaiters, 0);
            var s1 := Next(s, DoFutexWait(address, actual, expected, timeout));
            && i < |s1.futexWaiters| && s1.futexWaiters[i].Some?
            && s1.futexWaiters[i].value.thread == s.current.value && s1.futexWaiters[i].value.address == address
            && (s1.futexWaiters[i].value.deadline.Some? <==> timeout != TWO_64 - 1)
            && (timeout != TWO_64 - 1 ==>
                  Remaining(s1.ticks, s1.futexWaiters[i].value.deadline.value) == SleepTicks(timeout))
  {
    hide Base, FutexWait, SleepTicks;
    assert Shape(s) by { ShapeOf(s); }
    FutexWaitTables(s, address, actual, expected, timeout);
    ShortestTimeout(timeout);
    NewDeadlineIsArmed(s.ticks, SleepTicks(timeout));
  }
}
