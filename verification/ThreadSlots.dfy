/** Slots of the thread table: how long an ended thread keeps its slot and its status, and when the
    slot becomes free again. */
module ThreadSlots {
  import opened Wrappers
  import opened ThreadTable
  import opened Words
  import opened SchedulerInvariant
  import opened SchedulerSteps
  import opened ProcessSteps
  import opened LifecycleSteps
  import opened StepProgress
  import opened SchedulerRuns
  import opened ProcessRuns
  import opened CallAnswers

  // -------------------------------------------------------- what a step does to slots

  /** What a step does to the slot it is about: it lists the caller on a living thread, reads an
      ended one's status at once or after a suspended join, or places a new thread. */
  datatype Touch = Nothing | Lists(x: nat) | Reads(x: nat) | Leaves(x: nat) | Places(x: nat)

  /** All slots but `x` keep their waiters; those of ended threads do not change at all. */
  ghost predicate CalmBut(s: State, s': State, x: nat) {
    && |s'.threads| == |s.threads| && |s'.pending| == |s.pending|
    && forall t | 0 <= t < |s.threads| && t != x ::
         && s'.threads[t].joinWaiterCount == s.threads[t].joinWaiterCount
         && (s.threads[t].state == Exited ==> s'.threads[t] == s.threads[t])
  }

  ghost predicate Touches(s: State, s': State, touch: Touch)
    requires s.current.Some? && s.current.value < |s.threads| == |s.pending|
  {
    var c := s.current.value;
    match touch
    case Nothing => CalmBut(s, s', |s.threads|) && s'.pending == s.pending
    case Lists(x) =>
      && CalmBut(s, s', x) && x < |s.threads| && s.threads[x].state != Exited && s'.threads[x].state != Exited
      && s'.threads[x].joinWaiterCount == s.threads[x].joinWaiterCount + 1
      && s'.threads[c].state != Exited
      && s.pending[c] == NoCall && s'.pending[c].On(x) && s'.pending == s.pending[c := s'.pending[c]]
    case Reads(x) =>
      && CalmBut(s, s', x) && x < |s.threads| && s.threads[x].state == Exited
      && s'.threads[x] == s.threads[x].(reapable := s.threads[x].reapable || s.threads[x].joinWaiterCount == 0)
      && s'.pending == s.pending
    case Leaves(x) =>
      && CalmBut(s, s', x) && x < |s.threads| && s.threads[x].state == Exited && s.threads[x].joinWaiterCount > 0
      && s'.threads[x] == s.threads[x].(joinWaiterCount := s.threads[x].joinWaiterCount - 1,
                                        reapable := s.threads[x].reapable || s.threads[x].joinWaiterCount == 1)
      && s.pending[c].On(x) && s'.pending == s.pending[c := NoCall]
    case Places(x) =>
      && CalmBut(s, s', x) && x < |s.threads| && Reusable(s.threads[x])
      && s'.threads[x].joinWaiterCount == 0 && s'.threads[x].state == Ready
      && s'.pending == s.pending[x := NoCall]
  }

  /** The step tells its caller how `t` ended. */
  predicate TellsStatusOf(s: State, step: Step, t: nat)
    requires Shape(s)
  {
    match step
    case DoJoin(x) => x == t
    case DoResume => s.current.Some? && s.pending[s.current.value].On(t)
    case _ =>
      && CollectedBy(s, step).Some?
      && var p := CollectedBy(s, step).value.0;
         1 <= p <= |s.processes| && s.processes[p - 1].mainThread == Some(t)
  }

  lemma DispatchTouches(s: State, s1: State, c: nat, touch: Touch)
    requires Between(s1, c) && s.current.Some? && s.current.value < |s.threads| == |s.pending|
    requires Touches(s, s1, touch) && !touch.Places?
    ensures Touches(s, ScheduleFrom(s1, c), touch)
  {
    hide PlacesOk, CallsOk, ProcessesOk, QueueOk, ScheduleFrom;
    var k, chosen := ScheduleChoice(s1, c);
    assert s1.threads[chosen].state != Exited;
  }

  lemma AwakenedTouches(s: State, s': State)
    requires Awakened(s, s') && s.current.Some? && s.current.value < |s.threads| == |s.pending|
    ensures Touches(s, s', Nothing)
  {
  }

  lemma StatusReadTouches(s: State, x: nat, processes: seq<Process>)
    requires s.current.Some? && s.current.value < |s.threads| == |s.pending|
    requires x < |s.threads| && s.threads[x].state == Exited
    ensures Touches(s, StatusRead(s, x).(processes := processes), Reads(x))
  {
  }

  lemma ListedTouches(s: State, x: nat, call: Pending)
    requires Inv(s) && s.current.value != IDLE && x < |s.threads| && x != s.current.value
    requires s.threads[x].state != Exited && s.pending[s.current.value] == NoCall && call.On(x)
    requires CallOk(s.(pending := s.pending[s.current.value := call]), s.current.value)
    requires call.Collecting? ==> NoCollector(s, call.process)
    ensures Shape(s) && Touches(s, JoinAs(s, x, call).0, Lists(x))
  {
    hide Base, Between, ScheduleFrom, CallOk;
    InvShape(s);
    BlockingJoinKeeps(s, x, call);
    ListedTouchesBefore(s, x, call);
    DispatchTouches(s, Listed(s, x, call), s.current.value, Lists(x));
  }

  lemma ListedTouchesBefore(s: State, x: nat, call: Pending)
    requires Shape(s) && s.current.Some? && x < |s.threads| && x != s.current.value
    requires s.threads[x].state != Exited && s.threads[x].joinWaiterCount < |s.threads|
    requires s.threads[s.current.value].state == Running && s.pending[s.current.value] == NoCall && call.On(x)
    ensures Touches(s, Listed(s, x, call), Lists(x))
  {
    assert ThreadShape(s.threads[x], |s.threads|);
  }

  lemma YieldTouches(s: State)
    requires Inv(s)
    ensures Shape(s) && Touches(s, Yield(s), Nothing)
  {
    hide Base, Between, ScheduleFrom, Touches;
    InvShape(s);
    YieldKeeps(s);
    assert Touches(s, YieldState(s), Nothing) by { YieldTouchesBefore(s); }
    DispatchTouches(s, YieldState(s), s.current.value, Nothing);
    BetweenShape(YieldState(s), s.current.value);
    YieldIs(s);
  }

  lemma YieldTouchesBefore(s: State)
    requires Shape(s) && s.current.Some? && s.threads[s.current.value].state != Exited
    ensures Touches(s, YieldState(s), Nothing)
  {
  }

  lemma BlockedTouches(s: State, s1: State)
    requires s.current.Some? && s.current.value < |s.threads| == |s.pending|
    requires s.threads[s.current.value].state != Exited
    requires s1.threads == SetState(s.threads, s.current.value, Blocked) && s1.pending == s.pending
    ensures Touches(s, s1, Nothing)
  {
  }

  lemma SleepTouches(s: State, milliseconds: U64)
    requires Inv(s) && Allowed(s, DoSleep(milliseconds))
    ensures Shape(s) && Touches(s, Sleep(s, milliseconds).0, Nothing)
  {
    hide Base, Between, ScheduleFrom, Touches, WrappingAdd, SleepTicks;
    InvShape(s);
    var i := FirstEmpty(s.sleepers, 0);
    if milliseconds != 0 && i < |s.sleepers| {
      var deadline := WrappingAdd(s.ticks, SleepTicks(milliseconds));
      SleepStateKeeps(s, i, deadline);
      BlockedTouches(s, SleepState(s, i, deadline));
      DispatchTouches(s, SleepState(s, i, deadline), s.current.value, Nothing);
      BetweenShape(SleepState(s, i, deadline), s.current.value);
      SleepIs(s, milliseconds);
    } else {
      NothingTouches(s);
    }
  }

  lemma FutexWaitTouches(s: State, address: U64, actual: U64, expected: U64, timeout: U64)
    requires Inv(s) && Allowed(s, DoFutexWait(address, actual, expected, timeout))
    ensures Shape(s) && Touches(s, FutexWait(s, address, actual, expected, timeout).0, Nothing)
  {
    hide Base, Between, ScheduleFrom, Touches, FutexDeadline;
    InvShape(s);
    var i := FirstEmpty(s.futexWaiters, 0);
    if ValidUserWord(address) && actual == expected && i < |s.futexWaiters| {
      var entry := FutexWaiter(address, s.current.value, FutexDeadline(s.ticks, timeout));
      FutexStateKeeps(s, i, entry);
      BlockedTouches(s, FutexState(s, i, entry));
      DispatchTouches(s, FutexState(s, i, entry), s.current.value, Nothing);
      BetweenShape(FutexState(s, i, entry), s.current.value);
      FutexWaitIs(s, address, actual, expected, timeout);
    } else {
      NothingTouches(s);
    }
  }

  lemma NothingTouches(s: State)
    requires s.current.Some? && s.current.value < |s.threads| == |s.pending|
    ensures Touches(s, s, Nothing)
  {
  }

  lemma ExitTouches(s: State, status: U64)
    requires Inv(s) && Allowed(s, DoExit(status))
    ensures Shape(s) && Touches(s, ExitCurrent(s, status), Nothing)
  {
    hide Base, Between, ScheduleFrom, Reparent, WakeAll;
    InvShape(s);
    var c := s.current.value;
    ExitKeeps(s, status);
    var ended := Ended(s, c, status, false, Reparent(s.processes, c));
    assert WakeFrame(ended, ExitedState(s, c, status));
    assert Touches(s, ExitedState(s, c, status), Nothing);
    DispatchTouches(s, ExitedState(s, c, status), c, Nothing);
  }

  lemma TerminateTouches(s: State, p: nat)
    requires Inv(s)
    ensures Shape(s) && Touches(s, TerminateProcess(s, p).0, Nothing)
  {
    hide Base, WakeAll;
    InvShape(s);
    ChildLookup(s, p);
    if ChildOf(s, p) {
      var main := s.processes[p - 1].mainThread.value;
      if s.threads[main].state != Exited {
        var task := s.threads[main];
        var ended := s.(threads := s.threads[main := task.(state := Exited, exitStatus := TERMINATED_STATUS)]);
        WakeAllTouches(ended, JoinList(task));
      }
    }
  }

  /** Waking changes run states of blocked threads only. */
  lemma {:induction false} WakeAllTouches(s: State, waiters: seq<nat>)
    ensures WakeAll(s, waiters).pending == s.pending
    ensures forall t | 0 <= t < |s.threads| ::
              && WakeAll(s, waiters).threads[t] == s.threads[t].(state := WakeAll(s, waiters).threads[t].state)
              && (s.threads[t].state == Exited ==> WakeAll(s, waiters).threads[t].state == Exited)
    decreases |waiters|
  {
    if waiters != [] {
      WakeAllTouches(Wake(s, waiters[0]).0, waiters[1..]);
    }
  }

  lemma JoinTouches(s: State, x: nat) returns (touch: Touch)
    requires Inv(s) && Allowed(s, DoJoin(x))
    ensures Shape(s) && Touches(s, Join(s, x).0, touch)
    ensures !touch.Leaves? && !touch.Places? && (touch.Reads? ==> touch.x == x)
  {
    hide Base, Between, ScheduleFrom;
    InvShape(s);
    touch := Nothing;
    if x < |s.threads| && x != s.current.value {
      if s.threads[x].state == Exited {
        StatusReadTouches(s, x, s.processes);
        assert Join(s, x).0 == StatusRead(s, x).(processes := s.processes);
        touch := Reads(x);
      } else {
        ListedTouches(s, x, Joining(x));
        touch := Lists(x);
      }
    }
  }

  lemma WaitTouches(s: State, step: Step) returns (touch: Touch)
    requires Inv(s) && Allowed(s, step) && (step.DoWait? || step.DoTryWait? || step.DoReapAny?)
    ensures Shape(s) && Touches(s, Next(s, step), touch)
    ensures !touch.Leaves? && !touch.Places? && (touch.Reads? ==> TellsStatusOf(s, step, touch.x))
  {
    hide Base, Between, ScheduleFrom, CollectedBy, Collect;
    InvShape(s);
    if CollectedBy(s, step).Some? {
      var (p, status) := CollectedBy(s, step).value;
      CollectedByChild(s, step, p, status);
      ChildLookup(s, p);
      var main := ChildOfCurrent(s, p).value;
      CollectIsUpdate(s, main, p);
      StatusReadTouches(s, main, Next(s, step).processes);
      touch := Reads(main);
    } else {
      touch := UncollectedTouches(s, step);
    }
  }

  lemma CollectIsUpdate(s: State, main: nat, p: nat)
    requires main < |s.threads|
    ensures Collect(StatusRead(s, main), p)
         == StatusRead(s, main).(processes := Collect(StatusRead(s, main), p).processes)
  {
  }

  lemma UncollectedTouches(s: State, step: Step) returns (touch: Touch)
    requires Inv(s) && Allowed(s, step) && (step.DoWait? || step.DoTryWait? || step.DoReapAny?)
    requires Shape(s) && CollectedBy(s, step) == None
    ensures Touches(s, Next(s, step), touch) && (touch.Nothing? || touch.Lists?)
  {
    hide Base, Between, ScheduleFrom, Collect;
    touch := Nothing;
    match step
    case DoWait(p) =>
      WaitAnswers(s, p);
      ChildLookup(s, p);
      if ChildOf(s, p) {
        var main := s.processes[p - 1].mainThread.value;
        ChildIsZombieOrAlive(s, p);
        CollectingCallOk(s, p, main);
        ListedTouches(s, main, Collecting(main, p));
        touch := Lists(main);
      }
    case DoTryWait(p) => TryWaitAnswers(s, p);
    case DoReapAny => ReapAnyAnswers(s);
  }

  lemma ResumeTouches(s: State)
    requires Inv(s) && s.pending[s.current.value] != NoCall
    ensures Shape(s) && Touches(s, Resume(s).0, Leaves(s.pending[s.current.value].thread))
  {
    hide Base, Collect;
    InvShape(s);
    ResumedTarget(s);
    var c := s.current.value;
    var x := s.pending[c].thread;
    if s.pending[c].Collecting? {
      CollectLeavesThreads(JoinTail(s.(pending := s.pending[c := NoCall]), x).0, s.pending[c].process);
    }
  }

  lemma CollectLeavesThreads(s: State, p: nat)
    ensures Collect(s, p).threads == s.threads && Collect(s, p).pending == s.pending
  {
  }

  lemma CreateTouches(s: State, checked: bool, stacks: bool) returns (touch: Touch)
    requires Inv(s)
    ensures Shape(s) && Touches(s, ThreadCreate(s, checked, stacks).0, touch)
    ensures touch.Nothing? || touch.Places?
  {
    hide Base;
    InvShape(s);
    touch := Nothing;
    ThreadCreateAnswers(s, checked, stacks);
    if ThreadCreate(s, checked, stacks).1.Some? {
      touch := Places(ThreadCreate(s, checked, stacks).1.value);
    }
  }

  lemma SpawnTouches(s: State, space: nat, loaded: bool, stacks: bool) returns (touch: Touch)
    requires Inv(s)
    ensures Shape(s) && Touches(s, SpawnProcess(s, space, loaded, stacks).0, touch)
    ensures touch.Nothing? || touch.Places?
  {
    hide Base, SpawnProcess;
    InvShape(s);
    touch := Nothing;
    SpawnAnswers(s, space, loaded, stacks);
    var (r, process) := SpawnProcess(s, space, loaded, stacks);
    if process.Some? {
      touch := Places(r.processes[process.value - 1].mainThread.value);
      SpawnCalls(s, space);
    } else if !NoFreeRecord(s) {
      FailedSpawnLeavesRecord(s, space, loaded, stacks);
    }
  }

  lemma SpawnCalls(s: State, space: nat)
    requires Inv(s)
    requires Shape(s) && !NoFreeRecord(s) && !NoFreeThread(s)
    ensures FreeThread(s.threads, 1) < |s.threads|
    ensures SpawnProcess(s, space, true, true).0.pending == s.pending[FreeThread(s.threads, 1) := NoCall]
  {
    hide Inv, ThreadShape;
    IdsOf(s);
    FreeThreadIsFirst(s);
    FreeRecordIsFirst(s);
    var i := FreeRecord(s.processes, 1);
    NewRecordIsThere(s, space, i);
    SpawnIsPlaced(s, space, i, FreeThread(s.threads, 1));
  }

  /** Every step touches at most one slot. */
  lemma StepTouches(s: State, step: Step) returns (touch: Touch)
    requires Inv(s) && Allowed(s, step)
    ensures Shape(s) && Touches(s, Next(s, step), touch)
    ensures touch.Reads? || touch.Leaves? ==> TellsStatusOf(s, step, touch.x)
  {
    hide Base, Touches, CollectedBy, CleanSpawn;
    InvShape(s);
    touch := Nothing;
    match step
    case DoResume =>
      touch := Leaves(s.pending[s.current.value].thread);
      ResumeTouches(s);
      ResumedTarget(s);
    case DoYield => YieldTouches(s);
    case DoExit(status) => ExitTouches(s, status);
    case DoJoin(target) => touch := JoinTouches(s, target);
    case DoWait(process) => touch := WaitTouches(s, step);
    case DoTryWait(process) => touch := WaitTouches(s, step);
    case DoReapAny => touch := WaitTouches(s, step);
    case DoTerminate(process) => TerminateTouches(s, process);
    case DoThreadCreate(checked, stacks) => touch := CreateTouches(s, checked, stacks);
    case DoSpawn(space, loaded, stacks) => touch := SpawnTouches(s, space, loaded, stacks);
    case DoSleep(milliseconds) => SleepTouches(s, milliseconds);
    case DoFutexWait(address, actual, expected, timeout) => FutexWaitTouches(s, address, actual, expected, timeout);
    case DoFutexWake(address, count) =>
      FutexWakeFromAwakens(s, address, count, 0, 0);
      AwakenedIsQuiet(s, step);
    case DoTick =>
      TickAwakens(s);
      AwakenedTouches(s, Tick(s));
  }

  lemma AwakenedIsQuiet(s: State, step: Step)
    requires Shape(s) && s.current.Some? && step.DoFutexWake?
    requires Awakened(s, FutexWakeFrom(s, step.address, step.count, 0, 0).0)
    ensures Touches(s, Next(s, step), Nothing)
  {
    AwakenedTouches(s, FutexWakeFrom(s, step.address, step.count, 0, 0).0);
  }

  // ------------------------------------------------------------ statuses wait to be read

  /** A thread ends with its status, and not reusable; the children of a process whose main thread
      ends go to PID 1, and no other record changes. */
  lemma ExitLeaves(s: State, status: U64)
    requires Inv(s) && Allowed(s, DoExit(status))
    ensures Shape(s)
    ensures var c, r := s.current.value, ExitCurrent(s, status);
            && c < |r.threads| && r.threads[c].state == Exited && r.threads[c].exitStatus == status && !r.threads[c].reapable
            && |r.processes| == |s.processes|
            && forall i | 0 <= i < |s.processes| ::
                 r.processes[i] ==
                 if s.processes[i].parent.Some? && s.processes[i].parent != Some(INIT_PROCESS)
                    && s.processes[i].parent == s.threads[c].process
                 then s.processes[i].(parent := Some(INIT_PROCESS)) else s.processes[i]
  {
    hide Base, Between, ScheduleFrom, Reparent, WakeAll;
    InvShape(s);
    var c := s.current.value;
    ExitKeeps(s, status);
    var p := ReparentIs(s, c);
    UserThreadExits(s);
    var s1 := ExitedState(s, c, status);
    DispatchIs(s1, c);
    ScheduleRecords(s1, c);
  }

  lemma UserThreadExits(s: State)
    requires Inv(s) && s.current.value != IDLE
    ensures s.threads[s.current.value].isUser
  {
    hide PlacesOk, CallsOk, QueueOk;
    assert ThreadOk(s, s.current.value);
  }

  lemma DispatchIs(s1: State, c: nat)
    requires Between(s1, c)
    ensures Shape(s1) && c < |s1.threads| && |ScheduleFrom(s1, c).threads| == |s1.threads|
    ensures forall t | 0 <= t < |s1.threads| && s1.threads[t].state == Exited ::
              ScheduleFrom(s1, c).threads[t] == s1.threads[t]
  {
    hide PlacesOk, CallsOk, ProcessesOk, QueueOk, ScheduleFrom;
    var k, chosen := ScheduleChoice(s1, c);
  }

  ghost predicate NobodyIsTold(s: State, steps: seq<Step>, t: nat)
    requires Inv(s) && AllowedRun(s, steps)
    decreases |steps|
  {
    InvShape(s);
    steps == [] ||
    (&& !TellsStatusOf(s, steps[0], t)
     && (StepKeeps(s, steps[0]); NobodyIsTold(Next(s, steps[0]), steps[1..], t)))
  }

  /** An ended thread keeps its slot and its status, through whatever happens, until somebody is
      told. */
  lemma {:induction false} StatusWaits(s: State, steps: seq<Step>, t: nat)
    requires Inv(s) && AllowedRun(s, steps) && NobodyIsTold(s, steps, t)
    requires t < |s.threads| && s.threads[t].state == Exited && !s.threads[t].reapable
    ensures t < |Run(s, steps).threads| && Run(s, steps).threads[t] == s.threads[t]
    decreases |steps|
  {
    hide Base, Next, Allowed, TellsStatusOf;
    if steps != [] {
      InvShape(s);
      StepKeeps(s, steps[0]);
      var touch := StepTouches(s, steps[0]);
      StatusWaits(Next(s, steps[0]), steps[1..], t);
    }
  }

  /** However late, the first to join a thread that has ended is told the status it ended with. */
  lemma LateJoinIsTold(s: State, status: U64, steps: seq<Step>)
    requires Inv(s) && Allowed(s, DoExit(status)) && Inv(Next(s, DoExit(status)))
    requires AllowedRun(Next(s, DoExit(status)), steps) && NobodyIsTold(Next(s, DoExit(status)), steps, s.current.value)
    ensures var f := Run(Next(s, DoExit(status)), steps);
            && Shape(f) && f.current.Some?
            && (f.current != s.current && Allowed(f, DoJoin(s.current.value)) ==>
                  Join(f, s.current.value).1 == Returned(Some(status)))
  {
    hide Base, Run, AllowedRun, Allowed, ExitCurrent, Join;
    InvShape(s);
    ExitLeaves(s, status);
    var s1 := Next(s, DoExit(status));
    StatusWaits(s1, steps, s.current.value);
    var f := Run(s1, steps);
    InvShape(f);
    if f.current != s.current && Allowed(f, DoJoin(s.current.value)) {
      JoinAnswers(f, s.current.value);
    }
  }

  // --------------------------------------------------------------- slots become free

  /** Every list is exactly as long as it has suspended joiners, and no ended thread is one. */
  ghost predicate CountsExact(s: State) {
    && |s.pending| == |s.threads|
    && (forall x | 0 <= x < |s.threads| :: s.threads[x].joinWaiterCount == |Callers(s.pending, x)|)
    && (forall t | 0 <= t < |s.threads| && s.threads[t].state == Exited :: s.pending[t] == NoCall)
  }

  /** Whoever ends in this step waits for nobody. */
  lemma EndsWithoutCall(s: State, step: Step, t: nat)
    requires Inv(s) && Allowed(s, step) && !step.DoTerminate?
    requires t < |s.threads| && s.threads[t].state != Exited
    ensures t < |Next(s, step).threads|
    ensures Next(s, step).threads[t].state == Exited ==> s.pending[t] == NoCall
  {
    hide PlacesOk, CallsOk, ProcessesOk, QueueOk, Next, Switches, Allowed, Born, PlacesProgress, CallsProgress, QueueProgress,
         ScheduleFrom;
    var s1 := StepProgresses(s, step);
    if Switches(s, step) {
      DispatchKeepsEnded(s1, s.current.value);
    }
    assert Ending(s, step).Some? ==> step.DoExit?;
    ExitHasNoCall(s, step);
  }

  lemma ExitHasNoCall(s: State, step: Step)
    requires Inv(s) && Shape(s) && Allowed(s, step)
    ensures step.DoExit? ==> s.pending[s.current.value] == NoCall
  {
    hide Inv, Shape;
  }

  lemma CountsExactStep(s: State, step: Step)
    requires Inv(s) && Allowed(s, step) && CountsExact(s) && !step.DoTerminate?
    ensures CountsExact(Next(s, step))
  {
    hide Base, Next, Allowed, Callers;
    var touch := StepTouches(s, step);
    var s' := Next(s, step);
    forall t | 0 <= t < |s.threads| && s'.threads[t].state == Exited ensures s'.pending[t] == NoCall {
      if s.threads[t].state != Exited {
        EndsWithoutCall(s, step, t);
        EndedIsNotListed(s, s', touch, t);
      } else {
        RunningHasNotEnded(s);
      }
    }
    forall x | 0 <= x < |s.threads| ensures s'.threads[x].joinWaiterCount == |Callers(s'.pending, x)| {
      CountedCallers(s, x);
      CallersAfter(s, s', touch, x);
    }
  }

  lemma RunningHasNotEnded(s: State)
    requires Inv(s)
    ensures s.threads[s.current.value].state != Exited
  {
    hide Base;
  }

  lemma EndedIsNotListed(s: State, s': State, touch: Touch, t: nat)
    requires s.current.Some? && s.current.value < |s.threads| == |s.pending| && Touches(s, s', touch)
    requires t < |s.threads| && s.pending[t] == NoCall && s.threads[t].state != Exited && s'.threads[t].state == Exited
    ensures s'.pending[t] == NoCall
  {
  }

  lemma CallersAfter(s: State, s': State, touch: Touch, x: nat)
    requires s.current.Some? && s.current.value < |s.threads| == |s.pending| && Touches(s, s', touch)
    requires CountsExact(s) && x < |s.threads| && Counted(s, x)
    ensures s'.threads[x].joinWaiterCount == |Callers(s'.pending, x)|
  {
    hide Callers;
    var c := s.current.value;
    match touch
    case Lists(y) =>
      CallersWith(s.pending, c, s'.pending[c], x);
    case Leaves(y) =>
      if x == y {
        OneCallerLess(s.pending, c, x);
      } else {
        OtherCallers(s.pending, c, x);
      }
    case Places(y) =>
      assert s'.pending == s.pending;
    case _ =>
  }

  lemma OtherCallers(pending: seq<Pending>, c: nat, x: nat)
    requires c < |pending| && !pending[c].On(x)
    ensures Callers(pending[c := NoCall], x) == Callers(pending, x)
  {
  }

  lemma CallersWith(pending: seq<Pending>, c: nat, call: Pending, x: nat)
    requires c < |pending| && pending[c] == NoCall
    ensures Callers(pending[c := call], x) == Callers(pending, x) + if call.On(x) then {c} else {}
    ensures |Callers(pending[c := call], x)| == |Callers(pending, x)| + if call.On(x) then 1 else 0
  {
    assert c !in Callers(pending, x);
  }

  /** As long as nobody is terminated, counts stay exact. */
  lemma {:induction false} CountsStayExact(s: State, steps: seq<Step>)
    requires Inv(s) && AllowedRun(s, steps) && CountsExact(s)
    requires forall i | 0 <= i < |steps| :: !steps[i].DoTerminate?
    ensures CountsExact(Run(s, steps))
    decreases |steps|
  {
    hide Base, Next, Allowed, CountsExact;
    if steps != [] {
      InvShape(s);
      StepKeeps(s, steps[0]);
      CountsExactStep(s, steps[0]);
      CountsStayExact(Next(s, steps[0]), steps[1..]);
    }
  }

  lemma BootIsExact(n: nat, tables: nat, space: nat)
    requires 2 <= n < NO_THREAD
    ensures CountsExact(Boot(n, tables, space))
  {
    BootIs(n, tables, space);
    var s := Boot(n, tables, space);
    forall x | 0 <= x < n ensures Callers(s.pending, x) == {} {
    }
  }

  /** Once the current thread has returned from its suspended join, the slot it joined can be
      given to a new thread exactly if nobody else is suspended in a join on it. */
  ghost predicate FreeAfterReturn(f: State)
    requires Shape(f) && f.current.Some? && f.pending[f.current.value] != NoCall
  {
    var x, r := f.pending[f.current.value].thread, Resume(f).0;
    && x < |r.threads| && r.threads[x].state == Exited
    && (r.threads[x].reapable <==> NobodyJoins(r, x))
  }

  /** The last joiner to return frees the slot, and no earlier one does, in every state reached
      from boot without terminating anybody. */
  lemma LastJoinerFreesSlot(n: nat, tables: nat, space: nat, steps: seq<Step>)
    requires 2 <= n < NO_THREAD
    requires Inv(Boot(n, tables, space)) && AllowedRun(Boot(n, tables, space), steps)
    requires forall i | 0 <= i < |steps| :: !steps[i].DoTerminate?
    ensures var f := Run(Boot(n, tables, space), steps);
            Shape(f) && f.current.Some? && (f.pending[f.current.value] != NoCall ==> FreeAfterReturn(f))
  {
    hide Base, Run, AllowedRun, CountsExact, Resume, FreeAfterReturn;
    BootIsExact(n, tables, space);
    CountsStayExact(Boot(n, tables, space), steps);
    var f := Run(Boot(n, tables, space), steps);
    InvShape(f);
    if f.pending[f.current.value] != NoCall {
      ReturnFreesSlot(f);
    }
  }

  lemma ReturnFreesSlot(f: State)
    requires Inv(f) && CountsExact(f) && f.pending[f.current.value] != NoCall
    ensures Shape(f) && FreeAfterReturn(f)
  {
    hide Base, Resume, Callers;
    InvShape(f);
    var x := f.pending[f.current.value].thread;
    ResumedTarget(f);
    ResumeTouches(f);
    OneCallerLess(f.pending, f.current.value, x);
    CallerOrNone(Resume(f).0.pending, x);
  }

  /** A return from a suspended join frees the slot when it should, exactly if the returning thread
      is the only one counted or somebody else is still suspended; so it fails only when a
      joiner that was terminated is counted for ever. */
  lemma ReturnFreesExactlyWhenCounted(f: State)
    requires Inv(f) && f.pending[f.current.value] != NoCall
    ensures Shape(f)
    ensures var c, x := f.current.value, f.pending[f.current.value].thread;
            FreeAfterReturn(f) <==>
              f.threads[x].joinWaiterCount == 1 || exists t :: 0 <= t < |f.pending| && t != c && f.pending[t].On(x)
  {
    hide Base, Resume, Callers;
    InvShape(f);
    var c, x := f.current.value, f.pending[f.current.value].thread;
    ResumedTarget(f);
    ResumeTouches(f);
    CountedCallers(f, x);
    OneCallerLess(f.pending, c, x);
    CallerOrNone(Resume(f).0.pending, x);
    var after := Resume(f).0.pending;
    assert after == f.pending[c := NoCall];
    assert forall t | 0 <= t < |after| && t != c :: after[t].On(x) <==> f.pending[t].On(x);
    assert (forall t | 0 <= t < |after| :: !after[t].On(x))
      <==> !exists t :: 0 <= t < |f.pending| && t != c && f.pending[t].On(x);
    assert f.threads[x].joinWaiterCount == 1 ==> |Callers(after, x)| == 0;
  }

  lemma CallerOrNone(pending: seq<Pending>, x: nat)
    ensures |Callers(pending, x)| == 0 <==> forall t | 0 <= t < |pending| :: !pending[t].On(x)
  {
    if |Callers(pending, x)| == 0 {
      NobodyCalls(pending, x);
    } else {
      var t :| t in Callers(pending, x);
      assert pending[t].On(x);
    }
  }

  /** Nobody is suspended in a join on `x`. */
  predicate NobodyJoins(s: State, x: nat) {
    forall t | 0 <= t < |s.pending| :: !s.pending[t].On(x)
  }

  /** Reading an ended thread's status at once, by joining it or by collecting its process, frees
      its slot exactly if nobody is suspended in a join on it. */
  lemma ReadingFreesSlot(s: State, x: nat)
    requires Inv(s) && CountsExact(s) && x < |s.threads| && s.threads[x].state == Exited
    ensures StatusRead(s, x).threads[x].state == Exited && StatusRead(s, x).pending == s.pending
    ensures StatusRead(s, x).threads[x].reapable <==> NobodyJoins(s, x)
  {
    hide PlacesOk, ProcessesOk, QueueOk, Callers;
    CountedCallers(s, x);
    CallerOrNone(s.pending, x);
  }

  lemma JoinFreesSlot(s: State, x: nat)
    requires Inv(s) && CountsExact(s) && Allowed(s, DoJoin(x)) && x < |s.threads| && s.threads[x].state == Exited
    ensures Shape(s)
    ensures Join(s, x).0.threads[x].reapable <==> NobodyJoins(Join(s, x).0, x)
  {
    hide Base, CountsExact;
    InvShape(s);
    ReadingFreesSlot(s, x);
    assert Join(s, x).0 == StatusRead(s, x);
  }

  /** Collecting a child at once, by polling, waiting or reaping, frees its main thread's slot. */
  lemma CollectingFreesSlot(s: State, step: Step, p: nat, status: U64)
    requires Inv(s) && CountsExact(s) && Allowed(s, step) && !step.DoResume?
    requires CollectedBy(s, step) == Some((p, status))
    ensures Live(s.processes, p) && s.processes[p - 1].mainThread.Some?
    ensures var main := s.processes[p - 1].mainThread.value;
            main < |Next(s, step).threads|
            && (Next(s, step).threads[main].reapable <==> NobodyJoins(Next(s, step), main))
  {
    hide Base, CountsExact, Next, CollectedBy, StatusRead;
    InvShape(s);
    CollectedByChild(s, step, p, status);
    ChildLookup(s, p);
    var main := ChildOfCurrent(s, p).value;
    ReadingFreesSlot(s, main);
    CollectLeavesThreads(StatusRead(s, main), p);
    SameSize(s, main);
  }

  lemma SameSize(s: State, x: nat)
    requires x < |s.threads|
    ensures |StatusRead(s, x).threads| == |s.threads|
  {
  }
}
