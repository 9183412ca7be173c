/** Every operation keeps stored indices inside their tables, whatever its callers do. */
module SchedulerShape {
  import opened Wrappers
  import opened ThreadTable
  import opened Words

  lemma InitialShape(n: nat, tables: nat, space: nat)
    requires 2 <= n < NO_THREAD
    ensures Shape(InitialState(n, tables, space))
  {
  }

  lemma WakeShape(s: State, t: nat)
    requires Shape(s)
    ensures Shape(Wake(s, t).0)
  {
    WakeAllShape(s, [t]);
    assert WakeAll(s, [t]) == Wake(s, t).0;
  }

  lemma MakeReadyShape(s: State, t: nat)
    requires Shape(s) && t < |s.threads|
    ensures Shape(MakeReady(s, t))
  {
    assert ThreadShape(s.threads[t], |s.threads|);
  }

  /** One thread replaced by one of the right shape. */
  lemma UpdateShape(s: State, t: nat, thread: Thread)
    requires Shape(s) && t < |s.threads| && ThreadShape(thread, |s.threads|)
    ensures Shape(s.(threads := s.threads[t := thread]))
  {
  }

  lemma ScheduleShape(s: State, c: nat)
    requires Shape(s) && c < |s.threads|
    ensures Shape(ScheduleFrom(s, c))
  {
    hide SpaceOnEntry;
    var (next, rest) := NextReady(s.threads, s.queue);
    var chosen := next.GetOr(IDLE);
    assert ThreadShape(s.threads[chosen], |s.threads|);
    UpdateShape(s, chosen, s.threads[chosen].(state := Running));
  }

  lemma YieldShape(s: State)
    requires Shape(s)
    ensures Shape(Yield(s))
  {
    if s.current.Some? {
      var c := s.current.value;
      MakeReadyShape(s, c);
      ScheduleShape(if c == IDLE then s else MakeReady(s, c), c);
    }
  }

  lemma BlockShape(s: State)
    requires Shape(s)
    ensures Shape(Block(s))
  {
    if s.current.Some? && s.current != Some(IDLE) {
      var c := s.current.value;
      assert ThreadShape(s.threads[c], |s.threads|);
      UpdateShape(s, c, s.threads[c].(state := Blocked));
      ScheduleShape(s.(threads := SetState(s.threads, c, Blocked)), c);
    }
  }

  lemma ReparentShape(s: State, x: nat)
    requires Shape(s)
    ensures Shape(s.(processes := Reparent(s.processes, x)))
  {
  }

  lemma ExitShape(s: State, status: U64)
    requires Shape(s)
    ensures Shape(ExitCurrent(s, status))
  {
    hide Reparent, ScheduleFrom;
    if s.current.Some? && s.current != Some(IDLE) {
      var c := s.current.value;
      var task := s.threads[c];
      assert ThreadShape(task, |s.threads|);
      var ended := task.(state := Exited, exitStatus := status, reapable := !task.isUser);
      UpdateShape(s, c, ended);
      var s1 := WakeAll(s.(threads := s.threads[c := ended]), JoinList(task));
      WakeAllShape(s.(threads := s.threads[c := ended]), JoinList(task));
      ReparentShape(s1, c);
      ScheduleShape(s1.(processes := Reparent(s1.processes, c)), c);
    }
  }

  lemma JoinTailShape(s: State, target: nat)
    requires Shape(s) && target < |s.threads|
    ensures Shape(JoinTail(s, target).0)
  {
    assert ThreadShape(s.threads[target], |s.threads|);
  }

  lemma StatusShape(s: State, target: nat, reapable: bool)
    requires Shape(s) && target < |s.threads|
    ensures Shape(s.(threads := s.threads[target := s.threads[target].(reapable := reapable)]))
  {
    assert ThreadShape(s.threads[target], |s.threads|);
  }

  lemma ListShape(s: State, target: nat, c: nat)
    requires Shape(s) && target < |s.threads| && c < |s.threads|
    requires s.threads[target].joinWaiterCount < |s.threads|
    ensures var task := s.threads[target];
            |task.joinWaiters| == |s.threads| &&
            Shape(s.(threads := s.threads[target := task.(joinWaiters := task.joinWaiters[task.joinWaiterCount := c],
                                                          joinWaiterCount := task.joinWaiterCount + 1)]))
  {
    assert ThreadShape(s.threads[target], |s.threads|);
  }

  lemma JoinAsShape(s: State, target: nat, call: Pending)
    requires Shape(s) && call.On(target)
    ensures Shape(JoinAs(s, target, call).0)
  {
    hide Block, JoinTail;
    if s.current.Some? && s.current.value != target && target < |s.threads| {
      var c := s.current.value;
      var task := s.threads[target];
      assert ThreadShape(task, |s.threads|);
      if task.state == Exited {
        StatusShape(s, target, task.reapable || task.joinWaiterCount == 0);
      } else if task.joinWaiterCount < |s.threads| {
        ListShape(s, target, c);
        var listed := task.(joinWaiters := task.joinWaiters[task.joinWaiterCount := c],
                            joinWaiterCount := task.joinWaiterCount + 1);
        var s1 := s.(threads := s.threads[target := listed]);
        JoinTailShape(s1, target);
        BlockShape(s1.(pending := s1.pending[c := call]));
      }
    }
  }

  lemma CollectShape(s: State, process: nat)
    requires Shape(s)
    ensures Shape(Collect(s, process))
  {
  }

  lemma TryJoinShape(s: State, target: nat)
    requires Shape(s)
    ensures Shape(TryJoin(s, target).0)
  {
    if s.current.Some? && s.current.value != target && target < |s.threads| {
      StatusShape(s, target, s.threads[target].reapable || s.threads[target].joinWaiterCount == 0);
    }
  }

  lemma WaitShape(s: State, process: nat)
    requires Shape(s)
    ensures Shape(WaitProcess(s, process).0)
  {
    hide JoinAs, Collect;
    var child := ChildOfCurrent(s, process);
    if child.Some? {
      JoinAsShape(s, child.value, Collecting(child.value, process));
      CollectShape(JoinAs(s, child.value, Collecting(child.value, process)).0, process);
    }
  }

  lemma TryWaitShape(s: State, process: nat)
    requires Shape(s)
    ensures Shape(TryWaitProcess(s, process).0)
  {
    hide TryJoin, Collect;
    var child := ChildOfCurrent(s, process);
    if child.Some? {
      TryJoinShape(s, child.value);
      CollectShape(TryJoin(s, child.value).0, process);
    }
  }

  lemma ReapAnyShape(s: State)
    requires Shape(s)
    ensures Shape(ReapAnyChild(s).0)
  {
    hide TryJoin, Collect;
    if CurrentProcess(s).Some? {
      var i := FirstExitedChild(s, CurrentProcess(s).value, 0);
      if i < |s.processes| {
        TryJoinShape(s, s.processes[i].mainThread.value);
        CollectShape(TryJoin(s, s.processes[i].mainThread.value).0, s.processes[i].id);
      }
    }
  }

  lemma ResumeShape(s: State)
    requires Shape(s)
    ensures Shape(Resume(s).0)
  {
    hide JoinTail, Collect;
    if s.current.Some? && s.pending[s.current.value] != NoCall {
      var c := s.current.value;
      var call := s.pending[c];
      var s1 := s.(pending := s.pending[c := NoCall]);
      JoinTailShape(s1, call.thread);
      if call.Collecting? {
        CollectShape(JoinTail(s1, call.thread).0, call.process);
      }
    }
  }

  lemma TerminateShape(s: State, process: nat)
    requires Shape(s)
    ensures Shape(TerminateProcess(s, process).0)
  {
    var child := ChildOfCurrent(s, process);
    if child.Some? && child.value < |s.threads| {
      var task := s.threads[child.value];
      assert ThreadShape(task, |s.threads|);
      var ended := task.(state := Exited, exitStatus := TERMINATED_STATUS);
      UpdateShape(s, child.value, ended);
      WakeAllShape(s.(threads := s.threads[child.value := ended]), JoinList(task));
    }
  }

  lemma CreateShape(s: State, space: nat)
    requires Shape(s)
    ensures Shape(CreateProcess(s, space).0)
  {
  }

  lemma SpawnUserShape(s: State, process: nat, stacks: bool)
    requires Shape(s)
    ensures Shape(SpawnUser(s, process, stacks).0)
  {
    hide AddressSpaceOf;
    var slot := FreeThread(s.threads, 1);
    if slot < |s.threads| {
      UpdateShape(s, slot, NewUserThread(|s.threads|, process));
    }
  }

  lemma SetMainShape(s: State, process: nat, thread: nat)
    requires Shape(s) && thread < |s.threads|
    ensures Shape(s.(processes := SetMainThread(s.processes, process, thread)))
  {
  }

  lemma SpawnShape(s: State, space: nat, loaded: bool, stacks: bool)
    requires Shape(s)
    ensures Shape(SpawnProcess(s, space, loaded, stacks).0)
  {
    hide CreateProcess, SetMainThread;
    CreateShape(s, space);
    var (s1, process) := CreateProcess(s, space);
    if process.Some? {
      SpawnUserShape(s1, process.value, stacks);
      var (s2, thread) := SpawnUser(s1, process.value, stacks);
      if thread.Some? {
        SetMainShape(s2, process.value, thread.value);
      }
    }
  }

  lemma SleepShape(s: State, milliseconds: U64)
    requires Shape(s)
    ensures Shape(Sleep(s, milliseconds).0)
  {
    hide Block, WrappingAdd, SleepTicks;
    var i := FirstEmpty(s.sleepers, 0);
    if s.current.Some? && i < |s.sleepers| {
      var entry := Sleeper(s.current.value, WrappingAdd(s.ticks, SleepTicks(milliseconds)));
      BlockShape(s.(sleepers := s.sleepers[i := Some(entry)]));
    }
  }

  lemma FutexWaitShape(s: State, address: U64, actual: U64, expected: U64, timeout: U64)
    requires Shape(s)
    ensures Shape(FutexWait(s, address, actual, expected, timeout).0)
  {
    hide Block, FutexDeadline;
    var i := FirstEmpty(s.futexWaiters, 0);
    if s.current.Some? && i < |s.futexWaiters| {
      var entry := FutexWaiter(address, s.current.value, FutexDeadline(s.ticks, timeout));
      BlockShape(s.(futexWaiters := s.futexWaiters[i := Some(entry)]));
    }
  }

  lemma {:induction false} FutexWakeShape(s: State, address: U64, count: U64, i: nat, woken: nat)
    requires Shape(s) && i <= |s.futexWaiters|
    ensures Shape(FutexWakeFrom(s, address, count, i, woken).0)
    decreases |s.futexWaiters| - i
  {
    hide Shape, ThreadShape;
    if i < |s.futexWaiters| {
      if s.futexWaiters[i].Some? && s.futexWaiters[i].value.address == address && woken < count {
        var s0 := s.(futexWaiters := s.futexWaiters[i := None]);
        UnlistFutexShape(s, i);
        WakeShape(s0, s.futexWaiters[i].value.thread);
        var (s1, ok) := Wake(s0, s.futexWaiters[i].value.thread);
        FutexWakeShape(s1, address, count, i + 1, if ok then woken + 1 else woken);
      } else {
        FutexWakeShape(s, address, count, i + 1, woken);
      }
    }
  }

  lemma UnlistFutexShape(s: State, i: nat)
    requires Shape(s) && i < |s.futexWaiters|
    ensures Shape(s.(futexWaiters := s.futexWaiters[i := None]))
  {
  }

  lemma UnlistSleeperShape(s: State, i: nat)
    requires Shape(s) && i < |s.sleepers|
    ensures Shape(s.(sleepers := s.sleepers[i := None]))
  {
  }

  lemma {:induction false} ExpireSleepersShape(s: State, i: nat)
    requires Shape(s) && i <= |s.sleepers|
    ensures Shape(ExpireSleepers(s, i))
    decreases |s.sleepers| - i
  {
    hide Shape, ThreadShape;
    if i < |s.sleepers| {
      if s.sleepers[i].Some? && Due(s.ticks, s.sleepers[i].value.deadline) {
        var s0 := s.(sleepers := s.sleepers[i := None]);
        UnlistSleeperShape(s, i);
        WakeShape(s0, s.sleepers[i].value.thread);
        ExpireSleepersShape(Wake(s0, s.sleepers[i].value.thread).0, i + 1);
      } else {
        ExpireSleepersShape(s, i + 1);
      }
    }
  }

  lemma {:induction false} ExpireFutexesShape(s: State, i: nat)
    requires Shape(s) && i <= |s.futexWaiters|
    ensures Shape(ExpireFutexes(s, i))
    decreases |s.futexWaiters| - i
  {
    hide Shape, ThreadShape;
    if i < |s.futexWaiters| {
      if s.futexWaiters[i].Some? && FutexDue(s.ticks, s.futexWaiters[i].value) {
        var s0 := s.(futexWaiters := s.futexWaiters[i := None]);
        UnlistFutexShape(s, i);
        WakeShape(s0, s.futexWaiters[i].value.thread);
        ExpireFutexesShape(Wake(s0, s.futexWaiters[i].value.thread).0, i + 1);
      } else {
        ExpireFutexesShape(s, i + 1);
      }
    }
  }

  /** Array accesses stay in bounds in every step, allowed or not. */
  lemma NextShape(s: State, step: Step)
    requires Shape(s)
    ensures Shape(Next(s, step))
  {
    hide Shape, ThreadShape;
    match step
    case DoResume => ResumeShape(s);
    case DoYield => YieldShape(s);
    case DoExit(status) => ExitShape(s, status);
    case DoJoin(target) => JoinAsShape(s, target, Joining(target));
    case DoWait(process) => WaitShape(s, process);
    case DoTryWait(process) => TryWaitShape(s, process);
    case DoReapAny => ReapAnyShape(s);
    case DoTerminate(process) => TerminateShape(s, process);
    case DoThreadCreate(checked, stacks) => SpawnUserShape(s, INIT_PROCESS, stacks);
    case DoSpawn(space, loaded, stacks) => SpawnShape(s, space, loaded, stacks);
    case DoSleep(milliseconds) => SleepShape(s, milliseconds);
    case DoFutexWait(address, actual, expected, timeout) => FutexWaitShape(s, address, actual, expected, timeout);
    case DoFutexWake(address, count) => FutexWakeShape(s, address, count, 0, 0);
    case DoTick => TickShape(s);
  }

  lemma TickShape(s: State)
    requires Shape(s)
    ensures Shape(Tick(s))
  {
    var s1 := s.(ticks := WrappingAdd(s.ticks, 1));
    assert Shape(s1);
    ExpireSleepersShape(s1, 0);
    ExpireFutexesShape(ExpireSleepers(s1, 0), 0);
  }
}
