/** What one allowed step can do to the queue, the threads and the suspended calls. */
module StepProgress {
  import opened Wrappers
  import opened ThreadTable
  import opened Words
  import opened SchedulerInvariant
  import opened SchedulerSteps
  import opened ProcessSteps
  import opened LifecycleSteps

  /** The current thread gives up the processor in this step. */
  predicate Switches(s: State, step: Step)
    requires Shape(s)
  {
    match step
    case DoYield => true
    case DoExit(_) => true
    case DoJoin(target) => Join(s, target).1.Suspended?
    case DoWait(process) => WaitProcess(s, process).1.Suspended?
    case DoSleep(milliseconds) => milliseconds != 0 && FirstEmpty(s.sleepers, 0) < |s.sleepers|
    case DoFutexWait(address, actual, expected, _) =>
      ValidUserWord(address) && actual == expected && FirstEmpty(s.futexWaiters, 0) < |s.futexWaiters|
    case _ => false
  }

  /** The thread that ends in this step, with its status. */
  function Ending(s: State, step: Step): Option<(nat, U64)>
    requires Shape(s)
  {
    match step
    case DoExit(status) => if s.current.Some? then Some((s.current.value, status)) else None
    case DoTerminate(process) =>
      (match ChildOfCurrent(s, process)
       case None => None
       case Some(main) =>
         if main < |s.threads| && s.threads[main].state != Exited then Some((main, TERMINATED_STATUS)) else None)
    case _ => None
  }

  /** The slot given to a new thread in this step. */
  function Born(s: State, step: Step): Option<nat>
    requires Shape(s)
  {
    match step
    case DoThreadCreate(checked, stacks) => ThreadCreate(s, checked, stacks).1
    case DoSpawn(space, loaded, stacks) =>
      if SpawnProcess(s, space, loaded, stacks).1.Some? then Some(FreeThread(s.threads, 1)) else None
    case _ => None
  }

  /** Threads that neither end nor start keep their status and stay ready if they were. */
  ghost predicate Steady(a: Thread, b: Thread) {
    && b.exitStatus == a.exitStatus
    && (a.state == Exited <==> b.state == Exited)
    && (a.state == Ready ==> b.state == Ready)
  }

  ghost predicate ThreadsProgress(s: State, s': State, step: Step)
    requires Shape(s)
  {
    && |s'.threads| == |s.threads|
    && (forall t | 0 <= t < |s.threads| && (Ending(s, step).Some? ==> Ending(s, step).value.0 != t) && Born(s, step) != Some(t) ::
          Steady(s.threads[t], s'.threads[t]))
    && (Ending(s, step).Some? ==>
          var (x, status) := Ending(s, step).value;
          x < |s.threads| && s.threads[x].state != Exited
          && s'.threads[x].state == Exited && s'.threads[x].exitStatus == status)
    && (Born(s, step).Some? ==>
          var x := Born(s, step).value;
          x < |s.threads| && Reusable(s.threads[x]) && s'.threads[x].state == Ready)
  }

  /** Only ready threads are queued, behind everyone already there. */
  ghost predicate QueueProgress(s: State, s': State)
    requires |s'.threads| == |s.threads|
  {
    && s.queue <= s'.queue
    && (forall i | |s.queue| <= i < |s'.queue| ::
          s'.queue[i] < |s.threads| && s'.threads[s'.queue[i]].state == Ready)
  }

  ghost predicate CallsProgress(s: State, s': State, step: Step)
    requires Shape(s)
  {
    && |s'.pending| == |s.pending|
    && forall w | 0 <= w < |s.pending| && Born(s, step) != Some(w) && !(step.DoResume? && s.current == Some(w))
                  && s.pending[w] != NoCall :: s'.pending[w] == s.pending[w]
  }

  ghost predicate PlacesProgress(s: State, s': State)
    requires |s'.threads| == |s.threads|
  {
    && |s'.sleepers| == |s.sleepers| && |s'.futexWaiters| == |s.futexWaiters|
    && forall p, t: nat | Registered(s', p, t) && t < |s.threads| ::
         Registered(s, p, t) || s'.threads[t].state == Blocked
  }

  ghost predicate Progress(s: State, s': State, step: Step)
    requires Shape(s)
  {
    ThreadsProgress(s, s', step) && QueueProgress(s, s') && CallsProgress(s, s', step) && PlacesProgress(s, s')
  }

  /** Nothing ended or started, and only run states changed besides the wait tables. */
  lemma QuietProgress(s: State, s': State, step: Step)
    requires Shape(s)
    requires Ending(s, step) == None && Born(s, step) == None
    requires |s'.threads| == |s.threads|
    requires forall t | 0 <= t < |s.threads| :: Steady(s.threads[t], s'.threads[t])
    ensures ThreadsProgress(s, s', step)
  {
  }

  // ------------------------------------------------------------------ each step

  lemma YieldProgress(s: State)
    requires Inv(s)
    ensures Progress(s, YieldState(s), DoYield)
  {
    hide PlacesOk, CallsOk, ProcessesOk, QueueOk, Between, Registered;
    YieldKeeps(s);
    var s' := YieldState(s);
    RegisteredFrame(s, s');
    assert PlacesProgress(s, s');
    assert CallsProgress(s, s', DoYield);
    YieldThreads(s);
  }

  lemma YieldThreads(s: State)
    requires Shape(s) && s.current.Some? && s.threads[s.current.value].state == Running
    ensures ThreadsProgress(s, YieldState(s), DoYield)
  {
  }

  lemma SleepProgress(s: State, step: Step, i: nat, deadline: U64)
    requires Inv(s) && s.current.value != IDLE
    requires Ending(s, step) == None && Born(s, step) == None && !step.DoResume?
    requires i < |s.sleepers| && s.sleepers[i].None?
    ensures Progress(s, SleepState(s, i, deadline), step)
  {
    hide PlacesOk, CallsOk, ProcessesOk, QueueOk;
    var s' := SleepState(s, i, deadline);
    assert forall p, t: nat :: Registered(s', p, t) ==> Registered(s, p, t) || (p == InSleep(i) && t == s.current.value);
    QuietProgress(s, s', step);
  }

  lemma FutexProgress(s: State, step: Step, i: nat, entry: FutexWaiter)
    requires Inv(s) && s.current.value != IDLE
    requires Ending(s, step) == None && Born(s, step) == None && !step.DoResume?
    requires i < |s.futexWaiters| && s.futexWaiters[i].None? && entry.thread == s.current.value
    ensures Progress(s, FutexState(s, i, entry), step)
  {
    hide PlacesOk, CallsOk, ProcessesOk, QueueOk;
    var s' := FutexState(s, i, entry);
    assert forall p, t: nat :: Registered(s', p, t) ==> Registered(s, p, t) || (p == InFutex(i) && t == s.current.value);
    QuietProgress(s, s', step);
  }

  lemma ListedProgress(s: State, step: Step, x: nat, call: Pending)
    requires Inv(s) && s.current.value != IDLE && x < |s.threads| && x != s.current.value
    requires s.threads[x].state != Exited && s.threads[x].joinWaiterCount < |s.threads|
    requires s.pending[s.current.value] == NoCall && call.On(x)
    requires Ending(s, step) == None && Born(s, step) == None && !step.DoResume?
    ensures Progress(s, Listed(s, x, call), step)
  {
    hide PlacesOk, CallsOk, ProcessesOk, QueueOk, Registered, Ending, Born;
    var s' := Listed(s, x, call);
    ListedRegisters(s, x, call);
    QuietProgress(s, s', step);
  }

  lemma WakeQueues(s: State, w: nat)
    requires QueueOk(s)
    ensures QueueProgress(s, Wake(s, w).0)
    ensures QueueOk(Wake(s, w).0)
  {
    if w < |s.threads| && s.threads[w].state == Blocked {
      NotQueued(s, w);
      MakeReadyQueues(s, w);
    }
  }

  lemma {:induction false} WakeAllQueues(s: State, waiters: seq<nat>)
    requires QueueOk(s)
    ensures QueueProgress(s, WakeAll(s, waiters))
    ensures forall t | 0 <= t < |s.threads| :: s.threads[t].state == Ready ==> WakeAll(s, waiters).threads[t].state == Ready
    decreases |waiters|
  {
    if waiters != [] {
      var s1 := Wake(s, waiters[0]).0;
      WakeQueues(s, waiters[0]);
      WakeAllQueues(s1, waiters[1..]);
      QueueProgressTrans(s, s1, WakeAll(s, waiters));
    }
  }

  lemma QueueProgressTrans(s: State, s1: State, s2: State)
    requires |s1.threads| == |s.threads| == |s2.threads|
    requires QueueProgress(s, s1) && QueueProgress(s1, s2)
    requires forall t | 0 <= t < |s.threads| :: s1.threads[t].state == Ready ==> s2.threads[t].state == Ready
    ensures QueueProgress(s, s2)
  {
    forall i | |s.queue| <= i < |s2.queue|
      ensures s2.queue[i] < |s.threads| && s2.threads[s2.queue[i]].state == Ready
    {
      if i < |s1.queue| {
        assert s2.queue[i] == s1.queue[i];
      }
    }
  }

  lemma EndPlacesProgress(s: State, ended: State, s': State, x: nat, status: U64, processes: seq<Process>)
    requires x < |s.threads| && s.threads[x].state != Exited
    requires ended == Ended(s, x, status, false, processes)
    requires WakeFrame(ended, s')
    ensures PlacesProgress(s, s')
  {
    forall p, t: nat | Registered(s', p, t) ensures Registered(s, p, t) {
      if p.InJoin? && p.target < |s.threads| {
        assert s'.threads[p.target] == ended.threads[p.target].(state := s'.threads[p.target].state);
        assert p.target != x;
      }
    }
  }

  lemma EndThreadsProgress(s: State, ended: State, s': State, x: nat, status: U64, processes: seq<Process>, step: Step)
    requires Shape(s) && x < |s.threads| && s.threads[x].state != Exited
    requires ended == Ended(s, x, status, false, processes)
    requires Ending(s, step) == Some((x, status)) && Born(s, step) == None
    requires WakeFrame(ended, s')
    ensures ThreadsProgress(s, s', step)
  {
    hide Ending, Born;
    forall t | 0 <= t < |s.threads| && t != x ensures Steady(s.threads[t], s'.threads[t]) {
      assert s'.threads[t] == ended.threads[t].(state := s'.threads[t].state);
    }
    assert s'.threads[x] == ended.threads[x].(state := s'.threads[x].state);
  }

  /** Ending a thread and waking its waiters. */
  lemma EndProgress(s: State, ended: State, s': State, x: nat, status: U64, processes: seq<Process>, step: Step)
    requires Inv(s) && 0 < x < |s.threads| && s.threads[x].state != Exited
    requires ended == Ended(s, x, status, false, processes)
    requires Ending(s, step) == Some((x, status)) && Born(s, step) == None
    requires s' == WakeAll(ended, JoinList(s.threads[x]))
    requires WakeFrame(ended, s')
    ensures Progress(s, s', step)
  {
    hide PlacesOk, CallsOk, ProcessesOk, Ending, Born, PlacesProgress, ThreadsProgress, Registered;
    EndedQueue(s, x, status, processes);
    WakeAllQueues(ended, JoinList(s.threads[x]));
    EndPlacesProgress(s, ended, s', x, status, processes);
    EndThreadsProgress(s, ended, s', x, status, processes, step);
  }

  lemma ExitProgress(s: State, status: U64)
    requires Inv(s) && s.current.value != IDLE && s.pending[s.current.value] == NoCall
    ensures Progress(s, ExitedState(s, s.current.value, status), DoExit(status))
  {
    hide PlacesOk, CallsOk, ProcessesOk, QueueOk, WakeAll, Reparent, WakeFrame;
    var c := s.current.value;
    ExitKeeps(s, status);
    var processes := Reparent(s.processes, c);
    EndProgress(s, Ended(s, c, status, false, processes), ExitedState(s, c, status), c, status, processes, DoExit(status));
  }

  lemma TerminateProgress(s: State, p: nat)
    requires Inv(s) && s.current.value != IDLE && Childless(s.processes, p)
    ensures Progress(s, TerminateProcess(s, p).0, DoTerminate(p))
    ensures TerminateProcess(s, p).0.current == s.current
  {
    hide PlacesOk, CallsOk, ProcessesOk, QueueOk, WakeAll;
    var child := ChildOfCurrent(s, p);
    var s' := TerminateProcess(s, p).0;
    if child.Some? {
      ChildInRange(s, p);
      var main := child.value;
      if s.threads[main].state != Exited {
        TerminateKeepsProcesses(s, p, main);
        var ended := Ended(s, main, TERMINATED_STATUS, false, s.processes);
        EndedKeeps(s, main, TERMINATED_STATUS, s.processes);
        WakeAllKeeps(ended, JoinList(s.threads[main]));
        assert ended.threads == s.threads[main := s.threads[main].(state := Exited, exitStatus := TERMINATED_STATUS)];
        EndProgress(s, ended, s', main, TERMINATED_STATUS, s.processes, DoTerminate(p));
      }
    }
  }

  /** A status read, possibly with the record cleared and the caller's call over. */
  lemma StatusReadProgress(s: State, s': State, x: nat, step: Step)
    requires Inv(s) && ExitedUpdate(s, s', x)
    requires Ending(s, step) == None && Born(s, step) == None
    requires s'.pending == s.pending || (step.DoResume? && s'.pending == s.pending[s.current.value := NoCall])
    ensures Progress(s, s', step)
  {
    hide CallsOk, ProcessesOk, QueueOk, Ending, Born;
    ExitedUpdateKeepsPlaces(s, s', x);
    forall t | 0 <= t < |s.threads| ensures Steady(s.threads[t], s'.threads[t]) {
    }
    QuietProgress(s, s', step);
  }

  lemma NothingProgress(s: State, step: Step)
    requires Shape(s)
    requires Ending(s, step) == None && Born(s, step) == None
    ensures Progress(s, s, step)
  {
    QuietProgress(s, s, step);
  }

  lemma CollectIs(s: State, process: nat, main: nat)
    requires Inv(s) && ChildOfCurrent(s, process) == Some(main) && main < |s.threads| && s.threads[main].state == Exited
    ensures ExitedUpdate(s, Collect(StatusRead(s, main), process), main)
    ensures Collect(StatusRead(s, main), process).pending == s.pending
    ensures Collect(StatusRead(s, main), process).current == s.current
  {
  }

  lemma TryWaitProgress(s: State, process: nat)
    requires Inv(s)
    ensures Progress(s, TryWaitProcess(s, process).0, DoTryWait(process))
    ensures TryWaitProcess(s, process).0.current == s.current
  {
    hide Base, Progress;
    assert Shape(s) by { ShapeOf(s); }
    var child := ChildOfCurrent(s, process);
    if child.Some? && child.value < |s.threads| && s.threads[child.value].state == Exited {
      ChildInRange(s, process);
      CollectIs(s, process, child.value);
      assert TryWaitProcess(s, process).0 == Collect(StatusRead(s, child.value), process);
      StatusReadProgress(s, TryWaitProcess(s, process).0, child.value, DoTryWait(process));
    } else {
      NothingProgress(s, DoTryWait(process));
    }
  }

  lemma ReapAnyProgress(s: State)
    requires Inv(s)
    ensures Progress(s, ReapAnyChild(s).0, DoReapAny)
    ensures ReapAnyChild(s).0.current == s.current
  {
    hide Base, Progress;
    assert Shape(s) by { ShapeOf(s); }
    if CurrentProcess(s).Some? && FirstExitedChild(s, CurrentProcess(s).value, 0) < |s.processes| {
      var i := FirstExitedChild(s, CurrentProcess(s).value, 0);
      ExitedChildIs(s, i);
      var main := s.processes[i].mainThread.value;
      ChildInRange(s, i + 1);
      CollectIs(s, i + 1, main);
      assert ReapAnyChild(s).0 == Collect(StatusRead(s, main), i + 1);
      StatusReadProgress(s, ReapAnyChild(s).0, main, DoReapAny);
    } else {
      NothingProgress(s, DoReapAny);
    }
  }

  lemma ResumeProgress(s: State)
    requires Inv(s) && s.pending[s.current.value] != NoCall
    ensures Progress(s, Resume(s).0, DoResume)
    ensures Resume(s).0.current == s.current
  {
    hide PlacesOk, CallsOk, ProcessesOk, QueueOk, Progress, Registered, Counted;
    var s2, x := TailIsStatusRead(s);
    assert Resume(s).0 == s2.(processes := Resume(s).0.processes);
    assert ExitedUpdate(s, Resume(s).0, x);
    StatusReadProgress(s, Resume(s).0, x, DoResume);
  }

  /** A join that finds its target exited, or names no other thread. */
  lemma ImmediateJoinProgress(s: State, target: nat)
    requires Inv(s) && s.current.value != IDLE
    requires target >= |s.threads| || target == s.current.value || s.threads[target].state == Exited
    ensures !Switches(s, DoJoin(target))
    ensures Progress(s, Join(s, target).0, DoJoin(target))
    ensures Join(s, target).0.current == s.current
  {
    hide Base, Progress;
    assert Shape(s) by { ShapeOf(s); }
    if target < |s.threads| && target != s.current.value {
      assert Join(s, target).0 == StatusRead(s, target);
      StatusReadProgress(s, StatusRead(s, target), target, DoJoin(target));
    } else {
      NothingProgress(s, DoJoin(target));
    }
  }

  lemma ImmediateWaitProgress(s: State, process: nat)
    requires Inv(s) && s.current.value != IDLE
    requires ChildOfCurrent(s, process).Some? ==>
               ChildOfCurrent(s, process).value >= |s.threads|
               || s.threads[ChildOfCurrent(s, process).value].state == Exited
    ensures !Switches(s, DoWait(process))
    ensures Progress(s, WaitProcess(s, process).0, DoWait(process))
    ensures WaitProcess(s, process).0.current == s.current
  {
    hide Base, Progress;
    assert Shape(s) by { ShapeOf(s); }
    var child := ChildOfCurrent(s, process);
    if child.Some? {
      ChildInRange(s, process);
      CollectIs(s, process, child.value);
      assert WaitProcess(s, process).0 == Collect(StatusRead(s, child.value), process);
      StatusReadProgress(s, WaitProcess(s, process).0, child.value, DoWait(process));
    } else {
      NothingProgress(s, DoWait(process));
    }
  }

  /** A new thread placed in a clean slot. */
  lemma PlacedProgress(s: State, slot: nat, p: nat, processes: seq<Process>, step: Step)
    requires Inv(s) && 0 < slot < |s.threads| && Reusable(s.threads[slot]) && slot !in s.queue
    requires Ending(s, step) == None && Born(s, step) == Some(slot)
    ensures Progress(s, Enqueue(Placed(s, slot, p, processes), slot), step)
    ensures Enqueue(Placed(s, slot, p, processes), slot).current == s.current
  {
    hide Base, Ending, Born, Registered, Placed, MakeReady, PlacesProgress, CallsProgress, ThreadsProgress, QueueProgress;
    assert Shape(s) && QueueOk(s) && RunOk(s) by { QueueOf(s); }
    PlacedIsQueued(s, slot, p, processes);
    PlacedPlacesProgress(s, slot, p, processes);
    PlacedThreads(s, slot, p, processes, step);
  }

  lemma QueueOf(s: State)
    requires Inv(s)
    ensures Shape(s) && QueueOk(s) && RunOk(s)
  {
    hide PlacesOk, CallsOk, ProcessesOk;
  }

  lemma PlacedIsQueued(s: State, slot: nat, p: nat, processes: seq<Process>)
    requires Shape(s) && QueueOk(s) && RunOk(s) && 0 < slot < |s.threads| && Reusable(s.threads[slot]) && slot !in s.queue
    ensures var s2 := Enqueue(Placed(s, slot, p, processes), slot);
            slot < |Placed(s, slot, p, processes).threads|
            && s2 == MakeReady(Placed(s, slot, p, processes), slot) && s2.queue == s.queue + [slot]
  {
    hide QueueOk, Shape;
    SizesOf(s);
    assert MakeReady(Placed(s, slot, p, processes), slot).threads == Placed(s, slot, p, processes).threads;
    PlacedQueue(s, slot, p, processes);
  }

  lemma SizesOf(s: State)
    requires Shape(s)
    ensures 0 < |s.threads| == |s.pending|
  {
  }

  lemma PlacedPlacesProgress(s: State, slot: nat, p: nat, processes: seq<Process>)
    requires Shape(s) && 0 < slot < |s.threads| && s.threads[slot].state == Exited
    ensures PlacesProgress(s, Enqueue(Placed(s, slot, p, processes), slot))
  {
    hide Registered;
    PlacedRegistrations(s, slot, p, processes);
    RegisteredFrame(Placed(s, slot, p, processes), Enqueue(Placed(s, slot, p, processes), slot));
  }

  lemma PlacedThreads(s: State, slot: nat, p: nat, processes: seq<Process>, step: Step)
    requires Shape(s) && 0 < slot < |s.threads| && Reusable(s.threads[slot])
    requires Ending(s, step) == None && Born(s, step) == Some(slot)
    requires Enqueue(Placed(s, slot, p, processes), slot).queue == s.queue + [slot]
    ensures var s2 := Enqueue(Placed(s, slot, p, processes), slot);
            ThreadsProgress(s, s2, step) && CallsProgress(s, s2, step) && QueueProgress(s, s2)
    ensures Enqueue(Placed(s, slot, p, processes), slot).current == s.current
  {
    hide Ending, Born;
  }

  lemma ThreadCreateProgress(s: State, checked: bool, stacks: bool)
    requires Inv(s) && CleanSpawn(s)
    ensures Progress(s, ThreadCreate(s, checked, stacks).0, DoThreadCreate(checked, stacks))
    ensures ThreadCreate(s, checked, stacks).0.current == s.current
  {
    hide Base, Progress, Registered;
    assert Shape(s) by { ShapeOf(s); }
    var slot := FreeThread(s.threads, 1);
    if checked && stacks && slot < |s.threads| {
      assert AddressSpaceOf(s.processes, INIT_PROCESS).Some? by { InitSpaceKnown(s); }
      PlacedProgress(s, slot, INIT_PROCESS, s.processes, DoThreadCreate(checked, stacks));
    } else {
      NothingProgress(s, DoThreadCreate(checked, stacks));
    }
  }

  lemma InitSpaceKnown(s: State)
    requires Inv(s)
    ensures AddressSpaceOf(s.processes, INIT_PROCESS).Some?
  {
    SpaceOfInit(s);
  }

  lemma RecordOnlyProgress(s: State, processes: seq<Process>, step: Step)
    requires Shape(s)
    requires Ending(s, step) == None && Born(s, step) == None
    ensures Progress(s, s.(processes := processes), step)
  {
    hide Ending, Born;
    QuietProgress(s, s.(processes := processes), step);
  }

  lemma SpawnProgress(s: State, space: nat, loaded: bool, stacks: bool)
    requires Inv(s) && s.current.value != IDLE && CleanSpawn(s)
    requires forall i | 0 <= i < |s.processes| :: s.processes[i].addressSpace != space
    ensures Progress(s, SpawnProcess(s, space, loaded, stacks).0, DoSpawn(space, loaded, stacks))
    ensures SpawnProcess(s, space, loaded, stacks).0.current == s.current
  {
    hide Base, Progress, Registered;
    assert Shape(s) by { ShapeOf(s); }
    var i := FreeRecord(s.processes, 1);
    if i == |s.processes| {
      NothingProgress(s, DoSpawn(space, loaded, stacks));
    } else {
      var record := s.processes[i := Process(i + 1, space, CurrentProcess(s), None)];
      RecordAloneKeeps(s, i, record, space);
      assert Shape(s.(processes := record)) by { ShapeOf(s.(processes := record)); }
      var slot := FreeThread(s.threads, 1);
      if loaded && stacks && slot < |s.threads| {
        assert IdsOk(s.processes) by { IdsOf(s); }
        SpawnIsPlaced(s, space, i, slot);
        PlacedProgress(s, slot, i + 1, s.processes[i := Process(i + 1, space, CurrentProcess(s), Some(slot))],
                       DoSpawn(space, loaded, stacks));
      } else {
        RecordOnlyProgress(s, record, DoSpawn(space, loaded, stacks));
      }
    }
  }

  // --------------------------------------------------------------- wake-up loops

  /** Some blocked threads became ready and were queued; entries were only removed. */
  ghost predicate Awakened(s: State, s': State) {
    && |s'.threads| == |s.threads|
    && s'.current == s.current && s'.pending == s.pending && s'.processes == s.processes && s'.activeSpace == s.activeSpace
    && |s'.sleepers| == |s.sleepers| && |s'.futexWaiters| == |s.futexWaiters|
    && (forall t | 0 <= t < |s.threads| ::
          && s'.threads[t] == s.threads[t].(state := s'.threads[t].state)
          && (s'.threads[t].state == s.threads[t].state || (s.threads[t].state == Blocked && s'.threads[t].state == Ready)))
    && QueueProgress(s, s')
    && (forall p, t: nat | Registered(s', p, t) :: Registered(s, p, t))
  }

  lemma AwakenedTrans(s: State, s1: State, s2: State)
    requires Awakened(s, s1) && Awakened(s1, s2)
    ensures Awakened(s, s2)
  {
    hide Registered;
    forall t | 0 <= t < |s.threads|
      ensures s2.threads[t] == s.threads[t].(state := s2.threads[t].state)
      ensures s2.threads[t].state == s.threads[t].state || (s.threads[t].state == Blocked && s2.threads[t].state == Ready)
    {
      assert s1.threads[t] == s.threads[t].(state := s1.threads[t].state);
    }
    QueueProgressTrans(s, s1, s2);
  }

  /** One table entry emptied and its thread woken. */
  lemma UnlistAwakens(s: State, s': State, t: nat)
    requires Inv(s) && t < |s.threads|
    requires s' == s.(sleepers := s'.sleepers, futexWaiters := s'.futexWaiters)
    requires |s'.sleepers| == |s.sleepers| && |s'.futexWaiters| == |s.futexWaiters|
    requires forall p, u: nat | Registered(s', p, u) :: Registered(s, p, u)
    ensures Awakened(s, Wake(s', t).0)
  {
    hide PlacesOk, CallsOk, ProcessesOk, QueueOk, RunOk, Registered, ThreadShape;
    assert QueueOk(s') by { QueueFrame(s, s'); }
    var s2 := Wake(s', t).0;
    assert QueueProgress(s, s2) by { WakeQueues(s', t); }
    assert forall u | 0 <= u < |s.threads| :: s2.threads[u] == s.threads[u].(state := s2.threads[u].state);
    RegisteredFrame(s', s2);
  }

  lemma ExpireSleeperAwakens(s: State, i: nat)
    requires Inv(s) && i < |s.sleepers| && s.sleepers[i].Some?
    ensures Awakened(s, Wake(s.(sleepers := s.sleepers[i := None]), s.sleepers[i].value.thread).0)
  {
    hide PlacesOk, CallsOk, ProcessesOk, QueueOk;
    var s' := s.(sleepers := s.sleepers[i := None]);
    assert forall p, u: nat | Registered(s', p, u) :: Registered(s, p, u);
    UnlistAwakens(s, s', s.sleepers[i].value.thread);
  }

  lemma ExpireFutexAwakens(s: State, i: nat)
    requires Inv(s) && i < |s.futexWaiters| && s.futexWaiters[i].Some?
    ensures Awakened(s, Wake(s.(futexWaiters := s.futexWaiters[i := None]), s.futexWaiters[i].value.thread).0)
  {
    hide PlacesOk, CallsOk, ProcessesOk, QueueOk;
    var s' := s.(futexWaiters := s.futexWaiters[i := None]);
    assert forall p, u: nat | Registered(s', p, u) :: Registered(s, p, u);
    UnlistAwakens(s, s', s.futexWaiters[i].value.thread);
  }

  lemma AwakenedSelf(s: State)
    ensures Awakened(s, s)
  {
  }

  lemma {:induction false} ExpireSleepersAwakens(s: State, i: nat)
    requires Inv(s) && i <= |s.sleepers|
    ensures Awakened(s, ExpireSleepers(s, i))
    decreases |s.sleepers| - i
  {
    hide Inv, Awakened;
    if i == |s.sleepers| {
      AwakenedSelf(s);
    } else if s.sleepers[i].Some? && Due(s.ticks, s.sleepers[i].value.deadline) {
      var s1 := Wake(s.(sleepers := s.sleepers[i := None]), s.sleepers[i].value.thread).0;
      ExpireSleeperKeeps(s, i);
      ExpireSleeperAwakens(s, i);
      ExpireSleepersAwakens(s1, i + 1);
      AwakenedTrans(s, s1, ExpireSleepers(s, i));
    } else {
      ExpireSleepersAwakens(s, i + 1);
    }
  }

  lemma {:induction false} ExpireFutexesAwakens(s: State, i: nat)
    requires Inv(s) && i <= |s.futexWaiters|
    ensures Awakened(s, ExpireFutexes(s, i))
    decreases |s.futexWaiters| - i
  {
    hide Inv, Awakened;
    if i == |s.futexWaiters| {
      AwakenedSelf(s);
    } else if s.futexWaiters[i].Some? && FutexDue(s.ticks, s.futexWaiters[i].value) {
      var s1 := Wake(s.(futexWaiters := s.futexWaiters[i := None]), s.futexWaiters[i].value.thread).0;
      ExpireFutexKeeps(s, i);
      ExpireFutexAwakens(s, i);
      ExpireFutexesAwakens(s1, i + 1);
      AwakenedTrans(s, s1, ExpireFutexes(s, i));
    } else {
      ExpireFutexesAwakens(s, i + 1);
    }
  }

  lemma {:induction false} FutexWakeFromAwakens(s: State, address: U64, count: U64, i: nat, woken: nat)
    requires Inv(s) && i <= |s.futexWaiters|
    ensures Awakened(s, FutexWakeFrom(s, address, count, i, woken).0)
    decreases |s.futexWaiters| - i
  {
    hide Inv, Awakened;
    if i == |s.futexWaiters| {
      AwakenedSelf(s);
    } else if s.futexWaiters[i].Some? && s.futexWaiters[i].value.address == address && woken < count {
      var (s1, ok) := Wake(s.(futexWaiters := s.futexWaiters[i := None]), s.futexWaiters[i].value.thread);
      ExpireFutexKeeps(s, i);
      ExpireFutexAwakens(s, i);
      FutexWakeFromAwakens(s1, address, count, i + 1, if ok then woken + 1 else woken);
      AwakenedTrans(s, s1, FutexWakeFrom(s, address, count, i, woken).0);
    } else {
      FutexWakeFromAwakens(s, address, count, i + 1, woken);
    }
  }

  lemma AwakenedProgress(s: State, s': State, step: Step)
    requires Shape(s)
    requires Awakened(s, s')
    requires Ending(s, step) == None && Born(s, step) == None
    ensures Progress(s, s', step)
  {
    hide Ending, Born;
    forall t | 0 <= t < |s.threads| ensures Steady(s.threads[t], s'.threads[t]) {
      assert s'.threads[t] == s.threads[t].(state := s'.threads[t].state);
    }
    QuietProgress(s, s', step);
  }

  lemma TickAwakens(s: State)
    requires Inv(s)
    ensures Awakened(s, Tick(s))
  {
    var s1 := s.(ticks := WrappingAdd(s.ticks, 1));
    assert Inv(s1) by { LaterInv(s); }
    assert Awakened(s, s1);
    hide Inv, Awakened;
    ExpireSleepersKeeps(s1, 0);
    ExpireSleepersAwakens(s1, 0);
    var s2 := ExpireSleepers(s1, 0);
    ExpireFutexesAwakens(s2, 0);
    AwakenedTrans(s, s1, s2);
    AwakenedTrans(s, s2, Tick(s));
  }

  // ---------------------------------------------------------------- every step

  /** Every allowed step makes progress to a state `s1`; a switching step then dispatches. */
  lemma StepProgresses(s: State, step: Step) returns (s1: State)
    requires Inv(s) && Allowed(s, step)
    ensures Progress(s, s1, step)
    ensures Switches(s, step) ==> Between(s1, s.current.value) && Next(s, step) == ScheduleFrom(s1, s.current.value)
    ensures !Switches(s, step) ==> Next(s, step) == s1 && s1.current == s.current
  {
    hide Base, Progress, Between, Clean, NoCollector, Childless;
    assert Shape(s) by { ShapeOf(s); }
    match step
    case DoResume =>
      ResumeProgress(s);
      s1 := Resume(s).0;
    case DoYield =>
      s1 := YieldProgresses(s);
    case DoExit(status) =>
      s1 := ExitProgresses(s, status);
    case DoJoin(target) =>
      s1 := JoinProgresses(s, target);
    case DoWait(process) =>
      s1 := WaitProgresses(s, process);
    case DoTryWait(process) =>
      TryWaitProgress(s, process);
      s1 := TryWaitProcess(s, process).0;
    case DoReapAny =>
      ReapAnyProgress(s);
      s1 := ReapAnyChild(s).0;
    case DoTerminate(process) =>
      TerminateProgress(s, process);
      s1 := TerminateProcess(s, process).0;
    case DoThreadCreate(checked, stacks) =>
      ThreadCreateProgress(s, checked, stacks);
      s1 := ThreadCreate(s, checked, stacks).0;
    case DoSpawn(space, loaded, stacks) =>
      SpawnProgress(s, space, loaded, stacks);
      s1 := SpawnProcess(s, space, loaded, stacks).0;
    case DoSleep(milliseconds) =>
      s1 := SleepProgresses(s, milliseconds);
    case DoFutexWait(address, actual, expected, timeout) =>
      s1 := FutexWaitProgresses(s, address, actual, expected, timeout);
    case DoFutexWake(address, count) =>
      s1 := FutexWake(s, address, count).0;
      FutexWakeProgress(s, address, count);
    case DoTick =>
      s1 := Tick(s);
      TickProgress(s);
  }

  lemma YieldProgresses(s: State) returns (s1: State)
    requires Inv(s) && Shape(s)
    ensures Progress(s, s1, DoYield) && Between(s1, s.current.value) && Yield(s) == ScheduleFrom(s1, s.current.value)
  {
    hide Base, Progress, Between, ScheduleFrom, Yield;
    YieldKeeps(s);
    YieldProgress(s);
    s1 := YieldState(s);
    assert Shape(YieldState(s)) by { BetweenShape(YieldState(s), s.current.value); }
    YieldIs(s);
  }

  lemma BetweenShape(s: State, c: nat)
    requires Between(s, c)
    ensures Shape(s)
  {
  }

  lemma ExitProgresses(s: State, status: U64) returns (s1: State)
    requires Inv(s) && Allowed(s, DoExit(status))
    ensures Shape(s)
    ensures Progress(s, s1, DoExit(status))
    ensures Switches(s, DoExit(status)) ==> Between(s1, s.current.value) && ExitCurrent(s, status) == ScheduleFrom(s1, s.current.value)
    ensures !Switches(s, DoExit(status)) ==> ExitCurrent(s, status) == s1 && s1.current == s.current
  {
    hide Base, Progress, Between;
    assert Shape(s) by { ShapeOf(s); }
    ExitKeeps(s, status);
    ExitProgress(s, status);
    s1 := ExitedState(s, s.current.value, status);
  }

  lemma FutexWakeProgress(s: State, address: U64, count: U64)
    requires Inv(s) && Shape(s)
    ensures var s1 := FutexWake(s, address, count).0;
            Progress(s, s1, DoFutexWake(address, count)) && s1.current == s.current
  {
    hide Base, Progress;
    FutexWakeFromAwakens(s, address, count, 0, 0);
    var s1 := FutexWake(s, address, count).0;
    assert Awakened(s, s1) by { AwakenedSelf(s); }
    AwakenedProgress(s, s1, DoFutexWake(address, count));
  }

  lemma TickProgress(s: State)
    requires Inv(s) && Shape(s)
    ensures Progress(s, Tick(s), DoTick) && Tick(s).current == s.current
  {
    hide Base, Progress;
    TickAwakens(s);
    AwakenedProgress(s, Tick(s), DoTick);
  }

  lemma YieldIs(s: State)
    requires Shape(s) && s.current.Some? && Shape(YieldState(s))
    ensures Yield(s) == ScheduleFrom(YieldState(s), s.current.value)
  {
    hide ScheduleFrom;
  }

  lemma JoinProgresses(s: State, target: nat) returns (s1: State)
    requires Inv(s) && Allowed(s, DoJoin(target))
    ensures Progress(s, s1, DoJoin(target))
    ensures Switches(s, DoJoin(target)) ==> Between(s1, s.current.value) && Join(s, target).0 == ScheduleFrom(s1, s.current.value)
    ensures !Switches(s, DoJoin(target)) ==> Join(s, target).0 == s1 && s1.current == s.current
  {
    hide Base, Progress, Between;
    assert Shape(s) by { ShapeOf(s); }
    if target >= |s.threads| || target == s.current.value || s.threads[target].state == Exited {
      ImmediateJoinProgress(s, target);
      s1 := Join(s, target).0;
    } else {
      BlockingJoinKeeps(s, target, Joining(target));
      ListedProgress(s, DoJoin(target), target, Joining(target));
      s1 := Listed(s, target, Joining(target));
    }
  }

  lemma WaitProgresses(s: State, process: nat) returns (s1: State)
    requires Inv(s) && Allowed(s, DoWait(process))
    ensures Progress(s, s1, DoWait(process))
    ensures Switches(s, DoWait(process)) ==>
              Between(s1, s.current.value) && WaitProcess(s, process).0 == ScheduleFrom(s1, s.current.value)
    ensures !Switches(s, DoWait(process)) ==> WaitProcess(s, process).0 == s1 && s1.current == s.current
  {
    hide Base, Progress, Between;
    assert Shape(s) by { ShapeOf(s); }
    var child := ChildOfCurrent(s, process);
    if child.Some? {
      ChildInRange(s, process);
    }
    if child.Some? && s.threads[child.value].state != Exited {
      var main := child.value;
      CollectingCallOk(s, process, main);
      BlockingJoinKeeps(s, main, Collecting(main, process));
      ListedProgress(s, DoWait(process), main, Collecting(main, process));
      s1 := Listed(s, main, Collecting(main, process));
    } else {
      ImmediateWaitProgress(s, process);
      s1 := WaitProcess(s, process).0;
    }
  }

  lemma SleepProgresses(s: State, milliseconds: U64) returns (s1: State)
    requires Inv(s) && Allowed(s, DoSleep(milliseconds))
    ensures Progress(s, s1, DoSleep(milliseconds))
    ensures Switches(s, DoSleep(milliseconds)) ==>
              Between(s1, s.current.value) && Sleep(s, milliseconds).0 == ScheduleFrom(s1, s.current.value)
    ensures !Switches(s, DoSleep(milliseconds)) ==> Sleep(s, milliseconds).0 == s1 && s1.current == s.current
  {
    hide Base, Progress, Between;
    assert Shape(s) by { ShapeOf(s); }
    if Switches(s, DoSleep(milliseconds)) {
      var i := FirstEmpty(s.sleepers, 0);
      s1 := SleepState(s, i, WrappingAdd(s.ticks, SleepTicks(milliseconds)));
      SleepStateKeeps(s, i, WrappingAdd(s.ticks, SleepTicks(milliseconds)));
      SleepIs(s, milliseconds);
      SleepProgress(s, DoSleep(milliseconds), i, WrappingAdd(s.ticks, SleepTicks(milliseconds)));
    } else {
      NothingProgress(s, DoSleep(milliseconds));
      s1 := s;
    }
  }

  lemma FutexWaitProgresses(s: State, address: U64, actual: U64, expected: U64, timeout: U64) returns (s1: State)
    requires Inv(s) && Allowed(s, DoFutexWait(address, actual, expected, timeout))
    ensures Progress(s, s1, DoFutexWait(address, actual, expected, timeout))
    ensures Switches(s, DoFutexWait(address, actual, expected, timeout)) ==>
              Between(s1, s.current.value)
              && FutexWait(s, address, actual, expected, timeout).0 == ScheduleFrom(s1, s.current.value)
    ensures !Switches(s, DoFutexWait(address, actual, expected, timeout)) ==>
              FutexWait(s, address, actual, expected, timeout).0 == s1 && s1.current == s.current
  {
    hide Base, Progress, Between;
    assert Shape(s) by { ShapeOf(s); }
    var step := DoFutexWait(address, actual, expected, timeout);
    if Switches(s, step) {
      var i := FirstEmpty(s.futexWaiters, 0);
      var entry := FutexWaiter(address, s.current.value, FutexDeadline(s.ticks, timeout));
      s1 := FutexState(s, i, entry);
      FutexStateKeeps(s, i, entry);
      FutexWaitIs(s, address, actual, expected, timeout);
      FutexProgress(s, step, i, entry);
    } else {
      NothingProgress(s, step);
      s1 := s;
    }
  }
}
