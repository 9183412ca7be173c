/** The scheduler and the address spaces together: the paging calls that system calls make are
    permitted, and processes share no page. */
module KernelRuns {
  import opened Wrappers
  import opened Words
  import opened ThreadTable
  import opened SchedulerInvariant
  import opened SchedulerSteps
  import opened ProcessSteps
  import opened LifecycleSteps
  import opened StepProgress
  import opened SchedulerRuns
  import opened ProcessRuns
  import FrameSets
  import PageWords
  import PageTree
  import AddressSpaces
  import SpaceLife
  import Teardown
  import PagingRuns
  import UserMemory

  // ------------------------------------------------------- records and their spaces

  /** Every live record of `b` was there in `a`, with the same address space. */
  ghost predicate SpacesFrom(a: seq<Process>, b: seq<Process>) {
    |b| == |a| && forall p: nat | Live(b, p) :: Live(a, p) && b[p - 1].addressSpace == a[p - 1].addressSpace
  }

  /** No record is new, and the active space changes only for a user thread. */
  ghost predicate SpacesKept(s: State, s2: State) {
    && SpacesFrom(s.processes, s2.processes)
    && (s2.current == Some(IDLE) ==> s2.activeSpace == s.activeSpace)
  }

  lemma ScheduleSpaces(s1: State, c: nat)
    requires Between(s1, c)
    ensures ScheduleFrom(s1, c).processes == s1.processes
    ensures ScheduleFrom(s1, c).current == Some(IDLE) ==> ScheduleFrom(s1, c).activeSpace == s1.activeSpace
  {
    hide PlacesOk, CallsOk, ProcessesOk, QueueOk, ScheduleFrom;
    var k, chosen := ScheduleChoice(s1, c);
  }

  lemma {:induction false} WakeAllSpaces(s: State, waiters: seq<nat>)
    ensures WakeAll(s, waiters).processes == s.processes && WakeAll(s, waiters).activeSpace == s.activeSpace
    ensures WakeAll(s, waiters).current == s.current
    decreases |waiters|
  {
    if waiters != [] {
      WakeAllSpaces(Wake(s, waiters[0]).0, waiters[1..]);
    }
  }

  lemma StepSpaces(s: State, step: Step)
    requires Inv(s) && Allowed(s, step) && !step.DoSpawn?
    ensures SpacesKept(s, Next(s, step))
  {
    hide Base, Allowed, Between, CollectedBy, Reparent, WakeAll, ScheduleFrom, Collect;
    assert Shape(s) by { ShapeOf(s); }
    match step
    case DoTick => TickAwakens(s);
    case DoFutexWake(address, count) => FutexWakeFromAwakens(s, address, count, 0, 0);
    case DoExit(status) => ExitSpaces(s, status);
    case DoTerminate(process) => TerminateSpaces(s, process);
    case DoThreadCreate(checked, stacks) =>
    case DoYield => DispatchSpaces(s, step);
    case DoSleep(milliseconds) => DispatchSpaces(s, step);
    case DoFutexWait(address, actual, expected, timeout) => DispatchSpaces(s, step);
    case DoJoin(target) => JoinSpaces(s, target);
    case _ => CollectSpaces(s, step);
  }

  lemma DispatchSpaces(s: State, step: Step)
    requires Inv(s) && Allowed(s, step)
    requires step.DoYield? || step.DoSleep? || step.DoFutexWait?
    ensures SpacesKept(s, Next(s, step))
  {
    hide PlacesOk, CallsOk, ProcessesOk, QueueOk, ScheduleFrom;
    if Switches(s, step) {
      var c := s.current.value;
      match step
      case DoYield =>
        YieldKeeps(s);
        ScheduleSpaces(YieldState(s), c);
        YieldIs(s);
      case DoSleep(milliseconds) =>
        var i := FirstEmpty(s.sleepers, 0);
        var deadline := WrappingAdd(s.ticks, SleepTicks(milliseconds));
        SleepStateKeeps(s, i, deadline);
        SleepIs(s, milliseconds);
        ScheduleSpaces(SleepState(s, i, deadline), c);
      case DoFutexWait(address, actual, expected, timeout) =>
        var i := FirstEmpty(s.futexWaiters, 0);
        var entry := FutexWaiter(address, c, FutexDeadline(s.ticks, timeout));
        FutexStateKeeps(s, i, entry);
        FutexWaitIs(s, address, actual, expected, timeout);
        ScheduleSpaces(FutexState(s, i, entry), c);
    }
  }

  lemma ExitSpaces(s: State, status: U64)
    requires Inv(s) && Allowed(s, DoExit(status))
    ensures SpacesKept(s, ExitCurrent(s, status))
  {
    hide Base, Between, ScheduleFrom, Reparent, WakeAll;
    assert Shape(s) by { ShapeOf(s); }
    var c := s.current.value;
    ExitKeeps(s, status);
    ReparentKeepsMains(s.processes, c);
    WakeAllSpaces(Ended(s, c, status, false, Reparent(s.processes, c)), JoinList(s.threads[c]));
    ScheduleSpaces(ExitedState(s, c, status), c);
  }

  lemma TerminateSpaces(s: State, process: nat)
    requires Shape(s)
    ensures SpacesKept(s, TerminateProcess(s, process).0)
  {
    hide WakeAll;
    var child := ChildOfCurrent(s, process);
    if child.Some? && child.value < |s.threads| && s.threads[child.value].state != Exited {
      var task := s.threads[child.value];
      var ended := task.(state := Exited, exitStatus := TERMINATED_STATUS);
      WakeAllSpaces(s.(threads := s.threads[child.value := ended]), JoinList(task));
    }
  }

  lemma JoinSpaces(s: State, target: nat)
    requires Inv(s) && Allowed(s, DoJoin(target))
    ensures SpacesKept(s, Join(s, target).0)
  {
    hide Base, Between, ScheduleFrom;
    assert Shape(s) by { ShapeOf(s); }
    var c := s.current.value;
    if target < |s.threads| && target != c && s.threads[target].state != Exited {
      BlockingJoinKeeps(s, target, Joining(target));
      ScheduleSpaces(Listed(s, target, Joining(target)), c);
    }
  }

  /** Collecting a child clears its record and nothing else. */
  lemma CollectSpaces(s: State, step: Step)
    requires Inv(s) && Allowed(s, step)
    requires step.DoTryWait? || step.DoWait? || step.DoReapAny? || step.DoResume?
    ensures SpacesKept(s, Next(s, step))
    ensures CollectedBy(s, step).Some? ==> Next(s, step).activeSpace == s.activeSpace
  {
    hide Base, ScheduleFrom, JoinTail, Collect, TryJoin, Next, CollectedBy;
    assert Shape(s) by { ShapeOf(s); }
    if CollectedBy(s, step).Some? {
      var (q, status) := CollectedBy(s, step).value;
      CollectedWasZombie(s, step, q, status);
      assert IdsOk(s.processes) by { IdsOf(s); }
      FindLive(s.processes, q);
      CollectUpdates(s, step, q, status);
      CollectLeavesSpace(s, step, q, status);
    } else {
      UncollectedRecords(s, step);
      UncollectedSpace(s, step);
    }
  }

  lemma CollectLeavesSpace(s: State, step: Step, q: nat, status: U64)
    requires Inv(s) && Allowed(s, step) && CollectedBy(s, step) == Some((q, status))
    ensures Next(s, step).activeSpace == s.activeSpace
  {
    hide Base, ScheduleFrom;
    assert Shape(s) by { ShapeOf(s); }
    if !step.DoResume? {
      CollectedByChild(s, step, q, status);
    }
  }

  lemma UncollectedSpace(s: State, step: Step)
    requires Inv(s) && Allowed(s, step) && CollectedBy(s, step) == None
    requires step.DoTryWait? || step.DoWait? || step.DoReapAny? || step.DoResume?
    ensures Next(s, step).current == Some(IDLE) ==> Next(s, step).activeSpace == s.activeSpace
  {
    hide Base, ScheduleFrom, Collect, Between;
    assert Shape(s) by { ShapeOf(s); }
    if step.DoWait? {
      var child := ChildOfCurrent(s, step.process);
      if child.Some? {
        ChildInRange(s, step.process);
        if s.threads[child.value].state != Exited {
          var call := Collecting(child.value, step.process);
          CollectingCallOk(s, step.process, child.value);
          BlockingJoinKeeps(s, child.value, call);
          ScheduleSpaces(Listed(s, child.value, call), s.current.value);
        }
      }
    }
  }

  // ------------------------------------------------------------- scheduler and paging

  /** The scheduler's address spaces are roots of the page tables, and the active one is in
      CR3.  Frame 0, which an empty record names, is not in circulation. */
  ghost predicate Joined(s: State, y: PagingRuns.System) {
    && Inv(s) && PagingRuns.Consistent(y) && s.activeSpace == y.active
    && (forall p: nat | Live(s.processes, p) :: s.processes[p - 1].addressSpace in y.l.roots)
    && 0 !in y.s.frames.vacant + y.s.frames.taken
  }

  /** The address space a step destroys. */
  function Destroyed(s: State, step: Step): Option<nat>
    requires Shape(s)
  {
    match CollectedBy(s, step)
    case Some((process, _)) => SpaceCollected(s, process)
    case None => None
  }

  /** What a step may do to the spaces of a joined state. */
  lemma StepInRoots(s: State, y: PagingRuns.System, step: Step)
    requires Joined(s, y) && Allowed(s, step) && !step.DoSpawn?
    ensures Shape(s)
    ensures Destroyed(s, step).Some? ==>
              && Destroyed(s, step).value in y.l.roots && Destroyed(s, step).value != y.active
              && Next(s, step).activeSpace == s.activeSpace
    ensures Next(s, step).activeSpace == s.activeSpace || Next(s, step).activeSpace in y.l.roots
    ensures forall p: nat | Live(Next(s, step).processes, p) ::
              && Next(s, step).processes[p - 1].addressSpace in y.l.roots
              && Some(Next(s, step).processes[p - 1].addressSpace) != Destroyed(s, step)
  {
    hide Inv, Allowed, Next, CollectedBy, SpaceCollected, PagingRuns.Consistent;
    assert Shape(s) by { InvShape(s); }
    StepSpaces(s, step);
    StepKeeps(s, step);
    if CollectedBy(s, step).Some? {
      var (q, status) := CollectedBy(s, step).value;
      CollectedWasZombie(s, step, q, status);
      CollectingSpace(s, step);
      forall p: nat | Live(Next(s, step).processes, p)
        ensures Next(s, step).processes[p - 1].addressSpace != s.processes[q - 1].addressSpace
      {
        RecordsAreDistinct(s, p, q);
      }
    }
    OwnOrIdle(Next(s, step));
  }

  lemma CollectingSpace(s: State, step: Step)
    requires Inv(s) && Shape(s) && Allowed(s, step) && CollectedBy(s, step).Some?
    ensures Next(s, step).activeSpace == s.activeSpace
  {
    hide Inv, Shape, Allowed, Next;
    CollectSpaces(s, step);
  }

  /** The active space is that of a live process, unless idle runs. */
  lemma OwnOrIdle(s: State)
    requires Inv(s)
    ensures s.current.Some?
    ensures s.current == Some(IDLE) || exists p: nat :: Live(s.processes, p) && s.processes[p - 1].addressSpace == s.activeSpace
  {
    hide Inv;
    ActiveSpaceIsOwn(s, []);
    if s.current.value != IDLE {
      assert Live(s.processes, s.threads[s.current.value].process.value);
    }
  }

  /** The paging calls a step makes: the address space of a collected process is destroyed, and
      the one of a dispatched user thread entered. */
  ghost function PagingCalls(s: State, y: PagingRuns.System, step: Step): seq<PagingRuns.Call>
    requires Joined(s, y) && Allowed(s, step) && !step.DoSpawn?
  {
    StepInRoots(s, y, step);
    (if Destroyed(s, step).Some? then [PagingRuns.Destroy(Destroyed(s, step).value)] else [])
    + (if Next(s, step).activeSpace != s.activeSpace then [PagingRuns.Switch(Next(s, step).activeSpace)] else [])
  }

  /** Every allowed step of the scheduler makes only permitted paging calls, and leaves scheduler
      and page tables in agreement. */
  lemma StepIsPermitted(s: State, y: PagingRuns.System, step: Step)
    requires Joined(s, y) && Allowed(s, step) && !step.DoSpawn?
    ensures PagingRuns.PermittedRun(y, PagingCalls(s, y, step))
    ensures Joined(Next(s, step), PagingRuns.Run(y, PagingCalls(s, y, step)))
  {
    hide Inv, Allowed, Next, Destroyed, PagingRuns.Consistent;
    StepInRoots(s, y, step);
    StepKeeps(s, step);
    var calls := PagingCalls(s, y, step);
    if calls != [] {
      assert calls[1..] == [];
      OneCall(y, calls[0]);
      PagingRuns.CallKept(y, calls[0]);
    }
  }

  /** A step that clears a process's record destroys that process's address space, and nothing
      else ends one: after the step the roots are those before without the spaces of processes
      that are gone. */
  lemma SpacesFollowRecords(s: State, y: PagingRuns.System, step: Step, root: PageWords.Frame)
    requires Joined(s, y) && Allowed(s, step) && !step.DoSpawn?
    requires PagingRuns.PermittedRun(y, PagingCalls(s, y, step))
    ensures root in PagingRuns.Run(y, PagingCalls(s, y, step)).l.roots <==>
            root in y.l.roots
            && !exists p: nat :: Live(s.processes, p) && !Live(Next(s, step).processes, p) && s.processes[p - 1].addressSpace == root
  {
    hide Inv, Allowed, Next, CollectedBy, SpaceCollected, PagingRuns.Consistent;
    InvShape(s);
    StepInRoots(s, y, step);
    var calls := PagingCalls(s, y, step);
    if calls != [] {
      assert calls[1..] == [];
      OneCall(y, calls[0]);
    }
    forall p: nat | Live(s.processes, p) && !Live(Next(s, step).processes, p)
      ensures CollectedBy(s, step).Some? && CollectedBy(s, step).value.0 == p
    {
      if !(CollectedBy(s, step).Some? && CollectedBy(s, step).value.0 == p) {
        RecordsStay(s, step, p);
      }
    }
    if CollectedBy(s, step).Some? {
      var (q, status) := CollectedBy(s, step).value;
      CollectedWasZombie(s, step, q, status);
    }
  }

  lemma OneCall(y: PagingRuns.System, call: PagingRuns.Call)
    requires PagingRuns.Consistent(y) && PagingRuns.Permitted(y, call)
    ensures PagingRuns.PermittedRun(y, [call])
    ensures PagingRuns.Run(y, [call]) == PagingRuns.Do(y, call)
  {
    hide PagingRuns.Consistent, PagingRuns.Permitted, PagingRuns.Do;
    PagingRuns.CallKept(y, call);
    assert [call][1..] == [];
  }

  // ---------------------------------------------------------------------- spawning

  /** Calls that only fill address spaces. */
  predicate FillsSpaces(call: PagingRuns.Call) {
    !call.Create? && !call.Destroy? && !call.Switch?
  }

  lemma FillingKeepsRoots(y: PagingRuns.System, call: PagingRuns.Call)
    requires PagingRuns.Consistent(y) && PagingRuns.Permitted(y, call) && FillsSpaces(call)
    ensures var z := PagingRuns.Do(y, call);
            PagingRuns.Consistent(z) && z.l == y.l && z.active == y.active
            && z.s.frames.vacant + z.s.frames.taken == y.s.frames.vacant + y.s.frames.taken
  {
    PagingRuns.CallKept(y, call);
    hide PagingRuns.Consistent, PagingRuns.Permitted;
  }

  lemma {:induction false} LoadsKeepRoots(y: PagingRuns.System, loads: seq<PagingRuns.Call>)
    requires PagingRuns.Consistent(y) && PagingRuns.PermittedRun(y, loads)
    requires forall i | 0 <= i < |loads| :: FillsSpaces(loads[i])
    ensures var z := PagingRuns.Run(y, loads);
            z.l == y.l && z.active == y.active
            && z.s.frames.vacant + z.s.frames.taken == y.s.frames.vacant + y.s.frames.taken
    decreases |loads|
  {
    hide PagingRuns.Consistent, PagingRuns.Permitted, PagingRuns.Do, FillsSpaces;
    if loads != [] {
      FillingKeepsRoots(y, loads[0]);
      LoadsKeepRoots(PagingRuns.Do(y, loads[0]), loads[1..]);
    }
  }

  /** A new address space is nobody's. */
  lemma NewSpaceIsFresh(s: State, y: PagingRuns.System)
    requires Joined(s, y) && y.s.frames.vacant != {}
    ensures PagingRuns.Permitted(y, PagingRuns.Create)
    ensures var z := PagingRuns.Do(y, PagingRuns.Create);
            var space := FrameSets.Lowest(y.s.frames.vacant);
            && PagingRuns.Consistent(z) && space in z.l.roots && y.l.roots <= z.l.roots && z.active == y.active
            && z.s.frames.vacant + z.s.frames.taken == y.s.frames.vacant + y.s.frames.taken
            && forall i | 0 <= i < |s.processes| :: s.processes[i].addressSpace != space
  {
    hide PlacesOk, CallsOk, QueueOk, RunOk, AddressSpaces.CreateSpace, PageTree.Trees;
    PagingRuns.CallKept(y, PagingRuns.Create);
    CreatedRoot(y);
    var space := FrameSets.Lowest(y.s.frames.vacant);
    forall i | 0 <= i < |s.processes| ensures s.processes[i].addressSpace != space {
      assert RecordOk(s, i);
      if s.processes[i].id != NO_THREAD {
        assert Live(s.processes, i + 1);
      }
    }
  }

  lemma CreatedRoot(y: PagingRuns.System)
    requires PagingRuns.Consistent(y) && y.s.frames.vacant != {}
    ensures var space := FrameSets.Lowest(y.s.frames.vacant);
            && space !in y.l.roots
            && PagingRuns.Do(y, PagingRuns.Create).l == SpaceLife.Grown(y.l, space)
            && PagingRuns.Do(y, PagingRuns.Create).active == y.active
  {
    hide PageTree.Trees, PageTree.NodesApart, PageTree.LeavesHeld, PageTree.Accounted;
    UserMemory.OwnedParts(y.s, y.l, y.loose);
    SpaceLife.CreateIsEmpty(y.s, y.l, y.active);
  }

  /** Spawning adds at most one record, with the new space. */
  lemma SpawnSpaces(s: State, space: nat, loaded: bool, stacks: bool)
    requires Inv(s)
    requires Shape(s)
    ensures var s2 := SpawnProcess(s, space, loaded, stacks).0;
            && s2.current == s.current && s2.activeSpace == s.activeSpace
            && forall p: nat | Live(s2.processes, p) ::
                 s2.processes[p - 1].addressSpace == space
                 || (Live(s.processes, p) && s2.processes[p - 1].addressSpace == s.processes[p - 1].addressSpace)
  {
    hide Inv, Shape, SpawnUser;
    IdsOf(s);
    HasRecords(s);
    var i := FreeRecord(s.processes, 1);
    if i < |s.processes| {
      var (s1, process) := CreateProcess(s, space);
      NewRecordFound(s, i, space);
      SpawnUserSpaces(s1, i + 1, stacks);
    }
  }

  lemma HasRecords(s: State)
    requires Shape(s)
    ensures 1 <= |s.processes|
  {
  }

  lemma NewRecordFound(s: State, i: nat, space: nat)
    requires Shape(s) && IdsOk(s.processes) && i == FreeRecord(s.processes, 1) < |s.processes|
    ensures Shape(CreateProcess(s, space).0)
    ensures FindRecord(CreateProcess(s, space).0.processes, i + 1) == i
  {
    FindLive(CreateProcess(s, space).0.processes, i + 1);
  }

  lemma SpawnUserSpaces(s: State, process: nat, stacks: bool)
    requires Shape(s)
    ensures var s2 := SpawnUser(s, process, stacks).0;
            s2.processes == s.processes && s2.current == s.current && s2.activeSpace == s.activeSpace
  {
  }

  // -------------------------------------------------------------------------- runs

  /** A system call of the scheduler, the whole of `spawn`, or other memory management. */
  datatype KernelStep =
    | SystemCall(step: Step)
    | Spawn(loads: seq<PagingRuns.Call>, loaded: bool, stacks: bool)
    | Memory(call: PagingRuns.Call)

  /** What callers must respect.  A spawn finds a clean slot; that its address space is fresh is
      not asked of anybody. */
  ghost predicate AllowedStep(s: State, y: PagingRuns.System, k: KernelStep)
    requires Joined(s, y)
  {
    InvShape(s);
    match k
    case SystemCall(step) => !step.DoSpawn? && Allowed(s, step)
    case Spawn(loads, _, _) =>
      && s.pending[s.current.value] == NoCall && s.current.value != IDLE && CleanSpawn(s)
      && (forall i | 0 <= i < |loads| :: FillsSpaces(loads[i]))
      && (y.s.frames.vacant != {} ==>
            (NewSpaceIsFresh(s, y); PagingRuns.PermittedRun(PagingRuns.Do(y, PagingRuns.Create), loads)))
    case Memory(call) => FillsSpaces(call) && PagingRuns.Permitted(y, call)
  }

  ghost function KernelNext(s: State, y: PagingRuns.System, k: KernelStep): (State, PagingRuns.System)
    requires Joined(s, y) && AllowedStep(s, y, k)
  {
    InvShape(s);
    match k
    case SystemCall(step) =>
      StepIsPermitted(s, y, step);
      (Next(s, step), PagingRuns.Run(y, PagingCalls(s, y, step)))
    case Spawn(loads, loaded, stacks) =>
      if y.s.frames.vacant == {} then (s, y)
      else
        NewSpaceIsFresh(s, y);
        (Next(s, DoSpawn(FrameSets.Lowest(y.s.frames.vacant), loaded, stacks)),
         PagingRuns.Run(PagingRuns.Do(y, PagingRuns.Create), loads))
    case Memory(call) => (s, PagingRuns.Do(y, call))
  }

  lemma SpawnKeepsJoined(s: State, y: PagingRuns.System, loads: seq<PagingRuns.Call>, loaded: bool, stacks: bool)
    requires Joined(s, y) && AllowedStep(s, y, Spawn(loads, loaded, stacks)) && y.s.frames.vacant != {}
    ensures Allowed(s, DoSpawn(FrameSets.Lowest(y.s.frames.vacant), loaded, stacks))
    ensures var (s2, y2) := KernelNext(s, y, Spawn(loads, loaded, stacks)); Joined(s2, y2)
  {
    hide Inv, Shape, Clean, CleanSpawn, SpawnProcess, PagingRuns.Consistent, PagingRuns.Do, PagingRuns.PermittedRun, PagingRuns.Run;
    InvShape(s);
    NewSpaceIsFresh(s, y);
    var space := FrameSets.Lowest(y.s.frames.vacant);
    LoadsKeepRoots(PagingRuns.Do(y, PagingRuns.Create), loads);
    StepKeeps(s, DoSpawn(space, loaded, stacks));
    SpawnSpaces(s, space, loaded, stacks);
  }

  lemma KernelStepKeeps(s: State, y: PagingRuns.System, k: KernelStep)
    requires Joined(s, y) && AllowedStep(s, y, k)
    ensures var (s2, y2) := KernelNext(s, y, k); Joined(s2, y2)
  {
    hide Inv, Shape, CleanSpawn, Allowed, Next, PagingRuns.Consistent, PagingRuns.Do, PagingRuns.PermittedRun, PagingRuns.Run,
         PagingRuns.Permitted;
    match k
    case SystemCall(step) =>
      StepIsPermitted(s, y, step);
    case Spawn(loads, loaded, stacks) =>
      if y.s.frames.vacant != {} {
        SpawnKeepsJoined(s, y, loads, loaded, stacks);
      }
    case Memory(call) =>
      FillingKeepsRoots(y, call);
  }

  ghost predicate AllowedKernelRun(s: State, y: PagingRuns.System, steps: seq<KernelStep>)
    requires Joined(s, y)
    decreases |steps|
  {
    steps == [] ||
    (&& AllowedStep(s, y, steps[0])
     && (KernelStepKeeps(s, y, steps[0]);
         var (s2, y2) := KernelNext(s, y, steps[0]);
         AllowedKernelRun(s2, y2, steps[1..])))
  }

  /** Scheduler and page tables agree in every state of every allowed run. */
  ghost function KernelRun(s: State, y: PagingRuns.System, steps: seq<KernelStep>): (r: (State, PagingRuns.System))
    requires Joined(s, y) && AllowedKernelRun(s, y, steps)
    ensures Joined(r.0, r.1)
    decreases |steps|
  {
    if steps == [] then (s, y)
    else
      KernelStepKeeps(s, y, steps[0]);
      var (s2, y2) := KernelNext(s, y, steps[0]);
      KernelRun(s2, y2, steps[1..])
  }

  /** The kernel at its first dispatch, in the address space made for PID 1. */
  lemma BootIsJoined(n: nat, tables: nat, y: PagingRuns.System)
    requires 2 <= n < NO_THREAD && PagingRuns.Consistent(y) && y.active in y.l.roots
    requires 0 !in y.s.frames.vacant + y.s.frames.taken
    ensures Joined(Boot(n, tables, y.active), y)
  {
    hide Inv, Boot, PagingRuns.Consistent;
    BootInv(n, tables, y.active);
    BootIs(n, tables, y.active);
  }

  // --------------------------------------------------------------------- isolation

  /** In every reachable state the pages of different processes are in different frames, none
      of them free, and a running user thread has its own process's root in CR3. */
  lemma ProcessesAreIsolated(s: State, y: PagingRuns.System, steps: seq<KernelStep>, p: nat, q: nat, a: U64, b: U64)
    requires Joined(s, y) && AllowedKernelRun(s, y, steps) && p != q && a < USER_END && b < USER_END
    ensures var (f, z) := KernelRun(s, y, steps);
            Live(f.processes, p) && Live(f.processes, q) ==>
              var (root1, root2) := (f.processes[p - 1].addressSpace, f.processes[q - 1].addressSpace);
              && root1 in z.l.roots && root2 in z.l.roots && root1 != root2
              && var (page1, page2) := (UserMemory.At(z.s.memory, root1, a), UserMemory.At(z.s.memory, root2, b));
                 page1.Some? && page2.Some? ==>
                   && PageWords.FrameOf(page1.value.entry) != PageWords.FrameOf(page2.value.entry)
                   && PageWords.FrameOf(page1.value.entry) !in z.s.frames.vacant
    ensures var (f, z) := KernelRun(s, y, steps);
            && f.current.Some? && f.current.value < |f.threads|
            && (f.current.value != IDLE ==>
                  && f.threads[f.current.value].process.Some?
                  && Live(f.processes, f.threads[f.current.value].process.value)
                  && z.active == f.processes[f.threads[f.current.value].process.value - 1].addressSpace)
  {
    hide KernelRun, AllowedKernelRun, PagingRuns.Consistent, UserMemory.At, Inv;
    var (f, z) := KernelRun(s, y, steps);
    if Live(f.processes, p) && Live(f.processes, q) {
      RecordsAreDistinct(f, p, q);
      PagesApart(z, f.processes[p - 1].addressSpace, f.processes[q - 1].addressSpace, a, b);
    }
    ActiveSpaceIsOwn(f, []);
  }

  lemma PagesApart(z: PagingRuns.System, root1: PageWords.Frame, root2: PageWords.Frame, a: U64, b: U64)
    requires PagingRuns.Consistent(z) && root1 in z.l.roots && root2 in z.l.roots && root1 != root2
    requires a < USER_END && b < USER_END
    ensures var (page1, page2) := (UserMemory.At(z.s.memory, root1, a), UserMemory.At(z.s.memory, root2, b));
            page1.Some? && page2.Some? ==>
              && PageWords.FrameOf(page1.value.entry) != PageWords.FrameOf(page2.value.entry)
              && PageWords.FrameOf(page1.value.entry) !in z.s.frames.vacant
  {
    hide PageTree.Trees, AddressSpaces.Translate, PageWords.PathOf;
    PageWords.PathIsPage(a, a);
    PageWords.PathIsPage(b, b);
    UserMemory.OwnedParts(z.s, z.l, z.loose);
    UserMemory.OtherFrame(z.s, z.l, z.loose, root1, PageWords.PathOf(a), root2, PageWords.PathOf(b));
    UserMemory.PageFrameIsData(z.s, z.l, root1, PageWords.PathOf(a));
  }
}
