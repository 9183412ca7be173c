/** Runs from boot that keep every rule of `Allowed` but the last step's, for each rule that the
    kernel does not enforce. */
module ReachableWitnesses {
  import opened Wrappers
  import opened ThreadTable
  import opened Words
  import opened SchedulerInvariant
  import opened SchedulerRuns
  import SchedulerShape
  import opened SchedulerSteps
  import opened LifecycleSteps
  import opened ProcessRuns

  /** States of a machine of four threads in which nobody sleeps or waits on a futex. */
  function Machine(threads: seq<Thread>, queue: seq<nat>, current: nat, pending: seq<Pending>,
      processes: seq<Process>, space: nat): State
  {
    State(threads, queue, Some(current), pending, processes, space, seq(4, _ => None), seq(4, _ => None), 0)
  }

  function User(process: nat, state: RunState): Thread {
    NewUserThread(4, process).(state := state)
  }

  function Idle(state: RunState): Thread {
    EmptyThread(4).(state := state)
  }

  function Quiet(): seq<Pending> {
    [NoCall, NoCall, NoCall, NoCall]
  }

  const INIT := Process(1, 100, None, None)

  /** The run is lengthened by a step; spawns find clean slots as nothing was terminated. */
  lemma Extend(s: State, steps: seq<Step>, step: Step, s1: State, s2: State)
    requires Inv(s) && AllowedRun(s, steps) && Run(s, steps) == s1 && NoLeftovers(s1)
    requires Leads(s1, step, s2) && !step.DoTerminate?
    ensures Inv(s2) && NoLeftovers(s2) && Shape(s2)
    ensures AllowedRun(s, steps + [step]) && Run(s, steps + [step]) == s2
  {
    hide Base, Next, Allowed, AllowedAnySlot, CleanSpawn, NoLeftovers, Shape, AllowedRun, Run;
    NoLeftoversMeansClean(s1);
    AllowedWhenClean(s1, step);
    StepKeeps(s1, step);
    NoLeftoversStep(s1, step);
    RunAppend(s, steps, step);
    InvShape(s2);
  }

  /** A step that may be taken, and where it leads. */
  ghost predicate Leads(s: State, step: Step, s2: State) {
    Shape(s) && s.current.Some? && AllowedAnySlot(s, step) && Next(s, step) == s2
  }

  function Booted(): State {
    Machine([Idle(Ready), User(1, Running), Idle(Exited), Idle(Exited)], [0], 1, Quiet(),
            [INIT, EMPTY_PROCESS, EMPTY_PROCESS, EMPTY_PROCESS], 100)
  }

  lemma BootedIs()
    ensures Boot(4, 4, 100) == Booted()
    ensures Inv(Booted()) && NoLeftovers(Booted())
    ensures AllowedRun(Booted(), []) && Run(Booted(), []) == Booted()
  {
    hide Inv, NoLeftovers, Boot, Booted;
    BootInv(4, 4, 100);
    BootHasNoLeftovers(4, 4, 100);
    BootedState();
  }

  lemma BootedState()
    ensures Boot(4, 4, 100) == Booted()
  {
    hide Boot;
    BootIs(4, 4, 100);
    assert Boot(4, 4, 100).threads == Booted().threads;
    assert Boot(4, 4, 100).processes == Booted().processes;
    assert Boot(4, 4, 100).pending == Booted().pending;
  }

  // ------------------------------------------- a process ended before its own child

  function FirstChild(state: RunState, init: RunState, idle: RunState, queue: seq<nat>, current: nat, space: nat): State {
    Machine([Idle(idle), User(1, init), User(2, state), Idle(Exited)], queue, current, Quiet(),
            [INIT, Process(2, 200, Some(1), Some(2)), EMPTY_PROCESS, EMPTY_PROCESS], space)
  }

  function SecondChild(state: RunState, init: RunState, queue: seq<nat>, current: nat, space: nat): State {
    Machine([Idle(Running), User(1, init), User(2, state), User(3, Ready)], queue, current, Quiet(),
            [INIT, Process(2, 200, Some(1), Some(2)), Process(3, 300, Some(2), Some(3)), EMPTY_PROCESS], space)
  }

  lemma InitSpawns()
    requires Shape(Booted())
    ensures Leads(Booted(), DoSpawn(200, true, true), FirstChild(Ready, Running, Ready, [0, 2], 1, 100))
  {
    hide Allowed;
    var s := Booted();
    assert FreeThread(s.threads, 1) == 2;
    assert FreeRecord(s.processes, 1) == 1;
    var (s1, process) := CreateProcess(s, 200);
    assert s1.processes == [INIT, Process(2, 200, Some(1), None), EMPTY_PROCESS, EMPTY_PROCESS];
    assert s1.processes[1..][0] == s1.processes[1];
    assert AddressSpaceOf(s1.processes, 2) == Some(200);
    assert FindRecord(s1.processes, 2) == 1;
    assert s.queue + [2] == [0, 2];
    var (s2, thread) := SpawnUser(s1, 2, true);
    assert s2.threads == FirstChild(Ready, Running, Ready, [0, 2], 1, 100).threads;
    assert s2.pending == Quiet();
  }

  lemma ChildSpawns()
    requires Shape(FirstChild(Running, Ready, Running, [1], 2, 200))
    ensures Leads(FirstChild(Running, Ready, Running, [1], 2, 200), DoSpawn(300, true, true), SecondChild(Running, Ready, [1, 3], 2, 200))
  {
    hide Allowed;
    var s := FirstChild(Running, Ready, Running, [1], 2, 200);
    assert FreeThread(s.threads, 1) == 3;
    assert FreeRecord(s.processes, 1) == 2;
    var (s1, process) := CreateProcess(s, 300);
    assert s1.processes == [INIT, Process(2, 200, Some(1), Some(2)), Process(3, 300, Some(2), None), EMPTY_PROCESS];
    assert s1.processes[1..][1..] == s1.processes[2..];
    assert AddressSpaceOf(s1.processes[2..], 3) == Some(300);
    assert AddressSpaceOf(s1.processes[1..], 3) == Some(300);
    assert AddressSpaceOf(s1.processes, 3) == Some(300);
    assert FindRecord(s1.processes, 3) == 2;
    assert s.queue + [3] == [1, 3];
    var (s2, thread) := SpawnUser(s1, 3, true);
    assert s2.threads == SecondChild(Running, Ready, [1, 3], 2, 200).threads;
    assert s2.pending == Quiet();
  }

  lemma InitYields()
    requires Shape(FirstChild(Ready, Running, Ready, [0, 2], 1, 100))
    ensures Leads(FirstChild(Ready, Running, Ready, [0, 2], 1, 100), DoYield, FirstChild(Ready, Ready, Running, [2, 1], 0, 100))
  {
    var s := FirstChild(Ready, Running, Ready, [0, 2], 1, 100);
    assert MakeReady(s, 1).queue == [0, 2, 1];
    assert [0, 2, 1][1..] == [2, 1];
    assert Yield(s).threads == FirstChild(Ready, Ready, Running, [2, 1], 0, 100).threads;
  }

  lemma IdleYields()
    requires Shape(FirstChild(Ready, Ready, Running, [2, 1], 0, 100))
    ensures Leads(FirstChild(Ready, Ready, Running, [2, 1], 0, 100), DoYield, FirstChild(Running, Ready, Running, [1], 2, 200))
  {
    var s := FirstChild(Ready, Ready, Running, [2, 1], 0, 100);
    assert [2, 1][1..] == [1];
    assert s.processes[1..][0] == s.processes[1];
    assert AddressSpaceOf(s.processes, 2) == Some(200);
    assert Yield(s).threads == FirstChild(Running, Ready, Running, [1], 2, 200).threads;
  }

  lemma ChildYields()
    requires Shape(SecondChild(Running, Ready, [1, 3], 2, 200))
    ensures Leads(SecondChild(Running, Ready, [1, 3], 2, 200), DoYield, SecondChild(Ready, Running, [3, 2], 1, 100))
  {
    var s := SecondChild(Running, Ready, [1, 3], 2, 200);
    assert MakeReady(s, 2).queue == [1, 3, 2];
    assert [1, 3, 2][1..] == [3, 2];
    assert AddressSpaceOf(s.processes, 1) == Some(100);
    assert Yield(s).threads == SecondChild(Ready, Running, [3, 2], 1, 100).threads;
  }

  /** PID 1 starts PID 2, and lets it run for the first time. */
  lemma ChildRuns()
    ensures var s := FirstChild(Running, Ready, Running, [1], 2, 200);
            var steps := [DoSpawn(200, true, true), DoYield, DoYield];
            && Inv(Booted()) && AllowedRun(Booted(), steps) && Run(Booted(), steps) == s
            && NoLeftovers(s) && Shape(s)
  {
    hide Inv, Boot, NoLeftovers, AllowedRun, Run, Leads, Shape, Booted, FirstChild;
    var s0, s1 := Booted(), FirstChild(Ready, Running, Ready, [0, 2], 1, 100);
    var s2, s3 := FirstChild(Ready, Ready, Running, [2, 1], 0, 100), FirstChild(Running, Ready, Running, [1], 2, 200);
    BootedIs();
    InvShape(s0);
    InitSpawns();
    Extend(s0, [], DoSpawn(200, true, true), s0, s1);
    InitYields();
    Extend(s0, [] + [DoSpawn(200, true, true)], DoYield, s1, s2);
    IdleYields();
    Extend(s0, [] + [DoSpawn(200, true, true)] + [DoYield], DoYield, s2, s3);
    assert [] + [DoSpawn(200, true, true)] + [DoYield] + [DoYield] == [DoSpawn(200, true, true), DoYield, DoYield];
  }

  /** PID 1 starts PID 2, PID 2 starts PID 3, and PID 1 terminates PID 2: PID 3 keeps a parent
      that has ended, as termination reparents nobody. */
  lemma TerminatedParentIsReached()
    ensures var s := SecondChild(Ready, Running, [3, 2], 1, 100);
            var steps := [DoSpawn(200, true, true), DoYield, DoYield, DoSpawn(300, true, true), DoYield];
            && Inv(Boot(4, 4, 100)) && AllowedRun(Boot(4, 4, 100), steps) && Run(Boot(4, 4, 100), steps) == s
            && s.current == Some(1) && !Childless(s.processes, 2)
            && !Inv(TerminateProcess(s, 2).0)
  {
    hide Base, Boot, NoLeftovers, AllowedRun, Run, Leads, Shape, TerminateProcess;
    var s3 := FirstChild(Running, Ready, Running, [1], 2, 200);
    var s4, s5 := SecondChild(Running, Ready, [1, 3], 2, 200), SecondChild(Ready, Running, [3, 2], 1, 100);
    var steps := [DoSpawn(200, true, true), DoYield, DoYield];
    BootedIs();
    ChildRuns();
    ChildSpawns();
    Extend(Booted(), steps, DoSpawn(300, true, true), s3, s4);
    ChildYields();
    Extend(Booted(), steps + [DoSpawn(300, true, true)], DoYield, s4, s5);
    assert steps + [DoSpawn(300, true, true)] + [DoYield]
        == [DoSpawn(200, true, true), DoYield, DoYield, DoSpawn(300, true, true), DoYield];
    assert s5.processes[1..][0] == s5.processes[1];
    assert ChildOfCurrent(s5, 2) == Some(2);
    assert s5.processes[2].parent == Some(2);
    TerminateKeepsExactlyWhenChildless(s5, 2, 2);
  }

  // ------------------------------------------------------------ a main thread joined

  /** PID 2 has ended with status 7 and has not been collected. */
  function ChildEnded(): State {
    var s := FirstChild(Exited, Running, Running, [], 1, 100);
    s.(threads := s.threads[2 := User(2, Exited).(exitStatus := 7)])
  }

  lemma ChildExits()
    requires Shape(FirstChild(Running, Ready, Running, [1], 2, 200))
    ensures Leads(FirstChild(Running, Ready, Running, [1], 2, 200), DoExit(7), ChildEnded())
  {
    var s := FirstChild(Running, Ready, Running, [1], 2, 200);
    assert JoinList(s.threads[2]) == [];
    assert s.processes[1..][0] == s.processes[1];
    assert ProcessOfMain(s.processes, 2) == Some(2);
    assert Reparent(s.processes, 2) == s.processes;
    assert AddressSpaceOf(s.processes, 1) == Some(100);
    assert [1][1..] == [];
    assert ExitCurrent(s, 7).threads == ChildEnded().threads;
  }

  /** After a join on the main thread of the ended PID 2 its slot is free for a thread of PID 1. */
  lemma JoinedSlotIsReused()
    requires Shape(ChildEnded())
    ensures var (s, reply) := Join(ChildEnded(), 2);
            && reply == Returned(Some(7)) && Shape(s)
            && var (r, thread) := ThreadCreate(s, true, true);
               && thread == Some(2) && |r.threads| == 4 && r.threads[2].process == Some(INIT_PROCESS)
               && Shape(r) && TryWaitProcess(ChildEnded(), 2).1 == Some(7) && TryWaitProcess(r, 2).1 == None
  {
    hide Shape;
    var e := ChildEnded();
    var s := Join(e, 2).0;
    SchedulerShape.NextShape(e, DoJoin(2));
    assert s == e.(threads := e.threads[2 := e.threads[2].(reapable := true)]) by { assert Shape(e); }
    assert FreeThread(s.threads, 1) == 2;
    assert AddressSpaceOf(s.processes, 1) == Some(100);
    var r := ThreadCreate(s, true, true).0;
    SchedulerShape.NextShape(s, DoThreadCreate(true, true));
    assert r.threads[2] == NewUserThread(4, 1);
    assert r.processes == e.processes;
    assert e.processes[1..][0] == e.processes[1];
    assert ChildOfCurrent(r, 2) == Some(2) && ChildOfCurrent(e, 2) == Some(2);
  }

  /** PID 2 ends with status 7, and PID 1 joins its main thread instead of collecting it.  The
      next thread of PID 1 gets the slot, and PID 2 counts as running again: its status is lost. */
  lemma JoinedMainThreadIsReached()
    ensures var steps := [DoSpawn(200, true, true), DoYield, DoYield, DoExit(7)];
            && Inv(Boot(4, 4, 100)) && AllowedRun(Boot(4, 4, 100), steps) && Run(Boot(4, 4, 100), steps) == ChildEnded()
            && Shape(ChildEnded()) && !Inv(Join(ChildEnded(), 2).0)
            && Join(ChildEnded(), 2).1 == Returned(Some(7)) && TryWaitProcess(ChildEnded(), 2).1 == Some(7)
            && Shape(Join(ChildEnded(), 2).0)
            && var r := ThreadCreate(Join(ChildEnded(), 2).0, true, true).0;
               Shape(r) && TryWaitProcess(r, 2).1 == None
  {
    hide Base, Boot, NoLeftovers, AllowedRun, Run, Leads, Shape, Join, ThreadCreate, TryWaitProcess;
    var s3 := FirstChild(Running, Ready, Running, [1], 2, 200);
    var steps := [DoSpawn(200, true, true), DoYield, DoYield];
    BootedIs();
    ChildRuns();
    ChildExits();
    Extend(Booted(), steps, DoExit(7), s3, ChildEnded());
    assert steps + [DoExit(7)] == [DoSpawn(200, true, true), DoYield, DoYield, DoExit(7)];
    assert ChildEnded().processes[1].mainThread == Some(2);
    JoinKeepsExactlyWhenNobodysMain(ChildEnded(), 2);
    JoinedSlotIsReused();
  }

  // --------------------------------------------------- a child collected by two threads

  /** Threads 1 and 2 belong to PID 1; thread 3 is PID 2's. */
  function Family(threads: seq<Thread>, queue: seq<nat>, current: nat, pending: seq<Pending>, space: nat): State {
    Machine(threads, queue, current, pending,
            [INIT, Process(2, 200, Some(1), Some(3)), EMPTY_PROCESS, EMPTY_PROCESS], space)
  }

  function TwoThreads(): State {
    Machine([Idle(Ready), User(1, Running), User(1, Ready), Idle(Exited)], [0, 2], 1, Quiet(),
            [INIT, EMPTY_PROCESS, EMPTY_PROCESS, EMPTY_PROCESS], 100)
  }

  function Born(): State {
    Family([Idle(Ready), User(1, Running), User(1, Ready), User(2, Ready)], [0, 2, 3], 1, Quiet(), 100)
  }

  /** The child with thread 1 on its list. */
  function Awaited(state: RunState): Thread {
    User(2, state).(joinWaiters := EmptyThread(4).joinWaiters[0 := 1], joinWaiterCount := 1)
  }

  function Collector(): seq<Pending> {
    [NoCall, Collecting(3, 2), NoCall, NoCall]
  }

  function Waiting(): State {
    Family([Idle(Running), User(1, Blocked), User(1, Ready), Awaited(Ready)], [2, 3], 0, Collector(), 100)
  }

  function OtherRuns(): State {
    Family([Idle(Running), User(1, Blocked), User(1, Running), Awaited(Ready)], [3], 2, Collector(), 100)
  }

  function ChildOnly(): State {
    Family([Idle(Running), User(1, Blocked), User(1, Ready), Awaited(Running)], [2], 3, Collector(), 200)
  }

  function BothReady(): State {
    Family([Idle(Running), User(1, Ready), User(1, Running), Awaited(Exited).(exitStatus := 7)], [1], 2, Collector(), 100)
  }

  lemma SecondThread()
    requires Shape(Booted())
    ensures Leads(Booted(), DoThreadCreate(true, true), TwoThreads())
  {
    hide Allowed;
    var s := Booted();
    assert FreeThread(s.threads, 1) == 2;
    assert AddressSpaceOf(s.processes, 1) == Some(100);
    assert s.queue + [2] == [0, 2];
    assert ThreadCreate(s, true, true).0.threads == TwoThreads().threads;
    assert ThreadCreate(s, true, true).0.pending == Quiet();
  }

  lemma SpawnsThird()
    requires Shape(TwoThreads())
    ensures Leads(TwoThreads(), DoSpawn(200, true, true), Born())
  {
    hide Allowed;
    var s := TwoThreads();
    assert FreeThread(s.threads, 1) == 3;
    assert FreeRecord(s.processes, 1) == 1;
    var (s1, process) := CreateProcess(s, 200);
    assert s1.processes == [INIT, Process(2, 200, Some(1), None), EMPTY_PROCESS, EMPTY_PROCESS];
    assert s1.processes[1..][0] == s1.processes[1];
    assert AddressSpaceOf(s1.processes, 2) == Some(200);
    assert FindRecord(s1.processes, 2) == 1;
    assert s.queue + [3] == [0, 2, 3];
    var (s2, thread) := SpawnUser(s1, 2, true);
    assert s2.threads == Born().threads;
    assert s2.pending == Quiet();
  }

  lemma Waits()
    requires Shape(Born())
    ensures Leads(Born(), DoWait(2), Waiting())
  {
    var s := Born();
    assert s.processes[1..][0] == s.processes[1];
    assert ChildOfCurrent(s, 2) == Some(3);
    assert [0, 2, 3][1..] == [2, 3];
    assert WaitProcess(s, 2).0.threads == Waiting().threads;
    assert WaitProcess(s, 2).0.pending == Collector();
  }

  lemma OtherThreadRuns()
    requires Shape(Waiting())
    ensures Leads(Waiting(), DoYield, OtherRuns())
  {
    var s := Waiting();
    assert [2, 3][1..] == [3];
    assert AddressSpaceOf(s.processes, 1) == Some(100);
    assert Yield(s).threads == OtherRuns().threads;
  }

  lemma ChildIsAlone()
    requires Shape(OtherRuns())
    ensures Leads(OtherRuns(), DoYield, ChildOnly())
  {
    var s := OtherRuns();
    assert MakeReady(s, 2).queue == [3, 2];
    assert [3, 2][1..] == [2];
    assert s.processes[1..][0] == s.processes[1];
    assert AddressSpaceOf(s.processes, 2) == Some(200);
    assert Yield(s).threads == ChildOnly().threads;
  }

  lemma ChildEnds()
    requires Shape(ChildOnly())
    ensures Leads(ChildOnly(), DoExit(7), BothReady())
  {
    var s := ChildOnly();
    var ended := s.(threads := s.threads[3 := Awaited(Exited).(exitStatus := 7)]);
    assert JoinList(s.threads[3]) == [1];
    assert [1][1..] == [];
    assert Wake(ended, 1).0.queue == [2, 1];
    assert WakeAll(ended, [1]) == Wake(ended, 1).0;
    assert s.processes[1..][0] == s.processes[1];
    assert ProcessOfMain(s.processes, 3) == Some(2);
    assert Reparent(s.processes, 3) == s.processes;
    assert AddressSpaceOf(s.processes, 1) == Some(100);
    assert [2, 1][1..] == [1];
    assert ExitCurrent(s, 7).threads == BothReady().threads;
  }

  /** A thread of PID 1 waits for PID 2, PID 2 ends, and before the first is dispatched another
      thread of PID 1 polls PID 2 and collects it: the first is left with a record that is gone. */
  lemma CollectedTwiceIsReached()
    ensures var steps := [DoThreadCreate(true, true), DoSpawn(200, true, true), DoWait(2), DoYield, DoYield, DoExit(7)];
            && Inv(Boot(4, 4, 100)) && AllowedRun(Boot(4, 4, 100), steps) && Run(Boot(4, 4, 100), steps) == BothReady()
            && Shape(BothReady()) && !NoCollector(BothReady(), 2)
            && TryWaitProcess(BothReady(), 2).1 == Some(7)
            && !Inv(TryWaitProcess(BothReady(), 2).0)
  {
    hide Inv, Boot, NoLeftovers, AllowedRun, Run, Leads, Shape, Booted, TwoThreads, Born, Waiting, OtherRuns, ChildOnly, BothReady,
         NoCollector, TryWaitProcess;
    var s0, steps := Booted(), [DoThreadCreate(true, true), DoSpawn(200, true, true), DoWait(2), DoYield, DoYield, DoExit(7)];
    BootedIs();
    InvShape(s0);
    SecondThread();
    Extend(s0, [], steps[0], s0, TwoThreads());
    assert [] + [steps[0]] == steps[..1];
    SpawnsThird();
    Extend(s0, steps[..1], steps[1], TwoThreads(), Born());
    assert steps[..1] + [steps[1]] == steps[..2];
    Waits();
    Extend(s0, steps[..2], steps[2], Born(), Waiting());
    assert steps[..2] + [steps[2]] == steps[..3];
    OtherThreadRuns();
    Extend(s0, steps[..3], steps[3], Waiting(), OtherRuns());
    assert steps[..3] + [steps[3]] == steps[..4];
    ChildIsAlone();
    Extend(s0, steps[..4], steps[4], OtherRuns(), ChildOnly());
    assert steps[..4] + [steps[4]] == steps[..5];
    ChildEnds();
    Extend(s0, steps[..5], steps[5], ChildOnly(), BothReady());
    assert steps[..5] + [steps[5]] == steps;
    PolledAgain();
  }

  lemma PolledAgain()
    requires Inv(BothReady())
    ensures Shape(BothReady()) && !NoCollector(BothReady(), 2)
    ensures TryWaitProcess(BothReady(), 2).1 == Some(7)
    ensures !Inv(TryWaitProcess(BothReady(), 2).0)
  {
    hide Base;
    var s := BothReady();
    assert Shape(s) by { ShapeOf(s); }
    assert s.processes[1..][0] == s.processes[1];
    assert ChildOfCurrent(s, 2) == Some(3);
    assert s.pending[1] == Collecting(3, 2);
    CollectKeepsExactlyWhenUnwaited(s, 2);
  }

  // --------------------------------------------------------- a joiner that is terminated

  function Turn(init: RunState, other: RunState, child: RunState, queue: seq<nat>, current: nat, space: nat): State {
    Family([Idle(Running), User(1, init), User(1, other), User(2, child)], queue, current, Quiet(), space)
  }

  /** Thread 2 with PID 2's thread 3 on its list. */
  function Listing(state: RunState): Thread {
    User(1, state).(joinWaiters := EmptyThread(4).joinWaiters[0 := 3], joinWaiterCount := 1)
  }

  function Joiner(): seq<Pending> {
    [NoCall, NoCall, NoCall, Joining(2)]
  }

  function ChildJoins(): State {
    Family([Idle(Running), User(1, Running), Listing(Ready), User(2, Blocked)], [2], 1, Joiner(), 100)
  }

  function Stopped(): Thread {
    User(2, Exited).(exitStatus := TERMINATED_STATUS)
  }

  function JoinerStopped(): State {
    Family([Idle(Running), User(1, Running), Listing(Ready), Stopped()], [2], 1, Joiner(), 100)
  }

  function JoinedRuns(): State {
    Family([Idle(Running), User(1, Ready), Listing(Running), Stopped()], [1], 2, Joiner(), 100)
  }

  function JoinedEnds(): State {
    Family([Idle(Running), User(1, Running), Listing(Exited).(exitStatus := 7), Stopped()], [], 1, Joiner(), 100)
  }

  lemma BornYields()
    requires Shape(Born())
    ensures Leads(Born(), DoYield, Turn(Ready, Ready, Ready, [2, 3, 1], 0, 100))
  {
    var s := Born();
    assert MakeReady(s, 1).queue == [0, 2, 3, 1];
    assert [0, 2, 3, 1][1..] == [2, 3, 1];
    assert Yield(s).threads == Turn(Ready, Ready, Ready, [2, 3, 1], 0, 100).threads;
  }

  lemma OtherTurn()
    requires Shape(Turn(Ready, Ready, Ready, [2, 3, 1], 0, 100))
    ensures Leads(Turn(Ready, Ready, Ready, [2, 3, 1], 0, 100), DoYield, Turn(Ready, Running, Ready, [3, 1], 2, 100))
  {
    var s := Turn(Ready, Ready, Ready, [2, 3, 1], 0, 100);
    assert [2, 3, 1][1..] == [3, 1];
    assert AddressSpaceOf(s.processes, 1) == Some(100);
    assert Yield(s).threads == Turn(Ready, Running, Ready, [3, 1], 2, 100).threads;
  }

  lemma ChildTurn()
    requires Shape(Turn(Ready, Running, Ready, [3, 1], 2, 100))
    ensures Leads(Turn(Ready, Running, Ready, [3, 1], 2, 100), DoYield, Turn(Ready, Ready, Running, [1, 2], 3, 200))
  {
    var s := Turn(Ready, Running, Ready, [3, 1], 2, 100);
    assert MakeReady(s, 2).queue == [3, 1, 2];
    assert [3, 1, 2][1..] == [1, 2];
    assert s.processes[1..][0] == s.processes[1];
    assert AddressSpaceOf(s.processes, 2) == Some(200);
    assert Yield(s).threads == Turn(Ready, Ready, Running, [1, 2], 3, 200).threads;
  }

  lemma ChildJoinsOther()
    requires Shape(Turn(Ready, Ready, Running, [1, 2], 3, 200))
    ensures Leads(Turn(Ready, Ready, Running, [1, 2], 3, 200), DoJoin(2), ChildJoins())
  {
    var s := Turn(Ready, Ready, Running, [1, 2], 3, 200);
    assert [1, 2][1..] == [2];
    assert AddressSpaceOf(s.processes, 1) == Some(100);
    assert Join(s, 2).0.threads == ChildJoins().threads;
    assert Join(s, 2).0.pending == Joiner();
  }

  lemma JoinerIsStopped()
    requires Shape(ChildJoins())
    ensures Does(ChildJoins(), DoTerminate(2), JoinerStopped())
  {
    var s := ChildJoins();
    assert s.processes[1..][0] == s.processes[1];
    assert ChildOfCurrent(s, 2) == Some(3);
    assert JoinList(s.threads[3]) == [];
    assert Next(s, DoTerminate(2)).threads == JoinerStopped().threads;
  }

  lemma JoinedTurn()
    requires Shape(JoinerStopped())
    ensures Does(JoinerStopped(), DoYield, JoinedRuns())
  {
    var s := JoinerStopped();
    assert MakeReady(s, 1).queue == [2, 1];
    assert [2, 1][1..] == [1];
    assert AddressSpaceOf(s.processes, 1) == Some(100);
    assert Yield(s).threads == JoinedRuns().threads;
  }

  lemma JoinedExits()
    requires Shape(JoinedRuns())
    ensures Does(JoinedRuns(), DoExit(7), JoinedEnds())
  {
    var s := JoinedRuns();
    var ended := s.(threads := s.threads[2 := Listing(Exited).(exitStatus := 7)]);
    assert JoinList(s.threads[2]) == [3];
    assert [3][1..] == [];
    assert Wake(ended, 3).0 == ended;
    assert WakeAll(ended, [3]) == ended;
    assert s.processes[1..][0] == s.processes[1];
    ProcessOfMainNone(s.processes, 2);
    assert AddressSpaceOf(s.processes, 1) == Some(100);
    assert [1][1..] == [];
    assert ExitCurrent(s, 7).threads == JoinedEnds().threads;
  }

  /** A thread of PID 2 joins a thread of PID 1 and is terminated while it waits.  The joined thread
      ends and PID 1 reads its status, but its slot stays taken: the terminated joiner is still
      counted, and nothing will ever take it off. */
  lemma TerminatedJoinerKeepsSlot()
    ensures var steps := [DoThreadCreate(true, true), DoSpawn(200, true, true), DoYield, DoYield, DoYield, DoJoin(2),
                          DoTerminate(2), DoYield, DoExit(7)];
            Inv(Boot(4, 4, 100)) && AllowedRun(Boot(4, 4, 100), steps) && Run(Boot(4, 4, 100), steps) == JoinedEnds()
    ensures ToldButTaken(JoinedEnds(), 2, 7)
  {
    hide ToldButTaken, Inv, Boot, AllowedRun, Run, Does, Allowed, Shape, Booted, ChildJoins, JoinerStopped, JoinedRuns, JoinedEnds, Join;
    var steps := [DoThreadCreate(true, true), DoSpawn(200, true, true), DoYield, DoYield, DoYield, DoJoin(2)];
    BootedIs();
    ChildJoinsRun();
    JoinerIsStopped();
    ThenDo(Booted(), steps, DoTerminate(2), ChildJoins(), JoinerStopped());
    JoinedTurn();
    ThenDo(Booted(), steps + [DoTerminate(2)], DoYield, JoinerStopped(), JoinedRuns());
    JoinedExits();
    ThenDo(Booted(), steps + [DoTerminate(2)] + [DoYield], DoExit(7), JoinedRuns(), JoinedEnds());
    assert steps + [DoTerminate(2)] + [DoYield] + [DoExit(7)]
        == [DoThreadCreate(true, true), DoSpawn(200, true, true), DoYield, DoYield, DoYield, DoJoin(2), DoTerminate(2), DoYield, DoExit(7)];
    StatusWithoutSlot();
  }

  lemma ChildJoinsRun()
    ensures var steps := [DoThreadCreate(true, true), DoSpawn(200, true, true), DoYield, DoYield, DoYield, DoJoin(2)];
            Inv(Booted()) && AllowedRun(Booted(), steps) && Run(Booted(), steps) == ChildJoins() && Shape(ChildJoins())
  {
    hide Inv, Boot, NoLeftovers, AllowedRun, Run, Leads, Shape, Booted, TwoThreads, Born, Turn, ChildJoins;
    var s0, steps := Booted(), [DoThreadCreate(true, true), DoSpawn(200, true, true), DoYield, DoYield, DoYield, DoJoin(2)];
    BootedIs();
    InvShape(s0);
    SecondThread();
    Extend(s0, [], steps[0], s0, TwoThreads());
    assert [] + [steps[0]] == steps[..1];
    SpawnsThird();
    Extend(s0, steps[..1], steps[1], TwoThreads(), Born());
    assert steps[..1] + [steps[1]] == steps[..2];
    BornYields();
    Extend(s0, steps[..2], steps[2], Born(), Turn(Ready, Ready, Ready, [2, 3, 1], 0, 100));
    assert steps[..2] + [steps[2]] == steps[..3];
    OtherTurn();
    Extend(s0, steps[..3], steps[3], Turn(Ready, Ready, Ready, [2, 3, 1], 0, 100), Turn(Ready, Running, Ready, [3, 1], 2, 100));
    assert steps[..3] + [steps[3]] == steps[..4];
    ChildTurn();
    Extend(s0, steps[..4], steps[4], Turn(Ready, Running, Ready, [3, 1], 2, 100), Turn(Ready, Ready, Running, [1, 2], 3, 200));
    assert steps[..4] + [steps[4]] == steps[..5];
    ChildJoinsOther();
    Extend(s0, steps[..5], steps[5], Turn(Ready, Ready, Running, [1, 2], 3, 200), ChildJoins());
    assert steps[..5] + [steps[5]] == steps;
  }

  ghost predicate Does(s: State, step: Step, s2: State) {
    Shape(s) && s.current.Some? && Allowed(s, step) && Next(s, step) == s2
  }

  lemma ThenDo(s: State, steps: seq<Step>, step: Step, s1: State, s2: State)
    requires Inv(s) && AllowedRun(s, steps) && Run(s, steps) == s1
    requires Does(s1, step, s2)
    ensures AllowedRun(s, steps + [step]) && Run(s, steps + [step]) == s2
    ensures Inv(s2) && Shape(s2)
  {
    hide Inv, AllowedRun, Run, Allowed, Next, Shape;
    RunAppend(s, steps, step);
    InvShape(s2);
  }

  /** A join on `x` tells its status, but leaves its slot taken, though no living thread is
      suspended in a join on it. */
  ghost predicate ToldButTaken(s: State, x: nat, status: U64) {
    && Shape(s) && s.current.Some? && Allowed(s, DoJoin(x))
    && var (r, reply) := Join(s, x);
       && reply == Returned(Some(status)) && x < |r.threads| == |r.pending|
       && r.threads[x].state == Exited && !r.threads[x].reapable
       && forall t | 0 <= t < |r.pending| && r.pending[t].On(x) :: r.threads[t].state == Exited
  }

  lemma StatusWithoutSlot()
    requires Shape(JoinedEnds())
    ensures ToldButTaken(JoinedEnds(), 2, 7)
  {
  }
}
