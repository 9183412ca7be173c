/** Runs that show why callers must respect the spawn discipline. */
module SchedulerWitnesses {
  import opened Wrappers
  import opened ThreadTable
  import opened SchedulerInvariant
  import opened SchedulerRuns
  import opened SchedulerSteps
  import opened LifecycleSteps

  const ROOM := 3

  function Spawned(): State {
    var b := InitialState(ROOM, ROOM, 100);
    b.(threads := [EmptyThread(ROOM).(state := Ready),
                   NewUserThread(ROOM, 1).(state := Running),
                   NewUserThread(ROOM, 2)],
       queue := [0, 2], current := Some(1),
       processes := [Process(1, 100, None, None), Process(2, 200, Some(1), Some(2)), EMPTY_PROCESS])
  }

  /** The machine of three threads as it comes up. */
  function Booted(): State {
    var b := InitialState(ROOM, ROOM, 100);
    b.(threads := [EmptyThread(ROOM).(state := Ready), NewUserThread(ROOM, 1).(state := Running), EmptyThread(ROOM)],
       queue := [0], current := Some(1))
  }

  lemma BootedIs()
    ensures Boot(ROOM, ROOM, 100) == Booted()
  {
    BootIs(ROOM, ROOM, 100);
    assert Boot(ROOM, ROOM, 100).threads == Booted().threads;
  }

  lemma FirstSpawn()
    requires Shape(Booted())
    ensures CleanSpawn(Booted())
    ensures SpawnProcess(Booted(), 200, true, true).0 == Spawned()
  {
    var s := Booted();
    assert s.processes == [Process(1, 100, None, None), EMPTY_PROCESS, EMPTY_PROCESS];
    assert s.pending == [NoCall, NoCall, NoCall];
    assert FreeThread(s.threads, 1) == 2;
    assert FreeRecord(s.processes, 1) == 1;
    var (s1, process) := CreateProcess(s, 200);
    assert s1.processes == [Process(1, 100, None, None), Process(2, 200, Some(1), None), EMPTY_PROCESS];
    assert s1.processes[1..][0] == Process(2, 200, Some(1), None);
    assert AddressSpaceOf(s1.processes, 2) == Some(200);
    assert FindRecord(s1.processes, 2) == 1;
    assert s.queue + [2] == [0, 2];
    var (s2, thread) := SpawnUser(s1, 2, true);
    assert s2.threads == Spawned().threads;
    assert s2.pending == Spawned().pending;
  }

  lemma SpawnedIs()
    ensures Inv(Boot(ROOM, ROOM, 100))
    ensures Allowed(Boot(ROOM, ROOM, 100), DoSpawn(200, true, true))
    ensures Next(Boot(ROOM, ROOM, 100), DoSpawn(200, true, true)) == Spawned()
  {
    hide Base, Boot, CleanSpawn, SpawnProcess;
    BootInv(ROOM, ROOM, 100);
    BootedIs();
    assert Shape(Booted()) by { ShapeOf(Booted()); }
    FirstSpawn();
  }

  lemma TerminatedIs()
    requires Inv(Spawned())
    ensures Allowed(Spawned(), DoTerminate(2))
    ensures Next(Spawned(), DoTerminate(2)) ==
            Spawned().(threads := Spawned().threads[2 := NewUserThread(ROOM, 2).(state := Exited, exitStatus := TERMINATED_STATUS)])
  {
    hide Base;
    var s := Spawned();
    assert Shape(s) by { ShapeOf(s); }
    assert s.pending[1] == NoCall;
    assert s.processes[1..][0] == s.processes[1];
    assert ChildMain(s.processes, 2, 1) == Some(2);
    assert JoinList(s.threads[2]) == [];
  }

  lemma CollectedIs(s: State)
    requires Inv(s)
    requires s == Spawned().(threads := Spawned().threads[2 := NewUserThread(ROOM, 2).(state := Exited, exitStatus := TERMINATED_STATUS)])
    ensures Allowed(s, DoTryWait(2))
    ensures Next(s, DoTryWait(2)) ==
            s.(threads := s.threads[2 := s.threads[2].(reapable := true)],
               processes := s.processes[1 := EMPTY_PROCESS])
  {
    assert s.pending[0] == NoCall && s.pending[1] == NoCall && s.pending[2] == NoCall;
    assert s.processes[1..][0] == s.processes[1];
    assert ChildMain(s.processes, 2, 1) == Some(2);
    assert FindRecord(s.processes, 2) == 1;
  }

  function Recycled(): State {
    Spawned().(
      threads := Spawned().threads[2 := NewUserThread(ROOM, 2).(state := Exited, exitStatus := TERMINATED_STATUS, reapable := true)],
      processes := Spawned().processes[1 := EMPTY_PROCESS])
  }

  lemma RecycledSpawn()
    requires Shape(Recycled())
    ensures !CleanSpawn(Recycled())
    ensures ThreadCreate(Recycled(), true, true).0.queue == [0, 2, 2]
    ensures !Inv(ThreadCreate(Recycled(), true, true).0)
  {
    hide PlacesOk, CallsOk, ProcessesOk, RunOk;
    var s := Recycled();
    assert FreeThread(s.threads, 1) == 2;
    assert s.queue[1] == 2;
    assert AddressSpaceOf(s.processes, 1) == Some(100);
    var s' := ThreadCreate(s, true, true).0;
    assert s'.queue == [0, 2] + [2];
    assert s'.queue[1] == s'.queue[2];
    assert !Distinct(s'.queue);
  }

  /** A supervisor that terminates a ready service, collects it and creates a thread queues the
      reused slot twice, so the new thread is dispatched once more than it was made ready. */
  lemma TerminatedSlotIsQueuedTwice()
    ensures Inv(Boot(ROOM, ROOM, 100))
    ensures AllowedRun(Boot(ROOM, ROOM, 100), [DoSpawn(200, true, true), DoTerminate(2), DoTryWait(2)])
    ensures var s := Run(Boot(ROOM, ROOM, 100), [DoSpawn(200, true, true), DoTerminate(2), DoTryWait(2)]);
            && !CleanSpawn(s)
            && ThreadCreate(s, true, true).0.queue == [0, 2, 2]
            && !Inv(ThreadCreate(s, true, true).0)
  {
    hide Base, Boot, Allowed, CleanSpawn, ThreadCreate, AllowedRun, Run, TerminateProcess, TryWaitProcess, SpawnProcess;
    var b := Boot(ROOM, ROOM, 100);
    SpawnedIs();
    assert Shape(b) by { ShapeOf(b); }
    StepKeeps(b, DoSpawn(200, true, true));
    var s1 := Spawned();
    TerminatedIs();
    assert Shape(s1) by { ShapeOf(s1); }
    StepKeeps(s1, DoTerminate(2));
    var s2 := Next(s1, DoTerminate(2));
    CollectedIs(s2);
    assert Shape(s2) by { ShapeOf(s2); }
    StepKeeps(s2, DoTryWait(2));
    var s3 := Next(s2, DoTryWait(2));
    assert Shape(s3) by { ShapeOf(s3); }
    assert s3 == Recycled();
    RunOfThree(b, DoSpawn(200, true, true), DoTerminate(2), DoTryWait(2));
    RecycledSpawn();
  }

  lemma RunOfThree(s: State, a: Step, b: Step, c: Step)
    requires Inv(s) && Allowed(s, a)
    requires Inv(Next(s, a)) && Allowed(Next(s, a), b)
    requires Inv(Next(Next(s, a), b)) && Allowed(Next(Next(s, a), b), c)
    requires Inv(Next(Next(Next(s, a), b), c))
    ensures AllowedRun(s, [a, b, c])
    ensures Run(s, [a, b, c]) == Next(Next(Next(s, a), b), c)
  {
    hide Inv, Allowed, Next, Shape;
    InvShape(s);
    InvShape(Next(s, a));
    InvShape(Next(Next(s, a), b));
    RunAppend(s, [], a);
    assert [] + [a] == [a];
    RunAppend(s, [a], b);
    assert [a] + [b] == [a, b];
    RunAppend(s, [a, b], c);
    assert [a, b] + [c] == [a, b, c];
  }
}
