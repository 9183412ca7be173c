/** What the system calls of the scheduler answer their callers, and what they do to the threads
    and processes they name. */
module CallAnswers {
  import opened Wrappers
  import opened ThreadTable
  import opened Words
  import opened SchedulerInvariant
  import opened SchedulerSteps
  import opened ProcessSteps
  import opened LifecycleSteps
  import opened StepProgress
  import opened SchedulerRuns
  import opened ProcessRuns

  /** A process the caller can wait for, end and collect. */
  predicate ChildOf(s: State, p: nat) {
    && CurrentProcess(s).Some? && Live(s.processes, p)
    && s.processes[p - 1].parent == CurrentProcess(s) && s.processes[p - 1].mainThread.Some?
  }

  /** The lookup finds exactly the caller's children, and none of them is the caller. */
  lemma ChildLookup(s: State, p: nat)
    requires Inv(s)
    ensures ChildOfCurrent(s, p).Some? <==> ChildOf(s, p)
    ensures ChildOf(s, p) ==>
              && p != INIT_PROCESS && ChildOfCurrent(s, p) == s.processes[p - 1].mainThread
              && s.processes[p - 1].mainThread.value < |s.threads| && s.processes[p - 1].mainThread != s.current
  {
    hide PlacesOk, CallsOk, QueueOk, RunOk;
    RecordIds(s);
    if ChildOf(s, p) {
      assert s.processes[0..] == s.processes;
      ChildMainAt(s.processes, 0, p - 1, CurrentProcess(s).value);
      ChildFacts(s, p, s.processes[p - 1].mainThread.value);
    }
    if ChildOfCurrent(s, p).Some? {
      ChildFacts(s, p, ChildOfCurrent(s, p).value);
    }
  }

  /** A child that has not been collected yet is alive or a zombie. */
  lemma ChildIsZombieOrAlive(s: State, p: nat)
    requires Inv(s) && ChildOf(s, p)
    ensures s.processes[p - 1].mainThread.value < |s.threads|
    ensures Zombie(s, p) <==> s.threads[s.processes[p - 1].mainThread.value].state == Exited
  {
    hide Inv;
    ChildLookup(s, p);
  }

  // ------------------------------------------------------------- waiting for a child

  /** Collecting a zombie clears its record and no other. */
  lemma CollectedRecords(s: State, p: nat)
    requires Inv(s) && Live(s.processes, p)
    ensures Collect(s, p).processes == s.processes[p - 1 := EMPTY_PROCESS]
    ensures !Live(Collect(s, p).processes, p)
  {
    hide PlacesOk, CallsOk, QueueOk, RunOk;
    RecordIds(s);
    FindLive(s.processes, p);
  }

  lemma StaysBlocked(s1: State, c: nat)
    requires Between(s1, c) && s1.threads[c].state == Blocked
    ensures var r := ScheduleFrom(s1, c);
            && |r.threads| == |s1.threads| && r.threads[c].state == Blocked
            && r.pending == s1.pending && r.processes == s1.processes
  {
    hide PlacesOk, CallsOk, ProcessesOk, QueueOk, ScheduleFrom;
    var k, chosen := ScheduleChoice(s1, c);
  }

  /** `wait_process` answers at once that there is no such child, or a zombie's own status,
      collecting it; for a living child it suspends the caller. */
  lemma WaitAnswers(s: State, p: nat)
    requires Inv(s) && Allowed(s, DoWait(p))
    ensures Shape(s)
    ensures var (r, reply) := WaitProcess(s, p);
            && (reply == Returned(None) <==> !ChildOf(s, p))
            && (!ChildOf(s, p) ==> r == s)
            && (ChildOf(s, p) && Zombie(s, p) ==>
                  && reply == Returned(Some(ZombieStatus(s, p)))
                  && r.processes == s.processes[p - 1 := EMPTY_PROCESS] && !Live(r.processes, p))
            && (ChildOf(s, p) && !Zombie(s, p) ==>
                  && reply == Suspended && s.current.value < |r.threads| == |r.pending|
                  && r.threads[s.current.value].state == Blocked
                  && r.pending[s.current.value] == Collecting(s.processes[p - 1].mainThread.value, p)
                  && r.processes == s.processes)
  {
    hide Base, Between, ScheduleFrom, Collect;
    InvShape(s);
    ChildLookup(s, p);
    if ChildOf(s, p) {
      var main := s.processes[p - 1].mainThread.value;
      ChildIsZombieOrAlive(s, p);
      if Zombie(s, p) {
        CollectKeeps(s, p, main);
        CollectedRecords(s, p);
        assert Collect(StatusRead(s, main), p).processes == Collect(s, p).processes by { CollectProcesses(s, main, p); }
        assert WaitProcess(s, p) == (Collect(StatusRead(s, main), p), Returned(Some(s.threads[main].exitStatus)));
      } else {
        CollectingCallOk(s, p, main);
        BlockingJoinKeeps(s, main, Collecting(main, p));
        StaysBlocked(Listed(s, main, Collecting(main, p)), s.current.value);
      }
    }
  }

  lemma CollectProcesses(s: State, main: nat, p: nat)
    requires main < |s.threads|
    ensures Collect(StatusRead(s, main), p).processes == Collect(s, p).processes
  {
  }

  /** `try_wait_process` answers exactly for a zombie child, with its status, and collects it. */
  lemma TryWaitAnswers(s: State, p: nat)
    requires Inv(s)
    ensures Shape(s)
    ensures var (r, status) := TryWaitProcess(s, p);
            && (status.Some? <==> ChildOf(s, p) && Zombie(s, p))
            && (status.None? ==> r == s)
            && (status.Some? ==>
                  && status.value == ZombieStatus(s, p)
                  && r.processes == s.processes[p - 1 := EMPTY_PROCESS] && !Live(r.processes, p))
  {
    hide Base, Collect;
    InvShape(s);
    ChildLookup(s, p);
    if ChildOf(s, p) {
      var main := s.processes[p - 1].mainThread.value;
      ChildIsZombieOrAlive(s, p);
      CollectedRecords(s, p);
      CollectProcesses(s, main, p);
    }
  }

  /** An ended, uncollected child of the caller. */
  predicate ZombieChild(s: State, p: nat) {
    Zombie(s, p) && CurrentProcess(s).Some? && s.processes[p - 1].parent == CurrentProcess(s)
  }

  /** `reap_any_child` answers exactly when some child of the caller has ended, with the number
      and the status of the first, and collects it. */
  lemma ReapAnyAnswers(s: State)
    requires Inv(s)
    ensures Shape(s)
    ensures ReapAnyChild(s).1.None? <==> forall q: nat :: !ZombieChild(s, q)
    ensures ReapAnyChild(s).1.None? ==> ReapAnyChild(s).0 == s
    ensures forall q: nat | ZombieChild(s, q) && forall r: nat | r < q :: !ZombieChild(s, r) ::
              && ReapAnyChild(s).1 == Some((q, ZombieStatus(s, q)))
              && ReapAnyChild(s).0.processes == s.processes[q - 1 := EMPTY_PROCESS]
              && !Live(ReapAnyChild(s).0.processes, q)
  {
    hide Base, Collect, TryJoin;
    InvShape(s);
    if CurrentProcess(s).Some? {
      var parent := CurrentProcess(s).value;
      var i := FirstExitedChild(s, parent, 0);
      forall q: nat | ZombieChild(s, q) ensures i <= q - 1 {
        ZombieIsExitedChild(s, q);
      }
      if i < |s.processes| {
        FirstIsReaped(s, i);
        hide ZombieChild, ReapAnyChild, FirstExitedChild, ZombieStatus, Live;
        assert forall q: nat | ZombieChild(s, q) && forall r: nat | r < q :: !ZombieChild(s, r) :: q == i + 1;
      }
    }
  }

  lemma FirstIsReaped(s: State, i: nat)
    requires Inv(s) && Shape(s) && CurrentProcess(s).Some?
    requires i == FirstExitedChild(s, CurrentProcess(s).value, 0) < |s.processes|
    ensures ZombieChild(s, i + 1)
    ensures ReapAnyChild(s).1 == Some((i + 1, ZombieStatus(s, i + 1)))
    ensures ReapAnyChild(s).0.processes == s.processes[i := EMPTY_PROCESS] && !Live(ReapAnyChild(s).0.processes, i + 1)
  {
    hide Base, Collect, TryJoin, FirstExitedChild;
    ExitedChildIs(s, i);
    ExitedChildIsZombie(s, i);
    var main := s.processes[i].mainThread.value;
    ChildLookup(s, i + 1);
    ReadByTry(s, main);
    CollectedRecords(s, i + 1);
    CollectProcesses(s, main, i + 1);
  }

  lemma ZombieIsExitedChild(s: State, q: nat)
    requires Shape(s) && ZombieChild(s, q)
    ensures 1 <= q <= |s.processes| && ExitedChild(s, s.processes[q - 1], CurrentProcess(s).value)
  {
  }

  lemma ExitedChildIsZombie(s: State, i: nat)
    requires Inv(s) && CurrentProcess(s).Some? && i < |s.processes|
    requires ExitedChild(s, s.processes[i], CurrentProcess(s).value) && s.processes[i].id == i + 1
    ensures ZombieChild(s, i + 1)
  {
    hide PlacesOk, CallsOk, QueueOk, RunOk;
    assert RecordOk(s, 0);
  }

  lemma ReadByTry(s: State, main: nat)
    requires Shape(s) && s.current.Some? && s.current.value != main && main < |s.threads| && s.threads[main].state == Exited
    ensures TryJoin(s, main) == (StatusRead(s, main), Some(s.threads[main].exitStatus))
  {
  }

  // ------------------------------------------------------- a wait over a whole run

  /** Nobody else ends the wait of `w`: none of the steps is its return from it. */
  ghost predicate NoReturnOf(s: State, steps: seq<Step>, w: nat)
    requires Inv(s) && AllowedRun(s, steps)
    decreases |steps|
  {
    steps == [] ||
    (&& !(steps[0].DoResume? && s.current == Some(w))
     && (StepKeeps(s, steps[0]); NoReturnOf(Next(s, steps[0]), steps[1..], w)))
  }

  lemma CollectorStays(s: State, step: Step, w: nat)
    requires Inv(s) && Allowed(s, step) && w < |s.pending| && s.pending[w].Collecting?
    requires !(step.DoResume? && s.current == Some(w))
    ensures w < |Next(s, step).pending| && Next(s, step).pending[w] == s.pending[w]
  {
    hide PlacesOk, QueueOk, Next, Switches, Allowed, Ending, Born, PlacesProgress, QueueProgress, ScheduleFrom;
    var s1 := StepProgresses(s, step);
    assert CallOk(s, w);
    assert Born(s, step) != Some(w);
    if Switches(s, step) {
      var k, chosen := ScheduleChoice(s1, s.current.value);
    }
  }

  lemma CollectorWaits(s: State, w: nat)
    requires Inv(s) && w < |s.pending| && s.pending[w].Collecting?
    ensures WaitsFor(s, w, s.pending[w].thread)
  {
    hide PlacesOk, QueueOk;
    assert CallOk(s, w);
  }

  lemma {:induction false} CollectorWaitsThroughout(s: State, steps: seq<Step>, w: nat)
    requires Inv(s) && AllowedRun(s, steps) && NoReturnOf(s, steps, w)
    requires w < |s.pending| && s.pending[w].Collecting?
    ensures WaitsThroughout(s, steps, w, s.pending[w].thread)
    ensures w < |Run(s, steps).pending| && Run(s, steps).pending[w] == s.pending[w]
    decreases |steps|
  {
    hide Base, Next, Allowed, WaitsFor;
    CollectorWaits(s, w);
    if steps != [] {
      InvShape(s);
      StepKeeps(s, steps[0]);
      CollectorStays(s, steps[0], w);
      CollectorWaitsThroughout(Next(s, steps[0]), steps[1..], w);
    }
  }

  /** A wait for a living child, whatever runs meanwhile: when the caller returns from it, it is
      told the status with which the child ended, and the child's record is cleared, and no
      other. */
  lemma WaitCollectsChild(s: State, p: nat, steps: seq<Step>)
    requires Inv(s) && Allowed(s, DoWait(p)) && ChildOf(s, p) && !Zombie(s, p)
    requires Inv(Next(s, DoWait(p))) && AllowedRun(Next(s, DoWait(p)), steps)
    requires NoReturnOf(Next(s, DoWait(p)), steps, s.current.value)
    requires Run(Next(s, DoWait(p)), steps).current == s.current
    ensures var s1 := Next(s, DoWait(p));
            var f := Run(s1, steps);
            var status := EndStatus(s1, steps, s.processes[p - 1].mainThread.value);
            && Shape(f) && status.Some? && Resume(f).1 == status
            && Live(f.processes, p) && Resume(f).0.processes == f.processes[p - 1 := EMPTY_PROCESS]
            && !Live(Resume(f).0.processes, p)
  {
    hide Base, Run, AllowedRun, Resume, Allowed;
    InvShape(s);
    WaitAnswers(s, p);
    ChildLookup(s, p);
    ChildIsZombieOrAlive(s, p);
    var w, main := s.current.value, s.processes[p - 1].mainThread.value;
    var s1 := Next(s, DoWait(p));
    WaitedChildLives(s, p);
    CollectorWaitsThroughout(s1, steps, w);
    JoinReturnsExitStatus(s1, steps, w, main);
    var f := Run(s1, steps);
    InvShape(f);
    CollectingReturns(f, p);
  }

  lemma WaitedChildLives(s: State, p: nat)
    requires Inv(s) && Allowed(s, DoWait(p)) && ChildOf(s, p) && !Zombie(s, p)
    requires Inv(Next(s, DoWait(p)))
    ensures var main := s.processes[p - 1].mainThread.value;
            main < |Next(s, DoWait(p)).threads| && Next(s, DoWait(p)).threads[main].state != Exited
  {
    hide Base, Next, Switches, Ending, Born, Between, ScheduleFrom, QueueProgress, PlacesProgress, CallsProgress;
    InvShape(s);
    ChildLookup(s, p);
    ChildIsZombieOrAlive(s, p);
    var s1 := StepProgresses(s, DoWait(p));
    NobodyEnds(s, p);
    if Switches(s, DoWait(p)) {
      assert |s1.threads| == |s.threads|;
      DispatchKeepsEnded(s1, s.current.value);
    }
  }

  lemma NobodyEnds(s: State, p: nat)
    requires Shape(s)
    ensures Ending(s, DoWait(p)) == None && Born(s, DoWait(p)) == None
  {
  }

  lemma DispatchKeepsEnded(s1: State, c: nat)
    requires Between(s1, c)
    ensures Shape(s1) && c < |s1.threads| && |ScheduleFrom(s1, c).threads| == |s1.threads|
    ensures forall t | 0 <= t < |s1.threads| :: ScheduleFrom(s1, c).threads[t].state == Exited <==> s1.threads[t].state == Exited
  {
    hide PlacesOk, CallsOk, ProcessesOk, QueueOk, ScheduleFrom;
    var k, chosen := ScheduleChoice(s1, c);
  }

  lemma CollectingReturns(f: State, p: nat)
    requires Inv(f) && f.pending[f.current.value].Collecting? && f.pending[f.current.value].process == p
    ensures Shape(f)
    ensures Live(f.processes, p) && Resume(f).0.processes == f.processes[p - 1 := EMPTY_PROCESS]
    ensures !Live(Resume(f).0.processes, p)
  {
    hide PlacesOk, CallsOk, QueueOk, Registered, JoinTail, CallsEnded, ExitedUpdate;
    var s2, x := TailIsStatusRead(f);
    CallFacts(f, f.current.value);
    RecordIds(f);
    FindLive(f.processes, p);
  }

  // ------------------------------------------------------------- ending a child

  /** `terminate_process` answers true exactly for a child of the caller.  One that had not ended
      ends with the terminated status; nothing else happens to a zombie, or to anybody when
      there is no such child. */
  lemma TerminateAnswers(s: State, p: nat)
    requires Inv(s)
    ensures Shape(s)
    ensures var (r, found) := TerminateProcess(s, p);
            && (found <==> ChildOf(s, p))
            && (!ChildOf(s, p) || Zombie(s, p) ==> r == s)
            && (ChildOf(s, p) ==> Zombie(r, p) && r.processes == s.processes)
            && (ChildOf(s, p) && !Zombie(s, p) ==> ZombieStatus(r, p) == 0x8000_0000_0000_0000)
  {
    hide Base, WakeAll;
    InvShape(s);
    ChildLookup(s, p);
    if ChildOf(s, p) {
      ChildIsZombieOrAlive(s, p);
      var main := s.processes[p - 1].mainThread.value;
      if !Zombie(s, p) {
        var task := s.threads[main];
        var ended := s.(threads := s.threads[main := task.(state := Exited, exitStatus := TERMINATED_STATUS)]);
        WakeAllLeavesExited(ended, JoinList(task), main);
      }
    }
  }

  // ---------------------------------------------------------------- joining threads

  /** `join` refuses the caller itself and unknown threads, answers at once for an exited
      thread, and suspends the caller for any other. */
  lemma JoinAnswers(s: State, x: nat)
    requires Inv(s) && Allowed(s, DoJoin(x))
    ensures Shape(s)
    ensures var (r, reply) := Join(s, x);
            && (reply == Returned(None) <==> x >= |s.threads| || x == s.current.value)
            && (reply == Returned(None) ==> r == s)
            && (x < |s.threads| && s.threads[x].state == Exited ==> reply == Returned(Some(s.threads[x].exitStatus)))
            && (x < |s.threads| && x != s.current.value && s.threads[x].state != Exited ==>
                  && reply == Suspended && s.current.value < |r.threads| == |r.pending|
                  && r.threads[s.current.value].state == Blocked && r.pending[s.current.value] == Joining(x))
  {
    hide Base, Between, ScheduleFrom;
    InvShape(s);
    if x < |s.threads| && x != s.current.value && s.threads[x].state != Exited {
      BlockingJoinKeeps(s, x, Joining(x));
      StaysBlocked(Listed(s, x, Joining(x)), s.current.value);
    }
  }

  // ----------------------------------------------------------------- new threads

  /** Slot `t` was free, no earlier one was, and it now holds a ready thread of the process. */
  predicate FreshThread(s: State, r: State, t: nat, process: nat) {
    && 1 <= t < |s.threads| == |r.threads|
    && s.threads[t].state == Exited && s.threads[t].reapable
    && (forall u | 1 <= u < t :: !(s.threads[u].state == Exited && s.threads[u].reapable))
    && r.threads[t].state == Ready && r.threads[t].isUser && r.threads[t].process == Some(process)
    && !r.threads[t].reapable && r.threads[t].joinWaiterCount == 0
    && (forall u | 0 <= u < |s.threads| && u != t :: r.threads[u] == s.threads[u])
  }

  predicate NoFreeThread(s: State) {
    forall u | 1 <= u < |s.threads| :: !(s.threads[u].state == Exited && s.threads[u].reapable)
  }

  /** Creating a thread answers its number, or fails and changes nothing, exactly when the checks
      or the stacks fail or no slot is free. */
  lemma ThreadCreateAnswers(s: State, checked: bool, stacks: bool)
    requires Inv(s)
    ensures Shape(s)
    ensures var (r, thread) := ThreadCreate(s, checked, stacks);
            && (thread.None? <==> !checked || !stacks || NoFreeThread(s))
            && (thread.None? ==> r == s)
            && (thread.Some? ==> FreshThread(s, r, thread.value, INIT_PROCESS) && r.processes == s.processes)
  {
    hide PlacesOk, CallsOk, QueueOk, ProcessesOk, RunOk;
    InvShape(s);
    SpaceOfInit(s);
    FreeThreadIsFirst(s);
  }

  lemma FreeThreadIsFirst(s: State)
    requires Shape(s)
    ensures FreeThread(s.threads, 1) == |s.threads| <==> NoFreeThread(s)
  {
    var t := FreeThread(s.threads, 1);
    if t < |s.threads| {
      assert Reusable(s.threads[t]);
    } else {
      assert forall u | 1 <= u < |s.threads| :: !Reusable(s.threads[u]);
    }
  }

  predicate NoFreeRecord(s: State) {
    forall p | 2 <= p <= |s.processes| :: Live(s.processes, p)
  }

  /** `spawn` answers the number of the new process, whose record names the address space, the
      caller's process as parent, and a fresh thread as main thread.  It fails exactly when no
      record or no slot is free, the image does not load or the stacks cannot be mapped. */
  lemma SpawnAnswers(s: State, space: nat, loaded: bool, stacks: bool)
    requires Inv(s)
    ensures Shape(s)
    ensures var (r, process) := SpawnProcess(s, space, loaded, stacks);
            && (process.None? <==> NoFreeRecord(s) || !loaded || !stacks || NoFreeThread(s))
            && (NoFreeRecord(s) ==> r == s)
            && (process.Some? ==>
                  var p := process.value;
                  && p >= 2 && !Live(s.processes, p) && Live(r.processes, p)
                  && (forall q | 2 <= q < p :: Live(s.processes, q))
                  && r.processes[p - 1].addressSpace == space && r.processes[p - 1].parent == CurrentProcess(s)
                  && r.processes[p - 1].mainThread.Some?
                  && FreshThread(s, r, r.processes[p - 1].mainThread.value, p)
                  && |r.processes| == |s.processes|
                  && forall i | 0 <= i < |s.processes| && i != p - 1 :: r.processes[i] == s.processes[i])
  {
    hide Base, Shape, FreeRecord, FreeThread, SpawnUser, FreshThread, NoFreeRecord, NoFreeThread;
    InvShape(s);
    IdsOf(s);
    FreeThreadIsFirst(s);
    FreeRecordIsFirst(s);
    SpawnedAnswer(s, space, loaded, stacks);
    var i, t := FreeRecord(s.processes, 1), FreeThread(s.threads, 1);
    if i < |s.processes| && loaded && stacks && t < |s.threads| {
      NewRecordIsThere(s, space, i);
      SpawnIsPlaced(s, space, i, t);
      PlacedIsFresh(s, t, i + 1, s.processes[i := Process(i + 1, space, CurrentProcess(s), Some(t))]);
    }
  }

  lemma SpawnedAnswer(s: State, space: nat, loaded: bool, stacks: bool)
    requires Inv(s) && Shape(s)
    ensures var i, process := FreeRecord(s.processes, 1), SpawnProcess(s, space, loaded, stacks).1;
            && (process.None? <==> i == |s.processes| || !loaded || !stacks || FreeThread(s.threads, 1) == |s.threads|)
            && (process.Some? ==> process.value == i + 1 && i >= 1 && s.processes[i].id == NO_THREAD)
            && (forall q | 2 <= q <= i :: Live(s.processes, q))
    ensures FreeRecord(s.processes, 1) == |s.processes| ==> SpawnProcess(s, space, loaded, stacks).0 == s
  {
    hide Base, FreeThread, ThreadShape;
    IdsOf(s);
    var i := FreeRecord(s.processes, 1);
    forall q | 2 <= q <= i ensures Live(s.processes, q) {
      assert s.processes[q - 1].id != NO_THREAD;
    }
    if i < |s.processes| {
      NewRecordIsThere(s, space, i);
    }
  }

  lemma PlacedIsFresh(s: State, t: nat, p: nat, processes: seq<Process>)
    requires Shape(s) && t == FreeThread(s.threads, 1) < |s.threads|
    ensures FreshThread(s, Enqueue(Placed(s, t, p, processes), t), t, p)
    ensures Enqueue(Placed(s, t, p, processes), t).processes == processes
  {
    assert forall u | 1 <= u < t :: !Reusable(s.threads[u]);
  }

  lemma FreeRecordIsFirst(s: State)
    requires Shape(s) && IdsOk(s.processes)
    ensures FreeRecord(s.processes, 1) == |s.processes| <==> NoFreeRecord(s)
  {
    var i := FreeRecord(s.processes, 1);
    if i < |s.processes| {
      assert !Live(s.processes, i + 1);
    } else {
      forall p | 2 <= p <= |s.processes| ensures Live(s.processes, p) {
        assert s.processes[p - 1].id != NO_THREAD;
      }
    }
  }

  lemma NewRecordIsThere(s: State, space: nat, i: nat)
    requires Shape(s) && IdsOk(s.processes) && i == FreeRecord(s.processes, 1) < |s.processes|
    ensures var s1 := CreateProcess(s, space).0;
            Shape(s1) && AddressSpaceOf(s1.processes, i + 1) == Some(space)
  {
    var record := CreateProcess(s, space).0.processes;
    AddressSpaceOfLive(record, 0, i + 1);
    assert record[0..] == record;
  }

  /** When the image does not load or no thread can be made, the new record stays behind, with
      its address space and without a main thread. */
  lemma FailedSpawnLeavesRecord(s: State, space: nat, loaded: bool, stacks: bool)
    requires Inv(s) && !NoFreeRecord(s)
    requires !loaded || !stacks || NoFreeThread(s)
    ensures Shape(s)
    ensures var (r, process) := SpawnProcess(s, space, loaded, stacks);
            exists p: nat ::
              && 2 <= p <= |s.processes| && !Live(s.processes, p)
              && r == s.(processes := s.processes[p - 1 := Process(p, space, CurrentProcess(s), None)])
  {
    hide PlacesOk, CallsOk, QueueOk, ProcessesOk, RunOk, ThreadShape;
    InvShape(s);
    IdsOf(s);
    FreeThreadIsFirst(s);
    FreeRecordIsFirst(s);
    var i := FreeRecord(s.processes, 1);
    NewRecordIsThere(s, space, i);
    assert SpawnProcess(s, space, loaded, stacks).0 ==
           s.(processes := s.processes[(i + 1) - 1 := Process(i + 1, space, CurrentProcess(s), None)]);
  }

  // ---------------------------------------------------------------- timed waiting

  /** `sleep` of no time answers 0 at once; any other answers the error and does nothing exactly
      when the table is full, and puts the caller to sleep otherwise. */
  lemma SleepAnswers(s: State, milliseconds: U64)
    requires Inv(s) && Allowed(s, DoSleep(milliseconds))
    ensures Shape(s)
    ensures var (r, code) := Sleep(s, milliseconds);
            var full := forall i | 0 <= i < |s.sleepers| :: s.sleepers[i].Some?;
            && code == (if milliseconds != 0 && full then TWO_64 - 1 else 0)
            && (milliseconds == 0 || full ==> r == s)
            && (milliseconds != 0 && !full ==>
                  s.current.value < |r.threads| && r.threads[s.current.value].state == Blocked)
  {
    hide Base, Between, ScheduleFrom, WrappingAdd, SleepTicks;
    InvShape(s);
    var i := FirstEmpty(s.sleepers, 0);
    if milliseconds != 0 && i < |s.sleepers| {
      var deadline := WrappingAdd(s.ticks, SleepTicks(milliseconds));
      SleepStateKeeps(s, i, deadline);
      SleepIs(s, milliseconds);
      StaysBlocked(SleepState(s, i, deadline), s.current.value);
    }
  }

  /** `futex_wait` answers the error for a bad address and for a full table, and 1 when the word
      has changed, doing nothing; otherwise it answers 0 after blocking the caller. */
  lemma FutexWaitAnswers(s: State, address: U64, actual: U64, expected: U64, timeout: U64)
    requires Inv(s) && Allowed(s, DoFutexWait(address, actual, expected, timeout))
    ensures Shape(s)
    ensures var (r, code) := FutexWait(s, address, actual, expected, timeout);
            var full := forall i | 0 <= i < |s.futexWaiters| :: s.futexWaiters[i].Some?;
            var valid := address % 4 == 0 && 0x4000_0000 <= address <= 0x8000_0000_0000 - 4;
            && code == (if !valid then TWO_64 - 1 else if actual != expected then 1 else if full then TWO_64 - 1 else 0)
            && (code != 0 ==> r == s)
            && (code == 0 ==> s.current.value < |r.threads| && r.threads[s.current.value].state == Blocked)
  {
    hide Base, Between, ScheduleFrom, FutexDeadline;
    InvShape(s);
    var i := FirstEmpty(s.futexWaiters, 0);
    if ValidUserWord(address) && actual == expected && i < |s.futexWaiters| {
      var entry := FutexWaiter(address, s.current.value, FutexDeadline(s.ticks, timeout));
      FutexStateKeeps(s, i, entry);
      FutexWaitIs(s, address, actual, expected, timeout);
      StaysBlocked(FutexState(s, i, entry), s.current.value);
    }
  }

  /** `futex_wake` answers the error for a bad address and does nothing. */
  lemma FutexWakeRefuses(s: State, address: U64, count: U64)
    requires !(address % 4 == 0 && 0x4000_0000 <= address <= 0x8000_0000_0000 - 4)
    ensures FutexWake(s, address, count) == (s, TWO_64 - 1)
  {
  }
}
