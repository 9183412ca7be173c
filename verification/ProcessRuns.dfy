/** Processes over whole runs: reuse of slots, the process tree, zombies, address spaces. */
module ProcessRuns {
  import opened Wrappers
  import opened ThreadTable
  import opened Words
  import opened SchedulerInvariant
  import SchedulerShape
  import opened SchedulerSteps
  import opened ProcessSteps
  import opened LifecycleSteps
  import opened StepProgress
  import opened SchedulerRuns

  // --------------------------------------------------- reuse of thread slots

  /** No exited thread is queued or registered anywhere. */
  ghost predicate NoLeftovers(s: State) {
    forall t | 0 <= t < |s.threads| && s.threads[t].state == Exited :: Clean(s, t)
  }

  lemma NoLeftoversStep(s: State, step: Step)
    requires Inv(s) && Allowed(s, step) && NoLeftovers(s)
    requires !step.DoTerminate?
    ensures NoLeftovers(Next(s, step))
  {
    hide CallsOk, ProcessesOk, Next, Switches, Allowed, Born, CallsProgress, ScheduleFrom, Registered;
    var s1 := StepProgresses(s, step);
    assert step.DoExit? || Ending(s, step) == None;
    forall t | 0 <= t < |s1.threads| && s1.threads[t].state == Exited ensures Clean(s1, t) {
      LeftoverIsOld(s, s1, step, t);
    }
    if Switches(s, step) {
      var k, chosen := ScheduleChoice(s1, s.current.value);
      RegisteredFrame(s1, Next(s, step));
    }
  }

  lemma LeftoverIsOld(s: State, s1: State, step: Step, t: nat)
    requires Inv(s) && NoLeftovers(s) && Progress(s, s1, step)
    requires Ending(s, step).Some? ==> s.current.Some? && Ending(s, step).value.0 == s.current.value
    requires t < |s1.threads| && s1.threads[t].state == Exited
    ensures Clean(s1, t)
  {
    hide CallsOk, ProcessesOk, Ending, Born, CallsProgress;
    if s.threads[t].state != Exited {
      assert s.current == Some(t);
      CurrentUnregistered(s, t);
    }
    ExitedEntryIsOld(s, s1, t);
  }

  lemma ExitedEntryIsOld(s: State, s1: State, t: nat)
    requires |s1.threads| == |s.threads| && QueueProgress(s, s1)
    requires t < |s.threads| && s1.threads[t].state == Exited
    ensures t in s1.queue ==> t in s.queue
  {
    if t in s1.queue {
      var i :| 0 <= i < |s1.queue| && s1.queue[i] == t;
      assert s.queue[i] == t;
    }
  }

  /** Without `terminate_process`, every slot a spawn can choose is clean by itself and every
      queue entry is ready. */
  lemma NoLeftoversMeansClean(s: State)
    requires Inv(s) && NoLeftovers(s)
    ensures CleanSpawn(s)
    ensures forall i | 0 <= i < |s.queue| :: s.queue[i] < |s.threads| && s.threads[s.queue[i]].state == Ready
  {
    hide PlacesOk, CallsOk, ProcessesOk, Registered;
    forall i | 0 <= i < |s.queue| ensures s.threads[s.queue[i]].state == Ready {
      assert s.queue[i] in s.queue;
      assert s.threads[s.queue[i]].state == Exited ==> Clean(s, s.queue[i]);
    }
  }

  /** What callers must respect, except that a spawn may choose any slot. */
  ghost predicate AllowedAnySlot(s: State, step: Step)
    requires Shape(s) && s.current.Some?
  {
    var c := s.current.value;
    match step
    case DoThreadCreate(_, _) => s.pending[c] == NoCall && c != IDLE
    case DoSpawn(space, _, _) =>
      s.pending[c] == NoCall && c != IDLE && forall i | 0 <= i < |s.processes| :: s.processes[i].addressSpace != space
    case _ => Allowed(s, step)
  }

  lemma AllowedWhenClean(s: State, step: Step)
    requires Shape(s) && s.current.Some? && AllowedAnySlot(s, step) && CleanSpawn(s)
    ensures Allowed(s, step)
  {
    hide CleanSpawn;
  }

  /** Runs about whose spawns nothing is assumed; nor is the invariant. */
  ghost predicate RunOfAnySlots(s: State, steps: seq<Step>)
    requires Shape(s)
    decreases |steps|
  {
    steps == [] ||
    (&& s.current.Some? && AllowedAnySlot(s, steps[0])
     && (SchedulerShape.NextShape(s, steps[0]); RunOfAnySlots(Next(s, steps[0]), steps[1..])))
  }

  /** Without `terminate_process` every spawn finds a clean slot by itself: the run is allowed,
      so the invariant holds throughout, and every queue entry is ready. */
  lemma {:induction false} RunWithoutTerminate(s: State, steps: seq<Step>)
    requires Inv(s) && NoLeftovers(s) && Shape(s) && RunOfAnySlots(s, steps)
    requires forall i | 0 <= i < |steps| :: !steps[i].DoTerminate?
    ensures AllowedRun(s, steps)
    ensures NoLeftovers(Run(s, steps)) && CleanSpawn(Run(s, steps))
    ensures forall i | 0 <= i < |Run(s, steps).queue| ::
              Run(s, steps).queue[i] < |Run(s, steps).threads|
              && Run(s, steps).threads[Run(s, steps).queue[i]].state == Ready
    decreases |steps|
  {
    hide Base, Next, Allowed, AllowedAnySlot, CleanSpawn, NoLeftovers, Shape;
    NoLeftoversMeansClean(s);
    if steps != [] {
      AllowedWhenClean(s, steps[0]);
      StepKeeps(s, steps[0]);
      SchedulerShape.NextShape(s, steps[0]);
      NoLeftoversStep(s, steps[0]);
      RunWithoutTerminate(Next(s, steps[0]), steps[1..]);
    }
  }

  lemma BootHasNoLeftovers(n: nat, tables: nat, space: nat)
    requires 2 <= n < NO_THREAD
    ensures NoLeftovers(Boot(n, tables, space))
  {
    BootIs(n, tables, space);
  }

  /** Exactly the clean spawns keep the invariant. */
  lemma SpawnKeepsExactlyWhenClean(s: State)
    requires Inv(s)
    requires FreeThread(s.threads, 1) < |s.threads|
    ensures Inv(ThreadCreate(s, true, true).0) <==> CleanSpawn(s)
  {
    hide CallsOk, ProcessesOk;
    var slot := FreeThread(s.threads, 1);
    var s' := ThreadCreate(s, true, true).0;
    if CleanSpawn(s) {
      ThreadCreateKeeps(s, true, true);
    } else {
      InitSpaceKnown(s);
      QueueHasRoom(s);
      var s1 := Placed(s, slot, INIT_PROCESS, s.processes);
      assert s' == Enqueue(s1, slot);
      assert s'.queue == s.queue + [slot];
      if slot in s.queue {
        var i :| 0 <= i < |s.queue| && s.queue[i] == slot;
        assert s'.queue[i] == s'.queue[|s.queue|] == slot;
        assert !Distinct(s'.queue);
      } else {
        var p :| Registered(s, p, slot);
        PlacedRegistrations(s, slot, INIT_PROCESS, s.processes);
        RegisteredFrame(s1, s');
        assert Registered(s', p, slot);
        assert s'.threads[slot].state == Ready;
      }
    }
  }

  /** Exactly the joins on threads that are no main threads keep the invariant, besides those on
      an exited one that another thread is still joining. */
  lemma JoinKeepsExactlyWhenNobodysMain(s: State, x: nat)
    requires Inv(s) && s.current.value != IDLE && s.pending[s.current.value] == NoCall
    requires x < |s.threads| && x != s.current.value
    ensures Inv(Join(s, x).0) <==>
            NobodysMain(s.processes, x) || (s.threads[x].state == Exited && s.threads[x].joinWaiterCount != 0)
  {
    hide Base, ScheduleFrom;
    assert Shape(s) by { ShapeOf(s); }
    if NobodysMain(s.processes, x) {
      JoinKeeps(s, x);
    } else {
      var i :| 0 <= i < |s.processes| && s.processes[i].mainThread == Some(x);
      if s.threads[x].state != Exited {
        BlockedOnMain(s, x, i);
      } else if s.threads[x].joinWaiterCount != 0 {
        assert Join(s, x).0 == s;
      } else {
        ReapableMain(Join(s, x).0, i);
      }
    }
  }

  lemma ReapableMain(s: State, i: nat)
    requires i < |s.processes| && s.processes[i].mainThread.Some?
    requires s.processes[i].mainThread.value < |s.threads| && s.threads[s.processes[i].mainThread.value].reapable
    ensures !Inv(s)
  {
    hide PlacesOk, CallsOk, QueueOk;
    assert !RecordOk(s, i);
  }

  lemma BlockedOnMain(s: State, x: nat, i: nat)
    requires Inv(s) && s.current.value != IDLE && s.pending[s.current.value] == NoCall
    requires x < |s.threads| && x != s.current.value && s.threads[x].state != Exited
    requires i < |s.processes| && s.processes[i].mainThread == Some(x)
    ensures !Inv(Join(s, x).0)
  {
    hide PlacesOk, CallsOk, QueueOk, RecordOk, ThreadOk;
    var c, call := s.current.value, Joining(x);
    JoinListHasRoom(s, x);
    ListedShape(s, x, call);
    JoinAsIsListed(s, x, call);
    var s' := Join(s, x).0;
    assert s'.pending[c] == call && s'.processes == s.processes;
    assert !CallOk(s', c);
  }

  /** Exactly the terminations of childless processes keep the invariant. */
  lemma TerminateKeepsExactlyWhenChildless(s: State, p: nat, main: nat)
    requires Inv(s) && s.current.value != IDLE
    requires ChildOfCurrent(s, p) == Some(main) && main < |s.threads| && s.threads[main].state != Exited
    ensures Inv(TerminateProcess(s, p).0) <==> Childless(s.processes, p)
  {
    hide PlacesOk, CallsOk, QueueOk, WakeAll;
    if Childless(s.processes, p) {
      TerminateKeeps(s, p);
    } else {
      ChildFacts(s, p, main);
      var i :| 0 <= i < |s.processes| && s.processes[i].parent == Some(p);
      assert RecordOk(s, i);
      var s' := TerminateProcess(s, p).0;
      TerminatedStays(s, p, main);
      assert !RecordOk(s', i);
    }
  }

  /** Exactly the collections that no other thread waits to make keep the invariant. */
  lemma CollectKeepsExactlyWhenUnwaited(s: State, p: nat)
    requires Inv(s) && s.current.value != IDLE && s.pending[s.current.value] == NoCall
    requires TryWaitProcess(s, p).1.Some?
    ensures Inv(TryWaitProcess(s, p).0) <==> NoCollector(s, p)
  {
    hide PlacesOk, CallsOk, QueueOk, RunOk, RecordOk, ThreadOk;
    var s' := TryWaitProcess(s, p).0;
    if NoCollector(s, p) {
      TryWaitKeeps(s, p);
    } else {
      var t :| 0 <= t < |s.pending| && s.pending[t].Collecting? && s.pending[t].process == p;
      assert CallOk(s, t);
      RecordIds(s);
      FindLive(s.processes, p);
      assert !Live(s'.processes, p);
      assert !CallOk(s', t);
    }
  }

  lemma TerminatedStays(s: State, p: nat, main: nat)
    requires Shape(s)
    requires ChildOfCurrent(s, p) == Some(main) && main < |s.threads| && s.threads[main].state != Exited
    ensures TerminateProcess(s, p).0.processes == s.processes
    ensures |TerminateProcess(s, p).0.threads| == |s.threads|
    ensures TerminateProcess(s, p).0.threads[main].state == Exited
  {
    var task := s.threads[main];
    var ended := s.(threads := s.threads[main := task.(state := Exited, exitStatus := TERMINATED_STATUS)]);
    WakeAllLeavesExited(ended, JoinList(task), main);
  }

  lemma {:induction false} WakeAllLeavesExited(s: State, waiters: seq<nat>, x: nat)
    requires x < |s.threads| && s.threads[x].state == Exited
    ensures WakeAll(s, waiters).processes == s.processes
    ensures WakeAll(s, waiters).threads[x] == s.threads[x]
    decreases |waiters|
  {
    if waiters != [] {
      WakeAllLeavesExited(Wake(s, waiters[0]).0, waiters[1..], x);
    }
  }

  // ------------------------------------------------------------ the process tree

  /** Parent links from `chain[0]` to PID 1. */
  ghost predicate ParentChain(processes: seq<Process>, chain: seq<nat>) {
    && |chain| > 0
    && (forall i | 0 <= i < |chain| :: Live(processes, chain[i]))
    && chain[|chain| - 1] == INIT_PROCESS
    && (forall i | 0 <= i < |chain| - 1 :: processes[chain[i] - 1].parent == Some(chain[i + 1]))
  }

  lemma {:induction false} ChainByRank(s: State, p: nat, rank: seq<nat>) returns (chain: seq<nat>)
    requires forall i | 0 <= i < |s.processes| :: RecordOk(s, i)
    requires |s.processes| < NO_THREAD
    requires Live(s.processes, p) && Ranked(s.processes, rank)
    ensures ParentChain(s.processes, chain) && chain[0] == p
    decreases rank[p - 1]
  {
    if p == INIT_PROCESS {
      chain := [p];
    } else {
      assert RecordOk(s, p - 1);
      var q := s.processes[p - 1].parent.value;
      var rest := ChainByRank(s, q, rank);
      chain := [p] + rest;
    }
  }

  lemma {:induction false} ChainDescends(processes: seq<Process>, rank: seq<nat>, chain: seq<nat>, i: nat, j: nat)
    requires Ranked(processes, rank) && ParentChain(processes, chain)
    requires i < j < |chain|
    ensures rank[chain[j] - 1] < rank[chain[i] - 1]
    decreases j
  {
    assert Live(processes, chain[j]) && Live(processes, chain[j - 1]);
    assert processes[chain[j - 1] - 1].parent == Some(chain[j]);
    if i < j - 1 {
      ChainDescends(processes, rank, chain, i, j - 1);
    }
  }

  /** No parent chain meets a process twice. */
  lemma ParentChainsAreAcyclic(s: State, chain: seq<nat>)
    requires Inv(s) && ParentChain(s.processes, chain)
    ensures Distinct(chain)
  {
    hide PlacesOk, CallsOk, QueueOk;
    var rank :| Ranked(s.processes, rank);
    forall i, j | 0 <= i < j < |chain| ensures chain[i] != chain[j] {
      ChainDescends(s.processes, rank, chain, i, j);
    }
  }

  lemma EveryProcessDescendsFromInit(s: State, p: nat)
    requires Inv(s) && Live(s.processes, p)
    ensures exists chain :: ParentChain(s.processes, chain) && chain[0] == p
  {
    hide PlacesOk, CallsOk, QueueOk;
    var rank :| Ranked(s.processes, rank);
    var chain := ChainByRank(s, p, rank);
  }

  /** No two processes share a main thread or an address space, and no parent has exited. */
  lemma RecordsAreDistinct(s: State, p: nat, q: nat)
    requires Inv(s) && Live(s.processes, p) && Live(s.processes, q) && p != q
    ensures s.processes[p - 1].mainThread.Some? ==> s.processes[p - 1].mainThread != s.processes[q - 1].mainThread
    ensures s.processes[p - 1].addressSpace != s.processes[q - 1].addressSpace
    ensures s.processes[p - 1].parent == Some(q) ==> CanCollect(s, q)
  {
    hide PlacesOk, CallsOk, QueueOk;
    assert RecordOk(s, p - 1) && RecordOk(s, q - 1);
  }

  /** The main thread of `p` has exited and its parent has not collected it yet. */
  predicate Zombie(s: State, p: nat) {
    && p != INIT_PROCESS && Live(s.processes, p)
    && s.processes[p - 1].mainThread.Some?
    && s.processes[p - 1].mainThread.value < |s.threads|
    && s.threads[s.processes[p - 1].mainThread.value].state == Exited
  }

  function ZombieStatus(s: State, p: nat): U64
    requires Zombie(s, p)
  {
    s.threads[s.processes[p - 1].mainThread.value].exitStatus
  }

  /** A zombie's parent is alive, and no other process has its main thread. */
  lemma ZombieHasLiveParent(s: State, p: nat)
    requires Inv(s) && Zombie(s, p)
    ensures s.processes[p - 1].parent.Some? && CanCollect(s, s.processes[p - 1].parent.value)
    ensures forall q: nat | Live(s.processes, q) && s.processes[q - 1].mainThread == s.processes[p - 1].mainThread :: q == p
  {
    hide PlacesOk, CallsOk, QueueOk;
    assert RecordOk(s, p - 1);
    forall q: nat | Live(s.processes, q) && s.processes[q - 1].mainThread == s.processes[p - 1].mainThread ensures q == p {
      assert RecordOk(s, q - 1);
    }
  }

  /** When its parent polls it, a zombie is collected with its own status, and its
      record is gone, so nobody collects it again. */
  lemma ZombieIsCollected(s: State, p: nat)
    requires Inv(s) && Zombie(s, p)
    requires CurrentProcess(s) == s.processes[p - 1].parent
    requires NoCollector(s, p)
    ensures TryWaitProcess(s, p).1 == Some(ZombieStatus(s, p))
    ensures !Live(TryWaitProcess(s, p).0.processes, p)
  {
    hide PlacesOk, CallsOk, QueueOk;
    assert RecordOk(s, p - 1);
    RecordIds(s);
    var parent := s.processes[p - 1].parent.value;
    assert s.processes[0..] == s.processes;
    ChildMainAt(s.processes, 0, p - 1, parent);
    ChildFacts(s, p, s.processes[p - 1].mainThread.value);
    FindLive(s.processes, p);
  }

  /** The process whose record this step clears, with the status its collector is told. */
  function CollectedBy(s: State, step: Step): Option<(nat, U64)>
    requires Shape(s)
  {
    match step
    case DoTryWait(p) => if TryWaitProcess(s, p).1.Some? then Some((p, TryWaitProcess(s, p).1.value)) else None
    case DoWait(p) =>
      (match WaitProcess(s, p).1
       case Returned(Some(status)) => Some((p, status))
       case _ => None)
    case DoReapAny => ReapAnyChild(s).1
    case DoResume =>
      if s.current.Some? && s.pending[s.current.value].Collecting? && Resume(s).1.Some? then
        Some((s.pending[s.current.value].process, Resume(s).1.value))
      else None
    case _ => None
  }

  lemma CollectedByChild(s: State, step: Step, p: nat, status: U64)
    requires Inv(s) && Allowed(s, step) && CollectedBy(s, step) == Some((p, status)) && !step.DoResume?
    ensures ChildOfCurrent(s, p).Some?
    ensures ChildOfCurrent(s, p).value < |s.threads|
    ensures s.threads[ChildOfCurrent(s, p).value].state == Exited
    ensures s.threads[ChildOfCurrent(s, p).value].exitStatus == status
    ensures Next(s, step) == Collect(StatusRead(s, ChildOfCurrent(s, p).value), p)
    ensures NoCollector(s, p)
  {
    hide Base, Collect;
    assert Shape(s) by { ShapeOf(s); }
    match step
    case DoTryWait(_) =>
      ChildInRange(s, p);
    case DoWait(_) =>
      ChildInRange(s, p);
    case DoReapAny =>
      var i := FirstExitedChild(s, CurrentProcess(s).value, 0);
      ExitedChildIs(s, i);
      ChildInRange(s, p);
    case _ =>
  }

  /** Only zombies are collected, each with its own status, and the address space destroyed
      with one is neither active nor that of any live thread. */
  lemma CollectedWasZombie(s: State, step: Step, p: nat, status: U64)
    requires Inv(s) && Allowed(s, step) && CollectedBy(s, step) == Some((p, status))
    ensures Zombie(s, p) && status == ZombieStatus(s, p)
    ensures !Live(Next(s, step).processes, p)
    ensures SpaceCollected(s, p) == Some(s.processes[p - 1].addressSpace)
    ensures s.processes[p - 1].addressSpace != s.activeSpace
    ensures forall t | 0 <= t < |s.threads| :: InOtherSpace(s, t, p)
  {
    hide PlacesOk, CallsOk, QueueOk, Next, CollectedBy, Collect, Resume, InOtherSpace;
    RecordIds(s);
    assert s.processes[0..] == s.processes;
    if step.DoResume? {
      ResumedCollects(s, p, status);
    } else {
      CollectedByChild(s, step, p, status);
      var main := ChildOfCurrent(s, p).value;
      ChildFacts(s, p, main);
      CollectKeeps(s, p, main);
      CollectClears(StatusRead(s, main), p);
    }
    AddressSpaceOfLive(s.processes, 0, p);
    CollectedSpaceNotActive(s, step, p);
    ZombieSpaceIsNobodys(s, p);
  }

  /** A live thread, if it has an address space at all, has another one than `p`. */
  predicate InOtherSpace(s: State, t: nat, p: nat)
    requires t < |s.threads| && Live(s.processes, p)
  {
    t != IDLE && s.threads[t].state != Exited ==>
      && s.threads[t].process.Some?
      && Live(s.processes, s.threads[t].process.value)
      && s.processes[s.threads[t].process.value - 1].addressSpace != s.processes[p - 1].addressSpace
  }

  lemma ZombieSpaceIsNobodys(s: State, p: nat)
    requires Inv(s) && Zombie(s, p)
    ensures forall t | 0 <= t < |s.threads| :: InOtherSpace(s, t, p)
  {
    hide PlacesOk, CallsOk, QueueOk, RecordOk;
    forall t | 0 <= t < |s.threads| && t != IDLE && s.threads[t].state != Exited ensures InOtherSpace(s, t, p) {
      assert ThreadOk(s, t);
      RecordsAreDistinct(s, s.threads[t].process.value, p);
    }
  }

  lemma CollectClears(s: State, p: nat)
    requires IdsOk(s.processes) && Live(s.processes, p)
    ensures !Live(Collect(s, p).processes, p)
  {
    FindLive(s.processes, p);
  }

  lemma ResumedCollects(s: State, p: nat, status: U64)
    requires Inv(s) && Allowed(s, DoResume) && CollectedBy(s, DoResume) == Some((p, status))
    ensures Zombie(s, p) && status == ZombieStatus(s, p)
    ensures !Live(Next(s, DoResume).processes, p)
    ensures s.pending[s.current.value].Collecting? && s.pending[s.current.value].process == p
  {
    hide PlacesOk, CallsOk, QueueOk;
    ResumedTarget(s);
    CallFacts(s, s.current.value);
    ResumeCollectKeeps(s);
    RecordIds(s);
    FindLive(s.processes, p);
  }

  lemma CollectedSpaceNotActive(s: State, step: Step, p: nat)
    requires Inv(s) && Allowed(s, step)
    requires CollectedBy(s, step).Some? && CollectedBy(s, step).value.0 == p
    requires p != INIT_PROCESS && Live(s.processes, p)
    requires SpaceCollected(s, p) == Some(s.processes[p - 1].addressSpace)
    ensures s.processes[p - 1].addressSpace != s.activeSpace
  {
    hide PlacesOk, CallsOk, QueueOk, CollectedBy;
    if step.DoResume? {
      assert s.pending[s.current.value].Collecting? && s.pending[s.current.value].process == p by { CollectingResume(s, p); }
      ResumeCollectKeeps(s);
    } else {
      var status := CollectedBy(s, step).value.1;
      CollectedByChild(s, step, p, status);
      CollectKeeps(s, p, ChildOfCurrent(s, p).value);
      assert SpaceCollected(StatusRead(s, ChildOfCurrent(s, p).value), p) == SpaceCollected(s, p);
    }
  }

  lemma CollectingResume(s: State, p: nat)
    requires Shape(s)
    requires CollectedBy(s, DoResume).Some? && CollectedBy(s, DoResume).value.0 == p
    ensures s.current.Some? && s.pending[s.current.value].Collecting? && s.pending[s.current.value].process == p
  {
  }

  /** Steps that collect nobody keep every record's main thread. */
  lemma RecordsStay(s: State, step: Step, p: nat)
    requires Inv(s) && Allowed(s, step)
    requires Live(s.processes, p)
    requires CollectedBy(s, step).Some? ==> CollectedBy(s, step).value.0 != p
    ensures Live(Next(s, step).processes, p)
    ensures Next(s, step).processes[p - 1].mainThread == s.processes[p - 1].mainThread
  {
    hide Base, Allowed, Between, CollectedBy, Reparent, WakeAll, ScheduleFrom, Collect;
    assert Shape(s) by { ShapeOf(s); }
    match step
    case DoTick => TickAwakens(s);
    case DoFutexWake(address, count) => FutexWakeFromAwakens(s, address, count, 0, 0);
    case DoExit(status) => ExitRecordsStay(s, status, p);
    case DoTerminate(process) => TerminateRecordsStay(s, process);
    case DoThreadCreate(checked, stacks) =>
    case DoSpawn(space, loaded, stacks) => SpawnRecordsStay(s, space, loaded, stacks, p);
    case DoYield => SwitchRecordsStay(s, step);
    case DoSleep(milliseconds) => SwitchRecordsStay(s, step);
    case DoFutexWait(address, actual, expected, timeout) => SwitchRecordsStay(s, step);
    case DoJoin(target) => JoinRecordsStay(s, target);
    case _ => CollectRecordsStay(s, step, p);
  }

  lemma ScheduleRecords(s: State, c: nat)
    requires Shape(s) && c < |s.threads|
    ensures ScheduleFrom(s, c).processes == s.processes
  {
  }

  lemma SwitchRecordsStay(s: State, step: Step)
    requires Inv(s) && Allowed(s, step)
    requires step.DoYield? || step.DoSleep? || step.DoFutexWait?
    ensures Next(s, step).processes == s.processes
  {
    hide PlacesOk, CallsOk, ProcessesOk, QueueOk, ScheduleFrom;
    if Switches(s, step) {
      var c := s.current.value;
      match step
      case DoYield =>
        YieldKeeps(s);
        ScheduleRecords(YieldState(s), c);
        YieldIs(s);
      case DoSleep(milliseconds) =>
        var i := FirstEmpty(s.sleepers, 0);
        SleepStateKeeps(s, i, WrappingAdd(s.ticks, SleepTicks(milliseconds)));
        SleepIs(s, milliseconds);
        ScheduleRecords(SleepState(s, i, WrappingAdd(s.ticks, SleepTicks(milliseconds))), c);
      case DoFutexWait(address, actual, expected, timeout) =>
        var i := FirstEmpty(s.futexWaiters, 0);
        var entry := FutexWaiter(address, c, FutexDeadline(s.ticks, timeout));
        FutexStateKeeps(s, i, entry);
        FutexWaitIs(s, address, actual, expected, timeout);
        ScheduleRecords(FutexState(s, i, entry), c);
    }
  }

  lemma JoinRecordsStay(s: State, target: nat)
    requires Inv(s) && Allowed(s, DoJoin(target))
    ensures Join(s, target).0.processes == s.processes
  {
    hide Base, ScheduleFrom;
    assert Shape(s) by { ShapeOf(s); }
    var c := s.current.value;
    if target < |s.threads| && target != c && s.threads[target].state != Exited {
      BlockingJoinKeeps(s, target, Joining(target));
      var s1 := Listed(s, target, Joining(target));
      assert Shape(s1) by { ShapeOf(s1); }
      ScheduleRecords(s1, c);
    }
  }

  lemma ExitRecordsStay(s: State, status: U64, p: nat)
    requires Inv(s) && Allowed(s, DoExit(status))
    requires Live(s.processes, p)
    ensures Live(ExitCurrent(s, status).processes, p)
    ensures ExitCurrent(s, status).processes[p - 1].mainThread == s.processes[p - 1].mainThread
  {
    hide Base, ScheduleFrom, Reparent, WakeAll;
    assert Shape(s) by { ShapeOf(s); }
    var c := s.current.value;
    ExitKeeps(s, status);
    ReparentKeepsMains(s.processes, c);
    var s1 := ExitedState(s, c, status);
    assert Shape(s1) by { ShapeOf(s1); }
    ScheduleRecords(s1, c);
  }

  lemma TerminateRecordsStay(s: State, process: nat)
    requires Shape(s)
    ensures TerminateProcess(s, process).0.processes == s.processes
  {
    var child := ChildOfCurrent(s, process);
    if child.Some? && child.value < |s.threads| && s.threads[child.value].state != Exited {
      TerminatedStays(s, process, child.value);
    }
  }

  lemma SpawnRecordsStay(s: State, space: nat, loaded: bool, stacks: bool, p: nat)
    requires Inv(s)
    requires Live(s.processes, p)
    ensures Live(SpawnProcess(s, space, loaded, stacks).0.processes, p)
    ensures SpawnProcess(s, space, loaded, stacks).0.processes[p - 1].mainThread == s.processes[p - 1].mainThread
  {
    hide PlacesOk, CallsOk, QueueOk, RunOk, SpawnProcess, ThreadShape, RecordOk;
    RecordIds(s);
    SpawnRecordsAre(s, space, loaded, stacks);
  }

  /** Only the new process's record changes. */
  lemma SpawnRecordsAre(s: State, space: nat, loaded: bool, stacks: bool)
    requires Shape(s) && IdsOk(s.processes)
    ensures var i := FreeRecord(s.processes, 1);
            var after := SpawnProcess(s, space, loaded, stacks).0.processes;
            |after| == |s.processes| && forall j | 0 <= j < |s.processes| && j != i :: after[j] == s.processes[j]
  {
    hide ThreadShape, SpawnUser;
    var i := FreeRecord(s.processes, 1);
    if i < |s.processes| {
      var (s1, process) := CreateProcess(s, space);
      FindLive(s1.processes, i + 1);
      SpawnUserRecords(s1, i + 1, stacks);
    }
  }

  lemma SpawnUserRecords(s: State, process: nat, stacks: bool)
    requires Shape(s)
    ensures SpawnUser(s, process, stacks).0.processes == s.processes
  {
  }

  lemma CollectRecordsStay(s: State, step: Step, p: nat)
    requires Inv(s) && Allowed(s, step)
    requires step.DoTryWait? || step.DoWait? || step.DoReapAny? || step.DoResume?
    requires Live(s.processes, p)
    requires CollectedBy(s, step).Some? ==> CollectedBy(s, step).value.0 != p
    ensures Live(Next(s, step).processes, p)
    ensures Next(s, step).processes[p - 1].mainThread == s.processes[p - 1].mainThread
  {
    hide Base, ScheduleFrom, JoinTail, Collect, TryJoin;
    assert Shape(s) by { ShapeOf(s); }
    if CollectedBy(s, step).Some? {
      var (q, status) := CollectedBy(s, step).value;
      CollectedWasZombie(s, step, q, status);
      assert IdsOk(s.processes) by { IdsOf(s); }
      FindLive(s.processes, q);
      CollectUpdates(s, step, q, status);
    } else {
      UncollectedRecords(s, step);
    }
  }

  lemma CollectUpdates(s: State, step: Step, q: nat, status: U64)
    requires Inv(s) && Allowed(s, step) && CollectedBy(s, step) == Some((q, status))
    requires FindRecord(s.processes, q) == q - 1 < |s.processes|
    ensures Next(s, step).processes == s.processes[q - 1 := EMPTY_PROCESS]
  {
    hide Base;
    assert Shape(s) by { ShapeOf(s); }
    if step.DoResume? {
      CollectingResume(s, q);
    } else {
      CollectedByChild(s, step, q, status);
    }
  }

  lemma UncollectedRecords(s: State, step: Step)
    requires Inv(s) && Allowed(s, step) && CollectedBy(s, step) == None
    requires step.DoTryWait? || step.DoWait? || step.DoReapAny? || step.DoResume?
    ensures Next(s, step).processes == s.processes
  {
    hide Base, ScheduleFrom, Collect;
    assert Shape(s) by { ShapeOf(s); }
    if step.DoWait? {
      var child := ChildOfCurrent(s, step.process);
      if child.Some? {
        ChildInRange(s, step.process);
        if s.threads[child.value].state != Exited {
          var call := Collecting(child.value, step.process);
          CollectingCallOk(s, step.process, child.value);
          BlockingJoinKeeps(s, child.value, call);
          var s1 := Listed(s, child.value, call);
          assert Shape(s1) by { ShapeOf(s1); }
          ScheduleRecords(s1, s.current.value);
        }
      }
    } else if step.DoResume? {
      ResumeKeeps(s);
    }
  }

  /** A zombie stays one, with the same status, until it is collected. */
  lemma ZombieStays(s: State, step: Step, p: nat)
    requires Inv(s) && Allowed(s, step) && Zombie(s, p)
    requires CollectedBy(s, step).Some? ==> CollectedBy(s, step).value.0 != p
    ensures Zombie(Next(s, step), p)
    ensures ZombieStatus(Next(s, step), p) == ZombieStatus(s, p)
  {
    hide PlacesOk, CallsOk, QueueOk, Next, Switches, Allowed, Ending, Born, PlacesProgress, CallsProgress, QueueProgress,
         ScheduleFrom, CollectedBy;
    RecordsStay(s, step, p);
    var s1 := StepProgresses(s, step);
    assert RecordOk(s, p - 1);
    var x := s.processes[p - 1].mainThread.value;
    if Switches(s, step) {
      var k, chosen := ScheduleChoice(s1, s.current.value);
      assert Next(s, step).threads[x].exitStatus == s1.threads[x].exitStatus;
    }
  }

  /** Whenever a thread other than idle runs, the active address space is that of its process. */
  lemma ActiveSpaceIsOwn(s: State, steps: seq<Step>)
    requires Inv(s) && AllowedRun(s, steps)
    ensures var f := Run(s, steps);
            f.current.Some? && f.current.value < |f.threads| &&
            (f.current.value != IDLE ==>
               && f.threads[f.current.value].process.Some?
               && Live(f.processes, f.threads[f.current.value].process.value)
               && f.activeSpace == f.processes[f.threads[f.current.value].process.value - 1].addressSpace)
  {
    hide PlacesOk, CallsOk, ProcessesOk, QueueOk, Run;
    CurrentHasRecord(Run(s, steps));
  }
}
