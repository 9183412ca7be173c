/** What holds over whole runs of the scheduler. */
module SchedulerRuns {
  import opened Wrappers
  import opened ThreadTable
  import SchedulerShape
  import opened Words
  import opened SchedulerInvariant
  import opened SchedulerSteps
  import opened ProcessSteps
  import opened LifecycleSteps
  import opened StepProgress

  // ------------------------------------------------------------------- booting

  /** The kernel once `start` has dispatched the first thread of PID 1. */
  function Boot(n: nat, tables: nat, space: nat): State
    requires 2 <= n < NO_THREAD
  {
    SchedulerShape.InitialShape(n, tables, space);
    BootSpawnShape(n, tables, space);
    Start(SpawnUser(InitialState(n, tables, space), INIT_PROCESS, true).0)
  }

  lemma BootSpawnIs(n: nat, tables: nat, space: nat)
    requires 2 <= n < NO_THREAD
    ensures Shape(InitialState(n, tables, space))
    ensures SpawnUser(InitialState(n, tables, space), INIT_PROCESS, true).0 ==
            InitialState(n, tables, space).(
              threads := InitialState(n, tables, space).threads[1 := NewUserThread(n, INIT_PROCESS)],
              queue := [1])
  {
    var s := InitialState(n, tables, space);
    SchedulerShape.InitialShape(n, tables, space);
    assert s.processes[0].id == INIT_PROCESS;
    assert FreeThread(s.threads, 1) == 1;
    assert s.pending[1 := NoCall] == s.pending;
    assert s.queue + [1] == [1];
  }

  lemma BootSpawnShape(n: nat, tables: nat, space: nat)
    requires 2 <= n < NO_THREAD
    requires Shape(InitialState(n, tables, space))
    ensures Shape(SpawnUser(InitialState(n, tables, space), INIT_PROCESS, true).0)
  {
    BootSpawnIs(n, tables, space);
    var s := SpawnUser(InitialState(n, tables, space), INIT_PROCESS, true).0;
    assert ThreadShape(s.threads[1], n);
  }

  lemma BootIs(n: nat, tables: nat, space: nat)
    requires 2 <= n < NO_THREAD
    ensures Boot(n, tables, space) ==
            InitialState(n, tables, space).(
              threads := InitialState(n, tables, space).threads[1 := NewUserThread(n, INIT_PROCESS).(state := Running)]
                                                               [0 := EmptyThread(n).(state := Ready)],
              queue := [IDLE],
              current := Some(1))
  {
    SchedulerShape.InitialShape(n, tables, space);
    BootSpawnIs(n, tables, space);
    BootSpawnShape(n, tables, space);
    var s := SpawnUser(InitialState(n, tables, space), INIT_PROCESS, true).0;
    var s1 := MakeReady(s, IDLE);
    assert s1.queue == [1, 0];
    assert s1.queue[1..] == [0];
    assert NextReady(s1.threads, s1.queue) == (Some(1), [0]);
    assert s1.processes[0].id == INIT_PROCESS;
    assert SpaceOnEntry(s1.threads[1], s1.processes, s1.activeSpace) == space;
  }

  lemma BootInv(n: nat, tables: nat, space: nat)
    requires 2 <= n < NO_THREAD
    ensures Inv(Boot(n, tables, space))
  {
    hide PlacesOk, CallsOk, ProcessesOk;
    BootIs(n, tables, space);
    var s := Boot(n, tables, space);
    assert Shape(s) by {
      assert forall t | 0 <= t < n :: ThreadShape(s.threads[t], n);
    }
    assert QueueOk(s);
    BootPlaces(n, tables, space);
    BootProcesses(n, tables, space);
  }

  lemma BootPlaces(n: nat, tables: nat, space: nat)
    requires 2 <= n < NO_THREAD
    ensures var s := Boot(n, tables, space);
            0 < |s.pending| == |s.threads| && PlacesOk(s, []) && CallsOk(s)
  {
    hide Boot;
    BootIs(n, tables, space);
    var s := Boot(n, tables, space);
    assert forall p, t: nat :: !Registered(s, p, t);
    forall x | 0 <= x < n ensures Counted(s, x) && CallListed(s, x) {
      assert Callers(s.pending, x) == {};
    }
  }

  lemma BootProcesses(n: nat, tables: nat, space: nat)
    requires 2 <= n < NO_THREAD
    ensures var s := Boot(n, tables, space);
            |s.pending| == |s.threads| == |s.processes| && ProcessesOk(s)
  {
    hide Boot;
    BootIs(n, tables, space);
    var s := Boot(n, tables, space);
    var rank := seq(n, i => if i == 0 then 0 else 1);
    assert Ranked(s.processes, rank);
    assert RecordOk(s, 0);
    assert forall i | 0 <= i < n :: RecordOk(s, i);
  }

  // ---------------------------------------------------------------------- runs

  ghost predicate AllowedRun(s: State, steps: seq<Step>)
    requires Inv(s)
    decreases |steps|
  {
    steps == [] ||
    (&& Allowed(s, steps[0])
     && (StepKeeps(s, steps[0]); AllowedRun(Next(s, steps[0]), steps[1..])))
  }

  /** The invariant holds in every state of every allowed run. */
  ghost function Run(s: State, steps: seq<Step>): (r: State)
    requires Inv(s) && AllowedRun(s, steps)
    ensures Inv(r)
    decreases |steps|
  {
    if steps == [] then s
    else
      StepKeeps(s, steps[0]);
      Run(Next(s, steps[0]), steps[1..])
  }

  lemma {:induction false} RunAppend(s: State, steps: seq<Step>, step: Step)
    requires Inv(s) && AllowedRun(s, steps)
    requires Shape(Run(s, steps)) && Allowed(Run(s, steps), step)
    ensures AllowedRun(s, steps + [step])
    ensures Run(s, steps + [step]) == Next(Run(s, steps), step)
    decreases |steps|
  {
    hide Base, Next, Allowed;
    assert Shape(s) by { ShapeOf(s); }
    if steps == [] {
      StepKeeps(s, step);
      assert (steps + [step])[1..] == [];
      assert AllowedRun(Next(s, step), []);
    } else {
      StepKeeps(s, steps[0]);
      RunAppend(Next(s, steps[0]), steps[1..], step);
      assert (steps + [step])[1..] == steps[1..] + [step];
    }
  }

  // ------------------------------------------------------------- the run queue

  /** The full-queue drop of `enqueue` is never taken. */
  lemma QueueHasRoom(s: State)
    requires Inv(s)
    ensures |s.queue| < |s.threads|
  {
    hide PlacesOk, CallsOk, ProcessesOk;
    NotQueued(s, s.current.value);
    NotFull(s.queue, |s.threads|, s.current.value);
  }

  lemma ThreadCountSame(s: State, step: Step)
    requires Inv(s) && Allowed(s, step)
    ensures |Next(s, step).threads| == |s.threads|
    ensures |Next(s, step).sleepers| == |s.sleepers|
    ensures |Next(s, step).futexWaiters| == |s.futexWaiters|
  {
    hide PlacesOk, CallsOk, ProcessesOk, QueueOk, Next, Switches, Allowed, Ending, Born, CallsProgress, QueueProgress, ScheduleFrom;
    var s1 := StepProgresses(s, step);
    if Switches(s, step) {
      var k, chosen := ScheduleChoice(s1, s.current.value);
    }
  }

  lemma SwitchBearsNobody(s: State, step: Step)
    requires Shape(s) && Switches(s, step)
    ensures Born(s, step) == None
  {
  }

  /** The thread dispatched by a step was alive before it. */
  lemma DispatchedWasAlive(s: State, step: Step)
    requires Inv(s) && Allowed(s, step)
    ensures Next(s, step).current.Some? && Next(s, step).current.value < |s.threads|
    ensures s.threads[Next(s, step).current.value].state != Exited
  {
    hide PlacesOk, CallsOk, ProcessesOk, QueueOk, Next, Switches, Allowed, PlacesProgress, CallsProgress, QueueProgress,
         Ending, Born, ScheduleFrom;
    var s1 := StepProgresses(s, step);
    var c := s.current.value;
    if Switches(s, step) {
      SwitchBearsNobody(s, step);
      var k, chosen := ScheduleChoice(s1, c);
    }
  }

  /** In every reachable state no blocked thread is queued, every ready thread is queued once,
      and besides idle only the current thread is marked running. */
  lemma RunningIsCurrent(n: nat, tables: nat, space: nat, steps: seq<Step>, t: nat)
    requires 2 <= n < NO_THREAD && t < n
    requires Inv(Boot(n, tables, space)) && AllowedRun(Boot(n, tables, space), steps)
    ensures var s := Run(Boot(n, tables, space), steps);
            && |s.threads| == n
            && (s.threads[t].state == Running && t != IDLE ==> s.current == Some(t))
            && (s.threads[t].state in {Running, Blocked} ==> t !in s.queue)
            && (s.threads[t].state == Ready ==>
                  exists k :: 0 <= k < |s.queue| && s.queue[k] == t
                              && forall j | 0 <= j < |s.queue| && s.queue[j] == t :: j == k)
  {
    hide PlacesOk, CallsOk, ProcessesOk, Run, AllowedRun;
    ReachableSizes(n, tables, space, steps);
    var s := Run(Boot(n, tables, space), steps);
    if s.threads[t].state == Ready {
      var k :| 0 <= k < |s.queue| && s.queue[k] == t;
      assert forall j | 0 <= j < |s.queue| && s.queue[j] == t :: j == k;
    }
  }

  /** One step moves a waiting thread forward. */
  lemma Advance(s: State, step: Step, t: nat, k: nat) returns (k': nat)
    requires Inv(s) && Allowed(s, step)
    requires k < |s.queue| && s.queue[k] == t && t < |s.threads| && s.threads[t].state == Ready
    ensures |Next(s, step).threads| == |s.threads|
    ensures var s' := Next(s, step);
            || s'.current == Some(t)
            || s'.threads[t].state == Exited
            || (&& k' < |s'.queue| && s'.queue[k'] == t && s'.threads[t].state == Ready
                && k' + (if Switches(s, step) then 1 else 0) <= k)
  {
    hide Base, Next, Switches, Allowed, Progress, Between, ScheduleFrom;
    assert Shape(s) by { ShapeOf(s); }
    var s1 := StepProgresses(s, step);
    StillQueued(s, s1, step, t, k);
    k' := k;
    if Switches(s, step) {
      k' := AdvanceInQueue(s1, s.current.value, t, k);
    }
  }

  /** Before the dispatch the thread keeps its place, and is ready unless it was ended. */
  lemma StillQueued(s: State, s1: State, step: Step, t: nat, k: nat)
    requires Shape(s) && Progress(s, s1, step)
    requires k < |s.queue| && s.queue[k] == t && t < |s.threads| && s.threads[t].state == Ready
    ensures |s1.threads| == |s.threads| && k < |s1.queue| && s1.queue[k] == t
    ensures s1.threads[t].state in {Ready, Exited}
  {
    hide PlacesProgress, CallsProgress, Ending, Born, ThreadShape;
    assert s1.queue[k] == s.queue[k];
  }

  /** A dispatch takes the thread, or everyone before it has left or is behind. */
  lemma AdvanceInQueue(s1: State, c: nat, t: nat, k: nat) returns (k': nat)
    requires Between(s1, c) && k < |s1.queue| && s1.queue[k] == t && t < |s1.threads|
    requires s1.threads[t].state in {Ready, Exited}
    ensures Shape(s1) && c < |s1.threads| && |ScheduleFrom(s1, c).threads| == |s1.threads|
    ensures var s' := ScheduleFrom(s1, c);
            || s'.current == Some(t)
            || s'.threads[t].state == Exited
            || (k' < |s'.queue| && s'.queue[k'] == t && s'.threads[t].state == Ready && k' + 1 <= k)
  {
    hide ScheduleFrom, Between, Shape, SameTables, SpaceOnEntry;
    BetweenFits(s1, c);
    var k0, chosen := ScheduleChoice(s1, c);
    PickedFirst(s1, ScheduleFrom(s1, c), t, k, k0, chosen);
    k' := if k0 < k then k - k0 - 1 else 0;
  }

  /** Taking the first entry that has not exited. */
  lemma PickedFirst(s1: State, s': State, t: nat, k: nat, k0: nat, chosen: nat)
    requires k < |s1.queue| && s1.queue[k] == t && t < |s1.threads| && s1.threads[t].state in {Ready, Exited}
    requires Below(s1.queue, |s1.threads|) && k0 <= |s1.queue| && chosen < |s1.threads|
    requires forall i | 0 <= i < k0 :: s1.threads[s1.queue[i]].state == Exited
    requires k0 < |s1.queue| ==> chosen == s1.queue[k0]
    requires s1.threads[chosen].state != Exited
    requires s'.queue == if k0 == |s1.queue| then [] else s1.queue[k0 + 1..]
    requires s'.threads == SetState(s1.threads, chosen, Running) && s'.current == Some(chosen)
    ensures || s'.current == Some(t)
            || s'.threads[t].state == Exited
            || (&& k0 < k && k - k0 - 1 < |s'.queue| && s'.queue[k - k0 - 1] == t && s'.threads[t].state == Ready)
  {
  }

  lemma BetweenFits(s: State, c: nat)
    requires Between(s, c)
    ensures Shape(s) && c < |s.threads| && Below(s.queue, |s.threads|)
  {
    hide QueueOk, PlacesOk, CallsOk, ProcessesOk;
  }

  /** The number of dispatches in a run. */
  ghost function Dispatches(s: State, steps: seq<Step>): nat
    requires Inv(s) && AllowedRun(s, steps)
    decreases |steps|
  {
    if steps == [] then 0
    else
      StepKeeps(s, steps[0]);
      (if Switches(s, steps[0]) then 1 else 0) + Dispatches(Next(s, steps[0]), steps[1..])
  }

  /** The thread runs, or has ended, after some step of the run. */
  ghost predicate ServedIn(s: State, steps: seq<Step>, t: nat)
    requires Inv(s) && AllowedRun(s, steps)
    requires t < |s.threads|
    decreases |steps|
  {
    && steps != []
    && (StepKeeps(s, steps[0]);
        var s' := Next(s, steps[0]);
        ThreadCountSame(s, steps[0]);
        s'.current == Some(t) || s'.threads[t].state == Exited || ServedIn(s', steps[1..], t))
  }

  /** A ready thread at position `k` runs within `k + 1` dispatches unless it is
      terminated first, whatever else happens meanwhile. */
  lemma {:induction false} BoundedWaiting(s: State, steps: seq<Step>, t: nat, k: nat)
    requires Inv(s) && AllowedRun(s, steps)
    requires k < |s.queue| && s.queue[k] == t && t < |s.threads| && s.threads[t].state == Ready
    requires Dispatches(s, steps) >= k + 1
    ensures ServedIn(s, steps, t)
    decreases |steps|
  {
    hide Base, Next, Switches, Allowed;
    assert Shape(s) by { ShapeOf(s); }
    var k' := Advance(s, steps[0], t, k);
    StepKeeps(s, steps[0]);
    ThreadCountSame(s, steps[0]);
    var s' := Next(s, steps[0]);
    if s'.current != Some(t) && s'.threads[t].state != Exited {
      BoundedWaiting(s', steps[1..], t, k');
    }
  }

  // ----------------------------------------------------------- joins and statuses

  /** Thread `w` is suspended in a join on `x`. */
  predicate WaitsFor(s: State, w: nat, x: nat) {
    && w < |s.threads| && w < |s.pending| && x < |s.threads|
    && s.pending[w].On(x)
    && s.threads[w].state != Exited
  }

  ghost predicate WaitsThroughout(s: State, steps: seq<Step>, w: nat, x: nat)
    requires Inv(s) && AllowedRun(s, steps)
    decreases |steps|
  {
    && WaitsFor(s, w, x)
    && (steps != [] ==> (StepKeeps(s, steps[0]); WaitsThroughout(Next(s, steps[0]), steps[1..], w, x)))
  }

  /** The status with which `x` last ended in the run. */
  ghost function EndStatus(s: State, steps: seq<Step>, x: nat): Option<U64>
    requires Inv(s) && AllowedRun(s, steps)
    decreases |steps|
  {
    if steps == [] then None
    else
      StepKeeps(s, steps[0]);
      var later := EndStatus(Next(s, steps[0]), steps[1..], x);
      if later.Some? then later
      else if Ending(s, steps[0]).Some? && Ending(s, steps[0]).value.0 == x then Some(Ending(s, steps[0]).value.1)
      else None
  }

  /** While someone waits for `x`, its slot is not reused and its status stays. */
  lemma WaitedForStep(s: State, step: Step, w: nat, x: nat)
    requires Inv(s) && Allowed(s, step) && WaitsFor(s, w, x)
    ensures Born(s, step) != Some(x)
    ensures |Next(s, step).threads| == |s.threads|
    ensures s.threads[x].state == Exited ==>
              && Next(s, step).threads[x].state == Exited
              && Next(s, step).threads[x].exitStatus == s.threads[x].exitStatus
              && (Ending(s, step).Some? ==> Ending(s, step).value.0 != x)
    ensures s.threads[x].state != Exited && Next(s, step).threads[x].state == Exited ==>
              Ending(s, step) == Some((x, Next(s, step).threads[x].exitStatus))
    ensures Ending(s, step).Some? && Ending(s, step).value.0 == x ==> Next(s, step).threads[x].state == Exited
  {
    hide PlacesOk, ProcessesOk, QueueOk, Next, Switches, Allowed, Ending, Born, PlacesProgress, CallsProgress,
         QueueProgress, ScheduleFrom;
    var s1 := StepProgresses(s, step);
    assert Counted(s, x);
    assert w in Callers(s.pending, x);
    if Switches(s, step) {
      var k, chosen := ScheduleChoice(s1, s.current.value);
      assert Next(s, step).threads[x].exitStatus == s1.threads[x].exitStatus;
    }
  }

  lemma {:induction false} ExitedStays(s: State, steps: seq<Step>, w: nat, x: nat)
    requires Inv(s) && AllowedRun(s, steps) && WaitsThroughout(s, steps, w, x)
    requires s.threads[x].state == Exited
    ensures x < |Run(s, steps).threads|
    ensures Run(s, steps).threads[x].state == Exited
    ensures Run(s, steps).threads[x].exitStatus == s.threads[x].exitStatus
    ensures EndStatus(s, steps, x) == None
    decreases |steps|
  {
    hide Base, Next, Allowed, Ending, Born;
    if steps != [] {
      assert Shape(s) by { ShapeOf(s); }
      StepKeeps(s, steps[0]);
      WaitedForStep(s, steps[0], w, x);
      ExitedStays(Next(s, steps[0]), steps[1..], w, x);
    }
  }

  lemma {:induction false} EndingIsRecorded(s: State, steps: seq<Step>, w: nat, x: nat)
    requires Inv(s) && AllowedRun(s, steps) && WaitsThroughout(s, steps, w, x)
    requires s.threads[x].state != Exited
    ensures x < |Run(s, steps).threads|
    ensures Run(s, steps).threads[x].state == Exited ==>
              EndStatus(s, steps, x) == Some(Run(s, steps).threads[x].exitStatus)
    decreases |steps|
  {
    hide Base, Next, Allowed, Ending, Born;
    if steps != [] {
      assert Shape(s) by { ShapeOf(s); }
      StepKeeps(s, steps[0]);
      WaitedForStep(s, steps[0], w, x);
      var s' := Next(s, steps[0]);
      if s'.threads[x].state == Exited {
        ExitedStays(s', steps[1..], w, x);
      } else {
        EndingIsRecorded(s', steps[1..], w, x);
      }
    }
  }

  /** A thread that was suspended in a join while `x` lived resumes with exactly the status
      with which `x` ended, however many joiners there are and whatever ran in between. */
  lemma JoinReturnsExitStatus(s: State, steps: seq<Step>, w: nat, x: nat)
    requires Inv(s) && AllowedRun(s, steps) && WaitsThroughout(s, steps, w, x)
    requires s.threads[x].state != Exited
    requires Run(s, steps).current == Some(w)
    ensures EndStatus(s, steps, x).Some?
    ensures Resume(Run(s, steps)).1 == EndStatus(s, steps, x)
  {
    hide Base, Next, Allowed, Ending, Born, Run;
    EndingIsRecorded(s, steps, w, x);
    var f := Run(s, steps);
    WaitsAtEnd(s, steps, w, x);
    assert Shape(f) by { ShapeOf(f); }
    ResumedTarget(f);
    ResumeKeeps(f);
  }

  lemma {:induction false} WaitsAtEnd(s: State, steps: seq<Step>, w: nat, x: nat)
    requires Inv(s) && AllowedRun(s, steps) && WaitsThroughout(s, steps, w, x)
    ensures WaitsFor(Run(s, steps), w, x)
    decreases |steps|
  {
    hide Base, Next, Allowed, WaitsFor;
    if steps != [] {
      assert Shape(s) by { ShapeOf(s); }
      StepKeeps(s, steps[0]);
      WaitsAtEnd(Next(s, steps[0]), steps[1..], w, x);
    }
  }

  // ------------------------------------------------------------- registrations

  /** In every reachable state a blocked thread is registered in exactly one place. */
  lemma BlockedIsRegisteredOnce(n: nat, tables: nat, space: nat, steps: seq<Step>, t: nat)
    requires 2 <= n < NO_THREAD
    requires Inv(Boot(n, tables, space)) && AllowedRun(Boot(n, tables, space), steps)
    ensures var s := Run(Boot(n, tables, space), steps);
            t < |s.threads| && s.threads[t].state == Blocked ==>
              exists p :: Registered(s, p, t) && forall q | Registered(s, q, t) :: q == p
  {
    hide CallsOk, ProcessesOk, QueueOk, Run, AllowedRun, Registered;
    var s := Run(Boot(n, tables, space), steps);
    if t < |s.threads| && s.threads[t].state == Blocked {
      var p :| Registered(s, p, t);
      assert forall q | Registered(s, q, t) :: q == p;
    }
  }

  /** In every reachable state no thread is registered in two places, and whoever is registered
      waits or has ended. */
  lemma RegistrationsAreUnique(n: nat, tables: nat, space: nat, steps: seq<Step>, t: nat, p: Place, q: Place)
    requires 2 <= n < NO_THREAD
    requires Inv(Boot(n, tables, space)) && AllowedRun(Boot(n, tables, space), steps)
    ensures var s := Run(Boot(n, tables, space), steps);
            Registered(s, p, t) && Registered(s, q, t) ==>
              p == q && t < |s.threads| && s.threads[t].state in {Blocked, Exited}
  {
    hide CallsOk, ProcessesOk, QueueOk, Run, AllowedRun, Registered;
  }

  /** With a sleeper entry for every thread, `sleep` never finds the table full. */
  lemma SleepersHaveRoom(s: State)
    requires Inv(s) && |s.threads| <= |s.sleepers|
    ensures FirstEmpty(s.sleepers, 0) < |s.sleepers|
  {
    hide CallsOk, ProcessesOk, QueueOk;
    if FirstEmpty(s.sleepers, 0) == |s.sleepers| {
      var owners := seq(|s.sleepers|, i requires 0 <= i < |s.sleepers| => s.sleepers[i].value.thread);
      forall i | 0 <= i < |s.sleepers| ensures Registered(s, InSleep(i), owners[i]) {
      }
      forall i, j | 0 <= i < j < |owners| ensures owners[i] != owners[j] {
        assert Registered(s, InSleep(i), owners[i]) && Registered(s, InSleep(j), owners[j]);
        assert InSleep(i) != InSleep(j);
      }
      RunningIsUnlisted(s);
      assert s.current.value !in owners;
      NotFull(owners, |s.threads|, s.current.value);
      assert false;
    }
  }

  lemma FutexWaitersHaveRoom(s: State)
    requires Inv(s) && |s.threads| <= |s.futexWaiters|
    ensures FirstEmpty(s.futexWaiters, 0) < |s.futexWaiters|
  {
    hide CallsOk, ProcessesOk, QueueOk;
    if FirstEmpty(s.futexWaiters, 0) == |s.futexWaiters| {
      var owners := seq(|s.futexWaiters|, i requires 0 <= i < |s.futexWaiters| => s.futexWaiters[i].value.thread);
      forall i | 0 <= i < |s.futexWaiters| ensures Registered(s, InFutex(i), owners[i]) {
      }
      forall i, j | 0 <= i < j < |owners| ensures owners[i] != owners[j] {
        assert Registered(s, InFutex(i), owners[i]) && Registered(s, InFutex(j), owners[j]);
        assert InFutex(i) != InFutex(j);
      }
      RunningIsUnlisted(s);
      assert s.current.value !in owners;
      NotFull(owners, |s.threads|, s.current.value);
      assert false;
    }
  }

  lemma {:induction false} RunSizes(s: State, steps: seq<Step>)
    requires Inv(s) && AllowedRun(s, steps)
    ensures |Run(s, steps).threads| == |s.threads|
    ensures |Run(s, steps).sleepers| == |s.sleepers|
    ensures |Run(s, steps).futexWaiters| == |s.futexWaiters|
    decreases |steps|
  {
    hide Base, Next, Allowed;
    if steps != [] {
      assert Shape(s) by { ShapeOf(s); }
      StepKeeps(s, steps[0]);
      ThreadCountSame(s, steps[0]);
      RunSizes(Next(s, steps[0]), steps[1..]);
    }
  }

  lemma ReachableSizes(n: nat, tables: nat, space: nat, steps: seq<Step>)
    requires 2 <= n < NO_THREAD
    requires Inv(Boot(n, tables, space)) && AllowedRun(Boot(n, tables, space), steps)
    ensures |Run(Boot(n, tables, space), steps).threads| == n
  {
    hide Run, AllowedRun, Inv;
    BootIs(n, tables, space);
    RunSizes(Boot(n, tables, space), steps);
  }

  /** In every reachable state of a kernel whose tables are as large as its thread table, as
      this one's are, neither wait table is full when the current thread wants to wait. */
  lemma WaitTablesNeverFill(n: nat, tables: nat, space: nat, steps: seq<Step>)
    requires 2 <= n < NO_THREAD && n <= tables
    requires Inv(Boot(n, tables, space)) && AllowedRun(Boot(n, tables, space), steps)
    ensures var f := Run(Boot(n, tables, space), steps);
            FirstEmpty(f.sleepers, 0) < |f.sleepers| && FirstEmpty(f.futexWaiters, 0) < |f.futexWaiters|
  {
    hide Run, AllowedRun;
    var s := Boot(n, tables, space);
    BootIs(n, tables, space);
    RunSizes(s, steps);
    SleepersHaveRoom(Run(s, steps));
    FutexWaitersHaveRoom(Run(s, steps));
  }
}
