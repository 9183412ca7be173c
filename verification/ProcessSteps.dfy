/** Every allowed step keeps the invariant: joining, exiting, collecting, spawning. */
module ProcessSteps {
  import opened Wrappers
  import opened ThreadTable
  import opened SchedulerInvariant
  import opened SchedulerSteps

  // ------------------------------------------------------------ finding records

  ghost predicate IdsOk(processes: seq<Process>) {
    && |processes| < NO_THREAD
    && forall i | 0 <= i < |processes| :: processes[i].id == NO_THREAD || processes[i].id == i + 1
  }

  lemma RecordIds(s: State)
    requires Shape(s) && ProcessesOk(s)
    ensures IdsOk(s.processes)
  {
    forall i | 0 <= i < |s.processes| ensures s.processes[i].id == NO_THREAD || s.processes[i].id == i + 1 {
      assert RecordOk(s, i);
    }
  }

  lemma FindLive(processes: seq<Process>, id: nat)
    requires IdsOk(processes) && Live(processes, id)
    ensures FindRecord(processes, id) == id - 1
  {
    var i := FindRecord(processes, id);
    assert processes[id - 1].id == id;
  }

  lemma {:induction false} ChildMainIs(processes: seq<Process>, from: nat, id: nat, parent: nat)
    requires IdsOk(processes) && from <= |processes| && id != NO_THREAD
    requires ChildMain(processes[from..], id, parent).Some?
    ensures Live(processes, id)
    ensures processes[id - 1].parent == Some(parent)
    ensures processes[id - 1].mainThread == ChildMain(processes[from..], id, parent)
    decreases |processes| - from
  {
    if !(processes[from].id == id && processes[from].parent == Some(parent)) {
      assert processes[from..][1..] == processes[from + 1..];
      ChildMainIs(processes, from + 1, id, parent);
    }
  }

  lemma {:induction false} ChildMainOfNone(processes: seq<Process>, parent: nat)
    requires forall i | 0 <= i < |processes| && processes[i].id == NO_THREAD :: processes[i].parent == None
    ensures ChildMain(processes, NO_THREAD, parent) == None
  {
    if processes != [] {
      ChildMainOfNone(processes[1..], parent);
    }
  }

  /** What a successful lookup of a child says. */
  lemma ChildFacts(s: State, process: nat, main: nat)
    requires Shape(s) && ProcessesOk(s)
    requires ChildOfCurrent(s, process) == Some(main)
    ensures s.current.Some? && s.current.value < |s.threads|
    ensures process != INIT_PROCESS && Live(s.processes, process)
    ensures s.processes[process - 1].parent == s.threads[s.current.value].process
    ensures s.processes[process - 1].mainThread == Some(main)
    ensures 1 <= main < |s.threads| && s.threads[main].process == Some(process)
    ensures main != s.current.value
  {
    RecordIds(s);
    var parent := CurrentProcess(s).value;
    forall i | 0 <= i < |s.processes| && s.processes[i].id == NO_THREAD ensures s.processes[i].parent == None {
      assert RecordOk(s, i);
    }
    ChildMainOfNone(s.processes, parent);
    assert s.processes[0..] == s.processes;
    ChildMainIs(s.processes, 0, process, parent);
    assert RecordOk(s, process - 1) && RecordOk(s, 0);
    var rank :| Ranked(s.processes, rank);
    assert parent != process;
  }

  // ---------------------------------------------------------- collecting a child

  /** The caller's suspended call, if it had one, is over; nothing else changed. */
  ghost predicate CallsEnded(pending: seq<Pending>, pending': seq<Pending>) {
    && |pending'| == |pending|
    && forall t | 0 <= t < |pending| :: pending'[t] == pending[t] || pending'[t] == NoCall
  }

  /** `x` stays exited; only its waiter count and whether it is reapable may change. */
  ghost predicate ExitedUpdate(s: State, s': State, x: nat) {
    && x < |s.threads| == |s'.threads|
    && s.threads[x].state == Exited
    && (exists count, reapable ::
          s'.threads == s.threads[x := s.threads[x].(joinWaiterCount := count, reapable := reapable)])
    && s'.sleepers == s.sleepers && s'.futexWaiters == s.futexWaiters
    && s'.queue == s.queue && s'.current == s.current && s'.activeSpace == s.activeSpace
  }

  lemma ExitedUpdateKeepsPlaces(s: State, s': State, x: nat)
    requires PlacesOk(s, [])
    requires ExitedUpdate(s, s', x)
    ensures PlacesOk(s', [])
    ensures SameRegistrations(s, s')
  {
    forall p, t: nat ensures Registered(s', p, t) <==> Registered(s, p, t) {
      if p.InJoin? && p.target != x && p.target < |s.threads| {
        assert s'.threads[p.target] == s.threads[p.target];
      }
    }
    assert forall t | 0 <= t < |s.threads| :: s'.threads[t].state == s.threads[t].state;
  }

  lemma ExitedUpdateKeepsQueue(s: State, s': State, x: nat)
    requires QueueOk(s) && 0 < |s.threads| && RunOk(s)
    requires ExitedUpdate(s, s', x)
    ensures QueueOk(s') && RunOk(s')
  {
    assert forall t | 0 <= t < |s.threads| :: s'.threads[t].state == s.threads[t].state
                                              && s'.threads[t].isUser == s.threads[t].isUser
                                              && s'.threads[t].process == s.threads[t].process;
  }

  /** Ending calls and raising `reapable` when the count has reached the callers left. */
  lemma ExitedUpdateKeepsCalls(s: State, s': State, x: nat)
    requires 0 < |s.pending| == |s.threads|
    requires CallsOk(s)
    requires ExitedUpdate(s, s', x) && SameRegistrations(s, s')
    requires CallsEnded(s.pending, s'.pending)
    requires forall p, t: nat | Registered(s, p, t) && t < |s.pending| :: s'.pending[t] == s.pending[t]
    requires Counted(s', x)
    ensures CallsOk(s')
  {
    hide Registered;
    forall t | 0 <= t < |s.threads| ensures CallListed(s', t) && Counted(s', t) {
      assert CallListed(s, t) && Counted(s, t);
      if t != x {
        assert s'.threads[t] == s.threads[t];
        SubsetCardinality(Callers(s'.pending, t), Callers(s.pending, t));
      }
    }
    assert ListsCalled(s');
  }

  lemma {:induction false} SubsetCardinality(a: set<nat>, b: set<nat>)
    requires a <= b
    ensures |a| <= |b|
  {
    if a != {} {
      var x :| x in a;
      SubsetCardinality(a - {x}, b - {x});
    }
  }

  /** A thread that is no main thread may become reapable. */
  lemma ReapKeepsProcesses(s: State, s': State, x: nat)
    requires |s.pending| == |s.threads| == |s.processes|
    requires ProcessesOk(s)
    requires ExitedUpdate(s, s', x)
    requires CallsEnded(s.pending, s'.pending)
    requires s'.processes == s.processes
    requires NobodysMain(s.processes, x)
    ensures ProcessesOk(s')
  {
    forall i | 0 <= i < |s.processes| ensures RecordOk(s', i) {
      assert RecordOk(s, i);
    }
    forall t | 0 <= t < |s.threads| ensures ThreadOk(s', t) && CallOk(s', t) {
      assert ThreadOk(s, t) && CallOk(s, t);
    }
  }

  /** The record of `p`, whose main thread `x` has exited, is cleared. */
  ghost predicate Collected(s: State, s': State, x: nat, p: nat) {
    && |s.pending| == |s.threads| == |s.processes| < NO_THREAD
    && ExitedUpdate(s, s', x)
    && CallsEnded(s.pending, s'.pending)
    && p != INIT_PROCESS && Live(s.processes, p) && s.processes[p - 1].mainThread == Some(x)
    && s'.processes == s.processes[p - 1 := EMPTY_PROCESS]
  }

  lemma CollectKeepsRecords(s: State, s': State, x: nat, p: nat)
    requires Collected(s, s', x, p)
    requires forall i | 0 <= i < |s.processes| :: RecordOk(s, i)
    ensures forall i | 0 <= i < |s.processes| :: RecordOk(s', i)
  {
    forall i | 0 <= i < |s.processes| ensures RecordOk(s', i) {
      assert RecordOk(s, i) && RecordOk(s, p - 1);
    }
  }

  lemma CollectKeepsThreads(s: State, s': State, x: nat, p: nat)
    requires Collected(s, s', x, p)
    requires RecordOk(s, p - 1)
    requires forall t | 0 <= t < |s.threads| :: ThreadOk(s, t)
    ensures forall t | 0 <= t < |s.threads| :: ThreadOk(s', t)
  {
    forall t | 0 <= t < |s.threads| ensures ThreadOk(s', t) {
      assert ThreadOk(s, t);
    }
  }

  lemma CollectKeepsCallers(s: State, s': State, x: nat, p: nat)
    requires Collected(s, s', x, p)
    requires forall t | 0 <= t < |s.threads| :: CallOk(s, t)
    requires NoCollector(s', p)
    ensures forall t | 0 <= t < |s.threads| :: CallOk(s', t)
  {
    forall t | 0 <= t < |s.threads| ensures CallOk(s', t) {
      assert CallOk(s, t);
    }
  }

  lemma CollectKeepsRest(s: State, s': State, x: nat, p: nat)
    requires Collected(s, s', x, p)
    requires ProcessesOk(s)
    requires forall i | 0 <= i < |s.processes| :: RecordOk(s', i)
    requires forall t | 0 <= t < |s.threads| :: ThreadOk(s', t)
    requires forall t | 0 <= t < |s.threads| :: CallOk(s', t)
    ensures ProcessesOk(s')
  {
    hide RecordOk, ThreadOk, CallOk, ExitedUpdate;
    assert |s'.threads| == |s.threads| by { SameLength(s, s', x); }
    var rank :| Ranked(s.processes, rank);
    assert Ranked(s'.processes, rank);
  }

  lemma SameLength(s: State, s': State, x: nat)
    requires ExitedUpdate(s, s', x)
    ensures |s'.threads| == |s.threads|
  {
  }

  /** An exited main thread may become reapable once its record is cleared. */
  lemma CollectKeepsProcesses(s: State, s': State, x: nat, p: nat)
    requires Collected(s, s', x, p)
    requires ProcessesOk(s)
    requires NoCollector(s', p)
    ensures ProcessesOk(s')
  {
    hide RecordOk, ThreadOk, CallOk, ExitedUpdate;
    CollectKeepsRecords(s, s', x, p);
    CollectKeepsThreads(s, s', x, p);
    CollectKeepsCallers(s, s', x, p);
    CollectKeepsRest(s, s', x, p);
  }

  /** The state after `x`'s status was read by the current thread `c`. */
  lemma StatusReadKeeps(s: State, s': State, x: nat)
    requires Inv(s)
    requires Shape(s') && ExitedUpdate(s, s', x)
    requires CallsEnded(s.pending, s'.pending)
    requires forall p, t: nat | Registered(s, p, t) && t < |s.pending| :: s'.pending[t] == s.pending[t]
    requires Counted(s', x)
    requires ProcessesOk(s')
    requires |s'.processes| == |s.processes|
    requires forall i | 0 <= i < |s.processes| && s'.processes[i] != s.processes[i] ::
               s.threads[s.current.value].process != Some(i + 1)
    ensures Inv(s')
  {
    hide PlacesOk, CallsOk, ProcessesOk, QueueOk, Registered;
    ExitedUpdateKeepsPlaces(s, s', x);
    ExitedUpdateKeepsQueue(s, s', x);
    ExitedUpdateKeepsCalls(s, s', x);
    CurrentHasRecord(s);
    var c := s.current.value;
    assert s'.threads[c] == s.threads[c];
  }

  lemma CurrentHasRecord(s: State)
    requires Inv(s)
    ensures s.current.value != IDLE ==>
              && s.threads[s.current.value].process.Some?
              && Live(s.processes, s.threads[s.current.value].process.value)
  {
    assert ThreadOk(s, s.current.value);
  }

  lemma CountedCallers(s: State, x: nat)
    requires Inv(s) && x < |s.threads|
    ensures Counted(s, x)
  {
  }

  /** Reading a status without having waited: `try_join`, or `join` on an exited thread. */
  function StatusRead(s: State, x: nat): State
    requires x < |s.threads|
  {
    var task := s.threads[x];
    s.(threads := s.threads[x := task.(reapable := task.reapable || task.joinWaiterCount == 0)])
  }

  lemma ExitedUpdateShape(s: State, s': State, x: nat)
    requires Shape(s)
    requires x < |s.threads| == |s'.threads|
    requires s'.threads == s.threads[x := s'.threads[x]] && ThreadShape(s'.threads[x], |s.threads|)
    requires s' == s.(threads := s'.threads, pending := s'.pending, processes := s'.processes)
    requires CallsEnded(s.pending, s'.pending)
    requires |s'.processes| == |s.processes|
    requires forall i | 0 <= i < |s.processes| :: s'.processes[i] in {s.processes[i], EMPTY_PROCESS}
    ensures Shape(s')
  {
  }

  lemma StatusReadAloneKeeps(s: State, x: nat)
    requires Inv(s) && x < |s.threads| && s.threads[x].state == Exited
    requires NobodysMain(s.processes, x)
    ensures Inv(StatusRead(s, x))
  {
    hide PlacesOk, CallsOk, ProcessesOk, QueueOk, Registered;
    var s' := StatusRead(s, x);
    CountedCallers(s, x);
    assert ExitedUpdate(s, s', x);
    assert ThreadShape(s.threads[x], |s.threads|);
    ExitedUpdateShape(s, s', x);
    ReapKeepsProcesses(s, s', x);
    StatusReadKeeps(s, s', x);
  }

  /** Collecting an exited child keeps the invariant, and the address space destroyed
      is not the one in use. */
  lemma CollectKeeps(s: State, process: nat, main: nat)
    requires Inv(s)
    requires ChildOfCurrent(s, process) == Some(main)
    requires main < |s.threads| && s.threads[main].state == Exited
    requires NoCollector(s, process)
    ensures Inv(Collect(StatusRead(s, main), process))
    ensures SpaceCollected(StatusRead(s, main), process).Some?
    ensures SpaceCollected(StatusRead(s, main), process).value != s.activeSpace
  {
    hide PlacesOk, CallsOk, QueueOk, Registered;
    ChildFacts(s, process, main);
    RecordIds(s);
    FindLive(s.processes, process);
    AddressSpaceOfLive(s.processes, 0, process);
    assert s.processes[0..] == s.processes;
    var s1 := StatusRead(s, main);
    var s' := Collect(s1, process);
    CountedCallers(s, main);
    assert ExitedUpdate(s, s', main);
    assert ThreadShape(s.threads[main], |s.threads|);
    ExitedUpdateShape(s, s', main);
    CollectKeepsProcesses(s, s', main, process);
    CurrentHasRecord(s);
    ParentIsOther(s, process);
    StatusReadKeeps(s, s', main);
  }

  /** No process is its own parent. */
  lemma ParentIsOther(s: State, process: nat)
    requires Shape(s) && ProcessesOk(s)
    requires process != INIT_PROCESS && Live(s.processes, process)
    ensures s.processes[process - 1].parent.Some?
    ensures s.processes[process - 1].parent != Some(process)
    ensures forall q | Live(s.processes, q) && q != process ::
              s.processes[q - 1].addressSpace != s.processes[process - 1].addressSpace
  {
    assert RecordOk(s, process - 1);
    var rank :| Ranked(s.processes, rank);
  }

  lemma TryWaitKeeps(s: State, process: nat)
    requires Inv(s) && NoCollector(s, process)
    ensures Inv(TryWaitProcess(s, process).0)
  {
    hide Base;
    var main := ChildOfCurrent(s, process);
    if main.Some? {
      ChildInRange(s, process);
      if s.threads[main.value].state == Exited {
        CollectKeeps(s, process, main.value);
        assert TryWaitProcess(s, process).0 == Collect(StatusRead(s, main.value), process);
      }
    }
  }

  lemma ChildInRange(s: State, process: nat)
    requires Inv(s) && ChildOfCurrent(s, process).Some?
    ensures ChildOfCurrent(s, process).value < |s.threads|
    ensures s.current.value != ChildOfCurrent(s, process).value
    ensures Shape(s)
  {
    hide PlacesOk, CallsOk, QueueOk, RunOk;
    ChildFacts(s, process, ChildOfCurrent(s, process).value);
  }

  /** The first exited child in the table is found again by its id. */
  lemma ExitedChildIs(s: State, i: nat)
    requires Inv(s) && CurrentProcess(s).Some?
    requires i < |s.processes| && ExitedChild(s, s.processes[i], CurrentProcess(s).value)
    ensures s.processes[i].id == i + 1
    ensures ChildOfCurrent(s, i + 1) == s.processes[i].mainThread
  {
    hide PlacesOk, CallsOk, QueueOk, RunOk;
    assert RecordOk(s, i);
    RecordIds(s);
    ChildMainAt(s.processes, 0, i, CurrentProcess(s).value);
    assert s.processes[0..] == s.processes;
  }

  lemma {:induction false} ChildMainAt(processes: seq<Process>, from: nat, i: nat, parent: nat)
    requires IdsOk(processes) && from <= i < |processes|
    requires processes[i].id == i + 1 && processes[i].parent == Some(parent)
    ensures ChildMain(processes[from..], i + 1, parent) == processes[i].mainThread
    decreases i - from
  {
    if from < i {
      assert processes[from..][1..] == processes[from + 1..];
      ChildMainAt(processes, from + 1, i, parent);
    }
  }

  lemma ReapAnyKeeps(s: State)
    requires Inv(s)
    requires ArgumentsAllowed(s, DoReapAny)
    ensures Inv(ReapAnyChild(s).0)
  {
    hide Base;
    assert Shape(s) by { assert Base(s, []); ShapeOf(s); }
    if CurrentProcess(s).Some? {
      var i := FirstExitedChild(s, CurrentProcess(s).value, 0);
      if i < |s.processes| {
        ExitedChildIs(s, i);
        var main := s.processes[i].mainThread.value;
        ChildInRange(s, i + 1);
        CollectKeeps(s, i + 1, main);
        assert ReapAnyChild(s).0 == Collect(StatusRead(s, main), i + 1);
      }
    }
  }

  // ------------------------------------------------------------------- resuming

  lemma RunningIsUnlisted(s: State)
    requires Inv(s)
    ensures forall p, t: nat | Registered(s, p, t) :: t < |s.threads| && t != s.current.value
  {
    hide CallsOk, ProcessesOk, QueueOk;
  }

  /** A suspended call of the running thread finds its target exited and still counted. */
  lemma ResumedTarget(s: State)
    requires Inv(s) && s.pending[s.current.value] != NoCall
    ensures s.current.value != IDLE
    ensures s.threads[s.pending[s.current.value].thread].state == Exited
    ensures s.current.value in Callers(s.pending, s.pending[s.current.value].thread)
    ensures s.threads[s.pending[s.current.value].thread].joinWaiterCount > 0
    ensures !s.threads[s.pending[s.current.value].thread].reapable
  {
    hide ProcessesOk, QueueOk;
    RunningIsUnlisted(s);
    var c := s.current.value;
    assert CallListed(s, c) && Counted(s, s.pending[c].thread);
    assert c in Callers(s.pending, s.pending[c].thread);
  }

  lemma OneCallerLess(pending: seq<Pending>, c: nat, x: nat)
    requires c < |pending| && pending[c].On(x)
    ensures Callers(pending[c := NoCall], x) == Callers(pending, x) - {c}
    ensures |Callers(pending[c := NoCall], x)| == |Callers(pending, x)| - 1
  {
    assert c in Callers(pending, x);
  }

  /** The state after `JoinTail`: the call is over and the caller no longer counted. */
  lemma TailIsStatusRead(s: State) returns (s': State, x: nat)
    requires Inv(s) && s.pending[s.current.value] != NoCall
    ensures x == s.pending[s.current.value].thread
    ensures s' == JoinTail(s.(pending := s.pending[s.current.value := NoCall]), x).0
    ensures Shape(s') && ExitedUpdate(s, s', x)
    ensures s'.pending == s.pending[s.current.value := NoCall] && CallsEnded(s.pending, s'.pending)
    ensures s'.processes == s.processes
    ensures forall p, t: nat | Registered(s, p, t) && t < |s.pending| :: s'.pending[t] == s.pending[t]
    ensures Counted(s', x)
    ensures JoinTail(s.(pending := s.pending[s.current.value := NoCall]), x).1 == Some(s.threads[x].exitStatus)
  {
    hide PlacesOk, CallsOk, ProcessesOk, QueueOk, Registered;
    var c := s.current.value;
    x := s.pending[c].thread;
    ResumedTarget(s);
    CountedCallers(s, x);
    OneCallerLess(s.pending, c, x);
    RunningIsUnlisted(s);
    s' := JoinTail(s.(pending := s.pending[c := NoCall]), x).0;
    assert ThreadShape(s.threads[x], |s.threads|);
    ExitedUpdateShape(s, s', x);
  }

  lemma ResumeJoinKeeps(s: State)
    requires Inv(s) && s.pending[s.current.value].Joining?
    ensures Inv(Resume(s).0)
    ensures Resume(s).1 == Some(s.threads[s.pending[s.current.value].thread].exitStatus)
  {
    hide PlacesOk, CallsOk, ProcessesOk, QueueOk, Registered, JoinTail, ExitedUpdate, CallsEnded;
    var s', x := TailIsStatusRead(s);
    CallFacts(s, s.current.value);
    ReapKeepsProcesses(s, s', x);
    StatusReadKeeps(s, s', x);
  }

  lemma ResumeCollectKeeps(s: State)
    requires Inv(s) && s.pending[s.current.value].Collecting?
    ensures Inv(Resume(s).0)
    ensures Resume(s).1 == Some(s.threads[s.pending[s.current.value].thread].exitStatus)
    ensures SpaceCollected(s, s.pending[s.current.value].process).Some?
    ensures SpaceCollected(s, s.pending[s.current.value].process).value != s.activeSpace
  {
    hide PlacesOk, CallsOk, ProcessesOk, QueueOk, RunOk, Registered, JoinTail, CallsEnded, ExitedUpdate, Resume, Collect,
         Counted, ThreadShape, Below;
    var c := s.current.value;
    var p := s.pending[c].process;
    var s2, x := TailIsStatusRead(s);
    ResumedTarget(s);
    CallFacts(s, c);
    RecordIds(s);
    FindLive(s.processes, p);
    AddressSpaceOfLive(s.processes, 0, p);
    assert s.processes[0..] == s.processes;
    var s3 := s2.(processes := s.processes[p - 1 := EMPTY_PROCESS]);
    ResumeIsCollect(s, s2, x, p);
    CollectedShape(s2, p);
    CollectedUpdate(s, s2, s3, x, p);
    CollectKeepsProcesses(s, s3, x, p);
    ParentIsOther(s, p);
    CurrentHasRecord(s);
    StatusReadKeeps(s, s3, x);
  }

  lemma ResumeIsCollect(s: State, s2: State, x: nat, p: nat)
    requires Shape(s) && s.current.Some? && s.pending[s.current.value] == Collecting(x, p)
    requires JoinTail(s.(pending := s.pending[s.current.value := NoCall]), x) == (s2, Some(s.threads[x].exitStatus))
    requires s2.processes == s.processes && FindRecord(s.processes, p) == p - 1 < |s.processes|
    ensures Resume(s) == (s2.(processes := s.processes[p - 1 := EMPTY_PROCESS]), Some(s.threads[x].exitStatus))
  {
    hide JoinTail, Shape;
  }

  /** After the tail of the join the record is cleared, and nobody else collects the process. */
  lemma CollectedUpdate(s: State, s2: State, s3: State, x: nat, p: nat)
    requires Shape(s) && s.current.Some? && s.pending[s.current.value] == Collecting(x, p)
    requires ExitedUpdate(s, s2, x) && s2.pending == s.pending[s.current.value := NoCall] && s2.processes == s.processes
    requires p != INIT_PROCESS && Live(s.processes, p) && s.processes[p - 1].mainThread == Some(x)
    requires s3 == s2.(processes := s.processes[p - 1 := EMPTY_PROCESS])
    requires forall t | 0 <= t < |s.pending| && t != s.current.value :: !(s.pending[t].Collecting? && s.pending[t].process == p)
    ensures Collected(s, s3, x, p) && NoCollector(s3, p)
    ensures Counted(s2, x) ==> Counted(s3, x)
  {
  }

  lemma CollectedShape(s: State, p: nat)
    requires Shape(s) && 1 <= p <= |s.processes|
    ensures Shape(s.(processes := s.processes[p - 1 := EMPTY_PROCESS]))
  {
  }

  lemma ResumeKeeps(s: State)
    requires Inv(s) && s.pending[s.current.value] != NoCall
    ensures Inv(Resume(s).0)
    ensures Resume(s).1 == Some(s.threads[s.pending[s.current.value].thread].exitStatus)
  {
    hide Base, Resume;
    assert Shape(s) by { ShapeOf(s); }
    if s.pending[s.current.value].Joining? {
      ResumeJoinKeeps(s);
    } else {
      ResumeCollectKeeps(s);
    }
  }

  lemma CallFacts(s: State, c: nat)
    requires Shape(s) && ProcessesOk(s) && c < |s.threads|
    ensures s.pending[c].Joining? ==>
              NobodysMain(s.processes, s.pending[c].thread)
    ensures s.pending[c].Collecting? ==>
              && var p := s.pending[c].process;
              && p != INIT_PROCESS && Live(s.processes, p)
              && s.processes[p - 1].mainThread == Some(s.pending[c].thread)
              && s.processes[p - 1].parent == s.threads[c].process
              && forall t | 0 <= t < |s.pending| && t != c :: !(s.pending[t].Collecting? && s.pending[t].process == p)
  {
    assert CallOk(s, c);
    assert RecordOk(s, 0);
  }
}
