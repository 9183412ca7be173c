/** Every allowed step keeps the invariant: blocking joins, endings, spawns. */
module LifecycleSteps {
  import opened Wrappers
  import opened ThreadTable
  import opened Words
  import opened SchedulerInvariant
  import opened SchedulerSteps
  import opened ProcessSteps

  // -------------------------------------------------------------- blocking joins

  /** Any list of distinct threads that misses the caller has room for it, so a join
      never fails because the waiter list is full. */
  lemma JoinListHasRoom(s: State, x: nat)
    requires Inv(s) && x < |s.threads| && s.threads[x].state != Exited
    ensures s.threads[x].joinWaiterCount < |s.threads|
  {
    hide CallsOk, ProcessesOk, QueueOk;
    var c := s.current.value;
    var list := JoinList(s.threads[x]);
    assert ThreadShape(s.threads[x], |s.threads|);
    RunningIsUnlisted(s);
    forall j | 0 <= j < |list| ensures Registered(s, InJoin(x, j), list[j]) {
    }
    forall i, j | 0 <= i < j < |list| ensures list[i] != list[j] {
      assert Registered(s, InJoin(x, i), list[i]) && Registered(s, InJoin(x, j), list[j]);
    }
    assert c !in list;
    NotFull(list, |s.threads|, c);
  }

  /** The current thread on the join list of `x`, about to block in `call`. */
  function Listed(s: State, x: nat, call: Pending): State
    requires Shape(s) && s.current.Some? && x < |s.threads|
    requires s.threads[x].joinWaiterCount < |s.threads|
  {
    var c := s.current.value;
    var task := s.threads[x];
    assert ThreadShape(task, |s.threads|);
    var listed := task.(joinWaiters := task.joinWaiters[task.joinWaiterCount := c],
                        joinWaiterCount := task.joinWaiterCount + 1);
    var threads := s.threads[x := listed];
    s.(threads := SetState(threads, c, Blocked), pending := s.pending[c := call])
  }

  lemma ListedRegisters(s: State, x: nat, call: Pending)
    requires Inv(s) && s.current.value != IDLE && x < |s.threads| && x != s.current.value
    requires s.threads[x].state != Exited && s.threads[x].joinWaiterCount < |s.threads|
    ensures BlockedAt(s, Listed(s, x, call), s.current.value, InJoin(x, s.threads[x].joinWaiterCount))
  {
    hide PlacesOk, CallsOk, ProcessesOk, QueueOk;
    var c := s.current.value;
    var k := s.threads[x].joinWaiterCount;
    var s' := Listed(s, x, call);
    assert ThreadShape(s.threads[x], |s.threads|);
    assert s'.threads[x].joinWaiters == s.threads[x].joinWaiters[k := c];
    assert s'.threads[c] == s.threads[c].(state := Blocked);
    forall p, t: nat
      ensures Registered(s', p, t) <==> Registered(s, p, t) || (p == InJoin(x, k) && t == c)
    {
      if p.InJoin? && p.target < |s.threads| && p.target != x && p.target != c {
        assert s'.threads[p.target] == s.threads[p.target];
      }
    }
  }

  lemma ListedShape(s: State, x: nat, call: Pending)
    requires Shape(s) && s.current.Some? && x < |s.threads|
    requires s.threads[x].joinWaiterCount < |s.threads|
    requires call.On(x)
    ensures Shape(Listed(s, x, call))
  {
    var s' := Listed(s, x, call);
    forall t | 0 <= t < |s.threads| ensures ThreadShape(s'.threads[t], |s.threads|) {
      assert ThreadShape(s.threads[t], |s.threads|);
    }
  }

  lemma ListedCounts(s: State, x: nat, call: Pending, y: nat)
    requires Inv(s) && x < |s.threads| && x != s.current.value
    requires s.threads[x].state != Exited && s.threads[x].joinWaiterCount < |s.threads|
    requires s.pending[s.current.value] == NoCall && call.On(x)
    requires y < |s.threads|
    ensures Counted(Listed(s, x, call), y)
  {
    hide Base, Callers, Listed;
    assert Shape(s) by { ShapeOf(s); }
    assert Counted(s, y) by { CountedOf(s, y); }
    ListedCallers(s, x, call, y);
    ListedThread(s, x, call, y);
  }

  lemma CountedOf(s: State, y: nat)
    requires Inv(s) && y < |s.threads|
    ensures Counted(s, y)
  {
    hide PlacesOk, ProcessesOk, QueueOk;
  }

  lemma ListedCallers(s: State, x: nat, call: Pending, y: nat)
    requires Shape(s) && s.current.Some? && x < |s.threads| && s.threads[x].joinWaiterCount < |s.threads|
    requires s.pending[s.current.value] == NoCall && call.On(x)
    ensures Callers(Listed(s, x, call).pending, y) == Callers(s.pending, y) + if y == x then {s.current.value} else {}
  {
  }

  lemma ListedThread(s: State, x: nat, call: Pending, y: nat)
    requires Shape(s) && s.current.Some? && x < |s.threads| && s.threads[x].joinWaiterCount < |s.threads|
    requires x != s.current.value && y < |s.threads| && s.threads[s.current.value].state == Running
    ensures var a, b := s.threads[y], Listed(s, x, call).threads[y];
            && b.joinWaiterCount == a.joinWaiterCount + (if y == x then 1 else 0)
            && (Reusable(b) ==> Reusable(a))
  {
    assert ThreadShape(s.threads[x], |s.threads|);
  }

  lemma ListedCalls(s: State, x: nat, call: Pending)
    requires Inv(s) && s.current.value != IDLE && x < |s.threads| && x != s.current.value
    requires s.threads[x].state != Exited && s.threads[x].joinWaiterCount < |s.threads|
    requires s.pending[s.current.value] == NoCall && call.On(x)
    requires BlockedAt(s, Listed(s, x, call), s.current.value, InJoin(x, s.threads[x].joinWaiterCount))
    ensures CallsOk(Listed(s, x, call))
  {
    hide PlacesOk, ProcessesOk, QueueOk, Registered, Counted;
    var c := s.current.value;
    var s' := Listed(s, x, call);
    var place := InJoin(x, s.threads[x].joinWaiterCount);
    assert Registered(s', place, c);
    forall t | 0 <= t < |s.threads| ensures CallListed(s', t) && Counted(s', t) {
      ListedCounts(s, x, call, t);
      assert CallListed(s, t);
    }
    assert ListsCalled(s');
  }

  lemma ListedProcesses(s: State, x: nat, call: Pending)
    requires Inv(s) && s.current.value != IDLE && x < |s.threads| && x != s.current.value
    requires s.threads[x].state != Exited && s.threads[x].joinWaiterCount < |s.threads|
    requires s.pending[s.current.value] == NoCall && call.On(x)
    requires CallOk(s.(pending := s.pending[s.current.value := call]), s.current.value)
    requires call.Collecting? ==> NoCollector(s, call.process)
    ensures ProcessesOk(Listed(s, x, call))
  {
    hide PlacesOk, CallsOk, QueueOk, RecordOk, ThreadOk, CallOk, SameStanding, Listed;
    var s' := Listed(s, x, call);
    ListedStanding(s, x, call);
    RecordsFrame(s, s');
    forall t | 0 <= t < |s.threads| ensures CallOk(s', t) {
      ListedCallOk(s, x, call, t);
    }
  }

  /** Being listed changes no thread's standing, and only the caller's suspended call. */
  lemma ListedStanding(s: State, x: nat, call: Pending)
    requires Shape(s) && s.current.Some? && x < |s.threads| && x != s.current.value
    requires s.threads[x].joinWaiterCount < |s.threads|
    requires s.threads[s.current.value].state != Exited
    ensures SameStanding(s.threads, Listed(s, x, call).threads)
    ensures Listed(s, x, call).processes == s.processes
    ensures Listed(s, x, call).pending == s.pending[s.current.value := call]
  {
  }

  lemma ListedCallOk(s: State, x: nat, call: Pending, t: nat)
    requires Shape(s) && s.current.Some? && x < |s.threads| && x != s.current.value && t < |s.threads|
    requires s.threads[x].joinWaiterCount < |s.threads|
    requires s.threads[s.current.value].state != Exited
    requires CallOk(s, t) && CallOk(s.(pending := s.pending[s.current.value := call]), s.current.value)
    ensures CallOk(Listed(s, x, call), t)
  {
    hide Listed;
    ListedStanding(s, x, call);
  }

  lemma BlockingJoinKeeps(s: State, x: nat, call: Pending)
    requires Inv(s) && s.current.value != IDLE && x < |s.threads| && x != s.current.value
    requires s.threads[x].state != Exited
    requires s.pending[s.current.value] == NoCall && call.On(x)
    requires CallOk(s.(pending := s.pending[s.current.value := call]), s.current.value)
    requires call.Collecting? ==> NoCollector(s, call.process)
    ensures s.threads[x].joinWaiterCount < |s.threads|
    ensures Between(Listed(s, x, call), s.current.value)
    ensures JoinAs(s, x, call) == (ScheduleFrom(Listed(s, x, call), s.current.value), Suspended)
    ensures Inv(JoinAs(s, x, call).0)
  {
    hide PlacesOk, CallsOk, ProcessesOk, QueueOk, ScheduleFrom, BlockedAt, CallOk;
    var c := s.current.value;
    JoinListHasRoom(s, x);
    ListedRegisters(s, x, call);
    ListedShape(s, x, call);
    ListedCalls(s, x, call);
    ListedProcesses(s, x, call);
    BlockKeeps(s, Listed(s, x, call), c, InJoin(x, s.threads[x].joinWaiterCount));
    JoinAsIsListed(s, x, call);
  }

  lemma JoinAsIsListed(s: State, x: nat, call: Pending)
    requires Shape(s) && s.current.Some? && s.current.value != IDLE && x < |s.threads| && x != s.current.value
    requires s.threads[x].state != Exited && s.threads[x].joinWaiterCount < |s.threads|
    requires call.On(x)
    requires Shape(Listed(s, x, call))
    ensures JoinAs(s, x, call) == (ScheduleFrom(Listed(s, x, call), s.current.value), Suspended)
  {
    hide ScheduleFrom;
  }

  lemma JoinKeeps(s: State, x: nat)
    requires Inv(s) && s.current.value != IDLE
    requires s.pending[s.current.value] == NoCall
    requires NobodysMain(s.processes, x)
    ensures Inv(Join(s, x).0)
  {
    hide Base;
    assert Shape(s) by { ShapeOf(s); }
    if x < |s.threads| && x != s.current.value {
      if s.threads[x].state == Exited {
        StatusReadAloneKeeps(s, x);
        assert Join(s, x).0 == StatusRead(s, x);
      } else {
        BlockingJoinKeeps(s, x, Joining(x));
      }
    }
  }

  lemma WaitKeeps(s: State, process: nat)
    requires Inv(s) && s.current.value != IDLE
    requires s.pending[s.current.value] == NoCall && NoCollector(s, process)
    ensures Inv(WaitProcess(s, process).0)
  {
    hide Base;
    assert Shape(s) by { ShapeOf(s); }
    var child := ChildOfCurrent(s, process);
    if child.Some? {
      var main := child.value;
      ChildInRange(s, process);
      if s.threads[main].state == Exited {
        CollectKeeps(s, process, main);
        assert WaitProcess(s, process).0 == Collect(StatusRead(s, main), process);
      } else {
        CollectingCallOk(s, process, main);
        BlockingJoinKeeps(s, main, Collecting(main, process));
      }
    }
  }

  lemma CollectingCallOk(s: State, process: nat, main: nat)
    requires Inv(s) && ChildOfCurrent(s, process) == Some(main)
    ensures CallOk(s.(pending := s.pending[s.current.value := Collecting(main, process)]), s.current.value)
  {
    hide PlacesOk, CallsOk, QueueOk;
    ChildFacts(s, process, main);
    assert RecordOk(s, process - 1);
  }

  // ---------------------------------------------------------------------- ending

  /** Thread `x` marked exited, its waiters not yet woken. */
  function Ended(s: State, x: nat, status: U64, reapable: bool, processes: seq<Process>): State
    requires x < |s.threads|
  {
    s.(threads := s.threads[x := s.threads[x].(state := Exited, exitStatus := status, reapable := reapable)],
       processes := processes)
  }

  lemma EndedPlaces(s: State, x: nat, status: U64, reapable: bool, processes: seq<Process>)
    requires Shape(s) && PlacesOk(s, []) && x < |s.threads| && s.threads[x].state != Exited
    ensures PlacesOk(Ended(s, x, status, reapable, processes), JoinList(s.threads[x]))
  {
    var s' := Ended(s, x, status, reapable, processes);
    var list := JoinList(s.threads[x]);
    assert ThreadShape(s.threads[x], |s.threads|);
    forall p, t: nat
      ensures Registered(s', p, t) <==> Registered(s, p, t) && !(p.InJoin? && p.target == x)
    {
      if p.InJoin? && p.target < |s.threads| && p.target != x {
        assert s'.threads[p.target] == s.threads[p.target];
      }
    }
    forall t | 0 <= t < |s.threads| && s'.threads[t].state == Blocked
      ensures t in list || exists p :: Registered(s', p, t)
    {
      var p :| Registered(s, p, t);
      if p.InJoin? && p.target == x {
        assert list[p.j] == t;
      } else {
        assert Registered(s', p, t);
      }
    }
    forall p, t: nat | Registered(s', p, t) ensures t !in list {
      if t in list {
        var j :| 0 <= j < |list| && list[j] == t;
        assert Registered(s, InJoin(x, j), t);
      }
    }
  }

  lemma EndedCalls(s: State, x: nat, status: U64, processes: seq<Process>)
    requires Shape(s) && CallsOk(s) && x < |s.threads| && s.threads[x].state != Exited
    ensures CallsOk(Ended(s, x, status, false, processes))
  {
    var s' := Ended(s, x, status, false, processes);
    forall p, t: nat
      ensures Registered(s', p, t) <==> Registered(s, p, t) && !(p.InJoin? && p.target == x)
    {
      if p.InJoin? && p.target < |s.threads| && p.target != x {
        assert s'.threads[p.target] == s.threads[p.target];
      }
    }
    hide Registered;
    forall t | 0 <= t < |s.threads| ensures CallListed(s', t) && Counted(s', t) {
      assert CallListed(s, t) && Counted(s, t);
    }
    assert ListsCalled(s');
  }

  lemma EndedQueue(s: State, x: nat, status: U64, processes: seq<Process>)
    requires 0 < |s.threads| && QueueOk(s) && RunOk(s)
    requires x < |s.threads| && x != IDLE
    ensures QueueOk(Ended(s, x, status, false, processes)) && RunOk(Ended(s, x, status, false, processes))
  {
  }

  lemma EndedShape(s: State, x: nat, status: U64, processes: seq<Process>)
    requires Shape(s) && x < |s.threads|
    requires |processes| == |s.processes|
    requires forall i | 0 <= i < |processes| :: processes[i].mainThread == s.processes[i].mainThread
    ensures Shape(Ended(s, x, status, false, processes))
  {
    var s' := Ended(s, x, status, false, processes);
    forall t | 0 <= t < |s.threads| ensures ThreadShape(s'.threads[t], |s.threads|) {
      assert ThreadShape(s.threads[t], |s.threads|);
    }
  }

  lemma EndedKeeps(s: State, x: nat, status: U64, processes: seq<Process>)
    requires Base(s, []) && 0 < x < |s.threads| && s.threads[x].state != Exited
    requires |processes| == |s.processes|
    requires forall i | 0 <= i < |processes| :: processes[i].mainThread == s.processes[i].mainThread
    requires ProcessesOk(Ended(s, x, status, false, processes))
    ensures Base(Ended(s, x, status, false, processes), JoinList(s.threads[x]))
    ensures Below(JoinList(s.threads[x]), |s.threads|)
  {
    hide PlacesOk, CallsOk, ProcessesOk, QueueOk, RunOk;
    assert ThreadShape(s.threads[x], |s.threads|);
    EndedPlaces(s, x, status, false, processes);
    EndedCalls(s, x, status, processes);
    EndedQueue(s, x, status, processes);
    EndedShape(s, x, status, processes);
  }

  // -------------------------------------------------------------------- exiting

  lemma {:induction false} ProcessOfMainIs(processes: seq<Process>, from: nat, x: nat, p: nat)
    requires from < p <= |processes|
    requires processes[p - 1].mainThread == Some(x) && processes[p - 1].id == p
    requires forall i | 0 <= i < |processes| && i != p - 1 :: processes[i].mainThread != Some(x)
    ensures ProcessOfMain(processes[from..], x) == Some(p)
    decreases p - from
  {
    if from + 1 < p {
      assert processes[from..][1..] == processes[from + 1..];
      ProcessOfMainIs(processes, from + 1, x, p);
    }
  }

  lemma {:induction false} ProcessOfMainNone(processes: seq<Process>, x: nat)
    requires NobodysMain(processes, x)
    ensures ProcessOfMain(processes, x) == None
  {
    if processes != [] {
      ProcessOfMainNone(processes[1..], x);
    }
  }

  /** Which records an exit of the current thread re-parents. */
  lemma ReparentIs(s: State, c: nat) returns (p: nat)
    requires Inv(s) && s.current == Some(c) && c != IDLE
    ensures s.threads[c].process == Some(p) && Live(s.processes, p)
    ensures p != INIT_PROCESS ==> s.processes[p - 1].mainThread == Some(c)
    ensures forall i | 0 <= i < |s.processes| && i != p - 1 :: s.processes[i].mainThread != Some(c)
    ensures p == INIT_PROCESS ==> Reparent(s.processes, c) == s.processes
    ensures p != INIT_PROCESS ==>
              forall i | 0 <= i < |s.processes| :: Reparent(s.processes, c)[i] == Adopt(s.processes[i], p)
  {
    hide PlacesOk, CallsOk, QueueOk;
    assert ThreadOk(s, c);
    p := s.threads[c].process.value;
    forall i | 0 <= i < |s.processes| && s.processes[i].mainThread == Some(c) ensures i == p - 1 {
      assert RecordOk(s, i);
    }
    assert RecordOk(s, 0);
    assert s.processes[0..] == s.processes;
    if p == INIT_PROCESS {
      ProcessOfMainNone(s.processes, c);
    } else {
      ProcessOfMainIs(s.processes, 0, c, p);
    }
  }

  /** Thread `c` is exited and not reapable; all other threads are as before. */
  ghost predicate SameButEnded(a: seq<Thread>, b: seq<Thread>, c: nat) {
    && c < |a| == |b|
    && (forall t | 0 <= t < |a| && t != c :: b[t] == a[t])
    && b[c].state == Exited && !b[c].reapable && b[c].isUser == a[c].isUser && b[c].process == a[c].process
  }

  /** Ids and main threads are as before. */
  ghost predicate SameMains(a: seq<Process>, b: seq<Process>) {
    && |a| == |b|
    && forall i | 0 <= i < |a| ::
         && b[i].id == a[i].id && b[i].mainThread == a[i].mainThread
         && b[i].addressSpace == a[i].addressSpace
  }

  /** When a thread of process `p` ends, only `p` can no longer collect children. */
  lemma OthersCanCollect(s: State, s': State, x: nat, p: nat)
    requires forall i | 0 <= i < |s.processes| :: RecordOk(s, i)
    requires SameButEnded(s.threads, s'.threads, x) && s.threads[x].process == Some(p)
    requires SameMains(s.processes, s'.processes)
    ensures forall q: nat | CanCollect(s, q) && (q != p || q == INIT_PROCESS) :: CanCollect(s', q)
  {
    forall q: nat | CanCollect(s, q) && (q != p || q == INIT_PROCESS) ensures CanCollect(s', q) {
      assert RecordOk(s, q - 1);
    }
  }

  lemma EndKeepsThreads(s: State, s': State, x: nat)
    requires |s.threads| == |s.processes|
    requires forall t | 0 <= t < |s.threads| :: ThreadOk(s, t)
    requires SameButEnded(s.threads, s'.threads, x)
    requires SameMains(s.processes, s'.processes)
    ensures forall t | 0 <= t < |s.threads| :: ThreadOk(s', t)
  {
    forall t | 0 <= t < |s.threads| ensures ThreadOk(s', t) {
      assert ThreadOk(s, t);
    }
  }

  lemma ExitKeepsRecords(s: State, s': State, c: nat, p: nat)
    requires |s.pending| == |s.threads| == |s.processes|
    requires ProcessesOk(s)
    requires SameButEnded(s.threads, s'.threads, c)
    requires s.threads[c].process == Some(p)
    requires SameMains(s.processes, s'.processes)
    requires p == INIT_PROCESS ==> s'.processes == s.processes
    requires p != INIT_PROCESS ==> forall i | 0 <= i < |s.processes| :: s'.processes[i] == Adopt(s.processes[i], p)
    ensures forall i | 0 <= i < |s.processes| :: RecordOk(s', i)
    ensures exists rank :: Ranked(s'.processes, rank)
  {
    OthersCanCollect(s, s', c, p);
    assert RecordOk(s, 0);
    forall i | 0 <= i < |s.processes| ensures RecordOk(s', i) {
      assert RecordOk(s, i);
      assert s'.processes[i].parent.Some? ==> CanCollect(s', s'.processes[i].parent.value);
    }
    var rank :| Ranked(s.processes, rank);
    assert Ranked(s'.processes, rank);
  }

  lemma ExitKeepsCallers(s: State, s': State, c: nat, p: nat)
    requires |s.pending| == |s.threads| == |s.processes|
    requires forall t | 0 <= t < |s.threads| :: ThreadOk(s, t)
    requires forall t | 0 <= t < |s.threads| :: CallOk(s, t)
    requires SameButEnded(s.threads, s'.threads, c)
    requires s.pending[IDLE] == NoCall && s.pending[c] == NoCall
    requires s.threads[c].process == Some(p)
    requires p != INIT_PROCESS ==> Live(s.processes, p) && s.processes[p - 1].mainThread == Some(c)
    requires SameMains(s.processes, s'.processes) && s'.pending == s.pending
    requires forall i | 0 <= i < |s.processes| ::
               s'.processes[i] == s.processes[i] || (p != INIT_PROCESS && s'.processes[i] == Adopt(s.processes[i], p))
    ensures forall t | 0 <= t < |s.threads| :: CallOk(s', t)
  {
    forall t | 0 <= t < |s.threads| ensures CallOk(s', t) {
      assert CallOk(s, t) && ThreadOk(s, t);
      if s.pending[t].Collecting? {
        assert t != c && t != IDLE;
      }
    }
  }

  lemma ExitKeepsProcesses(s: State, s': State, c: nat, p: nat)
    requires Inv(s) && s.current == Some(c) && c != IDLE
    requires s.pending[c] == NoCall
    requires s.threads[c].process == Some(p) && Live(s.processes, p)
    requires p != INIT_PROCESS ==> s.processes[p - 1].mainThread == Some(c)
    requires s'.pending == s.pending
    requires SameButEnded(s.threads, s'.threads, c)
    requires SameMains(s.processes, s'.processes)
    requires p == INIT_PROCESS ==> s'.processes == s.processes
    requires p != INIT_PROCESS ==> forall i | 0 <= i < |s.processes| :: s'.processes[i] == Adopt(s.processes[i], p)
    ensures ProcessesOk(s')
  {
    hide PlacesOk, CallsOk, QueueOk, RecordOk, ThreadOk, CallOk;
    ExitKeepsRecords(s, s', c, p);
    EndKeepsThreads(s, s', c);
    IdleNeverCalls(s);
    ExitKeepsCallers(s, s', c, p);
  }

  lemma IdleNeverCalls(s: State)
    requires Inv(s)
    ensures s.pending[IDLE] == NoCall
  {
  }

  lemma {:induction false} WakeAllCommutes(s: State, processes: seq<Process>, waiters: seq<nat>)
    ensures WakeAll(s.(processes := processes), waiters) == WakeAll(s, waiters).(processes := processes)
    decreases |waiters|
  {
    if waiters != [] {
      assert Wake(s.(processes := processes), waiters[0]).0 == Wake(s, waiters[0]).0.(processes := processes);
      WakeAllCommutes(Wake(s, waiters[0]).0, processes, waiters[1..]);
    }
  }

  lemma ReparentKeepsMains(processes: seq<Process>, x: nat)
    ensures forall i | 0 <= i < |processes| :: Reparent(processes, x)[i].mainThread == processes[i].mainThread
    ensures forall i | 0 <= i < |processes| :: Reparent(processes, x)[i].id == processes[i].id
    ensures forall i | 0 <= i < |processes| :: Reparent(processes, x)[i].addressSpace == processes[i].addressSpace
  {
  }

  /** The state just before an exiting thread gives up the processor. */
  function ExitedState(s: State, c: nat, status: U64): State
    requires Shape(s) && c < |s.threads|
  {
    assert ThreadShape(s.threads[c], |s.threads|);
    WakeAll(Ended(s, c, status, false, Reparent(s.processes, c)), JoinList(s.threads[c]))
  }

  lemma ExitIsSchedule(s: State, status: U64)
    requires Inv(s) && s.current.value != IDLE
    requires Shape(ExitedState(s, s.current.value, status))
    ensures ExitCurrent(s, status) == ScheduleFrom(ExitedState(s, s.current.value, status), s.current.value)
  {
    hide PlacesOk, CallsOk, QueueOk, ScheduleFrom, Reparent;
    var c := s.current.value;
    assert ThreadOk(s, c);
    var ended := Ended(s, c, status, false, s.processes);
    WakeAllCommutes(ended, Reparent(s.processes, c), JoinList(s.threads[c]));
    WakeAllShape(s.(threads := ended.threads), JoinList(s.threads[c]));
    assert s.threads[c].isUser;
    assert ended.threads == s.threads[c := s.threads[c].(state := Exited, exitStatus := status, reapable := !s.threads[c].isUser)];
  }

  lemma ExitKeeps(s: State, status: U64)
    requires Inv(s) && s.current.value != IDLE
    requires s.pending[s.current.value] == NoCall
    ensures Between(ExitedState(s, s.current.value, status), s.current.value)
    ensures ExitCurrent(s, status) == ScheduleFrom(ExitedState(s, s.current.value, status), s.current.value)
    ensures WakeFrame(Ended(s, s.current.value, status, false, Reparent(s.processes, s.current.value)),
                      ExitedState(s, s.current.value, status))
    ensures Inv(ExitCurrent(s, status))
  {
    hide PlacesOk, CallsOk, ProcessesOk, QueueOk, ScheduleFrom, Reparent, WakeAll, ExitCurrent;
    var c := s.current.value;
    var p := ReparentIs(s, c);
    ReparentKeepsMains(s.processes, c);
    var ended := Ended(s, c, status, false, Reparent(s.processes, c));
    ExitKeepsProcesses(s, ended, c, p);
    EndedKeeps(s, c, status, Reparent(s.processes, c));
    WakeAllKeeps(ended, JoinList(s.threads[c]));
    var s' := ExitedState(s, c, status);
    ExitIsSchedule(s, status);
    ScheduleKeeps(s', c);
  }

  // ---------------------------------------------------------------- terminating

  lemma TerminateKeepsCallers(s: State, s': State, p: nat, x: nat)
    requires |s.pending| == |s.threads| == |s.processes|
    requires forall t | 0 <= t < |s.threads| :: CallOk(s, t)
    requires SameButEnded(s.threads, s'.threads, x) && s.threads[x].process == Some(p)
    requires Childless(s.processes, p)
    requires s'.processes == s.processes && s'.pending == s.pending
    ensures forall t | 0 <= t < |s.threads| :: CallOk(s', t)
  {
    forall t | 0 <= t < |s.threads| ensures CallOk(s', t) {
      assert CallOk(s, t);
      assert s.pending[t].Collecting? ==> s.processes[s.pending[t].process - 1].parent == s.threads[t].process;
    }
  }

  lemma TerminateKeepsProcesses(s: State, p: nat, main: nat)
    requires Inv(s)
    requires ChildOfCurrent(s, p) == Some(main) && main < |s.threads| && s.threads[main].state != Exited
    requires Childless(s.processes, p)
    ensures ProcessesOk(Ended(s, main, TERMINATED_STATUS, false, s.processes))
    ensures !s.threads[main].reapable && main != IDLE
  {
    hide PlacesOk, CallsOk, QueueOk, CallOk;
    ChildFacts(s, p, main);
    var s' := Ended(s, main, TERMINATED_STATUS, false, s.processes);
    assert ThreadOk(s, main);
    OthersCanCollect(s, s', main, p);
    forall i | 0 <= i < |s.processes| ensures RecordOk(s', i) {
      assert RecordOk(s, i);
    }
    EndKeepsThreads(s, s', main);
    TerminateKeepsCallers(s, s', p, main);
  }

  lemma TerminateKeeps(s: State, p: nat)
    requires Inv(s) && s.current.value != IDLE
    requires Childless(s.processes, p)
    ensures Inv(TerminateProcess(s, p).0)
  {
    hide PlacesOk, CallsOk, ProcessesOk, QueueOk, WakeAll;
    var child := ChildOfCurrent(s, p);
    if child.Some? {
      var main := child.value;
      ChildInRange(s, p);
      if s.threads[main].state != Exited {
        TerminateKeepsProcesses(s, p, main);
        var ended := Ended(s, main, TERMINATED_STATUS, false, s.processes);
        EndedKeeps(s, main, TERMINATED_STATUS, s.processes);
        WakeAllKeeps(ended, JoinList(s.threads[main]));
        assert ended.threads == s.threads[main := s.threads[main].(state := Exited, exitStatus := TERMINATED_STATUS)];
        assert TerminateProcess(s, p).0 == WakeAll(ended, JoinList(s.threads[main]));
      }
    }
  }

  // ------------------------------------------------------------------- spawning

  /** A new thread in `slot`, not yet queued. */
  function Placed(s: State, slot: nat, p: nat, processes: seq<Process>): State
    requires slot < |s.threads| == |s.pending|
  {
    s.(threads := s.threads[slot := NewUserThread(|s.threads|, p)], pending := s.pending[slot := NoCall],
       processes := processes)
  }

  lemma PlacedRegistrations(s: State, slot: nat, p: nat, processes: seq<Process>)
    requires slot < |s.threads| == |s.pending| && s.threads[slot].state == Exited
    ensures SameRegistrations(s, Placed(s, slot, p, processes))
  {
    var s' := Placed(s, slot, p, processes);
    forall q, t: nat ensures Registered(s', q, t) <==> Registered(s, q, t) {
      if q.InJoin? && q.target < |s.threads| && q.target != slot {
        assert s'.threads[q.target] == s.threads[q.target];
      }
    }
  }

  lemma NobodyCalls(pending: seq<Pending>, x: nat)
    requires Callers(pending, x) == {}
    ensures forall t | 0 <= t < |pending| :: !pending[t].On(x)
  {
    forall t | 0 <= t < |pending| ensures !pending[t].On(x) {
      assert t !in Callers(pending, x);
    }
  }

  lemma PlacedCounts(s: State, slot: nat, p: nat, processes: seq<Process>, y: nat)
    requires 0 < |s.threads| == |s.pending| && CallsOk(s)
    requires 0 < slot < |s.threads| && Reusable(s.threads[slot])
    requires y < |s.threads|
    ensures Counted(Placed(s, slot, p, processes), y)
  {
    assert Counted(s, y);
    SubsetCardinality(Callers(Placed(s, slot, p, processes).pending, y), Callers(s.pending, y));
  }

  lemma PlacedCalls(s: State, slot: nat, p: nat, processes: seq<Process>)
    requires 0 < |s.threads| == |s.pending| && CallsOk(s)
    requires 0 < slot < |s.threads| && Reusable(s.threads[slot])
    requires forall q :: !Registered(s, q, slot)
    requires SameRegistrations(s, Placed(s, slot, p, processes))
    ensures CallsOk(Placed(s, slot, p, processes))
  {
    hide Registered, Callers;
    var s' := Placed(s, slot, p, processes);
    assert Counted(s, slot);
    NobodyCalls(s.pending, slot);
    forall t | 0 <= t < |s.threads| ensures CallListed(s', t) && Counted(s', t) {
      PlacedCounts(s, slot, p, processes, t);
      assert CallListed(s, t);
    }
    assert ListsCalled(s');
  }

  lemma PlacedPlaces(s: State, slot: nat, p: nat, processes: seq<Process>)
    requires PlacesOk(s, [])
    requires slot < |s.threads| == |s.pending| && s.threads[slot].state == Exited
    requires forall q :: !Registered(s, q, slot)
    ensures PlacesOk(MakeReady(Placed(s, slot, p, processes), slot), [])
  {
    PlacedRegistrations(s, slot, p, processes);
    var s1 := Placed(s, slot, p, processes);
    var s' := MakeReady(s1, slot);
    RegisteredFrame(s1, s');
    forall t | 0 <= t < |s'.threads| && s'.threads[t].state == Blocked
      ensures exists q :: Registered(s', q, t)
    {
      var q :| Registered(s, q, t);
      assert Registered(s', q, t);
    }
  }

  lemma PlacedQueue(s: State, slot: nat, p: nat, processes: seq<Process>)
    requires QueueOk(s) && 0 < |s.threads| && RunOk(s)
    requires 0 < slot < |s.threads| == |s.pending| && s.threads[slot].state == Exited
    requires slot !in s.queue
    ensures QueueOk(MakeReady(Placed(s, slot, p, processes), slot)) && RunOk(MakeReady(Placed(s, slot, p, processes), slot))
    ensures MakeReady(Placed(s, slot, p, processes), slot).queue == s.queue + [slot]
  {
    var s1 := Placed(s, slot, p, processes);
    NotFull(s.queue, |s.threads|, slot);
    var s' := MakeReady(s1, slot);
    forall u | 0 <= u < |s.threads| && s'.threads[u].state == Ready ensures u in s'.queue {
      if u == slot {
        assert s'.queue[|s.queue|] == slot;
      } else {
        assert u in s.queue;
      }
    }
  }

  lemma PlacedShape(s: State, slot: nat, p: nat, processes: seq<Process>)
    requires Shape(s) && slot < |s.threads|
    requires |processes| == |s.processes|
    requires forall i | 0 <= i < |processes| ::
               processes[i].mainThread.Some? ==> processes[i].mainThread.value < |s.threads|
    requires MakeReady(Placed(s, slot, p, processes), slot).queue == s.queue + [slot]
    ensures Shape(MakeReady(Placed(s, slot, p, processes), slot))
  {
    var s1 := Placed(s, slot, p, processes);
    assert Shape(s1);
    ShapeAfterReady(s1, slot);
  }

  lemma PlacedKeeps(s: State, slot: nat, p: nat, processes: seq<Process>)
    requires Inv(s)
    requires 0 < slot < |s.threads| && Reusable(s.threads[slot]) && Clean(s, slot)
    requires |processes| == |s.processes|
    requires forall i | 0 <= i < |processes| ::
               processes[i].mainThread.Some? ==> processes[i].mainThread.value < |s.threads|
    requires forall i | 0 <= i < |s.processes| && s.processes[i].id == i + 1 ::
               processes[i].addressSpace == s.processes[i].addressSpace
    requires ProcessesOk(Placed(s, slot, p, processes))
    ensures Inv(MakeReady(Placed(s, slot, p, processes), slot))
    ensures MakeReady(Placed(s, slot, p, processes), slot) == Enqueue(Placed(s, slot, p, processes), slot)
  {
    hide PlacesOk, CallsOk, ProcessesOk, QueueOk, RunOk, Registered;
    var s1 := Placed(s, slot, p, processes);
    var s' := MakeReady(s1, slot);
    assert s'.threads == s1.threads;
    PlacedRegistrations(s, slot, p, processes);
    PlacedCalls(s, slot, p, processes);
    CallsFrame(s1, s');
    PlacedPlaces(s, slot, p, processes);
    PlacedQueue(s, slot, p, processes);
    PlacedShape(s, slot, p, processes);
    ProcessFrame(s1, s');
    CurrentHasRecord(s);
    assert s'.threads[s.current.value] == s.threads[s.current.value];
  }

  /** A new thread of PID 1. */
  lemma PlacedInInit(s: State, slot: nat)
    requires Inv(s) && 0 < slot < |s.threads| && Reusable(s.threads[slot])
    ensures ProcessesOk(Placed(s, slot, INIT_PROCESS, s.processes))
  {
    hide PlacesOk, CallsOk, QueueOk;
    var s' := Placed(s, slot, INIT_PROCESS, s.processes);
    assert RecordOk(s, 0);
    forall i | 0 <= i < |s.processes| ensures RecordOk(s', i) {
      assert RecordOk(s, i);
    }
    forall t | 0 <= t < |s.threads| ensures ThreadOk(s', t) && CallOk(s', t) {
      assert ThreadOk(s, t) && CallOk(s, t);
    }
  }

  lemma SpaceOfInit(s: State)
    requires Shape(s) && ProcessesOk(s)
    ensures AddressSpaceOf(s.processes, INIT_PROCESS).Some?
  {
    RecordIds(s);
    assert RecordOk(s, 0);
    AddressSpaceOfLive(s.processes, 0, INIT_PROCESS);
    assert s.processes[0..] == s.processes;
  }

  lemma ThreadCreateKeeps(s: State, checked: bool, stacks: bool)
    requires Inv(s) && CleanSpawn(s)
    ensures Inv(ThreadCreate(s, checked, stacks).0)
  {
    hide PlacesOk, CallsOk, ProcessesOk, QueueOk, RunOk, Registered;
    var slot := FreeThread(s.threads, 1);
    if checked && stacks && slot < |s.threads| {
      SpaceOfInit(s);
      PlacedInInit(s, slot);
      PlacedKeeps(s, slot, INIT_PROCESS, s.processes);
    }
  }

  /** A new record whose main thread, if it has one, is new too. */
  ghost predicate NewRecord(s: State, i: nat, processes: seq<Process>, space: nat, main: Option<nat>) {
    && 1 <= i < |s.processes| && s.processes[i].id == NO_THREAD
    && (forall j | 0 <= j < |s.processes| :: s.processes[j].addressSpace != space)
    && processes == s.processes[i := Process(i + 1, space, CurrentProcess(s), main)]
  }

  lemma NewRecordRanked(s: State, i: nat, processes: seq<Process>, space: nat, main: Option<nat>)
    requires Inv(s) && s.current.value != IDLE
    requires NewRecord(s, i, processes, space, main)
    ensures exists rank :: Ranked(processes, rank)
    ensures CurrentProcess(s).Some? && CanCollect(s, CurrentProcess(s).value) && CurrentProcess(s).value != i + 1
    ensures forall j | 0 <= j < |s.processes| :: s.processes[j].parent != Some(i + 1)
  {
    hide PlacesOk, CallsOk, QueueOk;
    assert ThreadOk(s, s.current.value);
    var q := CurrentProcess(s).value;
    forall j | 0 <= j < |s.processes| ensures s.processes[j].parent != Some(i + 1) {
      assert RecordOk(s, j);
    }
    var rank :| Ranked(s.processes, rank);
    assert Ranked(processes, rank[i := rank[q - 1] + 1]);
  }

  lemma NewRecordKeepsRecords(s: State, s': State, i: nat, space: nat, main: Option<nat>)
    requires |s.processes| < NO_THREAD
    requires forall j | 0 <= j < |s.processes| :: RecordOk(s, j)
    requires NewRecord(s, i, s'.processes, space, main)
    requires CurrentProcess(s).Some? && CanCollect(s, CurrentProcess(s).value) && CurrentProcess(s).value != i + 1
    requires |s'.threads| == |s.threads|
    requires forall t | 0 <= t < |s.threads| && (s.threads[t].state != Exited || !s.threads[t].reapable) ::
               s'.threads[t] == s.threads[t]
    requires main.Some? ==>
               && 1 <= main.value < |s.threads|
               && s'.threads[main.value] == NewUserThread(|s.threads|, i + 1)
    ensures forall j | 0 <= j < |s.processes| :: RecordOk(s', j)
  {
    forall q: nat | CanCollect(s, q) ensures CanCollect(s', q) {
      assert RecordOk(s, q - 1);
    }
    forall j | 0 <= j < |s.processes| ensures RecordOk(s', j) {
      assert RecordOk(s, j);
    }
  }

  lemma NewRecordKeepsThreads(s: State, s': State, i: nat, space: nat, main: Option<nat>)
    requires |s.processes| < NO_THREAD && |s.threads| == |s.processes| == |s'.threads|
    requires forall t | 0 <= t < |s.threads| :: ThreadOk(s, t)
    requires NewRecord(s, i, s'.processes, space, main)
    requires forall t | 0 <= t < |s.threads| && Some(t) != main :: s'.threads[t] == s.threads[t]
    requires main.Some? ==> main.value < |s.threads| && s'.threads[main.value] == NewUserThread(|s.threads|, i + 1)
    ensures forall t | 0 <= t < |s.threads| :: ThreadOk(s', t)
  {
    forall t | 0 <= t < |s.threads| ensures ThreadOk(s', t) {
      assert ThreadOk(s, t);
    }
  }

  lemma NewRecordKeepsCallers(s: State, s': State, i: nat, space: nat, main: Option<nat>)
    requires |s.processes| < NO_THREAD && |s.threads| == |s.processes| == |s'.threads|
    requires |s.pending| == |s.threads| == |s'.pending|
    requires forall t | 0 <= t < |s.threads| :: CallOk(s, t)
    requires NewRecord(s, i, s'.processes, space, main)
    requires forall t | 0 <= t < |s.threads| && Some(t) != main :: s'.threads[t] == s.threads[t]
    requires forall t | 0 <= t < |s.threads| ::
               if Some(t) == main then s'.pending[t] == NoCall else s'.pending[t] == s.pending[t]
    requires main.Some? ==> forall t | 0 <= t < |s.pending| :: !s.pending[t].On(main.value)
    ensures forall t | 0 <= t < |s.threads| :: CallOk(s', t)
  {
    forall t | 0 <= t < |s.threads| ensures CallOk(s', t) {
      assert CallOk(s, t);
    }
  }

  lemma RecordAloneProcesses(s: State, i: nat, processes: seq<Process>, space: nat)
    requires Inv(s) && s.current.value != IDLE
    requires NewRecord(s, i, processes, space, None)
    ensures ProcessesOk(s.(processes := processes))
  {
    hide PlacesOk, CallsOk, QueueOk, RecordOk, ThreadOk, CallOk;
    var s' := s.(processes := processes);
    NewRecordRanked(s, i, processes, space, None);
    NewRecordKeepsRecords(s, s', i, space, None);
    NewRecordKeepsThreads(s, s', i, space, None);
    NewRecordKeepsCallers(s, s', i, space, None);
  }

  lemma RecordAloneKeeps(s: State, i: nat, processes: seq<Process>, space: nat)
    requires Inv(s) && s.current.value != IDLE
    requires NewRecord(s, i, processes, space, None)
    ensures Inv(s.(processes := processes))
  {
    hide PlacesOk, CallsOk, QueueOk, ProcessesOk;
    var s' := s.(processes := processes);
    RecordAloneProcesses(s, i, processes, space);
    RegisteredFrame(s, s');
    PlacesFrame(s, s', []);
    CallsFrame(s, s');
    QueueFrame(s, s');
    CurrentHasRecord(s);
  }

  lemma PlacedAsMain(s: State, slot: nat, i: nat, processes: seq<Process>, space: nat)
    requires Inv(s) && s.current.value != IDLE
    requires 0 < slot < |s.threads| && Reusable(s.threads[slot])
    requires NewRecord(s, i, processes, space, Some(slot))
    ensures ProcessesOk(Placed(s, slot, i + 1, processes))
  {
    hide PlacesOk, CallsOk, QueueOk, RecordOk, ThreadOk, CallOk;
    var s' := Placed(s, slot, i + 1, processes);
    NewRecordRanked(s, i, processes, space, Some(slot));
    CountedCallers(s, slot);
    NobodyCalls(s.pending, slot);
    NewRecordKeepsRecords(s, s', i, space, Some(slot));
    NewRecordKeepsThreads(s, s', i, space, Some(slot));
    NewRecordKeepsCallers(s, s', i, space, Some(slot));
  }

  /** `SpawnProcess` as one update, when nothing fails. */
  lemma SpawnIsPlaced(s: State, space: nat, i: nat, slot: nat)
    requires Shape(s) && IdsOk(s.processes)
    requires i == FreeRecord(s.processes, 1) < |s.processes|
    requires slot == FreeThread(s.threads, 1) < |s.threads|
    requires Shape(CreateProcess(s, space).0)
    ensures SpawnProcess(s, space, true, true).0 ==
            Enqueue(Placed(s, slot, i + 1, s.processes[i := Process(i + 1, space, CurrentProcess(s), Some(slot))]), slot)
  {
    var record := s.processes[i := Process(i + 1, space, CurrentProcess(s), None)];
    AddressSpaceOfLive(record, 0, i + 1);
    assert record[0..] == record;
    FindLive(record, i + 1);
    assert SetMainThread(record, i + 1, slot) == s.processes[i := Process(i + 1, space, CurrentProcess(s), Some(slot))];
  }

  lemma SpawnKeeps(s: State, space: nat, loaded: bool, stacks: bool)
    requires Inv(s) && s.current.value != IDLE
    requires CleanSpawn(s)
    requires forall i | 0 <= i < |s.processes| :: s.processes[i].addressSpace != space
    ensures Inv(SpawnProcess(s, space, loaded, stacks).0)
  {
    hide Base, Registered;
    assert Shape(s) by { ShapeOf(s); }
    var i := FreeRecord(s.processes, 1);
    if i < |s.processes| {
      var record := s.processes[i := Process(i + 1, space, CurrentProcess(s), None)];
      var s1 := s.(processes := record);
      RecordAloneKeeps(s, i, record, space);
      assert Shape(s1) by { ShapeOf(s1); }
      var slot := FreeThread(s.threads, 1);
      if loaded && stacks && slot < |s.threads| {
        var named := s.processes[i := Process(i + 1, space, CurrentProcess(s), Some(slot))];
        PlacedAsMain(s, slot, i, named, space);
        PlacedKeeps(s, slot, i + 1, named);
        assert IdsOk(s.processes) by { IdsOf(s); }
        SpawnIsPlaced(s, space, i, slot);
      }
    }
  }

  lemma IdsOf(s: State)
    requires Inv(s)
    ensures IdsOk(s.processes)
  {
    RecordIds(s);
  }

  // -------------------------------------------------------------- every step

  /** The invariant holds after every allowed step. */
  lemma StepKeeps(s: State, step: Step)
    requires Inv(s) && Allowed(s, step)
    ensures Inv(Next(s, step))
  {
    hide Base, Yield, ExitCurrent, Join, WaitProcess, TryWaitProcess, ReapAnyChild, TerminateProcess, ThreadCreate,
         SpawnProcess, Sleep, FutexWait, FutexWake, Tick, Resume, Clean, NoCollector, Childless;
    assert Shape(s) by { ShapeOf(s); }
    match step
    case DoResume => ResumeKeeps(s);
    case DoYield => YieldKeeps(s);
    case DoExit(status) => ExitKeeps(s, status);
    case DoJoin(target) => JoinKeeps(s, target);
    case DoWait(process) => WaitKeeps(s, process);
    case DoTryWait(process) => TryWaitKeeps(s, process);
    case DoReapAny => ReapAnyKeeps(s);
    case DoTerminate(process) => TerminateKeeps(s, process);
    case DoThreadCreate(checked, stacks) => ThreadCreateKeeps(s, checked, stacks);
    case DoSpawn(space, loaded, stacks) => SpawnKeeps(s, space, loaded, stacks);
    case DoSleep(milliseconds) => SleepKeeps(s, milliseconds);
    case DoFutexWait(address, actual, expected, timeout) => FutexWaitKeeps(s, address, actual, expected, timeout);
    case DoFutexWake(address, count) => FutexWakeKeeps(s, address, count);
    case DoTick => TickKeeps(s);
  }

  lemma FutexWakeKeeps(s: State, address: U64, count: U64)
    requires Inv(s)
    ensures Inv(FutexWake(s, address, count).0)
  {
    hide Inv;
    FutexWakeFromKeeps(s, address, count, 0, 0);
  }
}
