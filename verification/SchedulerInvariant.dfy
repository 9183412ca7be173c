/**
 The invariant of the scheduler, the wait tables and the process table, and the
 discipline of its callers under which every step keeps it.
 */
module SchedulerInvariant {
  import opened Wrappers
  import opened ThreadTable

  // ------------------------------------------------------------- the invariant

  /** Every entry of the run queue can be dispatched or is skipped, none occurs twice,
      and no ready thread is missing. */
  ghost predicate QueueOk(s: State) {
    && Below(s.queue, |s.threads|)
    && Distinct(s.queue)
    && (forall i | 0 <= i < |s.queue| :: s.threads[s.queue[i]].state in {Ready, Exited})
    && (forall t | 0 <= t < |s.threads| && s.threads[t].state == Ready :: t in s.queue)
  }

  /** Only the idle thread may be marked running without being current. */
  ghost predicate RunOk(s: State)
    requires 0 < |s.threads|
  {
    && (forall t | 0 <= t < |s.threads| && s.threads[t].state == Running :: t == IDLE || s.current == Some(t))
    && s.threads[IDLE].state in {Ready, Running}
    && !s.threads[IDLE].isUser && s.threads[IDLE].process == None
  }

  /** A place where a thread can be registered as waiting. */
  datatype Place = InSleep(i: nat) | InFutex(i: nat) | InJoin(target: nat, j: nat)

  /** Join lists count only while their owner is alive. */
  predicate Registered(s: State, p: Place, t: nat) {
    match p
    case InSleep(i) => i < |s.sleepers| && s.sleepers[i].Some? && s.sleepers[i].value.thread == t
    case InFutex(i) => i < |s.futexWaiters| && s.futexWaiters[i].Some? && s.futexWaiters[i].value.thread == t
    case InJoin(x, j) =>
      && x < |s.threads|
      && s.threads[x].state != Exited
      && j < s.threads[x].joinWaiterCount
      && j < |s.threads[x].joinWaiters|
      && s.threads[x].joinWaiters[j] == t
  }

  /** The threads whose suspended call waits for `x`. */
  ghost function Callers(pending: seq<Pending>, x: nat): set<nat> {
    set t | 0 <= t < |pending| && pending[t].On(x)
  }

  /** Blocked means registered exactly once; `orphans` are threads taken off a list
      whose wake-up is still to come. */
  ghost predicate PlacesOk(s: State, orphans: seq<nat>) {
    && (forall p, q, t: nat | Registered(s, p, t) && Registered(s, q, t) :: p == q)
    && (forall p, t: nat | Registered(s, p, t) :: t < |s.threads| && s.threads[t].state in {Blocked, Exited})
    && (forall t | 0 <= t < |s.threads| && s.threads[t].state == Blocked ::
          t in orphans || exists p :: Registered(s, p, t))
    && (forall p, t: nat | Registered(s, p, t) :: t !in orphans)
  }

  /** A suspended join is on its target's list while the target lives. */
  ghost predicate CallListed(s: State, t: nat)
    requires t < |s.pending|
  {
    && s.pending[t] != NoCall
    && s.pending[t].thread < |s.threads|
    && s.threads[s.pending[t].thread].state != Exited ==>
         exists p :: Registered(s, p, t) && p.InJoin? && p.target == s.pending[t].thread
  }

  /** Whoever is on a join list has a suspended join. */
  ghost predicate ListsCalled(s: State) {
    forall p, t: nat | Registered(s, p, t) && p.InJoin? :: t < |s.pending| && s.pending[t].On(p.target)
  }

  /** Suspended joins are counted, so the target's slot cannot be reused. */
  ghost predicate Counted(s: State, x: nat)
    requires x < |s.threads|
  {
    && |Callers(s.pending, x)| <= s.threads[x].joinWaiterCount
    && (Reusable(s.threads[x]) ==> Callers(s.pending, x) == {})
  }

  ghost predicate CallsOk(s: State)
    requires 0 < |s.pending| == |s.threads|
  {
    && (forall t | 0 <= t < |s.threads| :: CallListed(s, t))
    && ListsCalled(s)
    && (forall x | 0 <= x < |s.threads| :: Counted(s, x))
    && s.pending[IDLE] == NoCall
  }

  predicate Live(processes: seq<Process>, id: nat) {
    1 <= id <= |processes| && processes[id - 1].id == id
  }

  /** A process that can still collect its children. */
  predicate CanCollect(s: State, id: nat) {
    && Live(s.processes, id)
    && (id == INIT_PROCESS
        || (&& s.processes[id - 1].mainThread.Some?
            && s.processes[id - 1].mainThread.value < |s.threads|
            && s.threads[s.processes[id - 1].mainThread.value].state != Exited))
  }

  /** `rank` decreases from every process to its parent and is 0 for PID 1. */
  ghost predicate Ranked(processes: seq<Process>, rank: seq<nat>) {
    && |rank| == |processes|
    && (forall i | 0 <= i < |processes| :: rank[i] == 0 <==> i == 0)
    && (forall i | 0 <= i < |processes| && processes[i].parent.Some? ::
          var q := processes[i].parent.value;
          1 <= q <= |processes| && rank[q - 1] < rank[i])
  }

  ghost predicate RecordOk(s: State, i: nat)
    requires i < |s.processes|
  {
    var r := s.processes[i];
    && (r.id == NO_THREAD || r.id == i + 1)
    && (r.id == NO_THREAD ==> r == EMPTY_PROCESS)
    && (i == 0 ==> r.id == INIT_PROCESS && r.parent == None && r.mainThread == None)
    && (i > 0 && r.id == i + 1 ==> r.parent.Some? && CanCollect(s, r.parent.value))
    && (r.mainThread.Some? ==>
          var m := r.mainThread.value;
          && 1 <= m < |s.threads|
          && s.threads[m].isUser && !s.threads[m].reapable
          && s.threads[m].process == Some(i + 1))
  }

  /** A live thread belongs to a live process, and outside PID 1 it is the main thread. */
  ghost predicate ThreadOk(s: State, t: nat)
    requires t < |s.threads|
  {
    t != IDLE && s.threads[t].state != Exited ==>
      && s.threads[t].isUser && !s.threads[t].reapable
      && s.threads[t].process.Some?
      && var p := s.threads[t].process.value;
         Live(s.processes, p) && (p != INIT_PROCESS ==> s.processes[p - 1].mainThread == Some(t))
  }

  /** No process record names this thread as its main thread. */
  predicate NobodysMain(processes: seq<Process>, x: nat) {
    forall i | 0 <= i < |processes| :: processes[i].mainThread != Some(x)
  }

  ghost predicate CallOk(s: State, t: nat)
    requires t < |s.threads| == |s.pending|
  {
    match s.pending[t]
    case NoCall => true
    case Joining(x) => NobodysMain(s.processes, x)
    case Collecting(x, p) =>
      && Live(s.processes, p)
      && s.processes[p - 1].mainThread == Some(x)
      && s.threads[t].state != Exited
      && s.threads[t].process.Some?
      && s.processes[p - 1].parent == s.threads[t].process
  }

  ghost predicate ProcessesOk(s: State)
    requires |s.pending| == |s.threads| == |s.processes|
  {
    && (forall i | 0 <= i < |s.processes| :: RecordOk(s, i))
    && (forall t | 0 <= t < |s.threads| :: ThreadOk(s, t))
    && (forall t | 0 <= t < |s.threads| :: CallOk(s, t))
    && (forall t, u | 0 <= t < |s.threads| && 0 <= u < |s.threads| && s.pending[t].Collecting? && s.pending[u].Collecting?
                      && s.pending[t].process == s.pending[u].process :: t == u)
    && (forall i, j | 0 <= i < j < |s.processes| && s.processes[i].id == i + 1 && s.processes[j].id == j + 1 ::
          s.processes[i].addressSpace != s.processes[j].addressSpace)
    && (exists rank :: Ranked(s.processes, rank))
  }

  ghost predicate Base(s: State, orphans: seq<nat>) {
    && Shape(s)
    && QueueOk(s) && RunOk(s) && PlacesOk(s, orphans) && CallsOk(s) && ProcessesOk(s)
  }

  predicate InOwnSpace(s: State, c: nat)
    requires c < |s.threads|
  {
    c != IDLE ==>
      && s.threads[c].process.Some?
      && 1 <= s.threads[c].process.value <= |s.processes|
      && s.activeSpace == s.processes[s.threads[c].process.value - 1].addressSpace
  }

  /** The invariant between steps: the current thread runs, in its own address space. */
  ghost predicate Inv(s: State) {
    && Base(s, [])
    && s.current.Some?
    && s.threads[s.current.value].state == Running
    && InOwnSpace(s, s.current.value)
  }

  // ---------------------------------------------------------- the callers' part

  /** The slot occurs in no run queue entry, wait table or live join list. */
  ghost predicate Clean(s: State, slot: nat) {
    slot !in s.queue && forall p :: !Registered(s, p, slot)
  }

  predicate Childless(processes: seq<Process>, process: nat) {
    forall i | 0 <= i < |processes| :: processes[i].parent != Some(process)
  }

  predicate NoCollector(s: State, process: nat) {
    forall t | 0 <= t < |s.pending| :: !(s.pending[t].Collecting? && s.pending[t].process == process)
  }

  ghost predicate CleanSpawn(s: State)
    requires 0 < |s.threads|
  {
    var slot := FreeThread(s.threads, 1);
    slot < |s.threads| ==> Clean(s, slot)
  }

  /** What the callers must respect: a suspended call continues before anything else,
      idle only yields, main threads are collected through the process calls with at
      most one collector each, only childless processes are terminated, spawns are
      clean and get a fresh address space. */
  ghost predicate Allowed(s: State, step: Step)
    requires Shape(s) && s.current.Some?
  {
    var c := s.current.value;
    match step
    case DoTick => true
    case DoResume => s.pending[c] != NoCall
    case DoYield => s.pending[c] == NoCall
    case _ => s.pending[c] == NoCall && c != IDLE && ArgumentsAllowed(s, step)
  }

  ghost predicate ArgumentsAllowed(s: State, step: Step)
    requires Shape(s)
  {
    match step
    case DoJoin(x) => NobodysMain(s.processes, x)
    case DoWait(p) => NoCollector(s, p)
    case DoTryWait(p) => NoCollector(s, p)
    case DoReapAny =>
      CurrentProcess(s).Some? ==>
        var i := FirstExitedChild(s, CurrentProcess(s).value, 0);
        i < |s.processes| ==> NoCollector(s, s.processes[i].id)
    case DoTerminate(p) => Childless(s.processes, p)
    case DoThreadCreate(_, _) => CleanSpawn(s)
    case DoSpawn(space, _, _) =>
      CleanSpawn(s) && forall i | 0 <= i < |s.processes| :: s.processes[i].addressSpace != space
    case _ => true
  }

  // ------------------------------------------------------------------ counting

  lemma {:induction false} RangeCardinality(n: nat, xs: set<nat>)
    requires forall x | x in xs :: x < n
    ensures |xs| <= n
    decreases n
  {
    if n == 0 {
      assert xs == {};
    } else {
      RangeCardinality(n - 1, xs - {n - 1});
    }
  }

  ghost function Elements(xs: seq<nat>): set<nat> {
    set x | x in xs
  }

  lemma {:induction false} DistinctCardinality(xs: seq<nat>)
    requires Distinct(xs)
    ensures |Elements(xs)| == |xs|
  {
    if xs == [] {
      assert Elements(xs) == {};
    } else {
      var last := |xs| - 1;
      DistinctCardinality(xs[..last]);
      assert xs == xs[..last] + [xs[last]];
      assert Elements(xs) == Elements(xs[..last]) + {xs[last]};
    }
  }

  /** A list of distinct indices that misses one is not full. */
  lemma NotFull(xs: seq<nat>, n: nat, t: nat)
    requires Distinct(xs) && Below(xs, n) && t < n && t !in xs
    ensures |xs| < n
  {
    DistinctCardinality(xs);
    RangeCardinality(n, Elements(xs) + {t});
    assert |Elements(xs) + {t}| == |Elements(xs)| + 1;
  }

  // ------------------------------------------------------------- frame lemmas

  /** The threads differ at most in how they are alive. */
  ghost predicate SameUpToState(a: seq<Thread>, b: seq<Thread>) {
    && |a| == |b|
    && forall t | 0 <= t < |a| ::
         && b[t] == a[t].(state := b[t].state)
         && (a[t].state == Exited <==> b[t].state == Exited)
  }

  /** The threads differ at most in being ready or running. */
  ghost predicate SameUpToDispatch(a: seq<Thread>, b: seq<Thread>) {
    && SameUpToState(a, b)
    && forall t | 0 <= t < |a| :: a[t].state == Blocked <==> b[t].state == Blocked
  }

  ghost predicate SameRegistrations(s: State, s': State) {
    forall p, t: nat :: Registered(s', p, t) <==> Registered(s, p, t)
  }

  lemma JoinRegisteredFrame(s: State, s': State, x: nat, j: nat, t: nat)
    requires SameUpToState(s.threads, s'.threads)
    ensures Registered(s', InJoin(x, j), t) <==> Registered(s, InJoin(x, j), t)
  {
    if x < |s.threads| {
      assert s'.threads[x] == s.threads[x].(state := s'.threads[x].state);
    }
  }

  lemma RegisteredFrame(s: State, s': State)
    requires SameUpToState(s.threads, s'.threads)
    requires s'.sleepers == s.sleepers && s'.futexWaiters == s.futexWaiters
    ensures SameRegistrations(s, s')
  {
    forall p, t: nat ensures Registered(s', p, t) <==> Registered(s, p, t) {
      if p.InJoin? {
        JoinRegisteredFrame(s, s', p.target, p.j, t);
      }
    }
  }

  lemma PlacesFrame(s: State, s': State, orphans: seq<nat>)
    requires PlacesOk(s, orphans)
    requires SameRegistrations(s, s')
    requires SameUpToDispatch(s.threads, s'.threads)
    ensures PlacesOk(s', orphans)
  {
  }

  lemma CallsFrame(s: State, s': State)
    requires 0 < |s.pending| == |s.threads|
    requires CallsOk(s)
    requires SameUpToState(s.threads, s'.threads)
    requires s'.pending == s.pending
    ensures CallsOk(s')
  {
    forall p: Place, t: nat | p.InJoin? ensures Registered(s', p, t) <==> Registered(s, p, t) {
      JoinRegisteredFrame(s, s', p.target, p.j, t);
    }
    forall t | 0 <= t < |s.threads| ensures CallListed(s', t) && Counted(s', t) {
      assert CallListed(s, t) && Counted(s, t);
      assert s'.threads[t] == s.threads[t].(state := s'.threads[t].state);
    }
  }

  /** The threads agree in what the process table cares about. */
  ghost predicate SameStanding(a: seq<Thread>, b: seq<Thread>) {
    && |a| == |b|
    && forall t | 0 <= t < |a| ::
         && b[t].isUser == a[t].isUser && b[t].reapable == a[t].reapable && b[t].process == a[t].process
         && (a[t].state == Exited <==> b[t].state == Exited)
  }

  lemma RecordsFrame(s: State, s': State)
    requires |s.threads| == |s.processes|
    requires forall i | 0 <= i < |s.processes| :: RecordOk(s, i)
    requires forall t | 0 <= t < |s.threads| :: ThreadOk(s, t)
    requires SameStanding(s.threads, s'.threads)
    requires s'.processes == s.processes
    ensures forall i | 0 <= i < |s.processes| :: RecordOk(s', i)
    ensures forall t | 0 <= t < |s.threads| :: ThreadOk(s', t)
  {
    forall i | 0 <= i < |s.processes| ensures RecordOk(s', i) {
      assert RecordOk(s, i);
    }
    forall t | 0 <= t < |s.threads| ensures ThreadOk(s', t) {
      assert ThreadOk(s, t);
    }
  }

  lemma ProcessFrame(s: State, s': State)
    requires |s.pending| == |s.threads| == |s.processes|
    requires ProcessesOk(s)
    requires SameStanding(s.threads, s'.threads)
    requires s'.pending == s.pending && s'.processes == s.processes
    ensures ProcessesOk(s')
  {
    RecordsFrame(s, s');
    forall t | 0 <= t < |s.threads| ensures CallOk(s', t) {
      assert CallOk(s, t);
    }
  }

  ghost predicate ThreadsBelow(s: State) {
    && (forall i | 0 <= i < |s.sleepers| :: s.sleepers[i].Some? ==> s.sleepers[i].value.thread < |s.threads|)
    && (forall i | 0 <= i < |s.futexWaiters| :: s.futexWaiters[i].Some? ==> s.futexWaiters[i].value.thread < |s.threads|)
  }

  lemma ShapeFrame(s: State, s': State)
    requires Shape(s)
    requires SameUpToState(s.threads, s'.threads)
    requires s'.pending == s.pending && s'.processes == s.processes
    requires Below(s'.queue, |s.threads|)
    requires s'.current.Some? ==> s'.current.value < |s.threads|
    requires ThreadsBelow(s')
    ensures Shape(s')
  {
    forall t | 0 <= t < |s.threads| ensures ThreadShape(s'.threads[t], |s.threads|) {
      assert ThreadShape(s.threads[t], |s.threads|);
    }
  }
}
