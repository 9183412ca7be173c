/**
 The scheduler of `kernel-core/src/threads.rs` and the wait tables of
 `kernel-core/src/arch.rs`, as pure functions on one state value.

 Every function is one atomic stretch of kernel code: system calls run with
 interrupts off and the scheduler is cooperative, so control changes hands only
 inside `ScheduleFrom`.  The number of threads is the length of `threads`.
 */
module ThreadTable {
  import opened Words
  import opened Wrappers

  const IDLE: nat := 0
  const INIT_PROCESS: nat := 1
  const NO_THREAD: nat := 0xFFFF_FFFF_FFFF_FFFF
  const TERMINATED_STATUS: nat := 0x8000_0000_0000_0000

  datatype RunState = Ready | Running | Blocked | Exited

  /** `joinWaiters` is a fixed array of which the first `joinWaiterCount` entries are in use. */
  datatype Thread = Thread(
    state: RunState,
    isUser: bool,
    process: Option<nat>,
    reapable: bool,
    exitStatus: U64,
    joinWaiters: seq<nat>,
    joinWaiterCount: nat)

  datatype Process = Process(id: nat, addressSpace: nat, parent: Option<nat>, mainThread: Option<nat>)

  const EMPTY_PROCESS := Process(NO_THREAD, 0, None, None)

  datatype Sleeper = Sleeper(thread: nat, deadline: U64)

  datatype FutexWaiter = FutexWaiter(address: U64, thread: nat, deadline: Option<U64>)

  /** The kernel code a thread returns into when it is next dispatched: the tail
      of `join`, called directly or from `wait_process`. */
  datatype Pending = NoCall | Joining(thread: nat) | Collecting(thread: nat, process: nat) {
    predicate On(target: nat) {
      !NoCall? && thread == target
    }
  }

  datatype State = State(
    threads: seq<Thread>,
    queue: seq<nat>,
    current: Option<nat>,
    pending: seq<Pending>,
    processes: seq<Process>,
    activeSpace: nat,
    sleepers: seq<Option<Sleeper>>,
    futexWaiters: seq<Option<FutexWaiter>>,
    ticks: U64)

  function EmptyThread(n: nat): Thread {
    Thread(Exited, false, None, true, 0, seq(n, _ => NO_THREAD), 0)
  }

  /** Every index stored in a table lies inside the table it indexes; this is what
      keeps the array accesses of the kernel in bounds. */
  ghost predicate Shape(s: State) {
    var n := |s.threads|;
    && 2 <= n < NO_THREAD
    && |s.pending| == n && |s.processes| == n
    && Below(s.queue, n)
    && (s.current.Some? ==> s.current.value < n)
    && (forall t | 0 <= t < n :: ThreadShape(s.threads[t], n))
    && (forall t | 0 <= t < n :: s.pending[t] == NoCall || s.pending[t].thread < n)
    && (forall i | 0 <= i < n :: s.processes[i].mainThread.Some? ==> s.processes[i].mainThread.value < n)
    && (forall i | 0 <= i < |s.sleepers| :: s.sleepers[i].Some? ==> s.sleepers[i].value.thread < n)
    && (forall i | 0 <= i < |s.futexWaiters| :: s.futexWaiters[i].Some? ==> s.futexWaiters[i].value.thread < n)
  }

  predicate Below(indices: seq<nat>, n: nat) {
    forall i | 0 <= i < |indices| :: indices[i] < n
  }

  ghost predicate ThreadShape(t: Thread, n: nat) {
    && |t.joinWaiters| == n
    && t.joinWaiterCount <= n
    && Below(JoinList(t), n)
  }

  // ---------------------------------------------------------------- run queue

  function SetState(threads: seq<Thread>, t: nat, state: RunState): seq<Thread>
    requires t < |threads|
  {
    threads[t := threads[t].(state := state)]
  }

  /** A full queue silently drops the thread. */
  function Enqueue(s: State, t: nat): State {
    if |s.queue| == |s.threads| then s else s.(queue := s.queue + [t])
  }

  /** Marks a thread ready and queues it. */
  function MakeReady(s: State, t: nat): State
    requires t < |s.threads|
  {
    Enqueue(s.(threads := SetState(s.threads, t, Ready)), t)
  }

  /** The first queue entry that has not exited, and the queue behind it. */
  function NextReady(threads: seq<Thread>, queue: seq<nat>): (r: (Option<nat>, seq<nat>))
    requires Below(queue, |threads|)
    ensures Below(r.1, |threads|)
    ensures r.0.Some? ==> r.0.value < |threads| && threads[r.0.value].state != Exited
  {
    if queue == [] then (None, [])
    else if threads[queue[0]].state != Exited then (Some(queue[0]), queue[1..])
    else NextReady(threads, queue[1..])
  }

  /** The address space of the first record with this id. */
  function AddressSpaceOf(processes: seq<Process>, id: nat): Option<nat> {
    if processes == [] then None
    else if processes[0].id == id then Some(processes[0].addressSpace)
    else AddressSpaceOf(processes[1..], id)
  }

  /** The address space a thread runs in once dispatched, `space` if it names none. */
  function SpaceOnEntry(thread: Thread, processes: seq<Process>, space: nat): nat {
    if thread.isUser && thread.process.Some? then
      AddressSpaceOf(processes, thread.process.value).GetOr(space)
    else
      space
  }

  function ScheduleFrom(s: State, current: nat): State
    requires Shape(s) && current < |s.threads|
  {
    var (next, rest) := NextReady(s.threads, s.queue);
    var chosen := next.GetOr(IDLE);
    var s1 := s.(queue := rest, threads := SetState(s.threads, chosen, Running));
    if chosen == current then
      s1
    else
      s1.(current := Some(chosen),
          activeSpace := SpaceOnEntry(s.threads[chosen], s.processes, s.activeSpace))
  }

  function Yield(s: State): State
    requires Shape(s)
  {
    match s.current
    case None => s
    case Some(c) => ScheduleFrom(if c == IDLE then s else MakeReady(s, c), c)
  }

  function Block(s: State): State
    requires Shape(s)
  {
    if s.current.None? || s.current == Some(IDLE) then s
    else
      var c := s.current.value;
      ScheduleFrom(s.(threads := SetState(s.threads, c, Blocked)), c)
  }

  function Wake(s: State, t: nat): (r: (State, bool)) {
    if t >= |s.threads| || s.threads[t].state != Blocked then (s, false)
    else (MakeReady(s, t), true)
  }

  /** Readies, in list order, the waiters that are still blocked. */
  function WakeAll(s: State, waiters: seq<nat>): (r: State)
    ensures |r.threads| == |s.threads|
    decreases |waiters|
  {
    if waiters == [] then s
    else WakeAll(Wake(s, waiters[0]).0, waiters[1..])
  }

  // ------------------------------------------------------- exit, join, collect

  function JoinList(t: Thread): seq<nat>
    requires t.joinWaiterCount <= |t.joinWaiters|
  {
    t.joinWaiters[..t.joinWaiterCount]
  }

  /** The process whose main thread this is. */
  function ProcessOfMain(processes: seq<Process>, thread: nat): Option<nat> {
    if processes == [] then None
    else if processes[0].mainThread == Some(thread) then Some(processes[0].id)
    else ProcessOfMain(processes[1..], thread)
  }

  function Adopt(record: Process, orphaned: nat): Process {
    if record.parent == Some(orphaned) then record.(parent := Some(INIT_PROCESS)) else record
  }

  /** Hands the children of an exited process to PID 1. */
  function Reparent(processes: seq<Process>, thread: nat): (r: seq<Process>)
    ensures |r| == |processes|
  {
    match ProcessOfMain(processes, thread)
    case None => processes
    case Some(exited) => seq(|processes|, i requires 0 <= i < |processes| => Adopt(processes[i], exited))
  }

  function ExitCurrent(s: State, status: U64): State
    requires Shape(s)
  {
    if s.current.None? || s.current == Some(IDLE) then s
    else
      var c := s.current.value;
      var task := s.threads[c];
      var ended := task.(state := Exited, exitStatus := status, reapable := !task.isUser);
      var s1 := WakeAll(s.(threads := s.threads[c := ended]), JoinList(task));
      WakeAllShape(s.(threads := s.threads[c := ended]), JoinList(task));
      ScheduleFrom(s1.(processes := Reparent(s1.processes, c)), c)
  }

  /** What is left of `join` once the caller runs again. */
  function JoinTail(s: State, target: nat): (State, Option<U64>)
    requires target < |s.threads|
  {
    var task := s.threads[target];
    if task.state != Exited then (s, None)
    else
      var count := if task.joinWaiterCount != 0 then task.joinWaiterCount - 1 else 0;
      var updated := task.(joinWaiterCount := count, reapable := task.reapable || count == 0);
      (s.(threads := s.threads[target := updated]), Some(task.exitStatus))
  }

  datatype Reply = Returned(status: Option<U64>) | Suspended

  /** `join`; `call` is where the caller continues if it has to block. */
  function JoinAs(s: State, target: nat, call: Pending): (State, Reply)
    requires Shape(s)
    requires call.On(target)
  {
    if s.current.None? || s.current.value == target || target >= |s.threads| then
      (s, Returned(None))
    else
      var c := s.current.value;
      var task := s.threads[target];
      if task.state == Exited then
        (s.(threads := s.threads[target := task.(reapable := task.reapable || task.joinWaiterCount == 0)]),
         Returned(Some(task.exitStatus)))
      else if task.joinWaiterCount == |s.threads| then
        (s, Returned(None))
      else
        var listed := task.(joinWaiters := task.joinWaiters[task.joinWaiterCount := c],
                            joinWaiterCount := task.joinWaiterCount + 1);
        var s1 := s.(threads := s.threads[target := listed]);
        if c == IDLE then
          var (s2, status) := JoinTail(s1, target);
          (s2, Returned(status))
        else
          (Block(s1.(pending := s1.pending[c := call])), Suspended)
  }

  function Join(s: State, target: nat): (State, Reply)
    requires Shape(s)
  {
    JoinAs(s, target, Joining(target))
  }

  function TryJoin(s: State, target: nat): (State, Option<U64>)
    requires Shape(s)
  {
    if s.current.None? || s.current.value == target || target >= |s.threads| then
      (s, None)
    else
      var task := s.threads[target];
      if task.state != Exited then (s, None)
      else
        (s.(threads := s.threads[target := task.(reapable := task.reapable || task.joinWaiterCount == 0)]),
         Some(task.exitStatus))
  }

  /** Index of the first record with this id; the number of records when there is none. */
  function FindRecord(processes: seq<Process>, id: nat): (i: nat)
    ensures i <= |processes|
    ensures i < |processes| ==> processes[i].id == id
    ensures forall j | 0 <= j < i :: processes[j].id != id
  {
    if processes == [] then 0
    else if processes[0].id == id then 0
    else 1 + FindRecord(processes[1..], id)
  }

  /** The step that `wait_process`, `try_wait_process` and `reap_any_child` end with:
      the record is cleared after its address space is destroyed. */
  function Collect(s: State, process: nat): State {
    var i := FindRecord(s.processes, process);
    if i == |s.processes| then s
    else s.(processes := s.processes[i := EMPTY_PROCESS])
  }

  /** The address space that `Collect` destroys. */
  function SpaceCollected(s: State, process: nat): Option<nat> {
    AddressSpaceOf(s.processes, process)
  }

  function CurrentProcess(s: State): Option<nat> {
    if s.current.Some? && s.current.value < |s.threads| then s.threads[s.current.value].process else None
  }

  /** Main thread of the first record with this id and this parent. */
  function ChildMain(processes: seq<Process>, id: nat, parent: nat): Option<nat> {
    if processes == [] then None
    else if processes[0].id == id && processes[0].parent == Some(parent) then processes[0].mainThread
    else ChildMain(processes[1..], id, parent)
  }

  function ChildOfCurrent(s: State, process: nat): Option<nat> {
    match CurrentProcess(s)
    case None => None
    case Some(p) => ChildMain(s.processes, process, p)
  }

  function WaitProcess(s: State, process: nat): (State, Reply)
    requires Shape(s)
  {
    match ChildOfCurrent(s, process)
    case None => (s, Returned(None))
    case Some(main) =>
      var (s1, reply) := JoinAs(s, main, Collecting(main, process));
      if reply.Returned? && reply.status.Some? then (Collect(s1, process), reply) else (s1, reply)
  }

  function TryWaitProcess(s: State, process: nat): (State, Option<U64>)
    requires Shape(s)
  {
    match ChildOfCurrent(s, process)
    case None => (s, None)
    case Some(main) =>
      var (s1, status) := TryJoin(s, main);
      if status.Some? then (Collect(s1, process), status) else (s1, None)
  }

  predicate ExitedChild(s: State, record: Process, parent: nat)
    requires record.mainThread.Some? ==> record.mainThread.value < |s.threads|
  {
    && record.mainThread.Some?
    && record.parent == Some(parent)
    && s.threads[record.mainThread.value].state == Exited
  }

  /** Index of the first exited child at or after `from`. */
  function FirstExitedChild(s: State, parent: nat, from: nat): (i: nat)
    requires from <= |s.processes|
    requires forall j | 0 <= j < |s.processes| :: s.processes[j].mainThread.Some? ==> s.processes[j].mainThread.value < |s.threads|
    ensures from <= i <= |s.processes|
    ensures i < |s.processes| ==> ExitedChild(s, s.processes[i], parent)
    ensures forall j | from <= j < i :: !ExitedChild(s, s.processes[j], parent)
    decreases |s.processes| - from
  {
    if from == |s.processes| then from
    else if ExitedChild(s, s.processes[from], parent) then from
    else FirstExitedChild(s, parent, from + 1)
  }

  function ReapAnyChild(s: State): (State, Option<(nat, U64)>)
    requires Shape(s)
  {
    match CurrentProcess(s)
    case None => (s, None)
    case Some(p) =>
      var i := FirstExitedChild(s, p, 0);
      if i == |s.processes| then (s, None)
      else
        var (s1, status) := TryJoin(s, s.processes[i].mainThread.value);
        if status.Some? then
          (Collect(s1, s.processes[i].id), Some((s.processes[i].id, status.value)))
        else
          (s1, None)
  }

  /** The dispatched thread returns from the `block_current` it blocked in. */
  function Resume(s: State): (State, Option<U64>)
    requires Shape(s)
  {
    if s.current.None? || s.pending[s.current.value].NoCall? then (s, None)
    else
      var c := s.current.value;
      var call := s.pending[c];
      var (s1, status) := JoinTail(s.(pending := s.pending[c := NoCall]), call.thread);
      if call.Collecting? && status.Some? then (Collect(s1, call.process), status) else (s1, status)
  }

  function TerminateProcess(s: State, process: nat): (State, bool)
    requires Shape(s)
  {
    match ChildOfCurrent(s, process)
    case None => (s, false)
    case Some(main) =>
      if main >= |s.threads| || s.threads[main].state == Exited then (s, true)
      else
        var task := s.threads[main];
        var ended := task.(state := Exited, exitStatus := TERMINATED_STATUS);
        (WakeAll(s.(threads := s.threads[main := ended]), JoinList(task)), true)
  }

  // -------------------------------------------------------------------- spawn

  function FreeRecord(processes: seq<Process>, from: nat): (i: nat)
    requires from <= |processes|
    ensures from <= i <= |processes|
    ensures i < |processes| ==> processes[i].id == NO_THREAD
    ensures forall j | from <= j < i :: processes[j].id != NO_THREAD
    decreases |processes| - from
  {
    if from == |processes| || processes[from].id == NO_THREAD then from
    else FreeRecord(processes, from + 1)
  }

  function CreateProcess(s: State, space: nat): (State, Option<nat>)
    requires Shape(s)
  {
    var slot := FreeRecord(s.processes, 1);
    if slot == |s.processes| then (s, None)
    else
      (s.(processes := s.processes[slot := Process(slot + 1, space, CurrentProcess(s), None)]), Some(slot + 1))
  }

  predicate Reusable(t: Thread) {
    t.state == Exited && t.reapable
  }

  function FreeThread(threads: seq<Thread>, from: nat): (i: nat)
    requires from <= |threads|
    ensures from <= i <= |threads|
    ensures i < |threads| ==> Reusable(threads[i])
    ensures forall j | from <= j < i :: !Reusable(threads[j])
    decreases |threads| - from
  {
    if from == |threads| || Reusable(threads[from]) then from
    else FreeThread(threads, from + 1)
  }

  function NewUserThread(n: nat, process: nat): Thread {
    Thread(Ready, true, Some(process), false, 0, seq(n, _ => NO_THREAD), 0)
  }

  /** `spawn_user_for_process`; `stacks` says whether the stacks could be mapped. */
  function SpawnUser(s: State, process: nat, stacks: bool): (State, Option<nat>)
    requires Shape(s)
  {
    var slot := FreeThread(s.threads, 1);
    if AddressSpaceOf(s.processes, process).None? || slot == |s.threads| || !stacks then (s, None)
    else
      var s1 := s.(threads := s.threads[slot := NewUserThread(|s.threads|, process)],
                   pending := s.pending[slot := NoCall]);
      (Enqueue(s1, slot), Some(slot))
  }

  /** `thread_create`: whatever the caller, the new thread belongs to PID 1. */
  function ThreadCreate(s: State, checked: bool, stacks: bool): (State, Option<nat>)
    requires Shape(s)
  {
    if !checked then (s, None) else SpawnUser(s, INIT_PROCESS, stacks)
  }

  function SetMainThread(processes: seq<Process>, process: nat, thread: nat): (r: seq<Process>)
    ensures |r| == |processes|
  {
    var i := FindRecord(processes, process);
    if i == |processes| then processes else processes[i := processes[i].(mainThread := Some(thread))]
  }

  /** The process-table part of `user::spawn` for an address space already created;
      `loaded` says whether the image could be loaded. */
  function SpawnProcess(s: State, space: nat, loaded: bool, stacks: bool): (State, Option<nat>)
    requires Shape(s)
  {
    var (s1, process) := CreateProcess(s, space);
    if process.None? || !loaded then (s1, None)
    else
      var (s2, thread) := SpawnUser(s1, process.value, stacks);
      if thread.None? then (s2, None)
      else (s2.(processes := SetMainThread(s2.processes, process.value, thread.value)), process)
  }

  // ------------------------------------------------------- sleepers and futexes

  function AtLeastOne(a: U64): U64 {
    if a == 0 then 1 else a
  }

  function SleepTicks(milliseconds: U64): U64 {
    AtLeastOne(SaturatingAdd(milliseconds, 9) / 10)
  }

  /** Index of the first empty entry at or after `from`. */
  function FirstEmpty<T>(table: seq<Option<T>>, from: nat): (i: nat)
    requires from <= |table|
    ensures from <= i <= |table|
    ensures i < |table| ==> table[i].None?
    ensures forall j | from <= j < i :: table[j].Some?
    decreases |table| - from
  {
    if from == |table| || table[from].None? then from else FirstEmpty(table, from + 1)
  }

  function Sleep(s: State, milliseconds: U64): (State, U64)
    requires Shape(s)
  {
    if milliseconds == 0 then (s, 0)
    else if s.current.None? then (s, TWO_64 - 1)
    else
      var i := FirstEmpty(s.sleepers, 0);
      if i == |s.sleepers| then (s, TWO_64 - 1)
      else
        var entry := Sleeper(s.current.value, WrappingAdd(s.ticks, SleepTicks(milliseconds)));
        (Block(s.(sleepers := s.sleepers[i := Some(entry)])), 0)
  }

  function FutexDeadline(ticks: U64, timeout: U64): Option<U64> {
    if timeout == TWO_64 - 1 then None else Some(WrappingAdd(ticks, SleepTicks(timeout)))
  }

  predicate ValidUserWord(address: U64) {
    address % 4 == 0 && USER_BASE <= address && address + 4 <= USER_END
  }

  /** `actual` is the word the kernel reads at `address`. */
  function FutexWait(s: State, address: U64, actual: U64, expected: U64, timeout: U64): (State, U64)
    requires Shape(s)
  {
    if !ValidUserWord(address) then (s, TWO_64 - 1)
    else if actual != expected then (s, 1)
    else if s.current.None? then (s, TWO_64 - 1)
    else
      var i := FirstEmpty(s.futexWaiters, 0);
      if i == |s.futexWaiters| then (s, TWO_64 - 1)
      else
        var entry := FutexWaiter(address, s.current.value, FutexDeadline(s.ticks, timeout));
        (Block(s.(futexWaiters := s.futexWaiters[i := Some(entry)])), 0)
  }

  /** The scan of `futex_wake` from entry `i` on, `woken` wakes into it. */
  function FutexWakeFrom(s: State, address: U64, count: U64, i: nat, woken: nat): (State, nat)
    requires i <= |s.futexWaiters|
    decreases |s.futexWaiters| - i
  {
    if i == |s.futexWaiters| then (s, woken)
    else
      match s.futexWaiters[i]
      case None => FutexWakeFrom(s, address, count, i + 1, woken)
      case Some(entry) =>
        if entry.address == address && woken < count then
          var (s1, ok) := Wake(s.(futexWaiters := s.futexWaiters[i := None]), entry.thread);
          FutexWakeFrom(s1, address, count, i + 1, if ok then woken + 1 else woken)
        else
          FutexWakeFrom(s, address, count, i + 1, woken)
  }

  function FutexWake(s: State, address: U64, count: U64): (State, nat) {
    if !ValidUserWord(address) then (s, TWO_64 - 1) else FutexWakeFrom(s, address, count, 0, 0)
  }

  predicate Due(ticks: U64, deadline: U64) {
    WrappingSub(ticks, deadline) < TWO_63
  }

  function ExpireSleepers(s: State, i: nat): State
    requires i <= |s.sleepers|
    decreases |s.sleepers| - i
  {
    if i == |s.sleepers| then s
    else if s.sleepers[i].Some? && Due(s.ticks, s.sleepers[i].value.deadline) then
      ExpireSleepers(Wake(s.(sleepers := s.sleepers[i := None]), s.sleepers[i].value.thread).0, i + 1)
    else
      ExpireSleepers(s, i + 1)
  }

  predicate FutexDue(ticks: U64, entry: FutexWaiter) {
    entry.deadline.Some? && Due(ticks, entry.deadline.value)
  }

  function ExpireFutexes(s: State, i: nat): State
    requires i <= |s.futexWaiters|
    decreases |s.futexWaiters| - i
  {
    if i == |s.futexWaiters| then s
    else if s.futexWaiters[i].Some? && FutexDue(s.ticks, s.futexWaiters[i].value) then
      ExpireFutexes(Wake(s.(futexWaiters := s.futexWaiters[i := None]), s.futexWaiters[i].value.thread).0, i + 1)
    else
      ExpireFutexes(s, i + 1)
  }

  /** The timer interrupt. */
  function Tick(s: State): State {
    ExpireFutexes(ExpireSleepers(s.(ticks := WrappingAdd(s.ticks, 1)), 0), 0)
  }

  // --------------------------------------------------------------------- boot

  function InitialState(n: nat, tables: nat, space: nat): State
    requires 2 <= n
  {
    State(seq(n, _ => EmptyThread(n)), [], None, seq(n, _ => NoCall),
          seq(n, i => if i == 0 then Process(INIT_PROCESS, space, None, None) else EMPTY_PROCESS),
          space, seq(tables, _ => None), seq(tables, _ => None), 0)
  }

  /** `ensure_idle` and `schedule_from_scheduler`.  The first thread dispatched enters
      through its trampoline, which switches to its address space. */
  function Start(s: State): State
    requires Shape(s)
  {
    var s1 := MakeReady(s, IDLE);
    var (next, rest) := NextReady(s1.threads, s1.queue);
    var chosen := next.GetOr(IDLE);
    s1.(queue := rest, current := Some(chosen),
        threads := SetState(s1.threads, chosen, Running),
        activeSpace := SpaceOnEntry(s1.threads[chosen], s1.processes, s1.activeSpace))
  }

  // -------------------------------------------------------------------- steps

  datatype Step =
    | DoResume
    | DoYield
    | DoExit(status: U64)
    | DoJoin(target: nat)
    | DoWait(process: nat)
    | DoTryWait(process: nat)
    | DoReapAny
    | DoTerminate(process: nat)
    | DoThreadCreate(checked: bool, stacks: bool)
    | DoSpawn(space: nat, loaded: bool, stacks: bool)
    | DoSleep(milliseconds: U64)
    | DoFutexWait(address: U64, actual: U64, expected: U64, timeout: U64)
    | DoFutexWake(address: U64, count: U64)
    | DoTick

  function Next(s: State, step: Step): State
    requires Shape(s)
  {
    match step
    case DoResume => Resume(s).0
    case DoYield => Yield(s)
    case DoExit(status) => ExitCurrent(s, status)
    case DoJoin(target) => Join(s, target).0
    case DoWait(process) => WaitProcess(s, process).0
    case DoTryWait(process) => TryWaitProcess(s, process).0
    case DoReapAny => ReapAnyChild(s).0
    case DoTerminate(process) => TerminateProcess(s, process).0
    case DoThreadCreate(checked, stacks) => ThreadCreate(s, checked, stacks).0
    case DoSpawn(space, loaded, stacks) => SpawnProcess(s, space, loaded, stacks).0
    case DoSleep(milliseconds) => Sleep(s, milliseconds).0
    case DoFutexWait(address, actual, expected, timeout) => FutexWait(s, address, actual, expected, timeout).0
    case DoFutexWake(address, count) => FutexWake(s, address, count).0
    case DoTick => Tick(s)
  }

  lemma WakeAllShape(s: State, waiters: seq<nat>)
    requires Shape(s)
    ensures Shape(WakeAll(s, waiters))
    ensures WakeAll(s, waiters).current == s.current && WakeAll(s, waiters).processes == s.processes
    decreases |waiters|
  {
    if waiters != [] {
      WakeAllShape(Wake(s, waiters[0]).0, waiters[1..]);
    }
  }
}
