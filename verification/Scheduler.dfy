/**
 The scheduler as the kernel holds it: fixed arrays, a ring buffer and a few words,
 changed in place.  Each method is proved to do to the arrays exactly what its
 function in `ThreadTable` does to the state value, so every result about runs of
 those functions is a result about these methods.
 */
module Scheduler {
  import opened Wrappers
  import opened ThreadTable
  import opened Words
  import opened RunQueue
  import opened SchedulerShape

  class Kernel {
    const threads: array<Thread>
    const queue: Ring
    var current: Option<nat>
    const pending: array<Pending>
    const processes: array<Process>
    var activeSpace: nat
    const sleepers: array<Option<Sleeper>>
    const futexWaiters: array<Option<FutexWaiter>>
    var ticks: U64

    ghost const repr: set<object> := {this, threads, queue, queue.slots, pending, processes, sleepers, futexWaiters}

    ghost predicate Structure()
      reads repr
    {
      && queue.Valid()
      && queue.slots.Length == threads.Length == pending.Length == processes.Length
    }

    /** The state value the arrays represent. */
    ghost function View(): State
      reads repr
      requires Structure()
    {
      State(threads[..], queue.Contents(), current, pending[..], processes[..], activeSpace,
            sleepers[..], futexWaiters[..], ticks)
    }

    ghost predicate Valid()
      reads repr
    {
      Structure() && Shape(View())
    }

    /** The tables at boot, PID 1 in its address space `space`. */
    constructor (n: nat, tables: nat, space: nat)
      requires 2 <= n < NO_THREAD
      ensures Valid() && fresh(repr)
      ensures View() == InitialState(n, tables, space)
    {
      hide Shape, EmptyThread, InitialState, InOrder, Wrap, Repeated;
      var ring := new Ring(n);
      var allThreads := Filled(n, EmptyThread(n));
      var noCalls := Filled(n, NoCall);
      var records := FirstRecords(n, space);
      var noSleepers: array<Option<Sleeper>> := Filled(tables, None);
      var noWaiters: array<Option<FutexWaiter>> := Filled(tables, None);
      threads, queue, pending, processes := allThreads, ring, noCalls, records;
      sleepers, futexWaiters := noSleepers, noWaiters;
      current, activeSpace, ticks := None, space, 0;
      new;
      InitialShape(n, tables, space);
      InitialStateIs(n, tables, space);
    }

    // -------------------------------------------------------------- run queue

    method Enqueue(t: nat)
      requires Valid() && t < threads.Length
      modifies queue, queue.slots
      ensures Valid() && View() == ThreadTable.Enqueue(old(View()), t)
    {
      queue.Enqueue(t);
      assert View() == ThreadTable.Enqueue(old(View()), t);
    }

    /** Dequeues the first thread that has not exited. */
    method NextReady() returns (next: Option<nat>)
      requires Valid()
      modifies queue
      ensures Structure()
      ensures next == ThreadTable.NextReady(old(View()).threads, old(View()).queue).0
      ensures View() == old(View()).(queue := ThreadTable.NextReady(old(View()).threads, old(View()).queue).1)
    {
      hide Shape;
      QueueInRange(View());
      while true
        invariant Structure()
        invariant View() == old(View()).(queue := queue.Contents())
        invariant Below(queue.Contents(), threads.Length)
        invariant ThreadTable.NextReady(threads[..], queue.Contents())
               == ThreadTable.NextReady(old(View()).threads, old(View()).queue)
        decreases queue.count
      {
        var candidate := queue.Dequeue();
        if candidate.None? {
          return None;
        }
        if threads[candidate.value].state != Exited {
          return candidate;
        }
      }
    }

    method ProcessAddressSpace(id: nat) returns (space: Option<nat>)
      ensures space == AddressSpaceOf(processes[..], id)
    {
      ghost var records := processes[..];
      for i := 0 to processes.Length
        invariant AddressSpaceOf(records, id) == AddressSpaceOf(records[i..], id)
      {
        if processes[i].id == id {
          return Some(processes[i].addressSpace);
        }
      }
      return None;
    }

    /** `schedule_from_current`: the switch itself is the change of `current`. */
    method ScheduleFromCurrent(c: nat)
      requires Valid() && c < threads.Length
      modifies repr
      ensures Valid() && View() == ScheduleFrom(old(View()), c)
    {
      hide Shape, SpaceOnEntry;
      ghost var s := View();
      ScheduleShape(s, c);
      var ready := NextReady();
      var next := ready.GetOr(IDLE);
      if next == c {
        threads[c] := threads[c].(state := Running);
        assert View() == ScheduleFrom(s, c);
        return;
      }
      Enter(next);
      assert View() == ScheduleFrom(s, c);
    }

    /** Makes a thread current, in its own address space if it names one. */
    method Enter(next: nat)
      requires Structure() && next < threads.Length
      modifies this, threads
      ensures Structure()
      ensures var s := old(View());
              View() == s.(current := Some(next), threads := SetState(s.threads, next, Running),
                           activeSpace := SpaceOnEntry(s.threads[next], s.processes, s.activeSpace))
    {
      hide AddressSpaceOf;
      ghost var s := View();
      current := Some(next);
      threads[next] := threads[next].(state := Running);
      assert threads[..] == SetState(s.threads, next, Running);
      if threads[next].isUser && threads[next].process.Some? {
        var space := ProcessAddressSpace(threads[next].process.value);
        if space.Some? {
          activeSpace := space.value;
        }
      }
    }

    method YieldNow()
      requires Valid()
      modifies repr
      ensures Valid() && View() == Yield(old(View()))
    {
      hide Shape, ScheduleFrom;
      ghost var s := View();
      YieldShape(s);
      if current.None? {
        return;
      }
      var c := current.value;
      CurrentInRange(s);
      if c != IDLE {
        MakeReadyInPlace(c);
      }
      ScheduleFromCurrent(c);
    }

    /** Marks a thread ready and queues it. */
    method MakeReadyInPlace(t: nat)
      requires Valid() && t < threads.Length
      modifies repr
      ensures Valid() && View() == MakeReady(old(View()), t)
    {
      hide Shape;
      ghost var s := View();
      MakeReadyShape(s, t);
      threads[t] := threads[t].(state := Ready);
      queue.Enqueue(t);
      assert View() == MakeReady(s, t);
    }

    method BlockCurrent()
      requires Valid()
      modifies repr
      ensures Valid() && View() == Block(old(View()))
    {
      hide Shape, ScheduleFrom;
      ghost var s := View();
      BlockShape(s);
      if current.None? || current == Some(IDLE) {
        return;
      }
      var c := current.value;
      CurrentInRange(s);
      SetStateShape(s, c, Blocked);
      threads[c] := threads[c].(state := Blocked);
      assert View() == s.(threads := SetState(s.threads, c, Blocked));
      ScheduleFromCurrent(c);
    }

    method Wake(t: nat) returns (woken: bool)
      requires Valid()
      modifies repr
      ensures Valid() && (View(), woken) == ThreadTable.Wake(old(View()), t)
    {
      hide Shape;
      if t >= threads.Length || threads[t].state != Blocked {
        return false;
      }
      MakeReadyInPlace(t);
      return true;
    }

    /** The waiter loop that `exit_current_with_status` and `terminate_process` share. */
    method WakeWaiters(waiters: seq<nat>)
      requires Valid()
      modifies repr
      ensures Valid() && View() == WakeAll(old(View()), waiters)
    {
      hide Shape;
      for i := 0 to |waiters|
        invariant Valid()
        invariant WakeAll(View(), waiters[i..]) == WakeAll(old(View()), waiters)
      {
        var _ := Wake(waiters[i]);
      }
    }

    // ----------------------------------------------------- exit, join, collect

    method ReparentChildren(thread: nat)
      requires Valid()
      modifies processes
      ensures Valid() && View() == old(View()).(processes := Reparent(old(View()).processes, thread))
    {
      hide Shape;
      ghost var s := View();
      ReparentShape(s, thread);
      var exited := None;
      for i := 0 to processes.Length
        invariant exited.None? && ProcessOfMain(s.processes, thread) == ProcessOfMain(s.processes[i..], thread)
      {
        if processes[i].mainThread == Some(thread) {
          exited := Some(processes[i].id);
          break;
        }
      }
      assert exited == ProcessOfMain(s.processes, thread);
      if exited.None? {
        return;
      }
      for i := 0 to processes.Length
        invariant forall j | 0 <= j < i :: processes[j] == Adopt(s.processes[j], exited.value)
        invariant forall j | i <= j < processes.Length :: processes[j] == s.processes[j]
      {
        if processes[i].parent == exited {
          processes[i] := processes[i].(parent := Some(INIT_PROCESS));
        }
      }
      assert processes[..] == Reparent(s.processes, thread);
    }

    method ExitCurrentWithStatus(status: U64)
      requires Valid()
      modifies repr
      ensures Valid() && View() == ExitCurrent(old(View()), status)
    {
      hide Shape, ScheduleFrom, Reparent, WakeAll;
      ghost var s := View();
      ExitShape(s, status);
      if current.None? || current == Some(IDLE) {
        return;
      }
      var c := current.value;
      CurrentInRange(s);
      JoinListInRange(s, c);
      var task := threads[c];
      threads[c] := task.(state := Exited, exitStatus := status, reapable := !task.isUser);
      EndedShape(s, c, status, !task.isUser);
      assert View() == s.(threads := s.threads[c := threads[c]]);
      WakeAllShape(View(), JoinList(task));
      WakeWaiters(JoinList(task));
      ReparentChildren(c);
      ScheduleFromCurrent(c);
    }

    /** `join` up to the point where its caller has to wait. */
    method JoinAs(target: nat, call: Pending) returns (reply: Reply)
      requires Valid() && call.On(target)
      modifies repr
      ensures Valid() && (View(), reply) == ThreadTable.JoinAs(old(View()), target, call)
    {
      hide Shape, Block, ThreadTable.JoinTail;
      ghost var s := View();
      JoinAsShape(s, target, call);
      if current.None? || current.value == target || target >= threads.Length {
        return Returned(None);
      }
      var c := current.value;
      CurrentInRange(s);
      JoinListInRange(s, target);
      var task := threads[target];
      if task.state == Exited {
        threads[target] := task.(reapable := task.reapable || task.joinWaiterCount == 0);
        assert View() == s.(threads := s.threads[target := threads[target]]);
        return Returned(Some(task.exitStatus));
      }
      if task.joinWaiterCount == threads.Length {
        return Returned(None);
      }
      ListShape(s, target, c);
      threads[target] := task.(joinWaiters := task.joinWaiters[task.joinWaiterCount := c],
                               joinWaiterCount := task.joinWaiterCount + 1);
      assert View() == s.(threads := s.threads[target := threads[target]]);
      if c == IDLE {
        var status := JoinTail(target);
        return Returned(status);
      }
      CallShape(View(), c, call);
      pending[c] := call;
      BlockCurrent();
      return Suspended;
    }

    method JoinTail(target: nat) returns (status: Option<U64>)
      requires Valid() && target < threads.Length
      modifies threads
      ensures Valid() && (View(), status) == ThreadTable.JoinTail(old(View()), target)
    {
      hide Shape;
      ghost var s := View();
      JoinTailShape(s, target);
      var task := threads[target];
      if task.state != Exited {
        return None;
      }
      var count := if task.joinWaiterCount != 0 then task.joinWaiterCount - 1 else 0;
      threads[target] := task.(joinWaiterCount := count, reapable := task.reapable || count == 0);
      assert View() == s.(threads := s.threads[target := threads[target]]);
      return Some(task.exitStatus);
    }

    method TryJoin(target: nat) returns (status: Option<U64>)
      requires Valid()
      modifies threads
      ensures Valid() && (View(), status) == ThreadTable.TryJoin(old(View()), target)
    {
      hide Shape;
      ghost var s := View();
      TryJoinShape(s, target);
      if current.None? || current.value == target || target >= threads.Length {
        return None;
      }
      var task := threads[target];
      if task.state != Exited {
        return None;
      }
      threads[target] := task.(reapable := task.reapable || task.joinWaiterCount == 0);
      assert View() == s.(threads := s.threads[target := threads[target]]);
      return Some(task.exitStatus);
    }

    method FindRecord(id: nat) returns (i: nat)
      ensures i == ThreadTable.FindRecord(processes[..], id)
    {
      ghost var records := processes[..];
      i := 0;
      while i < processes.Length
        invariant i <= processes.Length
        invariant ThreadTable.FindRecord(records, id) == i + ThreadTable.FindRecord(records[i..], id)
      {
        if processes[i].id == id {
          return;
        }
        i := i + 1;
      }
    }

    /** Clears the record of a collected process and names the address space to destroy. */
    method Collect(process: nat) returns (destroyed: Option<nat>)
      requires Valid()
      modifies processes
      ensures Valid() && View() == ThreadTable.Collect(old(View()), process)
      ensures destroyed == SpaceCollected(old(View()), process)
    {
      hide Shape;
      ghost var s := View();
      CollectShape(s, process);
      destroyed := ProcessAddressSpace(process);
      var i := FindRecord(process);
      FindRecordFindsSpace(s.processes, process);
      if i == processes.Length {
        return;
      }
      processes[i] := EMPTY_PROCESS;
      assert View() == s.(processes := s.processes[i := EMPTY_PROCESS]);
    }

    /** Main thread of the calling process's child `process`. */
    method ChildOfCurrent(process: nat) returns (main: Option<nat>)
      requires Valid()
      ensures main == ThreadTable.ChildOfCurrent(View(), process)
    {
      hide Shape;
      if current.None? || current.value >= threads.Length || threads[current.value].process.None? {
        return None;
      }
      var parent := threads[current.value].process.value;
      ghost var records := processes[..];
      for i := 0 to processes.Length
        invariant ChildMain(records, process, parent) == ChildMain(records[i..], process, parent)
      {
        if processes[i].id == process && processes[i].parent == Some(parent) {
          return processes[i].mainThread;
        }
      }
      return None;
    }

    method WaitProcess(process: nat) returns (reply: Reply, destroyed: Option<nat>)
      requires Valid()
      modifies repr
      ensures Valid() && (View(), reply) == ThreadTable.WaitProcess(old(View()), process)
      ensures destroyed ==
              if reply.Returned? && reply.status.Some? then SpaceCollected(old(View()), process) else None
    {
      hide Shape, ThreadTable.JoinAs, ThreadTable.Collect, AddressSpaceOf;
      destroyed := None;
      var main := ChildOfCurrent(process);
      if main.None? {
        return Returned(None), None;
      }
      ghost var s := View();
      reply := JoinAs(main.value, Collecting(main.value, process));
      if reply.Returned? && reply.status.Some? {
        JoinAsKeepsRecords(s, main.value, Collecting(main.value, process));
        destroyed := Collect(process);
      }
    }

    method TryWaitProcess(process: nat) returns (status: Option<U64>, destroyed: Option<nat>)
      requires Valid()
      modifies repr
      ensures Valid() && (View(), status) == ThreadTable.TryWaitProcess(old(View()), process)
      ensures destroyed == if status.Some? then SpaceCollected(old(View()), process) else None
    {
      hide Shape, ThreadTable.Collect, AddressSpaceOf;
      destroyed := None;
      var main := ChildOfCurrent(process);
      if main.None? {
        return None, None;
      }
      status := TryJoin(main.value);
      if status.Some? {
        destroyed := Collect(process);
      }
    }

    method ReapAnyChild() returns (reaped: Option<(nat, U64)>, destroyed: Option<nat>)
      requires Valid()
      modifies repr
      ensures Valid() && (View(), reaped) == ThreadTable.ReapAnyChild(old(View()))
      ensures destroyed == if reaped.Some? then SpaceCollected(old(View()), reaped.value.0) else None
    {
      hide Shape, ThreadTable.Collect, AddressSpaceOf;
      if current.None? || current.value >= threads.Length || threads[current.value].process.None? {
        return None, None;
      }
      var parent := threads[current.value].process.value;
      ghost var s := View();
      MainThreadsInRange(s);
      var i := 0;
      while i < processes.Length
        invariant i <= processes.Length
        invariant FirstExitedChild(s, parent, 0) == FirstExitedChild(s, parent, i)
      {
        var record := processes[i];
        if record.mainThread.Some? && record.parent == Some(parent)
           && threads[record.mainThread.value].state == Exited {
          break;
        }
        i := i + 1;
      }
      assert i == FirstExitedChild(s, parent, 0);
      if i == processes.Length {
        return None, None;
      }
      var process, main := processes[i].id, processes[i].mainThread.value;
      var status := TryJoin(main);
      if status.None? {
        return None, None;
      }
      destroyed := Collect(process);
      reaped := Some((process, status.value));
    }

    /** The dispatched thread returns from the `block_current` inside `join`. */
    method Resume() returns (status: Option<U64>, destroyed: Option<nat>)
      requires Valid()
      modifies repr
      ensures Valid() && (View(), status) == ThreadTable.Resume(old(View()))
      ensures destroyed == SpaceOfResumed(old(View()), status)
    {
      hide Shape, ThreadTable.JoinTail, ThreadTable.Collect, AddressSpaceOf;
      destroyed := None;
      ghost var s := View();
      if current.None? {
        return None, None;
      }
      CurrentInRange(s);
      var c := current.value;
      if pending[c].NoCall? {
        return None, None;
      }
      var call := pending[c];
      CallInRange(s, c);
      CallShape(s, c, NoCall);
      pending[c] := NoCall;
      assert View() == s.(pending := s.pending[c := NoCall]);
      status := JoinTail(call.thread);
      assert View().processes == s.processes by { TailKeepsRecords(s.(pending := s.pending[c := NoCall]), call.thread); }
      if call.Collecting? && status.Some? {
        destroyed := Collect(call.process);
      }
    }

    method TerminateProcess(process: nat) returns (ok: bool)
      requires Valid()
      modifies repr
      ensures Valid() && (View(), ok) == ThreadTable.TerminateProcess(old(View()), process)
    {
      hide Shape, WakeAll;
      ghost var s := View();
      TerminateShape(s, process);
      var main := ChildOfCurrent(process);
      if main.None? {
        return false;
      }
      if main.value >= threads.Length || threads[main.value].state == Exited {
        return true;
      }
      JoinListInRange(s, main.value);
      var task := threads[main.value];
      threads[main.value] := task.(state := Exited, exitStatus := TERMINATED_STATUS);
      EndedShape(s, main.value, TERMINATED_STATUS, task.reapable);
      assert View() == s.(threads := s.threads[main.value := threads[main.value]]);
      WakeWaiters(JoinList(task));
      return true;
    }

    // ------------------------------------------------------------------ spawn

    method CreateProcess(space: nat) returns (id: Option<nat>)
      requires Valid()
      modifies processes
      ensures Valid() && (View(), id) == ThreadTable.CreateProcess(old(View()), space)
    {
      hide Shape;
      ghost var s := View();
      CreateShape(s, space);
      AtLeastTwo(s);
      for slot := 1 to processes.Length
        invariant View() == s
        invariant FreeRecord(s.processes, 1) == FreeRecord(s.processes, slot)
      {
        if processes[slot].id == NO_THREAD {
          var parent := if current.Some? && current.value < threads.Length then threads[current.value].process else None;
          processes[slot] := Process(slot + 1, space, parent, None);
          assert View() == s.(processes := s.processes[slot := processes[slot]]);
          return Some(slot + 1);
        }
      }
      return None;
    }

    method SetProcessMainThread(process: nat, thread: nat)
      requires Valid() && thread < threads.Length
      modifies processes
      ensures Valid() && View() == old(View()).(processes := SetMainThread(old(View()).processes, process, thread))
    {
      hide Shape;
      ghost var s := View();
      SetMainShape(s, process, thread);
      var i := FindRecord(process);
      if i < processes.Length {
        processes[i] := processes[i].(mainThread := Some(thread));
      }
      assert processes[..] == SetMainThread(s.processes, process, thread);
    }

    method SpawnUserForProcess(process: nat, stacks: bool) returns (thread: Option<nat>)
      requires Valid()
      modifies repr
      ensures Valid() && (View(), thread) == SpawnUser(old(View()), process, stacks)
    {
      hide Shape, AddressSpaceOf;
      ghost var s := View();
      SpawnUserShape(s, process, stacks);
      AtLeastTwo(s);
      var space := ProcessAddressSpace(process);
      if space.None? {
        return None;
      }
      for slot := 1 to threads.Length
        invariant View() == s
        invariant FreeThread(s.threads, 1) == FreeThread(s.threads, slot)
      {
        if threads[slot].state == Exited && threads[slot].reapable {
          if !stacks {
            return None;
          }
          threads[slot] := NewUserThread(threads.Length, process);
          pending[slot] := NoCall;
          queue.Enqueue(slot);
          assert View() == SpawnUser(s, process, stacks).0;
          return Some(slot);
        }
      }
      return None;
    }

    method CreateThread(checked: bool, stacks: bool) returns (thread: Option<nat>)
      requires Valid()
      modifies repr
      ensures Valid() && (View(), thread) == ThreadCreate(old(View()), checked, stacks)
    {
      if !checked {
        return None;
      }
      thread := SpawnUserForProcess(INIT_PROCESS, stacks);
    }

    method SpawnProcess(space: nat, loaded: bool, stacks: bool) returns (process: Option<nat>)
      requires Valid()
      modifies repr
      ensures Valid() && (View(), process) == ThreadTable.SpawnProcess(old(View()), space, loaded, stacks)
    {
      hide Shape, ThreadTable.CreateProcess, SpawnUser, SetMainThread;
      process := CreateProcess(space);
      if process.None? || !loaded {
        return None;
      }
      ghost var s1 := View();
      var thread := SpawnUserForProcess(process.value, stacks);
      if thread.None? {
        return None;
      }
      SpawnedInRange(s1, process.value, stacks);
      SetProcessMainThread(process.value, thread.value);
    }

    // ----------------------------------------------------- sleepers and futexes

    method Sleep(milliseconds: U64) returns (result: U64)
      requires Valid()
      modifies repr
      ensures Valid() && (View(), result) == ThreadTable.Sleep(old(View()), milliseconds)
    {
      hide Shape, Block, WrappingAdd, SleepTicks;
      ghost var s := View();
      if milliseconds == 0 {
        return 0;
      }
      if current.None? {
        return TWO_64 - 1;
      }
      var deadline := WrappingAdd(ticks, SleepTicks(milliseconds));
      for i := 0 to sleepers.Length
        invariant View() == s
        invariant FirstEmpty(s.sleepers, 0) == FirstEmpty(s.sleepers, i)
      {
        if sleepers[i].None? {
          CurrentInRange(s);
          SleeperShape(s, i, Sleeper(current.value, deadline));
          sleepers[i] := Some(Sleeper(current.value, deadline));
          assert View() == s.(sleepers := s.sleepers[i := sleepers[i]]);
          BlockCurrent();
          return 0;
        }
      }
      return TWO_64 - 1;
    }

    method FutexWait(address: U64, actual: U64, expected: U64, timeout: U64) returns (result: U64)
      requires Valid()
      modifies repr
      ensures Valid() && (View(), result) == ThreadTable.FutexWait(old(View()), address, actual, expected, timeout)
    {
      hide Shape, Block, FutexDeadline;
      ghost var s := View();
      if !ValidUserWord(address) {
        return TWO_64 - 1;
      }
      if actual != expected {
        return 1;
      }
      if current.None? {
        return TWO_64 - 1;
      }
      var deadline := FutexDeadline(ticks, timeout);
      for i := 0 to futexWaiters.Length
        invariant View() == s
        invariant FirstEmpty(s.futexWaiters, 0) == FirstEmpty(s.futexWaiters, i)
      {
        if futexWaiters[i].None? {
          CurrentInRange(s);
          FutexWaiterShape(s, i, FutexWaiter(address, current.value, deadline));
          futexWaiters[i] := Some(FutexWaiter(address, current.value, deadline));
          assert View() == s.(futexWaiters := s.futexWaiters[i := futexWaiters[i]]);
          BlockCurrent();
          return 0;
        }
      }
      return TWO_64 - 1;
    }

    method FutexWake(address: U64, count: U64) returns (woken: nat)
      requires Valid()
      modifies repr
      ensures Valid() && (View(), woken) == ThreadTable.FutexWake(old(View()), address, count)
    {
      hide Shape, ThreadTable.Wake;
      if !ValidUserWord(address) {
        return TWO_64 - 1;
      }
      woken := 0;
      for i := 0 to futexWaiters.Length
        invariant Valid()
        invariant FutexWakeFrom(View(), address, count, i, woken) == FutexWakeFrom(old(View()), address, count, 0, 0)
      {
        var entry := futexWaiters[i];
        if entry.Some? && entry.value.address == address && woken < count {
          ghost var s := View();
          UnlistFutexShape(s, i);
          futexWaiters[i] := None;
          assert View() == s.(futexWaiters := s.futexWaiters[i := None]);
          var ok := Wake(entry.value.thread);
          if ok {
            woken := woken + 1;
          }
        }
      }
    }

    method WakeExpiredSleepers()
      requires Valid()
      modifies repr
      ensures Valid() && View() == ExpireSleepers(old(View()), 0)
    {
      hide Shape, ThreadTable.Wake, Due;
      for i := 0 to sleepers.Length
        invariant Valid()
        invariant ExpireSleepers(View(), i) == ExpireSleepers(old(View()), 0)
      {
        var entry := sleepers[i];
        if entry.Some? && Due(ticks, entry.value.deadline) {
          ghost var s := View();
          UnlistSleeperShape(s, i);
          sleepers[i] := None;
          assert View() == s.(sleepers := s.sleepers[i := None]);
          var _ := Wake(entry.value.thread);
        }
      }
    }

    method WakeExpiredFutexes()
      requires Valid()
      modifies repr
      ensures Valid() && View() == ExpireFutexes(old(View()), 0)
    {
      hide Shape, ThreadTable.Wake, FutexDue;
      for i := 0 to futexWaiters.Length
        invariant Valid()
        invariant ExpireFutexes(View(), i) == ExpireFutexes(old(View()), 0)
      {
        var entry := futexWaiters[i];
        if entry.Some? && FutexDue(ticks, entry.value) {
          ghost var s := View();
          UnlistFutexShape(s, i);
          futexWaiters[i] := None;
          assert View() == s.(futexWaiters := s.futexWaiters[i := None]);
          var _ := Wake(entry.value.thread);
        }
      }
    }

    /** The timer arm of `irq_dispatch`. */
    method TimerInterrupt()
      requires Valid()
      modifies repr
      ensures Valid() && View() == Tick(old(View()))
    {
      hide Shape, WrappingAdd, ExpireSleepers, ExpireFutexes;
      TickedShape(View());
      ticks := WrappingAdd(ticks, 1);
      WakeExpiredSleepers();
      WakeExpiredFutexes();
    }

    /** `start`: the idle thread is queued and the first ready thread dispatched. */
    method Start()
      requires Valid()
      modifies repr
      ensures Valid() && View() == ThreadTable.Start(old(View()))
    {
      hide Shape, SpaceOnEntry;
      ghost var s := View();
      StartShape(s);
      MakeReadyInPlace(IDLE);
      var ready := NextReady();
      var next := ready.GetOr(IDLE);
      Enter(next);
    }
  }

  /** A table with the same entry everywhere. */
  method Filled<T>(n: nat, entry: T) returns (a: array<T>)
    ensures fresh(a) && a[..] == Repeated(n, entry)
  {
    a := new T[n](_ => entry);
    assert a[..] == Repeated(n, entry);
  }

  function Repeated<T>(n: nat, entry: T): (r: seq<T>)
    ensures |r| == n
  {
    seq(n, _ => entry)
  }

  /** The process table with PID 1 in its first record. */
  method FirstRecords(n: nat, space: nat) returns (a: array<Process>)
    requires n > 0
    ensures fresh(a) && a[..] == Repeated(n, EMPTY_PROCESS)[0 := Process(INIT_PROCESS, space, None, None)]
  {
    a := Filled(n, EMPTY_PROCESS);
    a[0] := Process(INIT_PROCESS, space, None, None);
  }

  /** The address space that the dispatched thread's `wait_process` destroys. */
  function SpaceOfResumed(s: State, status: Option<U64>): Option<nat> {
    if s.current.Some? && s.current.value < |s.pending| && s.pending[s.current.value].Collecting? && status.Some? then
      SpaceCollected(s, s.pending[s.current.value].process)
    else None
  }

  // ----------------------------------------------------- facts about the state

  lemma InitialStateIs(n: nat, tables: nat, space: nat)
    requires 2 <= n
    ensures State(Repeated(n, EmptyThread(n)), [], None, Repeated(n, NoCall),
                  Repeated(n, EMPTY_PROCESS)[0 := Process(INIT_PROCESS, space, None, None)], space,
                  Repeated(tables, None), Repeated(tables, None), 0)
         == InitialState(n, tables, space)
  {
    hide EmptyThread;
    var s := InitialState(n, tables, space);
    assert s.threads == Repeated(n, EmptyThread(n)) && s.pending == Repeated(n, NoCall);
    assert s.processes == Repeated(n, EMPTY_PROCESS)[0 := Process(INIT_PROCESS, space, None, None)];
    assert s.sleepers == Repeated(tables, None) && s.futexWaiters == Repeated(tables, None);
  }

  lemma CurrentInRange(s: State)
    requires Shape(s) && s.current.Some?
    ensures s.current.value < |s.threads|
  {
  }

  lemma QueueInRange(s: State)
    requires Shape(s)
    ensures Below(s.queue, |s.threads|)
  {
  }

  lemma JoinListInRange(s: State, t: nat)
    requires Shape(s) && t < |s.threads|
    ensures s.threads[t].joinWaiterCount <= |s.threads[t].joinWaiters| == |s.threads|
  {
    assert ThreadShape(s.threads[t], |s.threads|);
  }

  lemma SetStateShape(s: State, t: nat, state: RunState)
    requires Shape(s) && t < |s.threads|
    ensures Shape(s.(threads := SetState(s.threads, t, state)))
  {
    assert ThreadShape(s.threads[t], |s.threads|);
    UpdateShape(s, t, s.threads[t].(state := state));
  }

  lemma EndedShape(s: State, t: nat, status: U64, reapable: bool)
    requires Shape(s) && t < |s.threads|
    ensures Shape(s.(threads := s.threads[t := s.threads[t].(state := Exited, exitStatus := status, reapable := reapable)]))
  {
    assert ThreadShape(s.threads[t], |s.threads|);
  }

  lemma CallInRange(s: State, c: nat)
    requires Shape(s) && c < |s.threads| && s.pending[c] != NoCall
    ensures s.pending[c].thread < |s.threads|
  {
  }

  lemma CallShape(s: State, c: nat, call: Pending)
    requires Shape(s) && c < |s.threads| && (call.NoCall? || call.thread < |s.threads|)
    ensures Shape(s.(pending := s.pending[c := call]))
  {
  }

  lemma {:induction false} FindRecordFindsSpace(processes: seq<Process>, id: nat)
    ensures var i := ThreadTable.FindRecord(processes, id);
            AddressSpaceOf(processes, id) == if i < |processes| then Some(processes[i].addressSpace) else None
  {
    if processes != [] && processes[0].id != id {
      FindRecordFindsSpace(processes[1..], id);
    }
  }

  lemma JoinAsKeepsRecords(s: State, target: nat, call: Pending)
    requires Shape(s) && call.On(target)
    ensures ThreadTable.JoinAs(s, target, call).0.processes == s.processes
  {
  }

  lemma TailKeepsRecords(s: State, target: nat)
    requires target < |s.threads|
    ensures ThreadTable.JoinTail(s, target).0.processes == s.processes
  {
  }

  lemma MainThreadsInRange(s: State)
    requires Shape(s)
    ensures forall j | 0 <= j < |s.processes| :: s.processes[j].mainThread.Some? ==> s.processes[j].mainThread.value < |s.threads|
  {
  }

  lemma AtLeastTwo(s: State)
    requires Shape(s)
    ensures 2 <= |s.threads| == |s.processes|
  {
  }

  lemma SpawnedInRange(s: State, process: nat, stacks: bool)
    requires Shape(s)
    ensures SpawnUser(s, process, stacks).1.Some? ==> SpawnUser(s, process, stacks).1.value < |s.threads|
  {
  }

  lemma SleeperShape(s: State, i: nat, entry: Sleeper)
    requires Shape(s) && i < |s.sleepers| && entry.thread < |s.threads|
    ensures Shape(s.(sleepers := s.sleepers[i := Some(entry)]))
  {
  }

  lemma FutexWaiterShape(s: State, i: nat, entry: FutexWaiter)
    requires Shape(s) && i < |s.futexWaiters| && entry.thread < |s.threads|
    ensures Shape(s.(futexWaiters := s.futexWaiters[i := Some(entry)]))
  {
  }

  lemma TickedShape(s: State)
    requires Shape(s)
    ensures Shape(s.(ticks := WrappingAdd(s.ticks, 1)))
  {
  }

  lemma StartShape(s: State)
    requires Shape(s)
    ensures Shape(ThreadTable.Start(s))
  {
    hide SpaceOnEntry;
    MakeReadyShape(s, IDLE);
    var s1 := MakeReady(s, IDLE);
    var (next, rest) := ThreadTable.NextReady(s1.threads, s1.queue);
    var chosen := next.GetOr(IDLE);
    SetStateShape(s1, chosen, Running);
  }
}
