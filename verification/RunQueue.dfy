/** The ring buffer of `kernel-core/src/threads.rs` that holds the run queue. */
module RunQueue {
  import opened Wrappers

  class Ring {
    const slots: array<nat>
    var head: nat
    var tail: nat
    var count: nat

    ghost predicate Valid()
      reads this, slots
    {
      && slots.Length > 0
      && head < slots.Length && tail < slots.Length && count <= slots.Length
      && tail == Wrap(head + count, slots.Length)
    }

    /** The queued threads, first to be dequeued first. */
    ghost function Contents(): (r: seq<nat>)
      reads this, slots
      requires Valid()
      ensures |r| == count
    {
      InOrder(slots[..], head, count)
    }

    constructor (capacity: nat)
      requires capacity > 0
      ensures Valid() && fresh(slots) && slots.Length == capacity && Contents() == []
    {
      slots := new nat[capacity];
      head, tail, count := 0, 0, 0;
    }

    method Enqueue(thread: nat)
      requires Valid()
      modifies this`tail, this`count, slots
      ensures Valid()
      ensures Contents() == if |old(Contents())| == slots.Length then old(Contents()) else old(Contents()) + [thread]
    {
      if count == slots.Length {
        return;
      }
      ghost var before := Contents();
      slots[tail] := thread;
      WrapIsModulo(tail + 1, slots.Length);
      tail := (tail + 1) % slots.Length;
      count := count + 1;
      forall i | 0 <= i < count ensures Contents()[i] == (before + [thread])[i] {
      }
    }

    method Dequeue() returns (thread: Option<nat>)
      requires Valid()
      modifies this`head, this`count
      ensures Valid()
      ensures old(Contents()) == [] ==> thread == None && Contents() == []
      ensures old(Contents()) != [] ==> thread == Some(old(Contents())[0]) && Contents() == old(Contents())[1..]
    {
      if count == 0 {
        return None;
      }
      ghost var before := Contents();
      thread := Some(slots[head]);
      WrapIsModulo(head + 1, slots.Length);
      head := (head + 1) % slots.Length;
      count := count - 1;
      forall i | 0 <= i < count ensures Contents()[i] == before[1..][i] {
      }
    }
  }

  /** `count` entries of a ring from `head` on. */
  function InOrder(slots: seq<nat>, head: nat, count: nat): (r: seq<nat>)
    requires head < |slots| && count <= |slots|
    ensures |r| == count
    ensures forall i | 0 <= i < count :: r[i] == slots[Wrap(head + i, |slots|)]
  {
    seq(count, i requires 0 <= i < count => slots[Wrap(head + i, |slots|)])
  }

  /** `i` modulo `n` for an index less than one lap ahead. */
  function Wrap(i: nat, n: nat): nat {
    if i < n then i else i - n
  }

  lemma WrapIsModulo(i: nat, n: nat)
    requires 0 < n && i <= n
    ensures i % n == Wrap(i, n)
  {
  }
}
