/** The bounded event queue of core_eventq.c: a ring buffer with head, tail and count. */
module EventQueue {
  import opened Wrappers

  const ENOENT: int := 2
  const ENOMEM: int := 12
  const ENOMSG: int := 42

  /** An index that went past the end by less than one round. */
  lemma Wrap(x: nat, n: nat)
    requires 0 < n && x < 2 * n
    ensures x % n == if x < n then x else x - n
  {
    if x >= n {
      assert (x - n) % n == x % n;
    }
  }

  class Queue<T(0)> {
    const buffer: array<T>
    const maxItems: nat
    var count: nat
    var head: nat
    var tail: nat

    ghost predicate Valid()
      reads this
    {
      && 0 < maxItems == buffer.Length
      && head < maxItems && count <= maxItems
      && tail == Slot(head + count)
    }

    ghost function Slot(x: nat): nat {
      if x < maxItems then x else x - maxItems
    }

    /** The queued items, oldest first. */
    ghost function Contents(): (s: seq<T>)
      requires Valid()
      reads this, buffer
      ensures |s| == count
      ensures forall i :: 0 <= i < count ==> s[i] == buffer[Slot(head + i)]
    {
      if head + count <= maxItems then buffer[head..head + count]
      else buffer[head..] + buffer[..head + count - maxItems]
    }

    constructor (maxItems: nat)
      requires maxItems > 0
      ensures Valid() && fresh(buffer) && Contents() == [] && this.maxItems == maxItems
    {
      buffer := new T[maxItems];
      this.maxItems := maxItems;
      count, head, tail := 0, 0, 0;
    }

    /** core_eventq_peek */
    method Peek() returns (rc: int, event: Option<T>)
      requires Valid()
      ensures if Contents() == [] then rc == -ENOMSG && event == None else rc == 0 && event == Some(Contents()[0])
    {
      if count == 0 {
        return -ENOMSG, None;
      }
      return 0, Some(buffer[head]);
    }

    /** core_eventq_get */
    method Get() returns (rc: int, event: Option<T>)
      requires Valid()
      modifies this`head, this`count
      ensures Valid()
      ensures if old(Contents()) == [] then rc == -ENOENT && event == None && Contents() == old(Contents())
              else rc == 0 && event == Some(old(Contents())[0]) && Contents() == old(Contents())[1..]
    {
      if count == 0 {
        return -ENOENT, None;
      }
      event := Some(buffer[head]);
      Wrap(head + 1, maxItems);
      head := (head + 1) % maxItems;
      count := count - 1;
      rc := 0;
    }

    /** core_eventq_put */
    method Put(event: T) returns (rc: int)
      requires Valid()
      modifies this`tail, this`count, buffer
      ensures Valid()
      ensures if |old(Contents())| >= maxItems then rc == -ENOMEM && Contents() == old(Contents())
              else rc == 0 && Contents() == old(Contents()) + [event]
    {
      if count >= maxItems {
        return -ENOMEM;
      }
      buffer[tail] := event;
      Wrap(tail + 1, maxItems);
      tail := (tail + 1) % maxItems;
      count := count + 1;
      rc := 0;
    }
  }
}
