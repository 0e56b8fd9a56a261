/**
  spdlog's bounded queue: `circular_q`, a ring with one reserved slot that overruns its
  oldest item, and `mpmc_blocking_queue`, its locked wrapper.
*/
module LogQueue {
  import opened Options
  import opened Rings

  class CircularQ<T(0)> {
    var v: array<T>
    var head: nat
    var tail: nat
    var overrunCounter: nat

    /** `v.Length` is the source's max_items_; it is 0 in a disabled queue. */
    ghost predicate Valid()
      reads this
    {
      if v.Length == 0 then head == 0 && tail == 0 else head < v.Length && tail < v.Length
    }

    /** A queue for `maxItems` items; one more slot marks the full queue. */
    constructor (maxItems: nat)
      ensures Valid() && fresh(v)
      ensures v.Length == maxItems + 1 && Contents() == [] && overrunCounter == 0
    {
      v := new T[maxItems + 1];
      head, tail, overrunCounter := 0, 0, 0;
    }

    /** The disabled queue of the default constructor. */
    constructor Disabled()
      ensures Valid() && fresh(v)
      ensures v.Length == 0 && overrunCounter == 0
    {
      v := new T[0];
      head, tail, overrunCounter := 0, 0, 0;
    }

    function Size(): (n: nat)
      requires Valid()
      reads this
      ensures v.Length > 0 ==> n < v.Length && Slot(head, n, v.Length) == tail
      ensures v.Length == 0 ==> n == 0
    {
      if tail >= head then tail - head else v.Length - (head - tail)
    }

    ghost function Contents(): (s: seq<T>)
      requires Valid()
      reads this, v
      ensures |s| == Size()
    {
      if v.Length == 0 then [] else Ring(v[..], head, Size())
    }

    predicate Empty()
      requires Valid()
      reads this
      ensures Empty() <==> Size() == 0
    {
      tail == head
    }

    predicate Full()
      requires Valid()
      reads this
      ensures Full() <==> v.Length > 0 && Size() == v.Length - 1
    {
      if v.Length > 0 then
        Wrap(tail, 1, v.Length);
        (tail + 1) % v.Length == head
      else false
    }

    function At(i: nat): (x: T)
      requires Valid() && i < Size()
      reads this, v
      ensures x == Contents()[i]
    {
      Wrap(head, i, v.Length);
      v[(head + i) % v.Length]
    }

    function Front(): (x: T)
      requires Valid() && Size() > 0
      reads this, v
      ensures x == Contents()[0]
    {
      v[head]
    }

    /** Appends; a full queue loses its oldest item and counts it. */
    method PushBack(item: T)
      requires Valid()
      modifies this, v
      ensures Valid() && v == old(v)
      ensures v.Length == 0 ==> Contents() == old(Contents()) && overrunCounter == old(overrunCounter)
      ensures v.Length > 0 && !old(Full()) ==>
                && Contents() == old(Contents()) + [item]
                && overrunCounter == old(overrunCounter)
      ensures v.Length > 0 && old(Full()) ==>
                Contents() == (old(Contents()) + [item])[1..] && overrunCounter == old(overrunCounter) + 1
    {
      if v.Length > 0 {
        ghost var n := Size();
        Store(item);
        if tail == head { Overrun(n); } else { assert Size() == n + 1; }
      }
    }

    /** All slots are in use: the oldest item goes. */
    method Overrun(ghost n: nat)
      requires Valid() && v.Length > 0 && tail == head && n + 1 == v.Length
      modifies this`head, this`overrunCounter
      ensures Valid() && Contents() == old(Ring(v[..], head, n + 1))[1..] && Size() == n
      ensures overrunCounter == old(overrunCounter) + 1
    {
      RingDrop(v[..], head, n + 1, 1);
      Wrap(head, 1, v.Length);
      head := (head + 1) % v.Length;
      overrunCounter := overrunCounter + 1;
      assert Size() == n;
    }

    /** The item goes to the free slot. */
    method Store(item: T)
      requires Valid() && v.Length > 0
      modifies this`tail, v
      ensures Valid() && tail == Slot(old(tail), 1, v.Length)
      ensures Ring(v[..], head, old(Size()) + 1) == old(Contents()) + [item]
    {
      RingSnoc(v[..], head, Size(), item);
      ghost var next := v[..][tail := item];
      v[tail] := item;
      assert v[..] == next;
      Wrap(tail, 1, v.Length);
      tail := (tail + 1) % v.Length;
    }

    method PopFront()
      requires Valid() && Size() > 0
      modifies this`head
      ensures Valid() && Contents() == old(Contents())[1..]
    {
      ghost var n := Size();
      RingDrop(v[..], head, n, 1);
      Wrap(head, 1, v.Length);
      head := (head + 1) % v.Length;
      assert Size() == n - 1;
    }
  }

  /** Each method is what runs under the lock once its wait is over. */
  class BlockingQueue<T(0)> {
    var q: CircularQ<T>

    ghost predicate Valid()
      reads this, q
    {
      q.Valid() && q.v.Length > 0
    }

    ghost function Items(): seq<T>
      requires Valid()
      reads this, q, q.v
    {
      q.Contents()
    }

    ghost function Capacity(): nat
      requires Valid()
      reads this, q
    {
      q.v.Length - 1
    }

    constructor (maxItems: nat)
      ensures Valid() && fresh(q) && fresh(q.v)
      ensures Items() == [] && Capacity() == maxItems && q.overrunCounter == 0
    {
      q := new CircularQ<T>(maxItems);
    }

    /** `enqueue` after its wait: the queue is not full, so nothing is overrun. */
    method Enqueue(item: T)
      requires Valid() && |Items()| < Capacity()
      modifies q, q.v
      ensures Valid() && q == old(q) && q.v == old(q.v)
      ensures Items() == old(Items()) + [item] && q.overrunCounter == old(q.overrunCounter)
    {
      q.PushBack(item);
    }

    method EnqueueNowait(item: T)
      requires Valid()
      modifies q, q.v
      ensures Valid() && q == old(q) && q.v == old(q.v)
      ensures var all := old(Items()) + [item];
              Items() == all[if |all| > Capacity() then 1 else 0..]
      ensures q.overrunCounter == old(q.overrunCounter) + old(|Items()|) + 1 - |Items()|
    {
      q.PushBack(item);
    }

    /** `dequeue_for`: None where the wait times out on an empty queue. */
    method DequeueFor() returns (item: Option<T>)
      requires Valid()
      modifies q
      ensures Valid() && q == old(q) && q.v == old(q.v)
      ensures item == if old(Items()) == [] then None else Some(old(Items())[0])
      ensures Items() == if old(Items()) == [] then [] else old(Items())[1..]
      ensures q.overrunCounter == old(q.overrunCounter)
    {
      if q.Empty() { return None; }
      item := Some(q.Front());
      q.PopFront();
    }
  }
}
