/**
  lib/Buffer: a circular byte queue with one spare slot that grows up to a maximum.
  `Queue` is the plain byte queue it must agree with; class `Buffer` is the array code.
*/
module ByteQueue {
  newtype Byte = x: int | 0 <= x < 256

  const DOUBLE_BORDER_LINE := 1024

  datatype Queue = Queue(contents: seq<Byte>, capacity: nat, maxCapacity: nat)

  predicate Ok(q: Queue) {
    |q.contents| <= q.capacity <= q.maxCapacity
  }

  /** The growth loop: a quarter more until there is room, capped at the maximum. */
  function Quarters(newcap: nat, need: nat, maxCapacity: nat): (c: nat)
    requires newcap >= DOUBLE_BORDER_LINE && need <= maxCapacity
    ensures newcap <= maxCapacity ==> need <= c <= maxCapacity
    decreases need - newcap
  {
    if newcap >= need then newcap
    else if newcap + newcap / 4 > maxCapacity then maxCapacity
    else Quarters(newcap + newcap / 4, need, maxCapacity)
  }

  /** Capacity after making room for `n` more bytes, when there is not enough. */
  function Grown(capacity: nat, maxCapacity: nat, n: nat): (c: nat)
    requires capacity <= maxCapacity && capacity + n <= maxCapacity
    ensures capacity + n <= c <= maxCapacity
  {
    if capacity + n > capacity * 2 then capacity + n
    else if capacity < DOUBLE_BORDER_LINE then (if capacity * 2 <= maxCapacity then capacity * 2 else maxCapacity)
    else Quarters(capacity, capacity + n, maxCapacity)
  }

  predicate HasRoom(q: Queue, n: nat) {
    q.capacity - |q.contents| >= n
  }

  predicate Accepts(q: Queue, n: nat) {
    HasRoom(q, n) || q.capacity + n <= q.maxCapacity
  }

  /** `WriteToBuffer`: all of the bytes or none. */
  function Write(q: Queue, bytes: seq<Byte>): Queue
    requires Ok(q)
  {
    if bytes == [] || !Accepts(q, |bytes|) then q
    else q.(contents := q.contents + bytes,
            capacity := if HasRoom(q, |bytes|) then q.capacity else Grown(q.capacity, q.maxCapacity, |bytes|))
  }

  /** All of the bytes are taken if they fit as it is or the maximum leaves room for as many more, else none. */
  lemma WriteTakesAllOrNone(q: Queue, bytes: seq<Byte>)
    requires Ok(q) && bytes != []
    ensures var n, w := |bytes|, Write(q, bytes);
            var free := q.capacity - |q.contents|;
            && (w.contents == q.contents + bytes <==> n <= free || n <= q.maxCapacity - q.capacity)
            && (n > free && n > q.maxCapacity - q.capacity ==> w == q)
            && (n <= free ==> w.capacity == q.capacity)
  {
    assert |q.contents + bytes| != |q.contents|;
  }

  /** An empty buffer of 1024 bytes that may grow to 65536 takes the longest frame. */
  lemma LongestFrameFits(bytes: seq<Byte>)
    requires |bytes| == 2056
    ensures Write(Queue([], 1024, 65536), bytes) == Queue(bytes, 3080, 65536)
  {
  }

  /** The new capacity: no more than needed, or twice the old one, or less than a quarter more than needed. */
  lemma GrowthRule(capacity: nat, maxCapacity: nat, n: nat)
    requires 0 < n <= maxCapacity - capacity
    ensures var c := Grown(capacity, maxCapacity, n);
            && (n > capacity ==> c == capacity + n)
            && (n <= capacity < 1024 ==> c == if 2 * capacity <= maxCapacity then 2 * capacity else maxCapacity)
            && (n <= capacity && capacity >= 1024 ==> 4 * c < 5 * (capacity + n))
  {
    if n <= capacity && capacity >= 1024 { QuartersBelow(capacity, capacity + n, maxCapacity); }
  }

  lemma {:induction false} QuartersBelow(newcap: nat, need: nat, maxCapacity: nat)
    requires DOUBLE_BORDER_LINE <= newcap < need <= maxCapacity
    ensures 4 * Quarters(newcap, need, maxCapacity) < 5 * need
    decreases need - newcap
  {
    var next := newcap + newcap / 4;
    if next < need { QuartersBelow(next, need, maxCapacity); }
  }

  /** Growing by quarters, one quarter at a time. */
  lemma GrowthByQuarters(capacity: nat, maxCapacity: nat, n: nat)
    requires 0 < n <= maxCapacity - capacity && n <= capacity && capacity >= 1024
    ensures var next := capacity + capacity / 4;
            && (next > maxCapacity ==> Grown(capacity, maxCapacity, n) == maxCapacity)
            && (capacity + n <= next <= maxCapacity ==> Grown(capacity, maxCapacity, n) == next)
            && (next < capacity + n && next <= maxCapacity ==>
                  Grown(capacity, maxCapacity, n) == Grown(next, maxCapacity, capacity + n - next))
  {
    var next, need := capacity + capacity / 4, capacity + n;
    assert Quarters(capacity, need, maxCapacity) ==
           if next > maxCapacity then maxCapacity else Quarters(next, need, maxCapacity);
  }

  function Drop(q: Queue, n: nat): Queue
    requires n <= |q.contents|
  {
    q.(contents := q.contents[n..])
  }

  // ---------------------------------------------------------------------------
  // Histories

  datatype Op = Put(bytes: seq<Byte>) | Take(n: nat)

  /** Removing is always possible: `read` refuses more than there is and a socket takes no more than it is offered. */
  function Run(q: Queue, ops: seq<Op>): (Queue, seq<Byte>, seq<Byte>)
    requires Ok(q)
    ensures Ok(Run(q, ops).0)
    decreases ops
  {
    if ops == [] then (q, [], [])
    else
      match ops[0]
      case Put(bytes) =>
        var (q', accepted, removed) := Run(Write(q, bytes), ops[1..]);
        (q', (if Accepts(q, |bytes|) then bytes else []) + accepted, removed)
      case Take(n) =>
        if n > |q.contents| then Run(q, ops[1..])
        else
          var (q', accepted, removed) := Run(Drop(q, n), ops[1..]);
          (q', accepted, q.contents[..n] + removed)
  }

  /**
    For every history, what was there and what was accepted is what was removed followed by
    what is unread, in order; the maximum is kept and the capacity never exceeds it.
  */
  lemma {:induction false} HistoryConserved(q: Queue, ops: seq<Op>)
    requires Ok(q)
    ensures var (q', accepted, removed) := Run(q, ops);
            q.contents + accepted == removed + q'.contents && q'.maxCapacity == q.maxCapacity
                && q'.capacity >= q.capacity
    decreases ops
  {
    if ops != [] {
      match ops[0]
      case Put(bytes) =>
        var q1 := Write(q, bytes);
        HistoryConserved(q1, ops[1..]);
        var (q', accepted, removed) := Run(q1, ops[1..]);
        var taken := if Accepts(q, |bytes|) then bytes else [];
        assert q1.contents == q.contents + taken;
        assert q.contents + (taken + accepted) == q.contents + taken + accepted;
      case Take(n) =>
        if n > |q.contents| {
          HistoryConserved(q, ops[1..]);
        } else {
          var q1 := Drop(q, n);
          HistoryConserved(q1, ops[1..]);
          var (q', accepted, removed) := Run(q1, ops[1..]);
          assert q.contents == q.contents[..n] + q1.contents;
          assert q.contents[..n] + (q1.contents + accepted) == q.contents + accepted;
          assert q.contents[..n] + (removed + q'.contents) == q.contents[..n] + removed + q'.contents;
        }
    }
  }
}

module RingBuffer {
  import opened ByteQueue
  import opened Rings

  /** Result of `Buffer::read`: the source returns (size_t)-1 when asked for more than there is. */
  datatype ReadResult = Bytes(data: seq<Byte>) | NotEnough

  /** What a write(2) does: it takes up to `n` bytes, or returns 0 with EINTR. */
  datatype Reply = Takes(n: nat) | Interrupted

  class Buffer {
    var data: array<Byte>
    var capacity: nat
    var maxCapacity: nat
    var readIndex: nat
    var writeIndex: nat

    ghost predicate Valid()
      reads this
    {
      && data.Length == capacity + 1
      && readIndex < data.Length && writeIndex < data.Length
      && capacity <= maxCapacity
    }

    function UnreadSize(): (n: nat)
      requires Valid()
      reads this
      ensures n <= capacity
      ensures Slot(readIndex, n, data.Length) == writeIndex
    {
      if writeIndex >= readIndex then writeIndex - readIndex else data.Length - readIndex + writeIndex
    }

    ghost function Contents(): seq<Byte>
      requires Valid()
      reads this, data
    {
      Ring(data[..], readIndex, UnreadSize())
    }

    /** The plain queue this buffer stands for. */
    ghost function View(): (q: Queue)
      requires Valid()
      reads this, data
      ensures Ok(q)
    {
      Queue(Contents(), capacity, maxCapacity)
    }

    constructor (cap: nat, maxCap: nat)
      ensures Valid() && fresh(data)
      ensures View() == Queue([], cap, if maxCap > cap then maxCap else cap)
    {
      data := new Byte[cap + 1];
      capacity := cap;
      maxCapacity := if maxCap > cap then maxCap else cap;
      readIndex, writeIndex := 0, 0;
    }

    /**
      The source's `resize`: the unread bytes move to the front of a new array, if they fit and the
      capacity changes.
    */
    method Resize(cap: nat)
      requires Valid() && cap <= maxCapacity
      modifies this
      ensures Valid() && (data == old(data) || fresh(data))
      ensures View() == if old(UnreadSize()) <= cap then old(View()).(capacity := cap) else old(View())
    {
      if UnreadSize() > cap || cap == capacity { return; }
      var unread := UnreadSize();
      ghost var was := Contents();
      var tmp := new Byte[cap + 1];
      var i := 0;
      while i < unread
        invariant 0 <= i <= unread
        invariant tmp[..i] == was[..i]
        modifies tmp
      {
        Wrap(readIndex, i, data.Length);
        tmp[i] := data[(readIndex + i) % data.Length];
        i := i + 1;
      }
      data, capacity, readIndex, writeIndex := tmp, cap, 0, unread;
      assert Contents() == tmp[..unread];
    }

    /** `ensureInsert`; `ok` is false where the source throws "out of capacity". */
    method EnsureInsert(n: nat) returns (ok: bool)
      requires Valid()
      modifies this
      ensures Valid() && (data == old(data) || fresh(data))
      ensures ok == Accepts(old(View()), n)
      ensures ok <==> |old(Contents())| + n <= old(capacity) || old(capacity) + n <= old(maxCapacity)
      ensures View() == if ok && !HasRoom(old(View()), n)
                        then old(View()).(capacity := Grown(old(capacity), old(maxCapacity), n)) else old(View())
      ensures ok ==> HasRoom(View(), n)
    {
      if capacity - UnreadSize() >= n { return true; }
      if capacity + n > maxCapacity { return false; }
      var newcap := NewCapacity(n);
      Resize(newcap);
      return true;
    }

    /** The growth rule, with its loop. */
    method NewCapacity(n: nat) returns (newcap: nat)
      requires capacity + n <= maxCapacity
      ensures newcap == Grown(capacity, maxCapacity, n)
    {
      var need, doublecap := capacity + n, capacity * 2;
      newcap := capacity;
      if need > doublecap {
        newcap := need;
      } else if capacity < DOUBLE_BORDER_LINE {
        newcap := if doublecap <= maxCapacity then doublecap else maxCapacity;
      } else {
        while newcap < need
          invariant capacity <= newcap <= maxCapacity
          invariant Quarters(newcap, need, maxCapacity) == Quarters(capacity, need, maxCapacity)
          decreases need - newcap
        {
          newcap := newcap + newcap / 4;
          if newcap > maxCapacity {
            newcap := maxCapacity;
            break;
          }
        }
      }
    }

    method WriteToBuffer(src: seq<Byte>) returns (written: nat)
      requires Valid()
      modifies this, data
      ensures Valid() && (data == old(data) || fresh(data))
      ensures View() == Write(old(View()), src)
      ensures written == if Accepts(old(View()), |src|) then |src| else 0
      ensures written == |src| <==>
              || src == [] || |old(Contents())| + |src| <= old(capacity) || old(capacity) + |src| <= old(maxCapacity)
      ensures Contents() == if written == 0 then old(Contents()) else old(Contents()) + src
    {
      if |src| == 0 { return 0; }
      var ok := EnsureInsert(|src|);
      if !ok { return 0; }
      FillFrom(src);
      return |src|;
    }

    /** The copy loop of `WriteToBuffer`, with room for all of `src`. */
    method FillFrom(src: seq<Byte>)
      requires Valid() && src != [] && HasRoom(View(), |src|)
      modifies this`writeIndex, data
      ensures Valid() && View() == old(View()).(contents := old(Contents()) + src)
    {
      ghost var r, u, w, size := readIndex, UnreadSize(), writeIndex, data.Length;
      var cur := CopyIn(src);
      Wrap(cur, 1, data.Length);
      SlotSum(r, u, |src|, size);
      writeIndex := (cur + 1) % data.Length;
      assert UnreadSize() == u + |src|;
    }

    /** The loop itself; `cur` is the slot written last. */
    method CopyIn(src: seq<Byte>) returns (cur: nat)
      requires Valid() && src != [] && HasRoom(View(), |src|)
      modifies data
      ensures cur == Slot(writeIndex, |src| - 1, data.Length)
      ensures Ring(data[..], readIndex, UnreadSize() + |src|) == old(Contents()) + src
    {
      var d, size, w := data, data.Length, writeIndex;
      ghost var r, u, was := readIndex, UnreadSize(), Contents();
      cur := w;
      var i := 0;
      while i < |src|
        invariant 0 <= i <= |src|
        invariant i > 0 ==> cur == Slot(w, i - 1, size)
        invariant Ring(d[..], r, u + i) == was + src[..i]
        modifies d
      {
        Wrap(w, i, size);
        cur := (w + i) % size;
        RingStore(d[..], r, u, was, src, i);
        ghost var next := d[..][cur := src[i]];
        d[cur] := src[i];
        assert d[..] == next;
        i := i + 1;
      }
      assert src[..|src|] == src;
    }

    method Read(n: nat) returns (r: ReadResult)
      requires Valid()
      modifies this`readIndex
      ensures Valid()
      ensures r == if n > |old(Contents())| then NotEnough else Bytes(old(Contents())[..n])
      ensures View() == if n > |old(Contents())| then old(View()) else Drop(old(View()), n)
    {
      if n == 0 { return Bytes([]); }
      if n > UnreadSize() { return NotEnough; }
      var out: seq<Byte> := [];
      ghost var was := Contents();
      var cur := readIndex;
      var i := 0;
      while i < n
        invariant 0 <= i <= n
        invariant i > 0 ==> cur == Slot(readIndex, i - 1, data.Length)
        invariant out == was[..i]
        modifies {}
      {
        Wrap(readIndex, i, data.Length);
        cur := (readIndex + i) % data.Length;
        out := out + [data[cur]];
        i := i + 1;
      }
      Wrap(cur, 1, data.Length);
      SetReadIndex((cur + 1) % data.Length, n);
      return Bytes(out);
    }

    /**
      `WriteToSock`: `writes` is what successive calls of write(2) do; a call that takes
      nothing ends the loop unless it was interrupted.  `sent` is what the socket received.
    */
    method WriteToSock(writes: seq<Reply>) returns (sent: seq<Byte>)
      requires Valid()
      modifies this`readIndex
      ensures Valid()
      ensures |sent| == Taken(old(readIndex), old(UnreadSize()), old(data.Length), writes)
      ensures sent == old(Contents())[..|sent|]
      ensures View() == Drop(old(View()), |sent|)
    {
      sent := [];
      var k := 0;
      ghost var was, goal := Contents(), Taken(readIndex, UnreadSize(), data.Length, writes);
      assert writes[0..] == writes;
      while UnreadSize() > 0 && k < |writes|
        invariant 0 <= k <= |writes|
        invariant Valid()
        invariant |sent| <= |was| && sent == was[..|sent|] && Contents() == was[|sent|..]
        invariant |sent| + Taken(readIndex, UnreadSize(), data.Length, writes[k..]) == goal
        decreases |writes| - k
      {
        if writes[k].Interrupted? {
          assert writes[k..][1..] == writes[k + 1..];
          k := k + 1;
          continue;
        }
        var chunk := WriteTurn(writes, k, sent, was);
        k := k + 1;
        if chunk == [] { return; }
        sent := sent + chunk;
      }
    }

    method WriteTurn(writes: seq<Reply>, k: nat, ghost sent: seq<Byte>, ghost was: seq<Byte>)
      returns (chunk: seq<Byte>)
      requires Valid() && k < |writes| && writes[k].Takes? && UnreadSize() > 0
      requires |sent| <= |was| && Contents() == was[|sent|..] && sent == was[..|sent|]
      modifies this`readIndex
      ensures Valid()
      ensures |sent| + |chunk| <= |was| && sent + chunk == was[..|sent| + |chunk|]
                && Contents() == was[|sent| + |chunk|..]
      ensures old(Taken(readIndex, UnreadSize(), data.Length, writes[k..])) ==
              if chunk == [] then 0 else |chunk| + Taken(readIndex, UnreadSize(), data.Length, writes[k + 1..])
    {
      TakenStep(readIndex, UnreadSize(), data.Length, writes, k);
      chunk := WriteOnce(writes[k].n);
      SliceOn(was, |sent|, |chunk|);
    }

    /** One write(2) of the bytes up to the write index or the end of the array. */
    method WriteOnce(willing: nat) returns (chunk: seq<Byte>)
      requires Valid()
      modifies this`readIndex
      ensures Valid()
      ensures var len := Contiguous(old(readIndex), old(UnreadSize()), data.Length);
              |chunk| == if willing < len then willing else len
      ensures |chunk| <= old(UnreadSize()) && chunk == old(Contents())[..|chunk|]
      ensures Contents() == old(Contents())[|chunk|..] && UnreadSize() == old(UnreadSize()) - |chunk|
      ensures readIndex == Slot(old(readIndex), |chunk|, data.Length)
    {
      var len := if readIndex > writeIndex then data.Length - readIndex else writeIndex - readIndex;
      var n := if willing < len then willing else len;
      RingPrefix(data[..], readIndex, UnreadSize(), n);
      chunk := data[readIndex..readIndex + n];
      Wrap(readIndex, n, data.Length);
      SetReadIndex((readIndex + n) % data.Length, n);
    }

    /** Moves the read index `n` unread bytes on. */
    method SetReadIndex(k: nat, n: nat)
      requires Valid() && n <= UnreadSize() && k == Slot(readIndex, n, data.Length)
      modifies this`readIndex
      ensures Valid() && readIndex == k
      ensures Contents() == old(Contents())[n..] && UnreadSize() == old(UnreadSize()) - n
    {
      ghost var u := UnreadSize();
      RingDrop(data[..], readIndex, u, n);
      readIndex := k;
      assert UnreadSize() == u - n;
    }
  }

  /** How many bytes the successive writes take. */
  function Taken(r: nat, unread: nat, size: nat, writes: seq<Reply>): (t: nat)
    requires r < size && unread < size
    ensures t <= unread
    decreases writes
  {
    if unread == 0 || writes == [] then 0
    else
      match writes[0]
      case Interrupted => Taken(r, unread, size, writes[1..])
      case Takes(willing) =>
        var len := Contiguous(r, unread, size);
        var n := if willing < len then willing else len;
        if n == 0 then 0 else n + Taken(Slot(r, n, size), unread - n, size, writes[1..])
  }

  lemma TakenStep(r: nat, unread: nat, size: nat, writes: seq<Reply>, k: nat)
    requires r < size && 0 < unread < size && k < |writes| && writes[k].Takes?
    ensures var len := Contiguous(r, unread, size);
            var n := if writes[k].n < len then writes[k].n else len;
            && n <= unread
            && Taken(r, unread, size, writes[k..]) ==
               if n == 0 then 0 else n + Taken(Slot(r, n, size), unread - n, size, writes[k + 1..])
  {
    assert writes[k..][1..] == writes[k + 1..];
  }

  /** Two writes that take all they are offered empty the buffer, wherever it wraps. */
  lemma TwoFullWritesDrain(r: nat, unread: nat, size: nat, writes: seq<Reply>)
    requires r < size && unread < size
    requires |writes| >= 2 && writes[0].Takes? && writes[0].n >= size && writes[1].Takes? && writes[1].n >= size
    ensures Taken(r, unread, size, writes) == unread
  {
    if unread > 0 {
      var len := Contiguous(r, unread, size);
      assert Taken(r, unread, size, writes) == len + Taken(Slot(r, len, size), unread - len, size, writes[1..]);
    }
  }

  function WithoutInterrupts(writes: seq<Reply>): (r: seq<Reply>)
  {
    if writes == [] then []
    else (if writes[0].Interrupted? then [] else [writes[0]]) + WithoutInterrupts(writes[1..])
  }

  /** Interrupted calls are tried again: they change nothing, wherever they come. */
  lemma {:induction false} InterruptsDoNotMatter(r: nat, unread: nat, size: nat, writes: seq<Reply>)
    requires r < size && unread < size
    ensures Taken(r, unread, size, writes) == Taken(r, unread, size, WithoutInterrupts(writes))
    decreases writes
  {
    if unread > 0 && writes != [] {
      var rest := writes[1..];
      if writes[0].Interrupted? {
        InterruptsDoNotMatter(r, unread, size, rest);
        assert WithoutInterrupts(writes) == WithoutInterrupts(rest);
      } else {
        var len := Contiguous(r, unread, size);
        var n := if writes[0].n < len then writes[0].n else len;
        if n > 0 { InterruptsDoNotMatter(Slot(r, n, size), unread - n, size, rest); }
        assert WithoutInterrupts(writes)[1..] == WithoutInterrupts(rest);
      }
    }
  }

  /** The first call is offered what lies before the end of the array; if it takes nothing, it is the last. */
  lemma FirstWrite(r: nat, unread: nat, size: nat, willing: nat, writes: seq<Reply>)
    requires r < size && unread < size
    ensures var offered := if r + unread <= size then unread else size - r;
            && Taken(r, unread, size, [Takes(willing)]) == (if willing < offered then willing else offered)
            && (willing == 0 ==> Taken(r, unread, size, [Takes(willing)] + writes) == 0)
  {
    var all := [Takes(willing)] + writes;
    assert all[0] == Takes(willing);
  }
}
