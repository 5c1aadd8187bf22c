/** The queue object itself: creation, and push and pop run without interruption. */
module SharedQueues {
  import opened MachineWords

  class SharedQueue<T(0)> {
    var head: uint64
    var tail: uint64
    const capacity: uint64
    const mask: uint64
    const events: array<T>

    /** What creation establishes and every operation keeps. A ring without slots is never
        pushed to; otherwise nothing is said about the counters. */
    ghost predicate Valid()
      reads this
    {
      && (capacity == 0 || IsPow2(capacity)) && mask == Sub64(capacity, 1)
      && events.Length == capacity
      && (capacity == 0 ==> head == 0)
    }

    /** The counters frame a range of slots. */
    ghost predicate Framed()
      reads this
    {
      tail <= head <= tail + capacity
    }

    ghost function Contents(): (r: seq<T>)
      requires Valid() && Framed()
      reads this, events
      ensures |r| == head - tail
    {
      var t, slots := tail, events[..];
      seq(head - t, i requires 0 <= i && 0 < capacity == |slots| => slots[(t + i) % capacity])
    }

    /** For a capacity the creation check admits; see Create. */
    constructor (capacity: uint64)
      requires BitAnd(capacity, Sub64(capacity, 1)) == 0
      ensures Valid() && Framed() && Contents() == []
      ensures this.capacity == capacity && head == 0 && tail == 0 && fresh(events)
    {
      this.capacity, mask := capacity, Sub64(capacity, 1);
      head, tail := 0, 0;
      events := new T[capacity];
      new;
      PowerOfTwoTest(capacity);
    }

    /** Returns false exactly when the wrapped fill level reaches the capacity. On a framed
        queue that is the real fill level, and an accepted event joins the end, unless the
        counter is at its last value: then `head` wraps below `tail`. */
    method Push(ev: T) returns (ok: bool)
      requires Valid()
      modifies this`head, events
      ensures Valid()
      ensures ok == (Sub64(old(head), tail) < capacity)
      ensures !ok ==> head == old(head) && events[..] == old(events[..])
      ensures old(Framed()) ==> ok == (|old(Contents())| < capacity)
      ensures ok && old(Framed()) && old(head) + 1 < TWO_64 ==>
                Framed() && Contents() == old(Contents()) + [ev]
      ensures ok && old(Framed()) && old(head) + 1 == TWO_64 ==> head == 0 && (tail > 0 ==> !Framed())
    {
      var h := head;
      var t := tail;
      if Sub64(h, t) >= capacity {
        return false;
      }
      var idx := BitAnd(h, mask);
      MaskIsMod(h, capacity);
      events[idx] := ev;
      head := Add64(h, 1);
      if t <= h {
        forall i: nat | t <= i < h
          ensures i % capacity != h % capacity
        {
          SlotsDiffer(i, h, capacity);
        }
      }
      return true;
    }

    /** Returns false exactly when `tail` is not below `head`; on a framed queue, exactly
        when it is empty. Otherwise hands out and removes the oldest event. */
    method Pop() returns (ok: bool, ev: T)
      requires Valid()
      modifies this`tail
      ensures Valid()
      ensures ok == (old(tail) < head)
      ensures if ok then tail == old(tail) + 1 && ev == events[old(tail) % capacity] else tail == old(tail)
      ensures old(Framed()) ==>
                && Framed() && ok == (old(Contents()) != [])
                && (ok ==> [ev] + Contents() == old(Contents()))
    {
      var h := head;
      var t := tail;
      ev := *;
      if t >= h {
        return false, ev;
      }
      var idx := BitAnd(t, mask);
      MaskIsMod(t, capacity);
      ev := events[idx];
      tail := Add64(t, 1);
      return true, ev;
    }
  }

  /** `create_shared_queue`: null for a capacity that fails the test, or when the mapping
      cannot be made. It succeeds otherwise, and only, for 0 and the powers of two. */
  method Create<T(0)>(capacity: uint64, mapped: bool) returns (q: SharedQueue?<T>)
    ensures q != null <==> mapped && (capacity == 0 || IsPow2(capacity))
    ensures q != null ==> fresh(q) && q.Valid() && q.Framed() && q.Contents() == [] && q.capacity == capacity
  {
    PowerOfTwoTest(capacity);
    if BitAnd(capacity, Sub64(capacity, 1)) != 0 {
      return null;
    }
    if !mapped {
      return null;
    }
    q := new SharedQueue(capacity);
  }
}
