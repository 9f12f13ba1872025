/** The growing ring buffer that queues client values (paxos/carray.c). */
module CArray {
  import opened Types
  import Probing

  /** Position of the i-th queued element. */
  function Slot(head: nat, i: nat, size: nat): (s: nat)
    requires 0 < size
    ensures s < size
  {
    (head + i) % size
  }

  /** Within one lap, the position either has not wrapped or has wrapped once. */
  lemma SlotInLap(head: nat, i: nat, size: nat)
    requires head < size && i <= size
    ensures Slot(head, i, size) == if head + i < size then head + i else head + i - size
  {
    if head + i < size {
      Probing.ModUnique(head + i, 0, head + i, size);
    } else {
      Probing.ModUnique(head + i, 1, head + i - size, size);
    }
  }

  /** The queued elements, oldest first. */
  ghost function Queued<T>(cells: seq<T>, head: nat, count: nat): seq<T>
    requires 0 < |cells|
  {
    seq(count, i requires 0 <= i < count => cells[Slot(head, i, |cells|)])
  }

  /** Writing the cell after the last element appends. */
  lemma QueuedPush<T>(cells: seq<T>, head: nat, count: nat, x: T)
    requires head < |cells| && count < |cells|
    ensures Queued(cells[Slot(head, count, |cells|) := x], head, count + 1) == Queued(cells, head, count) + [x]
  {
    var n := |cells|;
    hide Slot;
    SlotInLap(head, count, n);
    forall i: nat | i < count ensures Slot(head, i, n) != Slot(head, count, n) {
      SlotInLap(head, i, n);
    }
  }

  /** Moving the head past the first element drops it. */
  lemma QueuedPop<T>(cells: seq<T>, head: nat, count: nat)
    requires head < |cells| && 0 < count <= |cells|
    ensures Queued(cells, head, count)[1..] == Queued(cells, Slot(head, 1, |cells|), count - 1)
  {
    var n := |cells|;
    hide Slot;
    SlotInLap(head, 1, n);
    forall i: nat | i < count - 1 ensures Slot(head, i + 1, n) == Slot(Slot(head, 1, n), i, n) {
      SlotInLap(head, i + 1, n);
      SlotInLap(Slot(head, 1, n), i, n);
    }
  }

  lemma SlotShift(head: nat, count: nat, size: nat)
    requires head < size && count <= size
    ensures 0 < count ==> Slot(head, count, size) == Slot(Slot(head, 1, size), count - 1, size)
    ensures count < size ==> Slot(head, count + 1, size) == (Slot(head, count, size) + 1) % size
  {
    SlotInLap(head, 1, size);
    SlotInLap(head, count, size);
    if 0 < count {
      SlotInLap(Slot(head, 1, size), count - 1, size);
    }
    if count < size {
      SlotInLap(head, count + 1, size);
      SlotInLap(Slot(head, count, size), 1, size);
    }
  }

  class Ring<T(0)> {
    var head: nat
    var tail: nat
    var size: nat
    var count: nat
    var cells: array<T>

    ghost predicate Valid()
      reads this, cells
    {
      && 0 < size == cells.Length
      && head < size
      && count <= size
      && tail == Slot(head, count, size)
    }

    ghost function Contents(): seq<T>
      requires Valid()
      reads this, cells
    {
      Queued(cells[..], head, count)
    }

    /** carray_new */
    constructor (capacity: nat)
      requires 0 < capacity
      ensures Valid() && fresh(cells) && Contents() == [] && size == capacity && head == count == 0
    {
      head, tail, size, count := 0, 0, capacity, 0;
      cells := new T[capacity];
      new;
      SlotInLap(0, 0, capacity);
    }

    /** carray_at */
    method At(i: nat) returns (x: T)
      requires Valid() && i < count
      ensures x == Contents()[i]
    {
      x := cells[(head + i) % size];
    }

    /** carray_push_back */
    method PushBack(x: T)
      requires Valid()
      modifies this, cells
      ensures Valid() && (cells == old(cells) || fresh(cells))
      ensures Contents() == old(Contents()) + [x]
      ensures size == if old(count) == old(size) then 2 * old(size) else old(size)
    {
      if count == size {
        Grow();
      }
      Append(x);
    }

    /** The part of carray_push_back that writes the tail cell. */
    method Append(x: T)
      requires Valid() && count < size
      modifies this`tail, this`count, cells
      ensures Valid() && Contents() == old(Contents()) + [x]
      ensures count == old(count) + 1
    {
      hide Slot;
      QueuedPush(cells[..], head, count, x);
      SlotShift(head, count, size);
      ghost var was := cells[..];
      cells[tail] := x;
      assert cells[..] == was[tail := x];
      tail := (tail + 1) % size;
      count := count + 1;
    }

    /** carray_pop_front: None stands for the NULL of an empty queue. */
    method PopFront() returns (x: Option<T>)
      requires Valid()
      modifies this`head, this`count
      ensures Valid()
      ensures if old(Contents()) == [] then x == None && Contents() == []
              else x == Some(old(Contents())[0]) && Contents() == old(Contents())[1..]
    {
      if count == 0 {
        return None;
      }
      SlotInLap(head, 0, size);
      QueuedPop(cells[..], head, count);
      SlotShift(head, count, size);
      SlotInLap(head, 1, size);
      x := Some(cells[head]);
      head := (head + 1) % size;
      count := count - 1;
    }

    /** carray_grow: a ring of twice the size takes over the elements in order. */
    method Grow()
      requires Valid()
      modifies this
      ensures Valid() && fresh(cells)
      ensures Contents() == old(Contents()) && size == 2 * old(size) && count == old(count)
    {
      var tmp := new Ring<T>(2 * size);
      var i := 0;
      while i < count
        invariant 0 <= i <= count
        invariant tmp.Valid() && fresh(tmp) && fresh(tmp.cells)
        invariant tmp.size == 2 * size && tmp.count == i && tmp.head == 0
        invariant unchanged(this) && unchanged(cells)
        invariant tmp.Contents() == Contents()[..i]
      {
        hide Queued;
        var x := At(i);
        tmp.Append(x);
        i := i + 1;
      }
      assert Contents()[..count] == Contents();
      head := 0;
      tail := tmp.tail;
      size := tmp.size;
      cells := tmp.cells;
    }
  }

  // ---------- Any interleaving of pushes and pops ----------

  datatype Op<T> = Push(x: T) | Pop

  /** The queue left and the elements popped (None when the queue was empty). */
  function Fifo<T>(ops: seq<Op<T>>): (seq<T>, seq<Option<T>>) {
    if ops == [] then ([], [])
    else
      var (q, popped) := Fifo(ops[..|ops| - 1]);
      match ops[|ops| - 1]
      case Push(x) => (q + [x], popped)
      case Pop => if q == [] then (q, popped + [None]) else (q[1..], popped + [Some(q[0])])
  }

  /** A ring of any positive size, growing as needed, pops exactly what a FIFO queue would. */
  method Replay<T(0)>(capacity: nat, ops: seq<Op<T>>) returns (popped: seq<Option<T>>)
    requires 0 < capacity
    ensures popped == Fifo(ops).1
  {
    hide Ring.Valid, Ring.Contents;
    var ring := new Ring<T>(capacity);
    popped := [];
    var i := 0;
    while i < |ops|
      invariant 0 <= i <= |ops|
      invariant ring.Valid() && fresh(ring) && fresh(ring.cells)
      invariant (ring.Contents(), popped) == Fifo(ops[..i])
    {
      assert ops[..i + 1][..i] == ops[..i];
      match ops[i] {
        case Push(x) => ring.PushBack(x);
        case Pop =>
          var x := ring.PopFront();
          popped := popped + [x];
      }
      i := i + 1;
    }
    assert ops[..i] == ops;
  }
}
