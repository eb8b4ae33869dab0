/**
 The circular queue of src/qbuffer.c. `head` is the cell of the last entry, `tail` the cell before the
 first. A thread that would wait is not run: pushing to a full queue and popping an empty one are
 disabled, which is what the preconditions say.
 */
module QBuffer {
  import opened RingIndex

  class Queue<T(0)> {
    const maxSize: nat
    var head: nat
    var tail: nat
    var size: nat
    const cells: array<T>

    ghost predicate Valid()
      reads this, cells
    {
      && 0 < maxSize == cells.Length
      && head < maxSize && tail < maxSize && size <= maxSize
      && head == At(tail + size, maxSize)
    }

    /** The cell of entry i. */
    ghost function Cell(i: nat): (c: nat)
      requires Valid() && i < maxSize
      reads this, cells
      ensures c < cells.Length
    {
      At(tail + 1 + i, maxSize)
    }

    /** The entries, first to last. */
    ghost function Contents(): (s: seq<T>)
      requires Valid()
      reads this, cells
      ensures |s| == size
    {
      seq(size, i requires 0 <= i < size && Valid() reads this, cells => cells[Cell(i)])
    }

    constructor (max: nat)
      requires max > 0
      ensures Valid() && maxSize == max && Contents() == [] && fresh(cells)
    {
      maxSize := max;
      head, tail, size := 0, 0, 0;
      cells := new T[max];
    }

    /** q_push_back. */
    method PushBack(entry: T)
      requires Valid() && size < maxSize
      modifies this, cells
      ensures Valid() && Contents() == old(Contents()) + [entry]
    {
      hide Modulo;
      ModuloNear(head + 1, maxSize);
      head := Modulo(head + 1, maxSize);
      size := size + 1;
      cells[head] := entry;
    }

    /** q_push_front. */
    method PushFront(entry: T)
      requires Valid() && size < maxSize
      modifies this, cells
      ensures Valid() && Contents() == [entry] + old(Contents())
    {
      hide Modulo;
      ModuloNear(tail - 1, maxSize);
      cells[tail] := entry;
      tail := Modulo(tail - 1, maxSize);
      size := size + 1;
    }

    /** q_pop. */
    method Pop() returns (entry: T)
      requires Valid() && size > 0
      modifies this
      ensures Valid() && [entry] + Contents() == old(Contents())
    {
      hide Modulo;
      ModuloNear(tail + 1, maxSize);
      tail := Modulo(tail + 1, maxSize);
      size := size - 1;
      entry := cells[tail];
    }

    /** q_free, as far as the queue itself goes: it is empty afterwards. */
    method Free()
      requires Valid()
      modifies this
      ensures Valid() && Contents() == []
    {
      head, tail, size := 0, 0, 0;
    }
  }
}
