/**
 The circular byte stream of src/fifo.c. `head` is the cell of the next byte to pop, `tail` the cell
 for the next byte to push. The ghost fields record all bytes ever pushed and popped; while a thread
 waits, the other side may run, which AwaitSpace and AwaitData stand for.
 */
module Fifo {
  import opened FieldTables
  import opened RingIndex

  // ---------------------------------------------------------------------------------------------
  // The ring as a sequence of cells

  /** The `size` bytes from cell `head` on, around the end of the ring. */
  function Held(ring: seq<byte>, head: nat, size: nat): (s: seq<byte>)
    requires head < |ring| && size <= |ring|
    ensures |s| == size
    ensures forall i :: 0 <= i < size ==> s[i] == ring[At(head + i, |ring|)]
  {
    if head + size <= |ring| then ring[head..head + size] else ring[head..] + ring[..head + size - |ring|]
  }

  /** The ring with buf copied over the cells from `at` on. */
  function Copied(ring: seq<byte>, at: nat, buf: seq<byte>): (s: seq<byte>)
    requires at + |buf| <= |ring|
    ensures |s| == |ring|
    ensures forall i :: 0 <= i < |ring| ==> s[i] == if at <= i < at + |buf| then buf[i - at] else ring[i]
  {
    ring[..at] + buf + ring[at + |buf|..]
  }

  /** The ring with buf copied in from cell `tail` on, in two pieces when it passes the end. */
  function Written(ring: seq<byte>, tail: nat, buf: seq<byte>): (s: seq<byte>)
    requires tail < |ring| && |buf| <= |ring|
    ensures |s| == |ring|
  {
    var toEnd := |ring| - tail;
    if |buf| <= toEnd then Copied(ring, tail, buf) else Copied(Copied(ring, tail, buf[..toEnd]), 0, buf[toEnd..])
  }

  lemma WrittenCells(ring: seq<byte>, tail: nat, buf: seq<byte>, i: nat)
    requires tail < |ring| && |buf| <= |ring| && i < |ring|
    ensures Written(ring, tail, buf)[At(tail + i, |ring|)] == if i < |buf| then buf[i] else ring[At(tail + i, |ring|)]
  {
    hide Copied;
  }

  /** Writing behind what is held appends to it. */
  lemma WriteAppends(ring: seq<byte>, head: nat, size: nat, buf: seq<byte>)
    requires head < |ring| && size + |buf| <= |ring|
    ensures Held(Written(ring, At(head + size, |ring|), buf), head, size + |buf|) == Held(ring, head, size) + buf
  {
    hide Written, Held;
    var m, tail := |ring|, At(head + size, |ring|);
    var ring' := Written(ring, tail, buf);
    var lhs, rhs := Held(ring', head, size + |buf|), Held(ring, head, size) + buf;
    forall i | 0 <= i < size + |buf| ensures lhs[i] == rhs[i] {
      assert lhs[i] == ring'[At(head + i, m)];
      if i < size {
        WrittenCells(ring, tail, buf, m - size + i);
        assert rhs[i] == ring[At(head + i, m)];
      } else {
        WrittenCells(ring, tail, buf, i - size);
        assert rhs[i] == buf[i - size];
      }
    }
  }

  /** What is held splits into what is taken and what stays. */
  lemma TakeSplits(ring: seq<byte>, head: nat, size: nat, n: nat)
    requires head < |ring| && n <= size <= |ring|
    ensures Held(ring, head, n) + Held(ring, At(head + n, |ring|), size - n) == Held(ring, head, size)
  {
    hide Held;
    var lhs, rhs := Held(ring, head, n) + Held(ring, At(head + n, |ring|), size - n), Held(ring, head, size);
    forall i | 0 <= i < size ensures lhs[i] == rhs[i] {
      if i >= n {
        assert lhs[i] == Held(ring, At(head + n, |ring|), size - n)[i - n];
      }
    }
  }

  // ---------------------------------------------------------------------------------------------

  class Stream {
    const maxSize: nat
    var head: nat
    var tail: nat
    var size: nat
    var released: bool
    const cells: array<byte>
    ghost var pushed: seq<byte>
    ghost var popped: seq<byte>

    ghost predicate Valid()
      reads this, cells
    {
      && 0 < maxSize == cells.Length
      && head < maxSize && tail < maxSize && size <= maxSize
      && tail == At(head + size, maxSize)
      && popped + Contents() == pushed
    }

    /** The bytes held, in the order they were pushed. */
    ghost function Contents(): (s: seq<byte>)
      requires head < cells.Length && size <= cells.Length
      reads this, cells
      ensures |s| == size
    {
      Held(cells[..], head, size)
    }

    /** fifo_init. */
    constructor (max: nat)
      requires max > 0
      ensures Valid() && maxSize == max && !released && pushed == popped == [] && fresh(cells)
    {
      maxSize := max;
      head, tail, size, released := 0, 0, 0, false;
      cells := new byte[max](_ => 0);
      pushed, popped := [], [];
    }

    /** fifo_getspace. */
    method GetSpace() returns (space: nat)
      requires Valid()
      ensures space == maxSize - |Contents()|
    {
      space := maxSize - size;
    }

    /** The copying of fifo_push. */
    method CopyIn(buf: seq<byte>)
      requires 0 < maxSize == cells.Length && tail < maxSize && |buf| <= maxSize
      modifies cells
      ensures cells[..] == Written(old(cells[..]), tail, buf)
    {
      hide Copied;
      var toEnd := maxSize - tail;
      if |buf| <= toEnd {
        CopyTo(tail, buf);
      } else {
        CopyTo(tail, buf[..toEnd]);
        CopyTo(0, buf[toEnd..]);
      }
    }

    /** memcpy into the ring. */
    method CopyTo(at: nat, buf: seq<byte>)
      requires at + |buf| <= cells.Length
      modifies cells
      ensures cells[..] == Copied(old(cells[..]), at, buf)
    {
      forall i | 0 <= i < |buf| {
        cells[at + i] := buf[i];
      }
    }

    /** The copying of fifo_pop. */
    method CopyOut(n: nat) returns (data: seq<byte>)
      requires Valid() && n <= size
      ensures data == Held(cells[..], head, n)
    {
      var toEnd := maxSize - head;
      if n <= toEnd {
        data := cells[head..head + n];
      } else {
        data := cells[head..] + cells[..n - toEnd];
      }
    }

    /** Add bytes that fit. */
    method Append(buf: seq<byte>)
      requires Valid() && |buf| <= maxSize - size
      modifies this, cells
      ensures Valid() && pushed == old(pushed) + buf && popped == old(popped) && released == old(released)
      ensures Contents() == old(Contents()) + buf
    {
      hide Modulo, Held, Written;
      WriteAppends(cells[..], head, size, buf);
      CopyIn(buf);
      ModuloNear(tail + |buf|, maxSize);
      tail := Modulo(tail + |buf|, maxSize);
      size := size + |buf|;
      pushed := pushed + buf;
      assert popped + (old(Contents()) + buf) == (popped + old(Contents())) + buf;
    }

    /** Take bytes that are there. */
    method Take(n: nat) returns (data: seq<byte>)
      requires Valid() && n <= size
      modifies this
      ensures Valid() && popped == old(popped) + data && pushed == old(pushed) && released == old(released)
      ensures |data| == n && data + Contents() == old(Contents())
      ensures size == old(size) - n
    {
      hide Modulo, Held;
      data := CopyOut(n);
      TakeSplits(cells[..], head, size, n);
      ModuloNear(head + n, maxSize);
      head := Modulo(head + n, maxSize);
      size := size - n;
      popped := popped + data;
      assert old(popped) + (data + Contents()) == (old(popped) + data) + Contents();
    }

    /** A writer waits for room: the reader takes some bytes, or the stream is released. */
    method AwaitSpace()
      requires Valid() && size == maxSize
      modifies this
      ensures Valid() && pushed == old(pushed) && old(popped) <= popped
      ensures size < maxSize || released
      ensures old(released) ==> released
    {
      var n: nat := *;
      if 0 < n <= size {
        var data := Take(n);
      } else {
        released := true;
      }
    }

    /** A reader waits for bytes: the writer adds some, or the stream is released. */
    method AwaitData()
      requires Valid() && size == 0
      modifies this, cells
      ensures Valid() && popped == old(popped) && old(pushed) <= pushed
      ensures size > 0 || released
      ensures old(released) ==> released
    {
      var buf: seq<byte> := *;
      if 0 < |buf| <= maxSize {
        Append(buf);
      } else {
        released := true;
      }
    }

    /**
     fifo_push: as many bytes of buf as there is room for, and at least one of a nonempty buffer
     unless the stream has been released. Nothing is lost or reordered. A ring that has room is filled at
     once, before the reader runs; what does not go in leaves the ring full.
     */
    method Push(buf: seq<byte>) returns (n: nat)
      requires Valid()
      modifies this, cells
      ensures Valid() && n <= |buf|
      ensures pushed == old(pushed) + buf[..n]
      ensures old(popped) <= popped
      ensures buf != [] && !released ==> n > 0
      ensures old(released) ==> released
      ensures n < |buf| ==> |Contents()| == maxSize
      ensures |old(Contents())| < maxSize ==>
        && popped == old(popped) && released == old(released) && Contents() == old(Contents()) + buf[..n]
        && n == if |buf| < maxSize - |old(Contents())| then |buf| else maxSize - |old(Contents())|
    {
      hide Held;
      while size == maxSize && !released
        invariant Valid() && pushed == old(pushed) && old(popped) <= popped
        invariant old(released) ==> released
        invariant old(size) < maxSize ==>
          popped == old(popped) && released == old(released) && size == old(size) && Contents() == old(Contents())
        decreases size, !released
      {
        AwaitSpace();
      }
      n := if |buf| < maxSize - size then |buf| else maxSize - size;
      Append(buf[..n]);
    }

    /** fifo_pop: the oldest n bytes held, or all there are; it returns without a byte only once released. */
    method Pop(n: nat) returns (data: seq<byte>)
      requires Valid()
      modifies this, cells
      ensures Valid() && |data| <= n
      ensures popped == old(popped) + data
      ensures old(pushed) <= pushed
      ensures n > 0 && !released ==> data != []
      ensures |data| < n ==> Contents() == []
      ensures old(Contents()) != [] ==>
        && pushed == old(pushed) && released == old(released) && data + Contents() == old(Contents())
        && |data| == if n < |old(Contents())| then n else |old(Contents())|
    {
      hide Held;
      while size == 0 && !released
        invariant Valid() && popped == old(popped) && old(pushed) <= pushed
        invariant old(size) > 0 ==>
          pushed == old(pushed) && released == old(released) && size == old(size) && Contents() == old(Contents())
        decreases size == 0, !released
      {
        AwaitData();
      }
      var k := if n < size then n else size;
      data := Take(k);
    }

    /** fifo_release. */
    method Release()
      requires Valid()
      modifies this
      ensures Valid() && released && pushed == old(pushed) && popped == old(popped)
    {
      released := true;
    }

    /**
     The loop partial_write and writeAndFreeBlock push a payload with: it ends, and unless the stream
     is released on the way, all of buf has been pushed.
     */
    method PushAll(buf: seq<byte>) returns (done: bool)
      requires Valid()
      modifies this, cells
      ensures Valid()
      ensures done ==> pushed == old(pushed) + buf
      ensures !done ==> released && exists n :: 0 <= n < |buf| && pushed == old(pushed) + buf[..n]
      ensures old(popped) <= popped && (old(released) ==> released)
    {
      var bytesPushed := 0;
      while bytesPushed < |buf|
        invariant Valid() && 0 <= bytesPushed <= |buf|
        invariant pushed == old(pushed) + buf[..bytesPushed]
        invariant old(popped) <= popped && (old(released) ==> released)
        decreases |buf| - bytesPushed
      {
        var n := Push(buf[bytesPushed..]);
        if n == 0 {
          return false;
        }
        assert buf[..bytesPushed] + buf[bytesPushed..][..n] == buf[..bytesPushed + n];
        bytesPushed := bytesPushed + n;
      }
      assert buf[..bytesPushed] == buf;
      return true;
    }
  }
}
