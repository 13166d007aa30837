/** The circular buffer class, proved against the sequence of elements it holds. */
module CircularBuffers {
  import opened Basics
  import opened Ring

  class CircularBuffer<T> {
    var head: nat
    var tail: nat
    var capacity: nat
    var size: nat
    var buffer: array?<T>

    ghost predicate Valid()
      reads this
    {
      && (buffer == null ==> size == 0 && capacity == 0 && head == 0 && tail == 0)
      && (buffer != null ==> 0 < size == buffer.Length && capacity == size - 1 && head < size && tail < size)
    }

    /** The stored elements, oldest first. */
    ghost function Elements(): seq<T>
      reads this, buffer
      requires Valid()
    {
      if buffer == null then [] else Contents(buffer[..], head, tail)
    }

    constructor ()
      ensures Valid() && buffer == null && Elements() == []
    {
      head, tail, capacity, size, buffer := 0, 0, 0, 0, null;
    }

    method SetBuffer(memory: array?<T>)
      requires memory != null ==> memory.Length > 0
      modifies this
      ensures Valid() && buffer == memory && head == 0 && tail == 0 && Elements() == []
    {
      buffer := memory;
      size := if memory == null then 0 else memory.Length;
      capacity := if memory == null then 0 else size - 1;
      head, tail := 0, 0;
    }

    method SetHead(position: nat) returns (ok: bool)
      requires Valid()
      modifies this`head
      ensures Valid() && ok == (buffer != null && position < size)
      ensures head == if ok then position else old(head)
    {
      ok := buffer != null && position < size;
      if ok { head := position; }
    }

    method SetTail(position: nat) returns (ok: bool)
      requires Valid()
      modifies this`tail
      ensures Valid() && ok == (buffer != null && position < size)
      ensures tail == if ok then position else old(tail)
    {
      ok := buffer != null && position < size;
      if ok { tail := position; }
    }

    function IsEmpty(): (r: bool)
      reads this, buffer
      requires Valid()
      ensures r <==> Elements() == []
    {
      assert buffer != null ==> |Elements()| == Used(head, tail, size);
      tail == head
    }

    function IsFull(): (r: bool)
      reads this, buffer
      requires Valid() && buffer != null
      ensures r <==> |Elements()| == capacity
    {
      WrapIsSlot(tail, 1, size);
      (tail + 1) % size == head
    }

    function DataAvailable(): (n: nat)
      reads this, buffer
      requires Valid()
      ensures n == |Elements()|
    {
      if tail >= head then tail - head else size - head + tail
    }

    function SpaceAvailable(): (n: nat)
      reads this, buffer
      requires Valid()
      ensures n == capacity - |Elements()|
    {
      capacity - DataAvailable()
    }

    /** The number of elements from the head to the end of the memory block. */
    function ContiguousData(): (n: nat)
      reads this, buffer
      requires Valid()
      ensures n <= |Elements()| && head + n <= size
      ensures n == |Elements()| || head + n == size
    {
      if tail >= head then tail - head else size - head
    }

    /** The number of free cells from the tail to the end of the memory block. */
    function ContiguousSpace(): (n: nat)
      reads this, buffer
      requires Valid() && buffer != null
      ensures n <= capacity - |Elements()| && tail + n <= size
      ensures n == capacity - |Elements()| || tail + n == size
    {
      if IsFull() then 0
      else if head > tail then head - tail - 1
      else
        var contiguous := size - tail;
        if head == 0 then contiguous - 1 else contiguous
    }

    method AdvanceHead(amount: nat) returns (moved: nat)
      requires Valid() && buffer != null
      modifies this`head
      ensures Valid() && moved == Min(amount, |old(Elements())|)
      ensures Elements() == old(Elements())[moved..]
    {
      moved := Min(amount, DataAvailable());
      WrapIsSlot(head, moved, size);
      Ring.AdvanceHead(buffer[..], head, tail, moved);
      head := head + moved;
      head := head % size;
    }

    /** The elements gained are whatever the free cells held. */
    method AdvanceTail(amount: nat) returns (moved: nat)
      requires Valid() && buffer != null
      modifies this`tail
      ensures Valid() && moved == Min(amount, capacity - |old(Elements())|)
      ensures Elements() == old(Elements()) + CellsFrom(buffer[..], old(tail), moved)
    {
      moved := Min(amount, SpaceAvailable());
      WrapIsSlot(tail, moved, size);
      Ring.AdvanceTail(buffer[..], head, tail, CellsFrom(buffer[..], tail, moved));
      tail := tail + moved;
      tail := tail % size;
    }

    /** Takes up to `amount` elements off the front, in at most two contiguous copies. */
    method Read(data: array<T>, amount: nat) returns (n: nat)
      requires Valid() && data != buffer
      requires Min(amount, DataAvailable()) <= data.Length
      modifies this`head, data
      ensures Valid() && n == Min(amount, |old(Elements())|)
      ensures data[..] == old(Elements())[..n] + old(data[..])[n..]
      ensures Elements() == old(Elements())[n..]
    {
      ghost var all, was := Elements(), data[..];
      n := Min(amount, DataAvailable());
      var remaining, done, iterations := n, 0, 0;
      TakenNone(all, was);
      while remaining > 0
        invariant Valid() && 0 <= done && done + remaining == n <= |was|
        invariant iterations + Rounds(remaining, head) <= 2
        invariant Taken(all, was, done, Elements(), data[..])
      {
        iterations := iterations + 1;
        assert iterations <= 2;
        var chunk := ReadChunk(data, done, remaining, all, was);
        remaining, done := remaining - chunk, done + chunk;
      }
      TakenAll(all, was, n, Elements(), data[..]);
    }

    /** One round of Read's loop; only one that stops at the end of the memory block leaves something to read. */
    method ReadChunk(data: array<T>, done: nat, remaining: nat, ghost all: seq<T>, ghost was: seq<T>)
      returns (chunk: nat)
      requires Valid() && data != buffer && 0 < remaining && done + remaining <= |all| && done + remaining <= |was|
      requires Taken(all, was, done, Elements(), data[..])
      modifies this`head, data
      ensures Valid() && 0 < chunk <= remaining && Rounds(remaining - chunk, head) < Rounds(remaining, old(head))
      ensures Taken(all, was, done + chunk, Elements(), data[..])
    {
      chunk := Min(remaining, ContiguousData());
      ghost var left, now := Elements(), data[..];
      ContiguousPrefix(buffer[..], head, tail, chunk);
      CopyOut(data, done, chunk);
      TakenMore(all, was, done, chunk, now, left, data[..]);
      var moved := AdvanceHead(chunk);
    }

    /** memcpy from the head. */
    method CopyOut(data: array<T>, at: nat, chunk: nat)
      requires Valid() && buffer != null && data != buffer
      requires head + chunk <= size && at + chunk <= data.Length
      modifies data
      ensures data[..] == old(data[..])[..at] + buffer[..][head..head + chunk] + old(data[..])[at + chunk..]
    {
      forall j | 0 <= j < chunk { data[at + j] := buffer[head + j]; }
    }

    /** Shows the front elements without taking them. */
    method Peek(data: array<T>, amount: nat) returns (n: nat)
      requires Valid() && data != buffer
      requires Min(amount, DataAvailable()) <= data.Length
      modifies this`head, data
      ensures Valid() && n == Min(amount, |old(Elements())|)
      ensures data[..] == old(Elements())[..n] + old(data[..])[n..]
      ensures head == old(head) && Elements() == old(Elements())
    {
      var saved := head;
      n := Read(data, amount);
      head := saved;
    }

    /** Appends the longest prefix that fits, in at most two contiguous copies, and overwrites free cells only. */
    method Write(data: seq<T>) returns (n: nat)
      requires Valid()
      modifies this`tail, buffer
      ensures Valid() && n == Min(|data|, capacity - |old(Elements())|)
      ensures Elements() == old(Elements()) + data[..n]
      ensures buffer != null ==>
                forall i | 0 <= i < size :: Used(old(tail), i, size) >= n ==> buffer[i] == old(buffer[i])
    {
      n := Min(|data|, SpaceAvailable());
      if n == 0 {
        assert Elements() == old(Elements()) + data[..0];
        return;
      }
      var remaining, done, iterations := n, 0, 0;
      ghost var start, cells := tail, buffer[..];
      while remaining > 0
        invariant Valid() && buffer != null && done + remaining == n <= |data|
        invariant iterations + Rounds(remaining, tail) <= 2
        invariant start < size && tail == Slot(start, done, size) && Used(head, start, size) + n <= capacity
        invariant Stored(buffer[..], cells, start, data, done)
      {
        iterations := iterations + 1;
        assert iterations <= 2;
        var chunk := WriteChunk(data, done, remaining, start, cells);
        remaining, done := remaining - chunk, done + chunk;
      }
      StoredIsAppended(buffer[..], cells, head, start, data, n);
    }

    /** One round of Write's loop: as much as fits before the end of the memory block. */
    method WriteChunk(data: seq<T>, done: nat, remaining: nat, ghost start: nat, ghost cells: seq<T>)
      returns (chunk: nat)
      requires Valid() && buffer != null && 0 < remaining && done + remaining <= |data|
      requires start < size == |cells| && Used(head, start, size) + done + remaining <= capacity
      requires tail == Slot(start, done, size) && Stored(buffer[..], cells, start, data, done)
      modifies this`tail, buffer
      ensures Valid() && 0 < chunk <= remaining
      ensures tail == Slot(start, done + chunk, size) && Rounds(remaining - chunk, tail) < Rounds(remaining, old(tail))
      ensures Stored(buffer[..], cells, start, data, done + chunk)
    {
      chunk := ChunkSize(remaining, start, done);
      ghost var was := buffer[..];
      CopyIn(data[done..done + chunk]);
      StoredMore(buffer[..], was, cells, start, data, done, tail, chunk);
      SlotOfSlot(start, done, chunk, size);
      MoveTail(chunk);
    }

    method ChunkSize(remaining: nat, ghost start: nat, ghost done: nat) returns (chunk: nat)
      requires Valid() && buffer != null && 0 < remaining && start < size
      requires Used(head, start, size) + done + remaining <= capacity && tail == Slot(start, done, size)
      ensures 0 < chunk <= remaining && tail + chunk <= size
      ensures chunk == remaining || tail + chunk == size
    {
      UsedAfter(head, start, done, size);
      assert |Elements()| == Used(head, tail, size);
      chunk := Min(remaining, ContiguousSpace());
    }

    method MoveTail(chunk: nat)
      requires Valid() && buffer != null && chunk <= size
      modifies this`tail
      ensures Valid() && tail == Slot(old(tail), chunk, size)
    {
      WrapIsSlot(tail, chunk, size);
      tail := tail + chunk;
      tail := tail % size;
    }

    /** memcpy to the tail. */
    method CopyIn(data: seq<T>)
      requires Valid() && buffer != null && tail + |data| <= size
      modifies buffer
      ensures buffer[..] == old(buffer[..])[..tail] + data + old(buffer[..])[tail + |data|..]
    {
      forall j | 0 <= j < |data| { buffer[tail + j] := data[j]; }
    }
  }

  lemma UsedAfter(head: nat, start: nat, done: nat, n: nat)
    requires head < n && start < n && Used(head, start, n) + done < n
    ensures Used(head, Slot(start, done, n), n) == Used(head, start, n) + done
  {
  }

  lemma SlotOfSlot(start: nat, done: nat, chunk: nat, n: nat)
    requires start < n && done + chunk < n
    ensures Slot(Slot(start, done, n), chunk, n) == Slot(start, done + chunk, n)
  {
  }

  /** How many contiguous copies are still needed at most: one from the start of the memory block. */
  function Rounds(remaining: nat, position: nat): nat {
    if remaining == 0 then 0 else if position == 0 then 1 else 2
  }

  /** The first `done` elements have moved to the front of the destination. */
  ghost predicate Taken<T>(all: seq<T>, was: seq<T>, done: nat, left: seq<T>, now: seq<T>) {
    && done <= |all| && done <= |was| && |left| == |all| - done && |now| == |was|
    && (forall i | 0 <= i < |left| :: left[i] == all[done + i])
    && forall i | 0 <= i < |now| :: now[i] == if i < done then all[i] else was[i]
  }

  lemma TakenNone<T>(all: seq<T>, was: seq<T>)
    ensures Taken(all, was, 0, all, was)
  {
  }

  lemma TakenMore<T>(all: seq<T>, was: seq<T>, done: nat, chunk: nat, now: seq<T>, left: seq<T>, next: seq<T>)
    requires Taken(all, was, done, left, now) && chunk <= |left| && done + chunk <= |was|
    requires next == now[..done] + left[..chunk] + now[done + chunk..]
    ensures Taken(all, was, done + chunk, left[chunk..], next)
  {
  }

  lemma TakenAll<T>(all: seq<T>, was: seq<T>, n: nat, left: seq<T>, now: seq<T>)
    requires Taken(all, was, n, left, now)
    ensures now == all[..n] + was[n..] && left == all[n..]
  {
  }

  /** The first `done` cells from `start` on hold the data, the others what they held before. */
  ghost predicate Stored<T>(now: seq<T>, before: seq<T>, start: nat, data: seq<T>, done: nat)
    requires |now| == |before| && start < |now| && done <= |data|
  {
    forall i | 0 <= i < |now| ::
      now[i] == if Used(start, i, |now|) < done then data[Used(start, i, |now|)] else before[i]
  }

  lemma StoredIsAppended<T>(now: seq<T>, before: seq<T>, head: nat, start: nat, data: seq<T>, n: nat)
    requires |now| == |before| && start < |now| && head < |now| && n <= |data|
    requires Used(head, start, |now|) + n < |now|
    requires Stored(now, before, start, data, n)
    ensures Contents(now, head, Slot(start, n, |now|)) == Contents(before, head, start) + data[..n]
  {
    var size := |now|;
    assert Contents(now, head, start) == Contents(before, head, start) by {
      forall k | 0 <= k < Used(head, start, size) ensures now[Slot(head, k, size)] == before[Slot(head, k, size)] {
        assert Used(start, Slot(head, k, size), size) >= n;
      }
    }
    forall j | 0 <= j < n ensures now[Slot(start, j, size)] == data[..n][j] {
      assert Used(start, Slot(start, j, size), size) == j;
    }
    AdvanceTail(now, head, start, data[..n]);
  }

  lemma StoredMore<T>(now: seq<T>, was: seq<T>, before: seq<T>, start: nat, data: seq<T>, done: nat,
                      tail: nat, chunk: nat)
    requires |now| == |was| == |before| && start < |now| && done + chunk <= |data| && done + chunk < |now|
    requires tail == Slot(start, done, |now|) && tail + chunk <= |now|
    requires Stored(was, before, start, data, done)
    requires now == was[..tail] + data[done..done + chunk] + was[tail + chunk..]
    ensures Stored(now, before, start, data, done + chunk)
  {
    forall i | 0 <= i < |now|
      ensures now[i] == if Used(start, i, |now|) < done + chunk then data[Used(start, i, |now|)] else before[i]
    {
      assert was[i] == if Used(start, i, |now|) < done then data[Used(start, i, |now|)] else before[i];
    }
  }
}
