/**
  The growable block of memory behind a byte store.
 */
module MemoryBuffers {
  import opened Basics

  const INITIAL_CAPACITY: int := 16

  /** 16 times a power of two. */
  predicate IsBlock(c: int) {
    c == INITIAL_CAPACITY || (c > INITIAL_CAPACITY && c % 2 == 0 && IsBlock(c / 2))
  }

  lemma {:induction false} BlocksAreFarApart(a: int, b: int)
    requires IsBlock(a) && IsBlock(b) && a < b
    ensures 2 * a <= b
    decreases b
  {
    if a > INITIAL_CAPACITY { BlocksAreFarApart(a / 2, b / 2); }
  }

  /** `reallocs` counts the calls of realloc; only such a call may move the block of memory. */
  class MemoryBuffer {
    ghost var reallocs: nat
    var capacity: nat
    var size: nat
    var buffer: seq<byte>

    ghost predicate Valid()
      reads this
    {
      size <= capacity == |buffer| && (capacity == 0 || IsBlock(capacity))
    }

    ghost function Contents(): seq<byte>
      reads this
      requires Valid()
    {
      buffer[..size]
    }

    constructor ()
      ensures Valid() && Contents() == [] && capacity == 0
    {
      capacity, size, buffer, reallocs := 0, 0, [], 0;
    }

    /** The capacity is the smallest that holds num bytes and is no smaller than before. */
    method Reserve(num: int)
      requires Valid()
      modifies this
      ensures Valid() && size == old(size) && num <= capacity
      ensures reallocs == if num < old(capacity) then old(reallocs) else old(reallocs) + 1
      ensures old(buffer) <= buffer
      ensures num < old(capacity) ==> capacity == old(capacity)
      ensures num >= old(capacity) ==> IsBlock(capacity)
      ensures forall c | IsBlock(c) && num <= c && old(capacity) <= c :: capacity <= c
    {
      if num < capacity { return; }
      reallocs := reallocs + 1;
      if capacity == 0 { capacity := INITIAL_CAPACITY; }
      while capacity < num
        invariant IsBlock(capacity) && old(capacity) <= capacity && size == old(size) && buffer == old(buffer)
        invariant reallocs == old(reallocs) + 1
        invariant forall c | IsBlock(c) && num <= c && old(capacity) <= c :: capacity <= c
      {
        forall c | IsBlock(c) && num <= c && old(capacity) <= c ensures 2 * capacity <= c {
          BlocksAreFarApart(capacity, c);
        }
        capacity := capacity * 2;
      }
      // The memory that is added holds whatever it held.
      while |buffer| < capacity
        invariant IsBlock(capacity) && num <= capacity && old(capacity) <= capacity && size == old(size)
        invariant |buffer| <= capacity && old(buffer) <= buffer && reallocs == old(reallocs) + 1
        invariant forall c | IsBlock(c) && num <= c && old(capacity) <= c :: capacity <= c
      {
        var junk: byte := *;
        buffer := buffer + [junk];
      }
    }

    method Append(bytes: seq<byte>)
      requires Valid()
      modifies this
      ensures Valid() && Contents() == old(Contents()) + bytes
      ensures old(capacity) <= capacity
      ensures reallocs == if old(size) + |bytes| < old(capacity) then old(reallocs) else old(reallocs) + 1
      ensures forall c | IsBlock(c) && old(size) + |bytes| <= c && old(capacity) <= c :: capacity <= c
    {
      Reserve(size + |bytes|);
      Store(size, bytes);
      size := size + |bytes|;
    }

    /** What a caller does through the pointer that Data returns. */
    method Store(offset: nat, bytes: seq<byte>)
      requires Valid() && offset + |bytes| <= capacity
      modifies this`buffer
      ensures Valid()
      ensures buffer == old(buffer)[..offset] + bytes + old(buffer)[offset + |bytes|..]
    {
      buffer := buffer[..offset] + bytes + buffer[offset + |bytes|..];
    }

    method Clear()
      requires Valid()
      modifies this`size
      ensures Valid() && Contents() == []
    {
      size := 0;
    }

    /** The bytes up to the smaller of the two sizes are kept. */
    method Resize(num: nat)
      requires Valid()
      modifies this
      ensures Valid() && size == num && old(buffer) <= buffer
      ensures old(capacity) <= capacity
      ensures reallocs == if num < old(capacity) then old(reallocs) else old(reallocs) + 1
      ensures forall c | IsBlock(c) && num <= c && old(capacity) <= c :: capacity <= c
    {
      Reserve(num);
      size := num;
    }

    method Swap(other: MemoryBuffer)
      requires Valid() && other.Valid() && other != this
      modifies this, other
      ensures Valid() && other.Valid()
      ensures capacity == old(other.capacity) && Contents() == old(other.Contents())
      ensures other.capacity == old(capacity) && other.Contents() == old(Contents())
      ensures reallocs == old(other.reallocs) && other.reallocs == old(reallocs)
    {
      capacity, other.capacity := other.capacity, capacity;
      size, other.size := other.size, size;
      buffer, other.buffer := other.buffer, buffer;
      reallocs, other.reallocs := other.reallocs, reallocs;
    }
  }
}
