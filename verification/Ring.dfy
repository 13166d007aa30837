/**
  Position arithmetic of a circular buffer and what the cells between its head and its tail hold.
  A ring of n cells holds at most n - 1 elements, so that equal positions mean "empty".
 */
module Ring {

  /** The position k places after p on a ring of n cells. */
  function Slot(p: nat, k: nat, n: nat): nat
    requires p < n && k <= n
  {
    if p + k < n then p + k else p + k - n
  }

  /** The number of elements from head up to tail. */
  function Used(head: nat, tail: nat, n: nat): nat
    requires head < n && tail < n
  {
    if tail >= head then tail - head else n - head + tail
  }

  /** The elements from head up to tail, oldest first. */
  function Contents<T>(cells: seq<T>, head: nat, tail: nat): seq<T>
    requires head < |cells| && tail < |cells|
  {
    seq(Used(head, tail, |cells|),
        i requires 0 <= i < Used(head, tail, |cells|) => cells[Slot(head, i, |cells|)])
  }

  /** One reduction modulo n brings a position that has moved by at most n back onto the ring. */
  lemma WrapIsSlot(p: nat, k: nat, n: nat)
    requires p < n && k <= n
    ensures (p + k) % n == Slot(p, k, n)
  {
    if p + k >= n {
      QuotientIsOne(p + k, n);
    }
  }

  lemma QuotientIsOne(x: nat, n: nat)
    requires 0 < n <= x < 2 * n
    ensures x % n == x - n
  {
    var q := x / n;
    assert x == q * n + x % n;
  }

  /** A store to a cell that is not in use leaves the contents alone. */
  lemma FreeStoreKeepsContents<T>(cells: seq<T>, head: nat, tail: nat, k: nat, x: T)
    requires head < |cells| && tail < |cells|
    requires Used(head, tail, |cells|) + k < |cells|
    ensures Contents(cells[Slot(tail, k, |cells|) := x], head, tail) == Contents(cells, head, tail)
  {
    var n, u := |cells|, Used(head, tail, |cells|);
    assert Slot(tail, k, n) == Slot(head, u + k, n);
    forall i | 0 <= i < u ensures Slot(head, i, n) != Slot(tail, k, n) {}
  }

  /** Moving the tail over freshly stored cells appends them. */
  lemma AdvanceTail<T>(cells: seq<T>, head: nat, tail: nat, xs: seq<T>)
    requires head < |cells| && tail < |cells|
    requires Used(head, tail, |cells|) + |xs| < |cells|
    requires forall j | 0 <= j < |xs| :: cells[Slot(tail, j, |cells|)] == xs[j]
    ensures Contents(cells, head, Slot(tail, |xs|, |cells|)) == Contents(cells, head, tail) + xs
  {
    var n, u := |cells|, Used(head, tail, |cells|);
    var tail' := Slot(tail, |xs|, n);
    assert Used(head, tail', n) == u + |xs|;
    forall i | 0 <= i < u + |xs|
      ensures Contents(cells, head, tail')[i] == (Contents(cells, head, tail) + xs)[i]
    {
      if i >= u { assert Slot(head, i, n) == Slot(tail, i - u, n); }
    }
  }

  /** Moving the head over k used cells drops the first k elements. */
  lemma AdvanceHead<T>(cells: seq<T>, head: nat, tail: nat, k: nat)
    requires head < |cells| && tail < |cells|
    requires k <= Used(head, tail, |cells|)
    ensures Contents(cells, Slot(head, k, |cells|), tail) == Contents(cells, head, tail)[k..]
  {
    var n, u := |cells|, Used(head, tail, |cells|);
    var head' := Slot(head, k, n);
    assert Used(head', tail, n) == u - k;
    forall i | 0 <= i < u - k ensures Slot(head', i, n) == Slot(head, k + i, n) {}
  }

  /** What the k cells from the tail on happen to hold. */
  function CellsFrom<T>(cells: seq<T>, tail: nat, k: nat): seq<T>
    requires tail < |cells| && k <= |cells|
  {
    seq(k, j requires 0 <= j < k => cells[Slot(tail, j, |cells|)])
  }

  /** A stretch of used cells that does not run over the end of the memory block. */
  lemma ContiguousPrefix<T>(cells: seq<T>, head: nat, tail: nat, k: nat)
    requires head < |cells| && tail < |cells|
    requires k <= Used(head, tail, |cells|) && head + k <= |cells|
    ensures Contents(cells, head, tail)[..k] == cells[head..head + k]
  {
  }
}
