/** The ring buffer of pipe.c. Its counters are 32-bit and wrap; `stored` and `consumed` are all
    bytes ever written and read.
 */
module PipeRing {
  import opened Common

  function Cell(x: nat): (c: nat)
    ensures c < PIPESIZE
  {
    x % PIPESIZE
  }

  function Wrapped(x: nat): nat {
    x % UINT
  }

  /** The buffer size divides the counter range, so a wrapped counter indexes the right cell. */
  lemma WrapIndex(x: nat)
    ensures Cell(Wrapped(x)) == Cell(x) && Wrapped(Wrapped(x) + 1) == Wrapped(x + 1)
  {
    assert x == (x / UINT) * UINT + x % UINT;
  }

  /** Two counters within a buffer of each other are equal after wrapping exactly if they are equal. */
  lemma WrapEqual(x: nat, y: nat)
    requires x <= y <= x + PIPESIZE
    ensures Wrapped(x) == Wrapped(y) <==> x == y
  {
  }

  lemma WrapFull(x: nat, y: nat)
    requires x <= y <= x + PIPESIZE
    ensures Wrapped(y) == Wrapped(Wrapped(x) + PIPESIZE) <==> y == x + PIPESIZE
  {
  }

  /** Cells of different bytes that are in flight together are different. */
  lemma CellsDiffer(x: nat, y: nat)
    requires x < y < x + PIPESIZE
    ensures Cell(x) != Cell(y)
  {
  }

  class Pipe {
    const data: array<bv8>
    var nread: nat
    var nwrite: nat
    ghost var stored: seq<bv8>
    ghost var consumed: seq<bv8>

    /** A FIFO: what was read is a prefix of what was written, at most PIPESIZE bytes behind it,
        and the bytes between are in the buffer. */
    ghost predicate Valid()
      reads this, data
    {
      && data.Length == PIPESIZE
      && consumed <= stored
      && |stored| <= |consumed| + PIPESIZE
      && nread == Wrapped(|consumed|)
      && nwrite == Wrapped(|stored|)
      && (forall i: nat | |consumed| <= i < |stored| :: data[Cell(i)] == stored[i])
    }

    constructor ()
      ensures Valid() && stored == consumed == [] && fresh(data)
    {
      data := new bv8[PIPESIZE](i => 0);
      nread, nwrite, stored, consumed := 0, 0, [], [];
    }

    method IsFull() returns (full: bool)
      requires Valid()
      ensures full <==> |stored| == |consumed| + PIPESIZE
    {
      WrapFull(|consumed|, |stored|);
      full := nwrite == Wrapped(nread + PIPESIZE);
    }

    method IsEmpty() returns (empty: bool)
      requires Valid()
      ensures empty <==> stored == consumed
    {
      WrapEqual(|consumed|, |stored|);
      empty := nread == nwrite;
    }

    method Put(b: bv8)
      requires Valid() && |stored| < |consumed| + PIPESIZE
      modifies this, data
      ensures Valid() && stored == old(stored) + [b] && consumed == old(consumed)
    {
      hide Cell, Wrapped;
      WrapIndex(|stored|);
      var cell := Cell(nwrite);
      forall i: nat | |consumed| <= i < |stored| ensures Cell(i) != cell {
        CellsDiffer(i, |stored|);
      }
      data[cell] := b;
      nwrite := Wrapped(nwrite + 1);
      stored := stored + [b];
    }

    method Get() returns (b: bv8)
      requires Valid() && consumed != stored
      modifies this
      ensures Valid() && stored == old(stored) && consumed == old(consumed) + [b]
    {
      hide Cell, Wrapped;
      WrapIndex(|consumed|);
      b := data[Cell(nread)];
      nread := Wrapped(nread + 1);
      consumed := consumed + [b];
    }

    /** The loop of pipewrite from byte `from` up to the point where it must wait for a reader. */
    method WriteUntilFull(addr: seq<bv8>, from: nat) returns (i: nat)
      requires Valid() && from <= |addr|
      modifies this, data
      ensures Valid() && from <= i <= |addr|
      ensures stored == old(stored) + addr[from..i] && consumed == old(consumed)
      ensures i < |addr| ==> |stored| == |consumed| + PIPESIZE
    {
      i := from;
      while i < |addr|
        invariant Valid() && from <= i <= |addr|
        invariant stored == old(stored) + addr[from..i] && consumed == old(consumed)
      {
        var full := IsFull();
        if full {
          return;
        }
        Put(addr[i]);
        i := i + 1;
      }
    }

    /** The copy loop of piperead. */
    method ReadAvailable(n: nat) returns (out: seq<bv8>)
      requires Valid()
      modifies this
      ensures Valid() && stored == old(stored) && consumed == old(consumed) + out
      ensures |out| <= n && (|out| < n ==> consumed == stored)
    {
      out := [];
      while |out| < n
        invariant Valid() && stored == old(stored) && consumed == old(consumed) + out && |out| <= n
      {
        var empty := IsEmpty();
        if empty {
          return;
        }
        var b := Get();
        out := out + [b];
      }
    }
  }
}
