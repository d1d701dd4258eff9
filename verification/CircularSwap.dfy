/** The swap object behind the hand-off: a bounded stack of free buffers and a ring of full ones. */
module CircularSwap {
  import opened CircularBuffer
  import opened Options

  /** The free stack and the ring of full buffers, by buffer number; the top of the stack is last. */
  datatype Swap = Swap(free: seq<nat>, full: seq<nat>)

  datatype Taken = Taken(swap: Swap, buffer: Option<nat>)

  /** A free buffer, or else the oldest full one, or else none. */
  function FreeTaken(s: Swap): Taken
  {
    if s.free != [] then Taken(s.(free := s.free[..|s.free| - 1]), Some(s.free[|s.free| - 1]))
    else if s.full != [] then Taken(s.(full := s.full[1..]), Some(s.full[0]))
    else Taken(s, None)
  }

  /** The oldest full buffer, if any. */
  function FullTaken(s: Swap): Taken
  {
    if s.full != [] then Taken(s.(full := s.full[1..]), Some(s.full[0])) else Taken(s, None)
  }

  lemma LastOf(s: seq<nat>)
    requires s != []
    ensures multiset(s[..|s| - 1]) + multiset{s[|s| - 1]} == multiset(s)
  {
    assert s == s[..|s| - 1] + [s[|s| - 1]];
  }

  /** Buffers are named by number; every public method runs under one mutex. */
  class SyncedSwap {
    const n: nat
    const stack: array<nat>
    var stackSize: nat
    const ring: Ring<nat>

    ghost predicate Valid()
      reads this, ring
    {
      n > 0 && stack.Length == n && stackSize <= n && ring.Valid() && ring.slots.Length == n && !ring.allowOverwrite
      && ring.slots != stack
    }

    ghost function Abstract(): Swap
      reads this, stack, ring, ring.slots
      requires Valid()
    {
      Swap(stack[..stackSize], ring.Contents())
    }

    /** All buffers are free. */
    constructor (n: nat)
      requires n > 0
      ensures Valid() && this.n == n && Abstract() == Swap(seq(n, i => i), []) && fresh(stack) && fresh(ring) && fresh(ring.slots)
    {
      this.n := n;
      stack := new nat[n](i => i);
      stackSize := n;
      ring := new Ring<nat>(n, false);
      new;
      assert stack[..stackSize] == seq(n, i => i);
    }

    method PopFree() returns (b: nat)
      requires Valid() && stackSize > 0
      modifies this`stackSize
      ensures Valid() && b == old(Abstract()).free[old(stackSize) - 1]
      ensures Abstract() == old(Abstract()).(free := old(Abstract()).free[..old(stackSize) - 1])
    {
      stackSize := stackSize - 1;
      b := stack[stackSize];
    }

    method PopFull() returns (b: nat)
      requires Valid() && ring.size > 0
      modifies ring
      ensures Valid() && b == old(Abstract()).full[0]
      ensures Abstract() == old(Abstract()).(full := old(Abstract()).full[1..])
    {
      b := ring.Front();
      ring.PopFront();
    }

    /** A free buffer; when there is none, the oldest full one is given up for a new message. */
    method GetFree() returns (b: Option<nat>)
      requires Valid()
      modifies this`stackSize, ring
      ensures Valid() && Taken(Abstract(), b) == FreeTaken(old(Abstract()))
      ensures old(Abstract()).free != [] ==>
        b.Some? && multiset(Abstract().free) + multiset{b.value} == multiset(old(Abstract()).free)
        && Abstract().full == old(Abstract()).full
      ensures old(Abstract()).free == [] && old(Abstract()).full != [] ==>
        b.Some? && [b.value] + Abstract().full == old(Abstract()).full && Abstract().free == []
      ensures old(Abstract()) == Swap([], []) ==> b.None? && Abstract() == old(Abstract())
    {
      ghost var was := Abstract();
      if was.free != [] {
        LastOf(was.free);
      }
      b := None;
      if stackSize > 0 {
        var x := PopFree();
        b := Some(x);
      } else if ring.size > 0 {
        var x := PopFull();
        b := Some(x);
      }
    }

    method GetFull() returns (b: Option<nat>)
      requires Valid()
      modifies ring
      ensures Valid() && Taken(Abstract(), b) == FullTaken(old(Abstract()))
      ensures Abstract().free == old(Abstract()).free
      ensures if old(Abstract()).full == [] then b.None? && Abstract().full == [] else b.Some? && [b.value] + Abstract().full == old(Abstract()).full
    {
      b := None;
      if ring.size > 0 {
        var x := PopFull();
        b := Some(x);
      }
    }

    /** Returns a buffer as empty; the stack must have room. */
    method PushFree(b: nat)
      requires Valid() && |Abstract().free| < n
      modifies this`stackSize, stack
      ensures Valid() && Abstract() == old(Abstract()).(free := old(Abstract()).free + [b])
    {
      stack[stackSize] := b;
      stackSize := stackSize + 1;
    }

    /** Returns a buffer as full; the ring must have room. */
    method PushFull(b: nat)
      requires Valid() && |Abstract().full| < n
      modifies ring, ring.slots
      ensures Valid() && Abstract() == old(Abstract()).(full := old(Abstract()).full + [b])
    {
      ring.PushBack(b);
    }
  }
}
