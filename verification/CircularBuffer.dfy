/** A ring of N slots with a base and a size, and iterators over it in both directions. */
module CircularBuffer {
  import opened Bits

  /** Position arithmetic modulo n. */
  function Fwd(n: nat, base: nat, a: nat): (r: nat)
    requires n > 0
    ensures r < n
  {
    (base + a) % n
  }

  function Rev(n: nat, base: nat, a: nat): (r: nat)
    requires n > 0 && base < n
    ensures r < n
  {
    var b := a % n;
    if base < b then n - b + base else base - b
  }

  lemma FwdSmall(n: nat, base: nat, a: nat)
    requires 0 < n && base < n && a <= n
    ensures Fwd(n, base, a) == if base + a < n then base + a else base + a - n
  {
    DivUnique(base + a, n, if base + a < n then 0 else 1, if base + a < n then base + a else base + a - n);
  }

  lemma RevSmall(n: nat, base: nat, a: nat)
    requires 0 < n && base < n && a < n
    ensures Rev(n, base, a) == if base < a then n - a + base else base - a
  {
    DivUnique(a, n, 0, a);
  }

  /** Going back undoes going forward, by any amount. */
  lemma RevFwd(n: nat, base: nat, a: nat)
    requires n > 0 && base < n
    ensures Rev(n, Fwd(n, base, a), a) == base
  {
    var q, b := a / n, a % n;
    DivBounds(a, n);
    FwdSmall(n, base, b);
    var r := Fwd(n, base, b);
    assert base + a == (if base + b < n then q else q + 1) * n + r;
    DivUnique(base + a, n, if base + b < n then q else q + 1, r);
  }

  class Ring<T(0)> {
    const slots: array<T>
    const allowOverwrite: bool
    var base: nat
    var size: nat

    ghost predicate Valid()
      reads this
    {
      slots.Length > 0 && base < slots.Length && size <= slots.Length
    }

    /** The elements, oldest first. */
    ghost function Contents(): (s: seq<T>)
      reads this, slots
      requires Valid()
      ensures |s| == size
      ensures forall i :: 0 <= i < size ==> s[i] == slots[Fwd(slots.Length, base, i)]
    {
      seq(size, i requires 0 <= i < size reads this, slots => slots[Fwd(slots.Length, base, i)])
    }

    constructor (n: nat, allowOverwrite: bool)
      requires n > 0
      ensures Valid() && slots.Length == n && this.allowOverwrite == allowOverwrite && Contents() == [] && fresh(slots)
    {
      slots := new T[n];
      this.allowOverwrite := allowOverwrite;
      base, size := 0, 0;
    }

    function Tail(): nat
      reads this
    {
      base
    }

    function Head(): nat
      requires Valid()
      reads this
    {
      Fwd(slots.Length, base, size)
    }

    /** Adds an element; a full ring gives up its oldest one, or must not be full. */
    method PushBack(a: T)
      requires Valid() && (allowOverwrite || size < slots.Length)
      modifies this, slots
      ensures Valid()
      ensures Contents() == (if old(size) == slots.Length then old(Contents())[1..] else old(Contents())) + [a]
    {
      ghost var before := Contents();
      if size == slots.Length {
        PopFront();
      }
      ghost var kept := Contents();
      FwdSmall(slots.Length, base, size);
      forall i | 0 <= i < size
        ensures Fwd(slots.Length, base, i) != Fwd(slots.Length, base, size)
      {
        FwdSmall(slots.Length, base, i);
      }
      slots[Head()] := a;
      size := size + 1;
      assert Contents() == kept + [a];
    }

    /** Removes the oldest element. */
    method PopFront()
      requires Valid() && size > 0
      modifies this`base, this`size
      ensures Valid() && Contents() == old(Contents())[1..]
    {
      ghost var before := Contents();
      ghost var b := base;
      FwdSmall(slots.Length, base, 1);
      base := Fwd(slots.Length, base, 1);
      size := size - 1;
      forall i | 0 <= i < size
        ensures Contents()[i] == before[i + 1]
      {
        FwdSmall(slots.Length, base, i);
        FwdSmall(slots.Length, b, i + 1);
      }
      assert Contents() == before[1..];
    }

    method Front() returns (r: T)
      requires Valid() && size > 0
      ensures r == Contents()[0]
    {
      FwdSmall(slots.Length, base, 0);
      assert Contents()[0] == slots[Fwd(slots.Length, base, 0)];
      r := slots[Tail()];
    }

    method Back() returns (r: T)
      requires Valid() && size > 0
      ensures r == Contents()[size - 1]
    {
      hide Fwd, Rev;
      OneBack(slots.Length, base, size);
      assert Contents()[size - 1] == slots[Fwd(slots.Length, base, size - 1)];
      r := slots[Rev(slots.Length, Head(), 1)];
    }

    /** What a forward iterator visits between begin and end. */
    method Iterate() returns (visited: seq<T>)
      requires Valid()
      ensures visited == Contents()
    {
      var pos, ttl := Tail(), size;
      visited := [];
      FwdSmall(slots.Length, base, 0);
      while pos != Head() || ttl != 0
        invariant 0 <= ttl <= size && pos == Fwd(slots.Length, base, size - ttl)
        invariant visited == Contents()[..size - ttl]
        decreases ttl
      {
        assert ttl > 0;
        FwdSmall(slots.Length, base, size - ttl);
        FwdSmall(slots.Length, base, size - ttl + 1);
        FwdSmall(slots.Length, pos, 1);
        assert Contents()[..size - ttl + 1] == Contents()[..size - ttl] + [Contents()[size - ttl]];
        visited := visited + [slots[pos]];
        pos := Fwd(slots.Length, pos, 1);
        ttl := ttl - 1;
      }
    }

    /** What a reverse iterator visits: newest first. */
    method IterateReverse() returns (visited: seq<T>)
      requires Valid()
      ensures |visited| == size && forall i :: 0 <= i < size ==> visited[i] == Contents()[size - 1 - i]
    {
      var pos, ttl := Rev(slots.Length, Head(), 1), size;
      visited := [];
      while pos != Rev(slots.Length, Tail(), 1) || ttl != 0
        invariant 0 <= ttl <= size && pos == Rev(slots.Length, Fwd(slots.Length, base, ttl), 1)
        invariant |visited| == size - ttl && forall i :: 0 <= i < size - ttl ==> visited[i] == Contents()[size - 1 - i]
        decreases ttl
      {
        FwdSmall(slots.Length, base, 0);
        assert ttl > 0;
        OneBack(slots.Length, base, ttl);
        visited := visited + [slots[pos]];
        pos := Rev(slots.Length, pos, 1);
        ttl := ttl - 1;
      }
    }
  }

  /** The slot before the one at distance a is the one at distance a - 1. */
  lemma OneBack(n: nat, base: nat, a: nat)
    requires 0 < n && base < n && 0 < a <= n
    ensures Rev(n, Fwd(n, base, a), 1) == Fwd(n, base, a - 1)
  {
    FwdSmall(n, base, a);
    FwdSmall(n, base, a - 1);
    if n > 1 {
      RevSmall(n, Fwd(n, base, a), 1);
    }
  }
}
