/** A NOR flash memory: erasing sets whole blocks to 0xFF, programming a page only clears bits. */
module Flash {
  import opened Bits

  const ERASED: byte := 0xFF

  // ------------------------------------------------------------- geometry

  /** Sizes in bytes; an erase block is a whole number of pages. */
  datatype Geometry = Geometry(page: nat, erase: nat, blocks: nat) {
    predicate Valid() {
      page > 0 && erase > 0 && erase % page == 0
    }

    function Size(): nat {
      blocks * erase
    }

    function PageOf(address: nat): nat
      requires Valid()
    {
      address / page
    }

    /** Where the page of an address starts. */
    function PageBase(address: nat): nat
      requires Valid()
    {
      PageOf(address) * page
    }

    function BlockOf(address: nat): nat
      requires Valid()
    {
      address / erase
    }

    /** The offset of an address in its page. */
    function Inner(address: nat): (r: nat)
      requires Valid()
      ensures r < page && r <= address
    {
      address % page
    }
  }

  /** Two multiples of d are at least d apart. */
  lemma MultiplesApart(a: int, b: int, d: nat)
    requires d > 0 && a % d == 0 && b % d == 0 && a < b
    ensures a + d <= b
  {
    DivBounds(a, d);
    DivBounds(b, d);
    if b / d <= a / d {
      MulOrder(b / d, a / d, d);
    } else {
      MulOrder(a / d + 1, b / d, d);
    }
  }

  lemma {:induction false} MultipleOfMultiple(k: nat, e: nat, d: nat)
    requires d > 0 && e % d == 0
    ensures k * e % d == 0
  {
    if k > 0 {
      MultipleOfMultiple(k - 1, e, d);
      assert k * e == (k - 1) * e + e;
      ModSum((k - 1) * e, e, d);
    }
  }

  lemma ModSum(a: nat, b: nat, d: nat)
    requires d > 0 && a % d == 0 && b % d == 0
    ensures (a + b) % d == 0
  {
    DivUnique(a + b, d, a / d + b / d, 0);
  }

  lemma PageStart(g: Geometry, address: nat)
    requires g.Valid()
    ensures g.PageBase(address) == address - g.Inner(address)
  {
    DivBounds(address, g.page);
  }

  /** An erase block and its pages. */
  lemma BlockBounds(g: Geometry, address: nat)
    requires g.Valid()
    ensures g.BlockOf(address) * g.erase <= address < (g.BlockOf(address) + 1) * g.erase
    ensures (g.BlockOf(address) * g.erase) % g.page == 0 && ((g.BlockOf(address) + 1) * g.erase) % g.page == 0
  {
    DivBounds(address, g.erase);
    MultipleOfMultiple(g.BlockOf(address), g.erase, g.page);
    MultipleOfMultiple(g.BlockOf(address) + 1, g.erase, g.page);
  }

  /** Blocks are ordered as addresses are. */
  lemma BlockMonotone(g: Geometry, a: nat, b: nat)
    requires g.Valid() && a <= b
    ensures g.BlockOf(a) <= g.BlockOf(b)
  {
    DivBounds(a, g.erase);
    QuotientAtLeast(b, g.erase, g.BlockOf(a));
  }

  /** A whole page lies in one block. */
  lemma PageInBlock(g: Geometry, address: nat)
    requires g.Valid()
    ensures g.BlockOf(address - g.Inner(address)) == g.BlockOf(address)
    ensures address - g.Inner(address) + g.page <= (g.BlockOf(address) + 1) * g.erase
  {
    BlockBounds(g, address);
    var start := address - g.Inner(address);
    DivBounds(address, g.page);
    assert start == address / g.page * g.page;
    MultipleOfMultiple(address / g.page, g.page, g.page);
    MultiplesApart(start, (g.BlockOf(address) + 1) * g.erase, g.page);
    if start < g.BlockOf(address) * g.erase {
      MultiplesApart(start, g.BlockOf(address) * g.erase, g.page);
    }
    QuotientAtLeast(start, g.erase, g.BlockOf(address));
    BlockMonotone(g, start, address);
  }

  // --------------------------------------------------------------- memory

  /** Bitwise conjunction of the n low bits. */
  function AndBits(a: nat, b: nat, n: nat): (r: nat)
    ensures r <= a && r <= b
  {
    if n == 0 then 0 else 2 * AndBits(a / 2, b / 2, n - 1) + if a % 2 == 1 && b % 2 == 1 then 1 else 0
  }

  function And(a: byte, b: byte): byte
  {
    AndBits(a, b, 8)
  }

  lemma {:induction false} AndSameBits(a: nat, n: nat)
    requires a < Pow2(n)
    ensures AndBits(a, a, n) == a
  {
    if n > 0 {
      AndSameBits(a / 2, n - 1);
    }
  }

  lemma {:induction false} AndOnesBits(b: nat, n: nat)
    requires b < Pow2(n)
    ensures AndBits(Pow2(n) - 1, b, n) == b
  {
    if n > 0 {
      assert (Pow2(n) - 1) / 2 == Pow2(n - 1) - 1;
      AndOnesBits(b / 2, n - 1);
    }
  }

  /** Programming an erased byte stores it; programming what is there changes nothing. */
  lemma AndFacts(b: byte)
    ensures And(ERASED, b) == b && And(b, b) == b
  {
    Pow2Values();
    AndSameBits(b, 8);
    AndOnesBits(b, 8);
  }

  function Programmed(mem: seq<byte>, start: nat, buf: seq<byte>): (r: seq<byte>)
    requires start + |buf| <= |mem|
    ensures |r| == |mem|
    ensures forall i :: 0 <= i < |mem| ==> r[i] == if start <= i < start + |buf| then And(mem[i], buf[i - start]) else mem[i]
  {
    seq(|mem|, i requires 0 <= i < |mem| => if start <= i < start + |buf| then And(mem[i], buf[i - start]) else mem[i])
  }

  function Filled(mem: seq<byte>, start: nat, n: nat): (r: seq<byte>)
    requires start + n <= |mem|
    ensures |r| == |mem|
    ensures forall i :: 0 <= i < |mem| ==> r[i] == if start <= i < start + n then ERASED else mem[i]
  {
    seq(|mem|, i requires 0 <= i < |mem| => if start <= i < start + n then ERASED else mem[i])
  }

  // --------------------------------------------------------------- device

  /** Contents, and whether each of the coming calls succeeds; calls after those succeed. */
  datatype Device = Device(mem: seq<byte>, faults: seq<bool>) {
    predicate Works() {
      faults == [] || faults[0]
    }

    function Used(): Device {
      this.(faults := if faults == [] then [] else faults[1..])
    }
  }

  /** A call: the device after it, and whether it succeeded. A failing call changes no contents. */
  function EraseBlock(g: Geometry, d: Device, block: nat): (r: (Device, bool))
    requires g.Valid() && |d.mem| == g.Size()
    ensures |r.0.mem| == |d.mem|
  {
    if d.Works() && block < g.blocks then
      InDevice(g, block);
      (d.Used().(mem := Filled(d.mem, block * g.erase, g.erase)), true)
    else (d.Used(), false)
  }

  lemma InDevice(g: Geometry, block: nat)
    requires block < g.blocks
    ensures block * g.erase + g.erase <= g.Size()
  {
    MulOrder(block + 1, g.blocks, g.erase);
  }

  function WritePage(g: Geometry, d: Device, page: nat, buf: seq<byte>): (r: (Device, bool))
    requires g.Valid() && |d.mem| == g.Size() && |buf| == g.page
    ensures |r.0.mem| == |d.mem|
  {
    if d.Works() && page * g.page + g.page <= |d.mem| then
      (d.Used().(mem := Programmed(d.mem, page * g.page, buf)), true)
    else (d.Used(), false)
  }

  /** Reads n bytes from an offset in a page; None when the call fails. */
  function ReadPage(g: Geometry, d: Device, page: nat, inner: nat, n: nat): (r: (Device, seq<byte>, bool))
    requires g.Valid() && |d.mem| == g.Size()
    ensures r.0.mem == d.mem && (r.2 ==> |r.1| == n)
  {
    var start := page * g.page + inner;
    if d.Works() && start + n <= |d.mem| then (d.Used(), d.mem[start..start + n], true)
    else (d.Used(), [], false)
  }
}
