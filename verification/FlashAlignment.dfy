/** Page alignment of the flushes is not only enough for a correct file but also necessary. */
module FlashAlignment {
  import opened Bits
  import opened Crc32
  import opened Flash
  import opened FlashContent
  import opened FlashSession
  import opened Handover

  lemma HeaderKeepsBlank(g: Geometry, w: World, x: nat)
    requires w.Valid(g) && g.page > HEADER && w.f.base == 0 && HEADER <= x < |w.dev.mem| && w.dev.mem[x] == ERASED
    ensures |WriteHeader(g, w).0.dev.mem| == |w.dev.mem| && WriteHeader(g, w).0.dev.mem[x] == ERASED
  {
    hide And, LittleEndian;
    AndFacts(ERASED);
  }

  /** A flush of blank bytes, except a first byte that misses x, leaves x blank. */
  lemma FlushKeepsBlank(g: Geometry, salute: bool, base: nat, w: World, data: seq<byte>, last: bool, x: nat)
    requires w.Valid(g) && (salute ==> g.page > HEADER && w.f.base == 0 && x >= HEADER) && w.f.ongoing
    requires x < |w.dev.mem| && w.dev.mem[x] == ERASED
    requires data != [] ==> Misses(g, salute, w, x) || data[0] == ERASED
    requires forall i :: 1 <= i < |data| ==> data[i] == ERASED
    ensures var r := Flush(g, salute, base, w, data, last).0;
      |r.dev.mem| == |w.dev.mem| && r.dev.mem[x] == ERASED && (!last ==> r.f.ongoing && r.f.base == w.f.base)
  {
    hide FlushPages, ReadBack, WriteHeader, EraseBlock, Geometry.PageOf, ShouldErase;
    EraseKeepsBlank(g, w, x);
    var e := EraseIfNeeded(g, w);
    var going := e.(f := e.f.(ongoing := true));
    PagesKeepBlank(g, salute, going, data, x);
    var p := FlushPages(g, salute, going, data);
    if p.1 && last && salute {
      HeaderKeepsBlank(g, ReadBack(g, p.0, p.0.f.base), x);
    }
  }

  predicate BlankChunks(chunks: seq<seq<byte>>)
  {
    forall k :: 0 <= k < |chunks| ==> forall i :: 0 <= i < |chunks[k]| ==> chunks[k][i] == ERASED
  }

  lemma {:induction false} SessionKeepsBlank(g: Geometry, salute: bool, base: nat, w: World, chunks: seq<seq<byte>>, x: nat)
    requires w.Valid(g) && (salute ==> g.page > HEADER && w.f.base == 0 && x >= HEADER) && w.f.ongoing && chunks != []
    requires x < |w.dev.mem| && w.dev.mem[x] == ERASED
    requires chunks[0] != [] ==> Misses(g, salute, w, x) || chunks[0][0] == ERASED
    requires (forall i :: 1 <= i < |chunks[0]| ==> chunks[0][i] == ERASED) && BlankChunks(chunks[1..])
    ensures var r := Session(g, salute, base, w, chunks).0;
      |r.dev.mem| == |w.dev.mem| && r.dev.mem[x] == ERASED
    decreases |chunks|
  {
    hide Flush, Misses;
    FlushKeepsBlank(g, salute, base, w, chunks[0], |chunks| == 1, x);
    if |chunks| > 1 {
      assert chunks[1..][0] == chunks[1];
      SessionKeepsBlank(g, salute, base, Flush(g, salute, base, w, chunks[0], false).0, chunks[1..], x);
    }
  }

  /** Chunks of these sizes, all blank. */
  function Blanks(sizes: seq<nat>): (r: seq<seq<byte>>)
    ensures SizesOf(r) == sizes && BlankChunks(r)
  {
    if sizes == [] then [] else [Erased(sizes[0])] + Blanks(sizes[1..])
  }

  /** A misaligned write position is blank, and the next byte will be put at the start of its page instead. */
  lemma MisalignedBlank(g: Geometry, salute: bool, w: World, file: seq<byte>)
    requires Sound(g, salute, w, file) && (salute ==> w.f.base == 0) && !Multiple(w.f.addr, g.page)
    ensures w.f.addr < |w.dev.mem| && w.dev.mem[w.f.addr] == ERASED && file != [] && Misses(g, salute, w, w.f.addr)
    ensures w.f.addr == w.f.base + HeaderOf(salute) + |file|
  {
    MultipleOfMultiple(g.blocks, g.erase, g.page);
    LimitOf(g, w.f.lastErased);
    MultipleOfMultiple(w.f.lastErased + 1, g.erase, g.page);
    PageStart(g, w.f.addr);
  }

  /** Some file of misaligned chunk sizes is stored wrongly. */
  lemma {:induction false} MisalignedWitness(g: Geometry, salute: bool, base: nat, w: World, file: seq<byte>, sizes: seq<nat>)
    returns (chunks: seq<seq<byte>>)
    requires (salute ==> g.page > HEADER && base == 0) && Multiple(base, g.page) && base < |w.dev.mem| && w.Valid(g)
    requires if w.f.ongoing then Sound(g, salute, w, file) && w.f.base == base
             else w.dev.faults == [] && w.f == IDLE && file == []
    requires base + Stored(salute, |file| + Total(sizes)) <= |w.dev.mem|
    requires !Aligned(g, salute, base, |file|, sizes)
    ensures SizesOf(chunks) == sizes && chunks != []
    ensures !Holds(Session(g, salute, base, w, chunks).0.dev.mem, salute, base, file + Concat(chunks))
    decreases |sizes|
  {
    hide Sound, Session, Misses, Flush, Holds, Multiple, World.Valid;
    if sizes[0] > 0 && !Multiple(base + Stored(salute, |file|), g.page) {
      var first := [0] + Erased(sizes[0] - 1);
      var rest := Blanks(sizes[1..]);
      chunks := [first] + rest;
      assert chunks[1..] == rest;
      SoundPosition(g, salute, base, w, file);
      MisalignedBlank(g, salute, w, file);
      SessionKeepsBlank(g, salute, base, w, chunks, w.f.addr);
      ZeroMissing(Session(g, salute, base, w, chunks).0.dev.mem, salute, base, file, first, Concat(rest));
    } else {
      var first := Erased(sizes[0]);
      assert |file + first| == |file| + sizes[0];
      FlushSound(g, salute, base, w, file, first, false);
      var next := Flush(g, salute, base, w, first, false).0;
      SoundOngoing(g, salute, next, file + first);
      var rest := MisalignedWitness(g, salute, base, next, file + first, sizes[1..]);
      chunks := [first] + rest;
      assert chunks[1..] == rest;
      assert file + Concat(chunks) == (file + first) + Concat(rest);
      SessionMore(g, salute, base, w, first, rest);
    }
  }

  lemma SessionMore(g: Geometry, salute: bool, base: nat, w: World, first: seq<byte>, rest: seq<seq<byte>>)
    requires w.Valid(g) && (salute ==> g.page > HEADER) && rest != []
    ensures Session(g, salute, base, w, [first] + rest) == Session(g, salute, base, Flush(g, salute, base, w, first, false).0, rest)
  {
    hide Flush;
    assert ([first] + rest)[1..] == rest;
  }

  lemma SoundPosition(g: Geometry, salute: bool, base: nat, w: World, file: seq<byte>)
    requires Multiple(base, g.page) && !Multiple(base + Stored(salute, |file|), g.page)
    requires if w.f.ongoing then Sound(g, salute, w, file) && w.f.base == base else file == []
    ensures w.f.ongoing && w.f.addr == base + Stored(salute, |file|)
  {
  }

  lemma HoldsAt(mem: seq<byte>, salute: bool, base: nat, all: seq<byte>, i: nat)
    requires (salute ==> base == 0) && i < |all|
    ensures Holds(mem, salute, base, all) ==>
      base + HeaderOf(salute) + i < |mem| && mem[base + HeaderOf(salute) + i] == all[i]
  {
    hide LittleEndian;
    if Holds(mem, salute, base, all) {
      var start := base + HeaderOf(salute);
      assert mem[start..start + |all|][i] == mem[start + i];
    }
  }

  lemma ZeroMissing(mem: seq<byte>, salute: bool, base: nat, file: seq<byte>, first: seq<byte>, rest: seq<byte>)
    requires first != [] && first[0] == 0 && (salute ==> base == 0)
    requires base + HeaderOf(salute) + |file| < |mem| && mem[base + HeaderOf(salute) + |file|] == ERASED
    ensures !Holds(mem, salute, base, file + (first + rest))
  {
    hide LittleEndian;
    assert (file + (first + rest))[|file|] == 0;
    HoldsAt(mem, salute, base, file + (first + rest), |file|);
  }

  /** For given chunk sizes, every file is stored correctly if and only if each chunk with bytes in it starts
      at a page boundary, and, where a header is written, there are bytes at all. */
  lemma AlignmentIsExact(g: Geometry, salute: bool, base: nat, w: World, sizes: seq<nat>)
    requires (salute ==> g.page > HEADER && base == 0) && Multiple(base, g.page) && base < |w.dev.mem|
    requires w.Valid(g) && w.dev.faults == [] && w.f == IDLE && sizes != []
    requires base + Stored(salute, Total(sizes)) <= |w.dev.mem|
    ensures Aligned(g, salute, base, 0, sizes) && (salute ==> Total(sizes) > 0) <==>
      (forall chunks :: SizesOf(chunks) == sizes ==>
        Holds(Session(g, salute, base, w, chunks).0.dev.mem, salute, base, Concat(chunks)))
  {
    hide Session, Holds, Multiple, Leaves;
    if Aligned(g, salute, base, 0, sizes) {
      forall chunks | SizesOf(chunks) == sizes
        ensures Holds(Session(g, salute, base, w, chunks).0.dev.mem, salute, base, Concat(chunks)) <==> !salute || Total(sizes) > 0
      {
        AlignedStored(g, salute, base, w, chunks);
      }
      assert SizesOf(Blanks(sizes)) == sizes;
      assert Holds(Session(g, salute, base, w, Blanks(sizes)).0.dev.mem, salute, base, Concat(Blanks(sizes))) <==> !salute || Total(sizes) > 0;
    } else {
      var chunks := MisalignedWitness(g, salute, base, w, [], sizes);
      assert [] + Concat(chunks) == Concat(chunks);
    }
  }

  lemma AlignedStored(g: Geometry, salute: bool, base: nat, w: World, chunks: seq<seq<byte>>)
    requires (salute ==> g.page > HEADER && base == 0) && Multiple(base, g.page) && base < |w.dev.mem|
    requires w.Valid(g) && w.dev.faults == [] && w.f == IDLE && chunks != []
    requires base + Stored(salute, Total(SizesOf(chunks))) <= |w.dev.mem| && Aligned(g, salute, base, 0, SizesOf(chunks))
    ensures Holds(Session(g, salute, base, w, chunks).0.dev.mem, salute, base, Concat(chunks))
        <==> !salute || Total(SizesOf(chunks)) > 0
  {
    hide Session, Holds, Multiple, Leaves, World.Valid;
    ConcatTotal(chunks);
    assert [] + Concat(chunks) == Concat(chunks);
    SessionSound(g, salute, base, w, [], chunks);
    LeavesFile(Session(g, salute, base, w, chunks).0.dev.mem, salute, base, Concat(chunks));
  }

  // -------------------------------------------- downloads through the buffer

  /** The downloads of pieces of given sizes through a buffer: all of them end up in flash correctly if and
      only if the chunks in which the buffer hands them over start at page boundaries, and there are bytes. */
  lemma DownloadIsExact(g: Geometry, salute: bool, base: nat, w: World, pool: nat, sizes: seq<nat>)
    requires (salute ==> g.page > HEADER && base == 0) && Multiple(base, g.page) && base < |w.dev.mem|
    requires w.Valid(g) && w.dev.faults == [] && w.f == IDLE && pool > 0
    requires base + Stored(salute, Total(sizes)) <= |w.dev.mem|
    ensures Aligned(g, salute, base, 0, HandedSizes(pool, 0, sizes)) && (salute ==> Total(sizes) > 0) <==>
      (forall pieces :: SizesOf(pieces) == sizes ==>
        Holds(Session(g, salute, base, w, Handed(pool, pieces)).0.dev.mem, salute, base, Concat(pieces)))
  {
    hide Session, Holds, Multiple, Aligned, Handed, HandedSizes, World.Valid, Stored;
    var handed := HandedSizes(pool, 0, sizes);
    HandedTotal(pool, 0, sizes);
    AlignmentIsExact(g, salute, base, w, handed);
    if Aligned(g, salute, base, 0, handed) && (salute ==> Total(sizes) > 0) {
      forall pieces | SizesOf(pieces) == sizes
        ensures Holds(Session(g, salute, base, w, Handed(pool, pieces)).0.dev.mem, salute, base, Concat(pieces))
      {
        HandedFacts(pool, pieces);
      }
    } else {
      var chunks :| SizesOf(chunks) == handed && !Holds(Session(g, salute, base, w, chunks).0.dev.mem, salute, base, Concat(chunks));
      var pieces := HandedOnto(pool, sizes, chunks);
    }
  }

  /** With a header and a buffer of whole pages, a download is handed over at page boundaries exactly when it fits in the buffer. */
  lemma WholePagesAligned(g: Geometry, pool: nat, sizes: seq<nat>)
    requires g.page > HEADER && Multiple(pool, g.page) && pool > 0
    ensures Aligned(g, true, 0, 0, HandedSizes(pool, 0, sizes)) <==> Total(sizes) <= pool
  {
    hide HandedSizes;
    var handed := HandedSizes(pool, 0, sizes);
    FirstHanded(pool, 0, sizes);
    HandedTotal(pool, 0, sizes);
    if Total(sizes) <= pool {
      assert [Total(sizes)][1..] == [];
    } else {
      DivUnique(HEADER + pool, g.page, pool / g.page, HEADER);
      NotAligned(g, pool, handed[1..]);
    }
  }

  /** The first chunk with bytes in it that comes at a misaligned place. */
  lemma {:induction false} NotAligned(g: Geometry, n: nat, sizes: seq<nat>)
    requires n > 0 && Total(sizes) > 0 && !Multiple(HEADER + n, g.page)
    ensures !Aligned(g, true, 0, n, sizes)
    decreases |sizes|
  {
    if sizes[0] == 0 {
      NotAligned(g, n, sizes[1..]);
    }
  }

  /** With a buffer of whole pages, the downloads of given piece lengths are stored correctly if and only if
      they are not empty and fit in the buffer. */
  lemma WholePagesExact(g: Geometry, w: World, pool: nat, sizes: seq<nat>)
    requires g.page > HEADER && 0 < |w.dev.mem| && w.Valid(g) && w.dev.faults == [] && w.f == IDLE
    requires pool > 0 && Multiple(pool, g.page) && HEADER + Total(sizes) <= |w.dev.mem|
    ensures 0 < Total(sizes) <= pool <==>
      (forall pieces :: SizesOf(pieces) == sizes ==>
        Holds(Session(g, true, 0, w, Handed(pool, pieces)).0.dev.mem, true, 0, Concat(pieces)))
  {
    hide Session, Holds, Aligned, Handed, HandedSizes;
    WholePagesAligned(g, pool, sizes);
    DownloadIsExact(g, true, 0, w, pool, sizes);
  }

  /** Whatever the size of the buffer, a piece of more than two buffers is handed over across page boundaries. */
  lemma LongPieceMisaligned(g: Geometry, pool: nat, size: nat)
    requires g.Valid() && g.page > HEADER && pool > 0 && size > 2 * pool
    ensures !Aligned(g, true, 0, 0, HandedSizes(pool, 0, [size]))
  {
    hide HandedSizes, Aligned;
    TwoFullBuffers(pool, size);
    var handed := HandedSizes(pool, 0, [size]);
    HandedTotal(pool, 0, [size]);
    assert [size][1..] == [];
    TotalParts(handed, pool);
    TwoBuffersMisalign(g, pool, handed);
  }

  lemma TotalParts(sizes: seq<nat>, pool: nat)
    requires |sizes| >= 2 && sizes[0] == sizes[1] == pool
    ensures Total(sizes) == 2 * pool + Total(sizes[2..])
  {
    assert sizes[1..][1..] == sizes[2..];
  }

  /** A piece of more than two buffers fills the buffer twice. */
  lemma TwoFullBuffers(pool: nat, size: nat)
    requires pool > 0 && size > 2 * pool
    ensures var r := HandedSizes(pool, 0, [size]); |r| >= 2 && r[0] == r[1] == pool
  {
    var one, two := Feed(pool, 0, size, pool), Feed(pool, 0, size, 2 * pool);
    assert one.chunks == [pool] + two.chunks;
    assert Feed(pool, 0, size, 0).chunks == [pool] + one.chunks;
  }

  /** Two flushes of a full buffer before more bytes: with the reserved header no buffer size keeps both aligned. */
  lemma TwoBuffersMisalign(g: Geometry, pool: nat, sizes: seq<nat>)
    requires g.Valid() && g.page > HEADER && pool > 0
    requires |sizes| >= 2 && sizes[0] == sizes[1] == pool && Total(sizes[2..]) > 0
    ensures !Aligned(g, true, 0, 0, sizes)
  {
    if Aligned(g, true, 0, 0, sizes) {
      assert sizes[1..][1..] == sizes[2..];
      assert Aligned(g, true, 0, pool, sizes[1..]) && Aligned(g, true, 0, pool + pool, sizes[2..]);
      assert Multiple(HEADER + pool, g.page);
      SomeAligned(g, pool + pool, sizes[2..]);
      TwoMultiples(pool, g.page);
    }
  }

  lemma SomeAligned(g: Geometry, n: nat, sizes: seq<nat>)
    requires n > 0 && Total(sizes) > 0 && Aligned(g, true, 0, n, sizes)
    ensures Multiple(HEADER + n, g.page)
  {
    hide Multiple;
    if !Multiple(HEADER + n, g.page) {
      NotAligned(g, n, sizes);
    }
  }

  /** If 4 + n and 4 + 2n are multiples of d, so is 4. */
  lemma TwoMultiples(n: nat, d: nat)
    requires Multiple(HEADER + n, d) && Multiple(HEADER + 2 * n, d)
    ensures d <= HEADER
  {
    DivBounds(HEADER + n, d);
    DivBounds(HEADER + 2 * n, d);
    var k := 2 * ((HEADER + n) / d) - (HEADER + 2 * n) / d;
    assert k * d == HEADER by {
      assert 2 * ((HEADER + n) / d) * d == 2 * (HEADER + n);
    }
    if k <= 0 {
      MulOrder(k, 0, d);
    } else {
      MulOrder(1, k, d);
    }
  }
}
