/** What one flush of the RAM buffer does to the flash memory, as a function, and what a session of flushes leaves there. */
module FlashSession {
  import opened Bits
  import opened Crc32
  import opened Flash

  /** The state kept between flushes. */
  datatype Flushing = Flushing(base: nat, addr: nat, lastErased: nat, ongoing: bool, readCrc: Sum, flashCrc: Sum) {
    predicate FirstChunk() {
      base == addr
    }
  }

  const IDLE := Flushing(0, 0, 0, false, START, START)

  /** Calls made to the device: an erase of a block, a write of a page. */
  datatype Op = Erase(block: nat) | Write(page: nat)

  datatype World = World(dev: Device, f: Flushing, log: seq<Op>) {
    predicate Valid(g: Geometry) {
      g.Valid() && |dev.mem| == g.Size() && f.base <= f.addr
    }
  }

  const HEADER := 4

  // ----------------------------------------------------------------- steps

  predicate ShouldErase(g: Geometry, f: Flushing)
    requires g.Valid()
  {
    !f.ongoing || f.lastErased != g.BlockOf(f.addr)
  }

  /** Erases the block of the current address unless it is the one erased last. A failing erase is ignored. */
  function EraseIfNeeded(g: Geometry, w: World): (r: World)
    requires w.Valid(g)
    ensures r.Valid(g) && r.f == w.f.(lastErased := r.f.lastErased)
  {
    if ShouldErase(g, w.f) then
      var block := g.BlockOf(w.f.addr);
      World(EraseBlock(g, w.dev, block).0, w.f.(lastErased := block), w.log + [Erase(block)])
    else w
  }

  /** Where in the page buffer file bytes go: the offset of the base address, or after the reserved header. */
  function FormatOffset(g: Geometry, salute: bool, f: Flushing): nat
    requires g.Valid()
  {
    if salute && f.FirstChunk() then HEADER else g.Inner(f.base)
  }

  /** How many file bytes fit. */
  function FormatCount(g: Geometry, salute: bool, f: Flushing, n: nat): (c: nat)
    requires g.Valid() && (salute ==> g.page > HEADER)
    ensures c <= n && (n > 0 ==> c > 0) && FormatOffset(g, salute, f) + c <= g.page
  {
    var max := g.page - FormatOffset(g, salute, f);
    if n < max then n else max
  }

  function FormatPage(page: seq<byte>, offset: nat, bytes: seq<byte>): (r: seq<byte>)
    requires offset + |bytes| <= |page|
    ensures |r| == |page|
  {
    page[..offset] + bytes + page[offset + |bytes|..]
  }

  /** Bytes by which the address moves: the header counts with the first chunk. */
  function Advanced(salute: bool, f: Flushing, count: nat): nat
  {
    if salute && f.FirstChunk() then count + HEADER else count
  }

  /** The part of the page buffer that the checksum takes in. */
  function Summed(g: Geometry, f: Flushing, buf: seq<byte>, n: nat): seq<byte>
    requires g.Valid() && |buf| == g.page
  {
    var inner := g.Inner(f.addr);
    buf[inner..if inner + n <= g.page then inner + n else g.page]
  }

  /** Writes buffered bytes into the current page, erasing its block first if needed: the number
      of bytes taken from the buffer, 0 when a device call failed. */
  function FlushPage(g: Geometry, salute: bool, w: World, data: seq<byte>): (r: (World, nat))
    requires w.Valid(g) && (salute ==> g.page > HEADER) && data != []
    ensures r.0.Valid(g) && r.0.f.base == w.f.base && r.0.f.ongoing == w.f.ongoing && r.0.f.addr >= w.f.addr
    ensures r.0.f.flashCrc == w.f.flashCrc && r.1 <= |data|
  {
    var e := EraseIfNeeded(g, w);
    var page := g.PageOf(e.f.addr);
    var read := ReadPage(g, e.dev, page, 0, g.page);
    if !read.2 then (e.(dev := read.0), 0)
    else
      var count := FormatCount(g, salute, e.f, |data|);
      var buf := FormatPage(read.1, FormatOffset(g, salute, e.f), data[..count]);
      var n := Advanced(salute, e.f, count);
      var summed := e.f.(readCrc := Add(e.f.readCrc, Summed(g, e.f, buf, n)));
      var write := WritePage(g, read.0, page, buf);
      var log := e.log + [Write(page)];
      if !write.1 then (World(write.0, summed, log), 0)
      else (World(write.0, summed.(addr := e.f.addr + n), log), count)
  }

  /** Writes buffered bytes page by page; false when a device call failed. */
  function FlushPages(g: Geometry, salute: bool, w: World, data: seq<byte>): (r: (World, bool))
    requires w.Valid(g) && (salute ==> g.page > HEADER)
    ensures r.0.Valid(g) && r.0.f.base == w.f.base && r.0.f.ongoing == w.f.ongoing && r.0.f.addr >= w.f.addr
    ensures r.0.f.flashCrc == w.f.flashCrc
    decreases |data|
  {
    if data == [] then (w, true)
    else
      var s := FlushPage(g, salute, w, data);
      if s.1 == 0 then (s.0, false) else FlushPages(g, salute, s.0, data[s.1..])
  }

  /** Reads the file back from address a on, updating the second checksum; stops at a failing read. */
  function ReadBack(g: Geometry, w: World, a: nat): (r: World)
    requires w.Valid(g) && a <= w.f.addr
    ensures r.Valid(g) && r.f == w.f.(flashCrc := r.f.flashCrc) && r.dev.mem == w.dev.mem && r.log == w.log
    decreases w.f.addr - a
  {
    if a == w.f.addr then w
    else
      var n := if w.f.addr - a <= g.page then w.f.addr - a else g.page;
      var read := ReadPage(g, w.dev, g.PageOf(a), g.Inner(a), n);
      if !read.2 then w.(dev := read.0)
      else ReadBack(g, World(read.0, w.f.(flashCrc := Add(w.f.flashCrc, read.1)), w.log), a + n)
  }

  /** Four bytes, least significant first. */
  function LittleEndian(n: nat): (r: seq<byte>)
    ensures |r| == 4
  {
    [n % 0x100, n / 0x100 % 0x100, n / 0x1_0000 % 0x100, n / 0x100_0000 % 0x100]
  }

  /** The size written into the header, in 32-bit arithmetic. */
  function HeaderSize(addr: nat): nat
  {
    (addr - HEADER) % 0x1_0000_0000
  }

  /** Rewrites the first page with the file's size in its first four bytes; false when a device call failed. */
  function WriteHeader(g: Geometry, w: World): (r: (World, bool))
    requires w.Valid(g) && g.page > HEADER
    ensures r.0.Valid(g)
  {
    var read := ReadPage(g, w.dev, g.PageOf(w.f.base), 0, g.page);
    if !read.2 then (w.(dev := read.0), false)
    else
      var buf := FormatPage(read.1, 0, LittleEndian(HeaderSize(w.f.addr)));
      var write := WritePage(g, read.0, g.PageOf(w.f.base), buf);
      (World(write.0, w.f, w.log + [Write(g.PageOf(w.f.base))]), write.1)
  }

  /** How a flush ended: a device call failed, the session goes on, or it is complete and the checksums were compared. */
  datatype Ending = Failed | Continues | Complete(matched: bool)

  /** The beginning of a flush: the first one of a session sets the addresses; the current block is erased if needed. */
  function Begun(g: Geometry, base: nat, w: World): (r: World)
    requires w.Valid(g)
    ensures r.Valid(g) && r.f.ongoing
  {
    var started := if w.f.ongoing then w else w.(f := w.f.(base := base, addr := base));
    var e := EraseIfNeeded(g, started);
    e.(f := e.f.(ongoing := true))
  }

  /** The end of the last flush: the file is read back, the header is written, the state is reset. */
  function Finished(g: Geometry, salute: bool, w: World): (r: (World, Ending))
    requires w.Valid(g) && (salute ==> g.page > HEADER)
    ensures r.0.Valid(g)
  {
    var v := ReadBack(g, w, w.f.base);
    var h := if salute then WriteHeader(g, v) else (v, true);
    if !h.1 then (h.0, Failed) else (h.0.(f := IDLE), Complete(v.f.readCrc == v.f.flashCrc))
  }

  /** One flush of the bytes in the buffer to the file at this base address. */
  function Flush(g: Geometry, salute: bool, base: nat, w: World, data: seq<byte>, last: bool): (r: (World, Ending))
    requires w.Valid(g) && (salute ==> g.page > HEADER)
    ensures r.0.Valid(g)
  {
    var p := FlushPages(g, salute, Begun(g, base, w), data);
    if !p.1 then (p.0, Failed) else if !last then (p.0, Continues) else Finished(g, salute, p.0)
  }

  /** A whole transfer: the chunks flushed one after another, the final one marked as the last. */
  function Session(g: Geometry, salute: bool, base: nat, w: World, chunks: seq<seq<byte>>): (r: (World, Ending))
    requires w.Valid(g) && (salute ==> g.page > HEADER) && chunks != []
    ensures r.0.Valid(g)
    decreases |chunks|
  {
    var next := Flush(g, salute, base, w, chunks[0], |chunks| == 1);
    if |chunks| == 1 then next else Session(g, salute, base, next.0, chunks[1..])
  }

  // -------------------------------------------------------- erase discipline

  function BlockOfPage(g: Geometry, page: nat): nat
    requires g.Valid()
  {
    g.BlockOf(page * g.page)
  }

  /** No block is erased twice, no page is erased after it was written, and each page
      written lies in a block erased before. */
  ghost predicate Disciplined(g: Geometry, log: seq<Op>)
    requires g.Valid()
  {
    && (forall i, j :: 0 <= i < j < |log| && log[i].Erase? && log[j].Erase? ==> log[i].block != log[j].block)
    && (forall i, j :: 0 <= i < j < |log| && log[i].Write? && log[j].Erase? ==> BlockOfPage(g, log[i].page) != log[j].block)
    && (forall j :: 0 <= j < |log| && log[j].Write? ==> Erase(BlockOfPage(g, log[j].page)) in log[..j])
  }

  ghost predicate Below(g: Geometry, op: Op, block: nat)
    requires g.Valid()
  {
    match op
    case Erase(b) => b <= block
    case Write(p) => BlockOfPage(g, p) <= block
  }

  /** The erases so far went upwards and have reached the current address. */
  ghost predicate Ordered(g: Geometry, w: World)
    requires w.Valid(g)
  {
    && Disciplined(g, w.log)
    && (forall i :: 0 <= i < |w.log| ==> Below(g, w.log[i], w.f.lastErased))
    && w.f.lastErased <= g.BlockOf(w.f.addr)
    && Erase(w.f.lastErased) in w.log && Erase(g.BlockOf(w.f.base)) in w.log
  }

  lemma DisciplinedErase(g: Geometry, log: seq<Op>, last: nat, block: nat)
    requires g.Valid() && Disciplined(g, log) && last < block
    requires forall i :: 0 <= i < |log| ==> Below(g, log[i], last)
    ensures Disciplined(g, log + [Erase(block)])
    ensures forall i :: 0 <= i < |log + [Erase(block)]| ==> Below(g, (log + [Erase(block)])[i], block)
  {
    hide Geometry.BlockOf;
    var more := log + [Erase(block)];
    forall j | 0 <= j < |more| && more[j].Write? ensures Erase(BlockOfPage(g, more[j].page)) in more[..j] {
      assert more[..j] == log[..j];
    }
    forall i | 0 <= i < |log| ensures Below(g, log[i], last) && more[i] == log[i] {
    }
  }

  lemma DisciplinedWrite(g: Geometry, log: seq<Op>, last: nat, page: nat)
    requires g.Valid() && Disciplined(g, log) && Erase(BlockOfPage(g, page)) in log && BlockOfPage(g, page) <= last
    requires forall i :: 0 <= i < |log| ==> Below(g, log[i], last)
    ensures Disciplined(g, log + [Write(page)])
    ensures forall i :: 0 <= i < |log + [Write(page)]| ==> Below(g, (log + [Write(page)])[i], last)
  {
    hide Geometry.BlockOf;
    var more := log + [Write(page)];
    forall j | 0 <= j < |more| && more[j].Write? ensures Erase(BlockOfPage(g, more[j].page)) in more[..j] {
      assert more[..j] == if j < |log| then log[..j] else log;
    }
  }

  lemma PageBlock(g: Geometry, address: nat)
    requires g.Valid()
    ensures BlockOfPage(g, g.PageOf(address)) == g.BlockOf(address)
  {
    PageStart(g, address);
    PageInBlock(g, address);
  }

  lemma EraseOrdered(g: Geometry, w: World)
    requires w.Valid(g) && (if w.f.ongoing then Ordered(g, w) else w.log == [] && w.f.base == w.f.addr)
    ensures var e := EraseIfNeeded(g, w);
      Ordered(g, e) && e.f.lastErased == g.BlockOf(w.f.addr)
  {
    hide Geometry.BlockOf, EraseBlock, Disciplined;
    var block := g.BlockOf(w.f.addr);
    if !w.f.ongoing {
      assert Disciplined(g, [Erase(block)]) by { NoOps(g, block); }
      assert w.log + [Erase(block)] == [Erase(block)];
    } else if w.f.lastErased != block {
      DisciplinedErase(g, w.log, w.f.lastErased, block);
    }
  }

  lemma NoOps(g: Geometry, block: nat)
    requires g.Valid()
    ensures Disciplined(g, [Erase(block)])
  {
  }

  lemma PageOrdered(g: Geometry, salute: bool, w: World, data: seq<byte>)
    requires w.Valid(g) && (salute ==> g.page > HEADER) && Ordered(g, w) && w.f.ongoing && data != []
    ensures Ordered(g, FlushPage(g, salute, w, data).0)
  {
    hide Geometry.BlockOf, Geometry.PageOf, Disciplined, Below, BlockOfPage, EraseIfNeeded, ReadPage, WritePage, FormatPage;
    hide FormatOffset, FormatCount, Summed, Add;
    EraseOrdered(g, w);
    var e := EraseIfNeeded(g, w);
    PageBlock(g, e.f.addr);
    DisciplinedWrite(g, e.log, e.f.lastErased, g.PageOf(e.f.addr));
    BlockMonotone(g, e.f.addr, FlushPage(g, salute, w, data).0.f.addr);
  }

  lemma {:induction false} PagesOrdered(g: Geometry, salute: bool, w: World, data: seq<byte>)
    requires w.Valid(g) && (salute ==> g.page > HEADER) && Ordered(g, w) && w.f.ongoing
    ensures Ordered(g, FlushPages(g, salute, w, data).0)
    decreases |data|
  {
    hide Ordered, FlushPage;
    if data != [] {
      PageOrdered(g, salute, w, data);
      var s := FlushPage(g, salute, w, data);
      if s.1 > 0 {
        PagesOrdered(g, salute, s.0, data[s.1..]);
      }
    }
  }

  /** Each flush keeps the discipline, whatever its size and whichever device calls fail. */
  lemma FlushOrdered(g: Geometry, salute: bool, base: nat, w: World, data: seq<byte>, last: bool)
    requires w.Valid(g) && (salute ==> g.page > HEADER)
    requires if w.f.ongoing then Ordered(g, w) else w.log == []
    ensures var r := Flush(g, salute, base, w, data, last);
      Disciplined(g, r.0.log) && (!last ==> r.0.f.ongoing && Ordered(g, r.0))
  {
    hide Geometry.BlockOf, Geometry.PageOf, Disciplined, EraseIfNeeded, FlushPages, ReadBack, ReadPage, WritePage, FormatPage, ShouldErase;
    var started := if w.f.ongoing then w else w.(f := w.f.(base := base, addr := base));
    EraseOrdered(g, started);
    var e := EraseIfNeeded(g, started);
    var going := e.(f := e.f.(ongoing := true));
    PagesOrdered(g, salute, going, data);
    var p := FlushPages(g, salute, going, data);
    if p.1 && last && salute {
      var v := ReadBack(g, p.0, p.0.f.base);
      PageBlock(g, v.f.base);
      BlockMonotone(g, v.f.base, v.f.addr);
      HeaderDisciplined(g, v);
    }
  }

  lemma HeaderDisciplined(g: Geometry, v: World)
    requires v.Valid(g) && g.page > HEADER && Disciplined(g, v.log) && Erase(g.BlockOf(v.f.base)) in v.log
    ensures Disciplined(g, WriteHeader(g, v).0.log)
  {
    hide Geometry.BlockOf, Geometry.PageOf, BlockOfPage;
    PageBlock(g, v.f.base);
    var more := v.log + [Write(g.PageOf(v.f.base))];
    forall j | 0 <= j < |more| && more[j].Write? ensures Erase(BlockOfPage(g, more[j].page)) in more[..j] {
      assert more[..j] == if j < |v.log| then v.log[..j] else v.log;
    }
  }

  /** Over a whole transfer, for any chunk sizes and any device faults. */
  lemma {:induction false} SessionDisciplined(g: Geometry, salute: bool, base: nat, w: World, chunks: seq<seq<byte>>)
    requires w.Valid(g) && (salute ==> g.page > HEADER) && chunks != []
    requires if w.f.ongoing then Ordered(g, w) else w.log == []
    ensures Disciplined(g, Session(g, salute, base, w, chunks).0.log)
    decreases |chunks|
  {
    hide Flush, Disciplined, Ordered;
    FlushOrdered(g, salute, base, w, chunks[0], |chunks| == 1);
    if |chunks| > 1 {
      SessionDisciplined(g, salute, base, Flush(g, salute, base, w, chunks[0], false).0, chunks[1..]);
    }
  }
}
