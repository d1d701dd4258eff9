/** What a fault-free session leaves in the flash memory, and when that is the file. */
module FlashContent {
  import opened Bits
  import opened Crc32
  import opened Flash
  import opened FlashSession

  function Erased(n: nat): (r: seq<byte>)
    ensures |r| == n && forall i :: 0 <= i < n ==> r[i] == ERASED
  {
    seq(n, _ => ERASED)
  }

  predicate Multiple(a: nat, d: nat)
  {
    d > 0 && a % d == 0
  }

  function HeaderOf(salute: bool): nat
  {
    if salute then HEADER else 0
  }

  /** Flash bytes taken by n file bytes: the header is reserved together with the first of them. */
  function Stored(salute: bool, n: nat): nat
  {
    if n == 0 then 0 else HeaderOf(salute) + n
  }

  /** The flash image of a file before its header is written. */
  function Image(salute: bool, file: seq<byte>): (r: seq<byte>)
    ensures |r| == Stored(salute, |file|)
  {
    if file == [] then [] else Erased(HeaderOf(salute)) + file
  }

  function Limit(g: Geometry, block: nat): nat
  {
    (block + 1) * g.erase
  }

  /** An address in a block or just after it. */
  predicate InBlock(g: Geometry, addr: nat, block: nat)
  {
    block * g.erase <= addr <= Limit(g, block)
  }

  /** Memory is blank from an address up to the end of a block. */
  ghost predicate Blank(g: Geometry, mem: seq<byte>, addr: nat, block: nat)
  {
    forall i :: addr <= i < |mem| && i < Limit(g, block) ==> mem[i] == ERASED
  }

  /** The session has stored exactly these file bytes, and the rest of the erased block is blank. */
  ghost predicate Sound(g: Geometry, salute: bool, w: World, file: seq<byte>)
  {
    && w.Valid(g) && w.dev.faults == [] && w.f.ongoing && (salute ==> g.page > HEADER)
    && Multiple(w.f.base, g.page) && w.f.addr == w.f.base + Stored(salute, |file|) <= |w.dev.mem|
    && InBlock(g, w.f.addr, w.f.lastErased)
    && w.dev.mem[w.f.base..w.f.addr] == Image(salute, file)
    && Blank(g, w.dev.mem, w.f.addr, w.f.lastErased)
    && w.f.readCrc == Add(START, Image(salute, file)) && w.f.flashCrc == START
  }

  // ---------------------------------------------------------------- erase

  /** A new block is only ever started at its first byte. */
  lemma NextBlock(g: Geometry, addr: nat, last: nat)
    requires g.Valid() && last * g.erase <= addr <= Limit(g, last)
    ensures g.BlockOf(addr) == last || (g.BlockOf(addr) == last + 1 && addr == g.BlockOf(addr) * g.erase)
  {
    BlockBounds(g, addr);
    QuotientAtLeast(addr, g.erase, last);
    if g.BlockOf(addr) > last {
      MulOrder(last + 1, g.BlockOf(addr), g.erase);
      DivUnique(addr, g.erase, last + 1, 0);
    }
  }

  lemma ErasePrepares(g: Geometry, salute: bool, w: World, file: seq<byte>)
    requires Sound(g, salute, w, file)
    ensures Sound(g, salute, EraseIfNeeded(g, w), file)
    ensures EraseIfNeeded(g, w).f.lastErased == g.BlockOf(w.f.addr)
  {
    hide Geometry.BlockOf, Image, Stored, Limit;
    NextBlock(g, w.f.addr, w.f.lastErased);
    BlockBounds(g, w.f.addr);
    var block := g.BlockOf(w.f.addr);
    assert Limit(g, block) == (block + 1) * g.erase by { LimitOf(g, block); }
    if block != w.f.lastErased {
      var e := EraseIfNeeded(g, w);
      if block < g.blocks {
        InDevice(g, block);
        FilledAbove(g, w.dev.mem, block, w.f.base, w.f.addr);
      } else {
        MulOrder(g.blocks, block, g.erase);
      }
    }
  }

  lemma LimitOf(g: Geometry, block: nat)
    ensures Limit(g, block) == (block + 1) * g.erase == block * g.erase + g.erase
  {
  }

  lemma FilledAbove(g: Geometry, mem: seq<byte>, block: nat, base: nat, addr: nat)
    requires block * g.erase + g.erase <= |mem| && addr == block * g.erase && base <= addr
    ensures Filled(mem, block * g.erase, g.erase)[base..addr] == mem[base..addr]
    ensures Blank(g, Filled(mem, block * g.erase, g.erase), addr, block)
  {
    LimitOf(g, block);
  }

  /** The first flush erases the block of the base address. */
  lemma Begin(g: Geometry, salute: bool, base: nat, w: World)
    requires w.Valid(g) && w.dev.faults == [] && w.f == IDLE && (salute ==> g.page > HEADER)
    requires Multiple(base, g.page) && base < |w.dev.mem|
    ensures var e := EraseIfNeeded(g, w.(f := w.f.(base := base, addr := base)));
      Sound(g, salute, e.(f := e.f.(ongoing := true)), [])
  {
    hide Geometry.BlockOf;
    var block := g.BlockOf(base);
    BlockBounds(g, base);
    LimitOf(g, block);
    if block >= g.blocks {
      MulOrder(g.blocks, block, g.erase);
    } else {
      InDevice(g, block);
    }
    assert w.dev.mem[base..base] == [];
  }

  // ----------------------------------------------------------------- pages

  /** One page of the flush loop, in an erased block and from the start of the page. */
  function OnePage(g: Geometry, salute: bool, e: World, data: seq<byte>): (r: World)
    requires e.Valid(g) && (salute ==> g.page > HEADER) && e.dev.faults == []
    requires g.PageBase(e.f.addr) + g.page <= |e.dev.mem|
    ensures r.Valid(g)
  {
    var page := g.PageOf(e.f.addr);
    var count := FormatCount(g, salute, e.f, |data|);
    var read := e.dev.mem[page * g.page..page * g.page + g.page];
    var buf := FormatPage(read, FormatOffset(g, salute, e.f), data[..count]);
    var n := Advanced(salute, e.f, count);
    World(e.dev.(mem := Programmed(e.dev.mem, page * g.page, buf)),
      e.f.(readCrc := Add(e.f.readCrc, Summed(g, e.f, buf, n)), addr := e.f.addr + n),
      e.log + [Write(page)])
  }

  /** An aligned address inside the device has its whole page in the device and in its block. */
  lemma PageFits(g: Geometry, addr: nat, size: nat)
    requires g.Valid() && Multiple(addr, g.page) && addr < size == g.Size()
    ensures g.PageBase(addr) == addr && addr + g.page <= size && addr + g.page <= Limit(g, g.BlockOf(addr))
    ensures g.Inner(addr) == 0
  {
    PageStart(g, addr);
    PageInBlock(g, addr);
    LimitOf(g, g.BlockOf(addr));
    MultipleOfMultiple(g.blocks, g.erase, g.page);
    MultiplesApart(addr, size, g.page);
  }

  lemma ProgramBlank(mem: seq<byte>, start: nat, buf: seq<byte>, base: nat, n: nat)
    requires base <= start && start + |buf| <= |mem| && n <= |buf|
    requires forall i :: start <= i < start + |buf| ==> mem[i] == ERASED
    ensures Programmed(mem, start, buf)[base..start + n] == mem[base..start] + buf[..n]
    ensures forall i :: start <= i < start + |buf| ==> Programmed(mem, start, buf)[i] == buf[i - start]
  {
    hide And;
    forall i | start <= i < start + |buf|
      ensures Programmed(mem, start, buf)[i] == buf[i - start]
    {
      AndFacts(buf[i - start]);
    }
  }

  /** What the page buffer holds: the header space, then file bytes, then blank bytes. */
  lemma Formatted(page: seq<byte>, offset: nat, bytes: seq<byte>, n: nat)
    requires offset + |bytes| <= |page| && n == offset + |bytes| && forall i :: 0 <= i < |page| ==> page[i] == ERASED
    ensures FormatPage(page, offset, bytes)[..n] == Erased(offset) + bytes
    ensures forall i :: n <= i < |page| ==> FormatPage(page, offset, bytes)[i] == ERASED
  {
  }

  lemma ImageGrows(salute: bool, file: seq<byte>, bytes: seq<byte>)
    requires bytes != []
    ensures Image(salute, file + bytes) == Image(salute, file) + (Erased(if file == [] then HeaderOf(salute) else 0) + bytes)
  {
  }

  /** The page buffer for the bytes of one page. */
  function PageBuffer(g: Geometry, mem: seq<byte>, addr: nat, offset: nat, bytes: seq<byte>): (r: seq<byte>)
    requires addr + g.page <= |mem| && offset + |bytes| <= g.page
    ensures |r| == g.page
  {
    FormatPage(mem[addr..addr + g.page], offset, bytes)
  }

  /** The buffer holds what the image grows by, then blank bytes. */
  lemma BufferHolds(g: Geometry, salute: bool, mem: seq<byte>, addr: nat, block: nat, file: seq<byte>, offset: nat, bytes: seq<byte>)
    requires addr + g.page <= |mem| && addr + g.page <= Limit(g, block) && Blank(g, mem, addr, block)
    requires bytes != [] && offset == (if file == [] then HeaderOf(salute) else 0) && offset + |bytes| <= g.page
    ensures var n := offset + |bytes|; var buf := PageBuffer(g, mem, addr, offset, bytes);
      Image(salute, file + bytes) == Image(salute, file) + buf[..n]
    ensures var buf := PageBuffer(g, mem, addr, offset, bytes);
      forall i :: offset + |bytes| <= i < g.page ==> buf[i] == ERASED
  {
    hide Image, Limit, FormatPage, Erased, HeaderOf;
    var page := mem[addr..addr + g.page];
    assert forall i :: 0 <= i < g.page ==> page[i] == mem[addr + i] == ERASED;
    Formatted(page, offset, bytes, offset + |bytes|);
    ImageGrows(salute, file, bytes);
  }

  /** Memory after a page of buffered bytes was programmed into blank space. */
  lemma PageMemory(g: Geometry, salute: bool, mem: seq<byte>, base: nat, addr: nat, block: nat, file: seq<byte>,
                   offset: nat, bytes: seq<byte>)
    requires g.page > 0 && base <= addr && addr + g.page <= |mem| && addr + g.page <= Limit(g, block)
    requires mem[base..addr] == Image(salute, file) && Blank(g, mem, addr, block)
    requires bytes != [] && offset == (if file == [] then HeaderOf(salute) else 0) && offset + |bytes| <= g.page
    ensures var n := offset + |bytes|; var after := Programmed(mem, addr, PageBuffer(g, mem, addr, offset, bytes));
      after[base..addr + n] == Image(salute, file + bytes) && Blank(g, after, addr + n, block)
  {
    hide Image, Limit, And, Programmed, PageBuffer, HeaderOf;
    BufferHolds(g, salute, mem, addr, block, file, offset, bytes);
    ProgramBlank(mem, addr, PageBuffer(g, mem, addr, offset, bytes), base, offset + |bytes|);
  }

  /** The checksum takes in what the image grows by. */
  lemma PageCrc(g: Geometry, salute: bool, mem: seq<byte>, f: Flushing, block: nat, file: seq<byte>, offset: nat, bytes: seq<byte>)
    requires g.Valid() && g.Inner(f.addr) == 0 && f.addr + g.page <= |mem| && f.addr + g.page <= Limit(g, block)
    requires Blank(g, mem, f.addr, block)
    requires bytes != [] && offset == (if file == [] then HeaderOf(salute) else 0) && offset + |bytes| <= g.page
    requires f.readCrc == Add(START, Image(salute, file))
    ensures Add(f.readCrc, Summed(g, f, PageBuffer(g, mem, f.addr, offset, bytes), offset + |bytes|))
         == Add(START, Image(salute, file + bytes))
  {
    hide Image, Limit, PageBuffer, HeaderOf, Add, Blank, Geometry.Inner;
    BufferHolds(g, salute, mem, f.addr, block, file, offset, bytes);
    var buf := PageBuffer(g, mem, f.addr, offset, bytes);
    AddSplit(START, Image(salute, file), buf[..offset + |bytes|]);
  }

  lemma StaysInBlock(g: Geometry, addr: nat, block: nat, n: nat)
    requires InBlock(g, addr, block) && addr + g.page <= Limit(g, block) && n <= g.page
    ensures InBlock(g, addr + n, block)
  {
    hide Limit;
  }

  /** What one page does at an address that starts a page. */
  lemma OnePageAligned(g: Geometry, salute: bool, e: World, data: seq<byte>)
    requires e.Valid(g) && (salute ==> g.page > HEADER) && e.dev.faults == []
    requires g.PageBase(e.f.addr) == e.f.addr && e.f.addr + g.page <= |e.dev.mem|
    ensures var count := FormatCount(g, salute, e.f, |data|); var r := OnePage(g, salute, e, data);
      var offset := FormatOffset(g, salute, e.f); var n := Advanced(salute, e.f, count);
      var buf := PageBuffer(g, e.dev.mem, e.f.addr, offset, data[..count]);
      r.dev == Device(Programmed(e.dev.mem, e.f.addr, buf), [])
      && r.f == e.f.(addr := e.f.addr + n, readCrc := Add(e.f.readCrc, Summed(g, e.f, buf, n)))
  {
    hide Geometry.PageOf, Programmed, FormatPage, Add, Summed, FormatCount, FormatOffset, Advanced;
  }

  /** Where one page leaves the session. */
  lemma PageParts(g: Geometry, salute: bool, e: World, file: seq<byte>, data: seq<byte>)
    requires Sound(g, salute, e, file) && e.f.lastErased == g.BlockOf(e.f.addr) && data != []
    requires Multiple(e.f.addr, g.page) && e.f.addr < |e.dev.mem|
    ensures g.PageBase(e.f.addr) + g.page <= |e.dev.mem|
    ensures var bytes := data[..FormatCount(g, salute, e.f, |data|)]; var r := OnePage(g, salute, e, data);
      r.f.addr <= |r.dev.mem| && r.dev.faults == [] && r.f == e.f.(addr := r.f.addr, readCrc := r.f.readCrc)
      && r.f.addr == e.f.addr + Advanced(salute, e.f, |bytes|)
      && InBlock(g, r.f.addr, r.f.lastErased)
  {
    PageFits(g, e.f.addr, |e.dev.mem|);
    Counts(g, salute, e, file, |data|);
    assert e.f.base <= e.f.addr && g.page > 0;
    hide World.Valid, Geometry.Valid;
    hide Geometry.BlockOf, Geometry.PageOf, Image, Limit, Programmed, PageBuffer, Add, Summed, Blank, OnePage;
    hide FormatCount, FormatOffset, Advanced, HeaderOf, Stored, InBlock, Geometry.Inner, Geometry.Size, Multiple;
    var bytes := data[..FormatCount(g, salute, e.f, |data|)];
    var offset := FormatOffset(g, salute, e.f);
    OnePageAligned(g, salute, e, data);
    StaysInBlock(g, e.f.addr, e.f.lastErased, offset + |bytes|);
  }

  /** Memory and checksum hold the file so far, and the rest of the block is blank. */
  ghost predicate Content(g: Geometry, salute: bool, w: World, file: seq<byte>)
  {
    MemoryHolds(g, salute, w, file) && w.f.readCrc == Add(START, Image(salute, file))
  }

  ghost predicate MemoryHolds(g: Geometry, salute: bool, w: World, file: seq<byte>)
  {
    && w.f.base <= w.f.addr <= |w.dev.mem|
    && w.dev.mem[w.f.base..w.f.addr] == Image(salute, file) && Blank(g, w.dev.mem, w.f.addr, w.f.lastErased)
  }

  lemma SoundShape(g: Geometry, salute: bool, w: World, file: seq<byte>)
    requires Sound(g, salute, w, file)
    ensures w.Valid(g) && g.Valid() && g.page > 0 && w.f.ongoing && w.f.flashCrc == START && (salute ==> g.page > HEADER)
    ensures Multiple(w.f.base, g.page) && w.f.addr == w.f.base + Stored(salute, |file|) <= |w.dev.mem|
  {
  }

  lemma SoundContent(g: Geometry, salute: bool, w: World, file: seq<byte>)
    requires Sound(g, salute, w, file)
    ensures w.Valid(g) && g.Valid() && w.dev.faults == [] && (salute ==> g.page > HEADER) && |w.dev.mem| == g.Size()
    ensures w.f.base <= w.f.addr <= |w.dev.mem| && w.f.readCrc == Add(START, Image(salute, file))
    ensures w.dev.mem[w.f.base..w.f.addr] == Image(salute, file) && Blank(g, w.dev.mem, w.f.addr, w.f.lastErased)
  {
  }

  /** What one page leaves in the checksum. */
  lemma PageSum(g: Geometry, salute: bool, e: World, file: seq<byte>, data: seq<byte>, bytes: seq<byte>, offset: nat)
    requires e.Valid(g) && g.Valid() && (salute ==> g.page > HEADER) && e.dev.faults == []
    requires g.PageBase(e.f.addr) == e.f.addr && e.f.addr + g.page <= |e.dev.mem| && e.f.addr + g.page <= Limit(g, e.f.lastErased)
    requires bytes == data[..FormatCount(g, salute, e.f, |data|)] != [] && offset == FormatOffset(g, salute, e.f)
    requires Advanced(salute, e.f, |bytes|) == offset + |bytes| <= g.page && offset == if file == [] then HeaderOf(salute) else 0
    requires g.Inner(e.f.addr) == 0 && Blank(g, e.dev.mem, e.f.addr, e.f.lastErased) && e.f.readCrc == Add(START, Image(salute, file))
    ensures OnePage(g, salute, e, data).f.readCrc == Add(START, Image(salute, file + bytes))
  {
    hide World.Valid, Geometry.Valid, Geometry.PageBase, OnePage, FormatCount, FormatOffset, Advanced;
    hide Image, Limit, Programmed, PageBuffer, Add, Summed, Blank, MemoryHolds, HeaderOf, Geometry.Inner, Geometry.Size;
    OnePageAligned(g, salute, e, data);
    PageCrc(g, salute, e.dev.mem, e.f, e.f.lastErased, file, offset, bytes);
  }

  /** What it leaves in memory. */
  lemma PageBytes(g: Geometry, salute: bool, e: World, file: seq<byte>, data: seq<byte>, bytes: seq<byte>, offset: nat)
    requires e.Valid(g) && g.Valid() && (salute ==> g.page > HEADER) && e.dev.faults == []
    requires g.PageBase(e.f.addr) == e.f.addr && e.f.addr + g.page <= |e.dev.mem| && e.f.addr + g.page <= Limit(g, e.f.lastErased)
    requires bytes == data[..FormatCount(g, salute, e.f, |data|)] != [] && offset == FormatOffset(g, salute, e.f)
    requires Advanced(salute, e.f, |bytes|) == offset + |bytes| <= g.page && offset == if file == [] then HeaderOf(salute) else 0
    requires g.page > 0 && e.f.base <= e.f.addr && e.dev.mem[e.f.base..e.f.addr] == Image(salute, file)
    requires Blank(g, e.dev.mem, e.f.addr, e.f.lastErased)
    ensures MemoryHolds(g, salute, OnePage(g, salute, e, data), file + bytes)
  {
    hide World.Valid, Geometry.Valid, Geometry.PageBase, OnePage, FormatCount, FormatOffset, Advanced;
    hide Image, Limit, Programmed, PageBuffer, Add, Summed, Blank, MemoryHolds, HeaderOf, Geometry.Inner, Geometry.Size;
    OnePageAligned(g, salute, e, data);
    PageMemory(g, salute, e.dev.mem, e.f.base, e.f.addr, e.f.lastErased, file, offset, bytes);
    HoldsMemory(g, salute, OnePage(g, salute, e, data), Programmed(e.dev.mem, e.f.addr, PageBuffer(g, e.dev.mem, e.f.addr, offset, bytes)),
      e.f.base, e.f.addr + (offset + |bytes|), e.f.lastErased, file + bytes);
  }

  lemma HoldsMemory(g: Geometry, salute: bool, w: World, mem: seq<byte>, base: nat, addr: nat, block: nat, file: seq<byte>)
    requires base <= addr <= |mem| && mem[base..addr] == Image(salute, file) && Blank(g, mem, addr, block)
    requires w.dev.mem == mem && w.f.base == base && w.f.addr == addr && w.f.lastErased == block
    ensures MemoryHolds(g, salute, w, file)
  {
    hide Image, Blank;
  }

  lemma PageContent(g: Geometry, salute: bool, e: World, file: seq<byte>, data: seq<byte>)
    requires Sound(g, salute, e, file) && e.f.lastErased == g.BlockOf(e.f.addr) && data != []
    requires Multiple(e.f.addr, g.page) && e.f.addr < |e.dev.mem|
    requires g.PageBase(e.f.addr) + g.page <= |e.dev.mem|
    ensures Content(g, salute, OnePage(g, salute, e, data), file + data[..FormatCount(g, salute, e.f, |data|)])
  {
    SoundContent(g, salute, e, file);
    SoundShape(g, salute, e, file);
    Counts(g, salute, e, file, |data|);
    PageFits(g, e.f.addr, |e.dev.mem|);
    hide Sound, World.Valid, Geometry.Valid, Geometry.PageBase, OnePage, FormatCount, FormatOffset, Advanced;
    hide Geometry.BlockOf, Image, Limit, Add, Blank, MemoryHolds, HeaderOf, Stored, Geometry.Inner, Geometry.Size, Multiple;
    var bytes, offset := data[..FormatCount(g, salute, e.f, |data|)], FormatOffset(g, salute, e.f);
    PageSum(g, salute, e, file, data, bytes, offset);
    PageBytes(g, salute, e, file, data, bytes, offset);
  }

  lemma PageStep(g: Geometry, salute: bool, e: World, file: seq<byte>, data: seq<byte>)
    requires Sound(g, salute, e, file) && e.f.lastErased == g.BlockOf(e.f.addr) && data != []
    requires Multiple(e.f.addr, g.page) && e.f.addr < |e.dev.mem|
    ensures g.PageBase(e.f.addr) + g.page <= |e.dev.mem|
    ensures var count := FormatCount(g, salute, e.f, |data|); var r := OnePage(g, salute, e, data);
      count > 0 && Sound(g, salute, r, file + data[..count]) && (count < |data| ==> Multiple(r.f.addr, g.page))
  {
    Counts(g, salute, e, file, |data|);
    SoundShape(g, salute, e, file);
    hide *;
    PageParts(g, salute, e, file, data);
    StepSound(g, salute, e, file, data);
    NextPage(g, salute, e, file, data);
  }

  lemma NextPage(g: Geometry, salute: bool, e: World, file: seq<byte>, data: seq<byte>)
    requires Sound(g, salute, e, file) && e.f.lastErased == g.BlockOf(e.f.addr) && data != []
    requires Multiple(e.f.addr, g.page) && e.f.addr < |e.dev.mem| && g.PageBase(e.f.addr) + g.page <= |e.dev.mem|
    ensures FormatCount(g, salute, e.f, |data|) < |data| ==> Multiple(OnePage(g, salute, e, data).f.addr, g.page)
  {
    PageParts(g, salute, e, file, data);
    Counts(g, salute, e, file, |data|);
    MultipleNext(e.f.addr, g.page);
    SoundShape(g, salute, e, file);
    hide Sound, World.Valid, Geometry.Valid, Geometry.PageBase, Geometry.BlockOf, Geometry.PageOf, OnePage, Content;
    hide FormatCount, FormatOffset, Advanced, HeaderOf, Stored, InBlock, Geometry.Size, Multiple;
    hide Image, Limit, Add, Blank;
  }

  lemma StepSound(g: Geometry, salute: bool, e: World, file: seq<byte>, data: seq<byte>)
    requires Sound(g, salute, e, file) && e.f.lastErased == g.BlockOf(e.f.addr) && data != []
    requires Multiple(e.f.addr, g.page) && e.f.addr < |e.dev.mem| && g.PageBase(e.f.addr) + g.page <= |e.dev.mem|
    ensures Sound(g, salute, OnePage(g, salute, e, data), file + data[..FormatCount(g, salute, e.f, |data|)])
  {
    PageParts(g, salute, e, file, data);
    PageContent(g, salute, e, file, data);
    Counts(g, salute, e, file, |data|);
    SoundShape(g, salute, e, file);
    hide Sound, World.Valid, Geometry.Valid, Geometry.PageBase, Geometry.BlockOf, Geometry.PageOf, OnePage, Content;
    hide FormatCount, FormatOffset, Advanced, HeaderOf, Stored, InBlock, Geometry.Size, Multiple;
    var all := file + data[..FormatCount(g, salute, e.f, |data|)];
    assert |all| == |file| + FormatCount(g, salute, e.f, |data|);
    SoundFrom(g, salute, OnePage(g, salute, e, data), all);
  }

  lemma SoundFrom(g: Geometry, salute: bool, w: World, file: seq<byte>)
    requires w.Valid(g) && w.dev.faults == [] && w.f.ongoing && (salute ==> g.page > HEADER)
    requires Multiple(w.f.base, g.page) && w.f.addr == w.f.base + Stored(salute, |file|) <= |w.dev.mem|
    requires InBlock(g, w.f.addr, w.f.lastErased) && w.f.flashCrc == START && Content(g, salute, w, file)
    ensures Sound(g, salute, w, file)
  {
    hide InBlock, Multiple, Stored, World.Valid, Blank, Add, Image;
  }

  /** The first page starts after the header, the others at their start; a page is filled unless the bytes run out. */
  lemma Counts(g: Geometry, salute: bool, e: World, file: seq<byte>, size: nat)
    requires Sound(g, salute, e, file) && size > 0
    ensures var count := FormatCount(g, salute, e.f, size);
      0 < count <= size && FormatOffset(g, salute, e.f) == (if file == [] then HeaderOf(salute) else 0)
      && Advanced(salute, e.f, count) == FormatOffset(g, salute, e.f) + count <= g.page
      && (count < size ==> Advanced(salute, e.f, count) == g.page)
      && Stored(salute, |file| + count) == Stored(salute, |file|) + Advanced(salute, e.f, count)
  {
  }

  lemma MultipleNext(a: nat, d: nat)
    requires Multiple(a, d)
    ensures Multiple(a + d, d)
  {
    ModSum(a, d, d);
  }

  lemma OnePageIsStep(g: Geometry, salute: bool, w: World, data: seq<byte>)
    requires w.Valid(g) && (salute ==> g.page > HEADER) && w.dev.faults == [] && data != []
    requires EraseIfNeeded(g, w).dev.faults == []
    requires g.PageBase(w.f.addr) + g.page <= |w.dev.mem|
    ensures var e := EraseIfNeeded(g, w); var count := FormatCount(g, salute, e.f, |data|);
      count > 0 && FlushPage(g, salute, w, data) == (OnePage(g, salute, e, data), count)
  {
    hide EraseIfNeeded, Programmed, Geometry.PageOf, Add, Summed, FormatPage, FormatCount, FormatOffset, Advanced;
  }

  /** Bytes from an aligned address on are stored in order, whatever their number. */
  lemma {:induction false} PagesSound(g: Geometry, salute: bool, w: World, file: seq<byte>, data: seq<byte>)
    requires Sound(g, salute, w, file) && (data != [] ==> Multiple(w.f.addr, g.page))
    requires w.f.base + Stored(salute, |file + data|) <= |w.dev.mem|
    ensures FlushPages(g, salute, w, data).1 && Sound(g, salute, FlushPages(g, salute, w, data).0, file + data)
    decreases |data|
  {
    hide Sound, Image, OnePage, EraseIfNeeded, FlushPage, Geometry.PageOf, Geometry.BlockOf;
    if data == [] {
      assert file + data == file;
    } else {
      SoundParts(g, salute, w, file);
      var e := EraseIfNeeded(g, w);
      ErasePrepares(g, salute, w, file);
      SoundParts(g, salute, e, file);
      PageStep(g, salute, e, file, data);
      OnePageIsStep(g, salute, w, data);
      var count := FormatCount(g, salute, e.f, |data|);
      var next := OnePage(g, salute, e, data);
      SoundParts(g, salute, next, file + data[..count]);
      assert (file + data[..count]) + data[count..] == file + data;
      PagesSound(g, salute, next, file + data[..count], data[count..]);
    }
  }

  lemma SoundParts(g: Geometry, salute: bool, w: World, file: seq<byte>)
    requires Sound(g, salute, w, file)
    ensures w.Valid(g) && w.dev.faults == [] && (salute ==> g.page > HEADER)
    ensures w.f.addr == w.f.base + Stored(salute, |file|) <= |w.dev.mem|
  {
  }

  // ----------------------------------------------------- end of a session

  /** Reading back takes in everything between two addresses, wherever pages begin. */
  lemma {:induction false} ReadBackSum(g: Geometry, w: World, a: nat)
    requires w.Valid(g) && a <= w.f.addr <= |w.dev.mem| && w.dev.faults == []
    ensures ReadBack(g, w, a) == w.(f := w.f.(flashCrc := Add(w.f.flashCrc, w.dev.mem[a..w.f.addr])))
    decreases w.f.addr - a
  {
    hide Geometry.PageOf, Geometry.Inner, Add;
    if a == w.f.addr {
      AddNothing(w.f.flashCrc);
      assert w.dev.mem[a..a] == [];
    } else {
      var n := if w.f.addr - a <= g.page then w.f.addr - a else g.page;
      PageStart(g, a);
      var read := w.dev.mem[a..a + n];
      AddSplit(w.f.flashCrc, read, w.dev.mem[a + n..w.f.addr]);
      assert read + w.dev.mem[a + n..w.f.addr] == w.dev.mem[a..w.f.addr];
      ReadBackSum(g, World(w.dev, w.f.(flashCrc := Add(w.f.flashCrc, read)), w.log), a + n);
    }
  }

  lemma AddNothing(c: Sum)
    ensures Add(c, []) == c
  {
  }

  /** The header is programmed over the blank bytes reserved for it, and nothing else changes. */
  lemma HeaderWritten(g: Geometry, w: World)
    requires w.Valid(g) && w.dev.faults == [] && g.page > HEADER && w.f.base == 0 && g.page <= |w.dev.mem|
    requires forall i :: 0 <= i < HEADER ==> w.dev.mem[i] == ERASED
    ensures var h := WriteHeader(g, w);
      h.1 && h.0.f == w.f && h.0.dev.faults == []
      && h.0.dev.mem == LittleEndian(HeaderSize(w.f.addr)) + w.dev.mem[HEADER..]
  {
    hide And, LittleEndian;
    var page := w.dev.mem[..g.page];
    var header := LittleEndian(HeaderSize(w.f.addr));
    var buf := FormatPage(page, 0, header);
    assert w.dev.mem[0..g.page] == page;
    forall i | 0 <= i < |w.dev.mem|
      ensures Programmed(w.dev.mem, 0, buf)[i] == (header + w.dev.mem[HEADER..])[i]
    {
      AndFacts(w.dev.mem[i]);
      if i < g.page {
        AndFacts(buf[i]);
      }
    }
  }

  /** The header and the bytes that a session leaves: the header counts from the end of the space reserved for it. */
  ghost predicate Leaves(mem: seq<byte>, salute: bool, base: nat, file: seq<byte>)
  {
    base + Stored(salute, |file|) <= |mem| && HeaderOf(salute) <= |mem| &&
    if salute then
      mem[..HEADER] == LittleEndian((Stored(salute, |file|) - HEADER) % 0x1_0000_0000)
      && (file != [] ==> mem[HEADER..HEADER + |file|] == file)
    else mem[base..base + |file|] == file
  }

  /** A correctly stored file: its size in the header, if there is one, and its bytes. */
  ghost predicate Holds(mem: seq<byte>, salute: bool, base: nat, file: seq<byte>)
  {
    base + HeaderOf(salute) + |file| <= |mem| &&
    if salute then mem[..HEADER] == LittleEndian(|file|) && mem[HEADER..HEADER + |file|] == file
    else mem[base..base + |file|] == file
  }

  /** What is left is the file, unless a header was written for an empty one. */
  lemma LeavesFile(mem: seq<byte>, salute: bool, base: nat, file: seq<byte>)
    requires Leaves(mem, salute, base, file) && (salute ==> base == 0)
    ensures Holds(mem, salute, base, file) <==> !salute || file != []
  {
    if salute {
      if file == [] {
        assert mem[..HEADER][0] == 0xFC && LittleEndian(0)[0] == 0;
      } else {
        LittleEndianWraps(|file|);
      }
    }
  }

  /** The four bytes of a number are those of its 32-bit remainder. */
  lemma LittleEndianWraps(n: nat)
    ensures LittleEndian(n % 0x1_0000_0000) == LittleEndian(n)
  {
    var a, b, c, d := Low(n), Low(n / 0x100), Low(n / 0x100 / 0x100), Low(n / 0x100 / 0x100 / 0x100);
    var k := n / 0x100 / 0x100 / 0x100 / 0x100;
    Places(n);
    hide LittleEndian, Low;
    var r := a + 0x100 * b + 0x1_0000 * c + 0x100_0000 * d;
    DivUnique(n, 0x1_0000_0000, k, r);
    BytesAre(n, a, b, c, d, k);
    BytesAre(r, a, b, c, d, 0);
  }

  function Low(n: nat): (b: nat)
    ensures b < 0x100 && n == n / 0x100 * 0x100 + b
  {
    n % 0x100
  }

  lemma Places(n: nat)
    ensures var k := n / 0x100 / 0x100 / 0x100 / 0x100;
      n == Low(n) + 0x100 * Low(n / 0x100) + 0x1_0000 * Low(n / 0x100 / 0x100) + 0x100_0000 * Low(n / 0x100 / 0x100 / 0x100)
           + 0x1_0000_0000 * k
  {
    hide Low;
    var x, y, z := n / 0x100, n / 0x100 / 0x100, n / 0x100 / 0x100 / 0x100;
    var l0, l1, l2, l3 := Low(n), Low(x), Low(y), Low(z);
  }

  lemma BytesAre(n: nat, a: nat, b: nat, c: nat, d: nat, k: nat)
    requires a < 0x100 && b < 0x100 && c < 0x100 && d < 0x100
    requires n == a + 0x100 * b + 0x1_0000 * c + 0x100_0000 * d + 0x1_0000_0000 * k
    ensures LittleEndian(n) == [a, b, c, d]
  {
    DivUnique(n, 0x100, b + 0x100 * c + 0x1_0000 * d + 0x100_0000 * k, a);
    DivUnique(n / 0x100, 0x100, c + 0x100 * d + 0x1_0000 * k, b);
    DivUnique(n, 0x1_0000, c + 0x100 * d + 0x1_0000 * k, a + 0x100 * b);
    DivUnique(n / 0x1_0000, 0x100, d + 0x100 * k, c);
    DivUnique(n, 0x100_0000, d + 0x100 * k, a + 0x100 * b + 0x1_0000 * c);
    DivUnique(n / 0x100_0000, 0x100, k, d);
  }

  /** A flush that starts at a page boundary, or stores nothing, adds its bytes to the file. */
  lemma FlushSound(g: Geometry, salute: bool, base: nat, w: World, file: seq<byte>, data: seq<byte>, last: bool)
    requires (salute ==> g.page > HEADER && base == 0) && Multiple(base, g.page) && base < |w.dev.mem|
    requires if w.f.ongoing then Sound(g, salute, w, file) && w.f.base == base
             else w.Valid(g) && w.dev.faults == [] && w.f == IDLE && file == []
    requires data != [] ==> Multiple(base + Stored(salute, |file|), g.page)
    requires base + Stored(salute, |file + data|) <= |w.dev.mem|
    ensures var r := Flush(g, salute, base, w, data, last);
      |r.0.dev.mem| == |w.dev.mem| &&
      if last then r.1 == Complete(true) && r.0.f == IDLE && Leaves(r.0.dev.mem, salute, base, file + data)
      else r.1 == Continues && Sound(g, salute, r.0, file + data) && r.0.f.base == base
  {
    hide Sound, Image, Geometry.BlockOf, Geometry.PageOf, ShouldErase, EraseBlock, FlushPages, ReadBack, WriteHeader, Multiple, Stored, Leaves;
    SoundWorld(g, salute, base, w, file);
    var started := if w.f.ongoing then w else w.(f := w.f.(base := base, addr := base));
    var e := EraseIfNeeded(g, started);
    var going := e.(f := e.f.(ongoing := true));
    Starts(g, salute, base, w, file);
    SoundParts(g, salute, going, file);
    PagesSound(g, salute, going, file, data);
    var p := FlushPages(g, salute, going, data).0;
    SoundParts(g, salute, p, file + data);
    if last {
      Finishes(g, salute, base, p, file + data);
    }
  }

  lemma Starts(g: Geometry, salute: bool, base: nat, w: World, file: seq<byte>)
    requires (salute ==> g.page > HEADER) && Multiple(base, g.page) && base < |w.dev.mem|
    requires if w.f.ongoing then Sound(g, salute, w, file) && w.f.base == base
             else w.Valid(g) && w.dev.faults == [] && w.f == IDLE && file == []
    ensures var started := if w.f.ongoing then w else w.(f := w.f.(base := base, addr := base));
      var e := EraseIfNeeded(g, started);
      Sound(g, salute, e.(f := e.f.(ongoing := true)), file) && |e.dev.mem| == |w.dev.mem|
  {
    if w.f.ongoing {
      ErasePrepares(g, salute, w, file);
      SoundParts(g, salute, EraseIfNeeded(g, w), file);
    } else {
      Begin(g, salute, base, w);
    }
    hide Sound, EraseIfNeeded, Multiple, World.Valid;
  }

  /** The checksums agree, and the header is written. */
  lemma Finishes(g: Geometry, salute: bool, base: nat, w: World, file: seq<byte>)
    requires Sound(g, salute, w, file) && w.f.base == base < |w.dev.mem| && (salute ==> base == 0)
    ensures var v := ReadBack(g, w, base); var h := if salute then WriteHeader(g, v) else (v, true);
      h.1 && v.f.readCrc == v.f.flashCrc && |h.0.dev.mem| == |w.dev.mem| && Leaves(h.0.dev.mem, salute, base, file)
  {
    hide ReadBack, WriteHeader, Add, LittleEndian;
    ReadBackSum(g, w, base);
    if salute {
      MultipleOfMultiple(g.blocks, g.erase, g.page);
      MultiplesApart(0, |w.dev.mem|, g.page);
      HeaderBlank(g, w, file);
      HeaderWritten(g, ReadBack(g, w, base));
      ImageTail(w.dev.mem, w.f.addr, file);
    }
  }

  lemma HeaderBlank(g: Geometry, w: World, file: seq<byte>)
    requires Sound(g, true, w, file) && w.f.base == 0 && g.page <= |w.dev.mem|
    ensures forall i :: 0 <= i < HEADER ==> w.dev.mem[i] == ERASED
  {
    if file == [] {
      LimitOf(g, w.f.lastErased);
      if w.f.lastErased > 0 {
        MulOrder(1, w.f.lastErased, g.erase);
      }
      MultiplesApart(0, g.erase, g.page);
    } else {
      assert forall i :: 0 <= i < HEADER ==> w.dev.mem[i] == w.dev.mem[0..w.f.addr][i] == Image(true, file)[i];
    }
  }

  lemma ImageTail(mem: seq<byte>, addr: nat, file: seq<byte>)
    requires addr <= |mem| && mem[0..addr] == Image(true, file)
    ensures file != [] ==> mem[HEADER..HEADER + |file|] == file
  {
    if file != [] {
      assert mem[HEADER..addr] == mem[0..addr][HEADER..] == Image(true, file)[HEADER..] == file;
    }
  }

  // ------------------------------------------------------------- sessions

  /** All bytes of a list of chunks. */
  function Concat(chunks: seq<seq<byte>>): seq<byte>
  {
    if chunks == [] then [] else chunks[0] + Concat(chunks[1..])
  }

  function SizesOf(chunks: seq<seq<byte>>): (r: seq<nat>)
    ensures |r| == |chunks|
  {
    if chunks == [] then [] else [|chunks[0]|] + SizesOf(chunks[1..])
  }

  function Total(sizes: seq<nat>): nat
  {
    if sizes == [] then 0 else sizes[0] + Total(sizes[1..])
  }

  lemma {:induction false} ConcatTotal(chunks: seq<seq<byte>>)
    ensures |Concat(chunks)| == Total(SizesOf(chunks))
  {
    if chunks != [] {
      ConcatTotal(chunks[1..]);
      assert SizesOf(chunks)[1..] == SizesOf(chunks[1..]);
    }
  }

  /** Every chunk with bytes in it starts at a page boundary, after n file bytes. */
  predicate Aligned(g: Geometry, salute: bool, base: nat, n: nat, sizes: seq<nat>)
    decreases |sizes|
  {
    sizes == [] ||
    ((sizes[0] > 0 ==> Multiple(base + Stored(salute, n), g.page)) && Aligned(g, salute, base, n + sizes[0], sizes[1..]))
  }

  lemma {:induction false} SessionSound(g: Geometry, salute: bool, base: nat, w: World, file: seq<byte>, chunks: seq<seq<byte>>)
    requires (salute ==> g.page > HEADER && base == 0) && Multiple(base, g.page) && base < |w.dev.mem| && chunks != []
    requires if w.f.ongoing then Sound(g, salute, w, file) && w.f.base == base
             else w.Valid(g) && w.dev.faults == [] && w.f == IDLE && file == []
    requires Aligned(g, salute, base, |file|, SizesOf(chunks))
    requires base + Stored(salute, |file| + |Concat(chunks)|) <= |w.dev.mem|
    ensures w.Valid(g)
    ensures var r := Session(g, salute, base, w, chunks);
      r.1 == Complete(true) && r.0.f == IDLE && Leaves(r.0.dev.mem, salute, base, file + Concat(chunks))
    decreases |chunks|
  {
    hide *;
    SoundWorld(g, salute, base, w, file);
    AlignedFirst(g, salute, base, |file|, chunks);
    ConcatFirst(file, chunks);
    StoredMonotone(salute, |file + chunks[0]|, |file| + |Concat(chunks)|);
    SessionFirst(g, salute, base, w, chunks);
    FlushSound(g, salute, base, w, file, chunks[0], |chunks| == 1);
    if |chunks| > 1 {
      var next := Flush(g, salute, base, w, chunks[0], false).0;
      SoundOngoing(g, salute, next, file + chunks[0]);
      SessionSound(g, salute, base, next, file + chunks[0], chunks[1..]);
    }
  }

  lemma AlignedFirst(g: Geometry, salute: bool, base: nat, n: nat, chunks: seq<seq<byte>>)
    requires chunks != [] && Aligned(g, salute, base, n, SizesOf(chunks))
    ensures chunks[0] != [] ==> Multiple(base + Stored(salute, n), g.page)
    ensures Aligned(g, salute, base, n + |chunks[0]|, SizesOf(chunks[1..]))
  {
    assert SizesOf(chunks)[1..] == SizesOf(chunks[1..]);
  }

  lemma SessionFirst(g: Geometry, salute: bool, base: nat, w: World, chunks: seq<seq<byte>>)
    requires w.Valid(g) && (salute ==> g.page > HEADER) && chunks != []
    ensures |chunks| == 1 ==> Session(g, salute, base, w, chunks) == Flush(g, salute, base, w, chunks[0], true)
    ensures |chunks| > 1 ==>
      Session(g, salute, base, w, chunks) == Session(g, salute, base, Flush(g, salute, base, w, chunks[0], false).0, chunks[1..])
  {
    hide Flush;
  }

  lemma ConcatFirst(file: seq<byte>, chunks: seq<seq<byte>>)
    requires chunks != []
    ensures file + Concat(chunks) == (file + chunks[0]) + Concat(chunks[1..])
    ensures |file + chunks[0]| <= |file| + |Concat(chunks)| == |file + chunks[0]| + |Concat(chunks[1..])|
    ensures |chunks| == 1 ==> file + Concat(chunks) == file + chunks[0]
  {
    var first, rest := chunks[0], Concat(chunks[1..]);
    assert Concat(chunks) == first + rest;
    if |chunks| == 1 {
      assert rest == [];
    }
    hide Concat;
    Associative(file, first, rest);
    if |chunks| == 1 {
      assert first + [] == first;
    }
  }

  lemma StoredMonotone(salute: bool, a: nat, b: nat)
    requires a <= b
    ensures Stored(salute, a) <= Stored(salute, b)
  {
  }

  lemma SoundWorld(g: Geometry, salute: bool, base: nat, w: World, file: seq<byte>)
    requires if w.f.ongoing then Sound(g, salute, w, file) && w.f.base == base else w.Valid(g)
    ensures w.Valid(g)
  {
  }

  lemma SoundOngoing(g: Geometry, salute: bool, w: World, file: seq<byte>)
    requires Sound(g, salute, w, file)
    ensures w.f.ongoing
  {
  }

  /** A finished Salute transfer of a file that is not empty, whose flushes start at page
      boundaries: the size in the first four bytes, then the file; the checksums agree. */
  lemma SaluteFile(g: Geometry, w: World, chunks: seq<seq<byte>>)
    requires g.page > HEADER && w.Valid(g) && w.dev.faults == [] && w.f == IDLE && |w.dev.mem| < 0x1_0000_0000
    requires chunks != [] && Concat(chunks) != [] && HEADER + |Concat(chunks)| <= |w.dev.mem|
    requires Aligned(g, true, 0, 0, SizesOf(chunks))
    ensures var r := Session(g, true, 0, w, chunks); var file := Concat(chunks);
      r.1 == Complete(true) && r.0.dev.mem[..HEADER] == LittleEndian(|file|) && r.0.dev.mem[HEADER..HEADER + |file|] == file
  {
    hide Session, LittleEndian, Concat, SizesOf, Aligned, World.Valid;
    assert [] + Concat(chunks) == Concat(chunks);
    SessionSound(g, true, 0, w, [], chunks);
  }

  /** Every transfer without bytes, in however many flushes, gets the size 2^32 - 4: the header counts
      the bytes after the header, for which no space was reserved. */
  lemma EmptyFile(g: Geometry, w: World, chunks: seq<seq<byte>>)
    requires g.page > HEADER && w.Valid(g) && w.dev.faults == [] && w.f == IDLE && |w.dev.mem| >= HEADER
    requires chunks != [] && Concat(chunks) == []
    ensures Session(g, true, 0, w, chunks).0.dev.mem[..HEADER] == [0xFC, 0xFF, 0xFF, 0xFF]
  {
    hide Session, World.Valid, Sound, Geometry.Valid, LittleEndian, Aligned;
    ConcatTotal(chunks);
    AlignedEmpty(g, SizesOf(chunks));
    SessionSound(g, true, 0, w, [], chunks);
    EmptyHeader(Session(g, true, 0, w, chunks).0.dev.mem);
  }

  lemma {:induction false} AlignedEmpty(g: Geometry, sizes: seq<nat>)
    requires g.page > 0 && Total(sizes) == 0
    ensures Multiple(0, g.page) && Aligned(g, true, 0, 0, sizes)
    decreases |sizes|
  {
    if sizes != [] {
      AlignedEmpty(g, sizes[1..]);
    }
  }

  lemma EmptyHeader(mem: seq<byte>)
    requires Leaves(mem, true, 0, [])
    ensures |mem| >= HEADER && mem[..HEADER] == [0xFC, 0xFF, 0xFF, 0xFF]
  {
  }

  // -------------------------------------- sessions with misaligned flushes

  /** Writing back a page with blank bytes inserted, except possibly the first, clears no bit elsewhere. */
  lemma WriteKeepsBlank(g: Geometry, d: Device, page: nat, offset: nat, bytes: seq<byte>, x: nat)
    requires g.Valid() && |d.mem| == g.Size() && x < |d.mem| && d.mem[x] == ERASED
    requires ReadPage(g, d, page, 0, g.page).2 && offset + |bytes| <= g.page
    requires bytes != [] ==> page * g.page + offset != x || bytes[0] == ERASED
    requires forall i :: 1 <= i < |bytes| ==> bytes[i] == ERASED
    ensures var read := ReadPage(g, d, page, 0, g.page);
      WritePage(g, read.0, page, FormatPage(read.1, offset, bytes)).0.mem[x] == ERASED
  {
    hide And;
    AndFacts(ERASED);
  }

  lemma EraseKeepsBlank(g: Geometry, w: World, x: nat)
    requires w.Valid(g) && x < |w.dev.mem| && w.dev.mem[x] == ERASED
    ensures EraseIfNeeded(g, w).dev.mem[x] == ERASED && |EraseIfNeeded(g, w).dev.mem| == |w.dev.mem|
  {
  }

  /** The next buffered byte is put somewhere else than at x. */
  predicate Misses(g: Geometry, salute: bool, w: World, x: nat)
    requires g.Valid()
  {
    g.PageBase(w.f.addr) + FormatOffset(g, salute, w.f) != x
  }

  lemma PageKeepsBlank(g: Geometry, salute: bool, w: World, data: seq<byte>, x: nat)
    requires w.Valid(g) && (salute ==> g.page > HEADER) && x < |w.dev.mem| && w.dev.mem[x] == ERASED
    requires data != [] && (Misses(g, salute, w, x) || data[0] == ERASED)
    requires forall i :: 1 <= i < |data| ==> data[i] == ERASED
    ensures |FlushPage(g, salute, w, data).0.dev.mem| == |w.dev.mem|
    ensures FlushPage(g, salute, w, data).0.dev.mem[x] == ERASED
  {
    hide Geometry.PageOf, Geometry.BlockOf, ShouldErase, Summed, Add, FormatCount, Advanced, And, ReadPage, WritePage, FormatPage;
    EraseKeepsBlank(g, w, x);
    var e := EraseIfNeeded(g, w);
    var page := g.PageOf(e.f.addr);
    if ReadPage(g, e.dev, page, 0, g.page).2 {
      var count := FormatCount(g, salute, e.f, |data|);
      WriteKeepsBlank(g, e.dev, page, FormatOffset(g, salute, e.f), data[..count], x);
    }
  }

  /** Blank bytes clear nothing, wherever they are put; nor does a first byte that misses. */
  lemma {:induction false} PagesKeepBlank(g: Geometry, salute: bool, w: World, data: seq<byte>, x: nat)
    requires w.Valid(g) && (salute ==> g.page > HEADER) && x < |w.dev.mem| && w.dev.mem[x] == ERASED
    requires data != [] ==> Misses(g, salute, w, x) || data[0] == ERASED
    requires forall i :: 1 <= i < |data| ==> data[i] == ERASED
    ensures |FlushPages(g, salute, w, data).0.dev.mem| == |w.dev.mem|
    ensures FlushPages(g, salute, w, data).0.dev.mem[x] == ERASED
    decreases |data|
  {
    hide FlushPage, Misses;
    if data != [] {
      PageKeepsBlank(g, salute, w, data, x);
      var s := FlushPage(g, salute, w, data);
      if s.1 > 0 {
        PagesKeepBlank(g, salute, s.0, data[s.1..], x);
      }
    }
  }
}
