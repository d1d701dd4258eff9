/** Writing a buffered file into flash memory as it runs: the device, and the implementor notified of each flush. */
module FlashTransfer {
  import opened Bits
  import opened Crc32
  import opened Flash
  import opened FlashSession
  import opened Options
  import opened RamFile

  /** A flash memory whose calls may fail. */
  class FlashChip {
    const g: Geometry
    const mem: array<byte>
    var faults: seq<bool>

    ghost predicate Valid()
    {
      g.Valid() && mem.Length == g.Size()
    }

    ghost function Dev(): Device
      reads this, mem
    {
      Device(mem[..], faults)
    }

    constructor (g: Geometry)
      requires g.Valid()
      ensures Valid() && this.g == g && faults == [] && fresh(mem)
    {
      this.g := g;
      mem := new byte[g.Size()];
      faults := [];
    }

    /** Whether the next call works. */
    method Outcome() returns (works: bool)
      modifies this
      ensures works == old(Dev()).Works() && Dev() == old(Dev()).Used()
    {
      works := faults == [] || faults[0];
      faults := if faults == [] then [] else faults[1..];
    }

    method Erase(block: nat) returns (ok: bool)
      requires Valid()
      modifies this, mem
      ensures (Dev(), ok) == EraseBlock(g, old(Dev()), block)
    {
      ghost var was := mem[..];
      ok := Outcome();
      ok := ok && block < g.blocks;
      if ok {
        InDevice(g, block);
        for i := 0 to g.erase
          modifies mem
          invariant forall k :: 0 <= k < mem.Length ==>
            mem[k] == if block * g.erase <= k < block * g.erase + i then ERASED else was[k]
        {
          mem[block * g.erase + i] := ERASED;
        }
        assert mem[..] == Filled(was, block * g.erase, g.erase);
      }
    }

    /** Programs a page: bits are only ever cleared. */
    method Write(page: nat, buffer: array<byte>) returns (ok: bool)
      requires Valid() && buffer.Length == g.page && buffer != mem
      modifies this, mem
      ensures (Dev(), ok) == WritePage(g, old(Dev()), page, buffer[..])
    {
      ghost var was := mem[..];
      ok := Outcome();
      ok := ok && page * g.page + g.page <= mem.Length;
      if ok {
        for i := 0 to g.page
          modifies mem
          invariant forall k :: 0 <= k < mem.Length ==>
            mem[k] == if page * g.page <= k < page * g.page + i then And(was[k], buffer[k - page * g.page]) else was[k]
        {
          mem[page * g.page + i] := And(mem[page * g.page + i], buffer[i]);
        }
        assert mem[..] == Programmed(was, page * g.page, buffer[..]);
      }
    }

    method Read(page: nat, inner: nat, buffer: array<byte>, n: nat) returns (ok: bool)
      requires Valid() && n <= buffer.Length && buffer != mem
      modifies this, buffer
      ensures var r := ReadPage(g, old(Dev()), page, inner, n);
        Dev() == r.0 && ok == r.2 && (ok ==> buffer[..n] == r.1)
    {
      ok := Outcome();
      var start := page * g.page + inner;
      ok := ok && start + n <= mem.Length;
      if ok {
        for i := 0 to n
          modifies buffer
          invariant forall k :: 0 <= k < i ==> buffer[k] == mem[start + k]
        {
          buffer[i] := mem[start + i];
        }
      }
    }
  }

  /** The implementor that stores a flushed file in flash: the plain one, or the Salute one with its size header. */
  class Transfer {
    const chip: FlashChip
    const salute: bool
    var baseAddress: nat
    var address: nat
    var lastErasedBlock: nat
    var ongoing: bool
    var readChecksum: Sum
    var flashChecksum: Sum
    ghost var log: seq<Op>
    ghost var received: seq<seq<byte>>

    ghost predicate Valid()
      reads this
    {
      chip.Valid() && baseAddress <= address && (salute ==> chip.g.page > HEADER)
    }

    ghost function State(): Flushing
      reads this
    {
      Flushing(baseAddress, address, lastErasedBlock, ongoing, readChecksum, flashChecksum)
    }

    ghost function Abstract(): World
      reads this, chip, chip.mem
    {
      World(chip.Dev(), State(), log)
    }

    constructor (chip: FlashChip, salute: bool)
      requires chip.Valid() && (salute ==> chip.g.page > HEADER)
      ensures Valid() && this.chip == chip && this.salute == salute && State() == IDLE && log == [] && received == []
    {
      this.chip := chip;
      this.salute := salute;
      baseAddress, address, lastErasedBlock, ongoing := 0, 0, 0, false;
      readChecksum, flashChecksum := START, START;
      log, received := [], [];
    }

    predicate ShouldEraseCurrentBlock()
      requires chip.g.Valid()
      reads this
    {
      !ongoing || lastErasedBlock != chip.g.BlockOf(address)
    }

    method EraseCurrentBlockIfNeeded()
      requires Valid()
      modifies this`lastErasedBlock, this`log, chip, chip.mem
      ensures Valid() && Abstract() == EraseIfNeeded(chip.g, old(Abstract()))
    {
      if ShouldEraseCurrentBlock() {
        var block := chip.g.BlockOf(address);
        var ok := chip.Erase(block);
        lastErasedBlock := block;
        log := log + [Erase(block)];
      }
    }

    lemma PoolPrefix(a: array<byte>, i: nat, j: nat, n: nat)
      requires i + n <= j <= a.Length
      ensures a[i..j][..n] == a[i..i + n]
    {
    }

    lemma Formatted(was: seq<byte>, offset: nat, bytes: seq<byte>)
      requires offset + |bytes| <= |was|
      ensures FormatPage(was, offset, bytes) == was[..offset] + bytes + was[offset + |bytes|..]
    {
    }

    /** Copies file bytes into the page buffer: the bytes the page then has in use, and the bytes read. */
    method FormatPageContent(pageBuffer: array<byte>, file: SingleBufferRamFile, ghost data: seq<byte>)
      returns (written: nat, processed: nat)
      requires Valid() && file.Valid() && pageBuffer.Length == chip.g.page && pageBuffer != file.memoryPool
      requires data == file.memoryPool[file.currentPosition..file.nextWritePosition]
      modifies file`currentPosition, pageBuffer
      ensures file.Valid() && file.currentPosition == old(file.currentPosition) + processed
      ensures processed == FormatCount(chip.g, salute, State(), |data|) && written == Advanced(salute, State(), processed)
      ensures pageBuffer[..] == FormatPage(old(pageBuffer[..]), FormatOffset(chip.g, salute, State()), data[..processed])
    {
      hide Geometry.Inner, FormatPage;
      var offset := if salute && baseAddress == address then HEADER else chip.g.Inner(baseAddress);
      ghost var start, was := file.currentPosition, pageBuffer[..];
      processed := file.Read(pageBuffer, offset, chip.g.page - offset);
      PoolPrefix(file.memoryPool, start, file.nextWritePosition, processed);
      Formatted(was, offset, data[..processed]);
      written := if salute && baseAddress == address then processed + HEADER else processed;
    }

    /** Adds the part of the page buffer in use to the checksum of what was buffered. */
    method UpdatePageBufferChecksum(pageBuffer: array<byte>, n: nat)
      requires Valid() && pageBuffer.Length == chip.g.page
      modifies this`readChecksum
      ensures readChecksum == Add(old(readChecksum), Summed(chip.g, old(State()), pageBuffer[..], n))
    {
      var inner := chip.g.Inner(address);
      var end := if inner + n <= chip.g.page then inner + n else chip.g.page;
      assert pageBuffer[inner..end] == pageBuffer[..][inner..end];
      var c := UpdateCrc32(readChecksum.register, pageBuffer[inner..end]);
      readChecksum := Sum(c);
    }

    /** One turn of the flush loop: the bytes taken from the file, or 0 when a device call failed. */
    method WriteBufferedPage(pageBuffer: array<byte>, file: SingleBufferRamFile, ghost data: seq<byte>) returns (processed: nat)
      requires Valid() && file.Valid() && pageBuffer.Length == chip.g.page
      requires pageBuffer != file.memoryPool && pageBuffer != chip.mem && chip.mem != file.memoryPool
      requires data == file.memoryPool[file.currentPosition..file.nextWritePosition] != []
      modifies this`lastErasedBlock, this`log, this`readChecksum, this`address
      modifies chip, chip.mem, file`currentPosition, pageBuffer
      ensures Valid() && file.Valid() && (Abstract(), processed) == FlushPage(chip.g, salute, old(Abstract()), data)
      ensures processed > 0 ==> file.currentPosition == old(file.currentPosition) + processed
    {
      hide EraseIfNeeded, Add, Summed, FormatOffset, FormatCount, FormatPage, WritePage, ReadPage;
      EraseCurrentBlockIfNeeded();
      var page := chip.g.PageOf(address);
      var ok := chip.Read(page, 0, pageBuffer, chip.g.page);
      if !ok {
        return 0;
      }
      assert pageBuffer[..chip.g.page] == pageBuffer[..];
      var written;
      written, processed := FormatPageContent(pageBuffer, file, data);
      UpdatePageBufferChecksum(pageBuffer, written);
      ok := chip.Write(page, pageBuffer);
      log := log + [Op.Write(page)];
      if !ok {
        return 0;
      }
      address := address + written;
    }

    /** Reads the file back and compares; the buffer for it is allocated here. */
    method UpdateFlashChecksum()
      requires Valid()
      modifies this`flashChecksum, chip
      ensures Valid() && Abstract() == ReadBack(chip.g, old(Abstract()), baseAddress)
    {
      hide ReadPage, Register;
      var buffer := new byte[chip.g.page];
      var a := baseAddress;
      while a != address
        invariant baseAddress <= a <= address && State() == old(State()).(flashCrc := flashChecksum)
        invariant chip.mem[..] == old(chip.mem[..]) && log == old(log)
        invariant ReadBack(chip.g, Abstract(), a) == ReadBack(chip.g, old(Abstract()), baseAddress)
        decreases address - a
      {
        var n := if address - a <= chip.g.page then address - a else chip.g.page;
        var ok := chip.Read(chip.g.PageOf(a), chip.g.Inner(a), buffer, n);
        a := a + n;
        if !ok {
          return;
        }
        var c := UpdateCrc32(flashChecksum.register, buffer[..n]);
        flashChecksum := Sum(c);
      }
    }

    /** The Salute hook after the last chunk: rewrites the first page with the size of the file. */
    method RewriteFirstPage() returns (ok: bool)
      requires Valid() && salute
      modifies this`log, chip, chip.mem
      ensures Valid() && (Abstract(), ok) == WriteHeader(chip.g, old(Abstract()))
    {
      hide ReadPage, WritePage;
      var buffer := new byte[chip.g.page];
      var page := chip.g.PageOf(baseAddress);
      ok := chip.Read(page, 0, buffer, chip.g.page);
      if !ok {
        return;
      }
      ghost var content := buffer[..];
      assert buffer[..chip.g.page] == content;
      var size := HeaderSize(address);
      buffer[0], buffer[1], buffer[2], buffer[3] := size % 0x100, size / 0x100 % 0x100, size / 0x1_0000 % 0x100, size / 0x100_0000 % 0x100;
      assert buffer[..] == FormatPage(content, 0, LittleEndian(size));
      ok := chip.Write(page, buffer);
      log := log + [Op.Write(page)];
    }

    /** All bytes of the file, page by page; false when a device call failed. */
    method FlushFile(file: SingleBufferRamFile, size: nat, ghost data: seq<byte>) returns (ok: bool)
      requires Valid() && file.Valid() && chip.mem != file.memoryPool && file.currentPosition == 0
      requires size == |data| && (data == [] || data == file.memoryPool[..file.nextWritePosition])
      modifies this`lastErasedBlock, this`log, this`readChecksum, this`address, chip, chip.mem, file`currentPosition
      ensures Valid() && file.Valid() && (Abstract(), ok) == FlushPages(chip.g, salute, old(Abstract()), data)
    {
      hide FlushPage;
      var pageBuffer := new byte[chip.g.page];
      var total := 0;
      while total != size
        invariant Valid() && file.Valid() && total <= size
        invariant total < size ==> file.currentPosition == total && size == file.nextWritePosition
        invariant FlushPages(chip.g, salute, Abstract(), data[total..]) == FlushPages(chip.g, salute, old(Abstract()), data)
        decreases size - total
      {
        assert data[total..] == file.memoryPool[file.currentPosition..file.nextWritePosition];
        var processed := WriteBufferedPage(pageBuffer, file, data[total..]);
        if processed == 0 {
          return false;
        }
        assert data[total..][processed..] == data[total + processed..];
        total := total + processed;
      }
      ok := true;
    }

    /** The part of a flush before its bytes; false when the partition table does not know the file. */
    method BeginFlush(found: Option<nat>) returns (known: bool)
      requires Valid()
      modifies this`baseAddress, this`address, this`lastErasedBlock, this`log, this`ongoing, chip, chip.mem
      ensures Valid() && known == (old(ongoing) || found.Some?)
      ensures Abstract() == if known then Begun(chip.g, if found.Some? then found.value else 0, old(Abstract())) else old(Abstract())
    {
      hide EraseIfNeeded;
      if !ongoing {
        if found.None? {
          return false;
        }
        baseAddress := found.value;
        address := baseAddress;
      }
      EraseCurrentBlockIfNeeded();
      ongoing := true;
      known := true;
    }

    /** The part of the last flush after its bytes. */
    method FinishSession() returns (ending: Ending)
      requires Valid()
      modifies this, chip, chip.mem
      ensures Valid() && received == old(received) && (Abstract(), ending) == Finished(chip.g, salute, old(Abstract()))
    {
      hide ReadBack, WriteHeader;
      UpdateFlashChecksum();
      var matched := readChecksum == flashChecksum;
      if salute {
        var ok := RewriteFirstPage();
        if !ok {
          return Failed;
        }
      }
      baseAddress, address, lastErasedBlock, ongoing := 0, 0, 0, false;
      readChecksum, flashChecksum := START, START;
      ending := Complete(matched);
    }

    /** A flush of the buffer file, up to its current position; `found` is the address the partition table gives for it. */
    method OnFileBufferingFinished(file: SingleBufferRamFile, found: Option<nat>, isLastChunk: bool) returns (ending: Option<Ending>)
      requires Valid() && file.Valid() && chip.mem != file.memoryPool
      requires file.currentPosition == file.nextWritePosition || file.currentPosition == 0
      modifies this, chip, chip.mem, file`currentPosition
      ensures Valid() && file.Valid()
      ensures ending.None? <==> !old(ongoing) && found.None?
      ensures received == old(received) + [old(file.Buffered())]
      ensures ending.None? ==> Abstract() == old(Abstract())
      ensures ending.Some? ==>
        (Abstract(), ending.value)
          == Flush(chip.g, salute, if found.Some? then found.value else 0, old(Abstract()), old(file.Buffered()), isLastChunk)
    {
      hide Begun, FlushPages, Finished;
      received := received + [file.Buffered()];
      var known := BeginFlush(found);
      if !known {
        return None;
      }
      var size := file.Seek(0, FromCurrent);
      ghost var data := file.memoryPool[..size];
      var previous := file.Seek(0, FromStart);
      var ok := FlushFile(file, size, data);
      if !ok {
        return Some(Failed);
      }
      if !isLastChunk {
        return Some(Continues);
      }
      var e := FinishSession();
      ending := Some(e);
    }
  }
}
