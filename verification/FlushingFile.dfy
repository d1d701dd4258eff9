/** A RAM file that is flushed to the transfer implementor whenever it is full. */
module FlushingFile {
  import opened Bits
  import opened Crc32
  import opened Flash
  import opened FlashContent
  import opened FlashSession
  import opened FlashTransfer
  import opened Handover
  import opened Options
  import opened RamFile

  lemma {:induction false} ConcatMore(chunks: seq<seq<byte>>, last: seq<byte>)
    ensures Concat(chunks + [last]) == Concat(chunks) + last
  {
    if chunks == [] {
      assert [last][1..] == [];
    } else {
      assert (chunks + [last])[1..] == chunks[1..] + [last];
      ConcatMore(chunks[1..], last);
    }
  }

  /** The world after chunks none of which is the last. */
  function Flushes(g: Geometry, salute: bool, base: nat, w: World, chunks: seq<seq<byte>>): (r: World)
    requires w.Valid(g) && (salute ==> g.page > HEADER)
    ensures r.Valid(g)
    decreases |chunks|
  {
    if chunks == [] then w
    else Flush(g, salute, base, Flushes(g, salute, base, w, chunks[..|chunks| - 1]), chunks[|chunks| - 1], false).0
  }

  lemma FlushesMore(g: Geometry, salute: bool, base: nat, w: World, chunks: seq<seq<byte>>, data: seq<byte>)
    requires w.Valid(g) && (salute ==> g.page > HEADER)
    ensures Flushes(g, salute, base, w, chunks + [data]) == Flush(g, salute, base, Flushes(g, salute, base, w, chunks), data, false).0
  {
    hide Flush;
    assert (chunks + [data])[..|chunks|] == chunks;
  }

  /** A session is those flushes and a last one. */
  lemma {:induction false} SessionIsFlushes(g: Geometry, salute: bool, base: nat, w: World, chunks: seq<seq<byte>>, last: seq<byte>)
    requires w.Valid(g) && (salute ==> g.page > HEADER)
    ensures Session(g, salute, base, w, chunks + [last]) == Flush(g, salute, base, Flushes(g, salute, base, w, chunks), last, true)
    decreases |chunks|
  {
    hide Flush;
    var all := chunks + [last];
    if chunks != [] {
      assert all[1..] == chunks[1..] + [last];
      SessionIsFlushes(g, salute, base, Flush(g, salute, base, w, chunks[0], false).0, chunks[1..], last);
      FlushesFirst(g, salute, base, w, chunks);
    }
  }

  lemma {:induction false} FlushesFirst(g: Geometry, salute: bool, base: nat, w: World, chunks: seq<seq<byte>>)
    requires w.Valid(g) && (salute ==> g.page > HEADER) && chunks != []
    ensures Flushes(g, salute, base, w, chunks) == Flushes(g, salute, base, Flush(g, salute, base, w, chunks[0], false).0, chunks[1..])
    decreases |chunks|
  {
    hide Flush;
    if |chunks| > 1 {
      var init := chunks[..|chunks| - 1];
      FlushesFirst(g, salute, base, w, init);
      assert init[1..] == chunks[1..][..|chunks| - 2];
    }
  }

  /** The file of one transfer: the RAM buffer and the implementor that is told of each flush. */
  class FlushingBufferFile {
    const file: SingleBufferRamFile
    const transfer: Transfer
    /** The address that the partition table has for the file's name. */
    const base: nat
    ghost var appended: seq<byte>
    ghost var start: World

    ghost predicate Separate()
    {
      transfer.chip.mem != file.memoryPool
    }

    /** Nothing is lost: the bytes handed over, then the bytes still buffered, are the bytes appended. */
    ghost predicate Valid()
      reads this, file, file.memoryPool, transfer, transfer.chip, transfer.chip.mem
    {
      && Separate() && file.Valid() && transfer.Valid()
      && (file.currentPosition == file.nextWritePosition || file.currentPosition == 0)
      && Concat(transfer.received) + file.Buffered() == appended
      && start.Valid(transfer.chip.g)
      && transfer.Abstract() == Flushes(transfer.chip.g, transfer.salute, base, start, transfer.received)
    }

    /** Opens a buffer of a given size. */
    constructor (transfer: Transfer, base: nat, bufferSizeHint: nat)
      requires transfer.Valid() && transfer.received == [] && bufferSizeHint > 0
      ensures Valid() && fresh(file) && fresh(file.memoryPool) && file.memoryPool.Length == bufferSizeHint
      ensures this.transfer == transfer && this.base == base && appended == [] && start == old(transfer.Abstract())
    {
      file := new SingleBufferRamFile(bufferSizeHint);
      this.transfer := transfer;
      this.base := base;
      appended := [];
      start := transfer.Abstract();
    }

    /** Hands the buffered bytes over. */
    method Notify(isLastChunk: bool) returns (ending: Ending)
      requires Valid()
      modifies transfer, transfer.chip, transfer.chip.mem, file`currentPosition
      ensures transfer.Valid() && file.Valid() && transfer.received == old(transfer.received) + [old(file.Buffered())]
      ensures Concat(transfer.received) == appended
      ensures (transfer.Abstract(), ending)
        == Flush(transfer.chip.g, transfer.salute, base, old(transfer.Abstract()), old(file.Buffered()), isLastChunk)
    {
      hide Flushes, Flush;
      ConcatMore(transfer.received, file.Buffered());
      var e := transfer.OnFileBufferingFinished(file, Some(base), isLastChunk);
      ending := e.value;
    }

    /** Flushes a full buffer and starts it again from the beginning. */
    method FlushAndRewind()
      requires Valid()
      modifies transfer, transfer.chip, transfer.chip.mem, file`currentPosition
      ensures Valid() && file.currentPosition == 0
      ensures transfer.received == old(transfer.received) + [old(file.Buffered())]
      ensures SizesOf(transfer.received) == SizesOf(old(transfer.received)) + [old(file.currentPosition)]
    {
      hide Flush, Flushes, Concat, SizesOf;
      SizesMore(transfer.received, file.Buffered());
      FlushesMore(transfer.chip.g, transfer.salute, base, start, transfer.received, file.Buffered());
      var ending := Notify(false);
      var previous := file.Seek(0, FromStart);
      assert Concat(transfer.received) + [] == Concat(transfer.received);
    }

    /** Appends what fits, and flushes unless that was the whole buffer. */
    method AppendSome(buffer: seq<byte>, position: nat) returns (n: nat)
      requires Valid() && position < |buffer|
      modifies this`appended, file, file.memoryPool, transfer, transfer.chip, transfer.chip.mem
      ensures var room := file.memoryPool.Length - old(file.currentPosition);
        room >= 0 && n == if |buffer| - position <= room then |buffer| - position else room
      ensures Valid() && appended == old(appended) + buffer[position..position + n]
      ensures file.currentPosition == if n == |buffer| then old(file.currentPosition) + n else 0
      ensures SizesOf(transfer.received)
           == SizesOf(old(transfer.received)) + if n == |buffer| then [] else [old(file.currentPosition) + n]
    {
      hide Flushes, SizesOf, Concat;
      n := file.Append(buffer, position);
      appended := appended + buffer[position..position + n];
      assert Concat(transfer.received) + file.Buffered() == appended;
      if n != |buffer| {
        FlushAndRewind();
      } else {
        assert SizesOf(transfer.received) + [] == SizesOf(transfer.received);
      }
    }

    /** Appends a buffer, flushing whenever the file did not take all of it. */
    method Append(buffer: seq<byte>) returns (position: nat)
      requires Valid()
      modifies this`appended, file, file.memoryPool, transfer, transfer.chip, transfer.chip.mem
      ensures Valid() && position == |buffer| && appended == old(appended) + buffer
      ensures var fed := Feed(file.memoryPool.Length, old(file.currentPosition), |buffer|, 0);
        file.currentPosition == fed.held && SizesOf(transfer.received) == SizesOf(old(transfer.received)) + fed.chunks
    {
      hide Flushes, SizesOf, Feed, Concat;
      position := 0;
      ghost var all := Feed(file.memoryPool.Length, file.currentPosition, |buffer|, 0);
      assert SizesOf(transfer.received) + all.chunks == SizesOf(old(transfer.received)) + all.chunks;
      while position < |buffer|
        invariant Valid() && position <= |buffer| && appended == old(appended) + buffer[..position]
        invariant file.currentPosition <= file.memoryPool.Length
        invariant var rest := Feed(file.memoryPool.Length, file.currentPosition, |buffer|, position);
          rest.held == all.held && SizesOf(transfer.received) + rest.chunks == SizesOf(old(transfer.received)) + all.chunks
        decreases |buffer| - position, if file.currentPosition == file.memoryPool.Length then 1 else 0
      {
        ghost var was, held := SizesOf(transfer.received), file.currentPosition;
        var n := AppendSome(buffer, position);
        FeedStep(file.memoryPool.Length, held, |buffer|, position, n, was);
        assert buffer[..position] + buffer[position..position + n] == buffer[..position + n];
        position := position + n;
      }
      FeedEnd(file.memoryPool.Length, file.currentPosition, |buffer|);
      assert buffer[..|buffer|] == buffer;
    }

    /** A whole download: its pieces appended as they arrive, then the end announced. */
    method Fetch(pieces: seq<seq<byte>>) returns (ending: Ending)
      requires Valid() && appended == [] && transfer.received == [] && start == transfer.Abstract()
      requires file.currentPosition == 0
      modifies this`appended, file, file.memoryPool, transfer, transfer.chip, transfer.chip.mem
      ensures Concat(transfer.received) == Concat(pieces) && transfer.received != []
      ensures (transfer.Abstract(), ending)
        == Session(transfer.chip.g, transfer.salute, base, old(transfer.Abstract()), transfer.received)
      ensures transfer.received == Handed(file.memoryPool.Length, pieces)
    {
      hide Flushes, Flush, Session, Feed, Cut, Handed, SizesOf, HandedSizes;
      ghost var pool, sizes := file.memoryPool.Length, SizesOf(pieces);
      SizesNone();
      for i := 0 to |pieces|
        invariant Valid() && appended == Concat(pieces[..i])
        invariant file.currentPosition <= pool
        invariant SizesOf(transfer.received) + HandedSizes(pool, file.currentPosition, sizes[i..]) == HandedSizes(pool, 0, sizes)
      {
        ConcatMore(pieces[..i], pieces[i]);
        assert pieces[..i + 1] == pieces[..i] + [pieces[i]];
        HandedStep(pool, file.currentPosition, pieces, i, SizesOf(transfer.received));
        var n := Append(pieces[i]);
      }
      HandedEnd(pool, file.currentPosition, sizes);
      SizesMore(transfer.received, file.Buffered());
      assert pieces[..|pieces|] == pieces;
      SessionIsFlushes(transfer.chip.g, transfer.salute, base, start, transfer.received, file.Buffered());
      ending := Notify(true);
      CutUnique(transfer.received);
      HandedForm(pool, pieces);
    }

    /** A download that fits in the buffer ends up in flash behind its size, with matching checksums. */
    method FetchSmall(pieces: seq<seq<byte>>) returns (ending: Ending)
      requires Valid() && appended == [] && transfer.received == [] && start == transfer.Abstract() && file.currentPosition == 0
      requires transfer.salute && base == 0 && transfer.State() == IDLE && transfer.chip.faults == []
      requires 0 < |Concat(pieces)| <= file.memoryPool.Length
      requires HEADER + |Concat(pieces)| <= transfer.chip.mem.Length < 0x1_0000_0000
      modifies this`appended, file, file.memoryPool, transfer, transfer.chip, transfer.chip.mem
      ensures ending == Complete(true)
      ensures transfer.chip.mem[..HEADER] == LittleEndian(|Concat(pieces)|)
      ensures transfer.chip.mem[HEADER..HEADER + |Concat(pieces)|] == Concat(pieces)
    {
      ghost var w := transfer.Abstract();
      ghost var g := transfer.chip.g;
      OneChunk(g, Concat(pieces));
      HandedSmall(file.memoryPool.Length, pieces);
      hide Session, Flushes, LittleEndian, Aligned, Concat, Handed, SizesOf;
      SaluteFile(g, w, [Concat(pieces)]);
      ending := Fetch(pieces);
    }
  }

  lemma OneChunk(g: Geometry, data: seq<byte>)
    requires g.Valid()
    ensures Concat([data]) == data && Aligned(g, true, 0, 0, SizesOf([data]))
  {
    assert [data][1..] == [];
    assert data + [] == data;
    assert SizesOf([data])[1..] == [];
  }
}
