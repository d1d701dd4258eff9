/** The RAM file of the transfer pipeline: one memory pool with a read and write position. */
module RamFile {
  import opened Bits

  datatype Origin = FromStart | FromCurrent | FromEnd

  class SingleBufferRamFile {
    const memoryPool: array<byte>
    var currentPosition: nat
    var nextWritePosition: nat

    ghost predicate Valid()
      reads this
    {
      memoryPool.Length > 0 && currentPosition <= nextWritePosition <= memoryPool.Length
    }

    /** The bytes up to the current position. */
    ghost function Buffered(): seq<byte>
      reads this, memoryPool
      requires Valid()
    {
      memoryPool[..currentPosition]
    }

    constructor (fileSizeHint: nat)
      requires fileSizeHint > 0
      ensures Valid() && memoryPool.Length == fileSizeHint && Buffered() == [] && nextWritePosition == 0 && fresh(memoryPool)
    {
      memoryPool := new byte[fileSizeHint];
      currentPosition, nextWritePosition := 0, 0;
    }

    /** Stores as many of the bytes from position `from` on as fit; what lay behind them is given up. */
    method Append(buffer: seq<byte>, from: nat) returns (n: nat)
      requires Valid() && from <= |buffer|
      modifies this, memoryPool
      ensures Valid() && nextWritePosition == currentPosition
      ensures n == if |buffer| - from <= memoryPool.Length - old(currentPosition) then |buffer| - from
                   else memoryPool.Length - old(currentPosition)
      ensures Buffered() == old(Buffered()) + buffer[from..from + n]
    {
      n := if |buffer| - from <= memoryPool.Length - currentPosition then |buffer| - from else memoryPool.Length - currentPosition;
      for i := 0 to n
        modifies memoryPool
        invariant memoryPool[..currentPosition + i] == old(memoryPool[..currentPosition]) + buffer[from..from + i]
      {
        memoryPool[currentPosition + i] := buffer[from + i];
        assert memoryPool[..currentPosition + i + 1] == memoryPool[..currentPosition + i] + [buffer[from + i]];
      }
      currentPosition := currentPosition + n;
      nextWritePosition := currentPosition;
    }

    /** Moves the position, and returns the previous one. A position before the start is a huge
        unsigned number, and so ends up at the end like one past the end. */
    method Seek(offset: int, origin: Origin) returns (previous: nat)
      requires Valid()
      modifies this`currentPosition
      ensures Valid() && previous == old(currentPosition)
      ensures var target := offset + match origin
          case FromStart => 0
          case FromCurrent => old(currentPosition)
          case FromEnd => nextWritePosition;
        currentPosition == if 0 <= target <= nextWritePosition then target else nextWritePosition
    {
      var newPosition: int := match origin
        case FromStart => 0
        case FromCurrent => currentPosition
        case FromEnd => nextWritePosition;
      newPosition := newPosition + offset;
      previous := currentPosition;
      currentPosition := if 0 <= newPosition <= nextWritePosition then newPosition else nextWritePosition;
    }

    /** Copies at most n bytes into a buffer, at an offset. */
    method Read(buffer: array<byte>, offset: nat, n: nat) returns (count: nat)
      requires Valid() && offset + n <= buffer.Length && buffer != memoryPool
      modifies this`currentPosition, buffer
      ensures Valid() && count == if n <= nextWritePosition - old(currentPosition) then n else nextWritePosition - old(currentPosition)
      ensures currentPosition == old(currentPosition) + count
      ensures buffer[..] == old(buffer[..])[..offset] + memoryPool[old(currentPosition)..old(currentPosition) + count]
                            + old(buffer[..])[offset + count..]
    {
      count := if n <= nextWritePosition - currentPosition then n else nextWritePosition - currentPosition;
      for i := 0 to count
        modifies buffer
        invariant forall k :: 0 <= k < buffer.Length ==>
          buffer[k] == if offset <= k < offset + i then memoryPool[currentPosition + k - offset] else old(buffer[k])
      {
        buffer[offset + i] := memoryPool[currentPosition + i];
      }
      currentPosition := currentPosition + count;
    }
  }
}
