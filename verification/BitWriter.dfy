/** The output side of the encoder: the 512-byte buffer in front of the
    stream, and the 32-bit register that collects variable-length codes. */
module BitWriter {
  import opened Bits

  /** A byte sink whose writes may fail; outcomes lists what the next writes report, later ones succeed. */
  class OutputStream {
    var data: seq<byte>
    var outcomes: seq<bool>

    constructor (outcomes: seq<bool>)
      ensures data == [] && this.outcomes == outcomes
    {
      data, this.outcomes := [], outcomes;
    }

    /** No coming write fails. */
    ghost predicate Reliable()
      reads this
    {
      forall i :: 0 <= i < |outcomes| ==> outcomes[i]
    }

    method PutBuf(bytes: seq<byte>) returns (ok: bool)
      modifies this
      ensures data == if ok then old(data) + bytes else old(data)
      ensures ok == (old(outcomes) == [] || old(outcomes)[0])
      ensures old(Reliable()) ==> ok && Reliable()
      ensures outcomes == if old(outcomes) == [] then [] else old(outcomes)[1..]
    {
      ok := true;
      if outcomes != [] {
        ok, outcomes := outcomes[0], outcomes[1..];
      }
      if ok { data := data + bytes; }
    }
  }

  const OUT_BUF_SIZE := 512

  /** The register holds n pending bits of value v just below bit 24; what lies above was already written. */
  ghost predicate Pending(register: nat, v: nat, n: nat)
  {
    n <= 24 && register < 0x1_0000_0000 && register % 0x100_0000 == Shl(v, 24 - n)
  }

  /** Or-ing in len more bits below the pending ones. */
  lemma PendingMore(register: nat, v: nat, n: nat, value: nat, len: nat)
    requires n + len <= 24 && Pending(register, v, n) && v < Pow2(n) && value < Pow2(len)
    ensures var added := Shl(value, 24 - n - len);
      added % Pow2(32) == added && Pending(BitOr(register, added), Shl(v, len) + value, n + len)
    ensures Shl(v, len) + value < Pow2(n + len)
  {
    hide Shl, BitOr;
    Pow2Values();
    var rest := 24 - n - len;
    ShlOrder(value, Pow2(len), rest);
    ShlShl(1, len, rest);
    Pow2Monotone(24 - n, 24);
    ConcatBound(v, n, value, len);
    BelowRegister(Shl(v, len) + value, n + len);
    var above, added := register / 0x100_0000, Shl(value, rest);
    assert register == above * 0x100_0000 + Shl(v, 24 - n);
    ShlConstant(above);
    ShlShl(above, n, 24 - n);
    ShlAdd(Shl(above, n), v, 24 - n);
    BitOrDisjoint(Shl(above, n) + v, added, 24 - n);
    ShlShl(v, len, rest);
    ShlAdd(Shl(v, len), value, rest);
    assert BitOr(register, added) == above * 0x100_0000 + Shl(Shl(v, len) + value, rest);
  }

  lemma ConcatBound(v: nat, n: nat, value: nat, len: nat)
    requires v < Pow2(n) && value < Pow2(len)
    ensures Shl(v, len) + value < Pow2(n + len)
  {
    hide Shl;
    ShlAdd(v, 1, len);
    ShlOrder(Pow2(n), v + 1, len);
    ShlShl(1, n, len);
  }

  lemma ShlConstant(c: nat)
    ensures Shl(c, 24) == c * 0x100_0000 && Shl(c, 16) == c * 0x1_0000 && Shl(c, 8) == c * 256
  {
    ShlFour(c, 0);
    ShlFour(c, 4);
    ShlFour(c, 8);
    ShlFour(c, 12);
    ShlFour(c, 16);
    ShlFour(c, 20);
  }

  lemma ShlFour(c: nat, n: nat)
    ensures Shl(c, n + 4) == 16 * Shl(c, n)
  {
    assert Shl(c, n + 2) == 4 * Shl(c, n);
    assert Shl(c, n + 4) == 4 * Shl(c, n + 2);
  }

  lemma BelowRegister(v: nat, n: nat)
    requires n <= 24 && v < Pow2(n)
    ensures Shl(v, 24 - n) < 0x100_0000
  {
    ShlOrder(v, Pow2(n), 24 - n);
    ShlShl(1, n, 24 - n);
    Pow2Values();
  }

  /** The byte taken from the register is the oldest eight pending bits. */
  lemma PendingByte(register: nat, hi: nat, lo: nat, n: nat)
    requires 8 <= n <= 24 && Pending(register, Shl(hi, n - 8) + lo, n) && hi < 256 && lo < Pow2(n - 8)
    ensures Shr(register, 16) % 256 == hi
    ensures Pending(Shl(register, 8) % Pow2(32), lo, n - 8)
  {
    hide Shl, Shr;
    var above, low := register / 0x100_0000, Shl(lo, 24 - n);
    ShlAdd(Shl(hi, n - 8), lo, 24 - n);
    ShlShl(hi, n - 8, 24 - n);
    ShlShl(lo, 24 - n, 8);
    ShlOrder(lo, Pow2(n - 8), 24 - n);
    ShlShl(1, n - 8, 24 - n);
    ShlConstant(low);
    ShlConstant(hi);
    ShlConstant(register);
    Pow2Values();
    assert register == above * 0x100_0000 + hi * 0x1_0000 + low;
    ShrConstant(register, above * 256 + hi, low);
    DivUnique(register * 256, 0x1_0000_0000, above, hi * 0x100_0000 + low * 256);
    DivUnique(hi * 0x100_0000 + low * 256, 0x100_0000, hi, low * 256);
    DivUnique(above * 256 + hi, 256, above, hi);
  }

  lemma ShrConstant(v: nat, q: nat, r: nat)
    requires v == q * 0x1_0000 + r && r < 0x1_0000
    ensures Shr(v, 16) == q
  {
    ShlConstant(q);
    ShlConstant(q + 1);
    ShrUnique(v, 16, q);
  }

  /** What a scan of the given bits looks like once whole bytes are written and the rest is pending. */
  ghost predicate ScanState(written: seq<byte>, register: nat, pending: nat, header: seq<byte>, bits: seq<bool>)
  {
    && pending <= |bits| && (|bits| - pending) % 8 == 0
    && Pending(register, FromBits(bits[|bits| - pending..]), pending)
    && written == header + Stuff(Pack(bits[..|bits| - pending]))
  }

  class EntropyWriter {
    const stream: OutputStream
    const outBuf: array<byte>
    var outPos: nat
    var outBufLeft: nat
    var succeeded: bool
    var bitBuffer: nat
    var bitsIn: nat
    ghost var header: seq<byte>
    ghost var bits: seq<bool>

    ghost predicate Buffered()
      reads this, outBuf, stream
    {
      outBuf.Length == OUT_BUF_SIZE && outPos + outBufLeft == OUT_BUF_SIZE && outBufLeft > 0
    }

    /** No write has failed, and none will. */
    ghost predicate Clean()
      reads this`succeeded, stream
    {
      succeeded && stream.Reliable()
    }

    /** Everything handed to the stream or still in the buffer. */
    ghost function Written(): seq<byte>
      reads this, outBuf, stream
      requires Buffered()
    {
      stream.data + outBuf[..outPos]
    }

    /** Between two calls: fewer than eight bits are pending, and unless a write
        failed everything before them is out. */
    ghost predicate Valid()
      reads this, outBuf, stream
    {
      Buffered() && bitsIn < 8 && (succeeded ==> ScanState(Written(), bitBuffer, bitsIn, header, bits))
    }

    constructor (stream: OutputStream)
      ensures this.stream == stream && fresh(outBuf) && fresh(this)
      ensures Buffered() && succeeded && Written() == stream.data
      ensures bitBuffer == 0 && bitsIn == 0
    {
      this.stream := stream;
      outBuf := new byte[OUT_BUF_SIZE];
      outPos, outBufLeft, succeeded, bitBuffer, bitsIn := 0, OUT_BUF_SIZE, true, 0, 0;
      header, bits := [], [];
    }

    method FlushOutputBuffer()
      requires outBuf.Length == OUT_BUF_SIZE && outPos + outBufLeft == OUT_BUF_SIZE
      modifies this`outPos, this`outBufLeft, this`succeeded, stream
      ensures old(Clean()) ==> Clean()
      ensures Buffered() && outPos == 0
      ensures succeeded ==> old(succeeded) && stream.data == old(stream.data) + old(outBuf[..outPos])
    {
      if outBufLeft != OUT_BUF_SIZE {
        if succeeded {
          succeeded := stream.PutBuf(outBuf[..OUT_BUF_SIZE - outBufLeft]);
        }
      }
      outPos, outBufLeft := 0, OUT_BUF_SIZE;
    }

    method EmitByte(i: byte)
      requires Buffered()
      modifies this`outPos, this`outBufLeft, this`succeeded, stream, outBuf
      ensures old(Clean()) ==> Clean()
      ensures Buffered()
      ensures succeeded ==> old(succeeded) && Written() == old(Written()) + [i]
    {
      outBuf[outPos] := i;
      outPos := outPos + 1;
      outBufLeft := outBufLeft - 1;
      ghost var filled := outBuf[..outPos];
      assert filled == old(outBuf[..outPos]) + [i];
      if outBufLeft == 0 {
        FlushOutputBuffer();
      }
    }

    method EmitBytes(s: seq<byte>)
      requires Buffered()
      modifies this`outPos, this`outBufLeft, this`succeeded, stream, outBuf
      ensures old(Clean()) ==> Clean()
      ensures Buffered()
      ensures succeeded ==> old(succeeded) && Written() == old(Written()) + s
    {
      for k := 0 to |s|
        invariant Buffered()
        invariant succeeded ==> old(succeeded) && Written() == old(Written()) + s[..k]
        invariant old(Clean()) ==> Clean()
      {
        EmitByte(s[k]);
        assert s[..k + 1] == s[..k] + [s[k]];
      }
      assert s[..|s|] == s;
    }

    method EmitStuffed(c: byte)
      requires Buffered()
      modifies this`outPos, this`outBufLeft, this`succeeded, stream, outBuf
      ensures old(Clean()) ==> Clean()
      ensures Buffered()
      ensures succeeded ==> old(succeeded) && Written() == old(Written()) + StuffByte(c)
    {
      EmitByte(c);
      if c == 0xFF {
        EmitByte(0);
      }
    }

    /** Starts the entropy-coded segment after everything written so far. */
    ghost method StartScan()
      requires Buffered() && bitBuffer == 0 && bitsIn == 0
      modifies this`header, this`bits
      ensures Valid() && bits == [] && header == Written() == old(Written())
    {
      header, bits := Written(), [];
      ShlConstant(0);
      assert Pack([]) == [] && Stuff([]) == [];
    }

    method PutBits(value: nat, len: nat)
      requires Valid() && len <= 16 && value < Pow2(len)
      modifies this`outPos, this`outBufLeft, this`succeeded, this`bitBuffer, this`bitsIn, this`bits, stream, outBuf
      ensures old(Clean()) ==> Clean()
      ensures Valid()
      ensures bits == old(bits) + ToBits(value, len)
      ensures succeeded ==> old(succeeded)
      ensures header == old(header)
    {
      hide ScanState, Shl, Shr, BitOr, ToBits, Pow2;
      ghost var before := bits;
      bitsIn := bitsIn + len;
      if succeeded {
        MoreBits(Written(), bitBuffer, bitsIn - len, header, bits, value, len);
      }
      bitBuffer := BitOr(bitBuffer, Shl(value, 24 - bitsIn) % Pow2(32));
      bits := bits + ToBits(value, len);
      while bitsIn >= 8
        invariant Buffered() && bitsIn <= 23
        invariant bits == before + ToBits(value, len)
        invariant (succeeded ==> old(succeeded)) && (old(Clean()) ==> Clean())
        invariant succeeded ==> ScanState(Written(), bitBuffer, bitsIn, header, bits)
      {
        if succeeded { ByteOut(Written(), bitBuffer, bitsIn, header, bits); }
        var c := Shr(bitBuffer, 16) % 256;
        EmitStuffed(c);
        bitBuffer := Shl(bitBuffer, 8) % Pow2(32);
        bitsIn := bitsIn - 8;
      }
    }
  }

  /** Adding bits to the register. */
  lemma MoreBits(written: seq<byte>, register: nat, pending: nat, header: seq<byte>, bits: seq<bool>, value: nat, len: nat)
    requires pending + len <= 24 && value < Pow2(len)
    requires ScanState(written, register, pending, header, bits)
    ensures var added := Shl(value, 24 - pending - len) % Pow2(32);
      ScanState(written, BitOr(register, added), pending + len, header, bits + ToBits(value, len))
  {
    hide Shl, FromBits, ToBits, BitOr, Pack, Stuff, Pow2;
    var n := |bits| - pending;
    var more := bits + ToBits(value, len);
    PendingMore(register, FromBits(bits[n..]), pending, value, len);
    FromBitsConcat(bits[n..], ToBits(value, len));
    FromToBits(value, len);
    assert more[n..] == bits[n..] + ToBits(value, len);
    assert more[..n] == bits[..n];
  }

  /** Moving the oldest eight pending bits from the register to the output. */
  lemma ByteOut(written: seq<byte>, register: nat, pending: nat, header: seq<byte>, bits: seq<bool>)
    requires 8 <= pending <= 24 && ScanState(written, register, pending, header, bits)
    ensures ScanState(written + StuffByte(Shr(register, 16) % 256), Shl(register, 8) % Pow2(32), pending - 8, header, bits)
  {
    hide Shl, Shr, FromBits, ToBits;
    var n := |bits| - pending;
    var c := Shr(register, 16) % 256;
    var first, later := bits[n..n + 8], bits[n + 8..];
    assert bits[n..] == first + later;
    FromBitsConcat(first, later);
    Pow2Values();
    PendingByte(register, FromBits(first), FromBits(later), pending);
    assert bits[..n + 8] == bits[..n] + first;
    PackConcat(bits[..n], first);
    assert first[..8] == first && first[8..] == [];
    assert Pack(first) == [c];
    StuffConcat(Pack(bits[..n]), [c]);
    assert Stuff([c]) == StuffByte(c) by { assert Stuff([]) == []; assert StuffByte(c) + [] == StuffByte(c); }
    Associative(header, Stuff(Pack(bits[..n])), StuffByte(c));
  }

  /** The data of a scan completed to whole bytes with one bits (T.81, F.1.2.3). */
  function Padded(bits: seq<bool>): (r: seq<bool>)
    ensures |r| % 8 == 0 && bits <= r && |r| < |bits| + 8
  {
    bits + seq((8 - |bits| % 8) % 8, _ => true)
  }

  /** After seven more one bits, exactly the padded data is out and no data bit is pending. */
  lemma SevenOnesPad(written: seq<byte>, register: nat, pending: nat, header: seq<byte>, bits: seq<bool>)
    requires pending < 8 && ScanState(written, register, pending, header, bits + ToBits(0x7F, 7))
    ensures written == header + Stuff(Pack(Padded(bits)))
  {
    hide Shl, FromBits, ToBits, Pack, Stuff;
    var ones := ToBits(0x7F, 7);
    Pow2Values();
    OnesBits(7);
    var n := |bits + ones| - pending;
    assert n == |Padded(bits)| by { RoundUp(|bits|, n); }
    assert (bits + ones)[..n] == Padded(bits);
  }

  lemma RoundUp(k: nat, n: nat)
    requires k <= n < k + 8 && n % 8 == 0
    ensures n == k + (8 - k % 8) % 8
  {
  }

  lemma {:induction false} OnesBits(n: nat)
    ensures ToBits(Pow2(n) - 1, n) == seq(n, _ => true)
  {
    if n > 0 {
      assert (Pow2(n) - 1) / 2 == Pow2(n - 1) - 1 && (Pow2(n) - 1) % 2 == 1;
      OnesBits(n - 1);
    }
  }
}
