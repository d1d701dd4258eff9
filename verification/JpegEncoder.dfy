/** The encoder object: scanlines in, entropy-coded blocks out. */
module JpegEncoder {
  import opened Bits
  import opened BitWriter
  import opened BlockCoding
  import opened HuffmanCode
  import opened ImageCoding
  import opened ImageModel
  import opened JpegFile
  import opened Options
  import opened Quantize
  import opened SharedTables
  import opened StandardTables
  import Dct

  /** Writes the code of one symbol. */
  method PutSymbol(w: EntropyWriter, t: CodeTable, ghost h: HuffSpec, sym: nat)
    requires w.Valid() && Decodable(h) && t.Holds(h) && sym < 256 && HasCode(h, sym)
    modifies w, w.outBuf, w.stream
    ensures old(w.Clean()) ==> w.Clean()
    ensures w.Valid() && w.header == old(w.header) && (w.succeeded ==> old(w.succeeded))
    ensures w.bits == old(w.bits) + SymbolBits(h, sym)
  {
    hide EntropyWriter.Valid, EntropyWriter.Written, EntropyWriter.Buffered, SymbolCode, SymbolSize, Decodable, HasCode, Sizes, SizesUpTo, ScanState;
    DecodeSymbolBits(h, sym, []);
    w.PutBits(t.codes[sym], t.sizes[sym]);
  }

  /** Writes the additional bits of a coefficient: x for a positive one, x - 1 for a negative one, cut to n bits. */
  method PutMagnitude(w: EntropyWriter, x: int, n: nat)
    requires w.Valid() && n == Category(x) <= 16
    modifies w, w.outBuf, w.stream
    ensures old(w.Clean()) ==> w.Clean()
    ensures w.Valid() && w.header == old(w.header) && (w.succeeded ==> old(w.succeeded))
    ensures w.bits == old(w.bits) + MagnitudeBits(x)
  {
    hide EntropyWriter.Valid, EntropyWriter.Written, EntropyWriter.Buffered, ScanState, Category, Shl;
    MagnitudeValue(x);
    var temp := if x < 0 then x - 1 else x;
    w.PutBits(temp % Pow2(n), n);
  }

  /** Counts the bits of a magnitude. */
  method CountBits(x: int) returns (nbits: nat)
    ensures nbits == Category(x)
  {
    var temp := if x < 0 then -x else x;
    nbits := 0;
    while temp != 0
      invariant temp >= 0 && nbits + BitLength(temp) == Category(x)
      decreases temp
    {
      nbits := nbits + 1;
      temp := temp / 2;
    }
  }

  /** What coefficient i adds, by whether it is zero. */
  lemma AcStep(h: HuffSpec, zz: seq<int>, i: nat, run: nat)
    requires h.Valid() && |zz| == 64 && i < 64
    ensures zz[i] == 0 ==> AcBits(h, zz, i, run) == AcBits(h, zz, i + 1, run + 1)
    ensures zz[i] != 0 ==>
      AcBits(h, zz, i, run) == ZrlBits(h, run / 16) + RunValueBits(h, run % 16, zz[i]) + AcBits(h, zz, i + 1, 0)
  {
    hide ZrlBits, RunValueBits, Sizes, SizesUpTo;
  }

  /** Codes the AC coefficients of a block. */
  method CodeAc(w: EntropyWriter, zz: seq<int>, t: CodeTable, ghost h: HuffSpec)
    requires w.Valid() && Decodable(h) && t.Holds(h) && forall v :: AcSymbol(v) ==> HasCode(h, v)
    requires |zz| == 64 && forall k :: 1 <= k < 64 ==> Abs(zz[k]) <= 1023
    modifies w, w.outBuf, w.stream
    ensures old(w.Clean()) ==> w.Clean()
    ensures w.Valid() && w.header == old(w.header) && (w.succeeded ==> old(w.succeeded))
    ensures w.bits == old(w.bits) + AcBits(h, zz, 1, 0)
  {
    assert h.Valid() && AcSymbol(0);
    hide *;
    ghost var all := w.bits + AcBits(h, zz, 1, 0);
    var runLen := 0;
    for i := 1 to 64
      invariant w.Valid() && w.header == old(w.header) && (w.succeeded ==> old(w.succeeded))
      invariant old(w.Clean()) ==> w.Clean()
      invariant t.Holds(h)
      invariant w.bits + AcBits(h, zz, i, runLen) == all
    {
      runLen := PutCoefficient(w, zz, i, runLen, t, h);
    }
    PutBlockEnd(w, zz, runLen, t, h);
  }

  /** Trailing zeros are coded by one end-of-block symbol. */
  method PutBlockEnd(w: EntropyWriter, ghost zz: seq<int>, runLen: nat, t: CodeTable, ghost h: HuffSpec)
    requires w.Valid() && Decodable(h) && t.Holds(h) && HasCode(h, 0) && |zz| == 64
    modifies w, w.outBuf, w.stream
    ensures old(w.Clean()) ==> w.Clean()
    ensures w.Valid() && w.header == old(w.header) && (w.succeeded ==> old(w.succeeded))
    ensures w.bits == old(w.bits) + AcBits(h, zz, 64, runLen)
  {
    hide EntropyWriter.Valid, EntropyWriter.Written, EntropyWriter.Buffered, SymbolBits, Sizes, SizesUpTo;
    if runLen > 0 {
      PutSymbol(w, t, h, 0);
    }
  }

  /** A zero lengthens the run, a nonzero coefficient ends it. */
  method PutCoefficient(w: EntropyWriter, zz: seq<int>, i: nat, runLen: nat, t: CodeTable, ghost h: HuffSpec)
    returns (run: nat)
    requires w.Valid() && Decodable(h) && t.Holds(h) && forall v :: AcSymbol(v) ==> HasCode(h, v)
    requires |zz| == 64 && i < 64 && Abs(zz[i]) <= 1023
    modifies w, w.outBuf, w.stream
    ensures old(w.Clean()) ==> w.Clean()
    ensures w.Valid() && w.header == old(w.header) && (w.succeeded ==> old(w.succeeded))
    ensures w.bits + AcBits(h, zz, i + 1, run) == old(w.bits) + AcBits(h, zz, i, runLen)
  {
    assert h.Valid();
    hide *;
    AcStep(h, zz, i, runLen);
    if zz[i] == 0 {
      return runLen + 1;
    }
    run := 0;
    Regroup(w.bits, ZrlBits(h, runLen / 16), RunValueBits(h, runLen % 16, zz[i]), AcBits(h, zz, i + 1, 0));
    Associative(ZrlBits(h, runLen / 16), RunValueBits(h, runLen % 16, zz[i]), AcBits(h, zz, i + 1, 0));
    PutRunValue(w, runLen, zz[i], t, h);
  }

  /** The codes of whole runs of sixteen zeros. */
  method PutLongRuns(w: EntropyWriter, runLen: nat, t: CodeTable, ghost h: HuffSpec) returns (run: nat)
    requires w.Valid() && Decodable(h) && t.Holds(h) && HasCode(h, 0xF0)
    modifies w, w.outBuf, w.stream
    ensures old(w.Clean()) ==> w.Clean()
    ensures w.Valid() && w.header == old(w.header) && (w.succeeded ==> old(w.succeeded)) && t.Holds(h)
    ensures run == runLen % 16 && w.bits == old(w.bits) + ZrlBits(h, runLen / 16)
  {
    assert h.Valid();
    hide EntropyWriter.Valid, EntropyWriter.Written, EntropyWriter.Buffered, ScanState, SymbolBits, Decodable, HasCode, Sizes, SizesUpTo;
    run := runLen;
    while run >= 16
      invariant run <= runLen && t.Holds(h) && run % 16 == runLen % 16
      invariant w.Valid() && w.header == old(w.header) && (w.succeeded ==> old(w.succeeded))
      invariant old(w.Clean()) ==> w.Clean()
      invariant w.bits + ZrlBits(h, run / 16) == old(w.bits) + ZrlBits(h, runLen / 16)
    {
      assert run / 16 == (run - 16) / 16 + 1;
      Associative(w.bits, SymbolBits(h, 0xF0), ZrlBits(h, (run - 16) / 16));
      PutSymbol(w, t, h, 0xF0);
      run := run - 16;
    }
    assert w.bits + [] == w.bits;
  }

  /** One nonzero coefficient after runLen zeros: the runs of sixteen first. */
  method PutRunValue(w: EntropyWriter, runLen: nat, x: int, t: CodeTable, ghost h: HuffSpec)
    requires w.Valid() && Decodable(h) && t.Holds(h) && forall v :: AcSymbol(v) ==> HasCode(h, v)
    requires x != 0 && Abs(x) <= 1023
    modifies w, w.outBuf, w.stream
    ensures old(w.Clean()) ==> w.Clean()
    ensures w.Valid() && w.header == old(w.header) && (w.succeeded ==> old(w.succeeded))
    ensures w.bits == old(w.bits) + ZrlBits(h, runLen / 16) + RunValueBits(h, runLen % 16, x)
  {
    assert h.Valid();
    hide EntropyWriter.Valid, EntropyWriter.Written, EntropyWriter.Buffered;
    hide ScanState, SymbolBits, Decodable, HasCode, Sizes, SizesUpTo, Category, Shl, MagnitudeBits, ZrlBits;
    Pow2Values();
    CategoryAtMost(x, 10);
    assert AcSymbol(0xF0) && AcSymbol(runLen % 16 * 16 + Category(x));
    var run := PutLongRuns(w, runLen, t, h);
    var nbits := CountBits(x);
    var j := run * 16 + nbits;
    PutSymbol(w, t, h, j);
    PutMagnitude(w, x, nbits);
    Associative(old(w.bits) + ZrlBits(h, runLen / 16), SymbolBits(h, j), MagnitudeBits(x));
  }

  // ------------------------------------------------------ marker segments

  method EmitWord(w: EntropyWriter, n: nat)
    requires w.Buffered()
    modifies w`outPos, w`outBufLeft, w`succeeded, w.stream, w.outBuf
    ensures old(w.Clean()) ==> w.Clean()
    ensures w.Buffered() && (w.succeeded ==> old(w.succeeded) && w.Written() == old(w.Written()) + Word(n))
  {
    hide EntropyWriter.Clean, EntropyWriter.Written, EntropyWriter.Buffered;
    w.EmitByte(n / 256 % 256);
    w.EmitByte(n % 256);
  }

  method EmitMarker(w: EntropyWriter, marker: byte)
    requires w.Buffered()
    modifies w`outPos, w`outBufLeft, w`succeeded, w.stream, w.outBuf
    ensures old(w.Clean()) ==> w.Clean()
    ensures w.Buffered() && (w.succeeded ==> old(w.succeeded) && w.Written() == old(w.Written()) + [0xFF, marker])
  {
    hide EntropyWriter.Clean, EntropyWriter.Written, EntropyWriter.Buffered;
    w.EmitByte(0xFF);
    w.EmitByte(marker);
  }

  method EmitJfifApp0(w: EntropyWriter)
    requires w.Buffered()
    modifies w`outPos, w`outBufLeft, w`succeeded, w.stream, w.outBuf
    ensures old(w.Clean()) ==> w.Clean()
    ensures w.Buffered() && (w.succeeded ==> old(w.succeeded) && w.Written() == old(w.Written()) + SegmentBytes(M_APP0, JFIF))
  {
    hide EntropyWriter.Clean, EntropyWriter.Written, EntropyWriter.Buffered;
    EmitMarker(w, M_APP0);
    EmitWord(w, 2 + 4 + 1 + 2 + 1 + 2 + 2 + 1 + 1);
    w.EmitBytes(JFIF);
  }

  lemma QuantReady(tables: Tables, quality: nat)
    requires tables.Ready(quality)
    ensures 1 <= quality <= 100 && tables.quant.Length == tables.chromaQuant.Length == 64
    ensures tables.quant[..] == QuantTable(0, quality) && tables.chromaQuant[..] == QuantTable(1, quality)
    ensures tables.quant as object in tables.Arrays && tables.chromaQuant as object in tables.Arrays
  {
    hide QuantTable, Tables.HuffReady, CodeTable.Shape;
  }

  method EmitDqt(w: EntropyWriter, cfg: Config, tables: Tables)
    requires w.Buffered() && cfg.Valid() && tables.Ready(cfg.quality)
    requires w as object !in tables.Arrays && w.outBuf as object !in tables.Arrays && w.stream as object !in tables.Arrays
    modifies w`outPos, w`outBufLeft, w`succeeded, w.stream, w.outBuf
    ensures old(w.Clean()) ==> w.Clean()
    ensures w.Buffered() && (w.succeeded ==> old(w.succeeded) && w.Written() == old(w.Written()) + DqtBytes(cfg))
  {
    hide EntropyWriter.Clean, EntropyWriter.Written, EntropyWriter.Buffered, QuantTable, Tables.Ready, SegmentBytes, DqtPayload;
    QuantReady(tables, cfg.quality);
    ghost var before := w.Written();
    EmitQuantiser(w, cfg, 0, tables.quant);
    if cfg.Components() == 3 {
      EmitQuantiser(w, cfg, 1, tables.chromaQuant);
      Associative(before, SegmentBytes(M_DQT, DqtPayload(cfg, 0)), SegmentBytes(M_DQT, DqtPayload(cfg, 1)));
    } else {
      assert SegmentBytes(M_DQT, DqtPayload(cfg, 0)) + [] == SegmentBytes(M_DQT, DqtPayload(cfg, 0));
    }
  }

  method EmitQuantiser(w: EntropyWriter, cfg: Config, i: nat, quant: array<byte>)
    requires w.Buffered() && cfg.Valid() && i < 2 && quant[..] == QuantTable(i, cfg.quality) && quant != w.outBuf
    modifies w`outPos, w`outBufLeft, w`succeeded, w.stream, w.outBuf
    ensures old(w.Clean()) ==> w.Clean()
    ensures w.Buffered()
    ensures w.succeeded ==> old(w.succeeded) && w.Written() == old(w.Written()) + SegmentBytes(M_DQT, DqtPayload(cfg, i))
  {
    hide EntropyWriter.Clean, EntropyWriter.Written, EntropyWriter.Buffered, QuantTable;
    EmitMarker(w, M_DQT);
    EmitWord(w, 64 + 1 + 2);
    w.EmitByte(i);
    w.EmitBytes(quant[..]);
  }

  method EmitSof(w: EntropyWriter, cfg: Config)
    requires w.Buffered()
    modifies w`outPos, w`outBufLeft, w`succeeded, w.stream, w.outBuf
    ensures old(w.Clean()) ==> w.Clean()
    ensures w.Buffered()
    ensures w.succeeded ==> old(w.succeeded) && w.Written() == old(w.Written()) + SegmentBytes(M_SOF0, SofPayload(cfg))
  {
    hide EntropyWriter.Clean, EntropyWriter.Written, EntropyWriter.Buffered;
    ghost var before := w.Written();
    var n := cfg.Components();
    EmitMarker(w, M_SOF0);
    EmitWord(w, 3 * n + 2 + 5 + 1);
    w.EmitByte(8);
    EmitWord(w, cfg.height);
    EmitWord(w, cfg.width);
    w.EmitByte(n);
    ghost var fixed := [0xFF, M_SOF0] + Word(3 * n + 8) + ([8] + Word(cfg.height) + Word(cfg.width) + [n]);
    assert w.succeeded ==> w.Written() == before + fixed;
    hide Word;
    for i := 0 to n
      invariant w.Buffered()
      invariant w.succeeded ==> old(w.succeeded) && w.Written() == before + fixed + SofComponents(cfg, i)
      invariant old(w.Clean()) ==> w.Clean()
    {
      w.EmitBytes([i + 1, HSamp(cfg, i) * 16 + VSamp(cfg, i), QuantIndex(i)]);
      Associative(before + fixed, SofComponents(cfg, i), [i + 1, HSamp(cfg, i) * 16 + VSamp(cfg, i), QuantIndex(i)]);
    }
    assert fixed + SofComponents(cfg, n) == SegmentBytes(M_SOF0, SofPayload(cfg));
    Associative(before, fixed, SofComponents(cfg, n));
  }

  method EmitDht(w: EntropyWriter, h: HuffSpec, selector: byte)
    requires w.Buffered() && h.Valid() && |Sizes(h.bits)| == |h.vals|
    modifies w`outPos, w`outBufLeft, w`succeeded, w.stream, w.outBuf
    ensures old(w.Clean()) ==> w.Clean()
    ensures w.Buffered()
    ensures w.succeeded ==> old(w.succeeded) && w.Written() == old(w.Written()) + SegmentBytes(M_DHT, DhtPayload(h, selector))
  {
    hide EntropyWriter.Clean, EntropyWriter.Written, EntropyWriter.Buffered;
    var length: nat := 0;
    for i := 1 to 17
      invariant length == CountUpTo(h.bits, i - 1)
    {
      length := h.bits[i] as int + length;
    }
    CountIsLength(h.bits, 16);
    hide Sizes;
    ghost var before := w.Written();
    EmitMarker(w, M_DHT);
    EmitWord(w, length + 2 + 1 + 16);
    w.EmitByte(selector);
    w.EmitBytes(h.bits[1..]);
    w.EmitBytes(h.vals[..length]);
    ghost var all := [0xFF, M_DHT] + Word(length + 19) + ([selector] + h.bits[1..] + h.vals[..length]);
    assert before + [0xFF, M_DHT] + Word(length + 19) + [selector] + h.bits[1..] + h.vals[..length] == before + all;
  }

  method EmitDhts(w: EntropyWriter, cfg: Config)
    requires w.Buffered()
    modifies w`outPos, w`outBufLeft, w`succeeded, w.stream, w.outBuf
    ensures old(w.Clean()) ==> w.Clean()
    ensures w.Buffered() && (w.succeeded ==> old(w.succeeded) && w.Written() == old(w.Written()) + DhtBytes(cfg))
  {
    hide EntropyWriter.Clean, EntropyWriter.Written, EntropyWriter.Buffered, Sizes, DhtPayload, SegmentBytes;
    DcLumUsable();
    AcLumUsable();
    DcChromaUsable();
    AcChromaUsable();
    ghost var before := w.Written();
    EmitDht(w, DC_LUM, 0);
    EmitDht(w, AC_LUM, 0x10);
    if cfg.Components() == 3 {
      EmitDht(w, DC_CHROMA, 1);
      EmitDht(w, AC_CHROMA, 0x11);
      Regroup(before, SegmentBytes(M_DHT, DhtPayload(DC_LUM, 0)) + SegmentBytes(M_DHT, DhtPayload(AC_LUM, 0x10)),
        SegmentBytes(M_DHT, DhtPayload(DC_CHROMA, 1)), SegmentBytes(M_DHT, DhtPayload(AC_CHROMA, 0x11)));
    }
    ghost var luma := SegmentBytes(M_DHT, DhtPayload(DC_LUM, 0)) + SegmentBytes(M_DHT, DhtPayload(AC_LUM, 0x10));
    assert luma + [] == luma;
  }

  method EmitSos(w: EntropyWriter, cfg: Config)
    requires w.Buffered()
    modifies w`outPos, w`outBufLeft, w`succeeded, w.stream, w.outBuf
    ensures old(w.Clean()) ==> w.Clean()
    ensures w.Buffered()
    ensures w.succeeded ==> old(w.succeeded) && w.Written() == old(w.Written()) + SegmentBytes(M_SOS, SosPayload(cfg))
  {
    hide EntropyWriter.Clean, EntropyWriter.Written, EntropyWriter.Buffered;
    ghost var before := w.Written();
    var n := cfg.Components();
    EmitMarker(w, M_SOS);
    EmitWord(w, 2 * n + 2 + 1 + 3);
    w.EmitByte(n);
    ghost var fixed := [0xFF, M_SOS] + Word(2 * n + 6) + [n];
    assert w.succeeded ==> w.Written() == before + fixed;
    for i := 0 to n
      invariant w.Buffered()
      invariant w.succeeded ==> old(w.succeeded) && w.Written() == before + fixed + SosComponents(i)
      invariant old(w.Clean()) ==> w.Clean()
    {
      w.EmitByte(i + 1);
      w.EmitByte(if i == 0 then 0 else 0x11);
    }
    w.EmitBytes([0, 63, 0]);
    assert before + fixed + SosComponents(n) + [0, 63, 0] == before + SegmentBytes(M_SOS, SosPayload(cfg));
  }

  /** Everything before the frame header. */
  method EmitPreamble(w: EntropyWriter, cfg: Config, tables: Tables)
    requires w.Buffered() && cfg.Valid() && tables.Ready(cfg.quality)
    requires w as object !in tables.Arrays && w.outBuf as object !in tables.Arrays && w.stream as object !in tables.Arrays
    modifies w`outPos, w`outBufLeft, w`succeeded, w.stream, w.outBuf
    ensures old(w.Clean()) ==> w.Clean()
    ensures w.Buffered()
    ensures w.succeeded ==> old(w.succeeded)
    ensures w.succeeded ==> w.Written() == old(w.Written()) + ([0xFF, M_SOI] + SegmentBytes(M_APP0, JFIF) + DqtBytes(cfg))
  {
    hide EntropyWriter.Clean, EntropyWriter.Written, EntropyWriter.Buffered, SegmentBytes, DqtBytes, QuantTable, Tables.Ready;
    ghost var before, soi, app, dqt := w.Written(), [0xFF, M_SOI], SegmentBytes(M_APP0, JFIF), DqtBytes(cfg);
    EmitMarker(w, M_SOI);
    EmitJfifApp0(w);
    EmitDqt(w, cfg, tables);
    ThreeParts(before, soi, app, dqt);
  }

  lemma ThreeParts<T>(before: seq<T>, a: seq<T>, b: seq<T>, c: seq<T>)
    ensures before + a + b + c == before + (a + b + c)
  {
  }

  method EmitHeader(w: EntropyWriter, cfg: Config, tables: Tables)
    requires w.Buffered() && cfg.Valid() && tables.Ready(cfg.quality)
    requires w as object !in tables.Arrays && w.outBuf as object !in tables.Arrays && w.stream as object !in tables.Arrays
    modifies w`outPos, w`outBufLeft, w`succeeded, w.stream, w.outBuf
    ensures old(w.Clean()) ==> w.Clean()
    ensures w.Buffered() && (w.succeeded ==> old(w.succeeded) && w.Written() == old(w.Written()) + HeaderBytes(cfg))
  {
    hide EntropyWriter.Clean, EntropyWriter.Written, EntropyWriter.Buffered, SegmentBytes, DqtBytes, DhtBytes, SofPayload, SosPayload, QuantTable, Tables.Ready;
    ghost var before := w.Written();
    ghost var a, b, c, d := [0xFF, M_SOI] + SegmentBytes(M_APP0, JFIF) + DqtBytes(cfg),
      SegmentBytes(M_SOF0, SofPayload(cfg)), DhtBytes(cfg), SegmentBytes(M_SOS, SosPayload(cfg));
    EmitPreamble(w, cfg, tables);
    EmitSof(w, cfg);
    EmitDhts(w, cfg);
    EmitSos(w, cfg);
    FourParts(before, a, b, c, d);
  }

  lemma FourParts<T>(before: seq<T>, a: seq<T>, b: seq<T>, c: seq<T>, d: seq<T>)
    ensures before + a + b + c + d == before + (a + b + c + d)
  {
  }

  /** Codes a DC difference. */
  method CodeDc(w: EntropyWriter, t: CodeTable, ghost h: HuffSpec, diff: int)
    requires w.Valid() && Decodable(h) && t.Holds(h) && forall n :: 0 <= n <= 11 ==> HasCode(h, n)
    requires Abs(diff) <= 2047
    modifies w, w.outBuf, w.stream
    ensures old(w.Clean()) ==> w.Clean()
    ensures w.Valid() && w.header == old(w.header) && (w.succeeded ==> old(w.succeeded))
    ensures w.bits == old(w.bits) + DcBits(h, diff)
  {
    hide EntropyWriter.Valid, EntropyWriter.Written, EntropyWriter.Buffered;
    assert h.Valid();
    hide ScanState, SymbolBits, MagnitudeBits, Decodable, HasCode, Sizes, SizesUpTo, Shl, Category;
    Pow2Values();
    CategoryAtMost(diff, 11);
    var nbits := CountBits(diff);
    PutSymbol(w, t, h, nbits);
    Associative(old(w.bits), SymbolBits(h, nbits), MagnitudeBits(diff));
    if nbits != 0 {
      PutMagnitude(w, diff, nbits);
    } else {
      assert MagnitudeBits(diff) == [];
      assert w.bits + [] == w.bits;
    }
  }

  /** Codes DC difference and AC coefficients of a block. */
  method CodeBlockBits(w: EntropyWriter, dc: CodeTable, ac: CodeTable, ghost dcSpec: HuffSpec, ghost acSpec: HuffSpec,
      diff: int, zz: seq<int>)
    requires w.Valid() && Complete(dcSpec, acSpec) && dc.Holds(dcSpec) && ac.Holds(acSpec)
    requires Abs(diff) <= 2047 && |zz| == 64 && forall k :: 1 <= k < 64 ==> Abs(zz[k]) <= 1023
    modifies w, w.outBuf, w.stream
    ensures old(w.Clean()) ==> w.Clean()
    ensures w.Valid() && w.header == old(w.header) && (w.succeeded ==> old(w.succeeded))
    ensures w.bits == old(w.bits) + (DcBits(dcSpec, diff) + AcBits(acSpec, zz, 1, 0))
  {
    hide EntropyWriter.Clean, EntropyWriter.Written, EntropyWriter.Buffered, EntropyWriter.Valid, CodeTable.Holds, DcBits, AcBits, Sizes, SizesUpTo;
    CodeDc(w, dc, dcSpec, diff);
    CodeAc(w, zz, ac, acSpec);
    Associative(old(w.bits), DcBits(dcSpec, diff), AcBits(acSpec, zz, 1, 0));
  }

  lemma HoldTables(tables: Tables, quality: nat)
    requires tables.Ready(quality)
    ensures DC_LUM.Valid() && AC_LUM.Valid() && DC_CHROMA.Valid() && AC_CHROMA.Valid()
    ensures tables.dc.Holds(DC_LUM) && tables.ac.Holds(AC_LUM)
    ensures tables.chromaDc.Holds(DC_CHROMA) && tables.chromaAc.Holds(AC_CHROMA)
  {
    hide CodeTable.Holds, Sizes, SizesUpTo;
  }

  /** The same with the tables of a component. */
  method CodeComponent(w: EntropyWriter, tables: Tables, ghost quality: nat, component: nat, diff: int, zz: seq<int>)
    requires w.Valid() && tables.Ready(quality) && Complete(DcTable(component), AcTable(component))
    requires Abs(diff) <= 2047 && |zz| == 64 && forall k :: 1 <= k < 64 ==> Abs(zz[k]) <= 1023
    modifies w, w.outBuf, w.stream
    ensures old(w.Clean()) ==> w.Clean()
    ensures w.Valid() && w.header == old(w.header) && (w.succeeded ==> old(w.succeeded))
    ensures w.bits == old(w.bits) + (DcBits(DcTable(component), diff) + AcBits(AcTable(component), zz, 1, 0))
  {
    hide EntropyWriter.Clean, EntropyWriter.Written, EntropyWriter.Buffered, EntropyWriter.Valid, Tables.Ready, CodeTable.Holds, DcBits, AcBits, Complete;
    HoldTables(tables, quality);
    var dcCodes, acCodes := tables.dc, tables.ac;
    if component != 0 {
      dcCodes, acCodes := tables.chromaDc, tables.chromaAc;
    }
    CodeBlockBits(w, dcCodes, acCodes, DcTable(component), AcTable(component), diff, zz);
  }

  /** Rounded division by the quantiser step, as the encoder branches on the sign. */
  method QuantizeOne(sample: int, q: nat) returns (r: int)
    requires q > 0
    ensures r == QuantizeValue(sample, q)
  {
    var j := sample;
    if j < 0 {
      j := -j + q / 2;
      r := if j < q then 0 else -(j / q);
    } else {
      j := j + q / 2;
      r := if j < q then 0 else j / q;
    }
  }

  lemma BlockOf(c: seq<int>, table: seq<byte>, r: seq<int>)
    requires |c| == |table| == |r| == 64 && forall i :: 0 <= i < 64 ==> table[i] > 0
    requires forall k :: 0 <= k < 64 ==> r[k] == QuantizeValue(c[Zag(k)], table[k])
    ensures r == QuantizeBlock(c, table)
  {
    hide QuantizeValue, Zag;
  }

  lemma QuantiserOf(tables: Tables, quality: nat, component: nat)
    requires tables.Ready(quality)
    ensures 1 <= quality <= 100 && tables.quant.Length == tables.chromaQuant.Length == 64
    ensures var q := if component > 0 then tables.chromaQuant else tables.quant;
      forall i :: 0 <= i < 64 ==> q[i] == QuantTable(component, quality)[i]
  {
    QuantReady(tables, quality);
    QuantTableOf(component, quality);
    hide Tables.Ready, QuantTable;
    var q := if component > 0 then tables.chromaQuant else tables.quant;
    assert forall i :: 0 <= i < 64 ==> q[..][i] == q[i];
  }

  /** Both chroma components share a table. */
  lemma QuantTableOf(component: nat, quality: nat)
    requires 1 <= quality <= 100
    ensures QuantTable(component, quality) == QuantTable(if component > 0 then 1 else 0, quality)
  {
    hide QuantEntry;
  }

  /** DC predictions stay within the range of quantised DC values. */
  lemma {:induction false} PredBounded(blocks: seq<CodedBlock>, pred: seq<int>)
    requires |pred| == 3 && forall c :: 0 <= c < 3 ==> -1024 <= pred[c] <= 1016
    requires forall b :: b in blocks ==> Bounded(b, 3)
    ensures forall b :: b in blocks ==> b.comp < 3 && |b.zz| == 64
    ensures forall c :: 0 <= c < 3 ==> -1024 <= PredAfter(blocks, pred)[c] <= 1016
  {
    if blocks != [] {
      assert Bounded(blocks[0], 3);
      PredBounded(blocks[1..], pred[blocks[0].comp := blocks[0].zz[0]]);
    }
  }

  /** The bits of a scan so far and the DC predictions it leaves. */
  ghost predicate CodedAs(blocks: seq<CodedBlock>, bits: seq<bool>, last: seq<int>)
  {
    && (forall b :: b in blocks ==> Bounded(b, 3))
    && (forall b :: b in blocks ==> b.comp < 3 && |b.zz| == 64)
    && last == PredAfter(blocks, [0, 0, 0])
    && bits == ScanBits(blocks, [0, 0, 0])
  }

  lemma CodedNothing()
    ensures CodedAs([], [], [0, 0, 0])
  {
  }

  /** One more block. */
  lemma CodedMore(blocks: seq<CodedBlock>, bits: seq<bool>, last: seq<int>, b: CodedBlock)
    requires CodedAs(blocks, bits, last) && Bounded(b, 3)
    ensures b.comp < 3 && |b.zz| == 64 && |last| == 3
    ensures Abs(b.zz[0] - last[b.comp]) <= 2047 && forall k :: 1 <= k < 64 ==> Abs(b.zz[k]) <= 1023
    ensures Complete(DcTable(b.comp), AcTable(b.comp))
    ensures CodedAs(blocks + [b],
      bits + (DcBits(DcTable(b.comp), b.zz[0] - last[b.comp]) + AcBits(AcTable(b.comp), b.zz, 1, 0)), last[b.comp := b.zz[0]])
  {
    hide ScanBits, PredAfter, DcBits, AcBits, Bounded, Complete, Abs;
    TablesComplete(b.comp);
    PredBounded(blocks, [0, 0, 0]);
    BoundedParts(b, PredAfter(blocks, [0, 0, 0]));
    ScanBitsAppend(blocks, b, [0, 0, 0]);
  }

  lemma BoundedParts(b: CodedBlock, last: seq<int>)
    requires Bounded(b, 3) && |last| == 3 && forall c :: 0 <= c < 3 ==> -1024 <= last[c] <= 1016
    ensures b.comp < 3 && |b.zz| == 64
    ensures Abs(b.zz[0] - last[b.comp]) <= 2047 && forall k :: 1 <= k < 64 ==> Abs(b.zz[k]) <= 1023
  {
  }

  // ------------------------------------------ where block samples are stored

  lemma FullSample(cfg: Config, rows: seq<seq<byte>>, mcu: nat, s: BlockSource, i: nat, k: nat)
    requires McuLines(cfg, rows) && FitsMcu(cfg, s) && s.Full? && mcu < cfg.McusPerRow() && i < 8 && k < 8
    ensures var j := (mcu * cfg.McuX() + 8 * s.col + k) * cfg.Components() + s.comp;
      8 * s.row + i < cfg.McuY() && j < cfg.LineBytes() &&
      BlockSample(cfg, rows, mcu, s, 8 * i + k) == rows[8 * s.row + i][j] as int - 128
  {
    McuInRow(cfg, mcu, 8 * s.col + k);
    SampleIndex(cfg, s.comp, mcu * cfg.McuX() + (8 * s.col + k));
    assert (8 * i + k) / 8 == i && (8 * i + k) % 8 == k;
  }

  lemma FullSampleAt(cfg: Config, rows: seq<seq<byte>>, mcu: nat, s: BlockSource, x: nat, i: nat, k: nat)
    requires McuLines(cfg, rows) && FitsMcu(cfg, s) && s.Full? && mcu < cfg.McusPerRow() && i < 8 && k < 8
    requires cfg.Components() == 3 && 8 * x == mcu * cfg.McuX() + 8 * s.col
    ensures var j := 3 * (8 * x + k) + s.comp;
      8 * s.row + i < cfg.McuY() && j < cfg.LineBytes() &&
      BlockSample(cfg, rows, mcu, s, 8 * i + k) == rows[8 * s.row + i][j] as int - 128
  {
    hide BlockSample, McuLines;
    FullSample(cfg, rows, mcu, s, i, k);
  }

  lemma PairIndex(cfg: Config, mcu: nat, c: nat, k: nat)
    requires cfg.McuX() == 16 && cfg.Components() == 3 && c < 3 && mcu < cfg.McusPerRow() && k < 8
    ensures 3 * (16 * mcu + 2 * k) + c + 3 < cfg.LineBytes()
    ensures 16 * mcu + 2 * k + 1 < cfg.WidthMcu()
  {
    McuInRow(cfg, mcu, 2 * k + 1);
    SampleIndex(cfg, c, mcu * cfg.McuX() + (2 * k + 1));
  }

  lemma HalvedSample(cfg: Config, rows: seq<seq<byte>>, mcu: nat, c: nat, i: nat, k: nat)
    requires McuLines(cfg, rows) && FitsMcu(cfg, Halved(c)) && cfg.Components() == 3 && mcu < cfg.McusPerRow() && i < 8 && k < 8
    ensures var j := 3 * (16 * mcu + 2 * k) + c;
      j + 3 < cfg.LineBytes() &&
      BlockSample(cfg, rows, mcu, Halved(c), 8 * i + k) == (rows[i][j] as int + rows[i][j + 3]) / 2 - 128
  {
    PairIndex(cfg, mcu, c, k);
    assert (8 * i + k) / 8 == i && (8 * i + k) % 8 == k;
  }

  /** The rounding offsets of the lines form a checkerboard. */
  lemma Dither(i: nat, k: nat, a: int)
    requires a == if i % 2 == 0 then 0 else 2
    ensures (if k % 2 == 0 then a else 2 - a) == if (k + i) % 2 == 0 then 0 else 2
  {
  }

  lemma QuarteredSample(cfg: Config, rows: seq<seq<byte>>, mcu: nat, c: nat, i: nat, k: nat)
    requires McuLines(cfg, rows) && FitsMcu(cfg, Quartered(c)) && cfg.Components() == 3 && mcu < cfg.McusPerRow() && i < 8 && k < 8
    ensures var j := 3 * (16 * mcu + 2 * k) + c;
      j + 3 < cfg.LineBytes() &&
      BlockSample(cfg, rows, mcu, Quartered(c), 8 * i + k) ==
        (rows[2 * i][j] as int + rows[2 * i][j + 3] + rows[2 * i + 1][j] + rows[2 * i + 1][j + 3]
          + (if (k + i) % 2 == 0 then 0 else 2)) / 4 - 128
  {
    PairIndex(cfg, mcu, c, k);
    assert (8 * i + k) / 8 == i && (8 * i + k) % 8 == k;
  }

  class Encoder {
    const cfg: Config
    const writer: EntropyWriter
    const tables: Tables
    const mcuLines: array2<byte>
    const sampleArray: array<int>
    const coefficientArray: array<int>
    const lastDcVal: array<int>
    var mcuYOfs: nat
    var passNum: nat
    ghost var rowsDone: nat
    ghost var lines: seq<seq<byte>>
    ghost var blocks: seq<CodedBlock>

    /** Everything is allocated and the shared tables are for this quality. */
    ghost predicate Shape()
      reads tables, tables.Arrays
    {
      Allocated() && tables.Ready(cfg.quality)
    }

    /** The writer holds exactly the bits of the blocks coded so far. */
    ghost predicate Coding()
      reads this`blocks, tables, tables.Arrays, lastDcVal, writer, writer.outBuf, writer.stream
    {
      Shape() && writer.Valid() && CodedAs(blocks, writer.bits, lastDcVal[..])
    }

    /** The part of Shape that does not depend on the shared tables' contents. */
    ghost predicate Allocated()
    {
      && cfg.Valid() && mcuLines.Length0 == cfg.McuY() && mcuLines.Length1 == cfg.LineBytes()
      && sampleArray.Length == coefficientArray.Length == 64 && lastDcVal.Length == 3
      && sampleArray != coefficientArray && lastDcVal != sampleArray && lastDcVal != coefficientArray
      && writer as object !in tables.Arrays && writer.outBuf as object !in tables.Arrays && writer.stream as object !in tables.Arrays
      && this !in tables.Arrays && mcuLines as object !in tables.Arrays
      && sampleArray as object !in tables.Arrays && coefficientArray as object !in tables.Arrays && lastDcVal as object !in tables.Arrays
      && mcuLines as object != writer.outBuf
    }

    /** Allocates the buffers of an image. */
    constructor (stream: OutputStream, tables: Tables, cfg: Config)
      requires cfg.Valid() && tables.Valid() && stream as object !in tables.Arrays
      ensures Allocated() && this.cfg == cfg && this.tables == tables && writer.stream == stream
      ensures fresh(writer) && fresh(writer.outBuf) && fresh(mcuLines) && fresh(sampleArray)
      ensures fresh(coefficientArray) && fresh(lastDcVal)
      ensures writer.Buffered() && writer.succeeded && writer.Written() == stream.data
      ensures writer.bitBuffer == 0 && writer.bitsIn == 0
    {
      this.cfg := cfg;
      this.tables := tables;
      writer := new EntropyWriter(stream);
      mcuLines := new byte[cfg.McuY(), cfg.LineBytes()];
      sampleArray, coefficientArray := new int[64], new int[64];
      lastDcVal := new int[3];
      mcuYOfs, passNum := 0, 0;
      rowsDone, lines, blocks := 0, [], [];
    }

    /** Prepares the shared tables and clears the DC predictions; nothing is written yet. */
    method Setup()
      requires Allocated() && tables.Valid()
      modifies this, lastDcVal, tables, tables.Arrays
      ensures tables.Ready(cfg.quality) && lastDcVal[..] == [0, 0, 0]
      ensures rowsDone == 0 && lines == [] && blocks == [] && mcuYOfs == 0 && passNum == 2
    {
      hide Tables.Valid, Tables.Ready;
      mcuYOfs, passNum := 0, 2;
      rowsDone, lines, blocks := 0, [], [];
      tables.Prepare(cfg.quality);
      lastDcVal[0], lastDcVal[1], lastDcVal[2] := 0, 0, 0;
    }

    /** Writes the header, after which the scan starts. */
    method OpenScan()
      requires Allocated() && tables.Ready(cfg.quality)
      requires writer.Buffered() && writer.Written() == [] && writer.bitBuffer == 0 && writer.bitsIn == 0
      modifies writer, writer.outBuf, writer.stream
      ensures old(writer.Clean()) ==> writer.Clean()
      ensures writer.Valid() && writer.bits == [] && (writer.succeeded ==> writer.header == HeaderBytes(cfg))
    {
      hide EntropyWriter.Clean, EntropyWriter.Written, EntropyWriter.Buffered, EntropyWriter.Valid, Tables.Valid, Tables.Ready, HeaderBytes;
      EmitHeader(writer, cfg, tables);
      writer.StartScan();
      assert [] + HeaderBytes(cfg) == HeaderBytes(cfg);
    }

    /** Prepares the shared tables, writes the header and starts the scan. */
    method Open() returns (ok: bool)
      requires Allocated() && tables.Valid()
      requires writer.Buffered() && writer.succeeded && writer.Written() == [] && writer.bitBuffer == 0 && writer.bitsIn == 0
      modifies this, lastDcVal, writer, writer.outBuf, writer.stream, tables, tables.Arrays
      ensures old(writer.Clean()) ==> writer.Clean()
      ensures Coding() && rowsDone == 0 && lines == [] && blocks == [] && mcuYOfs == 0 && passNum == 2
      ensures ok == writer.succeeded && (ok ==> writer.header == HeaderBytes(cfg))
    {
      hide EntropyWriter.Clean, EntropyWriter.Written, EntropyWriter.Buffered, EntropyWriter.Valid, Tables.Valid, Tables.Ready, HeaderBytes, CodedAs;
      Setup();
      OpenScan();
      CodedNothing();
      ok := writer.succeeded;
    }

    /** Codes the block in coefficientArray: DC difference, then AC. */
    method CodeCoefficientsPassTwo(component: nat)
      requires Coding() && component < 3 && Bounded(CodedBlock(component, coefficientArray[..]), 3)
      modifies this`blocks, lastDcVal, writer, writer.outBuf, writer.stream
      ensures writer.header == old(writer.header) && (writer.succeeded ==> old(writer.succeeded))
      ensures old(writer.Clean()) ==> writer.Clean()
      ensures Coding() && blocks == old(blocks) + [CodedBlock(component, old(coefficientArray[..]))]
    {
      hide EntropyWriter.Clean, EntropyWriter.Written, EntropyWriter.Buffered, EntropyWriter.Valid, Tables.Ready;
      hide CodedAs, DcBits, AcBits, Bounded, Complete, DcTable, AcTable;
      ghost var zz, last := coefficientArray[..], lastDcVal[..];
      ghost var b := CodedBlock(component, zz);
      CodedMore(blocks, writer.bits, last, b);
      var diff := coefficientArray[0] - lastDcVal[component];
      lastDcVal[component] := coefficientArray[0];
      assert lastDcVal[..] == last[component := zz[0]];
      CodeComponent(writer, tables, cfg.quality, component, diff, coefficientArray[..]);
      blocks := blocks + [b];
    }

    /** Quantises the transformed block into zig-zag order. */
    method LoadQuantizedCoefficients(component: nat)
      requires Shape()
      modifies coefficientArray
      ensures coefficientArray[..] == QuantizeBlock(sampleArray[..], QuantTable(component, cfg.quality))
    {
      hide Tables.Ready, QuantTable, QuantizeBlock;
      var q := tables.quant;
      if component > 0 {
        q := tables.chromaQuant;
      }
      QuantiserOf(tables, cfg.quality, component);
      QuantizeWith(q, QuantTable(component, cfg.quality));
    }

    method QuantizeWith(q: array<byte>, ghost table: seq<byte>)
      requires sampleArray.Length == coefficientArray.Length == q.Length == |table| == 64 && sampleArray != coefficientArray
      requires forall i :: 0 <= i < 64 ==> q[i] == table[i] > 0
      modifies coefficientArray
      ensures coefficientArray[..] == QuantizeBlock(sampleArray[..], table)
    {
      hide QuantizeValue, Zag, QuantizeBlock;
      ghost var c := sampleArray[..];
      for i := 0 to 64
        invariant forall k :: 0 <= k < i ==> coefficientArray[k] == QuantizeValue(c[Zag(k)], table[k])
      {
        coefficientArray[i] := QuantizeOne(sampleArray[Zag(i)], q[i]);
      }
      BlockOf(c, table, coefficientArray[..]);
    }

    /** Transforms, quantises and codes the block in sampleArray. */
    method CodeBlock(component: nat)
      requires Coding() && component < cfg.Components() && Dct.Samples(sampleArray[..])
      modifies this`blocks, sampleArray, coefficientArray, lastDcVal, writer, writer.outBuf, writer.stream
      ensures writer.header == old(writer.header) && (writer.succeeded ==> old(writer.succeeded))
      ensures old(writer.Clean()) ==> writer.Clean()
      ensures Coding()
      ensures blocks == old(blocks) +
        [CodedBlock(component, QuantizeBlock(Dct.Dct2D(old(sampleArray[..])), QuantTable(component, cfg.quality)))]
    {
      hide EntropyWriter.Clean, EntropyWriter.Written, EntropyWriter.Buffered, EntropyWriter.Valid, Tables.Ready, CodedAs;
      hide QuantTable, QuantizeBlock, Dct.Dct2D, Dct.Samples;
      Dct.Dct2DInPlace(sampleArray);
      LoadQuantizedCoefficients(component);
      QuantizedInRange(sampleArray[..], QuantTable(component, cfg.quality));
      CodeCoefficientsPassTwo(component);
    }

    // ----------------------------------------------------- loading blocks

    /** The MCU buffer holds these lines. */
    ghost predicate Holding(rows: seq<seq<byte>>)
      reads mcuLines
      requires Allocated() && McuLines(cfg, rows)
    {
      forall y, j :: 0 <= y < cfg.McuY() && 0 <= j < cfg.LineBytes() ==> mcuLines[y, j] == rows[y][j]
    }

    /** The first n samples of a block are in place. */
    ghost predicate Loaded(rows: seq<seq<byte>>, mcu: nat, s: BlockSource, n: nat)
      reads sampleArray
      requires Allocated() && McuLines(cfg, rows) && FitsMcu(cfg, s) && mcu < cfg.McusPerRow() && n <= 64
    {
      forall q :: 0 <= q < n ==> sampleArray[q] == BlockSample(cfg, rows, mcu, s, q)
    }

    lemma LoadedAll(rows: seq<seq<byte>>, mcu: nat, s: BlockSource)
      requires Allocated() && McuLines(cfg, rows) && FitsMcu(cfg, s) && mcu < cfg.McusPerRow() && Loaded(rows, mcu, s, 64)
      ensures sampleArray[..] == BlockSamples(cfg, rows, mcu, s)
    {
      hide BlockSample;
    }

    /** Block x of the lines of a grey image. */
    method LoadBlock8x8Grey(x: nat, ghost rows: seq<seq<byte>>)
      requires Allocated() && McuLines(cfg, rows) && Holding(rows) && cfg.sub.YOnly? && x < cfg.McusPerRow()
      modifies sampleArray
      ensures sampleArray[..] == BlockSamples(cfg, rows, x, Full(0, 0, 0))
    {
      hide BlockSample;
      for i := 0 to 8
        invariant Loaded(rows, x, Full(0, 0, 0), 8 * i)
      {
        for k := 0 to 8
          invariant Loaded(rows, x, Full(0, 0, 0), 8 * i + k)
        {
          FullSample(cfg, rows, x, Full(0, 0, 0), i, k);
          sampleArray[8 * i + k] := mcuLines[i, 8 * x + k] as int - 128;
        }
      }
      LoadedAll(rows, x, Full(0, 0, 0));
    }

    /** Component c of the block at column x and block row y of interleaved lines. */
    method LoadBlock8x8(x: nat, y: nat, c: nat, ghost rows: seq<seq<byte>>, ghost mcu: nat, ghost column: nat)
      requires Allocated() && McuLines(cfg, rows) && Holding(rows) && cfg.Components() == 3
      requires FitsMcu(cfg, Full(c, column, y)) && mcu < cfg.McusPerRow() && 8 * x == mcu * cfg.McuX() + 8 * column
      modifies sampleArray
      ensures sampleArray[..] == BlockSamples(cfg, rows, mcu, Full(c, column, y))
    {
      hide BlockSample;
      for i := 0 to 8
        invariant Loaded(rows, mcu, Full(c, column, y), 8 * i)
      {
        for k := 0 to 8
          invariant Loaded(rows, mcu, Full(c, column, y), 8 * i + k)
        {
          FullSampleAt(cfg, rows, mcu, Full(c, column, y), x, i, k);
          sampleArray[8 * i + k] := mcuLines[8 * y + i, 3 * (8 * x + k) + c] as int - 128;
        }
      }
      LoadedAll(rows, mcu, Full(c, column, y));
    }

    /** Averages of squares of four; the rounding alternates like a chess board. */
    method LoadBlock16x8(x: nat, c: nat, ghost rows: seq<seq<byte>>)
      requires Allocated() && McuLines(cfg, rows) && Holding(rows) && cfg.Components() == 3
      requires FitsMcu(cfg, Quartered(c)) && x < cfg.McusPerRow()
      modifies sampleArray
      ensures sampleArray[..] == BlockSamples(cfg, rows, x, Quartered(c))
    {
      hide BlockSample;
      var a, b := 0, 2;
      for i := 0 to 8
        invariant Loaded(rows, x, Quartered(c), 8 * i)
        invariant a == (if i % 2 == 0 then 0 else 2) && b == 2 - a
      {
        for k := 0 to 8
          invariant Loaded(rows, x, Quartered(c), 8 * i + k)
        {
          QuarteredSample(cfg, rows, x, c, i, k);
          Dither(i, k, a);
          var j := 3 * (16 * x + 2 * k) + c;
          sampleArray[8 * i + k] := (mcuLines[2 * i, j] as int + mcuLines[2 * i, j + 3] + mcuLines[2 * i + 1, j]
            + mcuLines[2 * i + 1, j + 3] + (if k % 2 == 0 then a else b)) / 4 - 128;
        }
        a, b := b, a;
      }
      LoadedAll(rows, x, Quartered(c));
    }

    /** Averages of horizontal pairs. */
    method LoadBlock16x8x8(x: nat, c: nat, ghost rows: seq<seq<byte>>)
      requires Allocated() && McuLines(cfg, rows) && Holding(rows) && cfg.Components() == 3
      requires FitsMcu(cfg, Halved(c)) && x < cfg.McusPerRow()
      modifies sampleArray
      ensures sampleArray[..] == BlockSamples(cfg, rows, x, Halved(c))
    {
      hide BlockSample;
      for i := 0 to 8
        invariant Loaded(rows, x, Halved(c), 8 * i)
      {
        for k := 0 to 8
          invariant Loaded(rows, x, Halved(c), 8 * i + k)
        {
          HalvedSample(cfg, rows, x, c, i, k);
          var j := 3 * (16 * x + 2 * k) + c;
          sampleArray[8 * i + k] := (mcuLines[i, j] as int + mcuLines[i, j + 3]) / 2 - 128;
        }
      }
      LoadedAll(rows, x, Halved(c));
    }

    // -------------------------------------------------------------- MCU rows

    method CodeFull(x: nat, y: nat, c: nat, ghost rows: seq<seq<byte>>, ghost mcu: nat, ghost column: nat)
      requires Allocated() && Coding() && McuLines(cfg, rows) && Holding(rows) && cfg.Components() == 3
      requires FitsMcu(cfg, Full(c, column, y)) && mcu < cfg.McusPerRow() && 8 * x == mcu * cfg.McuX() + 8 * column
      modifies this`blocks, sampleArray, coefficientArray, lastDcVal, writer, writer.outBuf, writer.stream
      ensures writer.header == old(writer.header) && (writer.succeeded ==> old(writer.succeeded))
      ensures old(writer.Clean()) ==> writer.Clean()
      ensures Coding() && blocks == old(blocks) + [SourceBlock(cfg, rows, mcu, Full(c, column, y))]
    {
      hide EntropyWriter.Clean, Encoder.Coding, Encoder.Holding, BlockSamples, Dct.Samples, McuLines, QuantizeBlock, QuantTable, Dct.Dct2D;
      LoadBlock8x8(x, y, c, rows, mcu, column);
      CodeBlock(c);
    }

    method CodeQuartered(x: nat, c: nat, ghost rows: seq<seq<byte>>)
      requires Allocated() && Coding() && McuLines(cfg, rows) && Holding(rows) && cfg.Components() == 3
      requires FitsMcu(cfg, Quartered(c)) && x < cfg.McusPerRow()
      modifies this`blocks, sampleArray, coefficientArray, lastDcVal, writer, writer.outBuf, writer.stream
      ensures writer.header == old(writer.header) && (writer.succeeded ==> old(writer.succeeded))
      ensures old(writer.Clean()) ==> writer.Clean()
      ensures Coding() && blocks == old(blocks) + [SourceBlock(cfg, rows, x, Quartered(c))]
    {
      hide EntropyWriter.Clean, Encoder.Coding, Encoder.Holding, BlockSamples, Dct.Samples, McuLines, QuantizeBlock, QuantTable, Dct.Dct2D;
      LoadBlock16x8(x, c, rows);
      CodeBlock(c);
    }

    method CodeHalved(x: nat, c: nat, ghost rows: seq<seq<byte>>)
      requires Allocated() && Coding() && McuLines(cfg, rows) && Holding(rows) && cfg.Components() == 3
      requires FitsMcu(cfg, Halved(c)) && x < cfg.McusPerRow()
      modifies this`blocks, sampleArray, coefficientArray, lastDcVal, writer, writer.outBuf, writer.stream
      ensures writer.header == old(writer.header) && (writer.succeeded ==> old(writer.succeeded))
      ensures old(writer.Clean()) ==> writer.Clean()
      ensures Coding() && blocks == old(blocks) + [SourceBlock(cfg, rows, x, Halved(c))]
    {
      hide EntropyWriter.Clean, Encoder.Coding, Encoder.Holding, BlockSamples, Dct.Samples, McuLines, QuantizeBlock, QuantTable, Dct.Dct2D;
      LoadBlock16x8x8(x, c, rows);
      CodeBlock(c);
    }

    method CodeGrey(x: nat, ghost rows: seq<seq<byte>>)
      requires Allocated() && Coding() && McuLines(cfg, rows) && Holding(rows) && cfg.sub.YOnly?
      requires FitsMcu(cfg, Full(0, 0, 0)) && x < cfg.McusPerRow()
      modifies this`blocks, sampleArray, coefficientArray, lastDcVal, writer, writer.outBuf, writer.stream
      ensures writer.header == old(writer.header) && (writer.succeeded ==> old(writer.succeeded))
      ensures old(writer.Clean()) ==> writer.Clean()
      ensures Coding() && blocks == old(blocks) + [SourceBlock(cfg, rows, x, Full(0, 0, 0))]
    {
      hide EntropyWriter.Clean, Encoder.Coding, Encoder.Holding, BlockSamples, Dct.Samples, McuLines, QuantizeBlock, QuantTable, Dct.Dct2D;
      LoadBlock8x8Grey(x, rows);
      CodeBlock(0);
    }

    /** Codes the blocks of the i-th MCU in the order of the sampling mode. */
    method ProcessMcu(i: nat, ghost rows: seq<seq<byte>>)
      requires Allocated() && Coding() && McuLines(cfg, rows) && Holding(rows) && i < cfg.McusPerRow()
      modifies this`blocks, sampleArray, coefficientArray, lastDcVal, writer, writer.outBuf, writer.stream
      ensures writer.header == old(writer.header) && (writer.succeeded ==> old(writer.succeeded))
      ensures old(writer.Clean()) ==> writer.Clean()
      ensures Coding() && blocks == old(blocks) + McuBlocks(cfg, rows, i)
    {
      hide EntropyWriter.Clean, Encoder.Coding, Encoder.Holding, SourceBlock, McuBlocks;
      match cfg.sub
      case YOnly =>
        McuBlocksGrey(cfg, rows, i);
        CodeGrey(i, rows);
      case H1V1 =>
        McuBlocksH1V1(cfg, rows, i);
        CodeFull(i, 0, 0, rows, i, 0);
        CodeFull(i, 0, 1, rows, i, 0);
        CodeFull(i, 0, 2, rows, i, 0);
      case H2V1 =>
        McuBlocksH2V1(cfg, rows, i);
        CodeFull(i * 2, 0, 0, rows, i, 0);
        CodeFull(i * 2 + 1, 0, 0, rows, i, 1);
        CodeHalved(i, 1, rows);
        CodeHalved(i, 2, rows);
      case H2V2 =>
        McuBlocksH2V2(cfg, rows, i);
        CodeFull(i * 2, 0, 0, rows, i, 0);
        CodeFull(i * 2 + 1, 0, 0, rows, i, 1);
        CodeFull(i * 2, 1, 0, rows, i, 0);
        CodeFull(i * 2 + 1, 1, 0, rows, i, 1);
        CodeQuartered(i, 1, rows);
        CodeQuartered(i, 2, rows);
    }

    method ProcessMcuRow(ghost rows: seq<seq<byte>>)
      requires Allocated() && Coding() && McuLines(cfg, rows) && Holding(rows)
      modifies this`blocks, sampleArray, coefficientArray, lastDcVal, writer, writer.outBuf, writer.stream
      ensures writer.header == old(writer.header) && (writer.succeeded ==> old(writer.succeeded))
      ensures old(writer.Clean()) ==> writer.Clean()
      ensures Coding() && blocks == old(blocks) + RowBlocks(cfg, rows, cfg.McusPerRow())
    {
      hide EntropyWriter.Clean, Encoder.Coding, Encoder.Holding, McuBlocks;
      for i := 0 to cfg.McusPerRow()
        invariant Coding() && Holding(rows)
        invariant blocks == old(blocks) + RowBlocks(cfg, rows, i)
        invariant writer.header == old(writer.header) && (writer.succeeded ==> old(writer.succeeded))
        invariant old(writer.Clean()) ==> writer.Clean()
      {
        Associative(old(blocks), RowBlocks(cfg, rows, i), McuBlocks(cfg, rows, i));
        ProcessMcu(i, rows);
      }
    }

    // -------------------------------------------------------------- scanlines

    /** The lines since the last complete MCU row are in the buffer, converted and extended. */
    ghost predicate BufferedLines(n: nat)
      reads this, mcuLines
      requires Allocated() && Lines(cfg, lines) && n <= cfg.McuY() && rowsDone * cfg.McuY() + n <= |lines|
    {
      forall k, j :: 0 <= k < n && 0 <= j < cfg.LineBytes() ==>
        mcuLines[k, j] == ExtendedLine(cfg, lines[rowsDone * cfg.McuY() + k])[j]
    }

    /** Between two scanlines: all complete MCU rows are coded, the other lines are buffered. */
    ghost predicate Valid()
      reads this, mcuLines, tables, tables.Arrays, lastDcVal, writer, writer.outBuf, writer.stream
    {
      && Allocated() && Coding() && Lines(cfg, lines)
      && mcuYOfs < cfg.McuY() && |lines| == rowsDone * cfg.McuY() + mcuYOfs
      && BufferedLines(mcuYOfs) && (rowsDone > 0 ==> lines != [])
      && blocks == ImageBlocks(cfg, lines, rowsDone)
      && (writer.succeeded ==> writer.header == HeaderBytes(cfg))
    }

    /** Converts a scanline of a single-component image into buffer line n and repeats its last pixel. */
    method StoreGrey(line: seq<byte>, n: nat)
      requires Allocated() && Scanline(cfg, line) && cfg.Components() == 1 && n < cfg.McuY()
      modifies mcuLines
      ensures forall j :: 0 <= j < cfg.LineBytes() ==> mcuLines[n, j] == ExtendedByte(cfg, line, j)
      ensures forall k, j :: 0 <= k < cfg.McuY() && k != n && 0 <= j < cfg.LineBytes() ==> mcuLines[k, j] == old(mcuLines[k, j])
    {
      hide Luma, Pixel;
      WidthFits(cfg);
      for x := 0 to cfg.width
        invariant forall j :: 0 <= j < x ==> mcuLines[n, j] == ExtendedByte(cfg, line, j)
        invariant forall k, j :: 0 <= k < cfg.McuY() && k != n && 0 <= j < cfg.LineBytes() ==> mcuLines[k, j] == old(mcuLines[k, j])
      {
        GreyPixel(cfg, line, x);
        if cfg.channels == 3 {
          mcuLines[n, x] := Luma(line[3 * x], line[3 * x + 1], line[3 * x + 2]);
        } else {
          mcuLines[n, x] := line[x];
        }
      }
      for x := cfg.width to cfg.WidthMcu()
        invariant forall j :: 0 <= j < x ==> mcuLines[n, j] == ExtendedByte(cfg, line, j)
        invariant forall k, j :: 0 <= k < cfg.McuY() && k != n && 0 <= j < cfg.LineBytes() ==> mcuLines[k, j] == old(mcuLines[k, j])
      {
        mcuLines[n, x] := mcuLines[n, cfg.width - 1];
      }
    }

    /** The same for three interleaved components. */
    method StoreColour(line: seq<byte>, n: nat)
      requires Allocated() && Scanline(cfg, line) && cfg.Components() == 3 && n < cfg.McuY()
      modifies mcuLines
      ensures forall j :: 0 <= j < cfg.LineBytes() ==> mcuLines[n, j] == ExtendedByte(cfg, line, j)
      ensures forall k, j :: 0 <= k < cfg.McuY() && k != n && 0 <= j < cfg.LineBytes() ==> mcuLines[k, j] == old(mcuLines[k, j])
    {
      hide Luma, Chroma, Pixel;
      WidthFits(cfg);
      for x := 0 to cfg.width
        invariant forall j :: 0 <= j < 3 * x ==> mcuLines[n, j] == ExtendedByte(cfg, line, j)
        invariant forall k, j :: 0 <= k < cfg.McuY() && k != n && 0 <= j < cfg.LineBytes() ==> mcuLines[k, j] == old(mcuLines[k, j])
      {
        ColourPixel(cfg, line, x);
        if cfg.channels == 3 {
          var r, g, b := line[3 * x], line[3 * x + 1], line[3 * x + 2];
          mcuLines[n, 3 * x] := Luma(r, g, b);
          mcuLines[n, 3 * x + 1] := Chroma(r, g, b, CB_R, CB_G, CB_B);
          mcuLines[n, 3 * x + 2] := Chroma(r, g, b, CR_R, CR_G, CR_B);
        } else {
          mcuLines[n, 3 * x] := line[x];
          mcuLines[n, 3 * x + 1] := 128;
          mcuLines[n, 3 * x + 2] := 128;
        }
      }
      var last := 3 * (cfg.width - 1);
      var y, cb, cr := mcuLines[n, last], mcuLines[n, last + 1], mcuLines[n, last + 2];
      for x := cfg.width to cfg.WidthMcu()
        invariant forall j :: 0 <= j < 3 * x ==> mcuLines[n, j] == ExtendedByte(cfg, line, j)
        invariant forall k, j :: 0 <= k < cfg.McuY() && k != n && 0 <= j < cfg.LineBytes() ==> mcuLines[k, j] == old(mcuLines[k, j])
      {
        ColourEdge(cfg, line, x);
        mcuLines[n, 3 * x] := y;
        mcuLines[n, 3 * x + 1] := cb;
        mcuLines[n, 3 * x + 2] := cr;
      }
    }

    method StoreLine(line: seq<byte>, n: nat)
      requires Allocated() && Scanline(cfg, line) && n < cfg.McuY()
      modifies mcuLines
      ensures forall j :: 0 <= j < cfg.LineBytes() ==> mcuLines[n, j] == ExtendedLine(cfg, line)[j]
      ensures forall k, j :: 0 <= k < cfg.McuY() && k != n && 0 <= j < cfg.LineBytes() ==> mcuLines[k, j] == old(mcuLines[k, j])
    {
      hide ExtendedByte;
      if cfg.Components() == 1 {
        StoreGrey(line, n);
      } else {
        StoreColour(line, n);
      }
    }

    /** Takes one scanline; a full buffer is coded as an MCU row. */
    method LoadMcu(line: seq<byte>)
      requires Valid() && Scanline(cfg, line)
      modifies this`mcuYOfs, this`rowsDone, this`lines, this`blocks
      modifies mcuLines, sampleArray, coefficientArray, lastDcVal, writer, writer.outBuf, writer.stream
      ensures old(writer.Clean()) ==> writer.Clean()
      ensures Valid() && lines == old(lines) + [line] && (writer.succeeded ==> old(writer.succeeded))
    {
      hide EntropyWriter.Clean, Encoder.Coding, ImageBlocks, ExtendedLine, McuRow, RowBlocks, HeaderBytes;
      StoreLine(line, mcuYOfs);
      ImageBlocksStable(cfg, lines, line, rowsDone);
      lines := lines + [line];
      mcuYOfs := mcuYOfs + 1;
      assert BufferedLines(mcuYOfs);
      if mcuYOfs == cfg.McuY() {
        ghost var rows := McuRow(cfg, lines, rowsDone);
        FullBuffer(rows);
        ProcessMcuRow(rows);
        mcuYOfs := 0;
        rowsDone := rowsDone + 1;
        assert rowsDone * cfg.McuY() == (rowsDone - 1) * cfg.McuY() + cfg.McuY();
        assert blocks == ImageBlocks(cfg, lines, rowsDone) by { NextRow(cfg, lines, rowsDone); }
      }
    }

    /** A completely filled buffer holds an MCU row of the image. */
    lemma FullBuffer(rows: seq<seq<byte>>)
      requires Allocated() && Lines(cfg, lines) && |lines| == rowsDone * cfg.McuY() + cfg.McuY()
      requires BufferedLines(cfg.McuY()) && rows == McuRow(cfg, lines, rowsDone)
      ensures Holding(rows)
    {
      hide ExtendedLine;
      forall y, j | 0 <= y < cfg.McuY() && 0 <= j < cfg.LineBytes()
        ensures mcuLines[y, j] == rows[y][j]
      {
        assert rows[y] == McuRowLine(cfg, lines, rowsDone, y);
      }
    }

    /** Repeats the last buffered line to the end of the MCU. */
    method RepeatLastLine()
      requires Allocated() && Lines(cfg, lines) && 0 < mcuYOfs < cfg.McuY() && |lines| == rowsDone * cfg.McuY() + mcuYOfs
      requires BufferedLines(mcuYOfs)
      modifies mcuLines
      ensures lines != [] && Holding(McuRow(cfg, lines, rowsDone))
    {
      hide ExtendedLine;
      ghost var rows := McuRow(cfg, lines, rowsDone);
      forall y, j | 0 <= y < mcuYOfs && 0 <= j < cfg.LineBytes()
        ensures mcuLines[y, j] == rows[y][j]
      {
        assert rows[y] == McuRowLine(cfg, lines, rowsDone, y);
      }
      for i := mcuYOfs to cfg.McuY()
        invariant forall y, j :: 0 <= y < i && 0 <= j < cfg.LineBytes() ==> mcuLines[y, j] == rows[y][j]
      {
        assert rows[i] == McuRowLine(cfg, lines, rowsDone, i) == McuRowLine(cfg, lines, rowsDone, mcuYOfs - 1) == rows[mcuYOfs - 1];
        for j := 0 to cfg.LineBytes()
          invariant forall y, k :: 0 <= y < i && 0 <= k < cfg.LineBytes() ==> mcuLines[y, k] == rows[y][k]
          invariant forall k :: 0 <= k < j ==> mcuLines[i, k] == rows[i][k]
        {
          mcuLines[i, j] := mcuLines[mcuYOfs - 1, j];
        }
      }
    }

    /** The number of MCU rows the lines so far fill or begin. */
    ghost function RowsBegun(): nat
      reads this
    {
      rowsDone + if mcuYOfs > 0 then 1 else 0
    }

    /** The stream holds the file of the image made of the lines. */
    ghost predicate Finished()
      reads this, writer, writer.stream
    {
      && cfg.Valid() && Lines(cfg, lines) && (RowsBegun() > 0 ==> lines != [])
      && (forall b :: b in ImageBlocks(cfg, lines, RowsBegun()) ==> b.comp < 3 && |b.zz| == 64)
      && writer.stream.data == FileBytes(cfg, ImageBlocks(cfg, lines, RowsBegun()))
    }

    /** The first n MCU rows of the image are coded. */
    ghost predicate CodedRows(n: nat)
      reads this
    {
      cfg.Valid() && Lines(cfg, lines) && (n > 0 ==> lines != []) && blocks == ImageBlocks(cfg, lines, n)
    }

    /** Extends and codes a last partial MCU row. */
    method CodeLastRow()
      requires Valid() && mcuYOfs > 0
      modifies this`blocks, mcuLines, sampleArray, coefficientArray, lastDcVal, writer, writer.outBuf, writer.stream
      ensures writer.header == old(writer.header) && (writer.succeeded ==> old(writer.succeeded))
      ensures old(writer.Clean()) ==> writer.Clean()
      ensures Coding() && CodedRows(rowsDone + 1)
    {
      hide EntropyWriter.Clean, Encoder.Coding, Encoder.Holding, ImageBlocks, ExtendedLine, McuRow, RowBlocks, HeaderBytes;
      RepeatLastLine();
      NextRow(cfg, lines, rowsDone + 1);
      ProcessMcuRow(McuRow(cfg, lines, rowsDone));
    }

    /** Completes the image: a last partial MCU row, padding, the end marker. */
    method ProcessEndOfImage()
      requires Valid()
      modifies this`passNum, this`blocks
      modifies mcuLines, sampleArray, coefficientArray, lastDcVal, writer, writer.outBuf, writer.stream
      ensures old(writer.Clean()) ==> writer.Clean()
      ensures passNum == old(passNum) + 1 && (writer.succeeded ==> old(writer.succeeded))
      ensures writer.succeeded ==> Finished()
    {
      hide EntropyWriter.Clean, Encoder.Coding, Encoder.BufferedLines, ImageBlocks, HeaderBytes, FileBytes, Lines;
      if mcuYOfs > 0 {
        CodeLastRow();
      }
      FinishScan();
      passNum := passNum + 1;
    }

    /** Pads and ends the scan, and hands everything to the stream. */
    method FinishScan()
      requires Allocated() && Coding() && (writer.succeeded ==> writer.header == HeaderBytes(cfg))
      modifies writer, writer.outBuf, writer.stream
      ensures old(writer.Clean()) ==> writer.Clean()
      ensures writer.succeeded ==> old(writer.succeeded)
      ensures forall b :: b in blocks ==> b.comp < 3 && |b.zz| == 64
      ensures writer.succeeded ==> writer.stream.data == FileBytes(cfg, blocks)
    {
      hide HeaderBytes, Stuff, Pack, ScanBits, ToBits, Shl, ScanState, Tables.Ready;
      Pow2Values();
      assert forall b :: b in blocks ==> b.comp < 3 && |b.zz| == 64;
      writer.PutBits(0x7F, 7);
      if writer.succeeded {
        SevenOnesPad(writer.Written(), writer.bitBuffer, writer.bitsIn, writer.header, ScanBits(blocks, [0, 0, 0]));
      }
      EmitMarker(writer, M_EOI);
      writer.FlushOutputBuffer();
      if writer.succeeded {
        writer.succeeded := writer.stream.PutBuf([]);
      }
    }

    /** A scanline, or None to finish; false when a write failed or the image is finished already. */
    method ProcessScanline(scanline: Option<seq<byte>>) returns (ok: bool)
      requires 1 <= passNum <= 2 ==> Valid()
      requires scanline.Some? ==> Scanline(cfg, scanline.value)
      modifies this`mcuYOfs, this`rowsDone, this`lines, this`blocks, this`passNum
      modifies mcuLines, sampleArray, coefficientArray, lastDcVal, writer, writer.outBuf, writer.stream
      ensures old(writer.Clean()) ==> writer.Clean()
      ensures !(1 <= old(passNum) <= 2) ==> !ok && writer.stream.data == old(writer.stream.data)
      ensures 1 <= old(passNum) <= 2 && scanline.Some? ==>
        (passNum == old(passNum) && Valid() && ok == writer.succeeded
        && (lines == if old(writer.succeeded) then old(lines) + [scanline.value] else old(lines)))
      ensures 1 <= old(passNum) <= 2 && scanline.None? && ok ==>
        passNum == old(passNum) + 1 && lines == old(lines) && Finished()
      ensures scanline.None? ==> RowsBegun() == old(RowsBegun())
      ensures 1 <= old(passNum) <= 2 && ok ==> old(writer.succeeded)
      ensures 1 <= old(passNum) <= 2 && old(writer.Clean()) ==> ok
    {
      hide Encoder.Coding, Encoder.BufferedLines, Encoder.Allocated, ImageBlocks, Encoder.Finished, Lines, Scanline, HeaderBytes;
      if passNum < 1 || passNum > 2 {
        return false;
      }
      if writer.succeeded {
        match scanline
        case None => ProcessEndOfImage();
        case Some(line) => LoadMcu(line);
      }
      ok := writer.succeeded;
    }
  }

  lemma NextRow(cfg: Config, lines: seq<seq<byte>>, r: nat)
    requires cfg.Valid() && Lines(cfg, lines) && lines != [] && r > 0
    ensures ImageBlocks(cfg, lines, r) ==
      ImageBlocks(cfg, lines, r - 1) + RowBlocks(cfg, McuRow(cfg, lines, r - 1), cfg.McusPerRow())
  {
    hide RowBlocks, McuRow;
  }

  lemma WidthFits(cfg: Config)
    requires cfg.Valid()
    ensures cfg.width <= cfg.WidthMcu()
    ensures cfg.Components() == 1 ==> cfg.LineBytes() == cfg.WidthMcu()
    ensures cfg.Components() == 3 ==> cfg.LineBytes() == 3 * cfg.WidthMcu()
  {
  }

  lemma GreyPixel(cfg: Config, line: seq<byte>, x: nat)
    requires cfg.Valid() && Scanline(cfg, line) && cfg.Components() == 1 && x < cfg.width
    ensures x < |line| && (cfg.channels == 3 ==> 3 * x + 2 < |line|)
    ensures ExtendedByte(cfg, line, x) ==
      if cfg.channels == 3 then Luma(line[3 * x], line[3 * x + 1], line[3 * x + 2]) else line[x]
  {
    hide Luma;
    PixelInLine(cfg, x);
  }

  lemma ColourPixel(cfg: Config, line: seq<byte>, x: nat)
    requires cfg.Valid() && Scanline(cfg, line) && cfg.Components() == 3 && x < cfg.width
    ensures x < |line| && (cfg.channels == 3 ==> 3 * x + 2 < |line|)
    ensures ExtendedByte(cfg, line, 3 * x) ==
      if cfg.channels == 3 then Luma(line[3 * x], line[3 * x + 1], line[3 * x + 2]) else line[x]
    ensures ExtendedByte(cfg, line, 3 * x + 1) ==
      if cfg.channels == 3 then Chroma(line[3 * x], line[3 * x + 1], line[3 * x + 2], CB_R, CB_G, CB_B) else 128
    ensures ExtendedByte(cfg, line, 3 * x + 2) ==
      if cfg.channels == 3 then Chroma(line[3 * x], line[3 * x + 1], line[3 * x + 2], CR_R, CR_G, CR_B) else 128
  {
    hide Luma, Chroma;
    PixelInLine(cfg, x);
  }

  lemma ColourEdge(cfg: Config, line: seq<byte>, x: nat)
    requires cfg.Valid() && Scanline(cfg, line) && cfg.Components() == 3 && x >= cfg.width
    ensures ExtendedByte(cfg, line, 3 * x) == ExtendedByte(cfg, line, 3 * (cfg.width - 1))
    ensures ExtendedByte(cfg, line, 3 * x + 1) == ExtendedByte(cfg, line, 3 * (cfg.width - 1) + 1)
    ensures ExtendedByte(cfg, line, 3 * x + 2) == ExtendedByte(cfg, line, 3 * (cfg.width - 1) + 2)
  {
    hide Pixel;
  }

  lemma McuBlocksGrey(cfg: Config, rows: seq<seq<byte>>, i: nat)
    requires cfg.Valid() && McuLines(cfg, rows) && i < cfg.McusPerRow() && cfg.sub.YOnly?
    ensures FitsMcu(cfg, Full(0, 0, 0))
    ensures McuBlocks(cfg, rows, i) == [
      SourceBlock(cfg, rows, i, Full(0, 0, 0))]
  {
    hide SourceBlock, McuLines;
    OrderFits(cfg);
  }

  lemma McuBlocksH1V1(cfg: Config, rows: seq<seq<byte>>, i: nat)
    requires cfg.Valid() && McuLines(cfg, rows) && i < cfg.McusPerRow() && cfg.sub.H1V1?
    ensures FitsMcu(cfg, Full(0, 0, 0)) && FitsMcu(cfg, Full(1, 0, 0)) && FitsMcu(cfg, Full(2, 0, 0))
    ensures McuBlocks(cfg, rows, i) == [
      SourceBlock(cfg, rows, i, Full(0, 0, 0)),
      SourceBlock(cfg, rows, i, Full(1, 0, 0)),
      SourceBlock(cfg, rows, i, Full(2, 0, 0))]
  {
    hide SourceBlock, McuLines;
    OrderFits(cfg);
  }

  lemma McuBlocksH2V1(cfg: Config, rows: seq<seq<byte>>, i: nat)
    requires cfg.Valid() && McuLines(cfg, rows) && i < cfg.McusPerRow() && cfg.sub.H2V1?
    ensures FitsMcu(cfg, Full(0, 0, 0)) && FitsMcu(cfg, Full(0, 1, 0)) && FitsMcu(cfg, Halved(1))
    ensures FitsMcu(cfg, Halved(2))
    ensures McuBlocks(cfg, rows, i) == [
      SourceBlock(cfg, rows, i, Full(0, 0, 0)),
      SourceBlock(cfg, rows, i, Full(0, 1, 0)),
      SourceBlock(cfg, rows, i, Halved(1)),
      SourceBlock(cfg, rows, i, Halved(2))]
  {
    hide SourceBlock, McuLines;
    OrderFits(cfg);
  }

  lemma McuBlocksH2V2(cfg: Config, rows: seq<seq<byte>>, i: nat)
    requires cfg.Valid() && McuLines(cfg, rows) && i < cfg.McusPerRow() && cfg.sub.H2V2?
    ensures FitsMcu(cfg, Full(0, 0, 0)) && FitsMcu(cfg, Full(0, 1, 0)) && FitsMcu(cfg, Full(0, 0, 1))
    ensures FitsMcu(cfg, Full(0, 1, 1)) && FitsMcu(cfg, Quartered(1)) && FitsMcu(cfg, Quartered(2))
    ensures McuBlocks(cfg, rows, i) == [
      SourceBlock(cfg, rows, i, Full(0, 0, 0)),
      SourceBlock(cfg, rows, i, Full(0, 1, 0)),
      SourceBlock(cfg, rows, i, Full(0, 0, 1)),
      SourceBlock(cfg, rows, i, Full(0, 1, 1)),
      SourceBlock(cfg, rows, i, Quartered(1)),
      SourceBlock(cfg, rows, i, Quartered(2))]
  {
    hide SourceBlock, McuLines;
    OrderFits(cfg);
  }
}
