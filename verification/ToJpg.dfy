/** Encoding a whole image, and what a decoder recovers of it. */
module ToJpg {
  import opened Bits
  import opened BitWriter
  import opened BlockCoding
  import opened Colour
  import opened Dct
  import opened ImageCoding
  import opened ImageModel
  import opened JpegEncoder
  import opened JpegFile
  import opened JpegRoundTrip
  import opened Options
  import opened Quantize
  import opened RealDct
  import opened SharedTables

  /** The configuration the converter picks for a picture: grey pictures have
      one component, others are subsampled in both directions. */
  function ConfigFor(width: nat, height: nat, grey: bool, quality: nat): Config
  {
    Config(width, height, if grey then 1 else 3, if quality == 0 then 1 else if quality > 100 then 100 else quality,
      if grey then YOnly else H2V2)
  }

  /** Encodes a picture given as converted lines; a picture without pixels is refused. */
  method ConvertImage(stream: OutputStream, tables: Tables, width: nat, height: nat, grey: bool, quality: nat,
                      lines: seq<seq<byte>>) returns (ok: bool)
    requires width < 0x1_0000 && height < 0x1_0000
    requires |lines| == height && forall l :: l in lines ==> |l| == width * (if grey then 1 else 3)
    requires tables.Valid() && stream.data == [] && stream as object !in tables.Arrays
    modifies stream, tables, tables.Arrays
    ensures width == 0 || height == 0 ==> !ok && stream.data == []
    ensures width > 0 && height > 0 && old(stream.Reliable()) ==> ok
    ensures ok ==>
      var cfg := ConfigFor(width, height, grey, quality);
      (cfg.Valid() && Lines(cfg, lines)
      && (forall b :: b in ImageBlocks(cfg, lines, cfg.McuRows()) ==> b.comp < 3 && |b.zz| == 64)
      && (Decode(stream.data) == Some(DecodedImage(width, height, Quantisers(cfg), ImageBlocks(cfg, lines, cfg.McuRows())))))
  {
    hide ImageBlocks, FileBytes, Decode, Quantisers, Tables.Valid;
    if width < 1 || height < 1 {
      return false;
    }
    var cfg := ConfigFor(width, height, grey, quality);
    ok := EncodeImage(stream, tables, cfg, lines);
    DecodeFile(cfg, lines);
  }

  /** Feeds all scanlines of an image to an encoder and finishes it. */
  method EncodeImage(stream: OutputStream, tables: Tables, cfg: Config, lines: seq<seq<byte>>) returns (ok: bool)
    requires cfg.Valid() && Lines(cfg, lines) && |lines| == cfg.height
    requires tables.Valid() && stream.data == [] && stream as object !in tables.Arrays
    modifies stream, tables, tables.Arrays
    ensures old(stream.Reliable()) ==> ok
    ensures forall b :: b in ImageBlocks(cfg, lines, cfg.McuRows()) ==> b.comp < 3 && |b.zz| == 64
    ensures ok ==> stream.data == FileBytes(cfg, ImageBlocks(cfg, lines, cfg.McuRows()))
  {
    hide ImageBlocks, FileBytes, Tables.Valid, Encoder.Valid, Encoder.Coding, EntropyWriter.Buffered, Lines;
    ImageBlocksCodable(cfg, lines, cfg.McuRows());
    var encoder := new Encoder(stream, tables, cfg);
    ok := encoder.Open();
    if ok {
      StartsValid(encoder);
      ok := FeedLines(encoder, lines);
    }
  }

  method FeedLines(encoder: Encoder, lines: seq<seq<byte>>) returns (ok: bool)
    requires encoder.Valid() && encoder.passNum == 2 && encoder.lines == [] && Lines(encoder.cfg, lines)
    requires |lines| == encoder.cfg.height > 0
    modifies encoder, encoder.mcuLines, encoder.sampleArray, encoder.coefficientArray, encoder.lastDcVal
    modifies encoder.writer, encoder.writer.outBuf, encoder.writer.stream
    ensures old(encoder.writer.Clean()) ==> ok
    ensures forall b :: b in ImageBlocks(encoder.cfg, lines, encoder.cfg.McuRows()) ==> b.comp < 3 && |b.zz| == 64
    ensures ok ==> encoder.writer.stream.data == FileBytes(encoder.cfg, ImageBlocks(encoder.cfg, lines, encoder.cfg.McuRows()))
  {
    hide *;
    ConfigValid(encoder);
    ImageBlocksCodable(encoder.cfg, lines, encoder.cfg.McuRows());
    ok := FeedScanlines(encoder, lines);
    if ok {
      AllRowsBegun(encoder);
      ok := encoder.ProcessScanline(None);
      if ok {
        FileOf(encoder);
      }
    }
  }

  lemma FileOf(e: Encoder)
    requires e.Finished() && e.RowsBegun() == e.cfg.McuRows()
    ensures e.writer.stream.data == FileBytes(e.cfg, ImageBlocks(e.cfg, e.lines, e.cfg.McuRows()))
  {
    hide ImageBlocks, FileBytes, Encoder.RowsBegun;
  }

  method FeedScanlines(encoder: Encoder, lines: seq<seq<byte>>) returns (ok: bool)
    requires encoder.Valid() && encoder.passNum == 2 && encoder.lines == [] && Lines(encoder.cfg, lines)
    modifies encoder, encoder.mcuLines, encoder.sampleArray, encoder.coefficientArray, encoder.lastDcVal
    modifies encoder.writer, encoder.writer.outBuf, encoder.writer.stream
    ensures old(encoder.writer.Clean()) ==> ok && encoder.writer.Clean()
    ensures ok ==> encoder.Valid() && encoder.passNum == 2 && encoder.lines == lines
  {
    hide Encoder.Valid, Encoder.RowsBegun, ImageBlocks, FileBytes;
    ok := true;
    for i := 0 to |lines|
      invariant old(encoder.writer.Clean()) ==> encoder.writer.Clean()
      invariant ok && encoder.passNum == 2 && encoder.Valid() && encoder.lines == lines[..i]
    {
      ok := encoder.ProcessScanline(Some(lines[i]));
      if !ok {
        return;
      }
      assert lines[..i + 1] == lines[..i] + [lines[i]];
    }
    assert lines[..|lines|] == lines;
  }

  lemma ConfigValid(e: Encoder)
    requires e.Valid()
    ensures e.cfg.Valid()
  {
    hide Encoder.Coding, HeaderBytes, ImageBlocks;
  }

  lemma StartsValid(e: Encoder)
    requires e.Allocated() && e.Coding() && e.rowsDone == 0 && e.lines == [] && e.blocks == [] && e.mcuYOfs == 0
    requires e.writer.succeeded ==> e.writer.header == HeaderBytes(e.cfg)
    ensures e.Valid()
  {
    hide Encoder.Coding, HeaderBytes;
  }

  /** After h scanlines the MCU rows begun are exactly the ceil(h / mcu_y) rows of the image. */
  lemma AllRowsBegun(e: Encoder)
    requires e.Valid() && |e.lines| == e.cfg.height
    ensures e.RowsBegun() == e.cfg.McuRows()
  {
    hide Encoder.Coding, HeaderBytes, ImageBlocks;
    var n := e.cfg.McuY();
    if e.mcuYOfs > 0 {
      DivUnique(|e.lines| + n - 1, n, e.rowsDone + 1, e.mcuYOfs - 1);
    } else {
      DivUnique(|e.lines| + n - 1, n, e.rowsDone, n - 1);
    }
  }

  // ------------------------------------------------- which block is where

  lemma {:induction false} RowBlockAt(cfg: Config, rows: seq<seq<byte>>, n: nat, i: nat, j: nat)
    requires cfg.Valid() && McuLines(cfg, rows) && i < n <= cfg.McusPerRow() && j < |BlockOrder(cfg.sub)|
    ensures var m := |BlockOrder(cfg.sub)|;
      |RowBlocks(cfg, rows, n)| == n * m && i * m + j < n * m &&
      RowBlocks(cfg, rows, n)[i * m + j] == McuBlocks(cfg, rows, i)[j]
  {
    hide McuBlocks, BlockOrder;
    var m := |BlockOrder(cfg.sub)|;
    RowSize(cfg, rows, n - 1);
    NextMultiple(n - 1, m);
    if i == n - 1 {
    } else {
      RowBlockAt(cfg, rows, n - 1, i, j);
    }
  }

  lemma NextMultiple(n: nat, m: nat)
    ensures (n + 1) * m == n * m + m
  {
  }

  lemma {:induction false} RowSize(cfg: Config, rows: seq<seq<byte>>, n: nat)
    requires cfg.Valid() && McuLines(cfg, rows) && n <= cfg.McusPerRow()
    ensures |RowBlocks(cfg, rows, n)| == n * |BlockOrder(cfg.sub)|
  {
    hide McuBlocks, BlockOrder;
    if n > 0 {
      RowSize(cfg, rows, n - 1);
      NextMultiple(n - 1, |BlockOrder(cfg.sub)|);
    }
  }

  lemma {:induction false} ImageSize(cfg: Config, lines: seq<seq<byte>>, r: nat)
    requires cfg.Valid() && Lines(cfg, lines) && lines != []
    ensures |ImageBlocks(cfg, lines, r)| == r * (cfg.McusPerRow() * |BlockOrder(cfg.sub)|)
  {
    hide RowBlocks, BlockOrder, McuRow;
    if r > 0 {
      ImageSize(cfg, lines, r - 1);
      RowSize(cfg, McuRow(cfg, lines, r - 1), cfg.McusPerRow());
      NextMultiple(r - 1, cfg.McusPerRow() * |BlockOrder(cfg.sub)|);
    }
  }

  /** The position in the scan of block j of MCU i of MCU row r. */
  function ScanIndex(cfg: Config, r: nat, i: nat, j: nat): nat
  {
    r * (cfg.McusPerRow() * |BlockOrder(cfg.sub)|) + (i * |BlockOrder(cfg.sub)| + j)
  }

  /** That block is the one its sampling source prescribes. */
  lemma {:induction false} ImageBlockAt(cfg: Config, lines: seq<seq<byte>>, n: nat, r: nat, i: nat, j: nat)
    requires cfg.Valid() && Lines(cfg, lines) && lines != []
    requires r < n && i < cfg.McusPerRow() && j < |BlockOrder(cfg.sub)|
    ensures ScanIndex(cfg, r, i, j) < |ImageBlocks(cfg, lines, n)|
    ensures ImageBlocks(cfg, lines, n)[ScanIndex(cfg, r, i, j)] == McuBlocks(cfg, McuRow(cfg, lines, r), i)[j]
  {
    hide RowBlocks, McuBlocks, BlockOrder, McuRow;
    ImageSize(cfg, lines, n);
    ImageSize(cfg, lines, n - 1);
    RowBlockAt(cfg, McuRow(cfg, lines, n - 1), cfg.McusPerRow(), i, j);
    if r == n - 1 {
    } else {
      ImageBlockAt(cfg, lines, n - 1, r, i, j);
    }
  }

  // ------------------------------------------------------ end-to-end error

  lemma RoundedCoefficient(coefficient: int, q: nat, fdct: real)
    requires q > 0 && Near(coefficient as real, fdct, 1.0)
    ensures Near(Dequantize(QuantizeValue(coefficient, q), q) as real, fdct, 0.5 * q as real + 1.0)
  {
    hide QuantizeValue, Dequantize;
    QuantizeNearest(coefficient, q);
  }

  /** A decoder that multiplies each coefficient by its quantiser step misses the
      FDCT of the samples by at most half a step plus one. */
  ghost predicate CloseToFdct(c: Cosines, samples: seq<int>, zz: seq<int>, table: seq<byte>)
    requires |samples| == |zz| == |table| == 64
  {
    forall k :: 0 <= k < 64 ==>
      Near(Dequantize(zz[k], table[k]) as real, Fdct(c, samples, Zag(k) / 8, Zag(k) % 8), 0.5 * table[k] as real + 1.0)
  }

  lemma BlockAccuracy(c: Cosines, samples: seq<int>, table: seq<byte>)
    requires c.Valid() && Samples(samples) && |table| == 64 && forall k :: 0 <= k < 64 ==> table[k] > 0
    ensures CloseToFdct(c, samples, QuantizeBlock(Dct2D(samples), table), table)
  {
    hide Samples, Coefficient, Fdct, Dequantize, QuantizeValue, Zag, Near, Cosines.Valid;
    SampleCount(samples);
    forall k | 0 <= k < 64
      ensures Near(Dequantize(QuantizeBlock(Dct2D(samples), table)[k], table[k]) as real,
        Fdct(c, samples, Zag(k) / 8, Zag(k) % 8), 0.5 * table[k] as real + 1.0)
    {
      DctWithinOne(c, samples, Zag(k) / 8, Zag(k) % 8);
      assert Dct2D(samples)[Zag(k)] == Coefficient(samples, Zag(k) / 8, Zag(k) % 8);
      RoundedCoefficient(Dct2D(samples)[Zag(k)], table[k], Fdct(c, samples, Zag(k) / 8, Zag(k) % 8));
    }
  }

  lemma SampleCount(samples: seq<int>)
    requires Samples(samples)
    ensures |samples| == 64
  {
  }

  /** Every block of the scan is close to the FDCT of samples that are close to the luminance or colour
      difference of the picture at the places of the block. */
  lemma ImageAccuracy(c: Cosines, cfg: Config, lines: seq<seq<byte>>, r: nat, i: nat, j: nat, s: BlockSource)
    requires c.Valid() && cfg.Valid() && Lines(cfg, lines) && |lines| == cfg.height
    requires r < cfg.McuRows() && i < cfg.McusPerRow() && j < |BlockOrder(cfg.sub)| && s == BlockOrder(cfg.sub)[j]
    ensures FitsMcu(cfg, s)
    ensures ScanIndex(cfg, r, i, j) < |ImageBlocks(cfg, lines, cfg.McuRows())|
    ensures var block := ImageBlocks(cfg, lines, cfg.McuRows())[ScanIndex(cfg, r, i, j)];
      (block.comp == s.comp && |block.zz| == 64
      && CloseToFdct(c, BlockSamples(cfg, McuRow(cfg, lines, r), i, s), block.zz, QuantTable(s.comp, cfg.quality)))
    ensures forall k :: 0 <= k < 64 ==>
      Close(BlockSamples(cfg, McuRow(cfg, lines, r), i, s)[k], IdealSample(cfg, lines, r, i, s, k) - 128.0, 1.75)
  {
    hide Close, IdealSample, Cosines.Valid, ImageBlocks, McuRow, BlockSamples, CloseToFdct, QuantizeBlock, QuantTable, ScanIndex, Dct2D, Samples, McuLines;
    OrderFits(cfg);
    hide FitsMcu, BlockOrder;
    ImageBlockAt(cfg, lines, cfg.McuRows(), r, i, j);
    BlockClose(cfg, lines, r, i, s);
    BlockAccuracy(c, BlockSamples(cfg, McuRow(cfg, lines, r), i, s), QuantTable(s.comp, cfg.quality));
  }
}
