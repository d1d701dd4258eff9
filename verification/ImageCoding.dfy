/** The blocks an image is coded as, in scan order. */
module ImageCoding {
  import opened Bits
  import opened BlockCoding
  import opened ImageModel
  import opened Quantize
  import Dct

  /** The quantised transform of one block of an MCU. */
  function SourceBlock(cfg: Config, rows: seq<seq<byte>>, i: nat, s: BlockSource): CodedBlock
    requires cfg.Valid() && McuLines(cfg, rows) && FitsMcu(cfg, s) && i < cfg.McusPerRow()
  {
    CodedBlock(s.comp, QuantizeBlock(Dct.Dct2D(BlockSamples(cfg, rows, i, s)), QuantTable(s.comp, cfg.quality)))
  }

  function McuBlocks(cfg: Config, rows: seq<seq<byte>>, i: nat): (r: seq<CodedBlock>)
    requires cfg.Valid() && McuLines(cfg, rows) && i < cfg.McusPerRow()
    ensures |r| == |BlockOrder(cfg.sub)|
  {
    OrderFits(cfg);
    seq(|BlockOrder(cfg.sub)|, j requires 0 <= j < |BlockOrder(cfg.sub)| => SourceBlock(cfg, rows, i, BlockOrder(cfg.sub)[j]))
  }

  /** The first i MCUs of a row. */
  function RowBlocks(cfg: Config, rows: seq<seq<byte>>, i: nat): seq<CodedBlock>
    requires cfg.Valid() && McuLines(cfg, rows) && i <= cfg.McusPerRow()
  {
    if i == 0 then [] else RowBlocks(cfg, rows, i - 1) + McuBlocks(cfg, rows, i - 1)
  }

  /** The first r MCU rows of an image. */
  function ImageBlocks(cfg: Config, lines: seq<seq<byte>>, r: nat): seq<CodedBlock>
    requires cfg.Valid() && Lines(cfg, lines) && (r > 0 ==> lines != [])
  {
    if r == 0 then []
    else ImageBlocks(cfg, lines, r - 1) + RowBlocks(cfg, McuRow(cfg, lines, r - 1), cfg.McusPerRow())
  }

  // ------------------------------------------------- every block is codable

  ghost predicate Bounded(b: CodedBlock, n: nat)
  {
    b.comp < n && |b.zz| == 64 && -1024 <= b.zz[0] <= 1016 && forall k :: 1 <= k < 64 ==> Abs(b.zz[k]) <= 1020
  }

  lemma SourceBlockBounded(cfg: Config, rows: seq<seq<byte>>, i: nat, s: BlockSource)
    requires cfg.Valid() && McuLines(cfg, rows) && FitsMcu(cfg, s) && i < cfg.McusPerRow()
    ensures Bounded(SourceBlock(cfg, rows, i, s), cfg.Components())
  {
    hide BlockSamples, Dct.Dct2D, QuantTable, QuantizeBlock, Dct.Samples;
    QuantizedInRange(Dct.Dct2D(BlockSamples(cfg, rows, i, s)), QuantTable(s.comp, cfg.quality));
  }

  lemma McuBlocksBounded(cfg: Config, rows: seq<seq<byte>>, i: nat)
    requires cfg.Valid() && McuLines(cfg, rows) && i < cfg.McusPerRow()
    ensures forall b :: b in McuBlocks(cfg, rows, i) ==> Bounded(b, cfg.Components())
  {
    hide SourceBlock, Bounded;
    OrderFits(cfg);
    forall j | 0 <= j < |BlockOrder(cfg.sub)|
      ensures Bounded(McuBlocks(cfg, rows, i)[j], cfg.Components())
    {
      SourceBlockBounded(cfg, rows, i, BlockOrder(cfg.sub)[j]);
    }
  }

  lemma {:induction false} RowBlocksBounded(cfg: Config, rows: seq<seq<byte>>, i: nat)
    requires cfg.Valid() && McuLines(cfg, rows) && i <= cfg.McusPerRow()
    ensures forall b :: b in RowBlocks(cfg, rows, i) ==> Bounded(b, cfg.Components())
  {
    hide McuBlocks, Bounded;
    if i > 0 {
      RowBlocksBounded(cfg, rows, i - 1);
      McuBlocksBounded(cfg, rows, i - 1);
    }
  }

  lemma {:induction false} ImageBlocksBounded(cfg: Config, lines: seq<seq<byte>>, r: nat)
    requires cfg.Valid() && Lines(cfg, lines) && (r > 0 ==> lines != [])
    ensures forall b :: b in ImageBlocks(cfg, lines, r) ==> Bounded(b, cfg.Components())
  {
    hide RowBlocks, Bounded;
    if r > 0 {
      ImageBlocksBounded(cfg, lines, r - 1);
      RowBlocksBounded(cfg, McuRow(cfg, lines, r - 1), cfg.McusPerRow());
    }
  }

  /** Whatever the image, every DC difference and every AC coefficient has a code. */
  lemma ImageBlocksCodable(cfg: Config, lines: seq<seq<byte>>, r: nat)
    requires cfg.Valid() && Lines(cfg, lines) && (r > 0 ==> lines != [])
    ensures CodableScan(ImageBlocks(cfg, lines, r), [0, 0, 0])
    ensures forall b :: b in ImageBlocks(cfg, lines, r) ==> b.comp < 3 && b.comp < cfg.Components() && |b.zz| == 64
  {
    hide ImageBlocks;
    ImageBlocksBounded(cfg, lines, r);
    BoundedScanCodable(ImageBlocks(cfg, lines, r), [0, 0, 0]);
  }

  // --------------------------------------------------- component sequence

  function Repeat<T>(s: seq<T>, n: nat): seq<T>
  {
    if n == 0 then [] else Repeat(s, n - 1) + s
  }

  lemma {:induction false} RepeatAdd<T>(s: seq<T>, m: nat, n: nat)
    ensures Repeat(s, m + n) == Repeat(s, m) + Repeat(s, n)
  {
    if n == 0 {
    } else {
      RepeatAdd(s, m, n - 1);
      Associative(Repeat(s, m), Repeat(s, n - 1), s);
    }
  }

  /** The components of the blocks of one MCU. */
  function McuComponents(sub: Subsampling): (r: seq<nat>)
  {
    match sub
    case YOnly => [0]
    case H1V1 => [0, 1, 2]
    case H2V1 => [0, 0, 1, 2]
    case H2V2 => [0, 0, 0, 0, 1, 2]
  }

  lemma McuBlocksComponents(cfg: Config, rows: seq<seq<byte>>, i: nat)
    requires cfg.Valid() && McuLines(cfg, rows) && i < cfg.McusPerRow()
    ensures Components(McuBlocks(cfg, rows, i)) == McuComponents(cfg.sub)
  {
    hide BlockSamples, Dct.Dct2D, QuantTable, QuantizeBlock;
  }

  lemma ComponentsConcat(a: seq<CodedBlock>, b: seq<CodedBlock>)
    ensures Components(a + b) == Components(a) + Components(b)
  {
  }

  lemma {:induction false} RowBlocksComponents(cfg: Config, rows: seq<seq<byte>>, i: nat)
    requires cfg.Valid() && McuLines(cfg, rows) && i <= cfg.McusPerRow()
    ensures Components(RowBlocks(cfg, rows, i)) == Repeat(McuComponents(cfg.sub), i)
  {
    hide McuBlocks, McuComponents;
    if i > 0 {
      RowBlocksComponents(cfg, rows, i - 1);
      McuBlocksComponents(cfg, rows, i - 1);
      ComponentsConcat(RowBlocks(cfg, rows, i - 1), McuBlocks(cfg, rows, i - 1));
    }
  }

  /** r rows of whole MCUs, and nothing else, are coded. */
  lemma {:induction false} ImageBlocksComponents(cfg: Config, lines: seq<seq<byte>>, r: nat)
    requires cfg.Valid() && Lines(cfg, lines) && (r > 0 ==> lines != [])
    ensures Components(ImageBlocks(cfg, lines, r)) == Repeat(McuComponents(cfg.sub), r * cfg.McusPerRow())
  {
    hide RowBlocks, McuComponents, McuRow;
    if r > 0 {
      var n := cfg.McusPerRow();
      var row := RowBlocks(cfg, McuRow(cfg, lines, r - 1), n);
      ImageBlocksComponents(cfg, lines, r - 1);
      RowBlocksComponents(cfg, McuRow(cfg, lines, r - 1), n);
      ComponentsConcat(ImageBlocks(cfg, lines, r - 1), row);
      RepeatAdd(McuComponents(cfg.sub), (r - 1) * n, n);
      assert (r - 1) * n + n == r * n;
    }
  }

  // ------------------------------------------- rows that are complete stay

  lemma McuRowStable(cfg: Config, lines: seq<seq<byte>>, line: seq<byte>, r: nat)
    requires cfg.Valid() && Lines(cfg, lines) && Scanline(cfg, line)
    requires (r + 1) * cfg.McuY() <= |lines|
    ensures lines != [] && McuRow(cfg, lines + [line], r) == McuRow(cfg, lines, r)
  {
    hide ExtendedLine;
    var n := cfg.McuY();
    assert (r + 1) * n == r * n + n;
    forall k | 0 <= k < n
      ensures McuRow(cfg, lines + [line], r)[k] == McuRow(cfg, lines, r)[k]
    {
      assert (lines + [line])[r * n + k] == lines[r * n + k];
    }
  }

  lemma {:induction false} ImageBlocksStable(cfg: Config, lines: seq<seq<byte>>, line: seq<byte>, r: nat)
    requires cfg.Valid() && Lines(cfg, lines) && Scanline(cfg, line)
    requires r * cfg.McuY() <= |lines|
    ensures r > 0 ==> lines != []
    ensures Lines(cfg, lines + [line]) && ImageBlocks(cfg, lines + [line], r) == ImageBlocks(cfg, lines, r)
  {
    hide RowBlocks, McuRow;
    if r > 0 {
      MulOrder(r - 1, r, cfg.McuY());
      MulOrder(1, r, cfg.McuY());
      ImageBlocksStable(cfg, lines, line, r - 1);
      McuRowStable(cfg, lines, line, r - 1);
    }
  }
}
