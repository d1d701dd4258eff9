/** What colour conversion and subsampling mean: luminance and colour differences of the picture, over the real numbers. */
module Colour {
  import opened Bits
  import opened ImageModel

  /** x is at most e away from y. */
  predicate Close(x: int, y: real, e: real)
  {
    -e <= x as real - y <= e
  }

  // --------------------------------------------------- one pixel (JFIF 1.02)

  function Luminance(r: byte, g: byte, b: byte): real
  {
    0.299 * r as real + 0.587 * g as real + 0.114 * b as real
  }

  function Limited(x: real): real
  {
    if x < 0.0 then 0.0 else if x > 255.0 then 255.0 else x
  }

  /** The blue difference, scaled to half a byte around 128. */
  function BlueDifference(r: byte, g: byte, b: byte): real
  {
    Limited(128.0 + (b as real - Luminance(r, g, b)) / 1.772)
  }

  function RedDifference(r: byte, g: byte, b: byte): real
  {
    Limited(128.0 + (r as real - Luminance(r, g, b)) / 1.402)
  }

  lemma QuotientClose(x: int, q: int)
    requires q == (x + 32768) / 65536
    ensures -32768.0 <= 65536.0 * q as real - x as real <= 32768.0
  {
    DivBounds(x + 32768, 65536);
  }

  lemma LumaClose(r: byte, g: byte, b: byte)
    ensures Close(Luma(r, g, b), Luminance(r, g, b), 1.0)
  {
    QuotientClose(r as int * YR + g as int * YG + b as int * YB, Luma(r, g, b));
  }

  lemma LimitedClose(x: int, y: real)
    requires Close(x, y, 1.0)
    ensures Close(Clamp(x), Limited(y), 1.0)
  {
  }

  lemma BlueClose(r: byte, g: byte, b: byte)
    ensures Close(Chroma(r, g, b, CB_R, CB_G, CB_B), BlueDifference(r, g, b), 1.0)
  {
    var x := r as int * CB_R + g as int * CB_G + b as int * CB_B;
    var q := (x + 32768) / 65536;
    QuotientClose(x, q);
    LimitedClose(128 + q, 128.0 + (b as real - Luminance(r, g, b)) / 1.772);
  }

  lemma RedClose(r: byte, g: byte, b: byte)
    ensures Close(Chroma(r, g, b, CR_R, CR_G, CR_B), RedDifference(r, g, b), 1.0)
  {
    var x := r as int * CR_R + g as int * CR_G + b as int * CR_B;
    var q := (x + 32768) / 65536;
    QuotientClose(x, q);
    LimitedClose(128 + q, 128.0 + (r as real - Luminance(r, g, b)) / 1.402);
  }

  /** Grey stays grey. */
  lemma GreyStaysGrey(v: byte)
    ensures Luma(v, v, v) == v
    ensures Chroma(v, v, v, CB_R, CB_G, CB_B) == 128 && Chroma(v, v, v, CR_R, CR_G, CR_B) == 128
  {
    DivUnique(v as int * 65536 + 32768, 65536, v, 32768);
  }

  // ------------------------------------------------- samples of the picture

  /** Component c of pixel x of a scanline: of three bytes red, green and blue; otherwise the first byte is grey. */
  function Ideal(cfg: Config, line: seq<byte>, x: nat, c: nat): real
    requires cfg.Valid() && Scanline(cfg, line) && x < cfg.width && c < 3
  {
    PixelInLine(cfg, x);
    if cfg.channels == 3 then
      var r, g, b := line[3 * x], line[3 * x + 1], line[3 * x + 2];
      if c == 0 then Luminance(r, g, b) else if c == 1 then BlueDifference(r, g, b) else RedDifference(r, g, b)
    else if c == 0 then line[x] as real else 128.0
  }

  lemma PixelClose(cfg: Config, line: seq<byte>, x: nat, c: nat)
    requires cfg.Valid() && Scanline(cfg, line) && x < cfg.width && c < cfg.Components()
    ensures Close(Pixel(cfg, line, x, c), Ideal(cfg, line, x, c), 1.0)
  {
    hide Luma, Chroma, Luminance, BlueDifference, RedDifference;
    PixelInLine(cfg, x);
    if cfg.channels == 3 {
      var r, g, b := line[3 * x], line[3 * x + 1], line[3 * x + 2];
      LumaClose(r, g, b);
      BlueClose(r, g, b);
      RedClose(r, g, b);
    }
  }

  /** A grey pixel is coded as it is, with neutral colour differences. */
  lemma GreyPixels(cfg: Config, line: seq<byte>, x: nat, c: nat)
    requires cfg.Valid() && Scanline(cfg, line) && x < cfg.width && c < cfg.Components() && cfg.channels == 3
    requires 3 * x + 2 < |line| && line[3 * x] == line[3 * x + 1] == line[3 * x + 2]
    ensures Pixel(cfg, line, x, c) == if c == 0 then line[3 * x] else 128
  {
    hide Luma, Chroma;
    GreyStaysGrey(line[3 * x]);
  }

  /** The picture at any place: beyond the right and lower edges its last pixels go on. */
  function IdealAt(cfg: Config, lines: seq<seq<byte>>, y: nat, x: nat, c: nat): real
    requires cfg.Valid() && Lines(cfg, lines) && lines != [] && c < 3
  {
    Ideal(cfg, lines[if y < |lines| then y else |lines| - 1], if x < cfg.width then x else cfg.width - 1, c)
  }

  /** Every sample of an MCU row is the luminance or colour difference of the picture at its place. */
  lemma RowSampleClose(cfg: Config, lines: seq<seq<byte>>, r: nat, c: nat, y: nat, x: nat)
    requires cfg.Valid() && Lines(cfg, lines) && lines != []
    requires c < cfg.Components() && y < cfg.McuY() && x < cfg.WidthMcu()
    ensures Close(SampleAt(cfg, McuRow(cfg, lines, r), c, y, x), IdealAt(cfg, lines, r * cfg.McuY() + y, x, c), 1.0)
  {
    hide Pixel, Ideal, McuRow;
    McuRowSample(cfg, lines, r, c, y, x);
    PixelClose(cfg, lines[Min(r * cfg.McuY() + y, |lines| - 1)], Min(x, cfg.width - 1), c);
  }

  // ------------------------------------------------------- samples of a block

  /** What sample k of a block of MCU i of MCU row r stands for: one place of the picture, or the mean of two or four. */
  function IdealSample(cfg: Config, lines: seq<seq<byte>>, r: nat, i: nat, s: BlockSource, k: nat): real
    requires cfg.Valid() && Lines(cfg, lines) && lines != [] && s.comp < 3
  {
    var y, x := r * cfg.McuY(), i * cfg.McuX();
    match s
    case Full(c, col, row) => IdealAt(cfg, lines, y + (8 * row + k / 8), x + (8 * col + k % 8), c)
    case Halved(c) =>
      var x0 := x + 2 * (k % 8);
      (IdealAt(cfg, lines, y + k / 8, x0, c) + IdealAt(cfg, lines, y + k / 8, x0 + 1, c)) / 2.0
    case Quartered(c) =>
      var y0, x0 := y + 2 * (k / 8), x + 2 * (k % 8);
      (IdealAt(cfg, lines, y0, x0, c) + IdealAt(cfg, lines, y0, x0 + 1, c)
       + IdealAt(cfg, lines, y0 + 1, x0, c) + IdealAt(cfg, lines, y0 + 1, x0 + 1, c)) / 4.0
  }

  /** Every sample that is transformed is within 1.75 of what it stands for, less 128. */
  lemma BlockSampleClose(cfg: Config, lines: seq<seq<byte>>, r: nat, i: nat, s: BlockSource, k: nat)
    requires cfg.Valid() && Lines(cfg, lines) && lines != [] && i < cfg.McusPerRow() && FitsMcu(cfg, s) && k < 64
    ensures Close(BlockSample(cfg, McuRow(cfg, lines, r), i, s, k), IdealSample(cfg, lines, r, i, s, k) - 128.0, 1.75)
  {
    hide SampleAt, McuRow, IdealAt, McuLines;
    var y, x, x0 := k / 8, k % 8, i * cfg.McuX();
    match s
    case Full(c, col, row) =>
      McuInRow(cfg, i, 8 * col + x);
      RowSampleClose(cfg, lines, r, c, 8 * row + y, x0 + (8 * col + x));
    case Halved(c) =>
      McuInRow(cfg, i, 2 * x);
      McuInRow(cfg, i, 2 * x + 1);
      RowSampleClose(cfg, lines, r, c, y, x0 + 2 * x);
      RowSampleClose(cfg, lines, r, c, y, x0 + (2 * x + 1));
    case Quartered(c) =>
      McuInRow(cfg, i, 2 * x);
      McuInRow(cfg, i, 2 * x + 1);
      RowSampleClose(cfg, lines, r, c, 2 * y, x0 + 2 * x);
      RowSampleClose(cfg, lines, r, c, 2 * y, x0 + (2 * x + 1));
      RowSampleClose(cfg, lines, r, c, 2 * y + 1, x0 + 2 * x);
      RowSampleClose(cfg, lines, r, c, 2 * y + 1, x0 + (2 * x + 1));
  }

  /** The stored bytes of a scanline: its pixels converted, the last one repeated. */
  lemma LineClose(cfg: Config, line: seq<byte>, x: nat, c: nat)
    requires cfg.Valid() && Scanline(cfg, line) && x < cfg.WidthMcu() && c < cfg.Components()
    ensures x * cfg.Components() + c < cfg.LineBytes()
    ensures Close(ExtendedLine(cfg, line)[x * cfg.Components() + c], Ideal(cfg, line, if x < cfg.width then x else cfg.width - 1, c), 1.0)
  {
    hide Pixel, Ideal, ExtendedLine;
    ExtendedPixel(cfg, line, x, c);
    PixelClose(cfg, line, Min(x, cfg.width - 1), c);
  }

  /** All samples of a block. */
  lemma BlockClose(cfg: Config, lines: seq<seq<byte>>, r: nat, i: nat, s: BlockSource)
    requires cfg.Valid() && Lines(cfg, lines) && lines != [] && i < cfg.McusPerRow() && FitsMcu(cfg, s)
    ensures forall k :: 0 <= k < 64 ==>
      Close(BlockSamples(cfg, McuRow(cfg, lines, r), i, s)[k], IdealSample(cfg, lines, r, i, s, k) - 128.0, 1.75)
  {
    hide McuRow, BlockSample, IdealSample, Close, McuLines;
    forall k | 0 <= k < 64
      ensures Close(BlockSamples(cfg, McuRow(cfg, lines, r), i, s)[k], IdealSample(cfg, lines, r, i, s, k) - 128.0, 1.75)
    {
      BlockSampleClose(cfg, lines, r, i, s, k);
    }
  }
}
