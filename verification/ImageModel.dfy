/** What the encoder codes of an image: colour conversion, edge extension,
    and the order and sampling of blocks (T.81, A.2). */
module ImageModel {
  import opened Bits
  import Dct

  datatype Subsampling = YOnly | H1V1 | H2V1 | H2V2

  /** Image geometry and compression parameters; channels is the number of bytes per source pixel. */
  datatype Config = Config(width: nat, height: nat, channels: nat, quality: nat, sub: Subsampling) {
    predicate Valid() {
      width >= 1 && height >= 1 && (channels == 1 || channels == 3 || channels == 4) && 1 <= quality <= 100
    }

    function Components(): (n: nat)
      ensures n == 1 || n == 3
    {
      if sub.YOnly? then 1 else 3
    }

    function McuX(): (n: nat)
      ensures n == 8 || n == 16
    {
      if sub.H2V1? || sub.H2V2? then 16 else 8
    }

    function McuY(): (n: nat)
      ensures n == 8 || n == 16
    {
      if sub.H2V2? then 16 else 8
    }

    function McusPerRow(): nat {
      (width + McuX() - 1) / McuX()
    }

    function McuRows(): nat {
      (height + McuY() - 1) / McuY()
    }

    /** Line width rounded up to whole MCUs, in pixels. */
    function WidthMcu(): nat {
      McusPerRow() * McuX()
    }

    /** Bytes of one converted line. */
    function LineBytes(): nat {
      WidthMcu() * Components()
    }
  }

  // ---------------------------------------------------- colour conversion

  const YR := 19595
  const YG := 38470
  const YB := 7471
  const CB_R := -11059
  const CB_G := -21709
  const CB_B := 32768
  const CR_R := 32768
  const CR_G := -27439
  const CR_B := -5329

  function Clamp(i: int): byte
  {
    if i < 0 then 0 else if i > 255 then 255 else i
  }

  function Luma(r: byte, g: byte, b: byte): byte
  {
    (r as int * YR + g as int * YG + b as int * YB + 32768) / 65536
  }

  function Chroma(r: byte, g: byte, b: byte, fr: int, fg: int, fb: int): byte
  {
    Clamp(128 + (r as int * fr + g as int * fg + b as int * fb + 32768) / 65536)
  }

  /** A scanline as the caller passes it. */
  predicate Scanline(cfg: Config, line: seq<byte>)
  {
    |line| == cfg.width * cfg.channels
  }

  /** Component c of pixel x of a scanline. Sources that are not RGB carry luminance in their first bytes. */
  function Pixel(cfg: Config, line: seq<byte>, x: nat, c: nat): byte
    requires cfg.Valid() && Scanline(cfg, line) && x < cfg.width && c < cfg.Components()
  {
    PixelInLine(cfg, x);
    if cfg.channels == 3 then
      var r, g, b := line[3 * x], line[3 * x + 1], line[3 * x + 2];
      if c == 0 then Luma(r, g, b)
      else if c == 1 then Chroma(r, g, b, CB_R, CB_G, CB_B)
      else Chroma(r, g, b, CR_R, CR_G, CR_B)
    else if c == 0 then line[x] else 128
  }

  lemma PixelInLine(cfg: Config, x: nat)
    requires cfg.Valid() && x < cfg.width
    ensures x < cfg.width * cfg.channels
    ensures cfg.channels == 3 ==> 3 * x + 2 < cfg.width * cfg.channels
  {
    MulOrder(1, cfg.channels, cfg.width);
  }

  /** A scanline converted and extended to whole MCUs by repeating its last pixel. */
  function ExtendedLine(cfg: Config, line: seq<byte>): (r: seq<byte>)
    requires cfg.Valid() && Scanline(cfg, line)
    ensures |r| == cfg.LineBytes()
  {
    seq(cfg.LineBytes(), j requires 0 <= j < cfg.LineBytes() => ExtendedByte(cfg, line, j))
  }

  function Min(a: int, b: int): int
  {
    if a < b then a else b
  }

  function ExtendedByte(cfg: Config, line: seq<byte>, j: nat): byte
    requires cfg.Valid() && Scanline(cfg, line)
  {
    Pixel(cfg, line, Min(j / cfg.Components(), cfg.width - 1), j % cfg.Components())
  }

  // ------------------------------------------------------------- MCU rows

  /** The lines of one MCU row: converted, extended, all of the same length. */
  ghost predicate McuLines(cfg: Config, rows: seq<seq<byte>>)
  {
    |rows| == cfg.McuY() && forall i :: 0 <= i < |rows| ==> |rows[i]| == cfg.LineBytes()
  }

  /** The sample of component c at (x, y) of an MCU row. */
  function SampleAt(cfg: Config, rows: seq<seq<byte>>, c: nat, y: nat, x: nat): byte
    requires McuLines(cfg, rows) && c < cfg.Components() && y < cfg.McuY() && x < cfg.WidthMcu()
  {
    SampleIndex(cfg, c, x);
    rows[y][x * cfg.Components() + c]
  }

  lemma SampleIndex(cfg: Config, c: nat, x: nat)
    requires c < cfg.Components() && x < cfg.WidthMcu()
    ensures x * cfg.Components() + c < cfg.LineBytes()
  {
  }

  lemma McuInRow(cfg: Config, i: nat, d: nat)
    requires i < cfg.McusPerRow() && d < cfg.McuX()
    ensures i * cfg.McuX() + d < cfg.WidthMcu()
  {
    MulOrder(i + 1, cfg.McusPerRow(), cfg.McuX());
  }

  /** What a block takes from an MCU. */
  datatype BlockSource =
    | Full(comp: nat, col: nat, row: nat)  // 8 by 8 samples, at this block position of the MCU
    | Halved(comp: nat)                  // averages of horizontal pairs
    | Quartered(comp: nat)               // averages of squares of four, with alternating rounding

  /** The blocks of an MCU in coding order (T.81, A.2.3). */
  function BlockOrder(sub: Subsampling): seq<BlockSource>
  {
    match sub
    case YOnly => [Full(0, 0, 0)]
    case H1V1 => [Full(0, 0, 0), Full(1, 0, 0), Full(2, 0, 0)]
    case H2V1 => [Full(0, 0, 0), Full(0, 1, 0), Halved(1), Halved(2)]
    case H2V2 => [Full(0, 0, 0), Full(0, 1, 0), Full(0, 0, 1), Full(0, 1, 1), Quartered(1), Quartered(2)]
  }

  /** A source that lies inside the MCUs of a configuration. */
  predicate FitsMcu(cfg: Config, s: BlockSource)
  {
    && s.comp < cfg.Components()
    && (s.Full? ==> 8 * s.col + 8 <= cfg.McuX() && 8 * s.row + 8 <= cfg.McuY())
    && (s.Halved? ==> cfg.McuX() == 16)
    && (s.Quartered? ==> cfg.McuX() == 16 && cfg.McuY() == 16)
  }

  lemma OrderFits(cfg: Config)
    ensures forall s :: s in BlockOrder(cfg.sub) ==> FitsMcu(cfg, s)
  {
  }

  /** Sample k of the block that source s takes from the i-th MCU, shifted to be centred on zero. */
  function BlockSample(cfg: Config, rows: seq<seq<byte>>, i: nat, s: BlockSource, k: nat): (r: int)
    requires McuLines(cfg, rows) && FitsMcu(cfg, s) && i < cfg.McusPerRow() && k < 64
    ensures -128 <= r <= 127
  {
    var y, x, x0 := k / 8, k % 8, i * cfg.McuX();
    match s
    case Full(c, col, row) =>
      McuInRow(cfg, i, 8 * col + x);
      SampleAt(cfg, rows, c, 8 * row + y, x0 + (8 * col + x)) - 128
    case Halved(c) =>
      McuInRow(cfg, i, 2 * x);
      McuInRow(cfg, i, 2 * x + 1);
      (SampleAt(cfg, rows, c, y, x0 + 2 * x) as int + SampleAt(cfg, rows, c, y, x0 + (2 * x + 1))) / 2 - 128
    case Quartered(c) =>
      McuInRow(cfg, i, 2 * x);
      McuInRow(cfg, i, 2 * x + 1);
      var bias := if (x + y) % 2 == 0 then 0 else 2;
      (SampleAt(cfg, rows, c, 2 * y, x0 + 2 * x) as int + SampleAt(cfg, rows, c, 2 * y, x0 + (2 * x + 1))
        + SampleAt(cfg, rows, c, 2 * y + 1, x0 + 2 * x) + SampleAt(cfg, rows, c, 2 * y + 1, x0 + (2 * x + 1)) + bias) / 4 - 128
  }

  function BlockSamples(cfg: Config, rows: seq<seq<byte>>, i: nat, s: BlockSource): (r: seq<int>)
    requires McuLines(cfg, rows) && FitsMcu(cfg, s) && i < cfg.McusPerRow()
    ensures Dct.Samples(r)
  {
    seq(64, k requires 0 <= k < 64 => BlockSample(cfg, rows, i, s, k))
  }

  // ---------------------------------------------------------- whole images

  /** The scanlines of an image, as many as are there. */
  predicate Lines(cfg: Config, lines: seq<seq<byte>>)
  {
    forall i :: 0 <= i < |lines| ==> Scanline(cfg, lines[i])
  }

  /** Line k of the r-th MCU row, the last line standing for all below it. */
  function McuRowLine(cfg: Config, lines: seq<seq<byte>>, r: nat, k: nat): (line: seq<byte>)
    requires cfg.Valid() && Lines(cfg, lines) && lines != []
    ensures |line| == cfg.LineBytes()
  {
    ExtendedLine(cfg, lines[Min(r * cfg.McuY() + k, |lines| - 1)])
  }

  function McuRow(cfg: Config, lines: seq<seq<byte>>, r: nat): (rows: seq<seq<byte>>)
    requires cfg.Valid() && Lines(cfg, lines) && lines != []
    ensures McuLines(cfg, rows)
  {
    seq(cfg.McuY(), k requires 0 <= k < cfg.McuY() => McuRowLine(cfg, lines, r, k))
  }

  /** Every sample of an MCU row comes from the image pixel at the same place,
      or from the nearest one when that place lies beyond the right or lower edge. */
  lemma McuRowSample(cfg: Config, lines: seq<seq<byte>>, r: nat, c: nat, y: nat, x: nat)
    requires cfg.Valid() && Lines(cfg, lines) && lines != []
    requires c < cfg.Components() && y < cfg.McuY() && x < cfg.WidthMcu()
    ensures SampleAt(cfg, McuRow(cfg, lines, r), c, y, x)
         == Pixel(cfg, lines[Min(r * cfg.McuY() + y, |lines| - 1)], Min(x, cfg.width - 1), c)
  {
    hide Pixel;
    SampleIndex(cfg, c, x);
    var n := cfg.Components();
    var line := lines[Min(r * cfg.McuY() + y, |lines| - 1)];
    assert McuRow(cfg, lines, r)[y] == ExtendedLine(cfg, line);
    ExtendedPixel(cfg, line, x, c);
  }

  lemma ExtendedPixel(cfg: Config, line: seq<byte>, x: nat, c: nat)
    requires cfg.Valid() && Scanline(cfg, line) && c < cfg.Components() && x < cfg.WidthMcu()
    ensures x * cfg.Components() + c < cfg.LineBytes()
    ensures ExtendedLine(cfg, line)[x * cfg.Components() + c] == Pixel(cfg, line, Min(x, cfg.width - 1), c)
  {
    hide Pixel;
    SampleIndex(cfg, c, x);
    DivUnique(x * cfg.Components() + c, cfg.Components(), x, c);
  }
}
