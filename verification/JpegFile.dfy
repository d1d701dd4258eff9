/** The JPEG interchange format around a scan: the marker segments the encoder
    writes, and a decoder for baseline files (T.81, Annexes B and F.2). */
module JpegFile {
  import opened Bits
  import opened BitWriter
  import opened BlockCoding
  import opened HuffmanCode
  import opened ImageCoding
  import opened ImageModel
  import opened Options
  import opened Quantize
  import opened StandardTables

  const M_SOF0: byte := 0xC0
  const M_DHT: byte := 0xC4
  const M_SOI: byte := 0xD8
  const M_EOI: byte := 0xD9
  const M_SOS: byte := 0xDA
  const M_DQT: byte := 0xDB
  const M_APP0: byte := 0xE0

  // ---------------------------------------------------- what is written

  /** A 16-bit big-endian word; higher bits are lost. */
  function Word(n: nat): (r: seq<byte>)
    ensures |r| == 2
  {
    [n / 256 % 256, n % 256]
  }

  function SegmentBytes(marker: byte, payload: seq<byte>): seq<byte>
  {
    [0xFF, marker] + Word(|payload| + 2) + payload
  }

  const JFIF: seq<byte> := [0x4A, 0x46, 0x49, 0x46, 0, 1, 1, 0, 0, 1, 0, 1, 0, 0]

  function DqtPayload(cfg: Config, i: nat): (r: seq<byte>)
    requires cfg.Valid() && i < 2
    ensures |r| == 65
  {
    [i] + QuantTable(i, cfg.quality)
  }

  function HSamp(cfg: Config, c: nat): nat
  {
    if c == 0 && (cfg.sub.H2V1? || cfg.sub.H2V2?) then 2 else 1
  }

  function VSamp(cfg: Config, c: nat): nat
  {
    if c == 0 && cfg.sub.H2V2? then 2 else 1
  }

  function QuantIndex(c: nat): byte
  {
    if c > 0 then 1 else 0
  }

  function SofComponents(cfg: Config, n: nat): (r: seq<byte>)
    requires n <= 3
    ensures |r| == 3 * n
  {
    if n == 0 then [] else SofComponents(cfg, n - 1) + [n, HSamp(cfg, n - 1) * 16 + VSamp(cfg, n - 1), QuantIndex(n - 1)]
  }

  function SofPayload(cfg: Config): seq<byte>
  {
    [8] + Word(cfg.height) + Word(cfg.width) + [cfg.Components()] + SofComponents(cfg, cfg.Components())
  }

  /** Class and destination, the sixteen counts, and as many symbols as they announce. */
  function DhtPayload(h: HuffSpec, selector: byte): seq<byte>
    requires h.Valid()
  {
    [selector] + h.bits[1..] + h.vals[..|Sizes(h.bits)|]
  }

  function SosComponents(n: nat): (r: seq<byte>)
    requires n <= 3
    ensures |r| == 2 * n
  {
    if n == 0 then [] else SosComponents(n - 1) + [n, if n == 1 then 0 else 0x11]
  }

  function SosPayload(cfg: Config): seq<byte>
  {
    [cfg.Components()] + SosComponents(cfg.Components()) + [0, 63, 0]
  }

  lemma TablesValid()
    ensures DC_LUM.Valid() && AC_LUM.Valid() && DC_CHROMA.Valid() && AC_CHROMA.Valid()
  {
    DcLumUsable();
    AcLumUsable();
    DcChromaUsable();
    AcChromaUsable();
  }

  function DqtBytes(cfg: Config): seq<byte>
    requires cfg.Valid()
  {
    SegmentBytes(M_DQT, DqtPayload(cfg, 0)) +
    if cfg.Components() == 3 then SegmentBytes(M_DQT, DqtPayload(cfg, 1)) else []
  }

  function DhtBytes(cfg: Config): seq<byte>
  {
    TablesValid();
    hide Sizes;
    SegmentBytes(M_DHT, DhtPayload(DC_LUM, 0)) + SegmentBytes(M_DHT, DhtPayload(AC_LUM, 0x10)) +
    if cfg.Components() == 3
    then SegmentBytes(M_DHT, DhtPayload(DC_CHROMA, 1)) + SegmentBytes(M_DHT, DhtPayload(AC_CHROMA, 0x11))
    else []
  }

  /** Everything before the entropy-coded segment. */
  function HeaderBytes(cfg: Config): seq<byte>
    requires cfg.Valid()
  {
    [0xFF, M_SOI] + SegmentBytes(M_APP0, JFIF) + DqtBytes(cfg) + SegmentBytes(M_SOF0, SofPayload(cfg)) +
    DhtBytes(cfg) + SegmentBytes(M_SOS, SosPayload(cfg))
  }

  /** A whole file: header, stuffed and padded scan data, end marker. */
  function FileBytes(cfg: Config, blocks: seq<CodedBlock>): seq<byte>
    requires cfg.Valid() && forall b :: b in blocks ==> b.comp < 3 && |b.zz| == 64
  {
    HeaderBytes(cfg) + Stuff(Pack(Padded(ScanBits(blocks, [0, 0, 0])))) + [0xFF, M_EOI]
  }

  // ------------------------------------------------- reading the headers

  datatype FrameComponent = FrameComponent(id: byte, h: nat, v: nat, tq: nat)
  datatype Frame = Frame(width: nat, height: nat, comps: seq<FrameComponent>)
  datatype ScanComponent = ScanComponent(id: byte, td: nat, ta: nat)

  /** What the table and frame segments have set so far. */
  datatype Headers = Headers(quant: map<nat, seq<byte>>, dc: map<nat, HuffSpec>, ac: map<nat, HuffSpec>, frame: Option<Frame>) {
    predicate Valid() {
      && (forall k :: k in dc ==> dc[k].Valid())
      && (forall k :: k in ac ==> ac[k].Valid())
    }
  }

  const NO_HEADERS := Headers(map[], map[], map[], None)

  function ReadFrameComponents(p: seq<byte>): seq<FrameComponent>
    requires |p| % 3 == 0
  {
    if p == [] then []
    else [FrameComponent(p[0], p[1] / 16, p[1] % 16, p[2])] + ReadFrameComponents(p[3..])
  }

  function ReadScanComponents(p: seq<byte>): seq<ScanComponent>
    requires |p| % 2 == 0
  {
    if p == [] then [] else [ScanComponent(p[0], p[1] / 16, p[1] % 16)] + ReadScanComponents(p[2..])
  }

  /** One table, frame or application segment, by the marker codes of T.81, Table B.1; None when it is malformed or not baseline. */
  function ApplySegment(st: Headers, marker: byte, p: seq<byte>): (r: Option<Headers>)
    requires st.Valid()
    ensures r.Some? ==> r.value.Valid()
  {
    if marker == 0xDB then // DQT
      if |p| == 65 && p[0] < 4 then Some(st.(quant := st.quant[p[0] as nat := p[1..]])) else None
    else if marker == 0xC4 then // DHT
      if |p| < 17 then None
      else
        var h := HuffSpec([0] + p[1..17], p[17..]);
        if !h.Valid() || |Sizes(h.bits)| != |h.vals| then None
        else if p[0] / 16 == 0 then Some(st.(dc := st.dc[p[0] % 16 as nat := h]))
        else if p[0] / 16 == 1 then Some(st.(ac := st.ac[p[0] % 16 as nat := h]))
        else None
    else if marker == 0xC0 then // SOF0, baseline
      if |p| < 6 || p[0] != 8 || |p| != 6 + 3 * p[5] as int then None
      else Some(st.(frame := Some(Frame(p[3] as int * 256 + p[4], p[1] as int * 256 + p[2], ReadFrameComponents(p[6..])))))
    else if 0xE0 <= marker <= 0xEF || marker == 0xFE then Some(st) // APPn, COM
    else None
  }

  datatype ParsedHeaders = Parsed(st: Headers, scan: seq<ScanComponent>, rest: seq<byte>) | BadHeaders

  /** Segments up to and including the scan header. */
  function ParseHeaders(s: seq<byte>, st: Headers): (r: ParsedHeaders)
    requires st.Valid()
    ensures r.Parsed? ==> r.st.Valid()
  {
    if |s| < 4 || s[0] != 0xFF then BadHeaders
    else
      var len := s[2] as int * 256 + s[3];
      if len < 2 || |s| < 2 + len then BadHeaders
      else
        var p, rest := s[4..2 + len], s[2 + len..];
        if s[1] == 0xDA then // SOS
          if |p| >= 4 && |p| == 4 + 2 * p[0] as int && p[|p| - 3..] == [0, 63, 0]
          then Parsed(st, ReadScanComponents(p[1..|p| - 3]), rest)
          else BadHeaders
        else
          match ApplySegment(st, s[1], p)
          case None => BadHeaders
          case Some(st') => ParseHeaders(rest, st')
  }

  // ------------------------------------------------------------ decoding

  function MaxH(comps: seq<FrameComponent>): nat
  {
    if comps == [] then 1 else if comps[0].h > MaxH(comps[1..]) then comps[0].h else MaxH(comps[1..])
  }

  function MaxV(comps: seq<FrameComponent>): nat
  {
    if comps == [] then 1 else if comps[0].v > MaxV(comps[1..]) then comps[0].v else MaxV(comps[1..])
  }

  function CeilDiv(a: nat, b: nat): nat
    requires b > 0
  {
    (a + b - 1) / b
  }

  lemma {:induction false} MaxPositive(comps: seq<FrameComponent>)
    ensures MaxH(comps) > 0 && MaxV(comps) > 0
  {
    if comps != [] { MaxPositive(comps[1..]); }
  }

  /** Blocks per component of an interleaved MCU, component after component (T.81, A.2.3). */
  function InterleavedMcu(comps: seq<FrameComponent>, c: nat): seq<nat>
    requires c <= |comps|
    decreases |comps| - c
  {
    if c == |comps| then [] else seq(comps[c].h * comps[c].v, _ => c) + InterleavedMcu(comps, c + 1)
  }

  /** The component of every block of the scan (T.81, A.2.2 and A.2.3). */
  function ScanOrder(f: Frame): seq<nat>
  {
    MaxPositive(f.comps);
    if |f.comps| == 1 then Repeat([0], CeilDiv(f.width, 8) * CeilDiv(f.height, 8))
    else Repeat(InterleavedMcu(f.comps, 0), CeilDiv(f.width, 8 * MaxH(f.comps)) * CeilDiv(f.height, 8 * MaxV(f.comps)))
  }

  /** The scan names the frame's components in order and selects tables that were defined. */
  predicate ScanFits(st: Headers, scan: seq<ScanComponent>)
  {
    && st.frame.Some? && 1 <= |scan| <= 3 && |scan| == |st.frame.value.comps|
    && forall c :: 0 <= c < |scan| ==>
      scan[c].id == st.frame.value.comps[c].id && scan[c].td in st.dc && scan[c].ta in st.ac
      && st.frame.value.comps[c].tq in st.quant
  }

  /** A decoded file: dimensions, the quantiser of each component, and the coefficients in scan order. */
  datatype DecodedImage = DecodedImage(width: nat, height: nat, quant: seq<seq<byte>>, blocks: seq<CodedBlock>)

  predicate AllOnes(b: seq<bool>)
  {
    forall i :: 0 <= i < |b| ==> b[i]
  }

  function DecodeData(st: Headers, scan: seq<ScanComponent>, data: seq<byte>): Option<DecodedImage>
    requires st.Valid() && ScanFits(st, scan)
  {
    var f := st.frame.value;
    var order := ScanOrder(f);
    if !(forall i :: 0 <= i < |order| ==> order[i] < |scan|) then None
    else
      var tables := seq(|scan|, c requires 0 <= c < |scan| => TablePair(st.dc[scan[c].td], st.ac[scan[c].ta]));
      match DecodeScan(order, tables, [0, 0, 0], Unpack(data))
      case BadScan => None
      case Scan(blocks, padding) =>
        if |padding| >= 8 || !AllOnes(padding) then None
        else
          var quant := seq(|scan|, c requires 0 <= c < |scan| => st.quant[f.comps[c].tq]);
          Some(DecodedImage(f.width, f.height, quant, blocks))
  }

  function Decode(file: seq<byte>): Option<DecodedImage>
  {
    if |file| < 2 || file[..2] != [0xFF, 0xD8] then None // SOI
    else
      match ParseHeaders(file[2..], NO_HEADERS)
      case BadHeaders => None
      case Parsed(st, scan, rest) =>
        if !ScanFits(st, scan) then None
        else
          match Unstuff(rest)
          case Truncated => None
          case Segment(data, tail) => if tail == [0xFF, 0xD9] then DecodeData(st, scan, data) else None // EOI
  }
}
