/** Decoding a written file gives back what was coded. */
module JpegRoundTrip {
  import opened Bits
  import opened BitWriter
  import opened BlockCoding
  import opened HuffmanCode
  import opened ImageCoding
  import opened ImageModel
  import opened JpegFile
  import opened Options
  import opened Quantize
  import opened StandardTables

  // -------------------------------------------------------------- headers

  /** A written segment is read back as itself. */
  lemma ParseSegment(marker: byte, p: seq<byte>, rest: seq<byte>, st: Headers)
    requires st.Valid() && |p| + 2 < 0x1_0000 && marker != M_SOS
    ensures ParseHeaders(SegmentBytes(marker, p) + rest, st) ==
      match ApplySegment(st, marker, p) case None => BadHeaders case Some(st') => ParseHeaders(rest, st')
  {
    hide ApplySegment;
    var s := SegmentBytes(marker, p) + rest;
    SegmentParts(marker, p, rest);
  }

  lemma SegmentParts(marker: byte, p: seq<byte>, rest: seq<byte>)
    requires |p| + 2 < 0x1_0000
    ensures var s := SegmentBytes(marker, p) + rest;
      |s| >= 4 + |p| && s[0] == 0xFF && s[1] == marker && s[2] as int * 256 + s[3] == |p| + 2 &&
      s[4..4 + |p|] == p && s[4 + |p|..] == rest
  {
  }

  lemma ParseScanHeader(p: seq<byte>, rest: seq<byte>, st: Headers)
    requires st.Valid() && 4 <= |p| < 0x1000 && |p| == 4 + 2 * p[0] as int && p[|p| - 3..] == [0, 63, 0]
    ensures ParseHeaders(SegmentBytes(M_SOS, p) + rest, st) == Parsed(st, ReadScanComponents(p[1..|p| - 3]), rest)
  {
    hide ApplySegment, ReadScanComponents;
    SegmentParts(M_SOS, p, rest);
  }

  lemma ApplyDqt(st: Headers, cfg: Config, i: nat)
    requires st.Valid() && cfg.Valid() && i < 2
    ensures ApplySegment(st, M_DQT, DqtPayload(cfg, i)) == Some(st.(quant := st.quant[i := QuantTable(i, cfg.quality)]))
  {
    assert DqtPayload(cfg, i)[1..] == QuantTable(i, cfg.quality);
  }

  /** A table that is written out fully is read back exactly. */
  lemma ApplyDht(st: Headers, h: HuffSpec, selector: byte)
    requires st.Valid() && h.Valid() && |Sizes(h.bits)| == |h.vals| && h.bits[0] == 0
    requires selector / 16 <= 1
    ensures ApplySegment(st, M_DHT, DhtPayload(h, selector)) ==
      Some(if selector / 16 == 0 then st.(dc := st.dc[selector % 16 := h]) else st.(ac := st.ac[selector % 16 := h]))
  {
    hide Sizes;
    var p := DhtPayload(h, selector);
    assert h.vals[..|h.vals|] == h.vals;
    assert [0] + p[1..17] == h.bits && p[17..] == h.vals;
  }

  function FrameOf(cfg: Config): Frame
  {
    Frame(cfg.width, cfg.height,
      if cfg.Components() == 1 then [FrameComponent(1, 1, 1, 0)]
      else [FrameComponent(1, HSamp(cfg, 0), VSamp(cfg, 0), 0), FrameComponent(2, 1, 1, 1), FrameComponent(3, 1, 1, 1)])
  }

  /** Both dimensions fit the 16-bit fields of the frame header. */
  predicate FitsFrame(cfg: Config)
  {
    cfg.width < 0x1_0000 && cfg.height < 0x1_0000
  }

  lemma ReadSofComponents(cfg: Config)
    ensures ReadFrameComponents(SofComponents(cfg, cfg.Components())) == FrameOf(cfg).comps
  {
    if cfg.Components() == 1 {
      assert SofComponents(cfg, 0) == [];
      assert SofComponents(cfg, 1) == [1, HSamp(cfg, 0) * 16 + VSamp(cfg, 0), 0];
    } else {
      assert SofComponents(cfg, 1) == [1, HSamp(cfg, 0) * 16 + VSamp(cfg, 0), 0];
      assert SofComponents(cfg, 2) == [1, HSamp(cfg, 0) * 16 + VSamp(cfg, 0), 0, 2, 17, 1];
      var p := [1, HSamp(cfg, 0) * 16 + VSamp(cfg, 0), 0, 2, 17, 1, 3, 17, 1];
      assert SofComponents(cfg, 3) == p;
      assert p[3..] == [2, 17, 1, 3, 17, 1];
      assert p[3..][3..] == [3, 17, 1];
      assert ReadFrameComponents([3, 17, 1]) == [FrameComponent(3, 1, 1, 1)];
      assert ReadFrameComponents([2, 17, 1, 3, 17, 1]) == [FrameComponent(2, 1, 1, 1), FrameComponent(3, 1, 1, 1)];
    }
  }

  /** The frame header announces the image dimensions exactly when they fit sixteen bits each. */
  lemma ApplySof(st: Headers, cfg: Config)
    requires st.Valid()
    ensures ApplySegment(st, M_SOF0, SofPayload(cfg)) ==
      Some(st.(frame := Some(Frame(cfg.width % 0x1_0000, cfg.height % 0x1_0000, FrameOf(cfg).comps))))
    ensures FitsFrame(cfg) <==> Frame(cfg.width % 0x1_0000, cfg.height % 0x1_0000, FrameOf(cfg).comps) == FrameOf(cfg)
  {
    hide SofComponents, ReadFrameComponents;
    var p := SofPayload(cfg);
    assert p[6..] == SofComponents(cfg, cfg.Components());
    ReadSofComponents(cfg);
    WordValue(cfg.width);
    WordValue(cfg.height);
    assert p[1] == Word(cfg.height)[0] && p[2] == Word(cfg.height)[1];
    assert p[3] == Word(cfg.width)[0] && p[4] == Word(cfg.width)[1];
    hide Word;
  }

  lemma WordValue(n: nat)
    ensures Word(n)[0] as int * 256 + Word(n)[1] == n % 0x1_0000
  {
  }

  function ScanOf(cfg: Config): seq<ScanComponent>
  {
    if cfg.Components() == 1 then [ScanComponent(1, 0, 0)]
    else [ScanComponent(1, 0, 0), ScanComponent(2, 1, 1), ScanComponent(3, 1, 1)]
  }

  lemma SosParts(cfg: Config)
    ensures var p := SosPayload(cfg);
      4 <= |p| < 0x1000 && |p| == 4 + 2 * p[0] as int && p[|p| - 3..] == [0, 63, 0] &&
      ReadScanComponents(p[1..|p| - 3]) == ScanOf(cfg)
  {
    var p := SosPayload(cfg);
    assert p[1..|p| - 3] == SosComponents(cfg.Components());
    assert SosComponents(1) == [1, 0];
    if cfg.Components() == 3 {
      assert SosComponents(2) == [1, 0, 2, 0x11];
      assert SosComponents(3) == [1, 0, 2, 0x11, 3, 0x11];
      var q := [1, 0, 2, 0x11, 3, 0x11];
      assert q[2..] == [2, 0x11, 3, 0x11] && q[2..][2..] == [3, 0x11];
      assert ReadScanComponents([3, 0x11]) == [ScanComponent(3, 1, 1)];
      assert ReadScanComponents([2, 0x11, 3, 0x11]) == [ScanComponent(2, 1, 1), ScanComponent(3, 1, 1)];
    }
  }

  /** The headers after each group of segments. */
  function AfterDqt(cfg: Config): Headers
    requires cfg.Valid()
  {
    var one := NO_HEADERS.(quant := map[0 := QuantTable(0, cfg.quality)]);
    if cfg.Components() == 3 then one.(quant := one.quant[1 := QuantTable(1, cfg.quality)]) else one
  }

  function AfterSof(cfg: Config): Headers
    requires cfg.Valid()
  {
    AfterDqt(cfg).(frame := Some(FrameOf(cfg)))
  }

  function AfterDht(cfg: Config): (st: Headers)
    requires cfg.Valid()
    ensures st.Valid()
  {
    TablesValid();
    hide Sizes, SizesUpTo, QuantTable;
    if cfg.Components() == 3
    then AfterSof(cfg).(dc := map[0 := DC_LUM, 1 := DC_CHROMA], ac := map[0 := AC_LUM, 1 := AC_CHROMA])
    else AfterSof(cfg).(dc := map[0 := DC_LUM], ac := map[0 := AC_LUM])
  }

  lemma ParseDqt(cfg: Config, rest: seq<byte>)
    requires cfg.Valid()
    ensures ParseHeaders(DqtBytes(cfg) + rest, NO_HEADERS) == ParseHeaders(rest, AfterDqt(cfg))
  {
    hide ParseHeaders, ApplySegment, QuantTable, SegmentBytes, DqtPayload;
    var first, second := SegmentBytes(M_DQT, DqtPayload(cfg, 0)), SegmentBytes(M_DQT, DqtPayload(cfg, 1));
    var one := NO_HEADERS.(quant := map[0 := QuantTable(0, cfg.quality)]);
    ApplyDqt(NO_HEADERS, cfg, 0);
    if cfg.Components() == 3 {
      Associative(first, second, rest);
      ParseSegment(M_DQT, DqtPayload(cfg, 0), second + rest, NO_HEADERS);
      ApplyDqt(one, cfg, 1);
      ParseSegment(M_DQT, DqtPayload(cfg, 1), rest, one);
    } else {
      assert first + [] == first;
      ParseSegment(M_DQT, DqtPayload(cfg, 0), rest, NO_HEADERS);
    }
  }

  lemma ParseTable(st: Headers, h: HuffSpec, selector: byte, rest: seq<byte>)
    requires st.Valid() && Decodable(h) && |Sizes(h.bits)| == |h.vals| && h.bits[0] == 0 && selector / 16 <= 1
    ensures ParseHeaders(SegmentBytes(M_DHT, DhtPayload(h, selector)) + rest, st) ==
      ParseHeaders(rest, if selector / 16 == 0 then st.(dc := st.dc[selector % 16 := h]) else st.(ac := st.ac[selector % 16 := h]))
  {
    hide ParseHeaders, ApplySegment, SegmentBytes, Sizes;
    ApplyDht(st, h, selector);
    ParseSegment(M_DHT, DhtPayload(h, selector), rest, st);
  }

  lemma ParseDht(cfg: Config, rest: seq<byte>)
    requires cfg.Valid()
    ensures ParseHeaders(DhtBytes(cfg) + rest, AfterSof(cfg)) == ParseHeaders(rest, AfterDht(cfg))
  {
    hide ParseHeaders, SegmentBytes, DhtPayload, Sizes, AfterSof, Decodable;
    TablesValid();
    DcLumUsable();
    AcLumUsable();
    DcChromaUsable();
    AcChromaUsable();
    var st := AfterSof(cfg);
    assert st == AfterSof(cfg) && st.dc == map[] && st.ac == map[] by { SofHasNoTables(cfg); }
    var a, b := SegmentBytes(M_DHT, DhtPayload(DC_LUM, 0)), SegmentBytes(M_DHT, DhtPayload(AC_LUM, 0x10));
    var c, d := SegmentBytes(M_DHT, DhtPayload(DC_CHROMA, 1)), SegmentBytes(M_DHT, DhtPayload(AC_CHROMA, 0x11));
    var tail := if cfg.Components() == 3 then c + (d + rest) else rest;
    assert DhtBytes(cfg) + rest == a + (b + tail);
    ParseTable(st, DC_LUM, 0, b + tail);
    var st1 := st.(dc := map[0 := DC_LUM]);
    ParseTable(st1, AC_LUM, 0x10, tail);
    var st2 := st1.(ac := map[0 := AC_LUM]);
    if cfg.Components() == 3 {
      ParseTable(st2, DC_CHROMA, 1, d + rest);
      var st3 := st2.(dc := map[0 := DC_LUM, 1 := DC_CHROMA]);
      assert st2.dc[1 := DC_CHROMA] == st3.dc;
      ParseTable(st3, AC_CHROMA, 0x11, rest);
      assert st3.ac[1 := AC_CHROMA] == map[0 := AC_LUM, 1 := AC_CHROMA];
    }
  }

  lemma SofHasNoTables(cfg: Config)
    requires cfg.Valid()
    ensures AfterSof(cfg).dc == map[] && AfterSof(cfg).ac == map[]
  {
  }

  /** Reading the written header. */
  lemma ParseHeader(cfg: Config, rest: seq<byte>)
    requires cfg.Valid() && FitsFrame(cfg)
    ensures (HeaderBytes(cfg) + rest)[..2] == [0xFF, M_SOI]
    ensures ParseHeaders((HeaderBytes(cfg) + rest)[2..], NO_HEADERS) == Parsed(AfterDht(cfg), ScanOf(cfg), rest)
  {
    hide ParseHeaders, ApplySegment, SegmentBytes, SofPayload, SosPayload, DqtBytes, DhtBytes, AfterDht, AfterDqt, ReadScanComponents;
    var app, sof, sos := SegmentBytes(M_APP0, JFIF), SegmentBytes(M_SOF0, SofPayload(cfg)), SegmentBytes(M_SOS, SosPayload(cfg));
    assert (HeaderBytes(cfg) + rest)[2..] == app + (DqtBytes(cfg) + (sof + (DhtBytes(cfg) + (sos + rest))));
    ParseSegment(M_APP0, JFIF, DqtBytes(cfg) + (sof + (DhtBytes(cfg) + (sos + rest))), NO_HEADERS);
    ApplyApp(NO_HEADERS);
    ParseDqt(cfg, sof + (DhtBytes(cfg) + (sos + rest)));
    assert AfterDqt(cfg).Valid() by { DqtValid(cfg); }
    ApplySof(AfterDqt(cfg), cfg);
    SofSize(cfg);
    ParseSegment(M_SOF0, SofPayload(cfg), DhtBytes(cfg) + (sos + rest), AfterDqt(cfg));
    ParseDht(cfg, sos + rest);
    SosParts(cfg);
    ParseScanHeader(SosPayload(cfg), rest, AfterDht(cfg));
  }

  lemma ApplyApp(st: Headers)
    requires st.Valid()
    ensures ApplySegment(st, M_APP0, JFIF) == Some(st)
  {
  }

  lemma DqtValid(cfg: Config)
    requires cfg.Valid()
    ensures AfterDqt(cfg).Valid()
  {
  }

  lemma SofSize(cfg: Config)
    ensures |SofPayload(cfg)| <= 15
  {
  }

  // ------------------------------------------------------------- the scan

  /** The decoder expects exactly the blocks the encoder codes. */
  lemma OrderMatches(cfg: Config, lines: seq<seq<byte>>)
    requires cfg.Valid() && Lines(cfg, lines) && |lines| == cfg.height
    ensures ScanOrder(FrameOf(cfg)) == Components(ImageBlocks(cfg, lines, cfg.McuRows()))
  {
    hide ImageBlocks;
    ImageBlocksComponents(cfg, lines, cfg.McuRows());
    McuOrderMatches(cfg);
    MulCommutes(cfg.McuRows(), cfg.McusPerRow());
  }

  lemma MulCommutes(a: nat, b: nat)
    ensures a * b == b * a
  {
  }

  lemma McuOrderMatches(cfg: Config)
    requires cfg.Valid()
    ensures ScanOrder(FrameOf(cfg)) == Repeat(McuComponents(cfg.sub), cfg.McusPerRow() * cfg.McuRows())
  {
    var comps := FrameOf(cfg).comps;
    if cfg.Components() == 3 {
      assert MaxH(comps[1..][1..]) == 1 && MaxH(comps[1..]) == 1 && MaxH(comps) == HSamp(cfg, 0);
      assert MaxV(comps[1..][1..]) == 1 && MaxV(comps[1..]) == 1 && MaxV(comps) == VSamp(cfg, 0);
      assert InterleavedMcu(comps, 2) == [2];
      assert InterleavedMcu(comps, 1) == [1, 2];
      assert InterleavedMcu(comps, 0) == McuComponents(cfg.sub);
    }
  }

  lemma HeadersFit(cfg: Config)
    requires cfg.Valid()
    ensures ScanFits(AfterDht(cfg), ScanOf(cfg))
  {
    hide QuantTable;
  }

  function Quantisers(cfg: Config): seq<seq<byte>>
    requires cfg.Valid()
  {
    if cfg.Components() == 1 then [QuantTable(0, cfg.quality)]
    else [QuantTable(0, cfg.quality), QuantTable(1, cfg.quality), QuantTable(1, cfg.quality)]
  }

  /** Decoding the bytes of the scan gives the image's blocks. */
  lemma DecodeDataOf(cfg: Config, lines: seq<seq<byte>>)
    requires cfg.Valid() && Lines(cfg, lines) && |lines| == cfg.height
    ensures var blocks := ImageBlocks(cfg, lines, cfg.McuRows());
      CodableScan(blocks, [0, 0, 0]) && (forall b :: b in blocks ==> b.comp < 3 && |b.zz| == 64) &&
      ScanFits(AfterDht(cfg), ScanOf(cfg)) &&
      DecodeData(AfterDht(cfg), ScanOf(cfg), Pack(Padded(ScanBits(blocks, [0, 0, 0]))))
        == Some(DecodedImage(cfg.width, cfg.height, Quantisers(cfg), blocks))
  {
    hide ImageBlocks, DecodeScan, ScanBits, QuantTable, ScanOrder, AfterDht, ScanOf, Pack, Unpack, FrameOf, Quantisers;
    HeadersFit(cfg);
    var st, scan := AfterDht(cfg), ScanOf(cfg);
    var blocks := ImageBlocks(cfg, lines, cfg.McuRows());
    ImageBlocksCodable(cfg, lines, cfg.McuRows());
    OrderMatches(cfg, lines);
    FrameIs(cfg);
    var bits := ScanBits(blocks, [0, 0, 0]);
    UnpackPack(Padded(bits));
    var ones := Padded(bits)[|bits|..];
    assert Padded(bits) == bits + ones && AllOnes(ones);
    var tables := seq(|scan|, c requires 0 <= c < |scan| => TablePair(st.dc[scan[c].td], st.ac[scan[c].ta]));
    SelectedTables(cfg, tables);
    DecodeScanBits(blocks, tables, |scan|, [0, 0, 0], ones);
    SelectedQuantisers(cfg);
  }

  lemma FrameIs(cfg: Config)
    requires cfg.Valid()
    ensures AfterDht(cfg).frame == Some(FrameOf(cfg)) && |ScanOf(cfg)| == cfg.Components() == |FrameOf(cfg).comps|
    ensures FrameOf(cfg).width == cfg.width && FrameOf(cfg).height == cfg.height
  {
    hide QuantTable;
  }

  lemma SelectedTables(cfg: Config, tables: seq<TablePair>)
    requires cfg.Valid() && ScanFits(AfterDht(cfg), ScanOf(cfg))
    requires var st, scan := AfterDht(cfg), ScanOf(cfg);
      |tables| == |scan| && forall c :: 0 <= c < |scan| ==> tables[c] == TablePair(st.dc[scan[c].td], st.ac[scan[c].ta])
    ensures EncoderTables(tables, |ScanOf(cfg)|)
  {
    hide QuantTable, AfterSof, Sizes, SizesUpTo;
    TablesValid();
  }

  lemma SelectedQuantisers(cfg: Config)
    requires cfg.Valid() && ScanFits(AfterDht(cfg), ScanOf(cfg))
    ensures var st, scan := AfterDht(cfg), ScanOf(cfg);
      seq(|scan|, c requires 0 <= c < |scan| => st.quant[st.frame.value.comps[c].tq]) == Quantisers(cfg)
  {
    hide QuantTable;
  }

  // ------------------------------------------------------------ main result

  /** Decoding a written file gives back the dimensions, the quantisers and every coefficient. */
  lemma DecodeFile(cfg: Config, lines: seq<seq<byte>>)
    requires cfg.Valid() && FitsFrame(cfg) && Lines(cfg, lines) && |lines| == cfg.height
    ensures var blocks := ImageBlocks(cfg, lines, cfg.McuRows());
      (forall b :: b in blocks ==> b.comp < 3 && |b.zz| == 64) &&
      Decode(FileBytes(cfg, blocks)) == Some(DecodedImage(cfg.width, cfg.height, Quantisers(cfg), blocks))
  {
    hide ImageBlocks, ScanBits, HeaderBytes, ParseHeaders, DecodeData, Stuff, Unstuff, Pack, AfterDht, ScanOf, Quantisers;
    var blocks := ImageBlocks(cfg, lines, cfg.McuRows());
    DecodeDataOf(cfg, lines);
    var data := Pack(Padded(ScanBits(blocks, [0, 0, 0])));
    var tail := Stuff(data) + [0xFF, M_EOI];
    Associative(HeaderBytes(cfg), Stuff(data), [0xFF, M_EOI]);
    ParseHeader(cfg, tail);
    UnstuffStuff(data, M_EOI, []);
    assert Stuff(data) + [0xFF, M_EOI] + [] == tail && [0xFF, M_EOI] + [] == [0xFF, M_EOI];
  }
}
