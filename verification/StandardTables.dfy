/** The typical Huffman tables of T.81, Annex K.3, which the encoder always uses. */
module StandardTables {
  import opened Bits
  import opened HuffmanCode

  const DC_LUM_BITS: seq<byte> := [0, 0, 1, 5, 1, 1, 1, 1, 1, 1, 0, 0, 0, 0, 0, 0, 0]
  const AC_LUM_BITS: seq<byte> := [0, 0, 2, 1, 3, 3, 2, 4, 3, 5, 5, 4, 4, 0, 0, 1, 0x7d]
  const DC_CHROMA_BITS: seq<byte> := [0, 0, 3, 1, 1, 1, 1, 1, 1, 1, 1, 1, 0, 0, 0, 0, 0]
  const AC_CHROMA_BITS: seq<byte> := [0, 0, 2, 1, 2, 4, 4, 3, 4, 7, 5, 4, 4, 0, 1, 2, 0x77]
  const DC_VAL: seq<byte> := [0, 1, 2, 3, 4, 5, 6, 7, 8, 9, 10, 11]

  const AC_LUM_VAL_0: seq<byte> := [0x01, 0x02, 0x03, 0x00, 0x04, 0x11, 0x05, 0x12, 0x21, 0x31, 0x41, 0x06, 0x13, 0x51, 0x61, 0x07,
    0x22, 0x71, 0x14, 0x32, 0x81, 0x91, 0xa1, 0x08, 0x23, 0x42, 0xb1, 0xc1, 0x15, 0x52, 0xd1, 0xf0]
  const AC_LUM_VAL_1: seq<byte> := [0x24, 0x33, 0x62, 0x72, 0x82, 0x09, 0x0a, 0x16, 0x17, 0x18, 0x19, 0x1a, 0x25, 0x26, 0x27, 0x28,
    0x29, 0x2a, 0x34, 0x35, 0x36, 0x37, 0x38, 0x39, 0x3a, 0x43, 0x44, 0x45, 0x46, 0x47, 0x48, 0x49]
  const AC_LUM_VAL_2: seq<byte> := [0x4a, 0x53, 0x54, 0x55, 0x56, 0x57, 0x58, 0x59, 0x5a, 0x63, 0x64, 0x65, 0x66, 0x67, 0x68, 0x69,
    0x6a, 0x73, 0x74, 0x75, 0x76, 0x77, 0x78, 0x79, 0x7a, 0x83, 0x84, 0x85, 0x86, 0x87, 0x88, 0x89]
  const AC_LUM_VAL_3: seq<byte> := [0x8a, 0x92, 0x93, 0x94, 0x95, 0x96, 0x97, 0x98, 0x99, 0x9a, 0xa2, 0xa3, 0xa4, 0xa5, 0xa6, 0xa7,
    0xa8, 0xa9, 0xaa, 0xb2, 0xb3, 0xb4, 0xb5, 0xb6, 0xb7, 0xb8, 0xb9, 0xba, 0xc2, 0xc3, 0xc4, 0xc5]
  const AC_LUM_VAL_4: seq<byte> := [0xc6, 0xc7, 0xc8, 0xc9, 0xca, 0xd2, 0xd3, 0xd4, 0xd5, 0xd6, 0xd7, 0xd8, 0xd9, 0xda, 0xe1, 0xe2,
    0xe3, 0xe4, 0xe5, 0xe6, 0xe7, 0xe8, 0xe9, 0xea, 0xf1, 0xf2, 0xf3, 0xf4, 0xf5, 0xf6, 0xf7, 0xf8]
  const AC_LUM_VAL_5: seq<byte> := [0xf9, 0xfa]
  const AC_LUM_VAL := AC_LUM_VAL_0 + AC_LUM_VAL_1 + AC_LUM_VAL_2 + AC_LUM_VAL_3 + AC_LUM_VAL_4 + AC_LUM_VAL_5

  const AC_CHROMA_VAL_0: seq<byte> := [0x00, 0x01, 0x02, 0x03, 0x11, 0x04, 0x05, 0x21, 0x31, 0x06, 0x12, 0x41, 0x51, 0x07, 0x61, 0x71,
    0x13, 0x22, 0x32, 0x81, 0x08, 0x14, 0x42, 0x91, 0xa1, 0xb1, 0xc1, 0x09, 0x23, 0x33, 0x52, 0xf0]
  const AC_CHROMA_VAL_1: seq<byte> := [0x15, 0x62, 0x72, 0xd1, 0x0a, 0x16, 0x24, 0x34, 0xe1, 0x25, 0xf1, 0x17, 0x18, 0x19, 0x1a, 0x26,
    0x27, 0x28, 0x29, 0x2a, 0x35, 0x36, 0x37, 0x38, 0x39, 0x3a, 0x43, 0x44, 0x45, 0x46, 0x47, 0x48]
  const AC_CHROMA_VAL_2: seq<byte> := [0x49, 0x4a, 0x53, 0x54, 0x55, 0x56, 0x57, 0x58, 0x59, 0x5a, 0x63, 0x64, 0x65, 0x66, 0x67, 0x68,
    0x69, 0x6a, 0x73, 0x74, 0x75, 0x76, 0x77, 0x78, 0x79, 0x7a, 0x82, 0x83, 0x84, 0x85, 0x86, 0x87]
  const AC_CHROMA_VAL_3: seq<byte> := [0x88, 0x89, 0x8a, 0x92, 0x93, 0x94, 0x95, 0x96, 0x97, 0x98, 0x99, 0x9a, 0xa2, 0xa3, 0xa4, 0xa5,
    0xa6, 0xa7, 0xa8, 0xa9, 0xaa, 0xb2, 0xb3, 0xb4, 0xb5, 0xb6, 0xb7, 0xb8, 0xb9, 0xba, 0xc2, 0xc3]
  const AC_CHROMA_VAL_4: seq<byte> := [0xc4, 0xc5, 0xc6, 0xc7, 0xc8, 0xc9, 0xca, 0xd2, 0xd3, 0xd4, 0xd5, 0xd6, 0xd7, 0xd8, 0xd9, 0xda,
    0xe2, 0xe3, 0xe4, 0xe5, 0xe6, 0xe7, 0xe8, 0xe9, 0xea, 0xf2, 0xf3, 0xf4, 0xf5, 0xf6, 0xf7, 0xf8]
  const AC_CHROMA_VAL_5: seq<byte> := [0xf9, 0xfa]
  const AC_CHROMA_VAL := AC_CHROMA_VAL_0 + AC_CHROMA_VAL_1 + AC_CHROMA_VAL_2 + AC_CHROMA_VAL_3 + AC_CHROMA_VAL_4 + AC_CHROMA_VAL_5

  const DC_LUM := HuffSpec(DC_LUM_BITS, DC_VAL)
  const DC_CHROMA := HuffSpec(DC_CHROMA_BITS, DC_VAL)
  const AC_LUM := HuffSpec(AC_LUM_BITS, AC_LUM_VAL)
  const AC_CHROMA := HuffSpec(AC_CHROMA_BITS, AC_CHROMA_VAL)

  /** The number of codes up to length l. */
  function CountUpTo(bits: seq<byte>, l: nat): nat
    requires |bits| == 17 && l <= 16
  {
    if l == 0 then 0 else CountUpTo(bits, l - 1) + bits[l]
  }

  lemma {:induction false} CountIsLength(bits: seq<byte>, l: nat)
    requires |bits| == 17 && l <= 16
    ensures |SizesUpTo(bits, l)| == CountUpTo(bits, l)
  {
    if l > 0 { CountIsLength(bits, l - 1); }
  }

  /** Kraft's sum up to length l in units of the share of length l. */
  function KraftUpTo(bits: seq<byte>, l: nat): nat
    requires |bits| == 17 && l <= 16
  {
    if l == 0 then 0 else 2 * KraftUpTo(bits, l - 1) + bits[l]
  }

  lemma {:induction false} KraftScaled(bits: seq<byte>, l: nat)
    requires |bits| == 17 && l <= 16
    ensures KraftSum(bits, l) == Shl(KraftUpTo(bits, l), 16 - l)
  {
    if l == 0 {
      ShlZero(16);
    } else {
      KraftScaled(bits, l - 1);
      ShlShl(KraftUpTo(bits, l - 1), 1, 16 - l);
      ShlAdd(2 * KraftUpTo(bits, l - 1), bits[l], 16 - l);
    }
  }

  /** Four more lengths at a time. */
  lemma NoneYet(bits: seq<byte>)
    requires |bits| == 17
    ensures CountUpTo(bits, 0) == KraftUpTo(bits, 0) == 0
  {
  }

  lemma FourMore(bits: seq<byte>, l: nat, count: nat, kraft: nat, a: int, b: int, c: int, d: int)
    requires |bits| == 17 && l <= 12 && CountUpTo(bits, l) == count && KraftUpTo(bits, l) == kraft
    requires bits[l + 1] == a && bits[l + 2] == b && bits[l + 3] == c && bits[l + 4] == d
    ensures CountUpTo(bits, l + 4) == count + a + b + c + d
    ensures KraftUpTo(bits, l + 4) == 16 * kraft + 8 * a + 4 * b + 2 * c + d
  {
    assert CountUpTo(bits, l + 2) == CountUpTo(bits, l) + a + b;
    assert KraftUpTo(bits, l + 2) == 4 * KraftUpTo(bits, l) + 2 * a + b;
  }

  /** What makes a table usable: enough symbols for its lengths, and Kraft's inequality. */
  lemma Usable(h: HuffSpec)
    requires |h.bits| == 17 && CountUpTo(h.bits, 16) == |h.vals| <= 256
    requires KraftUpTo(h.bits, 16) <= 65536
    ensures Decodable(h) && |Sizes(h.bits)| == |h.vals|
  {
    CountIsLength(h.bits, 16);
    SizesAreLengths(h.bits, 16);
    LeftIsKraftSum(h.bits, 16);
    KraftScaled(h.bits, 16);
    Pow2Values();
  }

  /** The symbols the encoder can ask an AC table for: run and category, sixteen zeros, end of block. */
  predicate AcSymbol(v: int)
  {
    0 <= v < 256 && (1 <= v % 16 <= 10 || v == 0 || v == 0xF0)
  }

  lemma AcLumHas(v: int)
    requires AcSymbol(v)
    ensures v in AC_LUM_VAL
  {
    if v < 128 { AcLumHasLow(v); } else { AcLumHasHigh(v); }
  }

  lemma AcLumHasLow(v: int)
    requires AcSymbol(v) && v < 128
    ensures v in AC_LUM_VAL
  {
    assert v in AC_LUM_VAL_0 || v in AC_LUM_VAL_1 || v in AC_LUM_VAL_2;
  }

  lemma AcLumHasHigh(v: int)
    requires AcSymbol(v) && v >= 128
    ensures v in AC_LUM_VAL
  {
    assert v in AC_LUM_VAL_0 || v in AC_LUM_VAL_1 || v in AC_LUM_VAL_2 || v in AC_LUM_VAL_3 || v in AC_LUM_VAL_4 || v in AC_LUM_VAL_5;
  }

  lemma AcChromaHas(v: int)
    requires AcSymbol(v)
    ensures v in AC_CHROMA_VAL
  {
    if v < 128 { AcChromaHasLow(v); } else { AcChromaHasHigh(v); }
  }

  lemma AcChromaHasLow(v: int)
    requires AcSymbol(v) && v < 128
    ensures v in AC_CHROMA_VAL
  {
    assert v in AC_CHROMA_VAL_0 || v in AC_CHROMA_VAL_1 || v in AC_CHROMA_VAL_2;
  }

  lemma AcChromaHasHigh(v: int)
    requires AcSymbol(v) && v >= 128
    ensures v in AC_CHROMA_VAL
  {
    assert v in AC_CHROMA_VAL_0 || v in AC_CHROMA_VAL_1 || v in AC_CHROMA_VAL_2 || v in AC_CHROMA_VAL_3 || v in AC_CHROMA_VAL_4 || v in AC_CHROMA_VAL_5;
  }

  /** A pair of tables that has a code for everything a block can need. */
  ghost predicate Complete(dc: HuffSpec, ac: HuffSpec)
  {
    && Decodable(dc) && Decodable(ac)
    && (forall n :: 0 <= n <= 11 ==> HasCode(dc, n))
    && (forall v :: AcSymbol(v) ==> HasCode(ac, v))
  }

  lemma CompleteFrom(dc: HuffSpec, ac: HuffSpec)
    requires Decodable(dc) && Decodable(ac)
    requires |Sizes(dc.bits)| == |dc.vals| && dc.vals == DC_VAL && |Sizes(ac.bits)| == |ac.vals|
    requires forall v :: AcSymbol(v) ==> v in ac.vals
    ensures Complete(dc, ac)
  {
    assert dc.vals[..|dc.vals|] == dc.vals && ac.vals[..|ac.vals|] == ac.vals;
    forall n | 0 <= n <= 11 ensures HasCode(dc, n) { assert DC_VAL[n] == n; }
  }

  lemma LumComplete()
    ensures Complete(DC_LUM, AC_LUM)
  {
    DcLumUsable();
    AcLumUsable();
    forall v | AcSymbol(v) ensures v in AC_LUM.vals { AcLumHas(v); }
    CompleteFrom(DC_LUM, AC_LUM);
  }

  lemma ChromaComplete()
    ensures Complete(DC_CHROMA, AC_CHROMA)
  {
    DcChromaUsable();
    AcChromaUsable();
    forall v | AcSymbol(v) ensures v in AC_CHROMA.vals { AcChromaHas(v); }
    CompleteFrom(DC_CHROMA, AC_CHROMA);
  }

  lemma DcLumCounts()
    ensures CountUpTo(DC_LUM_BITS, 16) == 12 && KraftUpTo(DC_LUM_BITS, 16) == 65408
  {
    hide CountUpTo, KraftUpTo;
    NoneYet(DC_LUM_BITS);
    FourMore(DC_LUM_BITS, 0, 0, 0, 0, 1, 5, 1);
    FourMore(DC_LUM_BITS, 4, 7, 15, 1, 1, 1, 1);
    FourMore(DC_LUM_BITS, 8, 11, 255, 1, 0, 0, 0);
    FourMore(DC_LUM_BITS, 12, 12, 4088, 0, 0, 0, 0);
  }

  lemma DcLumUsable()
    ensures Decodable(DC_LUM) && |Sizes(DC_LUM_BITS)| == |DC_VAL| == 12
  {
    DcLumCounts();
    Usable(DC_LUM);
  }

  lemma DcChromaCounts()
    ensures CountUpTo(DC_CHROMA_BITS, 16) == 12 && KraftUpTo(DC_CHROMA_BITS, 16) == 65504
  {
    hide CountUpTo, KraftUpTo;
    NoneYet(DC_CHROMA_BITS);
    FourMore(DC_CHROMA_BITS, 0, 0, 0, 0, 3, 1, 1);
    FourMore(DC_CHROMA_BITS, 4, 5, 15, 1, 1, 1, 1);
    FourMore(DC_CHROMA_BITS, 8, 9, 255, 1, 1, 1, 0);
    FourMore(DC_CHROMA_BITS, 12, 12, 4094, 0, 0, 0, 0);
  }

  lemma DcChromaUsable()
    ensures Decodable(DC_CHROMA) && |Sizes(DC_CHROMA_BITS)| == |DC_VAL| == 12
  {
    DcChromaCounts();
    Usable(DC_CHROMA);
  }

  lemma AcLumCounts()
    ensures CountUpTo(AC_LUM_BITS, 16) == 162 && KraftUpTo(AC_LUM_BITS, 16) == 65535
  {
    hide CountUpTo, KraftUpTo;
    NoneYet(AC_LUM_BITS);
    FourMore(AC_LUM_BITS, 0, 0, 0, 0, 2, 1, 3);
    FourMore(AC_LUM_BITS, 4, 6, 13, 3, 2, 4, 3);
    FourMore(AC_LUM_BITS, 8, 18, 251, 5, 5, 4, 4);
    FourMore(AC_LUM_BITS, 12, 36, 4088, 0, 0, 1, 125);
  }

  lemma AcLumUsable()
    ensures Decodable(AC_LUM) && |Sizes(AC_LUM_BITS)| == |AC_LUM_VAL| == 162
  {
    AcLumCounts();
    Usable(AC_LUM);
  }

  lemma AcChromaCounts()
    ensures CountUpTo(AC_CHROMA_BITS, 16) == 162 && KraftUpTo(AC_CHROMA_BITS, 16) == 65535
  {
    hide CountUpTo, KraftUpTo;
    NoneYet(AC_CHROMA_BITS);
    FourMore(AC_CHROMA_BITS, 0, 0, 0, 0, 2, 1, 2);
    FourMore(AC_CHROMA_BITS, 4, 5, 12, 4, 4, 3, 4);
    FourMore(AC_CHROMA_BITS, 8, 20, 250, 7, 5, 4, 4);
    FourMore(AC_CHROMA_BITS, 12, 40, 4088, 0, 1, 2, 119);
  }

  lemma AcChromaUsable()
    ensures Decodable(AC_CHROMA) && |Sizes(AC_CHROMA_BITS)| == |AC_CHROMA_VAL| == 162
  {
    AcChromaCounts();
    Usable(AC_CHROMA);
  }
}
