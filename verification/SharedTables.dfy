/** The static tables all encoders share: quantisers for the last quality
    used, and Huffman lookup arrays filled once. */
module SharedTables {
  import opened Bits
  import opened HuffmanCode
  import opened Quantize
  import opened StandardTables

  /** The lookup arrays of one Huffman table. */
  class CodeTable {
    const codes: array<nat>
    const sizes: array<nat>

    constructor ()
      ensures codes.Length == sizes.Length == 256 && codes != sizes && fresh(codes) && fresh(sizes)
    {
      codes, sizes := new nat[256], new nat[256];
    }

    ghost predicate Shape()
    {
      codes != sizes && codes.Length == sizes.Length == 256
    }

    ghost predicate Holds(h: HuffSpec)
      reads codes, sizes
      requires h.Valid()
    {
      Shape() && forall v :: 0 <= v < 256 ==> codes[v] == SymbolCode(h, v) && sizes[v] == SymbolSize(h, v)
    }
  }

  class Tables {
    var lastQuality: nat
    var huffInitialized: bool
    const quant: array<byte>
    const chromaQuant: array<byte>
    const dc: CodeTable
    const ac: CodeTable
    const chromaDc: CodeTable
    const chromaAc: CodeTable

    ghost const Arrays: set<object>

    ghost predicate Shape()
    {
      && Arrays == {quant as object, chromaQuant, dc.codes, dc.sizes, ac.codes, ac.sizes,
                    chromaDc.codes, chromaDc.sizes, chromaAc.codes, chromaAc.sizes}
      && quant != chromaQuant && quant.Length == chromaQuant.Length == 64
      && dc.Shape() && ac.Shape() && chromaDc.Shape() && chromaAc.Shape()
      && {dc.codes, dc.sizes} !! {ac.codes, ac.sizes} !! {chromaDc.codes, chromaDc.sizes} !! {chromaAc.codes, chromaAc.sizes}
    }

    ghost predicate QuantFor(quality: nat)
      reads quant, chromaQuant
    {
      1 <= quality <= 100 && quant[..] == QuantTable(0, quality) && chromaQuant[..] == QuantTable(1, quality)
    }

    ghost predicate HuffReady()
      reads dc.codes, dc.sizes, ac.codes, ac.sizes, chromaDc.codes, chromaDc.sizes, chromaAc.codes, chromaAc.sizes
    {
      && DC_LUM.Valid() && AC_LUM.Valid() && DC_CHROMA.Valid() && AC_CHROMA.Valid()
      && dc.Holds(DC_LUM) && ac.Holds(AC_LUM) && chromaDc.Holds(DC_CHROMA) && chromaAc.Holds(AC_CHROMA)
    }

    /** Whatever is marked as computed is right. */
    ghost predicate Valid()
      reads this, Arrays
    {
      Shape() && (lastQuality != 0 ==> QuantFor(lastQuality)) && (huffInitialized ==> HuffReady())
    }

    /** Ready for an encoder of this quality. */
    ghost predicate Ready(quality: nat)
      reads this, Arrays
    {
      Valid() && huffInitialized && lastQuality == quality != 0
    }

    constructor ()
      ensures Valid() && lastQuality == 0 && !huffInitialized
      ensures fresh(Arrays)
    {
      lastQuality, huffInitialized := 0, false;
      var q, cq := new byte[64], new byte[64];
      var d := new CodeTable();
      var a := new CodeTable();
      var cd := new CodeTable();
      var ca := new CodeTable();
      quant, chromaQuant, dc, ac, chromaDc, chromaAc := q, cq, d, a, cd, ca;
      Arrays := {q as object, cq, d.codes, d.sizes, a.codes, a.sizes, cd.codes, cd.sizes, ca.codes, ca.sizes};
    }

    method ComputeQuantTable(dst: array<byte>, comp: nat, quality: nat)
      requires dst.Length == 64 && 1 <= quality <= 100
      modifies dst
      ensures dst[..] == QuantTable(comp, quality)
    {
      var percent: int;
      if quality < 50 {
        percent := 5000 / quality;
      } else {
        percent := 200 - quality * 2;
      }
      for i := 0 to 64
        invariant forall k :: 0 <= k < i ==> dst[k] == QuantTable(comp, quality)[k]
      {
        var j: int := StandardQuant(comp)[i];
        j := (j * percent + 50) / 100;
        dst[i] := if j < 1 then 1 else if j > 255 then 255 else j;
      }
    }

    /** Recomputes the quantisers only when the quality changed. */
    method PrepareQuant(quality: nat)
      requires Shape() && (lastQuality != 0 ==> QuantFor(lastQuality)) && 1 <= quality <= 100
      modifies this`lastQuality, quant, chromaQuant
      ensures lastQuality == quality && QuantFor(quality)
    {
      hide QuantTable;
      if lastQuality != quality {
        lastQuality := quality;
        ComputeQuantTable(quant, 0, quality);
        ComputeQuantTable(chromaQuant, 1, quality);
      }
    }

    /** Sets up everything an encoder of this quality reads; the codes are computed only once. */
    method Prepare(quality: nat)
      requires Valid() && 1 <= quality <= 100
      modifies this, Arrays
      ensures Ready(quality)
    {
      hide QuantTable, SymbolCode, SymbolSize, Sizes, SizesUpTo;
      PrepareQuant(quality);
      if !huffInitialized {
        huffInitialized := true;
        FillCodes();
      }
    }

    method FillCodes()
      requires Shape()
      modifies dc.codes, dc.sizes, ac.codes, ac.sizes, chromaDc.codes, chromaDc.sizes, chromaAc.codes, chromaAc.sizes
      ensures HuffReady()
    {
      hide Sizes, SizesUpTo, SymbolCode, SymbolSize;
      DcLumUsable();
      AcLumUsable();
      DcChromaUsable();
      AcChromaUsable();
      ComputeHuffmanTable(dc.codes, dc.sizes, DC_LUM);
      ComputeHuffmanTable(ac.codes, ac.sizes, AC_LUM);
      ComputeHuffmanTable(chromaDc.codes, chromaDc.sizes, DC_CHROMA);
      ComputeHuffmanTable(chromaAc.codes, chromaAc.sizes, AC_CHROMA);
    }
  }
}
