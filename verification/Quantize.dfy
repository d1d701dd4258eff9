/** Quantisation tables, quantisation, and the zig-zag order of coefficients. */
module Quantize {
  import opened Bits
  import opened BlockCoding

  // ------------------------------------------------------------ tables

  const LUM_QUANT_0: seq<byte> := [16, 11, 12, 14, 12, 10, 16, 14, 13, 14, 18, 17, 16, 19, 24, 40,
    26, 24, 22, 22, 24, 49, 35, 37, 29, 40, 58, 51, 61, 60, 57, 51]
  const LUM_QUANT_1: seq<byte> := [56, 55, 64, 72, 92, 78, 64, 68, 87, 69, 55, 56, 80, 109, 81, 87,
    95, 98, 103, 104, 103, 62, 77, 113, 121, 112, 100, 120, 92, 101, 103, 99]
  const CHROMA_QUANT_0: seq<byte> := [17, 18, 18, 24, 21, 24, 47, 26, 26, 47, 99, 66, 56, 66, 99, 99,
    99, 99, 99, 99, 99, 99, 99, 99, 99, 99, 99, 99, 99, 99, 99, 99]
  const CHROMA_QUANT_1: seq<byte> := [99, 99, 99, 99, 99, 99, 99, 99, 99, 99, 99, 99, 99, 99, 99, 99, 99, 99, 99, 99, 99, 99, 99, 99, 99, 99, 99, 99, 99, 99, 99, 99]

  /** The base tables, in zig-zag order. */
  function StandardQuant(comp: nat): (r: seq<byte>)
    ensures |r| == 64
  {
    if comp == 0 then LUM_QUANT_0 + LUM_QUANT_1 else CHROMA_QUANT_0 + CHROMA_QUANT_1
  }

  /** One entry of the table for a quality: the base value scaled by a percentage and clamped. */
  function QuantEntry(base: byte, quality: nat): (r: byte)
    requires 1 <= quality <= 100
    ensures 1 <= r <= 255
  {
    var percent: int := if quality < 50 then 5000 / quality else 200 - quality * 2;
    var j := (base as int * percent + 50) / 100;
    if j < 1 then 1 else if j > 255 then 255 else j
  }

  function QuantTable(comp: nat, quality: nat): (r: seq<byte>)
    requires 1 <= quality <= 100
    ensures |r| == 64 && forall i :: 0 <= i < 64 ==> 1 <= r[i] <= 255
  {
    seq(64, i requires 0 <= i < 64 => QuantEntry(StandardQuant(comp)[i], quality))
  }

  /** Raising the quality never makes a quantiser step coarser. */
  lemma FinerWithQuality(base: byte, q1: nat, q2: nat)
    requires 1 <= q1 <= q2 <= 100
    ensures QuantEntry(base, q2) <= QuantEntry(base, q1)
  {
    var p1: int := if q1 < 50 then 5000 / q1 else 200 - q1 * 2;
    var p2: int := if q2 < 50 then 5000 / q2 else 200 - q2 * 2;
    assert p2 <= p1 by {
      if q2 < 50 {
        QuotientAntitone(5000, q1, q2);
      } else if q1 < 50 {
        QuotientAntitone(5000, q1, 50);
      }
    }
    MulOrder(p2, p1, base);
    assert base as int * p2 + 50 <= base as int * p1 + 50;
  }

  lemma QuotientAntitone(n: nat, a: nat, b: nat)
    requires 0 < a <= b
    ensures n / b <= n / a
  {
    var q := n / b;
    DivBounds(n, b);
    MulOrder(a, b, q);
    QuotientAtLeast(n, a, q);
  }

  /** The step of a quality: the base value divided by q / 50 below 50, times (100 - q) / 50 from there on. */
  function IdealStep(base: byte, quality: nat): real
    requires 1 <= quality <= 100
  {
    if quality < 50 then base as real * 50.0 / quality as real else base as real * (100 - quality) as real / 50.0
  }

  /** The table holds that step, rounded, with the percentage rounded down first, and kept within 1 and 255. */
  lemma EntryScaled(base: byte, quality: nat)
    requires 1 <= quality <= 100
    ensures var ideal := IdealStep(base, quality); var entry := QuantEntry(base, quality) as real;
      (1.0 < entry ==> entry <= ideal + 0.5) && (entry < 255.0 ==> ideal - 0.5 - base as real / 100.0 <= entry)
  {
    if quality < 50 {
      PercentBounds(quality);
      ScaledLow(base, quality, 5000 / quality);
    } else {
      DivBounds(base as int * (200 - quality * 2) + 50, 100);
    }
  }

  lemma PercentBounds(quality: nat)
    requires 0 < quality
    ensures var p := 5000 / quality; p * quality <= 5000 < p * quality + quality
  {
    DivBounds(5000, quality);
  }

  lemma ScaledLow(base: byte, quality: nat, p: nat)
    requires 0 < quality && p * quality <= 5000 < p * quality + quality
    ensures var ideal := base as real * 50.0 / quality as real; var j := (base as int * p + 50) / 100;
      j as real <= ideal + 0.5 && ideal - 0.5 - base as real / 100.0 <= j as real
  {
    DivBounds(base as int * p + 50, 100);
    var ideal := base as real * 50.0 / quality as real;
    RatioBounds(base as real, quality as real, p as real, ideal);
  }

  lemma RatioBounds(base: real, quality: real, p: real, ideal: real)
    requires base >= 0.0 && quality > 0.0 && p * quality <= 5000.0 <= p * quality + quality && ideal == base * 50.0 / quality
    ensures base * p <= 100.0 * ideal <= base * p + base
  {
    assert 100.0 * ideal * quality == base * 5000.0;
  }

  /** Quality 50 uses the tables of T.81, Annex K, as they are, quality 100 steps of one. */
  lemma EntryAnchors(base: byte)
    requires base > 0
    ensures QuantEntry(base, 50) == base && QuantEntry(base, 100) == 1
  {
    DivUnique(base as int * 100 + 50, 100, base, 50);
  }

  // ------------------------------------------------------- one coefficient

  /** Division by the step, rounded to nearest with halves away from zero. */
  function QuantizeValue(c: int, q: nat): int
    requires q > 0
  {
    if c < 0 then
      var j := -c + q / 2;
      if j < q then 0 else -(j / q)
    else
      var j := c + q / 2;
      if j < q then 0 else j / q
  }

  /** m is the multiple of the step q nearest to c, a tie going away from zero. */
  predicate Nearest(c: int, q: nat, m: int)
  {
    2 * Abs(c - m) <= q && (2 * Abs(c - m) == q ==> Abs(m) > Abs(c))
  }

  /** Adding half a step and truncating to a multiple rounds to nearest, on either side of zero. */
  lemma HalfStep(a: int, q: nat, multiple: int, remainder: nat)
    requires a >= 0 && multiple >= 0 && a + q / 2 == multiple + remainder && remainder < q
    ensures Nearest(a, q, multiple) && Nearest(-a, q, -multiple)
  {
  }

  /** How many steps of q the rounded size of a takes, and their product. */
  function Steps(a: nat, q: nat): int
    requires q > 0
  {
    (a + q / 2) / q
  }

  function Dequantize(k: int, q: nat): int
  {
    k * q
  }

  lemma StepsBounds(a: nat, q: nat)
    requires q > 0
    ensures Dequantize(Steps(a, q), q) <= a + q / 2 < Dequantize(Steps(a, q), q) + q
    ensures Dequantize(-Steps(a, q), q) == -Dequantize(Steps(a, q), q) <= 0
    ensures 0 <= Steps(a, q) <= a
  {
    var k := Steps(a, q);
    DivBounds(a + q / 2, q);
    NegatedProduct(k, q);
    hide Steps;
    NextProduct(a, k, q);
    MulOrder(1, q, a);
    assert a * q == q * a;
  }

  lemma NegatedProduct(k: int, q: int)
    ensures (-k) * q == -(k * q)
  {
  }

  lemma QuantizeForm(c: int, q: nat)
    requires q > 0
    ensures QuantizeValue(c, q) == if c < 0 then -Steps(Abs(c), q) else Steps(Abs(c), q)
  {
    var n := Abs(c) + q / 2;
    if n < q { DivUnique(n, q, 0, n); }
  }

  /** The quantised value stands for the nearest multiple of the step, and is never larger than c. */
  lemma QuantizeNearest(c: int, q: nat)
    requires q > 0
    ensures Nearest(c, q, Dequantize(QuantizeValue(c, q), q)) && Abs(QuantizeValue(c, q)) <= Abs(c)
  {
    hide QuantizeValue, Nearest, Steps, Dequantize;
    QuantizeForm(c, q);
    var a := Abs(c);
    StepsBounds(a, q);
    var m := Dequantize(Steps(a, q), q);
    HalfStep(a, q, m, a + q / 2 - m);
  }

  // ------------------------------------------------------------- zig-zag

  const ZAG_0: seq<nat> := [0, 1, 8, 16, 9, 2, 3, 10, 17, 24, 32, 25, 18, 11, 4, 5,
    12, 19, 26, 33, 40, 48, 41, 34, 27, 20, 13, 6, 7, 14, 21, 28]
  const ZAG_1: seq<nat> := [35, 42, 49, 56, 57, 50, 43, 36, 29, 22, 15, 23, 30, 37, 44, 51,
    58, 59, 52, 45, 38, 31, 39, 46, 53, 60, 61, 54, 47, 55, 62, 63]

  /** The natural position of the i-th coefficient in zig-zag order. */
  function Zag(i: nat): (r: nat)
    requires i < 64
    ensures r < 64 && (r == 0 <==> i == 0)
  {
    if i < 32 then ZAG_0[i] else ZAG_1[i - 32]
  }

  /** The path of T.81, Figure A.6: along anti-diagonals, turning at the edges. */
  function ZigZagNext(p: nat): nat
    requires p < 63
  {
    var row, column := p / 8, p % 8;
    if (row + column) % 2 == 0 then
      if column == 7 then p + 8 else if row == 0 then p + 1 else p - 7
    else
      if row == 7 then p + 1 else if column == 0 then p + 8 else p + 7
  }

  /** The table follows that path. */
  lemma ZagIsZigZag(i: nat)
    requires i < 63
    ensures Zag(i) < 63 && Zag(i + 1) == ZigZagNext(Zag(i))
  {
    if i < 20 { FirstDiagonals(i); } else if i < 40 { MiddleDiagonals(i); } else { LastDiagonals(i); }
  }

  lemma FirstDiagonals(i: nat)
    requires i < 20
    ensures Zag(i) < 63 && Zag(i + 1) == ZigZagNext(Zag(i))
  {
  }

  lemma MiddleDiagonals(i: nat)
    requires 20 <= i < 40
    ensures Zag(i) < 63 && Zag(i + 1) == ZigZagNext(Zag(i))
  {
  }

  lemma LastDiagonals(i: nat)
    requires 40 <= i < 63
    ensures Zag(i) < 63 && Zag(i + 1) == ZigZagNext(Zag(i))
  {
  }

  /** Every position is visited. */
  lemma ZagOnto(p: nat)
    requires p < 64
    ensures exists i :: 0 <= i < 64 && Zag(i) == p
  {
    if p in ZAG_0 {
      var i :| 0 <= i < 32 && ZAG_0[i] == p;
      assert Zag(i) == p;
    } else {
      assert p in ZAG_1;
      var i :| 0 <= i < 32 && ZAG_1[i] == p;
      assert Zag(i + 32) == p;
    }
  }

  /** T.81, Table K.1, row by row. */
  const TABLE_K_1: seq<seq<byte>> := [
    [16, 11, 10, 16, 24, 40, 51, 61],
    [12, 12, 14, 19, 26, 58, 60, 55],
    [14, 13, 16, 24, 40, 57, 69, 56],
    [14, 17, 22, 29, 51, 87, 80, 62],
    [18, 22, 37, 56, 68, 109, 103, 77],
    [24, 35, 55, 64, 81, 104, 113, 92],
    [49, 64, 78, 87, 103, 121, 120, 101],
    [72, 92, 95, 98, 112, 100, 103, 99]]

  /** T.81, Table K.2. */
  const TABLE_K_2: seq<seq<byte>> := [
    [17, 18, 24, 47, 99, 99, 99, 99],
    [18, 21, 26, 66, 99, 99, 99, 99],
    [24, 26, 56, 99, 99, 99, 99, 99],
    [47, 66, 99, 99, 99, 99, 99, 99],
    [99, 99, 99, 99, 99, 99, 99, 99],
    [99, 99, 99, 99, 99, 99, 99, 99],
    [99, 99, 99, 99, 99, 99, 99, 99],
    [99, 99, 99, 99, 99, 99, 99, 99]]

  lemma Quarter1OfTable1(i: nat)
    requires 0 <= i < 16
    ensures StandardQuant(0)[i] == TABLE_K_1[Zag(i) / 8][Zag(i) % 8]
  {
  }

  lemma Quarter2OfTable1(i: nat)
    requires 16 <= i < 32
    ensures StandardQuant(0)[i] == TABLE_K_1[Zag(i) / 8][Zag(i) % 8]
  {
  }

  lemma Quarter3OfTable1(i: nat)
    requires 32 <= i < 48
    ensures StandardQuant(0)[i] == TABLE_K_1[Zag(i) / 8][Zag(i) % 8]
  {
  }

  lemma Quarter4OfTable1(i: nat)
    requires 48 <= i < 64
    ensures StandardQuant(0)[i] == TABLE_K_1[Zag(i) / 8][Zag(i) % 8]
  {
  }

  lemma Quarter1OfTable2(i: nat)
    requires 0 <= i < 16
    ensures StandardQuant(1)[i] == TABLE_K_2[Zag(i) / 8][Zag(i) % 8]
  {
  }

  lemma Quarter2OfTable2(i: nat)
    requires 16 <= i < 32
    ensures StandardQuant(1)[i] == TABLE_K_2[Zag(i) / 8][Zag(i) % 8]
  {
  }

  lemma Quarter3OfTable2(i: nat)
    requires 32 <= i < 48
    ensures StandardQuant(1)[i] == TABLE_K_2[Zag(i) / 8][Zag(i) % 8]
  {
  }

  lemma Quarter4OfTable2(i: nat)
    requires 48 <= i < 64
    ensures StandardQuant(1)[i] == TABLE_K_2[Zag(i) / 8][Zag(i) % 8]
  {
  }

  /** The base tables are those of Annex K in zig-zag order. */
  lemma StandardIsAnnexK(comp: nat, i: nat)
    requires i < 64
    ensures StandardQuant(comp)[i] == (if comp == 0 then TABLE_K_1 else TABLE_K_2)[Zag(i) / 8][Zag(i) % 8]
  {
    hide Zag;
    if i < 16 { Quarter1OfTable1(i); Quarter1OfTable2(i); }
    else if i < 32 { Quarter2OfTable1(i); Quarter2OfTable2(i); }
    else if i < 48 { Quarter3OfTable1(i); Quarter3OfTable2(i); }
    else { Quarter4OfTable1(i); Quarter4OfTable2(i); }
  }

  /** The quantised coefficients of a transformed block, in zig-zag order. */
  function QuantizeBlock(c: seq<int>, table: seq<byte>): (r: seq<int>)
    requires |c| == 64 && |table| == 64 && forall i :: 0 <= i < 64 ==> table[i] > 0
    ensures |r| == 64
  {
    seq(64, i requires 0 <= i < 64 => QuantizeValue(c[Zag(i)], table[i]))
  }

  /** A transformed block of 8-bit samples, quantised by any table, stays
      within the reach of the standard codes. */
  lemma QuantizedInRange(c: seq<int>, table: seq<byte>)
    requires |c| == 64 && |table| == 64 && forall i :: 0 <= i < 64 ==> table[i] > 0
    requires -1024 <= c[0] <= 1016 && forall k :: 1 <= k < 64 ==> -1020 <= c[k] <= 1020
    ensures var zz := QuantizeBlock(c, table);
      -1024 <= zz[0] <= 1016 && forall i :: 1 <= i < 64 ==> Abs(zz[i]) <= 1020
  {
    hide QuantizeValue, QuantizeBlock, Zag;
    forall i | 0 <= i < 64
      ensures QuantizeBlock(c, table)[i] == QuantizeValue(c[Zag(i)], table[i])
      ensures Between(c[Zag(i)], QuantizeValue(c[Zag(i)], table[i]))
    {
      BlockAt(c, table, i);
      QuantizeShrinks(c[Zag(i)], table[i]);
    }
  }

  /** k lies between zero and c. */
  predicate Between(c: int, k: int)
  {
    if c < 0 then c <= k <= 0 else 0 <= k <= c
  }

  lemma QuantizeShrinks(c: int, q: nat)
    requires q > 0
    ensures Between(c, QuantizeValue(c, q))
  {
    QuantizeNearest(c, q);
    QuantizeSign(c, q);
    hide QuantizeValue;
  }

  lemma QuantizeSign(c: int, q: nat)
    requires q > 0
    ensures if c < 0 then QuantizeValue(c, q) <= 0 else QuantizeValue(c, q) >= 0
  {
    QuantizeForm(c, q);
    StepsBounds(Abs(c), q);
    hide QuantizeValue, Steps;
  }

  lemma BlockAt(c: seq<int>, table: seq<byte>, i: nat)
    requires |c| == 64 && |table| == 64 && i < 64 && forall i :: 0 <= i < 64 ==> table[i] > 0
    ensures QuantizeBlock(c, table)[i] == QuantizeValue(c[Zag(i)], table[i])
  {
    hide QuantizeValue, Zag;
  }
}
