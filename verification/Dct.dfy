/** The forward DCT of the encoder in 32-bit integer arithmetic with 16-bit
    multiplier inputs, and its distance from the transform with a rounded cosine matrix. */
module Dct {
  import opened Bits

  newtype int32 = x: int | -0x8000_0000 <= x < 0x8000_0000

  datatype Vec8 = Vec8(a0: int, a1: int, a2: int, a3: int, a4: int, a5: int, a6: int, a7: int)

  function At(v: Vec8, k: int): int
  {
    if k == 0 then v.a0 else if k == 1 then v.a1 else if k == 2 then v.a2 else if k == 3 then v.a3
    else if k == 4 then v.a4 else if k == 5 then v.a5 else if k == 6 then v.a6 else v.a7
  }

  /** All components lie between lo and hi. */
  predicate Between(v: Vec8, lo: int, hi: int)
  {
    && lo <= v.a0 <= hi && lo <= v.a1 <= hi && lo <= v.a2 <= hi && lo <= v.a3 <= hi
    && lo <= v.a4 <= hi && lo <= v.a5 <= hi && lo <= v.a6 <= hi && lo <= v.a7 <= hi
  }

  /** Inputs for which the transform stays exact: at most 4096 in size, and
      spread over fewer than 8192 values so that sums of eight fit 16 bits. */
  ghost predicate Exact(v: Vec8)
  {
    exists lo, hi :: -4096 <= lo <= hi <= 4096 && hi - lo < 8192 && Between(v, lo, hi)
  }

  /** Truncation to a signed 16-bit value. */
  function ToInt16(x: int32): (r: int32)
    ensures -0x8000 <= r < 0x8000
    ensures -0x8000 <= x < 0x8000 ==> r == x
  {
    ((x as int + 0x8000) % 0x1_0000 - 0x8000) as int32
  }

  function DctMul(x: int32, c: int32): (r: int32)
    requires -0x8000 <= c < 0x8000
    ensures -0x8000 <= x < 0x8000 ==> r as int == x as int * c as int
  {
    assert -0x4000_0000 <= ToInt16(x) as int * c as int <= 0x4000_0000 by {
      ProductBound(ToInt16(x) as int, c as int);
    }
    ToInt16(x) * c
  }

  lemma ProductBound(a: int, b: int)
    requires -0x8000 <= a <= 0x8000 && -0x8000 <= b <= 0x8000
    ensures -0x4000_0000 <= a * b <= 0x4000_0000
  {
    if b >= 0 {
      MulOrder(a, 0x8000, b);
      MulOrder(-0x8000, a, b);
    } else {
      MulOrder(a, 0x8000, -b);
      MulOrder(-0x8000, a, -b);
    }
  }

  /** The sums the multipliers see fit 16 bits. */
  lemma SumsFit(s: Vec8)
    requires Exact(s)
    ensures Between(s, -4096, 4096)
    ensures var e0, e1, e2, e3 := s.a0 + s.a7, s.a1 + s.a6, s.a2 + s.a5, s.a3 + s.a4;
      -0x8000 <= e0 + e1 - e2 - e3 < 0x8000 && -0x8000 <= e1 + e2 - e0 - e3 < 0x8000
      && -0x8000 <= e0 - e3 < 0x8000 && -0x8000 <= e1 - e2 < 0x8000
    ensures var d0, d1, d2, d3 := s.a0 - s.a7, s.a1 - s.a6, s.a2 - s.a5, s.a3 - s.a4;
      -0x7FFF <= d0 + d1 + d2 + d3 <= 0x7FFF
  {
  }

  predicate Small(x: int32, bound: int)
  {
    -bound <= x as int <= bound
  }

  /** The even frequencies, from the sums of opposite inputs. */
  function EvenPart(t0: int32, t1: int32, t2: int32, t3: int32): (int32, int32, int32, int32)
    requires Small(t0, 0x2000) && Small(t1, 0x2000) && Small(t2, 0x2000) && Small(t3, 0x2000)
  {
    var t10, t13, t11, t12 := t0 + t3, t0 - t3, t1 + t2, t1 - t2;
    var u1 := DctMul(t12 + t13, 4433);
    (t10 + t11, u1 + DctMul(t13, 6270), t10 - t11, u1 + DctMul(t12, -15137))
  }

  /** The odd frequencies, from the differences. */
  function OddPart(t4: int32, t5: int32, t6: int32, t7: int32): (int32, int32, int32, int32)
    requires Small(t4, 0x2000) && Small(t5, 0x2000) && Small(t6, 0x2000) && Small(t7, 0x2000)
    requires Small(t4 + t5 + t6 + t7, 0x7FFF)
  {
    var v1, v2, v3, v4 := t4 + t7, t5 + t6, t4 + t6, t5 + t7;
    var z5 := DctMul(v3 + v4, 9633);
    var w4, w5, w6, w7 := DctMul(t4, 2446), DctMul(t5, 16819), DctMul(t6, 25172), DctMul(t7, 12299);
    var x1, x2 := DctMul(v1, -7373), DctMul(v2, -20995);
    var x3, x4 := DctMul(v3, -16069) + z5, DctMul(v4, -3196) + z5;
    (w7 + x1 + x4, w6 + x2 + x3, w5 + x2 + x4, w4 + x1 + x3)
  }

  /** The one-dimensional transform. The 32-bit type makes every operation on
      the way a checked one. */
  function Dct1D(s: Vec8): Vec8
    requires Exact(s)
  {
    hide Exact, EvenPart, OddPart;
    SumsFit(s);
    var s0, s1, s2, s3 := s.a0 as int32, s.a1 as int32, s.a2 as int32, s.a3 as int32;
    var s4, s5, s6, s7 := s.a4 as int32, s.a5 as int32, s.a6 as int32, s.a7 as int32;
    var even := EvenPart(s0 + s7, s1 + s6, s2 + s5, s3 + s4);
    var odd := OddPart(s3 - s4, s2 - s5, s1 - s6, s0 - s7);
    Vec8(even.0 as int, odd.0 as int, even.1 as int, odd.1 as int,
         even.2 as int, odd.2 as int, even.3 as int, odd.3 as int)
  }

  /** No 16-bit cast changes a value, so every output is one fixed integer combination of the inputs. */
  lemma Dct1DLinear(s: Vec8)
    requires Exact(s)
    ensures var r := Dct1D(s);
      var d0, d1, d2, d3 := s.a0 - s.a7, s.a1 - s.a6, s.a2 - s.a5, s.a3 - s.a4;
      var e0, e1, e2, e3 := s.a0 + s.a7, s.a1 + s.a6, s.a2 + s.a5, s.a3 + s.a4;
      && r.a0 == e0 + e1 + e2 + e3
      && r.a1 == 11363 * d0 + 9633 * d1 + 6437 * d2 + 2260 * d3
      && r.a2 == 10703 * e0 + 4433 * e1 - 4433 * e2 - 10703 * e3
      && r.a3 == 9633 * d0 - 2259 * d1 - 11362 * d2 - 6436 * d3
      && r.a4 == e0 - e1 - e2 + e3
      && r.a5 == 6437 * d0 - 11362 * d1 + 2261 * d2 + 9633 * d3
      && r.a6 == 4433 * e0 - 10704 * e1 + 10704 * e2 - 4433 * e3
      && r.a7 == 2260 * d0 - 6436 * d1 + 9633 * d2 - 11363 * d3
  {
    SumsFit(s);
  }

  // -------------------------------------------------- the two-dimensional DCT

  /** Values that leave room in 32 bits for half a unit of rounding. */
  predicate Roomy(x: int)
  {
    -0x4000_0000 <= x < 0x4000_0000
  }

  /** DCT_DESCALE: division by a power of two, rounding halves up. */
  function Descale(x: int, d: nat): int
    requires Roomy(x) && 1 < d <= 0x4_0000
  {
    ((x as int32 + (d as int32) / 2) / d as int32) as int
  }

  lemma DescaleForm(x: int, d: nat)
    requires Roomy(x) && 1 < d <= 0x4_0000
    ensures Descale(x, d) == (x + d / 2) / d
  {
  }

  /** The outputs fit. */
  lemma Dct1DRoomy(s: Vec8)
    requires Exact(s)
    ensures Between(Dct1D(s), -0x3000_0000, 0x3000_0000)
  {
    hide Exact, Dct1D;
    SumsFit(s);
    Dct1DLinear(s);
  }

  lemma DescaleBetween(x: int, d: nat, lo: int, hi: int)
    requires 1 < d <= 0x4_0000 && d % 2 == 0 && lo * d - d / 2 <= x < hi * d + d / 2
    requires Roomy(lo * d - d / 2) && Roomy(hi * d + d / 2)
    ensures lo <= Descale(x, d) <= hi
  {
    DescaleForm(x, d);
    hide Descale;
    var q, r := Descale(x, d), (x + d / 2) % d;
    assert x + d / 2 == q * d + r;
    if q < lo {
      MulOrder(q + 1, lo, d);
    } else if q > hi {
      MulOrder(hi + 1, q, d);
    }
  }

  function RowPass(s: Vec8): Vec8
    requires Exact(s)
  {
    Dct1DRoomy(s);
    var t := Dct1D(s);
    Vec8(t.a0 * 4, Descale(t.a1, 2048), Descale(t.a2, 2048), Descale(t.a3, 2048),
         t.a4 * 4, Descale(t.a5, 2048), Descale(t.a6, 2048), Descale(t.a7, 2048))
  }

  function ColumnPass(s: Vec8): Vec8
    requires Exact(s)
  {
    Dct1DRoomy(s);
    var t := Dct1D(s);
    Vec8(Descale(t.a0, 32), Descale(t.a1, 0x4_0000), Descale(t.a2, 0x4_0000), Descale(t.a3, 0x4_0000),
         Descale(t.a4, 32), Descale(t.a5, 0x4_0000), Descale(t.a6, 0x4_0000), Descale(t.a7, 0x4_0000))
  }

  lemma SmallIsExact(s: Vec8, lo: int, hi: int)
    requires -4096 <= lo <= hi <= 4096 && hi - lo < 8192 && Between(s, lo, hi)
    ensures Exact(s)
  {
  }

  predicate UpTo(x: int, bound: int)
  {
    -bound <= x <= bound
  }

  /** The outputs for inputs that are spread over a range: all but the sum depend on the spread alone. */
  lemma EvenRanges(s: Vec8, lo: int, hi: int)
    requires Between(s, lo, hi) && Exact(s)
    ensures var t := Dct1D(s); var w := hi - lo;
      8 * lo <= t.a0 <= 8 * hi && UpTo(t.a4, 4 * w) && UpTo(t.a2, 30272 * w) && UpTo(t.a6, 30274 * w)
  {
    hide Exact, Dct1D;
    EvenSums(s.a0 + s.a7 - (s.a3 + s.a4), s.a1 + s.a6 - (s.a2 + s.a5), hi - lo);
    Dct1DLinear(s);
  }

  lemma OddRanges(s: Vec8, lo: int, hi: int)
    requires Between(s, lo, hi) && Exact(s)
    ensures var t := Dct1D(s); var w := hi - lo;
      UpTo(t.a1, 29693 * w) && UpTo(t.a3, 29690 * w) && UpTo(t.a5, 29693 * w) && UpTo(t.a7, 29692 * w)
  {
    hide Exact, Dct1D;
    OddSums(s.a0 - s.a7, s.a1 - s.a6, s.a2 - s.a5, s.a3 - s.a4, hi - lo);
    Dct1DLinear(s);
  }

  lemma EvenSums(f: int, g: int, w: int)
    requires UpTo(f, 2 * w) && UpTo(g, 2 * w)
    ensures UpTo(10703 * f + 4433 * g, 30272 * w) && UpTo(4433 * f - 10704 * g, 30274 * w)
  {
  }

  lemma OddSums(d0: int, d1: int, d2: int, d3: int, w: int)
    requires UpTo(d0, w) && UpTo(d1, w) && UpTo(d2, w) && UpTo(d3, w)
    ensures UpTo(11363 * d0 + 9633 * d1 + 6437 * d2 + 2260 * d3, 29693 * w)
    ensures UpTo(9633 * d0 - 2259 * d1 - 11362 * d2 - 6436 * d3, 29690 * w)
    ensures UpTo(6437 * d0 - 11362 * d1 + 2261 * d2 + 9633 * d3, 29693 * w)
    ensures UpTo(2260 * d0 - 6436 * d1 + 9633 * d2 - 11363 * d3, 29692 * w)
  {
  }

  lemma RowBounds(s: Vec8)
    requires Between(s, -128, 127)
    ensures Exact(s)
    ensures var r := RowPass(s);
      -4096 <= r.a0 <= 4064 && -4080 <= r.a1 <= 4080 && -4080 <= r.a2 <= 4080 && -4080 <= r.a3 <= 4080 &&
      -4080 <= r.a4 <= 4080 && -4080 <= r.a5 <= 4080 && -4080 <= r.a6 <= 4080 && -4080 <= r.a7 <= 4080
  {
    hide Dct1D, Exact, Descale;
    SmallIsExact(s, -128, 127);
    EvenRanges(s, -128, 127);
    OddRanges(s, -128, 127);
    var t := Dct1D(s);
    DescaleBetween(t.a1, 2048, -4080, 4080);
    DescaleBetween(t.a2, 2048, -4080, 4080);
    DescaleBetween(t.a3, 2048, -4080, 4080);
    DescaleBetween(t.a5, 2048, -4080, 4080);
    DescaleBetween(t.a6, 2048, -4080, 4080);
    DescaleBetween(t.a7, 2048, -4080, 4080);
  }

  /** The column of the sums: one DC coefficient and seven AC ones. */
  lemma FirstColumnBounds(s: Vec8)
    requires Between(s, -4096, 4064)
    ensures Exact(s)
    ensures var r := ColumnPass(s);
      -1024 <= r.a0 <= 1016 && -1020 <= r.a1 <= 1020 && -1020 <= r.a2 <= 1020 && -1020 <= r.a3 <= 1020 &&
      -1020 <= r.a4 <= 1020 && -1020 <= r.a5 <= 1020 && -1020 <= r.a6 <= 1020 && -1020 <= r.a7 <= 1020
  {
    hide Dct1D, Exact, Descale;
    SmallIsExact(s, -4096, 4064);
    EvenRanges(s, -4096, 4064);
    OddRanges(s, -4096, 4064);
    var t := Dct1D(s);
    DescaleBetween(t.a0, 32, -1024, 1016);
    DescaleBetween(t.a4, 32, -1020, 1020);
    DescaleBetween(t.a1, 0x4_0000, -1020, 1020);
    DescaleBetween(t.a2, 0x4_0000, -1020, 1020);
    DescaleBetween(t.a3, 0x4_0000, -1020, 1020);
    DescaleBetween(t.a5, 0x4_0000, -1020, 1020);
    DescaleBetween(t.a6, 0x4_0000, -1020, 1020);
    DescaleBetween(t.a7, 0x4_0000, -1020, 1020);
  }

  lemma OtherColumnBounds(s: Vec8)
    requires Between(s, -4080, 4080)
    ensures Exact(s)
    ensures Between(ColumnPass(s), -1020, 1020)
  {
    hide Dct1D, Exact, Descale;
    SmallIsExact(s, -4080, 4080);
    EvenRanges(s, -4080, 4080);
    OddRanges(s, -4080, 4080);
    var t := Dct1D(s);
    DescaleBetween(t.a0, 32, -1020, 1020);
    DescaleBetween(t.a4, 32, -1020, 1020);
    DescaleBetween(t.a1, 0x4_0000, -1020, 1020);
    DescaleBetween(t.a2, 0x4_0000, -1020, 1020);
    DescaleBetween(t.a3, 0x4_0000, -1020, 1020);
    DescaleBetween(t.a5, 0x4_0000, -1020, 1020);
    DescaleBetween(t.a6, 0x4_0000, -1020, 1020);
    DescaleBetween(t.a7, 0x4_0000, -1020, 1020);
  }

  predicate Samples(b: seq<int>)
  {
    |b| == 64 && forall k :: 0 <= k < 64 ==> -128 <= b[k] <= 127
  }

  function Row(b: seq<int>, y: nat): Vec8
    requires |b| == 64 && y < 8
  {
    Vec8(b[8 * y], b[8 * y + 1], b[8 * y + 2], b[8 * y + 3], b[8 * y + 4], b[8 * y + 5], b[8 * y + 6], b[8 * y + 7])
  }

  function Column(b: seq<int>, x: nat): Vec8
    requires |b| == 64 && x < 8
  {
    Vec8(b[x], b[8 + x], b[16 + x], b[24 + x], b[32 + x], b[40 + x], b[48 + x], b[56 + x])
  }

  lemma SampleRow(b: seq<int>, y: nat)
    requires Samples(b) && y < 8
    ensures Between(Row(b, y), -128, 127) && Exact(Row(b, y))
  {
    SmallIsExact(Row(b, y), -128, 127);
  }

  /** All rows transformed. */
  function Rows(b: seq<int>): (r: seq<int>)
    requires Samples(b)
    ensures |r| == 64
    ensures forall k :: 0 <= k < 64 ==>
      -4096 <= r[k] <= 4080 && (k % 8 == 0 ==> r[k] <= 4064) && (k % 8 != 0 ==> -4080 <= r[k])
  {
    seq(64, k requires 0 <= k < 64 => RowEntry(b, k / 8, k % 8))
  }

  function RowEntry(b: seq<int>, y: nat, u: nat): (r: int)
    requires Samples(b) && y < 8 && u < 8
    ensures -4096 <= r <= 4080 && (u == 0 ==> r <= 4064) && (u != 0 ==> -4080 <= r)
  {
    hide RowPass;
    RowBounds(Row(b, y));
    At(RowPass(Row(b, y)), u)
  }

  lemma ColumnRange(b: seq<int>, u: nat)
    requires Samples(b) && u < 8
    ensures u == 0 ==> Between(Column(Rows(b), u), -4096, 4064)
    ensures u != 0 ==> Between(Column(Rows(b), u), -4080, 4080)
  {
    hide RowEntry;
    var r := Rows(b);
    forall y | 0 <= y < 8
      ensures u == 0 ==> -4096 <= r[8 * y + u] <= 4064
      ensures u != 0 ==> -4080 <= r[8 * y + u] <= 4080
    {
      assert (8 * y + u) % 8 == u;
    }
    assert r[u] == r[8 * 0 + u];
  }

  /** The coefficient of vertical frequency v and horizontal frequency u. */
  function Coefficient(b: seq<int>, v: nat, u: nat): (r: int)
    requires Samples(b) && v < 8 && u < 8
    ensures v == 0 && u == 0 ==> -1024 <= r <= 1016
    ensures v != 0 || u != 0 ==> -1020 <= r <= 1020
  {
    hide ColumnPass, Rows, Exact;
    ColumnRange(b, u);
    var column := Column(Rows(b), u);
    if u == 0 then
      FirstColumnBounds(column);
      At(ColumnPass(column), v)
    else
      OtherColumnBounds(column);
      At(ColumnPass(column), v)
  }

  function CoefficientAt(b: seq<int>, k: nat): (r: int)
    requires Samples(b) && k < 64
    ensures k == 0 ==> -1024 <= r <= 1016
    ensures k != 0 ==> -1020 <= r <= 1020
  {
    hide Coefficient, Samples;
    Coefficient(b, k / 8, k % 8)
  }

  /** The transformed block: the DC value lies in [-1024, 1016] and every AC value within 1020 of zero. */
  function Dct2D(b: seq<int>): (r: seq<int>)
    requires Samples(b)
    ensures |r| == 64 && -1024 <= r[0] <= 1016
    ensures forall k :: 1 <= k < 64 ==> -1020 <= r[k] <= 1020
  {
    seq(64, k requires 0 <= k < 64 => CoefficientAt(b, k))
  }

  // ------------------------------------------------------ the method itself

  method StoreRow(p: array<int>, y: nat, v: Vec8)
    requires p.Length == 64 && y < 8
    modifies p
    ensures forall k :: 0 <= k < 64 ==> p[k] == if k / 8 == y then At(v, k % 8) else old(p[k])
  {
    p[8 * y], p[8 * y + 1], p[8 * y + 2], p[8 * y + 3] := v.a0, v.a1, v.a2, v.a3;
    p[8 * y + 4], p[8 * y + 5], p[8 * y + 6], p[8 * y + 7] := v.a4, v.a5, v.a6, v.a7;
  }

  method StoreColumn(p: array<int>, x: nat, v: Vec8)
    requires p.Length == 64 && x < 8
    modifies p
    ensures forall k :: 0 <= k < 64 ==> p[k] == if k % 8 == x then At(v, k / 8) else old(p[k])
  {
    p[x], p[8 + x], p[16 + x], p[24 + x] := v.a0, v.a1, v.a2, v.a3;
    p[32 + x], p[40 + x], p[48 + x], p[56 + x] := v.a4, v.a5, v.a6, v.a7;
  }

  /** The first y rows are transformed, the others untouched. */
  ghost predicate RowsDone(s: seq<int>, b: seq<int>, y: nat)
    requires Samples(b) && |s| == 64
  {
    forall k :: 0 <= k < 64 ==> s[k] == if k / 8 < y then Rows(b)[k] else b[k]
  }

  /** All rows and the first x columns are transformed. */
  ghost predicate ColumnsDone(s: seq<int>, b: seq<int>, x: nat)
    requires Samples(b) && |s| == 64
  {
    forall k :: 0 <= k < 64 ==> s[k] == if k % 8 < x then Dct2D(b)[k] else Rows(b)[k]
  }

  method TransformRow(p: array<int>, y: nat, ghost b: seq<int>)
    requires p.Length == 64 && y < 8 && Samples(b) && RowsDone(p[..], b, y)
    modifies p
    ensures RowsDone(p[..], b, y + 1)
  {
    hide RowPass, Exact, At, Rows;
    forall k | 8 * y <= k < 8 * y + 8 ensures p[k] == b[k] {
      assert p[..][k] == p[k] && k / 8 == y;
    }
    var s := Vec8(p[8 * y], p[8 * y + 1], p[8 * y + 2], p[8 * y + 3], p[8 * y + 4], p[8 * y + 5], p[8 * y + 6], p[8 * y + 7]);
    assert s == Row(b, y);
    SampleRow(b, y);
    StoreRow(p, y, RowPass(s));
    forall k | 0 <= k < 64 ensures p[..][k] == if k / 8 < y + 1 then Rows(b)[k] else b[k] {
      if k / 8 == y { RowsAt(b, y, k % 8); }
      assert old(p[..])[k] == old(p[k]);
    }
  }

  method TransformColumn(p: array<int>, x: nat, ghost b: seq<int>)
    requires p.Length == 64 && x < 8 && Samples(b) && ColumnsDone(p[..], b, x)
    modifies p
    ensures ColumnsDone(p[..], b, x + 1)
  {
    hide ColumnPass, Exact, At, Rows, Dct2D;
    forall i | 0 <= i < 8 ensures p[8 * i + x] == Rows(b)[8 * i + x] {
      assert p[..][8 * i + x] == p[8 * i + x] && (8 * i + x) % 8 == x;
    }
    assert p[x] == p[8 * 0 + x] && Rows(b)[x] == Rows(b)[8 * 0 + x];
    var s := Vec8(p[x], p[8 + x], p[16 + x], p[24 + x], p[32 + x], p[40 + x], p[48 + x], p[56 + x]);
    assert s == Column(Rows(b), x);
    ColumnExact(b, x);
    StoreColumn(p, x, ColumnPass(s));
    forall k | 0 <= k < 64 ensures p[..][k] == if k % 8 < x + 1 then Dct2D(b)[k] else Rows(b)[k] {
      if k % 8 == x { ColumnsAt(b, k / 8, x); }
      assert old(p[..])[k] == old(p[k]);
    }
  }

  /** Transforms a block in place: first the rows, then the columns. */
  method Dct2DInPlace(p: array<int>)
    requires p.Length == 64 && Samples(p[..])
    modifies p
    ensures p[..] == Dct2D(old(p[..]))
  {
    hide Rows, Dct2D;
    ghost var b := p[..];
    for y := 0 to 8
      invariant RowsDone(p[..], b, y)
    {
      TransformRow(p, y, b);
    }
    for x := 0 to 8
      invariant ColumnsDone(p[..], b, x)
    {
      TransformColumn(p, x, b);
    }
    assert p[..] == Dct2D(b);
  }

  lemma ColumnExact(b: seq<int>, x: nat)
    requires Samples(b) && x < 8
    ensures Exact(Column(Rows(b), x))
  {
    hide Exact, Rows;
    ColumnRange(b, x);
    if x == 0 { SmallIsExact(Column(Rows(b), x), -4096, 4064); } else { SmallIsExact(Column(Rows(b), x), -4080, 4080); }
  }

  lemma ColumnsAt(b: seq<int>, v: nat, u: nat)
    requires Samples(b) && v < 8 && u < 8
    ensures Exact(Column(Rows(b), u)) && Dct2D(b)[8 * v + u] == At(ColumnPass(Column(Rows(b), u)), v)
  {
    hide ColumnPass, Exact, At, Rows;
    ColumnExact(b, u);
    assert (8 * v + u) / 8 == v && (8 * v + u) % 8 == u;
  }

  // ----------------- distance from the transform with a rounded matrix

  /** 8192 * sqrt(2) * cos(j * pi / 16), rounded, for the first quarter turn. */
  function QuarterWave(j: nat): int
  {
    if j == 0 then 11585 else if j == 1 then 11363 else if j == 2 then 10703 else if j == 3 then 9633
    else if j == 4 then 8192 else if j == 5 then 6436 else if j == 6 then 4433 else if j == 7 then 2260 else 0
  }

  /** The same for every multiple of pi / 16, by the symmetries of the cosine. */
  function Wave(m: nat): int
    decreases if m >= 32 then m else if m > 16 then 17 else 0
  {
    if m >= 32 then Wave(m - 32)
    else if m > 16 then Wave(32 - m)
    else if m > 8 then -QuarterWave(16 - m)
    else QuarterWave(m)
  }

  /** Entry (k, n) of the transform matrix: C(k) * cos((2n + 1) * k * pi / 16), scaled by 2^13 * sqrt(2). */
  function FdctEntry(k: nat, n: nat): int
  {
    if k == 0 then 8192 else Wave((2 * n + 1) * k)
  }

  function FdctRow(k: nat): Vec8
  {
    Vec8(FdctEntry(k, 0), FdctEntry(k, 1), FdctEntry(k, 2), FdctEntry(k, 3),
         FdctEntry(k, 4), FdctEntry(k, 5), FdctEntry(k, 6), FdctEntry(k, 7))
  }

  function Dot(a: Vec8, b: Vec8): int
  {
    a.a0 * b.a0 + a.a1 * b.a1 + a.a2 * b.a2 + a.a3 * b.a3 + a.a4 * b.a4 + a.a5 * b.a5 + a.a6 * b.a6 + a.a7 * b.a7
  }

  /** One-dimensional transform of v by the rounded matrix, frequency k. */
  function Fdct1D(k: nat, v: Vec8): int
  {
    Dot(FdctRow(k), v)
  }

  /** Two-dimensional transform by the rounded matrix, scaled by 2^29: rows first, then the column of the results. */
  function Fdct2D(b: seq<int>, v: nat, u: nat): int
    requires |b| == 64
  {
    Fdct1D(v, Vec8(Fdct1D(u, Row(b, 0)), Fdct1D(u, Row(b, 1)), Fdct1D(u, Row(b, 2)), Fdct1D(u, Row(b, 3)),
                   Fdct1D(u, Row(b, 4)), Fdct1D(u, Row(b, 5)), Fdct1D(u, Row(b, 6)), Fdct1D(u, Row(b, 7))))
  }

  /** The matrix written out. */
  lemma FdctRow0()
    ensures FdctRow(0) == Vec8(8192, 8192, 8192, 8192, 8192, 8192, 8192, 8192)
  {
  }

  lemma FdctRow1()
    ensures FdctRow(1) == Vec8(11363, 9633, 6436, 2260, -2260, -6436, -9633, -11363)
  {
  }

  lemma FdctRow2()
    ensures FdctRow(2) == Vec8(10703, 4433, -4433, -10703, -10703, -4433, 4433, 10703)
  {
  }

  lemma FdctRow3()
    ensures FdctRow(3) == Vec8(9633, -2260, -11363, -6436, 6436, 11363, 2260, -9633)
  {
  }

  lemma FdctRow4()
    ensures FdctRow(4) == Vec8(8192, -8192, -8192, 8192, 8192, -8192, -8192, 8192)
  {
  }

  lemma FdctRow5()
    ensures FdctRow(5) == Vec8(6436, -11363, 2260, 9633, -9633, -2260, 11363, -6436)
  {
  }

  lemma FdctRow6()
    ensures FdctRow(6) == Vec8(4433, -10703, 10703, -4433, -4433, 10703, -10703, 4433)
  {
  }

  lemma FdctRow7()
    ensures FdctRow(7) == Vec8(2260, -6436, 9633, -11363, 11363, -9633, 6436, -2260)
  {
  }

  lemma FdctRows()
    ensures FdctRow(0) == Vec8(8192, 8192, 8192, 8192, 8192, 8192, 8192, 8192)
    ensures FdctRow(1) == Vec8(11363, 9633, 6436, 2260, -2260, -6436, -9633, -11363)
    ensures FdctRow(2) == Vec8(10703, 4433, -4433, -10703, -10703, -4433, 4433, 10703)
    ensures FdctRow(3) == Vec8(9633, -2260, -11363, -6436, 6436, 11363, 2260, -9633)
    ensures FdctRow(4) == Vec8(8192, -8192, -8192, 8192, 8192, -8192, -8192, 8192)
    ensures FdctRow(5) == Vec8(6436, -11363, 2260, 9633, -9633, -2260, 11363, -6436)
    ensures FdctRow(6) == Vec8(4433, -10703, 10703, -4433, -4433, 10703, -10703, 4433)
    ensures FdctRow(7) == Vec8(2260, -6436, 9633, -11363, 11363, -9633, 6436, -2260)
  {
    hide FdctRow;
    FdctRow0();
    FdctRow1();
    FdctRow2();
    FdctRow3();
    FdctRow4();
    FdctRow5();
    FdctRow6();
    FdctRow7();
  }

  /** The rows are orthogonal and of squared length 2^29, up to the rounding of the table. */
  lemma NearlyOrthogonal(j: nat, k: nat)
    requires j < 8 && k < 8
    ensures j != k ==> -0x1_0000 <= Dot(FdctRow(j), FdctRow(k)) <= 0x1_0000
    ensures j == k ==> -0x2_0000 <= Dot(FdctRow(j), FdctRow(k)) - 0x2000_0000 <= 0x2_0000
  {
    FdctRows();
    hide FdctRow;
  }

  lemma DescaleError(x: int, d: nat)
    requires Roomy(x) && 1 < d <= 0x4_0000 && d % 2 == 0
    ensures -(d / 2) < d * Descale(x, d) - x <= d / 2
  {
    DescaleForm(x, d);
    hide Descale;
  }

  predicate Within(x: int, y: int, e: int)
  {
    -e <= x - y <= e
  }

  /** The transform by the rounded matrix, frequency by frequency. */
  lemma Fdct1DForms(s: Vec8)
    ensures var d0, d1, d2, d3 := s.a0 - s.a7, s.a1 - s.a6, s.a2 - s.a5, s.a3 - s.a4;
      var e0, e1, e2, e3 := s.a0 + s.a7, s.a1 + s.a6, s.a2 + s.a5, s.a3 + s.a4;
      && Fdct1D(0, s) == 8192 * (e0 + e1 + e2 + e3)
      && Fdct1D(1, s) == 11363 * d0 + 9633 * d1 + 6436 * d2 + 2260 * d3
      && Fdct1D(2, s) == 10703 * e0 + 4433 * e1 - 4433 * e2 - 10703 * e3
      && Fdct1D(3, s) == 9633 * d0 - 2260 * d1 - 11363 * d2 - 6436 * d3
      && Fdct1D(4, s) == 8192 * (e0 - e1 - e2 + e3)
      && Fdct1D(5, s) == 6436 * d0 - 11363 * d1 + 2260 * d2 + 9633 * d3
      && Fdct1D(6, s) == 4433 * e0 - 10703 * e1 + 10703 * e2 - 4433 * e3
      && Fdct1D(7, s) == 2260 * d0 - 6436 * d1 + 9633 * d2 - 11363 * d3
  {
    hide FdctRow;
    FdctRows();
  }

  /** One row: the output misses that of the rounded matrix by at most one unit of its scale. */
  lemma RowAccuracy(s: Vec8, u: nat)
    requires Between(s, -128, 127) && Exact(s) && u < 8
    ensures Within(2048 * At(RowPass(s), u), Fdct1D(u, s), 2048)
  {
    hide Dct1D, Exact, Descale, Fdct1D;
    Fdct1DForms(s);
    Dct1DLinear(s);
    Dct1DRoomy(s);
    var t := Dct1D(s);
    DescaleError(t.a1, 2048);
    DescaleError(t.a2, 2048);
    DescaleError(t.a3, 2048);
    DescaleError(t.a5, 2048);
    DescaleError(t.a6, 2048);
    DescaleError(t.a7, 2048);
  }

  /** The 13-bit constants cost at most one unit per input unit. */
  lemma ConstantsError(s: Vec8)
    requires Exact(s)
    ensures var t := Dct1D(s);
      && 8192 * t.a0 == Fdct1D(0, s) && 8192 * t.a4 == Fdct1D(4, s)
      && Within(t.a1, Fdct1D(1, s), 0x8000) && Within(t.a2, Fdct1D(2, s), 0x8000) && Within(t.a3, Fdct1D(3, s), 0x8000)
      && Within(t.a5, Fdct1D(5, s), 0x8000) && Within(t.a6, Fdct1D(6, s), 0x8000) && Within(t.a7, Fdct1D(7, s), 0x8000)
  {
    hide Dct1D, Fdct1D, Exact;
    SumsFit(s);
    Fdct1DForms(s);
    Dct1DLinear(s);
  }

  /** One column, likewise: half a unit of rounding and an eighth from the constants. */
  lemma ColumnAccuracy(s: Vec8, v: nat)
    requires Exact(s) && v < 8
    ensures Within(0x4_0000 * At(ColumnPass(s), v), Fdct1D(v, s), 0x2_8000)
  {
    hide Dct1D, Exact, Descale, Fdct1D;
    ConstantsError(s);
    Dct1DRoomy(s);
    var t := Dct1D(s);
    DescaleError(t.a0, 32);
    DescaleError(t.a1, 0x4_0000);
    DescaleError(t.a2, 0x4_0000);
    DescaleError(t.a3, 0x4_0000);
    DescaleError(t.a4, 32);
    DescaleError(t.a5, 0x4_0000);
    DescaleError(t.a6, 0x4_0000);
    DescaleError(t.a7, 0x4_0000);
  }

  /** The column transform spreads an error of one unit per row to at most 2^16 units. */
  lemma FdctOfRounded(v: nat, q: Vec8, d: Vec8)
    requires v < 8
    requires Within(2048 * q.a0, d.a0, 2048) && Within(2048 * q.a1, d.a1, 2048) && Within(2048 * q.a2, d.a2, 2048)
    requires Within(2048 * q.a3, d.a3, 2048) && Within(2048 * q.a4, d.a4, 2048) && Within(2048 * q.a5, d.a5, 2048)
    requires Within(2048 * q.a6, d.a6, 2048) && Within(2048 * q.a7, d.a7, 2048)
    ensures Within(2048 * Fdct1D(v, q), Fdct1D(v, d), 0x800_0000)
  {
    hide Fdct1D;
    var e := Vec8(2048 * q.a0 - d.a0, 2048 * q.a1 - d.a1, 2048 * q.a2 - d.a2, 2048 * q.a3 - d.a3,
                  2048 * q.a4 - d.a4, 2048 * q.a5 - d.a5, 2048 * q.a6 - d.a6, 2048 * q.a7 - d.a7);
    FdctOfDifference(v, q, d, e);
    FdctOfSmall(v, e);
  }

  lemma FdctOfDifference(v: nat, q: Vec8, d: Vec8, e: Vec8)
    requires e == Vec8(2048 * q.a0 - d.a0, 2048 * q.a1 - d.a1, 2048 * q.a2 - d.a2, 2048 * q.a3 - d.a3,
                       2048 * q.a4 - d.a4, 2048 * q.a5 - d.a5, 2048 * q.a6 - d.a6, 2048 * q.a7 - d.a7)
    ensures Fdct1D(v, e) == 2048 * Fdct1D(v, q) - Fdct1D(v, d)
  {
    hide FdctRow;
  }

  lemma FdctOfSmall(v: nat, e: Vec8)
    requires v < 8 && Between(e, -2048, 2048)
    ensures Within(Fdct1D(v, e), 0, 0x800_0000)
  {
    hide Fdct1D;
    Fdct1DForms(e);
  }

  /** Every coefficient is within 7/8 of the transform by the rounded matrix. */
  lemma DctAccuracy(b: seq<int>, v: nat, u: nat)
    requires Samples(b) && v < 8 && u < 8
    ensures Within(8 * 0x2000_0000 * Coefficient(b, v, u), 8 * Fdct2D(b, v, u), 7 * 0x2000_0000)
  {
    hide RowPass, ColumnPass, Fdct1D, Exact, Rows, Between, At;
    var q := Column(Rows(b), u);
    ColumnOfRows(b, u);
    ColumnRange(b, u);
    if u == 0 { FirstColumnBounds(q); } else { OtherColumnBounds(q); }
    ColumnAccuracy(q, v);
    forall y | 0 <= y < 8
      ensures Within(2048 * At(RowPass(Row(b, y)), u), Fdct1D(u, Row(b, y)), 2048)
    {
      SampleRow(b, y);
      RowAccuracy(Row(b, y), u);
    }
    FdctOfRounded(v, q, Vec8(Fdct1D(u, Row(b, 0)), Fdct1D(u, Row(b, 1)), Fdct1D(u, Row(b, 2)), Fdct1D(u, Row(b, 3)),
      Fdct1D(u, Row(b, 4)), Fdct1D(u, Row(b, 5)), Fdct1D(u, Row(b, 6)), Fdct1D(u, Row(b, 7))));
  }

  lemma RowsAt(b: seq<int>, y: nat, u: nat)
    requires Samples(b) && y < 8 && u < 8
    ensures Exact(Row(b, y)) && Rows(b)[8 * y + u] == At(RowPass(Row(b, y)), u)
  {
    hide RowPass, Exact, At;
    SampleRow(b, y);
    assert (8 * y + u) / 8 == y && (8 * y + u) % 8 == u;
  }

  lemma ColumnOfRows(b: seq<int>, u: nat)
    requires Samples(b) && u < 8
    ensures forall y :: 0 <= y < 8 ==> Exact(Row(b, y))
    ensures Column(Rows(b), u) == Vec8(
      At(RowPass(Row(b, 0)), u), At(RowPass(Row(b, 1)), u), At(RowPass(Row(b, 2)), u), At(RowPass(Row(b, 3)), u),
      At(RowPass(Row(b, 4)), u), At(RowPass(Row(b, 5)), u), At(RowPass(Row(b, 6)), u), At(RowPass(Row(b, 7)), u))
  {
    assert |b| == 64;
    hide RowPass, Exact, At, Rows, Row, Samples;
    forall y | 0 <= y < 8
      ensures Exact(Row(b, y))
    {
      RowsAt(b, y, u);
    }
    RowsAt(b, 0, u);
    RowsAt(b, 1, u);
    RowsAt(b, 2, u);
    RowsAt(b, 3, u);
    RowsAt(b, 4, u);
    RowsAt(b, 5, u);
    RowsAt(b, 6, u);
    RowsAt(b, 7, u);
  }
}
