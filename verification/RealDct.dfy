/** The FDCT of T.81, A.3.3, over the real numbers, and how close the encoder's integer transform is to it. */
module RealDct {
  import opened Bits
  import opened Dct

  // --------------------------------------------------------------- cosines

  /** The cosines of 1 to 7 times pi / 16: the positive numbers that the half-angle formula gives, starting from
      the cosine of pi / 2. */
  datatype Cosines = Cosines(c1: real, c2: real, c3: real, c4: real, c5: real, c6: real, c7: real) {
    ghost predicate Valid() {
      forall j :: 1 <= j <= 7 ==> Halves(j)
    }

    /** The half-angle formula for j * pi / 16 in the first quarter. */
    predicate Halves(j: nat) {
      Quarter(j) > 0.0 && HalfAngle(Quarter(j), Cos(2 * j))
    }

    /** The cosine of m * pi / 16. */
    function Cos(m: nat): real
      decreases if m >= 32 then m else if m > 16 then 17 else 0
    {
      if m >= 32 then Cos(m - 32)
      else if m > 16 then Cos(32 - m)
      else if m > 8 then -Quarter(16 - m)
      else Quarter(m)
    }

    function Quarter(j: nat): real
    {
      if j == 0 then 1.0 else if j == 1 then c1 else if j == 2 then c2 else if j == 3 then c3
      else if j == 4 then c4 else if j == 5 then c5 else if j == 6 then c6 else if j == 7 then c7 else 0.0
    }

    /** The factor C of A.3.3: 1 / sqrt(2), which is the cosine of pi / 4, for frequency zero. */
    function C(k: nat): real
    {
      if k == 0 then c4 else 1.0
    }
  }

  /** 2 * cos(a)^2 == 1 + cos(2a). */
  predicate HalfAngle(half: real, whole: real)
  {
    2.0 * (half * half) == 1.0 + whole
  }

  lemma SquareOrder(x: real, y: real)
    requires x >= 0.0 && y >= 0.0
    ensures x * x <= y * y ==> x <= y
    ensures x * x < y * y ==> x < y
  {
    if x > y {
      PositiveProduct(x - y, x + y);
      assert (x - y) * (x + y) == x * x - y * y;
    }
  }

  lemma PositiveProduct(a: real, b: real)
    requires a > 0.0 && b > 0.0
    ensures a * b > 0.0
  {
  }

  /** The formula for each cosine. */
  lemma SevenHalves(c: Cosines)
    requires c.Valid()
    ensures c.c1 > 0.0 && c.c2 > 0.0 && c.c3 > 0.0 && c.c4 > 0.0 && c.c5 > 0.0 && c.c6 > 0.0 && c.c7 > 0.0
    ensures HalfAngle(c.c4, 0.0) && HalfAngle(c.c2, c.c4) && HalfAngle(c.c6, -c.c4)
    ensures HalfAngle(c.c1, c.c2) && HalfAngle(c.c7, -c.c2) && HalfAngle(c.c3, c.c6) && HalfAngle(c.c5, -c.c6)
  {
    hide HalfAngle;
    assert c.Halves(1) && c.Halves(2) && c.Halves(3) && c.Halves(4) && c.Halves(5) && c.Halves(6) && c.Halves(7);
  }

  /** The formula determines the cosines. */
  lemma CosinesUnique(a: Cosines, b: Cosines)
    requires a.Valid() && b.Valid()
    ensures a == b
  {
    SevenHalves(a);
    SevenHalves(b);
    hide HalfAngle, Cosines.Valid;
    SameHalf(a.c4, b.c4, 0.0);
    SameHalf(a.c2, b.c2, a.c4);
    SameHalf(a.c6, b.c6, -a.c4);
    SameHalf(a.c1, b.c1, a.c2);
    SameHalf(a.c7, b.c7, -a.c2);
    SameHalf(a.c3, b.c3, a.c6);
    SameHalf(a.c5, b.c5, -a.c6);
  }

  lemma SameHalf(x: real, y: real, whole: real)
    requires x > 0.0 && y > 0.0 && HalfAngle(x, whole) && HalfAngle(y, whole)
    ensures x == y
  {
    SquareOrder(x, y);
    SquareOrder(y, x);
  }

  /** A half-angle cosine between two bounds, from bounds for the whole angle. */
  lemma HalfBetween(x: real, whole: real, lo: real, hi: real)
    requires x > 0.0 && lo >= 0.0 && hi >= 0.0 && HalfAngle(x, whole)
    requires 2.0 * (lo * lo) <= 1.0 + whole <= 2.0 * (hi * hi)
    ensures lo <= x <= hi
  {
    SquareOrder(lo, x);
    SquareOrder(x, hi);
  }

  predicate Near(x: real, y: real, e: real)
  {
    -e <= x - y <= e
  }

  lemma CosineBounds(c: Cosines)
    requires c.Valid()
    ensures 0.70710678 <= c.c4 <= 0.70710679
    ensures 0.9238795 <= c.c2 <= 0.9238796 && 0.38268342 <= c.c6 <= 0.38268345
    ensures 0.9807852 <= c.c1 <= 0.9807853 && 0.1950902 <= c.c7 <= 0.1950905
    ensures 0.8314695 <= c.c3 <= 0.8314697 && 0.5555701 <= c.c5 <= 0.5555703
  {
    hide HalfAngle, Cosines.Valid;
    SevenHalves(c);
    HalfBetween(c.c4, 0.0, 0.70710678, 0.70710679);
    HalfBetween(c.c2, c.c4, 0.9238795, 0.9238796);
    HalfBetween(c.c6, -c.c4, 0.38268342, 0.38268345);
    HalfBetween(c.c1, c.c2, 0.9807852, 0.9807853);
    HalfBetween(c.c7, -c.c2, 0.1950902, 0.1950905);
    HalfBetween(c.c3, c.c6, 0.8314695, 0.8314697);
    HalfBetween(c.c5, -c.c6, 0.5555701, 0.5555703);
  }

  /** 8192 * sqrt(2). */
  function Scale(c: Cosines): real
  {
    16384.0 * c.c4
  }

  /** Multiplication as a function, for reasoning without its axioms. */
  function Product(x: real, y: real): real
  {
    x * y
  }

  lemma ProductBetween(a: real, x: real, alo: real, ahi: real, xlo: real, xhi: real)
    requires 0.0 <= alo <= a <= ahi && 0.0 <= xlo <= x <= xhi
    ensures alo * xlo <= a * x <= ahi * xhi
  {
    assert (a - alo) * x >= 0.0 && alo * (x - xlo) >= 0.0;
    assert (ahi - a) * x >= 0.0 && ahi * (xhi - x) >= 0.0;
  }

  lemma ScaleBounds(c: Cosines)
    requires c.Valid()
    ensures 11585.2374 <= Scale(c) <= 11585.2377
  {
    CosineBounds(c);
  }

  /** A scaled cosine, from bounds for the cosine. */
  lemma ScaledNear(s: real, x: real, lo: real, hi: real, q: real)
    requires 11585.2374 <= s <= 11585.2377 && 0.0 <= lo <= x <= hi
    requires q - 0.49 <= 11585.2374 * lo && 11585.2377 * hi <= q + 0.49
    ensures Near(Product(s, x), q, 0.49)
  {
    ProductBetween(s, x, 11585.2374, 11585.2377, lo, hi);
  }

  /** The table is the scaled quarter wave, rounded to integers. */
  lemma QuarterIsRounded(c: Cosines, j: nat)
    requires c.Valid() && j <= 8
    ensures Near(Product(Scale(c), c.Quarter(j)), QuarterWave(j) as real, 0.49)
  {
    CosineBounds(c);
    ScaleBounds(c);
    hide Scale, Cosines.Valid, Near, Product;
    var s, x, q := Scale(c), c.Quarter(j), QuarterWave(j) as real;
    match j {
      case 1 => ScaledNear(s, x, 0.9807852, 0.9807853, q);
      case 2 => ScaledNear(s, x, 0.9238795, 0.9238796, q);
      case 3 => ScaledNear(s, x, 0.8314695, 0.8314697, q);
      case 4 => ScaledNear(s, x, 0.70710678, 0.70710679, q);
      case 5 => ScaledNear(s, x, 0.5555701, 0.5555703, q);
      case 6 => ScaledNear(s, x, 0.38268342, 0.38268345, q);
      case 7 => ScaledNear(s, x, 0.1950902, 0.1950905, q);
      case _ => EndsRounded(s);
    }
  }

  lemma EndsRounded(s: real)
    requires 11585.2374 <= s <= 11585.2377
    ensures Near(Product(s, 1.0), 11585.0, 0.49) && Near(Product(s, 0.0), 0.0, 0.49)
  {
  }

  function Entry(c: Cosines, m: nat): real
  {
    Product(Scale(c), c.Cos(m))
  }

  /** The scaled cosine of m * pi / 16 is rounded to the entry of the table. */
  predicate Rounded(c: Cosines, m: nat)
  {
    Near(Entry(c, m), Wave(m) as real, 0.49)
  }

  lemma {:induction false} WaveIsRounded(c: Cosines, m: nat)
    requires c.Valid()
    ensures Rounded(c, m)
    decreases if m >= 32 then m else if m > 16 then 17 else 0
  {
    hide Cosines.Valid, Rounded, Scale, QuarterWave, Cosines.Quarter, Product;
    if m >= 32 {
      WaveIsRounded(c, m - 32);
      SameRounded(c, m, m - 32);
    } else if m > 16 {
      WaveIsRounded(c, 32 - m);
      SameRounded(c, m, 32 - m);
    } else if m > 8 {
      QuarterIsRounded(c, 16 - m);
      NegatedNear(Scale(c), c.Quarter(16 - m), QuarterWave(16 - m), 0.49);
      EntryRounded(c, m, -c.Quarter(16 - m), -QuarterWave(16 - m));
    } else {
      QuarterIsRounded(c, m);
      EntryRounded(c, m, c.Quarter(m), QuarterWave(m));
    }
  }

  lemma EntryRounded(c: Cosines, m: nat, x: real, q: int)
    requires c.Cos(m) == x && Wave(m) == q && Near(Product(Scale(c), x), q as real, 0.49)
    ensures Rounded(c, m)
  {
    hide Wave, Cosines.Cos, Product, Scale;
  }

  lemma SameRounded(c: Cosines, m: nat, k: nat)
    requires Rounded(c, k) && c.Cos(m) == c.Cos(k) && Wave(m) == Wave(k)
    ensures Rounded(c, m)
  {
    hide Wave, Cosines.Cos;
  }

  lemma NegatedNear(s: real, x: real, q: int, e: real)
    requires Near(Product(s, x), q as real, e)
    ensures Near(Product(s, -x), (-q) as real, e)
  {
    assert s * -x == -(s * x);
  }

  // ------------------------------------------------- the transform of T.81

  datatype RealVec8 = RealVec8(a0: real, a1: real, a2: real, a3: real, a4: real, a5: real, a6: real, a7: real)

  function Sum(v: RealVec8): real
  {
    v.a0 + v.a1 + v.a2 + v.a3 + v.a4 + v.a5 + v.a6 + v.a7
  }

  function Times(a: RealVec8, b: RealVec8): RealVec8
  {
    RealVec8(Product(a.a0, b.a0), Product(a.a1, b.a1), Product(a.a2, b.a2), Product(a.a3, b.a3),
             Product(a.a4, b.a4), Product(a.a5, b.a5), Product(a.a6, b.a6), Product(a.a7, b.a7))
  }

  function Reals(v: Vec8): RealVec8
  {
    RealVec8(v.a0 as real, v.a1 as real, v.a2 as real, v.a3 as real, v.a4 as real, v.a5 as real, v.a6 as real, v.a7 as real)
  }

  /** cos((2x + 1) * k * pi / 16) for the eight positions x. */
  function CosRow(c: Cosines, k: nat): RealVec8
  {
    RealVec8(c.Cos(k), c.Cos(3 * k), c.Cos(5 * k), c.Cos(7 * k), c.Cos(9 * k), c.Cos(11 * k), c.Cos(13 * k), c.Cos(15 * k))
  }

  /** The inner sum of A.3.3, over one row of samples. */
  function LineSum(c: Cosines, b: seq<int>, y: nat, u: nat): real
    requires |b| == 64 && y < 8
  {
    Sum(Times(CosRow(c, u), Reals(Row(b, y))))
  }

  function LineSums(c: Cosines, b: seq<int>, u: nat): RealVec8
    requires |b| == 64
  {
    RealVec8(LineSum(c, b, 0, u), LineSum(c, b, 1, u), LineSum(c, b, 2, u), LineSum(c, b, 3, u),
             LineSum(c, b, 4, u), LineSum(c, b, 5, u), LineSum(c, b, 6, u), LineSum(c, b, 7, u))
  }

  function Normalized(cu: real, cv: real, sum: real): real
  {
    0.25 * (cu * cv) * sum
  }

  /** The FDCT: a quarter of C(u) * C(v) times the double sum of samples times cosines. */
  function Fdct(c: Cosines, b: seq<int>, v: nat, u: nat): real
    requires |b| == 64
  {
    Normalized(c.C(u), c.C(v), Sum(Times(CosRow(c, v), LineSums(c, b, u))))
  }

  // ------------------------------------------- the rounded matrix, compared

  /** One row of the scaled matrix. */
  function MatrixRow(c: Cosines, k: nat): RealVec8
  {
    Scaled(Product(Scale(c), c.C(k)), CosRow(c, k))
  }

  function Scaled(f: real, v: RealVec8): RealVec8
  {
    RealVec8(Product(f, v.a0), Product(f, v.a1), Product(f, v.a2), Product(f, v.a3),
             Product(f, v.a4), Product(f, v.a5), Product(f, v.a6), Product(f, v.a7))
  }

  predicate AllNear(a: RealVec8, b: RealVec8, e: real)
  {
    && Near(a.a0, b.a0, e) && Near(a.a1, b.a1, e) && Near(a.a2, b.a2, e) && Near(a.a3, b.a3, e)
    && Near(a.a4, b.a4, e) && Near(a.a5, b.a5, e) && Near(a.a6, b.a6, e) && Near(a.a7, b.a7, e)
  }

  lemma ScaleSquared(c: Cosines)
    requires c.Valid()
    ensures Product(Scale(c), c.c4) == 8192.0 && Product(Scale(c), Scale(c)) == 134217728.0
  {
    hide Cosines.Valid;
    SevenHalves(c);
    assert Scale(c) * c.c4 == 16384.0 * (c.c4 * c.c4);
    assert Scale(c) * Scale(c) == 268435456.0 * (c.c4 * c.c4);
  }

  /** The integer matrix is the scaled one, rounded. */
  lemma RowIsRounded(c: Cosines, k: nat)
    requires c.Valid() && k < 8
    ensures AllNear(MatrixRow(c, k), Reals(FdctRow(k)), 0.49)
  {
    hide Wave, Cosines.Valid, Near;
    if k == 0 {
      ScaleSquared(c);
      ZeroRow(c);
    } else {
      RowEntries(c, k);
    }
  }

  lemma ZeroRow(c: Cosines)
    requires Product(Scale(c), c.c4) == 8192.0
    ensures AllNear(MatrixRow(c, 0), Reals(FdctRow(0)), 0.49)
  {
  }

  lemma RowEntries(c: Cosines, k: nat)
    requires c.Valid() && 0 < k < 8
    ensures AllNear(MatrixRow(c, k), Reals(FdctRow(k)), 0.49)
  {
    WaveIsRounded(c, k);
    WaveIsRounded(c, 3 * k);
    WaveIsRounded(c, 5 * k);
    WaveIsRounded(c, 7 * k);
    WaveIsRounded(c, 9 * k);
    WaveIsRounded(c, 11 * k);
    WaveIsRounded(c, 13 * k);
    WaveIsRounded(c, 15 * k);
    MatrixForm(c, k);
    FdctForm(k);
    hide Wave, Cosines.Valid, Near, Entry, MatrixRow, FdctRow;
  }

  lemma MatrixForm(c: Cosines, k: nat)
    requires k > 0
    ensures MatrixRow(c, k) == RealVec8(Entry(c, k), Entry(c, 3 * k), Entry(c, 5 * k), Entry(c, 7 * k),
                                  Entry(c, 9 * k), Entry(c, 11 * k), Entry(c, 13 * k), Entry(c, 15 * k))
  {
    hide Cosines.Cos, Scale;
    assert Product(Scale(c), 1.0) == Scale(c);
    hide Product;
  }

  lemma FdctForm(k: nat)
    requires k > 0
    ensures FdctRow(k) == Vec8(Wave(k), Wave(3 * k), Wave(5 * k), Wave(7 * k), Wave(9 * k), Wave(11 * k), Wave(13 * k), Wave(15 * k))
  {
    hide Wave;
  }

  // ------------------------------------------------------------- sums

  function RealDot(a: RealVec8, v: RealVec8): real
  {
    Sum(Times(a, v))
  }

  lemma ProductReal(a: int, b: int)
    ensures (a * b) as real == Product(a as real, b as real)
  {
  }

  lemma IntDot(a: Vec8, v: Vec8)
    ensures RealDot(Reals(a), Reals(v)) == Dot(a, v) as real
  {
    ProductReal(a.a0, v.a0);
    ProductReal(a.a1, v.a1);
    ProductReal(a.a2, v.a2);
    ProductReal(a.a3, v.a3);
    ProductReal(a.a4, v.a4);
    ProductReal(a.a5, v.a5);
    ProductReal(a.a6, v.a6);
    ProductReal(a.a7, v.a7);
    hide Product;
  }

  lemma ProductDistance(x: real, y: real, bound: real, e: real)
    requires -bound <= x <= bound && -e <= y <= e && bound >= 0.0 && e >= 0.0
    ensures -(bound * e) <= x * y <= bound * e
  {
    assert (bound - x) * (e + y) >= 0.0 && (bound + x) * (e - y) >= 0.0;
    assert (bound - x) * (e - y) >= 0.0 && (bound + x) * (e + y) >= 0.0;
  }

  /** A product of two approximations. */
  lemma TermError(m: real, r: real, p: real, q: real, a: real, d: real, bound: real)
    requires Near(r, m, 0.49) && Near(p, q, d) && -bound <= q <= bound && -a <= m <= a && a >= 0.0 && d >= 0.0 && bound >= 0.0
    ensures Near(Product(m, p), Product(r, q), Product(a, d) + 0.49 * bound)
  {
    ProductDistance(m, p - q, a, d);
    ProductDistance(m - r, q, 0.49, bound);
    assert m * p - r * q == m * (p - q) + (m - r) * q;
  }

  /** All sizes at most the bound. */
  predicate AllWithin(v: RealVec8, bound: real)
  {
    AllNear(v, RealVec8(0.0, 0.0, 0.0, 0.0, 0.0, 0.0, 0.0, 0.0), bound)
  }

  function Magnitude(x: int): int
  {
    if x < 0 then -x else x
  }

  function Magnitudes(v: Vec8): int
  {
    Magnitude(v.a0) + Magnitude(v.a1) + Magnitude(v.a2) + Magnitude(v.a3) + Magnitude(v.a4) + Magnitude(v.a5) + Magnitude(v.a6) + Magnitude(v.a7)
  }

  lemma MatrixSizes(k: nat)
    requires k < 8
    ensures Magnitudes(FdctRow(k)) <= 65536
  {
    FdctRows();
    hide FdctRow;
  }

  /** A product sum of an approximated row and approximated values. */
  lemma DotError(m: Vec8, r: RealVec8, p: RealVec8, q: RealVec8, d: real, bound: real)
    requires AllNear(r, Reals(m), 0.49) && AllNear(p, q, d) && AllWithin(q, bound) && d >= 0.0 && bound >= 0.0
    ensures Near(RealDot(Reals(m), p), RealDot(r, q), Magnitudes(m) as real * d + 3.92 * bound)
  {
    var x, y, e := Times(Reals(m), p), Times(r, q), Errors(m, d, bound);
    TermError(m.a0 as real, r.a0, p.a0, q.a0, Magnitude(m.a0) as real, d, bound);
    TermError(m.a1 as real, r.a1, p.a1, q.a1, Magnitude(m.a1) as real, d, bound);
    TermError(m.a2 as real, r.a2, p.a2, q.a2, Magnitude(m.a2) as real, d, bound);
    TermError(m.a3 as real, r.a3, p.a3, q.a3, Magnitude(m.a3) as real, d, bound);
    TermError(m.a4 as real, r.a4, p.a4, q.a4, Magnitude(m.a4) as real, d, bound);
    TermError(m.a5 as real, r.a5, p.a5, q.a5, Magnitude(m.a5) as real, d, bound);
    TermError(m.a6 as real, r.a6, p.a6, q.a6, Magnitude(m.a6) as real, d, bound);
    TermError(m.a7 as real, r.a7, p.a7, q.a7, Magnitude(m.a7) as real, d, bound);
    ErrorSum(m, d, bound);
    hide Magnitude, Near, Magnitudes, Sum, Product;
    SumNear(x, y, e);
  }

  /** The errors of the eight products. */
  function Errors(m: Vec8, d: real, bound: real): RealVec8
  {
    RealVec8(Product(Magnitude(m.a0) as real, d) + 0.49 * bound, Product(Magnitude(m.a1) as real, d) + 0.49 * bound,
             Product(Magnitude(m.a2) as real, d) + 0.49 * bound, Product(Magnitude(m.a3) as real, d) + 0.49 * bound,
             Product(Magnitude(m.a4) as real, d) + 0.49 * bound, Product(Magnitude(m.a5) as real, d) + 0.49 * bound,
             Product(Magnitude(m.a6) as real, d) + 0.49 * bound, Product(Magnitude(m.a7) as real, d) + 0.49 * bound)
  }

  lemma ErrorSum(m: Vec8, d: real, bound: real)
    ensures Sum(Errors(m, d, bound)) == Magnitudes(m) as real * d + 3.92 * bound
  {
    hide Magnitude;
    Distribute(Magnitude(m.a0) as real, Magnitude(m.a1) as real, Magnitude(m.a2) as real, Magnitude(m.a3) as real,
      Magnitude(m.a4) as real, Magnitude(m.a5) as real, Magnitude(m.a6) as real, Magnitude(m.a7) as real, d);
    hide Product;
  }

  lemma Distribute(a0: real, a1: real, a2: real, a3: real, a4: real, a5: real, a6: real, a7: real, d: real)
    ensures (a0 + a1 + a2 + a3 + a4 + a5 + a6 + a7) * d == Product(a0, d) + Product(a1, d) + Product(a2, d) + Product(a3, d)
      + Product(a4, d) + Product(a5, d) + Product(a6, d) + Product(a7, d)
  {
  }

  lemma SumNear(x: RealVec8, y: RealVec8, e: RealVec8)
    requires Near(x.a0, y.a0, e.a0) && Near(x.a1, y.a1, e.a1) && Near(x.a2, y.a2, e.a2) && Near(x.a3, y.a3, e.a3)
    requires Near(x.a4, y.a4, e.a4) && Near(x.a5, y.a5, e.a5) && Near(x.a6, y.a6, e.a6) && Near(x.a7, y.a7, e.a7)
    ensures Near(Sum(x), Sum(y), Sum(e))
  {
  }

  // ------------------------------------------------- the accuracy theorem

  /** One line: the exact sum over a row of samples, scaled. */
  function ScaledLine(c: Cosines, b: seq<int>, y: nat, u: nat): real
    requires |b| == 64 && y < 8
  {
    RealDot(MatrixRow(c, u), Reals(Row(b, y)))
  }

  lemma LineNear(c: Cosines, b: seq<int>, y: nat, u: nat)
    requires c.Valid() && Samples(b) && y < 8 && u < 8
    ensures Near(Fdct1D(u, Row(b, y)) as real, ScaledLine(c, b, y, u), 501.76)
    ensures -8389120.0 <= ScaledLine(c, b, y, u) <= 8389120.0
  {
    hide Cosines.Valid, MatrixRow, FdctRow, RealDot, Exact, AllNear;
    var s := Row(b, y);
    SampleRow(b, y);
    SampleSizes(s);
    RowIsRounded(c, u);
    MatrixSizes(u);
    SelfNear(Reals(s));
    DotError(FdctRow(u), MatrixRow(c, u), Reals(s), Reals(s), 0.0, 128.0);
    IntDot(FdctRow(u), s);
    DotBound(FdctRow(u), s);
  }

  lemma SelfNear(v: RealVec8)
    ensures AllNear(v, v, 0.0)
  {
  }

  lemma SampleSizes(s: Vec8)
    requires Between(s, -128, 127)
    ensures AllWithin(Reals(s), 128.0)
  {
  }

  lemma DotBound(m: Vec8, s: Vec8)
    requires Between(s, -128, 127)
    ensures -128 * Magnitudes(m) <= Dot(m, s) <= 128 * Magnitudes(m)
  {
    TermBound(m.a0, s.a0);
    TermBound(m.a1, s.a1);
    TermBound(m.a2, s.a2);
    TermBound(m.a3, s.a3);
    TermBound(m.a4, s.a4);
    TermBound(m.a5, s.a5);
    TermBound(m.a6, s.a6);
    TermBound(m.a7, s.a7);
    hide Magnitude;
  }

  lemma TermBound(m: int, s: int)
    requires -128 <= s <= 127
    ensures -128 * Magnitude(m) <= m * s <= 128 * Magnitude(m)
  {
    if m >= 0 {
      MulOrder(-128, s, m);
      MulOrder(s, 128, m);
    } else {
      MulOrder(-128, s, -m);
      MulOrder(s, 128, -m);
      assert s * -m == -(m * s);
    }
  }

  function ScaledLines(c: Cosines, b: seq<int>, u: nat): RealVec8
    requires |b| == 64
  {
    RealVec8(ScaledLine(c, b, 0, u), ScaledLine(c, b, 1, u), ScaledLine(c, b, 2, u), ScaledLine(c, b, 3, u),
             ScaledLine(c, b, 4, u), ScaledLine(c, b, 5, u), ScaledLine(c, b, 6, u), ScaledLine(c, b, 7, u))
  }

  lemma Regroup(f: real, a: real, b: real)
    ensures Product(Product(f, a), b) == Product(f, Product(a, b)) == Product(a, Product(f, b))
  {
  }

  lemma RegroupAll(f: real, a: RealVec8, v: RealVec8)
    ensures Times(Scaled(f, a), v) == Scaled(f, Times(a, v)) == Times(a, Scaled(f, v))
  {
    Regroup(f, a.a0, v.a0);
    Regroup(f, a.a1, v.a1);
    Regroup(f, a.a2, v.a2);
    Regroup(f, a.a3, v.a3);
    Regroup(f, a.a4, v.a4);
    Regroup(f, a.a5, v.a5);
    Regroup(f, a.a6, v.a6);
    Regroup(f, a.a7, v.a7);
    hide Product;
  }

  /** A common factor of either side. */
  lemma DotScaled(f: real, a: RealVec8, v: RealVec8)
    ensures RealDot(Scaled(f, a), v) == Product(f, RealDot(a, v)) == RealDot(a, Scaled(f, v))
  {
    RegroupAll(f, a, v);
    hide Times, Scaled, Sum;
    SumScaled(f, Times(a, v));
  }

  lemma SumScaled(f: real, v: RealVec8)
    ensures Sum(Scaled(f, v)) == Product(f, Sum(v))
  {
  }

  /** The scaled product sums are 2^29 times the FDCT of T.81. */
  lemma ScaledFdct(c: Cosines, b: seq<int>, v: nat, u: nat)
    requires c.Valid() && |b| == 64
    ensures RealDot(MatrixRow(c, v), ScaledLines(c, b, u)) == 536870912.0 * Fdct(c, b, v, u)
  {
    ScaleSquared(c);
    hide CosRow, LineSums, ScaledLines, Cosines.Valid, Cosines.C, Scale, Sum, Times, Reals, Scaled, Product, Normalized;
    var f, h := Product(Scale(c), c.C(v)), Product(Scale(c), c.C(u));
    LinesScaled(c, b, u);
    DotScaled(f, CosRow(c, v), ScaledLines(c, b, u));
    DotScaled(h, CosRow(c, v), LineSums(c, b, u));
    Factors(Scale(c), c.C(v), c.C(u), RealDot(CosRow(c, v), LineSums(c, b, u)));
  }

  lemma LinesScaled(c: Cosines, b: seq<int>, u: nat)
    requires |b| == 64
    ensures ScaledLines(c, b, u) == Scaled(Product(Scale(c), c.C(u)), LineSums(c, b, u))
  {
    hide ScaledLine, LineSum, Scale, Cosines.C, Product;
    LineScaled(c, b, 0, u);
    LineScaled(c, b, 1, u);
    LineScaled(c, b, 2, u);
    LineScaled(c, b, 3, u);
    LineScaled(c, b, 4, u);
    LineScaled(c, b, 5, u);
    LineScaled(c, b, 6, u);
    LineScaled(c, b, 7, u);
  }

  lemma LineScaled(c: Cosines, b: seq<int>, y: nat, u: nat)
    requires |b| == 64 && y < 8
    ensures ScaledLine(c, b, y, u) == Product(Product(Scale(c), c.C(u)), LineSum(c, b, y, u))
  {
    hide CosRow, Row, Scale, Cosines.C, Sum, Times, Reals, Scaled, Product;
    DotScaled(Product(Scale(c), c.C(u)), CosRow(c, u), Reals(Row(b, y)));
  }

  lemma Factors(s: real, cv: real, cu: real, x: real)
    requires Product(s, s) == 134217728.0
    ensures Product(Product(s, cv), Product(Product(s, cu), x)) == 536870912.0 * Normalized(cu, cv, x)
  {
    Gathered(s, cv, cu, x);
    assert Product(134217728.0, cu * cv * x) == 134217728.0 * (cu * cv * x);
    hide Product;
  }

  lemma Gathered(s: real, cv: real, cu: real, x: real)
    ensures Product(Product(s, cv), Product(Product(s, cu), x)) == Product(Product(s, s), cu * cv * x)
  {
  }

  /** The integer sums are within 2^26 of the scaled FDCT. */
  lemma MatrixAccuracy(c: Cosines, b: seq<int>, v: nat, u: nat)
    requires c.Valid() && Samples(b) && v < 8 && u < 8
    ensures Near(Fdct2D(b, v, u) as real, 536870912.0 * Fdct(c, b, v, u), 67108864.0)
  {
    hide Cosines.Valid, MatrixRow, FdctRow, RealDot, Fdct1D, ScaledLine, Row, Fdct, Magnitudes;
    assert |b| == 64;
    var p := Vec8(Fdct1D(u, Row(b, 0)), Fdct1D(u, Row(b, 1)), Fdct1D(u, Row(b, 2)), Fdct1D(u, Row(b, 3)),
                  Fdct1D(u, Row(b, 4)), Fdct1D(u, Row(b, 5)), Fdct1D(u, Row(b, 6)), Fdct1D(u, Row(b, 7)));
    forall y | 0 <= y < 8
      ensures Near(Fdct1D(u, Row(b, y)) as real, ScaledLine(c, b, y, u), 501.76)
      ensures -8389120.0 <= ScaledLine(c, b, y, u) <= 8389120.0
    {
      LineNear(c, b, y, u);
    }
    RowIsRounded(c, v);
    MatrixSizes(v);
    DotError(FdctRow(v), MatrixRow(c, v), Reals(p), ScaledLines(c, b, u), 501.76, 8389120.0);
    ColumnDot(v, p);
    ScaledFdct(c, b, v, u);
  }

  lemma ColumnDot(v: nat, p: Vec8)
    ensures RealDot(Reals(FdctRow(v)), Reals(p)) == Fdct1D(v, p) as real
  {
    IntDot(FdctRow(v), p);
    hide FdctRow, RealDot, Dot;
  }

  /** Every coefficient of the encoder is within one of the FDCT of T.81, A.3.3, of the block. */
  lemma DctWithinOne(c: Cosines, b: seq<int>, v: nat, u: nat)
    requires c.Valid() && Samples(b) && v < 8 && u < 8
    ensures Near(Coefficient(b, v, u) as real, Fdct(c, b, v, u), 1.0)
  {
    hide Cosines.Valid, Samples, Coefficient, Fdct2D, Fdct;
    DctAccuracy(b, v, u);
    MatrixAccuracy(c, b, v, u);
  }
}
