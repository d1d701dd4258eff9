/** Canonical Huffman codes: what a table means (T.81, Annex C), the method
    that fills the encoder's lookup arrays, and the decoding procedure
    (T.81, F.2.2.3) that undoes it. */
module HuffmanCode {
  import opened Bits

  // ------------------------------------------- code lengths and their codes

  /** Code lengths in the order the codes are handed out. */
  ghost predicate Lengths(sizes: seq<nat>)
  {
    && (forall i :: 0 <= i < |sizes| ==> 1 <= sizes[i] <= 16)
    && (forall i, j :: 0 <= i <= j < |sizes| ==> sizes[i] <= sizes[j])
  }

  /** Every code of length l owns a 2^(16-l) share of the 2^16 sixteen-bit
      strings; Left is where the share of the p-th code starts. */
  function Left(sizes: seq<nat>, p: nat): nat
    requires p <= |sizes|
    requires forall i :: 0 <= i < |sizes| ==> sizes[i] <= 16
  {
    if p == 0 then 0 else Left(sizes, p - 1) + Pow2(16 - sizes[p - 1])
  }

  /** Kraft's inequality. */
  ghost predicate Kraft(sizes: seq<nat>)
    requires Lengths(sizes)
  {
    Left(sizes, |sizes|) <= Pow2(16)
  }

  /** The p-th canonical code: the leading bits common to its share. */
  function Code(sizes: seq<nat>, p: nat): nat
    requires p < |sizes|
    requires forall i :: 0 <= i < |sizes| ==> sizes[i] <= 16
  {
    Shr(Left(sizes, p), 16 - sizes[p])
  }

  function CodeBits(sizes: seq<nat>, p: nat): (r: seq<bool>)
    requires p < |sizes|
    requires forall i :: 0 <= i < |sizes| ==> sizes[i] <= 16
  {
    ToBits(Code(sizes, p), sizes[p])
  }

  lemma {:induction false} LeftGrows(sizes: seq<nat>, p: nat, q: nat)
    requires Lengths(sizes) && p < q <= |sizes|
    ensures Left(sizes, p) + Pow2(16 - sizes[p]) <= Left(sizes, q)
  {
    if q == p + 1 {
    } else {
      LeftGrows(sizes, p, q - 1);
    }
  }

  lemma {:induction false} LeftBound(sizes: seq<nat>, p: nat)
    requires Lengths(sizes) && p <= |sizes|
    ensures Left(sizes, p) <= p * 0x8000
  {
    if p == 0 {
    } else {
      LeftBound(sizes, p - 1);
      Pow2Monotone(16 - sizes[p - 1], 15);
      Pow2Values();
    }
  }

  lemma {:induction false} ShlZero(n: nat)
    ensures Shl(0, n) == 0
  {
    if n > 0 { ShlZero(n - 1); }
  }

  /** While no code longer than s came before, Left is a multiple of the share of length s. */
  lemma {:induction false} LeftMultiple(sizes: seq<nat>, p: nat, s: nat) returns (k: nat)
    requires Lengths(sizes) && p <= |sizes| && s <= 16
    requires p > 0 ==> sizes[p - 1] <= s
    ensures Left(sizes, p) == Shl(k, 16 - s)
  {
    if p == 0 {
      k := 0;
      ShlZero(16 - s);
    } else {
      var t := sizes[p - 1];
      var k' := LeftMultiple(sizes, p - 1, s);
      ShlShl(1, s - t, 16 - s);
      ShlAdd(k', Pow2(s - t), 16 - s);
      k := k' + Pow2(s - t);
    }
  }

  /** The p-th code, scaled to sixteen bits, is exactly the start of its share. */
  lemma CodeLeft(sizes: seq<nat>, p: nat)
    requires Lengths(sizes) && p < |sizes|
    ensures Left(sizes, p) == Shl(Code(sizes, p), 16 - sizes[p])
    ensures Left(sizes, p + 1) == Shl(Code(sizes, p) + 1, 16 - sizes[p])
  {
    var s := sizes[p];
    var k := LeftMultiple(sizes, p, s);
    ShlOrder(k, k + 1, 16 - s);
    ShrUnique(Left(sizes, p), 16 - s, k);
    ShlAdd(k, 1, 16 - s);
  }

  lemma CodeFits(sizes: seq<nat>, p: nat)
    requires Lengths(sizes) && Kraft(sizes) && p < |sizes|
    ensures Code(sizes, p) < Pow2(sizes[p])
  {
    var s := sizes[p];
    LeftGrows(sizes, p, |sizes|);
    CodeLeft(sizes, p);
    ShlShl(1, s, 16 - s);
    ShlOrder(Pow2(s), Code(sizes, p) + 1, 16 - s);
  }

  /** Every code fits the length announced for it exactly when the lengths satisfy Kraft's inequality. */
  lemma CodesFitIffKraft(sizes: seq<nat>)
    requires Lengths(sizes)
    ensures Kraft(sizes) <==> forall p :: 0 <= p < |sizes| ==> Code(sizes, p) < Pow2(sizes[p])
  {
    if Kraft(sizes) {
      forall p | 0 <= p < |sizes| ensures Code(sizes, p) < Pow2(sizes[p]) { CodeFits(sizes, p); }
    } else {
      LastCodeOverflows(sizes);
    }
  }

  lemma LastCodeOverflows(sizes: seq<nat>)
    requires Lengths(sizes) && !Kraft(sizes)
    ensures sizes != [] && Code(sizes, |sizes| - 1) >= Pow2(sizes[|sizes| - 1])
  {
    ShlGrows(1, 16);
    hide Shl;
    if sizes != [] {
      var p := |sizes| - 1;
      var s := sizes[p];
      CodeLeft(sizes, p);
      ShlShl(1, s, 16 - s);
      ShlOrder(Pow2(s), Code(sizes, p) + 1, 16 - s);
    }
  }

  /** The recurrence of T.81, Annex C.2: the next code is one more, shifted by the growth in length. */
  lemma CodeRecurrence(sizes: seq<nat>, p: nat)
    requires Lengths(sizes) && p + 1 < |sizes|
    ensures Code(sizes, p + 1) == Shl(Code(sizes, p) + 1, sizes[p + 1] - sizes[p])
  {
    var s, t := sizes[p], sizes[p + 1];
    CodeLeft(sizes, p);
    CodeLeft(sizes, p + 1);
    ShlShl(Code(sizes, p) + 1, t - s, 16 - t);
    ShlOrder(Code(sizes, p + 1), Shl(Code(sizes, p) + 1, t - s), 16 - t);
  }

  /** Codes of one length are consecutive. */
  lemma {:induction false} CodesConsecutive(sizes: seq<nat>, p: nat, q: nat)
    requires Lengths(sizes) && p <= q < |sizes| && sizes[p] == sizes[q]
    ensures Code(sizes, q) == Code(sizes, p) + (q - p)
  {
    if p == q {
    } else {
      CodesConsecutive(sizes, p, q - 1);
      CodeRecurrence(sizes, q - 1);
    }
  }

  lemma LaterCodeAbove(sizes: seq<nat>, p: nat, q: nat)
    requires Lengths(sizes) && p < q < |sizes|
    ensures Shl(Code(sizes, p) + 1, sizes[q] - sizes[p]) <= Code(sizes, q)
  {
    hide Shl;
    var s, t := sizes[p], sizes[q];
    var c := Code(sizes, p) + 1;
    if q > p + 1 { LeftGrows(sizes, p + 1, q); }
    CodeLeft(sizes, p);
    CodeLeft(sizes, q);
    ShlShl(c, t - s, 16 - t);
    ShlOrder(Code(sizes, q), Shl(c, t - s), 16 - t);
  }

  /** The leading bits of a later code exceed every earlier code that short. */
  lemma LaterCodeExceeds(sizes: seq<nat>, p: nat, q: nat)
    requires Lengths(sizes) && p < q < |sizes|
    ensures Shr(Code(sizes, q), sizes[q] - sizes[p]) > Code(sizes, p)
  {
    var n := sizes[q] - sizes[p];
    LaterCodeAbove(sizes, p, q);
    ShrShl(Code(sizes, q), n);
    ShlOrder(Code(sizes, p) + 1, Shr(Code(sizes, q), n) + 1, n);
  }

  /** No code is a prefix of another one. */
  lemma PrefixFree(sizes: seq<nat>, p: nat, q: nat)
    requires Lengths(sizes) && Kraft(sizes) && p < |sizes| && q < |sizes| && p != q
    ensures !(CodeBits(sizes, p) <= CodeBits(sizes, q))
  {
    var s, t := sizes[p], sizes[q];
    CodeFits(sizes, p);
    CodeFits(sizes, q);
    FromToBits(Code(sizes, p), s);
    if CodeBits(sizes, p) <= CodeBits(sizes, q) {
      assert CodeBits(sizes, q)[..s] == CodeBits(sizes, p);
      PrefixValue(Code(sizes, q), t, s);
      if p < q {
        LaterCodeExceeds(sizes, p, q);
      } else {
        LaterCodeExceeds(sizes, q, p);
      }
    }
  }

  // ------------------------------------------------------- tables (DHT data)

  /** A table as a DHT segment carries it: bits[l] codes of length l, for
      lengths 1 to 16, and the symbols in order of increasing code length. */
  datatype HuffSpec = HuffSpec(bits: seq<byte>, vals: seq<byte>) {
    predicate Valid() {
      |bits| == 17 && |Sizes(bits)| <= |vals| && |Sizes(bits)| <= 256
    }
  }

  /** The list HUFFSIZE of T.81, Annex C.1, up to length l. */
  function SizesUpTo(bits: seq<byte>, l: nat): (r: seq<nat>)
    requires |bits| == 17 && l <= 16
    ensures forall i :: 0 <= i < |r| ==> 1 <= r[i] <= l
  {
    if l == 0 then [] else SizesUpTo(bits, l - 1) + seq(bits[l], _ => l)
  }

  function Sizes(bits: seq<byte>): (r: seq<nat>)
    requires |bits| == 17
    ensures forall i :: 0 <= i < |r| ==> 1 <= r[i] <= 16
  {
    SizesUpTo(bits, 16)
  }

  lemma {:induction false} SizesAreLengths(bits: seq<byte>, l: nat)
    requires |bits| == 17 && l <= 16
    ensures Lengths(SizesUpTo(bits, l))
  {
    if l == 0 {
    } else {
      SizesAreLengths(bits, l - 1);
    }
  }

  lemma {:induction false} SizesPrefix(bits: seq<byte>, l: nat)
    requires |bits| == 17 && l <= 16
    ensures SizesUpTo(bits, l) <= Sizes(bits)
    decreases 16 - l
  {
    if l == 16 {
    } else {
      SizesPrefix(bits, l + 1);
      assert SizesUpTo(bits, l) <= SizesUpTo(bits, l + 1);
    }
  }

  /** The positions of the codes of length l. */
  lemma SizeOfRange(bits: seq<byte>, l: nat, p: nat)
    requires |bits| == 17 && 1 <= l <= 16
    requires |SizesUpTo(bits, l - 1)| <= p < |SizesUpTo(bits, l)|
    ensures p < |Sizes(bits)| && Sizes(bits)[p] == l
  {
    SizesPrefix(bits, l);
    assert SizesUpTo(bits, l)[p] == l;
  }

  /** A position before the codes longer than l is among those up to l. */
  lemma PositionBySize(bits: seq<byte>, l: nat, p: nat)
    requires |bits| == 17 && l <= 16 && p < |Sizes(bits)|
    ensures Sizes(bits)[p] <= l <==> p < |SizesUpTo(bits, l)|
  {
    SizesAreLengths(bits, 16);
    SizesPrefix(bits, l);
    if p >= |SizesUpTo(bits, l)| && Sizes(bits)[p] <= l {
      PositionAfter(bits, l, p);
    }
  }

  lemma {:induction false} PositionAfter(bits: seq<byte>, l: nat, p: nat)
    requires |bits| == 17 && l <= 16 && |SizesUpTo(bits, l)| <= p < |Sizes(bits)|
    ensures Sizes(bits)[p] > l
    decreases 16 - l
  {
    if p < |SizesUpTo(bits, l + 1)| {
      SizeOfRange(bits, l + 1, p);
    } else {
      PositionAfter(bits, l + 1, p);
    }
  }

  /** The sum of Kraft's inequality, counted length by length. */
  function KraftSum(bits: seq<byte>, l: nat): nat
    requires |bits| == 17 && l <= 16
  {
    if l == 0 then 0 else KraftSum(bits, l - 1) + Shl(bits[l], 16 - l)
  }

  lemma {:induction false} LeftOfPrefix(s: seq<nat>, t: seq<nat>, p: nat)
    requires p <= |s| && s <= t && forall i :: 0 <= i < |t| ==> t[i] <= 16
    ensures Left(s, p) == Left(t, p)
  {
    if p > 0 { LeftOfPrefix(s, t, p - 1); }
  }

  lemma {:induction false} LeftOfRun(s: seq<nat>, l: nat, n: nat)
    requires l <= 16 && forall i :: 0 <= i < |s| ==> s[i] <= 16
    ensures var t := s + seq(n, _ => l); Left(t, |t|) == Left(s, |s|) + Shl(n, 16 - l)
  {
    hide Shl;
    var t := s + seq(n, _ => l);
    if n == 0 {
      ShlZero(16 - l);
      assert t == s;
    } else {
      LeftOfRun(s, l, n - 1);
      var u := s + seq(n - 1, _ => l);
      assert u <= t;
      LeftOfPrefix(u, t, |u|);
      ShlAdd(n - 1, 1, 16 - l);
    }
  }

  lemma {:induction false} LeftIsKraftSum(bits: seq<byte>, l: nat)
    requires |bits| == 17 && l <= 16
    ensures var s := SizesUpTo(bits, l); Left(s, |s|) == KraftSum(bits, l)
  {
    if l == 0 {
    } else {
      LeftIsKraftSum(bits, l - 1);
      LeftOfRun(SizesUpTo(bits, l - 1), l, bits[l]);
    }
  }

  /** The last of the first n positions that holds symbol v, or -1. */
  function LastIndex(vals: seq<byte>, v: int, n: nat): (p: int)
    requires n <= |vals|
    ensures -1 <= p < n
    ensures p >= 0 ==> vals[p] == v
    ensures p < 0 ==> v !in vals[..n]
  {
    if n == 0 then -1
    else if vals[n - 1] == v then n - 1
    else
      assert vals[..n] == vals[..n - 1] + [vals[n - 1]];
      LastIndex(vals, v, n - 1)
  }

  function SymbolCode(h: HuffSpec, v: int): nat
    requires h.Valid()
  {
    var p := LastIndex(h.vals, v, |Sizes(h.bits)|);
    if p < 0 then 0 else Code(Sizes(h.bits), p)
  }

  function SymbolSize(h: HuffSpec, v: int): (s: nat)
    requires h.Valid()
    ensures s <= 16
  {
    var p := LastIndex(h.vals, v, |Sizes(h.bits)|);
    if p < 0 then 0 else Sizes(h.bits)[p]
  }

  /** The bits that stand for symbol v; none when the table has no code for it. */
  function SymbolBits(h: HuffSpec, v: int): (r: seq<bool>)
    requires h.Valid()
    ensures |r| == SymbolSize(h, v)
  {
    ToBits(SymbolCode(h, v), SymbolSize(h, v))
  }

  ghost predicate HasCode(h: HuffSpec, v: int)
    requires h.Valid()
  {
    v in h.vals[..|Sizes(h.bits)|]
  }

  /** In a table of distinct symbols every listed symbol has its own canonical code. */
  lemma DistinctLookup(h: HuffSpec, p: nat)
    requires h.Valid() && p < |Sizes(h.bits)|
    requires forall i, j :: 0 <= i < j < |Sizes(h.bits)| ==> h.vals[i] != h.vals[j]
    ensures SymbolBits(h, h.vals[p]) == CodeBits(Sizes(h.bits), p)
  {
    var q := LastIndex(h.vals, h.vals[p], |Sizes(h.bits)|);
    assert h.vals[p] == h.vals[..|Sizes(h.bits)|][p];
  }

  // --------------------------------------------------- filling the arrays

  /** Writes the list of code lengths and its zero sentinel. */
  method GenerateSizes(huffSize: array<nat>, bits: seq<byte>) returns (p: nat)
    requires huffSize.Length == 257 && |bits| == 17 && |Sizes(bits)| <= 256
    modifies huffSize
    ensures p == |Sizes(bits)| && huffSize[..p] == Sizes(bits) && huffSize[p] == 0
  {
    p := 0;
    for l := 1 to 17
      invariant p <= 256 && huffSize[..p] == SizesUpTo(bits, l - 1)
    {
      SizesPrefix(bits, l);
      for i := 0 to bits[l]
        invariant p == |SizesUpTo(bits, l - 1)| + i <= 256
        invariant huffSize[..p] == SizesUpTo(bits, l - 1) + seq(i, _ => l)
      {
        assert p < |SizesUpTo(bits, l)|;
        huffSize[p] := l;
        p := p + 1;
      }
    }
    huffSize[p] := 0;
  }

  /** Assigns the codes of consecutive lengths: T.81, Annex C.2. */
  method GenerateCodes(huffSize: array<nat>, huffCode: array<nat>, ghost sizes: seq<nat>)
    requires huffSize != huffCode && huffSize.Length == huffCode.Length == 257
    requires Lengths(sizes) && |sizes| <= 256 && huffSize[..|sizes|] == sizes && huffSize[|sizes|] == 0
    modifies huffCode
    ensures forall k :: 0 <= k < |sizes| ==> huffCode[k] == Code(sizes, k)
  {
    ghost var n := |sizes|;
    assert forall k :: 0 <= k < n ==> huffSize[k] == sizes[k];
    var code: nat, si, p := 0, huffSize[0], 0;
    ShlZero(17 - si);
    while huffSize[p] != 0
      invariant 0 <= p <= n && 0 <= si <= 17 && (n > 0 ==> 1 <= si)
      invariant forall k :: 0 <= k < n ==> huffSize[k] == sizes[k]
      invariant huffSize[n] == 0
      invariant forall k :: 0 <= k < p ==> huffCode[k] == Code(sizes, k)
      invariant p < n ==> si <= sizes[p]
      invariant Shl(code, 17 - si) == 2 * Left(sizes, p)
      decreases n - p, 17 - si
    {
      ghost var start := p;
      while huffSize[p] == si
        invariant start <= p <= n
        invariant p < n ==> si <= sizes[p]
        invariant forall k :: 0 <= k < p ==> huffCode[k] == Code(sizes, k)
        invariant Shl(code, 17 - si) == 2 * Left(sizes, p)
        decreases n - p
      {
        ShareTaken(sizes, p, code);
        huffCode[p] := code;
        p, code := p + 1, (code + 1) % Pow2(32);
      }
      NextLength(sizes, p, code, si);
      code, si := (2 * code) % Pow2(32), si + 1;
    }
  }

  /** One round of code assignment: the running code is the canonical one,
      and its successor starts the next share. */
  lemma ShareTaken(sizes: seq<nat>, p: nat, code: nat)
    requires Lengths(sizes) && p < |sizes|
    requires Shl(code, 17 - sizes[p]) == 2 * Left(sizes, p)
    ensures code == Code(sizes, p)
    ensures Shl(code + 1, 17 - sizes[p]) == 2 * Left(sizes, p + 1)
    ensures |sizes| <= 256 ==> (code + 1) % Pow2(32) == code + 1
  {
    CodeLeft(sizes, p);
    ShlOrder(code, Code(sizes, p), 16 - sizes[p]);
    if |sizes| <= 256 { NoWrap(sizes, p + 1, code + 1, sizes[p]); }
  }

  /** Moving on to the next length keeps the running code at the same share. */
  lemma NextLength(sizes: seq<nat>, p: nat, code: nat, si: nat)
    requires Lengths(sizes) && p <= |sizes| <= 256 && si <= 16
    requires Shl(code, 17 - si) == 2 * Left(sizes, p)
    ensures Shl(2 * code, 17 - (si + 1)) == 2 * Left(sizes, p)
    ensures (2 * code) % Pow2(32) == 2 * code
  {
    ShlShl(code, 1, 16 - si);
    NoWrap(sizes, p, 2 * code, si + 1);
  }

  /** The 32-bit code register never wraps. */
  lemma NoWrap(sizes: seq<nat>, p: nat, code: nat, si: nat)
    requires Lengths(sizes) && p <= |sizes| <= 256 && si <= 17
    requires Shl(code, 17 - si) == 2 * Left(sizes, p)
    ensures code % Pow2(32) == code
  {
    LeftBound(sizes, p);
    ShlGrows(code, 17 - si);
    Pow2Values();
  }

  lemma {:induction false} ShlGrows(c: nat, n: nat)
    ensures c <= Shl(c, n)
  {
    if n > 0 { ShlGrows(c, n - 1); }
  }

  /** The code and the size of the last of the first p symbols that equals v; zeros when there is none. */
  function Filled(h: HuffSpec, p: nat, v: int): (nat, nat)
    requires h.Valid() && p <= |Sizes(h.bits)|
  {
    var i := LastIndex(h.vals, v, p);
    if i < 0 then (0, 0) else (Code(Sizes(h.bits), i), Sizes(h.bits)[i])
  }

  lemma FilledNext(h: HuffSpec, p: nat, v: int)
    requires h.Valid() && p < |Sizes(h.bits)|
    ensures Filled(h, p + 1, v) == if v == h.vals[p] as int then (Code(Sizes(h.bits), p), Sizes(h.bits)[p]) else Filled(h, p, v)
  {
  }

  lemma FilledLast(h: HuffSpec, v: int)
    requires h.Valid()
    ensures Filled(h, |Sizes(h.bits)|, v) == (SymbolCode(h, v), SymbolSize(h, v)) && Filled(h, 0, v) == (0, 0)
  {
  }

  /** Fills the 256 codes and code sizes from the lists of a table. */
  method ComputeHuffmanTable(codes: array<nat>, codeSizes: array<nat>, h: HuffSpec)
    requires codes != codeSizes && codes.Length == codeSizes.Length == 256
    requires h.Valid()
    modifies codes, codeSizes
    ensures forall v :: 0 <= v < 256 ==> codes[v] == SymbolCode(h, v) && codeSizes[v] == SymbolSize(h, v)
  {
    ghost var sizes := Sizes(h.bits);
    SizesAreLengths(h.bits, 16);
    var huffSize, huffCode := new nat[257], new nat[257];
    var lastP := GenerateSizes(huffSize, h.bits);
    GenerateCodes(huffSize, huffCode, sizes);
    assert forall k :: 0 <= k < lastP ==> huffSize[k] == sizes[k];
    hide Filled, Code, Sizes, SymbolCode, SymbolSize, LastIndex, Lengths;
    for v := 0 to 256
      modifies codes, codeSizes
      invariant forall w :: 0 <= w < v ==> codes[w] == 0 && codeSizes[w] == 0
    {
      codes[v], codeSizes[v] := 0, 0;
    }
    forall v | 0 <= v < 256 ensures Filled(h, 0, v) == (0, 0) {
      FilledLast(h, v);
    }
    for p := 0 to lastP
      modifies codes, codeSizes
      invariant forall v :: 0 <= v < 256 ==> (codes[v], codeSizes[v]) == Filled(h, p, v)
    {
      forall v | 0 <= v < 256
        ensures Filled(h, p + 1, v) == if v == h.vals[p] as int then (Code(sizes, p), sizes[p]) else Filled(h, p, v)
      {
        FilledNext(h, p, v);
      }
      codes[h.vals[p]] := huffCode[p];
      codeSizes[h.vals[p]] := huffSize[p];
    }
    forall v | 0 <= v < 256
      ensures codes[v] == SymbolCode(h, v) && codeSizes[v] == SymbolSize(h, v)
    {
      FilledLast(h, v);
    }
  }

  // ------------------------------------------------- decoding (T.81, F.2.2.3)

  datatype DecodedSymbol = Symbol(value: byte, rest: seq<bool>) | NoSymbol

  /** The largest code of length l, as Annex F.2.2.3 tabulates it. */
  function MaxCode(bits: seq<byte>, l: nat): int
    requires |bits| == 17 && 1 <= l <= 16
  {
    SizesPrefix(bits, l);
    if bits[l] == 0 then -1 else Code(Sizes(bits), |SizesUpTo(bits, l)| - 1)
  }

  /** The smallest code of length l. */
  function MinCode(bits: seq<byte>, l: nat): int
    requires |bits| == 17 && 1 <= l <= 16
  {
    SizesPrefix(bits, l);
    if bits[l] == 0 then 0 else Code(Sizes(bits), |SizesUpTo(bits, l - 1)|)
  }

  /** The DECODE procedure: lengthen the code until it does not exceed the largest of its length. */
  function DecodeSymbol(h: HuffSpec, b: seq<bool>, l: nat := 1): DecodedSymbol
    requires h.Valid() && 1 <= l <= 17
    decreases 17 - l
  {
    if l > 16 || |b| < l then NoSymbol
    else
      var code := FromBits(b[..l]);
      if code > MaxCode(h.bits, l) then DecodeSymbol(h, b, l + 1)
      else
        var j := |SizesUpTo(h.bits, l - 1)| + code - MinCode(h.bits, l);
        if 0 <= j < |h.vals| then Symbol(h.vals[j], b[l..]) else NoSymbol
  }

  /** Shorter readings of a code exceed every code of their length. */
  lemma ShorterExceeds(bits: seq<byte>, p: nat, l: nat)
    requires |bits| == 17 && p < |Sizes(bits)| && 1 <= l < Sizes(bits)[p]
    ensures Shr(Code(Sizes(bits), p), Sizes(bits)[p] - l) > MaxCode(bits, l)
  {
    SizesAreLengths(bits, 16);
    if bits[l] > 0 {
      var q := |SizesUpTo(bits, l)| - 1;
      SizeOfRange(bits, l, q);
      LaterCodeExceeds(Sizes(bits), q, p);
    }
  }

  /** A code of length l lies between the tabulated bounds, at its own distance from the first. */
  lemma OwnLengthMatches(bits: seq<byte>, p: nat)
    requires |bits| == 17 && p < |Sizes(bits)|
    ensures var l := Sizes(bits)[p];
      Code(Sizes(bits), p) <= MaxCode(bits, l) &&
      |SizesUpTo(bits, l - 1)| + Code(Sizes(bits), p) - MinCode(bits, l) == p
  {
    SizesAreLengths(bits, 16);
    var l := Sizes(bits)[p];
    PositionBySize(bits, l, p);
    PositionBySize(bits, l - 1, p);
    var f, q := |SizesUpTo(bits, l - 1)|, |SizesUpTo(bits, l)| - 1;
    SizeOfRange(bits, l, f);
    SizeOfRange(bits, l, q);
    CodesConsecutive(Sizes(bits), f, p);
    CodesConsecutive(Sizes(bits), p, q);
  }

  /** What the first l bits of the p-th code and anything after it read as. */
  lemma CodePrefix(sizes: seq<nat>, p: nat, rest: seq<bool>, l: nat)
    requires Lengths(sizes) && Kraft(sizes) && p < |sizes| && 1 <= l <= sizes[p]
    ensures |CodeBits(sizes, p) + rest| >= l
    ensures FromBits((CodeBits(sizes, p) + rest)[..l]) == Shr(Code(sizes, p), sizes[p] - l)
  {
    var c := CodeBits(sizes, p);
    CodeFits(sizes, p);
    PrefixValue(Code(sizes, p), sizes[p], l);
    assert (c + rest)[..l] == c[..l];
  }

  /** One round of the procedure, on bits that read as code so far. */
  lemma DecodeRound(h: HuffSpec, b: seq<bool>, l: nat, code: nat)
    requires h.Valid() && 1 <= l <= 16 && l <= |b| && FromBits(b[..l]) == code
    ensures code > MaxCode(h.bits, l) ==> DecodeSymbol(h, b, l) == DecodeSymbol(h, b, l + 1)
    ensures code <= MaxCode(h.bits, l) ==>
      var j := |SizesUpTo(h.bits, l - 1)| + code - MinCode(h.bits, l);
      0 <= j < |h.vals| ==> DecodeSymbol(h, b, l) == Symbol(h.vals[j], b[l..])
  {
  }

  /** The procedure stops at the p-th code, read from the front of b, and not before. */
  lemma {:induction false} DecodeFrom(h: HuffSpec, p: nat, b: seq<bool>, l: nat)
    requires h.Valid() && p < |Sizes(h.bits)|
    requires 1 <= l <= Sizes(h.bits)[p] <= |b|
    requires forall m :: l <= m <= Sizes(h.bits)[p] ==> FromBits(b[..m]) == Shr(Code(Sizes(h.bits), p), Sizes(h.bits)[p] - m)
    ensures DecodeSymbol(h, b, l) == Symbol(h.vals[p], b[Sizes(h.bits)[p]..])
    decreases 17 - l
  {
    var size := Sizes(h.bits)[p];
    DecodeRound(h, b, l, Shr(Code(Sizes(h.bits), p), size - l));
    if l < size {
      ShorterExceeds(h.bits, p, l);
      DecodeFrom(h, p, b, l + 1);
    } else {
      OwnLengthMatches(h.bits, p);
    }
  }

  /** Decoding the p-th code gives the p-th symbol, whatever bits follow. */
  lemma DecodeCode(h: HuffSpec, p: nat, rest: seq<bool>)
    requires Decodable(h) && p < |Sizes(h.bits)|
    ensures DecodeSymbol(h, CodeBits(Sizes(h.bits), p) + rest) == Symbol(h.vals[p], rest)
  {
    var sizes := Sizes(h.bits);
    var b := CodeBits(sizes, p) + rest;
    forall m | 1 <= m <= sizes[p]
      ensures FromBits(b[..m]) == Shr(Code(sizes, p), sizes[p] - m)
    {
      CodePrefix(sizes, p, rest, m);
    }
    DecodeFrom(h, p, b, 1);
    assert b[sizes[p]..] == rest;
  }

  /** A table the decoding procedure can be used with. */
  ghost predicate Decodable(h: HuffSpec)
  {
    h.Valid() && Lengths(Sizes(h.bits)) && Kraft(Sizes(h.bits))
  }

  /** Decoding undoes encoding for every symbol the table has a code for. */
  lemma DecodeSymbolBits(h: HuffSpec, v: byte, rest: seq<bool>)
    requires Decodable(h) && HasCode(h, v)
    ensures 1 <= SymbolSize(h, v) <= 16 && SymbolCode(h, v) < Pow2(SymbolSize(h, v))
    ensures DecodeSymbol(h, SymbolBits(h, v) + rest) == Symbol(v, rest)
  {
    var p := LastIndex(h.vals, v, |Sizes(h.bits)|);
    CodeFits(Sizes(h.bits), p);
    DecodeCode(h, p, rest);
  }
}
