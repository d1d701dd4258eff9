/** Powers of two, bit strings written most significant bit first, and the
    two C bit operators the encoder needs on unsigned words. */
module Bits {

  type byte = x: int | 0 <= x < 256

  /** C's c << n, without truncation. */
  function Shl(c: nat, n: nat): (r: nat)
    ensures c > 0 ==> r > 0
  {
    if n == 0 then c else 2 * Shl(c, n - 1)
  }

  /** C's v >> n on an unsigned value. */
  function Shr(v: nat, n: nat): nat
  {
    if n == 0 then v else Shr(v / 2, n - 1)
  }

  function Pow2(n: nat): (r: nat)
    ensures r > 0
  {
    Shl(1, n)
  }

  lemma {:induction false} ShlAdd(a: nat, b: nat, n: nat)
    ensures Shl(a + b, n) == Shl(a, n) + Shl(b, n)
  {
    if n == 0 {
    } else {
      ShlAdd(a, b, n - 1);
    }
  }

  lemma {:induction false} ShlShl(c: nat, m: nat, n: nat)
    ensures Shl(Shl(c, m), n) == Shl(c, m + n)
  {
    if n == 0 {
    } else {
      ShlShl(c, m, n - 1);
    }
  }

  lemma {:induction false} ShlOrder(a: nat, b: nat, n: nat)
    ensures a < b <==> Shl(a, n) < Shl(b, n)
    ensures a == b <==> Shl(a, n) == Shl(b, n)
  {
    if n == 0 {
    } else {
      ShlOrder(a, b, n - 1);
    }
  }

  lemma {:induction false} Pow2Monotone(a: nat, b: nat)
    requires a <= b
    ensures Pow2(a) <= Pow2(b)
  {
    if a == b {
    } else {
      Pow2Monotone(a, b - 1);
    }
  }

  lemma Pow2Values()
    ensures Pow2(1) == 2 && Pow2(7) == 128 && Pow2(8) == 256 && Pow2(10) == 1024 && Pow2(11) == 2048
    ensures Pow2(15) == 32768 && Pow2(16) == 65536 && Pow2(24) == 0x100_0000 && Pow2(32) == 0x1_0000_0000
  {
  }

  /** Shifting right and back only clears the low bits. */
  lemma {:induction false} ShrShl(v: nat, n: nat)
    ensures Shl(Shr(v, n), n) <= v < Shl(Shr(v, n) + 1, n)
  {
    if n == 0 {
    } else {
      ShrShl(v / 2, n - 1);
    }
  }

  /** The two bounds of ShrShl determine the quotient. */
  lemma ShrUnique(v: nat, n: nat, q: nat)
    requires Shl(q, n) <= v < Shl(q + 1, n)
    ensures Shr(v, n) == q
  {
    ShrShl(v, n);
    ShlOrder(q, Shr(v, n) + 1, n);
    ShlOrder(Shr(v, n), q + 1, n);
  }

  lemma DivUnique(v: int, d: int, q: int, r: int)
    requires d > 0 && 0 <= r < d && v == q * d + r
    ensures v / d == q && v % d == r
  {
    var k := v / d - q;
    assert k * d == r - v % d by {
      assert v == v / d * d + v % d;
    }
    if k > 0 {
      MulAtLeast(k, d);
    } else if k < 0 {
      MulAtLeast(-k, d);
    }
  }

  lemma MulAtLeast(k: int, d: int)
    requires k > 0 && d > 0
    ensures k * d >= d
  {
    assert (k - 1) * d >= 0;
  }

  lemma MulOrder(a: int, b: int, c: nat)
    requires a <= b
    ensures a * c <= b * c
  {
    assert (b - a) * c >= 0;
  }

  lemma DivBounds(n: int, d: int)
    requires d > 0
    ensures n / d * d <= n < n / d * d + d
  {
  }

  lemma QuotientAtLeast(n: int, d: nat, q: int)
    requires d > 0 && q * d <= n
    ensures q <= n / d
  {
    var k := n / d;
    DivBounds(n, d);
    NextProduct(k, q, d);
  }

  lemma NextProduct(k: int, q: int, d: nat)
    ensures k < q ==> k * d + d <= q * d
  {
    if k < q {
      MulOrder(k + 1, q, d);
      assert (k + 1) * d == k * d + d;
    }
  }

  /** The low n bits of v, most significant first. */
  function ToBits(v: nat, n: nat): (r: seq<bool>)
    ensures |r| == n
  {
    if n == 0 then [] else ToBits(v / 2, n - 1) + [v % 2 == 1]
  }

  /** The number a bit string denotes. */
  function FromBits(b: seq<bool>): (r: nat)
    ensures r < Pow2(|b|)
  {
    if b == [] then 0 else 2 * FromBits(b[..|b| - 1]) + (if b[|b| - 1] then 1 else 0)
  }

  lemma {:induction false} FromToBits(v: nat, n: nat)
    requires v < Pow2(n)
    ensures FromBits(ToBits(v, n)) == v
  {
    if n == 0 {
    } else {
      FromToBits(v / 2, n - 1);
      assert ToBits(v, n)[..n - 1] == ToBits(v / 2, n - 1);
    }
  }

  lemma {:induction false} ToFromBits(b: seq<bool>)
    ensures ToBits(FromBits(b), |b|) == b
  {
    if b == [] {
    } else {
      var c := b[..|b| - 1];
      ToFromBits(c);
      var v := FromBits(b);
      assert v / 2 == FromBits(c) && (v % 2 == 1) == b[|b| - 1];
      assert b == c + [b[|b| - 1]];
    }
  }

  lemma {:induction false} FromBitsConcat(a: seq<bool>, b: seq<bool>)
    ensures FromBits(a + b) == Shl(FromBits(a), |b|) + FromBits(b)
  {
    if b == [] {
      assert a + b == a;
    } else {
      FromBitsConcat(a, b[..|b| - 1]);
      assert (a + b)[..|a + b| - 1] == a + b[..|b| - 1];
    }
  }

  /** The value of the first k of n bits is the number without its low n - k bits. */
  lemma {:induction false} PrefixValue(v: nat, n: nat, k: nat)
    requires k <= n && v < Pow2(n)
    ensures FromBits(ToBits(v, n)[..k]) == Shr(v, n - k)
  {
    if k == n {
      FromToBits(v, n);
      assert ToBits(v, n)[..n] == ToBits(v, n);
    } else {
      PrefixValue(v / 2, n - 1, k);
      assert ToBits(v, n)[..k] == ToBits(v / 2, n - 1)[..k];
    }
  }

  /** C's bitwise or on unsigned words. */
  function BitOr(a: nat, b: nat): nat
    decreases a
  {
    if a == 0 then b
    else 2 * BitOr(a / 2, b / 2) + (if a % 2 == 1 || b % 2 == 1 then 1 else 0)
  }

  /** Words without a common one bit are added by or. */
  lemma {:induction false} BitOrDisjoint(k: nat, b: nat, s: nat)
    requires b < Pow2(s)
    ensures BitOr(Shl(k, s), b) == Shl(k, s) + b
  {
    if s == 0 {
      BitOrZero(k);
    } else {
      BitOrDisjoint(k, b / 2, s - 1);
      BitOrLeftZero(b);
    }
  }

  lemma BitOrLeftZero(b: nat)
    ensures BitOr(0, b) == b
  {
  }

  lemma {:induction false} BitOrZero(a: nat)
    ensures BitOr(a, 0) == a
  {
    if a == 0 {
    } else {
      BitOrZero(a / 2);
    }
  }

  // ---------------------------------------------------------------- bytes

  /** Eight bits to a byte, most significant bit first. */
  function Pack(bits: seq<bool>): (r: seq<byte>)
    requires |bits| % 8 == 0
    ensures 8 * |r| == |bits|
  {
    if bits == [] then []
    else
      assert Pow2(8) == 256;
      [FromBits(bits[..8])] + Pack(bits[8..])
  }

  function Unpack(bytes: seq<byte>): (r: seq<bool>)
    ensures |r| == 8 * |bytes|
  {
    if bytes == [] then [] else ToBits(bytes[0], 8) + Unpack(bytes[1..])
  }

  lemma {:induction false} UnpackPack(bits: seq<bool>)
    requires |bits| % 8 == 0
    ensures Unpack(Pack(bits)) == bits
  {
    if bits == [] {
    } else {
      ToFromBits(bits[..8]);
      UnpackPack(bits[8..]);
      assert Pack(bits)[1..] == Pack(bits[8..]);
    }
  }

  lemma {:induction false} PackConcat(a: seq<bool>, b: seq<bool>)
    requires |a| % 8 == 0 && |b| % 8 == 0
    ensures Pack(a + b) == Pack(a) + Pack(b)
  {
    if a == [] {
      assert a + b == b;
    } else {
      hide FromBits;
      PackConcat(a[8..], b);
      assert (a + b)[..8] == a[..8] && (a + b)[8..] == a[8..] + b;
      assert Pack(a + b) == [FromBits(a[..8])] + Pack(a[8..] + b);
      Associative([FromBits(a[..8])], Pack(a[8..]), Pack(b));
    }
  }

  /** Byte stuffing (T.81, B.1.1.5): a zero byte after every 0xFF of entropy-coded data. */
  function Stuff(s: seq<byte>): seq<byte>
  {
    if s == [] then [] else StuffByte(s[0]) + Stuff(s[1..])
  }

  function StuffByte(b: byte): seq<byte>
  {
    if b == 0xFF then [0xFF, 0] else [b]
  }

  lemma {:induction false} StuffConcat(a: seq<byte>, b: seq<byte>)
    ensures Stuff(a + b) == Stuff(a) + Stuff(b)
  {
    if a == [] {
      assert a + b == b;
    } else {
      StuffConcat(a[1..], b);
      assert (a + b)[0] == a[0];
      assert (a + b)[1..] == a[1..] + b;
      Associative(StuffByte(a[0]), Stuff(a[1..]), Stuff(b));
    }
  }

  lemma Associative<T>(a: seq<T>, b: seq<T>, c: seq<T>)
    ensures (a + b) + c == a + (b + c)
  {
  }

  /** A decoder's view of the entropy-coded segment: the data bytes up to the
      first marker, and what starts at that marker. */
  datatype Segment = Segment(data: seq<byte>, rest: seq<byte>) | Truncated

  function Unstuff(s: seq<byte>): Segment
  {
    if s == [] then Truncated
    else if s[0] != 0xFF then
      match Unstuff(s[1..])
      case Truncated => Truncated
      case Segment(d, r) => Segment([s[0]] + d, r)
    else if |s| == 1 then Truncated
    else if s[1] != 0 then Segment([], s)
    else
      match Unstuff(s[2..])
      case Truncated => Truncated
      case Segment(d, r) => Segment([0xFF] + d, r)
  }

  /** No byte of the data is taken for a marker, and the first marker after it is found. */
  lemma {:induction false} UnstuffStuff(data: seq<byte>, marker: byte, rest: seq<byte>)
    requires marker != 0
    ensures Unstuff(Stuff(data) + [0xFF, marker] + rest) == Segment(data, [0xFF, marker] + rest)
  {
    var tail := [0xFF, marker] + rest;
    Associative(Stuff(data), [0xFF, marker], rest);
    if data != [] {
      UnstuffStuff(data[1..], marker, rest);
      Associative(Stuff(data[1..]), [0xFF, marker], rest);
      Associative(StuffByte(data[0]), Stuff(data[1..]), tail);
      UnstuffByte(data[0], Stuff(data[1..]) + tail);
    }
  }

  /** One stuffed byte is read back as that byte. */
  lemma UnstuffByte(b: byte, more: seq<byte>)
    requires more != []
    ensures Unstuff(StuffByte(b) + more) ==
      match Unstuff(more) case Truncated => Truncated case Segment(d, r) => Segment([b] + d, r)
  {
    var s := StuffByte(b) + more;
    if b == 0xFF {
      assert s[2..] == more;
    } else {
      assert s[1..] == more;
    }
  }
}
