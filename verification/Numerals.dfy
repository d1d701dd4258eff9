/** Numerals as the JSON generator prints them: base 10 and upper-case base 16. */
module Numerals {
  datatype Base = Decimal | Hexadecimal

  predicate Fits(d: int, b: Base)
  {
    0 <= d < if b.Decimal? then 10 else 16
  }

  function Quotient(n: nat, b: Base): (q: nat)
    ensures q <= n && (n > 0 ==> q < n) && (q == 0 <==> Fits(n, b))
  {
    if b.Decimal? then n / 10 else n / 16
  }

  function Remainder(n: nat, b: Base): (d: nat)
    ensures Fits(d, b)
  {
    if b.Decimal? then n % 10 else n % 16
  }

  function Times(n: nat, b: Base): nat
  {
    if b.Decimal? then 10 * n else 16 * n
  }

  function Digit(d: nat): (c: char)
    requires d < 16
    ensures '0' <= c <= '9' || 'A' <= c <= 'F'
  {
    if d < 10 then '0' + d as char else 'A' + (d - 10) as char
  }

  /** The value of a digit, or -1. */
  function DigitValue(c: char): int
  {
    if '0' <= c <= '9' then c as int - '0' as int else if 'A' <= c <= 'F' then c as int - 'A' as int + 10 else -1
  }

  /** The numeral of n. */
  function Numeral(n: nat, b: Base): (s: string)
    ensures s != [] && forall c :: c in s ==> '0' <= c <= '9' || 'A' <= c <= 'F'
  {
    if Fits(n, b) then [Digit(n)] else Numeral(Quotient(n, b), b) + [Digit(Remainder(n, b))]
  }

  predicate IsNumeral(s: string, b: Base)
  {
    s != [] && forall i :: 0 <= i < |s| ==> Fits(DigitValue(s[i]), b)
  }

  /** What a numeral stands for. */
  function Value(s: string, b: Base): nat
    requires forall i :: 0 <= i < |s| ==> Fits(DigitValue(s[i]), b)
  {
    if s == [] then 0
    else
      var last := s[|s| - 1];
      assert last in s && Fits(DigitValue(last), b);
      Times(Value(s[..|s| - 1], b), b) as int + DigitValue(last)
  }

  lemma DigitInverse(d: nat)
    requires d < 16
    ensures DigitValue(Digit(d)) == d
  {
  }

  /** A numeral stands for its number, in decimal digits only when the base is ten, and has no leading zero. */
  lemma {:induction false} NumeralValue(n: nat, b: Base)
    ensures IsNumeral(Numeral(n, b), b) && Value(Numeral(n, b), b) == n
    ensures n > 0 ==> Numeral(n, b)[0] != '0'
    ensures b.Decimal? ==> forall c :: c in Numeral(n, b) ==> '0' <= c <= '9'
  {
    var s := Numeral(n, b);
    if Fits(n, b) {
      DigitInverse(n);
      assert s[..0] == [];
    } else {
      NumeralValue(Quotient(n, b), b);
      DigitInverse(Remainder(n, b));
      assert s[..|s| - 1] == Numeral(Quotient(n, b), b);
    }
  }

  /** No numeral of the same value is shorter. */
  lemma {:induction false} NumeralShortest(n: nat, b: Base, s: string)
    requires IsNumeral(s, b) && Value(s, b) == n
    ensures |Numeral(n, b)| <= |s|
  {
    if !Fits(n, b) {
      var t := s[..|s| - 1];
      assert Fits(DigitValue(s[|s| - 1]), b);
      assert Value(t, b) == Quotient(n, b);
      if t == [] {
        assert false;
      }
      NumeralShortest(Quotient(n, b), b, t);
    }
  }

  // ----------------------------------------------------- machine integers

  datatype Width = W8 | W16 | W32 | W64

  /** One more than the largest unsigned value. */
  function Modulus(w: Width): nat
  {
    match w
    case W8 => 0x100
    case W16 => 0x1_0000
    case W32 => 0x1_0000_0000
    case W64 => 0x1_0000_0000_0000_0000
  }

  predicate IsUnsigned(n: int, w: Width)
  {
    0 <= n < Modulus(w)
  }

  predicate IsSigned(n: int, w: Width)
  {
    -(Modulus(w) / 2) <= n < Modulus(w) / 2
  }

  /** The type a signed value of this width is computed in: int, or the 64-bit type. */
  function Promoted(w: Width): Width
  {
    if w.W64? then W64 else W32
  }

  /** Conversion to unsigned, and unsigned negation. */
  function ToUnsigned(n: int, w: Width): nat
  {
    n % Modulus(w)
  }

  function Negate(u: nat, w: Width): nat
  {
    (Modulus(w) - u) % Modulus(w)
  }

  /** Negating after conversion gives the magnitude, for the most negative value as well. */
  lemma Magnitude(n: int, w: Width)
    requires IsSigned(n, w)
    ensures n >= 0 ==> ToUnsigned(n, Promoted(w)) == n
    ensures n < 0 ==> Negate(ToUnsigned(n, Promoted(w)), Promoted(w)) == -n
  {
    match w
    case W8 =>
    case W16 =>
    case W32 =>
    case W64 =>
  }
}
