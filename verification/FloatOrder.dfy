/** `total_cmp` on bit patterns is the totalOrder predicate of IEEE 754-2008, section 5.10. */
module FloatOrder {
  import opened Orders
  import opened CrdtValues

  /** A binary format by the size of its fraction field and of its exponent field. */
  datatype Format = Format(fraction: nat, exponents: nat)
  {
    predicate Valid() { fraction > 0 && exponents > 1 }

    /** The weight of the sign bit. */
    function Half(): nat { fraction * exponents }
  }

  const BINARY64 := Format(0x10_0000_0000_0000, 0x800)
  const BINARY32 := Format(0x80_0000, 0x100)

  function Negative(f: Format, bits: nat): bool { bits >= f.Half() }

  function Magnitude(f: Format, bits: nat): nat {
    if bits < f.Half() then bits else bits - f.Half()
  }

  function Exponent(f: Format, m: nat): nat
    requires f.Valid()
  {
    m / f.fraction
  }

  function Fraction(f: Format, m: nat): nat
    requires f.Valid()
  {
    m % f.fraction
  }

  predicate IsNaN(f: Format, m: nat)
    requires f.Valid()
  {
    Exponent(f, m) >= f.exponents - 1 && Fraction(f, m) != 0
  }

  function Pow2(n: nat): nat {
    if n == 0 then 1 else 2 * Pow2(n - 1)
  }

  /** The absolute value of a number, in units of the least subnormal. An infinity stands one step
      above the largest finite number. */
  function Size(f: Format, m: nat): nat
    requires f.Valid()
  {
    if Exponent(f, m) == 0 then Fraction(f, m)
    else (f.fraction + Fraction(f, m)) * Pow2(Exponent(f, m) - 1)
  }

  /** totalOrder on two unsigned patterns: numbers by value and below every NaN, NaNs by the
      quiet bit and then the payload, which together are the fraction. */
  predicate MagnitudePrecedes(f: Format, x: nat, y: nat)
    requires f.Valid()
  {
    if IsNaN(f, x) then IsNaN(f, y) && Fraction(f, x) < Fraction(f, y)
    else IsNaN(f, y) || Size(f, x) < Size(f, y)
  }

  /** totalOrder, strictly: everything signed below everything unsigned, so -0 below +0, and the
      signed half reversed. */
  predicate Precedes(f: Format, x: nat, y: nat)
    requires f.Valid()
  {
    if Negative(f, x) != Negative(f, y) then Negative(f, x)
    else if Negative(f, x) then MagnitudePrecedes(f, Magnitude(f, y), Magnitude(f, x))
    else MagnitudePrecedes(f, Magnitude(f, x), Magnitude(f, y))
  }

  lemma Split(f: Format, m: nat)
    requires f.Valid()
    ensures m == Exponent(f, m) * f.fraction + Fraction(f, m)
    ensures Fraction(f, m) < f.fraction
    ensures m < f.Half() ==> Exponent(f, m) < f.exponents
  {
    if m < f.Half() && Exponent(f, m) >= f.exponents {
      MulMono(f.exponents, Exponent(f, m), f.fraction);
    }
  }

  lemma MulMono(a: nat, b: nat, c: nat)
    requires a <= b
    ensures a * c <= b * c
  {
  }

  lemma {:induction false} Pow2Grows(a: nat, b: nat)
    requires a < b
    ensures 2 * Pow2(a) <= Pow2(b)
    decreases b
  {
    if a < b - 1 { Pow2Grows(a, b - 1); }
  }

  /** Patterns order by exponent, then fraction. */
  lemma FieldOrder(f: Format, x: nat, y: nat)
    requires f.Valid() && x < y
    ensures Exponent(f, x) < Exponent(f, y) || (Exponent(f, x) == Exponent(f, y) && Fraction(f, x) < Fraction(f, y))
  {
    Split(f, x);
    Split(f, y);
    if Exponent(f, y) < Exponent(f, x) {
      MulMono(Exponent(f, y) + 1, Exponent(f, x), f.fraction);
    }
  }

  /** Numbers of the format grow with their patterns. */
  lemma SizeGrows(f: Format, x: nat, y: nat)
    requires f.Valid() && x < y
    ensures Size(f, x) < Size(f, y)
  {
    FieldOrder(f, x, y);
    Split(f, x);
    Split(f, y);
    var ex, ey := Exponent(f, x), Exponent(f, y);
    if ex == ey {
      if ex > 0 {
        PowPositive(ex - 1);
        MulStrict(f.fraction + Fraction(f, x), f.fraction + Fraction(f, y), Pow2(ex - 1));
      }
    } else {
      Binade(f.fraction, Fraction(f, x), ex, Fraction(f, y), ey);
    }
  }

  lemma {:induction false} PowPositive(n: nat)
    ensures Pow2(n) >= 1
    decreases n
  {
    if n > 0 { PowPositive(n - 1); }
  }

  lemma MulStrict(a: nat, b: nat, c: nat)
    requires a < b && c >= 1
    ensures a * c < b * c
  {
    assert b * c - a * c == (b - a) * c;
    MulMono(1, b - a, c);
  }

  /** The next binade starts above the whole of the last. */
  lemma Binade(unit: nat, fx: nat, ex: nat, fy: nat, ey: nat)
    requires 0 <= fx < unit && fy < unit && ex < ey
    ensures (if ex == 0 then fx else (unit + fx) * Pow2(ex - 1)) < (unit + fy) * Pow2(ey - 1)
  {
    PowPositive(ey - 1);
    if ex == 0 {
      MulMono(1, Pow2(ey - 1), unit + fy);
    } else {
      Pow2Grows(ex - 1, ey - 1);
      PowPositive(ex - 1);
      MulStrict(unit + fx, 2 * unit, Pow2(ex - 1));
      assert 2 * unit * Pow2(ex - 1) == unit * (2 * Pow2(ex - 1));
      MulMono(2 * Pow2(ex - 1), Pow2(ey - 1), unit);
      MulMono(unit, unit + fy, Pow2(ey - 1));
    }
  }

  lemma MagnitudeAscends(f: Format, x: nat, y: nat)
    requires f.Valid() && x < y < f.Half()
    ensures MagnitudePrecedes(f, x, y) && !MagnitudePrecedes(f, y, x)
  {
    FieldOrder(f, x, y);
    Split(f, y);
    SizeGrows(f, x, y);
    NaNsAreTop(f, Exponent(f, x), Exponent(f, y), x, y);
  }

  lemma NaNsAreTop(f: Format, ex: nat, ey: nat, x: nat, y: nat)
    requires f.Valid() && ex == Exponent(f, x) && ey == Exponent(f, y) && ex <= ey < f.exponents
    requires ex == ey ==> Fraction(f, x) < Fraction(f, y)
    ensures IsNaN(f, x) ==> IsNaN(f, y) && Fraction(f, x) < Fraction(f, y)
  {
  }

  lemma MagnitudeOrder(f: Format, x: nat, y: nat)
    requires f.Valid() && x < f.Half() && y < f.Half()
    ensures x < y <==> MagnitudePrecedes(f, x, y)
  {
    if x < y {
      MagnitudeAscends(f, x, y);
    } else if y < x {
      MagnitudeAscends(f, y, x);
    }
  }

  /** The comparison used for both float widths is exactly totalOrder, on every pair of patterns. */
  lemma TotalCmpIsTotalOrder(f: Format, x: nat, y: nat)
    requires f.Valid() && x < 2 * f.Half() && y < 2 * f.Half()
    ensures TotalKey(x, f.Half()) < TotalKey(y, f.Half()) <==> Precedes(f, x, y)
  {
    MagnitudeOrder(f, Magnitude(f, x), Magnitude(f, y));
    MagnitudeOrder(f, Magnitude(f, y), Magnitude(f, x));
  }

  /** So the stored floats of either width compare as their patterns do under totalOrder, and tie only
      with themselves. */
  lemma FloatsCompareByTotalOrder(x: Bits64, y: Bits64, a: Bits32, b: Bits32)
    ensures BINARY64.Half() == TWO_63 && BINARY32.Half() == TWO_31
    ensures Cmp(Float(x), Float(y)) == Less <==> Precedes(BINARY64, x, y)
    ensures Cmp(Float(x), Float(y)) == Equal <==> x == y
    ensures Cmp(F32(a), F32(b)) == Less <==> Precedes(BINARY32, a, b)
    ensures Cmp(F32(a), F32(b)) == Equal <==> a == b
  {
    TotalCmpIsTotalOrder(BINARY64, x, y);
    TotalCmpIsTotalOrder(BINARY32, a, b);
  }
}
