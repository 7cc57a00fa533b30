/** CDlgUnit (nxrmcmui/src/dlgunit.cpp): dialog units and pixels, converted with rounding. */
module DialogUnits {
  const INT_MIN: int := -0x8000_0000
  const INT_MAX: int := 0x7FFF_FFFF

  /** n * m / d rounded to the nearest integer, halves away from 0. */
  function Rounded(n: int, m: int, d: int): int
    requires d > 0
  {
    if n * m >= 0 then (2 * (n * m) + d) / (2 * d) else -((2 * -(n * m) + d) / (2 * d))
  }

  predicate Fits(n: int) {
    INT_MIN <= n <= INT_MAX
  }

  /** MulDiv of the Windows API, for divisors that are not negative: -1 for a zero divisor or a result that does
      not fit. */
  function MulDiv(n: int, m: int, d: int): int
    requires d >= 0
  {
    if d == 0 || !Fits(Rounded(n, m, d)) then -1 else Rounded(n, m, d)
  }

  lemma DivisionBounds(x: int, d: int)
    requires x >= 0 && d > 0
    ensures var q := (2 * x + d) / (2 * d); 2 * (q * d) <= 2 * x + d < 2 * (q * d) + 2 * d
  {
    var q := (2 * x + d) / (2 * d);
    assert (2 * d) * q == 2 * (q * d);
  }

  /** The rounding error is at most half the divisor. */
  lemma RoundedError(n: int, m: int, d: int)
    requires d > 0
    ensures -d <= 2 * (Rounded(n, m, d) * d - n * m) <= d
  {
    var x, r := n * m, Rounded(n, m, d);
    if x >= 0 {
      DivisionBounds(x, d);
    } else {
      DivisionBounds(-x, d);
      assert r * d == -(-r * d);
    }
  }

  lemma QuotientIs(y: int, d: int, q: int)
    requires d > 0
    ensures y / d == q <==> q * d <= y < q * d + d
  {
    var r := y / d;
    assert r * d <= y < r * d + d;
    if q * d <= y < q * d + d {
      assert (r - q) * d == r * d - q * d;
      SmallMultiple(r - q, d);
    }
  }

  /** q is the nearest integer to n * m / d, and of two equally near ones the one further from 0. */
  predicate Nearest(n: int, m: int, d: int, q: int) {
    if n * m >= 0 then 2 * (q * d) - d <= 2 * (n * m) < 2 * (q * d) + d
    else 2 * (q * d) - d < 2 * (n * m) <= 2 * (q * d) + d
  }

  lemma MulDivIff(n: int, m: int, d: int, q: int)
    requires d >= 0
    ensures d > 0 && Nearest(n, m, d, q) ==> MulDiv(n, m, d) == if Fits(q) then q else -1
    ensures d == 0 ==> MulDiv(n, m, d) == -1
    ensures d > 0 ==> exists p :: Nearest(n, m, d, p)
  {
    if d > 0 {
      RoundedIff(n, m, d, q);
      RoundedIff(n, m, d, Rounded(n, m, d));
    }
  }

  /** The result is the nearest integer, and of two equally near ones the one further from 0. */
  lemma RoundedIff(n: int, m: int, d: int, q: int)
    requires d > 0
    ensures Rounded(n, m, d) == q <==> Nearest(n, m, d, q)
  {
    if n * m >= 0 {
      HalvesUp(n * m, d, q);
    } else {
      HalvesUp(-(n * m), d, -q);
      assert -q * d == -(q * d);
    }
  }

  lemma HalvesUp(x: int, d: int, q: int)
    requires d > 0
    ensures (2 * x + d) / (2 * d) == q <==> 2 * (q * d) - d <= 2 * x < 2 * (q * d) + d
  {
    QuotientIs(2 * x + d, 2 * d, q);
    assert q * (2 * d) == 2 * (q * d);
  }

  lemma SmallMultiple(t: int, d: int)
    requires d > 0 && -d < t * d < d
    ensures t == 0
  {
  }

  /** A number less than half a divisor away from a multiple rounds to it. */
  lemma RoundedNear(n: int, m: int, d: int, q: int)
    requires d > 0 && -d < 2 * (n * m - q * d) < d
    ensures Rounded(n, m, d) == q
  {
    RoundedError(n, m, d);
    var r := Rounded(n, m, d);
    assert (r - q) * d == r * d - q * d;
    SmallMultiple(r - q, d);
  }

  lemma RoundedExact(n: int, d: int)
    requires d > 0
    ensures Rounded(n, d, d) == n
  {
    RoundedNear(n, d, d, n);
  }

  /** There and back: units to pixels with scale per base, and back. */
  lemma ThereAndBack(units: int, base: nat, scale: nat)
    requires base >= scale > 0
    ensures Rounded(Rounded(units, base, scale), scale, base) == units
  {
    var pixels := Rounded(units, base, scale);
    if base == scale {
      RoundedExact(units, base);
      RoundedExact(pixels, base);
    } else {
      RoundedError(units, base, scale);
      RoundedNear(pixels, scale, base, units);
    }
  }

  /** The units come back. */
  predicate ComesBack(units: int, base: nat, scale: nat)
    requires scale > 0
  {
    MulDiv(MulDiv(units, base, scale), scale, base) == units
  }

  /** A number of units that does not survive a base smaller than the scale. */
  function Lost(base: nat, scale: nat): int {
    if scale == 4 && base == 3 then 2
    else if scale == 8 && base == 6 then 2
    else if scale == 8 && base == 7 then 4
    else 1
  }

  /** Every number of units whose pixels fit an int comes back exactly if the base is at least the scale: 4
      horizontally, 8 vertically. */
  lemma ComesBackIff(base: nat, scale: nat)
    requires scale == 4 || scale == 8
    ensures (forall units :: Fits(units) && Fits(Rounded(units, base, scale)) ==> ComesBack(units, base, scale))
      <==> base >= scale
  {
    if base >= scale {
      forall units | Fits(units) && Fits(Rounded(units, base, scale))
        ensures ComesBack(units, base, scale)
      {
        ThereAndBack(units, base, scale);
      }
    } else {
      var units := Lost(base, scale);
      assert Fits(units) && Fits(Rounded(units, base, scale)) && !ComesBack(units, base, scale);
    }
  }

  class DlgUnit {
    const baseCx: nat
    const baseCy: nat
    var dluCx: int
    var dluCy: int
    var pixelCx: int
    var pixelCy: int

    constructor (baseCx: nat, baseCy: nat)
      ensures this.baseCx == baseCx && this.baseCy == baseCy
      ensures dluCx == dluCy == pixelCx == pixelCy == 0
    {
      this.baseCx, this.baseCy := baseCx, baseCy;
      dluCx, dluCy, pixelCx, pixelCy := 0, 0, 0, 0;
    }

    method SetDluUnits(cx: int, cy: int)
      modifies this
      ensures dluCx == cx && dluCy == cy
      ensures pixelCx == MulDiv(cx, baseCx, 4) && pixelCy == MulDiv(cy, baseCy, 8)
    {
      dluCx, dluCy := cx, cy;
      pixelCx := MulDiv(cx, baseCx, 4);
      pixelCy := MulDiv(cy, baseCy, 8);
    }

    method SetPixelUnits(cx: int, cy: int)
      modifies this
      ensures pixelCx == cx && pixelCy == cy
      ensures dluCx == MulDiv(cx, 4, baseCx) && dluCy == MulDiv(cy, 8, baseCy)
    {
      pixelCx, pixelCy := cx, cy;
      dluCx := MulDiv(cx, 4, baseCx);
      dluCy := MulDiv(cy, 8, baseCy);
    }

    /** Setting the pixels to what they already are keeps the units. */
    method SetSamePixels(cx: int, cy: int)
      requires baseCx >= 4 && baseCy >= 8 && Fits(cx) && Fits(cy)
      requires Fits(Rounded(cx, baseCx, 4)) && Fits(Rounded(cy, baseCy, 8))
      modifies this
      ensures dluCx == cx && dluCy == cy
    {
      SetDluUnits(cx, cy);
      SetPixelUnits(pixelCx, pixelCy);
      ComesBackIff(baseCx, 4);
      ComesBackIff(baseCy, 8);
      assert ComesBack(cx, baseCx, 4) && ComesBack(cy, baseCy, 8);
    }
  }
}
