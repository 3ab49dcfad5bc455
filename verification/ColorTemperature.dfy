/** Conversion between mired and Kelvin, over exact rationals (src/ColorUnits.cpp). */
module ColorTemperature {
  import opened Numbers

  function KelvinToMired(kelvin: nat): (mired: nat)
    requires kelvin > 0
  {
    Round(1000000.0 / kelvin as real)
  }

  function MiredToKelvin(mired: nat): (kelvin: nat)
    requires mired > 0
  {
    Round(1000000.0 / mired as real)
  }

  // --- The rounded quotient ---

  lemma Scaled(a: real, b: real, x: real)
    requires x > 0.0
    ensures a <= b <==> a * x <= b * x
  {
  }

  lemma ProductAsReal(a: int, b: int)
    ensures a as real * b as real == (a * b) as real
  {
  }

  lemma Compare(q: real, x: nat, a: int)
    requires x > 0 && q * x as real == 1000000.0
    ensures a as real <= 2.0 * q <==> a * x <= 2000000
  {
    Scaled(a as real, 2.0 * q, x as real);
    assert 2.0 * q * x as real == 2.0 * (q * x as real);
    ProductAsReal(a, x);
  }

  /** A conversion's result is the integer nearest to the quotient, and the larger one of two that are equally near. */
  lemma NearestQuotient(x: nat, r: int)
    requires x > 0
    ensures Round(1000000.0 / x as real) == r <==> (2 * r - 1) * x <= 2000000 < (2 * r + 1) * x
  {
    var q := 1000000.0 / x as real;
    Compare(q, x, 2 * r - 1);
    Compare(q, x, 2 * r + 1);
  }

  /** There and back: off by at most m / 2k + 1 / 2 (here multiplied by 2k), so not at all if k is larger than m. */
  lemma ThereAndBack(m: nat)
    requires m > 0 && MiredToKelvin(m) > 0
    ensures var k := MiredToKelvin(m);
            var back := KelvinToMired(k);
            && 2 * k * (back - m) <= m + k && 2 * k * (m - back) <= m + k
            && (k > m ==> back == m)
  {
    var k := MiredToKelvin(m);
    var back := KelvinToMired(k);
    NearestQuotient(m, k);
    NearestQuotient(k, back);
    NearestQuotient(k, m);
    Expand(k, m, k * m);
    Expand(m, k, k * m);
    Expand(back, k, back * k);
    Differ(k, back, m, back * k, k * m);
  }

  lemma Differ(k: int, x: int, y: int, kx: int, ky: int)
    requires kx == k * x && ky == k * y
    ensures 2 * k * (x - y) == 2 * kx - 2 * ky && 2 * k * (y - x) == 2 * ky - 2 * kx
  {
  }

  lemma Expand(r: int, x: int, rx: int)
    requires rx == r * x
    ensures (2 * r - 1) * x == 2 * rx - x && (2 * r + 1) * x == 2 * rx + x
  {
  }

  /** All mireds up to 1000 come back, and with them all that a light accepts. */
  lemma MiredsComeBack(m: nat)
    requires 0 < m <= 1000
    ensures MiredToKelvin(m) >= 1000 && KelvinToMired(MiredToKelvin(m)) == m
  {
    var k := MiredToKelvin(m);
    NearestQuotient(m, k);
    assert k >= 1000 by {
      if k <= 999 {
        Increases(2 * k + 1, 1999, m, 1000);
        assert false;
      }
    }
    if m < 1000 {
      ThereAndBack(m);
    } else {
      NearestQuotient(1000, 1000);
    }
  }

  lemma Increases(a: nat, b: nat, x: nat, y: nat)
    requires a <= b && x <= y
    ensures a * x <= b * y
  {
    assert a * x <= a * y <= b * y;
  }

  /** Further up, some are lost. */
  lemma SomeMiredsAreLost()
    ensures MiredToKelvin(1023) == 978 && KelvinToMired(978) == 1022
  {
    NearestQuotient(1023, 978);
    NearestQuotient(978, 1022);
  }
}
