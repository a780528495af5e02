// Binary floating point with 53-bit significands, rounding to nearest, ties to even (IEEE 754-2019, sections 3
// and 4). A value is an exact real. Exponents have no end either way: weights and hashes stay far from both ends.
module Float64 {

  /** The first significand that is too large, and the first that fills all 53 bits. */
  const FULL: int := 0x20_0000_0000_0000
  const HALF: int := 0x10_0000_0000_0000

  /** The nearest integer, the even one of two equally near. */
  function Nearest(y: real): (n: int)
    ensures -0.5 <= n as real - y <= 0.5
  {
    var low := y.Floor;
    var over := y - low as real;
    if over < 0.5 || (over == 0.5 && low % 2 == 0) then low else low + 1
  }

  /** How far a number is from having a full significand as it stands. */
  ghost function Distance(x: real): int {
    if x >= FULL as real then x.Floor else if x >= HALF as real || x <= 0.0 then 0 else (HALF as real / x).Floor
  }

  lemma DoublingGetsCloser(x: real)
    requires 0.0 < x < HALF as real
    ensures 0 <= Distance(2.0 * x) < Distance(x)
  {
    var y := HALF as real / x;
    assert y * x == HALF as real;
    if y <= 1.0 {
      TimesGrows(y, 1.0, x);
    }
    if 2.0 * x < HALF as real {
      var z := HALF as real / (2.0 * x);
      assert z * (2.0 * x) == HALF as real;
      assert (2.0 * z - y) * x == 0.0;
    }
  }

  lemma TimesGrows(a: real, b: real, u: real)
    requires a <= b && u > 0.0
    ensures a * u <= b * u
  {
  }

  /** The value stored for a number: its significand is rounded to 53 bits. */
  function Round(x: real): real
    decreases x < 0.0, Distance(x)
  {
    if x < 0.0 then -Round(-x)
    else if x == 0.0 then 0.0
    else if x >= FULL as real then 2.0 * Round(x / 2.0)
    else if x >= HALF as real then Nearest(x) as real
    else
      DoublingGetsCloser(x);
      Round(2.0 * x) / 2.0
  }

  /** Powers of two scale without rounding. */
  lemma RoundingScales(x: real)
    ensures Round(2.0 * x) == 2.0 * Round(x)
    ensures Round(x / 2.0) == Round(x) / 2.0
  {
    DoublingScales(x);
    DoublingScales(x / 2.0);
  }

  lemma DoublingScales(x: real)
    ensures Round(2.0 * x) == 2.0 * Round(x)
  {
    if x < 0.0 {
      assert Round(2.0 * x) == -Round(2.0 * -x);
    }
  }

  lemma {:induction false} RoundingStays(x: real)
    ensures x >= HALF as real ==> Round(x) >= HALF as real
    ensures 0.0 <= x <= HALF as real ==> 0.0 <= Round(x) <= HALF as real
    ensures 0.0 <= x <= FULL as real ==> Round(x) <= FULL as real
    decreases Distance(x)
  {
    if x >= FULL as real {
      RoundingStays(x / 2.0);
    } else if 0.0 < x < HALF as real {
      DoublingGetsCloser(x);
      RoundingStays(2.0 * x);
    }
  }

  lemma NearestGrows(x: real, y: real)
    requires x <= y
    ensures Nearest(x) <= Nearest(y)
  {
  }

  lemma {:induction false} PositiveRoundingGrows(x: real, y: real)
    requires 0.0 <= x <= y
    ensures Round(x) <= Round(y)
    decreases Distance(y)
  {
    if x >= FULL as real {
      PositiveRoundingGrows(x / 2.0, y / 2.0);
    } else if y >= FULL as real {
      RoundingStays(x);
      RoundingStays(y / 2.0);
    } else if x >= HALF as real {
      NearestGrows(x, y);
    } else if y >= HALF as real {
      RoundingStays(x);
      RoundingStays(y);
    } else if x > 0.0 {
      DoublingGetsCloser(y);
      PositiveRoundingGrows(2.0 * x, 2.0 * y);
    } else {
      RoundingStays(y);
    }
  }

  /** Rounding keeps order. */
  lemma RoundingGrows(x: real, y: real)
    requires x <= y
    ensures Round(x) <= Round(y)
  {
    if x >= 0.0 {
      PositiveRoundingGrows(x, y);
    } else if y < 0.0 {
      PositiveRoundingGrows(-y, -x);
    } else {
      PositiveRoundingGrows(0.0, -x);
      PositiveRoundingGrows(0.0, y);
    }
  }

  /** What is stored is stored again as it is. */
  lemma {:induction false} StoredIsFixed(x: real)
    ensures Round(Round(x)) == Round(x)
    decreases x < 0.0, Distance(x)
  {
    if x < 0.0 {
      StoredIsFixed(-x);
      PositiveRoundingGrows(0.0, -x);
    } else if x >= FULL as real {
      StoredIsFixed(x / 2.0);
      RoundingScales(Round(x / 2.0));
    } else if x >= HALF as real {
      assert Round(HALF as real) == HALF as real;
      WholeIsFixed(Nearest(x));
    } else if x > 0.0 {
      DoublingGetsCloser(x);
      StoredIsFixed(2.0 * x);
      RoundingScales(Round(2.0 * x));
    }
  }

  /** Whole numbers of at most 53 bits are stored as they are. */
  lemma {:induction false} WholeIsFixed(n: int)
    requires 0 <= n <= FULL
    ensures Round(n as real) == n as real
    decreases FULL - n
  {
    if n == FULL {
      assert Round(HALF as real) == HALF as real;
    } else if 0 < n < HALF {
      WholeIsFixed(2 * n);
      assert (2 * n) as real == 2.0 * n as real;
    }
  }

  /** The relative error of a stored value is at most 2^-53. */
  lemma {:induction false} RoundingError(x: real)
    requires x >= 0.0
    ensures x - x / FULL as real <= Round(x) <= x + x / FULL as real
    decreases Distance(x)
  {
    if x >= FULL as real {
      RoundingError(x / 2.0);
    } else if 0.0 < x < HALF as real {
      DoublingGetsCloser(x);
      RoundingError(2.0 * x);
    }
  }

  // ----- scaling by powers of two -----

  lemma Scale4(x: real)
    ensures Round(16.0 * x) == 16.0 * Round(x)
  {
    DoublingScales(x);
    DoublingScales(2.0 * x);
    DoublingScales(4.0 * x);
    DoublingScales(8.0 * x);
  }

  lemma Scale7(x: real)
    ensures Round(128.0 * x) == 128.0 * Round(x)
  {
    Scale4(x);
    DoublingScales(16.0 * x);
    DoublingScales(32.0 * x);
    DoublingScales(64.0 * x);
  }

  lemma Scale14(x: real)
    ensures Round(16384.0 * x) == 16384.0 * Round(x)
  {
    Scale7(x);
    Scale7(128.0 * x);
  }

  lemma Scale28(x: real)
    ensures Round(268435456.0 * x) == 268435456.0 * Round(x)
  {
    Scale14(x);
    Scale14(16384.0 * x);
  }

  lemma Scale56(x: real)
    ensures Round(72057594037927936.0 * x) == 72057594037927936.0 * Round(x)
  {
    Scale28(x);
    Scale28(268435456.0 * x);
  }

  /** Dividing by 2^60 rounds nothing away. */
  lemma SixtyHalvings(x: real)
    ensures Round(x / 1152921504606846976.0) == Round(x) / 1152921504606846976.0
  {
    var y := x / 1152921504606846976.0;
    Scale60(y);
    assert 1152921504606846976.0 * y == x;
  }

  lemma Scale60(x: real)
    ensures Round(1152921504606846976.0 * x) == 1152921504606846976.0 * Round(x)
  {
    Scale56(x);
    Scale4(72057594037927936.0 * x);
  }
}
