/** The fixed-point decay factor: a four-term Taylor series with a floor at each term. */
module ScoreDecay {
  import opened Tokens

  const SCALE := 1_000_000

  /** Where the series climbs back to full weight. */
  const REBOUND := 2_785_294

  /** The truncated series at `x`, the scaled product of decay rate and age. */
  function Series(x: nat): int {
    SCALE - x + x * x / (2 * SCALE) - x * x * x / (6 * SCALE * SCALE) + x * x * x * x / (24 * SCALE * SCALE * SCALE)
  }

  function FactorAt(x: nat): int {
    if x >= 5 * SCALE then 0 else Max(0, Min(Series(x), SCALE))
  }

  function ScaledAge(age: nat, num: nat, den: nat): nat
    requires den > 0
  {
    num * age * SCALE / den
  }

  function DecayFactor(age: nat, num: nat, den: nat): int
    requires den > 0
  {
    if num == 0 then SCALE else FactorAt(ScaledAge(age, num, den))
  }

  /** `24 * SCALE^3` times the series without its floors, minus `24 * SCALE^4`. */
  function Polynomial(x: int): int {
    x * x * x * x - 4 * SCALE * (x * x * x) + 12 * SCALE * SCALE * (x * x) - 24 * SCALE * SCALE * SCALE * x
  }

  /** The four floors lose less than two and gain less than one. */
  lemma FloorSlack(x: nat)
    ensures var unit := 24 * SCALE * SCALE * SCALE;
            Polynomial(x) - 2 * unit < unit * (Series(x) - SCALE) < Polynomial(x) + unit
  {
    var a, b, c := x * x / (2 * SCALE), x * x * x / (6 * SCALE * SCALE), x * x * x * x / (24 * SCALE * SCALE * SCALE);
    FloorOf(x * x, 2 * SCALE);
    FloorOf(x * x * x, 6 * SCALE * SCALE);
    FloorOf(x * x * x * x, 24 * SCALE * SCALE * SCALE);
  }

  lemma FloorOf(n: int, d: nat)
    requires d > 0
    ensures d * (n / d) <= n < d * (n / d) + d
  {
  }

  // Bounds.

  /** Below the cutoff the factor stays above a quarter: the lower clamp never fires. */
  lemma AtLeastAQuarter(x: nat)
    ensures Series(x) >= SCALE / 4 - 2
  {
    var y, z := x - SCALE, 3 * x - 5 * SCALE;
    SumOfSquares(x, y * y, y, z);
    assert y * y * (y * y) >= 0 && z * z >= 0;
    FloorSlack(x);
  }

  lemma SumOfSquares(x: int, yy: int, y: int, z: int)
    requires y == x - SCALE && yy == y * y && z == 3 * x - 5 * SCALE
    ensures 3 * Polynomial(x) == 3 * (yy * yy) + 2 * SCALE * SCALE * (z * z) - 53 * SCALE * SCALE * SCALE * SCALE
  {
    assert yy == x * x - 2 * SCALE * x + SCALE * SCALE;
    assert z * z == 9 * (x * x) - 30 * SCALE * x + 25 * SCALE * SCALE;
  }

  lemma DecayBounds(age: nat, num: nat, den: nat)
    requires den > 0
    ensures 0 <= DecayFactor(age, num, den) <= SCALE
    ensures num == 0 || ScaledAge(age, num, den) < 5 * SCALE ==> DecayFactor(age, num, den) >= SCALE / 4 - 2
  {
    AtLeastAQuarter(ScaledAge(age, num, den));
  }

  // The factor in terms of the rate `num / den` and the age.

  /** The scaled age is the rate times the age, in units of one over SCALE, rounded down. */
  lemma ScaledAgeRounds(age: nat, num: nat, den: nat)
    requires den > 0
    ensures den * ScaledAge(age, num, den) <= num * age * SCALE < den * (ScaledAge(age, num, den) + 1)
  {
    FloorOf(num * age * SCALE, den);
  }

  /** A score is dropped exactly when rate times age reaches five. */
  lemma DroppedExactly(age: nat, num: nat, den: nat)
    requires den > 0
    ensures DecayFactor(age, num, den) == 0 <==> num * age >= 5 * den
  {
    var x := ScaledAge(age, num, den);
    ScaledAgeRounds(age, num, den);
    DecayBounds(age, num, den);
    Scaled(den, 5 * SCALE, x);
    Scaled(den, x + 1, 5 * SCALE);
    assert den * (5 * SCALE) == 5 * den * SCALE;
  }

  lemma SeriesAboveLine(x: nat)
    ensures Series(x) >= SCALE - x
  {
    if x < 18_000 {
      SeriesAboveNear(x);
    } else {
      SeriesAboveFar(x);
    }
  }

  lemma SeriesAboveNear(x: nat)
    requires x < 18_000
    ensures Series(x) >= SCALE - x
  {
    SmallCube(x);
    NoQuotient(x * x * x);
    NoNegative(x * x, 2 * SCALE);
    NoNegative(x * x * x * x, 24 * SCALE * SCALE * SCALE);
  }

  lemma SeriesAboveFar(x: nat)
    requires x >= 18_000
    ensures Series(x) >= SCALE - x
  {
    ProductsGrow(18_000, x, 18_000, x);
    Quartic(x, x * x, x - 2 * SCALE);
    QuarticIsLarge(x * x, x - 2 * SCALE);
    FloorSlack(x);
    Outgrows(Series(x), Polynomial(x), x);
  }

  lemma Outgrows(series: int, p: int, x: nat)
    requires p - 2 * (24 * SCALE * SCALE * SCALE) < 24 * SCALE * SCALE * SCALE * (series - SCALE)
    requires p >= 324_000_000 * (8 * SCALE * SCALE) - 24 * SCALE * SCALE * SCALE * x
    ensures series >= SCALE - x
  {
  }

  lemma NoNegative(n: nat, d: nat)
    requires d > 0
    ensures n / d >= 0
  {
  }

  lemma Quartic(x: int, xx: int, u: int)
    requires xx == x * x && u == x - 2 * SCALE
    ensures Polynomial(x) == xx * (u * u + 8 * SCALE * SCALE) - 24 * SCALE * SCALE * SCALE * x
  {
    assert u * u == xx - 4 * SCALE * x + 4 * SCALE * SCALE;
    assert xx * (u * u + 8 * SCALE * SCALE) == xx * xx - 4 * SCALE * (xx * x) + 12 * SCALE * SCALE * xx;
  }

  lemma QuarticIsLarge(xx: nat, u: int)
    requires xx >= 324_000_000
    ensures xx * (u * u + 8 * SCALE * SCALE) >= 324_000_000 * (8 * SCALE * SCALE)
  {
    assert u * u >= 0;
    ProductsGrow(324_000_000, xx, 8 * SCALE * SCALE, u * u + 8 * SCALE * SCALE);
  }

  lemma SmallCube(x: nat)
    requires x < 18_000
    ensures x * x * x < 6 * SCALE * SCALE
  {
    ProductsGrow(x, 18_000, x, 18_000);
    ProductsGrow(x * x, 324_000_000, x, 18_000);
  }

  lemma NoQuotient(n: nat)
    requires n < 6 * SCALE * SCALE
    ensures n / (6 * SCALE * SCALE) == 0
  {
  }

  lemma ProductsGrow(a: nat, b: nat, c: nat, d: nat)
    requires a <= b && c <= d
    ensures a * c <= b * d
  {
    assert a * c <= b * c;
    assert b * c <= b * d;
  }

  lemma SeriesBelowParabola(x: nat)
    requires x <= 4 * SCALE
    ensures Series(x) <= SCALE - x + x * x / (2 * SCALE) + 1
  {
    assert x * x * x >= 0;
    assert x * x * x * x <= x * x * x * (4 * SCALE);
    FloorOf(x * x * x, 6 * SCALE * SCALE);
    FloorOf(x * x * x * x, 24 * SCALE * SCALE * SCALE);
  }

  /** Between one minus rate times age and, up to four decay constants, the parabola through
      the next term of the series. */
  lemma DecayBetween(age: nat, num: nat, den: nat)
    requires den > 0 && num * age < 5 * den
    ensures den * (SCALE - DecayFactor(age, num, den)) <= num * age * SCALE
    ensures var x := ScaledAge(age, num, den);
            x <= 4 * SCALE ==> DecayFactor(age, num, den) <= SCALE - x + x * x / (2 * SCALE) + 1
  {
    var x := ScaledAge(age, num, den);
    ScaledAgeRounds(age, num, den);
    DroppedExactly(age, num, den);
    assert num == 0 ==> x == 0;
    FactorBetween(x);
    Scaled(den, SCALE - DecayFactor(age, num, den), x);
  }

  lemma FactorBetween(x: nat)
    ensures x == 0 ==> FactorAt(x) == SCALE
    ensures x < 5 * SCALE ==> SCALE - FactorAt(x) <= x
    ensures x <= 4 * SCALE ==> FactorAt(x) <= SCALE - x + x * x / (2 * SCALE) + 1
  {
    SeriesAboveLine(x);
    AtLeastAQuarter(x);
    if x <= 4 * SCALE {
      SeriesBelowParabola(x);
    }
  }

  lemma Scaled(den: nat, y: int, x: nat)
    ensures y <= x ==> den * y <= den * x
  {
  }

  // Where decay has no effect.

  /** The cubic factor of the polynomial; it increases in `x`. */
  function Cubic(x: int): int {
    x * x * x - 4 * SCALE * (x * x) + 12 * SCALE * SCALE * x - 24 * SCALE * SCALE * SCALE
  }

  lemma PolynomialFactors(x: int)
    ensures Polynomial(x) == x * Cubic(x)
  {
  }

  lemma CubicIncreases(x: int, y: int)
    requires x <= y
    ensures Cubic(x) <= Cubic(y)
  {
    var d := y - x;
    var slope := x * x + x * y + y * y - 4 * SCALE * (x + y) + 12 * SCALE * SCALE;
    SlopePositive(x, y, slope);
    assert Cubic(y) - Cubic(x) == d * slope;
    assert d * slope >= 0;
  }

  lemma SlopePositive(x: int, y: int, slope: int)
    requires slope == x * x + x * y + y * y - 4 * SCALE * (x + y) + 12 * SCALE * SCALE
    ensures slope > 0
  {
    var u, v := 2 * x + y - 4 * SCALE, 3 * y - 4 * SCALE;
    assert 12 * slope == 3 * (u * u) + v * v + 80 * SCALE * SCALE;
    assert u * u >= 0 && v * v >= 0;
  }

  lemma FullFromRebound(x: nat)
    requires x >= REBOUND
    ensures Series(x) >= SCALE
  {
    if x == REBOUND {
      assert Series(REBOUND) == SCALE;
    } else {
      CubicIncreases(REBOUND + 1, x);
      PolynomialFactors(x);
      assert Cubic(REBOUND + 1) > 0;
      assert x * Cubic(x) >= (REBOUND + 1) * Cubic(REBOUND + 1);
      FloorSlack(x);
    }
  }

  lemma LessBeforeRebound(x: nat)
    requires 0 < x < REBOUND
    ensures Series(x) < SCALE
  {
    if x == 1 {
      assert Series(1) == SCALE - 1;
    } else if x == REBOUND - 1 {
      assert Series(REBOUND - 1) == SCALE - 1;
    } else {
      PolynomialFactors(x);
      if x <= 1_200_000 {
        CubicIncreases(x, 1_200_000);
        assert x * Cubic(x) <= 2 * Cubic(1_200_000);
      } else {
        CubicIncreases(x, REBOUND - 2);
        assert Cubic(REBOUND - 2) < 0;
        assert x * Cubic(x) <= 1_200_000 * Cubic(REBOUND - 2);
      }
      FloorSlack(x);
    }
  }

  /** Decay leaves a score at full weight exactly at age zero and again from about 2.79 decay
      constants to the cutoff at five: it is not monotone, and very old scores are restored
      before they are dropped. */
  lemma FullWeightExactly(x: nat)
    ensures FactorAt(x) == SCALE <==> x == 0 || REBOUND <= x < 5 * SCALE
  {
    if x >= REBOUND {
      FullFromRebound(x);
    } else if x > 0 {
      LessBeforeRebound(x);
    }
  }

  // Where decay is monotone.

  /** The falling part of the series ends just after this point. */
  const TURN := 1_590_000

  /** The polynomial falls by at least a fixed rate up to the turn. */
  lemma FallsBeforeTurn(x: nat, y: nat)
    requires x <= y <= TURN
    ensures Polynomial(x) - Polynomial(y) >= (y - x) * 98_000_000_000_000_000
  {
    var d := y - x;
    var q := 24 * SCALE * SCALE * SCALE - 12 * SCALE * SCALE * (x + y) + 4 * SCALE * (x * x + x * y + y * y)
             - (x * x * x + x * x * y + x * y * y + y * y * y);
    assert Polynomial(x) - Polynomial(y) == d * q by { Difference(x, y); }
    ChordSteeperThanEnd(x, y, q);
    EndSlope(y);
    assert d * q >= d * 98_000_000_000_000_000;
  }

  lemma Difference(x: int, y: int)
    ensures Polynomial(x) - Polynomial(y)
            == (y - x) * (24 * SCALE * SCALE * SCALE - 12 * SCALE * SCALE * (x + y) + 4 * SCALE * (x * x + x * y + y * y)
                          - (x * x * x + x * x * y + x * y * y + y * y * y))
  {
    assert (y - x) * (x + y) == y * y - x * x;
    assert (y - x) * (x * x + x * y + y * y) == y * y * y - x * x * x;
    assert (y - x) * (x * x * x + x * x * y + x * y * y + y * y * y) == y * y * y * y - x * x * x * x;
  }

  function Slope(y: int): int {
    24 * SCALE * SCALE * SCALE - 24 * SCALE * SCALE * y + 12 * SCALE * (y * y) - 4 * (y * y * y)
  }

  lemma ChordSteeperThanEnd(x: int, y: int, q: int)
    requires x <= y
    requires q == 24 * SCALE * SCALE * SCALE - 12 * SCALE * SCALE * (x + y) + 4 * SCALE * (x * x + x * y + y * y)
                  - (x * x * x + x * x * y + x * y * y + y * y * y)
    ensures q >= Slope(y)
  {
    var u, v := x + y - 2 * SCALE, y - SCALE;
    var bend := 12 * SCALE * SCALE - 4 * SCALE * (x + 2 * y) + (x * x + 2 * (x * y) + 3 * (y * y));
    assert bend == u * u + 2 * (v * v) + 6 * SCALE * SCALE;
    assert u * u >= 0 && v * v >= 0;
    assert q - Slope(y) == (y - x) * bend;
    assert (y - x) * bend >= 0;
  }

  lemma EndSlope(y: nat)
    requires y <= TURN
    ensures Slope(y) >= 98_000_000_000_000_000
  {
    var d := TURN - y;
    var bracket := 24 * SCALE * SCALE - 12 * SCALE * (TURN + y) + 4 * (TURN * TURN + TURN * y + y * y);
    var u := 2 * y + TURN - 3 * SCALE;
    assert bracket == u * u + 3 * ((TURN - SCALE) * (TURN - SCALE)) + 12 * SCALE * SCALE;
    assert u * u >= 0;
    assert Slope(y) - Slope(TURN) == d * bracket;
    assert d * bracket >= 0;
  }

  /** Up to the turn an older score never weighs more than a younger one by more than the
      rounding of two units, and from a thousand units apart it never weighs more at all. */
  lemma MonotoneBeforeTurn(x: nat, y: nat)
    requires x <= y <= TURN
    ensures FactorAt(y) <= FactorAt(x) + 2
    ensures x + 1_000 <= y ==> FactorAt(y) <= FactorAt(x)
  {
    FallsBeforeTurn(x, y);
    FloorSlack(x);
    FloorSlack(y);
    AtLeastAQuarter(x);
  }

  lemma ScaledAgeGrows(age: nat, older: nat, num: nat, den: nat)
    requires age <= older && den > 0
    ensures ScaledAge(age, num, den) <= ScaledAge(older, num, den)
  {
    ProductsGrow(num, num, age, older);
    ProductsGrow(num * age, num * older, SCALE, SCALE);
    QuotientsGrow(num * age * SCALE, num * older * SCALE, den);
  }

  lemma QuotientsGrow(n: nat, m: nat, d: nat)
    requires n <= m && d > 0
    ensures n / d <= m / d
  {
    FloorOf(n, d);
    FloorOf(m, d);
    Scaled(d, m / d + 1, n / d);
    assert d * (m / d + 1) == d * (m / d) + d;
  }

  /** The same in terms of ages. */
  lemma OlderWeighsNoMore(age: nat, older: nat, num: nat, den: nat)
    requires age <= older && den > 0 && ScaledAge(older, num, den) <= TURN
    ensures DecayFactor(older, num, den) <= DecayFactor(age, num, den) + 2
  {
    ScaledAgeGrows(age, older, num, den);
    MonotoneBeforeTurn(ScaledAge(age, num, den), ScaledAge(older, num, den));
  }
}
