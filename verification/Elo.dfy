/** The Elo formula.  Elo points are integers, so 10^(d/400) is only ever needed at whole
    d, where it is the d-th power of the 400th root of ten.  That root is the parameter
    "g" below, and the arithmetic is exact. */
module Elo {
  import opened Truncation

  const K: real := 25.0

  function Pow(g: real, n: nat): real {
    if n == 0 then 1.0 else g * Pow(g, n - 1)
  }

  function Power(g: real, d: int): (r: real)
    requires g > 1.0
    ensures r > 0.0
  {
    if d >= 0 then PowAtLeast(g, d); Pow(g, d)
    else PowAtLeast(g, -d); 1.0 / Pow(g, -d)
  }

  /** "g" is the 400th root of ten. */
  ghost predicate IsRoot(g: real) {
    g > 1.0 && exists n: nat :: n == 400 && Pow(g, n) == 10.0
  }

  /** Bernoulli's inequality. */
  lemma {:induction false} PowAtLeast(g: real, n: nat)
    requires g > 1.0
    ensures Pow(g, n) >= 1.0 + n as real * (g - 1.0) >= 1.0
  {
    if n > 0 {
      PowAtLeast(g, n - 1);
      BernoulliStep(g - 1.0, (n - 1) as real, Pow(g, n - 1));
    }
  }

  lemma BernoulliStep(h: real, m: real, y: real)
    requires h > 0.0 && m >= 0.0 && y >= 1.0 + m * h >= 1.0
    ensures (1.0 + h) * y >= 1.0 + (m + 1.0) * h >= 1.0
  {
    Grow(h, 1.0, y);
    assert (1.0 + h) * y == y + h * y;
    assert (m + 1.0) * h == m * h + h;
  }

  lemma Grow(g: real, x: real, y: real)
    requires g > 0.0 && x <= y
    ensures g * x <= g * y
  {
  }

  lemma RootIsSmall(g: real)
    requires IsRoot(g)
    ensures 400.0 * (g - 1.0) <= 9.0
  {
    var n: nat :| n == 400 && Pow(g, n) == 10.0;
    PowAtLeast(g, n);
  }

  lemma PowerNext(g: real, d: int)
    requires g > 1.0
    ensures Power(g, d + 1) == g * Power(g, d)
  {
    if d < 0 {
      assert Pow(g, -d) == g * Pow(g, -d - 1);
      hide Pow;
      PowAtLeast(g, -d);
      PowAtLeast(g, -d - 1);
      Cancel(g, Pow(g, -d - 1));
    }
  }

  lemma Cancel(g: real, x: real)
    requires g > 0.0 && x > 0.0
    ensures g * x > 0.0 && g * (1.0 / (g * x)) == 1.0 / x
  {
  }

  lemma PowerInverse(g: real, d: int)
    requires g > 1.0
    ensures Power(g, -d) == 1.0 / Power(g, d)
  {
    if d != 0 {
      var n: nat := if d > 0 then d else -d;
      PowAtLeast(g, n);
      Reciprocal(Pow(g, n));
    }
  }

  lemma Reciprocal(x: real)
    requires x > 0.0
    ensures 1.0 / x > 0.0 && 1.0 / (1.0 / x) == x
  {
  }

  // ---- The expected result -------------------------------------------------------

  /** The expected result of a player ahead by "d" points, before clamping. */
  function Expected(g: real, d: int): (r: real)
    requires g > 1.0
    ensures 0.0 < r < 1.0
  {
    InUnit(Power(g, -d));
    1.0 / (1.0 + Power(g, -d))
  }

  lemma InUnit(x: real)
    requires x > 0.0
    ensures 0.0 < 1.0 / (1.0 + x) < 1.0
  {
  }

  function Clamp(d: int): int {
    if d > 400 then 400 else if d < -400 then -400 else d
  }

  function P(g: real, d: int): (r: real)
    requires g > 1.0
    ensures 0.0 < r < 1.0
  {
    Expected(g, Clamp(d))
  }

  lemma Symmetric(g: real, d: int)
    requires g > 1.0
    ensures P(g, d) + P(g, -d) == 1.0
  {
    PowerInverse(g, Clamp(d));
    Complement(Power(g, Clamp(d)));
  }

  lemma Complement(x: real)
    requires x > 0.0
    ensures 1.0 / x > 0.0 && 1.0 / (1.0 + 1.0 / x) + 1.0 / (1.0 + x) == 1.0
  {
    var y := 1.0 + 1.0 / x;
    assert x * y == x + 1.0;
    assert 1.0 / y == x / (x + 1.0);
  }

  /** One more point changes the expected result by at most (g - 1) / 4. */
  lemma ExpectedNext(g: real, d: int)
    requires g > 1.0
    ensures 0.0 <= Expected(g, d + 1) - Expected(g, d) <= (g - 1.0) / 4.0
  {
    PowerNext(g, -d - 1);
    Gap(g, Power(g, -d - 1));
  }

  lemma Gap(g: real, z: real)
    requires g > 1.0 && z > 0.0
    ensures 1.0 + g * z > 1.0 + z
    ensures 0.0 <= 1.0 / (1.0 + z) - 1.0 / (1.0 + g * z) <= (g - 1.0) / 4.0
  {
    var h, a := g - 1.0, 1.0 + z;
    var b := a + h * z;
    Grow(z, 1.0, g);
    assert b == 1.0 + g * z;
    Grow(h, 0.0, z);
    assert a * b == a * a + a * (h * z);
    Grow(a, 0.0, h * z);
    Square(z);
    Difference(a, b);
    Grow(h, 4.0 * z, a * b);
    assert h * (4.0 * z) == 4.0 * (h * z) && h * (a * b) == h / 4.0 * (a * b) * 4.0;
    Quotient(h * z, a * b, h / 4.0);
  }

  lemma Square(z: real)
    ensures (1.0 + z) * (1.0 + z) - 4.0 * z == (1.0 - z) * (1.0 - z) >= 0.0
  {
  }

  lemma Difference(a: real, b: real)
    requires a > 0.0 && b > 0.0
    ensures a * b > 0.0 && 1.0 / a - 1.0 / b == (b - a) / (a * b)
  {
    assert (1.0 / a - 1.0 / b) * (a * b) == b - a;
  }

  lemma Quotient(x: real, y: real, c: real)
    requires 0.0 <= x && 0.0 < y && x <= c * y
    ensures 0.0 <= x / y <= c
  {
  }

  const STEP: real := 9.0 / 1600.0

  lemma {:induction false} ExpectedBetween(g: real, low: int, high: int)
    requires IsRoot(g) && low <= high
    ensures 0.0 <= Expected(g, high) - Expected(g, low) <= (high - low) as real * STEP
    decreases high - low
  {
    if low < high {
      ExpectedBetween(g, low, high - 1);
      ExpectedNext(g, high - 1);
      RootIsSmall(g);
    }
  }

  /** The expected result grows with the lead, but by less than 0.6 % a point. */
  lemma Lipschitz(g: real, low: int, high: int)
    requires IsRoot(g) && low <= high
    ensures 0.0 <= P(g, high) - P(g, low) <= (high - low) as real * STEP
  {
    ExpectedBetween(g, Clamp(low), Clamp(high));
  }

  lemma ExpectedAtLimit(g: real)
    requires IsRoot(g)
    ensures P(g, -400) == 1.0 / 11.0 && P(g, 400) == 10.0 / 11.0
  {
    var n: nat :| n == 400 && Pow(g, n) == 10.0;
    var d: int := n;
    assert Power(g, d) == 10.0;
    assert P(g, -d) == 1.0 / 11.0;
    Symmetric(g, d);
  }

  /** The favourite is expected to win ten times out of eleven at most. */
  lemma Range(g: real, d: int)
    requires IsRoot(g)
    ensures 1.0 / 11.0 <= P(g, d) <= 10.0 / 11.0
  {
    ExpectedAtLimit(g);
    Lipschitz(g, -400, Clamp(d));
    Lipschitz(g, Clamp(d), 400);
  }

  /** The odds of a player are ten to the power of a 400th of the lead, which counts for
      400 points at most. */
  lemma Odds(g: real, d: int)
    requires IsRoot(g)
    ensures -400 <= d <= 400 ==> P(g, d) == Power(g, d) * (1.0 - P(g, d))
    ensures d > 400 ==> P(g, d) == 10.0 / 11.0
    ensures d < -400 ==> P(g, d) == 1.0 / 11.0
  {
    ExpectedAtLimit(g);
    PowerInverse(g, d);
    OddsOf(Power(g, d));
  }

  lemma OddsOf(x: real)
    requires x > 0.0
    ensures 1.0 / x > 0.0
    ensures var p := 1.0 / (1.0 + 1.0 / x); p == x * (1.0 - p)
  {
    Complement(x);
    var y := 1.0 + x;
    assert x * (1.0 / y) == x / y == 1.0 - 1.0 / y;
  }

  // ---- Two players ---------------------------------------------------------------

  /** The result of a player against another, by how much their scores changed. */
  function Result(d1: int, d2: int): real {
    if d1 < d2 then 0.0 else if d1 == d2 then 0.5 else 1.0
  }

  function Delta(g: real, elo1: int, d1: int, elo2: int, d2: int): int
    requires g > 1.0
  {
    Trunc(K * (Result(d1, d2) - P(g, elo1 - elo2)))
  }

  /** What one player of a pair wins, the other loses. */
  lemma DeltaAntisymmetric(g: real, elo1: int, d1: int, elo2: int, d2: int)
    requires g > 1.0
    ensures Delta(g, elo1, d1, elo2, d2) == -Delta(g, elo2, d2, elo1, d1)
  {
    Symmetric(g, elo1 - elo2);
    TruncOdd(K * (Result(d1, d2) - P(g, elo1 - elo2)));
    assert K * (Result(d2, d1) - P(g, elo2 - elo1)) == -(K * (Result(d1, d2) - P(g, elo1 - elo2)));
  }

  lemma DeltaBound(g: real, elo1: int, d1: int, elo2: int, d2: int)
    requires IsRoot(g)
    ensures -22 <= Delta(g, elo1, d1, elo2, d2) <= 22
  {
    Range(g, elo1 - elo2);
    var x := K * (Result(d1, d2) - P(g, elo1 - elo2));
    assert -23.0 < x < 23.0;
  }

  /** Against a third player, the better of two players who did no worse gets at least
      as much as the other, less their distance. */
  lemma DeltaOrder(g: real, eloA: int, dA: int, eloB: int, dB: int, elo: int, d: int)
    requires IsRoot(g) && eloB <= eloA && dB <= dA
    ensures Delta(g, eloA, dA, elo, d) >= Delta(g, eloB, dB, elo, d) - (eloA - eloB)
  {
    Lipschitz(g, eloB - elo, eloA - elo);
    TruncLowered(K * (Result(dB, d) - P(g, eloB - elo)), K * (Result(dA, d) - P(g, eloA - elo)), eloA - eloB);
  }

  /** Against each other, the better one does not lose more than half their distance. */
  lemma DeltaHeadToHead(g: real, eloA: int, dA: int, eloB: int, dB: int)
    requires IsRoot(g) && eloB <= eloA && dB <= dA
    ensures 2 * Delta(g, eloA, dA, eloB, dB) >= -(eloA - eloB)
  {
    Lipschitz(g, 0, eloA - eloB);
    Symmetric(g, 0);
    var x := K * (Result(dA, dB) - P(g, eloA - eloB));
    assert x >= -(eloA - eloB) as real * (K * STEP);
    if x < 0.0 {
      assert (-x).Floor as real <= -x;
    }
  }
}
