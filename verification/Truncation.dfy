/** Integer division and conversion from floating point, as C does them: toward zero. */
module Truncation {
  type Positive = x: int | 0 < x witness 1

  function TruncDiv(a: int, b: Positive): int {
    if a >= 0 then a / b else -(-a / b)
  }

  function Trunc(r: real): int {
    if r >= 0.0 then r.Floor else -(-r).Floor
  }

  lemma TruncBetween(r: real, low: int, high: int)
    requires low as real <= r <= high as real
    ensures low <= Trunc(r) <= high
  {
  }

  lemma TruncOdd(r: real)
    ensures Trunc(-r) == -Trunc(r)
  {
  }

  /** Truncation is monotone, and lowering a number by at most "d" lowers it by at
      most "d". */
  lemma TruncLowered(r: real, s: real, d: nat)
    requires r - d as real <= s
    ensures Trunc(r) - d <= Trunc(s)
  {
  }

  /** What truncation cuts off is smaller than the divisor, and has the sign of the
      dividend. */
  lemma TruncDivRemainder(a: int, b: int)
    requires b > 0
    ensures -b < a - b * TruncDiv(a, b) < b
    ensures a >= 0 ==> a - b * TruncDiv(a, b) >= 0
    ensures a <= 0 ==> a - b * TruncDiv(a, b) <= 0
  {
    if a >= 0 {
      assert a == b * (a / b) + a % b;
    } else {
      assert -a == b * (-a / b) + -a % b;
      assert b * -(-a / b) == -(b * (-a / b));
    }
  }

  lemma MulMonotone(b: nat, x: int, y: int)
    requires x <= y
    ensures b * x <= b * y
  {
  }

  lemma DivAtLeast(m: nat, b: Positive, k: int)
    requires b * k <= m
    ensures k <= m / b
  {
    if m / b < k {
      MulMonotone(b, m / b + 1, k);
      assert false;
    }
  }

  lemma DivBelow(m: nat, b: Positive, k: int)
    requires m < b * k
    ensures m / b < k
  {
    if k <= m / b {
      MulMonotone(b, k, m / b);
      assert false;
    }
  }

  lemma Distribute(b: int, x: int, y: int)
    ensures b * (x - y) == b * x - b * y
  {
  }

  /** Lowering the dividend by at most "d" divisors lowers the quotient by at most "d". */
  lemma TruncDivLowered(a: int, c: int, b: Positive, d: nat)
    requires a - b * d <= c
    ensures TruncDiv(a, b) - d <= TruncDiv(c, b)
  {
    var p := TruncDiv(a, b);
    TruncDivRemainder(a, b);
    Distribute(b, p, d);
    if c < 0 {
      Distribute(b, 1, p - d);
      DivBelow(-c, b, 1 - (p - d));
    } else if a >= 0 {
      DivAtLeast(c, b, p - d);
    } else {
      DivAtLeast(-a, b, 0);
      DivAtLeast(c, b, 0);
    }
  }
}
