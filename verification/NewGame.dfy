/** Whether two states of a server belong to two games, which the scores of the players
    who stayed are to tell. */
module NewGame {
  import opened Basics
  import opened Truncation
  import opened Game

  const WORD: int := 0x1_0000_0000

  /** Whole numbers below this one are exact as floats. */
  const EXACT: int := 0x100_0000

  predicate Stayed(p: Player) {
    p.before.Some? && p.after.Some?
  }

  /** How many of the first "k" slots stayed. */
  function Staying(s: seq<Player>, k: nat): (r: nat)
    requires k <= |s|
    ensures r <= k
  {
    if k == 0 then 0 else Staying(s, k - 1) + if Stayed(s[k - 1]) then 1 else 0
  }

  /** Their scores, before or after. */
  function OldTotal(s: seq<Player>, k: nat): int
    requires k <= |s|
  {
    if k == 0 then 0 else OldTotal(s, k - 1) + if Stayed(s[k - 1]) then s[k - 1].before.value.score else 0
  }

  function NewTotal(s: seq<Player>, k: nat): int
    requires k <= |s|
  {
    if k == 0 then 0 else NewTotal(s, k - 1) + if Stayed(s[k - 1]) then s[k - 1].after.value.score else 0
  }

  /** A total divided by the number of players, which is unsigned and makes the total so. */
  function Quotient(total: int, n: Positive): (r: nat)
    ensures r < WORD
  {
    var t := total % WORD;
    QuotientBelow(t, n);
    t / n
  }

  lemma QuotientBelow(t: nat, n: Positive)
    ensures 0 <= t / n <= t
  {
    Remainder(t, n);
    hide *;
    Share(t / n, n);
  }

  lemma Remainder(t: nat, n: Positive)
    ensures t == t / n * n + t % n && 0 <= t % n < n && 0 <= t / n
  {
  }

  lemma Share(q: nat, n: Positive)
    ensures q <= q * n
  {
  }

  /** How far floats are apart around a number. */
  function Spacing(n: nat): (r: nat)
    ensures r > 0
  {
    if n < EXACT then 1 else 2 * Spacing(n / 2)
  }

  /** The float closest to a number, or of two the one that is even. */
  function ToFloat(n: nat): nat {
    var unit := Spacing(n);
    var below, rest := n / unit, n % unit;
    var up := 2 * rest > unit || (2 * rest == unit && below % 2 == 1);
    if up then (below + 1) * unit else below * unit
  }

  /** The averages are floats, and a difference of more than 3 makes a new game. */
  predicate AreTwoGames(oldTotal: int, newTotal: int, n: nat) {
    n > 0 && ToFloat(Quotient(oldTotal, n)) - ToFloat(Quotient(newTotal, n)) > 3
  }

  predicate IsNewGame(s: seq<Player>) {
    AreTwoGames(OldTotal(s, |s|), NewTotal(s, |s|), Staying(s, |s|))
  }

  method CheckNewGame(players: array<Player>) returns (isNew: bool)
    ensures isNew <==> IsNewGame(players[..])
  {
    var oldTotal, newTotal, n := 0, 0, 0;
    for i := 0 to players.Length
      invariant oldTotal == OldTotal(players[..], i) && newTotal == NewTotal(players[..], i)
      invariant n == Staying(players[..], i)
    {
      if players[i].before.Some? && players[i].after.Some? {
        oldTotal := oldTotal + players[i].before.value.score;
        newTotal := newTotal + players[i].after.value.score;
        n := n + 1;
      }
    }
    if n == 0 {
      return false;
    }
    var oldAvg: int, newAvg: int := ToFloat(Quotient(oldTotal, n)), ToFloat(Quotient(newTotal, n));
    isNew := oldAvg - newAvg > 3;
  }

  // ---- What the test is worth --------------------------------------------------------

  lemma SmallIsExact(n: nat)
    requires n < EXACT
    ensures ToFloat(n) == n
  {
  }

  lemma {:induction false} SpacingIsSmall(n: nat)
    ensures n >= EXACT ==> EXACT * Spacing(n) <= 2 * n
  {
    if n >= EXACT {
      SpacingIsSmall(n / 2);
    }
  }

  /** Rounding does not take a large number below the small ones. */
  lemma LargeStaysLarge(n: nat)
    requires n >= 2 * EXACT
    ensures ToFloat(n) >= EXACT + 4
  {
    SpacingIsSmall(n);
    var unit := Spacing(n);
    assert (n / unit) * unit == n - n % unit > n - unit;
  }

  /** The average of a total that is not negative is right. */
  lemma AverageRight(total: int, n: nat)
    requires 0 <= total < EXACT && 0 < n <= MAX_CLIENTS
    ensures ToFloat(Quotient(total, n)) == TruncDiv(total, n) < EXACT
    ensures TruncDiv(total, n) >= 0
  {
    hide ToFloat;
    QuotientBelow(total, n);
    Unsigned(total);
    SmallIsExact(total / n);
  }

  /** The average of a negative total is far off. */
  lemma AverageFarOff(total: int, n: nat)
    requires -EXACT < total < 0 && 0 < n <= MAX_CLIENTS
    ensures ToFloat(Quotient(total, n)) >= EXACT + 4
    ensures TruncDiv(total, n) <= 0
  {
    hide ToFloat;
    Unsigned(total);
    LargeShare(total + WORD, n);
    LargeStaysLarge((total + WORD) / n);
    QuotientBelow(-total, n);
  }

  lemma Unsigned(total: int)
    requires -EXACT < total < EXACT
    ensures total % WORD == if total >= 0 then total else total + WORD
  {
  }

  lemma LargeShare(t: nat, n: nat)
    requires t >= 2 * EXACT * MAX_CLIENTS && 0 < n <= MAX_CLIENTS
    ensures t / n >= 2 * EXACT
  {
    Remainder(t, n);
    if t / n < 2 * EXACT {
      Products(t / n, 2 * EXACT - 1, n);
    }
  }

  lemma Products(q: nat, most: nat, n: nat)
    requires q <= most && n <= MAX_CLIENTS
    ensures q * n <= most * MAX_CLIENTS
  {
    assert q * n <= most * n <= most * MAX_CLIENTS;
  }

  /** What the test is meant to tell. */
  predicate Dropped(oldTotal: int, newTotal: int, n: nat) {
    n > 0 && TruncDiv(oldTotal, n) - TruncDiv(newTotal, n) > 3
  }

  /** Unless both totals are negative, the test tells exactly when the old one is not, and
      the new one is not either or there is nothing to be told. */
  lemma ToldRight(oldTotal: int, newTotal: int, n: nat)
    requires -EXACT < oldTotal < EXACT && -EXACT < newTotal < EXACT && n <= MAX_CLIENTS
    requires oldTotal >= 0 || newTotal >= 0
    ensures (AreTwoGames(oldTotal, newTotal, n) <==> Dropped(oldTotal, newTotal, n)) <==>
            n == 0 || (oldTotal >= 0 && (newTotal >= 0 || !Dropped(oldTotal, newTotal, n)))
  {
    hide TruncDiv, ToFloat, Quotient;
    if n > 0 {
      if oldTotal >= 0 { AverageRight(oldTotal, n); } else { AverageFarOff(oldTotal, n); }
      if newTotal >= 0 { AverageRight(newTotal, n); } else { AverageFarOff(newTotal, n); }
    }
  }

  /** With two negative totals, the test tells whether their quotients round to different
      floats, the old one to the greater; floats are 16 apart there, or more. */
  lemma NegativeTotals(oldTotal: int, newTotal: int, n: nat)
    requires -EXACT < oldTotal < 0 && -EXACT < newTotal < 0 && 0 < n <= MAX_CLIENTS
    ensures var o, w := Quotient(oldTotal, n), Quotient(newTotal, n);
            && Spacing(o) == Spacing(w) >= 16
            && (AreTwoGames(oldTotal, newTotal, n) <==> ToFloat(o) > ToFloat(w))
  {
    hide ToFloat, Quotient;
    var o, w := Quotient(oldTotal, n), Quotient(newTotal, n);
    SameSpacing(oldTotal, n);
    SameSpacing(newTotal, n);
    var i := FloatIsMultiple(o);
    var j := FloatIsMultiple(w);
    MultiplesApart(i, j, Apart(n));
  }

  /** How far floats are apart around the quotients of small negative totals. */
  function Apart(n: Positive): nat {
    if n == 1 then 256 else if n <= 3 then 128 else if n <= 7 then 64 else if n <= 15 then 32 else 16
  }

  lemma SameSpacing(total: int, n: nat)
    requires -EXACT < total < 0 && 0 < n <= MAX_CLIENTS
    ensures Spacing(Quotient(total, n)) == Apart(n) >= 16
  {
    Unsigned(total);
    var q := Quotient(total, n);
    Remainder(total + WORD, n);
    hide Spacing, Quotient;
    assert total + WORD - n < q * n <= total + WORD;
    assert Power(1) == 2 && Power(2) == 4 && Power(3) == 8 && Power(4) == 16 && Power(7) == 128 && Power(8) == 256;
    if n == 1 {
      SpacingOfLarge(q, 8);
    } else if n <= 3 {
      Between(q, n, EXACT * 64, EXACT * 128);
      SpacingOfLarge(q, 7);
    } else if n <= 7 {
      Between(q, n, EXACT * 32, EXACT * 64);
      SpacingOfLarge(q, 6);
    } else if n <= 15 {
      Between(q, n, EXACT * 16, EXACT * 32);
      SpacingOfLarge(q, 5);
    } else {
      SpacingOfLarge(q, 4);
    }
  }

  lemma Between(q: nat, n: nat, low: nat, high: nat)
    requires low * n <= q * n < high * n
    ensures low <= q < high
  {
  }

  lemma FloatIsMultiple(n: nat) returns (k: nat)
    ensures ToFloat(n) == k * Spacing(n)
  {
    var unit := Spacing(n);
    var below, rest := n / unit, n % unit;
    k := if 2 * rest > unit || (2 * rest == unit && below % 2 == 1) then below + 1 else below;
  }

  lemma MultiplesApart(i: nat, j: nat, unit: nat)
    requires unit > 3
    ensures i * unit > j * unit <==> i * unit - j * unit > 3
  {
    if i > j {
      assert i * unit - j * unit == (i - j - 1) * unit + unit;
    } else {
      assert j * unit - i * unit == (j - i) * unit;
    }
  }

  /** So a drop can be missed. */
  lemma DropMissed()
    ensures Dropped(-1, -100, 1) && !AreTwoGames(-1, -100, 1)
  {
    PowerOfEight();
    SpacingOfLarge(WORD - 1, 8);
    SpacingOfLarge(WORD - 100, 8);
    assert Quotient(-1, 1) == WORD - 1 && Quotient(-100, 1) == WORD - 100;
  }

  /** And a small change taken for a new game. */
  lemma NewGameMadeUp()
    ensures !Dropped(-128, -129, 1) && AreTwoGames(-128, -129, 1)
  {
    PowerOfEight();
    SpacingOfLarge(WORD - 128, 8);
    SpacingOfLarge(WORD - 129, 8);
    assert Quotient(-128, 1) == WORD - 128 && Quotient(-129, 1) == WORD - 129;
  }

  lemma PowerOfEight()
    ensures Power(7) == 128 && Power(8) == 256
  {
    assert Power(1) == 2 && Power(2) == 4 && Power(4) == 16;
  }

  function Power(k: nat): nat {
    if k == 0 then 1 else 2 * Power(k - 1)
  }

  lemma {:induction false} SpacingOfLarge(n: nat, k: nat)
    requires k > 0 ==> EXACT * Power(k - 1) <= n
    requires n < EXACT * Power(k)
    ensures Spacing(n) == Power(k)
  {
    if k > 0 {
      assert n >= EXACT;
      SpacingOfLarge(n / 2, k - 1);
    }
  }

  // ---- What the scores say -------------------------------------------------------------

  lemma {:induction false} TotalsByScores(s: seq<Player>, k: nat, drop: int)
    requires k <= |s|
    requires forall p :: p in s && p.before.Some? && p.after.Some? ==>
      p.before.value.score - p.after.value.score >= drop
    ensures OldTotal(s, k) - NewTotal(s, k) >= drop * Staying(s, k)
  {
    if k > 0 {
      TotalsByScores(s, k - 1, drop);
      assert s[k - 1] in s;
    }
  }

  lemma {:induction false} TotalsInRange(s: seq<Player>, k: nat, most: nat)
    requires k <= |s|
    requires forall p :: p in s && p.before.Some? && p.after.Some? ==>
      0 <= p.before.value.score <= most && 0 <= p.after.value.score <= most
    ensures 0 <= OldTotal(s, k) <= most * k && 0 <= NewTotal(s, k) <= most * k
  {
    if k > 0 {
      TotalsInRange(s, k - 1, most);
      assert s[k - 1] in s;
      assert most * k == most * (k - 1) + most;
    }
  }

  lemma {:induction false} SomebodyStayed(s: seq<Player>, k: nat, i: nat)
    requires i < k <= |s| && s[i].before.Some? && s[i].after.Some?
    ensures Staying(s, k) > 0
  {
    if i < k - 1 {
      SomebodyStayed(s, k - 1, i);
    }
  }

  /** A million points are more than any score; the bound keeps totals exact. */
  ghost predicate UsualScores(s: seq<Player>) {
    forall p :: p in s && p.before.Some? && p.after.Some? ==>
      0 <= p.before.value.score <= 1_000_000 && 0 <= p.after.value.score <= 1_000_000
  }

  /** It is a new game when everybody who stayed lost four points or more, and somebody
      stayed. */
  lemma DroppedScores(s: seq<Player>, i: nat)
    requires |s| <= MAX_CLIENTS && UsualScores(s) && i < |s| && s[i].before.Some? && s[i].after.Some?
    requires forall p :: p in s && p.before.Some? && p.after.Some? ==> p.before.value.score - p.after.value.score >= 4
    ensures IsNewGame(s)
  {
    var o, w, n := OldTotal(s, |s|), NewTotal(s, |s|), Staying(s, |s|);
    TotalsByScores(s, |s|, 4);
    TotalsInRange(s, |s|, 1_000_000);
    SomebodyStayed(s, |s|, i);
    AverageRight(o, n);
    AverageRight(w, n);
    TruncDivLowered(w + n * 4, o, n, 0);
    Shifted(w, n, 4);
  }

  lemma Shifted(w: nat, n: Positive, d: nat)
    ensures TruncDiv(w + n * d, n) == TruncDiv(w, n) + d
  {
    var q := w / n;
    Remainder(w, n);
    DivAtLeast(w + n * d, n, q + d);
    assert w < n * (q + 1);
    assert n * (q + d + 1) == n * (q + 1) + n * d;
    DivBelow(w + n * d, n, q + d + 1);
  }

  /** It is the same game when nobody who stayed lost points, or nobody stayed. */
  lemma KeptScores(s: seq<Player>)
    requires |s| <= MAX_CLIENTS && UsualScores(s)
    requires forall p :: p in s && p.before.Some? && p.after.Some? ==> p.before.value.score <= p.after.value.score
    ensures !IsNewGame(s)
  {
    var o, w, n := OldTotal(s, |s|), NewTotal(s, |s|), Staying(s, |s|);
    if n > 0 {
      TotalsRise(s, |s|);
      TotalsInRange(s, |s|, 1_000_000);
      AverageRight(o, n);
      AverageRight(w, n);
      TruncDivLowered(o, w, n, 0);
    }
  }

  lemma {:induction false} TotalsRise(s: seq<Player>, k: nat)
    requires k <= |s|
    requires forall p :: p in s && p.before.Some? && p.after.Some? ==> p.before.value.score <= p.after.value.score
    ensures OldTotal(s, k) <= NewTotal(s, k)
  {
    if k > 0 {
      TotalsRise(s, k - 1);
      assert s[k - 1] in s;
    }
  }
}
