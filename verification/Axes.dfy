/** How many axes a range of values gets, and how far they are apart. */
module Axes {
  const MIN_NAXES := 3
  const MAX_NAXES := 8

  /** The gaps 1, 2, 5, 10, 20, 50, 100 ... */
  function Gap(k: nat): (r: nat)
    ensures r > 0
  {
    if k == 0 then 1 else if k == 1 then 2 else if k == 2 then 5 else 10 * Gap(k - 3)
  }

  /** Each gap is more than the one before, but at most two and a half times as much. */
  lemma {:induction false} GapGrows(k: nat)
    ensures Gap(k) < Gap(k + 1) && 2 * Gap(k + 1) <= 5 * Gap(k)
  {
    if k >= 3 {
      GapGrows(k - 3);
    }
  }

  lemma {:induction false} GapsRise(j: nat, k: nat)
    requires j <= k
    ensures Gap(j) <= Gap(k)
    decreases k - j
  {
    if j < k {
      GapsRise(j, k - 1);
      GapGrows(k - 1);
    }
  }

  predicate DoesFit(range: nat, gap: nat, factor: nat) {
    MIN_NAXES * gap * factor < range
  }

  /** The largest gap of which three are less than the range, or 1 when none is. */
  ghost predicate IsBestGap(range: nat, gap: nat) {
    && (exists k: nat :: gap == Gap(k))
    && (range <= MIN_NAXES ==> gap == 1)
    && (range > MIN_NAXES ==> MIN_NAXES * gap < range)
    && forall k: nat :: MIN_NAXES * Gap(k) < range ==> Gap(k) <= gap
  }

  lemma BestGapUnique(range: nat, gap1: nat, gap2: nat)
    requires IsBestGap(range, gap1) && IsBestGap(range, gap2)
    ensures gap1 == gap2
  {
  }

  lemma GapBeforeIsBest(range: nat, k: nat)
    requires k > 0 && MIN_NAXES * Gap(k - 1) < range <= MIN_NAXES * Gap(k)
    ensures IsBestGap(range, Gap(k - 1))
  {
    GapsRise(0, k - 1);
    forall j: nat | MIN_NAXES * Gap(j) < range
      ensures Gap(j) <= Gap(k - 1)
    {
      if j < k {
        GapsRise(j, k - 1);
      } else {
        GapsRise(k, j);
      }
    }
  }

  lemma DefaultGapIsBest(range: nat)
    requires range <= MIN_NAXES
    ensures IsBestGap(range, 1)
  {
    assert Gap(0) == 1;
  }

  const GAPS: seq<nat> := [1, 2, 5]

  /** The search stands at the gap number "k". */
  ghost predicate Stands(k: nat, i: nat, factor: nat) {
    && i < 3 && i <= k && factor == Gap(k - i)
    && 2 * factor == Gap(k - i + 1) && 5 * factor == Gap(k - i + 2)
    && (if k < 3 then i == k && factor == 1 else factor == 10 * Gap(k - i - 3))
  }

  lemma StandsNext(k: nat, i: nat, factor: nat)
    requires Stands(k, i, factor)
    ensures if i < 2 then Stands(k + 1, i + 1, factor) else Stands(k + 1, 0, factor * 10)
  {
  }

  lemma {:induction false} StandsThreeBack(k: nat)
    requires k >= 3 && 2 * (10 * Gap(k - 3)) == Gap(k + 1) && 5 * (10 * Gap(k - 3)) == Gap(k + 2)
    ensures Gap(k - 1) == 5 * Gap(k - 3)
  {
    assert Gap(k + 2) == 10 * Gap(k - 1);
  }

  lemma StandsAt(k: nat, i: nat, factor: nat)
    requires Stands(k, i, factor)
    ensures GAPS[i] * factor == Gap(k) && (k == 0 <==> i == 0 && factor == 1)
    ensures i > 0 ==> GAPS[i - 1] * factor == Gap(k - 1)
    ensures i == 0 && k > 0 ==> k >= 3 && factor / 10 == Gap(k - 3) && GAPS[2] * (factor / 10) == Gap(k - 1)
  {
    if i == 0 && k > 0 {
      assert factor == 10 * Gap(k - 3);
      StandsThreeBack(k);
    }
  }

  lemma FitsAt(range: nat, k: nat, i: nat, factor: nat)
    requires Stands(k, i, factor)
    ensures DoesFit(range, GAPS[i], factor) <==> MIN_NAXES * Gap(k) < range
  {
    StandsAt(k, i, factor);
    hide Stands, Gap;
    Triple(GAPS[i], factor);
  }

  lemma Triple(a: nat, b: nat)
    ensures MIN_NAXES * a * b == MIN_NAXES * (a * b)
  {
  }

  method BestAxesGap(range: nat) returns (gap: nat)
    ensures IsBestGap(range, gap)
  {
    var i, factor := 0, 1;
    ghost var k: nat := 0;
    assert Stands(k, i, factor);
    hide Stands, Gap, DoesFit;
    FitsAt(range, k, i, factor);
    while DoesFit(range, GAPS[i], factor)
      invariant 0 <= i < 3 && Stands(k, i, factor)
      invariant DoesFit(range, GAPS[i], factor) <==> MIN_NAXES * Gap(k) < range
      invariant k > 0 ==> MIN_NAXES * Gap(k - 1) < range
      decreases range - MIN_NAXES * Gap(k)
    {
      GapGrows(k);
      StandsNext(k, i, factor);
      k := k + 1;
      i := (i + 1) % 3;
      if i == 0 {
        factor := factor * 10;
      }
      FitsAt(range, k, i, factor);
    }
    StandsAt(k, i, factor);
    if i == 0 && factor == 1 {
      DefaultGapIsBest(range);
      gap := 1;
    } else {
      GapBeforeIsBest(range, k);
      if i == 0 {
        gap := GAPS[2] * (factor / 10);
      } else {
        gap := GAPS[i - 1] * factor;
      }
    }
  }

  /** The last multiple of the gap not above a value. */
  function Down(value: nat, gap: nat): (r: nat)
    requires gap > 0
    ensures r <= value < r + gap
  {
    value - value % gap
  }

  /** The top of the plot is not below the maximum and, unless there are as few axes as
      may be, the last axis is below it. */
  ghost predicate IsAxesNumber(min: nat, max: nat, gap: nat, n: nat)
    requires gap > 0
  {
    && n >= MIN_NAXES
    && max <= Down(min, gap) + (n + 1) * gap
    && (n > MIN_NAXES ==> Down(min, gap) + n * gap < max)
  }

  method NumberOfAxes(min: nat, max: nat, gap: nat) returns (naxes: nat)
    requires gap > 0
    ensures IsAxesNumber(min, max, gap, naxes)
  {
    var n := MIN_NAXES;
    var count := min - min % gap + 3 * gap;
    while count < max
      invariant n >= MIN_NAXES && count == Down(min, gap) + n * gap
      invariant n > MIN_NAXES ==> Down(min, gap) + (n - 1) * gap < max
    {
      n := n + 1;
      count := count + gap;
    }
    naxes := if n - 1 < MIN_NAXES then MIN_NAXES else n - 1;
    AddGap(n, gap);
  }

  lemma AddGap(n: nat, gap: nat)
    ensures (n + 1) * gap == n * gap + gap
  {
  }

  lemma Multiples(n: nat, m: nat, gap: nat)
    requires n * gap < m * gap
    ensures n < m
  {
  }

  lemma BestGapCovers(range: nat, gap: nat)
    requires IsBestGap(range, gap)
    ensures gap > 0 && 2 * range <= 15 * gap
  {
    var k: nat :| gap == Gap(k);
    GapGrows(k);
    assert MIN_NAXES * Gap(k + 1) >= range;
  }

  /** With the best gap there are between three and eight axes. */
  lemma BetweenThreeAndEight(min: nat, max: nat, gap: nat, naxes: nat)
    requires min <= max && IsBestGap(max - min, gap) && IsAxesNumber(min, max, gap, naxes)
    ensures MIN_NAXES <= naxes <= MAX_NAXES
  {
    BestGapCovers(max - min, gap);
    if naxes > MIN_NAXES {
      Multiples(naxes, MAX_NAXES + 1, gap);
    }
  }

  /** Both bounds are reached. */
  lemma BoundsAreTight()
    ensures IsBestGap(0, 1) && IsAxesNumber(0, 0, 1, MIN_NAXES)
    ensures IsBestGap(150, 20) && IsAxesNumber(19, 169, 20, MAX_NAXES)
  {
    DefaultGapIsBest(0);
    assert Gap(4) == 20 && Gap(5) == 50;
    GapBeforeIsBest(150, 5);
  }
}
