/** One game: the new Elo of every rankable player, from its encounters with all the
    others. */
module Game {
  import opened Basics
  import opened Truncation
  import opened Elo

  const MAX_CLIENTS := 16

  datatype Client = Client(name: Name, clan: Name, score: int, ingame: bool)

  /** A slot of the player array: its client before and after the game, if any.  A slot is
      loaded when it has a client after the game. */
  datatype Player = Player(name: Name, elo: int, before: Option<Client>, after: Option<Client>, isRankable: bool) {
    /** By how much the score changed. */
    function Change(): int {
      if before.Some? && after.Some? then after.value.score - before.value.score else 0
    }

    predicate Eligible() {
      before.Some? && after.Some? && after.value.ingame
    }
  }

  function Encounter(g: real, a: Player, b: Player): int
    requires g > 1.0
  {
    Delta(g, a.elo, a.Change(), b.elo, b.Change())
  }

  /** What slot "i" gets from slot "j". */
  function Term(g: real, s: seq<Player>, i: nat, j: nat): int
    requires g > 1.0 && i < |s| && j < |s|
  {
    if j != i && s[j].isRankable then Encounter(g, s[i], s[j]) else 0
  }

  /** What slot "i" gets from the first "k" slots. */
  function Total(g: real, s: seq<Player>, i: nat, k: nat): int
    requires g > 1.0 && i < |s| && k <= |s|
  {
    if k == 0 then 0 else Total(g, s, i, k - 1) + Term(g, s, i, k - 1)
  }

  /** How many of the first "k" slots are rankable. */
  function Rankables(s: seq<Player>, k: nat): nat
    requires k <= |s|
  {
    if k == 0 then 0 else Rankables(s, k - 1) + if s[k - 1].isRankable then 1 else 0
  }

  function Others(s: seq<Player>, i: nat, k: nat): (n: nat)
    requires i < |s| && k <= |s|
  {
    if k == 0 then 0 else Others(s, i, k - 1) + if k - 1 != i && s[k - 1].isRankable then 1 else 0
  }

  lemma {:induction false} OthersCount(s: seq<Player>, i: nat, k: nat)
    requires i < |s| && k <= |s|
    ensures Others(s, i, k) == Rankables(s, k) - if i < k && s[i].isRankable then 1 else 0
  {
    if k > 0 {
      OthersCount(s, i, k - 1);
    }
  }

  lemma {:induction false} RankablesAtLeast(s: seq<Player>, i: nat, j: nat, k: nat)
    requires i < k <= |s| && j < k && s[i].isRankable && s[j].isRankable
    ensures Rankables(s, k) >= if i == j then 1 else 2
  {
    if k - 1 != i && k - 1 != j {
      RankablesAtLeast(s, i, j, k - 1);
    } else if i != j {
      var other := if i == k - 1 then j else i;
      RankablesAtLeast(s, other, other, k - 1);
    }
  }

  /** The number of points slot "i" gains: the average over the other rankable slots. */
  function Gain(g: real, s: seq<Player>, i: nat): int
    requires g > 1.0 && i < |s| && Others(s, i, |s|) > 0
  {
    TruncDiv(Total(g, s, i, |s|), Others(s, i, |s|))
  }

  function NewElo(g: real, s: seq<Player>, i: nat): int
    requires g > 1.0 && i < |s| && Others(s, i, |s|) > 0
  {
    s[i].elo + Gain(g, s, i)
  }

  // ---- Order ---------------------------------------------------------------------

  /** By how much the better of "a" and "b" may fall behind at slot "j", twice. */
  function Slack(s: seq<Player>, a: nat, b: nat, j: nat, d: nat): nat
    requires j < |s|
  {
    if j == a || j == b then d else if s[j].isRankable then 2 * d else 0
  }

  lemma TermsOrder(g: real, s: seq<Player>, a: nat, b: nat, j: nat, d: nat)
    requires IsRoot(g) && a < |s| && b < |s| && a != b && j < |s|
    requires s[a].isRankable && s[b].isRankable
    requires s[b].elo + d == s[a].elo && s[b].Change() <= s[a].Change()
    ensures 2 * (Term(g, s, a, j) - Term(g, s, b, j)) + Slack(s, a, b, j, d) >= 0
  {
    if j == a || j == b {
      DeltaAntisymmetric(g, s[b].elo, s[b].Change(), s[a].elo, s[a].Change());
      DeltaHeadToHead(g, s[a].elo, s[a].Change(), s[b].elo, s[b].Change());
    } else if s[j].isRankable {
      DeltaOrder(g, s[a].elo, s[a].Change(), s[b].elo, s[b].Change(), s[j].elo, s[j].Change());
    }
  }

  function Slacks(s: seq<Player>, a: nat, b: nat, k: nat, d: nat): nat
    requires k <= |s|
  {
    if k == 0 then 0 else Slacks(s, a, b, k - 1, d) + Slack(s, a, b, k - 1, d)
  }

  lemma {:induction false} TotalsOrder(g: real, s: seq<Player>, a: nat, b: nat, k: nat, d: nat)
    requires IsRoot(g) && a < |s| && b < |s| && a != b && k <= |s|
    requires s[a].isRankable && s[b].isRankable
    requires s[b].elo + d == s[a].elo && s[b].Change() <= s[a].Change()
    ensures 2 * (Total(g, s, a, k) - Total(g, s, b, k)) + Slacks(s, a, b, k, d) >= 0
  {
    if k > 0 {
      TotalsOrder(g, s, a, b, k - 1, d);
      TermsOrder(g, s, a, b, k - 1, d);
    }
  }

  lemma {:induction false} SlacksAdd(s: seq<Player>, a: nat, b: nat, k: nat, d: nat)
    requires a < |s| && b < |s| && a != b && k <= |s| && s[a].isRankable && s[b].isRankable
    ensures Slacks(s, a, b, k, d) ==
            d * (2 * Rankables(s, k) - (if a < k then 1 else 0) - (if b < k then 1 else 0))
  {
    if k > 0 {
      SlacksAdd(s, a, b, k - 1, d);
      var x := 2 * Rankables(s, k - 1) - (if a < k - 1 then 1 else 0) - (if b < k - 1 then 1 else 0);
      Distribute(d, x, -1);
      Distribute(d, x, -2);
    }
  }

  /** A player who is ahead and does no worse in the game stays ahead. */
  lemma OrderPreserved(g: real, s: seq<Player>, a: nat, b: nat)
    requires IsRoot(g) && a < |s| && b < |s|
    requires s[a].isRankable && s[b].isRankable && Others(s, a, |s|) > 0 && Others(s, b, |s|) > 0
    requires s[b].elo <= s[a].elo && s[b].Change() <= s[a].Change()
    ensures NewElo(g, s, b) <= NewElo(g, s, a)
  {
    if a != b {
      var d: nat, n := s[a].elo - s[b].elo, Others(s, a, |s|);
      OthersCount(s, a, |s|);
      OthersCount(s, b, |s|);
      TotalsOrder(g, s, a, b, |s|, d);
      SlacksAdd(s, a, b, |s|, d);
      HalfProduct(d, n, Slacks(s, a, b, |s|, d));
      TruncDivLowered(Total(g, s, b, |s|), Total(g, s, a, |s|), n, d);
    }
  }

  lemma HalfProduct(d: nat, n: nat, x: int)
    requires x == d * (2 * n)
    ensures x == 2 * (n * d)
  {
  }

  // ---- Drift ---------------------------------------------------------------------

  lemma {:induction false} TotalBound(g: real, s: seq<Player>, i: nat, k: nat)
    requires IsRoot(g) && i < |s| && k <= |s|
    ensures -22 * Others(s, i, k) <= Total(g, s, i, k) <= 22 * Others(s, i, k)
  {
    if k > 0 {
      TotalBound(g, s, i, k - 1);
      DeltaBound(g, s[i].elo, s[i].Change(), s[k - 1].elo, s[k - 1].Change());
    }
  }

  /** No game moves a player by more than 22 points. */
  lemma GainBound(g: real, s: seq<Player>, i: nat)
    requires IsRoot(g) && i < |s| && Others(s, i, |s|) > 0
    ensures -22 <= Gain(g, s, i) <= 22
  {
    var n, t := Others(s, i, |s|), Total(g, s, i, |s|);
    TotalBound(g, s, i, |s|);
    if t >= 0 {
      DivBelow(t, n, 23);
    } else {
      DivBelow(-t, n, 23);
    }
  }

  /** The totals of the first "m" rankable slots, each over the first "k". */
  function Block(g: real, s: seq<Player>, m: nat, k: nat): int
    requires g > 1.0 && m <= |s| && k <= |s|
  {
    if m == 0 then 0
    else Block(g, s, m - 1, k) + if s[m - 1].isRankable then Total(g, s, m - 1, k) else 0
  }

  /** Slot "k" takes from the slots before it what they get from it. */
  lemma {:induction false} NextColumn(g: real, s: seq<Player>, m: nat, k: nat)
    requires g > 1.0 && m <= k < |s|
    ensures Block(g, s, m, k + 1) - Block(g, s, m, k) == if s[k].isRankable then -Total(g, s, k, m) else 0
  {
    if m > 0 {
      NextColumn(g, s, m - 1, k);
      DeltaAntisymmetric(g, s[k].elo, s[k].Change(), s[m - 1].elo, s[m - 1].Change());
    }
  }

  /** Before averaging, a game only moves points around. */
  lemma {:induction false} TotalsCancel(g: real, s: seq<Player>, k: nat)
    requires g > 1.0 && k <= |s|
    ensures Block(g, s, k, k) == 0
  {
    if k > 0 {
      TotalsCancel(g, s, k - 1);
      NextColumn(g, s, k - 1, k - 1);
    }
  }

  /** The points gained by the first "m" slots. */
  function Gains(g: real, s: seq<Player>, m: nat): int
    requires g > 1.0 && m <= |s|
    requires forall i: nat :: i < m && s[i].isRankable ==> Others(s, i, |s|) > 0
  {
    if m == 0 then 0
    else Gains(g, s, m - 1) + if s[m - 1].isRankable then Gain(g, s, m - 1) else 0
  }

  /** The average is rounded toward zero. */
  lemma GainNearTotal(g: real, s: seq<Player>, i: nat, n: nat)
    requires g > 1.0 && i < |s| && s[i].isRankable && n >= 1 && Rankables(s, |s|) == n + 1
    ensures Others(s, i, |s|) == n
    ensures -(n - 1) <= n * Gain(g, s, i) - Total(g, s, i, |s|) <= n - 1
    ensures Total(g, s, i, |s|) >= 0 ==> n * Gain(g, s, i) <= Total(g, s, i, |s|)
    ensures Total(g, s, i, |s|) <= 0 ==> n * Gain(g, s, i) >= Total(g, s, i, |s|)
  {
    OthersCount(s, i, |s|);
    TruncDivRemainder(Total(g, s, i, |s|), n);
  }

  lemma Accumulate(n: nat, gains: int, totals: int, count: nat, gain: int, total: int)
    requires n >= 1 && -(count * (n - 1)) <= n * gains - totals <= count * (n - 1)
    requires -(n - 1) <= n * gain - total <= n - 1
    ensures -((count + 1) * (n - 1)) <= n * (gains + gain) - (totals + total) <= (count + 1) * (n - 1)
  {
    assert n * (gains + gain) == n * gains + n * gain;
    assert (count + 1) * (n - 1) == count * (n - 1) + (n - 1);
  }

  lemma {:induction false} GainsNearTotals(g: real, s: seq<Player>, m: nat, n: nat)
    requires g > 1.0 && m <= |s| && n >= 1 && Rankables(s, |s|) == n + 1
    requires forall i: nat :: i < m && s[i].isRankable ==> Others(s, i, |s|) > 0
    ensures -(Rankables(s, m) * (n - 1)) <= n * Gains(g, s, m) - Block(g, s, m, |s|) <=
            Rankables(s, m) * (n - 1)
  {
    if m > 0 {
      GainsNearTotals(g, s, m - 1, n);
      if s[m - 1].isRankable {
        GainNearTotal(g, s, m - 1, n);
        Accumulate(n, Gains(g, s, m - 1), Block(g, s, m - 1, |s|), Rankables(s, m - 1),
                   Gain(g, s, m - 1), Total(g, s, m - 1, |s|));
      }
    }
  }

  /** Truncation lets points appear or vanish, but fewer than there are opponents. */
  lemma DriftBound(g: real, s: seq<Player>)
    requires g > 1.0 && Rankables(s, |s|) >= 2
    requires forall i: nat :: i < |s| && s[i].isRankable ==> Others(s, i, |s|) > 0
    ensures -(Rankables(s, |s|) - 2) <= Gains(g, s, |s|) <= Rankables(s, |s|) - 2
  {
    var n := Rankables(s, |s|) - 1;
    GainsNearTotals(g, s, |s|, n);
    TotalsCancel(g, s, |s|);
    BelowSquare(n, Gains(g, s, |s|));
  }

  lemma BelowSquare(n: nat, x: int)
    requires n >= 1 && -((n + 1) * (n - 1)) <= n * x <= (n + 1) * (n - 1)
    ensures -(n - 1) <= x <= n - 1
  {
    assert (n + 1) * (n - 1) < n * n;
    if x >= 0 {
      DivBelow(n * x, n, n);
    } else {
      DivBelow(n * -x, n, n);
    }
  }

  // ---- Winning and losing ------------------------------------------------------------

  /** At equal Elo a win is worth 12 points, and a loss costs as many. */
  lemma EqualElo(g: real, a: Player, b: Player)
    requires g > 1.0 && a.elo == b.elo
    requires a.before.Some? && a.after.Some? && b.before.Some? && b.after.Some?
    ensures var rise := a.after.value.score - a.before.value.score;
            var other := b.after.value.score - b.before.value.score;
            Encounter(g, a, b) == if rise > other then 12 else if rise == other then 0 else -12
  {
    Symmetric(g, 0);
    assert P(g, a.elo - b.elo) == 0.5;
  }

  /** The points of a pair, by the odds: "p" is what the first player is expected to get
      when its odds are ten to the power of a 400th of its lead. */
  lemma EloFormula(g: real, a: Player, b: Player, p: real)
    requires IsRoot(g) && -400 <= a.elo - b.elo <= 400 && p == Power(g, a.elo - b.elo) * (1.0 - p)
    requires a.before.Some? && a.after.Some? && b.before.Some? && b.after.Some?
    ensures var rise := a.after.value.score - a.before.value.score;
            var other := b.after.value.score - b.before.value.score;
            var result := if rise > other then 1.0 else if rise == other then 0.5 else 0.0;
            Encounter(g, a, b) == Trunc(25.0 * (result - p))
  {
    hide Power, P, Trunc;
    Odds(g, a.elo - b.elo);
    ByOdds(Power(g, a.elo - b.elo), p);
    ByOdds(Power(g, a.elo - b.elo), P(g, a.elo - b.elo));
  }

  lemma ByOdds(x: real, p: real)
    requires x > 0.0 && p == x * (1.0 - p)
    ensures p == x / (1.0 + x)
  {
    assert x * (1.0 - p) == x - x * p;
    assert p * (1.0 + x) == x;
  }

  /** Whatever the Elos, a win is worth 2 to 22 points, a loss costs as many, and a draw
      is worth or costs 10 at most. */
  lemma WinOrLoss(g: real, a: Player, b: Player)
    requires IsRoot(g)
    requires a.before.Some? && a.after.Some? && b.before.Some? && b.after.Some?
    ensures var rise := a.after.value.score - a.before.value.score;
            var other := b.after.value.score - b.before.value.score;
            if rise > other then 2 <= Encounter(g, a, b) <= 22
            else if rise == other then -10 <= Encounter(g, a, b) <= 10
            else -22 <= Encounter(g, a, b) <= -2
  {
    Range(g, a.elo - b.elo);
  }

  lemma {:induction false} WinsAddUp(g: real, s: seq<Player>, i: nat, k: nat)
    requires IsRoot(g) && i < |s| && k <= |s| && s[i].before.Some? && s[i].after.Some?
    requires forall j :: 0 <= j < k && j != i && s[j].isRankable ==>
      && s[j].before.Some? && s[j].after.Some?
      && s[i].after.value.score - s[i].before.value.score > s[j].after.value.score - s[j].before.value.score
    ensures Total(g, s, i, k) >= 2 * Others(s, i, k)
  {
    if k > 0 {
      WinsAddUp(g, s, i, k - 1);
      if k - 1 != i && s[k - 1].isRankable {
        WinOrLoss(g, s[i], s[k - 1]);
      }
    }
  }

  lemma {:induction false} LossesAddUp(g: real, s: seq<Player>, i: nat, k: nat)
    requires IsRoot(g) && i < |s| && k <= |s| && s[i].before.Some? && s[i].after.Some?
    requires forall j :: 0 <= j < k && j != i && s[j].isRankable ==>
      && s[j].before.Some? && s[j].after.Some?
      && s[i].after.value.score - s[i].before.value.score < s[j].after.value.score - s[j].before.value.score
    ensures Total(g, s, i, k) <= -2 * Others(s, i, k)
  {
    if k > 0 {
      LossesAddUp(g, s, i, k - 1);
      if k - 1 != i && s[k - 1].isRankable {
        WinOrLoss(g, s[i], s[k - 1]);
      }
    }
  }

  /** Whose score rose more than anybody else's gains 2 points or more. */
  lemma WinnerGains(g: real, s: seq<Player>, i: nat)
    requires IsRoot(g) && i < |s| && Others(s, i, |s|) > 0 && s[i].before.Some? && s[i].after.Some?
    requires forall j :: 0 <= j < |s| && j != i && s[j].isRankable ==>
      && s[j].before.Some? && s[j].after.Some?
      && s[i].after.value.score - s[i].before.value.score > s[j].after.value.score - s[j].before.value.score
    ensures NewElo(g, s, i) >= s[i].elo + 2
  {
    WinsAddUp(g, s, i, |s|);
    DivAtLeast(Total(g, s, i, |s|), Others(s, i, |s|), 2);
  }

  /** Whose score rose less loses 2 or more. */
  lemma LoserLoses(g: real, s: seq<Player>, i: nat)
    requires IsRoot(g) && i < |s| && Others(s, i, |s|) > 0 && s[i].before.Some? && s[i].after.Some?
    requires forall j :: 0 <= j < |s| && j != i && s[j].isRankable ==>
      && s[j].before.Some? && s[j].after.Some?
      && s[i].after.value.score - s[i].before.value.score < s[j].after.value.score - s[j].before.value.score
    ensures NewElo(g, s, i) <= s[i].elo - 2
  {
    LossesAddUp(g, s, i, |s|);
    DivAtLeast(-Total(g, s, i, |s|), Others(s, i, |s|), 2);
  }
}
