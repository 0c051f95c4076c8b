/** When to poll a client again, and when to give it up. */
module Backoff {
  import opened Truncation

  const MINUTES := 60
  const HOURS := 3600
  const DAY := 3600 * 24
  const MIN_DELAY := 5 * MINUTES
  const MAX_DELAY := 2 * HOURS
  const NEVER_SEEN := 0

  /** A date "sec" seconds away, give or take "maxdist"; "fact" is the random number. */
  function ExpireIn(now: int, sec: int, maxdist: int, fact: real): int {
    var min := sec - maxdist;
    var max := sec + maxdist;
    Trunc((now + min) as real + (max - min) as real * fact)
  }

  lemma ExpireInRange(now: int, sec: int, maxdist: nat, fact: real)
    requires 0.0 <= fact <= 1.0
    ensures now + sec - maxdist <= ExpireIn(now, sec, maxdist, fact) <= now + sec + maxdist
    ensures fact == 0.0 ==> ExpireIn(now, sec, maxdist, fact) == now + sec - maxdist
    ensures fact == 1.0 ==> ExpireIn(now, sec, maxdist, fact) == now + sec + maxdist
  {
    var width := (2 * maxdist) as real;
    assert 0.0 <= width * fact <= width;
    TruncBetween((now + sec - maxdist) as real + width * fact, now + sec - maxdist, now + sec + maxdist);
  }

  /** How long to wait after a failed poll: as long as the client has been silent,
      between five minutes and two hours. */
  function Delay(lastexpire: int, lastseen: int): int {
    var t := if lastexpire < lastseen then MIN_DELAY else lastexpire - lastseen;
    if t > MAX_DELAY then MAX_DELAY
    else if t < MIN_DELAY then MIN_DELAY
    else t
  }

  function DoubleExpiryDate(now: int, lastexpire: int, lastseen: int, fact: real): int {
    ExpireIn(now, Delay(lastexpire, lastseen), 0, fact)
  }

  function ElapsedDays(now: int, t: int): int {
    if t == NEVER_SEEN then 0 else TruncDiv(now - t, DAY)
  }

  /** A client is given up exactly when it was seen once, a day ago or more. */
  lemma GivenUpAfterADay(now: int, t: int)
    ensures ElapsedDays(now, t) >= 1 <==> t != 0 && now - t >= 86400
  {
  }

  /** A poll is never earlier than its date, so each failure moves the next one at least
      as far again from the last sign of life as it was: the distance doubles while it
      is at most two hours, and grows by two hours after that. */
  lemma FailureMovesAway(now: int, lastexpire: int, lastseen: int, fact: real)
    requires 0.0 <= fact <= 1.0 && lastexpire <= now
    ensures var x, next := lastexpire - lastseen, DoubleExpiryDate(now, lastexpire, lastseen, fact);
            && next - now == (if x < 300 then 300 else if x > 7200 then 7200 else x)
            && next - lastseen >= x + Delay(lastexpire, lastseen)
            && (0 <= x <= 7200 ==> next - lastseen >= 2 * x)
            && (x > 7200 ==> next - lastseen >= x + 7200)
  {
    ExpireInRange(now, Delay(lastexpire, lastseen), 0, fact);
  }

  // ---- A client that was seen once and then stays silent -------------------------

  /** The least distance between the last sign of life and the next poll, after a
      number of failed polls, when the first poll was due 270 seconds after it. */
  function Floor(failures: nat): int {
    if failures == 0 then 4 * MINUTES + 30
    else Floor(failures - 1) + Delay(Floor(failures - 1), 0)
  }

  const MAX_FAILURES: nat := 16

  lemma FloorAtFirst()
    ensures Floor(0) == 4 * MINUTES + 30
  {
  }

  lemma FloorTable()
    ensures Floor(5) == 9120 && Floor(15) == 81120 && Floor(16) == 88320
    ensures Floor(15) < 86400 <= Floor(16)
  {
    assert Floor(1) == 570;
    assert Floor(2) == 1140;
    assert Floor(3) == 2280;
    assert Floor(4) == 4560;
    assert Floor(6) == 16320;
    assert Floor(7) == 23520;
    assert Floor(8) == 30720;
    assert Floor(9) == 37920;
    assert Floor(10) == 45120;
    assert Floor(11) == 52320;
    assert Floor(12) == 59520;
    assert Floor(13) == 66720;
    assert Floor(14) == 73920;
  }

  lemma FloorStep(lastexpire: int, lastseen: int, failures: nat, next: int, now: int, fact: real)
    requires 0.0 <= fact <= 1.0 && lastexpire <= now
    requires Floor(failures) <= lastexpire - lastseen
    requires next == DoubleExpiryDate(now, lastexpire, lastseen, fact)
    ensures Floor(failures + 1) <= next - lastseen
  {
    FloorPositive(failures);
    FailureMovesAway(now, lastexpire, lastseen, fact);
  }

  lemma {:induction false} FloorPositive(failures: nat)
    ensures Floor(failures) >= 270
  {
    if failures > 0 {
      FloorPositive(failures - 1);
    }
  }

  /** The dates set by a run of failed polls at the given instants. */
  function ExpireAfter(lastseen: int, expire: int, polls: seq<int>, facts: seq<real>): int
    requires |facts| == |polls|
  {
    if polls == [] then expire
    else
      var k := |polls| - 1;
      DoubleExpiryDate(polls[k], ExpireAfter(lastseen, expire, polls[..k], facts[..k]), lastseen, facts[k])
  }

  /** No poll happens before its date, and none finds the client gone for a day. */
  ghost predicate KeptThrough(lastseen: int, expire: int, polls: seq<int>, facts: seq<real>)
    requires |facts| == |polls|
  {
    polls != [] ==>
      var k := |polls| - 1;
      && KeptThrough(lastseen, expire, polls[..k], facts[..k])
      && 0.0 <= facts[k] <= 1.0
      && ExpireAfter(lastseen, expire, polls[..k], facts[..k]) <= polls[k]
      && ElapsedDays(polls[k], lastseen) < 1
  }

  lemma {:induction false} SilentDistance(lastseen: int, expire: int, polls: seq<int>, facts: seq<real>)
    requires |facts| == |polls| && lastseen + 270 <= expire
    requires KeptThrough(lastseen, expire, polls, facts)
    ensures Floor(|polls|) <= ExpireAfter(lastseen, expire, polls, facts) - lastseen
  {
    if polls != [] {
      var k := |polls| - 1;
      SilentDistance(lastseen, expire, polls[..k], facts[..k]);
      FloorStep(ExpireAfter(lastseen, expire, polls[..k], facts[..k]), lastseen, k,
                ExpireAfter(lastseen, expire, polls, facts), polls[k], facts[k]);
    }
  }

  lemma {:induction false} FloorMonotone(i: nat, j: nat)
    requires i <= j
    ensures Floor(i) <= Floor(j)
  {
    if i < j {
      FloorMonotone(i, j - 1);
    }
  }

  /** A client seen once and then silent survives at most sixteen failed polls: the
      seventeenth, whenever it comes, gives it up. */
  lemma SilentClientIsGivenUp(lastseen: int, expire: int, polls: seq<int>, facts: seq<real>)
    requires |facts| == |polls| && 0 < lastseen && lastseen + 270 <= expire
    requires KeptThrough(lastseen, expire, polls, facts)
    ensures |polls| <= 16
  {
    if |polls| > MAX_FAILURES {
      var k := |polls| - 1;
      SilentDistance(lastseen, expire, polls[..k], facts[..k]);
      FloorMonotone(MAX_FAILURES, k);
      FloorTable();
      GivenUpAfterADay(polls[k], lastseen);
      assert false;
    }
  }

  /** Sixteen failed polls do happen, when every poll is on time. */
  lemma {:induction false} SixteenFailuresHappen(lastseen: int, n: nat)
    returns (polls: seq<int>, facts: seq<real>)
    requires n <= 16 && 0 < lastseen
    ensures |facts| == |polls| == n && KeptThrough(lastseen, lastseen + 270, polls, facts)
    ensures ExpireAfter(lastseen, lastseen + 270, polls, facts) == lastseen + Floor(n)
  {
    if n == 0 {
      polls, facts := [], [];
    } else {
      var earlier, zeros := SixteenFailuresHappen(lastseen, n - 1);
      var now := ExpireAfter(lastseen, lastseen + 270, earlier, zeros);
      polls, facts := earlier + [now], zeros + [0.0];
      assert polls[..n - 1] == earlier && facts[..n - 1] == zeros;
      FloorPositive(n - 1);
      FloorMonotone(n - 1, 15);
      FloorTable();
      GivenUpAfterADay(now, lastseen);
    }
  }
}
