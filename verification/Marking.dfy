/** Which players of a game are ranked: all the eligible ones or, when there is any
    objection, none. */
module Marking {
  import opened Basics
  import opened Truncation
  import opened Elo
  import opened Game
  import opened NewGame

  const MIN_RANKABLE := 4
  const MIN_ELAPSED := 60
  const MAX_ELAPSED := 30 * 60

  /** How many of the first "k" slots are eligible. */
  function Eligibles(s: seq<Player>, k: nat): nat
    requires k <= |s|
  {
    if k == 0 then 0 else Eligibles(s, k - 1) + if s[k - 1].Eligible() then 1 else 0
  }

  predicate MayRank(s: seq<Player>, vanilla: bool, elapsed: int) {
    && vanilla && !IsNewGame(s) && MIN_ELAPSED <= elapsed <= MAX_ELAPSED
    && Eligibles(s, |s|) >= MIN_RANKABLE
  }

  function Flagged(s: seq<Player>, flag: bool): seq<Player> {
    seq(|s|, i requires 0 <= i < |s| => s[i].(isRankable := flag && s[i].Eligible()))
  }

  lemma {:induction false} FlaggedCount(s: seq<Player>, flag: bool, k: nat)
    requires k <= |s|
    ensures Rankables(Flagged(s, flag), k) == if flag then Eligibles(s, k) else 0
  {
    if k > 0 {
      FlaggedCount(s, flag, k - 1);
    }
  }

  ghost predicate Playable(s: seq<Player>) {
    forall i: nat :: i < |s| && s[i].isRankable ==> Others(s, i, |s|) >= MIN_RANKABLE - 1
  }

  /** Either nobody is ranked, or four players or more; and so everybody who is ranked
      has three opponents or more. */
  lemma NoneOrFour(s: seq<Player>, vanilla: bool, elapsed: int)
    ensures var t := Flagged(s, MayRank(s, vanilla, elapsed));
            (Rankables(t, |t|) == 0 || Rankables(t, |t|) >= MIN_RANKABLE) && Playable(t)
  {
    var flag := MayRank(s, vanilla, elapsed);
    var t := Flagged(s, flag);
    FlaggedCount(s, flag, |s|);
    forall i: nat | i < |t| && t[i].isRankable
      ensures Others(t, i, |t|) >= MIN_RANKABLE - 1
    {
      OthersCount(t, i, |t|);
    }
  }

  method ResetFlags(players: array<Player>)
    requires forall i :: 0 <= i < players.Length && players[i].after.None? ==> !players[i].isRankable
    modifies players
    ensures players[..] == Flagged(old(players[..]), false)
  {
    for i := 0 to players.Length
      invariant forall j :: 0 <= j < i ==> players[j] == old(players[j]).(isRankable := false)
      invariant forall j :: i <= j < players.Length ==> players[j] == old(players[j])
    {
      if players[i].after.Some? {
        players[i] := players[i].(isRankable := false);
      }
    }
  }

  method FlagEligible(players: array<Player>) returns (rankable: nat)
    requires forall i :: 0 <= i < players.Length ==> !players[i].isRankable
    modifies players
    ensures players[..] == Flagged(old(players[..]), true)
    ensures rankable == Eligibles(old(players[..]), players.Length)
  {
    rankable := 0;
    ghost var s := players[..];
    for i := 0 to players.Length
      invariant rankable == Eligibles(s, i)
      invariant forall j :: 0 <= j < i ==> players[j] == s[j].(isRankable := s[j].Eligible())
      invariant forall j :: i <= j < players.Length ==> players[j] == s[j]
    {
      if players[i].after.Some? && players[i].before.Some? && players[i].after.value.ingame {
        players[i] := players[i].(isRankable := true);
        rankable := rankable + 1;
      }
    }
  }

  /** Marks the players of a game, none of which is marked yet. */
  method MarkRankablePlayers(players: array<Player>, vanilla: bool, elapsed: int)
    requires forall i :: 0 <= i < players.Length ==> !players[i].isRankable
    modifies players
    ensures players[..] == Flagged(old(players[..]), MayRank(old(players[..]), vanilla, elapsed))
  {
    hide IsNewGame;
    ghost var s := players[..];
    var newGame := CheckNewGame(players);
    if vanilla && !newGame && elapsed <= MAX_ELAPSED && elapsed >= MIN_ELAPSED {
      var rankable := FlagEligible(players);
      if rankable >= MIN_RANKABLE {
        return;
      }
    }
    ResetFlags(players);
    assert forall i :: 0 <= i < |s| ==> players[i] == s[i].(isRankable := false);
  }

  /** The new Elo of a rankable slot: the average over all its opponents. */
  method ComputeNewElo(g: real, players: array<Player>, player: nat) returns (elo: int)
    requires g > 1.0 && player < players.Length && Others(players[..], player, players.Length) > 0
    ensures elo == NewElo(g, players[..], player)
  {
    var count, total := 0, 0;
    for i := 0 to players.Length
      invariant count == Others(players[..], player, i)
      invariant total == Total(g, players[..], player, i)
    {
      if i != player && players[i].isRankable {
        var delta := Encounter(g, players[player], players[i]);
        total := total + delta;
        count := count + 1;
      }
    }
    total := TruncDiv(total, count);
    elo := players[player].elo + total;
  }
}
