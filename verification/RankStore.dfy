/** The ranking tables as a value driven by a log of operations.  New Elos wait in a
    table of their own until the ranks are recomputed.

    The database object keeps such a log; everything said here about every log is
    therefore said about every run of the ranking. */
module RankStore {
  import opened Basics
  import opened Elo
  import opened Game
  import opened Marking
  import opened NewGame
  import opened RankOrder

  const DEFAULT_ELO := 1500
  const UNRANKED: nat := 0
  const NEVER_SEEN := 0

  type Clients = s: seq<Client> | |s| <= MAX_CLIENTS

  /** Two states of one server, as far as the ranking looks at them. */
  datatype Match = Match(before: Clients, after: Clients, seenBefore: int, seenAfter: int, vanilla: bool)
  {
    function Elapsed(): int {
      if seenBefore == NEVER_SEEN then 0 else seenAfter - seenBefore
    }
  }

  datatype Op = Seen(client: Client, now: int) | Ranked(match_: Match) | Recomputed

  datatype State = State(players: Table, pending: map<Name, int>)

  type Elos = map<Name, int>

  // ---- One game --------------------------------------------------------------------

  /** The first client with a name. */
  function FindClient(clients: seq<Client>, name: Name): Option<Client> {
    if clients == [] then None
    else if clients[0].name == name then Some(clients[0])
    else FindClient(clients[1..], name)
  }

  /** The known players among the first "k" clients, with their latest Elo. */
  function Loaded(elos: Elos, before: seq<Client>, after: seq<Client>, k: nat): (r: seq<Player>)
    requires k <= |after|
    ensures |r| <= k
    ensures forall i :: 0 <= i < |r| ==>
      && r[i].after.Some? && !r[i].isRankable
      && r[i].name in elos && r[i].elo == elos[r[i].name]
  {
    if k == 0 then []
    else
      var name := after[k - 1].name;
      Loaded(elos, before, after, k - 1) +
      if name in elos then [Player(name, elos[name], FindClient(before, name), Some(after[k - 1]), false)] else []
  }

  const EMPTY_SLOT := Player([], 0, None, None, false)

  function Padded(s: seq<Player>): (r: seq<Player>)
    requires |s| <= MAX_CLIENTS
    ensures |r| == MAX_CLIENTS
  {
    s + seq(MAX_CLIENTS - |s|, _ => EMPTY_SLOT)
  }

  /** The marked player array of a match. */
  function Slots(elos: Elos, m: Match): (r: seq<Player>)
    ensures |r| == MAX_CLIENTS && Playable(r)
    ensures forall i :: 0 <= i < |r| && r[i].isRankable ==> r[i].name in elos && r[i].elo == elos[r[i].name]
  {
    var s := Padded(Loaded(elos, m.before, m.after, |m.after|));
    NoneOrFour(s, m.vanilla, m.Elapsed());
    Flagged(s, MayRank(s, m.vanilla, m.Elapsed()))
  }

  /** The new Elos of the first "k" slots, written one after the other. */
  function Written(g: real, elos: Elos, s: seq<Player>, k: nat): Elos
    requires g > 1.0 && k <= |s| && Playable(s)
  {
    if k == 0 then elos
    else if s[k - 1].isRankable then Written(g, elos, s, k - 1)[s[k - 1].name := NewElo(g, s, k - 1)]
    else Written(g, elos, s, k - 1)
  }

  // ---- Delayed and immediate commit ------------------------------------------------

  /** The Elo of a player to come, or else the one it has. */
  function Latest(s: State, n: Name): int
    requires n in s.players
  {
    if n in s.pending then s.pending[n] else s.players[n].elo
  }

  function Effective(s: State): Elos {
    map n | n in s.players :: Latest(s, n)
  }

  lemma EffectiveNames(s: State)
    ensures Effective(s).Keys == s.players.Keys
  {
  }

  function Committed(s: State): Table {
    map n | n in s.players :: s.players[n].(elo := Latest(s, n))
  }

  function Apply(g: real, s: State, op: Op): State
    requires g > 1.0
  {
    match op
    case Seen(c, now) =>
      if c.name in s.players then
        s.(players := s.players[c.name := s.players[c.name].(clan := c.clan, lastseen := now)])
      else
        s.(players := s.players[c.name := Row(c.clan, DEFAULT_ELO, UNRANKED, now)])
    case Ranked(m) =>
      s.(pending := Written(g, s.pending, Slots(Effective(s), m), MAX_CLIENTS))
    case Recomputed =>
      var t := Committed(s);
      State(map n | n in t :: t[n].(rank := RankOf(t, n)), map[])
  }

  function Replay(g: real, log: seq<Op>): State
    requires g > 1.0
  {
    if log == [] then State(map[], map[]) else Apply(g, Replay(g, log[..|log| - 1]), log[|log| - 1])
  }

  /** The simple scheme: every new Elo is written at once, and recomputing ranks does
      not touch Elos. */
  function ApplyAtOnce(g: real, elos: Elos, op: Op): Elos
    requires g > 1.0
  {
    match op
    case Seen(c, _) => if c.name in elos then elos else elos[c.name := DEFAULT_ELO]
    case Ranked(m) => Written(g, elos, Slots(elos, m), MAX_CLIENTS)
    case Recomputed => elos
  }

  function ReplayAtOnce(g: real, log: seq<Op>): Elos
    requires g > 1.0
  {
    if log == [] then map[] else ApplyAtOnce(g, ReplayAtOnce(g, log[..|log| - 1]), log[|log| - 1])
  }

  /** Only known players have an Elo to come. */
  ghost predicate Known(s: State) {
    s.pending.Keys <= s.players.Keys
  }

  lemma {:induction false} WrittenNames(g: real, elos: Elos, s: seq<Player>, k: nat, names: set<Name>)
    requires g > 1.0 && k <= |s| && Playable(s) && elos.Keys <= names
    requires forall i :: 0 <= i < |s| && s[i].isRankable ==> s[i].name in names
    ensures Written(g, elos, s, k).Keys <= names
  {
    if k > 0 {
      WrittenNames(g, elos, s, k - 1, names);
    }
  }

  /** Writing to the pending table shows in the effective Elos. */
  lemma {:induction false} WrittenShows(g: real, st: State, s: seq<Player>, k: nat)
    requires g > 1.0 && k <= |s| && Playable(s)
    requires forall i :: 0 <= i < |s| && s[i].isRankable ==> s[i].name in st.players
    ensures Effective(st.(pending := Written(g, st.pending, s, k))) == Written(g, Effective(st), s, k)
  {
    if k > 0 {
      WrittenShows(g, st, s, k - 1);
      if s[k - 1].isRankable {
        var before := st.(pending := Written(g, st.pending, s, k - 1));
        PendingShows(before, s[k - 1].name, NewElo(g, s, k - 1));
      }
    }
  }

  lemma PendingShows(s: State, n: Name, elo: int)
    requires n in s.players
    ensures Effective(s.(pending := s.pending[n := elo])) == Effective(s)[n := elo]
  {
  }

  lemma StepRefines(g: real, s: State, op: Op)
    requires g > 1.0 && Known(s)
    ensures Known(Apply(g, s, op))
    ensures Effective(Apply(g, s, op)) == ApplyAtOnce(g, Effective(s), op)
  {
    match op
    case Seen(c, now) =>
    case Ranked(m) =>
      var slots := Slots(Effective(s), m);
      WrittenNames(g, s.pending, slots, MAX_CLIENTS, s.players.Keys);
      WrittenShows(g, s, slots, MAX_CLIENTS);
    case Recomputed =>
  }

  /** Over every run, delaying the commit of Elos changes no effective Elo. */
  lemma {:induction false} DelayedRefinesImmediate(g: real, log: seq<Op>)
    requires g > 1.0
    ensures Known(Replay(g, log)) && Effective(Replay(g, log)) == ReplayAtOnce(g, log)
  {
    if log != [] {
      DelayedRefinesImmediate(g, log[..|log| - 1]);
      StepRefines(g, Replay(g, log[..|log| - 1]), log[|log| - 1]);
    }
  }

  /** Recomputing the ranks makes the effective Elos the stored ones, and empties the
      pending table. */
  lemma RecomputeCommits(g: real, s: State)
    requires g > 1.0
    ensures var r := Apply(g, s, Recomputed);
            && r.pending == map[] && r.players.Keys == s.players.Keys
            && Effective(r) == Effective(s)
            && (forall n :: n in r.players ==> r.players[n].elo == Effective(s)[n])
            && forall n :: n in r.players ==>
                 r.players[n].clan == s.players[n].clan && r.players[n].lastseen == s.players[n].lastseen
  {
  }

  // ---- Ranks -----------------------------------------------------------------------

  ghost function RankedPlayers(t: Table): set<Name> {
    set n | n in t && t[n].rank != UNRANKED
  }

  /** Ranks are exactly 1 to the number of ranked players, each given once, and a
      better rank never goes with fewer Elo points. */
  ghost predicate RanksRight(t: Table) {
    var ranked := RankedPlayers(t);
    && (forall n :: n in ranked ==> t[n].rank <= |ranked|)
    && (forall k {:trigger Holds(t, k)} :: 1 <= k <= |ranked| ==> Holds(t, k))
    && (forall a, b :: a in ranked && b in ranked && t[a].rank == t[b].rank ==> a == b)
    && forall a, b :: a in ranked && b in ranked && t[a].rank < t[b].rank ==> t[a].elo >= t[b].elo
  }

  ghost predicate Holds(t: Table, rank: nat) {
    exists n :: n in t && t[n].rank == rank
  }

  ghost function Ranks(t: Table, names: set<Name>): set<nat>
    requires names <= t.Keys
  {
    set n | n in names :: RankOf(t, n)
  }

  lemma {:induction false} RanksDiffer(t: Table, names: set<Name>)
    requires names <= t.Keys
    ensures |Ranks(t, names)| == |names|
    decreases names
  {
    if names != {} {
      var n :| n in names;
      RanksDiffer(t, names - {n});
      forall m | m in names
        ensures RankOf(t, m) == RankOf(t, n) <==> m == n
      {
        RankIsPlace(t, m, n);
      }
      assert Ranks(t, names) == Ranks(t, names - {n}) + {RankOf(t, n)};
    }
  }

  ghost function UpTo(k: nat): (r: set<nat>)
    ensures |r| == k && forall i :: i in r <==> 1 <= i <= k
  {
    if k == 0 then {} else UpTo(k - 1) + {k}
  }

  /** Every rank down to the last is somebody's. */
  lemma EveryRankTaken(t: Table, k: nat) returns (n: Name)
    requires 1 <= k <= |t|
    ensures n in t && RankOf(t, n) == k
  {
    forall m | m in t
      ensures RankOf(t, m) in UpTo(|t|)
    {
      RankAtMost(t, m);
    }
    RanksDiffer(t, t.Keys);
    assert |t.Keys| == |t|;
    assert Ranks(t, t.Keys) <= UpTo(|t|);
    if k !in Ranks(t, t.Keys) {
      SmallerSet(Ranks(t, t.Keys), UpTo(|t|));
    }
    n :| n in t.Keys && RankOf(t, n) == k;
  }

  lemma TableRanksRight(t: Table, r: Table)
    requires r.Keys == t.Keys && forall n :: n in t ==> r[n] == t[n].(rank := RankOf(t, n))
    ensures RankedPlayers(r) == r.Keys && RanksRight(r)
  {
    hide RankOf, Before;
    forall n | n in t
      ensures 1 <= r[n].rank <= |t|
    {
      RankAtMost(t, n);
    }
    assert RankedPlayers(r) == t.Keys;
    assert |t.Keys| == |t|;
    forall k | 1 <= k <= |t|
      ensures Holds(r, k)
    {
      var n := EveryRankTaken(t, k);
      assert r[n].rank == k;
    }
    forall a, b | a in t && b in t
      ensures r[a].rank == r[b].rank ==> a == b
      ensures r[a].rank < r[b].rank ==> r[a].elo >= r[b].elo
    {
      RankIsPlace(t, a, b);
      if r[a].rank < r[b].rank {
        PlaceByElo(t, a, b);
      }
    }
  }

  lemma PlaceByElo(t: Table, a: Name, b: Name)
    requires a in t && b in t && Before(t, a, b)
    ensures t[a].elo >= t[b].elo
  {
  }

  /** Recomputing the ranks makes them right, whatever they were, and leaves nobody out. */
  lemma RecomputeRanksRight(g: real, s: State)
    requires g > 1.0
    ensures var r := Apply(g, s, Recomputed).players;
            RanksRight(r) && RankedPlayers(r) == r.Keys && r.Keys == s.players.Keys
  {
    hide RanksRight, RankedPlayers, RankOf;
    TableRanksRight(Committed(s), Apply(g, s, Recomputed).players);
  }

  /** More Elo gives the smaller rank; at equal Elo, the later date; at equal dates too, the
      name that comes after. */
  ghost predicate RanksFollow(t: Table) {
    forall a, b :: a in t && b in t ==>
      && (t[a].elo > t[b].elo ==> t[a].rank < t[b].rank)
      && (t[a].elo == t[b].elo && t[a].lastseen > t[b].lastseen ==> t[a].rank < t[b].rank)
      && (t[a].elo == t[b].elo && t[a].lastseen == t[b].lastseen && NameAfter(a, b) ==> t[a].rank < t[b].rank)
  }

  lemma RecomputedRanksFollow(g: real, s: State)
    requires g > 1.0
    ensures RanksFollow(Apply(g, s, Recomputed).players)
  {
    hide RankOf, NameAfter;
    var t, r := Committed(s), Apply(g, s, Recomputed).players;
    forall a, b | a in t && b in t
      ensures Before(t, a, b) ==> r[a].rank < r[b].rank
      ensures t[a].elo == t[b].elo && t[a].lastseen == t[b].lastseen && NameAfter(a, b) ==> Before(t, a, b)
    {
      RankIsPlace(t, a, b);
      AheadByColumns(t, a, b);
    }
  }

  lemma SameRanks(t: Table, r: Table)
    requires RanksRight(t)
    requires forall n :: n in t ==> n in r && r[n].rank == t[n].rank && r[n].elo == t[n].elo
    requires forall n :: n in r && n !in t ==> r[n].rank == UNRANKED
    ensures RanksRight(r)
  {
    assert RankedPlayers(r) == RankedPlayers(t);
    forall k | 1 <= k <= |RankedPlayers(t)|
      ensures Holds(r, k)
    {
      assert Holds(t, k);
      var n :| n in t && t[n].rank == k;
      assert r[n].rank == k;
    }
  }

  /** Seeing a player changes neither Elos nor ranks; a new player has no rank. */
  lemma SeenKeepsRanks(g: real, s: State, c: Client, now: int)
    requires g > 1.0 && RanksRight(s.players)
    ensures RanksRight(Apply(g, s, Seen(c, now)).players)
  {
    SameRanks(s.players, Apply(g, s, Seen(c, now)).players);
  }

  /** Ranks are right in every state of every run. */
  lemma {:induction false} RanksAlwaysRight(g: real, log: seq<Op>)
    requires g > 1.0
    ensures RanksRight(Replay(g, log).players)
  {
    if log != [] {
      var s := Replay(g, log[..|log| - 1]);
      RanksAlwaysRight(g, log[..|log| - 1]);
      match log[|log| - 1]
      case Seen(c, now) => SeenKeepsRanks(g, s, c, now);
      case Ranked(m) =>
      case Recomputed => RecomputeRanksRight(g, s);
    }
  }

  // ---- Duplicates ------------------------------------------------------------------

  /** No two of the first "k" clients are the same known player. */
  ghost predicate NamesDiffer(elos: Elos, after: seq<Client>, k: nat)
    requires k <= |after|
  {
    forall i, j :: 0 <= i < j < k && after[i].name in elos ==> after[i].name != after[j].name
  }

  ghost predicate SlotsDiffer(s: seq<Player>) {
    forall i, j :: 0 <= i < j < |s| ==> s[i].name != s[j].name
  }

  ghost predicate HasSlot(s: seq<Player>, n: Name) {
    exists i :: 0 <= i < |s| && s[i].name == n
  }

  lemma {:induction false} LoadedNames(elos: Elos, before: seq<Client>, after: seq<Client>, k: nat, n: Name)
    requires k <= |after| && n in elos
    ensures HasSlot(Loaded(elos, before, after, k), n) <==> exists i :: 0 <= i < k && after[i].name == n
  {
    if k > 0 {
      LoadedNames(elos, before, after, k - 1, n);
      var r, was := Loaded(elos, before, after, k), Loaded(elos, before, after, k - 1);
      assert after[k - 1].name in elos ==> r[|was|].name == after[k - 1].name;
      assert forall i :: 0 <= i < |was| ==> r[i] == was[i];
      assert HasSlot(r, n) <==> HasSlot(was, n) || after[k - 1].name == n;
    }
  }

  /** Players are loaded once exactly when no known name is announced twice: the check
      against duplicates never strikes. */
  lemma {:induction false} LoadedOnce(elos: Elos, before: seq<Client>, after: seq<Client>, k: nat)
    requires k <= |after|
    ensures SlotsDiffer(Loaded(elos, before, after, k)) <==> NamesDiffer(elos, after, k)
  {
    if k > 0 {
      LoadedOnce(elos, before, after, k - 1);
      var was, c := Loaded(elos, before, after, k - 1), after[k - 1];
      if c.name in elos {
        LoadedNames(elos, before, after, k - 1, c.name);
        var p := Player(c.name, elos[c.name], FindClient(before, c.name), Some(c), false);
        assert Loaded(elos, before, after, k) == was + [p];
        hide Loaded, FindClient;
        SlotsDifferNext(was, p);
      } else {
        assert Loaded(elos, before, after, k) == was;
      }
    }
  }

  lemma SlotsDifferNext(s: seq<Player>, p: Player)
    ensures SlotsDiffer(s + [p]) <==> SlotsDiffer(s) && !HasSlot(s, p.name)
  {
    var r := s + [p];
    assert r[|s|] == p && forall i :: 0 <= i < |s| ==> r[i] == s[i];
  }

  /** Two clients with one name: the same player is loaded twice. */
  lemma DuplicateLoaded(elos: Elos, before: seq<Client>, c: Client)
    requires c.name in elos
    ensures |Loaded(elos, before, [c, c], 2)| == 2 && !SlotsDiffer(Loaded(elos, before, [c, c], 2))
  {
    LoadedOnce(elos, before, [c, c], 2);
    assert [c, c][0].name == [c, c][1].name;
    assert |Loaded(elos, before, [c, c], 1)| == 1;
  }

  // ---- The outcome of a match -------------------------------------------------------

  /** A marked slot that no later one of the same player overrides. */
  ghost predicate IsLast(s: seq<Player>, i: nat) {
    && i < |s| && s[i].isRankable
    && forall j :: i < j < |s| && s[j].isRankable ==> s[j].name != s[i].name
  }

  /** Every marked player has a last slot. */
  lemma {:induction false} LastSlot(s: seq<Player>, i: nat) returns (l: nat)
    requires i < |s| && s[i].isRankable
    ensures IsLast(s, l) && s[l].name == s[i].name
    decreases |s| - i
  {
    if j :| i < j < |s| && s[j].isRankable && s[j].name == s[i].name {
      l := LastSlot(s, j);
    } else {
      l := i;
    }
  }

  /** When no player is loaded twice, every marked slot is a last one. */
  lemma MarkedDiffer(elos: Elos, m: Match, i: nat)
    requires NamesDiffer(elos, m.after, |m.after|)
    requires i < MAX_CLIENTS && Slots(elos, m)[i].isRankable
    ensures IsLast(Slots(elos, m), i)
  {
    LoadedOnce(elos, m.before, m.after, |m.after|);
  }

  lemma {:induction false} WrittenAt(g: real, elos: Elos, s: seq<Player>, k: nat, i: nat)
    requires g > 1.0 && k <= |s| && Playable(s) && IsLast(s, i) && i < k
    ensures s[i].name in Written(g, elos, s, k) && Written(g, elos, s, k)[s[i].name] == NewElo(g, s, i)
  {
    hide NewElo, Playable;
    if i < k - 1 {
      WrittenAt(g, elos, s, k - 1, i);
    }
  }

  lemma {:induction false} WrittenElsewhere(g: real, elos: Elos, s: seq<Player>, k: nat, n: Name)
    requires g > 1.0 && k <= |s| && Playable(s) && n in elos
    requires forall i :: 0 <= i < k && s[i].isRankable ==> s[i].name != n
    ensures n in Written(g, elos, s, k) && Written(g, elos, s, k)[n] == elos[n]
  {
    if k > 0 {
      WrittenElsewhere(g, elos, s, k - 1, n);
    }
  }

  /** What writing the new Elos of an array does: the players of last slots get the Elos
      of these, and everybody else keeps theirs. */
  ghost predicate Outcome(g: real, elos: Elos, later: Elos, s: seq<Player>)
    requires g > 1.0 && Playable(s)
  {
    && later.Keys == elos.Keys
    && (forall i :: 0 <= i < |s| && s[i].isRankable ==> s[i].name in elos && s[i].elo == elos[s[i].name])
    && (forall i :: 0 <= i < |s| && IsLast(s, i) ==> later[s[i].name] == NewElo(g, s, i))
    && (forall n :: n in elos && (forall i :: 0 <= i < |s| && s[i].isRankable ==> s[i].name != n) ==>
          later[n] == elos[n])
  }

  lemma MatchWrites(g: real, elos: Elos, m: Match)
    requires g > 1.0
    ensures Outcome(g, elos, ApplyAtOnce(g, elos, Ranked(m)), Slots(elos, m))
  {
    var s := Slots(elos, m);
    WrittenNames(g, elos, s, |s|, elos.Keys);
    forall n | n in elos
      ensures n in Written(g, elos, s, |s|)
      ensures (forall i :: 0 <= i < |s| && s[i].isRankable ==> s[i].name != n) ==>
                Written(g, elos, s, |s|)[n] == elos[n]
    {
      if i :| 0 <= i < |s| && s[i].isRankable && s[i].name == n {
        var l := LastSlot(s, i);
        WrittenAt(g, elos, s, |s|, l);
      } else {
        WrittenElsewhere(g, elos, s, |s|, n);
      }
    }
    forall i | 0 <= i < |s| && IsLast(s, i)
      ensures Written(g, elos, s, |s|)[s[i].name] == NewElo(g, s, i)
    {
      WrittenAt(g, elos, s, |s|, i);
    }
  }

  /** The Elo changes of the players among the first "k" slots, each counted once. */
  ghost function Moved(elos: Elos, later: Elos, s: seq<Player>, k: nat): int
    requires k <= |s|
    requires forall i :: 0 <= i < |s| && s[i].isRankable ==> s[i].name in elos && s[i].name in later
  {
    if k == 0 then 0
    else Moved(elos, later, s, k - 1) +
         if IsLast(s, k - 1) then later[s[k - 1].name] - elos[s[k - 1].name] else 0
  }

  /** How many marked slots among the first "k" are overridden. */
  ghost function Overridden(s: seq<Player>, k: nat): nat
    requires k <= |s|
  {
    if k == 0 then 0
    else Overridden(s, k - 1) + if s[k - 1].isRankable && !IsLast(s, k - 1) then 1 else 0
  }

  lemma MoveNearGain(g: real, elos: Elos, later: Elos, s: seq<Player>, i: nat)
    requires IsRoot(g) && i < |s| && Playable(s) && Outcome(g, elos, later, s)
    ensures IsLast(s, i) ==>
              s[i].isRankable && s[i].name in elos && s[i].name in later && Others(s, i, |s|) > 0
              && later[s[i].name] - elos[s[i].name] == Gain(g, s, i)
    ensures s[i].isRankable ==> Others(s, i, |s|) > 0 && -22 <= Gain(g, s, i) <= 22
  {
    if s[i].isRankable {
      GainBound(g, s, i);
    }
  }

  lemma {:induction false} MovedNearGains(g: real, elos: Elos, later: Elos, s: seq<Player>, k: nat)
    requires IsRoot(g) && k <= |s| && Playable(s) && Outcome(g, elos, later, s)
    ensures -22 * Overridden(s, k) <= Moved(elos, later, s, k) - Gains(g, s, k) <= 22 * Overridden(s, k)
  {
    hide Gain, IsLast, Outcome, NewElo;
    if k > 0 {
      MovedNearGains(g, elos, later, s, k - 1);
      MoveNearGain(g, elos, later, s, k - 1);
    }
  }

  /** What a match does to the effective Elos, whatever names it announces: a player moves
      by 22 points at most, whoever is not marked stays, and the points of all players
      together drift by less than the number of opponents, and 22 more for every slot
      that a later one of the same player overrides. */
  lemma MatchOutcome(g: real, elos: Elos, m: Match)
    requires IsRoot(g)
    ensures var s, later := Slots(elos, m), ApplyAtOnce(g, elos, Ranked(m));
            && later.Keys == elos.Keys
            && (forall n :: n in elos ==> -22 <= later[n] - elos[n] <= 22)
            && (forall n :: n in elos && (forall i :: 0 <= i < |s| && s[i].isRankable ==> s[i].name != n) ==>
                  later[n] == elos[n])
            && (Rankables(s, |s|) == 0 ==> later == elos)
            && Outcome(g, elos, later, s)
            && (Rankables(s, |s|) > 0 ==>
                  var drift := Rankables(s, |s|) - 2 + 22 * Overridden(s, |s|);
                  -drift <= Moved(elos, later, s, |s|) <= drift)
  {
    var s, later := Slots(elos, m), ApplyAtOnce(g, elos, Ranked(m));
    hide Slots, ApplyAtOnce, IsRoot, Gain;
    MatchWrites(g, elos, m);
    forall n | n in elos
      ensures -22 <= later[n] - elos[n] <= 22
      ensures later[n] == elos[n] || Rankables(s, |s|) > 0
    {
      if i :| 0 <= i < |s| && s[i].isRankable && s[i].name == n {
        var l := LastSlot(s, i);
        GainBound(g, s, l);
        RankablesAtLeast(s, i, i, |s|);
      }
    }
    MovedNearGains(g, elos, later, s, |s|);
    if Rankables(s, |s|) > 0 {
      SlotsCount(elos, m);
      DriftBound(g, s);
    }
  }

  lemma SlotsCount(elos: Elos, m: Match)
    ensures var s := Slots(elos, m); Rankables(s, |s|) == 0 || Rankables(s, |s|) >= MIN_RANKABLE
  {
    NoneOrFour(Padded(Loaded(elos, m.before, m.after, |m.after|)), m.vanilla, m.Elapsed());
  }

  /** Nothing is overridden when no known name is announced twice, and then the drift is
      less than the number of opponents. */
  lemma {:induction false} NothingOverridden(elos: Elos, m: Match, k: nat)
    requires NamesDiffer(elos, m.after, |m.after|) && k <= MAX_CLIENTS
    ensures Overridden(Slots(elos, m), k) == 0
  {
    if k > 0 {
      NothingOverridden(elos, m, k - 1);
      if Slots(elos, m)[k - 1].isRankable {
        MarkedDiffer(elos, m, k - 1);
      }
    }
  }

  /** A player who is ahead and, in the slots that count, does no worse stays ahead. */
  lemma MatchKeepsOrder(g: real, elos: Elos, m: Match, a: nat, b: nat)
    requires IsRoot(g) && IsLast(Slots(elos, m), a) && IsLast(Slots(elos, m), b)
    requires elos[Slots(elos, m)[b].name] <= elos[Slots(elos, m)[a].name]
    requires Slots(elos, m)[b].Change() <= Slots(elos, m)[a].Change()
    ensures var s, later := Slots(elos, m), ApplyAtOnce(g, elos, Ranked(m));
            s[a].name in later && s[b].name in later && later[s[b].name] <= later[s[a].name]
  {
    var s := Slots(elos, m);
    hide Slots, ApplyAtOnce, NewElo;
    MatchWrites(g, elos, m);
    OrderPreserved(g, s, a, b);
  }

  // ---- Who is marked, and who wins ---------------------------------------------------

  /** The first client of that name. */
  ghost predicate IsFirst(clients: seq<Client>, c: Client) {
    exists j :: 0 <= j < |clients| && clients[j] == c
      && forall i :: 0 <= i < j ==> clients[i].name != c.name
  }

  lemma {:induction false} FoundFirst(clients: seq<Client>, name: Name)
    ensures FindClient(clients, name).None? <==> forall j :: 0 <= j < |clients| ==> clients[j].name != name
    ensures FindClient(clients, name).Some? ==>
      FindClient(clients, name).value.name == name && IsFirst(clients, FindClient(clients, name).value)
  {
    if clients != [] && clients[0].name != name {
      FoundFirst(clients[1..], name);
      if FindClient(clients, name).Some? {
        var c := FindClient(clients, name).value;
        var j :| 0 <= j < |clients[1..]| && clients[1..][j] == c
              && forall i :: 0 <= i < j ==> clients[1..][i].name != c.name;
        assert clients[j + 1] == c;
        assert forall i :: 0 < i < j + 1 ==> clients[i] == clients[1..][i - 1];
      }
      assert forall i :: 0 < i < |clients| ==> clients[i] == clients[1..][i - 1];
    }
  }

  /** A client that stayed, is known and in game. */
  ghost predicate Plays(elos: Elos, m: Match, k: int) {
    && 0 <= k < |m.after| && m.after[k].name in elos && m.after[k].ingame
    && exists j :: 0 <= j < |m.before| && m.before[j].name == m.after[k].name
  }

  /** The slot of the client number "k", if that is known. */
  function SlotOf(elos: Elos, m: Match, k: nat): (i: nat)
    requires k < |m.after|
    ensures i <= k
  {
    |Loaded(elos, m.before, m.after, k)|
  }

  lemma {:induction false} LoadedPrefix(elos: Elos, before: seq<Client>, after: seq<Client>, j: nat, k: nat)
    requires j <= k <= |after|
    ensures Loaded(elos, before, after, j) <= Loaded(elos, before, after, k)
    decreases k - j
  {
    if j < k {
      LoadedPrefix(elos, before, after, j, k - 1);
    }
  }

  /** What a slot is loaded with. */
  lemma SlotLoaded(elos: Elos, m: Match, k: nat)
    requires k < |m.after| && m.after[k].name in elos
    ensures var c, s := m.after[k], Padded(Loaded(elos, m.before, m.after, |m.after|));
            s[SlotOf(elos, m, k)] == Player(c.name, elos[c.name], FindClient(m.before, c.name), Some(c), false)
  {
    LoadedPrefix(elos, m.before, m.after, k + 1, |m.after|);
  }

  /** Every loaded slot is that of a client. */
  lemma {:induction false} SlotHasClient(elos: Elos, m: Match, k: nat, i: nat) returns (c: nat)
    requires k <= |m.after| && i < |Loaded(elos, m.before, m.after, k)|
    ensures c < k && m.after[c].name in elos && SlotOf(elos, m, c) == i
  {
    if i < |Loaded(elos, m.before, m.after, k - 1)| {
      c := SlotHasClient(elos, m, k - 1, i);
    } else {
      c := k - 1;
    }
  }

  lemma PlaysWhenEligible(elos: Elos, m: Match, k: nat)
    requires k < |m.after| && m.after[k].name in elos
    ensures Plays(elos, m, k) <==>
            Player(m.after[k].name, elos[m.after[k].name], FindClient(m.before, m.after[k].name),
                   Some(m.after[k]), false).Eligible()
  {
    FoundFirst(m.before, m.after[k].name);
  }

  ghost function Players(elos: Elos, m: Match, k: nat): set<int> {
    set j: int | 0 <= j < k && Plays(elos, m, j)
  }

  lemma {:induction false} EligiblesAppend(s: seq<Player>, t: seq<Player>, k: nat)
    requires k <= |t|
    ensures Eligibles(s + t, |s| + k) == Eligibles(s, |s|) + Eligibles(t, k)
  {
    if k > 0 {
      EligiblesAppend(s, t, k - 1);
      assert (s + t)[|s| + k - 1] == t[k - 1];
    } else {
      EligiblesPrefix(s, t, |s|);
    }
  }

  lemma {:induction false} EligiblesPrefix(s: seq<Player>, t: seq<Player>, k: nat)
    requires k <= |s|
    ensures Eligibles(s + t, k) == Eligibles(s, k)
  {
    if k > 0 {
      EligiblesPrefix(s, t, k - 1);
    }
  }

  lemma {:induction false} EmptySlotsEligible(t: seq<Player>, k: nat)
    requires k <= |t| && forall i :: 0 <= i < |t| ==> t[i] == EMPTY_SLOT
    ensures Eligibles(t, k) == 0
  {
    if k > 0 {
      EmptySlotsEligible(t, k - 1);
    }
  }

  /** As many slots are eligible as clients play. */
  lemma {:induction false} PlayersCounted(elos: Elos, m: Match, k: nat)
    requires k <= |m.after|
    ensures var s := Loaded(elos, m.before, m.after, k); Eligibles(s, |s|) == |Players(elos, m, k)|
  {
    hide Plays;
    if k == 0 {
      assert Players(elos, m, 0) == {};
    } else {
      PlayersCounted(elos, m, k - 1);
      var was := Loaded(elos, m.before, m.after, k - 1);
      NextPlayer(elos, m, k);
      if m.after[k - 1].name in elos {
        var p := Loaded(elos, m.before, m.after, k)[|was|];
        assert Loaded(elos, m.before, m.after, k) == was + [p];
        EligiblesAppend(was, [p], 1);
        assert Eligibles([p], 1) == if p.Eligible() then 1 else 0;
        PlaysWhenEligible(elos, m, k - 1);
      } else {
        assert Loaded(elos, m.before, m.after, k) == was;
      }
    }
  }

  lemma NextPlayer(elos: Elos, m: Match, k: nat)
    requires 0 < k <= |m.after|
    ensures |Players(elos, m, k)| == |Players(elos, m, k - 1)| + (if Plays(elos, m, k - 1) then 1 else 0)
    ensures Plays(elos, m, k - 1) ==> m.after[k - 1].name in elos
  {
    var more: set<int> := if Plays(elos, m, k - 1) then {k - 1} else {};
    assert Players(elos, m, k) == Players(elos, m, k - 1) + more;
  }

  /** A client is marked exactly when it plays, as one of four or more, in a vanilla game
      that is not a new one, between one minute and half an hour after the last look. */
  lemma MarkedWhen(elos: Elos, m: Match, k: nat)
    requires k < |m.after| && m.after[k].name in elos
    ensures Slots(elos, m)[SlotOf(elos, m, k)].isRankable <==>
      && Plays(elos, m, k) && |Players(elos, m, |m.after|)| >= 4
      && m.vanilla && m.seenBefore != 0 && 60 <= m.seenAfter - m.seenBefore <= 1800
      && !IsNewGame(Padded(Loaded(elos, m.before, m.after, |m.after|)))
  {
    var s := Loaded(elos, m.before, m.after, |m.after|);
    hide IsNewGame, Plays, FindClient, Players;
    SlotLoaded(elos, m, k);
    PlaysWhenEligible(elos, m, k);
    PlayersCounted(elos, m, |m.after|);
    PaddingEligible(s);
  }

  lemma PaddingEligible(s: seq<Player>)
    requires |s| <= MAX_CLIENTS
    ensures Eligibles(Padded(s), MAX_CLIENTS) == Eligibles(s, |s|)
  {
    var t := seq(MAX_CLIENTS - |s|, _ => EMPTY_SLOT);
    EligiblesAppend(s, t, |t|);
    EmptySlotsEligible(t, |t|);
  }

  /** A marked slot is that of a client, with its latest Elo and what it was before. */
  lemma MarkedIsClient(elos: Elos, m: Match, i: nat) returns (k: nat)
    requires i < MAX_CLIENTS && Slots(elos, m)[i].isRankable
    ensures Plays(elos, m, k) && SlotOf(elos, m, k) == i
    ensures var p := Slots(elos, m)[i];
            && p.name == m.after[k].name && p.elo == elos[p.name] && p.after == Some(m.after[k])
            && p.before.Some? && p.before.value.name == p.name && IsFirst(m.before, p.before.value)
  {
    var s := Loaded(elos, m.before, m.after, |m.after|);
    k := SlotHasClient(elos, m, |m.after|, i);
    SlotLoaded(elos, m, k);
    PlaysWhenEligible(elos, m, k);
    FoundFirst(m.before, m.after[k].name);
  }

  lemma MarkedPlayed(elos: Elos, m: Match)
    ensures forall p :: p in Slots(elos, m) && p.isRankable ==> p.before.Some? && p.after.Some?
  {
  }

  /** The player whose score rose more than those of all the others gains 2 points at
      least, and the one whose score rose less than those of all the others loses 2. */
  lemma MatchWinner(g: real, elos: Elos, m: Match, i: nat)
    requires IsRoot(g) && IsLast(Slots(elos, m), i)
    ensures var s, later := Slots(elos, m), ApplyAtOnce(g, elos, Ranked(m));
            && s[i].before.Some? && s[i].after.Some? && s[i].name in later
            && (forall j :: 0 <= j < |s| && s[j].isRankable ==> s[j].before.Some? && s[j].after.Some?)
            && var rise := s[i].after.value.score - s[i].before.value.score;
               && ((forall j :: 0 <= j < |s| && j != i && s[j].isRankable ==>
                      rise > s[j].after.value.score - s[j].before.value.score) ==>
                     later[s[i].name] >= elos[s[i].name] + 2)
               && ((forall j :: 0 <= j < |s| && j != i && s[j].isRankable ==>
                      rise < s[j].after.value.score - s[j].before.value.score) ==>
                     later[s[i].name] <= elos[s[i].name] - 2)
  {
    var s := Slots(elos, m);
    MarkedPlayed(elos, m);
    MatchWrites(g, elos, m);
    hide Slots, ApplyAtOnce, NewElo;
    var rise := s[i].after.value.score - s[i].before.value.score;
    if forall j :: 0 <= j < |s| && j != i && s[j].isRankable ==>
         rise > s[j].after.value.score - s[j].before.value.score {
      WinnerGains(g, s, i);
    }
    if forall j :: 0 <= j < |s| && j != i && s[j].isRankable ==>
         rise < s[j].after.value.score - s[j].before.value.score {
      LoserLoses(g, s, i);
    }
  }

  /** Of two players at equal Elo, the greater rise gives no smaller Elo. */
  lemma MatchEquals(g: real, elos: Elos, m: Match, a: nat, b: nat)
    requires IsRoot(g) && IsLast(Slots(elos, m), a) && IsLast(Slots(elos, m), b)
    requires elos[Slots(elos, m)[a].name] == elos[Slots(elos, m)[b].name]
    ensures var s, later := Slots(elos, m), ApplyAtOnce(g, elos, Ranked(m));
            && s[a].name in later && s[b].name in later
            && s[a].before.Some? && s[a].after.Some? && s[b].before.Some? && s[b].after.Some?
            && (s[a].after.value.score - s[a].before.value.score >= s[b].after.value.score - s[b].before.value.score ==>
                  later[s[a].name] >= later[s[b].name])
  {
    MarkedPlayed(elos, m);
    MatchWrites(g, elos, m);
    var s := Slots(elos, m);
    if s[a].Change() >= s[b].Change() {
      MatchKeepsOrder(g, elos, m, a, b);
    }
  }
}
