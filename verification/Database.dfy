/** The ranking proper: reads and writes the tables, one statement after the other. */
module Database {
  import opened Basics
  import opened World
  import opened Elo
  import opened Game
  import opened Marking
  import opened RankOrder
  import opened RankStore

  datatype Stamp = Stamp(elo: int, rank: nat)

  lemma AppendOne<T>(a: seq<T>, b: seq<T>, x: T)
    ensures (a + b) + [x] == a + (b + [x])
  {
  }

  class Database {
    const world: World
    const root: real          // the 400th root of ten

    var players: Table
    var pending: map<Name, int>
    var history: map<(Name, int), Stamp>
    ghost var log: seq<Op>

    ghost function Now(): State
      reads this
    {
      State(players, pending)
    }

    /** The tables are what the operations so far make of empty ones. */
    ghost predicate Valid()
      reads this
    {
      IsRoot(root) && Now() == Replay(root, log)
    }

    constructor (world: World, root: real)
      requires IsRoot(root)
      ensures Valid() && log == [] && this.world == world && this.root == root
    {
      this.world, this.root := world, root;
      players, pending, history, log := map[], map[], map[], [];
    }

    /** One operation is complete. */
    ghost method Record(op: Op)
      requires IsRoot(root) && Now() == Apply(root, Replay(root, log), op)
      modifies this`log
      ensures Valid() && log == old(log) + [op]
    {
      assert (log + [op])[..|log|] == log;
      log := log + [op];
    }

    // ---- Players -------------------------------------------------------------------

    method CreatePlayer(name: Name, clan: Name) returns (now: int)
      modifies world, this`players
      ensures players == old(players)[name := Row(clan, DEFAULT_ELO, UNRANKED, now)]
      ensures old(world.secs) <= now <= world.secs && world.Onward()
    {
      now := world.Time();
      players := players[name := Row(clan, DEFAULT_ELO, UNRANKED, now)];
    }

    /** A known player keeps points and rank; a new one has 1500 points and no rank. */
    ghost predicate NewOrKept(before: Table)
      reads `players
    {
      && before.Keys <= players.Keys
      && (forall n :: n in before ==> players[n].elo == before[n].elo && players[n].rank == before[n].rank)
      && forall n :: n in players && n !in before ==> players[n].elo == 1500 && players[n].rank == 0
    }

    ghost predicate OthersKept(before: Table, names: set<Name>)
      reads `players
    {
      forall n :: n in before && n !in names ==> n in players && players[n] == before[n]
    }

    method UpdatePlayer(client: Client) returns (ghost now: int)
      requires Valid()
      modifies world, this`players, this`log
      ensures Valid() && log == old(log) + [Seen(client, now)]
      ensures players.Keys == old(players).Keys + {client.name}
      ensures players[client.name].clan == client.clan && players[client.name].lastseen == now
      ensures NewOrKept(old(players)) && OthersKept(old(players), {client.name})
      ensures old(world.secs) <= now <= world.secs && world.Onward()
    {
      if client.name in players {
        var time := world.Time();
        players := players[client.name := players[client.name].(clan := client.clan, lastseen := time)];
        now := time;
      } else {
        now := CreatePlayer(client.name, client.clan);
      }
      Record(Seen(client, now));
    }

    /** Every client of a server becomes a known player, of that clan, and was seen now.  The
        last one counts when a name is announced twice. */
    method UpdatePlayers(clients: Clients) returns (ghost ops: seq<Op>)
      requires Valid()
      modifies world, this`players, this`log
      ensures Valid() && log == old(log) + ops && |ops| == |clients| && world.Onward()
      ensures forall i :: 0 <= i < |clients| ==>
        && ops[i].Seen? && ops[i].client == clients[i] && old(world.secs) <= ops[i].now <= world.secs
      ensures forall i :: 0 <= i < |clients| ==> clients[i].name in players
      ensures forall i ::
        0 <= i < |clients| && (forall j :: i < j < |clients| ==> clients[j].name != clients[i].name) ==>
        && players[clients[i].name].clan == clients[i].clan
        && old(world.secs) <= players[clients[i].name].lastseen <= world.secs
      ensures NewOrKept(old(players)) && OthersKept(old(players), set i | 0 <= i < |clients| :: clients[i].name)
    {
      hide Valid;
      ops := [];
      for i := 0 to |clients|
        invariant Valid() && log == old(log) + ops && |ops| == i && world.Onward()
        invariant forall j :: 0 <= j < i ==>
          && ops[j].Seen? && ops[j].client == clients[j] && old(world.secs) <= ops[j].now <= world.secs
        invariant forall k :: 0 <= k < i ==> clients[k].name in players
        invariant forall k :: 0 <= k < i && (forall j :: k < j < i ==> clients[j].name != clients[k].name) ==>
          && players[clients[k].name].clan == clients[k].clan
          && old(world.secs) <= players[clients[k].name].lastseen <= world.secs
        invariant NewOrKept(old(players)) && OthersKept(old(players), set j | 0 <= j < i :: clients[j].name)
      {
        ghost var now := UpdatePlayer(clients[i]);
        AppendOne(old(log), ops, Seen(clients[i], now));
        ops := ops + [Seen(clients[i], now)];
      }
    }

    // ---- A match -------------------------------------------------------------------

    /** Looks for a loaded slot of that name, from the cursor on. */
    method IsAlreadyLoaded(slots: array<Player>, cursor: nat, name: Name) returns (found: bool)
      requires cursor <= slots.Length
      ensures found <==> exists i :: cursor <= i < slots.Length && slots[i].after.Some? && slots[i].name == name
    {
      for i := cursor to slots.Length
        invariant forall j :: cursor <= j < i ==> slots[j].after.None? || slots[j].name != name
      {
        if slots[i].after.Some? && slots[i].name == name {
          return true;
        }
      }
      return false;
    }

    method GetLatestElo(name: Name) returns (elo: int)
      requires name in players
      ensures elo == Effective(Now())[name]
    {
      if name in pending {
        elo := pending[name];
      } else {
        elo := players[name].elo;
      }
    }

    method LoadPlayers(m: Match, slots: array<Player>)
      requires slots.Length == MAX_CLIENTS && forall i :: 0 <= i < slots.Length ==> slots[i] == EMPTY_SLOT
      modifies slots
      ensures slots[..] == Padded(Loaded(Effective(Now()), m.before, m.after, |m.after|))
    {
      hide Effective, FindClient;
      ghost var elos := Effective(Now());
      EffectiveNames(Now());
      var cursor := 0;
      for i := 0 to |m.after|
        invariant cursor == |Loaded(elos, m.before, m.after, i)|
        invariant forall j :: 0 <= j < cursor ==> slots[j] == Loaded(elos, m.before, m.after, i)[j]
        invariant forall j :: cursor <= j < slots.Length ==> slots[j] == EMPTY_SLOT
      {
        var name := m.after[i].name;
        var already := IsAlreadyLoaded(slots, cursor, name);
        if !already && name in players {
          var elo := GetLatestElo(name);
          slots[cursor] := Player(name, elo, FindClient(m.before, name), Some(m.after[i]), false);
          cursor := cursor + 1;
        }
      }
    }

    /** The new Elos wait in the pending table. */
    method UpdateElos(slots: array<Player>)
      requires root > 1.0 && Playable(slots[..])
      modifies this`pending
      ensures pending == Written(root, old(pending), slots[..], slots.Length)
    {
      for i := 0 to slots.Length
        invariant pending == Written(root, old(pending), slots[..], i)
      {
        if slots[i].isRankable {
          var elo := ComputeNewElo(root, slots, i);
          pending := pending[slots[i].name := elo];
        }
      }
    }

    method RankPlayers(m: Match)
      requires Valid()
      modifies this`pending, this`log
      ensures Valid() && log == old(log) + [Ranked(m)]
      ensures Effective(Now()) == ApplyAtOnce(root, old(Effective(Now())), Ranked(m))
    {
      DelayedRefinesImmediate(root, log);
      StepRefines(root, Now(), Ranked(m));
      var slots := new Player[MAX_CLIENTS](_ => EMPTY_SLOT);
      LoadPlayers(m, slots);
      MarkRankablePlayers(slots, m.vanilla, m.Elapsed());
      assert slots[..] == Slots(Effective(Now()), m);
      UpdateElos(slots);
      Record(Ranked(m));
    }

    // ---- Recomputing ranks ----------------------------------------------------------

    method ApplyPendingElo()
      modifies this`players
      ensures players == Committed(old(Now()))
    {
      var left := pending.Keys;
      while left != {}
        invariant left <= pending.Keys
        invariant players.Keys == old(players.Keys)
        invariant forall n :: n in players ==>
          players[n] == old(players)[n].(elo := if n in pending && n !in left then pending[n] else old(players)[n].elo)
        decreases left
      {
        var n :| n in left;
        left := left - {n};
        if n in players {
          players := players[n := players[n].(elo := pending[n])];
        }
      }
    }

    /** Ranks the rows by their place. */
    method WritePlaces(rows: seq<Name>)
      requires Ordered(players, rows)
      modifies this`players
      ensures players.Keys == old(players.Keys)
      ensures forall k :: 0 <= k < |rows| ==>
        players[rows[k]] == old(players)[rows[k]].(rank := RankOf(old(players), rows[k]))
    {
      ghost var t := players;
      for nrow := 0 to |rows|
        invariant players.Keys == t.Keys
        invariant forall k :: 0 <= k < nrow ==> players[rows[k]] == t[rows[k]].(rank := RankOf(t, rows[k]))
        invariant forall k :: nrow <= k < |rows| ==> players[rows[k]] == t[rows[k]]
      {
        PlaceIsRank(t, rows, nrow);
        forall k | 0 <= k < |rows| && k != nrow
          ensures rows[k] != rows[nrow]
        {
          BeforeTotal(t, rows[k], rows[nrow]);
        }
        players := players[rows[nrow] := players[rows[nrow]].(rank := nrow + 1)];
      }
    }

    method WriteRanks()
      modifies this`players
      ensures players == map n | n in old(players) :: old(players)[n].(rank := RankOf(old(players), n))
    {
      var rows := SelectByElo(players);
      WritePlaces(rows);
    }

    /** A stamp of that name was written to the history between two dates. */
    ghost predicate Stamped(n: Name, from: int, to: int)
      reads `players, `history
    {
      && n in players
      && exists date :: (from <= date <= to
                         && (n, date) in history
                         && history[(n, date)] == Stamp(players[n].elo, players[n].rank))
    }

    /** Since the history was "before", only the given players got new or different stamps.
        Each of these is dated since "from" and says what the player has now, and no stamp
        is lost. */
    ghost predicate OnlyStamped(before: map<(Name, int), Stamp>, names: set<Name>, from: int)
      reads `players, `history, world
    {
      && before.Keys <= history.Keys
      && forall n, date {:trigger (n, date) in history} ::
           (n, date) in history && ((n, date) !in before || history[(n, date)] != before[(n, date)]) ==>
             && n in names && from <= date <= world.secs
             && n in players && history[(n, date)] == Stamp(players[n].elo, players[n].rank)
    }

    /** Everybody whose Elo changed gets a stamp with what they have now; nobody else gets
        one, and older stamps stay. */
    method RecordChanges()
      requires pending.Keys <= players.Keys
      modifies world, this`history, this`pending
      ensures pending == map[] && world.Onward()
      ensures forall n :: n in old(pending) ==> Stamped(n, old(world.secs), world.secs)
      ensures OnlyStamped(old(history), old(pending).Keys, old(world.secs))
    {
      var left := pending.Keys;
      while left != {}
        invariant left <= pending.Keys && pending == old(pending) && world.Onward()
        invariant forall n :: n in pending && n !in left ==> Stamped(n, old(world.secs), world.secs)
        invariant OnlyStamped(old(history), pending.Keys, old(world.secs))
        decreases left
      {
        var n :| n in left;
        left := left - {n};
        RecordEloAndRank(n);
      }
      pending := map[];
    }

    method RecordEloAndRank(n: Name)
      requires n in players
      modifies world, this`history
      ensures world.Onward() && Stamped(n, old(world.secs), world.secs)
      ensures exists date ::
        (old(world.secs) <= date <= world.secs
         && history == old(history)[(n, date) := Stamp(players[n].elo, players[n].rank)])
    {
      var date := world.Time();
      history := history[(n, date) := Stamp(players[n].elo, players[n].rank)];
    }

    method CommitAndRank()
      requires IsRoot(root)
      modifies this`players
      ensures players == Apply(root, old(Now()), Recomputed).players
    {
      ApplyPendingElo();
      WriteRanks();
    }

    /** What the outcome of recomputing is. */
    lemma RecomputedOutcome()
      requires Valid()
      ensures var s, r := Now(), Apply(root, Now(), Recomputed);
              && IsRoot(root) && s == Replay(root, log)
              && s.pending.Keys <= s.players.Keys == r.players.Keys
              && r.pending == map[] && Effective(r) == Effective(s)
              && RanksRight(r.players) && RankedPlayers(r.players) == r.players.Keys && RanksFollow(r.players)
              && forall n :: n in r.players ==>
                   && r.players[n].elo == Effective(s)[n]
                   && r.players[n].clan == s.players[n].clan && r.players[n].lastseen == s.players[n].lastseen
    {
      DelayedRefinesImmediate(root, log);
      RecomputeRanksRight(root, Now());
      RecomputeCommits(root, Now());
      RecomputedRanksFollow(root, Now());
    }

    /** Commits the pending Elos, ranks everybody, and stamps those that changed, and nobody
        else, with the Elo and rank they now have. */
    method RecomputeRanks()
      requires Valid()
      modifies world, this
      ensures Valid() && log == old(log) + [Recomputed] && world.Onward()
      ensures Effective(Now()) == old(Effective(Now())) && pending == map[]
      ensures forall n :: n in players ==> players[n].elo == old(Effective(Now()))[n]
      ensures RanksRight(players) && RankedPlayers(players) == players.Keys == old(players).Keys
      ensures forall n :: n in players ==>
        players[n].clan == old(players)[n].clan && players[n].lastseen == old(players)[n].lastseen
      ensures RanksFollow(players)
      ensures forall n :: n in old(pending) ==> Stamped(n, old(world.secs), world.secs)
      ensures OnlyStamped(old(history), old(pending).Keys, old(world.secs))
    {
      hide Valid, Apply, Replay, Effective, RanksRight, RankedPlayers, IsRoot, OnlyStamped, Stamped, RanksFollow;
      RecomputedOutcome();
      CommitAndRank();
      RecordChanges();
      Record(Recomputed);
    }
  }
}
