# Teerank: polling, ranking, parsing

Teerank keeps a ranking of Teeworlds players. An updater polls game servers and the masters
that list them, works out Elo points from consecutive states of a server, and recomputes
ranks from time to time; web pages show the outcome. This project models that behaviour in
Dafny and proves what it is meant to guarantee.

* **Polling.** `EntryList`, `Pool`, `Scheduler` and `Netclients` have the static arrays, list
  heads and pointers of the C files and are changed in place; `Updater` is the event loop
  that moves clients between them. `PoolModel` is the pool as a value, a log of events: the
  pool object keeps such a log, so a fact about every legal log is a fact about every run.
  `Places` says in terms of values where clients are, who survives, which jobs were started
  and what becomes of polls; `Sends` reads off the log what was sent, and to whom. `World`
  supplies clocks, packets, send outcomes and random numbers, any value at each call, and
  remembers what was sent, received and looked up. `Backoff` has the dates.
* **Ranking.** `Truncation`, `Elo`, `Game`, `NewGame` and `Marking` have the arithmetic and the
  player array, and `Vanilla` tells which servers run a ranked game. `RankOrder` and
  `RankStore` have the tables as values driven by a log of operations, and `Database` the
  statements that change them. `Report` goes from a packet to the ranking.
* **Parsing and printing.** `CString`, `Unpacker`, `InfoPacket`, `Url`, `Address`, `ServerList`.
* **Graphs.** `Axes`, `Graph`.

A floating point power is only ever taken at a whole number of Elo points over 400. It is
modelled as a whole power of the 400th root of ten, in exact arithmetic; `Elo.IsRoot` says
that a real number is that root. Integer division and conversion truncate toward zero as in C.

Where the code and its comments differ, the model follows the code:

* a request expires a full second after it was sent, not after 999 ms, since the elapsed
  time is divided as an integer first (`Pool.OverdueAfterASecond`);
* the check against loading a player twice looks past the loaded slots, so it never strikes
  (`RankStore.LoadedOnce`, `RankStore.DuplicateLoaded`);
* an IPv6 address may stop anywhere, even at once, so the empty IP is valid but does not
  survive being joined and parsed (`Address.FullOrBeginning`, `Address.ParseAfterJoin`);
* port 65535 is refused, and so is an IPv6 address with a byte below 16, which is printed
  with a space in it (`Address.RawAddressSurvives`);
* score totals are divided as unsigned numbers: beside a total that is not negative, a
  negative old one always makes a new game, and a negative new one never does
  (`NewGame.ToldRight`).

## Model

| member | source | states |
|---|---|---|
| `PoolModel.LegalKeepsWellFormed` | update/pool.c:71-218 | after every run the three lists are free of repeats and disjoint, at most 25 entries are pending, retries stay in 0..2, and only entries that used up their retries are failed |
| `PoolModel.ApplyKeepsWellFormed` | update/pool.c:71-150 | each event keeps that, and only an addition, a removal or giving up changes which entries the pool holds |
| `PoolModel.SendAccounting` | update/pool.c:87-113 | over every run, send attempts since the last addition equal the retries of an idle entry, the retries plus one of a pending entry, and three for a failed one; nothing is ever sent more than three times per addition |
| `PoolModel.PolledMeansAnswered` | update/pool.c:196-199 | the polled mark of an entry says whether it was answered since it was added |
| `PoolModel.NothingLost` | update/pool.c:71-218 | the lists together hold exactly as many entries as were added and not yet handed back |
| `PoolModel.ServedInOrder` | update/pool.c:71-125 | over every continuation of every run, an idle entry is not sent before one it waits behind |
| `PoolModel.RetryWaitsBehindIdle` | update/pool.c:87-95 | an entry that comes back to the idle list waits behind all entries already idle |
| `PoolModel.AttemptMeasures` | update/pool.c:121-125 | each attempt lowers the sum over idle entries of 3 - retries, whether sending works or not; a failed one also uses up one of all chances left |
| `PoolModel.OverdueMeasures` | update/pool.c:140-149 | each expiry uses up exactly one of the chances left in the idle and pending lists |
| `PoolModel.PassMeasures` | update/pool.c:228-246 | whatever attempts and expiries a pass makes, the chances left go down, or stay while the idle list gets shorter by every one of them |
| `PoolModel.SweepOutcome` | update/pool.c:140-149 | the walk that moves the very node it stands on to another list has the outcome of sorting out all late entries at once, for every set of late entries |
| `PoolModel.SweptStep` | update/pool.c:61-69 | looking at one more pending entry turns the outcome for k entries into the one for k + 1 |
| `PoolModel.WalkedOutcome` | update/pool.c:140-149 | a completed walk has logged exactly the expiries of the late entries, in list order |
| `PoolModel.GaveUpOutcome` | update/pool.c:230-233 | an entry given up had exactly three attempts and leaves the pool; the others stay |
| `PoolModel.GotAnswerOutcome` | update/pool.c:235-241 | an entry that is returned with a packet is still pending, and no entry leaves the pool |
| `Sends.OneRequestAnAttempt` | update/pool.c:97-113 | the requests that went out for an entry since it was added are as many as the attempts counted in the log |
| `Sends.CallTraced` | update/pool.c:220-249 | over the whole log, a call of the pool adds the requests of its attempts to those that went out, and every request for an entry had the address and request the entry still has |
| `Sends.ThreeRequests` | update/pool.c:87-113 | an entry given up was sent its own request to its own address, three times since it was added |
| `Sends.SweepSendsNothing` | update/pool.c:127-150 | the expiry walk sends nothing |
| `EntryList.EntryList.Insert` | update/pool.c:25-41 | the list is well linked both ways afterwards and has the entry at its head |
| `EntryList.EntryList.Remove` | update/pool.c:43-59 | the list is well linked both ways afterwards and has lost exactly that entry, wherever it stood |
| `Pool.OverdueAfterASecond` | update/pool.c:141-144 | a request is overdue exactly when a whole second of ticks has passed: integer division comes before the comparison with 999 ms |
| `Pool.CheckOverdue` | update/pool.c:141-144 | the test of the walk computes just that |
| `Pool.Pool.AddPoolEntry` | update/pool.c:71-85 | the entry is at the head of the idle list with no retries, its own address and request; the data of every other entry is as before, lists stay well linked, and nothing is sent |
| `Pool.Pool.EntryExpired` | update/pool.c:87-95 | an expired entry is failed or idle again with one more retry, as the model says |
| `Pool.Pool.AddPendingEntry` | update/pool.c:97-113 | the request of the last idle entry was sent to its address, and nothing else was sent; it is pending with the time it was sent at or, when sending failed, idle again or failed, as the model says |
| `Pool.Pool.RemovePoolEntry` | update/pool.c:115-119 | the entry leaves the pending list, and the count of pending entries follows |
| `Pool.Pool.FillPendingList` | update/pool.c:121-125 | ends with an empty idle list or a full window; each attempt in the log is one request sent to the address of its entry, in order, and nothing else is sent |
| `Pool.Pool.WalkPending` | update/pool.c:140-149 | the walk over the linked list, which moves nodes as it goes, is a walk of the model |
| `Pool.Pool.CleanExpiredPendingEntries` | update/pool.c:127-150 | exactly the entries a second or more old leave the pending list; nothing is sent |
| `Pool.Pool.GetPendingEntry` | update/pool.c:185-202 | the first pending entry with that address, marked as polled and with its time renewed, or NULL when there is none; targets and the rest of the lists are as before, and nothing is sent |
| `Pool.Pool.NextFailedEntry` | update/pool.c:204-218 | the head of the failed list after expiry and refill, or NULL when nothing has failed |
| `Pool.Pool.TryPoll` | update/pool.c:228-246 | one pass: it returns an entry, finds the pool empty, or makes progress; a packet returned is the last one received, and its entry the first pending one with the address it came from; what is sent are the requests of the attempts logged |
| `Pool.Pool.PollUntilDone` | update/pool.c:228-246 | the loop of passes ends, by chances left, idle entries, packets and ticks to the next expiry, though a wait that brings a packet may take no time; it keeps what a pass says of sends and of the packet and its sender |
| `Pool.Pool.PollPool` | update/pool.c:220-249 | NULL exactly when the pool is empty; the requests sent are those of the attempts logged, and no others; a failure is out of the pool, and the requests that went out for it since it was added are three, each its own to its own address; an answered entry is still pending and is the first pending one with the address that the last packet received came from |
| `Scheduler.InsertKeepsSorted` | update/scheduler.c:12-22 | inserting before the first job that is not earlier keeps the list sorted by date |
| `Scheduler.PlaceIsUnique` | update/scheduler.c:14-17 | there is only one such place |
| `Scheduler.Scheduler.FindPlace` | update/scheduler.c:14-17 | the pointer walk stops there |
| `Scheduler.Scheduler.Schedule` | update/scheduler.c:12-22 | the job is added at that place with its date, and every other job keeps its date and order |
| `Scheduler.Scheduler.WaitingTime` | update/scheduler.c:24-32 | 0 exactly when there is no job or the first is due; otherwise sleeping that long from now reaches its date |
| `Scheduler.Scheduler.NextSchedule` | update/scheduler.c:34-45 | hands out the first job, never before its date, and NULL only when no job is due |
| `Netclients.Netclients.FreeAtFirst` | update/netclient.c:10-22 | at first all 4096 slots are free |
| `Netclients.Netclients.Init` | update/netclient.c:10-22 | the first call links every slot into the free list, later ones change nothing |
| `Netclients.Netclients.NewNetclient` | update/netclient.c:24-39 | takes the first free slot, NULL exactly when none is free |
| `Netclients.Netclients.AddNetclient` | update/netclient.c:41-74 | the node and service of the client are looked up exactly when a slot is free; a slot is taken exactly when the lookup has an answer too, and then holds that client and that address; clients in other slots are as before |
| `Netclients.Netclients.RemoveNetclient` | update/netclient.c:76-80 | the slot is free again, and the next to be taken |
| `Backoff.ExpireInRange` | update/main.c:43-50 | the date is within the given distance of the one asked for, for every random number |
| `Backoff.FailureMovesAway` | update/main.c:52-77 | after a failed poll the next one is 300 to 7200 s away, and the distance from the last answer grows by at least its own size while that is 7200 s or less |
| `Backoff.GivenUpAfterADay` | update/main.c:137-143 | elapsed_days() is 1 or more exactly when the client was seen once, a day ago or more |
| `Backoff.SilentDistance` | update/main.c:145-157 | n failures after an answer, the next poll is at least the n-th value of an explicit table away from it |
| `Backoff.SilentClientIsGivenUp` | update/main.c:145-157 | a server that is silent after an answer survives at most sixteen failed polls, whatever the poll dates and random numbers |
| `Backoff.SixteenFailuresHappen` | update/main.c:145-157 | it can survive that many: for each n up to sixteen there are poll dates under which it is still there |
| `Updater.Updater.constructor` | update/netclient.c:8-13 | before anything is loaded every slot is free and nothing is scheduled |
| `Updater.Updater.ExactlyOnePlace` | update/main.c:321-376 | in every valid state each of the 4096 slots is in exactly one of: free list, scheduler, idle, pending, failed, or the hands of the running handler |
| `Updater.Updater.AllClientsScheduled` | update/main.c:343-372 | at the head of the main loop a slot is free exactly when it is not scheduled |
| `Updater.Updater.AddToPool` | update/main.c:297-312 | the client in hand becomes the newest idle entry, with the request of its kind, and the partition is kept |
| `Updater.Updater.HandleServerPacket` | update/main.c:106-135 | the server leaves the pool and is scheduled, seen now; the packet decides whether it runs a ranked game, and by that it is due in 5 minutes give or take 30 s, or in an hour give or take 5 minutes; nothing else changes about any client |
| `Updater.Updater.HandleServerTimeout` | update/main.c:145-158 | the server is given up when it was last seen a day ago or more, and only then: its slot is free and its name not known any more; otherwise it is due in 300 to 7200 s; after sixteen counted failures it is given up |
| `Updater.Updater.ReferenceServer` | update/main.c:191-229 | the name is in the table afterwards; it is looked up exactly when it was not and a slot is free, and a client of that name, never seen and due at once, is scheduled exactly when this lookup has an answer; all other clients are as before |
| `Updater.Updater.HandleMasterPacket` | update/main.c:231-241 | for every record of the packet there is a name in the table that says what its bytes do, and every new name says what some record does; each new name has a scheduled client, due at once, or its lookup during the call had no answer, or no slot is left; clients there were keep their dates and slots |
| `Updater.Updater.HandleMasterTimeout` | update/main.c:243-262 | the master is scheduled: seen now and due in 4 to 6 minutes if it answered since it was added, and not seen and due in 300 to 7200 s otherwise; nothing else changes about it or any other client |
| `Updater.Updater.PollClient` | update/pool.c:220-249 | NULL exactly when no client is in the pool; a client that failed was sent its request three times and is in the hands of the caller; one that answered is the first pending one with the sender of the packet; no other client is answered by the call |
| `Updater.Updater.Handle` | update/main.c:264-281 | whichever handler runs, the poll of the client has its outcome: a server that failed is given up or scheduled again, one that answered is seen and scheduled, a master that answered has all names of its packet known, one that timed out is scheduled, seen if it answered; outcomes of others stay, each slot stays in one place, and every client stays one unless it is a server given up |
| `Updater.Updater.ServerAnswered` | update/main.c:106-135 | the poll of a server that answered ends: it left the pool, was seen, and is scheduled four minutes or more later |
| `Updater.Updater.ServerTimedOut` | update/main.c:145-158 | the poll of one that did not ends: it is given up, and its name not known any more, or scheduled four minutes or more later |
| `Updater.Updater.MasterAnswered` | update/main.c:231-241 | the poll of a master that answered goes on, and all names of its packet are known |
| `Updater.Updater.MasterTimedOut` | update/main.c:243-262 | it ends in the end: the master is scheduled four minutes or more later, seen if it answered since it was added |
| `Updater.Updater.PollAndHandle` | update/main.c:361-362 | one turn of the inner loop sees to what the pool returned, whichever client it is, and keeps the outcomes of earlier polls; it also takes a client out of the pool or uses up a packet, or finds the pool empty |
| `Updater.Updater.DrainPool` | update/main.c:361-362 | the inner loop ends, with an empty pool, and every poll has had its outcome; every client stays one unless it is a server that was given up meanwhile, and no master is |
| `Updater.Updater.StartDueJobs` | update/main.c:346-351 | all jobs that are due leave the scheduler, and no others; each client among them was added to the pool and is there, the pool gains nobody else, and no other client moves; a due rank job is noted |
| `Updater.Updater.RankWhenDue` | update/main.c:364-368 | a noted rank job is scheduled again in five minutes, once; otherwise its date is as before |
| `Updater.Updater.Turn` | update/main.c:343-372 | one turn of the main loop: every client that was due has been added to the pool in it, and is given up or scheduled at a date four minutes or more after the turn began, and was seen if it answered; every server a master announced is known unless given up since; every client stays one unless it is a server given up in the turn; at its end the pool is empty, every slot is free or scheduled, and the rank job is scheduled once, five minutes from now if it was due |
| `Updater.Updater.Update` | update/main.c:321-376 | any number of turns: every client stays one unless it is a server given up in one of them, and at the head of the loop the pool is empty and every slot free or scheduled |
| `Updater.Updater.LoadNetclients` | update/main.c:160-189 | every row becomes a scheduled client with its dates in a slot of its own, or is left out because its lookup during the call had no answer or no slot is left; a name is in the table of servers exactly when a server row has it |
| `Elo.PowAtLeast` | update/rank.c:254 | Bernoulli: a power of the root is at least linear in the exponent |
| `Elo.RootIsSmall` | update/rank.c:254 | the 400th root of ten exceeds 1 by at most 9/400 |
| `Elo.Symmetric` | update/rank.c:246-255 | the expected results of the two players add up to 1 |
| `Elo.Range` | update/rank.c:246-255 | the expected result is between 1/11 and 10/11 |
| `Elo.Lipschitz` | update/rank.c:246-255 | it grows with the lead, by at most 9/1600 a point |
| `Elo.Odds` | update/rank.c:246-255 | the odds are ten to the power of the lead over 400, and the lead counts for 400 points at most |
| `Elo.DeltaAntisymmetric` | update/rank.c:257-279 | what one player of a pair gains, the other loses, truncation included |
| `Elo.DeltaBound` | update/rank.c:257-279 | no pair moves a player by more than 22 points |
| `Elo.DeltaOrder` | update/rank.c:257-279 | against a third player, a better one who did no worse gets at least as much as the other, less their distance |
| `Elo.DeltaHeadToHead` | update/rank.c:257-279 | against each other, the better one who did no worse loses at most half their distance |
| `Game.OrderPreserved` | update/rank.c:281-309 | after averaging, a player who is ahead and does no worse stays ahead |
| `Game.GainBound` | update/rank.c:281-309 | no game moves a player by more than 22 points |
| `Game.GainNearTotal` | update/rank.c:290-309 | the gain is the average of what the opponents gave, cut toward zero |
| `Game.EqualElo` | update/rank.c:257-279 | at equal Elo the player whose score rose more gets 12 points of the other, and nobody gets any when scores rose alike |
| `Game.EloFormula` | update/rank.c:246-279 | the points of a pair are 25 times the result less the expected one, cut toward zero, where the expected result has the odds of ten to the power of the lead over 400 |
| `Game.WinOrLoss` | update/rank.c:257-279 | at any Elo the one whose score rose more gets 2 to 22 points, the other loses as many, and equal rises move 10 points at most |
| `Game.WinnerGains` | update/rank.c:281-309 | a player whose score rose more than that of every opponent gains 2 points or more |
| `Game.LoserLoses` | update/rank.c:281-309 | one whose score rose less than that of every opponent loses 2 points or more |
| `Game.TotalsCancel` | update/rank.c:281-306 | before averaging, the totals of a game add up to 0 |
| `Game.DriftBound` | update/rank.c:281-309 | after averaging, the points of a game drift by at most the number of players less two |
| `Marking.NoneOrFour` | update/rank.c:224-236 | nobody is marked or at least four players are, and so every marked player has three opponents or more |
| `Marking.MarkRankablePlayers` | update/rank.c:192-244 | all loaded players with an old score that are in the game are marked, or none, by the five conditions, a new game among them |
| `NewGame.CheckNewGame` | update/rank.c:163-190 | the loop finds a new game by the averages of those who stayed: totals divided as unsigned 32-bit numbers and rounded to float |
| `NewGame.ToldRight` | update/rank.c:163-190 | for totals below 2^24 in size of which one at least is not negative: the test tells whether the average dropped by more than 3 exactly when the old total is not negative and, if it did drop, the new one is not either |
| `NewGame.DroppedScores` | update/rank.c:163-190 | it is a new game when everybody who stayed lost four points or more |
| `NewGame.KeptScores` | update/rank.c:163-190 | it is the same game when nobody who stayed lost points, or nobody stayed |
| `NewGame.NegativeTotals` | update/rank.c:183-190 | for two negative totals above -2^24: the test tells exactly whether the quotients round to different floats, the old one to the greater, and floats are 16 or more apart there |
| `NewGame.DropMissed` | update/rank.c:183-190 | so a drop from -1 to -100 is missed |
| `NewGame.NewGameMadeUp` | update/rank.c:183-190 | and one from -128 to -129 is taken for a new game |
| `Marking.ComputeNewElo` | update/rank.c:290-309 | the loop computes the average of the pairwise deltas over the other marked slots |
| `RankOrder.BeforeTransitive` | core/player.h:30-31 | the order of the ranking is transitive |
| `RankOrder.BeforeTotal` | core/player.h:30-31 | it orders any two players, one way only |
| `RankOrder.AheadByColumns` | core/player.h:30-31 | who is ahead has more Elo, or as much and was seen later, or as late and has the name that comes after byte by byte |
| `RankOrder.RankIsPlace` | core/player.h:30-31 | a smaller rank and an earlier place are the same, and no rank is given twice |
| `RankOrder.PlaceIsRank` | update/rank.c:446-449 | the row number of an ordered query is one more than the number of players ahead |
| `RankOrder.SelectByElo` | update/rank.c:430-433 | the answer to the query has every player, once; along it Elo goes down, dates go down where Elo is equal, and names where dates are too |
| `RankStore.LoadedOnce` | update/rank.c:139-141 | players are loaded without repeats exactly when no known name is announced twice: the check against duplicates is void |
| `RankStore.DuplicateLoaded` | update/rank.c:139-141 | a name announced twice is loaded twice |
| `RankStore.WrittenShows` | update/rank.c:345-358 | writing new Elos to the pending table changes the effective Elos as writing them at once would |
| `RankStore.StepRefines` | update/rank.c:370-408 | every operation acts on the effective Elos like its immediate counterpart |
| `RankStore.DelayedRefinesImmediate` | update/rank.c:28-37 | over every run, delayed commit yields the effective Elos of immediate commit, and only known players have pending ones |
| `RankStore.RecomputeCommits` | update/rank.c:370-408 | recomputing leaves the effective Elos as they are, makes them the stored ones, and empties the pending table |
| `RankStore.RecomputeRanksRight` | update/rank.c:417-449 | recomputing ranks every player: it gives out the ranks 1 to the number of players, each once, in the order of the Elos |
| `RankStore.RecomputedRanksFollow` | update/rank.c:417-449 | ranks follow the columns: more Elo gives the smaller rank, then the later date, then the name that comes after |
| `RankStore.RanksAlwaysRight` | update/rank.c:28-37 | in every state of every run, ranks are exactly 1 to the number of ranked players, and a smaller one never goes with fewer points |
| `RankStore.SeenKeepsRanks` | update/main.c:79-104 | seeing or creating a player keeps the ranks right |
| `RankStore.MatchOutcome` | update/rank.c:361-368 | whatever names are announced: players move by 22 points at most, nobody who is not marked moves, and all points together drift by at most the number of marked slots less two, and 22 more for each marked slot that a later one of the same player overrides |
| `RankStore.NothingOverridden` | update/rank.c:361-368 | no slot is overridden when no known name is announced twice |
| `RankStore.MatchKeepsOrder` | update/rank.c:361-368 | whatever names are announced: of two players, the one who is ahead and does no worse in the slots that count stays ahead |
| `RankStore.FoundFirst` | update/rank.c:65-74 | the old client of a player is the first one of that name, and none only when there is none |
| `RankStore.MarkedWhen` | update/rank.c:192-244 | a client is marked exactly when it is known, was there before, is in game, four or more are, the game is vanilla and not a new one, and 60 to 1800 seconds have passed since an earlier look |
| `RankStore.MarkedIsClient` | update/rank.c:119-153 | a marked slot holds a client of the packet, with the latest Elo of that name and the first old client of that name |
| `RankStore.MatchWinner` | update/rank.c:361-368 | of the players of a match, whose score rose more than all the others gains 2 points or more, and whose score rose less loses 2 or more |
| `RankStore.MatchEquals` | update/rank.c:361-368 | of two players at equal Elo, the one whose score rose more, or as much, has no fewer points afterwards |
| `Database.Database.UpdatePlayers` | update/main.c:79-104 | every client is a known player afterwards, with the clan announced and a date of now; known ones keep points and rank, new ones have 1500 points and no rank, others are as before; operations are logged one a client |
| `Database.Database.IsAlreadyLoaded` | update/rank.c:76-86 | whether a slot at or after the cursor is loaded with that name |
| `Database.Database.LoadPlayers` | update/rank.c:119-153 | the array holds the known clients in order, with their latest Elo, and empty slots after them |
| `Database.Database.GetLatestElo` | update/rank.c:100-117 | the effective Elo |
| `Database.Database.UpdateElos` | update/rank.c:335-359 | the pending table gets the new Elo of every marked slot |
| `Database.Database.RankPlayers` | update/rank.c:361-368 | the tables after a match are those of the model, and the effective Elos those that writing at once would give |
| `Database.Database.ApplyPendingElo` | update/rank.c:370-386 | stored Elos become the effective ones |
| `Database.Database.WriteRanks` | update/rank.c:446-449 | every player gets the rank that is one more than the number of players ahead |
| `Database.Database.RecordChanges` | update/rank.c:388-408 | every player with a pending Elo gets a record of its stored Elo and rank; every record that is new or changed is of such a player, of this very content and dated now; older records stay, the pending table is empty |
| `Database.Database.RecordEloAndRank` | core/player.c:75-94 | one record, with the stored Elo and rank |
| `Database.Database.RecomputeRanks` | update/rank.c:417-453 | commits, ranks, records and flushes, in this order: effective Elos unchanged, every player ranked by Elo, date and name, ranks 1 to the number of players, clans and dates as before; every player with a pending Elo gets a record, and every record that is new or changed is one, equal to the committed Elo and the new rank |
| `Vanilla.IsVanillaCtf` | core/server.c:15-34 | game type CTF, a map from ctf1 to ctf7, at most 16 clients |
| `Vanilla.VanillaMeans` | core/server.c:15-34 | byte by byte: CTF, ctf1 to ctf7, and sixteen places at most |
| `Vanilla.RankedByRecord` | update/main.c:106-135 | whether the next poll is soon is decided by the record that the packet leaves, and stays as it was when the packet is not accepted |
| `Report.HandleReport` | update/main.c:116-126 | a packet that is not acceptable ranks nothing, and changes the record only when it goes past the array; any other makes all its clients known and ranks exactly the match between old and new clients |
| `InfoPacket.PrintedReads` | update/unpacker.c:100-161 | a record printed field by field is accepted and comes back: its strings cut to their buffers, its counts, and every client with name, clan, score and flag; slots past the last client are as before |
| `InfoPacket.PrintedRanked` | update/main.c:106-135 | such a packet makes the next poll a soon one exactly when it announces a vanilla CTF game |
| `Unpacker.Packet.SkipHeader` | update/packet.c:173-187 | succeeds exactly on packets that start with the header, and leaves what follows it |
| `Unpacker.FieldsSplit` | update/unpacker.c:30-63 | the fields, each followed by a NUL, and a rest without NUL make up the payload |
| `Unpacker.FieldsHaveNoNul` | update/unpacker.c:30-63 | no field contains a NUL |
| `Unpacker.FieldsOfJoined` | update/unpacker.c:30-63 | fields without NUL, put together, come apart as they were |
| `Unpacker.Unpacker.CanUnpack` | update/unpacker.c:30-43 | true exactly when that many fields are left |
| `Unpacker.Unpacker.Unpack` | update/unpacker.c:45-63 | returns the first field left and keeps the others; the offset stays within the packet |
| `Unpacker.UnpackClients` | update/unpacker.c:142-155 | succeeds exactly when the announced number is not negative and the fields of all announced clients are there, and then fills their slots only; goes past the array exactly when the number is negative and the fields of seventeen clients are there |
| `Unpacker.UnpackServerInfo` | update/unpacker.c:100-161 | succeeds exactly on acceptable packets, with the fields cut to their buffers and 0 <= num_clients <= max_clients <= 16; goes past the array exactly on a negative count that is not above an admissible maximum, with the fields of seventeen clients or more; otherwise the record is as before, however far the reading got |
| `Unpacker.OverrunHappens` | update/unpacker.c:134-155 | there is a packet that makes it go past the array |
| `Unpacker.RecordsAt` | update/unpacker.c:163-166 | there are as many records as 18 bytes fit, the k-th at byte 18k |
| `Unpacker.AddrList.UnpackServerAddr` | update/unpacker.c:220-252 | the next record, until there is none |
| `Address.RecordDenotes` | update/unpacker.c:181-218 | the text of a record says what its bytes do: the four numbers of a mapped IPv4 address or the sixteen bytes of any other, and the port in network order |
| `ServerList.ListAnnounces` | update/unpacker.c:220-252 | the names printed for a list packet are those of its records, every one of them and no others |
| `Url.DecodeAfterEncode` | cgi/cgi.c:82-161 | decoding the escaped form gives back every byte string |
| `Url.EncodingIsEscaped` | cgi/cgi.c:51-106 | the escaped form has only unreserved characters and percent signs with two upper-case digits (sections 2.1 and 2.3 of RFC 3986) |
| `Url.RoundTrip` | cgi/cgi.c:82-161 | what comes back through the buffer is a prefix of the string, and all of it exactly when the escaped form has at most 1023 bytes |
| `Url.CutOrWhole` | cgi/cgi.c:86-100 | nothing is cut exactly when the escaped form and its NUL fit |
| `Url.EscapedWhen` | cgi/cgi.c:51-106 | letters, digits and four marks stay as they are; every other byte becomes a percent sign and its two digits in upper case |
| `Url.EscapesDecode` | cgi/cgi.c:108-161 | any two hexadecimal digits, in either case, are read as the byte they denote |
| `Url.StrayDigits` | cgi/cgi.c:108-135 | a character that is no hexadecimal digit counts as 0 |
| `Url.OthersDecode` | cgi/cgi.c:137-161 | a plus is read as a space, every other character as itself, and an escape that is cut off as nothing |
| `Url.UrlEncode` | cgi/cgi.c:82-106 | the buffer holds the escaped form of the longest prefix that fits, no escape being split |
| `Url.UrlDecode` | cgi/cgi.c:137-161 | the string is replaced in place by its decoding; nothing after it is touched |
| `CString.DecimalScans` | update/unpacker.c:193-211 | a number printed with %u is read back, up to what follows it |
| `CString.NumberBegins` | update/unpacker.c:82-98 | spaces of six kinds and a plus before a number are skipped, and a text that begins otherwise is no number |
| `Address.CheckIpv6` | core/server.c:122-131 | the walk along the pattern accepts exactly the texts that follow it as far as they go |
| `Address.AcceptedIpv4` | core/server.c:113-120 | the accepted IPv4 texts are four numbers below 256 with dots between them, and no others |
| `Address.AcceptedIp` | core/server.c:111-133 | a text with an early dot is accepted as such a quad, and any other as groups of hexadecimal digits between colons that may stop anywhere |
| `Address.AcceptedPort` | core/server.c:135-142 | the accepted ports are the numbers from 0 to 65534, with nothing after them |
| `Address.JoinedText` | core/server.c:169-183 | an IPv4 text is followed by a colon and the port, any other is put in brackets first |
| `Address.FullOrBeginning` | core/server.c:107-110 | the full addresses of eight groups are exactly the accepted texts of 39 characters, and any beginning of an accepted text is accepted, against what the comment says |
| `Address.BuildAddr` | core/server.c:169-183 | the buffer holds the joined text exactly when it fits |
| `Address.Strtok` | core/server.c:150-155 | the token found, and the one byte overwritten |
| `Address.ParseAddr` | core/server.c:144-167 | succeeds exactly when the text splits into a valid IP and port, which are then in the buffer, each ended by a NUL |
| `Address.ParsedAddresses` | core/server.c:144-167 | the texts parsed are an IP and a port with a colon between them, or the IP in brackets and an optional colon; extra delimiters before the IP and one colon before the port are skipped; no other text is parsed |
| `Address.ParseAfterJoin` | core/server.h:118-128 | a valid IP and port survive being joined and parsed exactly when the IP is not empty |
| `Address.DottedScans` | update/unpacker.c:193-196 | the four numbers of a printed IPv4 address are read back |
| `Address.RawAddressSurvives` | update/unpacker.c:181-218 | every raw record fits the buffers when printed and joined; it is parsed back exactly when its port is not 65535 and, for IPv6, no byte is below 16, and refused otherwise; its port and IPv4 numbers are read back in any case |
| `Address.PortScans` | core/server.c:135-142 | a printed port is valid exactly when it is not 65535 |
| `Axes.BestAxesGap` | cgi/page/graph.html.c:117-135 | the largest of 1, 2, 5, 10, 20, 50 ... of which three are less than the range, or 1 |
| `Axes.BestGapUnique` | cgi/page/graph.html.c:108-115 | there is only one such gap |
| `Axes.NumberOfAxes` | cgi/page/graph.html.c:137-154 | the top of the plot is not below the maximum and, unless there are just three axes, the last axis is below it |
| `Axes.BetweenThreeAndEight` | cgi/page/graph.html.c:105-106 | with the best gap there are 3 to 8 axes |
| `Axes.BoundsAreTight` | cgi/page/graph.html.c:105-106 | both 3 and 8 occur |
| `Graph.Dataset.Append` | cgi/page/graph.html.c:22-41 | the minimum and maximum stay those of the values |
| `Graph.ScaleCurve` | cgi/page/graph.html.c:156-181 | a curve stretched to more axes still fits them, with its borders at multiples of its gap, and its padding in halves |
| `Graph.Graph.AddCurve` | cgi/page/graph.html.c:183-223 | after any additions every curve spans (naxes + 1) gaps from a multiple of its gap, contains its data, and has 0 <= padding_top - padding_bottom <= 1; the new one begins less than a gap below its least value and has no padding; there are as many axes as it needs, or as there were if that is more; the first curve keeps its values and gap, and its padding grows by the axes added |
| `Graph.NeverClamped` | cgi/page/graph.html.c:255-293 | no value and no axis of such a curve is changed by the clamp |
| `Graph.OrderIsSeen` | cgi/page/graph.html.c:285-293 | greater values are plotted strictly higher, or lower on a reversed curve |
| `Graph.AxisPlace` | cgi/page/graph.html.c:225-228 | axes are evenly spaced |
| `Graph.AxesAtMultiples` | cgi/page/graph.html.c:225-228 | every axis is at a multiple of the gap |
| `Graph.AxesShared` | cgi/page/graph.html.c:97-103 | the axes of both curves are at the same places |

## Left out

- SQLite, its statements, transactions, indices and failures: tables are maps keyed by their primary keys, and a query over a table is a loop over its keys. Columns for server addresses are not modelled.
- Sockets, poll(), getaddrinfo(), signals, sleep(), rand() and the clocks: `World` gives any outcome. Clocks do not run backwards, each wait that brings no packet takes at least one tick, and finitely many packets arrive while the pool is being drained; without the last two the inner loop need not end.
- Entries of the lists are slots of the static client array, given by index; NULL is an index that no slot has.
- The database side of a turn of the event loop is in `Database` and `Report`; the two sides are not joined into one object.
- Updater.Updater.ReferenceServer: of the table of servers only the keys are kept; updating or forgetting the master of a server is not modelled.
- Updater.Updater.Update: stops after any given number of turns, in place of the signal.
- Updater.Updater.LoadNetclients: the rows of the tables are parameters.
- NewGame.ToldRight: leaves two negative totals to `NewGame.NegativeTotals`; totals of 2^24 and more, where a float need not be exact, are left out.
- NewGame.NegativeTotals: totals of -2^24 and less are left out for the same reason.
- Database.Database.IsAlreadyLoaded: looks at slots up to the end of the array; what lies behind it is not part of this model.
- Database.Database.RecomputeRanks: the verbose timing is not modelled.
- Unpacker.UnpackServerInfo: what becomes of the process after it has gone past the array is not part of this model.
- Updater.Updater.HandleServerPacket: a packet that makes the code go past its array is treated like one that is refused.
- Unpacker.AddrList.UnpackServerAddr: the static pointer into the packet is the rest of the payload as a value.
- Graph.Graph.AddCurve: takes for granted that no value is negative, since the code mixes signed and unsigned there; a curve holds a copy of the values of its dataset; colours, names and dates of points are not modelled.
- Graph.NeverClamped: exact arithmetic in place of float.
- Graph.OrderIsSeen: exact arithmetic in place of float, which may merge values that are close.
- Graph.AxisPlace: exact arithmetic in place of float.
- Graph.AxesShared: exact arithmetic in place of float.
- Axes.NumberOfAxes: takes for granted that no value is negative, for the same reason as `Graph.Graph.AddCurve`.
- Address.ParseAddr: bytes past the end of a string count as NUL.
- The existence of the 400th root of ten among the real numbers is assumed where `Elo.IsRoot` is required.
- Machine overflow: integers are unbounded. The products of `Axes.BestAxesGap` stay in 32 bits for ranges up to 3 * 10^9.
- snprintf(), sscanf(), strtol() and strtok() are modelled as far as they are used; errors they only print are not.
- HTML, JSON and SVG output, CGI pipes and redirects, routing, page navigation and the upgrade program: presentation, or only easy claims.
