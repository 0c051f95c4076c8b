/** The event loop of the updater: clients move between the free list, the scheduler
    and the pool.

    Most methods here only pass on what other methods promise.  They hide the bodies of
    the predicates they do not look into, so that these are not unfolded in vain. */
module Updater {
  import opened Basics
  import opened World
  import opened PoolModel
  import opened EntryList
  import opened Pool
  import opened Scheduler
  import opened Netclients
  import opened Backoff
  import opened Places
  import opened Vanilla
  import opened Sends
  import opened ServerList
  import Unpacker

  class Updater {
    const world: World
    const pool: Pool
    const scheduler: Scheduler
    const clients: Netclients
    var doRecomputeRanks: bool
    var servers: set<(Name, Name)>     // the keys of the table of servers

    /** For a client that answered in this run, its failed polls since. */
    ghost var failures: map<int, nat>

    /** The clients given up in this run. */
    ghost var gone: seq<Gone>

    /** What masters announced in this run. */
    ghost var heard: seq<Heard>

    /** What was sent before this run. */
    ghost const sentBefore: seq<Target>

    ghost predicate Separate() {
      && pool.next != scheduler.date && pool.next != scheduler.next && pool.next != clients.next
      && pool.prev != scheduler.date && pool.prev != scheduler.next && pool.prev != clients.next
      && clients.next != scheduler.date && clients.next != scheduler.next
    }

    ghost function Repr(): set<object> {
      {world, pool, pool.idle, pool.pending, pool.failed, pool.next, pool.prev, pool.data,
       scheduler, scheduler.date, scheduler.next, clients, clients.next, clients.info, clients.addr}
    }

    ghost predicate Parts()
      reads Repr()
    {
      && Separate()
      && pool.Valid() && scheduler.Valid() && clients.Valid()
      && ValidRun(pool.run) && pool.data.Length == MAX_NETCLIENTS
      && scheduler.date.Length == MAX_NETCLIENTS + 1
      && clients.info.Length == clients.addr.Length == MAX_NETCLIENTS
      && world.secs > 0
    }

    /** The entries of the pool. */
    ghost function Pooled(): set<int>
      requires ValidRun(pool.run)
      reads pool
    {
      Members(Now(pool.run))
    }

    /** Every client is in exactly one place. */
    ghost predicate Partition(held: int)
      requires ValidRun(pool.run)
      reads clients, scheduler, pool
    {
      AllPlaced(clients.free, scheduler.queue, Pooled(), held)
    }

    /** A scheduled client is due at its date of expiry, and is not polled before. */
    ghost predicate OnTime()
      requires scheduler.date.Length > MAX_NETCLIENTS && clients.info.Length == MAX_NETCLIENTS
      requires ValidRun(pool.run)
      reads scheduler, scheduler.date, clients.info, pool, world
    {
      && (forall c :: 0 <= c < MAX_NETCLIENTS && c in scheduler.queue ==>
            scheduler.date[c] == clients.info[c].expire)
      && (forall c :: 0 <= c < MAX_NETCLIENTS && c in Pooled() ==> clients.info[c].expire <= world.secs)
    }

    /** A server that answered in this run backs off, and survives sixteen failures. */
    ghost predicate BacksOff(c: int)
      requires clients.info.Length == MAX_NETCLIENTS
      reads `failures, clients, clients.info
    {
      c in failures ==>
        && 0 <= c < MAX_NETCLIENTS && c !in clients.free
        && clients.info[c].kind == ServerKind
        && 0 < clients.info[c].lastseen && failures[c] <= MAX_FAILURES
        && Floor(failures[c]) <= clients.info[c].expire - clients.info[c].lastseen
    }

    ghost predicate AllBackOff()
      requires clients.info.Length == MAX_NETCLIENTS
      reads `failures, clients, clients.info
    {
      forall c :: c in failures ==> BacksOff(c)
    }

    /** The requests that went out in this run are those of the attempts of the pool, each
        to the address of its client. */
    ghost predicate AllSent()
      reads pool, pool.data, world`sent
    {
      pool.Traced() && world.sent == sentBefore + pool.Requests()
    }

    ghost predicate Valid(held: int)
      reads `failures, `gone, Repr()
    {
      Parts() && Partition(held) && OnTime() && AllBackOff() && AllGivenUp(gone) && AllSent()
    }

    /** What the sizes of the arrays are, for those who do not look into Valid. */
    lemma Sizes(held: int)
      requires Valid(held)
      ensures clients.info.Length == clients.addr.Length == MAX_NETCLIENTS
      ensures scheduler.date.Length == MAX_NETCLIENTS + 1 && pool.data.Length == MAX_NETCLIENTS
      ensures ValidRun(pool.run) && Separate() && pool.Traced()
    {
    }

    /** Nothing but the clock goes on. */
    twostate lemma TimePasses(held: int)
      requires old(Valid(held)) && unchanged(this) && unchanged(Repr() - {world})
      requires old(world.secs) <= world.secs && world.sent == old(world.sent)
      ensures Valid(held)
    {
      assert unchanged(pool) && unchanged(pool.data);
      hide Pool.Valid, Scheduler.Valid, Netclients.Valid, AllPlaced, AllBackOff, AllGivenUp, AllSent, ValidRun;
    }

    lemma FailuresBounded(held: int)
      requires Valid(held)
      ensures forall c :: c in failures ==> failures[c] <= MAX_FAILURES
    {
      hide Pool.Valid, Scheduler.Valid, Netclients.Valid, AllPlaced, AllGivenUp, AllSent, ValidRun;
      assert forall c :: c in failures ==> BacksOff(c);
    }

    /** The clients there are, with their kinds. */
    ghost function Live(): map<int, Kind>
      requires clients.info.Length == MAX_NETCLIENTS
      reads clients, clients.info
    {
      map c: int | 0 <= c < MAX_NETCLIENTS && c !in clients.free :: clients.info[c].kind
    }

    /** When the rank job is due, if it is scheduled. */
    ghost function RankDate(): Option<int>
      reads scheduler, scheduler.date
    {
      if RANK_JOB in scheduler.queue && RANK_JOB < scheduler.date.Length then Some(scheduler.date[RANK_JOB]) else None
    }

    /** Nothing is changed about the other clients. */
    twostate predicate OthersKept(c: int)
      reads clients.info
    {
      forall x :: 0 <= x < clients.info.Length && x != c ==> clients.info[x] == old(clients.info[x])
    }

    constructor (world: World)
      requires world.secs > 0
      ensures Valid(NULL) && this.world == world && !doRecomputeRanks && scheduler.queue == []
      ensures pool.run.log == [] && failures == map[] && gone == [] && heard == [] && servers == {}
    {
      hide Pool.Valid, Scheduler.Valid, Netclients.Valid, AllPlaced, BacksOff, ValidRun, Members, Pool.Entries;
      hide Pool.Traced, Pool.Requests;
      this.world := world;
      pool := new Pool(MAX_NETCLIENTS);
      scheduler := new Scheduler(MAX_NETCLIENTS + 1);
      clients := new Netclients();
      doRecomputeRanks, failures, gone, heard, servers := false, map[], [], [], {};
      sentBefore := world.sent;
      new;
      pool.TracedFirst();
      pool.Facts();
      pool.EntriesAreMembers();
      clients.AllFree();
      AllPlacedFree(clients.free);
      assert Parts();
      hide Parts;
    }

    // ---- Moves -----------------------------------------------------------------------

    /** A client that was handed out by the scheduler starts being polled. */
    method AddToPool(c: int)
      requires Valid(c) && 0 <= c < MAX_NETCLIENTS && clients.info[c].expire <= world.secs
      modifies pool, pool.idle, pool.next, pool.prev, pool.data
      ensures Valid(NULL) && Pooled() == old(Pooled()) + {c} && Now(pool.run).idle == [c] + old(Now(pool.run).idle)
      ensures pool.run.log == old(pool.run.log) + [Added(c)]
      ensures pool.data[c].addr == clients.addr[c]
      ensures pool.data[c].request == match clients.info[c].kind case ServerKind => GetInfo case MasterKind => GetList
    {
      hide Pool.Valid, Scheduler.Valid, Netclients.Valid, AllPlaced, AllBackOff, AllGivenUp, ValidRun, Members;
      hide Pool.Traced, Pool.Requests;
      var request := match clients.info[c].kind
        case ServerKind => GetInfo
        case MasterKind => GetList;
      ghost var before := pool.run;
      HeldIsNowhere(c);
      pool.EntriesAreMembers();
      pool.AddPoolEntry(c, clients.addr[c], request);
      pool.Facts();
      HappensMembers(before, Added(c), pool.run);
      OneMoves(c, clients.free, scheduler.queue, old(Pooled()), c, clients.free, scheduler.queue, Pooled(), NULL);
    }

    /** The client held is in no list. */
    lemma HeldIsNowhere(c: int)
      requires Valid(c) && 0 <= c < MAX_NETCLIENTS
      ensures ValidRun(pool.run) && c !in clients.free && c !in scheduler.queue && c !in Pooled()
    {
      assert Placed(c, clients.free, scheduler.queue, Pooled(), c);
    }

    lemma HeldIsLive(c: int)
      requires Valid(c) && 0 <= c < MAX_NETCLIENTS
      ensures c in Live() && Live()[c] == clients.info[c].kind
    {
      hide Pool.Valid, Scheduler.Valid, Netclients.Valid, AllBackOff, AllGivenUp, AllSent, ValidRun, Members;
      HeldIsNowhere(c);
    }

    /** A client of the pool is nowhere else. */
    lemma PooledIsNowhereElse(c: int, held: int)
      requires ValidRun(pool.run) && Partition(held) && 0 <= c < MAX_NETCLIENTS && c in Pooled()
      ensures c !in clients.free && c !in scheduler.queue && c != held
    {
      assert Placed(c, clients.free, scheduler.queue, Pooled(), held);
    }

    /** The client held goes to the scheduler, due at its date of expiry. */
    method Reschedule(c: int)
      requires Valid(c) && 0 <= c < MAX_NETCLIENTS
      modifies scheduler, scheduler.date, scheduler.next
      ensures Valid(NULL) && forall x :: x in scheduler.queue <==> x == c || x in old(scheduler.queue)
      ensures RankDate() == old(RankDate())
    {
      hide Pool.Valid, Scheduler.Valid, Netclients.Valid, AllPlaced, AllBackOff, AllGivenUp, AllSent, ValidRun;
      hide InsertAt, IsPlace;
      HeldIsNowhere(c);
      ghost var k := scheduler.Schedule(c, clients.info[c].expire);
      OneMoves(c, clients.free, old(scheduler.queue), Pooled(), c, clients.free, scheduler.queue, Pooled(), NULL);
    }

    /** An answered client leaves the pool for the hands of its handler. */
    method TakeFromPool(c: int)
      requires Valid(NULL) && c in Now(pool.run).pending && 0 <= c < MAX_NETCLIENTS
      modifies pool, pool.pending, pool.next, pool.prev
      ensures Valid(c) && Pooled() == old(Pooled()) - {c} && RankDate() == old(RankDate())
      ensures pool.run.log == old(pool.run.log) + [Removed(c)]
    {
      hide Pool.Valid, Scheduler.Valid, Netclients.Valid, AllPlaced, AllBackOff, AllGivenUp, ValidRun;
      hide Pool.Traced, Pool.Requests;
      ghost var before := pool.run;
      PooledIsNowhereElse(c, NULL);
      pool.Facts();
      pool.RemovePoolEntry(c);
      HappensMembers(before, Removed(c), pool.run);
      OneMoves(c, clients.free, scheduler.queue, old(Pooled()), NULL, clients.free, scheduler.queue, Pooled(), c);
    }

    /** New dates for the client held. */
    method SetInfo(c: int, info: Info, ghost f: map<int, nat>)
      requires Valid(c) && 0 <= c < MAX_NETCLIENTS && info.kind == clients.info[c].kind
      requires f.Keys <= failures.Keys + {c} && forall x :: x in f && x != c ==> f[x] == failures[x]
      requires c in f ==>
                 && info.kind == ServerKind && 0 < info.lastseen
                 && f[c] <= MAX_FAILURES && Floor(f[c]) <= info.expire - info.lastseen
      modifies clients.info, this`failures
      ensures Valid(c) && failures == f && clients.info[c] == info && OthersKept(c) && Live() == old(Live())
    {
      hide Pool.Valid, Scheduler.Valid, Netclients.Valid, AllPlaced, AllGivenUp, AllSent, ValidRun, Floor, Members;
      HeldIsNowhere(c);
      forall x | x in failures
        ensures BacksOff(x)
      {
      }
      clients.info[c] := info;
      failures := f;
    }

    /** The slot of the client held, of which no answers are counted, is free again. */
    method Release(c: int)
      requires Valid(c) && 0 <= c < MAX_NETCLIENTS && c !in failures
      modifies clients, clients.next
      ensures Valid(NULL) && clients.free == [c] + old(clients.free) && Live() == old(Live()) - {c}
    {
      hide Pool.Valid, Scheduler.Valid, Netclients.Valid, AllPlaced, AllGivenUp, AllSent, ValidRun, Floor, Members;
      HeldIsNowhere(c);
      clients.NotFree(c);
      clients.RemoveNetclient(c);
      OneMoves(c, old(clients.free), scheduler.queue, Pooled(), c, clients.free, scheduler.queue, Pooled(), NULL);
    }

    /** The server held is given up, and its slot is free again. */
    method Forget(c: int)
      requires Valid(c) && 0 <= c < MAX_NETCLIENTS
      requires clients.info[c].kind == ServerKind && GivenUpBy(clients.info[c].lastseen, world.secs)
      modifies clients, clients.next, this`failures, this`gone, this`servers
      ensures Valid(NULL) && clients.free == [c] + old(clients.free)
      ensures failures == old(failures) - {c}
      ensures servers == old(servers) - {(clients.info[c].node, clients.info[c].service)}
      ensures gone == old(gone) + [Gone(c, clients.info[c], world.secs)]
      ensures Survive(old(Live()), old(gone), Live(), gone)
    {
      hide AllSent, Live, Parts, Partition, OnTime, GivenUpBy, Survive, Floor;
      assert this !in Repr();
      Sizes(c);
      HeldIsLive(c);
      OneGivenUp(Live(), gone, Gone(c, clients.info[c], world.secs));
      servers := servers - {(clients.info[c].node, clients.info[c].service)};
      failures := failures - {c};
      gone := gone + [Gone(c, clients.info[c], world.secs)];
      Release(c);
    }

    /** A slot for a new client, if there is one; the caller holds it. */
    method NewClient(client: Info) returns (c: int, ghost answer: Option<Address>)
      requires Valid(NULL)
      modifies world, clients, clients.next, clients.info, clients.addr
      ensures Valid(c) && (c == NULL || 0 <= c < MAX_NETCLIENTS) && world.Quiet()
      ensures c == NULL <==> old(clients.free) == [] || answer.None?
      ensures c == NULL ==> clients.free == old(clients.free)
      ensures c != NULL ==> clients.info[c] == client && old(clients.free) == [c] + clients.free
      ensures world.lookups ==
              old(world.lookups) +
              (if old(clients.free) == [] then [] else [Lookup(client.node, client.service, answer)])
      ensures c != NULL ==> answer == Some(clients.addr[c])
      ensures forall x :: 0 <= x < MAX_NETCLIENTS && x !in old(clients.free) ==> clients.info[x] == old(clients.info[x])
      ensures Survive(old(Live()), gone, Live(), gone)
    {
      hide Pool.Valid, Scheduler.Valid, Netclients.Valid, AllPlaced, AllGivenUp, AllSent, ValidRun, Floor, Members;
      ghost var taken := clients.free;
      clients.FreeDiffer();
      UsedSlots(taken, scheduler.queue, Pooled());
      forall x | 0 <= x < MAX_NETCLIENTS && (x in scheduler.queue || x in Pooled())
        ensures x !in taken
      {
        assert Placed(x, taken, scheduler.queue, Pooled(), NULL);
      }
      c, answer := clients.AddNetclient(world, client);
      if c != NULL {
        HeadTaken(taken, c, clients.free);
        assert Placed(c, taken, scheduler.queue, Pooled(), NULL);
      }
      OneMoves(c, taken, scheduler.queue, Pooled(), NULL, clients.free, scheduler.queue, Pooled(), c);
    }

    // ---- Servers ---------------------------------------------------------------------

    method ExpireInAbout(sec: int, maxdist: nat) returns (expire: int)
      modifies world
      ensures world.Quiet()
      ensures world.secs + sec - maxdist <= expire <= world.secs + sec + maxdist
    {
      var fact := world.Random();
      var now := world.Time();
      expire := ExpireIn(now, sec, maxdist, fact);
      ExpireInRange(now, sec, maxdist, fact);
    }

    /** The date of the next poll after an answer: in about five minutes, or in about an
        hour when the server does not run a ranked game. */
    ghost predicate NextDate(expire: int, ranked: bool)
      reads world
    {
      if ranked then 270 <= expire - world.secs <= 330 else 3300 <= expire - world.secs <= 3900
    }

    method DatesOfAnswer(ranked: bool) returns (lastseen: int, expire: int)
      modifies world
      ensures world.Quiet()
      ensures old(world.secs) <= lastseen <= world.secs && NextDate(expire, ranked)
    {
      lastseen := world.Time();
      if ranked {
        expire := ExpireInAbout(5 * MINUTES, 30);
      } else {
        expire := ExpireInAbout(HOURS, 5 * MINUTES);
      }
    }

    /** What an answer changes about a server. */
    ghost predicate AnsweredInfo(before: Info, after: Info, packet: Packet)
      reads world
    {
      && after.ranked == RankedAfter(packet, before.ranked)
      && after == before.(ranked := after.ranked, lastseen := after.lastseen, expire := after.expire)
      && after.lastseen <= world.secs && NextDate(after.expire, after.ranked)
    }

    method Seen(c: int, packet: Packet)
      requires Valid(c) && 0 <= c < MAX_NETCLIENTS && clients.info[c].kind == ServerKind
      modifies world, clients.info, this`failures
      ensures Valid(c) && failures == old(failures)[c := 0] && OthersKept(c) && Live() == old(Live())
      ensures AnsweredInfo(old(clients.info[c]), clients.info[c], packet) && old(world.secs) <= clients.info[c].lastseen
      ensures world.Quiet()
    {
      hide Pool.Valid, Scheduler.Valid, Netclients.Valid, Partition, AllBackOff, AllGivenUp, AllSent, ValidRun;
      hide RankedAfter, Live;
      var info := clients.info[c];
      var ranked := RankedAfter(packet, info.ranked);
      var lastseen, expire := DatesOfAnswer(ranked);
      FloorAtFirst();
      SetInfo(c, info.(ranked := ranked, lastseen := lastseen, expire := expire), failures[c := 0]);
    }

    /** A server that answered leaves the pool; it was seen now, and is due again. */
    method HandleServerPacket(c: int, packet: Packet)
      requires Valid(NULL) && c in Now(pool.run).pending && 0 <= c < MAX_NETCLIENTS
      requires clients.info[c].kind == ServerKind
      modifies this`failures, world, clients.info, pool, pool.pending, pool.next, pool.prev,
               scheduler, scheduler.date, scheduler.next
      ensures Valid(NULL) && Pooled() == old(Pooled()) - {c}
      ensures pool.run.log == old(pool.run.log) + [Removed(c)]
      ensures forall x :: x in scheduler.queue <==> x == c || x in old(scheduler.queue)
      ensures failures == old(failures)[c := 0] && OthersKept(c) && Live() == old(Live())
      ensures AnsweredInfo(old(clients.info[c]), clients.info[c], packet) && old(world.secs) <= clients.info[c].lastseen
      ensures world.Quiet()
      ensures RankDate() == old(RankDate())
    {
      hide Repr, Valid, RankDate, Live, RankedAfter;
      TakeFromPool(c);
      Seen(c, packet);
      Reschedule(c);
    }

    /** The date of the poll after a failed one. */
    method DoubledDate(lastexpire: int, lastseen: int, ghost failed: nat) returns (expire: int)
      requires lastexpire <= world.secs
      modifies world
      ensures MIN_DELAY <= expire - world.secs <= MAX_DELAY
      ensures expire - lastseen >= lastexpire - lastseen + Delay(lastexpire, lastseen)
      ensures Floor(failed) <= lastexpire - lastseen ==> Floor(failed + 1) <= expire - lastseen
      ensures world.Quiet()
    {
      var fact := world.Random();
      var now := world.Time();
      expire := DoubleExpiryDate(now, lastexpire, lastseen, fact);
      FailureMovesAway(now, lastexpire, lastseen, fact);
      if Floor(failed) <= lastexpire - lastseen {
        FloorStep(lastexpire, lastseen, failed, expire, now, fact);
      }
    }

    /** The failures of a client after one more. */
    ghost function OneMore(f: map<int, nat>, c: int): map<int, nat> {
      if c in f then f[c := f[c] + 1] else f
    }

    /** One more failed poll: the next one is put off. */
    method PutOff(c: int)
      requires Valid(c) && 0 <= c < MAX_NETCLIENTS && clients.info[c].expire <= world.secs
      requires c in failures ==> failures[c] < MAX_FAILURES
      modifies world, clients.info, this`failures
      ensures Valid(c) && failures == OneMore(old(failures), c) && OthersKept(c) && Live() == old(Live())
      ensures clients.info[c] == old(clients.info[c]).(expire := clients.info[c].expire)
      ensures MIN_DELAY <= clients.info[c].expire - world.secs <= MAX_DELAY
      ensures world.Quiet()
    {
      hide Pool.Valid, Scheduler.Valid, Netclients.Valid, Partition, AllGivenUp, AllSent, ValidRun, Floor, Live, Delay;
      var info := clients.info[c];
      ghost var n := if c in failures then failures[c] else 0;
      assert c in failures ==> BacksOff(c);
      var expire := DoubledDate(info.expire, info.lastseen, n);
      SetInfo(c, info.(expire := expire), OneMore(failures, c));
    }

    method CheckGivenUp(lastseen: int) returns (gone: bool)
      modifies world
      ensures gone <==> GivenUpBy(lastseen, world.secs)
      ensures world.Quiet()
    {
      var now := world.Time();
      GivenUpAfterADay(now, lastseen);
      gone := ElapsedDays(now, lastseen) >= 1;
    }

    /** Whether the server held is given up: it is when it was last seen a day ago or more,
        which is so after sixteen failures at the latest. */
    method MustGo(c: int) returns (must: bool)
      requires Valid(c) && 0 <= c < MAX_NETCLIENTS && clients.info[c].expire <= world.secs
      modifies world
      ensures Valid(c) && world.Quiet()
      ensures must <==> GivenUpBy(clients.info[c].lastseen, world.secs)
      ensures GivenUpBy(clients.info[c].lastseen, old(world.secs)) ==> must
      ensures c in failures && failures[c] == MAX_FAILURES ==> must
    {
      hide Pool.Valid, Scheduler.Valid, Netclients.Valid, Partition, AllGivenUp, AllSent, ValidRun, Floor;
      must := CheckGivenUp(clients.info[c].lastseen);
      FloorTable();
      assert c in failures ==> BacksOff(c);
    }

    method TryLater(c: int)
      requires Valid(c) && 0 <= c < MAX_NETCLIENTS && clients.info[c].expire <= world.secs
      requires c in failures ==> failures[c] < MAX_FAILURES
      modifies world, clients.info, this`failures, scheduler, scheduler.date, scheduler.next
      ensures Valid(NULL) && OthersKept(c) && failures == OneMore(old(failures), c) && Live() == old(Live())
      ensures clients.info[c] == old(clients.info[c]).(expire := clients.info[c].expire)
      ensures MIN_DELAY <= clients.info[c].expire - world.secs <= MAX_DELAY
      ensures forall x :: x in scheduler.queue <==> x == c || x in old(scheduler.queue)
      ensures world.Quiet()
      ensures RankDate() == old(RankDate())
    {
      hide Valid, RankDate, Live, OneMore;
      PutOff(c);
      Reschedule(c);
    }

    /** The server held did not answer.  It is removed when it is given up, and polled
        again later otherwise. */
    method HandleServerTimeout(c: int)
      requires Valid(c) && 0 <= c < MAX_NETCLIENTS && clients.info[c].expire <= world.secs
      requires clients.info[c].kind == ServerKind
      modifies this`failures, this`gone, this`servers, world, clients, clients.next, clients.info,
               scheduler, scheduler.date, scheduler.next
      ensures Valid(NULL) && pool.run == old(pool.run) && OthersKept(c)
      ensures world.Quiet() && Survive(old(Live()), old(gone), Live(), gone)
      ensures forall x :: x in scheduler.queue <==> x in old(scheduler.queue) || (x == c && c !in clients.free)
      ensures c in old(failures) && old(failures)[c] == MAX_FAILURES ==> c in clients.free
      ensures c !in clients.free ==> MIN_DELAY <= clients.info[c].expire - world.secs <= MAX_DELAY
      ensures c in clients.free ==> GivenUpBy(old(clients.info[c].lastseen), world.secs)
      ensures GivenUpBy(old(clients.info[c].lastseen), old(world.secs)) ==> c in clients.free
      ensures if c !in clients.free then gone == old(gone) && servers == old(servers)
              else
                && gone == old(gone) + [Gone(c, clients.info[c], world.secs)]
                && servers == old(servers) - {(clients.info[c].node, clients.info[c].service)}
      ensures RankDate() == old(RankDate())
    {
      hide Valid, RankDate, Live, Survive, OneMore, GivenUpBy;
      Sizes(c);
      HeldIsNowhere(c);
      var must := MustGo(c);
      FailuresBounded(c);
      if must {
        Forget(c);
      } else {
        TryLater(c);
        SurviveNothing(Live(), gone);
      }
    }

    // ---- Masters ---------------------------------------------------------------------

    /** A new client goes straight to the scheduler.  There is none exactly when no slot
        is free or its name cannot be looked up. */
    method AddClient(client: Info) returns (c: int, ghost answer: Option<Address>)
      requires Valid(NULL)
      modifies world, clients, clients.next, clients.info, clients.addr,
               scheduler, scheduler.date, scheduler.next
      ensures Valid(NULL) && NULL <= c < MAX_NETCLIENTS && world.Quiet()
      ensures c == NULL <==> old(clients.free) == [] || answer.None?
      ensures c == NULL ==> clients.free == old(clients.free)
      ensures c != NULL ==> old(clients.free) == [c] + clients.free && clients.info[c] == client
      ensures world.lookups ==
              old(world.lookups) +
              (if old(clients.free) == [] then [] else [Lookup(client.node, client.service, answer)])
      ensures c != NULL ==> answer == Some(clients.addr[c])
      ensures OnlyMore(old(ScheduledNow()), ScheduledNow())
      ensures forall x :: x in scheduler.queue <==> x in old(scheduler.queue) || (x == c && c != NULL)
      ensures Survive(old(Live()), gone, Live(), gone)
      ensures RankDate() == old(RankDate())
    {
      hide Valid, RankDate, Live, Survive;
      Sizes(NULL);
      PooledAreNotFree();
      c, answer := NewClient(client);
      if c != NULL {
        Reschedule(c);
      }
    }

    /** Who is scheduled, with what dates, and what was looked up. */
    ghost function ScheduledNow(): Scheduled
      reads scheduler, clients, clients.info, world`lookups
    {
      Scheduled(scheduler.queue, clients.info[..], clients.free, world.lookups)
    }

    method NoteServer(name: (Name, Name))
      requires Valid(NULL)
      modifies this`servers
      ensures Valid(NULL) && servers == old(servers) + {name}
    {
      hide Parts, Partition, OnTime, AllBackOff, AllGivenUp, AllSent;
      assert this !in Repr();
      servers := servers + {name};
    }

    /** A server announced by a master.  It becomes a client when it is not known yet. */
    method ReferenceServer(name: (Name, Name)) returns (c: int, ghost answer: Option<Address>)
      requires Valid(NULL)
      modifies world, clients, clients.next, clients.info, clients.addr,
               scheduler, scheduler.date, scheduler.next, this`servers
      ensures Valid(NULL) && NULL <= c < MAX_NETCLIENTS && world.Quiet()
      ensures servers == old(servers) + {name}
      ensures c == NULL <==> name in old(servers) || old(clients.free) == [] || answer.None?
      ensures c == NULL ==> clients.free == old(clients.free)
      ensures c != NULL ==>
        && old(clients.free) == [c] + clients.free
        && clients.info[c] == NewServer(name) && answer == Some(clients.addr[c])
      ensures world.lookups ==
              old(world.lookups) +
              (if name in old(servers) || old(clients.free) == [] then [] else [Lookup(name.0, name.1, answer)])
      ensures OnlyMore(old(ScheduledNow()), ScheduledNow())
      ensures name !in old(servers) ==> Referenced(name, ScheduledNow(), |old(world.lookups)|)
      ensures forall x :: x in scheduler.queue <==> x in old(scheduler.queue) || (x == c && c != NULL)
      ensures Survive(old(Live()), gone, Live(), gone)
      ensures RankDate() == old(RankDate())
    {
      hide Valid, RankDate, Separate, Live, Survive;
      Sizes(NULL);
      SurviveNothing(Live(), gone);
      c, answer := NULL, None;
      if name !in servers {
        NoteServer(name);
        c, answer := AddClient(NewServer(name));
        PooledAreNotFree();
      }
    }

    /** The next server of a list. */
    method NextAddr(list: Unpacker.AddrList) returns (addr: Option<Unpacker.RawAddr>)
      requires Valid(NULL) && list.Valid() && list !in Repr()
      modifies list
      ensures Valid(NULL) && list.Valid()
      ensures |old(list.left)| == |list.left| + (if addr.Some? then 1 else 0)
      ensures addr.None? ==> list.left == []
      ensures Texts(old(list.left)) == TextsLeft(addr, list.left)
    {
      hide Valid, Unpacker.AddrList.Valid, TextOf;
      ghost var was := list.left;
      addr := list.UnpackServerAddr();
      if addr.Some? {
        assert was[1..] == list.left;
      }
    }

    ghost function TextsLeft(addr: Option<Unpacker.RawAddr>, left: seq<Unpacker.RawAddr>): set<(Name, Name)> {
      (if addr.Some? then {TextOf(addr.value)} else {}) + Texts(left)
    }

    /** References one server of a list and reads the next one. */
    method ReferenceNext(list: Unpacker.AddrList, addr: Unpacker.RawAddr,
                         ghost known: set<(Name, Name)>, ghost from: nat)
      returns (next: Option<Unpacker.RawAddr>)
      requires Valid(NULL) && list.Valid() && list !in Repr()
      requires AllReferenced(servers, known, ScheduledNow(), from) && from <= |world.lookups|
      modifies world, clients, clients.next, clients.info, clients.addr,
               scheduler, scheduler.date, scheduler.next, this`servers, list
      ensures Valid(NULL) && list.Valid() && world.Quiet()
      ensures |old(list.left)| == |list.left| + (if next.Some? then 1 else 0)
      ensures next.None? ==> list.left == []
      ensures servers + TextsLeft(next, list.left) == old(servers) + TextsLeft(Some(addr), old(list.left))
      ensures OnlyMore(old(ScheduledNow()), ScheduledNow()) && AllReferenced(servers, known, ScheduledNow(), from)
      ensures RankDate() == old(RankDate())
      ensures Survive(old(Live()), gone, Live(), gone)
    {
      hide Valid, RankDate, Live, Survive, Texts, TextOf, Unpacker.AddrList.Valid, Referenced, AllReferenced, OnlyMore;
      Sizes(NULL);
      ghost var was, before := servers, ScheduledNow();
      ghost var client, answer := ReferenceServer(TextOf(addr));
      ReferencedStays(was, known, before, ScheduledNow(), from, TextOf(addr));
      next := NextAddr(list);
    }

    /** A list of the servers in a packet, read up to the first one. */
    method FirstAddr(packet: Packet) returns (list: Unpacker.AddrList, first: Option<Unpacker.RawAddr>)
      requires Valid(NULL)
      ensures Valid(NULL) && list.Valid() && fresh(list) && list !in Repr() && (first.None? ==> list.left == [])
      ensures TextsLeft(first, list.left) == Texts(Unpacker.ListOf(packet))
    {
      hide Valid, Texts, TextsLeft, TextOf, Unpacker.AddrList.Valid, Unpacker.ListOf;
      list := Unpacker.OpenList(packet);
      assert list !in Repr();
      first := NextAddr(list);
    }

    /** The answer of a master lists servers.  Every one of them is in the table afterwards,
        and those that were not have been given to clients as long as there were any.  The
        master stays in the pool. */
    method HandleMasterPacket(packet: Packet)
      requires Valid(NULL)
      modifies world, clients, clients.next, clients.info, clients.addr,
               scheduler, scheduler.date, scheduler.next, this`servers
      ensures Valid(NULL) && world.Quiet() && servers == old(servers) + Texts(Unpacker.ListOf(packet))
      ensures AllAnnounced(packet, servers)
      ensures forall name :: name in servers && name !in old(servers) ==> IsAnnounced(packet, name)
      ensures OnlyMore(old(ScheduledNow()), ScheduledNow())
      ensures AllReferenced(servers, old(servers), ScheduledNow(), |old(world.lookups)|)
      ensures RankDate() == old(RankDate())
      ensures Survive(old(Live()), gone, Live(), gone)
    {
      hide Valid, RankDate, Live, Survive, Texts, TextsLeft, Unpacker.AddrList.Valid, Unpacker.ListOf, Repr;
      hide IsAnnounced, AllAnnounced, Referenced, AllReferenced, OnlyMore;
      Sizes(NULL);
      ghost var live, known, start := Live(), servers, ScheduledNow();
      ghost var from := |world.lookups|;
      OnlyMoreNothing(start);
      NothingReferenced(servers, start);
      SurviveNothing(live, gone);
      var list, addr := FirstAddr(packet);
      while addr.Some?
        invariant fresh(list) && list !in Repr() && list.Valid() && Valid(NULL) && (addr.None? ==> list.left == [])
        invariant servers + TextsLeft(addr, list.left) == old(servers) + Texts(Unpacker.ListOf(packet))
        invariant OnlyMore(start, ScheduledNow()) && from <= |world.lookups|
        invariant AllReferenced(servers, known, ScheduledNow(), from)
        invariant RankDate() == old(RankDate())
        invariant world.Quiet() && Survive(live, gone, Live(), gone)
        decreases |list.left|, addr.Some?
      {
        ghost var mid, before := Live(), ScheduledNow();
        addr := ReferenceNext(list, addr.value, known, from);
        OnlyMoreTwice(start, before, ScheduledNow());
        SurviveTwice(live, gone, mid, gone, Live(), gone);
      }
      TextsOfNone();
      ListAnnounces(packet);
      MoreNames(packet, Texts(Unpacker.ListOf(packet)), servers);
    }

    lemma TextsOfNone()
      ensures TextsLeft(None, []) == {}
    {
    }

    method MasterDates(before: Info, online: bool) returns (info: Info)
      requires before.expire <= world.secs
      modifies world
      ensures info == before.(lastseen := info.lastseen, expire := info.expire)
      ensures if online then
                && old(world.secs) <= info.lastseen <= world.secs
                && old(world.secs) + 240 <= info.expire <= world.secs + 360
              else
                && info.lastseen == before.lastseen
                && old(world.secs) + MIN_DELAY <= info.expire <= world.secs + MAX_DELAY
      ensures world.Quiet()
    {
      info := before;
      if online {
        var expire := ExpireInAbout(5 * MINUTES, 1 * MINUTES);
        var now := world.Time();
        info := info.(expire := expire, lastseen := now);
      } else {
        var expire := DoubledDate(info.expire, info.lastseen, 0);
        info := info.(expire := expire);
      }
    }

    /** The client held, of which no answers are counted, is due at its new date. */
    method Settle(c: int, info: Info)
      requires Valid(c) && 0 <= c < MAX_NETCLIENTS && c !in failures && info.kind == clients.info[c].kind
      modifies clients.info, this`failures, scheduler, scheduler.date, scheduler.next
      ensures Valid(NULL) && OthersKept(c) && clients.info[c] == info && Live() == old(Live())
      ensures forall x :: x in scheduler.queue <==> x == c || x in old(scheduler.queue)
      ensures RankDate() == old(RankDate())
    {
      hide Valid, RankDate, Live;
      SetInfo(c, info, failures);
      Reschedule(c);
    }

    lemma OnlyServersBackOff(c: int, held: int)
      requires Valid(held) && 0 <= c < MAX_NETCLIENTS && clients.info[c].kind == MasterKind
      ensures c !in failures
    {
      assert c in failures ==> BacksOff(c);
    }

    /** A master always times out in the end; what matters is whether it answered
        since it was added to the pool. */
    method HandleMasterTimeout(c: int)
      requires Valid(c) && 0 <= c < MAX_NETCLIENTS && clients.info[c].expire <= world.secs
      requires clients.info[c].kind == MasterKind && pool.PolledRight(c)
      modifies world, clients.info, this`failures, scheduler, scheduler.date, scheduler.next
      ensures Valid(NULL) && OthersKept(c) && Live() == old(Live())
      ensures forall x :: x in scheduler.queue <==> x == c || x in old(scheduler.queue)
      ensures clients.info[c] ==
                old(clients.info[c]).(lastseen := clients.info[c].lastseen, expire := clients.info[c].expire)
      ensures if AnsweredSince(pool.run.log, c) then
                && old(world.secs) <= clients.info[c].lastseen <= world.secs
                && old(world.secs) + 240 <= clients.info[c].expire <= world.secs + 360
              else
                && clients.info[c].lastseen == old(clients.info[c].lastseen)
                && old(world.secs) + MIN_DELAY <= clients.info[c].expire <= world.secs + MAX_DELAY
      ensures world.Quiet()
      ensures RankDate() == old(RankDate())
    {
      hide Valid, RankDate, Live, AnsweredSince;
      Sizes(c);
      OnlyServersBackOff(c, c);
      var info := MasterDates(clients.info[c], pool.data[c].polled);
      TimePasses(c);
      Settle(c, info);
    }

    // ---- The event loop --------------------------------------------------------------

    /** What the updater has to do, as far as polls go. */
    ghost function PollsNow(): Polls
      requires ValidRun(pool.run)
      reads pool, scheduler, clients.info, `gone, `servers, `heard
    {
      Polls(Pooled(), scheduler.queue, clients.info[..], pool.run.log, gone, servers, heard)
    }

    /** What a packet announces when a master sent it. */
    ghost function Announced(c: int, packet: Option<Packet>): seq<Heard>
      reads clients.info, `gone
    {
      if packet.Some? && 0 <= c < clients.info.Length && clients.info[c].kind == MasterKind
      then [Heard(Texts(Unpacker.ListOf(packet.value)), |gone|)] else []
    }

    /** What the pool returns, in terms of clients.  A client that failed was sent its
        request three times; one that answered is still pending, and is the first one
        pending with the sender's address; there is none only when the pool is empty. */
    twostate predicate ClientReturned(new c: int, new packet: Option<Packet>)
      requires old(ValidRun(pool.run)) && ValidRun(pool.run) && pool.Traced()
      requires clients.info.Length == pool.data.Length == MAX_NETCLIENTS
      reads pool, pool.data, clients.info, world
    {
      && (c == NULL <==> old(Pooled()) == {})
      && (c == NULL ==> packet.None? && Pooled() == {})
      && (c != NULL ==>
            && 0 <= c < MAX_NETCLIENTS && c in old(Pooled())
            && Pooled() == old(Pooled()) - (if packet.None? then {c} else {}))
      && (c != NULL && packet.None? ==>
            && clients.info[c].expire <= world.secs && pool.PolledRight(c)
            && var t := (pool.data[c].addr, pool.data[c].request);
               PostedFor(pool.run.log, pool.aims, c) == [t, t, t])
      && (packet.Some? ==>
            && c in Now(pool.run).pending && world.packetsLeft < old(world.packetsLeft)
            && pool.AnswerOf(world, c, packet.value))
    }

    /** The client that failed is in the caller's hands. */
    method PollSlot() returns (c: int, packet: Option<Packet>, ghost more: seq<Event<int>>)
      requires Valid(NULL)
      modifies world, pool, pool.idle, pool.pending, pool.failed, pool.next, pool.prev, pool.data
      ensures world.Onward() && Valid(if packet.None? then c else NULL) && ClientReturned(c, packet)
      ensures AllInternal(more) && pool.run.log == old(pool.run.log) + (more + pool.ReturnEvent(c, packet))
    {
      hide Pool.Valid, Scheduler.Valid, Netclients.Valid, AllPlaced, AllBackOff, AllGivenUp, ValidRun;
      hide Pool.Traced, Pool.Requests, Pool.AnswerOf, Pool.PolledRight, Members, Attempts, AllInternal;
      hide PostedFor, SendsOf;
      c, packet, more := pool.PollPool(world);
      pool.Facts();
      ghost var held := if packet.None? then c else NULL;
      if c != NULL {
        UsedSlots(clients.free, scheduler.queue, old(Pooled()));
        PooledPlace(c, old(Pooled()));
      }
      OneMoves(if packet.None? then c else NULL, clients.free, scheduler.queue, old(Pooled()), NULL,
               clients.free, scheduler.queue, Pooled(), held);
    }

    /** The same, for all that polls change.  What a master announces is noted. */
    method PollClient() returns (c: int, packet: Option<Packet>)
      requires Valid(NULL)
      modifies this`heard, world, pool, pool.idle, pool.pending, pool.failed, pool.next, pool.prev, pool.data
      ensures world.Onward() && Valid(if packet.None? then c else NULL) && ClientReturned(c, packet)
      ensures heard == old(heard) + Announced(c, packet) && Grows(old(pool.run.log), pool.run.log)
      ensures PoolReturned(old(PollsNow()), PollsNow(), c, packet.Some?)
    {
      hide Valid, ValidRun, Announced, PoolReturned, ClientReturned, Members, AllInternal, Pool.Traced;
      Sizes(NULL);
      ghost var more;
      c, packet, more := PollSlot();
      Sizes(if packet.None? then c else NULL);
      GrowsBy(old(pool.run.log), more + pool.ReturnEvent(c, packet));
      OthersUnanswered(c, packet, more);
      assert this !in Repr();
      ghost var here := PollsNow();
      heard := heard + Announced(c, packet);
      HeardAside(old(PollsNow()), here, c, packet.Some?, heard);
    }

    twostate lemma OthersUnanswered(new c: int, new packet: Option<Packet>, new more: seq<Event<int>>)
      requires old(ValidRun(pool.run)) && ValidRun(pool.run) && pool.Traced()
      requires clients.info.Length == pool.data.Length == MAX_NETCLIENTS && ClientReturned(c, packet)
      requires AllInternal(more) && pool.run.log == old(pool.run.log) + (more + pool.ReturnEvent(c, packet))
      requires unchanged(this, scheduler, clients.info)
      ensures PoolReturned(old(PollsNow()), PollsNow(), c, packet.Some?)
    {
      hide ValidRun, Members, AllInternal, AnsweredSince, PostedFor, Pool.AnswerOf, Pool.PolledRight, Pool.Traced;
      ReturnAnswers(old(pool.run.log), more, pool.ReturnEvent(c, packet), c);
    }

    lemma PooledPlace(c: int, pooled: set<int>)
      requires AllPlaced(clients.free, scheduler.queue, pooled, NULL) && c in pooled && 0 <= c < MAX_NETCLIENTS
      ensures c !in clients.free && c !in scheduler.queue
    {
      assert Placed(c, clients.free, scheduler.queue, pooled, NULL);
    }

    /** A client that the pool has just returned. */
    ghost predicate InHand(c: int, packet: Option<Packet>)
      requires ValidRun(pool.run) && clients.info.Length == MAX_NETCLIENTS
      reads pool, pool.data, clients.info, world
    {
      && 0 <= c < MAX_NETCLIENTS
      && if packet.Some? then c in Now(pool.run).pending
         else c !in Pooled() && clients.info[c].expire <= world.secs && pool.PolledRight(c)
    }

    /** What is to be done about it. */
    ghost predicate JustReturned(c: int, packet: Option<Packet>)
      requires ValidRun(pool.run) && clients.info.Length == MAX_NETCLIENTS
      reads pool, pool.data, scheduler, clients.info, world, `gone, `servers, `heard
    {
      && InHand(c, packet)
      && (packet.None? && clients.info[c].kind == ServerKind ==> !AnsweredSince(pool.run.log, c))
      && if packet.Some? && clients.info[c].kind == MasterKind
         then JustHeard(PollsNow(), Texts(Unpacker.ListOf(packet.value)))
         else Known(heard, servers, gone)
    }

    /** A server that answered leaves the pool and is polled again later. */
    method ServerAnswered(c: int, packet: Packet, ghost todo: set<int>, ghost since: int, ghost lost: nat)
      requires Valid(NULL) && since <= world.secs
      requires JustReturned(c, Some(packet)) && clients.info[c].kind == ServerKind
      requires TidyBut(PollsNow(), c, todo, since, lost)
      modifies this`failures, world, clients.info, pool, pool.pending, pool.next, pool.prev,
               scheduler, scheduler.date, scheduler.next
      ensures Valid(NULL) && Pooled() <= old(Pooled()) && Grows(old(pool.run.log), pool.run.log)
      ensures RankDate() == old(RankDate()) && world.Quiet() && Survive(old(Live()), gone, Live(), gone)
      ensures Tidy(PollsNow(), todo, since, lost)
    {
      hide Valid, RankDate, Live, Survive, Grows, Known, Tidy, TidyBut, AnsweredSince, Members;
      Sizes(NULL);
      ghost var before := PollsNow();
      HandleServerPacket(c, packet);
      Sizes(NULL);
      SurviveNothing(Live(), gone);
      GrowsBy(before.log, [Removed(c)]);
      RemovedAnswersNothing(before.log, c);
      PollEnds(before, PollsNow(), c, todo, since, lost);
    }

    /** One that did not is given up, or polled again later. */
    method ServerTimedOut(c: int, ghost todo: set<int>, ghost since: int, ghost lost: nat)
      requires Valid(c) && since <= world.secs
      requires JustReturned(c, None) && clients.info[c].kind == ServerKind
      requires TidyBut(PollsNow(), c, todo, since, lost)
      modifies this`failures, this`gone, this`servers, world, clients, clients.next, clients.info,
               scheduler, scheduler.date, scheduler.next
      ensures Valid(NULL) && pool.run == old(pool.run)
      ensures RankDate() == old(RankDate()) && world.Quiet() && Survive(old(Live()), old(gone), Live(), gone)
      ensures Tidy(PollsNow(), todo, since, lost)
    {
      hide Valid, RankDate, Live, Survive, Known, Tidy, TidyBut, AnsweredSince, Members;
      Sizes(c);
      HeldIsNowhere(c);
      ghost var before := PollsNow();
      HandleServerTimeout(c);
      if c in clients.free {
        KnownWithout(heard, before.servers, before.gone, Gone(c, clients.info[c], world.secs));
        assert gone[|before.gone|].slot == c;
      }
      PollEnds(before, PollsNow(), c, todo, since, lost);
    }

    /** A master that answered stays in the pool. */
    method MasterAnswered(c: int, packet: Packet, ghost todo: set<int>, ghost since: int, ghost lost: nat)
      requires Valid(NULL) && since <= world.secs
      requires JustReturned(c, Some(packet)) && clients.info[c].kind == MasterKind
      requires TidyBut(PollsNow(), c, todo, since, lost)
      modifies this`servers, world, clients, clients.next, clients.info, clients.addr,
               scheduler, scheduler.date, scheduler.next
      ensures Valid(NULL) && RankDate() == old(RankDate())
      ensures world.Quiet() && Survive(old(Live()), gone, Live(), gone)
      ensures Tidy(PollsNow(), todo, since, lost)
    {
      hide Valid, RankDate, Live, Survive, Known, Tidy, TidyBut, AnsweredSince, Members, Texts, Unpacker.ListOf;
      Sizes(NULL);
      ghost var before := PollsNow();
      PooledAreNotFree();
      PendingIsPooled(c);
      HandleMasterPacket(packet);
      PollGoesOn(before, PollsNow(), c, Texts(Unpacker.ListOf(packet)), todo, since, lost);
    }

    /** It times out in the end. */
    method MasterTimedOut(c: int, ghost todo: set<int>, ghost since: int, ghost lost: nat)
      requires Valid(c) && since <= world.secs
      requires JustReturned(c, None) && clients.info[c].kind == MasterKind
      requires TidyBut(PollsNow(), c, todo, since, lost)
      modifies this`failures, world, clients.info, scheduler, scheduler.date, scheduler.next
      ensures Valid(NULL) && RankDate() == old(RankDate())
      ensures world.Quiet() && Live() == old(Live())
      ensures Tidy(PollsNow(), todo, since, lost)
    {
      hide Valid, RankDate, Live, Known, Tidy, TidyBut, AnsweredSince, Members;
      Sizes(c);
      ghost var before := PollsNow();
      HandleMasterTimeout(c);
      PollEnds(before, PollsNow(), c, todo, since, lost);
    }

    lemma Returned(c: int, packet: Option<Packet>)
      requires ValidRun(pool.run) && clients.info.Length == MAX_NETCLIENTS && JustReturned(c, packet)
      ensures 0 <= c < MAX_NETCLIENTS
    {
    }

    lemma PooledAreNotFree()
      requires Valid(NULL)
      ensures forall x :: 0 <= x < MAX_NETCLIENTS && (x in Pooled() || x in scheduler.queue) ==> x !in clients.free
    {
      hide Pool.Valid, Scheduler.Valid, Netclients.Valid, AllBackOff, AllGivenUp, AllSent, ValidRun, Members;
      forall x | 0 <= x < MAX_NETCLIENTS && (x in Pooled() || x in scheduler.queue)
        ensures x !in clients.free
      {
        assert Placed(x, clients.free, scheduler.queue, Pooled(), NULL);
      }
    }

    lemma PendingIsPooled(c: int)
      requires ValidRun(pool.run) && c in Now(pool.run).pending
      ensures c in Pooled()
    {
    }

    lemma RemovedAnswersNothing(log: seq<Event<int>>, c: int)
      ensures forall x :: AnsweredSince(log + [Removed(c)], x) <==> AnsweredSince(log, x)
    {
      forall x
        ensures AnsweredSince(log + [Removed(c)], x) <==> AnsweredSince(log, x)
      {
        NotAnswered(log, Removed(c), x);
      }
    }

    /** Sees to a client that the pool has just returned. */
    method Handle(c: int, packet: Option<Packet>, ghost todo: set<int>, ghost since: int, ghost lost: nat)
      requires Valid(if packet.None? then c else NULL) && since <= world.secs
      requires JustReturned(c, packet) && TidyBut(PollsNow(), c, todo, since, lost)
      modifies this`failures, this`gone, this`servers, Repr()
      ensures Valid(NULL) && Pooled() <= old(Pooled()) && Grows(old(pool.run.log), pool.run.log)
      ensures RankDate() == old(RankDate())
      ensures world.Quiet() && Survive(old(Live()), old(gone), Live(), gone)
      ensures Tidy(PollsNow(), todo, since, lost)
    {
      hide Valid, RankDate, Live, Survive, Grows, Members, AnsweredInfo, Texts, Tidy, TidyBut, JustReturned;
      Sizes(if packet.None? then c else NULL);
      Returned(c, packet);
      GrowsNothing(pool.run.log);
      SurviveNothing(Live(), gone);
      match clients.info[c].kind
      case ServerKind =>
        if packet.Some? {
          ServerAnswered(c, packet.value, todo, since, lost);
        } else {
          ServerTimedOut(c, todo, since, lost);
        }
      case MasterKind =>
        if packet.Some? {
          MasterAnswered(c, packet.value, todo, since, lost);
        } else {
          MasterTimedOut(c, todo, since, lost);
        }
    }

    /** What there is to do when the pool has returned a client. */
    lemma SeeTo(before: Polls, c: int, packet: Option<Packet>, todo: set<int>, since: int, lost: nat)
      requires ValidRun(pool.run) && clients.info.Length == MAX_NETCLIENTS
      requires InHand(c, packet) && c in before.pooled && PoolReturned(before, PollsNow(), c, packet.Some?)
      requires Tidy(before, todo, since, lost) && heard == before.heard + Announced(c, packet)
      ensures JustReturned(c, packet) && TidyBut(PollsNow(), c, todo, since, lost)
    {
      hide Texts, Unpacker.ListOf, Pool.PolledRight, PostedFor, AnsweredSince, Members, Known;
      TidyReturn(before, PollsNow(), c, packet.Some?, todo, since, lost);
      if Announced(c, packet) == [] {
        assert heard == before.heard;
      } else {
        assert heard[..|heard| - 1] == before.heard;
      }
    }

    /** One turn of the inner loop.  Packets run out, and clients leave the pool; what the
        pool returned is seen to. */
    method PollAndHandle(ghost todo: set<int>, ghost since: int, ghost lost: nat) returns (more: bool)
      requires Valid(NULL) && since <= world.secs && Tidy(PollsNow(), todo, since, lost)
      modifies this`failures, this`gone, this`servers, this`heard, Repr()
      ensures Valid(NULL) && world.Onward() && Grows(old(pool.run.log), pool.run.log)
      ensures RankDate() == old(RankDate())
      ensures Survive(old(Live()), old(gone), Live(), gone)
      ensures Tidy(PollsNow(), todo, since, lost)
      ensures if more then world.packetsLeft < old(world.packetsLeft) || Pooled() < old(Pooled())
              else Pooled() == {}
    {
      hide Valid, RankDate, Live, Survive, Grows, Members, PostedFor, ClientReturned, Pooled, Texts;
      hide InHand, Tidy, TidyBut, JustReturned, PoolReturned;
      Sizes(NULL);
      SurviveNothing(Live(), gone);
      ghost var before := PollsNow();
      var c, packet := PollClient();
      Sizes(if packet.None? then c else NULL);
      more := c != NULL;
      Shrunk(c, packet);
      if more {
        ghost var mid := PollsNow();
        SeeTo(before, c, packet, todo, since, lost);
        Handle(c, packet, todo, since, lost);
        GrowsTwice(before.log, mid.log, pool.run.log);
      } else {
        assert heard == before.heard;
        TidyNothing(before, PollsNow(), todo, since, lost);
      }
    }

    twostate lemma Shrunk(new c: int, new packet: Option<Packet>)
      requires old(ValidRun(pool.run)) && ValidRun(pool.run) && pool.Traced()
      requires clients.info.Length == pool.data.Length == MAX_NETCLIENTS && ClientReturned(c, packet)
      ensures c == NULL ==> packet.None? && Pooled() == {}
      ensures c != NULL ==>
        && InHand(c, packet) && c in old(Pooled()) && Pooled() <= old(Pooled())
        && (Pooled() < old(Pooled()) || world.packetsLeft < old(world.packetsLeft))
    {
      hide Members, PostedFor, Pool.AnswerOf, Pool.PolledRight;
    }

    /** Handles what the pool returns until it is empty. */
    method DrainPool(ghost todo: set<int>, ghost since: int, ghost lost: nat)
      requires Valid(NULL) && since <= world.secs && Tidy(PollsNow(), todo, since, lost)
      modifies this`failures, this`gone, this`servers, this`heard, Repr()
      ensures Valid(NULL) && Pooled() == {} && Grows(old(pool.run.log), pool.run.log)
      ensures RankDate() == old(RankDate())
      ensures world.Onward() && Survive(old(Live()), old(gone), Live(), gone)
      ensures Tidy(PollsNow(), todo, since, lost)
    {
      hide Valid, RankDate, Live, Survive, Grows, Members, ValidRun, Tidy;
      Sizes(NULL);
      ghost var live, was, log := Live(), gone, pool.run.log;
      var more := PollAndHandle(todo, since, lost);
      Sizes(NULL);
      while more
        invariant Valid(NULL) && ValidRun(pool.run) && (!more ==> Pooled() == {}) && world.Onward()
        invariant Grows(log, pool.run.log) && Survive(live, was, Live(), gone)
        invariant RankDate() == old(RankDate()) && Tidy(PollsNow(), todo, since, lost)
        decreases world.packetsLeft, Pooled(), more
      {
        ghost var mid, midGone, midLog := Live(), gone, pool.run.log;
        more := PollAndHandle(todo, since, lost);
        Sizes(NULL);
        SurviveTwice(live, was, mid, midGone, Live(), gone);
        GrowsTwice(log, midLog, pool.run.log);
      }
    }

    /** The next job that is due: the caller holds the client, or starts the ranking. */
    method NextJob() returns (job: int)
      requires Valid(NULL)
      modifies scheduler, world
      ensures Valid(if job == RANK_JOB then NULL else job) && world.Quiet()
      ensures job == NULL || 0 <= job <= RANK_JOB
      ensures job == NULL ==> scheduler.queue == old(scheduler.queue) && NothingDue()
      ensures job != NULL ==>
                && scheduler.date[job] <= world.secs && job in old(scheduler.queue) && job !in scheduler.queue
                && |scheduler.queue| < |old(scheduler.queue)|
                && forall x :: x in old(scheduler.queue) <==> x == job || x in scheduler.queue
      ensures 0 <= job < RANK_JOB ==> clients.info[job].expire <= world.secs
    {
      hide Pool.Valid, Scheduler.Valid, Netclients.Valid, AllPlaced, AllBackOff, AllGivenUp, AllSent, ValidRun, Members;
      scheduler.QueueDiffer();
      ghost var q := scheduler.queue;
      job := scheduler.NextSchedule(world);
      ghost var held := if job == RANK_JOB then NULL else job;
      UsedSlots(clients.free, q, Pooled());
      if job != NULL {
        HeadTaken(q, job, scheduler.queue);
        assert job < RANK_JOB ==> Placed(job, clients.free, q, Pooled(), NULL);
      }
      OneMoves(job, clients.free, q, Pooled(), NULL, clients.free, scheduler.queue, Pooled(), held);
    }

    /** Nothing left in the scheduler is due. */
    ghost predicate NothingDue()
      reads scheduler, scheduler.date, world
    {
      forall x :: x in scheduler.queue ==> 0 <= x < scheduler.date.Length && world.secs < scheduler.date[x]
    }

    /** The rank job is scheduled, once, unless it is about to run. */
    ghost predicate RankJobOnce()
      reads this, scheduler
    {
      RANK_JOB in scheduler.queue <==> !doRecomputeRanks
    }

    ghost function JobsNow(): Jobs
      requires ValidRun(pool.run)
      reads scheduler, pool
    {
      Jobs(scheduler.queue, Pooled(), pool.run.log)
    }

    /** Starts the next job that is due, and nothing else. */
    method StartDueJob() returns (more: bool)
      requires Valid(NULL) && RankJobOnce()
      modifies this`doRecomputeRanks, world, scheduler, pool, pool.idle, pool.next, pool.prev, pool.data
      ensures Valid(NULL) && RankJobOnce() && world.Quiet()
      ensures Started(old(JobsNow()), JobsNow(), scheduler.date[..], world.secs)
      ensures if more then |scheduler.queue| < |old(scheduler.queue)|
              else scheduler.queue == old(scheduler.queue) && NothingDue()
    {
      hide Separate, Valid, ValidRun, Members, Started;
      Sizes(NULL);
      ghost var before := JobsNow();
      var job := NextJob();
      if job == NULL {
        NothingStarted(before, scheduler.date[..], world.secs);
        return false;
      }
      if job == RANK_JOB {
        assert this !in Repr();
        doRecomputeRanks := true;
      } else {
        AddToPool(job);
      }
      Sizes(NULL);
      OneStarted(before, JobsNow(), job, scheduler.date[..], world.secs);
      return true;
    }

    /** Everything that is due starts being polled; nobody else moves. */
    method StartDueJobs()
      requires Valid(NULL) && RankJobOnce()
      modifies this`doRecomputeRanks, world, scheduler, pool, pool.idle, pool.next, pool.prev, pool.data
      ensures Valid(NULL) && RankJobOnce() && NothingDue() && world.Quiet()
      ensures Started(old(JobsNow()), JobsNow(), scheduler.date[..], world.secs)
    {
      hide Valid, ValidRun, Members, Started, RankJobOnce, NothingDue;
      Sizes(NULL);
      ghost var start, dates := JobsNow(), scheduler.date[..];
      NothingStarted(start, dates, world.secs);
      var more := true;
      while more
        invariant Valid(NULL) && ValidRun(pool.run) && RankJobOnce() && (!more ==> NothingDue()) && world.Quiet()
        invariant Started(start, JobsNow(), dates, world.secs)
        decreases |scheduler.queue|, more
      {
        ghost var mid, now := JobsNow(), world.secs;
        more := StartDueJob();
        Sizes(NULL);
        assert scheduler.date[..] == dates;
        StartedTwice(start, mid, JobsNow(), dates, now, world.secs);
      }
    }

    method ScheduleRanksAt(date: int)
      requires Valid(NULL) && RANK_JOB !in scheduler.queue
      modifies scheduler, scheduler.date, scheduler.next
      ensures Valid(NULL) && scheduler.date[RANK_JOB] == date
      ensures forall x :: x in scheduler.queue <==> x == RANK_JOB || x in old(scheduler.queue)
    {
      hide Pool.Valid, Scheduler.Valid, Netclients.Valid, AllPlaced, AllBackOff, AllGivenUp, AllSent, ValidRun;
      hide Members, InsertAt, IsPlace;
      ghost var k := scheduler.Schedule(RANK_JOB, date);
      OneMoves(RANK_JOB, clients.free, old(scheduler.queue), Pooled(), NULL,
               clients.free, scheduler.queue, Pooled(), NULL);
    }

    method ScheduleRanks(delay: int)
      requires Valid(NULL) && RANK_JOB !in scheduler.queue
      modifies world, scheduler, scheduler.date, scheduler.next
      ensures Valid(NULL) && Pooled() == old(Pooled()) && world.Quiet()
      ensures forall x :: x in scheduler.queue <==> x == RANK_JOB || x in old(scheduler.queue)
      ensures scheduler.date[RANK_JOB] == world.secs + delay
    {
      hide Partition, AllBackOff, AllGivenUp, AllSent, Pool.Valid, Scheduler.Valid, Netclients.Valid, ValidRun, Members;
      var date := ExpireInAbout(delay, 0);
      ScheduleRanksAt(date);
    }

    /** At every turn of the main loop, the pool is empty, every client is either free
        or scheduled, and so is the rank job; and every server that a master announced is
        known, unless it was given up since. */
    ghost predicate AtRest()
      reads this, Repr()
    {
      && Valid(NULL) && Pooled() == {}
      && RANK_JOB in scheduler.queue && !doRecomputeRanks
      && Known(heard, servers, gone)
    }

    /** The places of a client, counted one by one. */
    ghost function Places(c: int, held: int): nat
      reads clients, scheduler, pool.idle, pool.pending, pool.failed
    {
      (if c in clients.free then 1 else 0) + (if c in scheduler.queue then 1 else 0)
      + (if c in pool.idle.elems then 1 else 0) + (if c in pool.pending.elems then 1 else 0)
      + (if c in pool.failed.elems then 1 else 0) + (if c == held then 1 else 0)
    }

    lemma ExactlyOnePlace(c: int, held: int)
      requires Valid(held) && 0 <= c < 4096
      ensures Places(c, held) == 1
    {
      hide Pool.Valid, Scheduler.Valid, Netclients.Valid, AllBackOff, AllGivenUp, AllSent, ValidRun;
      pool.Facts();
      RunWellFormed(pool.run);
      assert Placed(c, clients.free, scheduler.queue, Pooled(), held);
    }

    lemma AllClientsScheduled(c: int)
      requires AtRest() && 0 <= c < MAX_NETCLIENTS
      ensures c in clients.free <==> c !in scheduler.queue
    {
      hide Pool.Valid, Scheduler.Valid, Netclients.Valid, AllBackOff, AllGivenUp, AllSent, ValidRun, Members;
      assert Placed(c, clients.free, scheduler.queue, Pooled(), NULL);
    }

    /** The ranks are recomputed when their job came up, and again five minutes later. */
    method RankWhenDue()
      requires Valid(NULL) && RankJobOnce() && Pooled() == {} && Known(heard, servers, gone)
      modifies this`doRecomputeRanks, world, scheduler, scheduler.date, scheduler.next
      ensures AtRest()
      ensures forall x ::
                x in scheduler.queue <==> x in old(scheduler.queue) || (x == RANK_JOB && old(doRecomputeRanks))
      ensures RankDate() == if old(doRecomputeRanks) then Some(world.secs + 300) else old(RankDate())
    {
      hide Valid, ValidRun, Members, Known;
      Sizes(NULL);
      if doRecomputeRanks {
        assert this !in Repr();
        doRecomputeRanks := false;
        ScheduleRanks(5 * MINUTES);
      }
    }

    method Sleep()
      requires AtRest()
      modifies world
      ensures AtRest() && world.Quiet()
    {
      hide Partition, AllBackOff, AllGivenUp, AllSent, Pool.Valid, Scheduler.Valid, Netclients.Valid, ValidRun, Members;
      scheduler.WaitUntilNextSchedule(world);
    }

    /** Whether a client was due. */
    twostate predicate WasDue(new c: int)
      requires scheduler.date.Length > MAX_NETCLIENTS
      reads scheduler, scheduler.date, world
    {
      0 <= c < MAX_NETCLIENTS && c in old(scheduler.queue) && old(scheduler.date[c] <= world.secs)
    }

    /** Every client that was due has been added to the pool since. */
    twostate predicate DueAdded()
      requires scheduler.date.Length > MAX_NETCLIENTS
      reads scheduler, scheduler.date, world, pool
    {
      forall c :: WasDue(c) ==> AddedSince(c, old(pool.run.log), pool.run.log)
    }

    /** It has been given up, or its poll is done. */
    twostate predicate DueDone()
      requires scheduler.date.Length > MAX_NETCLIENTS && ValidRun(pool.run)
      reads scheduler, scheduler.date, world, pool, clients.info, this
    {
      forall c :: WasDue(c) ==> IsGone(c, gone, |old(gone)|) || Done(c, PollsNow(), old(world.secs))
    }

    /** Sleeps until something is due, and starts it. */
    method StartTurn()
      requires AtRest()
      modifies this`doRecomputeRanks, world, scheduler, pool, pool.idle, pool.next, pool.prev, pool.data
      ensures Valid(NULL) && RankJobOnce() && DueAdded() && world.Quiet()
      ensures !doRecomputeRanks ==> RankDate() == old(RankDate()) && old(world.secs) < scheduler.date[RANK_JOB]
      ensures (forall c :: WasDue(c) ==> c in Pooled()) && Tidy(PollsNow(), Pooled(), old(world.secs), |gone|)
    {
      hide Valid, ValidRun, Members, Grows, AddedSince, Started, Tidy, Known;
      Sizes(NULL);
      ghost var q, dates := scheduler.queue, scheduler.date[..];
      Sleep();
      Sizes(NULL);
      ghost var rest := JobsNow();
      StartDueJobs();
      Sizes(NULL);
      forall c | c in q && 0 <= c < MAX_NETCLIENTS && dates[c] <= old(world.secs)
        ensures AddedSince(c, rest.log, pool.run.log) && c in Pooled()
      {
        DueBegun(rest, JobsNow(), dates, world.secs, c);
      }
      StartedTidy(rest, JobsNow(), dates, world.secs, PollsNow(), old(world.secs));
    }

    /** Polls everything that is due, and sees to what comes of it. */
    method PollDue()
      requires AtRest()
      modifies this, Repr()
      ensures Valid(NULL) && RankJobOnce() && Pooled() == {} && Known(heard, servers, gone)
      ensures Survive(old(Live()), old(gone), Live(), gone) && DueAdded() && DueDone() && world.Onward()
      ensures !doRecomputeRanks ==> RankDate() == old(RankDate()) && old(world.secs) < scheduler.date[RANK_JOB]
    {
      hide Valid, ValidRun, Members, Live, Survive, Grows, AddedSince, Known, Done, IsGone, Tidy;
      Sizes(NULL);
      StartTurn();
      Sizes(NULL);
      ghost var log, due := pool.run.log, Pooled();
      DrainPool(due, old(world.secs), |gone|);
      Sizes(NULL);
      TidyEnd(PollsNow(), due, old(world.secs), |old(gone)|);
      forall c | 0 <= c < MAX_NETCLIENTS && AddedSince(c, old(pool.run.log), log)
        ensures AddedSince(c, old(pool.run.log), pool.run.log)
      {
        AddedLater(c, old(pool.run.log), log, pool.run.log);
      }
    }

    /** One turn of the main loop: every client that was due is polled, and the outcome
        seen to; every client stays one, unless it is a server given up.  The database side
        of a turn is in other modules. */
    method Turn()
      requires AtRest()
      modifies this, Repr()
      ensures AtRest() && Survive(old(Live()), old(gone), Live(), gone) && DueAdded() && DueDone()
      ensures RankDate() == Some(world.secs + 300)
           || (RankDate() == old(RankDate()) && old(world.secs) < RankDate().value)
    {
      hide Valid, ValidRun, Members, Live, Survive, AddedSince, Known, Done;
      Sizes(NULL);
      PollDue();
      Sizes(NULL);
      ghost var here := PollsNow();
      RankWhenDue();
      Sizes(NULL);
      DoneStays(here, PollsNow());
    }

    lemma JobsAreScheduled(held: int)
      requires Valid(held)
      ensures scheduler.HaveSchedule() <==> scheduler.queue != []
    {
      hide Pool.Valid, Netclients.Valid, AllPlaced, AllBackOff, AllGivenUp, AllSent, ValidRun;
    }

    /** The main loop, stopped by a signal after any number of turns. */
    method Update(turns: nat)
      requires Known(heard, servers, gone)
      requires Valid(NULL) && Pooled() == {} && RANK_JOB !in scheduler.queue && !doRecomputeRanks
      modifies this, Repr()
      ensures if old(scheduler.queue) != [] then AtRest() else Valid(NULL) && scheduler.queue == old(scheduler.queue)
      ensures Survive(old(Live()), old(gone), Live(), gone)
    {
      hide Valid, ValidRun, Members, Live, Survive, AddedSince;
      Sizes(NULL);
      SurviveNothing(Live(), gone);
      ghost var live, lost := Live(), gone;
      JobsAreScheduled(NULL);
      if !scheduler.HaveSchedule() {
        return;
      }
      ScheduleRanks(10);
      for t := 0 to turns
        invariant AtRest() && Survive(live, lost, Live(), gone)
      {
        ghost var mid, midLost := Live(), gone;
        Turn();
        SurviveTwice(live, lost, mid, midLost, Live(), gone);
      }
    }

    // ---- Loading ---------------------------------------------------------------------

    /** The keys of the table of servers for those loaded. */
    function NamesOf(rows: seq<Info>): set<(Name, Name)> {
      set i | 0 <= i < |rows| :: (rows[i].node, rows[i].service)
    }

    ghost predicate HasRow(rows: seq<Info>, name: (Name, Name)) {
      exists i :: 0 <= i < |rows| && rows[i].node == name.0 && rows[i].service == name.1
    }

    lemma NamesAreRows(rows: seq<Info>)
      ensures forall name :: name in NamesOf(rows) <==> HasRow(rows, name)
    {
    }

    /** Each client loaded is scheduled in a slot of its own.  One was left out because its
        lookup, which came after the first "from", had no answer, or else every slot is
        taken. */
    ghost predicate Loaded(rows: seq<Info>, placed: seq<int>, from: nat)
      requires |placed| <= |rows| && clients.info.Length == MAX_NETCLIENTS && from <= |world.lookups|
      reads clients, clients.info, scheduler, world`lookups
    {
      && (forall i {:trigger placed[i]} :: 0 <= i < |placed| ==>
            if placed[i] == NULL then
              clients.free == [] || Lookup(rows[i].node, rows[i].service, None) in world.lookups[from..]
            else
              0 <= placed[i] < MAX_NETCLIENTS && placed[i] in scheduler.queue && clients.info[placed[i]] == rows[i])
      && forall i, j :: 0 <= i < j < |placed| && placed[i] != NULL ==> placed[i] != placed[j]
    }

    /** Adding a client keeps those loaded before. */
    method LoadOne(row: Info, ghost rows: seq<Info>, ghost placed: seq<int>, ghost from: nat) returns (ghost c: int)
      requires Valid(NULL) && RANK_JOB !in scheduler.queue && from <= |world.lookups|
      requires |placed| < |rows| && Loaded(rows, placed, from) && row == rows[|placed|]
      modifies world, clients, clients.next, clients.info, clients.addr,
               scheduler, scheduler.date, scheduler.next
      ensures Valid(NULL) && Pooled() == old(Pooled()) && RANK_JOB !in scheduler.queue
      ensures from <= |world.lookups| && Loaded(rows, placed + [c], from)
    {
      hide Valid, Live, Survive, RankDate;
      Sizes(NULL);
      PooledAreNotFree();
      ghost var looked := world.lookups;
      var slot;
      ghost var answer;
      slot, answer := AddClient(row);
      c := slot;
      LaterLookups(looked, world.lookups, from);
    }

    /** Loads the clients of the database: servers first, then masters. */
    method LoadNetclients(servers: seq<Info>, masters: seq<Info>) returns (ghost placed: seq<int>)
      requires Valid(NULL) && Pooled() == {} && RANK_JOB !in scheduler.queue
      modifies world, clients, clients.next, clients.info, clients.addr,
               scheduler, scheduler.date, scheduler.next, this`servers
      ensures Valid(NULL) && Pooled() == {} && RANK_JOB !in scheduler.queue
      ensures |placed| == |servers| + |masters| && |old(world.lookups)| <= |world.lookups|
      ensures Loaded(servers + masters, placed, |old(world.lookups)|)
      ensures forall name :: name in this.servers <==> HasRow(servers, name)
    {
      hide Separate, NamesOf, HasRow, Valid, Members, Loaded, ValidRun;
      Sizes(NULL);
      ghost var from := |world.lookups|;
      NothingLoaded(servers + masters, from);
      NamesAreRows(servers);
      assert this !in Repr();
      this.servers := NamesOf(servers);
      ghost var rows, table := servers + masters, this.servers;
      ghost var c;
      placed := [];
      for i := 0 to |servers|
        invariant Valid(NULL) && ValidRun(pool.run) && Pooled() == {} && RANK_JOB !in scheduler.queue
        invariant this.servers == table && from <= |world.lookups|
        invariant |placed| == i && Loaded(rows, placed, from)
      {
        c := LoadOne(servers[i], rows, placed, from);
        Sizes(NULL);
        placed := placed + [c];
      }
      for i := 0 to |masters|
        invariant Valid(NULL) && ValidRun(pool.run) && Pooled() == {} && RANK_JOB !in scheduler.queue
        invariant this.servers == table && from <= |world.lookups|
        invariant |placed| == |servers| + i && Loaded(rows, placed, from)
      {
        c := LoadOne(masters[i], rows, placed, from);
        Sizes(NULL);
        placed := placed + [c];
      }
    }

    lemma NothingLoaded(rows: seq<Info>, from: nat)
      requires clients.info.Length == MAX_NETCLIENTS && from <= |world.lookups|
      ensures Loaded(rows, [], from)
    {
    }
  }
}
