/** Where clients are, and what becomes of them, in terms of values. */
module Places {
  import opened Basics
  import opened World
  import opened PoolModel
  import opened EntryList
  import opened Netclients
  import opened Backoff

  const RANK_JOB: int := MAX_NETCLIENTS

  /** Every client is in exactly one place: the free list, the scheduler, the pool, or in
      the hands of the handler that holds it. */
  ghost predicate Placed(c: int, free: seq<int>, queue: seq<int>, pooled: set<int>, held: int) {
    if c in free then c !in queue && c !in pooled && c != held
    else if c in queue then c !in pooled && c != held
    else c in pooled <==> c != held
  }

  ghost predicate AllPlaced(free: seq<int>, queue: seq<int>, pooled: set<int>, held: int) {
    forall c :: 0 <= c < MAX_NETCLIENTS ==> Placed(c, free, queue, pooled, held)
  }

  /** Everybody is in the free list at first. */
  lemma AllPlacedFree(free: seq<int>)
    requires forall c :: 0 <= c < MAX_NETCLIENTS ==> c in free
    ensures AllPlaced(free, [], {}, NULL)
  {
  }

  /** One client moves from one place to another, and nobody else does. */
  lemma OneMoves(c: int, free: seq<int>, queue: seq<int>, pooled: set<int>, held: int,
                 free': seq<int>, queue': seq<int>, pooled': set<int>, held': int)
    requires AllPlaced(free, queue, pooled, held)
    requires forall x :: 0 <= x < MAX_NETCLIENTS && x != c ==>
               && (x in free <==> x in free') && (x in queue <==> x in queue')
               && (x in pooled <==> x in pooled') && (x == held <==> x == held')
    requires 0 <= c < MAX_NETCLIENTS ==> Placed(c, free', queue', pooled', held')
    ensures AllPlaced(free', queue', pooled', held')
  {
    forall x | 0 <= x < MAX_NETCLIENTS
      ensures Placed(x, free', queue', pooled', held')
    {
      assert Placed(x, free, queue, pooled, held);
    }
  }

  /** The head of a list is taken. */
  lemma HeadTaken(s: seq<int>, x: int, rest: seq<int>)
    requires s == [x] + rest && Distinct(s)
    ensures x !in rest && x in s && |rest| < |s| && forall y :: y in s <==> y == x || y in rest
  {
    assert s[1..] == rest;
  }

  /** Only slots of clients are placed. */
  lemma UsedSlots(free: seq<int>, queue: seq<int>, pooled: set<int>)
    requires AllPlaced(free, queue, pooled, NULL)
    ensures forall c :: 0 <= c < MAX_NETCLIENTS ==> Placed(c, free, queue, pooled, NULL)
  {
  }

  // ---- Survival ----------------------------------------------------------------------

  ghost predicate GivenUpBy(lastseen: int, now: int) {
    lastseen != 0 && now - lastseen >= 86400
  }

  /** A client that was given up: its slot, what was known of it, and when it was. */
  datatype Gone = Gone(slot: int, info: Info, date: int)

  /** Only servers are given up, and only after a day of silence. */
  ghost predicate AllGivenUp(gone: seq<Gone>) {
    forall k :: 0 <= k < |gone| ==>
      gone[k].info.kind == ServerKind && GivenUpBy(gone[k].info.lastseen, gone[k].date)
  }

  ghost predicate IsGone(slot: int, gone: seq<Gone>, from: nat) {
    exists k :: from <= k < |gone| && gone[k].slot == slot
  }

  /** From one state to a later one, every client stays a client of its kind, unless it is
      a server and is given up in between. */
  ghost predicate Survive(live: map<int, Kind>, gone: seq<Gone>, live': map<int, Kind>, gone': seq<Gone>) {
    && gone <= gone'
    && forall c :: c in live ==>
        (c in live' && live'[c] == live[c]) || (live[c] == ServerKind && IsGone(c, gone', |gone|))
  }

  lemma SurviveNothing(live: map<int, Kind>, gone: seq<Gone>)
    ensures Survive(live, gone, live, gone)
  {
  }

  /** A server is given up; the others stay. */
  lemma OneGivenUp(live: map<int, Kind>, gone: seq<Gone>, g: Gone)
    requires g.slot in live && live[g.slot] == ServerKind
    ensures Survive(live, gone, live - {g.slot}, gone + [g])
  {
    assert (gone + [g])[|gone|] == g;
  }

  lemma SurviveTwice(live: map<int, Kind>, gone: seq<Gone>, live1: map<int, Kind>, gone1: seq<Gone>,
                     live2: map<int, Kind>, gone2: seq<Gone>)
    requires Survive(live, gone, live1, gone1) && Survive(live1, gone1, live2, gone2)
    ensures Survive(live, gone, live2, gone2)
  {
    assert gone <= gone2;
    forall c | c in live
      ensures (c in live2 && live2[c] == live[c]) || (live[c] == ServerKind && IsGone(c, gone2, |gone|))
    {
      if IsGone(c, gone1, |gone|) {
        var k :| |gone| <= k < |gone1| && gone1[k].slot == c;
        assert gone2[k] == gone1[k];
      }
    }
  }

  // ---- New servers -------------------------------------------------------------------

  /** A server of which nothing is known but its name, due at once. */
  function NewServer(name: (Name, Name)): Info {
    Info(ServerKind, name.0, name.1, false, NEVER_SEEN, 0)
  }

  /** Who is scheduled, with what dates, which slots are free, and what was looked up. */
  datatype Scheduled = Scheduled(queue: seq<int>, info: seq<Info>, free: seq<int>, lookups: seq<Lookup>)

  /** Whoever is scheduled stays so, every client keeps its dates, and no slot gets free. */
  ghost predicate OnlyMore(s: Scheduled, t: Scheduled) {
    && |s.info| == |t.info|
    && (forall x :: x in s.queue ==> x in t.queue)
    && (forall x :: x in t.free ==> x in s.free) && (s.free == [] ==> t.free == [])
    && (forall x :: 0 <= x < |s.info| && x !in s.free ==> t.info[x] == s.info[x])
    && s.lookups <= t.lookups
  }

  lemma OnlyMoreNothing(s: Scheduled)
    ensures OnlyMore(s, s)
  {
  }

  lemma OnlyMoreTwice(s: Scheduled, t: Scheduled, u: Scheduled)
    requires OnlyMore(s, t) && OnlyMore(t, u)
    ensures OnlyMore(s, u) && |s.lookups| <= |u.lookups|
  {
  }

  /** A server of that name, never seen, and due at once. */
  ghost predicate IsNew(info: Info, name: (Name, Name)) {
    && info.kind == ServerKind && info.node == name.0 && info.service == name.1
    && info.lastseen == 0 && info.expire == 0
  }

  ghost predicate HasClient(name: (Name, Name), t: Scheduled) {
    exists c :: 0 <= c < |t.info| && c in t.queue && c !in t.free && IsNew(t.info[c], name)
  }

  /** A server that was announced is scheduled as a new client, or its lookup, which came
      after the first "from", had no answer, or no slot is left. */
  ghost predicate Referenced(name: (Name, Name), t: Scheduled, from: nat) {
    || HasClient(name, t)
    || t.free == []
    || (from <= |t.lookups| && Lookup(name.0, name.1, None) in t.lookups[from..])
  }

  /** All servers are that were not known before. */
  ghost predicate AllReferenced(servers: set<(Name, Name)>, known: set<(Name, Name)>, t: Scheduled, from: nat) {
    forall name :: name in servers && name !in known ==> Referenced(name, t, from)
  }

  lemma NothingReferenced(servers: set<(Name, Name)>, t: Scheduled)
    ensures AllReferenced(servers, servers, t, |t.lookups|)
  {
  }

  lemma ReferencedLater(name: (Name, Name), s: Scheduled, t: Scheduled, from: nat)
    requires Referenced(name, s, from) && OnlyMore(s, t)
    ensures Referenced(name, t, from)
  {
    if HasClient(name, s) {
      var c :| 0 <= c < |s.info| && c in s.queue && c !in s.free && IsNew(s.info[c], name);
      assert IsNew(t.info[c], name);
    } else if s.free != [] {
      LaterLookups(s.lookups, t.lookups, from);
    }
  }

  /** One more server is referenced. */
  lemma ReferencedStays(servers: set<(Name, Name)>, known: set<(Name, Name)>, s: Scheduled, t: Scheduled,
                        from: nat, name: (Name, Name))
    requires AllReferenced(servers, known, s, from) && OnlyMore(s, t) && from <= |s.lookups|
    requires name !in servers ==> Referenced(name, t, |s.lookups|)
    ensures AllReferenced(servers + {name}, known, t, from)
  {
    forall n | n in servers + {name} && n !in known
      ensures Referenced(n, t, from)
    {
      if n in servers {
        ReferencedLater(n, s, t, from);
      } else {
        assert t.lookups[|s.lookups|..] == t.lookups[from..][|s.lookups| - from..];
      }
    }
  }

  lemma LaterLookups(looked: seq<Lookup>, lookups: seq<Lookup>, from: nat)
    requires looked <= lookups && from <= |looked|
    ensures forall x :: x in looked[from..] ==> x in lookups[from..]
    ensures |looked| < |lookups| ==> lookups[|looked|] in lookups[from..]
  {
    assert lookups[from..] == looked[from..] + lookups[|looked|..];
  }

  // ---- What masters announced ---------------------------------------------------------

  /** The names in an answer of a master, and how many clients had been given up by then. */
  datatype Heard = Heard(names: set<(Name, Name)>, lost: nat)

  ghost predicate IsNameGone(name: (Name, Name), gone: seq<Gone>, from: nat) {
    exists k :: from <= k < |gone| && (gone[k].info.node, gone[k].info.service) == name
  }

  /** Every server that was announced is known, unless it was given up since. */
  ghost predicate Known(heard: seq<Heard>, servers: set<(Name, Name)>, gone: seq<Gone>) {
    && (forall k :: 0 <= k < |heard| ==> heard[k].lost <= |gone|)
    && forall k, name :: 0 <= k < |heard| && name in heard[k].names ==>
         name in servers || IsNameGone(name, gone, heard[k].lost)
  }

  lemma KnownMore(heard: seq<Heard>, servers: set<(Name, Name)>, gone: seq<Gone>, names: set<(Name, Name)>)
    requires Known(heard, servers, gone)
    ensures Known(heard + [Heard(names, |gone|)], servers + names, gone)
  {
  }

  lemma KnownWithout(heard: seq<Heard>, servers: set<(Name, Name)>, gone: seq<Gone>, g: Gone)
    requires Known(heard, servers, gone)
    ensures Known(heard, servers - {(g.info.node, g.info.service)}, gone + [g])
  {
    forall k, name | 0 <= k < |heard| && name in heard[k].names
      ensures name in servers - {(g.info.node, g.info.service)} || IsNameGone(name, gone + [g], heard[k].lost)
    {
      if name in servers {
        assert (gone + [g])[|gone|] == g;
      } else {
        var i :| heard[k].lost <= i < |gone| && (gone[i].info.node, gone[i].info.service) == name;
        assert (gone + [g])[i] == gone[i];
      }
    }
  }

  // ---- What becomes of polls ---------------------------------------------------------

  /** The state of the updater, as far as polls change it. */
  datatype Polls = Polls(pooled: set<int>, queue: seq<int>, info: seq<Info>, log: seq<Event<int>>,
                         gone: seq<Gone>, servers: set<(Name, Name)>, heard: seq<Heard>)

  /** A client whose poll ended at "since" or later is scheduled at a date after that, and
      was seen if it answered. */
  ghost predicate Done(c: int, p: Polls, since: int) {
    && 0 <= c < |p.info| && c in p.queue
    && since + 240 <= p.info[c].expire
    && (AnsweredSince(p.log, c) ==> since <= p.info[c].lastseen)
  }

  lemma DoneStays(p: Polls, q: Polls)
    requires q.info == p.info && q.log == p.log && forall x :: x in p.queue ==> x in q.queue
    ensures forall c, since :: Done(c, p, since) ==> Done(c, q, since)
  {
  }

  /** A client is still being polled, or is given up, or its poll is done. */
  ghost predicate Outcome(c: int, p: Polls, since: int, lost: nat) {
    c in p.pooled || IsGone(c, p.gone, lost) || Done(c, p, since)
  }

  /** Servers leave the pool when they answer. */
  ghost predicate Unanswered(p: Polls, but: int) {
    forall x :: x in p.pooled && x != but && 0 <= x < |p.info| && p.info[x].kind == ServerKind ==>
      !AnsweredSince(p.log, x)
  }

  /** Nothing that the pool returned has been left undone. */
  ghost predicate Tidy(p: Polls, todo: set<int>, since: int, lost: nat) {
    && lost <= |p.gone| && NULL !in todo
    && (forall c :: c in todo ==> Outcome(c, p, since, lost))
    && Unanswered(p, NULL) && Known(p.heard, p.servers, p.gone)
  }

  /** The names a packet of a master is about. */
  ghost predicate JustHeard(p: Polls, names: set<(Name, Name)>) {
    && p.heard != [] && p.heard[|p.heard| - 1] == Heard(names, |p.gone|)
    && Known(p.heard[..|p.heard| - 1], p.servers, p.gone)
  }

  /** The same, but for one client, which the pool has just returned. */
  ghost predicate TidyBut(p: Polls, c: int, todo: set<int>, since: int, lost: nat) {
    && lost <= |p.gone| && NULL !in todo
    && (forall x :: x in todo && x != c ==> Outcome(x, p, since, lost))
    && Unanswered(p, c)
  }

  /** Nothing changes for the others. */
  ghost predicate OthersStay(p: Polls, q: Polls, c: int) {
    && |q.info| == |p.info| && p.gone <= q.gone && q.heard == p.heard
    && (forall x :: x in p.queue ==> x in q.queue)
    && (forall x :: x != c ==> (x in q.pooled <==> x in p.pooled))
    && (forall x :: x != c && 0 <= x < |p.info| && (x in p.queue || x in p.pooled) ==> q.info[x] == p.info[x])
    && (forall x :: AnsweredSince(q.log, x) <==> AnsweredSince(p.log, x))
  }

  lemma OutcomeStays(p: Polls, q: Polls, c: int, x: int, since: int, lost: nat)
    requires OthersStay(p, q, c) && x != c && Outcome(x, p, since, lost)
    ensures Outcome(x, q, since, lost)
  {
    if IsGone(x, p.gone, lost) {
      var k :| lost <= k < |p.gone| && p.gone[k].slot == x;
      assert q.gone[k] == p.gone[k];
    }
  }

  /** The poll of a client ends. */
  lemma PollEnds(p: Polls, q: Polls, c: int, todo: set<int>, since: int, lost: nat)
    requires TidyBut(p, c, todo, since, lost) && OthersStay(p, q, c)
    requires c !in q.pooled && Known(q.heard, q.servers, q.gone)
    requires IsGone(c, q.gone, |p.gone|) || Done(c, q, since)
    ensures Tidy(q, todo, since, lost)
  {
    hide Known, Done;
    forall x | x in todo
      ensures Outcome(x, q, since, lost)
    {
      if x != c {
        OutcomeStays(p, q, c, x, since, lost);
      } else if IsGone(c, q.gone, |p.gone|) {
        var k :| |p.gone| <= k < |q.gone| && q.gone[k].slot == c;
      }
    }
  }

  /** The poll of a master goes on, once its packet has been read. */
  lemma PollGoesOn(p: Polls, q: Polls, c: int, names: set<(Name, Name)>, todo: set<int>, since: int, lost: nat)
    requires TidyBut(p, c, todo, since, lost) && JustHeard(p, names)
    requires OthersStay(p, q, NULL) && q.gone == p.gone && q.servers == p.servers + names
    requires c != NULL && c in p.pooled && 0 <= c < |p.info| && p.info[c].kind == MasterKind
    ensures Tidy(q, todo, since, lost)
  {
    KnownMore(p.heard[..|p.heard| - 1], p.servers, p.gone, names);
    assert p.heard == p.heard[..|p.heard| - 1] + [Heard(names, |p.gone|)];
    hide Known, Done;
    forall x | x in todo
      ensures Outcome(x, q, since, lost)
    {
      if x != c {
        OutcomeStays(p, q, NULL, x, since, lost);
      }
    }
  }

  /** The pool returns a client: without a packet, its poll failed. */
  ghost predicate PoolReturned(p: Polls, q: Polls, c: int, answered: bool) {
    && q.queue == p.queue && q.info == p.info && q.gone == p.gone && q.servers == p.servers
    && q.pooled == p.pooled - (if answered then {} else {c})
    && (forall x :: x != c ==> (AnsweredSince(q.log, x) <==> AnsweredSince(p.log, x)))
    && (!answered ==> (AnsweredSince(q.log, c) <==> AnsweredSince(p.log, c)))
  }

  lemma HeardAside(p: Polls, q: Polls, c: int, answered: bool, heard: seq<Heard>)
    requires PoolReturned(p, q, c, answered)
    ensures PoolReturned(p, q.(heard := heard), c, answered)
  {
  }

  lemma TidyReturn(p: Polls, q: Polls, c: int, answered: bool, todo: set<int>, since: int, lost: nat)
    requires Tidy(p, todo, since, lost) && PoolReturned(p, q, c, answered) && c in p.pooled
    ensures TidyBut(q, c, todo, since, lost)
    ensures !answered && 0 <= c < |q.info| && q.info[c].kind == ServerKind && c != NULL ==> !AnsweredSince(q.log, c)
  {
  }

  lemma TidyNothing(p: Polls, q: Polls, todo: set<int>, since: int, lost: nat)
    requires Tidy(p, todo, since, lost) && PoolReturned(p, q, NULL, false) && q.heard == p.heard
    ensures Tidy(q, todo, since, lost)
  {
    forall c | c in todo
      ensures Outcome(c, q, since, lost)
    {
      assert Outcome(c, p, since, lost);
    }
  }

  lemma TidyEnd(p: Polls, todo: set<int>, since: int, lost: nat)
    requires Tidy(p, todo, since, lost) && p.pooled == {}
    ensures Known(p.heard, p.servers, p.gone)
    ensures forall c :: c in todo ==> IsGone(c, p.gone, lost) || Done(c, p, since)
  {
    assert forall c :: c in todo ==> Outcome(c, p, since, lost);
  }

  lemma {:induction false} NotAnswered(log: seq<Event<int>>, ev: Event<int>, x: int)
    requires !ev.Added? && (ev.Answered? ==> ev.entry != x)
    ensures AnsweredSince(log + [ev], x) <==> AnsweredSince(log, x)
  {
    assert (log + [ev])[..|log|] == log;
  }

  /** Attempts and expiries, and the return of an entry, answer nobody else. */
  lemma ReturnAnswers(log: seq<Event<int>>, more: seq<Event<int>>, last: seq<Event<int>>, c: int)
    requires AllInternal(more) && |last| <= 1
    requires forall k :: 0 <= k < |last| ==> last[k] == GivenUp(c) || last[k] == Answered(c)
    ensures forall x :: x != c || last != [Answered(c)] ==>
      (AnsweredSince(log + (more + last), x) <==> AnsweredSince(log, x))
  {
    forall x | x != c || last != [Answered(c)]
      ensures AnsweredSince(log + (more + last), x) <==> AnsweredSince(log, x)
    {
      InternalAnswersNothing(log, more, x);
      if last == [] {
        assert more + last == more;
      } else {
        assert last == [last[0]] && log + (more + last) == log + more + [last[0]];
        NotAnswered(log + more, last[0], x);
      }
    }
  }

  // ---- Polls that begin --------------------------------------------------------------

  /** The log has grown. */
  ghost predicate Grows(log: seq<Event<int>>, log': seq<Event<int>>) {
    log <= log'
  }

  lemma GrowsBy(log: seq<Event<int>>, more: seq<Event<int>>)
    ensures Grows(log, log + more)
  {
  }

  lemma GrowsNothing(log: seq<Event<int>>)
    ensures Grows(log, log)
  {
  }

  lemma GrowsTwice(log: seq<Event<int>>, log1: seq<Event<int>>, log2: seq<Event<int>>)
    requires Grows(log, log1) && Grows(log1, log2)
    ensures Grows(log, log2)
  {
  }

  /** A client was added to the pool between two states of the log. */
  ghost predicate AddedSince(c: int, log: seq<Event<int>>, log': seq<Event<int>>) {
    Grows(log, log') && exists k :: |log| <= k < |log'| && log'[k] == Added(c)
  }

  lemma AddedLater(c: int, log: seq<Event<int>>, log1: seq<Event<int>>, log2: seq<Event<int>>)
    requires AddedSince(c, log, log1) && Grows(log1, log2)
    ensures AddedSince(c, log, log2)
  {
    var k :| |log| <= k < |log1| && log1[k] == Added(c);
    assert log2[k] == log1[k];
  }

  lemma AddedEarlier(c: int, log: seq<Event<int>>, log1: seq<Event<int>>, log2: seq<Event<int>>)
    requires Grows(log, log1) && AddedSince(c, log1, log2)
    ensures AddedSince(c, log, log2)
  {
    GrowsTwice(log, log1, log2);
    var k :| |log1| <= k < |log2| && log2[k] == Added(c);
  }

  /** The scheduler and the pool, as far as starting jobs changes them. */
  datatype Jobs = Jobs(queue: seq<int>, pooled: set<int>, log: seq<Event<int>>)

  /** Of the jobs scheduled, some that were due by "now" have been started: the clients
      among them were added to the pool.  Everything else is where it was. */
  ghost predicate Started(s: Jobs, t: Jobs, dates: seq<int>, now: int) {
    && Grows(s.log, t.log)
    && (forall x :: x in t.queue ==> x in s.queue)
    && (forall x :: x in s.pooled ==> x in t.pooled)
    && (forall x :: x in t.pooled ==> x in s.pooled || (x in s.queue && x !in t.queue))
    && (forall x :: AnsweredSince(t.log, x) ==> AnsweredSince(s.log, x))
    && forall x :: x in s.queue && x !in t.queue ==> Begun(x, s, t, dates, now)
  }

  ghost predicate Begun(x: int, s: Jobs, t: Jobs, dates: seq<int>, now: int) {
    && 0 <= x < |dates| && dates[x] <= now
    && (x != RANK_JOB ==> x in t.pooled && AddedSince(x, s.log, t.log) && !AnsweredSince(t.log, x))
  }

  lemma NothingStarted(s: Jobs, dates: seq<int>, now: int)
    ensures Started(s, s, dates, now)
  {
  }

  /** One due job leaves the queue, a client for the pool. */
  lemma OneStarted(s: Jobs, t: Jobs, job: int, dates: seq<int>, now: int)
    requires forall x :: x in s.queue <==> x == job || x in t.queue
    requires 0 <= job < |dates| && dates[job] <= now && job !in t.queue
    requires if job == RANK_JOB then t.pooled == s.pooled && t.log == s.log
             else t.pooled == s.pooled + {job} && t.log == s.log + [Added(job)]
    ensures Started(s, t, dates, now)
  {
    if job != RANK_JOB {
      assert t.log[|s.log|] == Added(job);
      assert t.log[..|s.log|] == s.log;
    }
  }

  lemma Regroup<T>(a: seq<T>, b: seq<T>, c: seq<T>)
    ensures (a + b) + c == a + (b + c)
  {
  }

  lemma StartedTwice(s: Jobs, t: Jobs, u: Jobs, dates: seq<int>, now: int, later: int)
    requires Started(s, t, dates, now) && Started(t, u, dates, later) && now <= later
    ensures Started(s, u, dates, later)
  {
    GrowsTwice(s.log, t.log, u.log);
    forall x | x in s.queue && x !in u.queue
      ensures Begun(x, s, u, dates, later)
    {
      if x != RANK_JOB {
        if x in t.queue {
          assert Begun(x, t, u, dates, later);
          AddedEarlier(x, s.log, t.log, u.log);
        } else {
          assert Begun(x, s, t, dates, now);
          AddedLater(x, s.log, t.log, u.log);
        }
      } else if x in t.queue {
        assert Begun(x, t, u, dates, later);
      } else {
        assert Begun(x, s, t, dates, now);
      }
    }
  }

  /** With nobody in the pool before, nothing has been left undone. */
  lemma StartedTidy(s: Jobs, t: Jobs, dates: seq<int>, now: int, p: Polls, since: int)
    requires Started(s, t, dates, now) && s.pooled == {} && Known(p.heard, p.servers, p.gone)
    requires p.pooled == t.pooled && p.log == t.log && |p.info| == MAX_NETCLIENTS
    ensures Tidy(p, t.pooled, since, |p.gone|)
  {
    forall x | x in t.pooled
      ensures x != NULL && (x != RANK_JOB ==> !AnsweredSince(t.log, x))
    {
      assert Begun(x, s, t, dates, now);
    }
  }

  /** Every client in some jobs' queue was added to the pool when nothing left is due. */
  lemma DueBegun(s: Jobs, t: Jobs, dates: seq<int>, now: int, c: int)
    requires Started(s, t, dates, now) && c in s.queue && c !in t.queue && c != RANK_JOB
    ensures AddedSince(c, s.log, t.log) && c in t.pooled
  {
    assert Begun(c, s, t, dates, now);
  }
}
