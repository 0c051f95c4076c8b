/** The polling pool: three intrusive lists, a window of pending requests and a
    budget of retries, over a nondeterministic network and clock. */
module Pool {
  import opened Basics
  import opened Truncation
  import opened World
  import opened PoolModel
  import opened EntryList
  import opened Sends

  const MAX_PING := 999

  /** What a pool entry holds besides its links. */
  datatype Data = Data(addr: Address, request: Request, retries: nat, polled: bool, startTime: int)

  /** The test of the expiry walk.  The elapsed time is already a whole number of
      seconds when it is compared with the ping limit. */
  predicate IsOverdue(now: int, startTime: int, ticksPerSecond: Positive) {
    TruncDiv(now - startTime, ticksPerSecond) as real >= MAX_PING as real / 1000.0
  }

  /** A request expires a full second after it was sent, not after 999 ms. */
  lemma OverdueAfterASecond(now: int, startTime: int, ticksPerSecond: Positive)
    ensures IsOverdue(now, startTime, ticksPerSecond) <==> now - startTime >= ticksPerSecond
  {
    var elapsed := now - startTime;
    if elapsed >= 0 {
      DivAtLeastOne(elapsed, ticksPerSecond);
    } else {
      DivAtLeastOne(-elapsed, ticksPerSecond);
    }
  }

  lemma DivAtLeastOne(a: nat, b: Positive)
    ensures a / b >= 0 && (a / b >= 1 <==> a >= b)
  {
  }

  method CheckOverdue(now: int, startTime: int, ticksPerSecond: Positive) returns (overdue: bool)
    ensures overdue <==> now - startTime >= ticksPerSecond
  {
    OverdueAfterASecond(now, startTime, ticksPerSecond);
    overdue := IsOverdue(now, startTime, ticksPerSecond);
  }

  class Pool {
    const next: array<int>
    const prev: array<int>
    const data: array<Data>
    const idle: EntryList
    const pending: EntryList
    const failed: EntryList
    var nrPending: nat
    ghost var run: Run<int>
    ghost var aims: seq<Target>    // for each event of the log, the target its entry had

    ghost function Entries(): set<int>
      reads idle, pending, failed
    {
      (set e | e in idle.elems) + (set e | e in pending.elems) + (set e | e in failed.elems)
    }

    /** Three separate, well-linked lists over the same array. */
    ghost predicate Shape()
      reads idle, pending, failed, next, prev
    {
      && idle != pending && idle != failed && pending != failed
      && idle.tracked && !pending.tracked && !failed.tracked
      && idle.next == pending.next == failed.next == next
      && idle.prev == pending.prev == failed.prev == prev
      && next.Length == data.Length
      && idle.Valid() && pending.Valid() && failed.Valid()
      && Disjoint(idle.elems, pending.elems)
      && Disjoint(idle.elems, failed.elems)
      && Disjoint(pending.elems, failed.elems)
    }

    /** The lists and their entries are those of a model state. */
    ghost predicate Agrees(s: Lists<int>)
      reads idle, pending, failed, data
    {
      && idle.elems == s.idle && pending.elems == s.pending && failed.elems == s.failed
      && forall e :: e in s.retries ==> Matches(s, e)
    }

    ghost predicate Matches(s: Lists<int>, e: int)
      reads data
    {
      && e in s.retries && 0 <= e < data.Length
      && data[e].retries == s.retries[e] && (data[e].polled <==> e in s.polled)
    }

    ghost predicate Valid()
      reads `run, `nrPending, idle, pending, failed, next, prev, data
    {
      && Shape()
      && nrPending == |pending.elems|
      && ValidRun(run)
      && Agrees(Now(run))
    }

    /** The requests that went out for all entries so far. */
    ghost function Requests(): seq<Target>
      requires Traced()
      reads `run, `aims, data
    {
      Posted(run.log, aims)
    }

    constructor (size: nat)
      ensures Valid() && run.log == [] && fresh(idle) && fresh(pending) && fresh(failed)
      ensures fresh(next) && fresh(prev) && fresh(data) && data.Length == size
      ensures Entries() == {} && aims == []
    {
      hide EntryList.Valid, Enabled, Apply, Distinct;
      var n, p := new int[size], new int[size];
      next, prev := n, p;
      data := new Data[size](_ => Data(Inet([], 0), GetInfo, 0, false, 0));
      idle := new EntryList(n, p, true);
      pending := new EntryList(n, p, false);
      failed := new EntryList(n, p, false);
      nrPending, run, aims := 0, Run([], [Empty()]), [];
    }

    /** What the polling loop has to know of a valid pool. */
    lemma Facts()
      requires Valid()
      ensures ValidRun(run) && InArray(pending.elems, data.Length)
      ensures pending.head == At(pending.elems, 0) && (pending.head == NULL <==> pending.elems == [])
      ensures idle.elems == Now(run).idle && pending.elems == Now(run).pending && failed.elems == Now(run).failed
    {
    }

    lemma EntriesAreMembers()
      requires Valid()
      ensures ValidRun(run) && Entries() == Members(Now(run))
    {
    }

    lemma TracedFirst()
      requires run.log == [] && aims == []
      ensures Traced() && Requests() == []
    {
      NothingAimed(Targets());
    }

    /** Puts an entry that is in no list at the head of one. */
    method Push(list: EntryList, entry: int)
      requires Shape() && entry !in Entries() && 0 <= entry < next.Length
      requires list == idle || list == pending || list == failed
      modifies list, next, prev
      ensures Shape() && list.elems == [entry] + old(list.elems)
      ensures list != idle ==> idle.elems == old(idle.elems)
      ensures list != pending ==> pending.elems == old(pending.elems)
      ensures list != failed ==> failed.elems == old(failed.elems)
    {
      hide Distinct;
      if list == idle {
        InsertBeside(idle, entry, pending, failed);
      } else if list == pending {
        InsertBeside(pending, entry, idle, failed);
      } else {
        InsertBeside(failed, entry, idle, pending);
      }
    }

    /** Takes an entry out of the list it is in. */
    method Take(list: EntryList, entry: int)
      requires Shape() && entry in list.elems && (list == idle || list == pending || list == failed)
      modifies list, next, prev
      ensures Shape() && list.elems == Without(old(list.elems), entry)
      ensures list != idle ==> idle.elems == old(idle.elems)
      ensures list != pending ==> pending.elems == old(pending.elems)
      ensures list != failed ==> failed.elems == old(failed.elems)
      ensures entry !in Entries()
    {
      hide Distinct, Without;
      if list == idle {
        RemoveBeside(idle, entry, pending, failed);
      } else if list == pending {
        RemoveBeside(pending, entry, idle, failed);
      } else {
        RemoveBeside(failed, entry, idle, pending);
      }
    }

    /** One event happened. */
    twostate predicate Did(new ev: Event<int>)
      reads `run
    {
      Happens(old(run), ev, run)
    }

    /** Where entries are sent, and what. */
    ghost function Targets(): (r: seq<Target>)
      reads data
      ensures |r| == data.Length
      ensures forall e :: 0 <= e < data.Length ==> r[e] == (data[e].addr, data[e].request)
    {
      seq(data.Length, e requires 0 <= e < data.Length reads data => (data[e].addr, data[e].request))
    }

    /** Nobody but the caller who adds an entry says where it is sent and what. */
    twostate predicate SameTargets()
      reads data
    {
      Targets() == old(Targets())
    }

    twostate predicate SameStarts()
      reads data
    {
      && SameTargets()
      && forall e :: 0 <= e < data.Length ==> data[e].startTime == old(data[e].startTime)
    }

    /** What went out are the requests of the attempts in "more", and nothing else. */
    twostate predicate SentFor(world: World, new more: seq<Event<int>>)
      reads data, world
    {
      Sending(old(world.sent), old(Targets()), more, world.sent, Targets())
    }

    /** The target of each event is known, and that of an entry has been the same since
        it was added. */
    ghost predicate Traced()
      reads `run, `aims, data
    {
      AllAimed(run.log, aims, Targets())
    }

    /** The lists have just changed the way an event says. */
    ghost method Record(ev: Event<int>)
      requires Shape() && nrPending == |pending.elems| && ValidRun(run)
      requires Enabled(Now(run), ev) && Agrees(Apply(Now(run), ev))
      modifies this`run
      ensures Valid() && Did(ev)
    {
      run := Then(run, ev);
    }

    method PutIdle(entry: int, d: Data)
      requires Valid() && entry !in Entries() && 0 <= entry < data.Length && d.retries == 0 && !d.polled
      modifies this`run, idle, next, prev, data
      ensures Valid() && Did(Added(entry)) && data[entry] == d
      ensures forall e :: 0 <= e < data.Length && e != entry ==> data[e] == old(data[e])
    {
      RunWellFormed(run);
      data[entry] := d;
      Push(idle, entry);
      Record(Added(entry));
    }

    method AddPoolEntry(entry: int, addr: Address, request: Request)
      requires Valid() && entry !in Entries() && 0 <= entry < data.Length && Traced()
      modifies this`run, this`aims, idle, next, prev, data
      ensures Valid() && Did(Added(entry)) && data[entry] == Data(addr, request, 0, false, 0)
      ensures forall e :: 0 <= e < data.Length && e != entry ==> data[e] == old(data[e])
      ensures Traced() && Requests() == old(Requests())
    {
      hide Valid, AllAimed;
      ghost var log, targets := run.log, Targets();
      PutIdle(entry, Data(addr, request, 0, false, 0));
      AimedNext(log, aims, Added(entry), targets, Targets());
      PostedNothing(log, aims, Added(entry), (addr, request));
      aims := aims + [(addr, request)];
    }

    method Retry(entry: int, ghost s: Lists<int>, ghost ev: Event<int>)
      requires Shape() && nrPending == |pending.elems| && entry !in Entries()
      requires Agrees(s) && Matches(s, entry) && s.retries[entry] != MAX_RETRIES
      requires ValidRun(run) && Enabled(Now(run), ev) && Apply(Now(run), ev) == Expire(s, entry)
      modifies this`run, idle, next, prev, data
      ensures Valid() && Did(ev) && SameStarts()
    {
      hide EntryList.Valid;
      data[entry] := data[entry].(retries := data[entry].retries + 1);
      Push(idle, entry);
      Record(ev);
    }

    /** An entry that got no answer is retried or, out of retries, has failed.
        "s" is the state of the pool while the entry is in no list. */
    method EntryExpired(entry: int, ghost s: Lists<int>, ghost ev: Event<int>)
      requires Shape() && nrPending == |pending.elems| && entry !in Entries()
      requires Agrees(s) && Matches(s, entry)
      requires ValidRun(run) && Enabled(Now(run), ev) && Apply(Now(run), ev) == Expire(s, entry)
      modifies this`run, idle, failed, next, prev, data
      ensures Valid() && Did(ev) && SameStarts()
    {
      if data[entry].retries == MAX_RETRIES {
        Push(failed, entry);
        Record(ev);
      } else {
        Retry(entry, s, ev);
      }
    }

    /** The model state while the last idle entry is in no list. */
    ghost function WithoutIdleLast(): Lists<int>
      requires ValidRun(run) && Now(run).idle != []
      reads this
    {
      Now(run).(idle := Now(run).idle[..|Now(run).idle| - 1])
    }

    /** The request of an entry, already taken out of the idle list, is on its way. */
    method StartWaiting(entry: int, now: int)
      requires Shape() && nrPending == |pending.elems| && entry !in Entries()
      requires ValidRun(run) && Enabled(Now(run), Sent(entry)) && Matches(Now(run), entry)
      requires Agrees(WithoutIdleLast())
      modifies this`run, this`nrPending, pending, next, prev, data
      ensures Valid() && Did(Sent(entry)) && SameTargets() && data[entry].startTime == now
    {
      data[entry] := data[entry].(startTime := now);
      Push(pending, entry);
      nrPending := nrPending + 1;
      Record(Sent(entry));
    }

    /** Takes the last idle entry out of its list. */
    method TakeIdleLast(entry: int)
      requires Valid() && entry == idle.tail && entry != NULL && nrPending < MAX_PENDING
      modifies idle, next, prev
      ensures Shape() && nrPending == |pending.elems| && entry !in Entries()
      ensures ValidRun(run) && Enabled(Now(run), Sent(entry)) && Matches(Now(run), entry)
      ensures Now(run).idle != [] && Agrees(WithoutIdleLast()) && Matches(WithoutIdleLast(), entry)
      ensures Enabled(Now(run), Unsent(entry)) && Apply(Now(run), Unsent(entry)) == Expire(WithoutIdleLast(), entry)
    {
      RunMember(run, entry);
      WithoutLast(idle.elems);
      Take(idle, entry);
    }

    method AddPendingEntry(world: World, entry: int) returns (ghost ev: Event<int>)
      requires Valid() && entry == idle.tail && entry != NULL && nrPending < MAX_PENDING
      modifies this`run, this`nrPending, world, idle, pending, failed, next, prev, data
      ensures Valid() && SameTargets()
      ensures Did(ev) && 0 <= entry < data.Length
      ensures ev == Unsent(entry) || (ev == Sent(entry) && data[entry].startTime == world.ticks)
      ensures world.Alone() && world.sent == old(world.sent) + [(data[entry].addr, data[entry].request)]
    {
      hide Valid, Shape, Agrees, Matches, ValidRun, Enabled, Apply, Expire, WithoutIdleLast;
      TakeIdleLast(entry);
      var ok := world.Send(data[entry].addr, data[entry].request);
      if !ok {
        EntryExpired(entry, WithoutIdleLast(), Unsent(entry));
        return Unsent(entry);
      }
      var now := world.Times();
      StartWaiting(entry, now);
      ev := Sent(entry);
    }

    method TakePending(entry: int)
      requires Valid() && entry in pending.elems
      modifies this`run, this`nrPending, pending, next, prev
      ensures Valid() && Did(Removed(entry))
    {
      RunWellFormed(run);
      Take(pending, entry);
      nrPending := nrPending - 1;
      Record(Removed(entry));
    }

    method RemovePoolEntry(entry: int)
      requires Valid() && entry in pending.elems && Traced()
      modifies this`run, this`aims, this`nrPending, pending, next, prev
      ensures Valid() && Did(Removed(entry))
      ensures Traced() && Requests() == old(Requests())
    {
      hide Valid, AllAimed;
      AimedNext(run.log, aims, Removed(entry), Targets(), Targets());
      PostedNothing(run.log, aims, Removed(entry), TargetOf(entry, Targets()));
      TakePending(entry);
      aims := aims + [TargetOf(entry, Targets())];
    }

    /** One attempt to send, which uses up a chance. */
    method Attempt(world: World) returns (ghost ev: Event<int>)
      requires Valid() && idle.tail != NULL && nrPending < MAX_PENDING
      modifies this`run, this`nrPending, world, idle, pending, failed, next, prev, data
      ensures Valid() && Did(ev) && (ev.Sent? || ev.Unsent?) && SentFor(world, [ev]) && world.Alone()
      ensures Chances(Now(run).idle, Now(run).retries) < old(Chances(Now(run).idle, Now(run).retries))
    {
      hide Valid, Sending, Apply, Enabled;
      ghost var before, sent, targets := run, world.sent, Targets();
      Facts();
      ev := AddPendingEntry(world, idle.tail);
      AttemptProgress(before, ev, Now(run));
      SendingOne(sent, targets, ev);
    }

    lemma NothingToSend()
      requires Valid() && (idle.tail == NULL || nrPending >= MAX_PENDING)
      ensures idle.elems == [] || |pending.elems| == 25
    {
      WindowRespected(run);
    }

    method FillPendingList(world: World) returns (ghost more: seq<Event<int>>)
      requires Valid()
      modifies this`run, this`nrPending, world, idle, pending, failed, next, prev, data
      ensures Valid() && SentFor(world, more) && (more == [] ==> SameStarts())
      ensures Continues(old(run), run, more) && AllAttempts(more)
      ensures idle.elems == [] || |pending.elems| == 25
      ensures world.Alone()
    {
      more := [];
      assert run.log == run.log + more && AllAttempts(more);
      hide Valid, ValidRun, Sending, Chances, AllAttempts, Continues;
      Facts();
      ghost var sent, targets := world.sent, Targets();
      SendingNothing(sent, targets);
      while idle.tail != NULL && nrPending < MAX_PENDING
        invariant Valid() && ValidRun(run) && SentFor(world, more) && (more == [] ==> SameStarts())
        invariant run.log == old(run.log) + more && AllAttempts(more)
        invariant world.Alone()
        decreases Chances(Now(run).idle, Now(run).retries)
      {
        ghost var midSent, midTargets := world.sent, Targets();
        ghost var ev := Attempt(world);
        Facts();
        OneMoreAttempt(old(run.log), more, ev);
        SendingTwice(sent, targets, more, midSent, midTargets, [ev], world.sent, Targets());
        more := more + [ev];
      }
      NothingToSend();
      AttemptsAreInternal(more);
    }

    /** "late" are the entries of a list whose request has been out for too long. */
    ghost predicate AreLate(s: seq<int>, late: set<int>, now: int, ticksPerSecond: Positive)
      reads data
    {
      forall e :: e in s && 0 <= e < data.Length ==>
        (e in late <==> now - data[e].startTime >= ticksPerSecond)
    }

    /** What the expiry walk does with the pending entry it stands on. */
    method ExpireIfOverdue(entry: int, now: int, ticksPerSecond: Positive)
      requires Valid() && entry in pending.elems && 0 <= entry < data.Length
      modifies this`run, this`nrPending, idle, pending, failed, next, prev, data
      ensures Valid() && SameStarts()
      ensures if now - old(data[entry].startTime) >= ticksPerSecond then Did(Overdue(entry))
              else run == old(run)
    {
      var overdue := CheckOverdue(now, data[entry].startTime, ticksPerSecond);
      if overdue {
        ghost var s := Now(run);
        RunMember(run, entry);
        Take(pending, entry);
        nrPending := nrPending - 1;
        EntryExpired(entry, s.(pending := Without(s.pending, entry)), Overdue(entry));
      }
    }

    /** One step of the expiry walk begun in "start".  Where to go next is read before
        the entry stood on is moved. */
    method WalkOne(entry: int, now: int, ticksPerSecond: Positive,
                   ghost start: Run<int>, ghost k: nat, ghost late: set<int>) returns (nextEntry: int)
      requires Valid() && ValidRun(start) && k < |Now(start).pending| && entry == Now(start).pending[k]
      requires Walked(start, run, k, late) && 0 <= entry < data.Length
      requires AreLate(Now(start).pending, late, now, ticksPerSecond)
      modifies this`run, this`nrPending, idle, pending, failed, next, prev, data
      ensures Valid() && SameStarts() && AreLate(Now(start).pending, late, now, ticksPerSecond)
      ensures nextEntry == At(Now(start).pending, k + 1) && Walked(start, run, k + 1, late)
    {
      WalkPosition(start, run, k, late);
      ghost var j := |Kept(Now(start).pending, k, late)|;
      assert pending.elems[j] == entry;
      nextEntry := next[entry];
      assert nextEntry == At(pending.elems, j + 1) == At(Now(start).pending, k + 1);
      ghost var here := run;
      ExpireIfOverdue(entry, now, ticksPerSecond);
      WalkStep(start, here, k, late, run);
    }

    method WalkPending(now: int, ticksPerSecond: Positive, ghost late: set<int>)
      requires Valid() && AreLate(Now(run).pending, late, now, ticksPerSecond)
      modifies this`run, this`nrPending, idle, pending, failed, next, prev, data
      ensures Valid() && SameStarts()
      ensures Walked(old(run), run, |old(Now(run).pending)|, late)
    {
      hide Valid, Walked, ValidRun, AreLate;
      Facts();
      ghost var start, P, k := run, Now(run).pending, 0;
      var entry := pending.head;
      WalkNothing(start, late);
      while entry != NULL
        invariant Valid() && ValidRun(run) && SameStarts()
        invariant AreLate(P, late, now, ticksPerSecond)
        invariant 0 <= k <= |P| && entry == At(P, k)
        invariant Walked(start, run, k, late)
        decreases |P| - k
      {
        assert P[k] == entry;
        entry := WalkOne(entry, now, ticksPerSecond, start, k, late);
        Facts();
        k := k + 1;
      }
    }

    /** "late" are the pending entries whose request was out for a full second when the
        clock was read. */
    method CleanExpiredPendingEntries(world: World) returns (ghost late: set<int>)
      requires Valid()
      modifies this`run, this`nrPending, world, idle, pending, failed, next, prev, data
      ensures Valid() && SameStarts()
      ensures world.Quiet()
      ensures AreLate(old(Now(run).pending), late, world.ticks, world.ticksPerSecond)
      ensures Continues(old(run), run, SweepEvents(old(Now(run).pending), |old(Now(run).pending)|, late))
      ensures Now(run) == Swept(old(Now(run)), |old(Now(run).pending)|, late)
    {
      ghost var start, P := run, Now(run).pending;
      var now := world.Times();
      late := set e | e in P && 0 <= e < data.Length && now - data[e].startTime >= world.ticksPerSecond;
      WalkPending(now, world.ticksPerSecond, late);
      WalkedOutcome(start, run, |P|, late);
      SweepIsInternal(P, |P|, late);
    }

    method MarkAnswered(world: World, entry: int)
      requires Valid() && entry in pending.elems && 0 <= entry < data.Length
      modifies this`run, world, data
      ensures Valid() && SameTargets() && world.Quiet()
      ensures Did(Answered(entry)) && data[entry].startTime == world.ticks
    {
      hide EntryList.Valid, Disjoint, Members;
      var now := world.Times();
      data[entry] := data[entry].(polled := true, startTime := now);
      Record(Answered(entry));
    }

    /** The first pending entry with the given address, if any, is answered. */
    method GetPendingEntry(world: World, from: Address) returns (entry: int)
      requires Valid()
      modifies this`run, this`nrPending, world, data
      ensures Valid() && SameTargets()
      ensures world.Quiet()
      ensures entry == NULL ==> run == old(run) && SameStarts()
      ensures entry == NULL ==>
                forall e :: e in pending.elems && 0 <= e < data.Length ==> data[e].addr != from
      ensures entry != NULL ==>
                && Did(Answered(entry)) && 0 <= entry < data.Length && data[entry].addr == from
                && FirstFrom(Now(run).pending, entry, from) && data[entry].startTime == world.ticks
    {
      ghost var k := 0;
      entry := pending.head;
      while entry != NULL && data[entry].addr != from
        invariant 0 <= k <= |pending.elems| && entry == At(pending.elems, k)
        invariant forall j :: 0 <= j < k ==> data[pending.elems[j]].addr != from
        decreases |pending.elems| - k
      {
        assert pending.elems[k] == entry;
        entry, k := next[entry], k + 1;
      }
      if entry != NULL {
        assert pending.elems[k] == entry;
        MarkAnswered(world, entry);
      }
    }

    ghost predicate FirstFrom(s: seq<int>, entry: int, from: Address)
      reads data
    {
      exists k :: 0 <= k < |s| && s[k] == entry &&
        forall j :: 0 <= j < k && 0 <= s[j] < data.Length ==> data[s[j]].addr != from
    }

    /** The first failed entry, if any, leaves the pool. */
    method TakeFailed() returns (entry: int)
      requires Valid()
      modifies this`run, this`nrPending, failed, next, prev
      ensures Valid()
      ensures if old(failed.elems) == [] then entry == NULL && run == old(run)
              else entry == old(failed.elems[0]) && Did(GivenUp(entry)) && PolledRight(entry)
    {
      entry := failed.head;
      if entry != NULL {
        assert entry == failed.elems[0];
        RunMember(run, entry);
        ghost var before := run;
        Take(failed, entry);
        Record(GivenUp(entry));
        PolledWhenGivenUp(before, entry, run);
      }
    }

    /** The "polled" mark says whether the entry was answered since it was added. */
    ghost predicate PolledRight(entry: int)
      reads `run, data
    {
      0 <= entry < data.Length && (data[entry].polled <==> AnsweredSince(run.log, entry))
    }

    /** Expires late requests and fills the window again.  When neither did anything, no
        pending request is late. */
    method ExpireAndFill(world: World) returns (ghost more: seq<Event<int>>)
      requires Valid()
      modifies this`run, this`nrPending, world, idle, pending, failed, next, prev, data
      ensures Valid() && world.Alone() && Continues(old(run), run, more)
      ensures idle.elems == [] || |pending.elems| == 25
      ensures SentFor(world, more) && (more == [] ==> SameStarts())
      ensures more == [] ==> StillWaiting(old(world.ticks), world.ticksPerSecond)
    {
      hide Valid, Sending;
      ghost var sent, targets := world.sent, Targets();
      Facts();
      ghost var start, P := run, Now(run).pending;
      ghost var late := CleanExpiredPendingEntries(world);
      ghost var mid, swept := run, SweepEvents(P, |P|, late);
      ghost var filled := FillPendingList(world);
      ContinuesTwice(start, mid, run, swept, filled);
      SweepIsSilent(sent, targets, P, late);
      SendingTwice(sent, targets, swept, sent, targets, filled, world.sent, Targets());
      more := swept + filled;
      Facts();
      if more == [] {
        SweepIsInternal(P, |P|, late);
        ContinuesMeasures(start, run, more);
      }
    }

    method NextFailedEntry(world: World) returns (entry: int, ghost more: seq<Event<int>>)
      requires Valid()
      modifies this`run, this`nrPending, world, idle, pending, failed, next, prev, data
      ensures Valid() && world.Alone()
      ensures SentFor(world, more) && (more == [] ==> SameStarts())
      ensures entry == NULL ==> Continues(old(run), run, more) && Drained()
      ensures entry == NULL && more == [] ==> StillWaiting(old(world.ticks), world.ticksPerSecond)
      ensures entry != NULL ==> GaveUp(old(run), run, more, entry) && PolledRight(entry)
    {
      hide Valid, Continues, Sending;
      more := ExpireAndFill(world);
      Facts();
      ghost var mid := run;
      entry := TakeFailed();
      Facts();
      assert entry != NULL ==> Happens(mid, GivenUp(entry), run);
    }

    /** Nothing has failed, and nothing waits to be sent unless the window is full. */
    ghost predicate Drained()
      reads idle, pending, failed
    {
      failed.elems == [] && (idle.elems == [] || |pending.elems| == MAX_PENDING)
    }

    /** The request at the head of the pending list has time left at "now". */
    ghost predicate StillWaiting(now: int, ticksPerSecond: Positive)
      requires InArray(pending.elems, data.Length)
      reads pending, data
    {
      pending.elems != [] ==> now - data[pending.elems[0]].startTime < ticksPerSecond
    }

    /** The ticks before the request at the head of the pending list expires. */
    ghost function TimeLeft(now: int, ticksPerSecond: Positive): nat
      requires InArray(pending.elems, data.Length)
      reads pending, data
    {
      if pending.elems == [] then 0
      else
        var left := data[pending.elems[0]].startTime + ticksPerSecond - now;
        if left < 0 then 0 else left
    }

    /** What the pool returned, after the sends and expiries in "more": an entry without
        a packet has just left the pool after its last attempt, an entry with a packet
        is still pending, and nothing is returned only when every list is empty. */
    ghost predicate Returned(start: Run<int>, entry: int, packet: Option<Packet>, more: seq<Event<int>>)
      reads `run, idle, pending, failed, data
    {
      if entry == NULL then
        && packet.None? && Continues(start, run, more)
        && idle.elems == [] && pending.elems == [] && failed.elems == []
      else
        && 0 <= entry < data.Length
        && if packet.None? then GaveUp(start, run, more, entry) && PolledRight(entry)
           else GotAnswer(start, run, more, entry)
    }

    /** The packet returned is the last one received, and its sender is the address of the
        entry, which is the first one pending with that address. */
    ghost predicate AnswerOf(world: World, entry: int, packet: Packet)
      reads `run, data, world
    {
      && 0 <= entry < data.Length && ValidRun(run)
      && world.received != [] && world.received[|world.received| - 1] == (packet, data[entry].addr)
      && FirstFrom(Now(run).pending, entry, data[entry].addr)
    }

    /** The measure of the polling loop is below that of an earlier state. */
    ghost predicate Progressed(s: Lists<int>, packets: nat, left: nat, world: World)
      requires InArray(pending.elems, data.Length) && ValidRun(run)
      reads `run, pending, data, world
    {
      var t := Now(run);
      || TotalChances(t) < TotalChances(s)
      || (TotalChances(t) == TotalChances(s) && |t.idle| < |s.idle|)
      || (t == s && world.packetsLeft < packets)
      || (t == s && world.packetsLeft == packets && TimeLeft(world.ticks, world.ticksPerSecond) < left)
    }

    /** The first half of a pass: send what can be sent, and look for a failed entry. */
    method TrySend(world: World) returns (entry: int, ghost more: seq<Event<int>>)
      requires Valid()
      modifies this`run, this`nrPending, world, idle, pending, failed, next, prev, data
      ensures Valid() && world.Alone()
      ensures SentFor(world, more) && (more == [] ==> SameStarts())
      ensures entry == NULL ==> Continues(old(run), run, more) && Drained()
      ensures entry == NULL && more == [] ==> StillWaiting(old(world.ticks), world.ticksPerSecond)
      ensures entry != NULL ==> GaveUp(old(run), run, more, entry) && PolledRight(entry)
    {
      hide Valid, Continues, GaveUp, Sending;
      ghost var sent, targets := world.sent, Targets();
      ghost var start := run;
      ghost var filled := FillPendingList(world);
      ghost var mid, midSent, midTargets := run, world.sent, Targets();
      ghost var swept;
      entry, swept := NextFailedEntry(world);
      SendingTwice(sent, targets, filled, midSent, midTargets, swept, world.sent, Targets());
      more := filled + swept;
      if entry != NULL {
        LaterOutcome(start, mid, run, filled, swept, entry);
      } else {
        ContinuesTwice(start, mid, run, filled, swept);
      }
    }

    /** One pass of the polling loop: either there is something to return, or the pool
        made progress. */
    method TryPoll(world: World)
      returns (done: bool, entry: int, packet: Option<Packet>, ghost more: seq<Event<int>>)
      requires Valid()
      modifies this`run, this`nrPending, world, idle, pending, failed, next, prev, data
      ensures Valid() && SentFor(world, more) && world.Onward()
      ensures done ==> Returned(old(run), entry, packet, more)
      ensures done && packet.Some? ==>
                entry != NULL && world.packetsLeft < old(world.packetsLeft) && AnswerOf(world, entry, packet.value)
      ensures !done ==> Continues(old(run), run, more)
      ensures !done ==> Progressed(old(Now(run)), old(world.packetsLeft),
                                   old(TimeLeft(world.ticks, world.ticksPerSecond)), world)
    {
      hide Valid, Continues, Sending, AnswerOf, FirstFrom;
      ghost var sent, targets := world.sent, Targets();
      ghost var start := run;
      Facts();
      packet := None;
      entry, more := TrySend(world);
      if entry != NULL {
        return true, entry, None, more;
      }
      Facts();
      if pending.head == NULL {
        return true, entry, None, more;
      }
      ghost var mid, midSent, midTargets := run, world.sent, Targets();
      ContinuesMeasures(start, mid, more);
      ghost var first, limit := pending.elems[0], data[pending.elems[0]].startTime + world.ticksPerSecond;
      assert more == [] ==> old(world.ticks) < limit && limit == old(data[first].startTime) + world.ticksPerSecond;
      ghost var again;
      done, entry, packet, again := TryReceive(world);
      SendingTwice(sent, targets, more, midSent, midTargets, again, world.sent, Targets());
      Facts();
      if done {
        assert more + again == more;
        assert Continues(start, mid, more) && Happens(mid, Answered(entry), run);
      } else {
        ContinuesTwice(start, mid, run, more, again);
        more := more + again;
        ContinuesMeasures(start, run, more);
        assert data[first].startTime + world.ticksPerSecond == limit;
      }
    }

    method ExpireSilently(world: World) returns (ghost more: seq<Event<int>>)
      requires Valid()
      modifies this`run, this`nrPending, world, idle, pending, failed, next, prev, data
      ensures Valid() && SentFor(world, more) && SameStarts() && world.Quiet() && Continues(old(run), run, more)
    {
      hide Valid, Sending;
      Facts();
      ghost var late := CleanExpiredPendingEntries(world);
      more := SweepEvents(old(Now(run).pending), |old(Now(run).pending)|, late);
      SweepIsSilent(world.sent, Targets(), old(Now(run).pending), late);
    }

    /** The second half of a pass: wait for an answer, and expire requests if there is
        none. */
    method TryReceive(world: World)
      returns (done: bool, entry: int, packet: Option<Packet>, ghost more: seq<Event<int>>)
      requires Valid() && pending.elems != []
      modifies this`run, this`nrPending, world, idle, pending, failed, next, prev, data
      ensures Valid() && SentFor(world, more) && world.Onward()
      ensures old(world.ticks) < world.ticks || world.packetsLeft < old(world.packetsLeft)
      ensures if done then
                && packet.Some? && 0 <= entry < data.Length && world.packetsLeft < old(world.packetsLeft)
                && more == [] && Did(Answered(entry)) && AnswerOf(world, entry, packet.value)
              else
                packet.None? && entry == NULL && Continues(old(run), run, more) && SameStarts()
    {
      hide Sending, Valid, ValidRun, Continues, FirstFrom;
      Facts();
      var r := world.Receive();
      if r.Some? {
        entry := GetPendingEntry(world, r.value.1);
        Facts();
        if entry != NULL {
          SendingNothing(world.sent, Targets());
          return true, entry, Some(r.value.0), [];
        }
      }
      more := ExpireSilently(world);
      return false, NULL, None, more;
    }

    lemma LaterReturned(start: Run<int>, mid: Run<int>, entry: int, packet: Option<Packet>,
                        more: seq<Event<int>>, evenMore: seq<Event<int>>)
      requires Continues(start, mid, more) && Returned(mid, entry, packet, evenMore)
      ensures Returned(start, entry, packet, more + evenMore)
    {
      if entry == NULL {
        ContinuesTwice(start, mid, run, more, evenMore);
      } else {
        LaterOutcome(start, mid, run, more, evenMore, entry);
      }
    }

    /** One pass of the polling loop, after the passes since "start". */
    method PollAgain(world: World, ghost start: Run<int>, ghost sent: seq<Target>, ghost targets: seq<Target>,
                     ghost before: seq<Event<int>>)
      returns (done: bool, entry: int, packet: Option<Packet>, ghost more: seq<Event<int>>)
      requires Valid() && Continues(start, run, before)
      requires Sending(sent, targets, before, world.sent, Targets())
      modifies this`run, this`nrPending, world, idle, pending, failed, next, prev, data
      ensures Valid() && Sending(sent, targets, more, world.sent, Targets()) && world.Onward()
      ensures done ==> Returned(start, entry, packet, more)
      ensures done && packet.Some? ==>
                entry != NULL && world.packetsLeft < old(world.packetsLeft) && AnswerOf(world, entry, packet.value)
      ensures !done ==> Continues(start, run, more)
      ensures !done ==> Progressed(old(Now(run)), old(world.packetsLeft),
                                   old(TimeLeft(world.ticks, world.ticksPerSecond)), world)
    {
      hide Sending, Continues, Valid, ValidRun, Returned, AnswerOf, Progressed, TimeLeft;
      ghost var mid, midSent, midTargets := run, world.sent, Targets();
      done, entry, packet, more := TryPoll(world);
      SendingTwice(sent, targets, before, midSent, midTargets, more, world.sent, Targets());
      if done {
        LaterReturned(start, mid, entry, packet, before, more);
      } else {
        ContinuesTwice(start, mid, run, before, more);
      }
      more := before + more;
    }

    method PollUntilDone(world: World) returns (entry: int, packet: Option<Packet>, ghost more: seq<Event<int>>)
      requires Valid()
      modifies this`run, this`nrPending, world, idle, pending, failed, next, prev, data
      ensures Valid() && SentFor(world, more) && world.Onward()
      ensures Returned(old(run), entry, packet, more)
      ensures packet.Some? ==>
                entry != NULL && world.packetsLeft < old(world.packetsLeft) && AnswerOf(world, entry, packet.value)
    {
      more := [];
      assert run.log + [] == run.log;
      hide Sending, Continues, Valid, ValidRun, Returned, AnswerOf;
      ghost var start, sent, targets := run, world.sent, Targets();
      SendingNothing(sent, targets);
      while true
        invariant Valid() && Sending(sent, targets, more, world.sent, Targets()) && world.Onward()
        invariant Continues(start, run, more)
        decreases TotalChances(Now(run)), |Now(run).idle|, world.packetsLeft,
                  TimeLeft(world.ticks, world.ticksPerSecond)
      {
        var done;
        done, entry, packet, more := PollAgain(world, start, sent, targets, more);
        if done {
          return entry, packet, more;
        }
      }
    }

    /** What a returned entry means for the pool. */
    lemma ReturnedOutcome(start: Run<int>, entry: int, packet: Option<Packet>, more: seq<Event<int>>)
      requires Valid() && Returned(start, entry, packet, more)
      ensures ValidRun(start) && AllInternal(more)
      ensures run.log == start.log + more + ReturnEvent(entry, packet)
      ensures entry == NULL ==> packet.None? && Members(Now(run)) == {} == Members(Now(start))
      ensures entry != NULL ==>
                && entry in Members(Now(start))
                && Members(Now(run)) == Members(Now(start)) - (if packet.None? then {entry} else {})
                && if packet.None? then Attempts(run.log, entry) == MAX_RETRIES + 1 && PolledRight(entry)
                   else entry in Now(run).pending
    {
      if entry != NULL {
        if packet.None? {
          GaveUpOutcome(start, run, more, entry);
        } else {
          GotAnswerOutcome(start, run, more, entry);
        }
      } else {
        ContinuesMembers(start, run, more);
      }
    }

    ghost function ReturnEvent(entry: int, packet: Option<Packet>): seq<Event<int>> {
      if entry == NULL then [] else if packet.None? then [GivenUp(entry)] else [Answered(entry)]
    }

    /** Polls until there is something to return. */
    method PollOnce(world: World) returns (entry: int, packet: Option<Packet>, ghost more: seq<Event<int>>)
      requires Valid()
      modifies this`run, this`nrPending, world, idle, pending, failed, next, prev, data
      ensures Valid() && SentFor(world, more) && world.Onward()
      ensures AllInternal(more) && run.log == old(run.log) + more + ReturnEvent(entry, packet)
      ensures entry == NULL <==> old(Members(Now(run))) == {}
      ensures entry == NULL ==> packet.None? && Members(Now(run)) == {}
      ensures entry != NULL ==>
                && 0 <= entry < data.Length && entry in old(Members(Now(run)))
                && Members(Now(run)) == old(Members(Now(run))) - (if packet.None? then {entry} else {})
      ensures entry != NULL && packet.None? ==>
                Attempts(run.log, entry) == MAX_RETRIES + 1 && PolledRight(entry)
      ensures packet.Some? ==>
                && entry in Now(run).pending && world.packetsLeft < old(world.packetsLeft)
                && AnswerOf(world, entry, packet.value)
    {
      hide Sending;
      ghost var start := run;
      entry, packet, more := PollUntilDone(world);
      ReturnedOutcome(start, entry, packet, more);
    }

    /** Polls until there is something to return: nothing when, and only when, the pool is
        empty; an entry without a packet after its third attempt, which leaves the pool;
        or an entry with a packet, which stays pending.  Every attempt is one request that
        goes out, and nothing else goes out: an entry returned without a packet was sent
        its request three times since it was added. */
    method PollPool(world: World) returns (entry: int, packet: Option<Packet>, ghost more: seq<Event<int>>)
      requires Valid() && Traced()
      modifies this`run, this`nrPending, this`aims, world, idle, pending, failed, next, prev, data
      ensures Valid() && SameTargets() && world.Onward() && Traced()
      ensures AllInternal(more) && run.log == old(run.log) + (more + ReturnEvent(entry, packet))
      ensures world.sent == old(world.sent) + SendsOf(more, Targets())
      ensures Requests() == old(Requests()) + SendsOf(more, Targets())
      ensures entry == NULL <==> old(Members(Now(run))) == {}
      ensures entry == NULL ==> packet.None? && Members(Now(run)) == {}
      ensures entry != NULL ==>
                && 0 <= entry < data.Length && entry in old(Members(Now(run)))
                && Members(Now(run)) == old(Members(Now(run))) - (if packet.None? then {entry} else {})
      ensures entry != NULL && packet.None? ==>
                && PolledRight(entry)
                && var t := (data[entry].addr, data[entry].request);
                   PostedFor(run.log, aims, entry) == [t, t, t]
      ensures packet.Some? ==>
                && entry in Now(run).pending && world.packetsLeft < old(world.packetsLeft)
                && AnswerOf(world, entry, packet.value)
    {
      hide Valid, Sending, AllAimed, AllInternal, Members, PolledRight, Attempts, AnswerOf, Aims, Posted;
      ghost var log, targets := run.log, Targets();
      entry, packet, more := PollOnce(world);
      ghost var last := ReturnEvent(entry, packet);
      SendingMeans(old(world.sent), targets, more, world.sent, Targets());
      CallTraced(log, aims, more, last, targets);
      Associative(log, more, last);
      aims := aims + Aims(more + last, targets);
      if entry != NULL && packet.None? {
        ThreeRequests(run.log, aims, targets, entry);
      }
    }
  }
}
