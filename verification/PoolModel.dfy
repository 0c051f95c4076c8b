/** The polling pool as a value: three lists of entries driven by a log of events.

    The imperative pool keeps such a log; everything said here about every legal
    log is therefore said about every run of the pool. */
module PoolModel {
  const MAX_PENDING: nat := 25
  const MAX_RETRIES: nat := 2

  /** What can happen to an entry.  Sent and Unsent are the two outcomes of one
      attempt to send, Overdue the expiry of an unanswered request, Removed the
      caller taking an answered entry out, GivenUp the pool returning a failure. */
  datatype Event<E> =
    | Added(entry: E)
    | Sent(entry: E)
    | Unsent(entry: E)
    | Overdue(entry: E)
    | Answered(entry: E)
    | Removed(entry: E)
    | GivenUp(entry: E)

  /** Each list is given from its head; entries leave "idle" from its last position. */
  datatype Lists<E> = Lists(
    idle: seq<E>, pending: seq<E>, failed: seq<E>,
    retries: map<E, nat>, polled: set<E>)

  ghost function Members<E>(s: Lists<E>): set<E> {
    (set e | e in s.idle) + (set e | e in s.pending) + (set e | e in s.failed)
  }

  /** The sequence without the first occurrence of an element. */
  ghost function Without<E>(s: seq<E>, e: E): (r: seq<E>)
    ensures e !in s ==> r == s
    ensures e in s ==> |r| == |s| - 1
  {
    if s == [] then [] else if s[0] == e then s[1..] else [s[0]] + Without(s[1..], e)
  }

  ghost function Empty<E>(): Lists<E> {
    Lists([], [], [], map[], {})
  }

  ghost predicate Enabled<E>(s: Lists<E>, ev: Event<E>) {
    match ev
    case Added(e) => e !in Members(s)
    case Sent(e) => CanSend(s, e)
    case Unsent(e) => CanSend(s, e)
    case Overdue(e) => e in s.pending && e in s.retries
    case Answered(e) => e in s.pending
    case Removed(e) => e in s.pending
    case GivenUp(e) => s.failed != [] && e == s.failed[0]
  }

  ghost predicate CanSend<E>(s: Lists<E>, e: E) {
    s.idle != [] && e == s.idle[|s.idle| - 1] && |s.pending| < MAX_PENDING && e in s.retries
  }

  /** What happens to an entry, already out of its list, whose request got no answer. */
  ghost function Expire<E>(s: Lists<E>, e: E): Lists<E>
    requires e in s.retries
  {
    if s.retries[e] == MAX_RETRIES then
      s.(failed := [e] + s.failed)
    else
      s.(idle := [e] + s.idle, retries := s.retries[e := s.retries[e] + 1])
  }

  ghost function Apply<E>(s: Lists<E>, ev: Event<E>): Lists<E>
    requires Enabled(s, ev)
  {
    match ev
    case Added(e) =>
      s.(idle := [e] + s.idle, retries := s.retries[e := 0], polled := s.polled - {e})
    case Sent(e) =>
      s.(idle := s.idle[..|s.idle| - 1], pending := [e] + s.pending)
    case Unsent(e) =>
      Expire(s.(idle := s.idle[..|s.idle| - 1]), e)
    case Overdue(e) =>
      Expire(s.(pending := Without(s.pending, e)), e)
    case Answered(e) =>
      s.(polled := s.polled + {e})
    case Removed(e) =>
      s.(pending := Without(s.pending, e), retries := s.retries - {e}, polled := s.polled - {e})
    case GivenUp(e) =>
      s.(failed := s.failed[1..], retries := s.retries - {e}, polled := s.polled - {e})
  }

  /** A log is legal when each event was enabled by the ones before it. */
  ghost predicate Legal<E>(log: seq<Event<E>>)
    decreases |log|, 0
  {
    log != [] ==>
      && Legal(log[..|log| - 1])
      && Enabled(Replay(log[..|log| - 1]), log[|log| - 1])
  }

  ghost function Replay<E>(log: seq<Event<E>>): Lists<E>
    requires Legal(log)
    decreases |log|, 1
  {
    if log == [] then Empty() else Apply(Replay(log[..|log| - 1]), log[|log| - 1])
  }

  lemma Extend<E>(log: seq<Event<E>>, ev: Event<E>)
    requires Legal(log) && Enabled(Replay(log), ev)
    ensures Legal(log + [ev]) && Replay(log + [ev]) == Apply(Replay(log), ev)
  {
    assert (log + [ev])[..|log|] == log;
  }

  /** The last event of a legal log, seen from what came after "log". */
  lemma LegalLast<E>(log: seq<Event<E>>, more: seq<Event<E>>)
    requires more != [] && Legal(log + more)
    ensures var init, ev := more[..|more| - 1], more[|more| - 1];
            && Legal(log + init) && Enabled(Replay(log + init), ev)
            && Replay(log + more) == Apply(Replay(log + init), ev)
  {
    hide Enabled, Apply;
    var all := log + more;
    assert all[..|all| - 1] == log + more[..|more| - 1];
  }

  /** A run: the log with every state it went through, the first one empty. */
  datatype Run<E> = Run(log: seq<Event<E>>, states: seq<Lists<E>>)

  ghost predicate ValidRun<E>(run: Run<E>) {
    && |run.states| == |run.log| + 1
    && run.states[0] == Empty()
    && forall k {:trigger run.log[k]} :: 0 <= k < |run.log| ==>
         Enabled(run.states[k], run.log[k]) && run.states[k + 1] == Apply(run.states[k], run.log[k])
  }

  ghost function Now<E>(run: Run<E>): Lists<E>
    requires ValidRun(run)
  {
    run.states[|run.log|]
  }

  ghost function Then<E>(run: Run<E>, ev: Event<E>): (r: Run<E>)
    requires ValidRun(run) && Enabled(Now(run), ev)
    ensures ValidRun(r) && r.log == run.log + [ev] && Now(r) == Apply(Now(run), ev)
  {
    Run(run.log + [ev], run.states + [Apply(Now(run), ev)])
  }

  /** A run is what its log replays to, so what holds of every legal log holds of
      every run. */
  lemma {:induction false} RunReplays<E>(run: Run<E>)
    requires ValidRun(run)
    ensures Legal(run.log) && Replay(run.log) == Now(run)
    decreases |run.log|
  {
    if run.log != [] {
      var n := |run.log| - 1;
      RunReplays(Run(run.log[..n], run.states[..n + 1]));
      assert run.log[n] == run.log[n];
    }
  }

  lemma RunWellFormed<E>(run: Run<E>)
    requires ValidRun(run)
    ensures WellFormed(Now(run))
  {
    RunReplays(run);
    LegalKeepsWellFormed(run.log);
  }

  lemma RunMember<E>(run: Run<E>, e: E)
    requires ValidRun(run)
    requires e in Now(run).idle || e in Now(run).pending || e in Now(run).failed
    ensures e in Now(run).retries && Now(run).retries[e] <= MAX_RETRIES
  {
    RunWellFormed(run);
  }

  // ---- Well-formed lists -------------------------------------------------------

  ghost predicate Distinct<E>(s: seq<E>) {
    s != [] ==> s[0] !in s[1..] && Distinct(s[1..])
  }

  lemma {:induction false} DistinctAt<E>(s: seq<E>, i: nat, j: nat)
    requires Distinct(s) && i < j < |s|
    ensures s[i] != s[j]
  {
    if i == 0 {
      assert s[j] == s[1..][j - 1];
    } else {
      DistinctAt(s[1..], i - 1, j - 1);
    }
  }

  lemma DistinctCons<E>(e: E, s: seq<E>)
    requires Distinct(s) && e !in s
    ensures Distinct([e] + s)
  {
    assert ([e] + s)[1..] == s;
  }

  ghost predicate Disjoint<E>(s: seq<E>, t: seq<E>) {
    forall e :: e in s ==> e !in t
  }

  /** No entry is in two places, the window is respected, and only an entry that
      used up its retries is in the failed list. */
  ghost predicate WellFormed<E>(s: Lists<E>) {
    && Distinct(s.idle) && Distinct(s.pending) && Distinct(s.failed)
    && Disjoint(s.idle, s.pending) && Disjoint(s.idle, s.failed) && Disjoint(s.pending, s.failed)
    && s.retries.Keys == Members(s)
    && s.polled <= Members(s)
    && |s.pending| <= 25
    && (forall e :: e in s.retries ==> s.retries[e] <= 2)
    && (forall e :: e in s.failed ==> s.retries[e] == 2)
  }

  lemma {:induction false} WithoutElements<E>(s: seq<E>, e: E)
    requires Distinct(s)
    ensures Distinct(Without(s, e))
    ensures forall x :: x in Without(s, e) <==> x in s && x != e
  {
    if s != [] {
      assert s == [s[0]] + s[1..];
      WithoutElements(s[1..], e);
      if s[0] != e {
        assert Without(s, e)[1..] == Without(s[1..], e);
      }
    }
  }

  /** Without, seen from the position that is cut out. */
  lemma {:induction false} WithoutAt<E>(s: seq<E>, k: nat)
    requires Distinct(s) && k < |s|
    ensures Without(s, s[k]) == s[..k] + s[k + 1..]
  {
    if k > 0 {
      WithoutAt(s[1..], k - 1);
      assert s[1..][..k - 1] == s[1..k];
      assert s[1..][k..] == s[k + 1..];
      assert s[..k] == [s[0]] + s[1..k];
    }
  }

  lemma {:induction false} WithoutLast<E>(s: seq<E>)
    requires Distinct(s) && s != []
    ensures Without(s, s[|s| - 1]) == s[..|s| - 1]
  {
    WithoutAt(s, |s| - 1);
    assert s[|s|..] == [];
  }

  lemma DropLast<E>(s: seq<E>)
    requires Distinct(s) && s != []
    ensures Distinct(s[..|s| - 1])
    ensures forall x :: x in s[..|s| - 1] <==> x in s && x != s[|s| - 1]
  {
    WithoutLast(s);
    WithoutElements(s, s[|s| - 1]);
  }

  lemma DropFirst<E>(s: seq<E>)
    requires Distinct(s) && s != []
    ensures Distinct(s[1..])
    ensures forall x :: x in s[1..] <==> x in s && x != s[0]
  {
    assert s == [s[0]] + s[1..];
  }

  /** The lists without any trace of an entry. */
  ghost function Forget<E>(s: Lists<E>, e: E): Lists<E> {
    s.(retries := s.retries - {e}, polled := s.polled - {e})
  }

  lemma TakeIdle<E>(s: Lists<E>)
    requires WellFormed(s) && s.idle != []
    ensures var e := s.idle[|s.idle| - 1];
            var t := s.(idle := s.idle[..|s.idle| - 1]);
            WellFormed(Forget(t, e)) && Members(t) == Members(s) - {e}
  {
    DropLast(s.idle);
    assert Members(s.(idle := s.idle[..|s.idle| - 1])) == Members(s) - {s.idle[|s.idle| - 1]};
  }

  lemma TakePending<E>(s: Lists<E>, e: E)
    requires WellFormed(s) && e in s.pending
    ensures var t := s.(pending := Without(s.pending, e));
            WellFormed(Forget(t, e)) && Members(t) == Members(s) - {e}
  {
    WithoutElements(s.pending, e);
    assert Members(s.(pending := Without(s.pending, e))) == Members(s) - {e};
  }

  lemma TakeFailed<E>(s: Lists<E>)
    requires WellFormed(s) && s.failed != []
    ensures var t := s.(failed := s.failed[1..]);
            WellFormed(Forget(t, s.failed[0])) && Members(t) == Members(s) - {s.failed[0]}
  {
    DropFirst(s.failed);
    assert Members(s.(failed := s.failed[1..])) == Members(s) - {s.failed[0]};
  }

  /** An entry taken out of its list and expired is back in exactly one list. */
  lemma ExpireKeepsWellFormed<E>(s: Lists<E>, e: E)
    requires e in s.retries && e !in Members(s) && s.retries[e] <= MAX_RETRIES
    requires WellFormed(Forget(s, e))
    ensures WellFormed(Expire(s, e)) && Members(Expire(s, e)) == Members(s) + {e}
  {
    hide Distinct;
    assert s.retries.Keys == Members(s) + {e};
    if s.retries[e] == MAX_RETRIES {
      DistinctCons(e, s.failed);
    } else {
      assert Expire(s, e).retries.Keys == s.retries.Keys;
      DistinctCons(e, s.idle);
    }
  }

  lemma ApplyKeepsWellFormed<E>(s: Lists<E>, ev: Event<E>)
    requires WellFormed(s) && Enabled(s, ev)
    ensures WellFormed(Apply(s, ev))
    ensures Members(Apply(s, ev)) ==
            if ev.Added? then Members(s) + {ev.entry}
            else if ev.Removed? || ev.GivenUp? then Members(s) - {ev.entry}
            else Members(s)
  {
    hide WellFormed, Members, Without;
    match ev {
      case Added(e) => AddedKeepsWellFormed(s, e);
      case Sent(e) => SentKeepsWellFormed(s, e);
      case Unsent(e) => UnsentKeepsWellFormed(s, e);
      case Overdue(e) => OverdueKeepsWellFormed(s, e);
      case Answered(e) => AnsweredKeepsWellFormed(s, e);
      case Removed(e) => RemovedKeepsWellFormed(s, e);
      case GivenUp(e) => GivenUpKeepsWellFormed(s);
    }
  }

  lemma RemovedKeepsWellFormed<E>(s: Lists<E>, e: E)
    requires WellFormed(s) && e in s.pending
    ensures WellFormed(Apply(s, Removed(e))) && Members(Apply(s, Removed(e))) == Members(s) - {e}
  {
    hide WellFormed;
    TakePending(s, e);
    assert Apply(s, Removed(e)) == Forget(s.(pending := Without(s.pending, e)), e);
  }

  lemma GivenUpKeepsWellFormed<E>(s: Lists<E>)
    requires WellFormed(s) && s.failed != []
    ensures var e := s.failed[0];
            WellFormed(Apply(s, GivenUp(e))) && Members(Apply(s, GivenUp(e))) == Members(s) - {e}
  {
    hide WellFormed;
    TakeFailed(s);
    assert Apply(s, GivenUp(s.failed[0])) == Forget(s.(failed := s.failed[1..]), s.failed[0]);
  }

  lemma AddedKeepsWellFormed<E>(s: Lists<E>, e: E)
    requires WellFormed(s) && e !in Members(s)
    ensures WellFormed(Apply(s, Added(e))) && Members(Apply(s, Added(e))) == Members(s) + {e}
  {
    hide Distinct;
    DistinctCons(e, s.idle);
  }

  lemma UnsentKeepsWellFormed<E>(s: Lists<E>, e: E)
    requires WellFormed(s) && CanSend(s, e)
    ensures WellFormed(Apply(s, Unsent(e))) && Members(Apply(s, Unsent(e))) == Members(s)
  {
    var t := s.(idle := s.idle[..|s.idle| - 1]);
    assert e in s.idle && e in Members(s) && s.retries[e] <= MAX_RETRIES;
    hide WellFormed, Members, Expire;
    TakeIdle(s);
    ExpireKeepsWellFormed(t, e);
    assert Members(s) == Members(t) + {e};
  }

  lemma OverdueKeepsWellFormed<E>(s: Lists<E>, e: E)
    requires WellFormed(s) && e in s.pending && e in s.retries
    ensures WellFormed(Apply(s, Overdue(e))) && Members(Apply(s, Overdue(e))) == Members(s)
  {
    var t := s.(pending := Without(s.pending, e));
    assert e in Members(s) && s.retries[e] <= MAX_RETRIES;
    hide WellFormed, Members, Expire, Without;
    TakePending(s, e);
    ExpireKeepsWellFormed(t, e);
    assert Members(s) == Members(t) + {e};
  }

  lemma AnsweredKeepsWellFormed<E>(s: Lists<E>, e: E)
    requires WellFormed(s) && e in s.pending
    ensures WellFormed(Apply(s, Answered(e))) && Members(Apply(s, Answered(e))) == Members(s)
  {
  }

  lemma SentKeepsWellFormed<E>(s: Lists<E>, e: E)
    requires WellFormed(s) && CanSend(s, e)
    ensures WellFormed(Apply(s, Sent(e))) && Members(Apply(s, Sent(e))) == Members(s)
  {
    hide Distinct;
    TakeIdle(s);
    var t := Apply(s, Sent(e));
    assert e in s.idle;
    DistinctCons(e, s.pending);
    assert forall x :: x in t.pending <==> x == e || x in s.pending;
    assert e !in t.idle && e !in s.pending && e !in t.failed;
  }

  /** Every state of every run is well formed. */
  lemma {:induction false} LegalKeepsWellFormed<E>(log: seq<Event<E>>)
    requires Legal(log)
    ensures WellFormed(Replay(log))
  {
    if log != [] {
      LegalKeepsWellFormed(log[..|log| - 1]);
      ApplyKeepsWellFormed(Replay(log[..|log| - 1]), log[|log| - 1]);
    }
  }

  // ---- Send accounting ---------------------------------------------------------

  ghost function Counted<E>(n: nat, ev: Event<E>, e: E): nat {
    if ev.Added? && ev.entry == e then 0
    else if (ev.Sent? || ev.Unsent?) && ev.entry == e then n + 1
    else n
  }

  /** The number of times an entry was sent since it was last added. */
  ghost function Attempts<E>(log: seq<Event<E>>, e: E): nat {
    if log == [] then 0
    else Counted(Attempts(log[..|log| - 1], e), log[|log| - 1], e)
  }

  /** Whether an entry was answered since it was last added. */
  ghost predicate AnsweredSince<E>(log: seq<Event<E>>, e: E) {
    log != [] &&
    match log[|log| - 1]
    case Added(x) => x != e && AnsweredSince(log[..|log| - 1], e)
    case Answered(x) => x == e || AnsweredSince(log[..|log| - 1], e)
    case _ => AnsweredSince(log[..|log| - 1], e)
  }

  /** Retries count the attempts made: all of them while idle, all but the current
      one while pending, and a failed entry was sent exactly three times.  No entry,
      in the pool or out of it, is ever sent more than three times per addition. */
  ghost predicate Accounted<E>(s: Lists<E>, e: E, attempts: nat) {
    && attempts <= MAX_RETRIES + 1
    && (e in s.idle ==> e in s.retries && attempts == s.retries[e])
    && (e in s.pending ==> e in s.retries && attempts == s.retries[e] + 1)
    && (e in s.failed ==> attempts == MAX_RETRIES + 1)
  }

  /** Out of its list, an entry has made one attempt more than it has retries. */
  lemma ExpireAccounted<E>(s: Lists<E>, x: E, e: E, attempts: nat)
    requires x in s.retries && s.retries[x] <= MAX_RETRIES
    requires e != x ==> Accounted(s, e, attempts)
    requires e == x ==> e !in s.idle && e !in s.pending && e !in s.failed && attempts == s.retries[x] + 1
    ensures Accounted(Expire(s, x), e, attempts)
  {
  }

  lemma AccountingStep<E>(s: Lists<E>, ev: Event<E>, e: E, attempts: nat)
    requires WellFormed(s) && Enabled(s, ev) && Accounted(s, e, attempts)
    ensures Accounted(Apply(s, ev), e, Counted(attempts, ev, e))
  {
    match ev {
      case Added(x) =>
      case Sent(x) => DropLast(s.idle);
      case Unsent(x) =>
        DropLast(s.idle);
        ExpireAccounted(s.(idle := s.idle[..|s.idle| - 1]), x, e, Counted(attempts, ev, e));
      case Overdue(x) =>
        WithoutElements(s.pending, x);
        ExpireAccounted(s.(pending := Without(s.pending, x)), x, e, attempts);
      case Answered(x) =>
      case Removed(x) => WithoutElements(s.pending, x);
      case GivenUp(x) => DropFirst(s.failed);
    }
  }

  lemma {:induction false} SendAccounting<E>(log: seq<Event<E>>, e: E)
    requires Legal(log)
    ensures Accounted(Replay(log), e, Attempts(log, e))
  {
    if log != [] {
      var init := log[..|log| - 1];
      SendAccounting(init, e);
      LegalKeepsWellFormed(init);
      AccountingStep(Replay(init), log[|log| - 1], e, Attempts(init, e));
    }
  }

  /** The "polled" mark of an entry of the pool says whether it was answered since
      it was added. */
  lemma {:induction false} PolledMeansAnswered<E>(log: seq<Event<E>>, e: E)
    requires Legal(log) && e in Members(Replay(log))
    ensures e in Replay(log).polled <==> AnsweredSince(log, e)
  {
    var init, ev := log[..|log| - 1], log[|log| - 1];
    LegalKeepsWellFormed(init);
    ApplyKeepsWellFormed(Replay(init), ev);
    if !(ev.Added? && ev.entry == e) {
      PolledMeansAnswered(init, e);
    }
  }

  // ---- Conservation ------------------------------------------------------------

  ghost function Balance<E>(log: seq<Event<E>>): int {
    if log == [] then 0
    else
      Balance(log[..|log| - 1]) +
      match log[|log| - 1]
      case Added(_) => 1
      case Removed(_) => -1
      case GivenUp(_) => -1
      case _ => 0
  }

  lemma ApplyCounts<E>(s: Lists<E>, ev: Event<E>)
    requires Enabled(s, ev)
    ensures var t := Apply(s, ev);
            |t.idle| + |t.pending| + |t.failed| == |s.idle| + |s.pending| + |s.failed| +
            if ev.Added? then 1 else if ev.Removed? || ev.GivenUp? then -1 else 0
  {
  }

  /** Nothing is lost or duplicated: the three lists together hold exactly as many
      entries as were added and not yet handed back. */
  lemma {:induction false} NothingLost<E>(log: seq<Event<E>>)
    requires Legal(log)
    ensures var s := Replay(log); |s.idle| + |s.pending| + |s.failed| == Balance(log)
  {
    hide Apply, Enabled;
    if log != [] {
      var init := log[..|log| - 1];
      NothingLost(init);
      ApplyCounts(Replay(init), log[|log| - 1]);
    }
  }

  // ---- First in, first out -----------------------------------------------------

  ghost predicate AttemptOf<E>(ev: Event<E>, e: E) {
    (ev.Sent? || ev.Unsent?) && ev.entry == e
  }

  /** "y" waits behind "x" in the idle list. */
  ghost predicate Behind<E>(s: Lists<E>, y: E, x: E) {
    exists i, j :: 0 <= i < j < |s.idle| && s.idle[i] == y && s.idle[j] == x
  }

  lemma ApplyKeepsBehind<E>(s: Lists<E>, ev: Event<E>, y: E, x: E)
    requires WellFormed(s) && Enabled(s, ev) && Behind(s, y, x) && !AttemptOf(ev, x)
    ensures !AttemptOf(ev, y) && Behind(Apply(s, ev), y, x)
  {
    var i, j :| 0 <= i < j < |s.idle| && s.idle[i] == y && s.idle[j] == x;
    var t := Apply(s, ev).idle;
    DistinctAt(s.idle, i, j);
    if i < |s.idle| - 1 {
      DistinctAt(s.idle, i, |s.idle| - 1);
    }
    hide Distinct, Without, Members, Disjoint;
    match ev {
      case Added(e) => assert t[i + 1] == y && t[j + 1] == x;
      case Unsent(e) =>
        if s.retries[e] == MAX_RETRIES {
          assert t[i] == y && t[j] == x;
        } else {
          assert t[i + 1] == y && t[j + 1] == x;
        }
      case Overdue(e) =>
        if s.retries[e] == MAX_RETRIES {
          assert t[i] == y && t[j] == x;
        } else {
          assert t[i + 1] == y && t[j + 1] == x;
        }
      case _ => assert t[i] == y && t[j] == x;
    }
  }

  ghost predicate NeverSent<E>(log: seq<Event<E>>, e: E) {
    log != [] ==> !AttemptOf(log[|log| - 1], e) && NeverSent(log[..|log| - 1], e)
  }

  /** Idle entries are served in order: whatever the run does next, an entry is not
      sent before one it waits behind. */
  lemma {:induction false} ServedInOrder<E>(log: seq<Event<E>>, more: seq<Event<E>>, y: E, x: E)
    requires Legal(log) && Legal(log + more)
    requires Behind(Replay(log), y, x) && NeverSent(more, x)
    ensures Behind(Replay(log + more), y, x) && NeverSent(more, y)
    decreases |more|
  {
    hide Legal, Replay, Enabled, Apply, Behind;
    if more == [] {
      assert log + more == log;
    } else {
      var init, ev := more[..|more| - 1], more[|more| - 1];
      LegalLast(log, more);
      ServedInOrder(log, init, y, x);
      LegalKeepsWellFormed(log + init);
      ApplyKeepsBehind(Replay(log + init), ev, y, x);
    }
  }

  /** A retry goes behind everything that is already idle. */
  lemma RetryWaitsBehindIdle<E>(s: Lists<E>, ev: Event<E>, x: E)
    requires WellFormed(s) && Enabled(s, ev) && (ev.Overdue? || ev.Unsent? || ev.Added?)
    requires x in s.idle && x != ev.entry && ev.entry in Apply(s, ev).idle
    ensures Behind(Apply(s, ev), ev.entry, x)
  {
    var t := Apply(s, ev).idle;
    var j :| 0 <= j < |s.idle| && s.idle[j] == x;
    if ev.Added? || s.retries[ev.entry] < MAX_RETRIES {
      assert t[0] == ev.entry && t[j + 1] == x;
    } else {
      DropLast(s.idle);
    }
  }

  // ---- Progress ----------------------------------------------------------------

  /** The attempts an entry still has. */
  ghost function Chances<E>(s: seq<E>, retries: map<E, nat>): nat {
    if s == [] then 0
    else
      Chances(s[1..], retries) +
      if s[0] in retries && retries[s[0]] <= MAX_RETRIES then MAX_RETRIES + 1 - retries[s[0]] else 0
  }

  ghost function TotalChances<E>(s: Lists<E>): nat {
    Chances(s.idle, s.retries) + Chances(s.pending, s.retries)
  }

  lemma {:induction false} ChancesConcat<E>(s: seq<E>, t: seq<E>, retries: map<E, nat>)
    ensures Chances(s + t, retries) == Chances(s, retries) + Chances(t, retries)
  {
    if s == [] {
      assert s + t == t;
    } else {
      assert (s + t)[1..] == s[1..] + t;
      ChancesConcat(s[1..], t, retries);
    }
  }

  lemma {:induction false} ChancesFrame<E>(s: seq<E>, r: map<E, nat>, r': map<E, nat>)
    requires forall e :: e in s ==> e in r && e in r' && r[e] == r'[e]
    ensures Chances(s, r) == Chances(s, r')
  {
    if s != [] {
      ChancesFrame(s[1..], r, r');
    }
  }

  lemma {:induction false} ChancesWithout<E>(s: seq<E>, e: E, r: map<E, nat>)
    requires e in s && e in r && r[e] <= MAX_RETRIES
    ensures Chances(s, r) == Chances(Without(s, e), r) + MAX_RETRIES + 1 - r[e]
  {
    if s[0] != e {
      ChancesWithout(s[1..], e, r);
    }
  }

  lemma ExpireLosesChance<E>(s: Lists<E>, e: E)
    requires e in s.retries && s.retries[e] <= MAX_RETRIES && e !in s.idle && e !in s.pending
    requires forall x :: x in s.idle || x in s.pending ==> x in s.retries
    ensures TotalChances(Expire(s, e)) == TotalChances(s) + MAX_RETRIES - s.retries[e]
    ensures Chances(Expire(s, e).idle, Expire(s, e).retries) ==
            Chances(s.idle, s.retries) + MAX_RETRIES - s.retries[e]
  {
    var t := Expire(s, e);
    ChancesFrame(s.idle, s.retries, t.retries);
    ChancesFrame(s.pending, s.retries, t.retries);
    if s.retries[e] < MAX_RETRIES {
      assert t.idle[1..] == s.idle;
    }
  }

  /** Filling the window makes progress on the idle list even when sending fails. */
  lemma AttemptMeasures<E>(s: Lists<E>, ev: Event<E>)
    requires WellFormed(s) && Enabled(s, ev) && (ev.Sent? || ev.Unsent?)
    ensures Chances(Apply(s, ev).idle, Apply(s, ev).retries) < Chances(s.idle, s.retries)
    ensures TotalChances(Apply(s, ev)) == TotalChances(s) - if ev.Sent? then 0 else 1
    ensures ev.Sent? ==> |Apply(s, ev).idle| == |s.idle| - 1
  {
    var e := ev.entry;
    var front := s.idle[..|s.idle| - 1];
    assert s.idle == front + [e];
    ChancesConcat(front, [e], s.retries);
    if ev.Sent? {
      assert ([e] + s.pending)[1..] == s.pending;
    } else {
      DropLast(s.idle);
      ExpireLosesChance(s.(idle := front), e);
    }
  }

  /** The expiry of a request uses up one chance. */
  lemma OverdueMeasures<E>(s: Lists<E>, e: E)
    requires WellFormed(s) && Enabled(s, Overdue(e))
    ensures TotalChances(Apply(s, Overdue(e))) == TotalChances(s) - 1
  {
    WithoutElements(s.pending, e);
    ChancesWithout(s.pending, e, s.retries);
    ExpireLosesChance(s.(pending := Without(s.pending, e)), e);
  }

  ghost predicate Internal<E>(ev: Event<E>) {
    ev.Sent? || ev.Unsent? || ev.Overdue?
  }

  ghost predicate AllAttempts<E>(log: seq<Event<E>>) {
    log != [] ==> (log[|log| - 1].Sent? || log[|log| - 1].Unsent?) && AllAttempts(log[..|log| - 1])
  }

  ghost predicate AllInternal<E>(log: seq<Event<E>>) {
    log != [] ==> Internal(log[|log| - 1]) && AllInternal(log[..|log| - 1])
  }

  /** Attempts and expiries answer nothing. */
  lemma {:induction false} InternalAnswersNothing<E>(log: seq<Event<E>>, more: seq<Event<E>>, e: E)
    requires AllInternal(more)
    ensures AnsweredSince(log + more, e) <==> AnsweredSince(log, e)
    decreases |more|
  {
    if more == [] {
      assert log + more == log;
    } else {
      InternalAnswersNothing(log, more[..|more| - 1], e);
      assert (log + more)[..|log + more| - 1] == log + more[..|more| - 1];
    }
  }

  lemma {:induction false} InternalAddsNothing<E>(log: seq<Event<E>>)
    requires AllInternal(log)
    ensures forall k :: 0 <= k < |log| ==> !log[k].Added?
  {
    if log != [] {
      InternalAddsNothing(log[..|log| - 1]);
    }
  }

  /** A pass of the pool that does anything at all moves its measure down. */
  lemma {:induction false} PassMeasures<E>(log: seq<Event<E>>, more: seq<Event<E>>)
    requires Legal(log) && Legal(log + more)
    requires AllInternal(more)
    ensures var s, t := Replay(log), Replay(log + more);
            || TotalChances(t) < TotalChances(s)
            || (TotalChances(t) == TotalChances(s) && |t.idle| == |s.idle| - |more|)
    decreases |more|
  {
    hide Legal, Replay, Enabled, Apply, TotalChances;
    if more == [] {
      assert log + more == log;
    } else {
      var init, ev := more[..|more| - 1], more[|more| - 1];
      LegalLast(log, more);
      PassMeasures(log, init);
      LegalKeepsWellFormed(log + init);
      if ev.Overdue? {
        OverdueMeasures(Replay(log + init), ev.entry);
      } else {
        AttemptMeasures(Replay(log + init), ev);
      }
    }
  }

  // ---- The expiry sweep --------------------------------------------------------

  ghost function SweepEvents<E>(s: seq<E>, k: nat, late: set<E>): seq<Event<E>>
    requires k <= |s|
  {
    if k == 0 then []
    else SweepEvents(s, k - 1, late) + if s[k - 1] in late then [Overdue(s[k - 1])] else []
  }

  /** Those of the first "k" entries that are not late, in order. */
  ghost function Kept<E>(s: seq<E>, k: nat, late: set<E>): seq<E>
    requires k <= |s|
  {
    if k == 0 then []
    else if s[k - 1] in late then Kept(s, k - 1, late)
    else Kept(s, k - 1, late) + [s[k - 1]]
  }

  ghost predicate Leaves<E>(e: E, late: set<E>, retries: map<E, nat>, spent: bool) {
    e in late && e in retries && (retries[e] == MAX_RETRIES) == spent
  }

  /** The late ones whose retries are used up (or not), last one first, before "tail". */
  ghost function Late<E>(
    s: seq<E>, k: nat, late: set<E>, retries: map<E, nat>, spent: bool, tail: seq<E>): seq<E>
    requires k <= |s|
  {
    if k == 0 then tail
    else if Leaves(s[k - 1], late, retries, spent) then
      [s[k - 1]] + Late(s, k - 1, late, retries, spent, tail)
    else Late(s, k - 1, late, retries, spent, tail)
  }

  /** The outcome of a sweep, all at once: the late entries leave the pending list
      together, those with retries left for the head of the idle list and the others
      for the head of the failed list. */
  ghost function Swept<E>(s: Lists<E>, k: nat, late: set<E>): Lists<E>
    requires k <= |s.pending|
  {
    Lists(
      Late(s.pending, k, late, s.retries, false, s.idle),
      Kept(s.pending, k, late) + s.pending[k..],
      Late(s.pending, k, late, s.retries, true, s.failed),
      map e | e in s.retries ::
        if e in s.pending[..k] && e in late && s.retries[e] < MAX_RETRIES then s.retries[e] + 1
        else s.retries[e],
      s.polled)
  }

  lemma WithoutHead<E>(x: E, s: seq<E>, e: E)
    ensures Without([x] + s, e) == if x == e then s else [x] + Without(s, e)
  {
    assert ([x] + s)[1..] == s;
  }

  lemma {:induction false} WithoutPrefix<E>(s: seq<E>, t: seq<E>, e: E)
    requires e !in s
    ensures Without(s + [e] + t, e) == s + t
  {
    hide Without;
    if s == [] {
      WithoutHead(e, t, e);
      assert s + [e] + t == [e] + t && s + t == t;
    } else {
      var x, front := s[0], s[1..];
      WithoutPrefix(front, t, e);
      WithoutHead(x, front + [e] + t, e);
      assert s == [x] + front;
      Associative([x], front + [e], t);
      Associative([x], front, [e]);
      Associative([x], front, t);
    }
  }

  lemma {:induction false} LateNotKept<E>(s: seq<E>, k: nat, late: set<E>, e: E)
    requires k <= |s| && e in late
    ensures e !in Kept(s, k, late)
  {
    if k > 0 {
      LateNotKept(s, k - 1, late, e);
    }
  }

  lemma SweptRetries<E>(s: Lists<E>, k: nat, late: set<E>)
    requires k < |s.pending| && s.pending[k] in s.retries && s.pending[k] !in s.pending[..k]
    ensures var here, there, e := Swept(s, k, late).retries, Swept(s, k + 1, late).retries, s.pending[k];
            && e in here && here[e] == s.retries[e]
            && there == if e in late && here[e] < MAX_RETRIES then here[e := here[e] + 1] else here
  {
    var P, e := s.pending, s.pending[k];
    assert P[..k + 1] == P[..k] + [e];
    assert forall x :: x in P[..k + 1] <==> x in P[..k] || x == e;
  }

  lemma OverdueStep<E>(here: Lists<E>, there: Lists<E>, front: seq<E>, e: E, back: seq<E>)
    requires here.pending == front + [e] + back && there.pending == front + back && e !in front
    requires e in here.retries && here.retries[e] <= MAX_RETRIES && there.polled == here.polled
    requires here.retries[e] == MAX_RETRIES ==>
               && there.idle == here.idle && there.failed == [e] + here.failed
               && there.retries == here.retries
    requires here.retries[e] < MAX_RETRIES ==>
               && there.idle == [e] + here.idle && there.failed == here.failed
               && there.retries == here.retries[e := here.retries[e] + 1]
    ensures Enabled(here, Overdue(e)) && Apply(here, Overdue(e)) == there
  {
    WithoutPrefix(front, back, e);
  }

  lemma FrontAndRest<E>(front: seq<E>, s: seq<E>, k: nat)
    requires k < |s|
    ensures front + s[k..] == front + [s[k]] + s[k + 1..]
  {
  }

  lemma SweptStep<E>(s: Lists<E>, k: nat, late: set<E>)
    requires k < |s.pending| && s.pending[k] !in s.pending[..k]
    requires s.pending[k] in s.retries && s.retries[s.pending[k]] <= MAX_RETRIES
    ensures var here, e := Swept(s, k, late), s.pending[k];
            if e in late then
              Enabled(here, Overdue(e)) && Apply(here, Overdue(e)) == Swept(s, k + 1, late)
            else
              here == Swept(s, k + 1, late)
  {
    var P, e := s.pending, s.pending[k];
    SweptRetries(s, k, late);
    FrontAndRest(Kept(P, k, late), P, k);
    hide Enabled, Apply, Expire;
    if e in late {
      LateNotKept(P, k, late, e);
      OverdueStep(Swept(s, k, late), Swept(s, k + 1, late), Kept(P, k, late), e, P[k + 1..]);
    }
  }

  lemma SweptNothing<E>(s: Lists<E>, late: set<E>)
    ensures Swept(s, 0, late) == s
  {
  }

  lemma SweepEventsNext<E>(s: seq<E>, k: nat, late: set<E>)
    requires k < |s|
    ensures var before := SweepEvents(s, k, late);
            SweepEvents(s, k + 1, late) == if s[k] in late then before + [Overdue(s[k])] else before
  {
  }

  lemma NothingSwept<E>(log: seq<Event<E>>, s: seq<E>, late: set<E>)
    ensures log + SweepEvents(s, 0, late) == log
  {
  }

  lemma PendingEntry<E>(log: seq<Event<E>>, k: nat)
    requires Legal(log) && k < |Replay(log).pending|
    ensures var s := Replay(log);
            && s.pending[k] !in s.pending[..k]
            && s.pending[k] in s.retries && s.retries[s.pending[k]] <= MAX_RETRIES
  {
    var s := Replay(log);
    LegalKeepsWellFormed(log);
    forall j | 0 <= j < k
      ensures s.pending[j] != s.pending[k]
    {
      DistinctAt(s.pending, j, k);
    }
    assert s.pending[k] in s.pending;
  }

  lemma ExtendMore<E>(log: seq<Event<E>>, more: seq<Event<E>>, ev: Event<E>, here: Lists<E>)
    requires Legal(log + more) && here == Replay(log + more) && Enabled(here, ev)
    ensures Legal(log + (more + [ev])) && Replay(log + (more + [ev])) == Apply(here, ev)
  {
    Extend(log + more, ev);
    assert log + (more + [ev]) == (log + more) + [ev];
  }

  /** The walk that expires late entries one at a time, each moving under the feet of
      the walk, has the outcome of sorting all of them out at once. */
  lemma {:induction false} SweepOutcome<E>(log: seq<Event<E>>, s: Lists<E>, k: nat, late: set<E>)
    requires Legal(log) && s == Replay(log) && k <= |s.pending|
    ensures var more := SweepEvents(s.pending, k, late);
            Legal(log + more) && Replay(log + more) == Swept(s, k, late)
  {
    hide Swept, SweepEvents, Legal, Replay, Enabled, Apply;
    if k == 0 {
      NothingSwept(log, s.pending, late);
      SweptNothing(s, late);
    } else {
      var more, e := SweepEvents(s.pending, k - 1, late), s.pending[k - 1];
      SweepEventsNext(s.pending, k - 1, late);
      SweepOutcome(log, s, k - 1, late);
      PendingEntry(log, k - 1);
      SweptStep(s, k - 1, late);
      if e in late {
        ExtendMore(log, more, Overdue(e), Swept(s, k - 1, late));
      }
    }
  }

  lemma OneMoreAttempt<E>(log: seq<Event<E>>, more: seq<Event<E>>, ev: Event<E>)
    requires AllAttempts(more) && (ev.Sent? || ev.Unsent?)
    ensures log + more + [ev] == log + (more + [ev]) && AllAttempts(more + [ev])
  {
    assert (more + [ev])[..|more|] == more;
  }

  lemma {:induction false} AttemptsAreInternal<E>(log: seq<Event<E>>)
    requires AllAttempts(log)
    ensures AllInternal(log)
  {
    if log != [] {
      AttemptsAreInternal(log[..|log| - 1]);
    }
  }

  lemma {:induction false} SweepIsInternal<E>(s: seq<E>, k: nat, late: set<E>)
    requires k <= |s|
    ensures AllInternal(SweepEvents(s, k, late))
    ensures SweepEvents(s, k, late) == [] ==> forall i :: 0 <= i < k ==> s[i] !in late
  {
    if k > 0 {
      SweepIsInternal(s, k - 1, late);
      var before := SweepEvents(s, k - 1, late);
      assert (before + [Overdue(s[k - 1])])[..|before|] == before && before + [] == before;
    }
  }

  lemma {:induction false} InternalConcat<E>(log: seq<Event<E>>, more: seq<Event<E>>)
    requires AllInternal(log) && AllInternal(more)
    ensures AllInternal(log + more)
    decreases |more|
  {
    if more == [] {
      assert log + more == log;
    } else {
      InternalConcat(log, more[..|more| - 1]);
      assert (log + more)[..|log + more| - 1] == log + more[..|more| - 1];
    }
  }

  // ---- The same, for runs ------------------------------------------------------

  lemma WindowRespected<E>(run: Run<E>)
    requires ValidRun(run)
    ensures |Now(run).pending| <= MAX_PENDING
  {
    RunWellFormed(run);
  }

  lemma AttemptProgress<E>(run: Run<E>, ev: Event<E>, s: Lists<E>)
    requires ValidRun(run) && Enabled(Now(run), ev) && (ev.Sent? || ev.Unsent?)
    requires s == Apply(Now(run), ev)
    ensures Chances(s.idle, s.retries) < Chances(Now(run).idle, Now(run).retries)
  {
    RunWellFormed(run);
    AttemptMeasures(Now(run), ev);
  }

  /** The walk has looked at the first "k" pending entries of "run". */
  ghost predicate Walked<E(!new)>(run: Run<E>, now: Run<E>, k: nat, late: set<E>)
    requires ValidRun(run) && k <= |Now(run).pending| && ValidRun(now)
    decreases k
  {
    if k == 0 then now == run
    else exists before: Run<E> ::
      ValidRun(before) && Walked(run, before, k - 1, late) &&
      Looked(before, now, Now(run).pending[k - 1], late)
  }

  ghost predicate Looked<E>(before: Run<E>, after: Run<E>, e: E, late: set<E>)
    requires ValidRun(before) && ValidRun(after)
  {
    if e in late then
      && Enabled(Now(before), Overdue(e))
      && after.log == before.log + [Overdue(e)] && Now(after) == Apply(Now(before), Overdue(e))
    else after == before
  }

  lemma LookedOutcome<E>(run: Run<E>, before: Run<E>, now: Run<E>, k: nat, late: set<E>)
    requires ValidRun(run) && k < |Now(run).pending| && ValidRun(before) && ValidRun(now)
    requires before.log == run.log + SweepEvents(Now(run).pending, k, late)
    requires Now(before) == Swept(Now(run), k, late)
    requires Looked(before, now, Now(run).pending[k], late)
    ensures now.log == run.log + SweepEvents(Now(run).pending, k + 1, late)
    ensures Now(now) == Swept(Now(run), k + 1, late)
  {
    var e := Now(run).pending[k];
    RunReplays(run);
    PendingEntry(run.log, k);
    SweptStep(Now(run), k, late);
    SweepEventsNext(Now(run).pending, k, late);
    if e in late {
      Associative(run.log, SweepEvents(Now(run).pending, k, late), [Overdue(e)]);
    }
  }

  /** What the walk has done so far. */
  lemma {:induction false} WalkedOutcome<E(!new)>(run: Run<E>, now: Run<E>, k: nat, late: set<E>)
    requires ValidRun(run) && k <= |Now(run).pending| && ValidRun(now) && Walked(run, now, k, late)
    ensures now.log == run.log + SweepEvents(Now(run).pending, k, late)
    ensures Now(now) == Swept(Now(run), k, late)
    decreases k
  {
    hide Swept, SweepEvents, Looked, ValidRun;
    if k == 0 {
      SweptNothing(Now(run), late);
      NothingSwept(run.log, Now(run).pending, late);
    } else {
      var before: Run<E> :|
        ValidRun(before) && Walked(run, before, k - 1, late) &&
        Looked(before, now, Now(run).pending[k - 1], late);
      WalkedOutcome(run, before, k - 1, late);
      LookedOutcome(run, before, now, k - 1, late);
    }
  }

  lemma WalkNothing<E(!new)>(run: Run<E>, late: set<E>)
    requires ValidRun(run)
    ensures Walked(run, run, 0, late)
  {
  }

  /** Where the walk stands in the list it is changing, and what comes next. */
  lemma WalkPosition<E(!new)>(run: Run<E>, now: Run<E>, k: nat, late: set<E>)
    requires ValidRun(run) && k < |Now(run).pending| && ValidRun(now) && Walked(run, now, k, late)
    ensures var P, Q, j := Now(run).pending, Now(now).pending, |Kept(Now(run).pending, k, late)|;
            && j < |Q| && Q[j] == P[k] && P[k] in Q && |Q| - j == |P| - k
            && (k + 1 < |P| ==> Q[j + 1] == P[k + 1])
  {
    WalkedOutcome(run, now, k, late);
  }

  lemma WalkStep<E(!new)>(run: Run<E>, now: Run<E>, k: nat, late: set<E>, after: Run<E>)
    requires ValidRun(run) && k < |Now(run).pending| && ValidRun(now) && Walked(run, now, k, late)
    requires ValidRun(after) && Looked(now, after, Now(run).pending[k], late)
    ensures Walked(run, after, k + 1, late)
  {
  }

  /** "after" continues "run" with nothing but sends and expiries. */
  ghost predicate Continues<E>(run: Run<E>, after: Run<E>, more: seq<Event<E>>) {
    ValidRun(run) && ValidRun(after) && after.log == run.log + more && AllInternal(more)
  }

  lemma ContinuesTwice<E>(
    run: Run<E>, mid: Run<E>, after: Run<E>, more: seq<Event<E>>, evenMore: seq<Event<E>>)
    requires Continues(run, mid, more) && Continues(mid, after, evenMore)
    ensures Continues(run, after, more + evenMore)
  {
    InternalConcat(more, evenMore);
    Associative(run.log, more, evenMore);
  }

  lemma Associative<E>(a: seq<E>, b: seq<E>, c: seq<E>)
    ensures (a + b) + c == a + (b + c)
  {
  }

  /** A pass either uses up a chance, or shortens the idle list, or did nothing. */
  lemma ContinuesMeasures<E>(run: Run<E>, after: Run<E>, more: seq<Event<E>>)
    requires Continues(run, after, more)
    ensures || TotalChances(Now(after)) < TotalChances(Now(run))
            || (TotalChances(Now(after)) == TotalChances(Now(run)) &&
                |Now(after).idle| == |Now(run).idle| - |more|)
    ensures more == [] ==> Now(after) == Now(run)
  {
    RunReplays(run);
    RunReplays(after);
    PassMeasures(run.log, more);
    if more == [] {
      assert run.log + more == run.log;
    }
  }

  /** Sending and expiring moves entries about, but none in or out. */
  lemma {:induction false} ContinuesMembers<E>(run: Run<E>, after: Run<E>, more: seq<Event<E>>)
    requires Continues(run, after, more)
    ensures Members(Now(after)) == Members(Now(run))
    decreases |more|
  {
    RunReplays(run);
    RunReplays(after);
    LogMembers(run.log, more);
  }

  lemma {:induction false} LogMembers<E>(log: seq<Event<E>>, more: seq<Event<E>>)
    requires Legal(log) && Legal(log + more) && AllInternal(more)
    ensures Members(Replay(log + more)) == Members(Replay(log))
    decreases |more|
  {
    hide Legal, Replay, Enabled, Apply, Members;
    if more == [] {
      assert log + more == log;
    } else {
      var init := more[..|more| - 1];
      LegalLast(log, more);
      LogMembers(log, init);
      LegalKeepsWellFormed(log + init);
      ApplyKeepsWellFormed(Replay(log + init), more[|more| - 1]);
    }
  }

  /** "after" continues "run" with sends and expiries, then returns a failed entry. */
  ghost predicate GaveUp<E(!new)>(run: Run<E>, after: Run<E>, more: seq<Event<E>>, e: E) {
    exists mid: Run<E> :: Continues(run, mid, more) && Happens(mid, GivenUp(e), after)
  }

  ghost predicate Happens<E>(run: Run<E>, ev: Event<E>, after: Run<E>) {
    && ValidRun(run) && ValidRun(after) && Enabled(Now(run), ev)
    && after.log == run.log + [ev] && Now(after) == Apply(Now(run), ev)
  }

  ghost predicate GotAnswer<E(!new)>(run: Run<E>, after: Run<E>, more: seq<Event<E>>, e: E) {
    exists mid: Run<E> :: Continues(run, mid, more) && Happens(mid, Answered(e), after)
  }

  lemma LaterOutcome<E(!new)>(
    run: Run<E>, mid: Run<E>, after: Run<E>, more: seq<Event<E>>, evenMore: seq<Event<E>>, e: E)
    requires Continues(run, mid, more)
    ensures GaveUp(mid, after, evenMore, e) ==> GaveUp(run, after, more + evenMore, e)
    ensures GotAnswer(mid, after, evenMore, e) ==> GotAnswer(run, after, more + evenMore, e)
  {
    if GaveUp(mid, after, evenMore, e) {
      var last: Run<E> :| Continues(mid, last, evenMore) && Happens(last, GivenUp(e), after);
      ContinuesTwice(run, mid, last, more, evenMore);
    }
    if GotAnswer(mid, after, evenMore, e) {
      var last: Run<E> :| Continues(mid, last, evenMore) && Happens(last, Answered(e), after);
      ContinuesTwice(run, mid, last, more, evenMore);
    }
  }

  lemma PolledWhenGivenUp<E>(run: Run<E>, e: E, after: Run<E>)
    requires Happens(run, GivenUp(e), after)
    ensures e in Now(run).polled <==> AnsweredSince(after.log, e)
  {
    RunReplays(run);
    assert e in Now(run).failed;
    PolledMeansAnswered(run.log, e);
    assert (run.log + [GivenUp(e)])[..|run.log|] == run.log;
  }

  /** An entry given up on was in the pool, has left it, and was sent three times. */
  lemma GaveUpOutcome<E(!new)>(run: Run<E>, after: Run<E>, more: seq<Event<E>>, e: E)
    requires GaveUp(run, after, more, e)
    ensures ValidRun(run) && ValidRun(after) && after.log == run.log + more + [GivenUp(e)]
    ensures e in Members(Now(run)) && Members(Now(after)) == Members(Now(run)) - {e}
    ensures Attempts(after.log, e) == MAX_RETRIES + 1
  {
    var mid: Run<E> :| Continues(run, mid, more) && Happens(mid, GivenUp(e), after);
    ContinuesMembers(run, mid, more);
    RunWellFormed(mid);
    ApplyKeepsWellFormed(Now(mid), GivenUp(e));
    RunReplays(mid);
    SendAccounting(mid.log, e);
    assert after.log[..|mid.log|] == mid.log;
  }

  /** An answered entry stays where it is, in the pending list. */
  lemma GotAnswerOutcome<E(!new)>(run: Run<E>, after: Run<E>, more: seq<Event<E>>, e: E)
    requires GotAnswer(run, after, more, e)
    ensures ValidRun(run) && ValidRun(after) && after.log == run.log + more + [Answered(e)]
    ensures e in Now(after).pending && Members(Now(after)) == Members(Now(run))
  {
    var mid: Run<E> :| Continues(run, mid, more) && Happens(mid, Answered(e), after);
    ContinuesMembers(run, mid, more);
    RunWellFormed(mid);
    ApplyKeepsWellFormed(Now(mid), Answered(e));
  }

  lemma HappensMembers<E>(run: Run<E>, ev: Event<E>, after: Run<E>)
    requires Happens(run, ev, after)
    ensures Members(Now(after)) ==
            if ev.Added? then Members(Now(run)) + {ev.entry}
            else if ev.Removed? || ev.GivenUp? then Members(Now(run)) - {ev.entry}
            else Members(Now(run))
  {
    RunWellFormed(run);
    ApplyKeepsWellFormed(Now(run), ev);
  }
}
