/** What the pool sends, and to whom, read off its log. */
module Sends {
  import opened Basics
  import opened World
  import opened PoolModel

  type Target = (Address, Request)

  function TargetOf(e: int, targets: seq<Target>): Target {
    if 0 <= e < |targets| then targets[e] else (Inet([], 0), GetInfo)
  }

  /** The target of the entry of each event, as long as targets stay the same. */
  function Aims(log: seq<Event<int>>, targets: seq<Target>): (r: seq<Target>)
    ensures |r| == |log|
  {
    seq(|log|, k requires 0 <= k < |log| => TargetOf(log[k].entry, targets))
  }

  /** The requests that go out in a log: one for each attempt, and no others. */
  ghost function Posted(log: seq<Event<int>>, aims: seq<Target>): seq<Target>
    requires |aims| == |log|
  {
    if log == [] then []
    else
      var n := |log| - 1;
      Posted(log[..n], aims[..n]) + if log[n].Sent? || log[n].Unsent? then [aims[n]] else []
  }

  /** Those among them that went out for an entry since it was last added. */
  ghost function PostedFor(log: seq<Event<int>>, aims: seq<Target>, e: int): seq<Target>
    requires |aims| == |log|
  {
    if log == [] then []
    else
      var n := |log| - 1;
      var before := PostedFor(log[..n], aims[..n], e);
      if log[n].entry != e then before
      else if log[n].Added? then []
      else before + if log[n].Sent? || log[n].Unsent? then [aims[n]] else []
  }

  /** Each attempt for an entry is a request of its own. */
  lemma {:induction false} OneRequestAnAttempt(log: seq<Event<int>>, aims: seq<Target>, e: int)
    requires |aims| == |log|
    ensures |PostedFor(log, aims, e)| == Attempts(log, e)
  {
    if log != [] {
      OneRequestAnAttempt(log[..|log| - 1], aims[..|log| - 1], e);
    }
  }

  lemma {:induction false} PostedConcat(log: seq<Event<int>>, aims: seq<Target>,
                                        more: seq<Event<int>>, moreAims: seq<Target>)
    requires |aims| == |log| && |moreAims| == |more|
    ensures Posted(log + more, aims + moreAims) == Posted(log, aims) + Posted(more, moreAims)
    decreases |more|
  {
    if more == [] {
      assert log + more == log && aims + moreAims == aims;
    } else {
      var n := |more| - 1;
      PostedConcat(log, aims, more[..n], moreAims[..n]);
      ButLast(log, more);
      ButLast(aims, moreAims);
    }
  }

  lemma ButLast<T>(s: seq<T>, t: seq<T>)
    requires t != []
    ensures (s + t)[..|s + t| - 1] == s + t[..|t| - 1]
  {
  }

  lemma PostedNothing(log: seq<Event<int>>, aims: seq<Target>, ev: Event<int>, aim: Target)
    requires |aims| == |log| && !ev.Sent? && !ev.Unsent?
    ensures Posted(log + [ev], aims + [aim]) == Posted(log, aims)
  {
    assert (log + [ev])[..|log|] == log && (aims + [aim])[..|log|] == aims;
  }

  // ---- As long as targets stay the same ---------------------------------------------

  ghost function SendsOf(more: seq<Event<int>>, targets: seq<Target>): seq<Target> {
    Posted(more, Aims(more, targets))
  }

  lemma AimsConcat(log: seq<Event<int>>, more: seq<Event<int>>, targets: seq<Target>)
    ensures Aims(log + more, targets) == Aims(log, targets) + Aims(more, targets)
  {
  }

  lemma SendsConcat(log: seq<Event<int>>, more: seq<Event<int>>, targets: seq<Target>)
    ensures SendsOf(log + more, targets) == SendsOf(log, targets) + SendsOf(more, targets)
  {
    AimsConcat(log, more, targets);
    PostedConcat(log, Aims(log, targets), more, Aims(more, targets));
  }

  lemma SendsOfOne(ev: Event<int>, targets: seq<Target>)
    ensures SendsOf([ev], targets) == if ev.Sent? || ev.Unsent? then [TargetOf(ev.entry, targets)] else []
  {
    assert Aims([ev], targets)[..0] == [] == Posted([], []);
  }

  /** While these events happened their requests went out, and nothing else; targets
      stayed the same. */
  ghost predicate Sending(sent: seq<Target>, targets: seq<Target>, more: seq<Event<int>>,
                          sent': seq<Target>, targets': seq<Target>)
  {
    targets' == targets && sent' == sent + SendsOf(more, targets)
  }

  lemma SendingMeans(sent: seq<Target>, targets: seq<Target>, more: seq<Event<int>>,
                     sent': seq<Target>, targets': seq<Target>)
    requires Sending(sent, targets, more, sent', targets')
    ensures targets' == targets && sent' == sent + SendsOf(more, targets)
  {
  }

  lemma SendingNothing(sent: seq<Target>, targets: seq<Target>)
    ensures Sending(sent, targets, [], sent, targets)
  {
  }

  lemma SendingOne(sent: seq<Target>, targets: seq<Target>, ev: Event<int>)
    requires (ev.Sent? || ev.Unsent?) && 0 <= ev.entry < |targets|
    ensures Sending(sent, targets, [ev], sent + [targets[ev.entry]], targets)
  {
    SendsOfOne(ev, targets);
  }

  lemma SendingTwice(sent: seq<Target>, targets: seq<Target>, more: seq<Event<int>>,
                     sent1: seq<Target>, targets1: seq<Target>, evenMore: seq<Event<int>>,
                     sent2: seq<Target>, targets2: seq<Target>)
    requires Sending(sent, targets, more, sent1, targets1)
    requires Sending(sent1, targets1, evenMore, sent2, targets2)
    ensures Sending(sent, targets, more + evenMore, sent2, targets2)
  {
    SendsConcat(more, evenMore, targets);
  }

  /** The expiry walk sends nothing. */
  lemma {:induction false} SweepSendsNothing(s: seq<int>, k: nat, late: set<int>, targets: seq<Target>)
    requires k <= |s|
    ensures SendsOf(SweepEvents(s, k, late), targets) == []
  {
    hide SendsOf, SweepEvents;
    if k == 0 {
      NoSweep(s, late, targets);
    } else {
      SweepSendsNothing(s, k - 1, late, targets);
      var last: seq<Event<int>> := if s[k - 1] in late then [Overdue(s[k - 1])] else [];
      SweepSplits(s, k, late, last);
      NothingSent(SweepEvents(s, k - 1, late), last, targets);
    }
  }

  lemma NoSweep(s: seq<int>, late: set<int>, targets: seq<Target>)
    ensures SendsOf(SweepEvents(s, 0, late), targets) == []
  {
  }

  lemma SweepSplits(s: seq<int>, k: nat, late: set<int>, last: seq<Event<int>>)
    requires 0 < k <= |s| && last == if s[k - 1] in late then [Overdue(s[k - 1])] else []
    ensures SweepEvents(s, k, late) == SweepEvents(s, k - 1, late) + last
  {
  }

  lemma SweepIsSilent(sent: seq<Target>, targets: seq<Target>, s: seq<int>, late: set<int>)
    ensures Sending(sent, targets, SweepEvents(s, |s|, late), sent, targets)
  {
    SweepSendsNothing(s, |s|, late, targets);
  }

  // ---- Over the whole log ------------------------------------------------------------

  /** Some attempts and expiries, and the return of an entry. */
  lemma PostedMore(log: seq<Event<int>>, aims: seq<Target>, more: seq<Event<int>>, last: seq<Event<int>>,
                   targets: seq<Target>)
    requires |aims| == |log|
    requires |last| <= 1 && forall k :: 0 <= k < |last| ==> !last[k].Sent? && !last[k].Unsent?
    ensures Posted(log + (more + last), aims + Aims(more + last, targets)) == Posted(log, aims) + SendsOf(more, targets)
  {
    NothingSent(more, last, targets);
    PostedConcat(log, aims, more + last, Aims(more + last, targets));
  }

  lemma NothingSent(more: seq<Event<int>>, last: seq<Event<int>>, targets: seq<Target>)
    requires |last| <= 1 && forall k :: 0 <= k < |last| ==> !last[k].Sent? && !last[k].Unsent?
    ensures SendsOf(more + last, targets) == SendsOf(more, targets)
  {
    SendsConcat(more, last, targets);
    if last == [] {
      assert more + last == more;
    } else {
      assert last == [last[0]];
      SendsOfOne(last[0], targets);
    }
  }

  /** Whatever went out for an entry since it was added had the target it has now. */
  ghost predicate AllAimed(log: seq<Event<int>>, aims: seq<Target>, targets: seq<Target>) {
    && |aims| == |log|
    && forall e, i :: 0 <= i < |PostedFor(log, aims, e)| ==> PostedFor(log, aims, e)[i] == TargetOf(e, targets)
  }

  lemma NothingAimed(targets: seq<Target>)
    ensures AllAimed([], [], targets)
  {
  }

  lemma AimedNext(log: seq<Event<int>>, aims: seq<Target>, ev: Event<int>,
                  targets: seq<Target>, targets': seq<Target>)
    requires AllAimed(log, aims, targets)
    requires forall e :: e != ev.entry || !ev.Added? ==> TargetOf(e, targets') == TargetOf(e, targets)
    ensures AllAimed(log + [ev], aims + [TargetOf(ev.entry, targets')], targets')
  {
    var log', aims' := log + [ev], aims + [TargetOf(ev.entry, targets')];
    assert log'[..|log|] == log && aims'[..|log|] == aims;
    forall e, i | 0 <= i < |PostedFor(log', aims', e)|
      ensures PostedFor(log', aims', e)[i] == TargetOf(e, targets')
    {
      assert i < |PostedFor(log, aims, e)| ==> PostedFor(log, aims, e)[i] == TargetOf(e, targets);
    }
  }

  lemma {:induction false} AimedMore(log: seq<Event<int>>, aims: seq<Target>, more: seq<Event<int>>,
                                     targets: seq<Target>)
    requires AllAimed(log, aims, targets)
    requires forall k :: 0 <= k < |more| ==> !more[k].Added?
    ensures AllAimed(log + more, aims + Aims(more, targets), targets)
    decreases |more|
  {
    hide AllAimed;
    if more == [] {
      assert log + more == log && aims + Aims(more, targets) == aims;
    } else {
      var n := |more| - 1;
      AimedMore(log, aims, more[..n], targets);
      AimedNext(log + more[..n], aims + Aims(more[..n], targets), more[n], targets, targets);
      assert log + more == log + more[..n] + [more[n]];
      assert aims + Aims(more, targets) == aims + Aims(more[..n], targets) + [TargetOf(more[n].entry, targets)];
    }
  }

  /** An entry given up was sent its request three times since it was added. */
  lemma ThreeRequests(log: seq<Event<int>>, aims: seq<Target>, targets: seq<Target>, e: int)
    requires AllAimed(log, aims, targets) && Attempts(log, e) == MAX_RETRIES + 1
    ensures var t := TargetOf(e, targets); PostedFor(log, aims, e) == [t, t, t]
  {
    OneRequestAnAttempt(log, aims, e);
  }

  /** What a call of the pool means for the requests. */
  lemma CallTraced(log: seq<Event<int>>, aims: seq<Target>, more: seq<Event<int>>, last: seq<Event<int>>,
                   targets: seq<Target>)
    requires AllAimed(log, aims, targets) && AllInternal(more)
    requires |last| <= 1 && forall k :: 0 <= k < |last| ==> !Internal(last[k]) && !last[k].Added?
    ensures AllAimed(log + (more + last), aims + Aims(more + last, targets), targets)
    ensures Posted(log + (more + last), aims + Aims(more + last, targets)) == Posted(log, aims) + SendsOf(more, targets)
  {
    InternalAddsNothing(more);
    AimedMore(log, aims, more + last, targets);
    hide AllAimed;
    assert |aims| == |log|;
    PostedMore(log, aims, more, last, targets);
  }
}
