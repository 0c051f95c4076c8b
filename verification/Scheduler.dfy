/** The job list: singly linked, sorted by date, earliest first. */
module Scheduler {
  import opened World
  import opened PoolModel
  import opened EntryList

  /** A job goes before those that are not earlier, hence before those of the same date. */
  ghost predicate IsPlace(s: seq<int>, dates: seq<int>, d: int, k: int)
    requires InArray(s, |dates|)
  {
    && 0 <= k <= |s|
    && (forall i :: 0 <= i < k ==> dates[s[i]] < d)
    && (forall i :: k <= i < |s| ==> d <= dates[s[i]])
  }

  ghost predicate Sorted(s: seq<int>, dates: seq<int>)
    requires InArray(s, |dates|)
  {
    forall i, j :: 0 <= i < j < |s| ==> dates[s[i]] <= dates[s[j]]
  }

  ghost function InsertAt(s: seq<int>, k: nat, e: int): (r: seq<int>)
    requires k <= |s|
    ensures |r| == |s| + 1
    ensures forall i :: At(r, i) == if i == k then e else At(s, if i < k then i else i - 1)
    ensures forall x :: x in r <==> x == e || x in s
  {
    assert s == s[..k] + s[k..];
    var r := s[..k] + [e] + s[k..];
    assert forall i :: 0 <= i < |r| ==> r[i] == if i == k then e else s[if i < k then i else i - 1];
    r
  }

  lemma {:induction false} DistinctInsert(s: seq<int>, k: nat, e: int)
    requires k <= |s| && Distinct(s) && e !in s
    ensures Distinct(InsertAt(s, k, e))
  {
    var r := InsertAt(s, k, e);
    if k == 0 {
      assert r[1..] == s;
    } else {
      DistinctInsert(s[1..], k - 1, e);
      assert r[1..] == InsertAt(s[1..], k - 1, e) by {
        assert s[1..][..k - 1] == s[1..k] && s[1..][k - 1..] == s[k..];
      }
    }
  }

  /** The list stays sorted, and the new job is where its date says. */
  lemma InsertKeepsSorted(s: seq<int>, dates: seq<int>, job: int, d: int, k: nat)
    requires InArray(s, |dates|) && Sorted(s, dates) && 0 <= job < |dates| && job !in s
    requires IsPlace(s, dates, d, k)
    ensures InArray(InsertAt(s, k, job), |dates|) && Sorted(InsertAt(s, k, job), dates[job := d])
  {
    var r, dates' := InsertAt(s, k, job), dates[job := d];
    forall i | 0 <= i < |r|
      ensures r[i] == if i == k then job else if i < k then s[i] else s[i - 1]
    {
      assert r[i] == At(r, i);
    }
    forall i, j | 0 <= i < j < |r|
      ensures dates'[r[i]] <= dates'[r[j]]
    {
    }
  }

  lemma PlaceIsUnique(s: seq<int>, dates: seq<int>, d: int, k: int, k': int)
    requires InArray(s, |dates|) && IsPlace(s, dates, d, k) && IsPlace(s, dates, d, k')
    ensures k == k'
  {
    assert k < |s| ==> d <= dates[s[k]];
    assert k' < |s| ==> d <= dates[s[k']];
  }

  class Scheduler {
    const date: array<int>
    const next: array<int>
    var jobs: int
    ghost var queue: seq<int>

    ghost predicate Valid()
      reads this, date, next
    {
      && date != next && date.Length == next.Length
      && InArray(queue, next.Length) && Distinct(queue)
      && jobs == At(queue, 0)
      && (forall k {:trigger next[queue[k]]} :: 0 <= k < |queue| ==> next[queue[k]] == At(queue, k + 1))
      && Sorted(queue, date[..])
    }

    constructor (size: nat)
      ensures Valid() && queue == [] && date.Length == size && fresh(date) && fresh(next)
    {
      date, next := new int[size], new int[size];
      jobs, queue := NULL, [];
    }

    lemma QueueDiffer()
      requires Valid()
      ensures InArray(queue, date.Length) && Distinct(queue)
    {
    }

    predicate HaveSchedule()
      reads this
    {
      jobs != NULL
    }

    /** Walks to the first job that is not earlier than "d". */
    method FindPlace(d: int) returns (before: int, after: int, ghost k: nat)
      requires Valid()
      ensures IsPlace(queue, date[..], d, k) && before == At(queue, k - 1) && after == At(queue, k)
      ensures before != NULL ==> before in queue && date[before] < d
      ensures after != NULL ==> after in queue && d <= date[after]
    {
      before, after := NULL, jobs;
      k := 0;
      while after != NULL && date[after] < d
        invariant k <= |queue| && before == At(queue, k - 1) && after == At(queue, k)
        invariant forall i :: 0 <= i < k ==> date[queue[i]] < d
        decreases |queue| - k
      {
        assert queue[k] == after;
        before, after := after, next[after];
        k := k + 1;
      }
      assert k < |queue| ==> d <= date[..][queue[k]];
    }

    method Schedule(job: int, d: int) returns (ghost k: nat)
      requires Valid() && job !in queue && 0 <= job < date.Length
      modifies this, date, next
      ensures Valid() && IsPlace(old(queue), old(date[..]), d, k) && queue == InsertAt(old(queue), k, job)
      ensures date[..] == old(date[..])[job := d]
    {
      var before, after;
      before, after, k := FindPlace(d);
      ghost var s, dates := queue, date[..];
      Apart(s, k as int - 1);
      date[job] := d;
      next[job] := after;
      if before == NULL {
        jobs := job;
      } else {
        next[before] := job;
      }
      queue := InsertAt(s, k, job);
      DistinctInsert(s, k, job);
      assert date[..] == dates[job := d];
      InsertKeepsSorted(s, dates, job, d, k);
      InsertLinks(s, k, job);
    }

    lemma InsertLinks(s: seq<int>, k: nat, job: int)
      requires k <= |s| && queue == InsertAt(s, k, job) && InArray(queue, next.Length) && InArray(s, next.Length)
      requires 0 <= job < next.Length
      requires next[job] == At(s, k) && (k > 0 ==> next[s[k - 1]] == job)
      requires forall i {:trigger next[s[i]]} :: 0 <= i < |s| && i + 1 != k ==> next[s[i]] == At(s, i + 1)
      ensures forall i {:trigger next[queue[i]]} :: 0 <= i < |queue| ==> next[queue[i]] == At(queue, i + 1)
    {
      forall i | 0 <= i < |queue|
        ensures next[queue[i]] == At(queue, i + 1)
      {
        assert queue[i] == At(queue, i) == if i == k then job else s[if i < k then i else i - 1];
      }
    }

    /** How long to sleep until the first job is due. */
    method WaitingTime(world: World) returns (t: int)
      requires Valid()
      modifies world
      ensures world.Quiet()
      ensures t == 0 <==> jobs == NULL || date[jobs] <= world.secs
      ensures t >= 0 && (t > 0 ==> world.secs + t == date[jobs])
    {
      var now := world.Time();
      if jobs == NULL || now > date[jobs] {
        t := 0;
      } else {
        t := date[jobs] - now;
      }
    }

    /** A job is handed out only when its date has come; when none is, no date has. */
    method NextSchedule(world: World) returns (job: int)
      requires Valid()
      modifies this, world
      ensures Valid() && world.Quiet()
      ensures if job == NULL then
                && queue == old(queue)
                && forall k :: 0 <= k < |queue| ==> world.secs < date[queue[k]]
              else
                && 0 <= job < date.Length && old(queue) == [job] + queue
                && date[job] <= world.secs
    {
      var t := WaitingTime(world);
      if t != 0 || jobs == NULL {
        assert forall k :: 0 <= k < |queue| ==> date[..][queue[0]] <= date[..][queue[k]];
        return NULL;
      }
      job := jobs;
      assert queue[0] == job;
      jobs := next[job];
      queue := queue[1..];
      assert forall k :: 0 <= k < |queue| ==> queue[k] == old(queue)[k + 1];
    }

    /** Sleeping may end early, when a signal arrives. */
    method WaitUntilNextSchedule(world: World)
      requires Valid()
      modifies world
      ensures world.Quiet()
    {
      var t := WaitingTime(world);
      world.Pass();
    }
  }
}
