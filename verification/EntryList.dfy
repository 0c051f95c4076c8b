/** Intrusive doubly linked lists.  The entries are the elements of a static array,
    so a pointer to one is its index, and NULL is an index no element has. */
module EntryList {
  import opened PoolModel

  const NULL := -1

  ghost predicate InArray(s: seq<int>, n: int) {
    forall k :: 0 <= k < |s| ==> 0 <= s[k] < n
  }

  ghost function Position(s: seq<int>, e: int): (k: nat)
    requires e in s
    ensures k < |s| && s[k] == e
  {
    var k :| 0 <= k < |s| && s[k] == e;
    k
  }

  /** The element at a position, or NULL beyond either end. */
  ghost function At(s: seq<int>, k: int): int {
    if 0 <= k < |s| then s[k] else NULL
  }

  lemma DistinctWithout(s: seq<int>, e: int)
    requires Distinct(s)
    ensures Distinct(Without(s, e))
  {
    WithoutElements(s, e);
  }

  ghost function CutAt(s: seq<int>, k: nat): (r: seq<int>)
    requires k < |s| && Distinct(s)
    ensures |r| == |s| - 1
    ensures forall i :: At(r, i) == At(s, if i < k then i else i + 1)
    ensures r == Without(s, s[k])
  {
    WithoutAt(s, k);
    s[..k] + s[k + 1..]
  }

  lemma Apart(s: seq<int>, c: int)
    requires Distinct(s)
    ensures 0 <= c < |s| ==> forall i :: 0 <= i < |s| && i != c ==> s[i] != s[c]
  {
    if 0 <= c < |s| {
      forall i | 0 <= i < |s| && i != c
        ensures s[i] != s[c]
      {
        DistinctAt(s, if i < c then i else c, if i < c then c else i);
      }
    }
  }

  /** A list head with, for some lists, a pointer to the last entry. */
  class EntryList {
    const next: array<int>
    const prev: array<int>
    const tracked: bool
    var head: int
    var tail: int
    ghost var elems: seq<int>

    ghost predicate Valid()
      reads this, next, prev
    {
      && next != prev && next.Length == prev.Length
      && InArray(elems, next.Length)
      && Distinct(elems)
      && head == At(elems, 0)
      && (tracked ==> tail == At(elems, |elems| - 1))
      && Links()
    }

    /** Each entry points to its neighbours, the outer ones to nothing. */
    ghost predicate Links()
      requires next.Length == prev.Length && InArray(elems, next.Length)
      reads this, next, prev
    {
      && (forall k {:trigger next[elems[k]]} :: 0 <= k < |elems| ==> next[elems[k]] == At(elems, k + 1))
      && (forall k {:trigger prev[elems[k]]} :: 0 <= k < |elems| ==> prev[elems[k]] == At(elems, k - 1))
    }

    constructor (next: array<int>, prev: array<int>, tracked: bool)
      requires next != prev && next.Length == prev.Length
      ensures Valid() && elems == []
      ensures this.next == next && this.prev == prev && this.tracked == tracked
    {
      this.next, this.prev, this.tracked := next, prev, tracked;
      head, tail, elems := NULL, NULL, [];
    }

    method Insert(entry: int)
      requires Valid() && entry !in elems && 0 <= entry < next.Length
      modifies this, next, prev
      ensures Valid() && elems == [entry] + old(elems)
      ensures forall x :: 0 <= x < next.Length && x !in elems ==>
                next[x] == old(next[x]) && prev[x] == old(prev[x])
    {
      Apart(elems, 0);
      if head != NULL {
        prev[head] := entry;
      } else if tracked {
        tail := entry;
      }
      next[entry] := head;
      prev[entry] := NULL;
      head := entry;
      elems := [entry] + elems;
      assert elems[1..] == old(elems);
    }

    method Remove(entry: int)
      requires Valid() && entry in elems
      modifies this, next, prev
      ensures Valid() && elems == Without(old(elems), entry)
      ensures forall x :: 0 <= x < next.Length && x !in old(elems) ==>
                next[x] == old(next[x]) && prev[x] == old(prev[x])
    {
      hide Distinct, Without;
      ghost var k := Position(elems, entry);
      Bypass(entry, k);
      if head == entry {
        head := next[entry];
      }
      if tracked && tail == entry {
        tail := prev[entry];
      }
      ghost var s := elems;
      elems := CutAt(s, k);
      DistinctWithout(s, entry);
      CutLinks(s, k);
    }

    /** Makes the neighbours of an entry point to each other. */
    method Bypass(entry: int, ghost k: int)
      requires Valid() && 0 <= k < |elems| && elems[k] == entry
      modifies next, prev
      ensures LinksAround(elems, k)
      ensures next[entry] == old(next[entry]) && prev[entry] == old(prev[entry])
      ensures forall x :: 0 <= x < next.Length && x !in elems ==>
                next[x] == old(next[x]) && prev[x] == old(prev[x])
    {
      Apart(elems, k - 1);
      Apart(elems, k);
      Apart(elems, k + 1);
      if prev[entry] != NULL {
        next[prev[entry]] := next[entry];
      }
      if next[entry] != NULL {
        prev[next[entry]] := prev[entry];
      }
    }

    /** The links of a list in which nothing points to the entry at "c". */
    ghost predicate LinksAround(s: seq<int>, c: nat)
      requires next.Length == prev.Length && InArray(s, next.Length)
      reads this, next, prev
    {
      && (forall k {:trigger next[s[k]]} :: 0 <= k < |s| && k != c ==>
            next[s[k]] == At(s, if k + 1 == c then k + 2 else k + 1))
      && (forall k {:trigger prev[s[k]]} :: 0 <= k < |s| && k != c ==>
            prev[s[k]] == At(s, if k - 1 == c then k - 2 else k - 1))
    }

    lemma CutLinks(s: seq<int>, k: nat)
      requires next.Length == prev.Length && InArray(s, next.Length)
      requires k < |s| && LinksAround(s, k) && |elems| == |s| - 1
      requires forall i :: At(elems, i) == At(s, if i < k then i else i + 1)
      ensures InArray(elems, next.Length) && Links()
    {
      forall i | 0 <= i < |elems|
        ensures 0 <= elems[i] < next.Length
        ensures next[elems[i]] == At(elems, i + 1) && prev[elems[i]] == At(elems, i - 1)
      {
        var j := if i < k then i else i + 1;
        assert elems[i] == At(elems, i) == s[j];
      }
    }
  }

  /** Two lists over the same arrays, without common entries. */
  ghost predicate Beside(list: EntryList, other: EntryList)
    reads list, other
  {
    list != other && list.next == other.next && list.prev == other.prev && Disjoint(list.elems, other.elems)
  }

  /** Inserts into one of three lists; the other two keep their entries. */
  method InsertBeside(list: EntryList, entry: int, a: EntryList, b: EntryList)
    requires list.Valid() && a.Valid() && b.Valid() && Beside(list, a) && Beside(list, b)
    requires entry !in list.elems && entry !in a.elems && entry !in b.elems && 0 <= entry < list.next.Length
    modifies list, list.next, list.prev
    ensures list.Valid() && a.Valid() && b.Valid() && Beside(list, a) && Beside(list, b)
    ensures list.elems == [entry] + old(list.elems)
  {
    list.Insert(entry);
    assert forall x :: x in list.elems <==> x == entry || x in old(list.elems);
  }

  /** Removes from one of three lists; the other two keep their entries. */
  method RemoveBeside(list: EntryList, entry: int, a: EntryList, b: EntryList)
    requires list.Valid() && a.Valid() && b.Valid() && Beside(list, a) && Beside(list, b)
    requires entry in list.elems
    modifies list, list.next, list.prev
    ensures list.Valid() && a.Valid() && b.Valid() && Beside(list, a) && Beside(list, b)
    ensures list.elems == Without(old(list.elems), entry)
    ensures entry !in list.elems && entry !in a.elems && entry !in b.elems
  {
    WithoutElements(list.elems, entry);
    list.Remove(entry);
  }
}
