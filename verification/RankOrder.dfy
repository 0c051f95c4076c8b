/** The order of the ranking, and the rank as the number of players ahead. */
module RankOrder {
  import opened Basics

  datatype Row = Row(clan: Name, elo: int, rank: nat, lastseen: int)

  type Table = map<Name, Row>

  /** Byte by byte; a proper prefix is smaller. */
  predicate NameLess(a: Name, b: Name) {
    b != [] && (a == [] || a[0] < b[0] || (a[0] == b[0] && NameLess(a[1..], b[1..])))
  }

  /** Descending by Elo, then by last seen date, then by name. */
  predicate Before(t: Table, a: Name, b: Name)
    requires a in t && b in t
  {
    || t[a].elo > t[b].elo
    || (t[a].elo == t[b].elo
        && (t[a].lastseen > t[b].lastseen || (t[a].lastseen == t[b].lastseen && NameLess(b, a))))
  }

  lemma {:induction false} NameLessTransitive(a: Name, b: Name, c: Name)
    requires NameLess(a, b) && NameLess(b, c)
    ensures NameLess(a, c)
  {
    if a != [] && a[0] == b[0] == c[0] {
      NameLessTransitive(a[1..], b[1..], c[1..]);
    }
  }

  lemma {:induction false} NameLessTotal(a: Name, b: Name)
    ensures !(NameLess(a, b) && NameLess(b, a))
    ensures a == b || NameLess(a, b) || NameLess(b, a)
  {
    if a != [] && b != [] {
      NameLessTotal(a[1..], b[1..]);
      if a[0] == b[0] && a[1..] == b[1..] {
        assert a == [a[0]] + a[1..] && b == [b[0]] + b[1..];
      }
    }
  }

  lemma BeforeTransitive(t: Table, a: Name, b: Name, c: Name)
    requires a in t && b in t && c in t && Before(t, a, b) && Before(t, b, c)
    ensures Before(t, a, c)
  {
    if NameLess(c, b) && NameLess(b, a) {
      NameLessTransitive(c, b, a);
    }
  }

  /** Any two players are strictly ordered, one way only. */
  lemma BeforeTotal(t: Table, a: Name, b: Name)
    requires a in t && b in t
    ensures !(Before(t, a, b) && Before(t, b, a))
    ensures a == b || Before(t, a, b) || Before(t, b, a)
  {
    NameLessTotal(a, b);
  }

  /** The first name has the greater byte where they first differ, or goes on where the
      second ends. */
  ghost predicate NameAfter(a: Name, b: Name) {
    exists k :: 0 <= k < |a| && k <= |b| && a[..k] == b[..k] && (k < |b| ==> a[k] > b[k])
  }

  lemma {:induction false} NameLessMeans(a: Name, b: Name)
    ensures NameLess(a, b) <==> NameAfter(b, a)
  {
    if a == [] || b == [] || a[0] != b[0] {
      if NameLess(a, b) {
        assert b[..0] == a[..0];
      }
      assert forall k :: 0 < k <= |a| && k < |b| && b[..k] == a[..k] ==> b[..k][0] == a[..k][0];
    } else {
      NameLessMeans(a[1..], b[1..]);
      SameHead(a, b);
    }
  }

  lemma SameHead(a: Name, b: Name)
    requires a != [] && b != [] && a[0] == b[0]
    ensures NameAfter(b, a) <==> NameAfter(b[1..], a[1..])
  {
    var a1, b1 := a[1..], b[1..];
    if k :| 0 <= k < |b| && k <= |a| && b[..k] == a[..k] && (k < |a| ==> b[k] > a[k]) {
      assert k > 0;
      assert b1[..k - 1] == b[..k][1..] == a[..k][1..] == a1[..k - 1];
      assert k - 1 < |b1| && (k - 1 < |a1| ==> b1[k - 1] > a1[k - 1]);
    }
    if k :| 0 <= k < |b1| && k <= |a1| && b1[..k] == a1[..k] && (k < |a1| ==> b1[k] > a1[k]) {
      assert b[..k + 1] == [b[0]] + b1[..k] && a[..k + 1] == [a[0]] + a1[..k];
      assert k + 1 < |b| && (k + 1 < |a| ==> b[k + 1] > a[k + 1]);
    }
  }

  /** Who is ahead, read off the columns of the table. */
  lemma AheadByColumns(t: Table, a: Name, b: Name)
    requires a in t && b in t
    ensures Before(t, a, b) <==>
      || t[a].elo > t[b].elo
      || (t[a].elo == t[b].elo && t[a].lastseen > t[b].lastseen)
      || (t[a].elo == t[b].elo && t[a].lastseen == t[b].lastseen && NameAfter(a, b))
  {
    NameLessMeans(b, a);
  }

  /** The players ahead of one. */
  function Ahead(t: Table, n: Name): set<Name>
    requires n in t
  {
    set m | m in t && Before(t, m, n)
  }

  function RankOf(t: Table, n: Name): nat
    requires n in t
  {
    |Ahead(t, n)| + 1
  }

  lemma SmallerSet<T>(a: set<T>, b: set<T>)
    requires a < b
    ensures |a| < |b|
  {
    assert b == a + (b - a);
  }

  lemma RankFollowsOrder(t: Table, a: Name, b: Name)
    requires a in t && b in t && Before(t, a, b)
    ensures RankOf(t, a) < RankOf(t, b)
  {
    forall m | m in Ahead(t, a)
      ensures m in Ahead(t, b)
    {
      BeforeTransitive(t, m, a, b);
    }
    BeforeTotal(t, a, a);
    assert a in Ahead(t, b) && a !in Ahead(t, a);
    SmallerSet(Ahead(t, a), Ahead(t, b));
  }

  /** A better rank and a better place are the same thing. */
  lemma RankIsPlace(t: Table, a: Name, b: Name)
    requires a in t && b in t
    ensures RankOf(t, a) < RankOf(t, b) <==> Before(t, a, b)
    ensures RankOf(t, a) == RankOf(t, b) <==> a == b
  {
    BeforeTotal(t, a, b);
    if Before(t, a, b) {
      RankFollowsOrder(t, a, b);
    } else if Before(t, b, a) {
      RankFollowsOrder(t, b, a);
    }
  }

  lemma RankAtMost(t: Table, n: Name)
    requires n in t
    ensures 1 <= RankOf(t, n) <= |t|
  {
    BeforeTotal(t, n, n);
    assert Ahead(t, n) < t.Keys;
    SmallerSet(Ahead(t, n), t.Keys);
    assert |t.Keys| == |t|;
  }

  // ---- Rows in order ---------------------------------------------------------------

  ghost predicate Sorted(t: Table, rows: seq<Name>) {
    && (forall k :: 0 <= k < |rows| ==> rows[k] in t)
    && forall i, j :: 0 <= i < j < |rows| ==> Before(t, rows[i], rows[j])
  }

  /** The rows of a query over the whole table. */
  ghost predicate Ordered(t: Table, rows: seq<Name>) {
    Sorted(t, rows) && forall n :: n in t ==> n in rows
  }

  ghost function Elements(rows: seq<Name>): set<Name> {
    set n | n in rows
  }

  lemma ElementsNext(rows: seq<Name>, k: nat)
    requires k < |rows|
    ensures Elements(rows[..k + 1]) == Elements(rows[..k]) + {rows[k]}
  {
    assert rows[..k + 1] == rows[..k] + [rows[k]];
  }

  lemma SortedDiffer(t: Table, rows: seq<Name>, k: nat)
    requires Sorted(t, rows) && k < |rows|
    ensures rows[k] !in rows[..k]
  {
    BeforeTotal(t, rows[k], rows[k]);
  }

  lemma {:induction false} SortedCount(t: Table, rows: seq<Name>, k: nat)
    requires Sorted(t, rows) && k <= |rows|
    ensures |Elements(rows[..k])| == k
  {
    hide Sorted;
    if k > 0 {
      SortedCount(t, rows, k - 1);
      SortedDiffer(t, rows, k - 1);
      ElementsNext(rows, k - 1);
    }
  }

  /** The place of a row is its rank: those ahead are the rows before it. */
  lemma PlaceIsRank(t: Table, rows: seq<Name>, k: nat)
    requires Ordered(t, rows) && k < |rows|
    ensures RankOf(t, rows[k]) == k + 1
  {
    forall n
      ensures n in Ahead(t, rows[k]) <==> n in Elements(rows[..k])
    {
      if n in Ahead(t, rows[k]) {
        var j :| 0 <= j < |rows| && rows[j] == n;
        BeforeTotal(t, n, rows[k]);
        assert j < k;
        assert rows[..k][j] == n;
      }
    }
    assert Ahead(t, rows[k]) == Elements(rows[..k]);
    SortedCount(t, rows, k);
  }

  /** Where a row that is not there yet goes. */
  method FindRow(t: Table, rows: seq<Name>, n: Name) returns (k: nat)
    requires Sorted(t, rows) && n in t && n !in rows
    ensures k <= |rows|
    ensures forall j :: 0 <= j < k ==> Before(t, rows[j], n)
    ensures forall j :: k <= j < |rows| ==> Before(t, n, rows[j])
  {
    k := 0;
    while k < |rows| && Before(t, rows[k], n)
      invariant k <= |rows|
      invariant forall j :: 0 <= j < k ==> Before(t, rows[j], n)
    {
      k := k + 1;
    }
    forall j | k <= j < |rows|
      ensures Before(t, n, rows[j])
    {
      BeforeTotal(t, rows[k], n);
      if k < j {
        BeforeTransitive(t, n, rows[k], rows[j]);
      }
    }
  }

  /** The names of a table, best player first: what the database answers to the query
      of the ranking. */
  method SelectByElo(t: Table) returns (rows: seq<Name>)
    ensures Ordered(t, rows)
    ensures forall i, j :: 0 <= i < j < |rows| && rows[i] in t && rows[j] in t ==>
      var a, b := t[rows[i]], t[rows[j]];
      && a.elo >= b.elo
      && (a.elo == b.elo ==> a.lastseen >= b.lastseen)
      && (a.elo == b.elo && a.lastseen == b.lastseen ==> NameAfter(rows[i], rows[j]))
  {
    rows := [];
    var left := t.Keys;
    while left != {}
      invariant left <= t.Keys && Sorted(t, rows)
      invariant forall n :: n in t ==> (n in rows <==> n !in left)
      decreases left
    {
      var n :| n in left;
      left := left - {n};
      var k := FindRow(t, rows, n);
      rows := rows[..k] + [n] + rows[k..];
    }
    forall i, j | 0 <= i < j < |rows|
      ensures Before(t, rows[i], rows[j])
      ensures NameLess(rows[j], rows[i]) <==> NameAfter(rows[i], rows[j])
    {
      NameLessMeans(rows[j], rows[i]);
    }
  }
}
