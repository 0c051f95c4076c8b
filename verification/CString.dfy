/** Strings as C has them, and the numbers the C library reads from them. */
module CString {
  import opened Basics

  const NUL: byte := 0
  const LONG_MAX: int := 0x7fff_ffff_ffff_ffff

  /** A string of "n" bytes at the start of an array. */
  ghost predicate IsString(a: seq<byte>, n: nat) {
    n < |a| && a[n] == NUL && NUL !in a[..n]
  }

  predicate IsDigit(c: byte) {
    48 <= c <= 57
  }

  predicate IsSpace(c: byte) {
    c == 32 || 9 <= c <= 13
  }

  predicate IsSign(c: byte) {
    c == 43 || c == 45
  }

  function SkipSpace(s: seq<byte>): seq<byte> {
    if s != [] && IsSpace(s[0]) then SkipSpace(s[1..]) else s
  }

  /** How many digits a string starts with, not counting further than "width". */
  function DigitRun(s: seq<byte>, width: nat): (r: nat)
    ensures r <= width && r <= |s| && forall i :: 0 <= i < r ==> IsDigit(s[i])
  {
    if width == 0 || s == [] || !IsDigit(s[0]) then 0 else 1 + DigitRun(s[1..], width - 1)
  }

  /** The number that digits denote in base ten. */
  function Value(s: seq<byte>): nat
    requires forall i :: 0 <= i < |s| ==> IsDigit(s[i])
  {
    if s == [] then 0
    else
      assert IsDigit(s[|s| - 1]);
      10 * Value(s[..|s| - 1]) + (s[|s| - 1] as int - 48)
  }

  /** What was read and where reading stopped. */
  datatype Scan = Scan(value: int, rest: seq<byte>)

  /** A decimal number after spaces and a sign, of "width" characters at most with the
      sign, or nothing. */
  function ScanInt(s: seq<byte>, width: nat): Option<Scan> {
    var t := SkipSpace(s);
    var signed := t != [] && IsSign(t[0]) && width > 0;
    var u := if signed then t[1..] else t;
    var n := DigitRun(u, if signed then width - 1 else width);
    if n == 0 then None
    else Some(Scan(if signed && t[0] == 45 then -(Value(u[..n]) as int) else Value(u[..n]), u[n..]))
  }

  /** strtol() in base ten: saturates, and reads nothing when there is no number. */
  function Strtol(s: seq<byte>): Scan {
    match ScanInt(s, |s|)
    case None => Scan(0, s)
    case Some(r) =>
      Scan(if r.value > LONG_MAX then LONG_MAX else if r.value < -LONG_MAX - 1 then -LONG_MAX - 1 else r.value, r.rest)
  }

  /** A number printed with "%u". */
  function Decimal(n: nat): (r: seq<byte>)
    ensures r != [] && forall i :: 0 <= i < |r| ==> IsDigit(r[i])
    ensures Value(r) == n
    ensures n < 10 ==> |r| <= 1
    ensures n < 100 ==> |r| <= 2
    ensures n < 1000 ==> |r| <= 3
    ensures n < 100_000 ==> |r| <= 5
  {
    if n < 10 then [(48 + n) as byte]
    else
      var front := Decimal(n / 10);
      assert (front + [(48 + n % 10) as byte])[..|front|] == front;
      front + [(48 + n % 10) as byte]
  }

  lemma {:induction false} RunOfDigits(d: seq<byte>, rest: seq<byte>, width: nat)
    requires |d| <= width && forall i :: 0 <= i < |d| ==> IsDigit(d[i])
    requires rest == [] || !IsDigit(rest[0])
    ensures DigitRun(d + rest, width) == |d|
  {
    if d == [] {
      assert d + rest == rest;
    } else {
      assert (d + rest)[1..] == d[1..] + rest;
      RunOfDigits(d[1..], rest, width - 1);
    }
  }

  /** A printed number is read back, up to what follows it. */
  lemma DecimalScans(n: nat, rest: seq<byte>, width: nat)
    requires |Decimal(n)| <= width && (rest == [] || !IsDigit(rest[0]))
    ensures ScanInt(Decimal(n) + rest, width) == Some(Scan(n, rest))
  {
    var d := Decimal(n);
    RunOfDigits(d, rest, width);
    assert IsDigit(d[0]) && (d + rest)[0] == d[0];
    hide DigitRun, Value, Decimal;
    TakeFront(d, rest);
  }

  /** A sign before a digit counts as one character more. */
  lemma SignThen(p: seq<byte>, width: nat)
    requires p != [] && IsDigit(p[0])
    ensures ScanInt([45] + p, width + 1) ==
            match ScanInt(p, width) case None => None case Some(r) => Some(Scan(-r.value, r.rest))
  {
    var s := [45] + p;
    assert SkipSpace(p) == p && SkipSpace(s) == s && s[1..] == p;
    hide SkipSpace, DigitRun, Value;
  }

  /** So is one with a minus in front of it. */
  lemma NegativeScans(n: nat)
    ensures ScanInt([45] + Decimal(n), |Decimal(n)| + 1) == Some(Scan(-(n as int), []))
  {
    hide ScanInt, Decimal, Value, IsDigit;
    var d := Decimal(n);
    assert IsDigit(d[0]);
    assert d + [] == d;
    DecimalScans(n, [], |d|);
    SignThen(d, |d|);
  }

  /** Printed numbers as strtol() reads them. */
  lemma StrtolReads(n: nat)
    requires n <= LONG_MAX
    ensures Strtol(Decimal(n)) == Scan(n, []) && NUL !in Decimal(n)
    ensures Strtol([45] + Decimal(n)) == Scan(-(n as int), []) && NUL !in [45] + Decimal(n)
  {
    hide ScanInt, Decimal, Value;
    var d := Decimal(n);
    DecimalScans(n, [], |d|);
    NegativeScans(n);
    assert d + [] == d;
    assert |[45] + d| == |d| + 1;
  }

  lemma TakeFront(d: seq<byte>, rest: seq<byte>)
    ensures (d + rest)[..|d|] == d && (d + rest)[|d|..] == rest
  {
  }

  /** Spaces, signs and digits: all a number is made of. */
  predicate IsNumeric(c: byte) {
    IsSpace(c) || IsSign(c) || IsDigit(c)
  }

  lemma {:induction false} SpaceSkipped(s: seq<byte>) returns (k: nat)
    ensures k <= |s| && SkipSpace(s) == s[k..] && forall i :: 0 <= i < k ==> IsSpace(s[i])
  {
    k := 0;
    if s != [] && IsSpace(s[0]) {
      k := SpaceSkipped(s[1..]);
      assert s[1..][k..] == s[k + 1..];
      k := k + 1;
    }
  }

  lemma DropTwice(s: seq<byte>, k: nat, n: nat)
    requires k + n <= |s|
    ensures s[k..][n..] == s[k + n..]
  {
  }

  /** Digits counted from a position on. */
  lemma RunConsumes(s: seq<byte>, k: nat, width: nat)
    requires k <= |s|
    ensures var n := DigitRun(s[k..], width);
            && k + n <= |s| && s[k..][n..] == s[k + n..]
            && forall i :: k <= i < k + n ==> IsDigit(s[i])
  {
    var t, n := s[k..], DigitRun(s[k..], width);
    hide DigitRun;
    DropTwice(s, k, n);
    forall i | k <= i < k + n
      ensures IsDigit(s[i])
    {
      assert IsDigit(t[i - k]);
    }
  }

  /** The rest after a number, when the spaces before it end at "j". */
  lemma RestAfter(s: seq<byte>, width: nat, j: nat)
    requires j <= |s| && SkipSpace(s) == s[j..] && ScanInt(s, width).Some?
    ensures var start := if j < |s| && IsSign(s[j]) && width > 0 then j + 1 else j;
            var n := DigitRun(s[start..], if start == j then width else width - 1);
            n > 0 && ScanInt(s, width).value.rest == s[start..][n..]
  {
    hide SkipSpace, DigitRun, Value;
    if j < |s| {
      DropTwice(s, j, 1);
    }
  }

  /** What a number is read from. */
  lemma ScanConsumes(s: seq<byte>, width: nat) returns (k: nat)
    requires ScanInt(s, width).Some?
    ensures 0 < k <= |s| && ScanInt(s, width).value.rest == s[k..]
    ensures forall i :: 0 <= i < k ==> IsNumeric(s[i])
  {
    hide ScanInt, SkipSpace, DigitRun;
    var j := SpaceSkipped(s);
    RestAfter(s, width, j);
    var start := if j < |s| && IsSign(s[j]) && width > 0 then j + 1 else j;
    var left := if start == j then width else width - 1;
    RunConsumes(s, start, left);
    k := start + DigitRun(s[start..], left);
  }

  // ---- A number and what follows it ---------------------------------------------------

  lemma {:induction false} SpaceSkippedBefore(p: seq<byte>, rest: seq<byte>)
    requires SkipSpace(p) != []
    ensures SkipSpace(p + rest) == SkipSpace(p) + rest
  {
    if IsSpace(p[0]) {
      assert (p + rest)[1..] == p[1..] + rest;
      SpaceSkippedBefore(p[1..], rest);
    }
  }

  /** What is read, when "t" is left after the spaces and "u" after the sign. */
  lemma ScanFrom(s: seq<byte>, width: nat, t: seq<byte>, u: seq<byte>, w: nat)
    requires t == SkipSpace(s)
    requires if t != [] && IsSign(t[0]) && width > 0 then u == t[1..] && w == width - 1 else u == t && w == width
    ensures var n := DigitRun(u, w);
            if n == 0 then ScanInt(s, width) == None
            else
              ScanInt(s, width) ==
              Some(Scan(if u != t && t[0] == 45 then -(Value(u[..n]) as int) else Value(u[..n]), u[n..]))
  {
    hide SkipSpace, DigitRun, Value;
  }

  /** A text that is a number, and nothing more, is read up to what follows it. */
  lemma NumberThen(p: seq<byte>, rest: seq<byte>, width: nat, v: int)
    requires ScanInt(p, width) == Some(Scan(v, [])) && (rest == [] || !IsDigit(rest[0]))
    ensures ScanInt(p + rest, width) == Some(Scan(v, rest))
  {
    hide ScanInt, Value, SkipSpace, DigitRun;
    var t := SkipSpace(p);
    var signed := t != [] && IsSign(t[0]) && width > 0;
    var u, w := if signed then t[1..] else t, if signed then width - 1 else width;
    ScanFrom(p, width, t, u, w);
    var n := DigitRun(u, w);
    assert |u[n..]| == 0;
    SpaceSkippedBefore(p, rest);
    HeadOf(t, rest);
    ScanFrom(p + rest, width, t + rest, u + rest, w);
    RunOfDigits(u, rest, w);
    TakeFront(u, rest);
    assert u[..n] == u;
  }

  lemma HeadOf(t: seq<byte>, rest: seq<byte>)
    requires t != []
    ensures (t + rest)[0] == t[0] && (t + rest)[1..] == t[1..] + rest
  {
  }

  lemma {:induction false} RunCut(s: seq<byte>, width: nat)
    ensures DigitRun(s[..DigitRun(s, width)], width) == DigitRun(s, width)
  {
    var n := DigitRun(s, width);
    if n > 0 {
      RunCut(s[1..], width - 1);
      assert s[..n][1..] == s[1..][..n - 1];
    }
  }

  lemma {:induction false} SpaceCut(s: seq<byte>, k: nat)
    requires k <= |s| && |SkipSpace(s)| > |s| - k
    ensures SkipSpace(s[..k]) == SkipSpace(s)[..|SkipSpace(s)| - (|s| - k)]
  {
    if s != [] && IsSpace(s[0]) {
      SpaceSkips(s[1..]);
      SpaceCut(s[1..], k - 1);
      assert s[..k][1..] == s[1..][..k - 1];
    }
  }

  lemma {:induction false} SpaceSkips(s: seq<byte>)
    ensures |SkipSpace(s)| <= |s|
  {
    if s != [] {
      SpaceSkips(s[1..]);
    }
  }

  /** What a number was read from is that number, and nothing more. */
  lemma NumberCut(s: seq<byte>, width: nat, k: nat)
    requires ScanInt(s, width).Some? && k <= |s| && ScanInt(s, width).value.rest == s[k..]
    ensures ScanInt(s[..k], width) == Some(Scan(ScanInt(s, width).value.value, []))
  {
    hide Value;
    var t := SkipSpace(s);
    SpaceSkips(s);
    var signed := t != [] && IsSign(t[0]) && width > 0;
    var u, w := if signed then t[1..] else t, if signed then width - 1 else width;
    var n := DigitRun(u, w);
    assert |u[n..]| == |s| - k;
    SpaceCut(s, k);
    RunCut(u, w);
    var m := |t| - (|s| - k);
    assert (if signed then t[..m][1..] else t[..m]) == u[..n];
    assert u[..n][..n] == u[..n] && u[..n][n..] == [];
    hide SkipSpace, DigitRun;
  }

  /** Six characters before a number are skipped, a plus is too, and a text that begins
      otherwise is no number. */
  lemma NumberBegins(c: byte, s: seq<byte>, width: nat)
    ensures c in [9, 10, 11, 12, 13, 32] ==> ScanInt([c] + s, width) == ScanInt(s, width)
    ensures c == 43 && s != [] && 48 <= s[0] <= 57 && width > 0 ==>
      ScanInt([c] + s, width + 1) == ScanInt(s, width)
    ensures c !in [9, 10, 11, 12, 13, 32, 43, 45] && !(48 <= c <= 57) ==> ScanInt([c] + s, width) == None
  {
    assert ([c] + s)[1..] == s;
    hide DigitRun, Value;
  }
}
