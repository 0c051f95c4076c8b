/** Escaping a string for an URL (sections 2.1 and 2.3 of RFC 3986) into a buffer of
    fixed size, and unescaping it in place. */
module Url {
  import opened Basics
  import opened CString

  const BUFFER_SIZE := 1024
  const PERCENT: byte := 37
  const PLUS: byte := 43
  const SPACE: byte := 32

  predicate IsAlnum(c: byte) {
    IsDigit(c) || 65 <= c <= 90 || 97 <= c <= 122
  }

  /** Letters, digits, and "-", "_", ".", "~". */
  predicate SafeForUrls(c: byte) {
    IsAlnum(c) || c == 45 || c == 95 || c == 46 || c == 126
  }

  function DecToHex(dec: byte): byte {
    if dec < 10 then 48 + dec else if dec < 16 then 55 + dec else 48
  }

  function HexToDec(c: byte): byte {
    if IsDigit(c) then c - 48
    else if 65 <= c <= 70 then c - 55
    else if 97 <= c <= 102 then c - 87
    else 0
  }

  function Escape(c: byte): seq<byte> {
    if SafeForUrls(c) then [c] else [PERCENT, DecToHex(c / 16), DecToHex(c % 16)]
  }

  function Encoding(s: seq<byte>): seq<byte> {
    if s == [] then [] else Encoding(s[..|s| - 1]) + Escape(s[|s| - 1])
  }

  function Decoding(s: seq<byte>): (r: seq<byte>)
    ensures |r| <= |s|
  {
    if s == [] then []
    else if s[0] != PERCENT then [if s[0] == PLUS then SPACE else s[0]] + Decoding(s[1..])
    else if |s| < 3 then []
    else [HexValue(s[1], s[2])] + Decoding(s[3..])
  }

  /** The value of two hexadecimal digits. */
  function HexValue(high: byte, low: byte): byte {
    HexToDec(high) * 16 + HexToDec(low)
  }

  lemma EscapeDecodes(c: byte, rest: seq<byte>)
    ensures Decoding(Escape(c) + rest) == [c] + Decoding(rest)
  {
    var s := Escape(c) + rest;
    if SafeForUrls(c) {
      assert s[1..] == rest;
    } else {
      assert s[3..] == rest;
    }
  }

  lemma EncodingNext(s: seq<byte>, rest: seq<byte>)
    requires s != []
    ensures var front, last := s[..|s| - 1], s[|s| - 1];
            && s == front + [last]
            && Encoding(s) + rest == Encoding(front) + (Escape(last) + rest)
  {
    hide Escape;
  }

  lemma {:induction false} EncodingDecodes(s: seq<byte>, rest: seq<byte>)
    ensures Decoding(Encoding(s) + rest) == s + Decoding(rest)
  {
    if s == [] {
      assert Encoding(s) + rest == rest;
    } else {
      hide Encoding, Decoding, Escape;
      var front, last := s[..|s| - 1], s[|s| - 1];
      EncodingNext(s, rest);
      EncodingDecodes(front, Escape(last) + rest);
      EscapeDecodes(last, rest);
      Regroup(front, [last], Decoding(rest));
    }
  }

  lemma Regroup(a: seq<byte>, b: seq<byte>, c: seq<byte>)
    ensures (a + b) + c == a + (b + c)
  {
  }

  /** The escaped form of a string decodes to that string, byte for byte. */
  lemma DecodeAfterEncode(s: seq<byte>)
    ensures Decoding(Encoding(s)) == s
  {
    EncodingDecodes(s, []);
    assert Encoding(s) + [] == Encoding(s);
  }

  /** Only unreserved characters and percent signs are used, and every percent sign is
      followed by two digits in upper case. */
  predicate IsEscaped(s: seq<byte>) {
    s == [] ||
    if s[0] != PERCENT then SafeForUrls(s[0]) && IsEscaped(s[1..])
    else |s| >= 3 && IsUpperHex(s[1]) && IsUpperHex(s[2]) && IsEscaped(s[3..])
  }

  predicate IsUpperHex(c: byte) {
    IsDigit(c) || 65 <= c <= 70
  }

  lemma {:induction false} EncodingIsEscaped(s: seq<byte>, rest: seq<byte>)
    requires IsEscaped(rest)
    ensures IsEscaped(Encoding(s) + rest)
  {
    if s == [] {
      assert Encoding(s) + rest == rest;
    } else {
      hide Encoding, Escape, IsEscaped;
      var front, last := s[..|s| - 1], s[|s| - 1];
      EncodingNext(s, rest);
      EscapeIsEscaped(last, rest);
      EncodingIsEscaped(front, Escape(last) + rest);
    }
  }

  lemma EscapeIsEscaped(c: byte, rest: seq<byte>)
    requires IsEscaped(rest)
    ensures IsEscaped(Escape(c) + rest)
  {
    assert (Escape(c) + rest)[|Escape(c)|..] == rest;
  }

  lemma {:induction false} EncodingGrows(s: seq<byte>, k: nat)
    requires k <= |s|
    ensures |Encoding(s[..k])| <= |Encoding(s)|
    decreases |s|
  {
    if k < |s| {
      EncodingGrows(s[..|s| - 1], k);
      assert s[..|s| - 1][..k] == s[..k];
    } else {
      assert s[..k] == s;
    }
  }

  /** How many bytes of the input fit: as many as possible, escapes being kept whole. */
  ghost predicate IsCut(s: seq<byte>, k: nat) {
    && k <= |s| && |Encoding(s[..k])| < BUFFER_SIZE
    && (k < |s| ==> |Encoding(s[..k + 1])| >= BUFFER_SIZE)
  }

  /** Nothing is cut exactly when the whole escaped form and its NUL fit the buffer. */
  lemma CutOrWhole(s: seq<byte>, k: nat)
    requires IsCut(s, k)
    ensures k == |s| <==> |Encoding(s)| < 1024
  {
    if k < |s| {
      EncodingGrows(s, k + 1);
    } else {
      assert s[..k] == s;
    }
  }

  /** What comes back is a prefix of the string, and all of it when nothing was cut. */
  lemma RoundTrip(s: seq<byte>, k: nat)
    requires IsCut(s, k)
    ensures Decoding(Encoding(s[..k])) == s[..k]
    ensures Decoding(Encoding(s[..k])) == s <==> |Encoding(s)| < 1024
  {
    DecodeAfterEncode(s[..k]);
    CutOrWhole(s, k);
    if k < |s| {
      assert |s[..k]| != |s|;
    } else {
      assert s[..k] == s;
    }
  }

  lemma EncodingPrefixes(s: seq<byte>, i: nat)
    requires i <= |s|
    ensures i == 0 ==> Encoding(s[..i]) == []
    ensures i < |s| ==> Encoding(s[..i + 1]) == Encoding(s[..i]) + Escape(s[i])
  {
    if i < |s| {
      assert s[..i + 1][..i] == s[..i];
    }
  }

  /** Escapes a string into the buffer; "k" is how much of it fits. */
  method UrlEncode(str: seq<byte>, buf: array<byte>) returns (len: nat, ghost k: nat)
    requires NUL !in str && buf.Length == 1024
    modifies buf
    ensures IsCut(str, k)
    ensures len < 1024 && buf[..len] == Encoding(str[..k]) && buf[len] == NUL
  {
    hide Encoding, SafeForUrls, DecToHex;
    len := 0;
    var i := 0;
    EncodingPrefixes(str, 0);
    while i < |str|
      invariant 0 <= i <= |str| && len < BUFFER_SIZE && buf[..len] == Encoding(str[..i])
    {
      EncodingPrefixes(str, i);
      if len + 1 >= BUFFER_SIZE {
        break;
      }
      if SafeForUrls(str[i]) {
        buf[len] := str[i];
        len := len + 1;
      } else {
        if len + 3 >= BUFFER_SIZE {
          break;
        }
        buf[len] := PERCENT;
        buf[len + 1] := DecToHex(str[i] / 16);
        buf[len + 2] := DecToHex(str[i] % 16);
        len := len + 3;
      }
      i := i + 1;
    }
    k := i;
    buf[len] := NUL;
  }

  /** Decoding a string has got to position "i". */
  ghost predicate DecodedUpTo(s: seq<byte>, done: seq<byte>, i: nat) {
    i <= |s| && done + Decoding(s[i..]) == Decoding(s)
  }

  lemma DecodingStep(s: seq<byte>, done: seq<byte>, i: nat)
    requires i < |s| && DecodedUpTo(s, done, i)
    ensures s[i] != PERCENT ==> DecodedUpTo(s, done + [if s[i] == PLUS then SPACE else s[i]], i + 1)
    ensures s[i] == PERCENT && i + 2 < |s| ==> DecodedUpTo(s, done + [HexValue(s[i + 1], s[i + 2])], i + 3)
    ensures s[i] == PERCENT && i + 2 >= |s| ==> done == Decoding(s)
  {
    assert s[i..][1..] == s[i + 1..];
    if i + 2 < |s| {
      assert s[i..][3..] == s[i + 3..];
    }
    assert done + [] == done;
  }

  /** Where decoding begins and ends. */
  lemma DecodingEnds(s: seq<byte>, done: seq<byte>)
    ensures done == [] ==> DecodedUpTo(s, done, 0)
    ensures DecodedUpTo(s, done, |s|) ==> done == Decoding(s)
  {
    assert s[0..] == s && s[|s|..] == [];
    assert done + [] == done && [] + Decoding(s) == Decoding(s);
  }

  /** Reads the character at a position, and where the next one is; an escape that the end
      of the string cuts off stops the decoding. */
  method ReadOne(str: array<byte>, i: nat, ghost s: seq<byte>) returns (stop: bool, c: byte, next: nat)
    requires i < |s| < str.Length && NUL !in s && str[|s|] == NUL
    requires forall j :: i <= j < |s| ==> str[j] == s[j]
    ensures stop <==> s[i] == PERCENT && i + 2 >= |s|
    ensures !stop && s[i] == PERCENT ==> next == i + 3 <= |s| && c == HexValue(s[i + 1], s[i + 2])
    ensures s[i] != PERCENT ==> next == i + 1 && c == if s[i] == PLUS then SPACE else s[i]
  {
    stop, c, next := false, str[i], i + 1;
    if c == PERCENT {
      stop := str[i + 1] == NUL || str[i + 2] == NUL;
      if !stop {
        c, next := HexValue(str[i + 1], str[i + 2]), i + 3;
      }
    } else if c == PLUS {
      c := SPACE;
    }
  }

  /** What is decoded stands at the start of the array, what is still to be read where it
      was; the one never overtakes the other. */
  ghost predicate HalfDecoded(str: array<byte>, was: seq<byte>, s: seq<byte>, done: seq<byte>, i: nat)
    reads str
  {
    && |done| <= i <= |s| < str.Length == |was|
    && (forall j :: 0 <= j < |done| ==> str[j] == done[j])
    && (forall j :: i <= j < str.Length ==> str[j] == was[j])
  }

  /** Unescapes a string where it stands.  What is written never overtakes what is still
      to be read, and nothing past the string is touched. */
  method UrlDecode(str: array<byte>, ghost n: nat) returns (len: nat)
    requires IsString(str[..], n)
    modifies str
    ensures len <= n && str[..len] == Decoding(old(str[..n])) && str[len] == NUL
    ensures str[n..] == old(str[n..])
  {
    hide Decoding, DecodedUpTo, HexValue;
    ghost var s, was := str[..n], str[..];
    ghost var done: seq<byte> := [];
    var i := 0;
    len := 0;
    DecodingEnds(s, done);
    StringAt(was, s);
    while str[i] != NUL
      invariant |done| == len && HalfDecoded(str, was, s, done, i)
      invariant DecodedUpTo(s, done, i)
      decreases n - i
    {
      var stop, c, next := ReadOne(str, i, s);
      DecodingStep(s, done, i);
      if stop {
        break;
      }
      str[len] := c;
      len, i := len + 1, next;
      done := done + [c];
    }
    DecodingEnds(s, done);
    str[len] := NUL;
    assert str[..len] == done;
  }

  lemma StringAt(was: seq<byte>, s: seq<byte>)
    requires IsString(was, |s|) && s == was[..|s|]
    ensures NUL !in s && was[|s|] == NUL && forall j :: 0 <= j < |s| ==> was[j] == s[j] && s[j] != NUL
  {
  }

  // ---- What escapes mean -------------------------------------------------------------

  const LOWER: seq<byte> := [48, 49, 50, 51, 52, 53, 54, 55, 56, 57, 97, 98, 99, 100, 101, 102]
  const UPPER: seq<byte> := [48, 49, 50, 51, 52, 53, 54, 55, 56, 57, 65, 66, 67, 68, 69, 70]

  /** The character is the hexadecimal digit of that value, in either case. */
  predicate IsDigitOf(c: byte, value: nat)
    requires value < 16
  {
    c == LOWER[value] || c == UPPER[value]
  }

  /** An escape in either case is the byte that its two digits denote, whatever follows. */
  lemma EscapesDecode(high: nat, low: nat, a: byte, b: byte, rest: seq<byte>)
    requires high < 16 && low < 16 && IsDigitOf(a, high) && IsDigitOf(b, low)
    ensures Decoding([37, a, b] + rest) == [(16 * high + low) as byte] + Decoding(rest)
  {
    DigitReads(a, high);
    DigitReads(b, low);
    hide IsDigitOf, HexToDec;
    assert ([37, a, b] + rest)[3..] == rest;
  }

  lemma DigitReads(c: byte, value: nat)
    requires value < 16 && IsDigitOf(c, value)
    ensures HexToDec(c) as int == value
  {
  }

  /** A character that is no such digit counts as the digit 0. */
  lemma StrayDigits(c: byte, low: nat, b: byte, rest: seq<byte>)
    requires low < 16 && IsDigitOf(b, low) && c !in LOWER && c !in UPPER
    ensures Decoding([37, c, b] + rest) == [low as byte] + Decoding(rest)
    ensures Decoding([37, b, c] + rest) == [(16 * low) as byte] + Decoding(rest)
  {
    DigitReads(b, low);
    StrayIsZero(c);
    hide IsDigitOf, HexToDec;
    assert ([37, c, b] + rest)[3..] == rest && ([37, b, c] + rest)[3..] == rest;
  }

  lemma StrayIsZero(c: byte)
    requires c !in LOWER && c !in UPPER
    ensures HexToDec(c) == 0
  {
  }

  /** A plus is a space; every other character but the percent sign is itself; and an escape
      that the end cuts off is nothing. */
  lemma OthersDecode(c: byte, rest: seq<byte>)
    ensures c != 37 ==> Decoding([c] + rest) == [if c == 43 then 32 else c] + Decoding(rest)
    ensures |rest| < 2 ==> Decoding([37] + rest) == []
  {
    assert ([c] + rest)[1..] == rest;
  }

  /** Letters, digits and four more characters stay as they are; all others become escapes
      in upper case. */
  lemma EscapedWhen(c: byte)
    ensures var safe := 48 <= c <= 57 || 65 <= c <= 90 || 97 <= c <= 122 || c in [45, 46, 95, 126];
            Encoding([c]) == if safe then [c] else [37, UPPER[c as int / 16], UPPER[c as int % 16]]
  {
    assert [c][..0] == [] && [] + Escape(c) == Escape(c);
  }
}
