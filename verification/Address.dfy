/** Server addresses as text: joining an IP and a port, and taking them apart again. */
module Address {
  import opened Basics
  import opened CString
  import opened Unpacker

  const DOT: byte := 46
  const COLON: byte := 58
  const OPEN: byte := 91
  const CLOSE: byte := 93

  const IP_STRSIZE := 40
  const PORT_STRSIZE := 6
  const ADDR_STRSIZE := 48
  const PATTERN_LENGTH := IP_STRSIZE - 1

  /** The byte at a position of a string; past its end there is the NUL. */
  function At(s: seq<byte>, i: nat): byte {
    if i < |s| then s[i] else NUL
  }

  predicate IsIpv4(ip: seq<byte>) {
    At(ip, 1) == DOT || At(ip, 2) == DOT || At(ip, 3) == DOT
  }

  predicate IsHex(c: byte) {
    IsDigit(c) || 65 <= c <= 70 || 97 <= c <= 102
  }

  // ---- Validity ----------------------------------------------------------------------

  /** "%3hu", which wraps a negative number around. */
  function ScanShort(s: seq<byte>): Option<Scan> {
    match ScanInt(s, 3)
    case None => None
    case Some(r) => Some(Scan(r.value % 0x1_0000, r.rest))
  }

  /** "%3hu." */
  function ScanPart(s: seq<byte>): Option<Scan> {
    match ScanShort(s)
    case None => None
    case Some(r) => if At(r.rest, 0) == DOT then Some(Scan(r.value, r.rest[1..])) else None
  }

  /** The four numbers of "%3hu.%3hu.%3hu.%3hu", with nothing after them. */
  function ScanIpv4(ip: seq<byte>): Option<(int, int, int, int)> {
    match ScanPart(ip)
    case None => None
    case Some(a) =>
      match ScanPart(a.rest)
      case None => None
      case Some(b) =>
        match ScanPart(b.rest)
        case None => None
        case Some(c) =>
          match ScanShort(c.rest)
          case None => None
          case Some(d) => if d.rest == [] then Some((a.value, b.value, c.value, d.value)) else None
  }

  predicate IsValidIpv4(ip: seq<byte>) {
    match ScanIpv4(ip)
    case None => false
    case Some((a, b, c, d)) => a < 256 && b < 256 && c < 256 && d < 256
  }

  /** Groups of four hexadecimal digits between colons; the text may stop anywhere. */
  predicate IsValidIpv6(ip: seq<byte>) {
    |ip| <= PATTERN_LENGTH && forall i :: 0 <= i < |ip| ==> Follows(i, ip[i])
  }

  predicate Follows(i: nat, c: byte) {
    if i % 5 == 4 then c == COLON else IsHex(c)
  }

  predicate IsValidIp(ip: seq<byte>) {
    if IsIpv4(ip) then IsValidIpv4(ip) else IsValidIpv6(ip)
  }

  predicate IsValidPort(port: seq<byte>) {
    var r := Strtol(port);
    0 <= r.value < 65535 && port != [] && r.rest == []
  }

  /** The walk along the pattern. */
  method CheckIpv6(ip: seq<byte>) returns (ok: bool)
    ensures ok <==> IsValidIpv6(ip)
  {
    var i := 0;
    while i < PATTERN_LENGTH && i < |ip|
      invariant 0 <= i <= |ip| && i <= PATTERN_LENGTH
      invariant forall j :: 0 <= j < i ==> Follows(j, ip[j])
    {
      if i % 5 != 4 && !IsHex(ip[i]) {
        assert !Follows(i, ip[i]);
        return false;
      } else if i % 5 == 4 && ip[i] != COLON {
        assert !Follows(i, ip[i]);
        return false;
      }
      i := i + 1;
    }
    ok := i == |ip|;
  }

  method CheckIp(ip: seq<byte>) returns (ok: bool)
    ensures ok <==> IsValidIp(ip)
  {
    if IsIpv4(ip) {
      ok := IsValidIpv4(ip);
    } else {
      ok := CheckIpv6(ip);
    }
  }

  /** Groups with colons between them. */
  function Colons(groups: seq<seq<byte>>): seq<byte> {
    if groups == [] then []
    else if |groups| == 1 then groups[0]
    else groups[0] + [COLON] + Colons(groups[1..])
  }

  ghost predicate InFours(groups: seq<seq<byte>>) {
    forall k :: 0 <= k < |groups| ==> |groups[k]| == 4
  }

  lemma {:induction false} ColonsAt(groups: seq<seq<byte>>, i: nat)
    requires groups != [] && InFours(groups) && i < 5 * |groups| - 1
    ensures |Colons(groups)| == 5 * |groups| - 1
    ensures Colons(groups)[i] == if i % 5 == 4 then COLON else groups[i / 5][i % 5]
  {
    ColonsNext(groups);
    hide Colons;
    if |groups| > 1 {
      var rest := groups[1..];
      if i < 5 {
        ColonsAt(rest, 0);
      } else {
        ColonsAt(rest, i - 5);
        FiveBack(i);
        assert Colons(groups)[i] == Colons(rest)[i - 5];
      }
    }
  }

  lemma ColonsNext(groups: seq<seq<byte>>)
    requires groups != []
    ensures Colons(groups) == if |groups| == 1 then groups[0] else groups[0] + [COLON] + Colons(groups[1..])
  {
  }

  lemma FiveBack(i: nat)
    requires i >= 5
    ensures (i - 5) % 5 == i % 5 && (i - 5) / 5 == i / 5 - 1
  {
  }

  /** A full IPv6 address: eight groups of four hexadecimal digits. */
  ghost predicate IsFullIpv6(ip: seq<byte>) {
    exists groups: seq<seq<byte>> :: IsEightGroups(groups) && ip == Colons(groups)
  }

  ghost predicate IsEightGroups(groups: seq<seq<byte>>) {
    |groups| == 8 && InFours(groups) && forall k, j :: 0 <= k < 8 && 0 <= j < 4 ==> IsHex(groups[k][j])
  }

  lemma {:induction false} SplitGroups(ip: seq<byte>, n: nat) returns (groups: seq<seq<byte>>)
    requires n > 0 && |ip| == 5 * n - 1 && forall i :: 0 <= i < |ip| ==> Follows(i, ip[i])
    ensures |groups| == n && InFours(groups) && ip == Colons(groups)
    ensures forall k, j :: 0 <= k < n && 0 <= j < 4 ==> IsHex(groups[k][j])
  {
    if n == 1 {
      groups := [ip];
    } else {
      var rest := ip[5..];
      assert forall i :: 0 <= i < |rest| ==> rest[i] == ip[i + 5] && Follows(i + 5, ip[i + 5]);
      var tail := SplitGroups(rest, n - 1);
      groups := [ip[..4]] + tail;
      assert groups[1..] == tail;
      assert Follows(4, ip[4]);
      assert ip == ip[..4] + [COLON] + rest;
    }
  }

  lemma GroupsFollow(groups: seq<seq<byte>>)
    requires IsEightGroups(groups)
    ensures IsValidIpv6(Colons(groups)) && |Colons(groups)| == PATTERN_LENGTH
  {
    ColonsAt(groups, 0);
    forall i | 0 <= i < |Colons(groups)|
      ensures Follows(i, Colons(groups)[i])
    {
      ColonsAt(groups, i);
    }
  }

  /** The check accepts any beginning of a full IPv6 address, and nothing else: a text that
      passes is full exactly when it has all 39 characters. */
  lemma FullOrBeginning(ip: seq<byte>)
    ensures IsFullIpv6(ip) <==> IsValidIpv6(ip) && |ip| == PATTERN_LENGTH
    ensures IsValidIpv6(ip) ==> forall k :: 0 <= k <= |ip| ==> IsValidIpv6(ip[..k])
  {
    if IsFullIpv6(ip) {
      var groups :| IsEightGroups(groups) && ip == Colons(groups);
      GroupsFollow(groups);
    }
    if IsValidIpv6(ip) && |ip| == PATTERN_LENGTH {
      var groups := SplitGroups(ip, 8);
      assert IsEightGroups(groups);
    }
  }

  // ---- Join --------------------------------------------------------------------------

  function Join(ip: seq<byte>, port: seq<byte>): seq<byte> {
    if IsIpv4(ip) then ip + [COLON] + port else [OPEN] + ip + [CLOSE, COLON] + port
  }

  /** Joins an IP and a port, when the buffer is large enough. */
  method BuildAddr(ip: seq<byte>, port: seq<byte>, buf: array<byte>) returns (ok: bool)
    requires buf.Length == 48 && NUL !in ip && NUL !in port
    modifies buf
    ensures ok <==> |Join(ip, port)| < 48
    ensures ok ==> IsString(buf[..], |Join(ip, port)|) && buf[..|Join(ip, port)|] == Join(ip, port)
  {
    var text := Join(ip, port);
    ok := |text| < ADDR_STRSIZE;
    if ok {
      forall i | 0 <= i < |text| {
        buf[i] := text[i];
      }
      buf[|text|] := NUL;
      assert buf[..|text|] == text;
    }
  }

  // ---- Parse -------------------------------------------------------------------------

  /** The first position from "i" on where a byte stands, or the end. */
  function Find(s: seq<byte>, c: byte, i: nat): (k: nat)
    requires i <= |s|
    ensures i <= k <= |s| && (k < |s| ==> s[k] == c) && forall j :: i <= j < k ==> s[j] != c
    decreases |s| - i
  {
    if i == |s| || s[i] == c then i else Find(s, c, i + 1)
  }

  /** The first position from "i" on where a byte does not stand, or the end. */
  function Skip(s: seq<byte>, c: byte, i: nat): (k: nat)
    requires i <= |s|
    ensures i <= k <= |s| && (k < |s| ==> s[k] != c) && forall j :: i <= j < k ==> s[j] == c
    decreases |s| - i
  {
    if i == |s| || s[i] != c then i else Skip(s, c, i + 1)
  }

  /** Where the IP and the port of an address are. */
  datatype Parts = Parts(start: nat, end: nat, port: nat)

  function Locate(s: seq<byte>): (r: Option<Parts>)
    ensures r.Some? ==> r.value.start < r.value.end < r.value.port <= |s|
  {
    var bracket := At(s, 0) == OPEN;
    var delim := if bracket then CLOSE else COLON;
    var start := Skip(s, delim, if bracket then 1 else 0);
    var end := Find(s, delim, start);
    if start == |s| || end + 1 >= |s| then None
    else Some(Parts(start, end, if s[end + 1] == COLON then end + 2 else end + 1))
  }

  function Parse(s: seq<byte>): Option<(seq<byte>, seq<byte>)> {
    match Locate(s)
    case None => None
    case Some(p) =>
      var ip, port := s[p.start..p.end], s[p.port..];
      if IsValidIp(ip) && IsValidPort(port) then Some((ip, port)) else None
  }

  /** Cuts the next token out of a string, as strtok() does: skips delimiters, and ends
      the token with a NUL in place of the delimiter after it. */
  method Strtok(str: array<byte>, from: nat, delim: byte, ghost n: nat) returns (token: nat, saved: nat)
    requires IsString(str[..], n) && from <= n && delim != NUL
    modifies str
    ensures token == Skip(old(str[..n]), delim, from)
    ensures var e := Find(old(str[..n]), delim, token);
            && saved == (if e < n then e + 1 else n)
            && str[..] == (if token < e < n then old(str[..])[e := NUL] else old(str[..]))
  {
    ghost var s, all := str[..n], str[..];
    assert forall j :: 0 <= j < n ==> str[j] == s[j] && s[j] != NUL;
    token := from;
    while str[token] == delim
      invariant token <= n && Skip(s, delim, token) == Skip(s, delim, from)
      decreases n - token
    {
      token := token + 1;
    }
    saved := token;
    while str[saved] != NUL && str[saved] != delim
      invariant token <= saved <= n && Find(s, delim, saved) == Find(s, delim, token)
      decreases n - saved
    {
      saved := saved + 1;
    }
    if str[saved] != NUL {
      str[saved] := NUL;
      saved := saved + 1;
    }
  }

  /** The string at a position of an array. */
  ghost predicate HasString(a: seq<byte>, i: nat, s: seq<byte>) {
    i + |s| < |a| && a[i..i + |s|] == s && a[i + |s|] == NUL
  }

  method ReadString(a: array<byte>, i: nat, ghost s: seq<byte>) returns (r: seq<byte>)
    requires HasString(a[..], i, s) && NUL !in s
    ensures r == s
  {
    var e := i;
    while a[e] != NUL
      invariant i <= e <= i + |s| && a[i..e] == s[..e - i]
      decreases i + |s| - e
    {
      assert a[..][i..i + |s|][e - i] == a[e];
      e := e + 1;
    }
    r := a[i..e];
  }

  /** Cutting off the first token leaves both strings of an address in their places. */
  lemma CutLeavesStrings(s: seq<byte>, all: seq<byte>, p: Parts)
    requires IsString(all, |s|) && all[..|s|] == s && p.start < p.end < p.port <= |s|
    ensures HasString(all[p.end := NUL], p.start, s[p.start..p.end]) && NUL !in s[p.start..p.end]
    ensures HasString(all[p.end := NUL], p.port, s[p.port..]) && NUL !in s[p.port..]
  {
    var a := all[p.end := NUL];
    assert a[p.start..p.end] == s[p.start..p.end];
    assert a[p.port..|s|] == s[p.port..];
  }

  method SplitAddr(addr: array<byte>, ghost n: nat) returns (ok: bool, ip: nat, port: nat)
    requires IsString(addr[..], n)
    modifies addr
    ensures ok <==> Locate(old(addr[..n])).Some?
    ensures ok ==>
      var p := Locate(old(addr[..n])).value;
      ip == p.start && port == p.port && addr[..] == old(addr[..])[p.end := NUL]
  {
    ghost var s := addr[..n];
    assert forall j :: 0 <= j < n ==> addr[j] == s[j] && s[j] != NUL;
    if addr[0] == OPEN {
      ip, port := Strtok(addr, 1, CLOSE, n);
    } else {
      ip, port := Strtok(addr, 0, COLON, n);
    }
    ok := addr[ip] != NUL && addr[port] != NUL;
    if ok && addr[port] == COLON {
      port := port + 1;
    }
  }

  /** Takes an address apart in place; the two strings are at "ip" and "port". */
  method ParseAddr(addr: array<byte>, ghost n: nat) returns (ok: bool, ip: nat, port: nat)
    requires IsString(addr[..], n)
    modifies addr
    ensures ok <==> Parse(old(addr[..n])).Some?
    ensures ok ==>
      && HasString(addr[..], ip, Parse(old(addr[..n])).value.0)
      && HasString(addr[..], port, Parse(old(addr[..n])).value.1)
  {
    ghost var s, all := addr[..n], addr[..];
    ok, ip, port := SplitAddr(addr, n);
    if ok {
      ghost var p := Locate(s).value;
      CutLeavesStrings(s, all, p);
      var first := ReadString(addr, ip, s[p.start..p.end]);
      var second := ReadString(addr, port, s[p.port..]);
      ok := CheckIp(first);
      ok := ok && IsValidPort(second);
    }
  }

  // ---- Join, then parse --------------------------------------------------------------

  /** Bytes that a valid IPv4 address is made of: no colon and no bracket among them. */
  predicate IsPlain(c: byte) {
    IsNumeric(c) || c == DOT
  }

  ghost predicate AllPlain(s: seq<byte>, k: nat)
    requires k <= |s|
  {
    forall i :: 0 <= i < k ==> IsPlain(s[i])
  }

  lemma PartConsumes(s: seq<byte>, k: nat) returns (m: nat)
    requires k <= |s| && AllPlain(s, k) && ScanPart(s[k..]).Some?
    ensures k < m <= |s| && AllPlain(s, m) && ScanPart(s[k..]).value.rest == s[m..]
  {
    var n := ScanConsumes(s[k..], 3);
    assert forall i :: k <= i < k + n ==> s[i] == s[k..][i - k];
    assert s[k..][n..] == s[k + n..];
    m := k + n + 1;
    assert s[k + n..][1..] == s[m..];
  }

  lemma Ipv4IsPlain(ip: seq<byte>)
    requires ScanIpv4(ip).Some?
    ensures ip != [] && AllPlain(ip, |ip|)
  {
    assert ip[0..] == ip;
    hide ScanPart, ScanShort, IsPlain;
    var a := PartConsumes(ip, 0);
    var b := PartConsumes(ip, a);
    var c := PartConsumes(ip, b);
    LastConsumes(ip, c);
  }

  lemma LastConsumes(s: seq<byte>, k: nat)
    requires k <= |s| && AllPlain(s, k) && ScanShort(s[k..]).Some? && ScanShort(s[k..]).value.rest == []
    ensures s != [] && AllPlain(s, |s|)
  {
    hide ScanInt;
    var n := ScanConsumes(s[k..], 3);
    assert s[k..][n..] == s[k + n..];
    assert forall i :: k <= i < k + n ==> s[i] == s[k..][i - k];
  }

  lemma PortIsNumeric(port: seq<byte>)
    requires IsValidPort(port)
    ensures port != [] && forall i :: 0 <= i < |port| ==> IsNumeric(port[i])
  {
    var k := ScanConsumes(port, |port|);
  }

  lemma SkipFind(s: seq<byte>, c: byte, start: nat, end: nat)
    requires start < end <= |s| && (end < |s| ==> s[end] == c)
    requires forall i :: start <= i < end ==> s[i] != c
    ensures Skip(s, c, start) == start && Find(s, c, start) == end
  {
  }

  /** Text without colons comes apart from the port where it was joined. */
  lemma BareLocated(ip: seq<byte>, port: seq<byte>)
    requires ip != [] && ip[0] != OPEN && COLON !in ip && port != [] && port[0] != COLON
    ensures Locate(ip + [COLON] + port) == Some(Parts(0, |ip|, |ip| + 1))
  {
    var s := ip + [COLON] + port;
    assert forall i :: 0 <= i < |ip| ==> s[i] == ip[i];
    assert s[|ip| + 1] == port[0];
    SkipFind(s, COLON, 0, |ip|);
  }

  /** And so does text between brackets. */
  lemma BracketedLocated(ip: seq<byte>, port: seq<byte>)
    requires ip != [] && CLOSE !in ip && port != []
    ensures Locate([OPEN] + ip + [CLOSE, COLON] + port) == Some(Parts(1, |ip| + 1, |ip| + 3))
  {
    var s := [OPEN] + ip + [CLOSE, COLON] + port;
    assert forall i :: 1 <= i < |ip| + 1 ==> s[i] == ip[i - 1];
    SkipFind(s, CLOSE, 1, |ip| + 1);
  }

  lemma Ipv4HasNoDelimiter(ip: seq<byte>)
    requires IsValidIpv4(ip)
    ensures ip != [] && ip[0] != OPEN && COLON !in ip
  {
    Ipv4IsPlain(ip);
    PlainHasNoDelimiter(ip);
  }

  lemma PlainHasNoDelimiter(ip: seq<byte>)
    requires ip != [] && AllPlain(ip, |ip|)
    ensures ip[0] != OPEN && COLON !in ip
  {
    assert IsPlain(ip[0]);
    assert forall i :: 0 <= i < |ip| ==> IsPlain(ip[i]) && ip[i] != COLON;
  }

  lemma Ipv6HasNoDelimiter(ip: seq<byte>)
    requires IsValidIpv6(ip)
    ensures CLOSE !in ip
  {
    assert forall i :: 0 <= i < |ip| ==> Follows(i, ip[i]) && ip[i] != CLOSE;
  }

  lemma PortHasNoDelimiter(port: seq<byte>)
    requires IsValidPort(port)
    ensures port != [] && port[0] != COLON && CLOSE !in port
  {
    PortIsNumeric(port);
    assert IsNumeric(port[0]);
    assert forall i :: 0 <= i < |port| ==> IsNumeric(port[i]) && port[i] != CLOSE;
  }

  lemma EmptyNotParsed(port: seq<byte>)
    requires CLOSE !in port
    ensures Parse(Join([], port)) == None
  {
    var s := [OPEN] + [] + [CLOSE, COLON] + port;
    assert forall i :: 3 <= i < |s| ==> s[i] == port[i - 3];
    SkipFind(s, CLOSE, 2, |s|);
  }

  lemma BareParsed(ip: seq<byte>, port: seq<byte>)
    requires IsIpv4(ip) && ip != [] && ip[0] != OPEN && COLON !in ip && port != [] && port[0] != COLON
    ensures Parse(Join(ip, port)) == if IsValidIp(ip) && IsValidPort(port) then Some((ip, port)) else None
  {
    hide Locate, IsValidIp, IsValidPort;
    var s := Join(ip, port);
    BareLocated(ip, port);
    assert s[0..|ip|] == ip && s[|ip| + 1..] == port;
  }

  lemma BracketedParsed(ip: seq<byte>, port: seq<byte>)
    requires !IsIpv4(ip) && ip != [] && CLOSE !in ip && port != []
    ensures Parse(Join(ip, port)) == if IsValidIp(ip) && IsValidPort(port) then Some((ip, port)) else None
  {
    hide Locate, IsValidIp, IsValidPort;
    var s := Join(ip, port);
    BracketedLocated(ip, port);
    assert s[1..|ip| + 1] == ip && s[|ip| + 3..] == port;
  }

  /** A valid IP and port survive being joined and parsed, exactly when the IP is not
      empty: the empty text passes for an IPv6 address that stops at once. */
  lemma ParseAfterJoin(ip: seq<byte>, port: seq<byte>)
    requires IsValidIp(ip) && IsValidPort(port)
    ensures Parse(Join(ip, port)) == Some((ip, port)) <==> ip != []
  {
    hide IsValidIpv4, IsValidIpv6, IsValidPort, Locate, Parse;
    PortHasNoDelimiter(port);
    if IsIpv4(ip) {
      Ipv4HasNoDelimiter(ip);
      BareParsed(ip, port);
    } else if ip != [] {
      Ipv6HasNoDelimiter(ip);
      BracketedParsed(ip, port);
    } else {
      EmptyNotParsed(port);
    }
  }

  // ---- Raw addresses -----------------------------------------------------------------

  predicate IsIpv4Raw(raw: RawAddr)
    requires |raw.ip| == 16
  {
    raw.ip[..12] == [0, 0, 0, 0, 0, 0, 0, 0, 0, 0, 255, 255]
  }

  /** "%u.%u.%u.%u" */
  function Dotted(a: nat, b: nat, c: nat, d: nat): seq<byte> {
    Decimal(a) + ([DOT] + (Decimal(b) + ([DOT] + (Decimal(c) + ([DOT] + Decimal(d))))))
  }

  function Nibble(n: byte): byte
    requires n < 16
  {
    if n < 10 then 48 + n else 87 + n
  }

  /** "%2x": padded with a space, not with a zero. */
  function PaddedHex(b: byte): (r: seq<byte>)
    ensures |r| == 2
  {
    if b < 16 then [32, Nibble(b)] else [Nibble(b / 16), Nibble(b % 16)]
  }

  /** The eight groups of "%2x%2x:%2x%2x:...". */
  function HexGroups(ip: seq<byte>): (r: seq<seq<byte>>)
    requires |ip| == 16
    ensures |r| == 8 && InFours(r)
  {
    seq(8, k requires 0 <= k < 8 => PaddedHex(ip[2 * k]) + PaddedHex(ip[2 * k + 1]))
  }

  /** The IP of a record, as it is printed. */
  function IpText(raw: RawAddr): seq<byte>
    requires |raw.ip| == 16
  {
    if IsIpv4Raw(raw) then Dotted(raw.ip[12] as nat, raw.ip[13] as nat, raw.ip[14] as nat, raw.ip[15] as nat)
    else Colons(HexGroups(raw.ip))
  }

  lemma PartAt(s: seq<byte>, n: nat, rest: seq<byte>)
    requires ScanInt(s, 3) == Some(Scan(n, [DOT] + rest)) && n < 256
    ensures ScanPart(s) == Some(Scan(n, rest))
  {
    assert ([DOT] + rest)[1..] == rest;
  }

  lemma Ipv4Of(s: seq<byte>, s1: seq<byte>, s2: seq<byte>, s3: seq<byte>, a: nat, b: nat, c: nat, d: nat)
    requires ScanPart(s) == Some(Scan(a, s1)) && ScanPart(s1) == Some(Scan(b, s2))
    requires ScanPart(s2) == Some(Scan(c, s3)) && ScanShort(s3) == Some(Scan(d, []))
    ensures ScanIpv4(s) == Some((a, b, c, d))
  {
  }

  /** The four numbers of a printed IP are read back. */
  lemma DottedScans(a: nat, b: nat, c: nat, d: nat)
    requires a < 256 && b < 256 && c < 256 && d < 256
    ensures ScanIpv4(Dotted(a, b, c, d)) == Some((a, b, c, d))
  {
    var s3 := Decimal(d);
    var s2 := Decimal(c) + ([DOT] + s3);
    var s1 := Decimal(b) + ([DOT] + s2);
    var s := Decimal(a) + ([DOT] + s1);
    Printed(a, s1);
    Printed(b, s2);
    Printed(c, s3);
    LastPrinted(d);
    Ipv4Of(s, s1, s2, s3, a, b, c, d);
  }

  lemma Printed(n: nat, rest: seq<byte>)
    requires n < 256
    ensures ScanPart(Decimal(n) + ([DOT] + rest)) == Some(Scan(n, rest))
  {
    DecimalScans(n, [DOT] + rest, 3);
    PartAt(Decimal(n) + ([DOT] + rest), n, rest);
  }

  lemma LastPrinted(n: nat)
    requires n < 256
    ensures ScanShort(Decimal(n)) == Some(Scan(n, []))
  {
    DecimalScans(n, [], 3);
    assert Decimal(n) + [] == Decimal(n);
    ShortAt(Decimal(n), n);
  }

  lemma ShortAt(s: seq<byte>, n: nat)
    requires ScanInt(s, 3) == Some(Scan(n, [])) && n < 256
    ensures ScanShort(s) == Some(Scan(n, []))
  {
  }

  lemma DottedIsShort(a: nat, b: nat, c: nat, d: nat)
    requires a < 256 && b < 256 && c < 256 && d < 256
    ensures IsIpv4(Dotted(a, b, c, d)) && |Dotted(a, b, c, d)| <= 15
  {
    assert Dotted(a, b, c, d)[|Decimal(a)|] == DOT;
  }

  lemma PortScans(port: nat)
    requires port < 0x1_0000
    ensures Strtol(Decimal(port)) == Scan(port, []) && |Decimal(port)| <= 5
    ensures IsValidPort(Decimal(port)) <==> port != 65535
  {
    DecimalScans(port, [], |Decimal(port)|);
    assert Decimal(port) + [] == Decimal(port);
  }

  /** Every raw IPv4 address is printed without being cut, joined without being cut, and
      parsed back, unless its port is the last one: that is not held valid. */
  lemma RawIpv4Survives(raw: RawAddr)
    requires |raw.ip| == 16 && IsIpv4Raw(raw) && raw.port < 0x1_0000
    ensures var ip, port := IpText(raw), Decimal(raw.port);
            && |ip| < IP_STRSIZE && |Join(ip, port)| < ADDR_STRSIZE
            && Parse(Join(ip, port)) == (if raw.port == 65535 then None else Some((ip, port)))
            && ScanIpv4(ip) == Some((raw.ip[12] as int, raw.ip[13] as int, raw.ip[14] as int, raw.ip[15] as int))
  {
    hide ScanIpv4, IsIpv4, Join, Parse, IsValidPort, Decimal;
    var ip, port := IpText(raw), Decimal(raw.port);
    var a, b, c, d := raw.ip[12] as nat, raw.ip[13] as nat, raw.ip[14] as nat, raw.ip[15] as nat;
    DottedScans(a, b, c, d);
    DottedIsShort(a, b, c, d);
    PortScans(raw.port);
    Ipv4HasNoDelimiter(ip);
    BareParsed(ip, port);
    JoinIsShort(ip, port);
  }

  lemma JoinIsShort(ip: seq<byte>, port: seq<byte>)
    ensures |Join(ip, port)| <= |ip| + |port| + 3
  {
  }

  /** A byte below 16 is printed with a space, which no valid address has. */
  lemma HexGroupsValid(ip: seq<byte>)
    requires |ip| == 16
    ensures var text := Colons(HexGroups(ip));
            && |text| == PATTERN_LENGTH && !IsIpv4(text) && CLOSE !in text
            && (IsValidIpv6(text) <==> forall m :: 0 <= m < 16 ==> ip[m] >= 16)
  {
    hide HexGroups, Colons;
    var text := Colons(HexGroups(ip));
    ColonsAt(HexGroups(ip), 0);
    forall i | 0 <= i < |text|
      ensures IsHex(text[i]) || text[i] == COLON || text[i] == 32
      ensures (forall m :: 0 <= m < 16 ==> ip[m] >= 16) ==> Follows(i, text[i])
    {
      TextAt(ip, i);
    }
    if m :| 0 <= m < 16 && ip[m] < 16 {
      var i := 5 * (m / 2) + 2 * (m % 2);
      assert i / 5 == m / 2 && i % 5 == 2 * (m % 2);
      TextAt(ip, i);
      assert !Follows(i, text[i]);
    }
  }

  lemma TextAt(ip: seq<byte>, i: nat)
    requires |ip| == 16 && i < PATTERN_LENGTH
    ensures var text := Colons(HexGroups(ip));
            && i < |text|
            && if i % 5 == 4 then text[i] == COLON
               else if i % 5 % 2 == 0 && ip[2 * (i / 5) + i % 5 / 2] < 16 then text[i] == 32
               else IsHex(text[i])
  {
    hide HexGroups, Colons;
    ColonsAt(HexGroups(ip), i);
    HexGroupAt(ip, i / 5, i % 5);
  }

  lemma HexGroupAt(ip: seq<byte>, k: nat, j: nat)
    requires |ip| == 16 && k < 8
    ensures j < 4 ==>
      var c, b := HexGroups(ip)[k][j], ip[2 * k + j / 2];
      if j % 2 == 0 && b < 16 then c == 32 else IsHex(c)
  {
  }

  /** A raw IPv6 address survives when no byte of it is printed with a space, and its port
      is not the last one. */
  lemma RawIpv6Survives(raw: RawAddr)
    requires |raw.ip| == 16 && !IsIpv4Raw(raw) && raw.port < 0x1_0000
    ensures var ip, port := IpText(raw), Decimal(raw.port);
            && |ip| < IP_STRSIZE && |Join(ip, port)| < ADDR_STRSIZE
            && Parse(Join(ip, port)) ==
               (if raw.port != 65535 && forall m :: 0 <= m < 16 ==> raw.ip[m] >= 16 then Some((ip, port)) else None)
  {
    hide IsIpv4, IsValidIpv6, HexGroups, Colons, Join, Parse, IsValidPort, Decimal;
    var ip, port := IpText(raw), Decimal(raw.port);
    HexGroupsValid(raw.ip);
    PortScans(raw.port);
    BracketedParsed(ip, port);
    JoinIsShort(ip, port);
  }

  /** Which raw addresses survive being printed. */
  predicate IsPrintable(raw: RawAddr)
    requires |raw.ip| == 16
  {
    raw.port != 65535 && (IsIpv4Raw(raw) || forall m :: 0 <= m < 16 ==> raw.ip[m] >= 16)
  }

  /** Every raw address fits the buffers when printed and joined.  It is parsed back as it
      was printed exactly when its port is not 65535 and, for IPv6, no byte is below 16; it
      is refused otherwise. */
  lemma RawAddressSurvives(raw: RawAddr)
    requires |raw.ip| == 16 && raw.port < 0x1_0000
    ensures var ip, port := IpText(raw), Decimal(raw.port);
            && |ip| < 40 && |port| < 6 && |Join(ip, port)| < 48
            && Parse(Join(ip, port)) == (if IsPrintable(raw) then Some((ip, port)) else None)
            && Strtol(port).value == raw.port
    ensures IsIpv4Raw(raw) ==>
              var a, b, c, d := raw.ip[12] as int, raw.ip[13] as int, raw.ip[14] as int, raw.ip[15] as int;
              ScanIpv4(IpText(raw)) == Some((a, b, c, d))
  {
    hide IpText, Join, Parse, ScanIpv4, IsValidPort;
    PortScans(raw.port);
    if IsIpv4Raw(raw) {
      RawIpv4Survives(raw);
    } else {
      RawIpv6Survives(raw);
    }
  }

  // ---- What the printed record denotes -----------------------------------------------

  /** The value of a lower-case hexadecimal digit, or of the space that pads one. */
  ghost function DigitValue(c: byte): int {
    if 48 <= c <= 57 then c as int - 48 else if 97 <= c <= 102 then c as int - 87 else if c == 32 then 0 else 16
  }

  /** A node and a service say what 18 bytes do: an IPv4 address in its mapped form, or an
      IPv6 address, and a port in network order. */
  ghost predicate Denotes(record: seq<byte>, node: seq<byte>, service: seq<byte>)
    requires |record| == 18
  {
    && Strtol(service) == Scan(256 * record[16] as int + record[17] as int, [])
    && if record[..12] == [0, 0, 0, 0, 0, 0, 0, 0, 0, 0, 255, 255] then
         ScanIpv4(node) == Some((record[12] as int, record[13] as int, record[14] as int, record[15] as int))
       else
         && |node| == 39
         && (forall i :: 0 <= i < 39 && i % 5 == 4 ==> node[i] == 58)
         && forall m :: 0 <= m < 16 ==>
              var i := 5 * (m / 2) + 2 * (m % 2);
              16 * DigitValue(node[i]) + DigitValue(node[i + 1]) == record[m] as int
  }

  lemma PairDenotes(b: byte)
    ensures 16 * DigitValue(PaddedHex(b)[0]) + DigitValue(PaddedHex(b)[1]) == b as int
  {
  }

  lemma PairAt(ip: seq<byte>, m: nat)
    requires |ip| == 16 && m < 16
    ensures HexGroups(ip)[m / 2][2 * (m % 2)..2 * (m % 2) + 2] == PaddedHex(ip[m])
    ensures var group, j := HexGroups(ip)[m / 2], 2 * (m % 2);
            group[j] == PaddedHex(ip[m])[0] && group[j + 1] == PaddedHex(ip[m])[1]
  {
    hide PaddedHex;
    assert m == 2 * (m / 2) + m % 2;
  }

  lemma GroupDenotes(ip: seq<byte>, m: nat)
    requires |ip| == 16 && m < 16
    ensures var i := 5 * (m / 2) + 2 * (m % 2);
            var text := Colons(HexGroups(ip));
            |text| == 39 && 16 * DigitValue(text[i]) + DigitValue(text[i + 1]) == ip[m] as int
  {
    hide Colons, HexGroups, DigitValue, PaddedHex;
    var i := 5 * (m / 2) + 2 * (m % 2);
    assert i / 5 == m / 2 && i % 5 == 2 * (m % 2) && (i + 1) / 5 == m / 2 && (i + 1) % 5 == 2 * (m % 2) + 1;
    ColonsAt(HexGroups(ip), i);
    ColonsAt(HexGroups(ip), i + 1);
    PairAt(ip, m);
    PairDenotes(ip[m]);
  }

  lemma Ipv6Denotes(ip: seq<byte>)
    requires |ip| == 16
    ensures var text := Colons(HexGroups(ip));
            && |text| == 39
            && (forall i :: 0 <= i < 39 && i % 5 == 4 ==> text[i] == 58)
            && forall m :: 0 <= m < 16 ==>
                 var i := 5 * (m / 2) + 2 * (m % 2);
                 16 * DigitValue(text[i]) + DigitValue(text[i + 1]) == ip[m] as int
  {
    hide HexGroups, Colons, DigitValue;
    var text := Colons(HexGroups(ip));
    GroupDenotes(ip, 0);
    forall i | 0 <= i < 39 && i % 5 == 4
      ensures text[i] == 58
    {
      TextAt(ip, i);
    }
    forall m | 0 <= m < 16
      ensures var i := 5 * (m / 2) + 2 * (m % 2);
              16 * DigitValue(text[i]) + DigitValue(text[i + 1]) == ip[m] as int
    {
      GroupDenotes(ip, m);
    }
  }

  /** What a record is printed as says what its bytes do. */
  lemma RecordDenotes(record: seq<byte>)
    requires |record| == 18
    ensures Denotes(record, IpText(RawAt(record, 0)), Decimal(RawAt(record, 0).port))
  {
    hide HexGroups, Colons, ScanIpv4, Strtol, DigitValue, Dotted, Decimal;
    var raw := RawAt(record, 0);
    assert raw.ip[..12] == record[..12];
    StrtolReads(raw.port);
    if IsIpv4Raw(raw) {
      DottedScans(raw.ip[12] as nat, raw.ip[13] as nat, raw.ip[14] as nat, raw.ip[15] as nat);
    } else {
      Ipv6Denotes(raw.ip);
    }
  }

  // ---- Which IPv4 texts are accepted --------------------------------------------------

  /** A text of three characters at most, but for spaces before them, that is a number
      below 256. */
  ghost predicate IsByteText(p: seq<byte>) {
    exists v :: 0 <= v < 256 && ScanInt(p, 3) == Some(Scan(v, []))
  }

  /** Four texts with dots between them. */
  function Dots(p: seq<byte>, q: seq<byte>, r: seq<byte>, s: seq<byte>): seq<byte> {
    p + ([46] + (q + ([46] + (r + ([46] + s)))))
  }

  ghost predicate IsDottedQuad(ip: seq<byte>) {
    exists p, q, r, s :: IsByteText(p) && IsByteText(q) && IsByteText(r) && IsByteText(s) && ip == Dots(p, q, r, s)
  }

  lemma PartBefore(p: seq<byte>, rest: seq<byte>)
    requires IsByteText(p)
    ensures ScanPart(p + ([DOT] + rest)).Some? && ScanPart(p + ([DOT] + rest)).value.rest == rest
    ensures 0 <= ScanPart(p + ([DOT] + rest)).value.value < 256
  {
    var v :| 0 <= v < 256 && ScanInt(p, 3) == Some(Scan(v, []));
    NumberThen(p, [DOT] + rest, 3, v);
    PartAt(p + ([DOT] + rest), v, rest);
  }

  lemma PartTaken(s: seq<byte>) returns (p: seq<byte>)
    requires ScanPart(s).Some? && ScanPart(s).value.value < 256
    ensures IsByteText(p) && s == p + ([DOT] + ScanPart(s).value.rest)
  {
    hide ScanInt;
    var n := ScanConsumes(s, 3);
    NumberCut(s, 3, n);
    ShortByte(s);
    p := s[..n];
    FirstOff(s, n);
  }

  lemma FirstOff(s: seq<byte>, n: nat)
    requires n < |s|
    ensures s == s[..n] + ([s[n]] + s[n..][1..]) && s[n..][0] == s[n]
  {
  }

  lemma ShortByte(s: seq<byte>)
    requires ScanShort(s).Some? && ScanShort(s).value.value < 256
    ensures 0 <= ScanInt(s, 3).value.value < 256
  {
    ShortRange(s);
  }

  lemma ShortRange(s: seq<byte>)
    requires ScanInt(s, 3).Some?
    ensures -100 < ScanInt(s, 3).value.value < 1000
  {
    var t := SkipSpace(s);
    var signed := t != [] && IsSign(t[0]);
    var u := if signed then t[1..] else t;
    var n := DigitRun(u, if signed then 2 else 3);
    FewDigits(u[..n]);
    hide SkipSpace, DigitRun, Value;
  }

  lemma {:induction false} FewDigits(s: seq<byte>)
    requires |s| <= 3 && forall i :: 0 <= i < |s| ==> IsDigit(s[i])
    ensures Value(s) < 1000 && (|s| <= 2 ==> Value(s) < 100) && (|s| <= 1 ==> Value(s) < 10)
    ensures s == [] ==> Value(s) == 0
  {
    if s != [] {
      assert IsDigit(s[|s| - 1]);
      FewDigits(s[..|s| - 1]);
    }
  }

  lemma LastTaken(s: seq<byte>)
    requires ScanShort(s).Some?
    ensures ScanShort(s).value.rest == [] && ScanShort(s).value.value < 256 <==> IsByteText(s)
  {
    ShortRange(s);
  }

  /** The accepted texts are four numbers below 256 with dots between them, and no others;
      spaces and signs may go before a number. */
  lemma AcceptedIpv4(ip: seq<byte>)
    ensures IsValidIpv4(ip) <==> IsDottedQuad(ip)
  {
    hide ScanPart, ScanShort, IsByteText;
    if IsValidIpv4(ip) {
      var a := ScanPart(ip).value.rest;
      var b := ScanPart(a).value.rest;
      var c := ScanPart(b).value.rest;
      var p := PartTaken(ip);
      var q := PartTaken(a);
      var r := PartTaken(b);
      LastTaken(c);
      assert ip == Dots(p, q, r, c);
    }
    if p, q, r, s :| IsByteText(p) && IsByteText(q) && IsByteText(r) && IsByteText(s) && ip == Dots(p, q, r, s) {
      PartBefore(p, q + ([DOT] + (r + ([DOT] + s))));
      PartBefore(q, r + ([DOT] + s));
      PartBefore(r, s);
      LastShort(s);
      LastTaken(s);
    }
  }

  lemma LastShort(s: seq<byte>)
    requires IsByteText(s)
    ensures ScanShort(s).Some?
  {
  }

  /** The accepted texts are such quads, when there is a dot among the first four bytes, and
      otherwise groups of four hexadecimal digits between colons, cut off anywhere. */
  lemma AcceptedIp(ip: seq<byte>)
    ensures IsValidIp(ip) <==>
      if exists i :: 1 <= i <= 3 && i < |ip| && ip[i] == 46 then IsDottedQuad(ip)
      else
        && |ip| <= 39
        && forall i :: 0 <= i < |ip| ==>
             if i % 5 == 4 then ip[i] == 58 else 48 <= ip[i] <= 57 || 65 <= ip[i] <= 70 || 97 <= ip[i] <= 102
  {
    AcceptedIpv4(ip);
    hide IsValidIpv4, IsDottedQuad;
    if exists i :: 1 <= i <= 3 && i < |ip| && ip[i] == 46 {
      assert IsIpv4(ip);
    }
  }

  /** A port is a number from 0 to 65534, with nothing after it. */
  lemma AcceptedPort(port: seq<byte>)
    ensures IsValidPort(port) <==>
      exists n :: 0 <= n <= 65534 && port != [] && ScanInt(port, |port|) == Some(Scan(n, []))
  {
    hide ScanInt;
  }

  /** What an IP and a port are joined to. */
  lemma JoinedText(ip: seq<byte>, port: seq<byte>)
    ensures Join(ip, port) ==
            if exists i :: 1 <= i <= 3 && i < |ip| && ip[i] == 46 then ip + [58] + port
            else [91] + ip + [93, 58] + port
  {
  }

  // ---- Which addresses are parsed -----------------------------------------------------

  function Repeat(c: byte, k: nat): seq<byte> {
    seq(k, _ => c)
  }

  /** In brackets, with closing brackets before it skipped, an IP ends at the next closing
      bracket; otherwise colons take their part.  A colon after that is skipped too, and the
      rest is the port. */
  ghost predicate IsAddress(s: seq<byte>, ip: seq<byte>, port: seq<byte>) {
    && ip != [] && IsValidIp(ip) && IsValidPort(port)
    && exists k: nat, colon: seq<byte> :: IsComposed(s, k, ip, colon, port)
  }

  ghost predicate IsComposed(s: seq<byte>, k: nat, ip: seq<byte>, colon: seq<byte>, port: seq<byte>) {
    var bracket := s != [] && s[0] == 91;
    var open: seq<byte>, close: byte := if bracket then [91] else [], if bracket then 93 else 58;
    && (colon == [] || colon == [58]) && close !in ip
    && s == open + Repeat(close, k) + ip + [close] + colon + port
  }

  lemma {:induction false} SkipEnds(s: seq<byte>, c: byte, i: nat, k: nat)
    requires i <= k <= |s| && (forall j :: i <= j < k ==> s[j] == c) && (k < |s| ==> s[k] != c)
    ensures Skip(s, c, i) == k
    decreases k - i
  {
    if i < k {
      SkipEnds(s, c, i + 1, k);
    }
  }

  lemma {:induction false} FindEnds(s: seq<byte>, c: byte, i: nat, k: nat)
    requires i <= k <= |s| && (forall j :: i <= j < k ==> s[j] != c) && (k < |s| ==> s[k] == c)
    ensures Find(s, c, i) == k
    decreases k - i
  {
    if i < k {
      FindEnds(s, c, i + 1, k);
    }
  }

  lemma Pieces(a: seq<byte>, k: nat, c: seq<byte>, d: byte, e: seq<byte>, f: seq<byte>)
    ensures var s, i, j := a + Repeat(d, k) + c + [d] + e + f, |a| + k, |a| + k + |c|;
            && |s| == j + 1 + |e| + |f|
            && (forall n :: |a| <= n < i ==> s[n] == d)
            && (forall n :: i <= n < j ==> s[n] == c[n - i]) && s[i..j] == c && s[j] == d
            && (e != [] ==> s[j + 1] == e[0]) && s[j + 1 + |e|..] == f && (e == [] && f != [] ==> s[j + 1] == f[0])
  {
  }

  /** Where the parts of such a text are. */
  lemma Located(s: seq<byte>, ip: seq<byte>, port: seq<byte>, k: nat, colon: seq<byte>)
    requires ip != [] && port != [] && port[0] != 58
    requires IsComposed(s, k, ip, colon, port)
    ensures Locate(s).Some?
    ensures var p := Locate(s).value; s[p.start..p.end] == ip && s[p.port..] == port
  {
    hide Skip, Find, Repeat;
    var bracket := s != [] && s[0] == 91;
    var open: seq<byte>, close: byte := if bracket then [91] else [], if bracket then 93 else 58;
    Pieces(open, k, ip, close, colon, port);
    Ends(s, close, |open|, |open| + k, ip);
  }

  lemma Ends(s: seq<byte>, close: byte, from: nat, start: nat, ip: seq<byte>)
    requires from <= start && start + |ip| < |s| && ip != [] && close !in ip
    requires (forall j :: from <= j < start ==> s[j] == close) && s[start + |ip|] == close
    requires forall j :: start <= j < start + |ip| ==> s[j] == ip[j - start]
    ensures Skip(s, close, from) == start && Find(s, close, start) == start + |ip|
  {
    SkipEnds(s, close, from, start);
    FindEnds(s, close, start, start + |ip|);
  }

  lemma AddressParsed(s: seq<byte>, ip: seq<byte>, port: seq<byte>)
    requires IsAddress(s, ip, port)
    ensures Parse(s) == Some((ip, port))
  {
    hide IsValidIp, IsValidPort, Locate, Repeat;
    var k: nat, colon: seq<byte> :| IsComposed(s, k, ip, colon, port);
    PortHasNoDelimiter(port);
    Located(s, ip, port, k, colon);
  }

  /** Where the parts are that were located. */
  lemma LocatedParts(s: seq<byte>)
    requires Locate(s).Some?
    ensures var p, bracket := Locate(s).value, s[0] == 91;
            var from, close: byte := if bracket then 1 else 0, if bracket then 93 else 58;
            && from <= p.start < p.end < p.port <= |s| && p.end + 1 < |s|
            && (forall j :: from <= j < p.start ==> s[j] == close)
            && (forall j :: p.start <= j < p.end ==> s[j] != close)
            && s[p.end] == close && p.port == (if s[p.end + 1] == 58 then p.end + 2 else p.end + 1)
  {
  }

  lemma Composed(s: seq<byte>, open: seq<byte>, close: byte, start: nat, end: nat, colon: seq<byte>)
    requires |open| <= start < end && end + 1 + |colon| <= |s| && open <= s && s[end] == close
    requires (forall j :: |open| <= j < start ==> s[j] == close) && s[end + 1..end + 1 + |colon|] == colon
    ensures s == open + Repeat(close, start - |open|) + s[start..end] + [close] + colon + s[end + 1 + |colon|..]
  {
    assert s[..start] == open + Repeat(close, start - |open|);
    hide Repeat;
    assert s == s[..start] + s[start..end] + s[end..end + 1] + s[end + 1..end + 1 + |colon|] + s[end + 1 + |colon|..];
  }

  lemma NotWithin(s: seq<byte>, c: byte, i: nat, j: nat)
    requires i <= j <= |s| && forall n :: i <= n < j ==> s[n] != c
    ensures c !in s[i..j]
  {
    assert forall n :: 0 <= n < j - i ==> s[i..j][n] == s[i + n];
  }

  lemma BracketsComposed(s: seq<byte>, start: nat, end: nat, colon: seq<byte>)
    requires s != [] && (colon == [] || colon == [58]) && end + 1 + |colon| <= |s|
    requires var from, close: byte := if s[0] == 91 then 1 else 0, if s[0] == 91 then 93 else 58;
             && from <= start < end && s[end] == close
             && (forall j :: from <= j < start ==> s[j] == close) && (forall j :: start <= j < end ==> s[j] != close)
    requires s[end + 1..end + 1 + |colon|] == colon
    ensures IsComposed(s, start - (if s[0] == 91 then 1 else 0), s[start..end], colon, s[end + 1 + |colon|..])
  {
    hide Repeat;
    if s[0] == 91 {
      Composed(s, [91], 93, start, end, colon);
      NotWithin(s, 93, start, end);
    } else {
      Composed(s, [], 58, start, end, colon);
      NotWithin(s, 58, start, end);
    }
  }

  lemma LocatedIsComposed(s: seq<byte>) returns (k: nat, colon: seq<byte>)
    requires Locate(s).Some?
    ensures var p := Locate(s).value; IsComposed(s, k, s[p.start..p.end], colon, s[p.port..])
  {
    LocatedParts(s);
    hide Locate, IsComposed;
    var p := Locate(s).value;
    k := p.start - (if s[0] == 91 then 1 else 0);
    colon := if s[p.end + 1] == 58 then [58] else [];
    BracketsComposed(s, p.start, p.end, colon);
  }

  lemma ParsedIsAddress(s: seq<byte>)
    requires Parse(s).Some?
    ensures IsAddress(s, Parse(s).value.0, Parse(s).value.1)
  {
    hide IsValidIp, IsValidPort, Locate, IsComposed;
    var k, colon := LocatedIsComposed(s);
  }

  /** The addresses parsed are these, and no others. */
  lemma ParsedAddresses(s: seq<byte>, ip: seq<byte>, port: seq<byte>)
    ensures Parse(s) == Some((ip, port)) <==> IsAddress(s, ip, port)
  {
    hide Parse, IsAddress;
    if Parse(s) == Some((ip, port)) {
      ParsedIsAddress(s);
    }
    if IsAddress(s, ip, port) {
      AddressParsed(s, ip, port);
    }
  }
}
