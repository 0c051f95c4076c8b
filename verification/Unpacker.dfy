/** Reading packets: fields separated by NULs for what a server says about itself, and
    fixed-size records for the servers a master knows. */
module Unpacker {
  import opened Basics
  import opened CString
  import opened Game

  const MSG_INFO: seq<byte> := [255, 255, 255, 255, 105, 110, 102, 51]
  const MSG_LIST: seq<byte> := [255, 255, 255, 255, 108, 105, 115, 50]

  /** The connless packet, whose header is cut off by moving the rest down. */
  class Packet {
    const buffer: array<byte>
    var size: nat

    ghost predicate Valid()
      reads this
    {
      size <= buffer.Length
    }

    ghost function Contents(): seq<byte>
      requires Valid()
      reads this, buffer
    {
      buffer[..size]
    }

    constructor (bytes: seq<byte>)
      ensures Valid() && Contents() == bytes && fresh(buffer)
    {
      buffer := new byte[|bytes|](i requires 0 <= i < |bytes| => bytes[i]);
      size := |bytes|;
    }

    method Compare(header: seq<byte>) returns (same: bool)
      requires Valid() && |header| <= size
      ensures same <==> header <= Contents()
    {
      for i := 0 to |header|
        invariant header[..i] == buffer[..i]
      {
        if header[i] != buffer[i] {
          assert Contents()[i] == buffer[i];
          return false;
        }
      }
      assert header == buffer[..|header|];
      return true;
    }

    method SkipHeader(header: seq<byte>) returns (ok: bool)
      requires Valid()
      modifies this, buffer
      ensures Valid() && (ok <==> header <= old(Contents()))
      ensures Contents() == if ok then old(Contents())[|header|..] else old(Contents())
    {
      if size < |header| {
        return false;
      }
      ok := Compare(header);
      if ok {
        ghost var was := Contents();
        size := size - |header|;
        var n := |header|;
        forall i | 0 <= i < size {
          buffer[i] := buffer[i + n];
        }
        assert Contents() == was[n..];
      }
    }
  }

  // ---- Fields ------------------------------------------------------------------------

  /** The first NUL at or after "i", or the end. */
  function FieldEnd(s: seq<byte>, i: nat): (e: nat)
    requires i <= |s|
    ensures i <= e <= |s| && (e < |s| ==> s[e] == NUL) && NUL !in s[i..e]
    decreases |s| - i
  {
    if i == |s| || s[i] == NUL then i else FieldEnd(s, i + 1)
  }

  /** The fields from "i" on.  Each ends with a NUL, so what follows the last NUL is none. */
  function Fields(s: seq<byte>, i: nat): seq<seq<byte>>
    requires i <= |s|
    decreases |s| - i
  {
    var e := FieldEnd(s, i);
    if e == |s| then [] else [s[i..e]] + Fields(s, e + 1)
  }

  /** Fields put back together: each followed by a NUL, then what is left. */
  function Joined(fields: seq<seq<byte>>): seq<byte> {
    if fields == [] then [] else fields[0] + [0] + Joined(fields[1..])
  }

  lemma JoinedFront(s: seq<byte>, i: nat, e: nat, fields: seq<seq<byte>>, rest: seq<byte>)
    requires i <= e < |s| && s[e] == NUL && s[e + 1..] == Joined(fields) + rest
    ensures s[i..] == Joined([s[i..e]] + fields) + rest
  {
    assert ([s[i..e]] + fields)[1..] == fields;
    assert s[i..] == s[i..e] + [s[e]] + s[e + 1..];
  }

  lemma FieldsFrom(s: seq<byte>, i: nat)
    requires i <= |s|
    ensures var e := FieldEnd(s, i);
            Fields(s, i) == if e == |s| then [] else [s[i..e]] + Fields(s, e + 1)
  {
  }

  lemma JoinedNothing(rest: seq<byte>)
    ensures Joined([]) + rest == rest
  {
  }

  /** The fields are the string cut at its NULs. */
  lemma {:induction false} FieldsSplit(s: seq<byte>, i: nat) returns (rest: seq<byte>)
    requires i <= |s|
    ensures s[i..] == Joined(Fields(s, i)) + rest && NUL !in rest
    decreases |s| - i
  {
    hide FieldEnd, Fields, Joined;
    var e := FieldEnd(s, i);
    FieldsFrom(s, i);
    if e == |s| {
      rest := s[i..];
      JoinedNothing(rest);
    } else {
      rest := FieldsSplit(s, e + 1);
      JoinedFront(s, i, e, Fields(s, e + 1), rest);
    }
  }

  lemma {:induction false} FieldsHaveNoNul(s: seq<byte>, i: nat)
    requires i <= |s|
    ensures forall k :: 0 <= k < |Fields(s, i)| ==> NUL !in Fields(s, i)[k]
    decreases |s| - i
  {
    var e := FieldEnd(s, i);
    if e < |s| {
      FieldsHaveNoNul(s, e + 1);
    }
  }

  /** Skipping a byte that is not a NUL loses no field; skipping a NUL loses one. */
  lemma FieldsStep(s: seq<byte>, i: nat)
    requires i < |s|
    ensures |Fields(s, i)| == |Fields(s, i + 1)| + if s[i] == NUL then 1 else 0
  {
  }

  class Unpacker {
    const packet: Packet
    var offset: nat

    ghost predicate Valid()
      reads this, packet
    {
      packet.Valid() && offset <= packet.size
    }

    /** The fields still to be read. */
    ghost function Left(): seq<seq<byte>>
      requires Valid()
      reads this, packet, packet.buffer
    {
      Fields(packet.Contents(), offset)
    }

    constructor (packet: Packet)
      requires packet.Valid()
      ensures Valid() && this.packet == packet && Left() == Fields(packet.Contents(), 0)
    {
      this.packet, offset := packet, 0;
    }

    method CanUnpack(length: nat) returns (can: bool)
      requires Valid() && length > 0
      ensures can <==> |Left()| >= length
    {
      ghost var s := packet.Contents();
      var at, missing := offset, length;
      while at < packet.size
        invariant at <= packet.size && missing > 0
        invariant |Fields(s, offset)| - length == |Fields(s, at)| - missing
      {
        FieldsStep(s, at);
        if packet.buffer[at] == NUL {
          missing := missing - 1;
          if missing == 0 {
            return true;
          }
        }
        at := at + 1;
      }
      return false;
    }

    /** Reads one field.  There must be one: the offset then stays within the packet. */
    method Unpack() returns (field: seq<byte>)
      requires Valid() && Left() != []
      modifies this
      ensures Valid() && [field] + Left() == old(Left())
    {
      ghost var s := packet.Contents();
      var start := offset;
      while offset < packet.size && packet.buffer[offset] != NUL
        invariant start <= offset <= packet.size && FieldEnd(s, offset) == FieldEnd(s, start)
      {
        offset := offset + 1;
      }
      field := packet.buffer[..packet.size][start..offset];
      offset := offset + 1;
    }

    /** Field "k" of "f" is the next one. */
    ghost predicate At(f: seq<seq<byte>>, k: nat)
      requires Valid()
      reads this, packet, packet.buffer
    {
      k <= |f| && Left() == f[k..]
    }

    method SkipField(ghost f: seq<seq<byte>>, ghost k: nat)
      requires Valid() && At(f, k) && k < |f|
      modifies this
      ensures Valid() && At(f, k + 1)
    {
      var field := Unpack();
      assert ([field] + Left())[1..] == Left();
    }

    /** Copies a field into a buffer, which may be too short for it. */
    method UnpackString(size: nat, ghost f: seq<seq<byte>>, ghost k: nat) returns (s: seq<byte>)
      requires Valid() && At(f, k) && k < |f| && size > 0
      modifies this
      ensures Valid() && At(f, k + 1) && s == Cut(f[k], size)
    {
      var field := Unpack();
      assert ([field] + Left())[1..] == Left();
      s := Cut(field, size);
    }

    method UnpackInt(ghost f: seq<seq<byte>>, ghost k: nat) returns (n: int)
      requires Valid() && At(f, k) && k < |f|
      modifies this
      ensures Valid() && At(f, k + 1) && n == ToInt(f[k])
    {
      var field := Unpack();
      assert ([field] + Left())[1..] == Left();
      n := ToInt(field);
    }
  }

  /** A string cut to a buffer, with room for the NUL. */
  function Cut(s: seq<byte>, size: nat): (r: seq<byte>)
    requires size > 0
    ensures |r| < size && r <= s && (|s| < size ==> r == s)
  {
    if |s| < size then s else s[..size - 1]
  }

  // ---- Numbers -----------------------------------------------------------------------

  const TWO_TO_THE_32: int := 0x1_0000_0000

  /** A long stored in an int keeps its low 32 bits. */
  function ToInt(s: seq<byte>): (n: int)
    ensures -0x8000_0000 <= n < 0x8000_0000
  {
    var low := Strtol(s).value % TWO_TO_THE_32;
    if low < 0x8000_0000 then low else low - TWO_TO_THE_32
  }

  // ---- Server info -------------------------------------------------------------------

  const NAME_LENGTH := 17
  const SERVERNAME_STRSIZE := 256
  const GAMETYPE_STRSIZE := 8
  const MAP_STRSIZE := 64

  /** The fields of a server record that a packet changes. */
  class Server {
    var name: seq<byte>
    var map_: seq<byte>
    var gametype: seq<byte>
    var numClients: int
    var maxClients: int
    const clients: array<Client>

    ghost predicate Valid() {
      clients.Length == MAX_CLIENTS
    }

    ghost function Snapshot(): Info
      reads this, clients
    {
      Info(name, map_, gametype, numClients, maxClients, clients[..])
    }

    constructor (clients: array<Client>)
      requires clients.Length == MAX_CLIENTS
      ensures Valid() && this.clients == clients
    {
      this.clients := clients;
      name, map_, gametype, numClients, maxClients := [], [], [], 0, 0;
    }

    method Copy() returns (info: Info)
      ensures info == Snapshot()
    {
      info := Info(name, map_, gametype, numClients, maxClients, clients[..]);
    }

    method Restore(info: Info)
      requires |info.clients| == clients.Length
      modifies this, clients
      ensures Snapshot() == info
    {
      name, map_, gametype := info.name, info.map_, info.gametype;
      numClients, maxClients := info.numClients, info.maxClients;
      forall i | 0 <= i < clients.Length {
        clients[i] := info.clients[i];
      }
    }
  }

  datatype Info = Info(name: seq<byte>, map_: seq<byte>, gametype: seq<byte>,
                       numClients: int, maxClients: int, clients: seq<Client>)

  const HEAD_FIELDS := 10
  const CLIENT_FIELDS := 5

  /** The client whose fields start at "k". */
  function ClientAt(f: seq<seq<byte>>, k: nat): Client
    requires k + CLIENT_FIELDS <= |f|
  {
    Client(Cut(f[k], NAME_LENGTH), Cut(f[k + 1], NAME_LENGTH), ToInt(f[k + 3]), ToInt(f[k + 4]) != 0)
  }

  /** How many fields a packet that announces "n" clients must have. */
  function Needed(n: nat): nat {
    HEAD_FIELDS + CLIENT_FIELDS * n
  }

  /** What makes an info packet acceptable. */
  predicate IsInfo(f: seq<seq<byte>>) {
    && |f| >= HEAD_FIELDS
    && 0 <= ToInt(f[8]) <= ToInt(f[9]) <= MAX_CLIENTS
    && |f| >= Needed(ToInt(f[8]))
  }

  /** What comes of reading a packet.  An overrun is an attempt to write past the array of
      clients. */
  datatype Reading = Accepted | Refused | Overrun

  /** A negative number of clients passes the checks and counts as a huge one.  The walk over
      the clients then goes on until it runs out of fields. */
  predicate Overruns(f: seq<seq<byte>>) {
    && |f| >= HEAD_FIELDS
    && ToInt(f[8]) < 0 && ToInt(f[8]) <= ToInt(f[9]) <= MAX_CLIENTS
    && |f| >= Needed(MAX_CLIENTS + 1)
  }

  /** An int converted to an unsigned int. */
  function ToUnsigned(n: int): nat
    requires -0x8000_0000 <= n < 0x8000_0000
  {
    if n < 0 then n + TWO_TO_THE_32 else n
  }

  /** The record after an acceptable packet: the slots past the announced clients keep
      what they held. */
  function InfoOf(f: seq<seq<byte>>, clients: seq<Client>): Info
    requires IsInfo(f) && |clients| == MAX_CLIENTS
  {
    var n := ToInt(f[8]);
    Info(Cut(f[2], SERVERNAME_STRSIZE), Cut(f[3], MAP_STRSIZE), Cut(f[4], GAMETYPE_STRSIZE),
         n, ToInt(f[9]), Filled(f, n, clients))
  }

  /** The client array with its first "n" slots filled. */
  function Filled(f: seq<seq<byte>>, n: nat, clients: seq<Client>): (r: seq<Client>)
    requires |f| >= Needed(n) && n <= |clients|
    ensures |r| == |clients|
  {
    ClientsOf(f, n) + clients[n..]
  }

  function ClientsOf(f: seq<seq<byte>>, n: nat): (r: seq<Client>)
    requires |f| >= Needed(n)
    ensures |r| == n
  {
    seq(n, i requires 0 <= i < n => ClientAt(f, Needed(i)))
  }

  /** Token, version and the three strings. */
  method UnpackNames(up: Unpacker, sv: Server, ghost f: seq<seq<byte>>)
    requires up.Valid() && up.At(f, 0) && |f| >= HEAD_FIELDS
    modifies up, sv`name, sv`map_, sv`gametype
    ensures up.Valid() && up.At(f, 5)
    ensures sv.name == Cut(f[2], SERVERNAME_STRSIZE) && sv.map_ == Cut(f[3], MAP_STRSIZE)
    ensures sv.gametype == Cut(f[4], GAMETYPE_STRSIZE)
  {
    hide Unpacker.Valid, Unpacker.At, Cut;
    up.SkipField(f, 0);
    up.SkipField(f, 1);
    sv.name := up.UnpackString(SERVERNAME_STRSIZE, f, 2);
    sv.map_ := up.UnpackString(MAP_STRSIZE, f, 3);
    sv.gametype := up.UnpackString(GAMETYPE_STRSIZE, f, 4);
  }

  /** Flags and the four numbers, of which only the last two are kept. */
  method UnpackCounts(up: Unpacker, sv: Server, ghost f: seq<seq<byte>>)
    requires up.Valid() && up.At(f, 5) && |f| >= HEAD_FIELDS
    modifies up, sv`numClients, sv`maxClients
    ensures up.Valid() && up.At(f, HEAD_FIELDS)
    ensures sv.numClients == ToInt(f[8]) && sv.maxClients == ToInt(f[9])
  {
    up.SkipField(f, 5);
    up.SkipField(f, 6);
    up.SkipField(f, 7);
    sv.numClients := up.UnpackInt(f, 8);
    sv.maxClients := up.UnpackInt(f, 9);
  }

  method UnpackClient(up: Unpacker, ghost f: seq<seq<byte>>, ghost k: nat) returns (client: Client)
    requires up.Valid() && k + CLIENT_FIELDS <= |f| && up.At(f, k)
    modifies up
    ensures up.Valid() && up.At(f, k + CLIENT_FIELDS) && client == ClientAt(f, k)
  {
    var name := up.UnpackString(NAME_LENGTH, f, k);
    var clan := up.UnpackString(NAME_LENGTH, f, k + 1);
    up.SkipField(f, k + 2);
    var score := up.UnpackInt(f, k + 3);
    var ingame := up.UnpackInt(f, k + 4);
    client := Client(name, clan, score, ingame != 0);
  }

  lemma ClientsFirst(f: seq<seq<byte>>, was: seq<Client>)
    requires |f| >= Needed(0)
    ensures Filled(f, 0, was) == was
  {
  }

  lemma ClientsNext(f: seq<seq<byte>>, i: nat, was: seq<Client>)
    requires |f| >= Needed(i + 1) && i < |was|
    ensures Filled(f, i, was)[i := ClientAt(f, Needed(i))] == Filled(f, i + 1, was)
  {
  }

  /** The next client, if its fields are there. */
  method UnpackClientAt(up: Unpacker, sv: Server, i: nat, ghost f: seq<seq<byte>>) returns (r: Reading)
    requires up.Valid() && sv.Valid() && up.At(f, Needed(i)) && i <= MAX_CLIENTS
    modifies up, sv.clients
    ensures up.Valid()
    ensures r == if |f| < Needed(i + 1) then Refused else if i == MAX_CLIENTS then Overrun else Accepted
    ensures r.Accepted? ==>
      up.At(f, Needed(i + 1)) && sv.clients[..] == old(sv.clients[..])[i := ClientAt(f, Needed(i))]
  {
    hide Fields, ClientAt;
    var can := up.CanUnpack(CLIENT_FIELDS);
    if !can {
      return Refused;
    }
    if i == MAX_CLIENTS {
      return Overrun;
    }
    var client := UnpackClient(up, f, Needed(i));
    sv.clients[i] := client;
    r := Accepted;
  }

  method UnpackClients(up: Unpacker, sv: Server, ghost f: seq<seq<byte>>) returns (r: Reading)
    requires up.Valid() && sv.Valid() && up.At(f, HEAD_FIELDS) && |f| >= HEAD_FIELDS
    requires -0x8000_0000 <= sv.numClients <= MAX_CLIENTS
    modifies up, sv.clients
    ensures r.Accepted? <==> sv.numClients >= 0 && |f| >= Needed(sv.numClients)
    ensures r.Overrun? <==> sv.numClients < 0 && |f| >= Needed(MAX_CLIENTS + 1)
    ensures r.Accepted? ==> sv.clients[..] == Filled(f, sv.numClients, old(sv.clients[..]))
  {
    hide ClientAt, Filled, Unpacker.At, Unpacker.Valid;
    ghost var was := sv.clients[..];
    ClientsFirst(f, was);
    var n, i := ToUnsigned(sv.numClients), 0;
    while i < n
      invariant 0 <= i <= n && i <= MAX_CLIENTS && up.Valid() && up.At(f, Needed(i)) && |f| >= Needed(i)
      invariant sv.clients[..] == Filled(f, i, was)
    {
      r := UnpackClientAt(up, sv, i, f);
      if !r.Accepted? {
        return;
      }
      ClientsNext(f, i, was);
      i := i + 1;
    }
    r := Accepted;
  }

  /** The announced counts are checked before any client is read. */
  method CheckCounts(sv: Server) returns (ok: bool)
    ensures ok <==> sv.numClients <= sv.maxClients <= MAX_CLIENTS
  {
    if sv.numClients > MAX_CLIENTS {
      return false;
    }
    if sv.maxClients > MAX_CLIENTS {
      return false;
    }
    if sv.numClients > sv.maxClients {
      return false;
    }
    return true;
  }

  /** Reads all fields; the record is half written when it fails. */
  method UnpackFields(up: Unpacker, sv: Server, ghost f: seq<seq<byte>>) returns (r: Reading)
    requires up.Valid() && sv.Valid() && up.At(f, 0)
    modifies up, sv, sv.clients
    ensures (r.Accepted? <==> IsInfo(f)) && (r.Overrun? <==> Overruns(f))
    ensures r.Accepted? ==> sv.Snapshot() == InfoOf(f, old(sv.clients[..]))
  {
    hide Filled, Unpacker.Valid;
    FirstField(up, f);
    var ok := up.CanUnpack(HEAD_FIELDS);
    if !ok {
      return Refused;
    }
    hide Unpacker.At;
    UnpackNames(up, sv, f);
    UnpackCounts(up, sv, f);
    ok := CheckCounts(sv);
    if !ok {
      return Refused;
    }
    r := UnpackClients(up, sv, f);
  }

  lemma FirstField(up: Unpacker, f: seq<seq<byte>>)
    requires up.Valid() && up.At(f, 0)
    ensures up.Left() == f
  {
    assert f[0..] == f;
  }

  /** What follows the header. */
  method UnpackBody(packet: Packet, sv: Server) returns (r: Reading)
    requires packet.Valid() && sv.Valid()
    modifies sv, sv.clients
    ensures r.Accepted? <==> IsInfo(Fields(packet.Contents(), 0))
    ensures r.Overrun? <==> Overruns(Fields(packet.Contents(), 0))
    ensures r.Accepted? ==> sv.Snapshot() == InfoOf(Fields(packet.Contents(), 0), old(sv.clients[..]))
  {
    hide IsInfo, InfoOf, Overruns, Fields;
    var up := new Unpacker(packet);
    ghost var f := up.Left();
    assert f[0..] == f;
    r := UnpackFields(up, sv, f);
  }

  /** Reads an info packet into a server record.  It succeeds exactly on acceptable
      packets.  Of the others, those that announce a negative number of clients, within an
      admissible maximum, and have the fields of more clients than there is room for make
      it write past the array; all the rest leave the record as it was, however far the
      reading got. */
  method UnpackServerInfo(packet: Packet, sv: Server) returns (r: Reading)
    requires packet.Valid() && sv.Valid()
    modifies packet, packet.buffer, sv, sv.clients
    ensures r.Accepted? <==>
      MSG_INFO <= old(packet.Contents()) && IsInfo(Fields(old(packet.Contents())[|MSG_INFO|..], 0))
    ensures r.Overrun? <==>
      MSG_INFO <= old(packet.Contents()) && Overruns(Fields(old(packet.Contents())[|MSG_INFO|..], 0))
    ensures r.Accepted? ==>
      && sv.Snapshot() == InfoOf(Fields(old(packet.Contents())[|MSG_INFO|..], 0), old(sv.clients[..]))
      && 0 <= sv.numClients <= sv.maxClients <= MAX_CLIENTS
    ensures r.Refused? ==> sv.Snapshot() == old(sv.Snapshot())
  {
    var ok := packet.SkipHeader(MSG_INFO);
    if !ok {
      return Refused;
    }
    var was := sv.Copy();
    r := UnpackBody(packet, sv);
    if r.Refused? {
      sv.Restore(was);
    }
  }

  /** Fields that are put together come apart again. */
  lemma {:induction false} FieldsOfJoined(s: seq<byte>, i: nat, fields: seq<seq<byte>>)
    requires i <= |s| && s[i..] == Joined(fields)
    requires forall k :: 0 <= k < |fields| ==> NUL !in fields[k]
    ensures Fields(s, i) == fields
    decreases |fields|
  {
    hide Fields, FieldEnd, Joined;
    FieldsFrom(s, i);
    if fields == [] {
      NothingJoined(s, i);
    } else {
      var e := i + |fields[0]|;
      FirstJoined(s, i, fields);
      EndOfField(s, i, e);
      FieldsOfJoined(s, e + 1, fields[1..]);
    }
  }

  lemma NothingJoined(s: seq<byte>, i: nat)
    requires i <= |s| && s[i..] == Joined([])
    ensures FieldEnd(s, i) == |s|
  {
    assert |s[i..]| == 0;
  }

  lemma FirstJoined(s: seq<byte>, i: nat, fields: seq<seq<byte>>)
    requires i <= |s| && s[i..] == Joined(fields) && fields != []
    ensures var e := i + |fields[0]|;
            e < |s| && s[i..e] == fields[0] && s[e] == NUL && s[e + 1..] == Joined(fields[1..])
  {
    var n := |fields[0]|;
    var t := s[i..];
    assert t[..n] == fields[0] && t[n] == NUL && t[n + 1..] == Joined(fields[1..]);
    assert s[i..i + n] == t[..n] && s[i + n + 1..] == t[n + 1..];
  }

  lemma {:induction false} EndOfField(s: seq<byte>, i: nat, e: nat)
    requires i <= e < |s| && NUL !in s[i..e] && s[e] == NUL
    ensures FieldEnd(s, i) == e
    decreases e - i
  {
    if i < e {
      assert s[i] == s[i..e][0] && s[i + 1..e] == s[i..e][1..];
      EndOfField(s, i + 1, e);
    }
  }

  const MINUS_ONE: seq<byte> := [45, 49]

  /** There is such a packet: every field is empty but for a count of -1. */
  lemma OverrunHappens() returns (packet: seq<byte>)
    ensures MSG_INFO <= packet && Overruns(Fields(packet[|MSG_INFO|..], 0))
  {
    hide Fields, Joined, ToInt;
    var f := seq(Needed(MAX_CLIENTS + 1), k => if k == 8 then MINUS_ONE else []);
    packet := MSG_INFO + Joined(f);
    assert packet[|MSG_INFO|..] == packet[|MSG_INFO|..][0..] == Joined(f);
    FieldsOfJoined(packet[|MSG_INFO|..], 0, f);
    MinusOne();
    NothingIsZero();
  }

  lemma MinusOne()
    ensures ToInt(MINUS_ONE) == -1
  {
    var one: seq<byte> := [49];
    assert SkipSpace(MINUS_ONE) == MINUS_ONE && MINUS_ONE[1..] == one;
    assert one[1..] == [] && DigitRun(one, 1) == 1;
    assert one[..1] == one && one[..0] == [] && Value(one) == 1;
  }

  lemma NothingIsZero()
    ensures ToInt([]) == 0
  {
    assert SkipSpace([]) == [];
  }

  // ---- Server addresses --------------------------------------------------------------

  const RAW_SIZE := 18

  /** Sixteen bytes of IP and two of port. */
  datatype RawAddr = RawAddr(ip: seq<byte>, port: nat)

  function RawAt(s: seq<byte>, k: nat): RawAddr
    requires k + RAW_SIZE <= |s|
  {
    RawAddr(s[k..k + 16], s[k + 16] as nat * 256 + s[k + 17] as nat)
  }

  /** The records of a list: as many as there are room for, what is left over is none. */
  function Records(s: seq<byte>): seq<RawAddr> {
    if |s| < RAW_SIZE then [] else [RawAt(s, 0)] + Records(s[RAW_SIZE..])
  }

  /** The records of a whole packet. */
  function ListOf(packet: seq<byte>): seq<RawAddr> {
    if MSG_LIST <= packet then Records(packet[|MSG_LIST|..]) else []
  }

  lemma {:induction false} RecordsAt(s: seq<byte>)
    ensures |Records(s)| == |s| / RAW_SIZE
    ensures forall k :: 0 <= k < |Records(s)| ==> Records(s)[k] == RawAt(s, RAW_SIZE * k)
  {
    if |s| >= RAW_SIZE {
      var rest := s[RAW_SIZE..];
      RecordsAt(rest);
      forall k | 0 <= k < |Records(s)|
        ensures Records(s)[k] == RawAt(s, RAW_SIZE * k)
      {
        if k > 0 {
          RawAtLater(s, RAW_SIZE * (k - 1));
        }
      }
    }
  }

  lemma RawAtLater(s: seq<byte>, k: nat)
    requires k + 2 * RAW_SIZE <= |s|
    ensures RawAt(s[RAW_SIZE..], k) == RawAt(s, k + RAW_SIZE)
  {
  }

  /** The list of a master, one record a call. */
  class AddrList {
    var rest: seq<byte>
    ghost var left: seq<RawAddr>   // the records still to come

    ghost predicate Valid()
      reads this
    {
      left == Records(rest)
    }

    /** The header is cut off once; a packet without it has no records. */
    constructor (packet: Packet)
      requires packet.Valid()
      modifies packet, packet.buffer
      ensures Valid() && left == ListOf(old(packet.Contents()))
    {
      rest, left := [], ListOf(packet.Contents());
      new;
      var ok := packet.SkipHeader(MSG_LIST);
      if ok {
        rest := packet.buffer[..packet.size];
      }
    }

    method UnpackServerAddr() returns (addr: Option<RawAddr>)
      requires Valid()
      modifies this
      ensures Valid() && old(left) == if addr.None? then [] else [addr.value] + left
      ensures if addr.None? then |left| == 0 else |old(left)| == |left| + 1
    {
      if |rest| < RAW_SIZE {
        return None;
      }
      addr := Some(RawAddr(rest[..16], rest[16] as nat * 256 + rest[17] as nat));
      rest, left := rest[RAW_SIZE..], left[1..];
    }
  }

  method OpenList(bytes: seq<byte>) returns (list: AddrList)
    ensures fresh(list) && list.Valid() && list.left == ListOf(bytes)
  {
    var packet := new Packet(bytes);
    list := new AddrList(packet);
  }
}
