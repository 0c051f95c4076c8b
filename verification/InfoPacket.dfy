/** What a server says about itself, printed into a packet and read back. */
module InfoPacket {
  import opened Basics
  import opened CString
  import opened Game
  import opened Unpacker
  import opened Vanilla

  datatype Listed = Listed(name: seq<byte>, clan: seq<byte>, country: seq<byte>, score: int, ingame: bool)

  /** What an info packet is printed from; of the first two fields, the three after the
      strings, and the countries nothing is kept. */
  datatype Announcement = Announcement(
    token: seq<byte>, version: seq<byte>, name: seq<byte>, map_: seq<byte>, gametype: seq<byte>,
    flags: seq<byte>, players: seq<byte>, maxPlayers: seq<byte>, maxClients: nat, clients: seq<Listed>)

  /** A number with a sign in front of it when it is negative. */
  function Signed(n: int): seq<byte> {
    if n < 0 then [45] + Decimal(-n) else Decimal(n)
  }

  function OneClient(c: Listed): seq<seq<byte>> {
    [c.name, c.clan, c.country, Signed(c.score), if c.ingame then Decimal(1) else Decimal(0)]
  }

  function ClientFields(clients: seq<Listed>): seq<seq<byte>> {
    if clients == [] then [] else OneClient(clients[0]) + ClientFields(clients[1..])
  }

  function HeadFields(a: Announcement): seq<seq<byte>> {
    [a.token, a.version, a.name, a.map_, a.gametype, a.flags, a.players, a.maxPlayers,
     Decimal(|a.clients|), Decimal(a.maxClients)]
  }

  function Printed(a: Announcement): seq<byte> {
    [255, 255, 255, 255, 105, 110, 102, 51] + Joined(HeadFields(a) + ClientFields(a.clients))
  }

  /** A string as a buffer keeps it, which has room for so many characters and a NUL. */
  function Kept(s: seq<byte>, room: nat): seq<byte> {
    if |s| <= room then s else s[..room]
  }

  /** No string has a NUL, and the numbers fit. */
  ghost predicate Printable(a: Announcement) {
    && NUL !in a.token && NUL !in a.version && NUL !in a.flags && NUL !in a.players && NUL !in a.maxPlayers
    && NUL !in a.name && NUL !in a.map_ && NUL !in a.gametype
    && |a.clients| <= a.maxClients <= 16
    && forall k :: 0 <= k < |a.clients| ==> PrintableClient(a.clients[k])
  }

  ghost predicate PrintableClient(c: Listed) {
    && NUL !in c.name && NUL !in c.clan && NUL !in c.country
    && -0x8000_0000 <= c.score < 0x8000_0000
  }

  // ---- Numbers -----------------------------------------------------------------------

  lemma IntReads(s: seq<byte>, n: int)
    requires Strtol(s).value == n && -0x8000_0000 <= n < 0x8000_0000
    ensures ToInt(s) == n
  {
    hide Strtol;
  }

  lemma DecimalReads(n: nat)
    requires n < 0x8000_0000
    ensures ToInt(Decimal(n)) == n && NUL !in Decimal(n)
  {
    hide Strtol, ToInt, Value, Decimal;
    StrtolReads(n);
    IntReads(Decimal(n), n);
  }

  lemma SignedReads(n: int)
    requires -0x8000_0000 <= n < 0x8000_0000
    ensures ToInt(Signed(n)) == n && NUL !in Signed(n)
  {
    hide Strtol, ToInt, Value, Decimal;
    StrtolReads(if n < 0 then -n else n);
    IntReads(Signed(n), n);
  }

  // ---- Fields ------------------------------------------------------------------------

  lemma {:induction false} ClientFieldsAt(clients: seq<Listed>, k: nat)
    requires k < |clients|
    ensures |ClientFields(clients)| == 5 * |clients|
    ensures ClientFields(clients)[5 * k..5 * k + 5] == OneClient(clients[k])
  {
    hide Signed, Decimal;
    var one, rest := OneClient(clients[0]), clients[1..];
    if rest != [] {
      ClientFieldsAt(rest, if k > 0 then k - 1 else 0);
    }
    hide OneClient;
    if k > 0 {
      FiveLater(one, ClientFields(rest), 5 * (k - 1));
    } else {
      assert (one + ClientFields(rest))[..5] == one;
    }
  }

  lemma FiveLater(one: seq<seq<byte>>, rest: seq<seq<byte>>, i: nat)
    requires |one| == 5 && i + 5 <= |rest|
    ensures (one + rest)[i + 5..i + 10] == rest[i..i + 5]
  {
  }

  lemma {:induction false} ClientFieldsClean(clients: seq<Listed>)
    requires forall k :: 0 <= k < |clients| ==> PrintableClient(clients[k])
    ensures forall i :: 0 <= i < |ClientFields(clients)| ==> NUL !in ClientFields(clients)[i]
  {
    hide Signed, Decimal, ToInt;
    if clients != [] {
      ClientFieldsClean(clients[1..]);
      assert PrintableClient(clients[0]);
      SignedReads(clients[0].score);
      DecimalReads(0);
      DecimalReads(1);
    }
  }

  lemma HeadFieldsClean(a: Announcement)
    requires Printable(a)
    ensures forall i :: 0 <= i < |HeadFields(a)| ==> NUL !in HeadFields(a)[i]
  {
    hide Decimal, ToInt, PrintableClient;
    DecimalReads(|a.clients|);
    DecimalReads(a.maxClients);
  }

  lemma FieldsOfPrinted(a: Announcement)
    requires Printable(a)
    ensures MSG_INFO <= Printed(a)
    ensures Fields(Printed(a)[|MSG_INFO|..], 0) == HeadFields(a) + ClientFields(a.clients)
  {
    HeadFieldsClean(a);
    ClientFieldsClean(a.clients);
    hide Fields, Joined, ClientFields, HeadFields, Printable;
    var f, s := HeadFields(a) + ClientFields(a.clients), Printed(a)[|MSG_INFO|..];
    assert s[0..] == s == Joined(f);
    FieldsOfJoined(s, 0, f);
  }

  lemma ClientReads(a: Announcement, k: nat)
    requires Printable(a) && k < |a.clients|
    ensures var f, c := HeadFields(a) + ClientFields(a.clients), a.clients[k];
            && |f| >= Needed(k + 1)
            && ClientAt(f, Needed(k)) == Client(Kept(c.name, 16), Kept(c.clan, 16), c.score, c.ingame)
  {
    hide Signed, Decimal, ToInt, ClientFields;
    var f := HeadFields(a) + ClientFields(a.clients);
    assert PrintableClient(a.clients[k]);
    ClientFieldsAt(a.clients, k);
    var one := f[Needed(k)..Needed(k + 1)];
    assert one == OneClient(a.clients[k]);
    assert f[Needed(k)] == one[0] && f[Needed(k) + 1] == one[1] && f[Needed(k) + 3] == one[3];
    assert f[Needed(k) + 4] == one[4];
    SignedReads(a.clients[k].score);
    DecimalReads(0);
    DecimalReads(1);
  }

  /** What is printed is accepted and read back: the record has these strings, cut to their
      buffers, these counts and these clients, and nothing past them has changed. */
  lemma PrintedReads(a: Announcement, was: seq<Client>)
    requires Printable(a) && |was| == 16
    ensures var f := Fields(Printed(a)[|MSG_INFO|..], 0);
            && MSG_INFO <= Printed(a) && IsInfo(f)
            && var r := InfoOf(f, was);
               && r.name == Kept(a.name, 255) && r.map_ == Kept(a.map_, 63) && r.gametype == Kept(a.gametype, 7)
               && r.numClients == |a.clients| && r.maxClients == a.maxClients && |r.clients| == 16
               && forall k :: 0 <= k < 16 ==>
                    if k < |a.clients| then
                      var c := a.clients[k];
                      r.clients[k] == Client(Kept(c.name, 16), Kept(c.clan, 16), c.score, c.ingame)
                    else r.clients[k] == was[k]
  {
    hide Fields, Joined, ClientFields, Decimal, ToInt, ClientAt, Printed;
    FieldsOfPrinted(a);
    DecimalReads(|a.clients|);
    DecimalReads(a.maxClients);
    if a.clients != [] {
      ClientReads(a, |a.clients| - 1);
    }
    var f := HeadFields(a) + ClientFields(a.clients);
    assert InfoOf(f, was).clients == Filled(f, |a.clients|, was);
    forall k | 0 <= k < |a.clients|
      ensures var c := a.clients[k];
              InfoOf(f, was).clients[k] == Client(Kept(c.name, 16), Kept(c.clan, 16), c.score, c.ingame)
    {
      ClientReads(a, k);
    }
  }

  /** A server runs a ranked game when it announces one. */
  lemma PrintedRanked(a: Announcement, before: bool)
    requires Printable(a)
    ensures RankedAfter(Printed(a), before) <==>
      && a.gametype == [67, 84, 70]
      && |a.map_| == 4 && a.map_[..3] == [99, 116, 102] && 49 <= a.map_[3] <= 55
  {
    hide Fields, Printed, IsVanilla, InfoOf;
    var was := seq(16, _ => Client([], [], 0, false));
    PrintedReads(a, was);
    RankedByRecord(Printed(a), before, was);
    VanillaMeans(Kept(a.gametype, 7), Kept(a.map_, 63), a.maxClients);
  }
}
