/** The names of the servers that a master lists, and the bytes they stand for. */
module ServerList {
  import opened Basics
  import Text = Address
  import CString
  import Unpacker

  /** The names of the servers of a list, as they are printed. */
  ghost function Texts(list: seq<Unpacker.RawAddr>): set<(Name, Name)> {
    if list == [] then {} else {TextOf(list[0])} + Texts(list[1..])
  }

  function TextOf(raw: Unpacker.RawAddr): (Name, Name) {
    if |raw.ip| == 16 then (Text.IpText(raw), CString.Decimal(raw.port)) else ([], [])
  }

  /** The bytes of the record number "k" of a list. */
  function RecordAt(packet: seq<byte>, k: nat): (r: seq<byte>)
    requires 8 + 18 * (k + 1) <= |packet|
    ensures |r| == 18
  {
    packet[8 + 18 * k..8 + 18 * (k + 1)]
  }

  ghost predicate IsList(packet: seq<byte>) {
    |packet| >= 8 && packet[..8] == [255, 255, 255, 255, 108, 105, 115, 50]
  }

  /** A name that says what some record of a list does. */
  ghost predicate IsAnnounced(packet: seq<byte>, name: (Name, Name)) {
    && IsList(packet)
    && exists k: nat :: 8 + 18 * (k + 1) <= |packet| && Text.Denotes(RecordAt(packet, k), name.0, name.1)
  }

  /** For every record of a list there is a name that says what it does. */
  ghost predicate AllAnnounced(packet: seq<byte>, names: set<(Name, Name)>) {
    IsList(packet) ==>
      forall k: nat :: 8 + 18 * (k + 1) <= |packet| ==> HasName(RecordAt(packet, k), names)
  }

  ghost predicate HasName(record: seq<byte>, names: set<(Name, Name)>)
    requires |record| == 18
  {
    exists name :: name in names && Text.Denotes(record, name.0, name.1)
  }

  lemma {:induction false} TextsAre(list: seq<Unpacker.RawAddr>)
    ensures forall k :: 0 <= k < |list| ==> TextOf(list[k]) in Texts(list)
    ensures forall name :: name in Texts(list) ==> exists k :: 0 <= k < |list| && TextOf(list[k]) == name
  {
    hide TextOf;
    if list != [] {
      TextsAre(list[1..]);
      forall name | name in Texts(list)
        ensures exists k :: 0 <= k < |list| && TextOf(list[k]) == name
      {
        if name in Texts(list[1..]) {
          var k :| 0 <= k < |list[1..]| && TextOf(list[1..][k]) == name;
          assert TextOf(list[k + 1]) == name;
        } else {
          assert TextOf(list[0]) == name;
        }
      }
      forall k | 0 <= k < |list|
        ensures TextOf(list[k]) in Texts(list)
      {
        assert k > 0 ==> list[k] == list[1..][k - 1];
      }
    }
  }

  lemma RecordText(packet: seq<byte>, k: nat)
    requires IsList(packet) && 8 + 18 * (k + 1) <= |packet|
    ensures k < |Unpacker.ListOf(packet)|
    ensures var name := TextOf(Unpacker.ListOf(packet)[k]); Text.Denotes(RecordAt(packet, k), name.0, name.1)
  {
    hide Text.Denotes, Text.IpText, CString.Decimal, Unpacker.Records;
    var rest := packet[8..];
    Unpacker.RecordsAt(rest);
    assert Unpacker.RawAt(rest, 18 * k) == Unpacker.RawAt(RecordAt(packet, k), 0);
    Text.RecordDenotes(RecordAt(packet, k));
  }

  /** The names printed for a list are those of its records, and no others. */
  lemma ListAnnounces(packet: seq<byte>)
    ensures AllAnnounced(packet, Texts(Unpacker.ListOf(packet)))
    ensures forall name :: name in Texts(Unpacker.ListOf(packet)) ==> IsAnnounced(packet, name)
  {
    hide Text.Denotes, Texts, TextOf, RecordAt;
    var list := Unpacker.ListOf(packet);
    TextsAre(list);
    if IsList(packet) {
      forall k: nat | 8 + 18 * (k + 1) <= |packet|
        ensures HasName(RecordAt(packet, k), Texts(list))
      {
        RecordText(packet, k);
      }
    }
    forall name | name in Texts(list)
      ensures IsAnnounced(packet, name)
    {
      var k :| 0 <= k < |list| && TextOf(list[k]) == name;
      Listed(packet, k);
      RecordText(packet, k);
    }
  }

  lemma MoreNames(packet: seq<byte>, names: set<(Name, Name)>, more: set<(Name, Name)>)
    requires AllAnnounced(packet, names) && names <= more
    ensures AllAnnounced(packet, more)
  {
    if IsList(packet) {
      forall k: nat | 8 + 18 * (k + 1) <= |packet|
        ensures HasName(RecordAt(packet, k), more)
      {
        assert HasName(RecordAt(packet, k), names);
      }
    }
  }

  lemma Listed(packet: seq<byte>, k: nat)
    requires k < |Unpacker.ListOf(packet)|
    ensures IsList(packet) && 8 + 18 * (k + 1) <= |packet|
  {
    Unpacker.RecordsAt(packet[8..]);
  }
}
