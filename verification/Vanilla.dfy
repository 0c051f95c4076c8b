/** Which servers run a ranked game. */
module Vanilla {
  import opened Basics
  import opened Game
  import Unpacker

  const CTF: Name := [67, 84, 70]
  const CTF_MAP: Name := [99, 116, 102]
  const LAST_MAP := 7

  /** The maps "ctf1" to "ctf7". */
  function MapName(i: nat): Name
    requires 1 <= i <= LAST_MAP
  {
    CTF_MAP + [(48 + i) as byte]
  }

  predicate IsVanilla(gametype: Name, map_: Name, maxClients: int) {
    gametype == CTF && maxClients <= MAX_CLIENTS && exists i :: 1 <= i <= LAST_MAP && map_ == MapName(i)
  }

  method IsVanillaCtf(gametype: Name, map_: Name, maxClients: int) returns (vanilla: bool)
    ensures vanilla <==> IsVanilla(gametype, map_, maxClients)
  {
    if gametype != CTF || maxClients > MAX_CLIENTS {
      return false;
    }
    for i := 1 to LAST_MAP + 1
      invariant forall j :: 1 <= j < i ==> map_ != MapName(j)
    {
      if map_ == MapName(i) {
        return true;
      }
    }
    return false;
  }

  /** Whether a server runs a ranked game once a packet is read: the packet says so when it
      is acceptable, and otherwise nothing has changed. */
  function RankedAfter(packet: seq<byte>, before: bool): bool {
    if Unpacker.MSG_INFO <= packet && Unpacker.IsInfo(Unpacker.Fields(packet[|Unpacker.MSG_INFO|..], 0)) then
      var f := Unpacker.Fields(packet[|Unpacker.MSG_INFO|..], 0);
      IsVanilla(Unpacker.Cut(f[4], Unpacker.GAMETYPE_STRSIZE), Unpacker.Cut(f[3], Unpacker.MAP_STRSIZE),
                Unpacker.ToInt(f[9]))
    else before
  }

  /** The type is "CTF", the map one of "ctf1" to "ctf7", and there are sixteen places at
      most. */
  lemma VanillaMeans(gametype: Name, map_: Name, maxClients: int)
    ensures IsVanilla(gametype, map_, maxClients) <==>
      && gametype == [67, 84, 70] && maxClients <= 16
      && |map_| == 4 && map_[..3] == [99, 116, 102] && 49 <= map_[3] <= 55
  {
    if |map_| == 4 && map_[..3] == [99, 116, 102] && 49 <= map_[3] <= 55 {
      assert map_ == MapName(map_[3] as int - 48);
    }
  }

  /** Whether a server runs a ranked game is what its record says once the packet has been
      read into it, or what it was when the packet is not accepted. */
  lemma RankedByRecord(packet: seq<byte>, before: bool, was: seq<Client>)
    requires |was| == MAX_CLIENTS
    ensures var accepted := Unpacker.MSG_INFO <= packet
                         && Unpacker.IsInfo(Unpacker.Fields(packet[|Unpacker.MSG_INFO|..], 0));
            if accepted then
              var record := Unpacker.InfoOf(Unpacker.Fields(packet[|Unpacker.MSG_INFO|..], 0), was);
              RankedAfter(packet, before) <==> IsVanilla(record.gametype, record.map_, record.maxClients)
            else RankedAfter(packet, before) == before
  {
  }
}
