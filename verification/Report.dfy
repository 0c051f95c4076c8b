/** What a server says about itself goes from the packet to the ranking. */
module Report {
  import opened Game
  import opened RankStore
  import opened Database
  import opened Vanilla
  import Unpacker

  /** The clients of a server. */
  method ClientsOf(sv: Unpacker.Server) returns (clients: Clients)
    requires sv.Valid() && 0 <= sv.numClients <= MAX_CLIENTS
    ensures clients == sv.clients[..sv.numClients]
  {
    clients := sv.clients[..sv.numClients];
  }

  /** Players are updated before they are ranked, so that new ones are known by then. */
  method RankReport(db: Database, before: Clients, sv: Unpacker.Server, seenBefore: int, seenAfter: int)
    returns (ghost ops: seq<Op>)
    requires db.Valid() && sv.Valid() && 0 <= sv.numClients <= MAX_CLIENTS
    modifies db, db.world
    ensures db.Valid() && db.log == old(db.log) + ops && |ops| == sv.numClients + 1 && db.world.Onward()
    ensures forall i :: 0 <= i < sv.numClients ==> ops[i].Seen? && ops[i].client == sv.clients[i]
    ensures forall i :: 0 <= i < sv.numClients ==> sv.clients[i].name in db.players
    ensures ops[sv.numClients].Ranked?
    ensures var m := ops[sv.numClients].match_;
            && m.before == before && m.after == sv.clients[..sv.numClients]
            && m.seenBefore == seenBefore && m.seenAfter == seenAfter
            && (m.vanilla <==> IsVanilla(sv.gametype, sv.map_, sv.maxClients))
  {
    hide Database.Valid, IsVanilla;
    var clients := ClientsOf(sv);
    ops := db.UpdatePlayers(clients);
    var vanilla := IsVanillaCtf(sv.gametype, sv.map_, sv.maxClients);
    var m := Match(before, clients, seenBefore, seenAfter, vanilla);
    db.RankPlayers(m);
    AppendOne(old(db.log), ops, Ranked(m));
    ops := ops + [Ranked(m)];
  }

  /** A packet that is not acceptable changes neither the record nor the tables.  Any
      other makes every announced client a known player, and ranks the match between the
      clients that were there and those that are.  What follows after an overrun is not
      part of the model. */
  method HandleReport(db: Database, sv: Unpacker.Server, packet: Unpacker.Packet, seenBefore: int)
    returns (r: Unpacker.Reading, seenAfter: int, ghost ops: seq<Op>)
    requires db.Valid() && sv.Valid() && 0 <= sv.numClients <= MAX_CLIENTS && packet.Valid()
    modifies db, db.world, sv, sv.clients, packet, packet.buffer
    ensures db.Valid() && db.log == old(db.log) + ops && db.world.Onward()
    ensures old(db.world.secs) <= seenAfter <= db.world.secs
    ensures r.Accepted? <==>
      && Unpacker.MSG_INFO <= old(packet.Contents())
      && Unpacker.IsInfo(Unpacker.Fields(old(packet.Contents())[|Unpacker.MSG_INFO|..], 0))
    ensures r.Overrun? <==>
      && Unpacker.MSG_INFO <= old(packet.Contents())
      && Unpacker.Overruns(Unpacker.Fields(old(packet.Contents())[|Unpacker.MSG_INFO|..], 0))
    ensures !r.Accepted? ==> ops == []
    ensures r.Refused? ==> sv.Snapshot() == old(sv.Snapshot())
    ensures r.Accepted? ==> 0 <= sv.numClients <= sv.maxClients <= MAX_CLIENTS && |ops| == sv.numClients + 1
    ensures r.Accepted? ==> forall i :: 0 <= i < sv.numClients ==>
      && ops[i].Seen? && ops[i].client == sv.clients[i] && sv.clients[i].name in db.players
    ensures r.Accepted? ==>
      && ops[sv.numClients].Ranked?
      && ops[sv.numClients].match_.before == old(sv.clients[..sv.numClients])
      && ops[sv.numClients].match_.after == sv.clients[..sv.numClients]
      && ops[sv.numClients].match_.seenBefore == seenBefore
      && ops[sv.numClients].match_.seenAfter == seenAfter
      && (ops[sv.numClients].match_.vanilla <==> IsVanilla(sv.gametype, sv.map_, sv.maxClients))
  {
    var before := ClientsOf(sv);
    seenAfter := db.world.Time();
    r := Unpacker.UnpackServerInfo(packet, sv);
    ops := [];
    if r.Accepted? {
      ops := RankReport(db, before, sv, seenBefore, seenAfter);
    }
  }
}
