/** Everything the updater reads from its surroundings: the two clocks, the sockets
    and the random numbers.  Each call may return anything its contract allows. */
module World {
  import opened Basics
  import opened Truncation

  type Packet = seq<byte>

  /** What the updater asks of a server or a master. */
  datatype Request = GetInfo | GetList

  /** A name lookup and its answer. */
  datatype Lookup = Lookup(node: Name, service: Name, answer: Option<Address>)

  /** A socket address; two are the same when family, host and port agree. */
  datatype Address = Inet(host: seq<byte>, port: nat) | Inet6(host: seq<byte>, port: nat)

  class World {
    var ticks: int            // the clock of times()
    var secs: int             // the clock of time()
    var packetsLeft: nat      // how many packets will still arrive in this run
    const ticksPerSecond: Positive
    ghost var sent: seq<(Address, Request)>        // every attempt to send
    ghost var received: seq<(Packet, Address)>     // every packet, with its sender
    ghost var lookups: seq<Lookup>

    constructor (ticksPerSecond: Positive, secs: int, packetsLeft: nat)
      requires 0 < secs
      ensures this.ticksPerSecond == ticksPerSecond && this.secs == secs && this.packetsLeft == packetsLeft
    {
      this.ticksPerSecond, this.secs, this.packetsLeft := ticksPerSecond, secs, packetsLeft;
      ticks, sent, received, lookups := 0, [], [], [];
    }

    /** Time does not run backwards and packets are not made up. */
    twostate predicate Onward()
      reads this
    {
      old(ticks) <= ticks && old(secs) <= secs && packetsLeft <= old(packetsLeft)
    }

    /** Time may have passed, but no packet was received. */
    twostate predicate Alone()
      reads this
    {
      Onward() && packetsLeft == old(packetsLeft) && received == old(received)
    }

    /** No packet was sent either. */
    twostate predicate Quiet()
      reads this
    {
      Alone() && sent == old(sent)
    }

    method Pass()
      modifies this`ticks, this`secs
      ensures Quiet()
    {
      var dt: nat, ds: nat := *, *;
      ticks, secs := ticks + dt, secs + ds;
    }

    method Times() returns (now: int)
      modifies this`ticks, this`secs
      ensures Quiet() && now == ticks
    {
      Pass();
      now := ticks;
    }

    method Time() returns (now: int)
      modifies this`ticks, this`secs
      ensures Quiet() && now == secs
    {
      Pass();
      now := secs;
    }

    method Send(to: Address, request: Request) returns (ok: bool)
      modifies this`ticks, this`secs, this`sent
      ensures Alone() && sent == old(sent) + [(to, request)]
    {
      Pass();
      sent := sent + [(to, request)];
      ok := *;
    }

    /** Waits for a packet.  Either one came, be it one too small to be of use, or the
        tick counter moved on meanwhile. */
    method Receive() returns (r: Option<(Packet, Address)>)
      modifies this`ticks, this`secs, this`packetsLeft, this`received
      ensures Onward() && sent == old(sent)
      ensures old(ticks) < ticks || packetsLeft < old(packetsLeft)
      ensures r.Some? ==> packetsLeft < old(packetsLeft)
      ensures received == old(received) + (if r.Some? then [r.value] else [])
    {
      Pass();
      r := None;
      var arrived: bool := *;
      if !arrived || packetsLeft == 0 {
        ticks := ticks + 1;
        return;
      }
      packetsLeft := packetsLeft - 1;
      var tooSmall: bool := *;
      if !tooSmall {
        var packet: Packet, from: Address := *, *;
        r := Some((packet, from));
        received := received + [(packet, from)];
      }
    }

    /** The address of a host and service, if they have one. */
    method Resolve(node: Name, service: Name) returns (r: Option<Address>)
      modifies this`ticks, this`secs, this`lookups
      ensures Quiet() && lookups == old(lookups) + [Lookup(node, service, r)]
    {
      Pass();
      r := *;
      lookups := lookups + [Lookup(node, service, r)];
    }

    /** A number in [0, 1]: rand() over RAND_MAX. */
    method Random() returns (r: real)
      ensures 0.0 <= r <= 1.0
    {
      r := *;
      if r < 0.0 || 1.0 < r {
        r := 0.0;
      }
    }
  }
}
