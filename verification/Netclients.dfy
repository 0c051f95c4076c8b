/** The static array of clients and its free list. */
module Netclients {
  import opened Basics
  import opened World
  import opened PoolModel
  import opened EntryList

  const MAX_NETCLIENTS: nat := 4096

  datatype Kind = ServerKind | MasterKind

  /** What the updater keeps about a client besides its pool entry and its job. */
  datatype Info = Info(kind: Kind, node: Name, service: Name, ranked: bool, lastseen: int, expire: int)

  const NO_INFO := Info(ServerKind, [], [], false, 0, 0)

  ghost function AllSlots(): seq<int> {
    seq(MAX_NETCLIENTS, i => i)
  }

  lemma {:induction false} IncreasingIsDistinct(s: seq<int>)
    requires forall i, j :: 0 <= i < j < |s| ==> s[i] < s[j]
    ensures Distinct(s)
  {
    if s != [] {
      IncreasingIsDistinct(s[1..]);
    }
  }

  class Netclients {
    const next: array<int>
    const info: array<Info>
    const addr: array<Address>
    var nextfree: int
    var initialized: bool
    ghost var free: seq<int>

    ghost predicate Valid()
      reads this, next
    {
      && next.Length == info.Length == addr.Length == MAX_NETCLIENTS
      && InArray(free, MAX_NETCLIENTS) && Distinct(free)
      && if initialized then
           && nextfree == At(free, 0)
           && forall k {:trigger next[free[k]]} :: 0 <= k < |free| ==> next[free[k]] == At(free, k + 1)
         else
           free == AllSlots() && next[MAX_NETCLIENTS - 1] == NULL
    }

    constructor ()
      ensures Valid() && !initialized && free == AllSlots() && |free| == 4096
      ensures fresh(next) && fresh(info) && fresh(addr)
    {
      next := new int[MAX_NETCLIENTS](_ => NULL);
      info := new Info[MAX_NETCLIENTS](_ => NO_INFO);
      addr := new Address[MAX_NETCLIENTS](_ => Inet([], 0));
      nextfree, initialized, free := NULL, false, AllSlots();
      IncreasingIsDistinct(AllSlots());
    }

    /** Before the free list is built, every slot is free. */
    lemma FreeAtFirst(c: int)
      requires Valid() && !initialized && 0 <= c < MAX_NETCLIENTS
      ensures c in free
    {
      assert AllSlots()[c] == c;
    }

    lemma AllFree()
      requires Valid() && !initialized
      ensures forall c :: 0 <= c < MAX_NETCLIENTS ==> c in free
    {
      forall c | 0 <= c < MAX_NETCLIENTS
        ensures c in free
      {
        FreeAtFirst(c);
      }
    }

    /** Some slot is in use only once the free list is built. */
    lemma NotFree(c: int)
      requires Valid() && 0 <= c < MAX_NETCLIENTS && c !in free
      ensures initialized
    {
      if !initialized {
        FreeAtFirst(c);
      }
    }

    lemma FreeDiffer()
      requires Valid()
      ensures InArray(free, MAX_NETCLIENTS) && Distinct(free)
    {
    }

    /** Builds the free list, the first time. */
    method Init()
      requires Valid()
      modifies this, next
      ensures Valid() && initialized && free == old(free)
    {
      if initialized {
        return;
      }
      var i := 0;
      while i < MAX_NETCLIENTS - 1
        invariant 0 <= i <= MAX_NETCLIENTS - 1
        invariant forall k :: 0 <= k < i ==> next[k] == k + 1
        invariant next[MAX_NETCLIENTS - 1] == NULL && free == old(free) == AllSlots()
        modifies next
      {
        next[i] := i + 1;
        i := i + 1;
      }
      nextfree := 0;
      initialized := true;
    }

    method NewNetclient() returns (c: int)
      requires Valid()
      modifies this, next, info, addr
      ensures Valid() && initialized
      ensures if old(free) == [] then c == NULL && free == [] else old(free) == [c] + free
      ensures forall x :: 0 <= x < info.Length && x != c ==> info[x] == old(info[x]) && addr[x] == old(addr[x])
    {
      Init();
      if nextfree == NULL {
        return NULL;
      }
      c := nextfree;
      assert free[0] == c;
      nextfree := next[nextfree];
      next[c] := NULL;
      info[c] := NO_INFO;
      addr[c] := Inet([], 0);
      Apart(free, 0);
      free := free[1..];
      assert forall k :: 0 <= k < |free| ==> free[k] == old(free)[k + 1];
    }

    method RemoveNetclient(c: int)
      requires Valid() && initialized && c !in free && 0 <= c < MAX_NETCLIENTS
      modifies this, next
      ensures Valid() && initialized && free == [c] + old(free)
    {
      next[c] := nextfree;
      nextfree := c;
      free := [c] + free;
      assert free[1..] == old(free);
    }

    /** A slot for a server or a master.  None is taken when no slot is free or when the
        lookup of its node and service has no answer. */
    method AddNetclient(world: World, client: Info) returns (c: int, ghost answer: Option<Address>)
      requires Valid()
      modifies this, world`ticks, world`secs, world`lookups, next, info, addr
      ensures Valid() && initialized && world.Quiet()
      ensures world.lookups ==
              old(world.lookups) + (if old(free) == [] then [] else [Lookup(client.node, client.service, answer)])
      ensures c == NULL <==> old(free) == [] || answer.None?
      ensures if c == NULL then free == old(free)
              else old(free) == [c] + free && info[c] == client && addr[c] == answer.value
      ensures forall x :: 0 <= x < info.Length && x !in old(free) ==>
                info[x] == old(info[x]) && addr[x] == old(addr[x])
    {
      c := NewNetclient();
      answer := None;
      if c == NULL {
        return;
      }
      info[c] := client.(kind := ServerKind);
      var found := world.Resolve(client.node, client.service);
      answer := found;
      if found.None? {
        RemoveNetclient(c);
        assert old(free) == [c] + old(free)[1..];
        c := NULL;
        return;
      }
      addr[c] := found.value;
      info[c] := client;
    }
  }
}
