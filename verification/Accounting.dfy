/** Over every sequential run of the backend its pools and its containers agree on who holds what
    (linux_backend/linux_backend.go, resource_pool/resource_pool.go, linux_container/linux_container.go). */
module Accounting {
  import opened Collections
  import opened IPUtil
  import opened Subnets
  import SubnetPool
  import PortPool
  import BridgeMgr
  import opened ResourcePool
  import opened Rollback

  // ----- networks

  /** Networks acquired are those of live containers and the lost ones; no two of these are the same. */
  ghost predicate NetsOk(dynamic: CIDR, alloc: Allocation, nets: map<string, Network>, lost: set<Network>)
  {
    && SubnetPool.Inv(dynamic, alloc)
    && (forall h | h in nets :: SubnetPool.Holds(alloc, nets[h]) && nets[h] !in lost)
    && (forall h, k | h in nets && k in nets && h != k :: nets[h] != nets[k])
    && (forall n | n in lost :: SubnetPool.Holds(alloc, n))
    && (forall n :: SubnetPool.Holds(alloc, n) ==> n in lost || exists h :: h in nets && nets[h] == n)
  }

  lemma NetAcquired(
    dynamic: CIDR, alloc: Allocation, nets: map<string, Network>, lost: set<Network>, h: string, net: Network)
    requires NetsOk(dynamic, alloc, nets, lost) && h !in nets && !SubnetPool.Holds(alloc, net)
    requires SubnetPool.Inv(dynamic, SubnetPool.Add(alloc, net))
    ensures NetsOk(dynamic, SubnetPool.Add(alloc, net), nets[h := net], lost)
  {
    hide SubnetPool.Inv, SubnetPool.Add, SubnetPool.Holds, Canonical;
    var alloc', nets' := SubnetPool.Add(alloc, net), nets[h := net];
    forall n
      ensures SubnetPool.Holds(alloc', n) <==> SubnetPool.Holds(alloc, n) || n == net
    {
      SubnetPool.AddHolds(alloc, net, n);
    }
    forall n | SubnetPool.Holds(alloc', n)
      ensures n in lost || exists k :: k in nets' && nets'[k] == n
    {
      if n == net {
        assert h in nets' && nets'[h] == n;
      } else if n !in lost {
        var k :| k in nets && nets[k] == n;
        assert k in nets' && nets'[k] == n;
      }
    }
  }

  lemma NetReleased(dynamic: CIDR, alloc: Allocation, nets: map<string, Network>, lost: set<Network>, h: string)
    requires NetsOk(dynamic, alloc, nets, lost) && h in nets
    ensures NetsOk(dynamic, SubnetPool.Drop(alloc, nets[h]), nets - {h}, lost)
  {
    hide SubnetPool.Inv, SubnetPool.Drop, SubnetPool.Holds, Canonical;
    var net, alloc' := nets[h], SubnetPool.Drop(alloc, nets[h]);
    SubnetPool.DropKeepsInv(dynamic, alloc, net);
    forall n
      ensures SubnetPool.Holds(alloc', n) <==> SubnetPool.Holds(alloc, n) && n != net
    {
      SubnetPool.DropHolds(dynamic, alloc, net, n);
    }
    forall n | SubnetPool.Holds(alloc', n)
      ensures n in lost || exists k :: k in nets - {h} && (nets - {h})[k] == n
    {
      if n !in lost {
        var k :| k in nets && nets[k] == n;
        assert k in nets - {h} && (nets - {h})[k] == n;
      }
    }
  }

  lemma NetLost(dynamic: CIDR, alloc: Allocation, nets: map<string, Network>, lost: set<Network>, h: string)
    requires NetsOk(dynamic, alloc, nets, lost) && h in nets
    ensures NetsOk(dynamic, alloc, nets - {h}, lost + {nets[h]})
  {
    hide SubnetPool.Inv, SubnetPool.Holds, Canonical;
    forall n | SubnetPool.Holds(alloc, n)
      ensures n in lost + {nets[h]} || exists k :: k in nets - {h} && (nets - {h})[k] == n
    {
      if n !in lost + {nets[h]} {
        var k :| k in nets && nets[k] == n;
        assert k in nets - {h} && (nets - {h})[k] == n;
      }
    }
  }

  // ----- ports

  /** Ports of the range that are not free are those of live containers and the lost ones, each once. */
  ghost predicate PortsOk(start: Port, size: Port, free: seq<Port>, held: map<string, seq<Port>>, lost: set<Port>)
  {
    && PortPool.Inv(start, size, free)
    && (forall h | h in held :: NoDup(held[h]))
    && (forall h, p | h in held && p in held[h] :: PortPool.InRange(start, size, p) && p !in free && p !in lost)
    && (forall h, k, p | h in held && k in held && h != k && p in held[h] :: p !in held[k])
    && (forall p | p in lost :: PortPool.InRange(start, size, p) && p !in free)
    && (forall p | PortPool.InRange(start, size, p) && p !in free ::
          p in lost || exists h :: h in held && p in held[h])
  }

  lemma PortsNone(start: Port, size: Port, free: seq<Port>, held: map<string, seq<Port>>, lost: set<Port>, h: string)
    requires PortsOk(start, size, free, held, lost) && h !in held
    ensures PortsOk(start, size, free, held[h := []], lost)
  {
    hide PortPool.Inv, PortPool.InRange;
    var held' := held[h := []];
    forall p | PortPool.InRange(start, size, p) && p !in free && p !in lost
      ensures exists k :: k in held' && p in held'[k]
    {
      var k :| k in held && p in held[k];
      assert k in held' && p in held'[k];
    }
  }

  lemma PortTaken(start: Port, size: Port, free: seq<Port>, held: map<string, seq<Port>>, lost: set<Port>, h: string)
    requires PortsOk(start, size, free, held, lost) && h in held && free != []
    ensures PortsOk(start, size, free[1..], held[h := held[h] + [free[0]]], lost)
  {
    var held', free' := held[h := held[h] + [free[0]]], free[1..];
    PortPool.AfterFree(start, size, free, PortPool.Acquire);
    assert free[0] in free && free' == PortPool.After(start, size, free, PortPool.Acquire);
    NoDupAppend(held[h], free[0]);
    hide PortPool.Inv, NoDup, PortPool.InRange;
    assert forall p :: p in free' <==> p in free && p != free[0] by {
      assert forall p :: p in free' <==> p in Elems(free');
    }
    forall p | PortPool.InRange(start, size, p) && p !in free' && p !in lost
      ensures exists k :: k in held' && p in held'[k]
    {
      if p == free[0] {
        assert h in held' && p in held'[h];
      } else {
        var k :| k in held && p in held[k];
        assert k in held' && p in held'[k];
      }
    }
  }

  lemma PortsReleased(
    start: Port, size: Port, free: seq<Port>, held: map<string, seq<Port>>, lost: set<Port>, h: string)
    requires PortsOk(start, size, free, held, lost) && h in held
    ensures PortsOk(start, size, ReleasePorts(start, size, free, held[h]), held - {h}, lost)
  {
    hide PortPool.Inv, ReleasePorts, NoDup, PortPool.InRange;
    var held', free' := held - {h}, ReleasePorts(start, size, free, held[h]);
    ReleasePortsElems(start, size, free, held[h]);
    forall p | PortPool.InRange(start, size, p) && p !in free' && p !in lost
      ensures exists k :: k in held' && p in held'[k]
    {
      var k :| k in held && p in held[k];
      assert k in held' && p in held'[k];
    }
  }

  lemma PortsLost(start: Port, size: Port, free: seq<Port>, held: map<string, seq<Port>>, lost: set<Port>, h: string)
    requires PortsOk(start, size, free, held, lost) && h in held
    ensures PortsOk(start, size, free, held - {h}, lost + Elems(held[h]))
  {
    hide PortPool.Inv, NoDup, PortPool.InRange;
    var held' := held - {h};
    forall p | PortPool.InRange(start, size, p) && p !in free && p !in lost + Elems(held[h])
      ensures exists k :: k in held' && p in held'[k]
    {
      var k :| k in held && p in held[k];
      assert k in held' && p in held'[k];
    }
  }

  lemma PortsRestored(
    start: Port, size: Port, free: seq<Port>, held: map<string, seq<Port>>, lost: set<Port>, h: string,
    ports: seq<Port>)
    requires PortsOk(start, size, free, held, lost) && h !in held && TakePorts(free, ports).1
    ensures PortsOk(start, size, TakePorts(free, ports).0, held[h := ports], lost)
  {
    hide TakePorts, PortPool.InRange, NoDup;
    var held', free' := held[h := ports], TakePorts(free, ports).0;
    TakePortsElems(free, ports);
    assert forall p :: p in free' <==> p in Elems(free');
    assert forall p :: p in free' <==> p in free && p !in ports;
    assert forall p | p in ports :: p in Elems(ports);
    forall p | PortPool.InRange(start, size, p) && p !in free' && p !in lost
      ensures exists k :: k in held' && p in held'[k]
    {
      if p in ports {
        assert h in held' && p in held'[h];
      } else {
        var k :| k in held && p in held[k];
        assert k in held' && p in held'[k];
      }
    }
  }

  lemma PortsSameFree(
    start: Port, size: Port, free: seq<Port>, free': seq<Port>, held: map<string, seq<Port>>, lost: set<Port>)
    requires PortsOk(start, size, free, held, lost) && PortPool.Inv(start, size, free')
    requires (forall p :: p in free' <==> p in free)
    ensures PortsOk(start, size, free', held, lost)
  {
    hide PortPool.InRange, PortPool.Inv, NoDup;
  }

  // ----- bridges

  /** A container's reservation of its bridge. */
  datatype Link = Link(id: string, bridge: string, subnet: CIDR)

  function Reservation(l: Link): (r: (string, string))
  {
    (l.bridge, l.id)
  }

  /** How often container id is listed as an owner of bridge b. */
  function Owned(maps: BridgeMgr.Maps, b: string, id: string): (n: nat)
  {
    multiset(BridgeMgr.OwnersOf(maps, b))[id]
  }

  ghost predicate HasLink(links: map<string, Link>, b: string, id: string)
  {
    exists h :: h in links && Reservation(links[h]) == (b, id)
  }

  ghost predicate DistinctIds(links: map<string, Link>)
  {
    forall h, k | h in links && k in links && h != k :: links[h].id != links[k].id
  }

  predicate OnBridge(maps: BridgeMgr.Maps, b: string, subnet: CIDR)
  {
    b in maps.bridgeSubnet && maps.bridgeSubnet[b] == subnet
  }

  predicate LinksOnBridges(maps: BridgeMgr.Maps, links: map<string, Link>)
  {
    forall h | h in links :: OnBridge(maps, links[h].bridge, links[h].subnet)
  }

  /** Owner lists are the reservations of live containers and the lost ones. */
  ghost predicate OwnersExact(maps: BridgeMgr.Maps, links: map<string, Link>, lost: multiset<(string, string)>)
  {
    forall b, id :: Owned(maps, b, id) == (if HasLink(links, b, id) then 1 else 0) + lost[(b, id)]
  }

  ghost predicate BridgesOk(maps: BridgeMgr.Maps, links: map<string, Link>, lost: multiset<(string, string)>)
  {
    BridgeMgr.Inv(maps) && DistinctIds(links) && LinksOnBridges(maps, links) && OwnersExact(maps, links, lost)
  }

  lemma OwnedReserved(maps: BridgeMgr.Maps, subnet: CIDR, id: string, name: string, b: string, i: string)
    ensures Owned(BridgeMgr.Reserved(maps, subnet, id, name), b, i) ==
      Owned(maps, b, i) + if (b, i) == (BridgeMgr.BridgeFor(maps, subnet, name), id) then 1 else 0
  {
    hide Canonical, BridgeMgr.Reserved, BridgeMgr.BridgeFor, BridgeMgr.OwnersOf;
    BridgeMgr.OwnersReserved(maps, subnet, id, name, b);
  }

  lemma OwnedRereserved(maps: BridgeMgr.Maps, c: string, subnet: CIDR, id: string, b: string, i: string)
    requires BridgeMgr.RereserveError(maps, c, subnet).None?
    ensures Owned(BridgeMgr.Rereserved(maps, c, subnet, id), b, i) ==
      Owned(maps, b, i) + if (b, i) == (c, id) then 1 else 0
  {
    hide Canonical, BridgeMgr.Rereserved, BridgeMgr.RereserveError, BridgeMgr.OwnersOf;
    BridgeMgr.OwnersRereserved(maps, c, subnet, id, b);
  }

  lemma OwnedReleased(maps: BridgeMgr.Maps, c: string, id: string, b: string, i: string)
    ensures Owned(BridgeMgr.Released(maps, c, id), b, i) ==
      if (b, i) == (c, id) && Owned(maps, b, i) > 0 then Owned(maps, b, i) - 1 else Owned(maps, b, i)
  {
    hide Canonical, BridgeMgr.Released, BridgeMgr.OwnersOf, BridgeMgr.WithoutFirst;
    BridgeMgr.OwnersReleased(maps, c, id, b);
    BridgeMgr.WithoutFirstMultiset(BridgeMgr.OwnersOf(maps, c), id);
  }

  /** A reservation just made belongs to nobody yet. */
  lemma BridgeReserved(
    maps: BridgeMgr.Maps, links: map<string, Link>, lost: multiset<(string, string)>,
    subnet: CIDR, id: string, name: string)
    requires BridgesOk(maps, links, lost) && (subnet in maps.subnetBridge || !BridgeMgr.IsReserved(maps, name))
    ensures var b, maps' := BridgeMgr.BridgeFor(maps, subnet, name), BridgeMgr.Reserved(maps, subnet, id, name);
      BridgesOk(maps', links, lost + multiset{(b, id)}) && OnBridge(maps', b, subnet)
  {
    hide BridgeMgr.Inv, BridgeMgr.Reserved, BridgeMgr.BridgeFor, OnBridge, LinksOnBridges, OwnersExact, DistinctIds;
    BridgeMgr.ReserveKeepsInvIff(maps, subnet, id, name);
    var b, maps' := BridgeMgr.BridgeFor(maps, subnet, name), BridgeMgr.Reserved(maps, subnet, id, name);
    forall c, n
      ensures OnBridge(maps, c, n) ==> OnBridge(maps', c, n)
      ensures OnBridge(maps', b, subnet)
    {
      ReservedBridges(maps, subnet, id, name, c, n);
    }
    LinksStay(maps, maps', links);
    forall c, i
      ensures Owned(maps', c, i) == Owned(maps, c, i) + if (c, i) == (b, id) then 1 else 0
    {
      OwnedReserved(maps, subnet, id, name, c, i);
    }
    OneMoreOwner(maps, maps', links, lost, b, id);
  }

  lemma ReservedBridges(maps: BridgeMgr.Maps, subnet: CIDR, id: string, name: string, c: string, n: CIDR)
    requires BridgeMgr.Inv(maps) && (subnet in maps.subnetBridge || !BridgeMgr.IsReserved(maps, name))
    ensures var b, maps' := BridgeMgr.BridgeFor(maps, subnet, name), BridgeMgr.Reserved(maps, subnet, id, name);
      OnBridge(maps', b, subnet) && (OnBridge(maps, c, n) ==> OnBridge(maps', c, n))
  {
    hide Canonical;
  }

  lemma BridgeRereserved(
    maps: BridgeMgr.Maps, links: map<string, Link>, lost: multiset<(string, string)>,
    b: string, subnet: CIDR, id: string)
    requires BridgesOk(maps, links, lost) && BridgeMgr.RereserveError(maps, b, subnet).None?
    requires subnet in maps.subnetBridge ==> maps.subnetBridge[subnet] == b
    ensures var maps' := BridgeMgr.Rereserved(maps, b, subnet, id);
      BridgesOk(maps', links, lost + multiset{(b, id)}) && OnBridge(maps', b, subnet)
  {
    hide BridgeMgr.Inv, BridgeMgr.Rereserved, BridgeMgr.RereserveError;
    hide OnBridge, LinksOnBridges, OwnersExact, DistinctIds;
    BridgeMgr.RereserveKeepsInvIff(maps, b, subnet, id);
    var maps' := BridgeMgr.Rereserved(maps, b, subnet, id);
    forall c, n
      ensures OnBridge(maps, c, n) ==> OnBridge(maps', c, n)
      ensures OnBridge(maps', b, subnet)
    {
      RereservedBridges(maps, b, subnet, id, c, n);
    }
    LinksStay(maps, maps', links);
    forall c, i
      ensures Owned(maps', c, i) == Owned(maps, c, i) + if (c, i) == (b, id) then 1 else 0
    {
      OwnedRereserved(maps, b, subnet, id, c, i);
    }
    OneMoreOwner(maps, maps', links, lost, b, id);
  }

  lemma RereservedBridges(maps: BridgeMgr.Maps, b: string, subnet: CIDR, id: string, c: string, n: CIDR)
    requires BridgeMgr.RereserveError(maps, b, subnet).None?
    ensures var maps' := BridgeMgr.Rereserved(maps, b, subnet, id);
      OnBridge(maps', b, subnet) && (OnBridge(maps, c, n) ==> OnBridge(maps', c, n))
  {
    hide Canonical;
  }

  lemma LinksStay(maps: BridgeMgr.Maps, maps': BridgeMgr.Maps, links: map<string, Link>)
    requires LinksOnBridges(maps, links) && forall c, n :: OnBridge(maps, c, n) ==> OnBridge(maps', c, n)
    ensures LinksOnBridges(maps', links)
  {
    hide OnBridge;
  }

  lemma OneMoreOwner(
    maps: BridgeMgr.Maps, maps': BridgeMgr.Maps, links: map<string, Link>, lost: multiset<(string, string)>,
    b: string, id: string)
    requires OwnersExact(maps, links, lost)
    requires forall c, i :: Owned(maps', c, i) == Owned(maps, c, i) + if (c, i) == (b, id) then 1 else 0
    ensures OwnersExact(maps', links, lost + multiset{(b, id)})
  {
    hide Owned, HasLink;
  }

  /** Releasing what no live container holds takes away a lost reservation, if there is one. */
  lemma BridgeReleased(
    maps: BridgeMgr.Maps, links: map<string, Link>, lost: multiset<(string, string)>, b: string, id: string)
    requires BridgesOk(maps, links, lost) && forall h | h in links :: links[h].id != id
    ensures BridgesOk(BridgeMgr.Released(maps, b, id), links, lost - multiset{(b, id)})
  {
    hide BridgeMgr.Inv, BridgeMgr.Released, Owned, Canonical;
    var maps', lost' := BridgeMgr.Released(maps, b, id), lost - multiset{(b, id)};
    BridgeMgr.ReleaseKeepsInv(maps, b, id);
    forall c, i
      ensures Owned(maps', c, i) == (if HasLink(links, c, i) then 1 else 0) + lost'[(c, i)]
    {
      OwnedReleased(maps, b, id, c, i);
    }
    forall h | h in links
      ensures OnBridge(maps', links[h].bridge, links[h].subnet)
    {
      var l := links[h];
      assert HasLink(links, l.bridge, l.id);
      OtherOwnerKeepsBridge(maps, b, id, l.bridge, l.id);
    }
  }

  lemma OtherOwnerKeepsBridge(maps: BridgeMgr.Maps, b: string, id: string, c: string, i: string)
    requires c in maps.bridgeSubnet && Owned(maps, c, i) > 0 && i != id
    ensures var maps' := BridgeMgr.Released(maps, b, id);
      c in maps'.bridgeSubnet && maps'.bridgeSubnet[c] == maps.bridgeSubnet[c]
  {
    hide Canonical, BridgeMgr.WithoutFirst;
    if b == c {
      BridgeMgr.WithoutFirstMultiset(BridgeMgr.OwnersOf(maps, b), id);
      assert multiset(BridgeMgr.WithoutFirst(BridgeMgr.OwnersOf(maps, b), id))[i] > 0;
    }
  }

  /** A container takes over a reservation that belongs to nobody. */
  lemma BridgeLinked(
    maps: BridgeMgr.Maps, links: map<string, Link>, lost: multiset<(string, string)>, h: string, l: Link)
    requires BridgesOk(maps, links, lost + multiset{Reservation(l)}) && h !in links
    requires OnBridge(maps, l.bridge, l.subnet)
    requires forall k | k in links :: links[k].id != l.id
    ensures BridgesOk(maps, links[h := l], lost)
  {
    hide BridgeMgr.Inv, Owned;
    var links' := links[h := l];
    forall c, i
      ensures HasLink(links', c, i) <==> HasLink(links, c, i) || (c, i) == Reservation(l)
      ensures HasLink(links, c, i) ==> (c, i) != Reservation(l)
    {
      LinkAdded(links, h, l, c, i);
    }
    hide HasLink;
    forall c, i
      ensures Owned(maps, c, i) == (if HasLink(links', c, i) then 1 else 0) + lost[(c, i)]
    {
    }
  }

  lemma LinkAdded(links: map<string, Link>, h: string, l: Link, c: string, i: string)
    requires h !in links
    ensures HasLink(links[h := l], c, i) <==> HasLink(links, c, i) || (c, i) == Reservation(l)
  {
    var links' := links[h := l];
    if k :| k in links && Reservation(links[k]) == (c, i) {
      assert k in links' && Reservation(links'[k]) == (c, i);
    }
    if (c, i) == Reservation(l) {
      assert h in links' && Reservation(links'[h]) == (c, i);
    }
  }

  /** A container gives up a reservation without releasing it. */
  lemma BridgeUnlinked(maps: BridgeMgr.Maps, links: map<string, Link>, lost: multiset<(string, string)>, h: string)
    requires BridgesOk(maps, links, lost) && h in links
    ensures BridgesOk(maps, links - {h}, lost + multiset{Reservation(links[h])})
    ensures forall k | k in links - {h} :: (links - {h})[k].id != links[h].id
  {
    hide BridgeMgr.Inv, Owned;
    var links', l := links - {h}, links[h];
    assert links == links'[h := l];
    forall c, i
      ensures HasLink(links, c, i) <==> HasLink(links', c, i) || (c, i) == Reservation(l)
      ensures HasLink(links', c, i) ==> (c, i) != Reservation(l)
    {
      LinkAdded(links', h, l, c, i);
    }
    hide HasLink;
    forall c, i
      ensures Owned(maps, c, i) == (if HasLink(links', c, i) then 1 else 0) + (lost + multiset{Reservation(l)})[(c, i)]
    {
    }
  }

  lemma LiveOwner(maps: BridgeMgr.Maps, links: map<string, Link>, lost: multiset<(string, string)>, h: string)
    requires BridgesOk(maps, links, lost) && h in links
    ensures links[h].id in BridgeMgr.OwnersOf(maps, links[h].bridge) && OnBridge(maps, links[h].bridge, links[h].subnet)
  {
    hide BridgeMgr.Inv, BridgeMgr.OwnersOf;
    assert HasLink(links, links[h].bridge, links[h].id);
    assert Owned(maps, links[h].bridge, links[h].id) > 0;
  }

  /** With nothing lost a bridge is reserved exactly while a container is on it, each container once. */
  lemma BridgesExact(maps: BridgeMgr.Maps, links: map<string, Link>, b: string)
    requires BridgesOk(maps, links, multiset{})
    ensures forall id :: Owned(maps, b, id) == if HasLink(links, b, id) then 1 else 0
    ensures BridgeMgr.IsReserved(maps, b) <==> exists h :: h in links && links[h].bridge == b
    ensures BridgeMgr.IsReserved(maps, b) ==>
      exists h :: h in links && links[h].bridge == b && links[h].subnet == maps.bridgeSubnet[b]
  {
    var ids := BridgeMgr.OwnersOf(maps, b);
    if BridgeMgr.IsReserved(maps, b) {
      assert ids != [] && ids[0] in multiset(ids);
      assert Owned(maps, b, ids[0]) > 0;
      var h :| h in links && Reservation(links[h]) == (b, ids[0]);
      assert links[h].bridge == b && links[h].subnet == maps.bridgeSubnet[b];
    }
  }
}
