/** Stopping the backend and starting it again from the snapshots of its containers (linux_backend/linux_backend.go,
    resource_pool/resource_pool.go, port_pool/port_pool.go). */
module Restart {
  import opened Outcomes
  import opened Collections
  import opened IPUtil
  import opened Subnets
  import SubnetPool
  import PortPool
  import BridgeMgr
  import opened ResourcePool
  import opened Rollback
  import opened Accounting
  import opened Backend
  import opened BackendRuns
  import opened ExactAccounting
  import opened Replay

  /** Which commands succeed while the mappings of a container are replayed. */
  type Scripts = map<string, seq<bool>>

  function ScriptsOf(scripts: Scripts, h: string): (r: seq<bool>)
  {
    if h in scripts then scripts[h] else []
  }

  function SnapshotOf(c: Container): (s: Snapshot)
  {
    Snapshot(c.id, c.handle, c.network.subnet, Some(c.network.ip), c.bridge, c.ports, c.netIns)
  }

  /** The two containers have the same resources. */
  predicate SameResources(c: Container, d: Container)
  {
    c.id == d.id && c.handle == d.handle && c.network == d.network && c.bridge == d.bridge && c.ports == d.ports
  }

  /** Replaying the container's mappings acquires nothing: none has host port 0, or the container holds the whole
      range and no port is left. */
  predicate Benign(cfg: Config, c: Container)
  {
    Zeros(c.netIns) == 0 || forall p: Port | PortPool.InRange(cfg.start, cfg.size, p) :: p in c.ports
  }

  predicate Restores(cfg: Config, c: Container)
  {
    c.bridge != "" && Benign(cfg, c)
  }

  /** Restores the snapshots of these containers one after the other. */
  function RestoreAll(
    cfg: Config, w: World, store: map<string, Container>, order: seq<string>, scripts: Scripts): (w': World)
    requires forall h | h in order :: h in store
  {
    if order == [] then w
    else
      var h := order[|order| - 1];
      assert h in order;
      var w1 := RestoreAll(cfg, w, store, order[..|order| - 1], scripts);
      RestoredWorld(cfg, w1, SnapshotOf(store[h]), true, ScriptsOf(scripts, h))
  }

  /** Some of w's containers have been restored, and nothing else. */
  ghost predicate Partly(cfg: Config, w: World, w': World, done: set<string>)
  {
    && Inv(cfg, w') && w'.lost == NOTHING && w'.store.Keys == done
    && (forall h | h in w'.store :: h in w.store && SameResources(w'.store[h], w.store[h]))
    && Lined(cfg, w.pool.free, w'.pool.free)
  }

  /** The next port is the same, and the others follow in the order of the range. */
  predicate Lined(cfg: Config, free: seq<Port>, free': seq<Port>)
  {
    free != [] ==> free' != [] && free'[0] == free[0] && PortPool.Ascending(cfg.size, free[0], free')
  }

  // ----- a snapshot of a live container can be restored beside the others

  predicate Submap<V(==)>(part: map<string, V>, whole: map<string, V>)
  {
    forall h | h in part :: h in whole && whole[h] == part[h]
  }

  lemma PartOfStore(store: map<string, Container>, store': map<string, Container>)
    requires forall h | h in store' :: h in store && SameResources(store'[h], store[h])
    ensures Submap(Nets(store'), Nets(store)) && Submap(HeldPorts(store'), HeldPorts(store))
    ensures Submap(Links(store'), Links(store))
  {
    hide Canonical;
  }

  lemma NetworkFits(
    dynamic: CIDR, alloc: Allocation, nets: map<string, Network>, lost: set<Network>,
    alloc': Allocation, nets': map<string, Network>, h: string)
    requires NetsOk(dynamic, alloc, nets, lost) && NetsOk(dynamic, alloc', nets', {})
    requires Submap(nets', nets) && h in nets && h !in nets'
    ensures !SubnetPool.Holds(alloc', nets[h]) && Usable(nets[h].subnet, nets[h].ip)
    ensures SubnetPool.SubnetFits(dynamic, alloc', nets[h].subnet)
  {
    hide SubnetPool.Inv, SubnetPool.Holds, Canonical, Usable, SubnetPool.InPlace;
    var net := nets[h];
    HeldSubnet(dynamic, alloc, net);
    forall n | n in alloc' && n != net.subnet
      ensures Disjoint(net.subnet, n)
    {
      var other := SomeNetwork(dynamic, alloc', n);
      var k :| k in nets' && nets'[k] == other;
      assert SubnetPool.Holds(alloc, nets[k]);
      HeldSubnets(dynamic, alloc, net, other);
    }
  }

  lemma HeldSubnet(dynamic: CIDR, alloc: Allocation, net: Network)
    requires SubnetPool.Inv(dynamic, alloc) && SubnetPool.Holds(alloc, net)
    ensures Usable(net.subnet, net.ip) && SubnetPool.InPlace(dynamic, net.subnet)
  {
    hide Canonical, Usable, SubnetPool.InPlace, Disjoint;
    assert SubnetPool.SubnetOk(dynamic, net.subnet, alloc[net.subnet]);
  }

  lemma HeldSubnets(dynamic: CIDR, alloc: Allocation, a: Network, b: Network)
    requires SubnetPool.Inv(dynamic, alloc) && SubnetPool.Holds(alloc, a) && SubnetPool.Holds(alloc, b)
    ensures a.subnet != b.subnet ==> Disjoint(a.subnet, b.subnet)
  {
    hide Canonical, Usable, SubnetPool.InPlace, Disjoint;
  }

  lemma SomeNetwork(dynamic: CIDR, alloc: Allocation, n: CIDR) returns (net: Network)
    requires SubnetPool.Inv(dynamic, alloc) && n in alloc
    ensures net.subnet == n && SubnetPool.Holds(alloc, net)
  {
    hide Canonical, Usable, SubnetPool.InPlace, Disjoint;
    assert SubnetPool.SubnetOk(dynamic, n, alloc[n]);
    net := Network(n, alloc[n][0]);
  }

  lemma BridgeFits(
    maps: BridgeMgr.Maps, links: map<string, Link>, lost: multiset<(string, string)>,
    maps': BridgeMgr.Maps, links': map<string, Link>, h: string)
    requires BridgesOk(maps, links, lost) && BridgesOk(maps', links', multiset{})
    requires Submap(links', links) && h in links && h !in links' && links[h].bridge != ""
    ensures BridgeMgr.RereserveError(maps', links[h].bridge, links[h].subnet).None?
    ensures links[h].subnet in maps'.subnetBridge ==> maps'.subnetBridge[links[h].subnet] == links[h].bridge
    ensures forall k | k in links' :: links'[k].id != links[h].id
  {
    hide Canonical, OwnersExact;
    var l := links[h];
    assert OnBridge(maps, l.bridge, l.subnet);
    if l.bridge in maps'.bridgeSubnet {
      BridgesExact(maps', links', l.bridge);
      var k :| k in links' && links'[k].bridge == l.bridge && links'[k].subnet == maps'.bridgeSubnet[l.bridge];
      assert OnBridge(maps, links[k].bridge, links[k].subnet);
    }
    if l.subnet in maps'.subnetBridge {
      var b := maps'.subnetBridge[l.subnet];
      BridgesExact(maps', links', b);
      var k :| k in links' && links'[k].bridge == b && links'[k].subnet == maps'.bridgeSubnet[b];
      assert OnBridge(maps, links[k].bridge, links[k].subnet);
    }
  }

  lemma PortsFit(
    start: Port, size: Port, free: seq<Port>, held: map<string, seq<Port>>, lost: set<Port>,
    free': seq<Port>, held': map<string, seq<Port>>, h: string)
    requires PortsOk(start, size, free, held, lost) && PortsOk(start, size, free', held', {})
    requires Submap(held', held) && h in held && h !in held'
    ensures NoDup(held[h]) && forall p | p in held[h] :: p in free' && p !in free
    ensures TakePorts(free', held[h]).1
  {
    hide NoDup, TakePorts, PortPool.InRange, PortPool.Inv;
    forall p | p in held[h]
      ensures p in free'
    {
    }
    FreeDistinct(start, size, free');
    TakePortsElems(free', held[h]);
    assert Elems(held[h]) <= Elems(free');
  }

  lemma FreeDistinct(start: Port, size: Port, free: seq<Port>)
    requires PortPool.Inv(start, size, free)
    ensures NoDup(free)
  {
  }

  lemma SnapshotFits(cfg: Config, w: World, w': World, done: set<string>, h: string)
    requires Inv(cfg, w) && Partly(cfg, w, w', done) && h in w.store && h !in done && w.store[h].bridge != ""
    ensures var s := SnapshotOf(w.store[h]);
      Restorable(cfg, w', s) && Taken(w', s) && forall p | p in s.ports :: p !in w.pool.free
  {
    var c := w.store[h];
    PartOfStore(w.store, w'.store);
    Projections(w.store, h);
    Absent(w'.store, h);
    hide NetsOk, PortsOk, BridgesOk, Submap, Canonical, Usable, NoDup, TakePorts, PortPool.InRange;
    hide SubnetPool.Holds, SubnetPool.SubnetFits, BridgeMgr.RereserveError;
    NetworkFits(
      cfg.dynamic, w.pool.alloc, Nets(w.store), w.lost.nets, w'.pool.alloc, Nets(w'.store), h);
    BridgeFits(w.pool.maps, Links(w.store), w.lost.reservations, w'.pool.maps, Links(w'.store), h);
    PortsFit(
      cfg.start, cfg.size, w.pool.free, HeldPorts(w.store), w.lost.ports, w'.pool.free, HeldPorts(w'.store), h);
    FreshByLinks(w', c.id);
  }

  lemma Projections(store: map<string, Container>, h: string)
    requires h in store
    ensures h in Nets(store) && Nets(store)[h] == store[h].network
    ensures h in HeldPorts(store) && HeldPorts(store)[h] == store[h].ports
    ensures h in Links(store) && Links(store)[h] == Link(store[h].id, store[h].bridge, store[h].network.subnet)
  {
  }

  lemma Absent(store: map<string, Container>, h: string)
    requires h !in store
    ensures h !in Nets(store) && h !in HeldPorts(store) && h !in Links(store)
  {
  }

  lemma FreshByLinks(w: World, id: string)
    ensures (forall k | k in Links(w.store) :: Links(w.store)[k].id != id) ==> FreshId(w, id)
  {
    forall k | k in w.store
      ensures k in Links(w.store) && Links(w.store)[k].id == w.store[k].id
    {
    }
  }

  // ----- one more container

  lemma {:induction false} TakenLined(cfg: Config, free: seq<Port>, free': seq<Port>, ports: seq<Port>)
    requires Lined(cfg, free, free') && forall p | p in ports :: p !in free
    ensures Lined(cfg, free, TakePorts(free', ports).0)
    decreases |ports|
  {
    if free != [] && ports != [] && ports[0] in free' {
      assert ports[0] in ports && free[0] in free;
      PortPool.WithoutAscending(cfg.size, free[0], free', ports[0]);
      TakenLined(cfg, free, PortPool.Without(free', ports[0]), ports[1..]);
    }
  }

  lemma NothingLeft(cfg: Config, free: seq<Port>, ports: seq<Port>)
    requires PortPool.Inv(cfg.start, cfg.size, free) && TakePorts(free, ports).1
    requires forall p: Port | PortPool.InRange(cfg.start, cfg.size, p) :: p in ports
    ensures TakePorts(free, ports).0 == []
  {
    TakePortsElems(free, ports);
    hide TakePorts, PortPool.InRange;
    var left := TakePorts(free, ports).0;
    PortPool.NoElems(left);
    assert Elems(free) <= Elems(ports);
  }

  /** A benign container comes back as it was, with its replayed mappings recorded once more. */
  lemma BenignRestored(cfg: Config, w: World, s: Snapshot, scripts: seq<bool>)
    requires Taken(w, s) && PortPool.Inv(cfg.start, cfg.size, w.pool.free)
    requires s.ip.Some? ==> Benign(cfg, RestoredContainer(s))
    ensures s.ip.Some?
    ensures var c := RestoredContainer(s).(netIns := s.netIns + Remapped(s.netIns, scripts, []));
      RestoredWorld(cfg, w, s, true, scripts) == World(TakenPool(w.pool, s), w.store[s.handle := c], w.lost)
  {
    hide TakenPool, RestoredWorld, Acquires, Remapped, FreeAfter, Zeros, ReachesPorts, Canonical, PortPool.Inv;
    RestoredExact(cfg, w, s, scripts);
    TakenFree(w, s);
    var free := FreeAfter(w, s);
    if Zeros(s.netIns) == 0 {
      RemappedFree(s.netIns, scripts, free);
    } else {
      LeftOver(cfg, w, s);
    }
    assert Acquires(s.netIns, scripts, |free|) == 0;
    assert s.ports + free[..0] == s.ports && free[0..] == free;
  }

  lemma LeftOver(cfg: Config, w: World, s: Snapshot)
    requires TakePorts(w.pool.free, s.ports).1 && PortPool.Inv(cfg.start, cfg.size, w.pool.free)
    requires forall p: Port | PortPool.InRange(cfg.start, cfg.size, p) :: p in s.ports
    ensures FreeAfter(w, s) == []
  {
    hide PortPool.Inv, PortPool.InRange, TakePorts;
    NothingLeft(cfg, w.pool.free, s.ports);
  }

  lemma OneMore(cfg: Config, w: World, w': World, done: set<string>, h: string, scripts: seq<bool>)
    requires Inv(cfg, w) && Partly(cfg, w, w', done) && h in w.store && h !in done && Restores(cfg, w.store[h])
    ensures Partly(cfg, w, RestoredWorld(cfg, w', SnapshotOf(w.store[h]), true, scripts), done + {h})
    ensures var w2 := RestoredWorld(cfg, w', SnapshotOf(w.store[h]), true, scripts);
      w2.pool.files == w'.pool.files && h in w2.store && w2.store == w'.store[h := w2.store[h]]
      && w2.store[h].netIns == w.store[h].netIns + Remapped(w.store[h].netIns, scripts, [])
  {
    hide Inv, Restorable, Taken, RestoredWorld, TakePorts, Benign, Remapped, Lined, Canonical, PortPool.Inv;
    var s := SnapshotOf(w.store[h]);
    HandleIs(cfg, w, h);
    SnapshotFits(cfg, w, w', done, h);
    RestoreKeepsInv(cfg, w', s, true, scripts);
    PortPoolInv(cfg, w');
    SameBenign(cfg, w.store[h]);
    BenignRestored(cfg, w', s, scripts);
    TakenFree(w', s);
    TakenLined(cfg, w.pool.free, w'.pool.free, s.ports);
  }

  lemma SameBenign(cfg: Config, c: Container)
    requires Benign(cfg, c)
    ensures Benign(cfg, RestoredContainer(SnapshotOf(c)))
  {
  }

  lemma HandleIs(cfg: Config, w: World, h: string)
    requires Inv(cfg, w) && h in w.store
    ensures w.store[h].handle == h
  {
    hide NetsOk, PortsOk, BridgesOk;
  }

  // ----- all containers

  predicate IsOrder(order: seq<string>, store: map<string, Container>)
  {
    NoDup(order) && Elems(order) == store.Keys
  }

  /** Every restored container has its mappings recorded once more, as far as they were replayed. */
  predicate MappedAgain(store: map<string, Container>, store': map<string, Container>, scripts: Scripts)
  {
    forall h | h in store' && h in store ::
      store'[h].netIns == store[h].netIns + Remapped(store[h].netIns, ScriptsOf(scripts, h), [])
  }

  lemma {:induction false} RestoredSome(cfg: Config, w: World, w0: World, order: seq<string>, scripts: Scripts)
    requires Inv(cfg, w) && Partly(cfg, w, w0, {})
    requires NoDup(order) && forall h | h in order :: h in w.store && Restores(cfg, w.store[h])
    ensures var w' := RestoreAll(cfg, w0, w.store, order, scripts);
      && Partly(cfg, w, w', Elems(order)) && MappedAgain(w.store, w'.store, scripts)
      && w'.pool.files == w0.pool.files
  {
    hide Inv, Restores, Partly, RestoredWorld, Remapped, MappedAgain, Elems;
    if order == [] {
      NobodyYet(cfg, w, w0);
    } else {
      var k := |order| - 1;
      var h, rest := order[k], order[..k];
      assert h in order;
      RestoredSome(cfg, w, w0, rest, scripts);
      var w1 := RestoreAll(cfg, w0, w.store, rest, scripts);
      LastElem(order);
      OneMore(cfg, w, w1, Elems(rest), h, ScriptsOf(scripts, h));
      MappedOnce(w.store, w1.store, scripts, h, RestoreAll(cfg, w0, w.store, order, scripts).store);
    }
  }

  lemma LastElem(order: seq<string>)
    requires order != [] && NoDup(order)
    ensures var k := |order| - 1;
      NoDup(order[..k]) && Elems(order) == Elems(order[..k]) + {order[k]} && order[k] !in Elems(order[..k])
  {
    assert order == order[..|order| - 1] + [order[|order| - 1]];
  }

  lemma MappedOnce(
    store: map<string, Container>, store1: map<string, Container>, scripts: Scripts, h: string,
    store2: map<string, Container>)
    requires MappedAgain(store, store1, scripts) && h in store && h in store2 && store2 == store1[h := store2[h]]
    requires store2[h].netIns == store[h].netIns + Remapped(store[h].netIns, ScriptsOf(scripts, h), [])
    ensures MappedAgain(store, store2, scripts)
  {
    hide Remapped, ScriptsOf;
  }

  lemma NobodyYet(cfg: Config, w: World, w0: World)
    requires Partly(cfg, w, w0, {})
    ensures w0.store == map[] && Elems<string>([]) == {}
    ensures forall store, scripts :: MappedAgain(store, w0.store, scripts)
  {
    hide Inv, Lined;
  }

  /** A backend that has just started from the saved offset of the port pool. */
  ghost predicate Restarted(cfg: Config, w: World, w0: World)
  {
    && Initial(cfg, w0) && PortPool.Inv(cfg.start, cfg.size, w.pool.free)
    && w0.pool.free == PortPool.RestartList(cfg.start, cfg.size, w.pool.free)
  }

  lemma NothingRestored(cfg: Config, w: World, w0: World)
    requires Restarted(cfg, w, w0)
    ensures Partly(cfg, w, w0, {})
  {
    InitialInv(cfg, w0);
    hide Inv, PortPool.Rotated, PortPool.Ascending;
    PortPool.RestartHead(cfg.start, cfg.size, w.pool.free);
    if w.pool.free != [] {
      PortPool.RestartAscending(cfg.start, cfg.size, w.pool.free);
    }
  }

  /** Every container is back with its resources, and nothing else is held. */
  ghost predicate AllRestored(cfg: Config, w: World, w0: World, order: seq<string>, scripts: Scripts)
  {
    && (forall h | h in order :: h in w.store)
    && var w' := RestoreAll(cfg, w0, w.store, order, scripts);
       && Partly(cfg, w, w', w.store.Keys) && HeldByLive(cfg, w')
       && MappedAgain(w.store, w'.store, scripts) && w'.pool.files == w0.pool.files
  }

  /** Restoring the snapshots of all containers, in any order, into a backend that has just started succeeds for
      each of them. The new backend holds exactly what these containers have, and hands out the same port next. */
  lemma RestartRestoresAll(cfg: Config, w: World, w0: World, order: seq<string>, scripts: Scripts)
    requires Inv(cfg, w) && Restarted(cfg, w, w0) && IsOrder(order, w.store)
    requires forall h | h in w.store :: Restores(cfg, w.store[h])
    ensures AllRestored(cfg, w, w0, order, scripts)
  {
    hide Inv, Restores, Restarted, HeldByLive, RestoreAll, MappedAgain, Lined;
    assert forall h | h in order :: h in Elems(order);
    NothingRestored(cfg, w, w0);
    RestoredSome(cfg, w, w0, order, scripts);
    InvIsExact(cfg, RestoreAll(cfg, w0, w.store, order, scripts));
  }

  ghost predicate SameStore(store: map<string, Container>, store': map<string, Container>)
  {
    store'.Keys == store.Keys && forall h | h in store :: SameResources(store'[h], store[h])
  }

  /** Containers, networks, free ports, the next port and the bridges are the same. */
  ghost predicate SameHoldings(w: World, w': World)
  {
    && SameStore(w.store, w'.store)
    && (forall n :: SubnetPool.Holds(w'.pool.alloc, n) <==> SubnetPool.Holds(w.pool.alloc, n))
    && Elems(w'.pool.free) == Elems(w.pool.free)
    && (w.pool.free != [] ==> w'.pool.free != [] && w'.pool.free[0] == w.pool.free[0])
    && (forall b, id :: Owned(w'.pool.maps, b, id) == Owned(w.pool.maps, b, id))
    && w'.pool.maps.subnetBridge == w.pool.maps.subnetBridge
    && w'.pool.maps.bridgeSubnet == w.pool.maps.bridgeSubnet
  }

  /** Restoring all containers in this order brings back the same holdings. */
  ghost predicate Recovers(cfg: Config, w: World, w0: World, order: seq<string>, scripts: Scripts)
  {
    (forall h | h in order :: h in w.store) && SameHoldings(w, RestoreAll(cfg, w0, w.store, order, scripts))
  }

  /** Whatever the order and whatever becomes of the replayed mappings. */
  ghost predicate AlwaysRecovers(cfg: Config, w: World, w0: World)
  {
    forall order, scripts | IsOrder(order, w.store) :: Recovers(cfg, w, w0, order, scripts)
  }

  lemma RestartKeepsResources(cfg: Config, w: World, w0: World, order: seq<string>, scripts: Scripts)
    requires Inv(cfg, w) && Restarted(cfg, w, w0) && IsOrder(order, w.store) && w.lost == NOTHING
    requires forall h | h in w.store :: Restores(cfg, w.store[h])
    ensures Recovers(cfg, w, w0, order, scripts)
    ensures RestoreAll(cfg, w0, w.store, order, scripts).pool.free == w.pool.free <==>
      PortPool.InOrder(cfg.size, w.pool.free)
  {
    hide Inv, Restarted, Restores, RestoreAll, HeldByLive, SameResources, Owned, SubnetPool.Holds, PortPool.Inv;
    hide PortPool.Ascending, MappedAgain;
    RestartRestoresAll(cfg, w, w0, order, scripts);
    InvIsExact(cfg, w);
    var w' := RestoreAll(cfg, w0, w.store, order, scripts);
    PortPoolInv(cfg, w);
    PortPoolInv(cfg, w');
    SameNets(cfg, w, w');
    SamePorts(cfg, w, w');
    SameOwners(cfg, w, w');
    SameBridges(cfg, w, w');
    SameListIff(cfg, w.pool.free, w'.pool.free);
  }

  lemma SameListIff(cfg: Config, free: seq<Port>, free': seq<Port>)
    requires Lined(cfg, free, free') && Elems(free') == Elems(free)
    ensures free' == free <==> PortPool.InOrder(cfg.size, free)
  {
    hide PortPool.Ascending;
    PortPool.NoElems(free);
    PortPool.NoElems(free');
    if free != [] && PortPool.InOrder(cfg.size, free) {
      PortPool.AscendingUnique(cfg.size, free[0], free', free);
    }
  }

  lemma SameNets(cfg: Config, w: World, w': World)
    requires SameStore(w.store, w'.store) && HeldByLive(cfg, w) && HeldByLive(cfg, w')
    ensures forall n :: SubnetPool.Holds(w'.pool.alloc, n) <==> SubnetPool.Holds(w.pool.alloc, n)
  {
    hide SubnetPool.Holds, Canonical, Owned, LiveOn, PortPool.InRange;
    forall n
      ensures SubnetPool.Holds(w'.pool.alloc, n) <==> SubnetPool.Holds(w.pool.alloc, n)
    {
      assert forall h | h in w.store :: w'.store[h].network == w.store[h].network by {
        assert forall h | h in w.store :: SameResources(w'.store[h], w.store[h]);
      }
    }
  }

  lemma SamePorts(cfg: Config, w: World, w': World)
    requires SameStore(w.store, w'.store) && HeldByLive(cfg, w) && HeldByLive(cfg, w')
    requires PortPool.Inv(cfg.start, cfg.size, w.pool.free) && PortPool.Inv(cfg.start, cfg.size, w'.pool.free)
    ensures Elems(w'.pool.free) == Elems(w.pool.free)
  {
    hide SubnetPool.Holds, Canonical, Owned, LiveOn, PortPool.InRange, NoDup;
    assert forall h | h in w.store :: w'.store[h].ports == w.store[h].ports by {
      assert forall h | h in w.store :: SameResources(w'.store[h], w.store[h]);
    }
    forall p: Port
      ensures p in w'.pool.free <==> p in w.pool.free
    {
    }
  }

  lemma SameOwners(cfg: Config, w: World, w': World)
    requires SameStore(w.store, w'.store) && HeldByLive(cfg, w) && HeldByLive(cfg, w')
    ensures forall b, id :: Owned(w'.pool.maps, b, id) == Owned(w.pool.maps, b, id)
  {
    hide SubnetPool.Holds, Canonical, Owned, PortPool.InRange;
    forall b, id
      ensures LiveOn(w.store, b, id) <==> LiveOn(w'.store, b, id)
    {
      assert forall h | h in w.store :: SameResources(w'.store[h], w.store[h]);
    }
  }

  lemma BridgeOfLive(cfg: Config, w: World, h: string)
    requires Inv(cfg, w) && h in w.store
    ensures var c, maps := w.store[h], w.pool.maps;
      && c.network.subnet in maps.subnetBridge && maps.subnetBridge[c.network.subnet] == c.bridge
      && c.bridge in maps.bridgeSubnet && maps.bridgeSubnet[c.bridge] == c.network.subnet
  {
    hide NetsOk, PortsOk, OwnersExact, DistinctIds, Canonical;
    Projections(w.store, h);
    assert OnBridge(w.pool.maps, w.store[h].bridge, w.store[h].network.subnet);
  }

  lemma BridgesOfPart(cfg: Config, w: World, w': World)
    requires Inv(cfg, w) && Inv(cfg, w') && HeldByLive(cfg, w) && forall h | h in w.store :: h in w'.store
    requires forall h | h in w.store :: SameResources(w'.store[h], w.store[h])
    ensures forall s | s in w.pool.maps.subnetBridge ::
      s in w'.pool.maps.subnetBridge && w'.pool.maps.subnetBridge[s] == w.pool.maps.subnetBridge[s]
    ensures forall b | b in w.pool.maps.bridgeSubnet ::
      b in w'.pool.maps.bridgeSubnet && w'.pool.maps.bridgeSubnet[b] == w.pool.maps.bridgeSubnet[b]
  {
    hide Inv, Canonical, Owned, LiveOn, SubnetPool.Holds, PortPool.InRange;
    forall s | s in w.pool.maps.subnetBridge
      ensures s in w'.pool.maps.subnetBridge && w'.pool.maps.subnetBridge[s] == w.pool.maps.subnetBridge[s]
    {
      var h :| h in w.store && w.store[h].network.subnet == s;
      BridgeOfLive(cfg, w, h);
      BridgeOfLive(cfg, w', h);
    }
    forall b | b in w.pool.maps.bridgeSubnet
      ensures b in w'.pool.maps.bridgeSubnet && w'.pool.maps.bridgeSubnet[b] == w.pool.maps.bridgeSubnet[b]
    {
      assert BridgeMgr.IsReserved(w.pool.maps, b);
      var h :| h in w.store && w.store[h].bridge == b;
      BridgeOfLive(cfg, w, h);
      BridgeOfLive(cfg, w', h);
    }
  }

  lemma SameBridges(cfg: Config, w: World, w': World)
    requires SameStore(w.store, w'.store) && HeldByLive(cfg, w) && HeldByLive(cfg, w') && Inv(cfg, w) && Inv(cfg, w')
    ensures w'.pool.maps.subnetBridge == w.pool.maps.subnetBridge
    ensures w'.pool.maps.bridgeSubnet == w.pool.maps.bridgeSubnet
  {
    hide Inv, HeldByLive, Canonical;
    forall h | h in w'.store
      ensures h in w.store && SameResources(w.store[h], w'.store[h])
    {
      assert SameResources(w'.store[h], w.store[h]);
    }
    BridgesOfPart(cfg, w, w');
    BridgesOfPart(cfg, w', w);
  }
}
