/** Whole runs of the backend (linux_backend/linux_backend.go). */
module BackendRuns {
  import opened Outcomes
  import opened Collections
  import opened IPUtil
  import opened Subnets
  import SubnetPool
  import PortPool
  import BridgeMgr
  import opened Requests
  import opened ResourcePool
  import opened Rollback
  import opened Backend
  import opened Accounting

  function Nets(store: map<string, Container>): (m: map<string, Network>)
  {
    map h | h in store :: store[h].network
  }

  function HeldPorts(store: map<string, Container>): (m: map<string, seq<Port>>)
  {
    map h | h in store :: store[h].ports
  }

  function Links(store: map<string, Container>): (m: map<string, Link>)
  {
    map h | h in store :: Link(store[h].id, store[h].bridge, store[h].network.subnet)
  }

  ghost predicate Inv(cfg: Config, w: World)
  {
    && NetsOk(cfg.dynamic, w.pool.alloc, Nets(w.store), w.lost.nets)
    && PortsOk(cfg.start, cfg.size, w.pool.free, HeldPorts(w.store), w.lost.ports)
    && BridgesOk(w.pool.maps, Links(w.store), w.lost.reservations)
    && (forall h | h in w.store :: w.store[h].handle == h)
  }

  lemma StoreAdded(store: map<string, Container>, h: string, c: Container)
    ensures Nets(store[h := c]) == Nets(store)[h := c.network]
    ensures HeldPorts(store[h := c]) == HeldPorts(store)[h := c.ports]
    ensures Links(store[h := c]) == Links(store)[h := Link(c.id, c.bridge, c.network.subnet)]
  {
    hide Canonical;
  }

  lemma StoreRemoved(store: map<string, Container>, h: string)
    ensures Nets(store - {h}) == Nets(store) - {h}
    ensures HeldPorts(store - {h}) == HeldPorts(store) - {h}
    ensures Links(store - {h}) == Links(store) - {h}
  {
    hide Canonical;
  }

  // ----- releasing a container

  /** The reservations left when a container whose reservation belongs to nobody any more is torn down. */
  lemma TearDownBridges(st: State, id: string, t: Teardown, links: map<string, Link>, lost: multiset<(string, string)>)
    requires BridgesOk(st.maps, links, lost) && forall h | h in links :: links[h].id != id
    ensures BridgesOk(
      TearDown(st, id, t).0.maps, links,
      if id in st.files && t.nameReadable then lost - multiset{(st.files[id], id)} else lost)
  {
    hide BridgesOk, TearDown, BridgeMgr.Released;
    TearDownMaps(st, id, t);
    if id in st.files {
      BridgeReleased(st.maps, links, lost, st.files[id], id);
    }
  }

  lemma ReleaseKeepsInv(cfg: Config, w: World, h: string, t: Teardown)
    requires Inv(cfg, w) && h in w.store
    ensures Inv(cfg, ReleaseContainer(cfg, w.(store := w.store - {h}), w.store[h], t))
  {
    hide NetsOk, PortsOk, BridgesOk, TearDown, ReleasePorts, SubnetPool.Drop, Canonical;
    var c, store' := w.store[h], w.store - {h};
    StoreRemoved(w.store, h);
    BridgeUnlinked(w.pool.maps, Links(w.store), w.lost.reservations, h);
    TearDownBridges(w.pool, c.id, t, Links(store'), w.lost.reservations + multiset{(c.bridge, c.id)});
    TearDownMaps(w.pool, c.id, t);
    NetReleased(cfg.dynamic, w.pool.alloc, Nets(w.store), w.lost.nets, h);
    NetLost(cfg.dynamic, w.pool.alloc, Nets(w.store), w.lost.nets, h);
    PortsReleased(cfg.start, cfg.size, w.pool.free, HeldPorts(w.store), w.lost.ports, h);
    PortsLost(cfg.start, cfg.size, w.pool.free, HeldPorts(w.store), w.lost.ports, h);
  }

  lemma AbandonKeepsInv(cfg: Config, w: World, h: string)
    requires Inv(cfg, w) && h in w.store
    ensures Inv(cfg, Abandon(w.(store := w.store - {h}), w.store[h]))
  {
    hide NetsOk, PortsOk, BridgesOk, Canonical;
    StoreRemoved(w.store, h);
    BridgeUnlinked(w.pool.maps, Links(w.store), w.lost.reservations, h);
    NetLost(cfg.dynamic, w.pool.alloc, Nets(w.store), w.lost.nets, h);
    PortsLost(cfg.start, cfg.size, w.pool.free, HeldPorts(w.store), w.lost.ports, h);
  }

  // ----- the operations

  datatype Op =
    | Create(handle: string, spec: NetworkSpec, id: string, acq: Result<Network, Error>, name: string,
             f: SetUp, t: Teardown, started: bool, t2: Teardown)
    | Destroy(handle: string, cleaned: bool, t: Teardown)
    | NetIn(handle: string, hostPort: Port, containerPort: Port, scriptRun: bool)
    | Restore(s: Snapshot, versionRead: bool, scripts: seq<bool>)

  function After(cfg: Config, w: World, op: Op): (w': World)
  {
    match op
    case Create(handle, spec, id, acq, name, f, t, started, t2) =>
      if ParseNetworkSpec(spec).None? then w else Created(cfg, w, handle, id, acq, name, f, t, started, t2)
    case Destroy(handle, cleaned, t) => Destroyed(cfg, w, handle, cleaned, t)
    case NetIn(handle, hostPort, containerPort, scriptRun) =>
      if handle in w.store then Mapped(w, handle, hostPort, containerPort, scriptRun).0 else w
    case Restore(s, versionRead, scripts) => RestoredWorld(cfg, w, s, versionRead, scripts)
  }

  predicate FreshId(w: World, id: string)
  {
    forall h | h in w.store :: w.store[h].id != id
  }

  predicate FreshName(w: World, net: Network, name: string)
  {
    net.subnet in w.pool.maps.subnetBridge || !BridgeMgr.IsReserved(w.pool.maps, name)
  }

  /** A snapshot that does not clash with what is live: another handle and id, a network the pool could have
      handed out, the bridge of its subnet, and ports that nobody holds. */
  ghost predicate Restorable(cfg: Config, w: World, s: Snapshot)
  {
    && FreshId(w, s.id) && s.handle !in w.store
    && (s.ip.Some? ==>
          SubnetPool.SubnetFits(cfg.dynamic, w.pool.alloc, s.subnet) && Usable(s.subnet, s.ip.value))
    && (s.subnet in w.pool.maps.subnetBridge ==> w.pool.maps.subnetBridge[s.subnet] == s.bridge)
    && (forall p | p in s.ports && PortPool.InRange(cfg.start, cfg.size, p) :: p in w.pool.free)
  }

  /** The subnet pool answers as it promises, and identifiers and snapshots are new. */
  ghost predicate Legal(cfg: Config, w: World, op: Op)
  {
    match op
    case Create(handle, spec, id, acq, name, f, t, started, t2) =>
      && (ParseNetworkSpec(spec).Some? ==>
            var (subnetSel, ipSel) := ParseNetworkSpec(spec).value;
            SubnetPool.AcquireSpec(cfg.dynamic, w.pool.alloc, subnetSel, ipSel, acq))
      && FreshId(w, id) && id !in w.store && (acq.Ok? ==> FreshName(w, acq.value, name))
    case Restore(s, _, _) => Restorable(cfg, w, s)
    case _ => true
  }

  /** A set-up that fails leaves networks and ports alone, and of the bridges just the reservation that leaks. */
  lemma FailedSetUpKeepsInv(cfg: Config, w: World, id: string, net: Network, name: string, f: SetUp, t: Teardown)
    requires Inv(cfg, w) && FreshId(w, id) && FreshName(w, net, name) && !SubnetPool.Holds(w.pool.alloc, net)
    requires Acquired(w.pool, id, Ok(net), name, f, t).1.None?
    ensures var b := BridgeMgr.BridgeFor(w.pool.maps, net.subnet, name);
      var lost := if ReservationLeaks(w.pool, Ok(net), f, t) then WithReservation(w.lost, b, id) else w.lost;
      Inv(cfg, World(Acquired(w.pool, id, Ok(net), name, f, t).0, w.store, lost))
  {
    SubnetPoolInv(cfg, w);
    FreshLink(w, id);
    hide NetsOk, PortsOk, BridgesOk, Nets, HeldPorts, Links, Canonical, Acquired, ReservesBridge;
    hide SubnetPool.Inv, SubnetPool.Drop, SubnetPool.Add, SubnetPool.Holds;
    hide BridgeMgr.Reserved, BridgeMgr.Released, BridgeMgr.IsReserved, BridgeMgr.BridgeFor;
    SubnetPool.ReleaseUndoesAcquire(cfg.dynamic, w.pool.alloc, net);
    FailedSetUpState(w.pool, id, net, name, f, t);
    ReservedAndReleased(w.pool.maps, Links(w.store), w.lost.reservations, net.subnet, id, name);
  }

  lemma FreshLink(w: World, id: string)
    requires FreshId(w, id)
    ensures forall h | h in Links(w.store) :: Links(w.store)[h].id != id
  {
  }

  lemma ReservedAndReleased(
    maps: BridgeMgr.Maps, links: map<string, Link>, lost: multiset<(string, string)>,
    subnet: CIDR, id: string, name: string)
    requires BridgesOk(maps, links, lost) && (subnet in maps.subnetBridge || !BridgeMgr.IsReserved(maps, name))
    requires forall h | h in links :: links[h].id != id
    ensures var b, reserved := BridgeMgr.BridgeFor(maps, subnet, name), BridgeMgr.Reserved(maps, subnet, id, name);
      && BridgesOk(reserved, links, lost + multiset{(b, id)})
      && BridgesOk(BridgeMgr.Released(reserved, b, id), links, lost)
  {
    hide BridgesOk, OnBridge, Canonical, BridgeMgr.Reserved, BridgeMgr.Released, BridgeMgr.BridgeFor;
    var b, reserved := BridgeMgr.BridgeFor(maps, subnet, name), BridgeMgr.Reserved(maps, subnet, id, name);
    BridgeReserved(maps, links, lost, subnet, id, name);
    BridgeReleased(reserved, links, lost + multiset{(b, id)}, b, id);
    assert lost + multiset{(b, id)} - multiset{(b, id)} == lost;
  }

  lemma AcquiredState(st: State, id: string, net: Network, name: string, f: SetUp, t: Teardown)
    requires Acquired(st, id, Ok(net), name, f, t).1.Some?
    ensures var b := BridgeMgr.BridgeFor(st.maps, net.subnet, name);
      var maps := BridgeMgr.Reserved(st.maps, net.subnet, id, name);
      Acquired(st, id, Ok(net), name, f, t) ==
        (State(SubnetPool.Add(st.alloc, net), maps, st.free, st.files[id := b]), Some(b))
  {
    hide SubnetPool.Add, SubnetPool.Drop, BridgeMgr.Reserved, TearDown, Canonical;
  }

  /** A container that has been acquired completely can be added to the repository. */
  lemma AddKeepsInv(
    cfg: Config, w: World, handle: string, id: string, net: Network, name: string, files: map<string, string>)
    requires Inv(cfg, w) && FreshId(w, id) && FreshName(w, net, name) && HandleFor(handle, id) !in w.store
    requires !SubnetPool.Holds(w.pool.alloc, net)
    requires SubnetPool.Inv(cfg.dynamic, SubnetPool.Add(w.pool.alloc, net))
    ensures var c := NewContainer(handle, id, net, BridgeMgr.BridgeFor(w.pool.maps, net.subnet, name));
      var maps := BridgeMgr.Reserved(w.pool.maps, net.subnet, id, name);
      var pool := State(SubnetPool.Add(w.pool.alloc, net), maps, w.pool.free, files);
      Inv(cfg, World(pool, w.store[c.handle := c], w.lost))
  {
    hide NetsOk, PortsOk, BridgesOk, OnBridge, Canonical;
    hide SubnetPool.Inv, SubnetPool.Add, SubnetPool.Holds, BridgeMgr.Reserved, BridgeMgr.IsReserved;
    var b := BridgeMgr.BridgeFor(w.pool.maps, net.subnet, name);
    var c := NewContainer(handle, id, net, b);
    var maps, links, lost := BridgeMgr.Reserved(w.pool.maps, net.subnet, id, name), Links(w.store), w.lost;
    StoreAdded(w.store, c.handle, c);
    NetAcquired(cfg.dynamic, w.pool.alloc, Nets(w.store), lost.nets, c.handle, net);
    PortsNone(cfg.start, cfg.size, w.pool.free, HeldPorts(w.store), lost.ports, c.handle);
    BridgeReserved(w.pool.maps, links, lost.reservations, net.subnet, id, name);
    BridgeLinked(maps, links, lost.reservations, c.handle, Link(id, b, net.subnet));
  }

  lemma CreateKeepsInv(cfg: Config, w: World, op: Op)
    requires Inv(cfg, w) && op.Create? && Legal(cfg, w, op)
    ensures Inv(cfg, After(cfg, w, op))
  {
    hide Inv, Acquired, ReleaseContainer, ReservationLeaks, WithReservation, Canonical, FreshName;
    hide SubnetPool.AcquireSpec, SubnetPool.Add, SubnetPool.Holds, BridgeMgr.Reserved;
    if ParseNetworkSpec(op.spec).Some? && Refusal(cfg, w, op.handle).None? && op.acq.Ok? {
      var net := op.acq.value;
      SubnetPoolInv(cfg, w);
      var (subnetSel, ipSel) := ParseNetworkSpec(op.spec).value;
      SubnetPool.AcquireKeepsInv(cfg.dynamic, w.pool.alloc, subnetSel, ipSel, op.acq);
      if Acquired(w.pool, op.id, op.acq, op.name, op.f, op.t).1.None? {
        FailedSetUpKeepsInv(cfg, w, op.id, net, op.name, op.f, op.t);
      } else {
        AcquiredState(w.pool, op.id, net, op.name, op.f, op.t);
        var b := BridgeMgr.BridgeFor(w.pool.maps, net.subnet, op.name);
        var c := NewContainer(op.handle, op.id, net, b);
        AddKeepsInv(cfg, w, op.handle, op.id, net, op.name, w.pool.files[op.id := b]);
        var pool := Acquired(w.pool, op.id, op.acq, op.name, op.f, op.t).0;
        var w1 := World(pool, w.store[c.handle := c], w.lost);
        assert w1.store - {c.handle} == w.store;
        ReleaseKeepsInv(cfg, w1, c.handle, op.t2);
      }
    } else if ParseNetworkSpec(op.spec).Some? && Refusal(cfg, w, op.handle).None? {
      NothingAcquired(w.pool, op);
    }
  }

  lemma SubnetPoolInv(cfg: Config, w: World)
    requires Inv(cfg, w)
    ensures SubnetPool.Inv(cfg.dynamic, w.pool.alloc)
  {
    hide SubnetPool.Inv;
  }

  lemma NothingAcquired(st: State, op: Op)
    requires op.Create? && !op.acq.Ok?
    ensures Acquired(st, op.id, op.acq, op.name, op.f, op.t) == (st, None)
    ensures !ReservationLeaks(st, op.acq, op.f, op.t)
  {
  }

  /** A container's ports and mappings may change without touching its network and bridge. */
  lemma StoreChanged(store: map<string, Container>, h: string, ports: seq<Port>, netIns: seq<(Port, Port)>)
    requires h in store
    ensures var store' := store[h := store[h].(ports := ports, netIns := netIns)];
      Nets(store') == Nets(store) && Links(store') == Links(store) && HeldPorts(store') == HeldPorts(store)[h := ports]
  {
    hide Canonical;
    StoreAdded(store, h, store[h].(ports := ports, netIns := netIns));
  }

  lemma PortAddedKeepsInv(cfg: Config, w: World, h: string)
    requires Inv(cfg, w) && h in w.store && w.pool.free != []
    ensures var c := w.store[h];
      var store := w.store[h := c.(ports := c.ports + [w.pool.free[0]])];
      Inv(cfg, w.(pool := w.pool.(free := w.pool.free[1..]), store := store))
  {
    hide NetsOk, PortsOk, BridgesOk, Canonical, Nets, Links, HeldPorts;
    var c := w.store[h];
    StoreChanged(w.store, h, c.ports + [w.pool.free[0]], c.netIns);
    HeldAt(w.store, h);
    PortTaken(cfg.start, cfg.size, w.pool.free, HeldPorts(w.store), w.lost.ports, h);
  }

  lemma HeldAt(store: map<string, Container>, h: string)
    requires h in store
    ensures h in HeldPorts(store) && HeldPorts(store)[h] == store[h].ports
    ensures HeldPorts(store)[h := store[h].ports] == HeldPorts(store)
  {
  }

  lemma MappingAddedKeepsInv(cfg: Config, w: World, h: string, netIns: seq<(Port, Port)>)
    requires Inv(cfg, w) && h in w.store
    ensures Inv(cfg, w.(store := w.store[h := w.store[h].(netIns := netIns)]))
  {
    hide NetsOk, PortsOk, BridgesOk, Canonical, Nets, Links, HeldPorts;
    StoreChanged(w.store, h, w.store[h].ports, netIns);
    HeldAt(w.store, h);
  }

  lemma MappedKeepsInv(cfg: Config, w: World, h: string, hostPort: Port, containerPort: Port, scriptRun: bool)
    requires Inv(cfg, w) && h in w.store
    ensures Inv(cfg, Mapped(w, h, hostPort, containerPort, scriptRun).0)
    ensures h in Mapped(w, h, hostPort, containerPort, scriptRun).0.store
  {
    hide Inv, Canonical;
    if !(hostPort == 0 && w.pool.free == []) {
      var c := w.store[h];
      var w1 := w;
      var host := hostPort;
      if hostPort == 0 {
        PortAddedKeepsInv(cfg, w, h);
        host := w.pool.free[0];
        w1 := w.(pool := w.pool.(free := w.pool.free[1..]), store := w.store[h := c.(ports := c.ports + [host])]);
      }
      MappingAddedKeepsInv(cfg, w1, h, c.netIns + [(host, if containerPort == 0 then host else containerPort)]);
    }
  }

  lemma {:induction false} ReplayedKeepsInv(
    cfg: Config, w: World, h: string, netIns: seq<(Port, Port)>, scripts: seq<bool>)
    requires Inv(cfg, w) && h in w.store
    ensures Inv(cfg, Replayed(w, h, netIns, scripts))
    decreases |netIns|
  {
    hide Inv, Mapped;
    if netIns != [] && scripts != [] {
      MappedKeepsInv(cfg, w, h, netIns[0].0, netIns[0].1, scripts[0]);
      ReplayedKeepsInv(cfg, Mapped(w, h, netIns[0].0, netIns[0].1, scripts[0]).0, h, netIns[1..], scripts[1..]);
    }
  }

  // ----- restoring

  /** The pool's part of a restore that gets through its ports. */
  function TakenPool(st: State, s: Snapshot): (st': State)
    requires s.ip.Some?
  {
    State(
      SubnetPool.Add(st.alloc, Network(s.subnet, s.ip.value)),
      BridgeMgr.Rereserved(st.maps, s.bridge, s.subnet, s.id),
      TakePorts(st.free, s.ports).0,
      st.files)
  }

  lemma RestoredTaken(cfg: Config, w: World, s: Snapshot, versionRead: bool)
    requires Taken(w, s)
    ensures Restored(cfg.start, cfg.size, w.pool, s, versionRead) == (TakenPool(w.pool, s), versionRead)
  {
    hide SubnetPool.Add, SubnetPool.Drop, BridgeMgr.Rereserved;
    hide TakePorts, Canonical, BridgeMgr.RereserveError, SubnetPool.Holds;
  }

  lemma TakenNetwork(cfg: Config, w: World, s: Snapshot)
    requires Inv(cfg, w) && Restorable(cfg, w, s) && Taken(w, s)
    ensures SubnetPool.Inv(cfg.dynamic, SubnetPool.Add(w.pool.alloc, Network(s.subnet, s.ip.value)))
  {
    hide NetsOk, PortsOk, BridgesOk, SubnetPool.Inv, SubnetPool.Add, SubnetPool.Holds;
    hide SubnetPool.SubnetFits, Usable, BridgeMgr.RereserveError, Canonical, TakePorts, PortPool.InRange;
    SubnetPoolInv(cfg, w);
    SubnetPool.AddKeepsInv(cfg.dynamic, w.pool.alloc, Network(s.subnet, s.ip.value));
  }

  lemma RestoredAdded(cfg: Config, w: World, s: Snapshot)
    requires Inv(cfg, w) && FreshId(w, s.id) && s.handle !in w.store && s.ip.Some?
    requires !SubnetPool.Holds(w.pool.alloc, Network(s.subnet, s.ip.value))
    requires SubnetPool.Inv(cfg.dynamic, SubnetPool.Add(w.pool.alloc, Network(s.subnet, s.ip.value)))
    requires TakePorts(w.pool.free, s.ports).1 && BridgeMgr.RereserveError(w.pool.maps, s.bridge, s.subnet).None?
    requires s.subnet in w.pool.maps.subnetBridge ==> w.pool.maps.subnetBridge[s.subnet] == s.bridge
    ensures Inv(cfg, World(TakenPool(w.pool, s), w.store[s.handle := RestoredContainer(s)], w.lost))
  {
    hide NetsOk, PortsOk, BridgesOk, OnBridge, TakePorts, Canonical;
    hide SubnetPool.Inv, SubnetPool.Add, SubnetPool.Holds, BridgeMgr.Rereserved, BridgeMgr.RereserveError;
    var links, lost := Links(w.store), w.lost;
    var maps := BridgeMgr.Rereserved(w.pool.maps, s.bridge, s.subnet, s.id);
    StoreAdded(w.store, s.handle, RestoredContainer(s));
    NetAcquired(cfg.dynamic, w.pool.alloc, Nets(w.store), lost.nets, s.handle, Network(s.subnet, s.ip.value));
    PortsRestored(cfg.start, cfg.size, w.pool.free, HeldPorts(w.store), lost.ports, s.handle, s.ports);
    BridgeRereserved(w.pool.maps, links, lost.reservations, s.bridge, s.subnet, s.id);
    BridgeLinked(maps, links, lost.reservations, s.handle, Link(s.id, s.bridge, s.subnet));
  }

  lemma TakenKeepsInv(cfg: Config, w: World, s: Snapshot)
    requires Inv(cfg, w) && Restorable(cfg, w, s) && Taken(w, s)
    ensures Inv(cfg, World(TakenPool(w.pool, s), w.store[s.handle := RestoredContainer(s)], w.lost))
  {
    hide Inv, TakenPool, TakePorts, Usable, Canonical, PortPool.InRange, BridgeMgr.RereserveError;
    hide SubnetPool.Inv, SubnetPool.Add, SubnetPool.Holds, SubnetPool.SubnetFits;
    TakenNetwork(cfg, w, s);
    RestoredAdded(cfg, w, s);
  }

  lemma RestoredAtPort(cfg: Config, w: World, s: Snapshot, versionRead: bool)
    requires FailsAtPort(w.pool, s)
    ensures Restored(cfg.start, cfg.size, w.pool, s, versionRead).0.maps ==
      BridgeMgr.Rereserved(w.pool.maps, s.bridge, s.subnet, s.id)
  {
    hide SubnetPool.Add, SubnetPool.Drop, BridgeMgr.Rereserved, TakePorts;
    hide ReleasePorts, Canonical, BridgeMgr.RereserveError, SubnetPool.Holds;
  }

  lemma FailedRestoreKeepsInv(cfg: Config, w: World, s: Snapshot, versionRead: bool)
    requires Inv(cfg, w) && Restorable(cfg, w, s) && !Taken(w, s)
    ensures var (pool, ok) := Restored(cfg.start, cfg.size, w.pool, s, versionRead);
      var lost := if FailsAtPort(w.pool, s) then WithReservation(w.lost, s.bridge, s.id) else w.lost;
      !ok && Inv(cfg, World(pool, w.store, lost))
  {
    SubnetPoolInv(cfg, w);
    PortPoolInv(cfg, w);
    hide NetsOk, PortsOk, BridgesOk, TakePorts, Restored, Nets, Links, HeldPorts, Usable, Canonical, PortPool.Inv;
    hide SubnetPool.Inv, SubnetPool.SubnetFits, SubnetPool.Holds, PortPool.InRange;
    hide BridgeMgr.Rereserved, BridgeMgr.RereserveError;
    if FailsAtPort(w.pool, s) {
      FailedRestoreRollsBack(cfg.dynamic, cfg.start, cfg.size, w.pool, s, versionRead);
      RestoredAtPort(cfg, w, s, versionRead);
      BridgeRereserved(w.pool.maps, Links(w.store), w.lost.reservations, s.bridge, s.subnet, s.id);
      var free := Restored(cfg.start, cfg.size, w.pool, s, versionRead).0.free;
      PortsSameFree(cfg.start, cfg.size, w.pool.free, free, HeldPorts(w.store), w.lost.ports);
    } else {
      EarlyFailedRestoreChangesNothing(cfg.dynamic, cfg.start, cfg.size, w.pool, s, versionRead);
    }
  }

  lemma PortPoolInv(cfg: Config, w: World)
    requires Inv(cfg, w)
    ensures PortPool.Inv(cfg.start, cfg.size, w.pool.free)
  {
    hide NetsOk, BridgesOk, PortPool.Inv;
  }

  lemma RestoreKeepsInv(cfg: Config, w: World, s: Snapshot, versionRead: bool, scripts: seq<bool>)
    requires Inv(cfg, w) && Restorable(cfg, w, s)
    ensures Inv(cfg, RestoredWorld(cfg, w, s, versionRead, scripts))
  {
    hide Inv, Restored, TakenPool, Replayed, SubnetPool.Holds;
    hide BridgeMgr.RereserveError, TakePorts, Canonical, Usable, SubnetPool.SubnetFits, PortPool.InRange;
    if Taken(w, s) {
      RestoredTaken(cfg, w, s, versionRead);
      TakenKeepsInv(cfg, w, s);
      var c := RestoredContainer(s);
      var w1 := World(TakenPool(w.pool, s), w.store[s.handle := c], w.lost);
      if versionRead {
        ReplayedKeepsInv(cfg, w1, s.handle, s.netIns, scripts);
      } else {
        AbandonKeepsInv(cfg, w1, s.handle);
        assert w1.store - {s.handle} == w.store;
      }
    } else {
      FailedRestoreKeepsInv(cfg, w, s, versionRead);
    }
  }

  lemma AfterKeepsInv(cfg: Config, w: World, op: Op)
    requires Inv(cfg, w) && Legal(cfg, w, op)
    ensures Inv(cfg, After(cfg, w, op))
  {
    hide Inv, Mapped, RestoredWorld, ReleaseContainer, Created, Restorable, SubnetPool.AcquireSpec, Canonical;
    match op
    case Create(_, _, _, _, _, _, _, _, _) => CreateKeepsInv(cfg, w, op);
    case Destroy(handle, cleaned, t) =>
      if handle in w.store {
        ReleaseKeepsInv(cfg, w, handle, t);
        AbandonKeepsInv(cfg, w, handle);
      }
    case NetIn(handle, hostPort, containerPort, scriptRun) =>
      if handle in w.store {
        MappedKeepsInv(cfg, w, handle, hostPort, containerPort, scriptRun);
      }
    case Restore(s, versionRead, scripts) => RestoreKeepsInv(cfg, w, s, versionRead, scripts);
  }

  // ----- runs

  /** A backend that has just started: nothing acquired, all ports free, whatever files are in the depot. */
  ghost predicate Initial(cfg: Config, w: World)
  {
    && cfg.start + cfg.size <= 65535
    && (exists offset: nat :: offset <= cfg.size && w.pool.free == PortPool.Rotated(cfg.start, cfg.size, offset))
    && w.pool.alloc == map[] && w.pool.maps == BridgeMgr.EMPTY
    && w.store == map[] && w.lost == NOTHING
  }

  /** Setting up the pools and the backend over them; a range of ports that wraps around is accepted too. */
  method StartBackend(range: CIDR, start: Port, size: Port, offset: Port, prefix: string, maxContainers: int)
    returns (r: Result<LinuxBackend, PortPool.Error>)
    ensures start + size <= 65535 ==> r.Ok?
    ensures r.Ok? ==> r.value.Cfg() == Config(range, start, size, maxContainers)
    ensures r.Ok? && start + size < PortPool.WORD ==> fresh(r.value) && Initial(r.value.Cfg(), r.value.Now())
  {
    var ports := PortPool.New(start, size, offset);
    match ports {
      case Panic => return Panic;
      case Err(e) => return Err(e);
      case Ok(portPool) =>
        var subnetPool := new SubnetPool.Pool(range);
        var bridges := new BridgeMgr.Mgr(prefix);
        var pool := new ResourcePool.Pool(subnetPool, portPool, bridges);
        var backend := new LinuxBackend(pool, maxContainers);
        hide PortPool.Rotated, Canonical;
        return Ok(backend);
    }
  }

  ghost predicate Run(cfg: Config, ops: seq<Op>, ws: seq<World>)
  {
    && |ws| == |ops| + 1 && Initial(cfg, ws[0])
    && forall i | 0 <= i < |ops| :: Legal(cfg, ws[i], ops[i]) && ws[i + 1] == After(cfg, ws[i], ops[i])
  }

  lemma InitialInv(cfg: Config, w: World)
    requires Initial(cfg, w)
    ensures Inv(cfg, w)
  {
    hide NetsOk, PortsOk, BridgesOk, Canonical, PortPool.Rotated;
    var offset: nat :| offset <= cfg.size && w.pool.free == PortPool.Rotated(cfg.start, cfg.size, offset);
    NothingHeld(cfg.dynamic);
    AllPortsFree(cfg.start, cfg.size, offset);
    assert Nets(w.store) == map[] && HeldPorts(w.store) == map[] && Links(w.store) == map[];
  }

  lemma NothingHeld(dynamic: CIDR)
    ensures NetsOk(dynamic, map[], map[], {}) && BridgesOk(BridgeMgr.EMPTY, map[], multiset{})
  {
    hide Canonical;
  }

  lemma AllPortsFree(start: Port, size: Port, offset: nat)
    requires offset <= size && start + size < PortPool.WORD
    ensures PortsOk(start, size, PortPool.Rotated(start, size, offset), map[], {})
  {
    hide PortPool.Rotated;
    PortPool.RotatedInv(start, size, offset);
    var free := PortPool.Rotated(start, size, offset);
    forall p | PortPool.InRange(start, size, p)
      ensures p in free
    {
      assert p in Elems(free);
    }
  }

  lemma {:induction false} RunKeepsInv(cfg: Config, ops: seq<Op>, ws: seq<World>)
    requires Run(cfg, ops, ws)
    ensures |ws| == |ops| + 1 && Inv(cfg, ws[|ops|])
  {
    hide Inv, Legal, After, Initial;
    if ops == [] {
      InitialInv(cfg, ws[0]);
    } else {
      var k := |ops| - 1;
      RunKeepsInv(cfg, ops[..k], ws[..k + 1]);
      assert Legal(cfg, ws[k], ops[k]);
      AfterKeepsInv(cfg, ws[k], ops[k]);
    }
  }

  /** Over every run: a live container's network is allocated and its ports are not free, two live containers
      share neither a network address nor a port, and each live container owns its bridge. */
  lemma LiveContainersNeverShare(cfg: Config, ops: seq<Op>, ws: seq<World>, h: string, k: string)
    requires Run(cfg, ops, ws) && h in ws[|ops|].store && k in ws[|ops|].store && h != k
    ensures var w := ws[|ops|];
      var c, d := w.store[h], w.store[k];
      && SubnetPool.Holds(w.pool.alloc, c.network) && Usable(c.network.subnet, c.network.ip)
      && Value(c.network.ip) != Value(d.network.ip)
      && NoDup(c.ports) && (forall p | p in c.ports :: p !in w.pool.free && p !in d.ports)
      && c.id in BridgeMgr.OwnersOf(w.pool.maps, c.bridge)
      && c.bridge in w.pool.maps.bridgeSubnet && w.pool.maps.bridgeSubnet[c.bridge] == c.network.subnet
  {
    RunKeepsInv(cfg, ops, ws);
    InvSeparates(cfg, ws[|ops|], h, k);
  }

  lemma InvSeparates(cfg: Config, w: World, h: string, k: string)
    requires Inv(cfg, w) && h in w.store && k in w.store && h != k
    ensures var c, d := w.store[h], w.store[k];
      && SubnetPool.Holds(w.pool.alloc, c.network) && Usable(c.network.subnet, c.network.ip)
      && Value(c.network.ip) != Value(d.network.ip)
      && NoDup(c.ports) && (forall p | p in c.ports :: p !in w.pool.free && p !in d.ports)
      && c.id in BridgeMgr.OwnersOf(w.pool.maps, c.bridge)
      && c.bridge in w.pool.maps.bridgeSubnet && w.pool.maps.bridgeSubnet[c.bridge] == c.network.subnet
  {
    hide Canonical, SubnetPool.Inv, SubnetPool.Holds, PortPool.Inv, BridgesOk, BridgeMgr.OwnersOf, Usable, Value, NoDup;
    var c, d := w.store[h], w.store[k];
    assert Nets(w.store)[h] == c.network && Nets(w.store)[k] == d.network;
    assert HeldPorts(w.store)[h] == c.ports && HeldPorts(w.store)[k] == d.ports;
    assert Links(w.store)[h] == Link(c.id, c.bridge, c.network.subnet);
    LiveOwner(w.pool.maps, Links(w.store), w.lost.reservations, h);
    SubnetPool.HeldNetworksNeverClash(cfg.dynamic, w.pool.alloc, c.network, d.network);
  }
}
