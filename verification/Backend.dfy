/** Creating, destroying and restoring containers and mapping their ports (linux_backend/linux_backend.go,
    linux_container/linux_container.go, container_repository/in_memory_container_repository.go). */
module Backend {
  import opened Outcomes
  import opened Collections
  import opened IPUtil
  import opened Subnets
  import SubnetPool
  import PortPool
  import BridgeMgr
  import opened Requests
  import opened ResourcePool
  import opened Rollback

  /** A container and the resources recorded for it. */
  datatype Container = Container(
    id: string, handle: string, network: Network, bridge: string, ports: seq<Port>, netIns: seq<(Port, Port)>)

  /** Resources that are acquired although no container has them any more. Reservations are pairs of bridge and
      container id. */
  datatype Lost = Lost(nets: set<Network>, ports: set<Port>, reservations: multiset<(string, string)>)

  const NOTHING := Lost({}, {}, multiset{})

  /** The resource pool, the repository by handle, and a record of what has been lost. */
  datatype World = World(pool: State, store: map<string, Container>, lost: Lost)

  datatype Config = Config(dynamic: CIDR, start: Port, size: Port, maxContainers: int)

  datatype Problem =
    | HandleExists
    | MaxContainersReached
    | PoolFailed(failure: Failure)
    | StartFailed
    | NotFound
    | CleanUpFailed
    | PortsExhausted
    | ScriptFailed

  // ----- the operations on worlds

  function HandleFor(handle: string, id: string): (h: string)
  {
    if handle != "" then handle else id
  }

  function Refusal(cfg: Config, w: World, handle: string): (p: Option<Problem>)
  {
    if handle != "" && handle in w.store then Some(HandleExists)
    else if cfg.maxContainers > 0 && |w.store| >= cfg.maxContainers then Some(MaxContainersReached)
    else None
  }

  /** Network and ports of a container whose teardown failed. */
  function WithNetwork(lost: Lost, c: Container): (lost': Lost)
  {
    lost.(nets := lost.nets + {c.network}, ports := lost.ports + Elems(c.ports))
  }

  function WithReservation(lost: Lost, b: string, id: string): (lost': Lost)
  {
    lost.(reservations := lost.reservations + multiset{(b, id)})
  }

  /** Nobody will release the resources of c any more. */
  function Abandon(w: World, c: Container): (w': World)
  {
    w.(lost := WithNetwork(WithReservation(w.lost, c.bridge, c.id), c))
  }

  /** A teardown gives back the reservation whose bridge is on file, which need not be the container's own. */
  function AfterTearDown(lost: Lost, st: State, c: Container, t: Teardown): (lost': Lost)
  {
    var kept := WithReservation(lost, c.bridge, c.id);
    if c.id in st.files && t.nameReadable
    then kept.(reservations := kept.reservations - multiset{(st.files[c.id], c.id)})
    else kept
  }

  /** Releases a container that is not in the repository. */
  function ReleaseContainer(cfg: Config, w: World, c: Container, t: Teardown): (w': World)
  {
    var (pool, ok) := Released(cfg.start, cfg.size, w.pool, c.id, c.network, c.ports, t);
    var lost := AfterTearDown(w.lost, w.pool, c, t);
    World(pool, w.store, if ok then lost else WithNetwork(lost, c))
  }

  function NewContainer(handle: string, id: string, net: Network, bridge: string): (c: Container)
  {
    Container(id, HandleFor(handle, id), net, bridge, [], [])
  }

  /** `acq` is the subnet pool's answer, `started` whether the container starts and its limits apply. */
  function Created(
    cfg: Config, w: World, handle: string, id: string, acq: Result<Network, Error>, name: string,
    f: SetUp, t: Teardown, started: bool, t2: Teardown): (w': World)
  {
    if Refusal(cfg, w, handle).Some? then w
    else
      var (pool, bridge) := Acquired(w.pool, id, acq, name, f, t);
      var w1 := w.(pool := pool);
      if bridge.None? || !acq.Ok? then
        if ReservationLeaks(w.pool, acq, f, t)
        then w1.(lost := WithReservation(w.lost, BridgeMgr.BridgeFor(w.pool.maps, acq.value.subnet, name), id))
        else w1
      else
        var c := NewContainer(handle, id, acq.value, bridge.value);
        if started then w1.(store := w1.store[c.handle := c]) else ReleaseContainer(cfg, w1, c, t2)
  }

  function Destroyed(cfg: Config, w: World, handle: string, cleaned: bool, t: Teardown): (w': World)
  {
    if handle !in w.store then w
    else
      var c := w.store[handle];
      var w1 := w.(store := w.store - {handle});
      if cleaned then ReleaseContainer(cfg, w1, c, t) else Abandon(w1, c)
  }

  function Mapped(w: World, handle: string, hostPort: Port, containerPort: Port, scriptRun: bool): (r: (World, bool))
    requires handle in w.store
  {
    if hostPort == 0 && w.pool.free == [] then (w, false)
    else
      var c := w.store[handle];
      var host := if hostPort == 0 then w.pool.free[0] else hostPort;
      var inner := if containerPort == 0 then host else containerPort;
      var w1 :=
        if hostPort == 0
        then w.(pool := w.pool.(free := w.pool.free[1..]), store := w.store[handle := c.(ports := c.ports + [host])])
        else w;
      if !scriptRun then (w1, false)
      else
        var c1 := w1.store[handle];
        (w1.(store := w1.store[handle := c1.(netIns := c1.netIns + [(host, inner)])]), true)
  }

  /** Re-establishing port mappings, up to the first that fails; one script answer each. */
  function Replayed(w: World, handle: string, netIns: seq<(Port, Port)>, scripts: seq<bool>): (w': World)
    requires handle in w.store
    decreases |netIns|
  {
    if netIns == [] || scripts == [] then w
    else
      var (w1, ok) := Mapped(w, handle, netIns[0].0, netIns[0].1, scripts[0]);
      if ok then Replayed(w1, handle, netIns[1..], scripts[1..]) else w1
  }

  /** A restore that gets through its ports. */
  predicate Taken(w: World, s: Snapshot)
  {
    ReachesPorts(w.pool, s) && TakePorts(w.pool.free, s.ports).1
  }

  function RestoredContainer(s: Snapshot): (c: Container)
    requires s.ip.Some?
  {
    Container(s.id, s.handle, Network(s.subnet, s.ip.value), s.bridge, s.ports, s.netIns)
  }

  function RestoredWorld(cfg: Config, w: World, s: Snapshot, versionRead: bool, scripts: seq<bool>): (w': World)
  {
    var (pool, ok) := Restored(cfg.start, cfg.size, w.pool, s, versionRead);
    var w1 := w.(pool := pool);
    if Taken(w, s) && !versionRead then Abandon(w1, RestoredContainer(s))
    else if FailsAtPort(w.pool, s) then w1.(lost := WithReservation(w.lost, s.bridge, s.id))
    else if !ok || s.ip.None? then w1
    else Replayed(w1.(store := w1.store[s.handle := RestoredContainer(s)]), s.handle, s.netIns, scripts)
  }

  // ----- the backend

  /** Create succeeds exactly if the network, the set-up and the start did. */
  predicate CreateResult(
    acq: Result<Network, Error>, bridge: Option<string>, handle: string, id: string, started: bool,
    r: Result<Container, Problem>)
  {
    match acq
    case Panic => r == Panic
    case Err(e) => r == Err(PoolFailed(NetworkFailed(e)))
    case Ok(net) =>
      if bridge.None? then r == Err(PoolFailed(SetUpFailed))
      else r == if started then Ok(NewContainer(handle, id, net, bridge.value)) else Err(StartFailed)
  }

  /** What Create makes of the pool's answer. */
  predicate Admitted(
    acquired: Result<(Network, string), Failure>, handle: string, id: string, started: bool,
    r: Result<Container, Problem>)
  {
    match acquired
    case Panic => r == Panic
    case Err(e) => r == Err(PoolFailed(e))
    case Ok((net, bridge)) =>
      r == if started then Ok(Container(id, handle, net, bridge, [], [])) else Err(StartFailed)
  }

  class LinuxBackend {
    const pool: ResourcePool.Pool
    const maxContainers: int
    var store: map<string, Container>
    ghost var lost: Lost

    constructor (pool: ResourcePool.Pool, maxContainers: int)
      ensures this.pool == pool && this.maxContainers == maxContainers
      ensures store == map[] && lost == NOTHING
    {
      this.pool, this.maxContainers, this.store, this.lost := pool, maxContainers, map[], NOTHING;
    }

    function Cfg(): (cfg: Config)
    {
      Config(pool.subnetPool.dynamicRange, pool.portPool.start, pool.portPool.size, maxContainers)
    }

    ghost function Now(): (w: World)
      reads this, pool, pool.subnetPool, pool.portPool, pool.bridges
    {
      World(pool.Now(), store, lost)
    }

    method Create(
      handle: string, spec: NetworkSpec, id: string, name: string, f: SetUp, t: Teardown, started: bool, t2: Teardown)
      returns (r: Result<Container, Problem>)
      modifies this, pool, pool.subnetPool, pool.portPool, pool.bridges
      ensures Refusal(Cfg(), old(Now()), handle).Some? ==> r == Err(Refusal(Cfg(), old(Now()), handle).value)
      ensures Refusal(Cfg(), old(Now()), handle).None? && spec.Malformed? ==> r == Err(PoolFailed(BadNetworkSpec))
      ensures Refusal(Cfg(), old(Now()), handle).Some? || spec.Malformed? ==> Now() == old(Now())
      ensures !spec.Malformed? ==> ParseNetworkSpec(spec).Some?
      ensures Refusal(Cfg(), old(Now()), handle).None? && !spec.Malformed? ==>
        var (subnetSel, ipSel) := ParseNetworkSpec(spec).value;
        exists acq ::
          && SubnetPool.AcquireSpec(Cfg().dynamic, old(Now()).pool.alloc, subnetSel, ipSel, acq)
          && Now() == Created(Cfg(), old(Now()), handle, id, acq, name, f, t, started, t2)
          && CreateResult(acq, Acquired(old(Now()).pool, id, acq, name, f, t).1, handle, id, started, r)
      ensures
        && SubnetPool.Inv(Cfg().dynamic, old(Now()).pool.alloc) && !spec.Malformed?
        && Refusal(Cfg(), old(Now()), handle).None? ==>
          exists acquired ::
            && Fulfilled(Cfg().dynamic, old(Now()).pool, spec, name, f, acquired)
            && Admitted(acquired, if handle != "" then handle else id, id, started, r)
      ensures handle != "" && handle in old(store) ==> r == Err(HandleExists) && Now() == old(Now())
      ensures maxContainers > 0 && |old(store)| >= maxContainers && (handle == "" || handle !in old(store)) ==>
        r == Err(MaxContainersReached) && Now() == old(Now())
      ensures r.Ok? ==>
        && started && r.value.id == id && r.value.handle == (if handle != "" then handle else id)
        && r.value.ports == [] && r.value.netIns == [] && store == old(store)[r.value.handle := r.value]
      ensures !r.Ok? ==> store == old(store)
    {
      hide SubnetPool.AcquireSpec, Acquired, ReleaseContainer, SubnetPool.Drop, BridgeMgr.Released, Canonical;
      hide BridgeReady, WithReservation, ReservesBridge, Fulfilled, SubnetPool.Inv;
      ghost var before := Now();
      if handle != "" && handle in store {
        return Err(HandleExists);
      }
      if maxContainers > 0 && |store| >= maxContainers {
        return Err(MaxContainersReached);
      }
      var acquired := pool.Acquire(spec, id, name, f, t);
      if spec.Malformed? {
        return Err(PoolFailed(BadNetworkSpec));
      }
      ghost var acq :|
        && SubnetPool.AcquireSpec(
             Cfg().dynamic, before.pool.alloc, ParseNetworkSpec(spec).value.0, ParseNetworkSpec(spec).value.1, acq)
        && pool.Now() == Acquired(before.pool, id, acq, name, f, t).0
        && AcquireResult(acq, Acquired(before.pool, id, acq, name, f, t).1, acquired);
      if !acquired.Ok? && ReservationLeaks(before.pool, acq, f, t) {
        lost := WithReservation(lost, BridgeMgr.BridgeFor(before.pool.maps, acq.value.subnet, name), id);
      }
      match acquired {
        case Panic => r := Panic;
        case Err(e) => r := Err(PoolFailed(e));
        case Ok((net, bridge)) => r := Admit(NewContainer(handle, id, net, bridge), started, t2);
      }
      assert Now() == Created(Cfg(), before, handle, id, acq, name, f, t, started, t2);
      assert CreateResult(acq, Acquired(before.pool, id, acq, name, f, t).1, handle, id, started, r);
    }

    /** Starts a container; if that fails its resources are released again. */
    method Admit(c: Container, started: bool, t: Teardown) returns (r: Result<Container, Problem>)
      modifies this, pool, pool.subnetPool, pool.portPool, pool.bridges
      ensures started ==> r == Ok(c) && Now() == old(Now()).(store := old(store)[c.handle := c])
      ensures !started ==>
        r == Err(StartFailed) && Now() == ReleaseContainer(Cfg(), old(Now()), c, t) && store == old(store)
    {
      hide Released, AfterTearDown;
      if !started {
        lost := AfterTearDown(lost, pool.Now(), c, t);
        var ok := pool.Release(c.id, c.network, c.ports, t);
        if !ok {
          lost := WithNetwork(lost, c);
        }
        return Err(StartFailed);
      }
      store := store[c.handle := c];
      return Ok(c);
    }

    method Destroy(handle: string, cleaned: bool, t: Teardown) returns (r: Result<(), Problem>)
      modifies this, pool, pool.subnetPool, pool.portPool, pool.bridges
      ensures Now() == Destroyed(Cfg(), old(Now()), handle, cleaned, t)
      ensures handle !in old(store) ==> r == Err(NotFound)
      ensures handle in old(store) && !cleaned ==> r == Err(CleanUpFailed)
      ensures handle in old(store) && cleaned ==>
        var c := old(store)[handle];
        var (_, ok) := Released(Cfg().start, Cfg().size, old(pool.Now()), c.id, c.network, c.ports, t);
        r == if ok then Ok(()) else Err(PoolFailed(TeardownFailed))
    {
      hide Released, AfterTearDown;
      if handle !in store {
        return Err(NotFound);
      }
      var c := store[handle];
      store := store - {handle};
      if !cleaned {
        lost := WithNetwork(WithReservation(lost, c.bridge, c.id), c);
        return Err(CleanUpFailed);
      }
      lost := AfterTearDown(lost, pool.Now(), c, t);
      var ok := pool.Release(c.id, c.network, c.ports, t);
      if !ok {
        lost := WithNetwork(lost, c);
        return Err(PoolFailed(TeardownFailed));
      }
      return Ok(());
    }

    method NetIn(
      handle: string, hostPort: Port, containerPort: Port, scriptRun: bool)
      returns (r: Result<(Port, Port), Problem>)
      requires handle in store
      modifies this, pool.portPool
      ensures (Now(), r.Ok?) == Mapped(old(Now()), handle, hostPort, containerPort, scriptRun)
      ensures store.Keys == old(store.Keys)
      ensures
        var c, free := old(store[handle]), old(pool.portPool.pool);
        if hostPort == 0 && free == [] then r == Err(PortsExhausted) && store[handle] == c
        else
          var host := if hostPort != 0 then hostPort else free[0];
          var mapping := (host, if containerPort != 0 then containerPort else host);
          && r == (if scriptRun then Ok(mapping) else Err(ScriptFailed))
          && store[handle].ports == c.ports + (if hostPort == 0 then [host] else [])
          && store[handle].netIns == c.netIns + (if scriptRun then [mapping] else [])
          && pool.portPool.pool == (if hostPort == 0 then free[1..] else free)
    {
      var host := hostPort;
      if host == 0 {
        var random := pool.portPool.Acquire();
        if !random.Ok? {
          return Err(PortsExhausted);
        }
        host := random.value;
        store := store[handle := store[handle].(ports := store[handle].ports + [host])];
      }
      var inner := if containerPort == 0 then host else containerPort;
      if !scriptRun {
        return Err(ScriptFailed);
      }
      store := store[handle := store[handle].(netIns := store[handle].netIns + [(host, inner)])];
      return Ok((host, inner));
    }

    method Restore(s: Snapshot, versionRead: bool, scripts: seq<bool>) returns (ok: bool)
      modifies this, pool, pool.subnetPool, pool.portPool, pool.bridges
      ensures Now() == RestoredWorld(Cfg(), old(Now()), s, versionRead, scripts)
      ensures ok == Restored(Cfg().start, Cfg().size, old(pool.Now()), s, versionRead).1
      ensures ok ==> s.handle in store
    {
      hide Replayed, SubnetPool.Holds, BridgeMgr.RereserveError;
      hide TakePorts, BridgeMgr.Rereserved, GiveBack, WithReservation;
      ghost var before := Now();
      ok := pool.Restore(s, versionRead);
      if !ok {
        if Taken(before, s) {
          lost := WithNetwork(WithReservation(lost, s.bridge, s.id), RestoredContainer(s));
        } else if FailsAtPort(before.pool, s) {
          lost := WithReservation(lost, s.bridge, s.id);
        }
        return;
      }
      store := store[s.handle := RestoredContainer(s)];
      Replay(s.handle, s.netIns, scripts);
    }

    method Replay(handle: string, netIns: seq<(Port, Port)>, scripts: seq<bool>)
      requires handle in store
      modifies this, pool.portPool
      ensures Now() == Replayed(old(Now()), handle, netIns, scripts) && handle in store
    {
      hide Mapped;
      var i := 0;
      while i < |netIns| && i < |scripts|
        invariant 0 <= i <= |netIns| && i <= |scripts|
        invariant handle in store
        invariant Replayed(Now(), handle, netIns[i..], scripts[i..]) == Replayed(old(Now()), handle, netIns, scripts)
      {
        assert netIns[i..][1..] == netIns[i + 1..] && scripts[i..][1..] == scripts[i + 1..];
        var mapped := NetIn(handle, netIns[i].0, netIns[i].1, scripts[i]);
        if !mapped.Ok? {
          return;
        }
        i := i + 1;
      }
    }
  }
}
