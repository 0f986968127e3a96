/** Acquiring, restoring and releasing what a container needs (resource_pool/resource_pool.go). System steps
    that may fail are inputs: each says whether the step succeeds. */
module ResourcePool {
  import opened Outcomes
  import opened IPUtil
  import opened Subnets
  import SubnetPool
  import PortPool
  import BridgeMgr
  import opened Requests

  type Port = PortPool.U32

  // ----- inputs

  /** Which set-up steps succeed. */
  datatype SetUp = SetUp(
    dirMade: bool, rootfsMade: bool, bridgeMade: bool, nameSaved: bool, scriptRun: bool,
    providerSaved: bool, versionSaved: bool, bindMounts: bool, filterSet: bool, envParsed: bool)
  {
    predicate AfterName()
    {
      scriptRun && providerSaved && versionSaved && bindMounts && filterSet && envParsed
    }
  }

  /** Which teardown steps succeed. When the destroy script fails the depot directory may be gone or not. */
  datatype Teardown = Teardown(
    nameReadable: bool, bridgeDestroyed: bool, tablesDone: bool, scriptDone: bool, dirRemoved: bool, rootfsDone: bool)

  datatype Snapshot = Snapshot(
    id: string, handle: string, subnet: CIDR, ip: Option<IP>, bridge: string, ports: seq<Port>,
    netIns: seq<(Port, Port)>)

  datatype Failure = BadNetworkSpec | NetworkFailed(error: Error) | SetUpFailed | TeardownFailed | RestoreFailed

  // ----- the pool's state and what each operation makes of it

  /** Subnets, bridge maps, free ports, and the bridge-name files in the depot. */
  datatype State = State(alloc: Allocation, maps: BridgeMgr.Maps, free: seq<Port>, files: map<string, string>)

  function WithoutFile(st: State, id: string): (st': State)
  {
    st.(files := st.files - {id})
  }

  /** releaseSystemResources after the bridge has been let go. */
  function TearDownRest(st: State, id: string, t: Teardown): (r: (State, bool))
  {
    if !t.tablesDone then (st, false)
    else (if t.scriptDone || t.dirRemoved then WithoutFile(st, id) else st, t.scriptDone && t.rootfsDone)
  }

  function TearDown(st: State, id: string, t: Teardown): (r: (State, bool))
  {
    if id in st.files && t.nameReadable then
      var b := st.files[id];
      var st' := st.(maps := BridgeMgr.Released(st.maps, b, id));
      if BridgeMgr.LastOwner(st.maps, b, id) && !t.bridgeDestroyed then (st', false) else TearDownRest(st', id, t)
    else TearDownRest(st, id, t)
  }

  function ReleasePorts(start: Port, size: Port, free: seq<Port>, ports: seq<Port>): (free': seq<Port>)
    decreases |ports|
  {
    if ports == [] then free else ReleasePorts(start, size, PortPool.Returned(start, size, free, ports[0]), ports[1..])
  }

  function GiveBack(start: Port, size: Port, st: State, net: Network, ports: seq<Port>): (st': State)
  {
    st.(free := ReleasePorts(start, size, st.free, ports), alloc := SubnetPool.Drop(st.alloc, net))
  }

  function Unacquired(st: State, net: Network): (st': State)
  {
    st.(alloc := SubnetPool.Drop(st.alloc, net))
  }

  function BridgeReady(st: State, net: Network, f: SetUp): (ready: bool)
  {
    net.subnet in st.maps.subnetBridge || f.bridgeMade
  }

  /** Everything Acquire does once it has the network. */
  function SetUpSystem(
    st: State, id: string, net: Network, name: string, f: SetUp, t: Teardown): (r: (State, Option<string>))
  {
    if !f.dirMade then (Unacquired(st, net), None)
    else if !f.rootfsMade || !BridgeReady(st, net, f) then (Unacquired(WithoutFile(st, id), net), None)
    else
      var b := BridgeMgr.BridgeFor(st.maps, net.subnet, name);
      var reserved := st.(maps := BridgeMgr.Reserved(st.maps, net.subnet, id, name));
      if !f.nameSaved then (Unacquired(WithoutFile(reserved, id), net), None)
      else
        var saved := reserved.(files := reserved.files[id := b]);
        if f.AfterName() then (saved, Some(b)) else (Unacquired(TearDown(saved, id, t).0, net), None)
  }

  function Acquired(
    st: State, id: string, acq: Result<Network, Error>, name: string, f: SetUp,
    t: Teardown): (r: (State, Option<string>))
  {
    match acq
    case Ok(net) => SetUpSystem(st.(alloc := SubnetPool.Add(st.alloc, net)), id, net, name, f, t)
    case _ => (st, None)
  }

  function Released(
    start: Port, size: Port, st: State, id: string, net: Network, ports: seq<Port>, t: Teardown): (r: (State, bool))
  {
    var (st', ok) := TearDown(st, id, t);
    if ok then (GiveBack(start, size, st', net, ports), true) else (st', false)
  }

  /** Taking ports out of the free list one after the other, up to the first that is not free. */
  function TakePorts(free: seq<Port>, ports: seq<Port>): (r: (seq<Port>, bool))
    decreases |ports|
  {
    if ports == [] then (free, true)
    else if ports[0] !in free then (free, false)
    else TakePorts(PortPool.Without(free, ports[0]), ports[1..])
  }

  function Restored(start: Port, size: Port, st: State, s: Snapshot, versionRead: bool): (r: (State, bool))
  {
    if s.ip.None? || SubnetPool.Holds(st.alloc, Network(s.subnet, s.ip.value)) then (st, false)
    else
      var net := Network(s.subnet, s.ip.value);
      var held := st.(alloc := SubnetPool.Add(st.alloc, net));
      if BridgeMgr.RereserveError(st.maps, s.bridge, s.subnet).Some? then (Unacquired(held, net), false)
      else
        var reserved := held.(maps := BridgeMgr.Rereserved(held.maps, s.bridge, s.subnet, s.id));
        var (free, taken) := TakePorts(st.free, s.ports);
        if !taken then (GiveBack(start, size, reserved.(free := free), net, s.ports), false)
        else (reserved.(free := free), versionRead)
  }

  // ----- what Acquire comes to

  predicate AcquireResult(acq: Result<Network, Error>, bridge: Option<string>, r: Result<(Network, string), Failure>)
  {
    match acq
    case Panic => r == Panic
    case Err(e) => r == Err(NetworkFailed(e))
    case Ok(net) => r == if bridge.Some? then Ok((net, bridge.value)) else Err(SetUpFailed)
  }

  /** Every step of the set-up succeeds; a bridge is made only for a subnet that has none. */
  predicate AllSteps(f: SetUp, hasBridge: bool)
  {
    && f.dirMade && f.rootfsMade && (hasBridge || f.bridgeMade) && f.nameSaved && f.scriptRun
    && f.providerSaved && f.versionSaved && f.bindMounts && f.filterSet && f.envParsed
  }

  /** The specification gets its network and the bridge of that subnet, unless it is refused or a step fails. */
  ghost predicate Fulfilled(
    dynamic: CIDR, st: State, spec: NetworkSpec, name: string, f: SetUp, r: Result<(Network, string), Failure>)
  {
    if Grantable(dynamic, st.alloc, spec) then
      exists net :: Grants(dynamic, st.alloc, spec, net) &&
        var bridges := st.maps.subnetBridge;
        if !AllSteps(f, net.subnet in bridges) then r == Err(SetUpFailed)
        else r == Ok((net, if net.subnet in bridges then bridges[net.subnet] else name))
    else
      match RefusedWith(dynamic, st.alloc, spec)
      case Err(e) => r == Err(NetworkFailed(e))
      case _ => r == Panic
  }

  lemma SetUpBridge(st: State, id: string, net: Network, name: string, f: SetUp, t: Teardown)
    ensures Acquired(st, id, Ok(net), name, f, t).1 ==
      if !AllSteps(f, net.subnet in st.maps.subnetBridge) then None
      else if net.subnet in st.maps.subnetBridge then Some(st.maps.subnetBridge[net.subnet])
      else Some(name)
  {
    hide SubnetPool.Drop, SubnetPool.Add, BridgeMgr.Reserved, TearDown, Canonical;
  }

  lemma IsFulfilled(
    dynamic: CIDR, st: State, spec: NetworkSpec, acq: Result<Network, Error>, id: string, name: string,
    f: SetUp, t: Teardown)
    requires SubnetPool.Inv(dynamic, st.alloc) && ParseNetworkSpec(spec).Some?
    requires SubnetPool.AcquireSpec(
      dynamic, st.alloc, ParseNetworkSpec(spec).value.0, ParseNetworkSpec(spec).value.1, acq)
    ensures forall r | AcquireResult(acq, Acquired(st, id, acq, name, f, t).1, r) ::
      Fulfilled(dynamic, st, spec, name, f, r)
  {
    hide SubnetPool.Inv, SubnetPool.AcquireSpec, Answers, AllSteps, Acquired, Fulfilled, AcquireResult, Canonical;
    RequestExact(dynamic, st.alloc, spec, acq);
    if acq.Ok? {
      SetUpBridge(st, id, acq.value, name, f, t);
    }
    forall r | AcquireResult(acq, Acquired(st, id, acq, name, f, t).1, r)
      ensures Fulfilled(dynamic, st, spec, name, f, r)
    {
      AnsweredIsFulfilled(dynamic, st, spec, acq, name, f, Acquired(st, id, acq, name, f, t).1, r);
    }
  }

  lemma AnsweredIsFulfilled(
    dynamic: CIDR, st: State, spec: NetworkSpec, acq: Result<Network, Error>, name: string, f: SetUp,
    bridge: Option<string>, r: Result<(Network, string), Failure>)
    requires Answers(dynamic, st.alloc, spec, acq) && AcquireResult(acq, bridge, r)
    requires acq.Ok? ==>
      var bridges, subnet := st.maps.subnetBridge, acq.value.subnet;
      bridge ==
        if !AllSteps(f, subnet in bridges) then None
        else if subnet in bridges then Some(bridges[subnet])
        else Some(name)
    ensures Fulfilled(dynamic, st, spec, name, f, r)
  {
    RefusedIsNotOk(dynamic, st.alloc, spec);
    hide Grantable, Grants, RefusedWith, AllSteps, Canonical;
  }

  // ----- the pool

  class Pool {
    const subnetPool: SubnetPool.Pool
    const portPool: PortPool.Pool
    const bridges: BridgeMgr.Mgr
    var files: map<string, string>

    constructor (subnetPool: SubnetPool.Pool, portPool: PortPool.Pool, bridges: BridgeMgr.Mgr)
      ensures this.subnetPool == subnetPool && this.portPool == portPool && this.bridges == bridges && files == map[]
    {
      this.subnetPool, this.portPool, this.bridges, this.files := subnetPool, portPool, bridges, map[];
    }

    function Now(): (st: State)
      reads this, subnetPool, portPool, bridges
    {
      State(subnetPool.allocation, bridges.Now(), portPool.pool, files)
    }

    /** `name` is what the bridge name generator would yield. */
    method Acquire(spec: NetworkSpec, id: string, name: string, f: SetUp, t: Teardown)
      returns (r: Result<(Network, string), Failure>)
      modifies this, subnetPool, bridges
      ensures spec.Malformed? ==> r == Err(BadNetworkSpec) && Now() == old(Now())
      ensures !spec.Malformed? ==> ParseNetworkSpec(spec).Some?
      ensures !spec.Malformed? ==>
        var (subnetSel, ipSel) := ParseNetworkSpec(spec).value;
        exists acq ::
          && SubnetPool.AcquireSpec(subnetPool.dynamicRange, old(subnetPool.allocation), subnetSel, ipSel, acq)
          && Now() == Acquired(old(Now()), id, acq, name, f, t).0
          && AcquireResult(acq, Acquired(old(Now()), id, acq, name, f, t).1, r)
      ensures !spec.Malformed? && SubnetPool.Inv(subnetPool.dynamicRange, old(subnetPool.allocation)) ==>
        Fulfilled(subnetPool.dynamicRange, old(Now()), spec, name, f, r)
    {
      hide SubnetPool.AcquireSpec, SubnetPool.Inv, SubnetPool.Drop, BridgeMgr.Reserved, BridgeMgr.Released;
      ParsedIff(spec);
      var sel := ParseNetworkSpec(spec);
      if sel.None? {
        return Err(BadNetworkSpec);
      }
      ghost var before := Now();
      var (subnetSel, ipSel) := sel.value;
      var acq := subnetPool.Acquire(subnetSel, ipSel);
      if SubnetPool.Inv(subnetPool.dynamicRange, before.alloc) {
        IsFulfilled(subnetPool.dynamicRange, before, spec, acq, id, name, f, t);
      }
      match acq {
        case Panic => return Panic;
        case Err(e) => return Err(NetworkFailed(e));
        case Ok(net) =>
          assert Now() == before.(alloc := SubnetPool.Add(before.alloc, net));
          var bridge := AcquireSystem(id, net, name, f, t);
          if bridge.None? {
            var _ := subnetPool.Release(net);
            return Err(SetUpFailed);
          }
          return Ok((net, bridge.value));
      }
    }

    /** acquireSystemResources and the steps after it; on failure the network is not yet given back. */
    method AcquireSystem(id: string, net: Network, name: string, f: SetUp, t: Teardown) returns (bridge: Option<string>)
      modifies this, bridges
      ensures bridge == SetUpSystem(old(Now()), id, net, name, f, t).1
      ensures bridge.Some? ==> Now() == SetUpSystem(old(Now()), id, net, name, f, t).0
      ensures bridge.None? ==> Unacquired(Now(), net) == SetUpSystem(old(Now()), id, net, name, f, t).0
    {
      hide SubnetPool.Drop, BridgeMgr.Reserved, BridgeMgr.Released;
      if !f.dirMade {
        return None;
      }
      if !f.rootfsMade {
        files := files - {id};
        return None;
      }
      var reserved := bridges.Reserve(net.subnet, id, name, f.bridgeMade);
      if !reserved.Ok? {
        files := files - {id};
        return None;
      }
      if !f.nameSaved {
        files := files - {id};
        return None;
      }
      files := files[id := reserved.value];
      if !f.AfterName() {
        var _ := ReleaseSystem(id, t);
        return None;
      }
      return Some(reserved.value);
    }

    method ReleaseSystem(id: string, t: Teardown) returns (ok: bool)
      modifies this, bridges
      ensures (Now(), ok) == TearDown(old(Now()), id, t)
    {
      hide BridgeMgr.Released, BridgeMgr.LastOwner;
      if id in files && t.nameReadable {
        var r, _ := bridges.Release(files[id], id, t.bridgeDestroyed);
        if r.Err? {
          return false;
        }
      }
      if !t.tablesDone {
        return false;
      }
      if t.scriptDone || t.dirRemoved {
        files := files - {id};
      }
      return t.scriptDone && t.rootfsDone;
    }

    method ReleasePool(net: Network, ports: seq<Port>)
      modifies subnetPool, portPool
      ensures Now() == GiveBack(portPool.start, portPool.size, old(Now()), net, ports)
    {
      hide SubnetPool.Drop, PortPool.Returned;
      ghost var target := ReleasePorts(portPool.start, portPool.size, portPool.pool, ports);
      for i := 0 to |ports|
        invariant Now() == old(Now()).(free := portPool.pool)
        invariant ReleasePorts(portPool.start, portPool.size, portPool.pool, ports[i..]) == target
      {
        portPool.Release(ports[i]);
        assert ports[i..][1..] == ports[i + 1..];
      }
      assert ports[|ports|..] == [];
      var _ := subnetPool.Release(net);
    }

    method Release(id: string, net: Network, ports: seq<Port>, t: Teardown) returns (ok: bool)
      modifies this, subnetPool, portPool, bridges
      ensures (Now(), ok) == Released(portPool.start, portPool.size, old(Now()), id, net, ports, t)
    {
      hide TearDown, GiveBack;
      ok := ReleaseSystem(id, t);
      if ok {
        ReleasePool(net, ports);
      }
    }

    method Restore(s: Snapshot, versionRead: bool) returns (ok: bool)
      modifies this, subnetPool, portPool, bridges
      ensures (Now(), ok) == Restored(portPool.start, portPool.size, old(Now()), s, versionRead)
    {
      hide SubnetPool.Drop, BridgeMgr.AddOwner, PortPool.Returned, PortPool.Without;
      var removed := subnetPool.Remove(s.subnet, s.ip);
      if !removed.Ok? {
        return false;
      }
      var net := Network(s.subnet, s.ip.value);
      var reserved := bridges.Rereserve(s.bridge, s.subnet, s.id);
      if !reserved.Ok? {
        var _ := subnetPool.Release(net);
        return false;
      }
      ghost var target := TakePorts(portPool.pool, s.ports);
      ghost var before := Now();
      for i := 0 to |s.ports|
        invariant Now() == before.(free := portPool.pool)
        invariant TakePorts(portPool.pool, s.ports[i..]) == target
      {
        assert s.ports[i..][1..] == s.ports[i + 1..];
        var free := portPool.pool;
        PortPool.WithoutIs(free, s.ports[i]);
        var taken := portPool.Remove(s.ports[i]);
        if !taken.Ok? {
          ReleasePool(net, s.ports);
          return false;
        }
      }
      assert s.ports[|s.ports|..] == [];
      return versionRead;
    }
  }
}
