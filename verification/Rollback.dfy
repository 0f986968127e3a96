/** What a failed Acquire or Restore leaves behind (resource_pool/resource_pool.go). */
module Rollback {
  import opened Outcomes
  import opened Collections
  import opened IPUtil
  import opened Subnets
  import SubnetPool
  import PortPool
  import BridgeMgr
  import opened ResourcePool

  // ----- Acquire

  lemma WithoutLast(ids: seq<string>, id: string)
    requires id !in ids
    ensures BridgeMgr.WithoutFirst(ids + [id], id) == ids
  {
    assert (ids + [id])[..|ids|] == ids;
    BridgeMgr.WithoutFirstAt(ids + [id], id, |ids|);
  }

  /** Releasing a reservation just made restores the three maps. */
  lemma ReleaseUndoesReserve(st: BridgeMgr.Maps, subnet: CIDR, id: string, name: string)
    requires BridgeMgr.Inv(st) && (subnet in st.subnetBridge || !BridgeMgr.IsReserved(st, name))
    requires id !in BridgeMgr.OwnersOf(st, BridgeMgr.BridgeFor(st, subnet, name))
    ensures var b := BridgeMgr.BridgeFor(st, subnet, name);
      BridgeMgr.Released(BridgeMgr.Reserved(st, subnet, id, name), b, id) == st
  {
    hide Canonical, BridgeMgr.WithoutFirst;
    var b := BridgeMgr.BridgeFor(st, subnet, name);
    WithoutLast(BridgeMgr.OwnersOf(st, b), id);
  }

  lemma ReserveChangesMaps(st: BridgeMgr.Maps, subnet: CIDR, id: string, name: string)
    ensures BridgeMgr.Reserved(st, subnet, id, name) != st
  {
    hide Canonical;
    BridgeMgr.OwnersReserved(st, subnet, id, name, BridgeMgr.BridgeFor(st, subnet, name));
  }

  /** The set-up got as far as a bridge reservation that the teardown cannot find again. */
  predicate ReservationLeaks(st: State, acq: Result<Network, Error>, f: SetUp, t: Teardown)
  {
    acq.Ok? && ReservesBridge(st, acq.value, f) && (!f.nameSaved || !t.nameReadable)
  }

  lemma TearDownMaps(st: State, id: string, t: Teardown)
    ensures var st' := TearDown(st, id, t).0;
      && st'.alloc == st.alloc && st'.free == st.free
      && st'.maps ==
           (if id in st.files && t.nameReadable then BridgeMgr.Released(st.maps, st.files[id], id) else st.maps)
      && st'.files - {id} == st.files - {id}
  {
    hide BridgeMgr.Released, BridgeMgr.LastOwner;
  }

  /** The set-up got as far as reserving the bridge. */
  predicate ReservesBridge(st: State, net: Network, f: SetUp)
  {
    f.dirMade && f.rootfsMade && BridgeReady(st, net, f)
  }

  /** Every step of the set-up succeeds. */
  predicate SetsUp(st: State, net: Network, f: SetUp)
  {
    ReservesBridge(st, net, f) && f.nameSaved && f.AfterName()
  }

  lemma SetsUpIff(st: State, id: string, net: Network, name: string, f: SetUp, t: Teardown)
    ensures Acquired(st, id, Ok(net), name, f, t).1.Some? <==> SetsUp(st, net, f)
  {
    hide SubnetPool.Drop, SubnetPool.Add, BridgeMgr.Reserved, TearDown, Canonical;
  }

  lemma FailedSetUpState(st: State, id: string, net: Network, name: string, f: SetUp, t: Teardown)
    requires Acquired(st, id, Ok(net), name, f, t).1.None?
    ensures var st' := Acquired(st, id, Ok(net), name, f, t).0;
      var b := BridgeMgr.BridgeFor(st.maps, net.subnet, name);
      var reserved := BridgeMgr.Reserved(st.maps, net.subnet, id, name);
      && st'.alloc == SubnetPool.Drop(SubnetPool.Add(st.alloc, net), net) && st'.free == st.free
      && st'.files - {id} == st.files - {id}
      && st'.maps ==
           if !ReservesBridge(st, net, f) then st.maps
           else if f.nameSaved && t.nameReadable then BridgeMgr.Released(reserved, b, id)
           else reserved
  {
    hide SubnetPool.Drop, SubnetPool.Add, BridgeMgr.Reserved, BridgeMgr.Released, TearDown, Canonical;
    var b := BridgeMgr.BridgeFor(st.maps, net.subnet, name);
    var reserved := BridgeMgr.Reserved(st.maps, net.subnet, id, name);
    TearDownMaps(State(SubnetPool.Add(st.alloc, net), reserved, st.free, st.files[id := b]), id, t);
  }

  /** Whichever step of an Acquire fails, the network goes back exactly once and the ports stay as they were.
      The bridge maps are restored too, except exactly when the bridge's name could not be saved or read back. */
  lemma FailedAcquireRollsBack(
    dynamic: CIDR, st: State, id: string, acq: Result<Network, Error>, name: string, f: SetUp, t: Teardown)
    requires SubnetPool.Inv(dynamic, st.alloc) && BridgeMgr.Inv(st.maps)
    requires acq.Ok? ==>
      && !SubnetPool.Holds(st.alloc, acq.value)
      && (acq.value.subnet in st.maps.subnetBridge || !BridgeMgr.IsReserved(st.maps, name))
      && id !in BridgeMgr.OwnersOf(st.maps, BridgeMgr.BridgeFor(st.maps, acq.value.subnet, name))
    requires Acquired(st, id, acq, name, f, t).1.None?
    ensures var st' := Acquired(st, id, acq, name, f, t).0;
      && st'.alloc == st.alloc && st'.free == st.free
      && (st'.maps == st.maps <==> !ReservationLeaks(st, acq, f, t))
      && (ReservationLeaks(st, acq, f, t) ==> st'.maps == BridgeMgr.Reserved(st.maps, acq.value.subnet, id, name))
      && st'.files - {id} == st.files - {id}
  {
    hide SubnetPool.Drop, SubnetPool.Add, SubnetPool.Inv, SubnetPool.Holds, Canonical;
    hide BridgeMgr.Inv, BridgeMgr.Reserved, BridgeMgr.Released, SetUpSystem, ReservesBridge;
    if acq.Ok? {
      var net := acq.value;
      SubnetPool.ReleaseUndoesAcquire(dynamic, st.alloc, net);
      ReserveChangesMaps(st.maps, net.subnet, id, name);
      ReleaseUndoesReserve(st.maps, net.subnet, id, name);
      FailedSetUpState(st, id, net, name, f, t);
    }
  }

  // ----- Restore

  lemma {:induction false} TakePortsElems(free: seq<Port>, ports: seq<Port>)
    requires NoDup(free)
    ensures var r := TakePorts(free, ports).0;
      && NoDup(r) && Elems(r) <= Elems(free)
      && (forall p | p in free && p !in ports :: p in r)
    ensures TakePorts(free, ports).1 ==>
      && NoDup(ports) && Elems(ports) <= Elems(free) && Elems(TakePorts(free, ports).0) == Elems(free) - Elems(ports)
    ensures NoDup(ports) && Elems(ports) <= Elems(free) ==> TakePorts(free, ports).1
    decreases |ports|
  {
    if ports != [] && ports[0] in free {
      var p, rest := ports[0], ports[1..];
      PortPool.WithoutNoDup(free, p);
      var free' := PortPool.Without(free, p);
      TakePortsElems(free', rest);
      assert forall q :: q in free' <==> q in Elems(free') ;
      assert forall q :: q in ports <==> q == p || q in rest;
      if TakePorts(free', rest).1 {
        TakenHead(free, ports);
      }
      if NoDup(ports) && Elems(ports) <= Elems(free) {
        assert Elems(rest) <= Elems(free') by {
          forall q | q in rest
            ensures q in free'
          {
            assert q in Elems(ports) && q != p;
          }
        }
      }
    } else if ports != [] {
      assert ports[0] in Elems(ports);
    }
  }

  lemma TakenHead(free: seq<Port>, ports: seq<Port>)
    requires ports != [] && NoDup(free) && ports[0] in free
    requires var free' := PortPool.Without(free, ports[0]);
      NoDup(ports[1..]) && Elems(ports[1..]) <= Elems(free') && Elems(free') == Elems(free) - {ports[0]}
    ensures NoDup(ports) && Elems(ports) <= Elems(free) && Elems(ports) == Elems(ports[1..]) + {ports[0]}
  {
    hide PortPool.Without;
    var rest := ports[1..];
    assert ports == [ports[0]] + rest;
    assert Elems(ports) == Elems(rest) + {ports[0]};
    assert ports[0] !in Elems(rest) && ports[0] in Elems(free);
    forall i, j | 0 <= i < j < |ports|
      ensures ports[i] != ports[j]
    {
      assert ports[j] == rest[j - 1] && rest[j - 1] in Elems(rest);
      if i > 0 {
        assert ports[i] == rest[i - 1];
      }
    }
  }

  lemma {:induction false} ReleasePortsElems(start: Port, size: Port, free: seq<Port>, ports: seq<Port>)
    requires PortPool.Inv(start, size, free)
    ensures var r := ReleasePorts(start, size, free, ports);
      && PortPool.Inv(start, size, r)
      && forall p :: p in r <==> p in free || (p in ports && PortPool.InRange(start, size, p))
    decreases |ports|
  {
    if ports != [] {
      var free' := PortPool.Returned(start, size, free, ports[0]);
      PortPool.AfterFree(start, size, free, PortPool.Release(ports[0]));
      assert forall p :: p in free' <==> p in Elems(free');
      ReleasePortsElems(start, size, free', ports[1..]);
      assert forall p :: p in ports <==> p == ports[0] || p in ports[1..];
    }
  }

  /** A Restore gets its network and its bridge. */
  predicate ReachesPorts(st: State, s: Snapshot)
  {
    && s.ip.Some? && !SubnetPool.Holds(st.alloc, Network(s.subnet, s.ip.value))
    && BridgeMgr.RereserveError(st.maps, s.bridge, s.subnet).None?
  }

  /** A Restore reached its ports and found one that is not free. */
  predicate FailsAtPort(st: State, s: Snapshot)
  {
    ReachesPorts(st, s) && !TakePorts(st.free, s.ports).1
  }

  /** A Restore that fails at a port gives the network back. It gives back every port it lists, so the free
      ports are as before exactly when each listed port of the range was free: otherwise a port held by
      another container becomes free. */
  lemma FailedRestoreRollsBack(dynamic: CIDR, start: Port, size: Port, st: State, s: Snapshot, versionRead: bool)
    requires SubnetPool.Inv(dynamic, st.alloc) && PortPool.Inv(start, size, st.free) && FailsAtPort(st, s)
    ensures var (st', ok) := Restored(start, size, st, s, versionRead);
      && !ok && st'.alloc == st.alloc && st'.files == st.files && PortPool.Inv(start, size, st'.free)
      && (forall p :: p in st'.free <==> p in st.free || (p in s.ports && PortPool.InRange(start, size, p)))
      && (Elems(st'.free) == Elems(st.free) <==>
            forall p | p in s.ports && PortPool.InRange(start, size, p) :: p in st.free)
  {
    hide SubnetPool.Drop, SubnetPool.Add, SubnetPool.Inv, BridgeMgr.Rereserved;
    hide TakePorts, ReleasePorts, Canonical, PortPool.InRange;
    var net := Network(s.subnet, s.ip.value);
    SubnetPool.ReleaseUndoesAcquire(dynamic, st.alloc, net);
    TakePortsElems(st.free, s.ports);
    var free := TakePorts(st.free, s.ports).0;
    assert PortPool.Inv(start, size, free) by {
      assert forall p | p in free :: p in Elems(free);
    }
    ReleasePortsElems(start, size, free, s.ports);
    var free' := ReleasePorts(start, size, free, s.ports);
    forall p
      ensures p in free' <==> p in st.free || (p in s.ports && PortPool.InRange(start, size, p))
    {
      assert p in free ==> p in Elems(free);
    }
    ElemsSame(st.free, free');
  }

  lemma ElemsSame(a: seq<Port>, b: seq<Port>)
    ensures Elems(a) == Elems(b) <==> forall p :: p in a <==> p in b
  {
    if Elems(a) == Elems(b) {
      forall p
        ensures p in a <==> p in b
      {
        assert p in Elems(a) <==> p in Elems(b);
      }
    }
  }

  /** A Restore that fails earlier changes nothing. */
  lemma EarlyFailedRestoreChangesNothing(
    dynamic: CIDR, start: Port, size: Port, st: State, s: Snapshot, versionRead: bool)
    requires SubnetPool.Inv(dynamic, st.alloc)
    requires !ReachesPorts(st, s)
    ensures Restored(start, size, st, s, versionRead) == (st, false)
  {
    hide SubnetPool.Drop, SubnetPool.Add, SubnetPool.Inv, BridgeMgr.Rereserved, TakePorts, Canonical;
    if s.ip.Some? && !SubnetPool.Holds(st.alloc, Network(s.subnet, s.ip.value)) {
      SubnetPool.ReleaseUndoesAcquire(dynamic, st.alloc, Network(s.subnet, s.ip.value));
    }
  }
}
