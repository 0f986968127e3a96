/** Runs in which an operation breaks what one would expect of it (network/subnets/subnets.go,
    network/bridgemgr/mgr.go, resource_pool/resource_pool.go). */
module Counterexamples {
  import opened Outcomes
  import opened Arithmetic
  import opened Collections
  import opened IPUtil
  import opened Subnets
  import SubnetPool
  import PortPool
  import BridgeMgr
  import opened Requests
  import opened ResourcePool
  import opened Rollback
  import opened Accounting
  import opened Backend
  import opened BackendRuns
  import opened ExactAccounting
  import opened Replay
  import opened Restart

  // ----- some networks

  lemma Aligned(ip: IP, ones: nat, size: nat)
    requires ones <= 32 && Pow2(32 - ones) == size && Value(ip) % size == 0
    ensures Canonical(IPNet(ip, ones))
  {
    LowBitsIsMod(Value(ip), 32 - ones);
  }

  lemma Sizes()
    ensures Pow2(7) == 128 && Pow2(8) == 256 && Pow2(10) == 1024
  {
    Pow2Of8();
    assert Pow2(8) == 2 * Pow2(7);
    assert Pow2(10) == 2 * Pow2(9) && Pow2(9) == 2 * Pow2(8);
  }

  /** 10.254.0.0/22 */
  function DynamicRange(): (n: CIDR)
    ensures Base(n) == 0x0afe_0000 && Size(n) == 1024
  {
    Sizes();
    Aligned([10, 254, 0, 0], 22, 1024);
    IPNet([10, 254, 0, 0], 22)
  }

  /** 10.1.0.0/24 */
  function WholeNet(): (n: CIDR)
    ensures Base(n) == 0x0a01_0000 && Size(n) == 256
  {
    Sizes();
    Aligned([10, 1, 0, 0], 24, 256);
    IPNet([10, 1, 0, 0], 24)
  }

  /** 10.1.0.0/25 */
  function HalfNet(): (n: CIDR)
    ensures Base(n) == 0x0a01_0000 && Size(n) == 128 && n != WholeNet()
  {
    Sizes();
    Aligned([10, 1, 0, 0], 25, 128);
    IPNet([10, 1, 0, 0], 25)
  }

  /** 10.1.0.k */
  function Address(k: nat): (ip: IP)
    requires k < 256
    ensures Value(ip) == 0x0a01_0000 + k
  {
    [10, 1, 0, k]
  }

  // ----- a restored network that overlaps an allocated one

  /** After 10.1.0.0/24 has been acquired, Remove accepts an address of 10.1.0.0/25, and two overlapping subnets
      are allocated. */
  lemma OverlappingRemoveIsAccepted()
    ensures var dynamic, a, b := DynamicRange(), Network(WholeNet(), Address(5)), Network(HalfNet(), Address(6));
      var m1 := SubnetPool.Add(map[], a);
      var es := [SubnetPool.Acquired(StaticSubnet(a.subnet), StaticIP(a.ip), Ok(a))];
      && SubnetPool.Run(dynamic, es, [map[], m1])
      && !SubnetPool.Holds(m1, b) && SubnetPool.Step(dynamic, m1, SubnetPool.Removed(b), SubnetPool.Add(m1, b))
      && SubnetPool.Inv(dynamic, m1) && !SubnetPool.Inv(dynamic, SubnetPool.Add(m1, b))
  {
    hide Canonical, Value, Pow2, WholeNet, HalfNet, DynamicRange, Address;
    var dynamic, a, b := DynamicRange(), Network(WholeNet(), Address(5)), Network(HalfNet(), Address(6));
    var m1 := SubnetPool.Add(map[], a);
    SubnetPool.StaticRequestGranted(dynamic, map[], a.subnet, a.ip);
    SubnetPool.RunInvariant(dynamic, [SubnetPool.Acquired(StaticSubnet(a.subnet), StaticIP(a.ip), Ok(a))], [map[], m1]);
    assert a.subnet in m1 && !Disjoint(b.subnet, a.subnet) && b.subnet !in m1;
    SubnetPool.RemoveKeepsInvIff(dynamic, m1, b);
  }

  // ----- a second bridge for a subnet

  /** Rereserve accepts a second bridge for a subnet that has one already. */
  lemma SecondBridgeIsAccepted(subnet: CIDR, b1: string, b2: string, id: string)
    requires b1 != b2 && b2 != ""
    ensures var es := [BridgeMgr.Reserve(subnet, id, b1, true)];
      var maps := BridgeMgr.Run(es);
      && BridgeMgr.ConsistentRun(es) && BridgeMgr.Inv(maps) && BridgeMgr.RereserveError(maps, b2, subnet).None?
      && !BridgeMgr.Inv(BridgeMgr.Rereserved(maps, b2, subnet, id))
  {
    var es := [BridgeMgr.Reserve(subnet, id, b1, true)];
    assert es[..0] == [];
    assert BridgeMgr.Run(es) == BridgeMgr.Reserved(BridgeMgr.EMPTY, subnet, id, b1);
    assert BridgeMgr.ConsistentRun(es);
    hide Canonical, BridgeMgr.Inv, BridgeMgr.Run, BridgeMgr.ConsistentRun;
    BridgeMgr.EmptyInv();
    BridgeMgr.ReserveKeepsInvIff(BridgeMgr.EMPTY, subnet, id, b1);
    BridgeMgr.RereserveKeepsInvIff(BridgeMgr.Run(es), b2, subnet, id);
  }

  // ----- runs with one or two containers

  /** Every step of a teardown succeeds. */
  const TORN_DOWN := Teardown(true, true, true, true, true, true)

  /** Creating a container at 10.1.0.k, where only saving the bridge's name may fail. */
  function CreateAt(k: nat, id: string, name: string, nameSaved: bool): (op: Op)
    requires k < 256
  {
    Create(
      "", Specified(Address(k), WholeNet()), id, Ok(Network(WholeNet(), Address(k))), name,
      SetUp(true, true, true, nameSaved, true, true, true, true, true, true), TORN_DOWN, true, TORN_DOWN)
  }

  /** All subnets are 10.1.0.0/24, and neither the address nor the names are in use. */
  ghost predicate RoomFor(cfg: Config, w: World, k: nat, id: string, name: string)
  {
    && cfg.dynamic == DynamicRange() && 2 <= k < 255 && (forall n | n in w.pool.alloc :: n == WholeNet())
    && !SubnetPool.Holds(w.pool.alloc, Network(WholeNet(), Address(k)))
    && FreshId(w, id) && id !in w.store && FreshName(w, Network(WholeNet(), Address(k)), name)
    && Refusal(cfg, w, "").None?
  }

  lemma CreateIsLegal(cfg: Config, w: World, k: nat, id: string, name: string, nameSaved: bool)
    requires RoomFor(cfg, w, k, id, name)
    ensures Legal(cfg, w, CreateAt(k, id, name, nameSaved))
    ensures ParseNetworkSpec(CreateAt(k, id, name, nameSaved).spec) ==
      Some((StaticSubnet(WholeNet()), StaticIP(Address(k))))
  {
    hide Canonical, Value, Pow2, WholeNet, DynamicRange, Address, SubnetPool.AcquireSpec, SubnetPool.Holds;
    hide FreshId, FreshName;
    assert Address(k) != WholeNet().ip;
    SubnetPool.StaticRequestGranted(cfg.dynamic, w.pool.alloc, WholeNet(), Address(k));
  }

  lemma RoomAtFirst(cfg: Config, w: World, k: nat, id: string, name: string)
    requires cfg.dynamic == DynamicRange() && Initial(cfg, w) && 2 <= k < 255
    ensures RoomFor(cfg, w, k, id, name)
  {
    hide WholeNet, DynamicRange, Address, Canonical, PortPool.Rotated;
  }

  /** The world with one more container, at 10.1.0.k. */
  function AddContainer(w: World, k: nat, id: string, name: string): (w': World)
    requires k < 256
  {
    var net, b := Network(WholeNet(), Address(k)), BridgeMgr.BridgeFor(w.pool.maps, WholeNet(), name);
    World(
      State(
        SubnetPool.Add(w.pool.alloc, net), BridgeMgr.Reserved(w.pool.maps, WholeNet(), id, name), w.pool.free,
        w.pool.files[id := b]),
      w.store[id := NewContainer("", id, net, b)], w.lost)
  }

  lemma ContainerCreated(cfg: Config, w: World, k: nat, id: string, name: string)
    requires RoomFor(cfg, w, k, id, name)
    ensures var op := CreateAt(k, id, name, true);
      Legal(cfg, w, op) && After(cfg, w, op) == AddContainer(w, k, id, name) && Clean(cfg, w, op)
  {
    var op := CreateAt(k, id, name, true);
    CreateIsLegal(cfg, w, k, id, name, true);
    hide Canonical, Value, Pow2, WholeNet, DynamicRange, Address, Legal, Acquired;
    hide BridgeMgr.Reserved, SubnetPool.Add;
    SetsUpIff(w.pool, id, op.acq.value, name, op.f, op.t);
    AcquiredState(w.pool, id, op.acq.value, name, op.f, op.t);
  }

  /** The world after a container has asked for a port. */
  function AddPort(w: World, id: string): (w': World)
    requires id in w.store && w.pool.free != []
  {
    var c, p := w.store[id], w.pool.free[0];
    w.(
      pool := w.pool.(free := w.pool.free[1..]),
      store := w.store[id := c.(ports := c.ports + [p], netIns := c.netIns + [(p, 8080)])])
  }

  lemma PortGiven(cfg: Config, w: World, id: string)
    requires id in w.store && w.pool.free != []
    ensures After(cfg, w, NetIn(id, 0, 8080, true)) == AddPort(w, id)
  {
    hide Canonical;
    var c, p := w.store[id], w.pool.free[0];
    var store := w.store[id := c.(ports := c.ports + [p])];
    var c' := c.(ports := c.ports + [p], netIns := c.netIns + [(p, 8080)]);
    assert store[id := c'] == w.store[id := c'];
  }

  /** A first container at 10.1.0.5 with a port. */
  function First(w: World, id: string, name: string): (w': World)
    requires w.pool.free != []
  {
    AddPort(AddContainer(w, 5, id, name), id)
  }

  lemma FirstRun(cfg: Config, w: World, id: string, name: string)
    requires cfg.dynamic == DynamicRange() && Initial(cfg, w) && w.pool.free != []
    ensures var ops := [CreateAt(5, id, name, true), NetIn(id, 0, 8080, true)];
      CleanRun(cfg, ops, [w, AddContainer(w, 5, id, name), First(w, id, name)])
  {
    RoomAtFirst(cfg, w, 5, id, name);
    Nothing(cfg, w);
    hide CleanRun, Initial, RoomFor, AddContainer, AddPort, CreateAt, After, Legal, Clean;
    ContainerAndPort(cfg, [], [w], w, 5, id, name);
    var create, netIn := CreateAt(5, id, name, true), NetIn(id, 0, 8080, true);
    assert [] + [create, netIn] == [create, netIn];
    var w1, w2 := AddContainer(w, 5, id, name), First(w, id, name);
    assert [w] + [w1, w2] == [w, w1, w2];
  }

  lemma Nothing(cfg: Config, w: World)
    requires Initial(cfg, w)
    ensures CleanRun(cfg, [], [w])
  {
  }

  /** A run goes on with a new container that asks for a port. */
  lemma ContainerAndPort(cfg: Config, ops: seq<Op>, ws: seq<World>, w: World, k: nat, id: string, name: string)
    requires CleanRun(cfg, ops, ws) && w == ws[|ops|] && RoomFor(cfg, w, k, id, name) && w.pool.free != []
    ensures k < 256 && id in AddContainer(w, k, id, name).store
    ensures AddContainer(w, k, id, name).pool.free == w.pool.free
    ensures var create, netIn := CreateAt(k, id, name, true), NetIn(id, 0, 8080, true);
      var w1 := AddContainer(w, k, id, name);
      CleanRun(cfg, ops + [create, netIn], ws + [w1, AddPort(w1, id)])
  {
    ContainerCreated(cfg, w, k, id, name);
    Kept(w, k, id, name);
    hide Run, RoomFor, AddContainer, AddPort, CreateAt, After, Legal, Clean;
    var create, netIn := CreateAt(k, id, name, true), NetIn(id, 0, 8080, true);
    var w1 := AddContainer(w, k, id, name);
    CleanRunExtended(cfg, ops, ws, create);
    PortGiven(cfg, w1, id);
    AlwaysLegal(cfg, w1, id);
    CleanRunExtended(cfg, ops + [create], ws + [w1], netIn);
    assert ops + [create] + [netIn] == ops + [create, netIn];
    assert ws + [w1] + [AddPort(w1, id)] == ws + [w1, AddPort(w1, id)];
  }

  lemma Kept(w: World, k: nat, id: string, name: string)
    requires k < 256
    ensures var w' := AddContainer(w, k, id, name);
      && w'.pool.free == w.pool.free && w'.lost == w.lost && w'.store.Keys == w.store.Keys + {id}
      && w'.store == w.store[id := NewContainer(
           "", id, Network(WholeNet(), Address(k)), BridgeMgr.BridgeFor(w.pool.maps, WholeNet(), name))]
  {
    hide WholeNet, Address, BridgeMgr.Reserved, BridgeMgr.BridgeFor, SubnetPool.Add, Canonical;
  }

  lemma AlwaysLegal(cfg: Config, w: World, id: string)
    ensures Legal(cfg, w, NetIn(id, 0, 8080, true)) && Clean(cfg, w, NetIn(id, 0, 8080, true))
  {
  }

  // ----- what failed operations leave behind

  /** A creation that cannot save the bridge's name fails and leaves the bridge reserved for a container that
      does not exist. */
  lemma UnsavedNameLeaks(cfg: Config, w: World, id: string, name: string)
    requires cfg.dynamic == DynamicRange() && Initial(cfg, w)
    ensures var op := CreateAt(5, id, name, false);
      var w' := After(cfg, w, op);
      && Run(cfg, [op], [w, w']) && ReservationLeaks(w.pool, op.acq, op.f, op.t)
      && w'.store == map[] && w'.pool.alloc == map[] && w'.lost == Lost({}, {}, multiset{(name, id)})
      && Owned(w'.pool.maps, name, id) == 1
  {
    var op := CreateAt(5, id, name, false);
    var net := Network(WholeNet(), Address(5));
    RoomAtFirst(cfg, w, 5, id, name);
    CreateIsLegal(cfg, w, 5, id, name, false);
    hide Canonical, Value, Pow2, WholeNet, DynamicRange, Address, PortPool.Rotated, Legal, Owned, RoomFor;
    hide SubnetPool.AcquireSpec, BridgeMgr.Reserved, SubnetPool.Add, SubnetPool.Drop, SubnetPool.Inv;
    SubnetPool.EmptyPool(cfg.dynamic);
    SubnetPool.ReleaseUndoesAcquire(cfg.dynamic, map[], net);
    FailedSetUpState(w.pool, id, net, name, op.f, op.t);
    OwnedReserved(BridgeMgr.EMPTY, WholeNet(), id, name, name, id);
    NobodyOwns(name, id);
  }

  lemma NobodyOwns(b: string, id: string)
    ensures Owned(BridgeMgr.EMPTY, b, id) == 0
  {
  }

  /** Restoring a container whose snapshot lists a port that a live container holds fails and frees that port. */
  lemma FailedRestoreFreesLivePort(cfg: Config, w: World, id: string, other: string, name: string)
    requires cfg.dynamic == DynamicRange() && Initial(cfg, w) && cfg.size > 0 && name != ""
    ensures w.pool.free != []
    ensures var p, w2 := w.pool.free[0], First(w, id, name);
      var s := Snapshot(other, other, WholeNet(), Some(Address(6)), name, [p], []);
      var (pool, ok) := Restored(cfg.start, cfg.size, w2.pool, s, true);
      var ops := [CreateAt(5, id, name, true), NetIn(id, 0, 8080, true)];
      && CleanRun(cfg, ops, [w, AddContainer(w, 5, id, name), w2])
      && id in w2.store && p in w2.store[id].ports && p !in w2.pool.free && !ok && p in pool.free
  {
    StartsFull(cfg, w);
    FirstRun(cfg, w, id, name);
    FirstHas(cfg, w, id, name);
    hide WholeNet, DynamicRange, Address, Canonical, Run, Clean, CreateAt, Initial, Inv, Restored, First, AddContainer;
    var p, w2 := w.pool.free[0], First(w, id, name);
    var s := Snapshot(other, other, WholeNet(), Some(Address(6)), name, [p], []);
    RunKeepsInv(cfg, [CreateAt(5, id, name, true), NetIn(id, 0, 8080, true)], [w, AddContainer(w, 5, id, name), w2]);
    SubnetPoolInv(cfg, w2);
    PortPoolInv(cfg, w2);
    StillFree(w.pool.free);
    RestoreFails(w2, id, name, s);
    FailedRestoreRollsBack(cfg.dynamic, cfg.start, cfg.size, w2.pool, s, true);
  }

  lemma StartsFull(cfg: Config, w: World)
    requires Initial(cfg, w) && cfg.size > 0
    ensures w.pool.free != [] && NoDup(w.pool.free) && PortPool.InRange(cfg.start, cfg.size, w.pool.free[0])
  {
    var offset: nat :| offset <= cfg.size && w.pool.free == PortPool.Rotated(cfg.start, cfg.size, offset);
    PortPool.RotatedInv(cfg.start, cfg.size, offset);
  }

  lemma StillFree(free: seq<Port>)
    requires free != [] && NoDup(free)
    ensures free[0] !in free[1..]
  {
  }

  /** One container holds 10.1.0.5 and the bridge. */
  ghost predicate Alone(st: State, id: string, name: string)
  {
    && st.alloc == SubnetPool.Add(map[], Network(WholeNet(), Address(5)))
    && st.maps == BridgeMgr.AddOwner(BridgeMgr.EMPTY, name, WholeNet(), id)
  }

  lemma FirstHas(cfg: Config, w: World, id: string, name: string)
    requires Initial(cfg, w) && w.pool.free != []
    ensures var w2, p := First(w, id, name), w.pool.free[0];
      && Alone(w2.pool, id, name) && w2.pool.free == w.pool.free[1..] && w2.lost == NOTHING
      && w2.store == map[id := Container(id, id, Network(WholeNet(), Address(5)), name, [p], [(p, 8080)])]
  {
    hide WholeNet, Address, BridgeMgr.AddOwner, SubnetPool.Add, Canonical, PortPool.Rotated;
    assert [] + [w.pool.free[0]] == [w.pool.free[0]];
    assert [] + [(w.pool.free[0], 8080)] == [(w.pool.free[0], 8080)];
  }

  lemma RestoreFails(w: World, id: string, name: string, s: Snapshot)
    requires Alone(w.pool, id, name) && name != "" && s.ports != [] && s.ports[0] !in w.pool.free
    requires s.subnet == WholeNet() && s.ip == Some(Address(6)) && s.bridge == name
    ensures FailsAtPort(w.pool, s)
  {
    hide WholeNet, Canonical, Value, SubnetPool.Holds, SubnetPool.Add;
    SubnetPool.AddHolds(map[], Network(WholeNet(), Address(5)), Network(WholeNet(), Address(6)));
    NothingAllocated(Network(WholeNet(), Address(6)));
  }

  lemma NothingAllocated(net: Network)
    ensures !SubnetPool.Holds(map[], net)
  {
  }

  // ----- a port pool that contains port 0

  /** A container that was given port 0 comes back from a restart with one more port than it had. */
  lemma PortZeroIsRemapped(cfg: Config, w: World, w0: World, id: string, name: string)
    requires cfg.dynamic == DynamicRange() && cfg.start == 0 && cfg.size >= 2 && name != ""
    requires Initial(cfg, w) && w.pool.free == PortPool.Rotated(0, cfg.size, 0)
    requires w.pool.free != [] && Restarted(cfg, First(w, id, name), w0)
    ensures var w2 := First(w, id, name);
      var ops := [CreateAt(5, id, name, true), NetIn(id, 0, 8080, true)];
      && CleanRun(cfg, ops, [w, AddContainer(w, 5, id, name), w2])
      && id in w2.store && w2.store[id].ports == [0]
      && var w' := RestoredWorld(cfg, w0, SnapshotOf(w2.store[id]), true, [true]);
         id in w'.store && w'.store[id].ports == [0, 1]
  {
    FirstRun(cfg, w, id, name);
    FirstHas(cfg, w, id, name);
    FreeAfterRestart(cfg, w, First(w, id, name), w0);
    JustStarted(cfg, First(w, id, name), w0);
    hide CleanRun, CreateAt, RestoredWorld, First, AddContainer, Alone, Taken, TakePorts, PortPool.Rotated;
    hide DynamicRange, Initial, Restarted, TakenPool, Remapped, Acquires;
    var s := SnapshotOf(First(w, id, name).store[id]);
    EmptyTakes(w0, s);
    RestoredExact(cfg, w0, s, [true]);
    OneZero(FreeAfter(w0, s));
    assert [0] + FreeAfter(w0, s)[..1] == [0, 1];
  }

  lemma OneZero(free: seq<Port>)
    requires free != []
    ensures Acquires([(0, 8080)], [true], |free|) == 1
  {
    assert [(0 as Port, 8080 as Port)][1..] == [];
  }

  lemma JustStarted(cfg: Config, w: World, w0: World)
    requires Restarted(cfg, w, w0)
    ensures w0.pool.alloc == map[] && w0.pool.maps == BridgeMgr.EMPTY && w0.store == map[]
  {
    hide PortPool.RestartList, PortPool.Rotated, PortPool.Inv;
  }

  lemma FreeAfterRestart(cfg: Config, w: World, w2: World, w0: World)
    requires cfg.start == 0 && cfg.size >= 2 && w.pool.free == PortPool.Rotated(0, cfg.size, 0)
    requires w2.pool.free == w.pool.free[1..] && Restarted(cfg, w2, w0)
    ensures w.pool.free[0] == 0 && TakePorts(w0.pool.free, [0]).1
    ensures TakePorts(w0.pool.free, [0]).0 != [] && TakePorts(w0.pool.free, [0]).0[0] == 1
  {
    var free := w0.pool.free;
    assert w2.pool.free[0] == 1 && PortPool.SavedOffset(0, w2.pool.free) == 1;
    assert free == PortPool.Rotated(0, cfg.size, 1);
    assert free[0] == 1 && free[cfg.size - 1] == 0;
    assert [0][1..] == [];
    assert TakePorts(free, [0]) == TakePorts(PortPool.Without(free, 0), []);
  }

  lemma EmptyTakes(w: World, s: Snapshot)
    requires w.pool.alloc == map[] && w.pool.maps == BridgeMgr.EMPTY && s.ip.Some? && s.bridge != ""
    requires TakePorts(w.pool.free, s.ports).1
    ensures Taken(w, s)
  {
    hide TakePorts;
  }

  /** A second container at 10.1.0.6 with a port. */
  function Second(w: World, a: string, b: string, name: string): (w': World)
    requires |w.pool.free| >= 2
  {
    AddPort(AddContainer(First(w, a, name), 6, b, name), b)
  }

  ghost predicate TwoRun(cfg: Config, w: World, a: string, b: string, name: string)
    requires |w.pool.free| >= 2
  {
    var w2 := First(w, a, name);
    var ops := [
      CreateAt(5, a, name, true), NetIn(a, 0, 8080, true), CreateAt(6, b, name, true), NetIn(b, 0, 8080, true)];
    CleanRun(cfg, ops, [w, AddContainer(w, 5, a, name), w2, AddContainer(w2, 6, b, name), Second(w, a, b, name)])
  }

  lemma TwoContainers(cfg: Config, w: World, a: string, b: string, name: string)
    requires cfg.dynamic == DynamicRange() && Initial(cfg, w) && |w.pool.free| >= 2
    requires a != b && cfg.maxContainers != 1
    ensures TwoRun(cfg, w, a, b, name)
  {
    FirstRun(cfg, w, a, name);
    FirstHas(cfg, w, a, name);
    RoomForSecond(cfg, First(w, a, name), a, b, name);
    hide CleanRun, Initial, RoomFor, AddContainer, AddPort, CreateAt, Alone;
    var w1, w2 := AddContainer(w, 5, a, name), First(w, a, name);
    var c5, n5, c6, n6 :=
      CreateAt(5, a, name, true), NetIn(a, 0, 8080, true), CreateAt(6, b, name, true), NetIn(b, 0, 8080, true);
    ContainerAndPort(cfg, [c5, n5], [w, w1, w2], w2, 6, b, name);
    assert [c5, n5] + [c6, n6] == [c5, n5, c6, n6];
    var w3, w4 := AddContainer(w2, 6, b, name), Second(w, a, b, name);
    assert [w, w1, w2] + [w3, w4] == [w, w1, w2, w3, w4];
  }

  lemma RoomForSecond(cfg: Config, w: World, a: string, b: string, name: string)
    requires cfg.dynamic == DynamicRange() && cfg.maxContainers != 1 && a != b
    requires Alone(w.pool, a, name) && w.store.Keys == {a} && w.store[a].id == a
    ensures RoomFor(cfg, w, 6, b, name)
  {
    hide WholeNet, DynamicRange, Canonical, Value, SubnetPool.Holds;
    SubnetPool.AddHolds(map[], Network(WholeNet(), Address(5)), Network(WholeNet(), Address(6)));
    NothingAllocated(Network(WholeNet(), Address(6)));
    assert |w.store| == |w.store.Keys| == 1;
  }

  lemma SecondHas(cfg: Config, w: World, a: string, b: string, name: string)
    requires Initial(cfg, w) && w.pool.free == [0, 1] && a != b
    ensures var w4 := Second(w, a, b, name);
      && w4.pool.free == [] && w4.store.Keys == {a, b}
      && w4.store[a] == Container(a, a, Network(WholeNet(), Address(5)), name, [0], [(0, 8080)])
      && w4.store[b] == Container(b, b, Network(WholeNet(), Address(6)), name, [1], [(1, 8080)])
  {
    FirstHas(cfg, w, a, name);
    var w2 := First(w, a, name);
    SharedBridge(w2, a, b, name);
    hide WholeNet, Address, BridgeMgr.Reserved, BridgeMgr.BridgeFor, SubnetPool.Add, Canonical, Initial, First;
    Kept(w2, 6, b, name);
    assert [0, 1][1..] == [1] && [1][1..] == [];
    assert [] + [1] == [1] && [] + [(1, 8080)] == [(1, 8080)];
  }

  lemma SharedBridge(w: World, a: string, b: string, name: string)
    requires Alone(w.pool, a, name)
    ensures BridgeMgr.BridgeFor(w.pool.maps, WholeNet(), name) == name
  {
    hide WholeNet, Canonical;
  }

  /** Two containers hold the two ports of a pool that starts at 0. After a restart the first one, restored first,
      takes the port of the second while its mappings are replayed. The second one then fails to restore, and its
      port becomes free although the first one holds it. */
  lemma LaterRestoreFails(cfg: Config, w: World, w0: World, a: string, b: string, name: string)
    requires cfg.dynamic == DynamicRange() && cfg.start == 0 && cfg.size == 2 && cfg.maxContainers != 1
    requires Initial(cfg, w) && w.pool.free == [0, 1] && a != b && name != ""
    requires Restarted(cfg, Second(w, a, b, name), w0)
    ensures TwoRun(cfg, w, a, b, name)
    ensures var w4 := Second(w, a, b, name);
      && a in w4.store && b in w4.store && w4.store[a].ports == [0] && w4.store[b].ports == [1]
      && var r1 := RestoredWorld(cfg, w0, SnapshotOf(w4.store[a]), true, [true]);
         var r2 := RestoredWorld(cfg, r1, SnapshotOf(w4.store[b]), true, [true]);
         a in r2.store && r2.store[a].ports == [0, 1] && b !in r2.store && 1 in r2.pool.free
  {
    TwoContainers(cfg, w, a, b, name);
    SecondHas(cfg, w, a, b, name);
    var w4 := Second(w, a, b, name);
    InvOfSecond(cfg, w, a, b, name);
    JustStarted(cfg, w4, w0);
    BothFree(cfg, w4, w0);
    hide TwoRun, Second, Inv, RestoredWorld, Restarted, Initial, WholeNet, Address, DynamicRange, Canonical;
    FirstTakesAll(cfg, w4, w0, a, b);
    var s, s' := SnapshotOf(w4.store[a]), SnapshotOf(w4.store[b]);
    var r1 := RestoredWorld(cfg, w0, s, true, [true]);
    SecondFails(cfg, r1, a, name, s');
  }

  lemma InvOfSecond(cfg: Config, w: World, a: string, b: string, name: string)
    requires |w.pool.free| >= 2 && TwoRun(cfg, w, a, b, name)
    ensures Inv(cfg, Second(w, a, b, name))
  {
    hide Run, Clean, Inv, First, Second, AddContainer, CreateAt;
    var w2 := First(w, a, name);
    var ops := [
      CreateAt(5, a, name, true), NetIn(a, 0, 8080, true), CreateAt(6, b, name, true), NetIn(b, 0, 8080, true)];
    RunKeepsInv(
      cfg, ops, [w, AddContainer(w, 5, a, name), w2, AddContainer(w2, 6, b, name), Second(w, a, b, name)]);
  }

  lemma BothFree(cfg: Config, w: World, w0: World)
    requires cfg.start == 0 && cfg.size == 2 && w.pool.free == [] && Restarted(cfg, w, w0)
    ensures w0.pool.free == [0, 1] && TakePorts([0, 1], [0]) == ([1], true)
  {
    assert PortPool.Rotated(0, 2, 0) == [0, 1];
    assert [0][1..] == [] && [0, 1][1..] == [1];
    assert PortPool.Without([0, 1], 0) == [1];
    assert TakePorts([0, 1], [0]) == TakePorts([1], []);
  }

  lemma FirstTakesAll(cfg: Config, w4: World, w0: World, a: string, b: string)
    requires Inv(cfg, w4) && Restarted(cfg, w4, w0) && w0.pool.free == [0, 1] && TakePorts([0, 1], [0]) == ([1], true)
    requires a in w4.store && a != b && w4.store[a].handle == a && w4.store[a].bridge != ""
    requires w4.store[a].ports == [0] && w4.store[a].netIns == [(0, 8080)]
    requires w0.store == map[] && w0.pool.alloc == map[] && w0.pool.maps == BridgeMgr.EMPTY
    ensures var c := w4.store[a];
      var r1 := RestoredWorld(cfg, w0, SnapshotOf(c), true, [true]);
      && Inv(cfg, r1) && r1.pool.free == [] && r1.store.Keys == {a} && r1.store[a].ports == [0, 1]
      && r1.pool.alloc == SubnetPool.Add(map[], c.network)
      && r1.pool.maps == BridgeMgr.Rereserved(BridgeMgr.EMPTY, c.bridge, c.network.subnet, c.id)
  {
    var s := SnapshotOf(w4.store[a]);
    NothingRestored(cfg, w4, w0);
    hide Inv, Restarted, RestoredWorld, Taken, TakePorts, Restorable, Partly, Canonical;
    hide SubnetPool.Add, BridgeMgr.Rereserved;
    SnapshotFits(cfg, w4, w0, {}, a);
    RestoreKeepsInv(cfg, w0, s, true, [true]);
    TakesAll(cfg, w0, s);
  }

  lemma TakesAll(cfg: Config, w: World, s: Snapshot)
    requires Taken(w, s) && w.pool.free == [0, 1] && TakePorts([0, 1], [0]) == ([1], true)
    requires s.ports == [0] && s.netIns == [(0, 8080)] && w.store == map[]
    ensures s.ip.Some?
    ensures var r := RestoredWorld(cfg, w, s, true, [true]);
      && r.pool.free == [] && r.store.Keys == {s.handle} && r.store[s.handle].ports == [0, 1]
      && r.pool.alloc == SubnetPool.Add(w.pool.alloc, Network(s.subnet, s.ip.value))
      && r.pool.maps == BridgeMgr.Rereserved(w.pool.maps, s.bridge, s.subnet, s.id)
  {
    hide RestoredWorld, Taken, TakePorts, Acquires, Remapped, Canonical, SubnetPool.Add, BridgeMgr.Rereserved;
    RestoredExact(cfg, w, s, [true]);
    OneZero([1]);
    assert [0] + [1][..1] == [0, 1] && [1][1..] == [];
  }

  lemma SecondFails(cfg: Config, w: World, a: string, name: string, s: Snapshot)
    requires Inv(cfg, w) && cfg.start == 0 && cfg.size == 2 && w.pool.free == [] && s.ports == [1] && name != ""
    requires w.pool.alloc == SubnetPool.Add(map[], Network(WholeNet(), Address(5)))
    requires w.pool.maps == BridgeMgr.Rereserved(BridgeMgr.EMPTY, name, WholeNet(), a)
    requires s.subnet == WholeNet() && s.ip == Some(Address(6)) && s.bridge == name
    ensures var w' := RestoredWorld(cfg, w, s, true, [true]);
      w'.store == w.store && 1 in w'.pool.free
  {
    SubnetPoolInv(cfg, w);
    PortPoolInv(cfg, w);
    RestoreFails(w, a, name, s);
    hide Inv, Restored, TakePorts, Replayed, ReachesPorts, SubnetPool.Inv, Canonical, WholeNet, Address;
    FailedRestoreRollsBack(cfg.dynamic, cfg.start, cfg.size, w.pool, s, true);
  }
}
