/** When exactly a restart brings everything back, and runs after which it does (linux_backend/linux_backend.go,
    linux_container/linux_container.go). */
module RestartRuns {
  import opened Collections
  import opened IPUtil
  import opened Subnets
  import SubnetPool
  import PortPool
  import BridgeMgr
  import opened Requests
  import opened ResourcePool
  import opened Rollback
  import opened Accounting
  import opened Backend
  import opened BackendRuns
  import opened ExactAccounting
  import opened Replay
  import opened Restart

  // ----- orders

  lemma {:induction false} Enumerated(keys: set<string>) returns (order: seq<string>)
    ensures NoDup(order) && Elems(order) == keys
    decreases keys
  {
    if keys == {} {
      order := [];
    } else {
      var k :| k in keys;
      var rest := Enumerated(keys - {k});
      assert k !in rest by { assert k !in Elems(rest); }
      NoDupAppend(rest, k);
      order := rest + [k];
    }
  }

  lemma FirstInOrder(h: string, rest: seq<string>)
    requires NoDup(rest) && h !in Elems(rest)
    ensures NoDup([h] + rest) && Elems([h] + rest) == Elems(rest) + {h}
  {
    var order := [h] + rest;
    forall i, j | 0 <= i < j < |order|
      ensures order[i] != order[j]
    {
      assert order[j] == rest[j - 1] && rest[j - 1] in Elems(rest);
    }
  }

  /** Restoring one container leaves the others alone. */
  lemma RestoredElsewhere(cfg: Config, w: World, s: Snapshot, scripts: seq<bool>, k: string)
    requires k != s.handle
    ensures var w' := RestoredWorld(cfg, w, s, true, scripts);
      (k in w'.store <==> k in w.store) && (k in w.store ==> w'.store[k] == w.store[k])
  {
    if Taken(w, s) {
      RestoredExact(cfg, w, s, scripts);
    } else {
      hide Replayed, ReachesPorts, TakePorts, Canonical, WithReservation;
      NotTaken(cfg, w, s);
    }
  }

  lemma NotTaken(cfg: Config, w: World, s: Snapshot)
    requires !Taken(w, s)
    ensures !Restored(cfg.start, cfg.size, w.pool, s, true).1
  {
    hide SubnetPool.Add, SubnetPool.Drop, BridgeMgr.Rereserved, TakePorts, ReleasePorts, Canonical;
  }

  /** What becomes of the container restored first is settled then. */
  lemma {:induction false} FirstStays(
    cfg: Config, w0: World, store: map<string, Container>, order: seq<string>, scripts: Scripts)
    requires order != [] && NoDup(order) && (forall k | k in order :: k in store)
    requires forall k | k in store :: store[k].handle == k
    ensures order[..1] == [order[0]] && order[0] in store
    ensures var h := order[0];
      var w1, w' := RestoreAll(cfg, w0, store, [h], scripts), RestoreAll(cfg, w0, store, order, scripts);
      (h in w'.store <==> h in w1.store) && (h in w1.store ==> w'.store[h] == w1.store[h])
  {
    hide RestoredWorld;
    assert order[0] in order;
    if |order| == 1 {
      assert order == [order[0]];
    } else {
      var k := |order| - 1;
      assert order[k] in order;
      FirstStays(cfg, w0, store, order[..k], scripts);
      RestoredElsewhere(
        cfg, RestoreAll(cfg, w0, store, order[..k], scripts), SnapshotOf(store[order[k]]),
        ScriptsOf(scripts, order[k]), order[0]);
    }
  }

  // ----- what goes wrong otherwise

  function AllTrue(n: nat): (r: seq<bool>)
    ensures |r| == n && forall i | 0 <= i < n :: r[i]
  {
    seq(n, _ => true)
  }

  lemma AnyPortLeft(cfg: Config, w0: World, s: Snapshot, p: Port)
    requires Initial(cfg, w0) && PortPool.InRange(cfg.start, cfg.size, p) && p !in s.ports
    ensures FreeAfter(w0, s) != []
  {
    InitialInv(cfg, w0);
    PortPoolInv(cfg, w0);
    NetsAndPortsExact(cfg, w0);
    hide Inv, TakePorts, PortPool.InRange;
    TakePortsElems(w0.pool.free, s.ports);
    assert p in FreeAfter(w0, s);
  }

  /** A container whose bridge has no name is not restored, and one that is not benign is not restored as it was
      when it comes first. */
  lemma FirstIsChanged(cfg: Config, w: World, w0: World, h: string)
    requires Inv(cfg, w) && Restarted(cfg, w, w0) && h in w.store && !Restores(cfg, w.store[h])
    ensures var c := w.store[h];
      var w1 := RestoredWorld(cfg, w0, SnapshotOf(c), true, AllTrue(|c.netIns|));
      h in w1.store ==> w1.store[h].ports != c.ports
  {
    var c, s := w.store[h], SnapshotOf(w.store[h]);
    HandleIs(cfg, w, h);
    InitialInv(cfg, w0);
    SubnetPoolInv(cfg, w0);
    NothingRestored(cfg, w, w0);
    hide Inv, RestoredWorld, TakePorts, PortPool.InRange, PortPool.RestartList;
    if c.bridge == "" {
      RestoreRefused(cfg, w0, Op.Restore(s, true, AllTrue(|c.netIns|)));
    } else {
      SnapshotFits(cfg, w, w0, {}, h);
      var p: Port :| PortPool.InRange(cfg.start, cfg.size, p) && p !in c.ports;
      AnyPortLeft(cfg, w0, s, p);
      KeepsPortsIff(cfg, w0, s, AllTrue(|c.netIns|));
    }
  }

  lemma NotRestored(cfg: Config, w: World, w0: World, h: string) returns (order: seq<string>, scripts: Scripts)
    requires Inv(cfg, w) && Restarted(cfg, w, w0) && h in w.store && !Restores(cfg, w.store[h])
    ensures IsOrder(order, w.store) && !Recovers(cfg, w, w0, order, scripts)
  {
    hide Inv, Restarted, Restores, RestoredWorld;
    var rest := Enumerated(w.store.Keys - {h});
    FirstInOrder(h, rest);
    order, scripts := [h] + rest, map[h := AllTrue(|w.store[h].netIns|)];
    assert forall k | k in order :: k in Elems(order);
    Handles(cfg, w);
    FirstStays(cfg, w0, w.store, order, scripts);
    FirstIsChanged(cfg, w, w0, h);
    OneRestored(cfg, w0, w.store, h, scripts);
  }

  lemma Handles(cfg: Config, w: World)
    requires Inv(cfg, w)
    ensures forall k | k in w.store :: w.store[k].handle == k
  {
    hide NetsOk, PortsOk, BridgesOk;
  }

  lemma OneRestored(cfg: Config, w0: World, store: map<string, Container>, h: string, scripts: Scripts)
    requires h in store && h in scripts
    ensures RestoreAll(cfg, w0, store, [h], scripts) == RestoredWorld(cfg, w0, SnapshotOf(store[h]), true, scripts[h])
  {
    hide RestoredWorld;
    assert [h][..0] == [];
    assert RestoreAll(cfg, w0, store, [h][..0], scripts) == w0;
  }

  /** A restart forgets what was lost. */
  lemma LostIsForgotten(cfg: Config, w: World, w': World)
    requires Inv(cfg, w) && Inv(cfg, w') && w'.lost == NOTHING && SameHoldings(w, w')
    ensures w.lost == NOTHING
  {
    InvIsExact(cfg, w');
    hide Inv, HeldByLive, SubnetPool.Holds, Owned, Canonical;
    forall n
      ensures n !in w.lost.nets
    {
      NetNotLost(cfg, w, w', n);
    }
    forall p
      ensures p !in w.lost.ports
    {
      PortNotLost(cfg, w, w', p);
    }
    forall r
      ensures r !in w.lost.reservations
    {
      ReservationNotLost(cfg, w, w', r.0, r.1);
    }
    assert w.lost.nets == {} && w.lost.ports == {};
    assert w.lost.reservations == multiset{};
  }

  lemma NetNotLost(cfg: Config, w: World, w': World, n: Network)
    requires Inv(cfg, w) && HeldByLive(cfg, w') && SameHoldings(w, w')
    ensures n !in w.lost.nets
  {
    hide PortsOk, BridgesOk, SubnetPool.Inv, SubnetPool.Holds, Owned, LiveOn, Canonical, PortPool.InRange;
    forall h | h in w'.store
      ensures w'.store[h].network !in w.lost.nets
    {
      assert SameResources(w'.store[h], w.store[h]) && Nets(w.store)[h] == w.store[h].network;
    }
    assert n in w.lost.nets ==> SubnetPool.Holds(w.pool.alloc, n);
  }

  lemma PortNotLost(cfg: Config, w: World, w': World, p: Port)
    requires Inv(cfg, w) && HeldByLive(cfg, w') && SameHoldings(w, w')
    ensures p !in w.lost.ports
  {
    hide NetsOk, BridgesOk, PortPool.Inv, SubnetPool.Holds, Owned, LiveOn, Canonical, PortPool.InRange, NoDup;
    forall h | h in w'.store
      ensures p in w'.store[h].ports ==> p !in w.lost.ports
    {
      assert SameResources(w'.store[h], w.store[h]) && HeldPorts(w.store)[h] == w.store[h].ports;
    }
    assert p in Elems(w'.pool.free) <==> p in Elems(w.pool.free);
  }

  lemma ReservationNotLost(cfg: Config, w: World, w': World, b: string, id: string)
    requires Inv(cfg, w) && HeldByLive(cfg, w') && SameHoldings(w, w')
    ensures (b, id) !in w.lost.reservations
  {
    hide NetsOk, PortsOk, BridgeMgr.Inv, SubnetPool.Holds, Owned, Canonical, PortPool.InRange, DistinctIds;
    assert Owned(w.pool.maps, b, id) ==
      (if HasLink(Links(w.store), b, id) then 1 else 0) + w.lost.reservations[(b, id)];
    LiveOnIsLink(w.store, b, id);
    assert LiveOn(w'.store, b, id) ==> LiveOn(w.store, b, id) by {
      assert forall h | h in w.store :: SameResources(w'.store[h], w.store[h]);
    }
    assert Owned(w'.pool.maps, b, id) <= Owned(w.pool.maps, b, id) - w.lost.reservations[(b, id)];
  }

  // ----- the exact condition

  /** Nothing was lost, every bridge has a name, and replaying the mappings acquires nothing. */
  predicate Recoverable(cfg: Config, w: World)
  {
    w.lost == NOTHING && forall h | h in w.store :: Restores(cfg, w.store[h])
  }

  /** From any state of any run, a restart brings back the same holdings in every order and whatever commands fail
      exactly when the state is recoverable. */
  lemma RestartRecoversIff(cfg: Config, w: World, w0: World)
    requires Inv(cfg, w) && Restarted(cfg, w, w0)
    ensures AlwaysRecovers(cfg, w, w0) <==> Recoverable(cfg, w)
  {
    hide Inv, Restarted, Restores, Recovers, RestoreAll;
    if Recoverable(cfg, w) {
      forall order, scripts | IsOrder(order, w.store)
        ensures Recovers(cfg, w, w0, order, scripts)
      {
        RestartKeepsResources(cfg, w, w0, order, scripts);
      }
    }
    if AlwaysRecovers(cfg, w, w0) {
      forall h | h in w.store
        ensures Restores(cfg, w.store[h])
      {
        if !Restores(cfg, w.store[h]) {
          var order, scripts := NotRestored(cfg, w, w0, h);
        }
      }
      LosesNothing(cfg, w, w0);
    }
  }

  lemma LosesNothing(cfg: Config, w: World, w0: World)
    requires Inv(cfg, w) && Restarted(cfg, w, w0) && AlwaysRecovers(cfg, w, w0)
    requires forall h | h in w.store :: Restores(cfg, w.store[h])
    ensures w.lost == NOTHING
  {
    hide Inv, Restarted, Restores, RestoreAll, SameHoldings, HeldByLive, MappedAgain, Lined, SameResources;
    var order := Enumerated(w.store.Keys);
    assert IsOrder(order, w.store);
    assert Recovers(cfg, w, w0, order, map[]);
    RestartRestoresAll(cfg, w, w0, order, map[]);
    LostIsForgotten(cfg, w, RestoreAll(cfg, w0, w.store, order, map[]));
  }

  // ----- runs after which the backend can be restarted

  predicate Named(maps: BridgeMgr.Maps)
  {
    "" !in maps.bridgeSubnet
  }

  /** Bridges have names, and mappings have host ports. */
  predicate Ordinary(w: World)
  {
    Named(w.pool.maps) && forall h, m | h in w.store && m in w.store[h].netIns :: m.0 != 0
  }

  /** Generated names are not empty, and snapshots list host ports. */
  predicate OrdinaryOp(op: Op)
  {
    match op
    case Create(_, _, _, _, name, _, _, _, _) => name != ""
    case Restore(s, _, _) => forall m | m in s.netIns :: m.0 != 0
    case _ => true
  }

  lemma ReservedNamed(maps: BridgeMgr.Maps, subnet: CIDR, id: string, name: string)
    requires Named(maps) && name != ""
    ensures Named(BridgeMgr.Reserved(maps, subnet, id, name))
  {
    BridgeMgr.ReservedKeys(maps, subnet, id, name);
  }

  lemma ReleasedNamed(maps: BridgeMgr.Maps, b: string, id: string)
    requires Named(maps)
    ensures Named(BridgeMgr.Released(maps, b, id))
  {
    BridgeMgr.ReleasedKeys(maps, b, id);
  }

  lemma RereservedNamed(maps: BridgeMgr.Maps, b: string, subnet: CIDR, id: string)
    requires Named(maps)
    ensures Named(BridgeMgr.Rereserved(maps, b, subnet, id))
  {
    hide Canonical;
  }

  lemma ReleaseNamed(cfg: Config, w: World, c: Container, t: Teardown)
    requires Named(w.pool.maps)
    ensures Named(ReleaseContainer(cfg, w, c, t).pool.maps) && ReleaseContainer(cfg, w, c, t).store == w.store
  {
    hide Named, TearDown, BridgeMgr.Released;
    TearDownMaps(w.pool, c.id, t);
    if c.id in w.pool.files {
      ReleasedNamed(w.pool.maps, w.pool.files[c.id], c.id);
    }
  }

  lemma CreateOrdinary(cfg: Config, w: World, op: Op)
    requires op.Create? && Ordinary(w) && op.name != ""
    ensures Ordinary(After(cfg, w, op))
  {
    hide Acquired, ReleaseContainer, BridgeMgr.Reserved;
    hide BridgeMgr.Released, ReservationLeaks, WithReservation, Canonical;
    assert Named(w.pool.maps);
    if ParseNetworkSpec(op.spec).Some? && Refusal(cfg, w, op.handle).None? {
      if !op.acq.Ok? {
        NothingAcquired(w.pool, op);
      } else {
        var net := op.acq.value;
        var (pool, bridge) := Acquired(w.pool, op.id, op.acq, op.name, op.f, op.t);
        var reserved := BridgeMgr.Reserved(w.pool.maps, net.subnet, op.id, op.name);
        ReservedNamed(w.pool.maps, net.subnet, op.id, op.name);
        if bridge.None? {
          FailedSetUpState(w.pool, op.id, net, op.name, op.f, op.t);
          ReleasedNamed(reserved, BridgeMgr.BridgeFor(w.pool.maps, net.subnet, op.name), op.id);
        } else {
          AcquiredState(w.pool, op.id, net, op.name, op.f, op.t);
          ReleaseNamed(cfg, w.(pool := pool), NewContainer(op.handle, op.id, net, bridge.value), op.t2);
        }
      }
    }
  }

  lemma DestroyOrdinary(cfg: Config, w: World, op: Op)
    requires op.Destroy? && Ordinary(w)
    ensures Ordinary(After(cfg, w, op))
  {
    hide ReleaseContainer;
    if op.handle in w.store {
      ReleaseNamed(cfg, w.(store := w.store - {op.handle}), w.store[op.handle], op.t);
    }
  }

  lemma MappedOrdinary(cfg: Config, w: World, h: string, hostPort: Port, containerPort: Port, scriptRun: bool)
    requires Inv(cfg, w) && cfg.start > 0 && Ordinary(w) && h in w.store
    ensures Ordinary(Mapped(w, h, hostPort, containerPort, scriptRun).0)
  {
    PortPoolInv(cfg, w);
    hide Inv, Canonical, NoDup;
    assert w.pool.free != [] ==> PortPool.InRange(cfg.start, cfg.size, w.pool.free[0]);
  }

  lemma {:induction false} ReplayedOrdinary(
    cfg: Config, w: World, h: string, netIns: seq<(Port, Port)>, scripts: seq<bool>)
    requires Inv(cfg, w) && cfg.start > 0 && Ordinary(w) && h in w.store
    ensures Ordinary(Replayed(w, h, netIns, scripts))
    decreases |netIns|
  {
    hide Inv, Mapped, Ordinary;
    if netIns != [] && scripts != [] {
      MappedOrdinary(cfg, w, h, netIns[0].0, netIns[0].1, scripts[0]);
      MappedKeepsInv(cfg, w, h, netIns[0].0, netIns[0].1, scripts[0]);
      ReplayedOrdinary(cfg, Mapped(w, h, netIns[0].0, netIns[0].1, scripts[0]).0, h, netIns[1..], scripts[1..]);
    }
  }

  lemma RestoreOrdinary(cfg: Config, w: World, op: Op)
    requires op.Restore? && Inv(cfg, w) && Legal(cfg, w, op) && cfg.start > 0 && Ordinary(w) && OrdinaryOp(op)
    ensures Ordinary(After(cfg, w, op))
  {
    var s := op.s;
    hide Inv, Restorable, Replayed, Restored;
    hide TakenPool, Canonical, SubnetPool.Holds, TakePorts, BridgeMgr.RereserveError;
    RereservedNamed(w.pool.maps, s.bridge, s.subnet, s.id);
    if Taken(w, s) {
      RestoredTaken(cfg, w, s, op.versionRead);
      TakenMaps(w, s);
      var w1 := World(TakenPool(w.pool, s), w.store[s.handle := RestoredContainer(s)], w.lost);
      TakenKeepsInv(cfg, w, s);
      ReplayedOrdinary(cfg, w1, s.handle, s.netIns, op.scripts);
    } else if FailsAtPort(w.pool, s) {
      RestoredAtPort(cfg, w, s, op.versionRead);
      RestoredFails(cfg, w, s, op.versionRead);
    } else {
      SubnetPoolInv(cfg, w);
      EarlyFailedRestoreChangesNothing(cfg.dynamic, cfg.start, cfg.size, w.pool, s, op.versionRead);
    }
  }

  lemma TakenMaps(w: World, s: Snapshot)
    requires s.ip.Some?
    ensures TakenPool(w.pool, s).maps == BridgeMgr.Rereserved(w.pool.maps, s.bridge, s.subnet, s.id)
  {
  }

  lemma RestoredFails(cfg: Config, w: World, s: Snapshot, versionRead: bool)
    requires FailsAtPort(w.pool, s)
    ensures !Restored(cfg.start, cfg.size, w.pool, s, versionRead).1
  {
  }

  lemma {:induction false} RunIsOrdinary(cfg: Config, ops: seq<Op>, ws: seq<World>)
    requires Run(cfg, ops, ws) && cfg.start > 0 && forall op | op in ops :: OrdinaryOp(op)
    ensures |ws| == |ops| + 1 && Ordinary(ws[|ops|])
  {
    hide Inv, Legal, After, OrdinaryOp;
    if ops != [] {
      var k := |ops| - 1;
      assert forall op | op in ops[..k] :: op in ops;
      RunIsOrdinary(cfg, ops[..k], ws[..k + 1]);
      RunKeepsInv(cfg, ops[..k], ws[..k + 1]);
      assert ops[k] in ops && Legal(cfg, ws[k], ops[k]);
      StepIsOrdinary(cfg, ws[k], ops[k]);
    }
  }

  lemma StepIsOrdinary(cfg: Config, w: World, op: Op)
    requires Inv(cfg, w) && Legal(cfg, w, op) && cfg.start > 0 && Ordinary(w) && OrdinaryOp(op)
    ensures Ordinary(After(cfg, w, op))
  {
    hide Inv, Ordinary, Created, Destroyed, Mapped, RestoredWorld, Legal;
    match op
    case Create(_, _, _, _, _, _, _, _, _) => CreateOrdinary(cfg, w, op);
    case Destroy(_, _, _) => DestroyOrdinary(cfg, w, op);
    case NetIn(h, hostPort, containerPort, scriptRun) =>
      if h in w.store {
        MappedOrdinary(cfg, w, h, hostPort, containerPort, scriptRun);
      }
    case Restore(_, _, _) => RestoreOrdinary(cfg, w, op);
  }

  lemma OrdinaryIsRecoverable(cfg: Config, w: World)
    requires Inv(cfg, w) && Ordinary(w)
    ensures forall h | h in w.store :: Restores(cfg, w.store[h])
  {
    hide Inv, Zeros;
    forall h | h in w.store
      ensures Restores(cfg, w.store[h])
    {
      BridgeOfLive(cfg, w, h);
      NoZeros(w.store[h].netIns);
    }
  }

  /** After every run the exact condition decides whether the backend can be stopped and started again. */
  lemma RestartAfterRun(cfg: Config, ops: seq<Op>, ws: seq<World>, w0: World)
    requires Run(cfg, ops, ws) && Restarted(cfg, ws[|ops|], w0)
    ensures AlwaysRecovers(cfg, ws[|ops|], w0) <==> Recoverable(cfg, ws[|ops|])
  {
    hide Run, Inv, Restarted, AlwaysRecovers, Recoverable;
    RunKeepsInv(cfg, ops, ws);
    RestartRecoversIff(cfg, ws[|ops|], w0);
  }

  /** After a clean run over a port range above 0, whose bridges have names and whose snapshots list host ports, it
      always can. */
  lemma RestartAfterCleanRun(cfg: Config, ops: seq<Op>, ws: seq<World>, w0: World)
    requires CleanRun(cfg, ops, ws) && cfg.start > 0 && (forall op | op in ops :: OrdinaryOp(op))
    requires Restarted(cfg, ws[|ops|], w0)
    ensures Recoverable(cfg, ws[|ops|]) && AlwaysRecovers(cfg, ws[|ops|], w0)
  {
    hide Run, Clean, OrdinaryOp, Inv, Ordinary, Restarted, Restores, AlwaysRecovers;
    RunKeepsInv(cfg, ops, ws);
    RunIsOrdinary(cfg, ops, ws);
    OrdinaryIsRecoverable(cfg, ws[|ops|]);
    CleanRunLosesNothing(cfg, ops, ws);
    RestartRecoversIff(cfg, ws[|ops|], w0);
  }

  // ----- going on after a restart

  /** With the depot as it was, a restart leads from a tidy world to a tidy world, so that clean steps after it keep
      the accounting exact. */
  lemma AccountingAcrossRestart(
    cfg: Config, w: World, w0: World, order: seq<string>, scripts: Scripts, ops: seq<Op>, ws: seq<World>)
    requires Inv(cfg, w) && Tidy(w) && Recoverable(cfg, w)
    requires Restarted(cfg, w, w0) && w0.pool.files == w.pool.files && IsOrder(order, w.store)
    requires |ws| == |ops| + 1 && forall i | 0 <= i < |ops| ::
      Legal(cfg, ws[i], ops[i]) && ws[i + 1] == After(cfg, ws[i], ops[i]) && Clean(cfg, ws[i], ops[i])
    requires (forall h | h in order :: h in w.store) && ws[0] == RestoreAll(cfg, w0, w.store, order, scripts)
    ensures Inv(cfg, ws[|ops|]) && Tidy(ws[|ops|]) && HeldByLive(cfg, ws[|ops|])
  {
    hide Inv, Restores, Restarted, RestoreAll, HeldByLive, MappedAgain, Lined, FilesAgree;
    hide Legal, After, Clean, SameResources;
    RestartRestoresAll(cfg, w, w0, order, scripts);
    SameFiles(w.pool.files, w.store, ws[0].store);
    CleanStepsStayTidy(cfg, ops, ws);
  }

  lemma SameFiles(files: map<string, string>, store: map<string, Container>, store': map<string, Container>)
    requires FilesAgree(files, store)
    requires forall h | h in store' :: h in store && SameResources(store'[h], store[h])
    ensures FilesAgree(files, store')
  {
  }
}
