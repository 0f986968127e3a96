/** When nothing is left behind, what is acquired is exactly what live containers have
    (linux_backend/linux_backend.go, resource_pool/resource_pool.go). */
module ExactAccounting {
  import opened Collections
  import opened IPUtil
  import opened Subnets
  import SubnetPool
  import PortPool
  import BridgeMgr
  import opened Requests
  import opened ResourcePool
  import opened Rollback
  import opened Accounting
  import opened Backend
  import opened BackendRuns

  /** Everything acquired is held by a live container, and everything a live container has is acquired. */
  ghost predicate HeldByLive(cfg: Config, w: World)
  {
    && (forall n :: SubnetPool.Holds(w.pool.alloc, n) <==> exists h :: h in w.store && w.store[h].network == n)
    && (forall p: Port | PortPool.InRange(cfg.start, cfg.size, p) ::
          p !in w.pool.free <==> exists h :: h in w.store && p in w.store[h].ports)
    && (forall b, id :: Owned(w.pool.maps, b, id) == if LiveOn(w.store, b, id) then 1 else 0)
    && (forall b :: BridgeMgr.IsReserved(w.pool.maps, b) <==> exists h :: h in w.store && w.store[h].bridge == b)
    && (forall s :: s in w.pool.maps.subnetBridge <==> exists h :: h in w.store && w.store[h].network.subnet == s)
  }

  /** A live container with this id is on bridge b. */
  ghost predicate LiveOn(store: map<string, Container>, b: string, id: string)
  {
    exists h :: h in store && store[h].bridge == b && store[h].id == id
  }

  /** For each live container the depot names its bridge. */
  predicate FilesAgree(files: map<string, string>, store: map<string, Container>)
  {
    forall h | h in store :: store[h].id in files && files[store[h].id] == store[h].bridge
  }

  /** A teardown that finds the bridge's name and does every step; destroying the bridge is a step only for its
      last owner. */
  predicate TearsDown(maps: BridgeMgr.Maps, b: string, id: string, t: Teardown)
  {
    && t.nameReadable && t.tablesDone && t.scriptDone && t.rootfsDone
    && (t.bridgeDestroyed || !BridgeMgr.LastOwner(maps, b, id))
  }

  /** Unless it is refused a Create sets everything up and starts the container, or can undo what it did. */
  predicate CreateKeepsAll(cfg: Config, w: World, op: Op)
    requires op.Create?
  {
    || ParseNetworkSpec(op.spec).None? || Refusal(cfg, w, op.handle).Some? || !op.acq.Ok?
    || (var net := op.acq.value;
        if SetsUp(w.pool, net, op.f) then
          var b := BridgeMgr.BridgeFor(w.pool.maps, net.subnet, op.name);
          op.started || TearsDown(BridgeMgr.Reserved(w.pool.maps, net.subnet, op.id, op.name), b, op.id, op.t2)
        else !ReservationLeaks(w.pool, op.acq, op.f, op.t))
  }

  /** The guards of the branches in which the operation would leave something behind. */
  predicate KeepsAll(cfg: Config, w: World, op: Op)
  {
    match op
    case Create(_, _, _, _, _, _, _, _, _) => CreateKeepsAll(cfg, w, op)
    case Destroy(handle, cleaned, t) =>
      handle in w.store ==> cleaned && TearsDown(w.pool.maps, w.store[handle].bridge, w.store[handle].id, t)
    case NetIn(_, _, _, _) => true
    case Restore(s, versionRead, _) =>
      ReachesPorts(w.pool, s) ==>
        versionRead && NoDup(s.ports) && forall p | p in s.ports :: PortPool.InRange(cfg.start, cfg.size, p)
  }

  /** And a container that is restored has its bridge on file. */
  predicate Clean(cfg: Config, w: World, op: Op)
  {
    && KeepsAll(cfg, w, op)
    && (op.Restore? && ReachesPorts(w.pool, op.s) ==> op.s.id in w.pool.files && w.pool.files[op.s.id] == op.s.bridge)
  }

  /** Nothing is lost and the depot agrees. */
  predicate Tidy(w: World)
  {
    w.lost == NOTHING && FilesAgree(w.pool.files, w.store)
  }

  lemma FilesKept(files: map<string, string>, files': map<string, string>, store: map<string, Container>, id: string)
    requires FilesAgree(files, store) && files' - {id} == files - {id} && forall h | h in store :: store[h].id != id
    ensures FilesAgree(files', store)
  {
    forall h | h in store
      ensures store[h].id in files' && files'[store[h].id] == store[h].bridge
    {
      assert store[h].id in files - {id} && store[h].id in files' - {id};
    }
  }

  lemma ReleaseTidyIff(cfg: Config, w: World, c: Container, t: Teardown)
    requires Tidy(w) && FreshId(w, c.id) && c.id in w.pool.files && w.pool.files[c.id] == c.bridge
    ensures ReleaseContainer(cfg, w, c, t).lost == NOTHING <==> TearsDown(w.pool.maps, c.bridge, c.id, t)
    ensures FilesAgree(ReleaseContainer(cfg, w, c, t).pool.files, ReleaseContainer(cfg, w, c, t).store)
  {
    hide BridgeMgr.Released, BridgeMgr.LastOwner, GiveBack, Canonical, FilesAgree;
    TearDownMaps(w.pool, c.id, t);
    var x := multiset{(c.bridge, c.id)};
    assert multiset{} + x - x == multiset{} && multiset{} + x != multiset{} && {c.network} != {};
    FilesKept(w.pool.files, TearDown(w.pool, c.id, t).0.files, w.store, c.id);
    GivenBack(cfg, TearDown(w.pool, c.id, t).0, c);
  }

  lemma GivenBack(cfg: Config, st: State, c: Container)
    ensures GiveBack(cfg.start, cfg.size, st, c.network, c.ports).files == st.files
  {
  }

  lemma {:induction false} ReplayedKeeps(w: World, h: string, netIns: seq<(Port, Port)>, scripts: seq<bool>)
    requires h in w.store
    ensures var w' := Replayed(w, h, netIns, scripts);
      w'.lost == w.lost && w'.pool.files == w.pool.files && Links(w'.store) == Links(w.store)
    decreases |netIns|
  {
    if netIns != [] && scripts != [] {
      var (w1, ok) := Mapped(w, h, netIns[0].0, netIns[0].1, scripts[0]);
      MappedKeeps(w, h, netIns[0].0, netIns[0].1, scripts[0]);
      hide Mapped, Links;
      if ok {
        ReplayedKeeps(w1, h, netIns[1..], scripts[1..]);
      }
    }
  }

  lemma MappedKeeps(w: World, h: string, hostPort: Port, containerPort: Port, scriptRun: bool)
    requires h in w.store
    ensures var w' := Mapped(w, h, hostPort, containerPort, scriptRun).0;
      && w'.lost == w.lost && w'.pool.files == w.pool.files && Links(w'.store) == Links(w.store) && h in w'.store
  {
    hide Canonical;
  }

  lemma AgreeByLinks(files: map<string, string>, store: map<string, Container>, store': map<string, Container>)
    requires FilesAgree(files, store) && Links(store') == Links(store)
    ensures FilesAgree(files, store')
  {
    forall h | h in store'
      ensures store'[h].id in files && files[store'[h].id] == store'[h].bridge
    {
      assert h in Links(store') && Links(store')[h] == Links(store)[h];
    }
  }

  lemma CreateTidyIff(cfg: Config, w: World, op: Op)
    requires op.Create? && Legal(cfg, w, op) && Tidy(w)
    ensures After(cfg, w, op).lost == NOTHING <==> CreateKeepsAll(cfg, w, op)
    ensures FilesAgree(After(cfg, w, op).pool.files, After(cfg, w, op).store)
  {
    hide Acquired, ReleaseContainer, FilesAgree, FreshName, Canonical, SubnetPool.AcquireSpec, BridgeMgr.BridgeFor;
    hide TearsDown, SetsUp, ReservationLeaks, BridgeMgr.Reserved;
    if ParseNetworkSpec(op.spec).Some? && Refusal(cfg, w, op.handle).None? {
      if !op.acq.Ok? {
        NothingAcquired(w.pool, op);
      } else {
        SetsUpIff(w.pool, op.id, op.acq.value, op.name, op.f, op.t);
        if SetsUp(w.pool, op.acq.value, op.f) {
          AcquiredTidyIff(cfg, w, op);
        } else {
          FailedSetUpState(w.pool, op.id, op.acq.value, op.name, op.f, op.t);
          FilesKept(w.pool.files, Acquired(w.pool, op.id, op.acq, op.name, op.f, op.t).0.files, w.store, op.id);
        }
      }
    }
  }

  lemma AcquiredTidyIff(cfg: Config, w: World, op: Op)
    requires op.Create? && FreshId(w, op.id) && Tidy(w) && op.acq.Ok?
    requires ParseNetworkSpec(op.spec).Some? && Refusal(cfg, w, op.handle).None? && SetsUp(w.pool, op.acq.value, op.f)
    ensures After(cfg, w, op).lost == NOTHING <==> CreateKeepsAll(cfg, w, op)
    ensures FilesAgree(After(cfg, w, op).pool.files, After(cfg, w, op).store)
  {
    hide Acquired, ReleaseContainer, Canonical, SubnetPool.Add, TearsDown, SetsUp;
    hide BridgeMgr.BridgeFor, BridgeMgr.Reserved;
    SetsUpIff(w.pool, op.id, op.acq.value, op.name, op.f, op.t);
    AcquiredState(w.pool, op.id, op.acq.value, op.name, op.f, op.t);
    var pool := Acquired(w.pool, op.id, op.acq, op.name, op.f, op.t).0;
    var b := BridgeMgr.BridgeFor(w.pool.maps, op.acq.value.subnet, op.name);
    var c := NewContainer(op.handle, op.id, op.acq.value, b);
    if !op.started {
      ReleaseTidyIff(cfg, w.(pool := pool), c, op.t2);
    }
  }

  lemma DestroyTidyIff(cfg: Config, w: World, op: Op)
    requires op.Destroy? && Inv(cfg, w) && Tidy(w)
    ensures After(cfg, w, op).lost == NOTHING <==> KeepsAll(cfg, w, op)
    ensures FilesAgree(After(cfg, w, op).pool.files, After(cfg, w, op).store)
  {
    if op.handle in w.store {
      var c, w1 := w.store[op.handle], w.(store := w.store - {op.handle});
      assert FreshId(w1, c.id) by {
        assert BridgesOk(w.pool.maps, Links(w.store), w.lost.reservations);
        assert forall h | h in w.store :: h in Links(w.store) && Links(w.store)[h].id == w.store[h].id;
      }
      hide Inv, ReleaseContainer, TearsDown;
      ReleaseTidyIff(cfg, w1, c, op.t);
      assert c.network in Abandon(w1, c).lost.nets;
    }
  }

  lemma RestoreTidyIff(cfg: Config, w: World, op: Op)
    requires op.Restore? && Inv(cfg, w) && Legal(cfg, w, op) && Tidy(w)
    ensures After(cfg, w, op).lost == NOTHING <==> KeepsAll(cfg, w, op)
    ensures KeepsAll(cfg, w, op) ==>
      (FilesAgree(After(cfg, w, op).pool.files, After(cfg, w, op).store) <==> Clean(cfg, w, op))
  {
    hide Inv, FilesAgree, Links, PortPool.InRange, NoDup, ReachesPorts, TakePorts, RestoredWorld;
    var s := op.s;
    TakesPortsIff(cfg, w, s);
    SubnetPoolInv(cfg, w);
    if !ReachesPorts(w.pool, s) {
      RestoreRefused(cfg, w, op);
    } else if !Taken(w, s) {
      RestoreLeaves(cfg, w, op);
    } else if !op.versionRead {
      RestoreAbandons(cfg, w, op);
    } else {
      RestoreAgrees(cfg, w, op);
    }
  }

  lemma RestoreRefused(cfg: Config, w: World, op: Op)
    requires op.Restore? && !ReachesPorts(w.pool, op.s) && SubnetPool.Inv(cfg.dynamic, w.pool.alloc)
    ensures RestoredWorld(cfg, w, op.s, op.versionRead, op.scripts) == w
  {
    hide ReachesPorts, Restored, TakePorts, Replayed, Canonical, SubnetPool.Inv;
    EarlyFailedRestoreChangesNothing(cfg.dynamic, cfg.start, cfg.size, w.pool, op.s, op.versionRead);
  }

  lemma RestoreLeaves(cfg: Config, w: World, op: Op)
    requires op.Restore? && FailsAtPort(w.pool, op.s)
    ensures (op.s.bridge, op.s.id) in RestoredWorld(cfg, w, op.s, op.versionRead, op.scripts).lost.reservations
  {
    hide ReachesPorts, Restored, TakePorts, Replayed, Canonical;
  }

  lemma RestoreAbandons(cfg: Config, w: World, op: Op)
    requires op.Restore? && Taken(w, op.s) && !op.versionRead
    ensures RestoredWorld(cfg, w, op.s, op.versionRead, op.scripts).lost.nets != {}
  {
    GetsAddress(w, op.s);
    hide ReachesPorts, Restored, TakePorts, Replayed, Canonical;
    var net := Network(op.s.subnet, op.s.ip.value);
    assert net in RestoredWorld(cfg, w, op.s, op.versionRead, op.scripts).lost.nets;
  }

  lemma RestoreAgrees(cfg: Config, w: World, op: Op)
    requires op.Restore? && Taken(w, op.s) && op.versionRead && FilesAgree(w.pool.files, w.store)
    requires op.s.handle !in w.store
    ensures var w' := RestoredWorld(cfg, w, op.s, op.versionRead, op.scripts);
      && w'.lost == w.lost
      && (FilesAgree(w'.pool.files, w'.store) <==>
            op.s.id in w.pool.files && w.pool.files[op.s.id] == op.s.bridge)
  {
    var s := op.s;
    GetsAddress(w, s);
    RestoredTaken(cfg, w, s, true);
    hide ReachesPorts, Restored, TakenPool, TakePorts, Replayed, Canonical, FilesAgree, Links;
    var w1 := World(TakenPool(w.pool, s), w.store[s.handle := RestoredContainer(s)], w.lost);
    var w' := Replayed(w1, s.handle, s.netIns, op.scripts);
    TakenAgrees(w, s);
    ReplayedKeeps(w1, s.handle, s.netIns, op.scripts);
    if FilesAgree(w1.pool.files, w1.store) {
      AgreeByLinks(w1.pool.files, w1.store, w'.store);
    }
    if FilesAgree(w1.pool.files, w'.store) {
      AgreeByLinks(w1.pool.files, w'.store, w1.store);
    }
  }

  lemma GetsAddress(w: World, s: Snapshot)
    requires ReachesPorts(w.pool, s)
    ensures s.ip.Some?
  {
  }

  lemma TakesPortsIff(cfg: Config, w: World, s: Snapshot)
    requires Inv(cfg, w) && Restorable(cfg, w, s)
    ensures TakePorts(w.pool.free, s.ports).1 <==>
      NoDup(s.ports) && forall p | p in s.ports :: PortPool.InRange(cfg.start, cfg.size, p)
  {
    PortPoolInv(cfg, w);
    hide Inv, TakePorts, PortPool.InRange, SubnetPool.SubnetFits, Usable;
    TakePortsElems(w.pool.free, s.ports);
    if TakePorts(w.pool.free, s.ports).1 {
      assert forall p | p in s.ports :: p in Elems(s.ports);
    } else if forall p | p in s.ports :: PortPool.InRange(cfg.start, cfg.size, p) {
      assert Elems(s.ports) <= Elems(w.pool.free);
    }
  }

  lemma TakenAgrees(w: World, s: Snapshot)
    requires FilesAgree(w.pool.files, w.store) && s.ip.Some? && s.handle !in w.store
    ensures FilesAgree(TakenPool(w.pool, s).files, w.store[s.handle := RestoredContainer(s)]) <==>
      s.id in w.pool.files && w.pool.files[s.id] == s.bridge
  {
    hide SubnetPool.Add, BridgeMgr.Rereserved, TakePorts;
    var store := w.store[s.handle := RestoredContainer(s)];
    assert s.handle in store && store[s.handle].id == s.id && store[s.handle].bridge == s.bridge;
  }

  /** A step from a tidy world loses nothing exactly when no losing branch is taken, and leaves the world tidy
      exactly when it is clean. */
  lemma CleanIff(cfg: Config, w: World, op: Op)
    requires Inv(cfg, w) && Legal(cfg, w, op) && Tidy(w)
    ensures After(cfg, w, op).lost == NOTHING <==> KeepsAll(cfg, w, op)
    ensures Tidy(After(cfg, w, op)) <==> Clean(cfg, w, op)
  {
    hide Inv, FilesAgree, After, Legal, CreateKeepsAll, ReachesPorts, TearsDown;
    match op
    case Create(_, _, _, _, _, _, _, _, _) => CreateTidyIff(cfg, w, op);
    case Destroy(_, _, _) => DestroyTidyIff(cfg, w, op);
    case NetIn(_, _, _, _) => MappedTidy(cfg, w, op);
    case Restore(_, _, _) => RestoreTidyIff(cfg, w, op);
  }

  lemma MappedTidy(cfg: Config, w: World, op: Op)
    requires op.NetIn? && Tidy(w)
    ensures Tidy(After(cfg, w, op))
  {
    hide Mapped, FilesAgree, Links;
    if op.handle in w.store {
      MappedKeeps(w, op.handle, op.hostPort, op.containerPort, op.scriptRun);
      var w' := Mapped(w, op.handle, op.hostPort, op.containerPort, op.scriptRun).0;
      AgreeByLinks(w.pool.files, w.store, w'.store);
    }
  }

  /** Clean steps from a tidy world on. */
  ghost predicate CleanSteps(cfg: Config, ops: seq<Op>, ws: seq<World>)
  {
    && |ws| == |ops| + 1 && Inv(cfg, ws[0]) && Tidy(ws[0])
    && forall i | 0 <= i < |ops| ::
         Legal(cfg, ws[i], ops[i]) && ws[i + 1] == After(cfg, ws[i], ops[i]) && Clean(cfg, ws[i], ops[i])
  }

  lemma {:induction false} CleanStepsStayTidy(cfg: Config, ops: seq<Op>, ws: seq<World>)
    requires CleanSteps(cfg, ops, ws)
    ensures Inv(cfg, ws[|ops|]) && Tidy(ws[|ops|]) && HeldByLive(cfg, ws[|ops|])
  {
    hide Legal, After, Clean, Inv, FilesAgree, HeldByLive;
    if ops != [] {
      var k := |ops| - 1;
      CleanStepsStayTidy(cfg, ops[..k], ws[..k + 1]);
      assert Legal(cfg, ws[k], ops[k]) && Clean(cfg, ws[k], ops[k]);
      AfterKeepsInv(cfg, ws[k], ops[k]);
      CleanIff(cfg, ws[k], ops[k]);
    }
    InvIsExact(cfg, ws[|ops|]);
  }

  ghost predicate CleanRun(cfg: Config, ops: seq<Op>, ws: seq<World>)
  {
    Run(cfg, ops, ws) && forall i | 0 <= i < |ops| :: Clean(cfg, ws[i], ops[i])
  }

  lemma CleanRunExtended(cfg: Config, ops: seq<Op>, ws: seq<World>, op: Op)
    requires CleanRun(cfg, ops, ws) && Legal(cfg, ws[|ops|], op) && Clean(cfg, ws[|ops|], op)
    ensures CleanRun(cfg, ops + [op], ws + [After(cfg, ws[|ops|], op)])
  {
    hide Initial, Legal, After, Clean;
  }

  lemma CleanRunLosesNothing(cfg: Config, ops: seq<Op>, ws: seq<World>)
    requires CleanRun(cfg, ops, ws)
    ensures |ws| == |ops| + 1 && ws[|ops|].lost == NOTHING && Tidy(ws[|ops|])
  {
    hide Legal, After, Clean, Inv;
    InitialInv(cfg, ws[0]);
    CleanStepsStayTidy(cfg, ops, ws);
  }

  /** Over every clean run networks, ports and bridges are held by exactly the live containers. */
  lemma AccountingIsExact(cfg: Config, ops: seq<Op>, ws: seq<World>)
    requires CleanRun(cfg, ops, ws)
    ensures |ws| == |ops| + 1 && HeldByLive(cfg, ws[|ops|])
  {
    hide Legal, After, Clean, Inv, HeldByLive;
    InitialInv(cfg, ws[0]);
    CleanStepsStayTidy(cfg, ops, ws);
  }

  lemma InvIsExact(cfg: Config, w: World)
    requires Inv(cfg, w) && w.lost == NOTHING
    ensures HeldByLive(cfg, w)
  {
    NetsAndPortsExact(cfg, w);
    BridgesByLive(cfg, w);
  }

  lemma BridgesByLive(cfg: Config, w: World)
    requires Inv(cfg, w) && w.lost == NOTHING
    ensures forall b, id :: Owned(w.pool.maps, b, id) == if LiveOn(w.store, b, id) then 1 else 0
    ensures forall b :: BridgeMgr.IsReserved(w.pool.maps, b) <==> exists h :: h in w.store && w.store[h].bridge == b
    ensures forall s :: s in w.pool.maps.subnetBridge <==> exists h :: h in w.store && w.store[h].network.subnet == s
  {
    hide NetsOk, PortsOk, Canonical, Owned;
    var maps, links := w.pool.maps, Links(w.store);
    forall b, id
      ensures Owned(maps, b, id) == if LiveOn(w.store, b, id) then 1 else 0
    {
      BridgesExact(maps, links, b);
      LiveOnIsLink(w.store, b, id);
    }
    forall b
      ensures BridgeMgr.IsReserved(maps, b) <==> exists h :: h in w.store && w.store[h].bridge == b
    {
      BridgesExact(maps, links, b);
      BridgeIsLinked(w.store, b);
    }
    forall s
      ensures s in maps.subnetBridge <==> exists h :: h in w.store && w.store[h].network.subnet == s
    {
      SubnetIsLinked(maps, w.store, s);
    }
  }

  lemma LiveOnIsLink(store: map<string, Container>, b: string, id: string)
    ensures LiveOn(store, b, id) <==> HasLink(Links(store), b, id)
  {
    if h :| h in store && store[h].bridge == b && store[h].id == id {
      assert h in Links(store) && Reservation(Links(store)[h]) == (b, id);
    }
    if h :| h in Links(store) && Reservation(Links(store)[h]) == (b, id) {
      assert h in store && store[h].bridge == b && store[h].id == id;
    }
  }

  lemma BridgeIsLinked(store: map<string, Container>, b: string)
    ensures (exists h :: h in store && store[h].bridge == b) <==>
      exists h :: h in Links(store) && Links(store)[h].bridge == b
  {
    if h :| h in store && store[h].bridge == b {
      assert h in Links(store) && Links(store)[h].bridge == b;
    }
    if h :| h in Links(store) && Links(store)[h].bridge == b {
      assert h in store && store[h].bridge == b;
    }
  }

  lemma SubnetIsLinked(maps: BridgeMgr.Maps, store: map<string, Container>, s: CIDR)
    requires BridgesOk(maps, Links(store), multiset{})
    ensures s in maps.subnetBridge <==> exists h :: h in store && store[h].network.subnet == s
  {
    hide Owned, Canonical, OwnersExact, DistinctIds;
    if s in maps.subnetBridge {
      BridgesExact(maps, Links(store), maps.subnetBridge[s]);
      var h :| h in Links(store) && Links(store)[h].subnet == s;
      assert h in store && store[h].network.subnet == s;
    }
    if h :| h in store && store[h].network.subnet == s {
      assert h in Links(store) && Links(store)[h].subnet == s;
    }
  }

  lemma NetsAndPortsExact(cfg: Config, w: World)
    requires Inv(cfg, w) && w.lost == NOTHING
    ensures forall n :: SubnetPool.Holds(w.pool.alloc, n) <==> exists h :: h in w.store && w.store[h].network == n
    ensures forall p: Port | PortPool.InRange(cfg.start, cfg.size, p) ::
      p !in w.pool.free <==> exists h :: h in w.store && p in w.store[h].ports
  {
    hide Canonical, SubnetPool.Inv, SubnetPool.Holds, PortPool.Inv, BridgesOk, PortPool.InRange;
    var nets, held := Nets(w.store), HeldPorts(w.store);
    forall n
      ensures SubnetPool.Holds(w.pool.alloc, n) <==> exists h :: h in w.store && w.store[h].network == n
    {
      if SubnetPool.Holds(w.pool.alloc, n) {
        var h :| h in nets && nets[h] == n;
        assert h in w.store && w.store[h].network == n;
      }
      if h :| h in w.store && w.store[h].network == n {
        assert h in nets && nets[h] == n;
      }
    }
    forall p: Port | PortPool.InRange(cfg.start, cfg.size, p)
      ensures p !in w.pool.free <==> exists h :: h in w.store && p in w.store[h].ports
    {
      if p !in w.pool.free {
        var h :| h in held && p in held[h];
        assert h in w.store && p in w.store[h].ports;
      }
      if h :| h in w.store && p in w.store[h].ports {
        assert h in held && p in held[h];
      }
    }
  }
}
