/** Handles and the number of containers over whole runs (linux_backend/linux_backend.go). */
module Handles {
  import opened Outcomes
  import opened Collections
  import opened IPUtil
  import opened Subnets
  import SubnetPool
  import opened Requests
  import opened ResourcePool
  import opened Rollback
  import opened Backend
  import opened BackendRuns
  import opened Replay

  /** The handle a container gets: the one asked for, or else its id. */
  function Key(op: Op): (h: string)
    requires op.Create?
  {
    if op.handle != "" then op.handle else op.id
  }

  /** Nothing stands in the way of a Create: not the handle, the number of containers, the specification or the
      network, and every step of the set-up and the start succeed. */
  predicate Succeeds(cfg: Config, w: World, op: Op)
    requires op.Create?
  {
    && (op.handle == "" || op.handle !in w.store) && (cfg.maxContainers <= 0 || |w.store| < cfg.maxContainers)
    && !op.spec.Malformed? && op.acq.Ok? && AllSteps(op.f, op.acq.value.subnet in w.pool.maps.subnetBridge)
    && op.started
  }

  /** Create stores one container, under its handle, exactly if it succeeds. */
  lemma CreateStores(cfg: Config, w: World, op: Op)
    requires op.Create?
    ensures !Succeeds(cfg, w, op) ==> After(cfg, w, op).store == w.store
    ensures Succeeds(cfg, w, op) ==>
      var net, bridges := op.acq.value, w.pool.maps.subnetBridge;
      var bridge := if net.subnet in bridges then bridges[net.subnet] else op.name;
      After(cfg, w, op).store == w.store[Key(op) := Container(op.id, Key(op), net, bridge, [], [])]
  {
    hide Acquired, ReleaseContainer, ReservationLeaks, WithReservation, AllSteps, Canonical;
    ParsedIff(op.spec);
    if op.acq.Ok? {
      SetUpBridge(w.pool, op.id, op.acq.value, op.name, op.f, op.t);
      forall w1: World, c
        ensures ReleaseContainer(cfg, w1, c, op.t2).store == w1.store
      {
        ReleaseKeepsStore(cfg, w1, c, op.t2);
      }
    }
  }

  lemma ReleaseKeepsStore(cfg: Config, w: World, c: Container, t: Teardown)
    ensures ReleaseContainer(cfg, w, c, t).store == w.store
  {
    hide Released, AfterTearDown;
  }

  // ----- a handle stays until it is destroyed

  /** The container under h is the one of that id and network. */
  predicate Has(store: map<string, Container>, h: string, id: string, net: Network)
  {
    h in store && store[h].handle == h && store[h].id == id && store[h].network == net
  }

  lemma DestroyElsewhere(cfg: Config, w: World, op: Op, h: string, id: string, net: Network)
    requires op.Destroy? && op.handle != h && Has(w.store, h, id, net)
    ensures Has(After(cfg, w, op).store, h, id, net)
  {
    hide ReleaseContainer, WithNetwork, WithReservation;
    if op.handle in w.store {
      ReleaseKeepsStore(cfg, w.(store := w.store - {op.handle}), w.store[op.handle], op.t);
    }
  }

  lemma NetInKeeps(cfg: Config, w: World, op: Op, h: string, id: string, net: Network)
    requires op.NetIn? && Has(w.store, h, id, net)
    ensures Has(After(cfg, w, op).store, h, id, net)
  {
    hide Canonical;
  }

  lemma RestoreKeeps(cfg: Config, w: World, op: Op, h: string, id: string, net: Network)
    requires op.Restore? && op.s.handle != h && Has(w.store, h, id, net)
    ensures Has(After(cfg, w, op).store, h, id, net)
  {
    hide Restored, Taken, FailsAtPort, Replayed, Canonical, WithReservation, WithNetwork;
    var s := op.s;
    var (pool, ok) := Restored(cfg.start, cfg.size, w.pool, s, op.versionRead);
    if s.ip.Some? {
      ReplayExact(
        World(pool, w.store[s.handle := RestoredContainer(s)], w.lost), s.handle, s.netIns, op.scripts);
    }
  }

  lemma StepKeeps(cfg: Config, w: World, op: Op, h: string, id: string, net: Network)
    requires Legal(cfg, w, op) && Has(w.store, h, id, net) && !(op.Destroy? && op.handle == h)
    ensures Has(After(cfg, w, op).store, h, id, net)
  {
    hide After, Restorable, Succeeds, SubnetPool.AcquireSpec;
    match op
    case Create(_, _, _, _, _, _, _, _, _) =>
      CreateStores(cfg, w, op);
      if Succeeds(cfg, w, op) {
        KeyIsNew(cfg, w, op);
      }
    case Destroy(_, _, _) => DestroyElsewhere(cfg, w, op, h, id, net);
    case NetIn(_, _, _, _) => NetInKeeps(cfg, w, op, h, id, net);
    case Restore(_, _, _) =>
      assert op.s.handle !in w.store by { NotThere(cfg, w, op); }
      RestoreKeeps(cfg, w, op, h, id, net);
  }

  lemma KeyIsNew(cfg: Config, w: World, op: Op)
    requires op.Create? && Legal(cfg, w, op) && Succeeds(cfg, w, op)
    ensures Key(op) !in w.store
  {
    hide SubnetPool.AcquireSpec, AllSteps;
  }

  lemma NotThere(cfg: Config, w: World, op: Op)
    requires op.Restore? && Legal(cfg, w, op)
    ensures op.s.handle !in w.store
  {
  }

  lemma {:induction false} ContainerStays(cfg: Config, ops: seq<Op>, ws: seq<World>, i: nat, j: nat)
    requires Run(cfg, ops, ws) && i < j <= |ops| && ops[i].Create? && Succeeds(cfg, ws[i], ops[i])
    requires forall k | i < k < j :: !(ops[k].Destroy? && ops[k].handle == Key(ops[i]))
    ensures |ws| == |ops| + 1 && Has(ws[j].store, Key(ops[i]), ops[i].id, ops[i].acq.value)
    decreases j
  {
    assert ops[i].acq.Ok?;
    hide Legal, After, Succeeds, Has, Initial;
    if j == i + 1 {
      assert ws[j] == After(cfg, ws[i], ops[i]);
      CreateStores(cfg, ws[i], ops[i]);
      JustStored(ws[j].store, Key(ops[i]), ops[i]);
    } else {
      ContainerStays(cfg, ops, ws, i, j - 1);
      assert Legal(cfg, ws[j - 1], ops[j - 1]);
      StepKeeps(cfg, ws[j - 1], ops[j - 1], Key(ops[i]), ops[i].id, ops[i].acq.value);
    }
  }

  /** A container that was created stays under its handle until that handle is destroyed, and meanwhile every Create of
      that handle is refused and changes nothing. */
  lemma HandleStays(cfg: Config, ops: seq<Op>, ws: seq<World>, i: nat, j: nat, again: Op)
    requires Run(cfg, ops, ws) && i < j <= |ops| && ops[i].Create? && Succeeds(cfg, ws[i], ops[i])
    requires forall k | i < k < j :: !(ops[k].Destroy? && ops[k].handle == Key(ops[i]))
    ensures |ws| == |ops| + 1 && Has(ws[j].store, Key(ops[i]), ops[i].id, ops[i].acq.value)
    ensures again.Create? && again.handle == Key(ops[i]) != "" ==>
      After(cfg, ws[j], again) == ws[j] && Refusal(cfg, ws[j], again.handle) == Some(HandleExists)
  {
    ContainerStays(cfg, ops, ws, i, j);
    hide Run, After, Has;
    if again.Create? && again.handle == Key(ops[i]) != "" {
      Refused(cfg, ws[j], again, ops[i].id, ops[i].acq.value);
    }
  }

  lemma JustStored(store: map<string, Container>, h: string, op: Op)
    requires op.Create? && op.acq.Ok? && h in store && store[h].network == op.acq.value
    requires store[h].id == op.id && store[h].handle == h
    ensures Has(store, h, op.id, op.acq.value)
  {
  }

  lemma Refused(cfg: Config, w: World, op: Op, id: string, net: Network)
    requires op.Create? && op.handle != "" && Has(w.store, op.handle, id, net)
    ensures After(cfg, w, op) == w && Refusal(cfg, w, op.handle) == Some(HandleExists)
  {
    hide Acquired, ReleaseContainer, ReservationLeaks, Canonical;
  }

  // ----- the number of containers

  lemma StepBound(cfg: Config, w: World, op: Op, n: nat)
    requires cfg.maxContainers > 0 && |w.store| <= cfg.maxContainers + n
    ensures |After(cfg, w, op).store| <= cfg.maxContainers + n + if op.Restore? then 1 else 0
  {
    hide AllSteps, ReleaseContainer, WithNetwork, WithReservation, Created, ParseNetworkSpec, RestoredWorld;
    match op
    case Create(_, _, _, _, _, _, _, _, _) => CreateStores(cfg, w, op);
    case Destroy(h, _, t) =>
      if h in w.store {
        ReleaseKeepsStore(cfg, w.(store := w.store - {h}), w.store[h], t);
        assert |w.store - {h}| == |(w.store - {h}).Keys| && (w.store - {h}).Keys == w.store.Keys - {h};
      }
    case NetIn(h, _, _, _) =>
      if h in w.store {
        assert After(cfg, w, op).store.Keys == w.store.Keys;
        SameSize(After(cfg, w, op).store, w.store);
      }
    case Restore(s, _, _) =>
      RestoreAddsOne(cfg, w, op);
      OneLarger(After(cfg, w, op).store, w.store, s.handle);
  }

  lemma RestoreAddsOne(cfg: Config, w: World, op: Op)
    requires op.Restore?
    ensures After(cfg, w, op).store.Keys <= w.store.Keys + {op.s.handle}
  {
    hide Restored, Taken, FailsAtPort, Replayed, Canonical, WithReservation, WithNetwork;
    var s := op.s;
    var (pool, ok) := Restored(cfg.start, cfg.size, w.pool, s, op.versionRead);
    if s.ip.Some? {
      ReplayExact(
        World(pool, w.store[s.handle := RestoredContainer(s)], w.lost), s.handle, s.netIns, op.scripts);
    }
  }

  lemma OneLarger(a: map<string, Container>, b: map<string, Container>, h: string)
    requires a.Keys <= b.Keys + {h}
    ensures |a| <= |b| + 1
  {
    SubsetSize(a.Keys, b.Keys + {h});
    assert |a| == |a.Keys| && |b| == |b.Keys| && |b.Keys + {h}| <= |b.Keys| + 1;
  }

  lemma SameSize(a: map<string, Container>, b: map<string, Container>)
    requires a.Keys == b.Keys
    ensures |a| == |b|
  {
    assert |a| == |a.Keys| && |b| == |b.Keys|;
  }

  function RestoreCount(ops: seq<Op>): (n: nat)
  {
    if ops == [] then 0 else RestoreCount(ops[..|ops| - 1]) + if ops[|ops| - 1].Restore? then 1 else 0
  }

  /** Over every run there are never more containers than configured, apart from restored ones, which are not
      counted against the limit. */
  lemma {:induction false} AtMostMax(cfg: Config, ops: seq<Op>, ws: seq<World>)
    requires Run(cfg, ops, ws) && cfg.maxContainers > 0
    ensures |ws| == |ops| + 1 && |ws[|ops|].store| <= cfg.maxContainers + RestoreCount(ops)
    ensures (forall op | op in ops :: !op.Restore?) ==> |ws[|ops|].store| <= cfg.maxContainers
  {
    hide Legal, After;
    if ops != [] {
      var k := |ops| - 1;
      AtMostMax(cfg, ops[..k], ws[..k + 1]);
      assert ws[k + 1] == After(cfg, ws[k], ops[k]) && ops[k] in ops;
      assert forall op | op in ops[..k] :: op in ops;
      StepBound(cfg, ws[k], ops[k], RestoreCount(ops[..k]));
      if forall op | op in ops :: !op.Restore? {
        StepBound(cfg, ws[k], ops[k], 0);
      }
    }
  }
}
