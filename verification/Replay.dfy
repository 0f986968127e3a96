/** What replaying the port mappings of a restored container does (linux_container/linux_container.go). */
module Replay {
  import opened Collections
  import opened IPUtil
  import SubnetPool
  import PortPool
  import BridgeMgr
  import opened ResourcePool
  import opened Rollback
  import opened Backend
  import opened BackendRuns

  // ----- a list of mappings

  /** Mappings of host port 0 ask the pool for a port. */
  function Zeros(netIns: seq<(Port, Port)>): (n: nat)
  {
    if netIns == [] then 0 else (if netIns[0].0 == 0 then 1 else 0) + Zeros(netIns[1..])
  }

  lemma {:induction false} NoZeros(netIns: seq<(Port, Port)>)
    ensures Zeros(netIns) == 0 <==> forall m | m in netIns :: m.0 != 0
  {
    if netIns != [] {
      NoZeros(netIns[1..]);
      assert forall m :: m in netIns <==> m == netIns[0] || m in netIns[1..];
    }
  }

  /** How many ports are acquired when n are free. */
  function Acquires(netIns: seq<(Port, Port)>, scripts: seq<bool>, n: nat): (a: nat)
    ensures a <= n && a <= Zeros(netIns)
    decreases |netIns|
  {
    if netIns == [] || scripts == [] || (netIns[0].0 == 0 && n == 0) then 0
    else
      var one := if netIns[0].0 == 0 then 1 else 0;
      if scripts[0] then one + Acquires(netIns[1..], scripts[1..], n - one) else one
  }

  /** The mappings recorded on top of those the snapshot already has. */
  function Remapped(netIns: seq<(Port, Port)>, scripts: seq<bool>, free: seq<Port>): (r: seq<(Port, Port)>)
    decreases |netIns|
  {
    if netIns == [] || scripts == [] || !scripts[0] || (netIns[0].0 == 0 && free == []) then []
    else
      var host := if netIns[0].0 == 0 then free[0] else netIns[0].0;
      [(host, if netIns[0].1 == 0 then host else netIns[0].1)] +
      Remapped(netIns[1..], scripts[1..], if netIns[0].0 == 0 then free[1..] else free)
  }

  /** All commands succeed. */
  predicate AllRun(netIns: seq<(Port, Port)>, scripts: seq<bool>)
  {
    |scripts| >= |netIns| && forall i | 0 <= i < |netIns| :: scripts[i]
  }

  function Min(a: nat, b: nat): (m: nat)
  {
    if a <= b then a else b
  }

  lemma {:induction false} AcquiresAll(netIns: seq<(Port, Port)>, scripts: seq<bool>, n: nat)
    requires AllRun(netIns, scripts)
    ensures Acquires(netIns, scripts, n) == Min(Zeros(netIns), n)
    decreases |netIns|
  {
    if netIns != [] && !(netIns[0].0 == 0 && n == 0) {
      AcquiresAll(netIns[1..], scripts[1..], if netIns[0].0 == 0 then n - 1 else n);
    }
  }

  /** How many commands succeed before the first that does not. */
  function Leading(scripts: seq<bool>): (k: nat)
    ensures k <= |scripts|
  {
    if scripts == [] || !scripts[0] then 0 else 1 + Leading(scripts[1..])
  }

  function Normal(m: (Port, Port)): (r: (Port, Port))
  {
    (m.0, if m.1 == 0 then m.0 else m.1)
  }

  /** Mappings with host ports are recorded once more, up to the first command that fails. */
  lemma {:induction false} RemappedIs(netIns: seq<(Port, Port)>, scripts: seq<bool>, free: seq<Port>)
    requires Zeros(netIns) == 0
    ensures var k := Min(Leading(scripts), |netIns|);
      |Remapped(netIns, scripts, free)| == k
      && forall i | 0 <= i < k :: Remapped(netIns, scripts, free)[i] == Normal(netIns[i])
    decreases |netIns|
  {
    if netIns != [] && scripts != [] && scripts[0] {
      RemappedIs(netIns[1..], scripts[1..], free);
    }
  }

  lemma {:induction false} RemappedFree(netIns: seq<(Port, Port)>, scripts: seq<bool>, free: seq<Port>)
    requires Zeros(netIns) == 0
    ensures Remapped(netIns, scripts, free) == Remapped(netIns, scripts, [])
    decreases |netIns|
  {
    if netIns != [] && scripts != [] && scripts[0] {
      RemappedFree(netIns[1..], scripts[1..], free);
    }
  }

  // ----- the replay

  function AfterReplay(w: World, h: string, netIns: seq<(Port, Port)>, scripts: seq<bool>): (w': World)
    requires h in w.store
  {
    var c, free := w.store[h], w.pool.free;
    var a := Acquires(netIns, scripts, |free|);
    var c' := c.(ports := c.ports + free[..a], netIns := c.netIns + Remapped(netIns, scripts, free));
    World(w.pool.(free := free[a..]), w.store[h := c'], w.lost)
  }

  /** The replay takes ports off the head of the free list, one for each mapping of host port 0 it gets to, gives
      them to the container and changes nothing else. */
  lemma {:induction false} ReplayExact(w: World, h: string, netIns: seq<(Port, Port)>, scripts: seq<bool>)
    requires h in w.store
    ensures Replayed(w, h, netIns, scripts) == AfterReplay(w, h, netIns, scripts)
    decreases |netIns|
  {
    if netIns == [] || scripts == [] {
      NothingReplayed(w, h);
    } else {
      MappedExact(w, h, netIns, scripts);
      var (w1, ok) := Mapped(w, h, netIns[0].0, netIns[0].1, scripts[0]);
      if ok {
        ReplayExact(w1, h, netIns[1..], scripts[1..]);
        hide Mapped, Replayed, Acquires, Remapped;
        ReplayOn(w, h, netIns, scripts, w1);
      }
    }
  }

  lemma NothingReplayed(w: World, h: string)
    requires h in w.store
    ensures var c, free := w.store[h], w.pool.free;
      && free[..0] == [] && free[0..] == free && c.ports + [] == c.ports && c.netIns + [] == c.netIns
      && w.store[h := c] == w.store
  {
  }

  /** One mapping. */
  lemma MappedExact(w: World, h: string, netIns: seq<(Port, Port)>, scripts: seq<bool>)
    requires h in w.store && netIns != [] && scripts != []
    ensures var (w1, ok) := Mapped(w, h, netIns[0].0, netIns[0].1, scripts[0]);
      && (ok <==> scripts[0] && !(netIns[0].0 == 0 && w.pool.free == []))
      && (!ok ==> w1 == AfterReplay(w, h, netIns, scripts))
      && h in w1.store
  {
    hide Canonical;
    NothingReplayed(w, h);
    var c, free := w.store[h], w.pool.free;
    if netIns[0].0 == 0 && free != [] {
      assert free[..1] == [free[0]];
    }
  }

  lemma ReplayOn(w: World, h: string, netIns: seq<(Port, Port)>, scripts: seq<bool>, w1: World)
    requires h in w.store && netIns != [] && scripts != [] && scripts[0]
    requires !(netIns[0].0 == 0 && w.pool.free == [])
    requires w1 == Mapped(w, h, netIns[0].0, netIns[0].1, true).0 && h in w1.store
    ensures AfterReplay(w1, h, netIns[1..], scripts[1..]) == AfterReplay(w, h, netIns, scripts)
  {
    hide Canonical;
    var c, free := w.store[h], w.pool.free;
    var rest := Acquires(netIns[1..], scripts[1..], |w1.pool.free|);
    var more := Remapped(netIns[1..], scripts[1..], w1.pool.free);
    if netIns[0].0 == 0 {
      assert free[1..][..rest] == free[1..1 + rest] && [free[0]] + free[1..1 + rest] == free[..1 + rest];
      assert c.ports + [free[0]] + free[1..1 + rest] == c.ports + free[..1 + rest];
      assert free[1..][rest..] == free[1 + rest..];
    }
    var host := if netIns[0].0 == 0 then free[0] else netIns[0].0;
    var m := (host, if netIns[0].1 == 0 then host else netIns[0].1);
    assert c.netIns + [m] + more == c.netIns + ([m] + more);
  }

  // ----- a restored container

  /** What is free once the snapshot's ports have been taken. */
  function FreeAfter(w: World, s: Snapshot): (free: seq<Port>)
  {
    TakePorts(w.pool.free, s.ports).0
  }

  lemma HasAddress(w: World, s: Snapshot)
    requires Taken(w, s)
    ensures s.ip.Some?
  {
  }

  lemma RestoredIs(cfg: Config, w: World, s: Snapshot, scripts: seq<bool>)
    requires Taken(w, s)
    ensures var w1 := World(TakenPool(w.pool, s), w.store[s.handle := RestoredContainer(s)], w.lost);
      RestoredWorld(cfg, w, s, true, scripts) == Replayed(w1, s.handle, s.netIns, scripts)
  {
    RestoredTaken(cfg, w, s, true);
    hide TakenPool, Restored, Replayed, Canonical, ReachesPorts, TakePorts;
    HasAddress(w, s);
  }

  lemma TakenFree(w: World, s: Snapshot)
    requires s.ip.Some?
    ensures TakenPool(w.pool, s).free == FreeAfter(w, s) && TakenPool(w.pool, s).files == w.pool.files
  {
    hide TakePorts;
  }

  /** A restored container has the ports of its snapshot and those the replay acquires, and the mappings of its
      snapshot followed by the replayed ones; other containers are as before. */
  lemma RestoredExact(cfg: Config, w: World, s: Snapshot, scripts: seq<bool>)
    requires Taken(w, s)
    ensures s.ip.Some?
    ensures var free := FreeAfter(w, s);
      var a := Acquires(s.netIns, scripts, |free|);
      var netIns := s.netIns + Remapped(s.netIns, scripts, free);
      var c := RestoredContainer(s).(ports := s.ports + free[..a], netIns := netIns);
      RestoredWorld(cfg, w, s, true, scripts) ==
        World(TakenPool(w.pool, s).(free := free[a..]), w.store[s.handle := c], w.lost)
  {
    hide Taken, TakenPool, Replayed, RestoredWorld, Acquires, Remapped, FreeAfter, Canonical;
    HasAddress(w, s);
    RestoredIs(cfg, w, s, scripts);
    TakenFree(w, s);
    ReplayExact(
      World(TakenPool(w.pool, s), w.store[s.handle := RestoredContainer(s)], w.lost), s.handle, s.netIns, scripts);
  }

  /** The container comes back with just the ports of its snapshot. */
  predicate KeepsPorts(cfg: Config, w: World, s: Snapshot, scripts: seq<bool>)
  {
    var store := RestoredWorld(cfg, w, s, true, scripts).store;
    s.handle in store && store[s.handle].ports == s.ports
  }

  /** Whatever commands fail, a restored container keeps its ports if no mapping has host port 0 or no port is left to
      acquire. When all commands succeed, it keeps them only then. */
  lemma KeepsPortsIff(cfg: Config, w: World, s: Snapshot, scripts: seq<bool>)
    requires Taken(w, s)
    ensures Zeros(s.netIns) == 0 || FreeAfter(w, s) == [] ==> KeepsPorts(cfg, w, s, scripts)
    ensures AllRun(s.netIns, scripts) ==>
      (KeepsPorts(cfg, w, s, scripts) <==> Zeros(s.netIns) == 0 || FreeAfter(w, s) == [])
  {
    hide Taken, TakenPool, RestoredWorld, Acquires, Remapped, FreeAfter, Zeros, AllRun, Canonical;
    RestoredExact(cfg, w, s, scripts);
    var free := FreeAfter(w, s);
    var a := Acquires(s.netIns, scripts, |free|);
    assert a <= Zeros(s.netIns);
    assert |s.ports + free[..a]| == |s.ports| + a;
    assert a == 0 ==> s.ports + free[..a] == s.ports;
    if AllRun(s.netIns, scripts) {
      AcquiresAll(s.netIns, scripts, |free|);
    }
  }

  /** The ports it gains can be those of a container that is restored later, which then fails. */
  lemma ReplayTakesOthersPort(cfg: Config, w: World, a: Snapshot, scripts: seq<bool>, b: Snapshot, p: Port)
    requires Taken(w, a) && NoDup(w.pool.free)
    requires p in FreeAfter(w, a)[..Acquires(a.netIns, scripts, |FreeAfter(w, a)|)] && p in b.ports
    ensures !TakePorts(RestoredWorld(cfg, w, a, true, scripts).pool.free, b.ports).1
  {
    hide Taken, TakenPool, RestoredWorld, Acquires, Remapped, Canonical, TakePorts;
    RestoredExact(cfg, w, a, scripts);
    TakePortsElems(w.pool.free, a.ports);
    var free := FreeAfter(w, a);
    var left := free[Acquires(a.netIns, scripts, |free|)..];
    TakePortsElems(left, b.ports);
    assert p !in Elems(left) && p in Elems(b.ports);
  }
}
