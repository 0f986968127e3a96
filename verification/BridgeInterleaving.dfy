/** Release changes the maps under the lock and destroys the bridge after dropping it. These are the
    interleavings of such calls with Reserve and Rereserve (network/bridgemgr/mgr.go). */
module BridgeInterleaving {
  import opened IPUtil
  import opened BridgeMgr

  /** The maps, the Destroy calls still to be made, and the bridges of the host. */
  datatype World = World(maps: Maps, doomed: multiset<Name>, links: set<Name>)

  datatype Action =
    | ReserveBridge(subnet: CIDR, id: string, name: Name, created: bool)
    | ReleaseLocked(b: Name, id: string)
    | DestroyUnlocked(b: Name, destroyed: bool)
    | RereserveBridge(b: Name, subnet: CIDR, id: string)

  predicate Enabled(w: World, a: Action)
  {
    a.DestroyUnlocked? ==> a.b in w.doomed
  }

  function Step(w: World, a: Action): (w': World)
    requires Enabled(w, a)
  {
    match a
    case ReserveBridge(subnet, id, name, created) =>
      if subnet in w.maps.subnetBridge then w.(maps := Reserved(w.maps, subnet, id, name))
      else if created then World(Reserved(w.maps, subnet, id, name), w.doomed, w.links + {name})
      else w
    case ReleaseLocked(b, id) =>
      World(
        Released(w.maps, b, id), if LastOwner(w.maps, b, id) then w.doomed + multiset{b} else w.doomed, w.links)
    case DestroyUnlocked(b, destroyed) =>
      World(w.maps, w.doomed - multiset{b}, if destroyed then w.links - {b} else w.links)
    case RereserveBridge(b, subnet, id) => w.(maps := Rereserved(w.maps, b, subnet, id))
  }

  predicate HasOwner(maps: Maps, b: Name)
  {
    OwnersOf(maps, b) != []
  }

  predicate IsBridgeOfSubnet(maps: Maps, b: Name)
  {
    exists s | s in maps.subnetBridge :: maps.subnetBridge[s] == b
  }

  /** A generated name is neither about to be destroyed nor the bridge of another subnet, and a restored container
      does not name a bridge that is about to be destroyed. */
  predicate Fair(w: World, a: Action)
  {
    match a
    case ReserveBridge(subnet, id, name, created) =>
      subnet in w.maps.subnetBridge || !created || (name !in w.doomed && !IsBridgeOfSubnet(w.maps, name))
    case RereserveBridge(b, subnet, id) => RereserveError(w.maps, b, subnet).Some? || b !in w.doomed
    case _ => true
  }

  ghost predicate Behaviour(actions: seq<Action>, ws: seq<World>)
  {
    && |ws| == |actions| + 1 && ws[0].maps == EMPTY && ws[0].doomed == multiset{}
    && forall i | 0 <= i < |actions| ::
         Enabled(ws[i], actions[i]) && Fair(ws[i], actions[i]) && ws[i + 1] == Step(ws[i], actions[i])
  }

  // ----- no reserved bridge is destroyed

  /** Bridges with owners have a subnet, and the bridge of a subnet is that subnet's. */
  predicate MapsOk(maps: Maps)
  {
    && maps.owners.Keys == maps.bridgeSubnet.Keys
    && (forall b | b in maps.owners :: maps.owners[b] != [])
    && (forall s | s in maps.subnetBridge ::
          maps.subnetBridge[s] in maps.bridgeSubnet && maps.bridgeSubnet[maps.subnetBridge[s]] == s)
  }

  predicate DoomedOk(maps: Maps, doomed: multiset<Name>)
  {
    forall b | b in doomed :: b !in maps.bridgeSubnet
  }

  predicate Safe(w: World)
  {
    MapsOk(w.maps) && DoomedOk(w.maps, w.doomed)
  }

  lemma ReserveSafe(w: World, a: Action)
    requires Safe(w) && a.ReserveBridge? && Fair(w, a)
    ensures Safe(Step(w, a))
  {
    hide Canonical;
  }

  lemma ReleaseSafe(w: World, a: Action)
    requires Safe(w) && a.ReleaseLocked?
    ensures Safe(Step(w, a))
  {
    hide Canonical;
  }

  lemma RereserveSafe(w: World, a: Action)
    requires Safe(w) && a.RereserveBridge? && Fair(w, a)
    ensures Safe(Step(w, a))
  {
    hide Canonical;
  }

  lemma StepSafe(w: World, a: Action)
    requires Safe(w) && Enabled(w, a) && Fair(w, a)
    ensures Safe(Step(w, a))
  {
    hide Canonical, Reserved, Released, Rereserved, MapsOk;
    match a
    case ReserveBridge(_, _, _, _) => ReserveSafe(w, a);
    case ReleaseLocked(_, _) => ReleaseSafe(w, a);
    case DestroyUnlocked(_, _) =>
    case RereserveBridge(_, _, _) => RereserveSafe(w, a);
  }

  lemma SafeDestroys(w: World, b: Name)
    requires Safe(w) && b in w.doomed
    ensures !HasOwner(w.maps, b) && !IsReserved(w.maps, b)
  {
  }

  /** In every interleaving no Destroy call hits a bridge that has an owner at that moment. */
  lemma {:induction false} NoReservedBridgeIsDestroyed(actions: seq<Action>, ws: seq<World>)
    requires Behaviour(actions, ws)
    ensures |ws| == |actions| + 1 && Safe(ws[|actions|])
    ensures forall i | 0 <= i < |actions| && actions[i].DestroyUnlocked? ::
      !HasOwner(ws[i].maps, actions[i].b) && !IsReserved(ws[i].maps, actions[i].b)
  {
    hide Step, Fair, HasOwner, IsReserved, MapsOk, DoomedOk;
    if actions == [] {
      EmptySafe(ws[0]);
    } else {
      var k := |actions| - 1;
      NoReservedBridgeIsDestroyed(actions[..k], ws[..k + 1]);
      assert Enabled(ws[k], actions[k]) && Fair(ws[k], actions[k]);
      StepSafe(ws[k], actions[k]);
      if actions[k].DestroyUnlocked? {
        SafeDestroys(ws[k], actions[k].b);
      }
    }
  }

  lemma EmptySafe(w: World)
    requires w.maps == EMPTY && w.doomed == multiset{}
    ensures Safe(w)
  {
  }

  // ----- every reserved bridge exists

  predicate AllExist(w: World)
  {
    forall b | b in w.maps.bridgeSubnet :: b in w.links
  }

  /** Reserved bridges stay on the host in every fair step, except exactly when a restored container names a
      bridge that is not there. */
  lemma ExistenceKeptIff(w: World, a: Action)
    requires Safe(w) && AllExist(w) && Enabled(w, a) && Fair(w, a)
    ensures AllExist(Step(w, a)) <==>
      (a.RereserveBridge? && RereserveError(w.maps, a.b, a.subnet).None? ==> a.b in w.links)
  {
    hide Canonical, MapsOk;
    var w' := Step(w, a);
    match a
    case ReserveBridge(subnet, id, name, _) => ReservedKeys(w.maps, subnet, id, name);
    case ReleaseLocked(b, id) => ReleasedKeys(w.maps, b, id);
    case DestroyUnlocked(b, _) => SafeDestroys(w, b);
    case RereserveBridge(b, subnet, id) =>
      if RereserveError(w.maps, b, subnet).None? {
        assert IsReserved(w'.maps, b);
      }
  }

  lemma {:induction false} ReservedBridgesExist(actions: seq<Action>, ws: seq<World>)
    requires Behaviour(actions, ws)
    requires forall i | 0 <= i < |actions| && actions[i].RereserveBridge? :: actions[i].b in ws[i].links
    ensures |ws| == |actions| + 1 && AllExist(ws[|actions|])
  {
    hide Step, Fair, Safe;
    if actions != [] {
      var k := |actions| - 1;
      ReservedBridgesExist(actions[..k], ws[..k + 1]);
      NoReservedBridgeIsDestroyed(actions[..k], ws[..k + 1]);
      assert Enabled(ws[k], actions[k]) && Fair(ws[k], actions[k]);
      ExistenceKeptIff(ws[k], actions[k]);
    }
  }

  // ----- the condition on names is exactly what is needed

  /** w' is reached from w by these actions, all of them fair. */
  ghost predicate Leads(w: World, actions: seq<Action>, w': World)
    decreases |actions|
  {
    if actions == [] then w' == w
    else Enabled(w, actions[0]) && Fair(w, actions[0]) && Leads(Step(w, actions[0]), actions[1..], w')
  }

  lemma Prepend(w: World, a: Action, rest: seq<Action>, w': World)
    requires Enabled(w, a) && Fair(w, a) && Leads(Step(w, a), rest, w')
    ensures Leads(w, [a] + rest, w')
  {
    assert ([a] + rest)[1..] == rest;
  }

  lemma {:induction false} Append(w: World, actions: seq<Action>, w': World, a: Action)
    requires Leads(w, actions, w') && Enabled(w', a) && Fair(w', a)
    ensures Leads(w, actions + [a], Step(w', a))
    decreases |actions|
  {
    if actions == [] {
      assert actions + [a] == [a];
      assert [a][1..] == [];
    } else {
      Append(Step(w, actions[0]), actions[1..], w', a);
      assert (actions + [a])[1..] == actions[1..] + [a];
    }
  }

  /** Once all its owners have released it a bridge is about to be destroyed, and the other subnets keep theirs. */
  lemma {:induction false} Drain(w: World, b: Name) returns (actions: seq<Action>, w': World)
    requires HasOwner(w.maps, b) && b in w.maps.bridgeSubnet
    ensures Leads(w, actions, w') && b in w'.doomed
    ensures w'.maps.subnetBridge == w.maps.subnetBridge - {w.maps.bridgeSubnet[b]}
    decreases |OwnersOf(w.maps, b)|
  {
    var ids := OwnersOf(w.maps, b);
    var a := ReleaseLocked(b, ids[0]);
    FirstReleased(w, b);
    var w1 := Step(w, a);
    if |ids| == 1 {
      actions, w' := [], w1;
      Prepend(w, a, [], w1);
      actions := [a] + [];
    } else {
      hide Step, Leads;
      var rest;
      rest, w' := Drain(w1, b);
      Prepend(w, a, rest, w');
      actions := [a] + rest;
    }
  }

  lemma FirstReleased(w: World, b: Name)
    requires HasOwner(w.maps, b) && b in w.maps.bridgeSubnet
    ensures var ids := OwnersOf(w.maps, b);
      var w1 := Step(w, ReleaseLocked(b, ids[0]));
      if |ids| == 1
      then b in w1.doomed && w1.maps.subnetBridge == w.maps.subnetBridge - {w.maps.bridgeSubnet[b]}
      else
        && OwnersOf(w1.maps, b) == ids[1..] && w1.maps.bridgeSubnet == w.maps.bridgeSubnet
        && w1.maps.subnetBridge == w.maps.subnetBridge
  {
    hide Canonical;
  }

  /** Whenever an action is not fair some continuation, itself fair, leads to a Destroy call on a bridge that has
      an owner. */
  lemma UnfairNameHarms(w: World, a: Action) returns (b: Name, actions: seq<Action>, w': World)
    requires Safe(w) && Enabled(w, a) && !Fair(w, a)
    ensures Leads(Step(w, a), actions, w') && Enabled(w', DestroyUnlocked(b, true)) && HasOwner(w'.maps, b)
  {
    b := if a.ReserveBridge? then a.name else a.b;
    if b in w.doomed {
      actions, w' := [], Step(w, a);
      DoomedIsOwned(w, a);
    } else {
      var s :| s in w.maps.subnetBridge && w.maps.subnetBridge[s] == b;
      var w1 := Step(w, a);
      TwoSubnets(w, a, s);
      var releases, w2 := Drain(w1, b);
      var again := ReserveBridge(s, a.id, b, false);
      assert s in w2.maps.subnetBridge && w2.maps.subnetBridge[s] == b;
      Append(w1, releases, w2, again);
      actions, w' := releases + [again], Step(w2, again);
      OwnersReserved(w2.maps, s, a.id, b, b);
    }
  }

  lemma DoomedIsOwned(w: World, a: Action)
    requires !Fair(w, a)
    ensures var b := if a.ReserveBridge? then a.name else a.b;
      HasOwner(Step(w, a).maps, b) && Step(w, a).doomed == w.doomed
  {
    hide Canonical;
  }

  lemma TwoSubnets(w: World, a: Action, s: CIDR)
    requires MapsOk(w.maps) && a.ReserveBridge? && !Fair(w, a) && s in w.maps.subnetBridge
    requires w.maps.subnetBridge[s] == a.name
    ensures var maps := Step(w, a).maps;
      && HasOwner(maps, a.name) && a.name in maps.bridgeSubnet && maps.bridgeSubnet[a.name] == a.subnet
      && s in maps.subnetBridge && maps.subnetBridge[s] == a.name && s != a.subnet
  {
    hide Canonical;
  }

  /** A fair run after which a name is about to be destroyed and may be generated again. */
  lemma UnfairNameIsReachable(w: World, subnet: CIDR, id: string, b: Name)
    requires w.maps == EMPTY && w.doomed == multiset{}
    ensures var reserve, release := ReserveBridge(subnet, id, b, true), ReleaseLocked(b, id);
      var w1 := Step(w, reserve);
      var w2 := Step(w1, release);
      Behaviour([reserve, release], [w, w1, w2]) && Enabled(w2, reserve) && !Fair(w2, reserve)
  {
    hide Canonical;
    var reserve, release := ReserveBridge(subnet, id, b, true), ReleaseLocked(b, id);
    var w1 := Step(w, reserve);
    assert OwnersOf(w1.maps, b) == [id];
    assert WithoutFirst([id], id) == [];
  }

  // ----- no bridge is left over

  /** How many Destroy calls of b are due: one for every release that left it without an owner, less those made. */
  function Due(actions: seq<Action>, ws: seq<World>, b: Name): (n: int)
    requires |ws| == |actions| + 1
  {
    if actions == [] then 0
    else
      var k := |actions| - 1;
      var last := actions[k];
      Due(actions[..k], ws[..k + 1], b) +
      if last.ReleaseLocked? && last.b == b && !HasOwner(ws[k + 1].maps, b) then 1
      else if last.DestroyUnlocked? && last.b == b then -1
      else 0
  }

  lemma {:induction false} DoomedIsDue(actions: seq<Action>, ws: seq<World>, b: Name)
    requires Behaviour(actions, ws)
    ensures |ws| == |actions| + 1 && ws[|actions|].doomed[b] == Due(actions, ws, b)
  {
    hide Step, Fair, HasOwner;
    if actions != [] {
      var k := |actions| - 1;
      DoomedIsDue(actions[..k], ws[..k + 1], b);
      assert Enabled(ws[k], actions[k]) && ws[k + 1] == Step(ws[k], actions[k]);
      DoomedNext(ws[k], actions[k], b);
    }
  }

  lemma DoomedNext(w: World, a: Action, b: Name)
    requires Enabled(w, a)
    ensures Step(w, a).doomed[b] == w.doomed[b] +
      if a.ReleaseLocked? && a.b == b && !HasOwner(Step(w, a).maps, b) then 1
      else if a.DestroyUnlocked? && a.b == b then -1
      else 0
  {
    hide Canonical, Reserved, Rereserved, WithoutFirst, Released;
    if a.ReleaseLocked? {
      OwnersReleased(w.maps, a.b, a.id, b);
    }
  }

  /** The bridge was on the host at the start, or one of its Destroy calls failed. */
  predicate Excused(actions: seq<Action>, ws: seq<World>, b: Name)
    requires ws != []
  {
    b in ws[0].links || DestroyUnlocked(b, false) in actions
  }

  /** In every interleaving a bridge that the manager made is on the host only while it is reserved or a Destroy call
      for it is due, unless one has failed. */
  lemma {:induction false} NoBridgeIsLeftOver(actions: seq<Action>, ws: seq<World>, b: Name)
    requires Behaviour(actions, ws) && b in ws[|actions|].links
    ensures Excused(actions, ws, b) || IsReserved(ws[|actions|].maps, b) || Due(actions, ws, b) > 0
  {
    hide Step, Fair, IsReserved, Due, Safe;
    if actions != [] {
      var k := |actions| - 1;
      var before := actions[..k];
      assert forall a :: a in actions <==> a in before || a == actions[k];
      assert Enabled(ws[k], actions[k]) && Fair(ws[k], actions[k]) && ws[k + 1] == Step(ws[k], actions[k]);
      NoReservedBridgeIsDestroyed(before, ws[..k + 1]);
      DoomedIsDue(before, ws[..k + 1], b);
      DoomedIsDue(actions, ws, b);
      LinkedNext(ws[k], actions[k], b);
      if b in ws[k].links {
        NoBridgeIsLeftOver(before, ws[..k + 1], b);
      }
    }
  }

  /** Where a bridge on the host comes from, and that it stays reserved or doomed until a Destroy call. */
  lemma LinkedNext(w: World, a: Action, b: Name)
    requires Safe(w) && Enabled(w, a) && Fair(w, a) && b in Step(w, a).links
    ensures var w' := Step(w, a);
      && (b !in w.links ==> IsReserved(w'.maps, b))
      && (b in w.links && (IsReserved(w.maps, b) || w.doomed[b] > 0) && a != DestroyUnlocked(b, false) ==>
            IsReserved(w'.maps, b) || w'.doomed[b] > 0)
  {
    hide Canonical, WithoutFirst;
  }

  lemma LinkStays(w: World, a: Action, b: Name)
    requires Enabled(w, a) && b in w.links && a != DestroyUnlocked(b, true)
    ensures b in Step(w, a).links
  {
    hide Canonical, Reserved, Released, Rereserved, LastOwner;
  }

  /** A bridge leaves the host only by a Destroy call that succeeds. */
  lemma {:induction false} BridgeStays(actions: seq<Action>, ws: seq<World>, b: Name, i: nat, j: nat)
    requires Behaviour(actions, ws) && i <= j <= |actions| && b in ws[i].links
    requires forall k | i <= k < j :: actions[k] != DestroyUnlocked(b, true)
    ensures b in ws[j].links
    decreases j
  {
    hide Step, Fair;
    if i < j {
      BridgeStays(actions, ws, b, i, j - 1);
      assert Enabled(ws[j - 1], actions[j - 1]) && ws[j] == Step(ws[j - 1], actions[j - 1]);
      LinkStays(ws[j - 1], actions[j - 1], b);
    }
  }
}
