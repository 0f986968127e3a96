/** The pool object and its behaviour over whole runs (network/subnets/subnets.go). */
module SubnetPool {
  import opened Outcomes
  import opened Collections
  import opened IPUtil
  import opened Subnets

  // ----- states

  /** The subnets a selector is told about. */
  function Taken(m: Allocation): (s: set<CIDR>)
  {
    set n | n in m && m[n] != []
  }

  predicate Holds(m: Allocation, net: Network)
  {
    net.ip in IPsOf(m, net.subnet)
  }

  function Add(m: Allocation, net: Network): (m': Allocation)
  {
    m[net.subnet := IPsOf(m, net.subnet) + [net.ip]]
  }

  function FirstIndex(ips: seq<IP>, ip: IP): (i: nat)
    requires ip in ips
    ensures i < |ips| && ips[i] == ip && ip !in ips[..i]
  {
    if ips[0] == ip then 0 else 1 + FirstIndex(ips[1..], ip)
  }

  /** Overwrite entry i with the last entry and drop the last entry. */
  function SwapRemove(ips: seq<IP>, i: nat): (r: seq<IP>)
    requires i < |ips|
  {
    ips[i := ips[|ips| - 1]][..|ips| - 1]
  }

  function Drop(m: Allocation, net: Network): (m': Allocation)
  {
    if !Holds(m, net) then m
    else
      var ips := SwapRemove(m[net.subnet], FirstIndex(m[net.subnet], net.ip));
      if ips == [] then m - {net.subnet} else m[net.subnet := ips]
  }

  /** A subnet and the addresses handed out in it. */
  predicate SubnetOk(dynamic: CIDR, n: CIDR, ips: seq<IP>)
  {
    && ips != [] && NoDup(ips)
    && (forall ip | ip in ips :: Usable(n, ip))
    && InPlace(dynamic, n)
  }

  /** Subnets lie outside the dynamic range or are /30 blocks of it. */
  predicate InPlace(dynamic: CIDR, n: CIDR)
  {
    Disjoint(dynamic, n) || (dynamic.ones <= 30 && n.ones == 30)
  }

  ghost predicate Inv(dynamic: CIDR, m: Allocation)
  {
    && (forall n | n in m :: SubnetOk(dynamic, n, m[n]))
    && (forall a, b | a in m && b in m && a != b :: Disjoint(a, b))
  }

  /** A subnet that is allocated already or shares no address with an allocated one. */
  ghost predicate SubnetFits(dynamic: CIDR, m: Allocation, n: CIDR)
  {
    InPlace(dynamic, n) && (n in m || forall k | k in m :: Disjoint(n, k))
  }

  // ----- what Acquire promises

  /** The addresses no container gets. */
  function Reserved(n: CIDR): (ips: seq<IP>)
    requires Base(n) + 1 < LIMIT
  {
    FitsAddressSpace(n);
    [n.ip, FromValue(Base(n) + 1), FromValue(Last(n))]
  }

  function WithIP(n: CIDR, q: Result<IP, Error>): (r: Result<Network, Error>)
  {
    match q
    case Ok(ip) => Ok(Network(n, ip))
    case Err(e) => Err(e)
    case Panic => Panic
  }

  ghost predicate InSubnetSpec(m: Allocation, n: CIDR, ipSel: IPSelector, r: Result<Network, Error>)
  {
    if Base(n) == LIMIT - 1 then r == Panic
    else exists q :: IPSpec(n, IPsOf(m, n) + Reserved(n), ipSel, q) && r == WithIP(n, q)
  }

  ghost predicate AcquireSpec(
    dynamic: CIDR, m: Allocation, subnetSel: SubnetSelector, ipSel: IPSelector, r: Result<Network, Error>)
  {
    exists s :: SubnetSpec(dynamic, Taken(m), subnetSel, s) &&
      match s
      case Ok(n) => InSubnetSpec(m, n, ipSel, r)
      case Err(e) => r == Err(e)
      case Panic => r == Panic
  }

  function After(m: Allocation, r: Result<Network, Error>): (m': Allocation)
  {
    if r.Ok? then Add(m, r.value) else m
  }

  // ----- the pool

  class Pool {
    const dynamicRange: CIDR
    var allocation: Allocation

    constructor (range: CIDR)
      ensures dynamicRange == range && allocation == map[]
    {
      dynamicRange := range;
      allocation := map[];
    }

    method Acquire(subnetSel: SubnetSelector, ipSel: IPSelector) returns (r: Result<Network, Error>)
      modifies this
      ensures AcquireSpec(dynamicRange, old(allocation), subnetSel, ipSel, r)
      ensures allocation == After(old(allocation), r)
      ensures Inv(dynamicRange, old(allocation)) ==> Inv(dynamicRange, allocation)
    {
      hide SubnetSpec, IPSpec, Inv, Canonical;
      var taken := AllocatedSubnets();
      var s := SelectSubnet(subnetSel, taken);
      assert SubnetSpec(dynamicRange, Taken(allocation), subnetSel, s);
      match s {
        case Err(e) => return Err(e);
        case Panic => return Panic;
        case Ok(n) =>
          r := SelectInSubnet(n, ipSel);
          AcquireKeepsInv(dynamicRange, allocation, subnetSel, ipSel, r);
          allocation := After(allocation, r);
      }
    }

    method SelectSubnet(subnetSel: SubnetSelector, taken: seq<CIDR>) returns (s: Result<CIDR, Error>)
      ensures SubnetSpec(dynamicRange, Elems(taken), subnetSel, s)
    {
      match subnetSel
      case StaticSubnet(n) => s := SelectStaticSubnet(n, dynamicRange, taken);
      case DynamicSubnet => s := SelectDynamicSubnet(dynamicRange, taken);
    }

    method SelectInSubnet(n: CIDR, ipSel: IPSelector) returns (r: Result<Network, Error>)
      ensures InSubnetSpec(allocation, n, ipSel, r)
    {
      hide IPSpec, Canonical;
      var gateway := Next(n.ip);
      if gateway.None? {
        return Panic;
      }
      var broadcast := Max(n);
      FitsAddressSpace(n);
      ValueInjective(gateway.value, FromValue(Base(n) + 1));
      ValueInjective(broadcast, FromValue(Last(n)));
      var used := IPsOf(allocation, n) + [n.ip, gateway.value, broadcast];
      assert used == IPsOf(allocation, n) + Reserved(n);
      var q;
      match ipSel {
        case StaticIP(ip) => q := SelectStaticIP(ip, n, used);
        case DynamicIP => q := SelectDynamicIP(n, used);
      }
      assert IPSpec(n, used, ipSel, q);
      r := WithIP(n, q);
    }

    /** The allocated subnets, in the arbitrary order of map iteration. */
    method AllocatedSubnets() returns (taken: seq<CIDR>)
      ensures Elems(taken) == Taken(allocation)
    {
      taken := [];
      var keys := allocation.Keys;
      while keys != {}
        invariant keys <= allocation.Keys
        invariant forall n :: n in taken <==> n in Taken(allocation) && n !in keys
        decreases |keys|
      {
        var n :| n in keys;
        if allocation[n] != [] {
          taken := taken + [n];
        }
        keys := keys - {n};
      }
    }

    /** Marks a network as handed out; fails when it is already. */
    method Remove(subnet: CIDR, ip: Option<IP>) returns (r: Result<(), Error>)
      modifies this
      ensures ip.None? ==> r == Err(IPCannotBeNil) && allocation == old(allocation)
      ensures ip.Some? ==>
        var net := Network(subnet, ip.value);
        if Holds(old(allocation), net) then r == Err(OverlapsExistingSubnet) && allocation == old(allocation)
        else r == Ok(()) && allocation == Add(old(allocation), net)
    {
      if ip.None? {
        return Err(IPCannotBeNil);
      }
      var ips := IPsOf(allocation, subnet);
      for i := 0 to |ips|
        invariant ip.value !in ips[..i]
      {
        if ips[i] == ip.value {
          return Err(OverlapsExistingSubnet);
        }
      }
      assert ips[..|ips|] == ips;
      allocation := allocation[subnet := ips + [ip.value]];
      return Ok(());
    }

    method Release(net: Network) returns (r: Result<(), Error>)
      modifies this
      ensures r == if Holds(old(allocation), net) then Ok(()) else Err(ReleasedUnallocatedSubnet)
      ensures allocation == Drop(old(allocation), net)
    {
      var ips := IPsOf(allocation, net.subnet);
      var i, found := IndexOf(ips, net.ip);
      if found {
        ips := ips[i := ips[|ips| - 1]];
        ips := ips[..|ips| - 1];
        if ips == [] {
          allocation := allocation - {net.subnet};
        } else {
          allocation := allocation[net.subnet := ips];
        }
        return Ok(());
      }
      return Err(ReleasedUnallocatedSubnet);
    }
  }

  method IndexOf(ips: seq<IP>, ip: IP) returns (i: int, found: bool)
    ensures found <==> ip in ips
    ensures found ==> i == FirstIndex(ips, ip)
  {
    for k := 0 to |ips|
      invariant ip !in ips[..k]
    {
      if ips[k] == ip {
        FirstIndexUnique(ips, ip, k);
        return k, true;
      }
    }
    assert ips[..|ips|] == ips;
    return -1, false;
  }

  lemma {:induction false} FirstIndexUnique(ips: seq<IP>, ip: IP, k: nat)
    requires k < |ips| && ips[k] == ip && ip !in ips[..k]
    ensures FirstIndex(ips, ip) == k
  {
    if k > 0 {
      assert ips[0] in ips[..k];
      assert ips[1..][..k - 1] == ips[..k][1..];
      FirstIndexUnique(ips[1..], ip, k - 1);
    }
  }

  // ----- every operation keeps the invariant

  lemma ChosenSubnetFits(dynamic: CIDR, m: Allocation, subnetSel: SubnetSelector, n: CIDR)
    requires Inv(dynamic, m) && SubnetSpec(dynamic, Taken(m), subnetSel, Ok(n))
    ensures SubnetFits(dynamic, m, n)
    ensures subnetSel.DynamicSubnet? ==> n !in m && !Disjoint(dynamic, n) && n.ones == 30 && dynamic.ones <= 30
  {
    hide Canonical, Base, Size;
    assert Taken(m) == m.Keys by { assert forall k | k in m :: SubnetOk(dynamic, k, m[k]); }
    if subnetSel.DynamicSubnet? {
      var k: nat :| FirstFree(dynamic, Taken(m), k) && n == Block(dynamic, k);
      SizeOfFour(dynamic);
      assert !Disjoint(dynamic, n);
      forall other | other in m
        ensures Disjoint(n, other)
      {
        assert SubnetOk(dynamic, other, m[other]);
        if !Disjoint(dynamic, other) && !Disjoint(n, other) {
          SameSizeSharing(n, other);
        }
      }
    }
  }

  lemma ChosenIPUsable(m: Allocation, n: CIDR, ipSel: IPSelector, r: Result<Network, Error>)
    requires InSubnetSpec(m, n, ipSel, r) && r.Ok?
    ensures r.value.subnet == n && Usable(n, r.value.ip) && !Holds(m, r.value)
  {
    hide Canonical;
    FitsAddressSpace(n);
    var ip := r.value.ip;
    var ips := IPsOf(m, n);
    assert IPSpec(n, ips + Reserved(n), ipSel, Ok(ip));
    assert ip !in ips && ip !in Reserved(n);
    assert n.ip in Reserved(n) && FromValue(Base(n) + 1) in Reserved(n) && FromValue(Last(n)) in Reserved(n);
    if Value(ip) == Base(n) {
      ValueInjective(ip, n.ip);
    } else if Value(ip) == Base(n) + 1 {
      ValueInjective(ip, FromValue(Base(n) + 1));
    } else if Value(ip) == Last(n) {
      ValueInjective(ip, FromValue(Last(n)));
    }
  }

  /** A request for a given address of a given subnet is granted if nothing speaks against it. */
  lemma StaticRequestGranted(dynamic: CIDR, m: Allocation, n: CIDR, ip: IP)
    requires Disjoint(dynamic, n) && (forall e | e in Taken(m) :: Disjoint(n, e) || n == e)
    requires Usable(n, ip) && !Holds(m, Network(n, ip))
    ensures AcquireSpec(dynamic, m, StaticSubnet(n), StaticIP(ip), Ok(Network(n, ip)))
  {
    hide Canonical, Value;
    FitsAddressSpace(n);
    assert SubnetSpec(dynamic, Taken(m), StaticSubnet(n), Ok(n));
    assert ip !in Reserved(n);
    assert IPSpec(n, IPsOf(m, n) + Reserved(n), StaticIP(ip), Ok(ip));
    assert InSubnetSpec(m, n, StaticIP(ip), WithIP(n, Ok(ip)));
  }

  /** And only then. */
  lemma StaticRequestExact(dynamic: CIDR, m: Allocation, n: CIDR, ip: IP, r: Result<Network, Error>)
    requires Inv(dynamic, m) && AcquireSpec(dynamic, m, StaticSubnet(n), StaticIP(ip), r)
    ensures r.Ok? <==>
      Disjoint(dynamic, n) && SubnetFits(dynamic, m, n) && Usable(n, ip) && !Holds(m, Network(n, ip))
    ensures r.Ok? ==> r.value == Network(n, ip)
  {
    hide Canonical, Value, NoDup;
    FitsAddressSpace(n);
    assert Usable(n, ip) ==> ip !in Reserved(n);
    assert Taken(m) == m.Keys by { assert forall k | k in m :: SubnetOk(dynamic, k, m[k]); }
    if r.Ok? {
      ChosenSubnetFits(dynamic, m, StaticSubnet(n), n);
      ChosenIPUsable(m, n, StaticIP(ip), r);
    }
  }

  lemma AddKeepsInv(dynamic: CIDR, m: Allocation, net: Network)
    requires Inv(dynamic, m) && SubnetFits(dynamic, m, net.subnet)
    requires Usable(net.subnet, net.ip) && !Holds(m, net)
    ensures Inv(dynamic, Add(m, net))
  {
    hide Canonical, Usable, InPlace, Base, Size;
    var n, ips := net.subnet, IPsOf(m, net.subnet);
    assert SubnetOk(dynamic, n, ips + [net.ip]) by {
      assert n in m ==> SubnetOk(dynamic, n, m[n]);
      NoDupAppend(ips, net.ip);
    }
  }

  lemma AcquireKeepsInv(
    dynamic: CIDR, m: Allocation, subnetSel: SubnetSelector, ipSel: IPSelector, r: Result<Network, Error>)
    requires AcquireSpec(dynamic, m, subnetSel, ipSel, r)
    ensures Inv(dynamic, m) ==> Inv(dynamic, After(m, r))
    ensures r.Ok? ==> !Holds(m, r.value)
  {
    hide SubnetSpec, IPSpec, Canonical, Inv;
    if r.Ok? {
      var n :| SubnetSpec(dynamic, Taken(m), subnetSel, Ok(n)) && InSubnetSpec(m, n, ipSel, r);
      ChosenIPUsable(m, n, ipSel, r);
      if Inv(dynamic, m) {
        ChosenSubnetFits(dynamic, m, subnetSel, n);
        AddKeepsInv(dynamic, m, r.value);
      }
    }
  }

  /** Remove checks only for the same address in the same subnet, so it keeps the invariant exactly
      when the network restored is one the pool could have handed out. */
  lemma RemoveKeepsInvIff(dynamic: CIDR, m: Allocation, net: Network)
    requires Inv(dynamic, m) && !Holds(m, net)
    ensures Inv(dynamic, Add(m, net)) <==> SubnetFits(dynamic, m, net.subnet) && Usable(net.subnet, net.ip)
  {
    hide Canonical, Usable, InPlace, Base, Size;
    var n, m' := net.subnet, Add(m, net);
    if SubnetFits(dynamic, m, n) && Usable(n, net.ip) {
      AddKeepsInv(dynamic, m, net);
    }
    if Inv(dynamic, m') {
      assert SubnetOk(dynamic, n, m'[n]);
      assert net.ip in m'[n];
      if n !in m {
        forall k | k in m
          ensures Disjoint(n, k)
        {
          assert k in m' && n in m' && n != k;
        }
      }
    }
  }

  lemma SwapRemoveElems(ips: seq<IP>, i: nat)
    requires i < |ips| && NoDup(ips)
    ensures NoDup(SwapRemove(ips, i))
    ensures forall ip :: ip in SwapRemove(ips, i) <==> ip in ips && ip != ips[i]
  {
    var r, l := SwapRemove(ips, i), |ips| - 1;
    forall ip | ip in ips && ip != ips[i]
      ensures ip in r
    {
      var j :| 0 <= j < |ips| && ips[j] == ip;
      assert r[if j == l then i else j] == ip;
    }
  }

  /** Dropping a network leaves every other network held and no other. */
  lemma DropHolds(dynamic: CIDR, m: Allocation, net: Network, other: Network)
    requires Inv(dynamic, m)
    ensures Holds(Drop(m, net), other) <==> Holds(m, other) && other != net
  {
    hide Canonical, Usable, InPlace, Base, Size;
    if Holds(m, net) {
      assert SubnetOk(dynamic, net.subnet, m[net.subnet]);
      SwapRemoveElems(m[net.subnet], FirstIndex(m[net.subnet], net.ip));
    }
  }

  lemma DropKeepsInv(dynamic: CIDR, m: Allocation, net: Network)
    requires Inv(dynamic, m)
    ensures Inv(dynamic, Drop(m, net))
  {
    hide Canonical, Usable, InPlace, Base, Size;
    if Holds(m, net) {
      assert SubnetOk(dynamic, net.subnet, m[net.subnet]);
      SwapRemoveElems(m[net.subnet], FirstIndex(m[net.subnet], net.ip));
    }
  }

  /** Releasing the network just acquired restores the pool, order of addresses included. */
  lemma ReleaseUndoesAcquire(dynamic: CIDR, m: Allocation, net: Network)
    requires Inv(dynamic, m) && !Holds(m, net)
    ensures Drop(Add(m, net), net) == m
  {
    hide Canonical, Usable, InPlace, Base, Size;
    var ips := IPsOf(m, net.subnet);
    var ips' := ips + [net.ip];
    assert ips'[..|ips|] == ips;
    FirstIndexUnique(ips', net.ip, |ips|);
    assert SwapRemove(ips', |ips|) == ips;
    assert net.subnet in m ==> SubnetOk(dynamic, net.subnet, m[net.subnet]);
  }

  // ----- whole runs

  datatype Event =
    | Acquired(subnetSel: SubnetSelector, ipSel: IPSelector, r: Result<Network, Error>)
    | Released(net: Network)
    | Removed(net: Network)

  ghost predicate Step(dynamic: CIDR, m: Allocation, e: Event, m': Allocation)
  {
    match e
    case Acquired(subnetSel, ipSel, r) => AcquireSpec(dynamic, m, subnetSel, ipSel, r) && m' == After(m, r)
    case Released(net) => m' == Drop(m, net)
    case Removed(net) => m' == if Holds(m, net) then m else Add(m, net)
  }

  /** A run from the empty pool; networks put back by Remove are ones the pool could have handed out. */
  ghost predicate Run(dynamic: CIDR, es: seq<Event>, ms: seq<Allocation>)
  {
    && |ms| == |es| + 1 && ms[0] == map[]
    && (forall i | 0 <= i < |es| :: Step(dynamic, ms[i], es[i], ms[i + 1]))
    && (forall i | 0 <= i < |es| :: Restorable(dynamic, ms[i], es[i]))
  }

  /** Whether a network is live after an event, given whether it was before: it is once acquired or put back,
      until it is released. */
  predicate LiveAfter(e: Event, net: Network, before: bool)
  {
    match e
    case Acquired(_, _, r) => r == Ok(net) || before
    case Released(n) => n != net && before
    case Removed(n) => n == net || before
  }

  predicate Live(es: seq<Event>, net: Network)
  {
    es != [] && LiveAfter(es[|es| - 1], net, Live(es[..|es| - 1], net))
  }

  ghost predicate Restorable(dynamic: CIDR, m: Allocation, e: Event)
  {
    e.Removed? && !Holds(m, e.net) ==> SubnetFits(dynamic, m, e.net.subnet) && Usable(e.net.subnet, e.net.ip)
  }

  lemma StepInvariant(dynamic: CIDR, m: Allocation, e: Event, m': Allocation)
    requires Inv(dynamic, m) && Step(dynamic, m, e, m') && Restorable(dynamic, m, e)
    ensures Inv(dynamic, m')
  {
    hide Inv, AcquireSpec, SubnetFits, Usable, Drop, Add, Holds;
    match e {
      case Acquired(subnetSel, ipSel, r) => AcquireKeepsInv(dynamic, m, subnetSel, ipSel, r);
      case Released(n) => DropKeepsInv(dynamic, m, n);
      case Removed(n) =>
        if !Holds(m, n) {
          AddKeepsInv(dynamic, m, n);
        }
    }
  }

  lemma StepHolds(dynamic: CIDR, m: Allocation, e: Event, m': Allocation, net: Network)
    requires Inv(dynamic, m) && Step(dynamic, m, e, m')
    ensures Holds(m', net) <==> LiveAfter(e, net, Holds(m, net))
  {
    hide Inv, AcquireSpec, Drop, Add, Holds;
    match e {
      case Acquired(_, _, r) =>
        if r.Ok? {
          AddHolds(m, r.value, net);
        }
      case Released(n) => DropHolds(dynamic, m, n, net);
      case Removed(n) => AddHolds(m, n, net);
    }
  }

  lemma AddHolds(m: Allocation, net: Network, other: Network)
    ensures Holds(Add(m, net), other) <==> Holds(m, other) || other == net
  {
    hide Canonical;
  }

  lemma {:induction false} RunInvariant(dynamic: CIDR, es: seq<Event>, ms: seq<Allocation>)
    requires Run(dynamic, es, ms)
    ensures |ms| == |es| + 1 && Inv(dynamic, ms[|es|])
    ensures forall net :: Holds(ms[|es|], net) <==> Live(es, net)
  {
    hide Inv, Step, Restorable, Holds, LiveAfter;
    if es == [] {
      EmptyPool(dynamic);
    } else {
      var k := |es| - 1;
      RunInvariant(dynamic, es[..k], ms[..k + 1]);
      StepInvariant(dynamic, ms[k], es[k], ms[k + 1]);
      forall net
        ensures Holds(ms[|es|], net) <==> Live(es, net)
      {
        StepHolds(dynamic, ms[k], es[k], ms[k + 1], net);
      }
    }
  }

  lemma EmptyPool(dynamic: CIDR)
    ensures Inv(dynamic, map[]) && forall net :: !Holds(map[], net)
  {
  }

  lemma HeldNetworksNeverClash(dynamic: CIDR, m: Allocation, a: Network, b: Network)
    requires Inv(dynamic, m) && Holds(m, a) && Holds(m, b)
    ensures Usable(a.subnet, a.ip) && InBlock(a.subnet, Value(a.ip))
    ensures a.subnet != b.subnet ==> forall v :: !(InBlock(a.subnet, v) && InBlock(b.subnet, v))
    ensures a != b ==> Value(a.ip) != Value(b.ip)
  {
    hide Canonical, Value, NoDup;
    assert SubnetOk(dynamic, a.subnet, m[a.subnet]) && SubnetOk(dynamic, b.subnet, m[b.subnet]);
    if Value(a.ip) == Value(b.ip) {
      ValueInjective(a.ip, b.ip);
    }
  }

  /** Over every run the live networks are exactly those the pool holds. Their subnets are equal or share
      no address, their addresses are usable ones of their subnet, and no address is live twice. */
  lemma LiveNetworksNeverClash(dynamic: CIDR, es: seq<Event>, ms: seq<Allocation>, a: Network, b: Network)
    requires Run(dynamic, es, ms) && Live(es, a) && Live(es, b)
    ensures Holds(ms[|es|], a) && Usable(a.subnet, a.ip) && InBlock(a.subnet, Value(a.ip))
    ensures a.subnet != b.subnet ==> forall v :: !(InBlock(a.subnet, v) && InBlock(b.subnet, v))
    ensures a != b ==> Value(a.ip) != Value(b.ip)
  {
    hide *;
    RunInvariant(dynamic, es, ms);
    HeldNetworksNeverClash(dynamic, ms[|es|], a, b);
  }
}
