/** The subnet and address pool (network/subnets/subnets.go, network/subnets/selectors.go). */
module Subnets {
  import opened Arithmetic
  import opened Outcomes
  import opened Collections
  import opened IPUtil

  datatype Error =
    | RequestOverlapsDynamicRange
    | RequestOverlapsSubnet
    | InsufficientSubnets
    | IPEqualsBroadcast
    | IPEqualsGateway
    | InvalidIP
    | IPAlreadyAcquired
    | InsufficientIPs
    | IPCannotBeNil
    | OverlapsExistingSubnet
    | ReleasedUnallocatedSubnet

  datatype SubnetSelector = StaticSubnet(net: CIDR) | DynamicSubnet

  datatype IPSelector = StaticIP(ip: IP) | DynamicIP

  datatype Network = Network(subnet: CIDR, ip: IP)

  /** Which addresses are handed out in which subnet. */
  type Allocation = map<CIDR, seq<IP>>

  function Last(n: CIDR): (v: nat)
  {
    Base(n) + Size(n) - 1
  }

  /** The addresses handed out in a subnet; none when the subnet is not allocated. */
  function IPsOf(m: Allocation, n: CIDR): (ips: seq<IP>)
  {
    if n in m then m[n] else []
  }

  /** Addresses a container may have: not the network, the gateway or the broadcast address. */
  predicate Usable(n: CIDR, ip: IP)
  {
    Base(n) + 1 < Value(ip) < Last(n)
  }

  function UsableCount(n: CIDR): (c: nat)
  {
    if Size(n) < 4 then 0 else Size(n) - 3
  }

  // ----- the /30 blocks of the dynamic range

  function Capacity(dynamic: CIDR): (c: nat)
  {
    Size(dynamic) / 4
  }

  /** The k-th /30 of the dynamic range. */
  function Block(dynamic: CIDR, k: nat): (n: CIDR)
    requires k < Capacity(dynamic)
    ensures n.ones == 30 && Base(n) == Base(dynamic) + 4 * k
    ensures Size(n) == 4 && Base(n) + 4 <= Base(dynamic) + Size(dynamic)
  {
    BlockAligned(dynamic, k);
    IPNet(FromValue(Base(dynamic) + 4 * k), 30)
  }

  lemma SizeOfFour(n: CIDR)
    ensures n.ones <= 30 ==> Size(n) == 4 * Pow2(30 - n.ones)
    ensures Size(n) < 4 <==> n.ones > 30
    ensures n.ones == 30 ==> Size(n) == 4
    ensures n.ones == 31 ==> Size(n) == 2
    ensures n.ones == 32 ==> Size(n) == 1
  {
    hide Value, LowBits;
    if n.ones <= 30 {
      assert Pow2(31 - n.ones) == 2 * Pow2(30 - n.ones);
    }
  }

  lemma BlockAligned(dynamic: CIDR, k: nat)
    requires k < Capacity(dynamic)
    ensures Base(dynamic) % 4 == 0
    ensures Base(dynamic) + 4 * k + 4 <= Base(dynamic) + Size(dynamic) <= LIMIT
    ensures Canonical(IPNet(FromValue(Base(dynamic) + 4 * k), 30))
  {
    hide Value, FromValue, Pow2;
    SizeOfFour(dynamic);
    FitsAddressSpace(dynamic);
    StartsAtFour(dynamic);
    FourAligned(Base(dynamic) + 4 * k);
  }

  lemma StartsAtFour(n: CIDR)
    requires n.ones <= 30
    ensures Base(n) % 4 == 0
  {
    hide Value, Pow2, LowBits;
    CanonicalAligned(n);
    SizeOfFour(n);
    MultipleOfFour(Base(n), Pow2(30 - n.ones));
  }

  lemma FourAligned(x: nat)
    requires x % 4 == 0
    ensures LowBits(x, 2) == 0
  {
    var q := x / 4;
    assert x == 4 * q && x / 2 == 2 * q && x / 2 % 2 == 0;
    assert LowBits(x / 2, 1) == 0;
  }

  lemma MultipleOfFour(b: nat, p: nat)
    requires p > 0 && b % (4 * p) == 0
    ensures b % 4 == 0
  {
    assert b == 4 * (b / (4 * p) * p);
  }

  /** A /30 that shares an address with the dynamic range is one of its blocks. */
  lemma IsBlock(dynamic: CIDR, n: CIDR)
    requires dynamic.ones <= 30 && n.ones == 30 && !Disjoint(dynamic, n)
    ensures var k := (Base(n) - Base(dynamic)) / 4;
            0 <= k < Capacity(dynamic) && n == Block(dynamic, k)
  {
    hide Canonical, Value, Pow2;
    NestedOrDisjoint(dynamic, n);
    SizeOfFour(dynamic);
    SizeOfFour(n);
    StartsAtFour(n);
    StartsAtFour(dynamic);
    var k := (Base(n) - Base(dynamic)) / 4;
    assert Base(n) == Base(dynamic) + 4 * k;
    assert 4 * k + 4 <= Size(dynamic);
    ValueInjective(n.ip, Block(dynamic, k).ip);
  }

  // ----- what the selectors promise

  /** The dynamic selector's loop runs off the end of the address space. */
  predicate RunsOff(dynamic: CIDR)
  {
    Base(dynamic) + (if Size(dynamic) < 4 then 4 else Size(dynamic)) >= LIMIT
  }

  predicate AllTaken(dynamic: CIDR, taken: set<CIDR>)
  {
    forall k: nat | k < Capacity(dynamic) :: Block(dynamic, k) in taken
  }

  /** k is the first block not taken. */
  predicate FirstFree(dynamic: CIDR, taken: set<CIDR>, k: nat)
  {
    && k < Capacity(dynamic)
    && Block(dynamic, k) !in taken
    && forall j: nat | j < k :: Block(dynamic, j) in taken
  }

  ghost predicate SubnetSpec(dynamic: CIDR, taken: set<CIDR>, sel: SubnetSelector, r: Result<CIDR, Error>)
  {
    match sel
    case StaticSubnet(n) =>
      if !Disjoint(dynamic, n) then r == Err(RequestOverlapsDynamicRange)
      else if exists e :: e in taken && !Disjoint(n, e) && n != e then r == Err(RequestOverlapsSubnet)
      else r == Ok(n)
    case DynamicSubnet =>
      if AllTaken(dynamic, taken) then r == if RunsOff(dynamic) then Panic else Err(InsufficientSubnets)
      else r.Ok? && exists k: nat :: FirstFree(dynamic, taken, k) && r.value == Block(dynamic, k)
  }

  predicate AllUsed(n: CIDR, used: seq<IP>)
  {
    forall v: nat | v < LIMIT && InBlock(n, v) :: FromValue(v) in used
  }

  ghost predicate IPSpec(n: CIDR, used: seq<IP>, sel: IPSelector, r: Result<IP, Error>)
  {
    match sel
    case StaticIP(ip) =>
      if Value(ip) == Last(n) then r == Err(IPEqualsBroadcast)
      else if Value(ip) == Base(n) + 1 then r == Err(IPEqualsGateway)
      else if !InBlock(n, Value(ip)) then r == Err(InvalidIP)
      else if ip in used then r == Err(IPAlreadyAcquired)
      else r == Ok(ip)
    case DynamicIP =>
      if AllUsed(n, used) then r == if Base(n) + Size(n) == LIMIT then Panic else Err(InsufficientIPs)
      else
        && r.Ok? && InBlock(n, Value(r.value)) && r.value !in used
        && forall v: nat | Base(n) <= v < Value(r.value) :: FromValue(v) in used
  }

  // ----- the selectors

  method SelectStaticSubnet(n: CIDR, dynamic: CIDR, existing: seq<CIDR>) returns (r: Result<CIDR, Error>)
    ensures SubnetSpec(dynamic, Elems(existing), StaticSubnet(n), r)
  {
    OverlapsIsSharing(dynamic, n);
    if Overlaps(dynamic, n) {
      return Err(RequestOverlapsDynamicRange);
    }
    for i := 0 to |existing|
      invariant forall j | 0 <= j < i :: Disjoint(n, existing[j]) || n == existing[j]
    {
      OverlapsIsSharing(n, existing[i]);
      if Overlaps(n, existing[i]) && !Equals(n, existing[i]) {
        assert existing[i] in Elems(existing);
        return Err(RequestOverlapsSubnet);
      }
    }
    return Ok(n);
  }

  /** The local `exists` map of the dynamic selectors. */
  method SetOf<T(==)>(existing: seq<T>) returns (s: set<T>)
    ensures s == Elems(existing)
  {
    s := {};
    for i := 0 to |existing|
      invariant s == Elems(existing[..i])
    {
      s := s + {existing[i]};
    }
    assert existing[..|existing|] == existing;
  }

  method ThreeOn(ip: IP) returns (r: Option<IP>)
    ensures r.None? <==> Value(ip) + 3 >= LIMIT
    ensures r.Some? ==> Value(r.value) == Value(ip) + 3
  {
    hide Value;
    r := Next(ip);
    if r.Some? {
      r := Next(r.value);
      if r.Some? {
        r := Next(r.value);
      }
    }
  }

  /** The first k blocks are taken. */
  predicate Scanned(dynamic: CIDR, taken: set<CIDR>, k: nat)
  {
    forall j: nat | j < k && j < Capacity(dynamic) :: Block(dynamic, j) in taken
  }

  lemma BlockAt(dynamic: CIDR, k: nat, subnet: IPNet)
    requires Value(subnet.ip) == Base(dynamic) + 4 * k && subnet.ones == 30
    ensures k < Capacity(dynamic) <==> InBlock(dynamic, Base(dynamic) + 4 * k + 3)
    ensures k < Capacity(dynamic) ==> subnet == Block(dynamic, k)
  {
    hide Canonical, Value, Pow2;
    SizeOfFour(dynamic);
    if k < Capacity(dynamic) {
      ValueInjective(subnet.ip, Block(dynamic, k).ip);
    }
  }

  /** One round of the scan: the block is free and selected, or it is no reason to stop. */
  lemma ScanRound(dynamic: CIDR, taken: set<CIDR>, k: nat, subnet: IPNet)
    requires Value(subnet.ip) == Base(dynamic) + 4 * k && subnet.ones == 30 && Scanned(dynamic, taken, k)
    ensures InBlock(dynamic, Base(dynamic) + 4 * k + 3) && subnet !in taken ==>
      Canonical(subnet) && SubnetSpec(dynamic, taken, DynamicSubnet, Ok(subnet))
    ensures !(InBlock(dynamic, Base(dynamic) + 4 * k + 3) && subnet !in taken) ==> Scanned(dynamic, taken, k + 1)
  {
    hide Value, Pow2, InBlock, Canonical, Capacity;
    BlockAt(dynamic, k, subnet);
    if k < Capacity(dynamic) && subnet !in taken {
      assert FirstFree(dynamic, taken, k);
      assert !AllTaken(dynamic, taken);
    }
  }

  lemma ScanPanics(dynamic: CIDR, taken: set<CIDR>, k: nat)
    requires InBlock(dynamic, Base(dynamic) + 4 * k) && Base(dynamic) + 4 * k + 4 >= LIMIT
    requires Scanned(dynamic, taken, k) && (Base(dynamic) + 4 * k + 3 < LIMIT ==> Scanned(dynamic, taken, k + 1))
    ensures SubnetSpec(dynamic, taken, DynamicSubnet, Panic)
  {
    hide Canonical, Value, Pow2;
    SizeOfFour(dynamic);
    FitsAddressSpace(dynamic);
  }

  lemma ScanEnds(dynamic: CIDR, taken: set<CIDR>, k: nat)
    requires !InBlock(dynamic, Base(dynamic) + 4 * k) && Base(dynamic) + 4 * k < LIMIT && Scanned(dynamic, taken, k)
    ensures SubnetSpec(dynamic, taken, DynamicSubnet, Err(InsufficientSubnets))
  {
    hide Canonical, Value, Pow2;
    SizeOfFour(dynamic);
  }

  method SelectDynamicSubnet(dynamic: CIDR, existing: seq<CIDR>) returns (r: Result<CIDR, Error>)
    ensures SubnetSpec(dynamic, Elems(existing), DynamicSubnet, r)
  {
    hide Canonical, Value, Pow2, Contains, SubnetSpec, Scanned, InBlock, Elems;
    var known: set<IPNet> := SetOf(existing);
    ghost var k := 0;
    var ip := dynamic.ip;
    ScanStarts(dynamic, Elems(existing));
    ContainsIsInterval(dynamic, ip);
    while Contains(dynamic, ip)
      invariant Value(ip) == Base(dynamic) + 4 * k && Scanned(dynamic, Elems(existing), k)
      invariant Contains(dynamic, ip) <==> InBlock(dynamic, Value(ip))
      decreases LIMIT - Value(ip)
    {
      var subnet := IPNet(ip, 30);
      ScanRound(dynamic, Elems(existing), k, subnet);
      var last := ThreeOn(ip);
      if last.None? {
        ScanPanics(dynamic, Elems(existing), k);
        return Panic;
      }
      ip := last.value;
      ContainsIsInterval(dynamic, ip);
      if Contains(dynamic, ip) && subnet !in known {
        return Ok(subnet);
      }
      var next := Next(ip);
      if next.None? {
        ScanPanics(dynamic, Elems(existing), k);
        return Panic;
      }
      ip := next.value;
      k := k + 1;
      ContainsIsInterval(dynamic, ip);
    }
    ScanEnds(dynamic, Elems(existing), k);
    return Err(InsufficientSubnets);
  }

  lemma ScanStarts(dynamic: CIDR, taken: set<CIDR>)
    ensures Scanned(dynamic, taken, 0)
  {
  }

  method SelectStaticIP(ip: IP, n: CIDR, existing: seq<IP>) returns (r: Result<IP, Error>)
    ensures Base(n) < LIMIT - 1 ==> IPSpec(n, existing, StaticIP(ip), r)
    ensures Base(n) == LIMIT - 1 ==> r == if ip == n.ip then Err(IPEqualsBroadcast) else Panic
  {
    FitsAddressSpace(n);
    var broadcast := Max(n);
    if Base(n) == LIMIT - 1 {
      ValueInjective(broadcast, n.ip);
    }
    if broadcast == ip {
      return Err(IPEqualsBroadcast);
    }
    if Value(broadcast) == Value(ip) {
      ValueInjective(broadcast, ip);
    }
    var gateway := Next(n.ip);
    if gateway.None? {
      return Panic;
    }
    if gateway.value == ip {
      return Err(IPEqualsGateway);
    }
    if Value(gateway.value) == Value(ip) {
      ValueInjective(gateway.value, ip);
    }
    ContainsIsInterval(n, ip);
    if !Contains(n, ip) {
      return Err(InvalidIP);
    }
    for i := 0 to |existing|
      invariant ip !in existing[..i]
    {
      if existing[i] == ip {
        return Err(IPAlreadyAcquired);
      }
    }
    assert existing[..|existing|] == existing;
    return Ok(ip);
  }

  method SelectDynamicIP(n: CIDR, existing: seq<IP>) returns (r: Result<IP, Error>)
    ensures IPSpec(n, existing, DynamicIP, r)
  {
    hide Canonical, Value, Pow2, Contains;
    var known := SetOf(existing);
    var ip := n.ip;
    FitsAddressSpace(n);
    ContainsIsInterval(n, ip);
    while Contains(n, ip)
      invariant Base(n) <= Value(ip)
      invariant Contains(n, ip) <==> InBlock(n, Value(ip))
      invariant Value(ip) <= Base(n) + Size(n)
      invariant forall v: nat | Base(n) <= v < Value(ip) :: FromValue(v) in existing
      decreases LIMIT - Value(ip)
    {
      ValueInjective(ip, FromValue(Value(ip)));
      if ip !in known {
        return Ok(ip);
      }
      var next := Next(ip);
      if next.None? {
        return Panic;
      }
      ip := next.value;
      ContainsIsInterval(n, ip);
    }
    return Err(InsufficientIPs);
  }
}
