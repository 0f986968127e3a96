/** What the network part of a container specification asks for, and what it gets
    (resource_pool/resource_pool.go, network/subnets/subnets.go). */
module Requests {
  import opened Outcomes
  import opened IPUtil
  import opened Subnets
  import opened SubnetPool
  import opened SubnetExhaustion

  /** The network part of a container specification, after net.ParseCIDR. */
  datatype NetworkSpec = Unspecified | Malformed | Specified(ip: IP, net: CIDR)

  function ParseNetworkSpec(spec: NetworkSpec): (sel: Option<(SubnetSelector, IPSelector)>)
  {
    match spec
    case Malformed => None
    case Unspecified => Some((DynamicSubnet, DynamicIP))
    case Specified(ip, net) => Some((StaticSubnet(net), if ip == net.ip then DynamicIP else StaticIP(ip)))
  }

  // ----- the meaning of a specification, without the selectors

  /** The specification can be met. */
  ghost predicate Grantable(dynamic: CIDR, m: Allocation, spec: NetworkSpec)
  {
    match spec
    case Malformed => false
    case Unspecified => |DynamicSubnets(dynamic, m)| < Capacity(dynamic)
    case Specified(ip, n) =>
      && Disjoint(dynamic, n) && SubnetFits(dynamic, m, n)
      && if Value(ip) == Base(n) then |IPsOf(m, n)| < UsableCount(n) else Usable(n, ip) && !Holds(m, Network(n, ip))
  }

  /** The network it gets: the third address of the lowest free /30 of the dynamic range, the lowest free address of
      the subnet asked for, or the very address asked for. */
  ghost predicate Grants(dynamic: CIDR, m: Allocation, spec: NetworkSpec, net: Network)
  {
    match spec
    case Malformed => false
    case Unspecified =>
      exists k: nat :: FirstFree(dynamic, m.Keys, k)
        && net.subnet == Block(dynamic, k) && Value(net.ip) == Base(dynamic) + 4 * k + 2
    case Specified(ip, n) =>
      && net.subnet == n && Usable(n, net.ip) && !Holds(m, net)
      && if Value(ip) == Base(n) then LowerHeld(m, n, net.ip) else net.ip == ip
  }

  predicate LowerHeld(m: Allocation, n: CIDR, ip: IP)
  {
    forall v: nat | Base(n) + 1 < v < Value(ip) :: Holds(m, Network(n, FromValue(v)))
  }

  /** Why it cannot be met. */
  ghost function RefusedWith(dynamic: CIDR, m: Allocation, spec: NetworkSpec): (r: Result<Network, Error>)
  {
    match spec
    case Malformed => Panic
    case Unspecified => if RunsOff(dynamic) then Panic else Err(InsufficientSubnets)
    case Specified(ip, n) =>
      if !Disjoint(dynamic, n) then Err(RequestOverlapsDynamicRange)
      else if !SubnetFits(dynamic, m, n) then Err(RequestOverlapsSubnet)
      else if Value(ip) == Base(n) then if Base(n) + Size(n) == LIMIT then Panic else Err(InsufficientIPs)
      else if Base(n) == LIMIT - 1 then Panic
      else if Value(ip) == Base(n) + Size(n) - 1 then Err(IPEqualsBroadcast)
      else if Value(ip) == Base(n) + 1 then Err(IPEqualsGateway)
      else if !InBlock(n, Value(ip)) then Err(InvalidIP)
      else Err(IPAlreadyAcquired)
  }

  lemma RefusedIsNotOk(dynamic: CIDR, m: Allocation, spec: NetworkSpec)
    ensures !RefusedWith(dynamic, m, spec).Ok?
  {
    hide Canonical, Value, SubnetFits;
  }

  /** The pool's answer to a specification. */
  ghost predicate Answers(dynamic: CIDR, m: Allocation, spec: NetworkSpec, r: Result<Network, Error>)
  {
    if Grantable(dynamic, m, spec) then r.Ok? && Grants(dynamic, m, spec, r.value)
    else r == RefusedWith(dynamic, m, spec)
  }

  // ----- the selectors give each specification what it means

  lemma ParsedIff(spec: NetworkSpec)
    ensures ParseNetworkSpec(spec).None? <==> spec.Malformed?
  {
  }

  lemma DynamicAnswers(dynamic: CIDR, m: Allocation, r: Result<Network, Error>)
    requires Inv(dynamic, m) && AcquireSpec(dynamic, m, DynamicSubnet, DynamicIP, r)
    ensures Answers(dynamic, m, Unspecified, r)
  {
    hide Canonical, Value, AcquireSpec, FirstFree, Usable, DynamicSubnets, RunsOff;
    DynamicAcquireExact(dynamic, m, r);
    TakenIsKeys(dynamic, m);
  }

  lemma TakenIsKeys(dynamic: CIDR, m: Allocation)
    requires Inv(dynamic, m)
    ensures Taken(m) == m.Keys
  {
    assert forall k | k in m :: SubnetOk(dynamic, k, m[k]);
  }

  /** A subnet that does not fit is refused before an address is chosen. */
  lemma SubnetRefused(dynamic: CIDR, m: Allocation, n: CIDR, ipSel: IPSelector, r: Result<Network, Error>)
    requires Inv(dynamic, m) && AcquireSpec(dynamic, m, StaticSubnet(n), ipSel, r)
    ensures !Disjoint(dynamic, n) ==> r == Err(RequestOverlapsDynamicRange)
    ensures Disjoint(dynamic, n) && !SubnetFits(dynamic, m, n) ==> r == Err(RequestOverlapsSubnet)
    ensures Disjoint(dynamic, n) && SubnetFits(dynamic, m, n) ==> InSubnetSpec(m, n, ipSel, r)
  {
    TakenIsKeys(dynamic, m);
    hide Canonical, Value, Usable, IPSpec, InSubnetSpec, Taken, Base, Size;
    if Disjoint(dynamic, n) && SubnetFits(dynamic, m, n) {
      forall e | e in m
        ensures Disjoint(n, e) || n == e
      {
        assert n in m ==> n == e || Disjoint(n, e);
      }
    }
  }

  lemma LowestAddress(dynamic: CIDR, m: Allocation, n: CIDR, r: Result<Network, Error>)
    requires Inv(dynamic, m) && InSubnetSpec(m, n, DynamicIP, r) && r.Ok?
    ensures r.value.subnet == n && Usable(n, r.value.ip) && !Holds(m, r.value) && LowerHeld(m, n, r.value.ip)
  {
    ChosenIPUsable(m, n, DynamicIP, r);
    hide Canonical, Inv;
    FitsAddressSpace(n);
    var used := IPsOf(m, n) + Reserved(n);
    forall v: nat | Base(n) + 1 < v < Value(r.value.ip)
      ensures Holds(m, Network(n, FromValue(v)))
    {
      assert FromValue(v) in used;
      assert FromValue(v) !in Reserved(n);
    }
  }

  lemma StaticAddressRefused(m: Allocation, n: CIDR, ip: IP, r: Result<Network, Error>)
    requires InSubnetSpec(m, n, StaticIP(ip), r) && !r.Ok? && Value(ip) != Base(n)
    ensures r ==
      if Base(n) == LIMIT - 1 then Panic
      else if Value(ip) == Base(n) + Size(n) - 1 then Err(IPEqualsBroadcast)
      else if Value(ip) == Base(n) + 1 then Err(IPEqualsGateway)
      else if !InBlock(n, Value(ip)) then Err(InvalidIP)
      else Err(IPAlreadyAcquired)
  {
    hide Canonical, Value;
  }

  lemma StaticAnswers(dynamic: CIDR, m: Allocation, ip: IP, n: CIDR, r: Result<Network, Error>)
    requires Inv(dynamic, m) && AcquireSpec(dynamic, m, StaticSubnet(n), StaticIP(ip), r) && Value(ip) != Base(n)
    ensures Answers(dynamic, m, Specified(ip, n), r)
  {
    SubnetRefused(dynamic, m, n, StaticIP(ip), r);
    hide Canonical, Value, AcquireSpec, InSubnetSpec, Usable, Inv, SubnetFits;
    StaticRequestExact(dynamic, m, n, ip, r);
    if Disjoint(dynamic, n) && SubnetFits(dynamic, m, n) && !r.Ok? {
      StaticAddressRefused(m, n, ip, r);
    }
  }

  lemma LowestAnswers(dynamic: CIDR, m: Allocation, ip: IP, n: CIDR, r: Result<Network, Error>)
    requires Inv(dynamic, m) && AcquireSpec(dynamic, m, StaticSubnet(n), DynamicIP, r) && Value(ip) == Base(n)
    ensures Answers(dynamic, m, Specified(ip, n), r)
  {
    SubnetRefused(dynamic, m, n, DynamicIP, r);
    hide Canonical, Value, AcquireSpec, InSubnetSpec, Usable, Inv, SubnetFits, LowerHeld;
    if Disjoint(dynamic, n) && SubnetFits(dynamic, m, n) {
      DynamicIPExact(dynamic, m, n, r);
      if r.Ok? {
        LowestAddress(dynamic, m, n, r);
      }
    }
  }

  /** From any consistent allocation every well-formed specification is answered as it asks. */
  lemma RequestExact(dynamic: CIDR, m: Allocation, spec: NetworkSpec, r: Result<Network, Error>)
    requires Inv(dynamic, m) && ParseNetworkSpec(spec).Some?
    requires AcquireSpec(dynamic, m, ParseNetworkSpec(spec).value.0, ParseNetworkSpec(spec).value.1, r)
    ensures Answers(dynamic, m, spec, r)
  {
    hide Inv, AcquireSpec, Answers, Canonical;
    match spec
    case Malformed =>
    case Unspecified => DynamicAnswers(dynamic, m, r);
    case Specified(ip, n) =>
      if Value(ip) == Base(n) {
        ValueInjective(ip, n.ip);
        LowestAnswers(dynamic, m, ip, n, r);
      } else {
        StaticAnswers(dynamic, m, ip, n, r);
      }
  }

  /** No two networks meet one specification. */
  lemma GrantIsUnique(dynamic: CIDR, m: Allocation, spec: NetworkSpec, a: Network, b: Network)
    requires Inv(dynamic, m) && Grants(dynamic, m, spec, a) && Grants(dynamic, m, spec, b)
    ensures a == b
  {
    hide Canonical, Inv;
    if spec.Specified? && Value(a.ip) != Value(b.ip) {
      var low, high := if Value(a.ip) < Value(b.ip) then a else b, if Value(a.ip) < Value(b.ip) then b else a;
      ValueInjective(FromValue(Value(low.ip)), low.ip);
      assert false;
    }
    ValueInjective(a.ip, b.ip);
  }
}
